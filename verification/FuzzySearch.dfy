/**
 `fuzzy_search` over the tables of the store: candidates that share a gram with the query,
 scored by edit distance and ranked.

 The main result is that the gram index is a complete filter for close tokens: whatever run
 of calls has built the store, a live message with a token close to a token of the query is
 a candidate, unless one of the grams has more matches than the retrieval limit.
 */
module FuzzySearch {
  import opened Common
  import opened EditDistance
  import opened MessageStore
  import opened QGrams
  import opened Ranking
  import opened StoreInvariants
  import opened Tokenizer

  /** How many rows each gram may retrieve. */
  const MAX_CANDIDATES: nat := 200

  // ---------------------------------------------------------------------------
  // Similarity
  // ---------------------------------------------------------------------------

  /** The UTF-8 length of a character. */
  function Utf8Len(c: char): nat {
    var code := c as int;
    if code < 0x80 then 1 else if code < 0x800 then 2 else if code < 0x1_0000 then 3 else 4
  }

  function ByteLen(s: string): nat {
    if s == [] then 0 else ByteLen(s[..|s| - 1]) + Utf8Len(s[|s| - 1])
  }

  /** One minus a distance in characters over a length in bytes. */
  function Score(distance: nat, maxLen: nat): real {
    if maxLen == 0 then 0.0 else 1.0 - distance as real / maxLen as real
  }

  /** The longer of two byte lengths. */
  function Longest(a: string, b: string): nat {
    Max(ByteLen(a), ByteLen(b))
  }

  function Similarity(a: string, b: string): real {
    Score(Distance(a, b), Longest(a, b))
  }

  lemma {:induction false} ByteLenAtLeastChars(s: string)
    ensures |s| <= ByteLen(s)
    ensures ByteLen(s) == |s| <==> forall i :: 0 <= i < |s| ==> Utf8Len(s[i]) == 1
    decreases |s|
  {
    if s != [] {
      ByteLenAtLeastChars(s[..|s| - 1]);
    }
  }

  lemma ScoreBounds(distance: nat, maxLen: nat)
    requires distance <= maxLen
    ensures 0.0 <= Score(distance, maxLen) <= 1.0
    ensures Score(distance, maxLen) <= 0.0 <==> distance == maxLen
    ensures Score(distance, maxLen) == 1.0 <==> distance == 0 && maxLen > 0
  {
    if maxLen > 0 {
      var d, m := distance as real, maxLen as real;
      assert 0.0 <= d <= m;
      assert d / m * m == d;
      assert 0.0 <= d / m <= 1.0;
    }
  }

  /** The similarity is in [0, 1]; it is one exactly for equal texts. */
  lemma SimilarityBounds(a: string, b: string)
    ensures 0.0 <= Similarity(a, b) <= 1.0
    ensures Similarity(a, b) == Similarity(b, a)
    ensures Similarity(a, b) == 1.0 <==> a == b && a != []
  {
    DistanceBounds(a, b);
    DistanceSymmetric(a, b);
    DistanceZeroIffEqual(a, b);
    ByteLenAtLeastChars(a);
    ByteLenAtLeastChars(b);
    ScoreBounds(Distance(a, b), Max(ByteLen(a), ByteLen(b)));
  }

  lemma ScoreIsExact(distance: nat, maxLen: nat)
    requires maxLen > 0
    ensures (1.0 - Score(distance, maxLen)) * maxLen as real == distance as real
  {
    assert distance as real / maxLen as real * maxLen as real == distance as real;
  }

  lemma LongestIsPositive(a: string, b: string)
    requires a != [] || b != []
    ensures Longest(a, b) > 0
  {
    ByteLenAtLeastChars(a);
    ByteLenAtLeastChars(b);
  }

  /** What the similarity lacks of one, times the longer byte length, is the distance. */
  lemma SimilarityIsExact(a: string, b: string)
    requires a != [] || b != []
    ensures (1.0 - Similarity(a, b)) * Longest(a, b) as real == Distance(a, b) as real
  {
    LongestIsPositive(a, b);
    ScoreIsExact(Distance(a, b), Longest(a, b));
  }

  lemma ScaledOrder(x: real, y: real, m: nat, n: nat, d: nat, e: nat)
    requires m > 0 && n > 0 && x * m as real == d as real && y * n as real == e as real
    ensures x < y <==> d * n < e * m
    ensures x == y <==> d * n == e * m
  {
    var scale := m as real * n as real;
    assert scale > 0.0;
    assert x * scale == (d * n) as real;
    assert y * scale == (e * m) as real;
    if x < y {
      assert (y - x) * scale > 0.0;
    } else if x > y {
      assert (x - y) * scale > 0.0;
    }
  }

  lemma ScoreOrder(d: nat, m: nat, e: nat, n: nat)
    requires m > 0 && n > 0
    ensures Score(d, m) > Score(e, n) <==> d * n < e * m
    ensures Score(d, m) == Score(e, n) <==> d * n == e * m
  {
    ScoreIsExact(d, m);
    ScoreIsExact(e, n);
    ScaledOrder(1.0 - Score(d, m), 1.0 - Score(e, n), m, n, d, e);
  }

  /** Of two texts the one with the smaller distance, each in proportion to its length, is more similar to the query. */
  lemma SimilarityOrder(q: string, a: string, b: string)
    requires a != [] && b != []
    ensures Similarity(q, a) > Similarity(q, b) <==> Distance(q, a) * Longest(q, b) < Distance(q, b) * Longest(q, a)
    ensures Similarity(q, a) == Similarity(q, b) <==> Distance(q, a) * Longest(q, b) == Distance(q, b) * Longest(q, a)
  {
    LongestIsPositive(q, a);
    LongestIsPositive(q, b);
    ScoreOrder(Distance(q, a), Longest(q, a), Distance(q, b), Longest(q, b));
  }

  /**
   The filter for "at least some similarity" drops a text exactly when nothing of the longer
   one survives and neither is longer in bytes than that one is in characters.
   */
  lemma DroppedIff(a: string, b: string)
    ensures Similarity(a, b) <= 0.0 <==>
              && Distance(a, b) == Max(|a|, |b|)
              && Max(ByteLen(a), ByteLen(b)) == Max(|a|, |b|)
  {
    DistanceBounds(a, b);
    ByteLenAtLeastChars(a);
    ByteLenAtLeastChars(b);
    ScoreBounds(Distance(a, b), Max(ByteLen(a), ByteLen(b)));
  }

  // ---------------------------------------------------------------------------
  // Candidate retrieval
  // ---------------------------------------------------------------------------

  /** The messages the index query returns for a gram when it is not cut short. */
  function Matching(s: Store, gram: string): set<Id> {
    set r | r in s.fuzzy && r.gram == gram && IsLive(s, r.message) :: r.message
  }

  /** The grams of all tokens of the query. */
  ghost predicate QueryGram(lower: Lowercase, query: string, gram: string) {
    exists t :: t in Tokens(query) && gram in Grams(lower, t)
  }

  /** `LIMIT`: some rows, all of them when there are few enough. */
  method SelectMatching(s: Store, gram: string) returns (ids: set<Id>)
    ensures ids <= Matching(s, gram)
    ensures |ids| <= MAX_CANDIDATES
    ensures ids == Matching(s, gram) || |ids| == MAX_CANDIDATES
  {
    ids := {};
    var rest := Matching(s, gram);
    while rest != {} && |ids| < MAX_CANDIDATES
      invariant ids + rest == Matching(s, gram) && ids !! rest
      invariant |ids| <= MAX_CANDIDATES
      decreases rest
    {
      var id :| id in rest;
      ids, rest := ids + {id}, rest - {id};
    }
  }

  ghost predicate SharesGram(s: Store, grams: seq<string>, id: Id) {
    exists gram :: gram in grams && id in Matching(s, gram)
  }

  /** All messages of the grams that are not cut short. */
  ghost predicate HasAll(s: Store, grams: seq<string>, ids: set<Id>) {
    forall gram :: gram in grams && |Matching(s, gram)| <= MAX_CANDIDATES ==> Matching(s, gram) <= ids
  }

  lemma SharesQueryGram(s: Store, lower: Lowercase, query: string, t: Token, id: Id)
    requires t in Tokens(query) && SharesGram(s, Grams(lower, t), id)
    ensures exists gram :: QueryGram(lower, query, gram) && id in Matching(s, gram)
  {
    var gram :| gram in Grams(lower, t) && id in Matching(s, gram);
    assert QueryGram(lower, query, gram);
  }

  method Retrieve(s: Store, lower: Lowercase, query: string) returns (candidates: set<Id>)
    ensures forall id :: id in candidates ==>
              exists gram :: QueryGram(lower, query, gram) && id in Matching(s, gram)
    ensures forall gram :: QueryGram(lower, query, gram) && |Matching(s, gram)| <= MAX_CANDIDATES ==>
              Matching(s, gram) <= candidates
  {
    candidates := {};
    var tokens := Tokenize(query);
    var i := 0;
    while i < |tokens|
      invariant 0 <= i <= |tokens|
      invariant forall id :: id in candidates ==> exists t :: t in tokens && SharesGram(s, Grams(lower, t), id)
      invariant forall k :: 0 <= k < i ==> HasAll(s, Grams(lower, tokens[k]), candidates)
    {
      var more := RetrieveGrams(s, Grams(lower, tokens[i]));
      candidates := candidates + more;
      i := i + 1;
    }
    forall id | id in candidates
      ensures exists gram :: QueryGram(lower, query, gram) && id in Matching(s, gram)
    {
      var t :| t in tokens && SharesGram(s, Grams(lower, t), id);
      SharesQueryGram(s, lower, query, t, id);
    }
    forall gram | QueryGram(lower, query, gram) && |Matching(s, gram)| <= MAX_CANDIDATES
      ensures Matching(s, gram) <= candidates
    {
      var t :| t in tokens && gram in Grams(lower, t);
      var k :| 0 <= k < |tokens| && tokens[k] == t;
      assert HasAll(s, Grams(lower, tokens[k]), candidates);
    }
  }

  lemma OneMoreGram(s: Store, grams: seq<string>, j: nat, ids: set<Id>, rows: set<Id>)
    requires j < |grams| && HasAll(s, grams[..j], ids)
    requires rows <= Matching(s, grams[j])
    requires |Matching(s, grams[j])| <= MAX_CANDIDATES ==> rows == Matching(s, grams[j])
    ensures HasAll(s, grams[..j + 1], ids + rows)
    ensures forall id :: id in rows ==> SharesGram(s, grams, id)
  {
    forall gram | gram in grams[..j + 1] && |Matching(s, gram)| <= MAX_CANDIDATES
      ensures Matching(s, gram) <= ids + rows
    {
      assert grams[..j + 1] == grams[..j] + [grams[j]];
    }
    forall id | id in rows
      ensures SharesGram(s, grams, id)
    {
      assert grams[j] in grams && id in Matching(s, grams[j]);
    }
  }

  method RetrieveGrams(s: Store, grams: seq<string>) returns (ids: set<Id>)
    ensures forall id :: id in ids ==> SharesGram(s, grams, id)
    ensures HasAll(s, grams, ids)
  {
    ids := {};
    var j := 0;
    while j < |grams|
      invariant 0 <= j <= |grams|
      invariant forall id :: id in ids ==> SharesGram(s, grams, id)
      invariant HasAll(s, grams[..j], ids)
    {
      var rows := SelectMatching(s, grams[j]);
      FullSelection(rows, Matching(s, grams[j]));
      OneMoreGram(s, grams, j, ids, rows);
      ids := ids + rows;
      j := j + 1;
    }
    assert grams[..j] == grams;
  }

  lemma FullSelection(ids: set<Id>, all: set<Id>)
    requires ids <= all && (ids == all || |ids| == MAX_CANDIDATES)
    ensures |all| <= MAX_CANDIDATES ==> ids == all
  {
    if ids != all {
      var x :| x in all && x !in ids;
      SubsetSize(ids + {x}, all);
    }
  }

  lemma {:induction false} SubsetSize(x: set<Id>, y: set<Id>)
    requires x <= y
    ensures |x| <= |y|
    decreases x
  {
    if x != {} {
      var e :| e in x;
      SubsetSize(x - {e}, y - {e});
    }
  }

  // ---------------------------------------------------------------------------
  // Completeness
  // ---------------------------------------------------------------------------

  /** More messages have the gram than the query for it returns. */
  ghost predicate IsCutShort(s: Store, gram: string) {
    |Matching(s, gram)| > MAX_CANDIDATES
  }

  /** The grams that are cut short, with repeats. */
  ghost function CutShort(s: Store, grams: seq<string>): (cut: seq<string>)
    ensures |cut| <= |grams|
  {
    if grams == [] then []
    else
      var front, last := CutShort(s, grams[..|grams| - 1]), grams[|grams| - 1];
      if IsCutShort(s, last) then front + [last] else front
  }

  lemma {:induction false} CutShortCounts(s: Store, grams: seq<string>, gram: string)
    ensures multiset(CutShort(s, grams))[gram] == if IsCutShort(s, gram) then multiset(grams)[gram] else 0
    decreases |grams|
  {
    if grams != [] {
      CutShortCounts(s, grams[..|grams| - 1], gram);
      assert grams == grams[..|grams| - 1] + [grams[|grams| - 1]];
    }
  }

  lemma AllCutShort(s: Store, grams: seq<string>, shared: multiset<string>)
    requires shared <= multiset(grams) && forall g :: g in shared ==> IsCutShort(s, g)
    ensures |shared| <= |CutShort(s, grams)|
  {
    forall g
      ensures shared[g] <= multiset(CutShort(s, grams))[g]
    {
      CutShortCounts(s, grams, g);
    }
    SubBagSize(shared, multiset(CutShort(s, grams)));
    assert |multiset(CutShort(s, grams))| == |CutShort(s, grams)|;
  }

  /** A bag of windows that is larger than what is cut short has one that is not. */
  lemma SomeNotCutShort(s: Store, grams: seq<string>, shared: multiset<string>) returns (gram: string)
    requires shared <= multiset(grams) && |shared| > |CutShort(s, grams)|
    ensures gram in shared && !IsCutShort(s, gram)
  {
    if forall g :: g in shared ==> IsCutShort(s, g) {
      AllCutShort(s, grams, shared);
    }
    gram :| gram in shared && !IsCutShort(s, gram);
  }

  /** More windows of `x` survive in `y` than are cut short. */
  ghost predicate Survives(s: Store, x: string, y: string, q: nat)
    requires q > 0
  {
    |CutShort(s, Windows(x, q))| < |x| - q + 1 - q * Distance(x, y)
  }

  lemma SurvivorIsShared(s: Store, x: string, y: string, q: nat) returns (gram: string)
    requires q > 0 && Survives(s, x, y, q)
    ensures gram in Windows(x, q) && gram in Windows(y, q) && !IsCutShort(s, gram)
  {
    QGramLemma(x, y, q);
    gram := SomeNotCutShort(s, Windows(x, q), Bag(x, q) * Bag(y, q));
    assert gram in Bag(x, q) && gram in Bag(y, q);
  }

  /**
   The tokens are cut into grams of one size, and of either more windows survive in the other
   than are cut short; or they are equal, and some gram is not cut short.  Equal tokens may be
   shorter than a gram.
   */
  ghost predicate CloseTokens(s: Store, lower: Lowercase, a: Token, b: Token) {
    && GramSize(a.script) == GramSize(b.script)
    && var q, x, y := GramSize(a.script), Folded(lower, a), Folded(lower, b);
       || Survives(s, x, y, q)
       || Survives(s, y, x, q)
       || (x == y && exists gram :: gram in Grams(lower, a) && !IsCutShort(s, gram))
  }

  /** When nothing is cut short, it is enough that one of the tokens is long enough for their distance. */
  lemma LongTokensAreClose(s: Store, lower: Lowercase, a: Token, b: Token)
    requires GramSize(a.script) == GramSize(b.script)
    requires forall gram :: gram in Grams(lower, a) ==> !IsCutShort(s, gram)
    requires var q := GramSize(a.script);
             |a.text| >= q * Distance(Folded(lower, a), Folded(lower, b)) + q
    ensures CloseTokens(s, lower, a, b)
  {
    GramsAreWindows(lower, a);
    NoneCutShort(s, Grams(lower, a));
  }

  lemma {:induction false} NoneCutShort(s: Store, grams: seq<string>)
    requires forall gram :: gram in grams ==> !IsCutShort(s, gram)
    ensures CutShort(s, grams) == []
    decreases |grams|
  {
    if grams != [] {
      assert grams[|grams| - 1] in grams;
      NoneCutShort(s, grams[..|grams| - 1]);
    }
  }

  /** The grams of a token follow from its folded text and the gram size. */
  lemma GramsOfFolded(lower: Lowercase, a: Token, b: Token)
    requires GramSize(a.script) == GramSize(b.script) && Folded(lower, a) == Folded(lower, b)
    ensures Grams(lower, a) == Grams(lower, b)
  {
    if |a.text| >= GramSize(a.script) {
      assert |Folded(lower, a)| == |a.text| && |Folded(lower, b)| == |b.text|;
      GramsAreWindows(lower, a);
      GramsAreWindows(lower, b);
    }
  }

  lemma SharedWindowIsGram(lower: Lowercase, a: Token, gram: string)
    requires gram in Windows(Folded(lower, a), GramSize(a.script))
    ensures gram in Grams(lower, a)
  {
    assert |Folded(lower, a)| == |a.text|;
    GramsAreWindows(lower, a);
  }

  lemma CloseTokensShareGram(s: Store, lower: Lowercase, a: Token, b: Token) returns (gram: string)
    requires CloseTokens(s, lower, a, b)
    ensures gram in Grams(lower, a) && gram in Grams(lower, b) && !IsCutShort(s, gram)
  {
    var q := GramSize(a.script);
    var x, y := Folded(lower, a), Folded(lower, b);
    if Survives(s, x, y, q) || Survives(s, y, x, q) {
      if Survives(s, x, y, q) {
        gram := SurvivorIsShared(s, x, y, q);
      } else {
        gram := SurvivorIsShared(s, y, x, q);
      }
      SharedWindowIsGram(lower, a, gram);
      SharedWindowIsGram(lower, b, gram);
    } else {
      GramsOfFolded(lower, a, b);
      gram :| gram in Grams(lower, a) && !IsCutShort(s, gram);
    }
  }

  /** Some token of the text is close to some token of the query. */
  ghost predicate IsClose(s: Store, lower: Lowercase, query: string, text: string) {
    exists a, b :: a in Tokens(query) && b in Tokens(text) && CloseTokens(s, lower, a, b)
  }

  /** The index never misses a close message whose own index rows are exact. */
  lemma CloseMessageIsMatched(s: Store, lower: Lowercase, query: string, id: Id) returns (gram: string)
    requires RowsExact(lower, s, id) && Indexed(s, id) && IsClose(s, lower, query, s.bodies[id])
    ensures QueryGram(lower, query, gram) && !IsCutShort(s, gram)
    ensures id in Matching(s, gram)
  {
    var a, b :| a in Tokens(query) && b in Tokens(s.bodies[id]) && CloseTokens(s, lower, a, b);
    gram := CloseTokensShareGram(s, lower, a, b);
    var row := FuzzyRow(gram, b.script, id);
    RowsOfTokensMembers(lower, Tokens(s.bodies[id]), id, row);
    assert row in FuzzyOf(s.fuzzy, id);
  }

  /** Those of every message with a body are exact, whatever run of calls has built the store. */
  lemma CloseMessageIsMatchedAfterRun(
    lower: Lowercase, conversations: map<Id, Conversation>, ops: seq<Op>, query: string, id: Id)
    requires var s := Run(lower, EmptyStore(conversations), ops);
             Indexed(s, id) && IsClose(s, lower, query, s.bodies[id])
    ensures exists gram ::
              QueryGram(lower, query, gram) && id in Matching(Run(lower, EmptyStore(conversations), ops), gram)
  {
    RowsExactIff(lower, conversations, ops, id);
    var gram := CloseMessageIsMatched(Run(lower, EmptyStore(conversations), ops), lower, query, id);
  }

  // ---------------------------------------------------------------------------
  // The search
  // ---------------------------------------------------------------------------

  /** The hit of a live message with a text. */
  function HitOf(s: Store, lower: Lowercase, query: string, id: Id): Hit
    requires id in s.skeletons && id in s.bodies
  {
    var k := s.skeletons[id];
    Hit(id, k.conversation, k.sender, k.createdAt,
        Similarity(Lower(lower, query), Lower(lower, s.bodies[id])), [])
  }

  /** The message has a text, and the text some similarity with the query. */
  predicate Scores(s: Store, lower: Lowercase, query: string, id: Id) {
    && id in s.skeletons
    && id in s.bodies
    && s.bodies[id] != []
    && HitOf(s, lower, query, id).score > 0.0
  }

  /** What a hit of the search says about its message. */
  ghost predicate IsFuzzyHit(s: Store, lower: Lowercase, query: string, h: Hit) {
    && IsLive(s, h.id)
    && Scores(s, lower, query, h.id)
    && h == HitOf(s, lower, query, h.id)
    && exists gram :: QueryGram(lower, query, gram) && h.id in Matching(s, gram)
  }

  /** Message `a` is no farther from the query than `b`, in proportion, and no older if as far. */
  ghost predicate Closer(s: Store, lower: Lowercase, query: string, a: Id, b: Id) {
    && a in s.skeletons && a in s.bodies && b in s.skeletons && b in s.bodies
    && var q, x, y := Lower(lower, query), Lower(lower, s.bodies[a]), Lower(lower, s.bodies[b]);
       var d, e := Distance(q, x) * Longest(q, y), Distance(q, y) * Longest(q, x);
       d < e || (d == e && s.skeletons[a].createdAt >= s.skeletons[b].createdAt)
  }

  /** Hits rank as their messages are close to the query. */
  lemma RanksIffCloser(s: Store, lower: Lowercase, query: string, a: Id, b: Id)
    requires Scores(s, lower, query, a) && Scores(s, lower, query, b)
    ensures Ranks(HitOf(s, lower, query, a), HitOf(s, lower, query, b)) <==> Closer(s, lower, query, a, b)
  {
    SimilarityOrder(Lower(lower, query), Lower(lower, s.bodies[a]), Lower(lower, s.bodies[b]));
  }

  /** The hit carries the row of its message. */
  ghost predicate TellsRow(s: Store, h: Hit) {
    && h.id in s.skeletons
    && h.conversation == s.skeletons[h.id].conversation
    && h.sender == s.skeletons[h.id].sender
    && h.createdAt == s.skeletons[h.id].createdAt
  }

  /** A close message with exact index rows that has some similarity with the query. */
  ghost predicate IsExpected(s: Store, lower: Lowercase, query: string, id: Id) {
    && RowsExact(lower, s, id)
    && Indexed(s, id)
    && IsClose(s, lower, query, s.bodies[id])
    && Scores(s, lower, query, id)
  }

  /** A text equal to the query is expected, if any of its grams is not cut short. */
  lemma EqualTextIsExpected(s: Store, lower: Lowercase, query: string, id: Id, token: Token, gram: string)
    requires RowsExact(lower, s, id) && Indexed(s, id) && s.bodies[id] == query && query != []
    requires token in Tokens(query) && gram in Grams(lower, token) && !IsCutShort(s, gram)
    ensures IsExpected(s, lower, query, id)
  {
    assert CloseTokens(s, lower, token, token);
    SimilarityBounds(Lower(lower, query), Lower(lower, query));
  }

  method ScoreCandidates(s: Store, lower: Lowercase, query: string, candidates: set<Id>) returns (hits: seq<Hit>)
    requires forall id :: id in candidates ==> id in s.skeletons
    ensures DistinctIds(hits)
    ensures forall h :: h in hits <==>
              h.id in candidates && Scores(s, lower, query, h.id) && h == HitOf(s, lower, query, h.id)
  {
    hits := [];
    var folded := Lower(lower, query);
    var rest := candidates;
    while rest != {}
      invariant rest <= candidates
      invariant DistinctIds(hits)
      invariant forall h :: h in hits <==>
                  h.id in candidates - rest && Scores(s, lower, query, h.id) && h == HitOf(s, lower, query, h.id)
      decreases rest
    {
      var id :| id in rest;
      rest := rest - {id};
      if id in s.bodies && s.bodies[id] != [] {
        var text := Lower(lower, s.bodies[id]);
        var distance := Levenshtein(folded, text);
        var similarity := Score(distance, Max(ByteLen(folded), ByteLen(text)));
        if similarity > 0.0 {
          var k := s.skeletons[id];
          hits := AddHit(hits, Hit(id, k.conversation, k.sender, k.createdAt, similarity, []));
        }
      }
    }
  }

  function AddHit(hits: seq<Hit>, h: Hit): (r: seq<Hit>)
    requires DistinctIds(hits) && forall x :: x in hits ==> x.id != h.id
    ensures DistinctIds(r)
    ensures forall x :: x in r <==> x in hits || x == h
  {
    assert forall i :: 0 <= i < |hits| ==> hits[i] in hits;
    hits + [h]
  }

  method Search(s: Store, lower: Lowercase, query: string, limit: nat) returns (hits: seq<Hit>)
    ensures |hits| <= limit && Ranked(hits) && DistinctIds(hits)
    ensures forall h :: h in hits ==> IsFuzzyHit(s, lower, query, h) && TellsRow(s, h)
    ensures forall i, j :: 0 <= i < j < |hits| ==> Closer(s, lower, query, hits[i].id, hits[j].id)
    ensures forall id :: IsExpected(s, lower, query, id) ==>
              var h := HitOf(s, lower, query, id);
              || h in hits
              || (|hits| == limit && forall b :: b in hits ==> Ranks(b, h) && Closer(s, lower, query, b.id, id))
  {
    var candidates := Retrieve(s, lower, query);
    assert forall id :: id in candidates ==> IsLive(s, id);
    var scored := ScoreCandidates(s, lower, query, candidates);
    BestOf(scored, limit);
    hits := Take(Sort(scored), limit);
    forall id | IsExpected(s, lower, query, id)
      ensures HitOf(s, lower, query, id) in scored
    {
      var gram := CloseMessageIsMatched(s, lower, query, id);
      assert Matching(s, gram) <= candidates;
    }
    RankedIsCloser(s, lower, query, hits);
  }

  /** A list of hits in rank order is a list of messages in order of closeness, and what it beats is less close. */
  lemma RankedIsCloser(s: Store, lower: Lowercase, query: string, hits: seq<Hit>)
    requires Ranked(hits)
    requires forall h :: h in hits ==> Scores(s, lower, query, h.id) && h == HitOf(s, lower, query, h.id)
    ensures forall i, j :: 0 <= i < j < |hits| ==> Closer(s, lower, query, hits[i].id, hits[j].id)
    ensures forall id, b :: Scores(s, lower, query, id) && b in hits && Ranks(b, HitOf(s, lower, query, id)) ==>
              Closer(s, lower, query, b.id, id)
  {
    forall i, j | 0 <= i < j < |hits|
      ensures Closer(s, lower, query, hits[i].id, hits[j].id)
    {
      assert hits[i] in hits && hits[j] in hits;
      RanksIffCloser(s, lower, query, hits[i].id, hits[j].id);
    }
    forall id, b | Scores(s, lower, query, id) && b in hits && Ranks(b, HitOf(s, lower, query, id))
      ensures Closer(s, lower, query, b.id, id)
    {
      RanksIffCloser(s, lower, query, b.id, id);
    }
  }
}

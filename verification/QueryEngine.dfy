/**
 `execute_search` of `search/query_engine.rs`: full-text hits, fuzzy hits when there are few
 of those, snippets, filters, one hit per message, rank, truncate.

 `Merge` is the pipeline as a function of the two hit lists; `ExecuteSearch` runs its loops.
 How a snippet is cut from a text for a query is a parameter.
 */
module QueryEngine {
  import opened Common
  import opened Deletion
  import opened FuzzySearch
  import opened MessageStore
  import opened Ranking
  import opened StoreInvariants
  import opened Tokenizer

  const LIMIT: nat := 50

  datatype ContentKind = TextContent | MediaContent | DocumentContent | LinkContent

  datatype Query = Query(
    text: string,
    sender: Option<Id>,
    conversation: Option<Id>,
    dateFrom: Option<i64>,
    dateTo: Option<i64>,
    contentKind: Option<ContentKind>)

  type Snippets = (string, string) -> string

  predicate Contains(s: string, t: string) {
    t <= s || (s != [] && Contains(s[1..], t))
  }

  predicate MatchesKind(s: Store, h: Hit, kind: ContentKind) {
    match kind
    case TextContent => h.id in s.skeletons && s.skeletons[h.id].kind == Text
    case MediaContent | DocumentContent => h.id in s.skeletons && s.skeletons[h.id].kind == Media
    case LinkContent => Contains(h.snippet, "http://") || Contains(h.snippet, "https://")
  }

  /** The post-filters.  The conversation of the query is not among them. */
  predicate Passes(s: Store, q: Query, h: Hit) {
    && (q.sender.Some? ==> h.sender == q.sender.value)
    && (q.dateFrom.Some? ==> h.createdAt >= q.dateFrom.value)
    && (q.dateTo.Some? ==> h.createdAt <= q.dateTo.value)
    && (q.contentKind.Some? ==> MatchesKind(s, h, q.contentKind.value))
  }

  function Retained(s: Store, q: Query, hits: seq<Hit>): seq<Hit> {
    if hits == [] then []
    else
      var front, h := Retained(s, q, hits[..|hits| - 1]), hits[|hits| - 1];
      if Passes(s, q, h) then front + [h] else front
  }

  ghost function HitIds(hits: seq<Hit>): set<Id> {
    set h | h in hits :: h.id
  }

  /** The first hit of each message. */
  ghost function Deduplicated(hits: seq<Hit>): seq<Hit> {
    if hits == [] then []
    else
      var front, h := hits[..|hits| - 1], hits[|hits| - 1];
      if h.id in HitIds(front) then Deduplicated(front) else Deduplicated(front) + [h]
  }

  /** A hit that has no snippet gets one from the text of its message. */
  function WithSnippet(s: Store, snippets: Snippets, q: Query, h: Hit): Hit {
    if h.snippet == [] && h.id in s.bodies then h.(snippet := snippets(s.bodies[h.id], q.text)) else h
  }

  function WithSnippets(s: Store, snippets: Snippets, q: Query, hits: seq<Hit>): seq<Hit> {
    seq(|hits|, i requires 0 <= i < |hits| => WithSnippet(s, snippets, q, hits[i]))
  }

  /** The hits of both searches with their snippets, before any of them is dropped. */
  function Collected(s: Store, snippets: Snippets, q: Query, text: seq<Hit>, fuzzy: seq<Hit>): seq<Hit> {
    WithSnippets(s, snippets, q, if |text| < LIMIT / 2 then text + fuzzy else text)
  }

  ghost function Merge(s: Store, snippets: Snippets, q: Query, text: seq<Hit>, fuzzy: seq<Hit>): seq<Hit> {
    Take(Sort(Deduplicated(Retained(s, q, Collected(s, snippets, q, text, fuzzy)))), LIMIT)
  }

  // ---------------------------------------------------------------------------
  // The parts
  // ---------------------------------------------------------------------------

  lemma {:induction false} RetainedMembers(s: Store, q: Query, hits: seq<Hit>)
    ensures forall h :: h in Retained(s, q, hits) <==> h in hits && Passes(s, q, h)
    decreases |hits|
  {
    if hits != [] {
      var front, last := hits[..|hits| - 1], hits[|hits| - 1];
      RetainedMembers(s, q, front);
      assert hits == front + [last];
    }
  }

  lemma HitIdsSnoc(hits: seq<Hit>, h: Hit)
    ensures HitIds(hits + [h]) == HitIds(hits) + {h.id}
  {
    assert forall x :: x in hits + [h] <==> x in hits || x == h;
  }

  lemma {:induction false} DeduplicatedMembers(hits: seq<Hit>)
    ensures DistinctIds(Deduplicated(hits))
    ensures HitIds(Deduplicated(hits)) == HitIds(hits)
    ensures forall h :: h in Deduplicated(hits) ==> h in hits
    decreases |hits|
  {
    if hits != [] {
      var front, h := hits[..|hits| - 1], hits[|hits| - 1];
      DeduplicatedMembers(front);
      assert hits == front + [h];
      HitIdsSnoc(front, h);
      if h.id !in HitIds(front) {
        HitIdsSnoc(Deduplicated(front), h);
        forall x | x in Deduplicated(front)
          ensures x.id != h.id
        {
          assert x.id in HitIds(Deduplicated(front));
        }
        assert Deduplicated(hits) == AddHit(Deduplicated(front), h);
      }
    }
  }

  /** A hit whose message came up before it is not the one that is kept. */
  lemma {:induction false} FirstIsKept(hits: seq<Hit>, i: nat)
    requires i < |hits| && hits[i].id !in HitIds(hits[..i])
    ensures hits[i] in Deduplicated(hits)
    decreases |hits|
  {
    var front, h := hits[..|hits| - 1], hits[|hits| - 1];
    if i == |front| {
      assert hits[..i] == front;
    } else {
      assert front[..i] == hits[..i] && front[i] == hits[i];
      FirstIsKept(front, i);
    }
  }

  // ---------------------------------------------------------------------------
  // The pipeline
  // ---------------------------------------------------------------------------

  /** Ranked, one hit per message, at most fifty, each of them collected and past the filters. */
  lemma MergeIsSound(s: Store, snippets: Snippets, q: Query, text: seq<Hit>, fuzzy: seq<Hit>)
    ensures var r := Merge(s, snippets, q, text, fuzzy);
            && |r| <= LIMIT
            && Ranked(r)
            && DistinctIds(r)
            && (forall h :: h in r ==> h in Collected(s, snippets, q, text, fuzzy) && Passes(s, q, h))
  {
    var retained := Retained(s, q, Collected(s, snippets, q, text, fuzzy));
    RetainedMembers(s, q, Collected(s, snippets, q, text, fuzzy));
    DeduplicatedMembers(retained);
    BestOf(Deduplicated(retained), LIMIT);
  }

  lemma {:induction false} FirstOf(hits: seq<Hit>, id: Id) returns (i: nat)
    requires id in HitIds(hits)
    ensures i < |hits| && hits[i].id == id && id !in HitIds(hits[..i])
    decreases |hits|
  {
    var front := hits[..|hits| - 1];
    if id in HitIds(front) {
      i := FirstOf(front, id);
      assert front[..i] == hits[..i];
    } else {
      i := |front|;
      assert hits == front + [hits[i]];
      HitIdsSnoc(front, hits[i]);
    }
  }

  /**
   For a message with a hit past the filters the first such hit counts: it is returned, or
   fifty others are and none of them ranks behind it.
   */
  lemma MergeIsComplete(s: Store, snippets: Snippets, q: Query, text: seq<Hit>, fuzzy: seq<Hit>, id: Id)
    returns (i: nat)
    requires id in HitIds(Retained(s, q, Collected(s, snippets, q, text, fuzzy)))
    ensures var retained := Retained(s, q, Collected(s, snippets, q, text, fuzzy));
            var r := Merge(s, snippets, q, text, fuzzy);
            && i < |retained| && retained[i].id == id && id !in HitIds(retained[..i])
            && (retained[i] in r || (|r| == LIMIT && forall b :: b in r ==> Ranks(b, retained[i])))
  {
    var retained := Retained(s, q, Collected(s, snippets, q, text, fuzzy));
    i := FirstOf(retained, id);
    FirstIsKept(retained, i);
    DeduplicatedMembers(retained);
    BestOf(Deduplicated(retained), LIMIT);
  }

  lemma CollectedMembers(s: Store, snippets: Snippets, q: Query, text: seq<Hit>, fuzzy: seq<Hit>, h: Hit)
    ensures h in Collected(s, snippets, q, text, fuzzy) <==>
              exists g :: (g in text || (|text| < LIMIT / 2 && g in fuzzy)) && h == WithSnippet(s, snippets, q, g)
  {
    var hits := if |text| < LIMIT / 2 then text + fuzzy else text;
    var all := Collected(s, snippets, q, text, fuzzy);
    assert forall g :: g in hits <==> g in text || (|text| < LIMIT / 2 && g in fuzzy);
    if h in all {
      var i :| 0 <= i < |all| && all[i] == h;
      assert hits[i] in hits && h == WithSnippet(s, snippets, q, hits[i]);
    }
    forall g | g in hits && h == WithSnippet(s, snippets, q, g)
      ensures h in all
    {
      var i :| 0 <= i < |hits| && hits[i] == g;
      assert all[i] == h;
    }
  }

  /** The first passing hit of a message is the first hit of it among those that pass. */
  lemma {:induction false} RetainedFirst(s: Store, q: Query, hits: seq<Hit>, i: nat) returns (k: nat)
    requires i < |hits| && Passes(s, q, hits[i])
    requires forall j :: 0 <= j < i && hits[j].id == hits[i].id ==> !Passes(s, q, hits[j])
    ensures k < |Retained(s, q, hits)| && Retained(s, q, hits)[k] == hits[i]
    ensures hits[i].id !in HitIds(Retained(s, q, hits)[..k])
    decreases |hits|
  {
    var front := hits[..|hits| - 1];
    if i == |front| {
      k := |Retained(s, q, front)|;
      RetainedMembers(s, q, front);
      assert Retained(s, q, hits)[..k] == Retained(s, q, front);
    } else {
      k := RetainedFirst(s, q, front, i);
      assert Retained(s, q, hits)[..k] == Retained(s, q, front)[..k];
    }
  }

  /** No earlier full-text hit of the message passes. */
  ghost predicate Stands(s: Store, snippets: Snippets, q: Query, text: seq<Hit>, i: nat)
    requires i < |text|
  {
    && Passes(s, q, WithSnippet(s, snippets, q, text[i]))
    && forall j :: 0 <= j < i && text[j].id == text[i].id ==> !Passes(s, q, WithSnippet(s, snippets, q, text[j]))
  }

  /**
   The first full-text hit of a message that passes stands for the message, whatever fuzzy search
   has found: no result with its id is another hit.  It is returned, or fifty others are, none of
   them behind it.
   */
  lemma TextHitStands(s: Store, snippets: Snippets, q: Query, text: seq<Hit>, fuzzy: seq<Hit>, i: nat)
    requires i < |text| && Stands(s, snippets, q, text, i)
    ensures var full, r := WithSnippet(s, snippets, q, text[i]), Merge(s, snippets, q, text, fuzzy);
            && (forall h :: h in r && h.id == text[i].id ==> h == full)
            && (full in r || (|r| == LIMIT && forall b :: b in r ==> Ranks(b, full)))
  {
    var k := TextHitIsFirst(s, snippets, q, text, fuzzy, i);
    FirstStands(Retained(s, q, Collected(s, snippets, q, text, fuzzy)), k);
  }

  lemma TextHitIsFirst(s: Store, snippets: Snippets, q: Query, text: seq<Hit>, fuzzy: seq<Hit>, i: nat) returns (k: nat)
    requires i < |text| && Stands(s, snippets, q, text, i)
    ensures var retained := Retained(s, q, Collected(s, snippets, q, text, fuzzy));
            && k < |retained| && retained[k] == WithSnippet(s, snippets, q, text[i])
            && retained[k].id !in HitIds(retained[..k])
  {
    var collected := Collected(s, snippets, q, text, fuzzy);
    assert forall j :: 0 <= j <= i ==> collected[j] == WithSnippet(s, snippets, q, text[j]);
    k := RetainedFirst(s, q, collected, i);
  }

  /** The first hit of a message in a list is the only one of it that can be among the best of the list. */
  lemma FirstStands(hits: seq<Hit>, k: nat)
    requires k < |hits| && hits[k].id !in HitIds(hits[..k])
    ensures var best := Take(Sort(Deduplicated(hits)), LIMIT);
            && (forall h :: h in best && h.id == hits[k].id ==> h == hits[k])
            && (hits[k] in best || (|best| == LIMIT && forall b :: b in best ==> Ranks(b, hits[k])))
  {
    FirstIsKept(hits, k);
    DeduplicatedMembers(hits);
    BestOf(Deduplicated(hits), LIMIT);
  }

  /** A fuzzy hit that passes and has its message to itself is the first hit of that message. */
  lemma FuzzyHitIsFirst(s: Store, snippets: Snippets, q: Query, text: seq<Hit>, fuzzy: seq<Hit>, hit: Hit)
    returns (i: nat)
    requires |text| < LIMIT / 2 && hit in fuzzy && Passes(s, q, WithSnippet(s, snippets, q, hit))
    requires DistinctIds(fuzzy) && forall h :: h in text ==> h.id != hit.id
    ensures var retained := Retained(s, q, Collected(s, snippets, q, text, fuzzy));
            && i < |retained| && retained[i] == WithSnippet(s, snippets, q, hit)
            && retained[i].id !in HitIds(retained[..i])
  {
    var retained, full := Retained(s, q, Collected(s, snippets, q, text, fuzzy)), WithSnippet(s, snippets, q, hit);
    RetainedMembers(s, q, Collected(s, snippets, q, text, fuzzy));
    CollectedMembers(s, snippets, q, text, fuzzy, full);
    assert full in retained && full.id in HitIds(retained);
    i := FirstOf(retained, full.id);
    CollectedMembers(s, snippets, q, text, fuzzy, retained[i]);
    var g :| (g in text || g in fuzzy) && retained[i] == WithSnippet(s, snippets, q, g);
    assert g == hit;
  }

  /**
   Such a hit is returned, or fifty others are and none of them is behind it.  It is returned if
   no more than fifty were found.
   */
  lemma FuzzyHitIsReturned(s: Store, snippets: Snippets, q: Query, text: seq<Hit>, fuzzy: seq<Hit>, hit: Hit)
    requires |text| < LIMIT / 2 && hit in fuzzy && Passes(s, q, WithSnippet(s, snippets, q, hit))
    requires DistinctIds(fuzzy) && forall h :: h in text ==> h.id != hit.id
    ensures var full, r := WithSnippet(s, snippets, q, hit), Merge(s, snippets, q, text, fuzzy);
            && (full in r || (|r| == LIMIT && forall b :: b in r ==> Ranks(b, full)))
            && (|text| + |fuzzy| <= LIMIT ==> full in r)
  {
    var retained := Retained(s, q, Collected(s, snippets, q, text, fuzzy));
    var i := FuzzyHitIsFirst(s, snippets, q, text, fuzzy, hit);
    FirstIsKept(retained, i);
    DeduplicatedMembers(retained);
    BestOf(Deduplicated(retained), LIMIT);
    SameMembers(Sort(Deduplicated(retained)), Deduplicated(retained));
    RetainedSize(s, q, Collected(s, snippets, q, text, fuzzy));
    DeduplicatedSize(retained);
  }

  /** No other hit can stand for a hit that was not found. */
  lemma NotFoundIsNotReturned(s: Store, snippets: Snippets, q: Query, text: seq<Hit>, fuzzy: seq<Hit>, hit: Hit)
    requires forall h :: h in text ==> h.id != hit.id
    requires forall h :: |text| < LIMIT / 2 && h in fuzzy ==> h.id != hit.id
    ensures WithSnippet(s, snippets, q, hit) !in Merge(s, snippets, q, text, fuzzy)
  {
    MergeIsSound(s, snippets, q, text, fuzzy);
    CollectedMembers(s, snippets, q, text, fuzzy, WithSnippet(s, snippets, q, hit));
  }

  /**
   A query may name a conversation, but only the full-text search looks at it.  A fuzzy hit
   from elsewhere that passes the filters is never returned when fuzzy search does not run; when
   it does, it is returned unless fifty others are, none of them behind it.  So if both searches
   together found no more than fifty, it is returned exactly when fuzzy search runs.
   */
  lemma ForeignHitReturnedIff(
    s: Store, snippets: Snippets, q: Query, text: seq<Hit>, fuzzy: seq<Hit>, foreign: Hit)
    requires q.conversation.Some? && foreign.conversation != q.conversation.value
    requires foreign in fuzzy && DistinctIds(fuzzy) && Passes(s, q, WithSnippet(s, snippets, q, foreign))
    requires forall h :: h in text ==> h.conversation == q.conversation.value && h.id != foreign.id
    ensures var full, r := WithSnippet(s, snippets, q, foreign), Merge(s, snippets, q, text, fuzzy);
            && (|text| >= LIMIT / 2 ==> full !in r)
            && (|text| < LIMIT / 2 ==> full in r || (|r| == LIMIT && forall b :: b in r ==> Ranks(b, full)))
            && (|text| + |fuzzy| <= LIMIT ==> (full in r <==> |text| < LIMIT / 2))
  {
    if |text| < LIMIT / 2 {
      FuzzyHitIsReturned(s, snippets, q, text, fuzzy, foreign);
    } else {
      NotFoundIsNotReturned(s, snippets, q, text, fuzzy, foreign);
    }
  }

  /** Such hits are there: a message is expected in every search for its own text, whatever the conversation. */
  lemma ForeignHitIsReachable(
    lower: Lowercase, m: Message, conversation: Conversation, now: i64, query: string, elsewhere: Id)
    requires ValidIngest(m) && m.text == Some(query) && Tokens(query) != [] && elsewhere != m.conversation
    ensures var start := EmptyStore(map[m.conversation := conversation]);
            var s := Run(lower, start, [Ingest(m, now, IngestStatements(m))]);
            IsExpected(s, lower, query, m.id) && HitOf(s, lower, query, m.id).conversation != elsewhere
  {
    var start, ops := EmptyStore(map[m.conversation := conversation]), [Ingest(m, now, IngestStatements(m))];
    var s := AfterIngest(lower, start, m, now);
    assert ops[..1] == ops;
    RunOfOne(lower, start, ops);
    RowsExactIff(lower, map[m.conversation := conversation], ops, m.id);
    var token := Tokens(query)[0];
    var gram := Grams(lower, token)[0];
    SubsetSize(Matching(s, gram), {m.id});
    EqualTextIsExpected(s, lower, query, m.id, token, gram);
  }

  lemma {:induction false} RetainedSize(s: Store, q: Query, hits: seq<Hit>)
    ensures |Retained(s, q, hits)| <= |hits|
    decreases |hits|
  {
    if hits != [] {
      RetainedSize(s, q, hits[..|hits| - 1]);
    }
  }

  lemma {:induction false} DeduplicatedSize(hits: seq<Hit>)
    ensures |Deduplicated(hits)| <= |hits|
    decreases |hits|
  {
    if hits != [] {
      DeduplicatedSize(hits[..|hits| - 1]);
    }
  }

  // ---------------------------------------------------------------------------
  // The engine
  // ---------------------------------------------------------------------------

  /** A full-text hit carries the id of a full-text row, and no snippet yet. */
  ghost predicate FromFts(s: Store, text: seq<Hit>) {
    forall h :: h in text ==> h.snippet == [] && exists r :: r in s.fts && r.message == h.id
  }

  /** The snippet is that of the text of the message, if it has one. */
  ghost predicate Snips(s: Store, snippets: Snippets, q: Query, h: Hit) {
    h.snippet == if h.id in s.bodies then snippets(s.bodies[h.id], q.text) else []
  }

  /** The best fifty of the fuzzy hits: what is expected and not among them is behind all of them. */
  ghost predicate BestFuzzy(s: Store, lower: Lowercase, query: string, fuzzy: seq<Hit>) {
    && |fuzzy| <= LIMIT && Ranked(fuzzy) && DistinctIds(fuzzy)
    && (forall h :: h in fuzzy ==> IsFuzzyHit(s, lower, query, h))
    && (forall id :: IsExpected(s, lower, query, id) ==>
          var h := HitOf(s, lower, query, id);
          h in fuzzy || (|fuzzy| == LIMIT && forall b :: b in fuzzy ==> Ranks(b, h)))
  }

  /**
   What becomes of an expected message that passes the filters and has no full-text hit.  Fuzzy
   search keeps its best fifty hits before any filter is applied: if the message is among them,
   it is returned, or fifty others are, none of them behind it; if it is not, it is not returned,
   and fifty hits, none of them behind it, have kept it out, whether or not they pass the filters.
   So when fewer than fifty are returned, it is among them exactly when it was among the fifty.
   */
  lemma ExpectedHitReturnedIff(
    s: Store, lower: Lowercase, snippets: Snippets, q: Query, text: seq<Hit>, fuzzy: seq<Hit>, id: Id)
    requires |text| < LIMIT / 2 && BestFuzzy(s, lower, q.text, fuzzy) && IsExpected(s, lower, q.text, id)
    requires Passes(s, q, WithSnippet(s, snippets, q, HitOf(s, lower, q.text, id)))
    requires forall h :: h in text ==> h.id != id
    ensures var h, r := HitOf(s, lower, q.text, id), Merge(s, snippets, q, text, fuzzy);
            var full := WithSnippet(s, snippets, q, h);
            && (h in fuzzy ==> full in r || (|r| == LIMIT && forall b :: b in r ==> Ranks(b, full)))
            && (h !in fuzzy ==> full !in r && |fuzzy| == LIMIT && forall b :: b in fuzzy ==> Ranks(b, h))
            && (|r| < LIMIT ==> (full in r <==> h in fuzzy))
  {
    var h := HitOf(s, lower, q.text, id);
    if h in fuzzy {
      FuzzyHitIsReturned(s, snippets, q, text, fuzzy, h);
    } else {
      NotFoundIsNotReturned(s, snippets, q, text, fuzzy, h);
    }
  }

  /** Better score first, then the newer message. */
  ghost predicate InOrder(hits: seq<Hit>) {
    forall i, j :: 0 <= i < j < |hits| ==>
      hits[i].score > hits[j].score || (hits[i].score == hits[j].score && hits[i].createdAt >= hits[j].createdAt)
  }

  /** What the query asks for. */
  ghost predicate Answers(s: Store, q: Query, h: Hit) {
    && (match q.sender case None => true case Some(sender) => h.sender == sender)
    && (match q.dateFrom case None => true case Some(from) => from <= h.createdAt)
    && (match q.dateTo case None => true case Some(to) => h.createdAt <= to)
    && (match q.contentKind
        case None => true
        case Some(TextContent) => h.id in s.skeletons && s.skeletons[h.id].kind == Text
        case Some(LinkContent) => HasLink(h.snippet)
        case Some(_) => h.id in s.skeletons && s.skeletons[h.id].kind == Media)
  }

  /** The snippet has the beginning of a web address somewhere. */
  ghost predicate HasLink(s: string) {
    Occurs(s, "http://") || Occurs(s, "https://")
  }

  ghost predicate Occurs(s: string, t: string) {
    exists i :: 0 <= i <= |s| && t <= s[i..]
  }

  lemma {:induction false} ContainsIff(s: string, t: string)
    ensures Contains(s, t) <==> Occurs(s, t)
    decreases |s|
  {
    assert s[0..] == s;
    if s != [] {
      ContainsIff(s[1..], t);
      if i :| 0 <= i <= |s[1..]| && t <= s[1..][i..] {
        assert s[1..][i..] == s[i + 1..];
      }
      if i :| 0 < i <= |s| && t <= s[i..] {
        assert s[1..][i - 1..] == s[i..];
      }
    }
  }

  lemma PassesIffAnswers(s: Store, q: Query, h: Hit)
    ensures Passes(s, q, h) <==> Answers(s, q, h)
  {
    ContainsIff(h.snippet, "http://");
    ContainsIff(h.snippet, "https://");
  }

  /** For every message with a full-text hit that passes, the first such hit stands. */
  ghost predicate TextStands(s: Store, snippets: Snippets, q: Query, text: seq<Hit>, results: seq<Hit>) {
    forall i :: 0 <= i < |text| && Stands(s, snippets, q, text, i) ==>
      StandsIn(results, WithSnippet(s, snippets, q, text[i]))
  }

  /** No other hit of the message is returned; the hit is, or fifty others are that come before it. */
  ghost predicate StandsIn(results: seq<Hit>, full: Hit) {
    && (forall h :: h in results && h.id == full.id ==> h == full)
    && (full in results || (|results| == LIMIT && InOrder(results + [full])))
  }

  lemma BeatenIsInOrder(results: seq<Hit>, full: Hit)
    requires Ranked(results) && forall b :: b in results ==> Ranks(b, full)
    ensures InOrder(results + [full])
  {
    assert forall j :: 0 <= j < |results| ==> results[j] in results;
  }

  lemma MergeStands(s: Store, snippets: Snippets, q: Query, text: seq<Hit>, fuzzy: seq<Hit>)
    ensures TextStands(s, snippets, q, text, Merge(s, snippets, q, text, fuzzy))
  {
    var r := Merge(s, snippets, q, text, fuzzy);
    MergeIsSound(s, snippets, q, text, fuzzy);
    forall i | 0 <= i < |text| && Stands(s, snippets, q, text, i)
      ensures StandsIn(r, WithSnippet(s, snippets, q, text[i]))
    {
      TextHitStands(s, snippets, q, text, fuzzy, i);
      if WithSnippet(s, snippets, q, text[i]) !in r {
        BeatenIsInOrder(r, WithSnippet(s, snippets, q, text[i]));
      }
    }
  }

  lemma MergeIsLive(s: Store, lower: Lowercase, snippets: Snippets, q: Query, text: seq<Hit>, fuzzy: seq<Hit>, h: Hit)
    requires IndexesOnlyLive(s) && FromFts(s, text)
    requires forall f :: f in fuzzy ==> IsFuzzyHit(s, lower, q.text, f)
    requires h in Merge(s, snippets, q, text, fuzzy)
    ensures IsLive(s, h.id) && Answers(s, q, h) && Snips(s, snippets, q, h)
  {
    MergeIsSound(s, snippets, q, text, fuzzy);
    PassesIffAnswers(s, q, h);
    CollectedMembers(s, snippets, q, text, fuzzy, h);
    var g :| (g in text || (|text| < LIMIT / 2 && g in fuzzy)) && h == WithSnippet(s, snippets, q, g);
    if g in text {
      assert exists r :: r in s.fts && r.message == g.id;
    }
  }

  /** A search of the store that any run of calls has built returns no deleted message. */
  method ExecuteSearch(s: Store, lower: Lowercase, snippets: Snippets, q: Query, text: seq<Hit>)
    returns (results: seq<Hit>, ghost fuzzy: seq<Hit>)
    requires IndexesOnlyLive(s) && FromFts(s, text) && |text| <= LIMIT
    ensures results == Merge(s, snippets, q, text, fuzzy)
    ensures if |text| < LIMIT / 2 then BestFuzzy(s, lower, q.text, fuzzy) else fuzzy == []
    ensures InOrder(results) && DistinctIds(results) && |results| <= LIMIT
    ensures forall h :: h in results ==> IsLive(s, h.id) && Answers(s, q, h) && Snips(s, snippets, q, h)
    ensures TextStands(s, snippets, q, text, results)
  {
    var collected := text;
    fuzzy := [];
    if |collected| < LIMIT / 2 {
      var more := Search(s, lower, q.text, LIMIT);
      fuzzy := more;
      collected := collected + more;
    }
    collected := FillSnippets(s, snippets, q, collected);
    var retained := Retain(s, q, collected);
    var unique := Deduplicate(retained);
    results := Take(Sort(unique), LIMIT);
    MergeIsSound(s, snippets, q, text, fuzzy);
    MergeStands(s, snippets, q, text, fuzzy);
    forall h | h in results
      ensures IsLive(s, h.id) && Answers(s, q, h) && Snips(s, snippets, q, h)
    {
      MergeIsLive(s, lower, snippets, q, text, fuzzy, h);
    }
  }

  method FillSnippets(s: Store, snippets: Snippets, q: Query, hits: seq<Hit>) returns (r: seq<Hit>)
    ensures r == WithSnippets(s, snippets, q, hits)
  {
    r := hits;
    for i := 0 to |hits|
      invariant |r| == |hits|
      invariant forall j :: 0 <= j < |hits| ==> r[j] == if j < i then WithSnippet(s, snippets, q, hits[j]) else hits[j]
    {
      if r[i].snippet == [] && r[i].id in s.bodies {
        r := r[i := r[i].(snippet := snippets(s.bodies[r[i].id], q.text))];
      }
    }
  }

  method Retain(s: Store, q: Query, hits: seq<Hit>) returns (r: seq<Hit>)
    ensures r == Retained(s, q, hits)
  {
    r := [];
    var i := 0;
    while i < |hits|
      invariant 0 <= i <= |hits|
      invariant r == Retained(s, q, hits[..i])
    {
      if Passes(s, q, hits[i]) {
        r := r + [hits[i]];
      }
      assert hits[..i + 1][..i] == hits[..i];
      i := i + 1;
    }
    assert hits[..|hits|] == hits;
  }

  method Deduplicate(hits: seq<Hit>) returns (r: seq<Hit>)
    ensures r == Deduplicated(hits)
  {
    r := [];
    var seen: set<Id> := {};
    var i := 0;
    while i < |hits|
      invariant 0 <= i <= |hits|
      invariant seen == HitIds(hits[..i])
      invariant r == Deduplicated(hits[..i])
    {
      if hits[i].id !in seen {
        r := r + [hits[i]];
      }
      seen := seen + {hits[i].id};
      HitIdsSnoc(hits[..i], hits[i]);
      assert hits[..i + 1] == hits[..i] + [hits[i]];
      i := i + 1;
    }
    assert hits[..|hits|] == hits;
  }
}

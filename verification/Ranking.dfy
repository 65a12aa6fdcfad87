/** Search hits in ranked order: better score first, then the newer message. */
module Ranking {
  import opened Common

  datatype Hit = Hit(id: Bytes, conversation: Bytes, sender: Bytes, createdAt: i64, score: real, snippet: string)

  /** `x` may stand before `y`. */
  predicate Ranks(x: Hit, y: Hit) {
    x.score > y.score || (x.score == y.score && x.createdAt >= y.createdAt)
  }

  ghost predicate Ranked(hits: seq<Hit>) {
    forall i, j :: 0 <= i < j < |hits| ==> Ranks(hits[i], hits[j])
  }

  ghost predicate DistinctIds(hits: seq<Hit>) {
    forall i, j :: 0 <= i < j < |hits| ==> hits[i].id != hits[j].id
  }

  /** Put a hit before the first one it beats, behind the ones it ties with: a stable sort. */
  function Insert(h: Hit, hits: seq<Hit>): (r: seq<Hit>)
    ensures multiset(r) == multiset(hits) + multiset{h}
  {
    if hits == [] then [h]
    else
      var front, last := hits[..|hits| - 1], hits[|hits| - 1];
      assert hits == front + [last];
      if Ranks(last, h) then hits + [h] else Insert(h, front) + [last]
  }

  function Sort(hits: seq<Hit>): (r: seq<Hit>)
    ensures multiset(r) == multiset(hits)
  {
    if hits == [] then []
    else
      assert hits == hits[..|hits| - 1] + [hits[|hits| - 1]];
      Insert(hits[|hits| - 1], Sort(hits[..|hits| - 1]))
  }

  lemma SameMembers(x: seq<Hit>, y: seq<Hit>)
    requires multiset(x) == multiset(y)
    ensures |x| == |y| && forall h :: h in x <==> h in y
  {
    assert |multiset(x)| == |multiset(y)|;
    forall h
      ensures h in x <==> h in y
    {
      assert h in x <==> h in multiset(x);
      assert h in y <==> h in multiset(y);
    }
  }

  lemma {:induction false} InsertRanked(h: Hit, hits: seq<Hit>)
    requires Ranked(hits)
    ensures Ranked(Insert(h, hits))
    decreases |hits|
  {
    if hits != [] {
      var front, last := hits[..|hits| - 1], hits[|hits| - 1];
      if !Ranks(last, h) {
        InsertRanked(h, front);
        InsertMembers(h, front);
        RankedSnoc(Insert(h, front), last);
      } else {
        RankedSnoc(hits, h);
      }
    }
  }

  lemma InsertMembers(h: Hit, hits: seq<Hit>)
    ensures forall x :: x in Insert(h, hits) <==> x in hits || x == h
  {
    assert multiset(hits + [h]) == multiset(hits) + multiset{h};
    SameMembers(Insert(h, hits), hits + [h]);
  }

  lemma RankedSnoc(hits: seq<Hit>, h: Hit)
    requires Ranked(hits) && forall x :: x in hits ==> Ranks(x, h)
    ensures Ranked(hits + [h])
  {
    forall i | 0 <= i < |hits|
      ensures Ranks(hits[i], h)
    {
      assert hits[i] in hits;
    }
  }

  lemma {:induction false} SortRanks(hits: seq<Hit>)
    ensures Ranked(Sort(hits))
    decreases |hits|
  {
    if hits != [] {
      SortRanks(hits[..|hits| - 1]);
      InsertRanked(hits[|hits| - 1], Sort(hits[..|hits| - 1]));
    }
  }

  lemma {:induction false} DistinctOccurOnce(hits: seq<Hit>)
    requires DistinctIds(hits)
    ensures forall h :: multiset(hits)[h] <= 1
    decreases |hits|
  {
    if hits != [] {
      var front, last := hits[..|hits| - 1], hits[|hits| - 1];
      assert hits == front + [last];
      DistinctOccurOnce(front);
      assert last !in front;
    }
  }

  lemma TwiceInMultiset(hits: seq<Hit>, i: nat, j: nat)
    requires i < j < |hits| && hits[i] == hits[j]
    ensures multiset(hits)[hits[i]] >= 2
  {
    assert hits == hits[..j] + hits[j..];
    assert hits[..j][i] in multiset(hits[..j]);
    assert hits[j..][0] in multiset(hits[j..]);
  }

  lemma SameIdIsSame(hits: seq<Hit>)
    requires DistinctIds(hits)
    ensures forall x, y :: x in hits && y in hits && x.id == y.id ==> x == y
  {
  }

  /** Each id at most once, as a statement that does not mention positions. */
  lemma DistinctAsMultiset(hits: seq<Hit>)
    ensures DistinctIds(hits) <==>
              (forall h :: multiset(hits)[h] <= 1) && (forall x, y :: x in hits && y in hits && x.id == y.id ==> x == y)
  {
    if DistinctIds(hits) {
      DistinctOccurOnce(hits);
      SameIdIsSame(hits);
    } else {
      var i, j :| 0 <= i < j < |hits| && hits[i].id == hits[j].id;
      if hits[i] == hits[j] {
        TwiceInMultiset(hits, i, j);
      }
    }
  }

  lemma SortDistinct(hits: seq<Hit>)
    requires DistinctIds(hits)
    ensures DistinctIds(Sort(hits))
  {
    DistinctAsMultiset(hits);
    DistinctAsMultiset(Sort(hits));
    SameMembers(hits, Sort(hits));
  }

  predicate Tied(x: Hit, y: Hit) {
    x.score == y.score && x.createdAt == y.createdAt
  }

  /** The hits that tie with `h`, in order. */
  ghost function TiedWith(hits: seq<Hit>, h: Hit): seq<Hit> {
    if hits == [] then []
    else
      var front, last := TiedWith(hits[..|hits| - 1], h), hits[|hits| - 1];
      if Tied(last, h) then front + [last] else front
  }

  lemma TiedWithSnoc(hits: seq<Hit>, x: Hit, h: Hit)
    ensures TiedWith(hits + [x], h) == TiedWith(hits, h) + if Tied(x, h) then [x] else []
  {
    assert (hits + [x])[..|hits|] == hits;
  }

  lemma {:induction false} InsertKeepsTies(x: Hit, hits: seq<Hit>, h: Hit)
    ensures TiedWith(Insert(x, hits), h) == TiedWith(hits, h) + if Tied(x, h) then [x] else []
    decreases |hits|
  {
    if hits == [] {
      TiedWithSnoc([], x, h);
      assert [] + [x] == [x];
    } else {
      var front, last := hits[..|hits| - 1], hits[|hits| - 1];
      if Ranks(last, x) {
        TiedWithSnoc(hits, x, h);
      } else {
        InsertKeepsTies(x, front, h);
        TiedWithSnoc(Insert(x, front), last, h);
      }
    }
  }

  /** The sort is stable: hits that tie stay in the order they were found in. */
  lemma {:induction false} SortIsStable(hits: seq<Hit>, h: Hit)
    ensures TiedWith(Sort(hits), h) == TiedWith(hits, h)
    decreases |hits|
  {
    if hits != [] {
      SortIsStable(hits[..|hits| - 1], h);
      InsertKeepsTies(hits[|hits| - 1], Sort(hits[..|hits| - 1]), h);
    }
  }

  function Take(hits: seq<Hit>, limit: nat): (r: seq<Hit>)
    ensures |r| <= limit && r <= hits
  {
    if |hits| <= limit then hits else hits[..limit]
  }

  /**
   The best `limit` of the hits: what is left out is beaten by all that is kept, and only when
   the limit is reached.
   */
  lemma BestOf(hits: seq<Hit>, limit: nat)
    requires DistinctIds(hits)
    ensures var best := Take(Sort(hits), limit);
            && Ranked(best)
            && DistinctIds(best)
            && (forall h :: h in best ==> h in hits)
            && (forall h :: h in hits && h !in best ==> |best| == limit && forall b :: b in best ==> Ranks(b, h))
  {
    var sorted := Sort(hits);
    SortRanks(hits);
    SortDistinct(hits);
    SameMembers(sorted, hits);
    var best := Take(sorted, limit);
    forall h | h in hits && h !in best
      ensures |best| == limit && forall b :: b in best ==> Ranks(b, h)
    {
      assert h in sorted;
      var j :| 0 <= j < |sorted| && sorted[j] == h;
      assert j >= |best|;
    }
  }
}

/**
 `ingest_remote_messages` of `core_impl.rs`: pages of delivered messages, with repeats and
 overlaps, are ingested exactly once.
 */
module Delivery {
  import opened Common
  import opened MessageStore
  import opened Tokenizer

  /** A delivered message, the clock when it is handled, and the statement that fails then, if one does. */
  datatype Delivered = Delivered(m: Message, now: i64, fault: nat)

  datatype PageResult = PageResult(store: Store, newCount: nat, duplicateCount: nat, failed: bool)

  /** The next message of a page: new, duplicate, or the end of the page. */
  function IngestNext(lower: Lowercase, r: PageResult, d: Delivered): PageResult {
    if r.failed then r
    else
      var (s', outcome) := IngestStep(lower, r.store, d.m, d.now, d.fault);
      if outcome == Ok then r.(store := s', newCount := r.newCount + 1)
      else if outcome == DuplicateMessage then r.(duplicateCount := r.duplicateCount + 1)
      else r.(failed := true)
  }

  /** One page, message by message, up to the first one that is neither new nor a duplicate. */
  function IngestPage(lower: Lowercase, s: Store, page: seq<Delivered>): PageResult {
    if page == [] then PageResult(s, 0, 0, false)
    else IngestNext(lower, IngestPage(lower, s, page[..|page| - 1]), page[|page| - 1])
  }

  /** Ingesting the message cannot fail: it is valid, its conversation exists, storage works. */
  predicate Ingestible(conversations: set<Id>, d: Delivered) {
    ValidIngest(d.m) && d.m.conversation in conversations && d.fault >= IngestStatements(d.m)
  }

  predicate AllIngestible(conversations: set<Id>, page: seq<Delivered>) {
    forall d :: d in page ==> Ingestible(conversations, d)
  }

  ghost function Ids(page: seq<Delivered>): set<Id> {
    set d | d in page :: d.m.id
  }

  /** The first delivery of each message that is not known yet. */
  ghost function Firsts(known: set<Id>, page: seq<Delivered>): seq<Delivered> {
    if page == [] then []
    else
      var front, d := page[..|page| - 1], page[|page| - 1];
      if d.m.id in known + Ids(front) then Firsts(known, front) else Firsts(known, front) + [d]
  }

  /** Ingest one message after the other, each of them new. */
  ghost function IngestAll(lower: Lowercase, s: Store, page: seq<Delivered>): Store {
    if page == [] then s
    else
      var d := page[|page| - 1];
      AfterIngest(lower, IngestAll(lower, s, page[..|page| - 1]), d.m, d.now)
  }

  // ---------------------------------------------------------------------------
  // What `Firsts` picks
  // ---------------------------------------------------------------------------

  /** `page[i]` is the first delivery of its message. */
  ghost predicate FirstAt(known: set<Id>, page: seq<Delivered>, i: nat)
    requires i < |page|
  {
    page[i].m.id !in known && forall j :: 0 <= j < i ==> page[j].m.id != page[i].m.id
  }

  lemma {:induction false} FirstsAreFirst(known: set<Id>, page: seq<Delivered>)
    ensures forall d ::
              d in Firsts(known, page) <==> exists i :: 0 <= i < |page| && page[i] == d && FirstAt(known, page, i)
    decreases |page|
  {
    if page != [] {
      var front, d := page[..|page| - 1], page[|page| - 1];
      FirstsAreFirst(known, front);
      FirstAtSnoc(known, front, d);
      assert front + [d] == page;
    }
  }

  lemma {:induction false} FirstsIds(known: set<Id>, page: seq<Delivered>)
    ensures Ids(Firsts(known, page)) == Ids(page) - known
    decreases |page|
  {
    if page != [] {
      var front, d := page[..|page| - 1], page[|page| - 1];
      FirstsIds(known, front);
      FirstsSnoc(known, front, d);
      FirstsSnoc({}, Firsts(known, front), d);
      assert page == front + [d];
    }
  }

  ghost predicate DistinctIds(page: seq<Delivered>) {
    forall i, j :: 0 <= i < j < |page| ==> page[i].m.id != page[j].m.id
  }

  lemma DistinctSnoc(page: seq<Delivered>, d: Delivered)
    requires DistinctIds(page) && d.m.id !in Ids(page)
    ensures DistinctIds(page + [d])
  {
    forall i | 0 <= i < |page|
      ensures page[i].m.id != d.m.id
    {
      assert page[i] in page;
    }
  }

  /** Each unknown message once. */
  lemma {:induction false} FirstsAreOnce(known: set<Id>, page: seq<Delivered>)
    ensures DistinctIds(Firsts(known, page))
    ensures Ids(Firsts(known, page)) == Ids(page) - known
    decreases |page|
  {
    FirstsIds(known, page);
    if page != [] {
      var front, d := page[..|page| - 1], page[|page| - 1];
      FirstsAreOnce(known, front);
      if d.m.id !in known + Ids(front) {
        DistinctSnoc(Firsts(known, front), d);
      }
    }
  }

  lemma FirstAtSnoc(known: set<Id>, front: seq<Delivered>, d: Delivered)
    ensures forall i :: 0 <= i < |front| ==> (FirstAt(known, front + [d], i) <==> FirstAt(known, front, i))
    ensures FirstAt(known, front + [d], |front|) <==> d.m.id !in known + Ids(front)
  {
    var page := front + [d];
    forall i | 0 <= i < |front|
      ensures FirstAt(known, page, i) <==> FirstAt(known, front, i)
    {
      assert forall j :: 0 <= j <= i ==> page[j] == front[j];
    }
    if d.m.id in Ids(front) {
      var e :| e in front && e.m.id == d.m.id;
      var j :| 0 <= j < |front| && front[j] == e;
      assert page[j].m.id == d.m.id;
    } else {
      forall j | 0 <= j < |front|
        ensures page[j].m.id != d.m.id
      {
        assert front[j] in front;
      }
    }
  }

  // ---------------------------------------------------------------------------
  // Exactly once
  // ---------------------------------------------------------------------------

  lemma NextIngestible(lower: Lowercase, r: PageResult, d: Delivered)
    requires !r.failed && Ingestible(r.store.conversations.Keys, d)
    ensures IngestNext(lower, r, d) ==
            if d.m.id in r.store.skeletons then r.(duplicateCount := r.duplicateCount + 1)
            else r.(store := AfterIngest(lower, r.store, d.m, d.now), newCount := r.newCount + 1)
    ensures IngestNext(lower, r, d).store.skeletons.Keys == r.store.skeletons.Keys + {d.m.id}
    ensures IngestNext(lower, r, d).store.conversations.Keys == r.store.conversations.Keys
  {
  }

  /** `r` counts the page and has ingested the first deliveries of it. */
  ghost predicate IngestedOnce(lower: Lowercase, s: Store, page: seq<Delivered>, r: PageResult) {
    && Counted(s, page, Firsts(s.skeletons.Keys, page), r)
    && r.store == IngestAll(lower, s, Firsts(s.skeletons.Keys, page))
  }

  ghost predicate Counted(s: Store, page: seq<Delivered>, firsts: seq<Delivered>, r: PageResult) {
    && !r.failed
    && r.newCount == |firsts|
    && r.newCount + r.duplicateCount == |page|
    && r.store.skeletons.Keys == s.skeletons.Keys + Ids(page)
    && r.store.conversations.Keys == s.conversations.Keys
  }

  lemma FirstsSnoc(known: set<Id>, page: seq<Delivered>, d: Delivered)
    ensures Firsts(known, page + [d]) ==
            if d.m.id in known + Ids(page) then Firsts(known, page) else Firsts(known, page) + [d]
    ensures Ids(page + [d]) == Ids(page) + {d.m.id}
  {
    assert (page + [d])[..|page|] == page;
    assert forall e :: e in page + [d] <==> e in page || e == d;
  }

  lemma NextCounted(
    lower: Lowercase, s: Store, page: seq<Delivered>, firsts: seq<Delivered>, r: PageResult, d: Delivered)
    requires Counted(s, page, firsts, r) && Ingestible(s.conversations.Keys, d)
    ensures Counted(s, page + [d], if d.m.id in s.skeletons.Keys + Ids(page) then firsts else firsts + [d],
                    IngestNext(lower, r, d))
    ensures IngestNext(lower, r, d).store ==
            if d.m.id in s.skeletons.Keys + Ids(page) then r.store else AfterIngest(lower, r.store, d.m, d.now)
  {
    NextIngestible(lower, r, d);
    FirstsSnoc({}, page, d);
  }

  lemma NextIngestedOnce(lower: Lowercase, s: Store, page: seq<Delivered>, r: PageResult, d: Delivered)
    requires IngestedOnce(lower, s, page, r) && Ingestible(s.conversations.Keys, d)
    ensures IngestedOnce(lower, s, page + [d], IngestNext(lower, r, d))
  {
    var firsts := Firsts(s.skeletons.Keys, page);
    NextCounted(lower, s, page, firsts, r, d);
    FirstsSnoc(s.skeletons.Keys, page, d);
    IngestAllSnoc(lower, s, firsts, d);
  }

  lemma PageSnoc(lower: Lowercase, s: Store, page: seq<Delivered>, d: Delivered)
    ensures IngestPage(lower, s, page + [d]) == IngestNext(lower, IngestPage(lower, s, page), d)
  {
    assert (page + [d])[..|page|] == page;
  }

  /** A page of ingestible messages ends in the store that ingesting the first deliveries gives. */
  lemma {:induction false} PageIngestsFirsts(lower: Lowercase, s: Store, page: seq<Delivered>)
    requires AllIngestible(s.conversations.Keys, page)
    ensures IngestedOnce(lower, s, page, IngestPage(lower, s, page))
    decreases |page|
  {
    if page == [] {
      assert Ids(page) == {};
    } else {
      var front, d := page[..|page| - 1], page[|page| - 1];
      assert page == front + [d];
      assert d in page;
      PageIngestsFirsts(lower, s, front);
      NextIngestedOnce(lower, s, front, IngestPage(lower, s, front), d);
      PageSnoc(lower, s, front, d);
    }
  }

  lemma IngestAllSnoc(lower: Lowercase, s: Store, page: seq<Delivered>, d: Delivered)
    ensures IngestAll(lower, s, page + [d]) == AfterIngest(lower, IngestAll(lower, s, page), d.m, d.now)
  {
    assert (page + [d])[..|page|] == page;
  }

  lemma {:induction false} PageConcat(lower: Lowercase, s: Store, p: seq<Delivered>, q: seq<Delivered>)
    requires !IngestPage(lower, s, p).failed
    ensures var r, r' := IngestPage(lower, s, p), IngestPage(lower, s, p + q);
            var t := IngestPage(lower, r.store, q);
            && r'.store == t.store
            && r'.newCount == r.newCount + t.newCount
            && r'.duplicateCount == r.duplicateCount + t.duplicateCount
            && r'.failed == t.failed
    decreases |q|
  {
    if q == [] {
      assert p + q == p;
    } else {
      PageConcat(lower, s, p, q[..|q| - 1]);
      assert (p + q)[..|p + q| - 1] == p + q[..|q| - 1];
    }
  }

  function Flatten(pages: seq<seq<Delivered>>): seq<Delivered> {
    if pages == [] then [] else Flatten(pages[..|pages| - 1]) + pages[|pages| - 1]
  }

  /** The store after one page after the other. */
  function IngestPages(lower: Lowercase, s: Store, pages: seq<seq<Delivered>>): Store {
    if pages == [] then s else IngestPage(lower, IngestPages(lower, s, pages[..|pages| - 1]), pages[|pages| - 1]).store
  }

  lemma {:induction false} PagesAreOnePage(lower: Lowercase, s: Store, pages: seq<seq<Delivered>>)
    requires AllIngestible(s.conversations.Keys, Flatten(pages))
    ensures IngestPages(lower, s, pages) == IngestPage(lower, s, Flatten(pages)).store
    decreases |pages|
  {
    if pages != [] {
      var front, last := Flatten(pages[..|pages| - 1]), pages[|pages| - 1];
      assert forall d :: d in front ==> d in Flatten(pages);
      PagesAreOnePage(lower, s, pages[..|pages| - 1]);
      PageIngestsFirsts(lower, s, front);
      PageConcat(lower, s, front, last);
    }
  }

  /**
   However the deliveries are cut into pages and repeated, each message is ingested once, in
   order of first delivery.
   */
  lemma ExactlyOnce(lower: Lowercase, s: Store, pages: seq<seq<Delivered>>)
    requires AllIngestible(s.conversations.Keys, Flatten(pages))
    ensures IngestPages(lower, s, pages) == IngestAll(lower, s, Firsts(s.skeletons.Keys, Flatten(pages)))
  {
    PagesAreOnePage(lower, s, pages);
    PageIngestsFirsts(lower, s, Flatten(pages));
  }

  // ---------------------------------------------------------------------------
  // Pages that fail
  // ---------------------------------------------------------------------------

  lemma NextKeys(lower: Lowercase, r: PageResult, d: Delivered)
    ensures var r' := IngestNext(lower, r, d);
            && r'.store.conversations.Keys == r.store.conversations.Keys
            && (!r'.failed ==> r'.store.skeletons.Keys == r.store.skeletons.Keys + {d.m.id})
            && (r'.failed <==> r.failed || !ValidIngest(d.m)
                               || (d.m.id !in r.store.skeletons && !Ingestible(r.store.conversations.Keys, d)))
  {
  }

  /** A page that goes through leaves all its messages known. */
  lemma {:induction false} PageKeys(lower: Lowercase, s: Store, page: seq<Delivered>)
    ensures var r := IngestPage(lower, s, page);
            && r.store.conversations.Keys == s.conversations.Keys
            && (!r.failed ==> r.store.skeletons.Keys == s.skeletons.Keys + Ids(page))
    decreases |page|
  {
    if page == [] {
      assert Ids(page) == {};
    } else {
      var front, d := page[..|page| - 1], page[|page| - 1];
      PageKeys(lower, s, front);
      NextKeys(lower, IngestPage(lower, s, front), d);
      FirstsSnoc({}, front, d);
      assert page == front + [d];
    }
  }

  /** The message is invalid, or it is new where it stands and cannot be ingested. */
  ghost predicate Stops(s: Store, page: seq<Delivered>, i: nat)
    requires i < |page|
  {
    || !ValidIngest(page[i].m)
    || (page[i].m.id !in s.skeletons.Keys + Ids(page[..i]) && !Ingestible(s.conversations.Keys, page[i]))
  }

  /** A page fails exactly when some message of it stops it. */
  lemma {:induction false} PageFailsIff(lower: Lowercase, s: Store, page: seq<Delivered>)
    ensures IngestPage(lower, s, page).failed <==> exists i :: 0 <= i < |page| && Stops(s, page, i)
    decreases |page|
  {
    if page != [] {
      var n := |page| - 1;
      PageFailsIff(lower, s, page[..n]);
      PageKeys(lower, s, page[..n]);
      NextKeys(lower, IngestPage(lower, s, page[..n]), page[n]);
      StopsInFront(s, page, n);
      assert Stops(s, page, n) <==> !ValidIngest(page[n].m)
                                    || (page[n].m.id !in s.skeletons.Keys + Ids(page[..n])
                                        && !Ingestible(s.conversations.Keys, page[n]));
    }
  }

  lemma StopsInFront(s: Store, page: seq<Delivered>, n: nat)
    requires n < |page|
    ensures forall i :: 0 <= i < n ==> (Stops(s, page[..n], i) <==> Stops(s, page, i))
  {
    forall i | 0 <= i < n
      ensures Stops(s, page[..n], i) <==> Stops(s, page, i)
    {
      assert page[..n][..i] == page[..i];
    }
  }

  lemma {:induction false} KnownPage(lower: Lowercase, s: Store, page: seq<Delivered>)
    requires forall d :: d in page ==> ValidIngest(d.m) && d.m.id in s.skeletons
    ensures IngestPage(lower, s, page) == PageResult(s, 0, |page|, false)
    decreases |page|
  {
    if page != [] {
      assert page[|page| - 1] in page;
      KnownPage(lower, s, page[..|page| - 1]);
    }
  }

  /** Delivering again a page that went through changes nothing and counts every message as a duplicate. */
  lemma RedeliveryIsNoOp(lower: Lowercase, s: Store, page: seq<Delivered>)
    requires !IngestPage(lower, s, page).failed
    ensures var r := IngestPage(lower, s, page);
            IngestPage(lower, r.store, page) == PageResult(r.store, 0, |page|, false)
  {
    var r := IngestPage(lower, s, page);
    PageKeys(lower, s, page);
    PageFailsIff(lower, s, page);
    forall d | d in page
      ensures ValidIngest(d.m) && d.m.id in r.store.skeletons
    {
      var i :| 0 <= i < |page| && page[i] == d;
      assert !Stops(s, page, i);
      assert d.m.id in Ids(page);
    }
    KnownPage(lower, r.store, page);
  }

  /** The deliveries of a page that are ingested, whether or not the page goes through. */
  ghost function Through(lower: Lowercase, s: Store, page: seq<Delivered>): seq<Delivered> {
    if page == [] then []
    else
      var front, d := page[..|page| - 1], page[|page| - 1];
      var r := IngestPage(lower, s, front);
      if !r.failed && IngestStep(lower, r.store, d.m, d.now, d.fault).1 == Ok then Through(lower, s, front) + [d]
      else Through(lower, s, front)
  }

  /** Each of them is new, and ingesting them one after the other gives the store. */
  ghost predicate Came(lower: Lowercase, s: Store, goods: seq<Delivered>, t: Store) {
    && DistinctIds(goods)
    && Ids(goods) !! s.skeletons.Keys
    && t == IngestAll(lower, s, goods)
    && t.skeletons.Keys == s.skeletons.Keys + Ids(goods)
  }

  lemma OneMoreCame(lower: Lowercase, s: Store, goods: seq<Delivered>, t: Store, d: Delivered)
    requires Came(lower, s, goods, t) && d.m.id !in t.skeletons
    ensures Came(lower, s, goods + [d], AfterIngest(lower, t, d.m, d.now))
  {
    DistinctSnoc(goods, d);
    FirstsSnoc({}, goods, d);
    IngestAllSnoc(lower, s, goods, d);
  }

  lemma {:induction false} ThroughCame(lower: Lowercase, s: Store, page: seq<Delivered>)
    ensures Came(lower, s, Through(lower, s, page), IngestPage(lower, s, page).store)
    ensures forall d :: d in Through(lower, s, page) ==> d in page
    decreases |page|
  {
    if page == [] {
      assert Ids([]) == {};
    } else {
      var front, d := page[..|page| - 1], page[|page| - 1];
      var r := IngestPage(lower, s, front);
      ThroughCame(lower, s, front);
      if !r.failed && IngestStep(lower, r.store, d.m, d.now, d.fault).1 == Ok {
        OneMoreCame(lower, s, Through(lower, s, front), r.store, d);
      } else {
        assert IngestPage(lower, s, page).store == r.store;
      }
    }
  }

  lemma DistinctFront(page: seq<Delivered>, d: Delivered)
    requires DistinctIds(page + [d])
    ensures DistinctIds(page) && d.m.id !in Ids(page)
  {
    var more := page + [d];
    forall i | 0 <= i < |page|
      ensures page[i].m.id != d.m.id
    {
      assert more[i].m.id != more[|page|].m.id;
    }
    forall i, j | 0 <= i < j < |page|
      ensures page[i].m.id != page[j].m.id
    {
      assert more[i].m.id != more[j].m.id;
    }
  }

  lemma CameFront(lower: Lowercase, s: Store, goods: seq<Delivered>, d: Delivered, t: Store)
    requires Came(lower, s, goods + [d], t)
    ensures Came(lower, s, goods, IngestAll(lower, s, goods))
    ensures d.m.id !in IngestAll(lower, s, goods).skeletons
    ensures t == AfterIngest(lower, IngestAll(lower, s, goods), d.m, d.now)
  {
    DistinctFront(goods, d);
    FirstsSnoc({}, goods, d);
    IngestAllSnoc(lower, s, goods, d);
    IngestedKeys(lower, s, goods);
  }

  lemma {:induction false} CameMore(
    lower: Lowercase, s: Store, goods: seq<Delivered>, t: Store, more: seq<Delivered>, u: Store)
    requires Came(lower, s, goods, t) && Came(lower, t, more, u)
    ensures Came(lower, s, goods + more, u)
    decreases |more|
  {
    if more == [] {
      assert goods + more == goods;
    } else {
      var front, d, v := more[..|more| - 1], more[|more| - 1], IngestAll(lower, t, more[..|more| - 1]);
      SplitLast(goods, more);
      CameFront(lower, t, front, d, u);
      CameMore(lower, s, goods, t, front, v);
      OneMoreCame(lower, s, goods + front, v, d);
    }
  }

  lemma SplitLast(goods: seq<Delivered>, more: seq<Delivered>)
    requires more != []
    ensures more == more[..|more| - 1] + [more[|more| - 1]]
    ensures goods + more == goods + more[..|more| - 1] + [more[|more| - 1]]
  {
  }

  lemma IdsSnoc(page: seq<Delivered>)
    requires page != []
    ensures Ids(page) == Ids(page[..|page| - 1]) + {page[|page| - 1].m.id}
  {
    assert page == page[..|page| - 1] + [page[|page| - 1]];
    FirstsSnoc({}, page[..|page| - 1], page[|page| - 1]);
  }

  lemma KeysAfterIngest(lower: Lowercase, t: Store, d: Delivered)
    ensures AfterIngest(lower, t, d.m, d.now).skeletons.Keys == t.skeletons.Keys + {d.m.id}
  {
  }

  lemma {:induction false} IngestedKeys(lower: Lowercase, s: Store, goods: seq<Delivered>)
    ensures IngestAll(lower, s, goods).skeletons.Keys == s.skeletons.Keys + Ids(goods)
    decreases |goods|
  {
    if goods == [] {
      assert Ids(goods) == {};
    } else {
      IdsSnoc(goods);
      IngestedKeys(lower, s, goods[..|goods| - 1]);
      KeysAfterIngest(lower, IngestAll(lower, s, goods[..|goods| - 1]), goods[|goods| - 1]);
    }
  }

  ghost function ThroughPages(lower: Lowercase, s: Store, pages: seq<seq<Delivered>>): seq<Delivered> {
    if pages == [] then []
    else
      var front, page := pages[..|pages| - 1], pages[|pages| - 1];
      ThroughPages(lower, s, front) + Through(lower, IngestPages(lower, s, front), page)
  }

  /** The page goes through when its turn comes. */
  ghost predicate GoesThrough(lower: Lowercase, s: Store, pages: seq<seq<Delivered>>, i: nat)
    requires i < |pages|
  {
    !IngestPage(lower, IngestPages(lower, s, pages[..i]), pages[i]).failed
  }

  lemma {:induction false} PagesCame(lower: Lowercase, s: Store, pages: seq<seq<Delivered>>)
    ensures Came(lower, s, ThroughPages(lower, s, pages), IngestPages(lower, s, pages))
    ensures forall d :: d in ThroughPages(lower, s, pages) ==> d in Flatten(pages)
    decreases |pages|
  {
    if pages == [] {
      assert Ids([]) == {};
    } else {
      var front, page := pages[..|pages| - 1], pages[|pages| - 1];
      PagesCame(lower, s, front);
      ThroughCame(lower, IngestPages(lower, s, front), page);
      CameMore(lower, s, ThroughPages(lower, s, front), IngestPages(lower, s, front),
               Through(lower, IngestPages(lower, s, front), page), IngestPages(lower, s, pages));
    }
  }

  lemma NextPage(lower: Lowercase, s: Store, pages: seq<seq<Delivered>>, n: nat)
    requires n < |pages|
    ensures IngestPages(lower, s, pages[..n + 1]) ==
            IngestPage(lower, IngestPages(lower, s, pages[..n]), pages[n]).store
  {
    assert pages[..n + 1][..n] == pages[..n];
  }

  /** What is known after the first `n` pages. */
  ghost function KnownAfter(lower: Lowercase, s: Store, pages: seq<seq<Delivered>>, n: nat): set<Id>
    requires n <= |pages|
  {
    IngestPages(lower, s, pages[..n]).skeletons.Keys
  }

  lemma KnownGrows(lower: Lowercase, s: Store, pages: seq<seq<Delivered>>, n: nat)
    requires n < |pages|
    ensures KnownAfter(lower, s, pages, n) <= KnownAfter(lower, s, pages, n + 1)
  {
    NextPage(lower, s, pages, n);
    ThroughCame(lower, IngestPages(lower, s, pages[..n]), pages[n]);
  }

  lemma ThroughIsKnownNext(lower: Lowercase, s: Store, pages: seq<seq<Delivered>>, n: nat)
    requires n < |pages| && GoesThrough(lower, s, pages, n)
    ensures Ids(pages[n]) <= KnownAfter(lower, s, pages, n + 1)
  {
    NextPage(lower, s, pages, n);
    PageKeys(lower, IngestPages(lower, s, pages[..n]), pages[n]);
  }

  /** The messages of a page that went through stay known. */
  lemma {:induction false} ThroughIsKnown(lower: Lowercase, s: Store, pages: seq<seq<Delivered>>, i: nat, n: nat)
    requires i < n <= |pages| && GoesThrough(lower, s, pages, i)
    ensures Ids(pages[i]) <= KnownAfter(lower, s, pages, n)
    decreases n
  {
    if i == n - 1 {
      ThroughIsKnownNext(lower, s, pages, i);
    } else {
      ThroughIsKnown(lower, s, pages, i, n - 1);
      KnownGrows(lower, s, pages, n - 1);
    }
  }

  /**
   Whatever pages are fetched, whatever is wrong with them and wherever storage fails: no message
   is ingested twice, and if in the end every message was in some page that went through, every
   one that was not known is ingested once.
   */
  lemma RetriesAreExactlyOnce(lower: Lowercase, s: Store, pages: seq<seq<Delivered>>)
    ensures var goods := ThroughPages(lower, s, pages);
            && IngestPages(lower, s, pages) == IngestAll(lower, s, goods)
            && DistinctIds(goods) && Ids(goods) <= Ids(Flatten(pages)) - s.skeletons.Keys
            && ((forall id :: id in Ids(Flatten(pages)) ==>
                   exists i :: 0 <= i < |pages| && id in Ids(pages[i]) && GoesThrough(lower, s, pages, i)) ==>
                  Ids(goods) == Ids(Flatten(pages)) - s.skeletons.Keys)
  {
    var goods := ThroughPages(lower, s, pages);
    PagesCame(lower, s, pages);
    assert pages[..|pages|] == pages;
    forall i | 0 <= i < |pages| && GoesThrough(lower, s, pages, i)
      ensures Ids(pages[i]) <= s.skeletons.Keys + Ids(goods)
    {
      ThroughIsKnown(lower, s, pages, i, |pages|);
    }
  }

  // ---------------------------------------------------------------------------
  // A message that never validates
  // ---------------------------------------------------------------------------

  lemma {:induction false} FailedStaysFailed(lower: Lowercase, s: Store, p: seq<Delivered>, q: seq<Delivered>)
    requires IngestPage(lower, s, p).failed
    ensures IngestPage(lower, s, p + q) == IngestPage(lower, s, p)
    decreases |q|
  {
    if q == [] {
      assert p + q == p;
    } else {
      FailedStaysFailed(lower, s, p, q[..|q| - 1]);
      assert (p + q)[..|p + q| - 1] == p + q[..|q| - 1];
    }
  }

  lemma NextOfPage(lower: Lowercase, s: Store, page: seq<Delivered>, i: nat)
    requires i < |page|
    ensures IngestPage(lower, s, page[..i + 1]) == IngestNext(lower, IngestPage(lower, s, page[..i]), page[i])
  {
    assert page[..i + 1] == page[..i] + [page[i]];
    PageSnoc(lower, s, page[..i], page[i]);
  }

  lemma FailedPage(lower: Lowercase, s: Store, page: seq<Delivered>, i: nat)
    requires i <= |page| && IngestPage(lower, s, page[..i]).failed
    ensures IngestPage(lower, s, page) == IngestPage(lower, s, page[..i])
  {
    assert page == page[..i] + page[i..];
    FailedStaysFailed(lower, s, page[..i], page[i..]);
  }

  /** An invalid message stops its page: what comes before it is kept, what comes after it is not ingested. */
  lemma InvalidStopsPage(lower: Lowercase, s: Store, p: seq<Delivered>, bad: Delivered, q: seq<Delivered>)
    requires !ValidIngest(bad.m)
    ensures IngestPage(lower, s, p + [bad] + q) == IngestPage(lower, s, p).(failed := true)
  {
    PageSnoc(lower, s, p, bad);
    FailedStaysFailed(lower, s, p + [bad], q);
  }

  /** Fetching such a page again never gets past the invalid message, once everything before it has gone through. */
  lemma InvalidBlocksForever(lower: Lowercase, s: Store, p: seq<Delivered>, bad: Delivered, q: seq<Delivered>)
    requires !IngestPage(lower, s, p).failed && !ValidIngest(bad.m)
    ensures var r := IngestPage(lower, s, p + [bad] + q);
            IngestPage(lower, r.store, p + [bad] + q) == PageResult(r.store, 0, |p|, true)
  {
    InvalidStopsPage(lower, s, p, bad, q);
    RedeliveryIsNoOp(lower, s, p);
    InvalidStopsPage(lower, IngestPage(lower, s, p).store, p, bad, q);
  }
}

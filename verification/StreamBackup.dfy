/**
 `stream_backup_batches` of `backup/snapshot.rs`: two tables read page by page with
 `LIMIT 200 OFFSET n`, each at its own offset, one batch for each pair of pages.
 */
module StreamBackup {
  import opened Common

  const BATCH_SIZE: nat := 200

  /** Every batch carries all conversations. */
  datatype Batch<C, S, B> = Batch(conversations: C, skeletons: seq<S>, bodies: seq<B>)

  /** `LIMIT limit OFFSET offset`. */
  function Page<T>(rows: seq<T>, limit: nat, offset: nat): (page: seq<T>)
    ensures |page| <= limit
    ensures page == [] <==> limit == 0 || offset >= |rows|
  {
    rows[Min(offset, |rows|)..Min(offset + limit, |rows|)]
  }

  /** The pages of a table put together again. */
  ghost function Skeletons<C, S, B>(batches: seq<Batch<C, S, B>>): seq<S> {
    if batches == [] then [] else Skeletons(batches[..|batches| - 1]) + batches[|batches| - 1].skeletons
  }

  ghost function Bodies<C, S, B>(batches: seq<Batch<C, S, B>>): seq<B> {
    if batches == [] then [] else Bodies(batches[..|batches| - 1]) + batches[|batches| - 1].bodies
  }

  /** The least number of batches that hold `n` rows, but at least one. */
  function BatchCount(n: nat): nat {
    Max(1, (n + BATCH_SIZE - 1) / BATCH_SIZE)
  }

  /** What the batches come to: both listings, no row lost or repeated, in as few batches as possible. */
  ghost predicate Streams<C, S, B>(conversations: C, skeletons: seq<S>, bodies: seq<B>, batches: seq<Batch<C, S, B>>) {
    && Skeletons(batches) == skeletons
    && Bodies(batches) == bodies
    && |batches| == BatchCount(Max(|skeletons|, |bodies|))
    && AllFit(conversations, batches)
  }

  ghost predicate AllFit<C, S, B>(conversations: C, batches: seq<Batch<C, S, B>>) {
    forall b :: b in batches ==>
      b.conversations == conversations && |b.skeletons| <= BATCH_SIZE && |b.bodies| <= BATCH_SIZE
  }

  /** The offset of a table after `k` batches: `k` pages on, or somewhere past the end. */
  ghost predicate OffsetAt(n: nat, offset: nat, k: nat) {
    offset == k * BATCH_SIZE || n <= offset <= k * BATCH_SIZE
  }

  lemma NextPage<T>(rows: seq<T>, offset: nat, k: nat, done: seq<T>)
    requires OffsetAt(|rows|, offset, k) && done == rows[..Min(k * BATCH_SIZE, |rows|)]
    ensures done + Page(rows, BATCH_SIZE, offset) == rows[..Min((k + 1) * BATCH_SIZE, |rows|)]
    ensures Page(rows, BATCH_SIZE, offset) == [] <==> |rows| <= k * BATCH_SIZE
    ensures |Page(rows, BATCH_SIZE, offset)| < BATCH_SIZE <==> |rows| < (k + 1) * BATCH_SIZE
    ensures OffsetAt(|rows|, if Page(rows, BATCH_SIZE, offset) != [] then offset + BATCH_SIZE else offset, k + 1)
  {
  }

  lemma StreamSnoc<C, S, B>(conversations: C, batches: seq<Batch<C, S, B>>, b: Batch<C, S, B>)
    ensures Skeletons(batches + [b]) == Skeletons(batches) + b.skeletons
    ensures Bodies(batches + [b]) == Bodies(batches) + b.bodies
    ensures AllFit(conversations, batches)
            && b.conversations == conversations && |b.skeletons| <= BATCH_SIZE && |b.bodies| <= BATCH_SIZE ==>
              AllFit(conversations, batches + [b])
  {
    assert (batches + [b])[..|batches|] == batches;
  }

  /** The first pages of both listings. */
  ghost predicate Begins<C, S, B>(conversations: C, skeletons: seq<S>, bodies: seq<B>, batches: seq<Batch<C, S, B>>) {
    && Skeletons(batches) == skeletons[..Min(|batches| * BATCH_SIZE, |skeletons|)]
    && Bodies(batches) == bodies[..Min(|batches| * BATCH_SIZE, |bodies|)]
    && AllFit(conversations, batches)
  }

  /** So far `k` batches, none of them empty. */
  ghost predicate NoneEmpty(n: nat, k: nat) {
    k > 0 ==> (k - 1) * BATCH_SIZE < n
  }

  /** Both offsets. */
  ghost predicate OffsetsAt(m: nat, n: nat, skeletonOffset: nat, bodyOffset: nat, k: nat) {
    OffsetAt(m, skeletonOffset, k) && OffsetAt(n, bodyOffset, k)
  }

  function NextOffset<T>(page: seq<T>, offset: nat): nat {
    if page != [] then offset + BATCH_SIZE else offset
  }

  lemma NextBatch<C, S, B>(
    conversations: C, skeletons: seq<S>, bodies: seq<B>, batches: seq<Batch<C, S, B>>, b: Batch<C, S, B>,
    skeletonOffset: nat, bodyOffset: nat)
    requires Begins(conversations, skeletons, bodies, batches)
    requires OffsetsAt(|skeletons|, |bodies|, skeletonOffset, bodyOffset, |batches|)
    requires b.conversations == conversations
    requires b.skeletons == Page(skeletons, BATCH_SIZE, skeletonOffset)
    requires b.bodies == Page(bodies, BATCH_SIZE, bodyOffset)
    ensures Begins(conversations, skeletons, bodies, batches + [b])
    ensures b.skeletons == [] && b.bodies == [] <==> Max(|skeletons|, |bodies|) <= |batches| * BATCH_SIZE
    ensures |b.skeletons| < BATCH_SIZE && |b.bodies| < BATCH_SIZE <==>
              Max(|skeletons|, |bodies|) < (|batches| + 1) * BATCH_SIZE
    ensures OffsetsAt(|skeletons|, |bodies|, NextOffset(b.skeletons, skeletonOffset), NextOffset(b.bodies, bodyOffset),
                      |batches| + 1)
  {
    NextPage(skeletons, skeletonOffset, |batches|, Skeletons(batches));
    NextPage(bodies, bodyOffset, |batches|, Bodies(batches));
    StreamSnoc(conversations, batches, b);
  }

  lemma EmptyBatch<C, S, B>(conversations: C)
    ensures Begins<C, S, B>(conversations, [], [], [Batch(conversations, [], [])])
  {
    StreamSnoc<C, S, B>(conversations, [], Batch(conversations, [], []));
  }

  lemma AllPages<C, S, B>(conversations: C, skeletons: seq<S>, bodies: seq<B>, batches: seq<Batch<C, S, B>>)
    requires Begins(conversations, skeletons, bodies, batches) && batches != []
    requires NoneEmpty(Max(|skeletons|, |bodies|), |batches|) || |batches| == 1
    requires Max(|skeletons|, |bodies|) <= |batches| * BATCH_SIZE
    ensures Streams(conversations, skeletons, bodies, batches)
  {
  }

  lemma SomePages<C, S, B>(conversations: C, skeletons: seq<S>, bodies: seq<B>, batches: seq<Batch<C, S, B>>)
    requires Begins(conversations, skeletons, bodies, batches) && batches != []
    requires NoneEmpty(Max(|skeletons|, |bodies|), |batches|)
    ensures |batches| <= BatchCount(Max(|skeletons|, |bodies|))
    ensures AllFit(conversations, batches) && Skeletons(batches) <= skeletons && Bodies(batches) <= bodies
  {
  }

  /**
   The batches passed to the callback.  `refuses` is the number of the batch that the callback
   refuses, if any; it ends the stream, and what was passed is a beginning of the stream.
   */
  method StreamBackupBatches<C, S, B>(conversations: C, skeletons: seq<S>, bodies: seq<B>, refuses: Option<nat>)
    returns (total: Option<nat>, batches: seq<Batch<C, S, B>>)
    ensures total.Some? ==> total.value == |batches| && Streams(conversations, skeletons, bodies, batches)
    ensures total.None? <==> refuses.Some? && refuses.value < BatchCount(Max(|skeletons|, |bodies|))
    ensures total.None? ==> |batches| == refuses.value + 1 && AllFit(conversations, batches)
                            && Skeletons(batches) <= skeletons && Bodies(batches) <= bodies
  {
    var skeletonOffset: nat, bodyOffset: nat := 0, 0;
    ghost var n := Max(|skeletons|, |bodies|);
    batches := [];
    while true
      invariant OffsetsAt(|skeletons|, |bodies|, skeletonOffset, bodyOffset, |batches|)
      invariant Begins(conversations, skeletons, bodies, batches)
      invariant NoneEmpty(n, |batches|)
      invariant refuses.Some? ==> |batches| <= refuses.value
      decreases n + BATCH_SIZE - |batches| * BATCH_SIZE
    {
      var skeletonPage := Page(skeletons, BATCH_SIZE, skeletonOffset);
      var bodyPage := Page(bodies, BATCH_SIZE, bodyOffset);
      var batch := Batch(conversations, skeletonPage, bodyPage);
      NextBatch(conversations, skeletons, bodies, batches, batch, skeletonOffset, bodyOffset);
      if skeletonPage == [] && bodyPage == [] {
        break;
      }
      batches := batches + [batch];
      if refuses.Some? && refuses.value == |batches| - 1 {
        SomePages(conversations, skeletons, bodies, batches);
        return None, batches;
      }
      if skeletonPage != [] {
        skeletonOffset := skeletonOffset + BATCH_SIZE;
      }
      if bodyPage != [] {
        bodyOffset := bodyOffset + BATCH_SIZE;
      }
      if |skeletonPage| < BATCH_SIZE && |bodyPage| < BATCH_SIZE {
        break;
      }
    }
    if batches == [] {
      EmptyBatch<C, S, B>(conversations);
      batches := [Batch(conversations, [], [])];
      if refuses == Some(0) {
        return None, batches;
      }
    }
    AllPages(conversations, skeletons, bodies, batches);
    return Some(|batches|), batches;
  }

  // ---------------------------------------------------------------------------
  // A store that changes
  // ---------------------------------------------------------------------------

  /** What is left of the rows after two pages. */
  function Later<T>(rows: seq<T>): seq<T> {
    if |rows| <= 2 * BATCH_SIZE then [] else rows[2 * BATCH_SIZE..]
  }

  /** The first page of every two. */
  ghost function EvenPages<T>(rows: seq<T>): seq<T>
    decreases |rows|
  {
    if rows == [] then [] else rows[..Min(BATCH_SIZE, |rows|)] + EvenPages(Later(rows))
  }

  /** A listing of rows that were skipped and rows that are yet to come, and the offset it is read at. */
  ghost predicate ReadAt<T>(listing: seq<T>, offset: nat, skipped: nat, rest: seq<T>) {
    && skipped <= |listing| && listing[skipped..] == rest
    && (if rest == [] then offset >= |listing| else offset == skipped)
  }

  /** The listing without the page at the offset. */
  function WithoutPage<T>(listing: seq<T>, offset: nat): seq<T> {
    listing[..Min(offset, |listing|)] + listing[Min(offset + BATCH_SIZE, |listing|)..]
  }

  lemma TakePage<T>(listing: seq<T>, offset: nat, skipped: nat, rest: seq<T>) returns (skipped': nat)
    requires ReadAt(listing, offset, skipped, rest)
    ensures Page(listing, BATCH_SIZE, offset) == rest[..Min(BATCH_SIZE, |rest|)]
    ensures var offset' := NextOffset(Page(listing, BATCH_SIZE, offset), offset);
            ReadAt(WithoutPage(listing, offset), offset', skipped', Later(rest))
  {
    var left := WithoutPage(listing, offset);
    if |rest| <= 2 * BATCH_SIZE {
      skipped' := |left|;
    } else {
      skipped' := skipped + BATCH_SIZE;
      assert |left| == |listing| - BATCH_SIZE;
      assert left[skipped'..] == rest[2 * BATCH_SIZE..];
    }
  }

  lemma Reassociate<T>(a: seq<T>, b: seq<T>, c: seq<T>)
    ensures a + (b + c) == a + b + c
  {
  }

  lemma EvenPagesStep<T>(done: seq<T>, rows: seq<T>)
    ensures done + EvenPages(rows) == done + rows[..Min(BATCH_SIZE, |rows|)] + EvenPages(Later(rows))
  {
    if rows == [] {
      assert rows[..Min(BATCH_SIZE, |rows|)] == [];
    }
    Reassociate(done, rows[..Min(BATCH_SIZE, |rows|)], EvenPages(Later(rows)));
  }

  /** The batches so far are the even pages of all but the rest, and the first pages of the bodies. */
  ghost predicate Marks<C, S, B>(
    conversations: C, skeletons: seq<S>, bodies: seq<B>, batches: seq<Batch<C, S, B>>, rest: seq<S>)
  {
    && Skeletons(batches) + EvenPages(rest) == EvenPages(skeletons)
    && Bodies(batches) == bodies[..Min(|batches| * BATCH_SIZE, |bodies|)]
    && AllFit(conversations, batches)
  }

  lemma NextMarks<C, S, B>(
    conversations: C, skeletons: seq<S>, bodies: seq<B>, batches: seq<Batch<C, S, B>>, rest: seq<S>,
    b: Batch<C, S, B>, bodyOffset: nat)
    requires Marks(conversations, skeletons, bodies, batches, rest) && OffsetAt(|bodies|, bodyOffset, |batches|)
    requires b == Batch(conversations, rest[..Min(BATCH_SIZE, |rest|)], Page(bodies, BATCH_SIZE, bodyOffset))
    ensures Marks(conversations, skeletons, bodies, batches + [b], Later(rest))
    ensures OffsetAt(|bodies|, NextOffset(b.bodies, bodyOffset), |batches| + 1)
    ensures b.bodies == [] <==> |bodies| <= |batches| * BATCH_SIZE
    ensures |b.bodies| < BATCH_SIZE <==> |bodies| < (|batches| + 1) * BATCH_SIZE
  {
    NextPage(bodies, bodyOffset, |batches|, Bodies(batches));
    StreamSnoc(conversations, batches, b);
    EvenPagesStep(Skeletons(batches), rest);
  }

  lemma MarksAll<C, S, B>(
    conversations: C, skeletons: seq<S>, bodies: seq<B>, batches: seq<Batch<C, S, B>>, rest: seq<S>)
    requires Marks(conversations, skeletons, bodies, batches, rest)
    requires rest == [] && |bodies| <= |batches| * BATCH_SIZE
    ensures Skeletons(batches) == EvenPages(skeletons) && Bodies(batches) == bodies
  {
  }

  /**
   The same loop with a callback that marks the skeletons of its batch as backed up, so that they
   leave the listing before the next page is read.
   */
  method StreamWhileMarking<C, S, B>(conversations: C, skeletons: seq<S>, bodies: seq<B>)
    returns (batches: seq<Batch<C, S, B>>)
    ensures Skeletons(batches) == EvenPages(skeletons)
    ensures Bodies(batches) == bodies
    ensures AllFit(conversations, batches)
  {
    var skeletonOffset: nat, bodyOffset: nat := 0, 0;
    var listing := skeletons;
    ghost var skipped, rest := 0, skeletons;
    batches := [];
    while true
      invariant ReadAt(listing, skeletonOffset, skipped, rest)
      invariant Marks(conversations, skeletons, bodies, batches, rest)
      invariant OffsetAt(|bodies|, bodyOffset, |batches|)
      decreases |rest| + |bodies| - Min(|batches| * BATCH_SIZE, |bodies|)
    {
      var skeletonPage := Page(listing, BATCH_SIZE, skeletonOffset);
      var bodyPage := Page(bodies, BATCH_SIZE, bodyOffset);
      var batch := Batch(conversations, skeletonPage, bodyPage);
      ghost var skipped' := TakePage(listing, skeletonOffset, skipped, rest);
      NextMarks(conversations, skeletons, bodies, batches, rest, batch, bodyOffset);
      if skeletonPage == [] && bodyPage == [] {
        break;
      }
      batches := batches + [batch];
      listing := WithoutPage(listing, skeletonOffset);
      skeletonOffset := NextOffset(skeletonPage, skeletonOffset);
      bodyOffset := NextOffset(bodyPage, bodyOffset);
      skipped, rest := skipped', Later(rest);
      if |skeletonPage| < BATCH_SIZE && |bodyPage| < BATCH_SIZE {
        break;
      }
    }
    MarksAll(conversations, skeletons, bodies, batches, rest);
    if batches == [] {
      EmptyBatch<C, S, B>(conversations);
      batches := [Batch(conversations, [], [])];
    }
  }

  /** It skips no row exactly when there is no second page. */
  lemma MarkingSkipsIff<T>(rows: seq<T>)
    ensures EvenPages(rows) == rows <==> |rows| <= BATCH_SIZE
  {
    EvenPagesAreFewer(rows);
  }

  lemma {:induction false} EvenPagesAreFewer<T>(rows: seq<T>)
    ensures |EvenPages(rows)| <= |rows|
    ensures |rows| > BATCH_SIZE ==> |EvenPages(rows)| < |rows|
    ensures |rows| <= BATCH_SIZE ==> EvenPages(rows) == rows
    decreases |rows|
  {
    if rows != [] {
      EvenPagesAreFewer(Later(rows));
    }
  }
}

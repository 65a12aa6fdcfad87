/**
 Runs of the archive, lost replies and restarts included: when no segment is lost or listed
 twice, when the manifests form a chain, and for how long what was archived can be read.
 */
module ArchiveSafety {
  import opened Archive
  import opened Common
  import opened EpochKeys
  import opened ManifestChain
  import opened Transport

  /** A segment that has been built, and what it was built from. */
  datatype Built = Built(epoch: nat, frame: Frame, records: seq<Record>)

  /** `returned` are the ids that `archive_batch` has returned, in order. */
  datatype World = World(c: Coordinator, remote: Remote<Frame>, returned: seq<Id>, built: map<Id, Built>)

  /** The process may end and start again with a new coordinator for the same wrapping key: `Reopen`. */
  datatype Op =
    | Batch(messages: seq<Message>, conversation: Id, bucket: Bytes, drawn: Drawn, reply: Reply)
    | Finalize(manifest: Id, reply: Reply)
    | Rotate(now: nat)
    | Prune(keep: nat)
    | Reopen(now: nat)

  lemma ReopenIsNew(suite: Suite, wrappingKey: Bytes, w: World, now: nat)
    requires w.c.keys.root == suite.keys.root(wrappingKey)
    ensures Step(suite, w, Reopen(now)).c == NewCoordinator(suite, wrappingKey, now)
  {
  }

  /** A segment id is never drawn twice. */
  function BatchStep(suite: Suite, w: World, op: Op): World
    requires op.Batch?
  {
    var id, keys := op.drawn.segment, w.c.keys;
    if id in w.built then w
    else
      var key := CurrentKey(suite, keys);
      var frame := SegmentOf(suite, key, op.messages, op.conversation, op.bucket, keys.current, op.drawn);
      var (c, r) := if op.reply == Acknowledged then AfterBatch(w.c, id, frame, |op.messages|) else (w.c, None);
      World(c, PutSegment(w.remote, op.reply, id, frame),
            if r.Some? then w.returned + [r.value] else w.returned,
            w.built[id := Built(keys.current, frame, RecordsOf(op.messages))])
  }

  function FinalizeStep(suite: Suite, w: World, manifest: Id, reply: Reply): World {
    if w.c.pending == [] then w
    else
      var m := ManifestOf(w.c, manifest);
      w.(remote := PutManifest(w.remote, reply, m),
         c := if reply == Acknowledged then AfterManifest(suite, w.c, m) else w.c)
  }

  function Step(suite: Suite, w: World, op: Op): World {
    match op
    case Batch(_, _, _, _, _) => BatchStep(suite, w, op)
    case Finalize(manifest, reply) => FinalizeStep(suite, w, manifest, reply)
    case Rotate(now) => w.(c := AfterRotation(suite, w.c, now))
    case Prune(keep) => w.(c := w.c.(keys := Pruned(w.c.keys, keep)))
    case Reopen(now) => w.(c := Coordinator(Keys(w.c.keys.root, CurrentEpochId(now), []), [], [], 0, Zero()))
  }

  function Run(suite: Suite, w: World, ops: seq<Op>): World {
    if ops == [] then w else Step(suite, Run(suite, w, ops[..|ops| - 1]), ops[|ops| - 1])
  }

  function Start(suite: Suite, wrappingKey: Bytes, now: nat): World {
    World(NewCoordinator(suite, wrappingKey, now), Remote(map[], []), [], map[])
  }

  // ---------------------------------------------------------------------------
  // Conservation
  // ---------------------------------------------------------------------------

  function RefIds(refs: seq<SegmentRef>): seq<Id> {
    seq(|refs|, i requires 0 <= i < |refs| => refs[i].segment)
  }

  function PendingIds(pending: seq<Pending>): seq<Id> {
    seq(|pending|, i requires 0 <= i < |pending| => pending[i].segment)
  }

  /** The segments that the manifests list, in order. */
  function ManifestIds(ms: seq<Manifest>): seq<Id> {
    if ms == [] then [] else ManifestIds(ms[..|ms| - 1]) + RefIds(ms[|ms| - 1].segments)
  }

  /** Listed or pending is exactly what was returned, in the same order. */
  predicate Conserved(w: World) {
    ManifestIds(w.remote.manifests) + PendingIds(w.c.pending) == w.returned
  }

  /** The manifest is stored but the coordinator is told that it is not. */
  predicate LosesReply(w: World, op: Op) {
    op.Finalize? && op.reply == ReplyLost && w.c.pending != []
  }

  /** The step stores a manifest, whether or not the coordinator learns of it. */
  predicate StoresManifest(w: World, op: Op) {
    op.Finalize? && op.reply != Rejected && w.c.pending != []
  }

  /** The batch is stored, queued and returned. */
  predicate Returns(w: World, op: Op) {
    op.Batch? && op.drawn.segment !in w.built && op.reply == Acknowledged && |w.c.pending| < MAX_PENDING_SEGMENTS
  }

  /**
   How listed, pending and returned segments compare.  A lost reply leaves what is pending listed
   and pending, which a restart clears; whatever else is returned or stored before that, and what
   is pending at a restart otherwise, is never set right.
   */
  datatype Books = Balanced | Doubled | Off

  function NextBooks(w: World, op: Op, books: Books): Books {
    match books
    case Balanced => if LosesReply(w, op) then Doubled else if op.Reopen? && w.c.pending != [] then Off else Balanced
    case Doubled => if op.Reopen? then Balanced else if Returns(w, op) || StoresManifest(w, op) then Off else Doubled
    case Off => Off
  }

  function BooksOf(suite: Suite, w: World, ops: seq<Op>): Books {
    if ops == [] then Balanced
    else NextBooks(Run(suite, w, ops[..|ops| - 1]), ops[|ops| - 1], BooksOf(suite, w, ops[..|ops| - 1]))
  }

  ghost predicate Distinct(ids: seq<Id>) {
    forall i, j :: 0 <= i < j < |ids| ==> ids[i] != ids[j]
  }

  lemma DistinctParts(a: seq<Id>, b: seq<Id>)
    requires Distinct(a + b)
    ensures Distinct(a) && forall x :: x in a ==> x !in b
  {
    var all := a + b;
    forall i, j | 0 <= i < j < |a|
      ensures a[i] != a[j]
    {
      assert all[i] != all[j];
    }
    forall i, j | 0 <= i < |a| && 0 <= j < |b|
      ensures a[i] != b[j]
    {
      assert all[i] != all[|a| + j];
    }
  }

  lemma DistinctSnoc(ids: seq<Id>, x: Id)
    requires Distinct(ids) && x !in ids
    ensures Distinct(ids + [x])
  {
  }

  /** Something is listed twice, or returned but neither listed nor pending, or will be one or the other. */
  ghost predicate CannotBalance(listed: seq<Id>, pending: seq<Id>, returned: seq<Id>) {
    || !Distinct(listed)
    || (exists y :: y in returned && y !in listed && y !in pending)
    || (exists x, y :: x in listed && x in pending && y in pending && y !in listed && y in returned)
  }

  ghost predicate Fits(books: Books, listed: seq<Id>, pending: seq<Id>, returned: seq<Id>) {
    && Distinct(returned)
    && match books
       case Balanced => listed + pending == returned
       case Doubled => listed == returned && pending != [] && forall x :: x in pending ==> x in listed
       case Off => CannotBalance(listed, pending, returned)
  }

  lemma BalancedIff(books: Books, listed: seq<Id>, pending: seq<Id>, returned: seq<Id>)
    requires Fits(books, listed, pending, returned)
    ensures listed + pending == returned <==> books == Balanced
  {
    if listed + pending == returned {
      DistinctParts(listed, pending);
      assert forall y :: y in listed + pending <==> y in listed || y in pending;
    }
  }

  lemma ReturnFits(books: Books, listed: seq<Id>, pending: seq<Id>, returned: seq<Id>, x: Id)
    requires Fits(books, listed, pending, returned) && x !in listed && x !in pending && x !in returned
    ensures Fits(if books == Doubled then Off else books, listed, pending + [x], returned + [x])
  {
    DistinctSnoc(returned, x);
    match books
    case Balanced => assert listed + (pending + [x]) == listed + pending + [x];
    case Doubled =>
      var twice := pending[0];
      assert twice in listed && twice in pending + [x] && x in pending + [x] && x in returned + [x];
    case Off =>
      if y :| y in returned && y !in listed && y !in pending {
        assert y in returned + [x] && y !in pending + [x];
      } else if z, y :| z in listed && z in pending && y in pending && y !in listed && y in returned {
        assert z in pending + [x] && y in pending + [x] && y in returned + [x];
      }
  }

  lemma RepeatedIsNotDistinct(a: seq<Id>, b: seq<Id>, x: Id)
    requires x in a && x in b
    ensures !Distinct(a + b)
  {
    if Distinct(a + b) {
      DistinctParts(a, b);
    }
  }

  /** After the pending segments are listed, whether they stay pending or not. */
  lemma StoreFits(books: Books, listed: seq<Id>, pending: seq<Id>, returned: seq<Id>)
    requires Fits(books, listed, pending, returned) && pending != []
    ensures Fits(if books == Balanced then Balanced else Off, listed + pending, [], returned)
    ensures Fits(if books == Balanced then Doubled else Off, listed + pending, pending, returned)
  {
    var all := listed + pending;
    match books
    case Balanced => assert all + [] == all;
    case Doubled => RepeatedIsNotDistinct(listed, pending, pending[0]);
    case Off =>
      if Distinct(all) {
        DistinctParts(listed, pending);
        var y :| y in returned && y !in listed && y !in pending;
        assert y !in all;
      }
  }

  lemma ReopenFits(books: Books, listed: seq<Id>, pending: seq<Id>, returned: seq<Id>)
    requires Fits(books, listed, pending, returned)
    ensures var books' := match books
                          case Balanced => if pending == [] then Balanced else Off
                          case Doubled => Balanced
                          case Off => Off;
            Fits(books', listed, [], returned)
  {
    assert listed + [] == listed;
    match books
    case Balanced =>
      if pending != [] {
        DistinctParts(listed, pending);
        var y := pending[0];
        assert y in listed + pending && y in returned && y !in listed;
      }
    case Doubled =>
    case Off =>
      if z, y :| z in listed && z in pending && y in pending && y !in listed && y in returned {
        assert y in returned && y !in listed && y !in [];
      }
  }

  lemma ManifestIdsSnoc(ms: seq<Manifest>, m: Manifest)
    ensures ManifestIds(ms + [m]) == ManifestIds(ms) + RefIds(m.segments)
  {
    assert (ms + [m])[..|ms|] == ms;
  }

  /** A finalization lists what is pending. */
  lemma FinalizeMovesIds(suite: Suite, w: World, manifest: Id, reply: Reply)
    requires w.c.pending != []
    ensures var w' := FinalizeStep(suite, w, manifest, reply);
            && w'.returned == w.returned
            && PendingIds(w'.c.pending) == (if reply == Acknowledged then [] else PendingIds(w.c.pending))
            && ManifestIds(w'.remote.manifests) ==
               if reply == Rejected then ManifestIds(w.remote.manifests)
               else ManifestIds(w.remote.manifests) + PendingIds(w.c.pending)
  {
    var m := ManifestOf(w.c, manifest);
    ManifestIdsSnoc(w.remote.manifests, m);
    assert RefIds(m.segments) == PendingIds(w.c.pending);
  }

  lemma BatchAddsId(suite: Suite, w: World, op: Op)
    requires op.Batch?
    ensures var w' := BatchStep(suite, w, op);
            && w'.remote.manifests == w.remote.manifests
            && (if Returns(w, op) then
                  && w'.returned == w.returned + [op.drawn.segment]
                  && |w'.c.pending| == |w.c.pending| + 1
                  && PendingIds(w'.c.pending) == PendingIds(w.c.pending) + [op.drawn.segment]
                else w'.returned == w.returned && w'.c.pending == w.c.pending)
  {
  }

  ghost predicate Kept(w: World, books: Books) {
    OnlyBuiltAppears(w) && Fits(books, ManifestIds(w.remote.manifests), PendingIds(w.c.pending), w.returned)
  }

  lemma BatchKeepsBooks(suite: Suite, w: World, op: Op, books: Books)
    requires Kept(w, books) && op.Batch?
    ensures Kept(Step(suite, w, op), NextBooks(w, op, books))
  {
    StepOnlyBuiltAppears(suite, w, op);
    BatchAddsId(suite, w, op);
    if Returns(w, op) {
      assert !Appears(w, op.drawn.segment);
      ReturnFits(books, ManifestIds(w.remote.manifests), PendingIds(w.c.pending), w.returned, op.drawn.segment);
    }
  }

  lemma FinalizeKeepsBooks(suite: Suite, w: World, op: Op, books: Books)
    requires Kept(w, books) && op.Finalize?
    ensures Kept(Step(suite, w, op), NextBooks(w, op, books))
  {
    StepOnlyBuiltAppears(suite, w, op);
    if w.c.pending != [] {
      FinalizeMovesIds(suite, w, op.manifest, op.reply);
      StoreFits(books, ManifestIds(w.remote.manifests), PendingIds(w.c.pending), w.returned);
    }
  }

  lemma StepKeepsBooks(suite: Suite, w: World, op: Op, books: Books)
    requires Kept(w, books)
    ensures Kept(Step(suite, w, op), NextBooks(w, op, books))
  {
    match op
    case Batch(_, _, _, _, _) => BatchKeepsBooks(suite, w, op, books);
    case Finalize(_, _) => FinalizeKeepsBooks(suite, w, op, books);
    case Rotate(_) => StepOnlyBuiltAppears(suite, w, op);
    case Prune(_) => StepOnlyBuiltAppears(suite, w, op);
    case Reopen(_) =>
      StepOnlyBuiltAppears(suite, w, op);
      ReopenFits(books, ManifestIds(w.remote.manifests), PendingIds(w.c.pending), w.returned);
  }

  lemma {:induction false} RunKeepsBooks(suite: Suite, wrappingKey: Bytes, now: nat, ops: seq<Op>)
    ensures Kept(Run(suite, Start(suite, wrappingKey, now), ops), BooksOf(suite, Start(suite, wrappingKey, now), ops))
    decreases |ops|
  {
    if ops != [] {
      var front := ops[..|ops| - 1];
      RunKeepsBooks(suite, wrappingKey, now, front);
      StepKeepsBooks(suite, Run(suite, Start(suite, wrappingKey, now), front), ops[|ops| - 1],
                     BooksOf(suite, Start(suite, wrappingKey, now), front));
    }
  }

  /**
   After any run the manifests list, and the queue holds, exactly the segments that were
   returned, in order, if and only if the books are balanced: no restart has found anything
   pending, but for what a lost reply had listed already, and after every lost reply a restart
   has come before anything else was returned or stored.
   */
  lemma ConservationIff(suite: Suite, wrappingKey: Bytes, now: nat, ops: seq<Op>)
    ensures Conserved(Run(suite, Start(suite, wrappingKey, now), ops)) <==>
              BooksOf(suite, Start(suite, wrappingKey, now), ops) == Balanced
  {
    var w := Run(suite, Start(suite, wrappingKey, now), ops);
    RunKeepsBooks(suite, wrappingKey, now, ops);
    BalancedIff(BooksOf(suite, Start(suite, wrappingKey, now), ops),
                ManifestIds(w.remote.manifests), PendingIds(w.c.pending), w.returned);
  }

  /** Without lost replies and restarts the books are always balanced. */
  lemma {:induction false} QuietRunIsBalanced(suite: Suite, w: World, ops: seq<Op>)
    requires forall op :: op in ops ==> !op.Reopen? && (op.Finalize? ==> op.reply != ReplyLost)
    ensures BooksOf(suite, w, ops) == Balanced
    decreases |ops|
  {
    if ops != [] {
      assert ops[|ops| - 1] in ops;
      QuietRunIsBalanced(suite, w, ops[..|ops| - 1]);
    }
  }

  /** The queue never holds more than a hundred segments. */
  lemma {:induction false} PendingIsBounded(suite: Suite, wrappingKey: Bytes, now: nat, ops: seq<Op>)
    ensures |Run(suite, Start(suite, wrappingKey, now), ops).c.pending| <= MAX_PENDING_SEGMENTS
    decreases |ops|
  {
    if ops != [] {
      var w, op := Run(suite, Start(suite, wrappingKey, now), ops[..|ops| - 1]), ops[|ops| - 1];
      PendingIsBounded(suite, wrappingKey, now, ops[..|ops| - 1]);
      if op.Batch? {
        BatchAddsId(suite, w, op);
      }
    }
  }

  // ---------------------------------------------------------------------------
  // What appears
  // ---------------------------------------------------------------------------

  ghost predicate Appears(w: World, id: Id) {
    id in ManifestIds(w.remote.manifests) || id in PendingIds(w.c.pending) || id in w.returned
  }

  /** Whatever is listed, pending or returned was built. */
  ghost predicate OnlyBuiltAppears(w: World) {
    forall id :: Appears(w, id) ==> id in w.built
  }

  /** What appears after a step appeared before it, or is the segment of a batch that was just built. */
  lemma StepAppears(suite: Suite, w: World, op: Op, id: Id)
    requires Appears(Step(suite, w, op), id)
    ensures Appears(w, id) || (id !in w.built && id in Step(suite, w, op).built)
  {
    match op
    case Batch(_, _, _, _, _) => BatchAddsId(suite, w, op);
    case Finalize(manifest, reply) =>
      if w.c.pending != [] {
        FinalizeMovesIds(suite, w, manifest, reply);
      }
    case Rotate(_) =>
    case Prune(_) =>
    case Reopen(_) =>
  }

  lemma StepKeepsBuilt(suite: Suite, w: World, op: Op)
    ensures w.built.Keys <= Step(suite, w, op).built.Keys
    ensures w.remote.segments.Keys <= Step(suite, w, op).remote.segments.Keys
  {
  }

  lemma StepOnlyBuiltAppears(suite: Suite, w: World, op: Op)
    requires OnlyBuiltAppears(w)
    ensures OnlyBuiltAppears(Step(suite, w, op))
  {
    StepKeepsBuilt(suite, w, op);
    forall id | Appears(Step(suite, w, op), id)
      ensures id in Step(suite, w, op).built
    {
      StepAppears(suite, w, op, id);
    }
  }

  // ---------------------------------------------------------------------------
  // Over the cap
  // ---------------------------------------------------------------------------

  /** A batch whose upload is acknowledged is left out of the queue exactly when the queue is full. */
  lemma OverCapIsOrphaned(suite: Suite, w: World, op: Op)
    requires op.Batch? && op.reply == Acknowledged && op.drawn.segment !in w.built
    ensures var w' := BatchStep(suite, w, op);
            && op.drawn.segment in w'.remote.segments
            && (w'.returned == w.returned && w'.c.pending == w.c.pending <==> |w.c.pending| >= MAX_PENDING_SEGMENTS)
  {
  }

  /** A segment that was built without appearing never appears. */
  lemma {:induction false} NeverAppears(suite: Suite, w: World, ops: seq<Op>, id: Id)
    requires id in w.built && id in w.remote.segments && !Appears(w, id)
    ensures id in Run(suite, w, ops).built && id in Run(suite, w, ops).remote.segments
    ensures !Appears(Run(suite, w, ops), id)
    decreases |ops|
  {
    if ops != [] {
      var v, op := Run(suite, w, ops[..|ops| - 1]), ops[|ops| - 1];
      NeverAppears(suite, w, ops[..|ops| - 1], id);
      StepKeepsBuilt(suite, v, op);
      if Appears(Step(suite, v, op), id) {
        StepAppears(suite, v, op, id);
      }
    }
  }

  /**
   A batch over the cap leaves a segment on the gateway that is never returned, queued or
   listed, however the run goes on.
   */
  lemma OrphanIsNeverListed(suite: Suite, wrappingKey: Bytes, now: nat, ops: seq<Op>, op: Op, more: seq<Op>)
    requires var w := Run(suite, Start(suite, wrappingKey, now), ops);
             && op.Batch? && op.reply == Acknowledged && op.drawn.segment !in w.built
             && |w.c.pending| >= MAX_PENDING_SEGMENTS
    ensures var w' := Run(suite, Step(suite, Run(suite, Start(suite, wrappingKey, now), ops), op), more);
            && op.drawn.segment in w'.remote.segments
            && op.drawn.segment !in ManifestIds(w'.remote.manifests)
            && op.drawn.segment !in PendingIds(w'.c.pending)
            && op.drawn.segment !in w'.returned
  {
    var w := Run(suite, Start(suite, wrappingKey, now), ops);
    RunKeepsBooks(suite, wrappingKey, now, ops);
    assert !Appears(w, op.drawn.segment);
    OverCapIsOrphaned(suite, w, op);
    NeverAppears(suite, Step(suite, w, op), more, op.drawn.segment);
  }

  /** Batches with the segment ids of one, two, three, ... bytes. */
  function Batches(r: Drawn, n: nat): seq<Op> {
    if n == 0 then [] else Batches(r, n - 1) + [SmallBatch(r, n)]
  }

  function SmallBatch(r: Drawn, n: nat): (op: Op)
    ensures op.Batch? && op.reply == Acknowledged && |op.drawn.segment| == n
  {
    Batch([], [], [], r.(segment := seq(n, _ => 0)), Acknowledged)
  }

  lemma RunSnoc(suite: Suite, w: World, ops: seq<Op>, op: Op)
    ensures Run(suite, w, ops + [op]) == Step(suite, Run(suite, w, ops), op)
  {
    assert (ops + [op])[..|ops|] == ops;
  }

  lemma OneMoreBatch(suite: Suite, w: World, op: Op, n: nat)
    requires op.Batch? && op.reply == Acknowledged && |op.drawn.segment| == n
    requires |w.c.pending| == n - 1 < MAX_PENDING_SEGMENTS && forall id :: id in w.built ==> |id| < n
    ensures |Step(suite, w, op).c.pending| == n
    ensures forall id :: id in Step(suite, w, op).built ==> |id| <= n
  {
    assert Returns(w, op);
    BatchAddsId(suite, w, op);
  }

  /** A hundred of them fill the queue. */
  lemma {:induction false} CapIsReached(suite: Suite, wrappingKey: Bytes, now: nat, r: Drawn, n: nat)
    requires n <= MAX_PENDING_SEGMENTS
    ensures |Run(suite, Start(suite, wrappingKey, now), Batches(r, n)).c.pending| == n
    ensures forall id :: id in Run(suite, Start(suite, wrappingKey, now), Batches(r, n)).built ==> |id| <= n
    decreases n
  {
    if n > 0 {
      CapIsReached(suite, wrappingKey, now, r, n - 1);
      RunSnoc(suite, Start(suite, wrappingKey, now), Batches(r, n - 1), SmallBatch(r, n));
      OneMoreBatch(suite, Run(suite, Start(suite, wrappingKey, now), Batches(r, n - 1)), SmallBatch(r, n), n);
    }
  }

  // ---------------------------------------------------------------------------
  // The chain
  // ---------------------------------------------------------------------------

  ghost predicate Chained(suite: Suite, w: World) {
    && Sound(suite.hash, w.remote.manifests)
    && w.c.generation == |w.remote.manifests|
    && w.c.previous == TipHash(suite.hash, w.remote.manifests)
    && StartsAtZero(w.remote.manifests)
  }

  /** The coordinator falls behind the list: a reply is lost, or a new one starts where there are manifests. */
  predicate FallsBehind(w: World, op: Op) {
    LosesReply(w, op) || (op.Reopen? && w.remote.manifests != [])
  }

  predicate NeverBehind(suite: Suite, w: World, ops: seq<Op>) {
    ops == [] ||
    (NeverBehind(suite, w, ops[..|ops| - 1]) && !FallsBehind(Run(suite, w, ops[..|ops| - 1]), ops[|ops| - 1]))
  }

  lemma StepKeepsChain(suite: Suite, w: World, op: Op)
    requires Chained(suite, w) && !FallsBehind(w, op)
    ensures Chained(suite, Step(suite, w, op))
  {
    if op.Finalize? {
      var m := ManifestOf(w.c, op.manifest);
      NumberedSnoc(w.remote.manifests, m);
      AppendAcceptedIff(suite.hash, w.remote.manifests, m);
    }
  }

  /**
   The manifests have generations 0, 1, 2, ..., start at the zero hash and are accepted, and the
   coordinator stands at their end, whatever uploads are refused.
   */
  lemma {:induction false} ChainHolds(suite: Suite, wrappingKey: Bytes, now: nat, ops: seq<Op>)
    requires NeverBehind(suite, Start(suite, wrappingKey, now), ops)
    ensures Chained(suite, Run(suite, Start(suite, wrappingKey, now), ops))
    decreases |ops|
  {
    if ops != [] {
      ChainHolds(suite, wrappingKey, now, ops[..|ops| - 1]);
      StepKeepsChain(suite, Run(suite, Start(suite, wrappingKey, now), ops[..|ops| - 1]), ops[|ops| - 1]);
    }
  }

  /** No manifest is stored once the coordinator has fallen behind. */
  predicate NoStoreBehind(suite: Suite, w: World, ops: seq<Op>) {
    ops == [] ||
    (NoStoreBehind(suite, w, ops[..|ops| - 1])
     && (StoresManifest(Run(suite, w, ops[..|ops| - 1]), ops[|ops| - 1]) ==>
           NeverBehind(suite, w, ops[..|ops| - 1])))
  }

  lemma StepLags(suite: Suite, w: World, op: Op)
    requires w.c.generation <= |w.remote.manifests|
    ensures var w' := Step(suite, w, op);
            && w'.c.generation <= |w'.remote.manifests|
            && (w'.c.generation == |w'.remote.manifests| <==>
                  w.c.generation == |w.remote.manifests| && !FallsBehind(w, op))
  {
  }

  /** Once it has fallen behind it never catches up. */
  lemma {:induction false} Lags(suite: Suite, wrappingKey: Bytes, now: nat, ops: seq<Op>)
    ensures var w := Run(suite, Start(suite, wrappingKey, now), ops);
            && w.c.generation <= |w.remote.manifests|
            && (w.c.generation == |w.remote.manifests| <==> NeverBehind(suite, Start(suite, wrappingKey, now), ops))
    decreases |ops|
  {
    if ops != [] {
      Lags(suite, wrappingKey, now, ops[..|ops| - 1]);
      StepLags(suite, Run(suite, Start(suite, wrappingKey, now), ops[..|ops| - 1]), ops[|ops| - 1]);
    }
  }

  /** What a step does to the list: nothing, or one manifest at the coordinator's generation. */
  lemma StepIsNumberedIff(suite: Suite, w: World, op: Op)
    ensures Numbered(Step(suite, w, op).remote.manifests) <==>
              Numbered(w.remote.manifests) && (StoresManifest(w, op) ==> w.c.generation == |w.remote.manifests|)
    ensures !StoresManifest(w, op) ==> Step(suite, w, op).remote.manifests == w.remote.manifests
  {
    if op.Finalize? {
      NumberedSnoc(w.remote.manifests, ManifestOf(w.c, op.manifest));
    }
  }

  lemma StoreKeepsSound(suite: Suite, w: World, op: Op)
    requires Chained(suite, w) && StoresManifest(w, op)
    ensures Sound(suite.hash, Step(suite, w, op).remote.manifests)
  {
    var m := ManifestOf(w.c, op.manifest);
    NumberedSnoc(w.remote.manifests, m);
    AppendAcceptedIff(suite.hash, w.remote.manifests, m);
  }

  /**
   Over any run: the manifests are numbered 0, 1, 2, ... exactly when none is stored after a lost
   reply or a restart that found manifests, and exactly then they are so numbered and accepted.
   */
  lemma {:induction false} ChainHoldsIff(suite: Suite, wrappingKey: Bytes, now: nat, ops: seq<Op>)
    ensures var start := Start(suite, wrappingKey, now);
            var ms := Run(suite, start, ops).remote.manifests;
            && (Numbered(ms) <==> NoStoreBehind(suite, start, ops))
            && (Sound(suite.hash, ms) <==> NoStoreBehind(suite, start, ops))
    decreases |ops|
  {
    if ops != [] {
      var front, op := ops[..|ops| - 1], ops[|ops| - 1];
      var start := Start(suite, wrappingKey, now);
      var w := Run(suite, start, front);
      ChainHoldsIff(suite, wrappingKey, now, front);
      Lags(suite, wrappingKey, now, front);
      StepIsNumberedIff(suite, w, op);
      if StoresManifest(w, op) && NeverBehind(suite, start, front) {
        ChainHolds(suite, wrappingKey, now, front);
        StoreKeepsSound(suite, w, op);
      }
    }
  }

  /** After a lost reply the retry publishes the same segments once more, at the same place in the chain. */
  lemma LostReplyForks(suite: Suite, w: World, id: Id, id': Id)
    requires Chained(suite, w) && w.c.pending != []
    ensures var ms := FinalizeStep(suite, FinalizeStep(suite, w, id, ReplyLost), id', Acknowledged).remote.manifests;
            && !Numbered(ms)
            && (Accepts(suite.hash, ms) <==> suite.hash(ManifestOf(w.c, id)) == w.c.previous)
            && ManifestIds(ms) ==
               ManifestIds(w.remote.manifests) + PendingIds(w.c.pending) + PendingIds(w.c.pending)
  {
    var ms, first, second := w.remote.manifests, ManifestOf(w.c, id), ManifestOf(w.c, id');
    NumberedSnoc(ms, first);
    AppendAcceptedIff(suite.hash, ms, first);
    SameTipForks(suite.hash, ms, first, second);
    ManifestIdsSnoc(ms, first);
    ManifestIdsSnoc(ms + [first], second);
    assert RefIds(first.segments) == PendingIds(w.c.pending) && RefIds(second.segments) == PendingIds(w.c.pending);
  }

  // ---------------------------------------------------------------------------
  // Readability
  // ---------------------------------------------------------------------------

  /** The segment opens with the key its epoch was given. */
  ghost predicate ReadsBack(suite: Suite, root: Bytes, b: Built) {
    ReadSegment(suite, b.frame, suite.keys.derive(root, b.epoch)) == Some(b.records)
  }

  ghost predicate Readable(suite: Suite, root: Bytes, w: World) {
    && w.c.keys.root == root && Contiguous(suite.keys, w.c.keys)
    && (forall id :: id in w.built ==> ReadsBack(suite, root, w.built[id]))
    && (forall id :: id in w.remote.segments ==> id in w.built && w.remote.segments[id] == w.built[id].frame)
    && (forall id :: id in w.returned ==> id in w.remote.segments)
  }

  lemma StepKeepsReadable(suite: Suite, root: Bytes, w: World, op: Op)
    requires Archive.Lawful(suite) && Readable(suite, root, w)
    ensures Readable(suite, root, Step(suite, w, op))
  {
    match op
    case Batch(messages, conversation, bucket, r, reply) =>
      SegmentRoundTrip(suite, CurrentKey(suite, w.c.keys), messages, conversation, bucket, w.c.keys.current, r);
    case Finalize(_, _) =>
    case Rotate(now) => RotateKeepsContiguous(suite.keys, w.c.keys);
    case Prune(keep) => PruneKeepsNewest(suite.keys, w.c.keys, keep);
    case Reopen(_) =>
  }

  lemma {:induction false} RunKeepsReadable(suite: Suite, root: Bytes, w: World, ops: seq<Op>)
    requires Archive.Lawful(suite) && Readable(suite, root, w)
    ensures Readable(suite, root, Run(suite, w, ops))
    decreases |ops|
  {
    if ops != [] {
      RunKeepsReadable(suite, root, w, ops[..|ops| - 1]);
      StepKeepsReadable(suite, root, Run(suite, w, ops[..|ops| - 1]), ops[|ops| - 1]);
    }
  }

  /** Read a segment with the key the manager has for an epoch. */
  function Fetch(suite: Suite, w: World, id: Id, epoch: nat): Option<seq<Record>> {
    if id !in w.remote.segments then None
    else
      match EpochKey(suite.keys, w.c.keys, epoch)
      case None => None
      case Some(key) => ReadSegment(suite, w.remote.segments[id], key)
  }

  lemma FetchIff(suite: Suite, root: Bytes, w: World, id: Id)
    requires Archive.Lawful(suite) && Readable(suite, root, w) && id in w.returned
    ensures id in w.built && id in w.remote.segments
    ensures Fetch(suite, w, id, w.built[id].epoch) ==
            if w.c.keys.current - |w.c.keys.prior| <= w.built[id].epoch <= w.c.keys.current then
              Some(w.built[id].records)
            else None
  {
    KeyOfEpoch(suite.keys, w.c.keys, w.built[id].epoch);
    assert ReadsBack(suite, root, w.built[id]);
  }

  /**
   After any run, every segment that was returned is on the gateway, and reading it with the
   key of its epoch gives what was archived, in order, exactly when the coordinator has that key:
   when the epoch is the current one or among those before it that were neither pruned nor left
   behind by a restart.
   */
  lemma ReadableIff(suite: Suite, wrappingKey: Bytes, now: nat, ops: seq<Op>, id: Id)
    requires Archive.Lawful(suite)
    requires id in Run(suite, Start(suite, wrappingKey, now), ops).returned
    ensures var w := Run(suite, Start(suite, wrappingKey, now), ops);
            && id in w.built && id in w.remote.segments
            && Fetch(suite, w, id, w.built[id].epoch) ==
               if w.c.keys.current - |w.c.keys.prior| <= w.built[id].epoch <= w.c.keys.current then
                 Some(w.built[id].records)
               else None
  {
    var start := Start(suite, wrappingKey, now);
    RunKeepsReadable(suite, start.c.keys.root, start, ops);
    FetchIff(suite, start.c.keys.root, Run(suite, start, ops), id);
  }

  lemma ReopenedKeys(suite: Suite, w: World, later: nat)
    ensures var again := Step(suite, w, Reopen(later));
            && again.c.keys.prior == [] && again.c.keys.current == CurrentEpochId(later)
            && again.built == w.built && again.returned == w.returned
  {
  }

  lemma FetchReopened(suite: Suite, root: Bytes, w: World, later: nat, id: Id)
    requires Archive.Lawful(suite) && Readable(suite, root, w) && id in w.returned
    ensures id in w.built
    ensures Fetch(suite, Step(suite, w, Reopen(later)), id, w.built[id].epoch) ==
            if w.built[id].epoch == CurrentEpochId(later) then Some(w.built[id].records) else None
  {
    ReopenedKeys(suite, w, later);
    StepKeepsReadable(suite, root, w, Reopen(later));
    FetchIff(suite, root, Step(suite, w, Reopen(later)), id);
  }

  /** After a restart only the segments of the epoch that the clock shows can be read. */
  lemma ReopenForgetsKeys(suite: Suite, wrappingKey: Bytes, now: nat, ops: seq<Op>, later: nat, id: Id)
    requires Archive.Lawful(suite)
    requires id in Run(suite, Start(suite, wrappingKey, now), ops).returned
    ensures var w := Run(suite, Start(suite, wrappingKey, now), ops);
            && id in w.built
            && Fetch(suite, Step(suite, w, Reopen(later)), id, w.built[id].epoch) ==
               if w.built[id].epoch == CurrentEpochId(later) then Some(w.built[id].records) else None
  {
    var start := Start(suite, wrappingKey, now);
    RunKeepsReadable(suite, start.c.keys.root, start, ops);
    FetchReopened(suite, start.c.keys.root, Run(suite, start, ops), later, id);
  }

  /** The stored keys reach back to `first`, and no segment is older, or newer than the current epoch. */
  ghost predicate ReachesBack(w: World, first: nat) {
    && w.c.keys.current - |w.c.keys.prior| == first
    && forall id :: id in w.built ==> first <= w.built[id].epoch <= w.c.keys.current
  }

  /** Without pruning and restarts there is a key for every epoch since the first. */
  lemma {:induction false} UnprunedKeysReachBack(suite: Suite, w: World, ops: seq<Op>, first: nat)
    requires ReachesBack(w, first) && forall op :: op in ops ==> !op.Prune? && !op.Reopen?
    ensures ReachesBack(Run(suite, w, ops), first)
    decreases |ops|
  {
    if ops != [] {
      assert ops[|ops| - 1] in ops;
      UnprunedKeysReachBack(suite, w, ops[..|ops| - 1], first);
    }
  }

  /** So whatever was archived stays readable. */
  lemma UnprunedIsReadable(suite: Suite, wrappingKey: Bytes, now: nat, ops: seq<Op>, id: Id)
    requires Archive.Lawful(suite) && forall op :: op in ops ==> !op.Prune? && !op.Reopen?
    requires id in Run(suite, Start(suite, wrappingKey, now), ops).returned
    ensures var w := Run(suite, Start(suite, wrappingKey, now), ops);
            id in w.built && Fetch(suite, w, id, w.built[id].epoch) == Some(w.built[id].records)
  {
    var start := Start(suite, wrappingKey, now);
    ReadableIff(suite, wrappingKey, now, ops, id);
    UnprunedKeysReachBack(suite, start, ops, start.c.keys.current);
  }
}

/**
 Runs of the archive: the epoch follows the clock, and manifests, frames and the coordinator's
 journal record what was uploaded.
 */
module ArchiveRecords {
  import opened Archive
  import opened ArchiveSafety
  import opened Common
  import opened EpochKeys
  import opened ManifestChain
  import opened Transport

  // ---------------------------------------------------------------------------
  // Catching up with the clock
  // ---------------------------------------------------------------------------

  function Rotations(now: nat, n: nat): seq<Op> {
    if n == 0 then [] else Rotations(now, n - 1) + [Rotate(now)]
  }

  /** The epoch after `n` rotations by a clock that shows epoch `clock`: one on each time, and never past the clock. */
  function EpochAfter(current: nat, clock: nat, n: nat): nat {
    Max(current, Min(current + n, clock))
  }

  lemma OneRotation(suite: Suite, w: World, now: nat)
    requires Contiguous(suite.keys, w.c.keys)
    ensures var w' := Step(suite, w, Rotate(now));
            && w'.c.keys.current == EpochAfter(w.c.keys.current, CurrentEpochId(now), 1)
            && w'.c.keys.current - |w'.c.keys.prior| == w.c.keys.current - |w.c.keys.prior|
            && w'.c.keys.root == w.c.keys.root && Contiguous(suite.keys, w'.c.keys)
            && w'.c.pending == w.c.pending && w'.remote == w.remote && w'.built == w.built
  {
  }

  /** Rotating brings the epoch up to the clock, one for each call, and keeps a key for every epoch in between. */
  lemma {:induction false} CatchUp(suite: Suite, w: World, now: nat, n: nat)
    requires Contiguous(suite.keys, w.c.keys)
    ensures var w' := Run(suite, w, Rotations(now, n));
            && w'.c.keys.current == EpochAfter(w.c.keys.current, CurrentEpochId(now), n)
            && w'.c.keys.current - |w'.c.keys.prior| == w.c.keys.current - |w.c.keys.prior|
            && w'.c.keys.root == w.c.keys.root && Contiguous(suite.keys, w'.c.keys)
            && w'.c.pending == w.c.pending && w'.remote == w.remote && w'.built == w.built
    decreases n
  {
    if n > 0 {
      CatchUp(suite, w, now, n - 1);
      RunSnoc(suite, w, Rotations(now, n - 1), Rotate(now));
      OneRotation(suite, Run(suite, w, Rotations(now, n - 1)), now);
    }
  }

  /** A batch is built with the epoch that the rotations have reached. */
  lemma BatchAfterRotations(suite: Suite, w: World, now: nat, n: nat, op: Op)
    requires Contiguous(suite.keys, w.c.keys) && op.Batch? && op.drawn.segment !in w.built
    ensures var w' := Step(suite, Run(suite, w, Rotations(now, n)), op);
            && op.drawn.segment in w'.built
            && w'.built[op.drawn.segment].epoch == EpochAfter(w.c.keys.current, CurrentEpochId(now), n)
            && w'.built[op.drawn.segment].records == RecordsOf(op.messages)
  {
    CatchUp(suite, w, now, n);
  }

  // ---------------------------------------------------------------------------
  // References and frames
  // ---------------------------------------------------------------------------

  /** The reference has the digest and the size of the frame that is on the gateway. */
  ghost predicate RefTells(segments: map<Id, Frame>, ref: SegmentRef) {
    && ref.segment in segments
    && ref.digest == segments[ref.segment].plaintextHash
    && ref.size == |segments[ref.segment].ciphertext|
  }

  /** The frame has the digest and the size of the plaintext that it opens to. */
  ghost predicate FrameTells(suite: Suite, root: Bytes, b: Built) {
    var sealed := suite.open(suite.keys.derive(root, b.epoch), b.frame.nonce, b.frame.ciphertext, ArchiveSegment);
    && sealed.Some?
    && var plaintext := suite.decompress(sealed.value);
       && plaintext.Some?
       && b.frame.plaintextHash == suite.digest(plaintext.value)
       && b.frame.plaintextSize == |plaintext.value|
  }

  ghost predicate AllTell(suite: Suite, root: Bytes, w: World) {
    && (forall id :: id in w.built ==> FrameTells(suite, root, w.built[id]))
    && (forall p :: p in w.c.pending ==> p.segment in w.remote.segments && w.remote.segments[p.segment] == p.frame)
    && (forall m, ref :: m in w.remote.manifests && ref in m.segments ==> RefTells(w.remote.segments, ref))
  }

  lemma OwnFrameTells(
    suite: Suite, root: Bytes, messages: seq<Message>, conversation: Id, bucket: Bytes, epoch: nat, r: Drawn)
    requires Archive.Lawful(suite)
    ensures var frame := SegmentOf(suite, suite.keys.derive(root, epoch), messages, conversation, bucket, epoch, r);
            FrameTells(suite, root, Built(epoch, frame, RecordsOf(messages)))
  {
  }

  lemma BatchKeepsOthers(suite: Suite, w: World, op: Op)
    requires op.Batch? && op.drawn.segment !in w.built
    requires forall id :: id in w.remote.segments ==> id in w.built
    ensures var w' := BatchStep(suite, w, op);
            && w'.remote.manifests == w.remote.manifests
            && (forall id :: id in w.remote.segments ==>
                  id in w'.remote.segments && w'.remote.segments[id] == w.remote.segments[id])
            && (forall id :: id in w.built ==> id in w'.built && w'.built[id] == w.built[id])
  {
  }

  lemma BatchKeepsTelling(suite: Suite, root: Bytes, w: World, op: Op)
    requires Archive.Lawful(suite) && Readable(suite, root, w) && AllTell(suite, root, w) && op.Batch?
    ensures AllTell(suite, root, BatchStep(suite, w, op))
  {
    var w', id := BatchStep(suite, w, op), op.drawn.segment;
    if id !in w.built {
      OwnFrameTells(suite, root, op.messages, op.conversation, op.bucket, w.c.keys.current, op.drawn);
      BatchKeepsOthers(suite, w, op);
      forall m, ref | m in w'.remote.manifests && ref in m.segments
        ensures RefTells(w'.remote.segments, ref)
      {
        assert RefTells(w.remote.segments, ref);
      }
    }
  }

  lemma FinalizeKeepsTelling(suite: Suite, root: Bytes, w: World, manifest: Id, reply: Reply)
    requires AllTell(suite, root, w)
    ensures AllTell(suite, root, FinalizeStep(suite, w, manifest, reply))
  {
  }

  lemma StepKeepsTelling(suite: Suite, root: Bytes, w: World, op: Op)
    requires Archive.Lawful(suite) && Readable(suite, root, w) && AllTell(suite, root, w)
    ensures AllTell(suite, root, Step(suite, w, op))
  {
    match op
    case Batch(_, _, _, _, _) => BatchKeepsTelling(suite, root, w, op);
    case Finalize(manifest, reply) => FinalizeKeepsTelling(suite, root, w, manifest, reply);
    case Rotate(_) =>
    case Prune(_) =>
    case Reopen(_) =>
  }

  /**
   Over every run, each segment that a manifest lists is on the gateway, the reference has the
   digest and size of its frame, and the frame those of its plaintext.
   */
  lemma {:induction false} ManifestsTell(suite: Suite, wrappingKey: Bytes, now: nat, ops: seq<Op>)
    requires Archive.Lawful(suite)
    ensures var start := Start(suite, wrappingKey, now);
            && Readable(suite, start.c.keys.root, Run(suite, start, ops))
            && AllTell(suite, start.c.keys.root, Run(suite, start, ops))
    decreases |ops|
  {
    if ops != [] {
      var start := Start(suite, wrappingKey, now);
      var w := Run(suite, start, ops[..|ops| - 1]);
      ManifestsTell(suite, wrappingKey, now, ops[..|ops| - 1]);
      StepKeepsReadable(suite, start.c.keys.root, w, ops[|ops| - 1]);
      StepKeepsTelling(suite, start.c.keys.root, w, ops[|ops| - 1]);
    }
  }

  // ---------------------------------------------------------------------------
  // The journal of the coordinator
  // ---------------------------------------------------------------------------

  /** The epochs that were rotated out. */
  function RotatedOut(events: seq<ArchiveEvent>): seq<nat> {
    if events == [] then []
    else
      var front, last := RotatedOut(events[..|events| - 1]), events[|events| - 1];
      if last.EpochRotated? then front + [last.epoch] else front
  }

  /** Generation and number of segments of the manifests. */
  function Uploaded(events: seq<ArchiveEvent>): seq<(nat, nat)> {
    if events == [] then []
    else
      var front, last := Uploaded(events[..|events| - 1]), events[|events| - 1];
      if last.ManifestUploaded? then front + [(last.generation, last.segments)] else front
  }

  /**
   The journal of a coordinator tells of its manifests, numbered from zero, of the epochs just
   below the current one, and of the segments it has uploaded with their epochs and sizes.
   */
  ghost predicate JournalTells(w: World) {
    var rotated, uploaded := RotatedOut(w.c.events), Uploaded(w.c.events);
    && |rotated| <= w.c.keys.current
    && (forall k :: 0 <= k < |rotated| ==> rotated[k] == w.c.keys.current - |rotated| + k)
    && |uploaded| == w.c.generation
    && (forall k :: 0 <= k < |uploaded| ==> uploaded[k].0 == k)
    && (forall e :: e in w.c.events && e.SegmentUploaded? ==>
          e.segment in w.built && w.built[e.segment].epoch == e.epoch && |w.built[e.segment].records| == e.messages)
    && (forall p :: p in w.c.pending ==> exists e :: e in w.c.events && e.SegmentUploaded? && e.segment == p.segment)
  }

  /** And the sizes of the manifests are those of the published ones. */
  ghost predicate SizesTell(w: World) {
    var uploaded := Uploaded(w.c.events);
    |uploaded| == |w.remote.manifests|
    && forall k :: 0 <= k < |uploaded| ==> uploaded[k].1 == |w.remote.manifests[k].segments|
  }

  lemma BatchKeepsJournal(suite: Suite, w: World, op: Op)
    requires JournalTells(w) && op.Batch?
    ensures JournalTells(BatchStep(suite, w, op))
    ensures SizesTell(w) ==> SizesTell(BatchStep(suite, w, op))
  {
    var w', id := BatchStep(suite, w, op), op.drawn.segment;
    if id !in w.built && op.reply == Acknowledged {
      var e := SegmentUploaded(id, w.c.keys.current, |op.messages|);
      assert (w.c.events + [e])[..|w.c.events|] == w.c.events;
      assert w'.c.events == w.c.events + [e];
      assert e in w'.c.events && e.SegmentUploaded? && e.segment == id;
      forall p | p in w'.c.pending
        ensures exists e :: e in w'.c.events && e.SegmentUploaded? && e.segment == p.segment
      {
        if p in w.c.pending {
          var before :| before in w.c.events && before.SegmentUploaded? && before.segment == p.segment;
          assert before in w'.c.events;
        }
      }
    }
  }

  lemma StepKeepsJournal(suite: Suite, w: World, op: Op)
    requires JournalTells(w)
    ensures JournalTells(Step(suite, w, op))
    ensures SizesTell(w) && !FallsBehind(w, op) ==> SizesTell(Step(suite, w, op))
  {
    if op.Batch? {
      BatchKeepsJournal(suite, w, op);
    }
  }

  /** Over every run; the sizes as long as the coordinator has not fallen behind. */
  lemma {:induction false} JournalTellsOfUploads(suite: Suite, wrappingKey: Bytes, now: nat, ops: seq<Op>)
    ensures JournalTells(Run(suite, Start(suite, wrappingKey, now), ops))
    ensures NeverBehind(suite, Start(suite, wrappingKey, now), ops) ==>
              SizesTell(Run(suite, Start(suite, wrappingKey, now), ops))
    decreases |ops|
  {
    if ops != [] {
      JournalTellsOfUploads(suite, wrappingKey, now, ops[..|ops| - 1]);
      StepKeepsJournal(suite, Run(suite, Start(suite, wrappingKey, now), ops[..|ops| - 1]), ops[|ops| - 1]);
    }
  }
}

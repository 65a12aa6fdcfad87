/**
 Nothing is marked before it can be restored, and nothing unmarked is left out.  This holds
 over every run: whatever uploads fail, replies get lost, backups overlap or restarts
 intervene.
 */
module BackupSafety {
  import opened Common
  import opened MessageStore
  import opened StateMachines
  import opened StoreRows
  import B = Backup
  import opened Transport
  import opened Tokenizer

  /** The fields of a row that never change. */
  predicate SameOrigin(a: Skeleton, b: Skeleton) {
    && a.conversation == b.conversation
    && a.sender == b.sender
    && a.createdAt == b.createdAt
    && a.receivedAt == b.receivedAt
    && a.kind == b.kind
    && a.replyTo == b.replyTo
  }

  /** The row as it was when the snapshot was taken. */
  ghost predicate Holds(snapshot: B.Snapshot, id: Id, k: Skeleton) {
    id in snapshot.skeletons && SameOrigin(snapshot.skeletons[id], k)
  }

  /** Some published manifest restores to the snapshot. */
  ghost predicate Published(env: B.Env, remote: Remote<Bytes>, snapshot: B.Snapshot) {
    exists m :: m in remote.manifests && B.Recover(env, remote, m) == Some(snapshot)
  }

  /** Some published manifest restores to a snapshot with the row. */
  ghost predicate Restorable(env: B.Env, remote: Remote<Bytes>, id: Id, k: Skeleton) {
    exists snapshot :: Published(env, remote, snapshot) && Holds(snapshot, id, k)
  }

  // ---------------------------------------------------------------------------
  // The invariant
  // ---------------------------------------------------------------------------

  /** Snapshot rows are rows of the store. */
  ghost predicate RowsKnown(s: Store, snapshot: B.Snapshot) {
    forall id :: id in snapshot.skeletons ==> id in s.skeletons && Holds(snapshot, id, s.skeletons[id])
  }

  ghost predicate PayloadFits(env: B.Env, sealed: map<Id, Bytes>, snapshot: B.Snapshot, p: B.Payload) {
    && |p.manifest.segments| == 1 && p.manifest.segments[0].segment == p.segment
    && p.segment in sealed && sealed[p.segment] == p.ciphertext
    && B.OpensTo(env, p.ciphertext, snapshot)
  }

  ghost predicate FlightFits(env: B.Env, remote: Remote<Bytes>, sealed: map<Id, Bytes>, f: B.Flight) {
    match f.stage
    case ConversationsListed => true
    case SkeletonsListed => true
    case Collected => true
    case Built(p) => PayloadFits(env, sealed, f.snapshot, p)
    case SegmentUp(p) => PayloadFits(env, sealed, f.snapshot, p) && p.segment in remote.segments
    case ManifestUp(p) => Published(env, remote, f.snapshot)
    case Advanced => Published(env, remote, f.snapshot)
  }

  ghost predicate RowIsSafe(env: B.Env, remote: Remote<Bytes>, id: Id, k: Skeleton) {
    || k.backupState == NotBackedUp
    || (k.backupState == BackupManifestCommitted && Restorable(env, remote, id, k))
  }

  ghost predicate SegmentsSealed(w: B.World) {
    forall s :: s in w.remote.segments ==> s in w.sealed && w.sealed[s] == w.remote.segments[s]
  }

  ghost predicate Safe(env: B.Env, w: B.World) {
    && SegmentsSealed(w)
    && (forall f :: f in w.flights ==>
          RowsKnown(w.store, w.flights[f].snapshot) && FlightFits(env, w.remote, w.sealed, w.flights[f]))
    && (forall id :: id in w.store.skeletons ==> RowIsSafe(env, w.remote, id, w.store.skeletons[id]))
  }

  // ---------------------------------------------------------------------------
  // What steps keep
  // ---------------------------------------------------------------------------

  /** A call on the store keeps every row with its origin and backup state; new rows are not backed up. */
  lemma CallKeepsRows(lower: Lowercase, s: Store, op: Op, id: Id)
    ensures var s' := MessageStore.Step(lower, s, op).0;
            && (id in s.skeletons ==>
                  && id in s'.skeletons
                  && SameOrigin(s.skeletons[id], s'.skeletons[id])
                  && s.skeletons[id].backupState == s'.skeletons[id].backupState)
            && (id !in s.skeletons && id in s'.skeletons ==> s'.skeletons[id].backupState == NotBackedUp)
  {
    if id in s.skeletons {
      CallRow(lower, s, op, id);
    }
  }

  ghost predicate Grows(a: Remote<Bytes>, b: Remote<Bytes>) {
    && (forall s :: s in a.segments ==> s in b.segments && b.segments[s] == a.segments[s])
    && (forall m :: m in a.manifests ==> m in b.manifests)
  }

  lemma PublishedGrows(env: B.Env, a: Remote<Bytes>, b: Remote<Bytes>, snapshot: B.Snapshot)
    requires Grows(a, b) && Published(env, a, snapshot)
    ensures Published(env, b, snapshot)
  {
    var m :| m in a.manifests && B.Recover(env, a, m) == Some(snapshot);
    assert B.Recover(env, b, m) == Some(snapshot);
  }

  lemma RestorableGrows(env: B.Env, a: Remote<Bytes>, b: Remote<Bytes>, id: Id, k: Skeleton)
    requires Grows(a, b) && Restorable(env, a, id, k)
    ensures Restorable(env, b, id, k)
  {
    var snapshot :| Published(env, a, snapshot) && Holds(snapshot, id, k);
    PublishedGrows(env, a, b, snapshot);
  }

  lemma RestorableMoves(env: B.Env, remote: Remote<Bytes>, id: Id, k: Skeleton, k': Skeleton)
    requires Restorable(env, remote, id, k) && SameOrigin(k, k')
    ensures Restorable(env, remote, id, k')
  {
    var snapshot :| Published(env, remote, snapshot) && Holds(snapshot, id, k);
    assert Holds(snapshot, id, k');
  }

  /** The parts of the invariant survive a growing gateway. */
  lemma SafeGrows(env: B.Env, w: B.World, remote: Remote<Bytes>)
    requires Safe(env, w) && Grows(w.remote, remote)
    ensures forall f :: f in w.flights ==> FlightFits(env, remote, w.sealed, w.flights[f])
    ensures forall id :: id in w.store.skeletons ==> RowIsSafe(env, remote, id, w.store.skeletons[id])
  {
    forall f | f in w.flights
      ensures FlightFits(env, remote, w.sealed, w.flights[f])
    {
      if w.flights[f].stage.ManifestUp? || w.flights[f].stage.Advanced? {
        PublishedGrows(env, w.remote, remote, w.flights[f].snapshot);
      }
    }
    forall id | id in w.store.skeletons
      ensures RowIsSafe(env, remote, id, w.store.skeletons[id])
    {
      if w.store.skeletons[id].backupState != NotBackedUp {
        RestorableGrows(env, w.remote, remote, id, w.store.skeletons[id]);
      }
    }
  }

  lemma WriteKeepsSafe(env: B.Env, w: B.World, op: Op)
    requires Safe(env, w)
    ensures Safe(env, B.Step(env, w, B.Write(op)))
  {
    var s := w.store;
    var s' := MessageStore.Step(env.lower, s, op).0;
    forall f | f in w.flights
      ensures RowsKnown(s', w.flights[f].snapshot)
    {
      forall id | id in w.flights[f].snapshot.skeletons
        ensures id in s'.skeletons && Holds(w.flights[f].snapshot, id, s'.skeletons[id])
      {
        CallKeepsRows(env.lower, s, op, id);
        assert Holds(w.flights[f].snapshot, id, s.skeletons[id]);
      }
    }
    forall id | id in s'.skeletons
      ensures RowIsSafe(env, w.remote, id, s'.skeletons[id])
    {
      CallKeepsRows(env.lower, s, op, id);
      if id in s.skeletons && s.skeletons[id].backupState != NotBackedUp {
        RestorableMoves(env, w.remote, id, s.skeletons[id], s'.skeletons[id]);
      }
    }
  }

  lemma BeginKeepsSafe(env: B.Env, w: B.World, f: nat)
    requires Safe(env, w)
    ensures Safe(env, B.BeginStep(w, f))
  {
  }

  lemma ListKeepsSafe(env: B.Env, w: B.World, f: nat)
    requires Safe(env, w)
    ensures Safe(env, B.ListSkeletonsStep(w, f))
    ensures Safe(env, B.ListBodiesStep(env, w, f))
  {
    if f in w.flights {
      var snapshot := w.flights[f].snapshot;
      assert RowsKnown(w.store, snapshot.(skeletons := B.Unmarked(w.store)));
      assert RowsKnown(w.store, snapshot.(bodies := w.store.bodies));
    }
  }

  lemma BuildKeepsSafe(env: B.Env, w: B.World, f: nat, r: B.Drawn)
    requires B.Lawful(env.suite) && Safe(env, w)
    ensures Safe(env, B.BuildStep(env, w, f, r))
  {
    if f in w.flights && w.flights[f].stage.Collected? && B.CanDraw(w, r) {
      var data := env.suite.encode(w.flights[f].snapshot);
      var p := B.Prepare(env, w.coordinator, data, r);
      var w' := B.BuildStep(env, w, f, r);
      B.OpenOwnSegment(env, data, r.nonce);
      assert PayloadFits(env, w'.sealed, w.flights[f].snapshot, p);
      forall g | g in w.flights && g != f
        ensures FlightFits(env, w.remote, w'.sealed, w.flights[g])
      {
        assert FlightFits(env, w.remote, w.sealed, w.flights[g]);
      }
    }
  }

  lemma SendSegmentKeepsSafe(env: B.Env, w: B.World, f: nat, reply: Reply)
    requires Safe(env, w)
    ensures Safe(env, B.SendSegmentStep(w, f, reply))
  {
    if f in w.flights && w.flights[f].stage.Built? {
      var p := w.flights[f].stage.payload;
      var remote := PutSegment(w.remote, reply, p.segment, p.ciphertext);
      assert FlightFits(env, w.remote, w.sealed, w.flights[f]);
      SafeGrows(env, w, remote);
    }
  }

  lemma SendManifestKeepsSafe(env: B.Env, w: B.World, f: nat, reply: Reply)
    requires Safe(env, w)
    ensures Safe(env, B.SendManifestStep(w, f, reply))
  {
    if f in w.flights && w.flights[f].stage.SegmentUp? {
      var p := w.flights[f].stage.payload;
      var remote := PutManifest(w.remote, reply, p.manifest);
      assert FlightFits(env, w.remote, w.sealed, w.flights[f]);
      SafeGrows(env, w, remote);
      if reply == Acknowledged {
        assert p.manifest in remote.manifests;
        assert B.Recover(env, remote, p.manifest) == Some(w.flights[f].snapshot);
        assert Published(env, remote, w.flights[f].snapshot);
      }
    }
  }

  /** Marking needs that what it marks is published. */
  lemma MarkKeepsSafe(env: B.Env, w: B.World, f: nat, ok: bool, now: i64, prunes: bool)
    requires Safe(env, w)
    ensures Safe(env, B.MarkStep(w, f, ok, now, prunes))
  {
    var w' := B.MarkStep(w, f, ok, now, prunes);
    if f in w.flights && w.flights[f].stage.Advanced? && ok {
      var snapshot := w.flights[f].snapshot;
      assert FlightFits(env, w.remote, w.sealed, w.flights[f]);
      assert Published(env, w.remote, snapshot);
      forall id | id in w'.store.skeletons
        ensures RowIsSafe(env, w.remote, id, w'.store.skeletons[id])
      {
        MarkedRowIsSafe(env, w, snapshot, id);
      }
      forall g | g in w'.flights
        ensures RowsKnown(w'.store, w'.flights[g].snapshot)
      {
        assert RowsKnown(w.store, w.flights[g].snapshot);
        MarkedRowsKnown(w.store, snapshot.skeletons.Keys, w.flights[g].snapshot);
      }
    }
  }

  lemma MarkedRowIsSafe(env: B.Env, w: B.World, snapshot: B.Snapshot, id: Id)
    requires Safe(env, w) && id in w.store.skeletons
    requires Published(env, w.remote, snapshot) && RowsKnown(w.store, snapshot)
    ensures RowIsSafe(env, w.remote, id, B.Marked(w.store, snapshot.skeletons.Keys).skeletons[id])
  {
    var k, k' := w.store.skeletons[id], B.Marked(w.store, snapshot.skeletons.Keys).skeletons[id];
    assert RowIsSafe(env, w.remote, id, k);
    if id in snapshot.skeletons {
      assert Holds(snapshot, id, k');
    }
  }

  lemma MarkedRowsKnown(s: Store, ids: set<Id>, snapshot: B.Snapshot)
    requires RowsKnown(s, snapshot)
    ensures RowsKnown(B.Marked(s, ids), snapshot)
  {
    forall id | id in snapshot.skeletons
      ensures id in B.Marked(s, ids).skeletons && Holds(snapshot, id, B.Marked(s, ids).skeletons[id])
    {
      assert Holds(snapshot, id, s.skeletons[id]);
    }
  }

  lemma StepKeepsSafe(env: B.Env, w: B.World, op: B.Op)
    requires B.Lawful(env.suite) && Safe(env, w)
    ensures Safe(env, B.Step(env, w, op))
  {
    match op
    case Write(op) => WriteKeepsSafe(env, w, op);
    case Begin(f) => BeginKeepsSafe(env, w, f);
    case ListSkeletons(f) => ListKeepsSafe(env, w, f);
    case ListBodies(f) => ListKeepsSafe(env, w, f);
    case Build(f, r) => BuildKeepsSafe(env, w, f, r);
    case SendSegment(f, reply) => SendSegmentKeepsSafe(env, w, f, reply);
    case SendManifest(f, reply) => SendManifestKeepsSafe(env, w, f, reply);
    case Finalize(f) =>
      if f in w.flights {
        assert FlightFits(env, w.remote, w.sealed, w.flights[f]);
      }
    case Mark(f, ok, now, prunes) => MarkKeepsSafe(env, w, f, ok, now, prunes);
    case Save =>
    case Restart(load) =>
  }

  lemma {:induction false} RunKeepsSafe(env: B.Env, w: B.World, ops: seq<B.Op>)
    requires B.Lawful(env.suite) && Safe(env, w)
    ensures Safe(env, B.Run(env, w, ops))
    decreases |ops|
  {
    if ops != [] {
      RunKeepsSafe(env, w, ops[..|ops| - 1]);
      StepKeepsSafe(env, B.Run(env, w, ops[..|ops| - 1]), ops[|ops| - 1]);
    }
  }

  lemma StepRunKeepsSafe(env: B.Env, w: B.World, op: B.Op, ops: seq<B.Op>)
    requires B.Lawful(env.suite) && Safe(env, w)
    ensures Safe(env, B.Run(env, B.Step(env, w, op), ops))
  {
    StepKeepsSafe(env, w, op);
    RunKeepsSafe(env, B.Step(env, w, op), ops);
  }

  /** The snapshot of a flight whose manifest is up is published, and its rows are rows of the store. */
  lemma FlightIsPublished(env: B.Env, w: B.World, f: nat)
    requires Safe(env, w) && f in w.flights && (w.flights[f].stage.ManifestUp? || w.flights[f].stage.Advanced?)
    ensures Published(env, w.remote, w.flights[f].snapshot) && RowsKnown(w.store, w.flights[f].snapshot)
  {
    assert FlightFits(env, w.remote, w.sealed, w.flights[f]);
  }

  ghost predicate NothingBackedUp(s: Store) {
    forall id :: id in s.skeletons ==> s.skeletons[id].backupState == NotBackedUp
  }

  /**
   After any run, every row is in the listing that a backup would read now, or it is
   committed and some manifest on the gateway restores to a snapshot with it.
   */
  lemma NothingIsForgotten(env: B.Env, store: Store, ops: seq<B.Op>, id: Id)
    requires B.Lawful(env.suite) && NothingBackedUp(store)
    requires id in B.Run(env, B.Start(store), ops).store.skeletons
    ensures var w := B.Run(env, B.Start(store), ops);
            var k := w.store.skeletons[id];
            if k.backupState == NotBackedUp then id in B.Unmarked(w.store)
            else k.backupState == BackupManifestCommitted && Restorable(env, w.remote, id, k)
  {
    assert Safe(env, B.Start(store));
    RunKeepsSafe(env, B.Start(store), ops);
    var w := B.Run(env, B.Start(store), ops);
    assert RowIsSafe(env, w.remote, id, w.store.skeletons[id]);
  }

  // ---------------------------------------------------------------------------
  // Marks are for good
  // ---------------------------------------------------------------------------

  ghost predicate IsMarked(s: Store, id: Id) {
    id in s.skeletons && s.skeletons[id].backupState != NotBackedUp
  }

  lemma StepKeepsMark(env: B.Env, w: B.World, op: B.Op, id: Id)
    requires id in w.store.skeletons
    ensures id in B.Step(env, w, op).store.skeletons
    ensures IsMarked(w.store, id) ==> IsMarked(B.Step(env, w, op).store, id)
  {
    if op.Write? {
      CallKeepsRows(env.lower, w.store, op.op, id);
    }
  }

  lemma {:induction false} RunKeepsMark(env: B.Env, w: B.World, ops: seq<B.Op>, id: Id)
    requires id in w.store.skeletons
    ensures id in B.Run(env, w, ops).store.skeletons
    ensures IsMarked(w.store, id) ==> IsMarked(B.Run(env, w, ops).store, id)
    decreases |ops|
  {
    if ops != [] {
      RunKeepsMark(env, w, ops[..|ops| - 1], id);
      StepKeepsMark(env, B.Run(env, w, ops[..|ops| - 1]), ops[|ops| - 1], id);
    }
  }

  /**
   Once a row is marked, no listing ever has it again.  Later edit and deletion stamps never
   reach a backup.
   */
  lemma LateChangesNeverBackedUp(env: B.Env, w: B.World, ops: seq<B.Op>, id: Id)
    requires IsMarked(w.store, id)
    ensures id !in B.Unmarked(B.Run(env, w, ops).store)
  {
    RunKeepsMark(env, w, ops, id);
  }

  // ---------------------------------------------------------------------------
  // What one backup captures
  // ---------------------------------------------------------------------------

  predicate HasSkeletons(stage: B.Stage) {
    !stage.ConversationsListed?
  }

  predicate HasBodies(stage: B.Stage) {
    !stage.ConversationsListed? && !stage.SkeletonsListed?
  }

  /** A flight keeps what it has listed. */
  ghost predicate KeepsListed(a: B.Flight, b: B.Flight) {
    && b.snapshot.conversations == a.snapshot.conversations
    && (HasSkeletons(a.stage) ==> HasSkeletons(b.stage) && b.snapshot.skeletons == a.snapshot.skeletons)
    && (HasBodies(a.stage) ==> HasBodies(b.stage) && b.snapshot.bodies == a.snapshot.bodies)
  }

  lemma ListingKeepsListed(env: B.Env, w: B.World, g: nat, f: nat)
    requires f in w.flights
    ensures KeepsListed(w.flights[f], B.ListSkeletonsStep(w, g).flights[f])
    ensures f in B.ListBodiesStep(env, w, g).flights ==>
              KeepsListed(w.flights[f], B.ListBodiesStep(env, w, g).flights[f])
  {
  }

  lemma UploadKeepsListed(w: B.World, g: nat, reply: Reply, f: nat)
    requires f in w.flights
    ensures f in B.SendSegmentStep(w, g, reply).flights ==>
              KeepsListed(w.flights[f], B.SendSegmentStep(w, g, reply).flights[f])
    ensures f in B.SendManifestStep(w, g, reply).flights ==>
              KeepsListed(w.flights[f], B.SendManifestStep(w, g, reply).flights[f])
  {
  }

  lemma StepKeepsListed(env: B.Env, w: B.World, op: B.Op, f: nat)
    requires op != B.Begin(f) && f in B.Step(env, w, op).flights
    ensures f in w.flights && KeepsListed(w.flights[f], B.Step(env, w, op).flights[f])
  {
    if f in w.flights {
      match op
      case ListSkeletons(g) => ListingKeepsListed(env, w, g, f);
      case ListBodies(g) => ListingKeepsListed(env, w, g, f);
      case SendSegment(g, reply) => UploadKeepsListed(w, g, reply, f);
      case SendManifest(g, reply) => UploadKeepsListed(w, g, reply, f);
      case _ =>
    }
  }

  lemma {:induction false} RunKeepsListed(env: B.Env, w: B.World, ops: seq<B.Op>, f: nat)
    requires B.Begin(f) !in ops && f in B.Run(env, w, ops).flights
    ensures f in w.flights && KeepsListed(w.flights[f], B.Run(env, w, ops).flights[f])
    decreases |ops|
  {
    if ops != [] {
      StepKeepsListed(env, B.Run(env, w, ops[..|ops| - 1]), ops[|ops| - 1], f);
      RunKeepsListed(env, w, ops[..|ops| - 1], f);
    }
  }

  /** A run in which flight `f` lists the skeletons of the store of `w` and ends up at `w'`. */
  ghost predicate Lists(env: B.Env, w: B.World, f: nat, ops: seq<B.Op>, w': B.World) {
    && f in w.flights && w.flights[f].stage.ConversationsListed?
    && B.Begin(f) !in ops
    && w' == B.Run(env, B.Step(env, w, B.ListSkeletons(f)), ops)
    && f in w'.flights
  }

  lemma ListedSkeletons(env: B.Env, w: B.World, f: nat, ops: seq<B.Op>, w': B.World)
    requires Lists(env, w, f, ops, w')
    ensures HasSkeletons(w'.flights[f].stage) && w'.flights[f].snapshot.skeletons == B.Unmarked(w.store)
  {
    RunKeepsListed(env, B.Step(env, w, B.ListSkeletons(f)), ops, f);
  }

  /** When a backup has marked its rows, all that is unmarked has arrived since it listed the skeletons. */
  lemma OnlyArrivalsUnmarked(
    env: B.Env, w: B.World, f: nat, ops: seq<B.Op>, w': B.World, now: i64, prunes: bool, id: Id)
    requires Lists(env, w, f, ops, w') && w'.flights[f].stage.Advanced?
    requires id in w.store.skeletons
    ensures IsMarked(B.Step(env, w', B.Mark(f, true, now, prunes)).store, id)
  {
    ListedSkeletons(env, w, f, ops, w');
    RunKeepsMark(env, B.Step(env, w, B.ListSkeletons(f)), ops, id);
  }

  /** A run in which flight `f` lists its three tables, in the stores of `w`, `w1` and `w2`, and ends up at `w'`. */
  ghost predicate ListsAll(
    env: B.Env, w: B.World, f: nat, ops: seq<B.Op>, w1: B.World, ops1: seq<B.Op>, w2: B.World, ops2: seq<B.Op>,
    w': B.World)
  {
    && f !in w.flights
    && B.Begin(f) !in ops && B.Begin(f) !in ops1 && B.Begin(f) !in ops2
    && w1 == B.Run(env, B.Step(env, w, B.Begin(f)), ops)
    && f in w1.flights && w1.flights[f].stage.ConversationsListed?
    && w2 == B.Run(env, B.Step(env, w1, B.ListSkeletons(f)), ops1)
    && f in w2.flights && w2.flights[f].stage.SkeletonsListed?
    && w' == B.Run(env, B.Step(env, w2, B.ListBodies(f)), ops2)
    && f in w'.flights
  }

  lemma SnapshotOfListings(
    env: B.Env, w: B.World, f: nat, ops: seq<B.Op>, w1: B.World, ops1: seq<B.Op>, w2: B.World, ops2: seq<B.Op>,
    w': B.World)
    requires ListsAll(env, w, f, ops, w1, ops1, w2, ops2, w')
    ensures w'.flights[f].snapshot == B.Snapshot(w.store.conversations, B.Unmarked(w1.store), w2.store.bodies)
  {
    RunKeepsListed(env, B.Step(env, w, B.Begin(f)), ops, f);
    assert w1.flights[f].snapshot.conversations == w.store.conversations;
    ListedSkeletons(env, w1, f, ops1, w2);
    RunKeepsListed(env, B.Step(env, w1, B.ListSkeletons(f)), ops1, f);
    assert w2.flights[f].snapshot.conversations == w.store.conversations;
    RunKeepsListed(env, B.Step(env, w2, B.ListBodies(f)), ops2, f);
  }

  /**
   Once the manifest of a backup is up, the gateway restores what the backup listed: the
   conversations of the store at its first listing, the unmarked rows at its second, the bodies
   at its third, whatever happens in between and afterwards.
   */
  lemma BackupCapturesListings(
    env: B.Env, w: B.World, f: nat, ops: seq<B.Op>, w1: B.World, ops1: seq<B.Op>, w2: B.World, ops2: seq<B.Op>,
    w': B.World)
    requires B.Lawful(env.suite) && Safe(env, w)
    requires ListsAll(env, w, f, ops, w1, ops1, w2, ops2, w')
    requires w'.flights[f].stage.ManifestUp? || w'.flights[f].stage.Advanced?
    ensures Published(env, w'.remote, B.Snapshot(w.store.conversations, B.Unmarked(w1.store), w2.store.bodies))
  {
    StepRunKeepsSafe(env, w, B.Begin(f), ops);
    StepRunKeepsSafe(env, w1, B.ListSkeletons(f), ops1);
    StepRunKeepsSafe(env, w2, B.ListBodies(f), ops2);
    FlightIsPublished(env, w', f);
    SnapshotOfListings(env, w, f, ops, w1, ops1, w2, ops2, w');
  }

  ghost predicate IsStamped(s: Store, id: Id) {
    id in s.skeletons && (s.skeletons[id].editedAt.Some? || s.skeletons[id].deletedAt.Some?)
  }

  lemma StepKeepsStamp(env: B.Env, w: B.World, op: B.Op, id: Id)
    requires IsStamped(w.store, id)
    ensures IsStamped(B.Step(env, w, op).store, id)
  {
    if op.Write? {
      CallRow(env.lower, w.store, op.op, id);
    }
  }

  lemma {:induction false} RunKeepsStamp(env: B.Env, w: B.World, ops: seq<B.Op>, id: Id)
    requires IsStamped(w.store, id)
    ensures IsStamped(B.Run(env, w, ops).store, id)
    decreases |ops|
  {
    if ops != [] {
      RunKeepsStamp(env, w, ops[..|ops| - 1], id);
      StepKeepsStamp(env, B.Run(env, w, ops[..|ops| - 1]), ops[|ops| - 1], id);
    }
  }

  lemma MarkTakesRow(env: B.Env, w: B.World, f: nat, now: i64, prunes: bool, id: Id)
    requires f in w.flights && w.flights[f].stage.Advanced? && id in w.flights[f].snapshot.skeletons
    requires IsStamped(w.store, id)
    ensures IsMarked(B.Step(env, w, B.Mark(f, true, now, prunes)).store, id)
    ensures IsStamped(B.Step(env, w, B.Mark(f, true, now, prunes)).store, id)
  {
  }

  /**
   A first edit or deletion between the listing of the skeletons and the marking is marked as
   backed up with the row: the snapshot on the gateway has the row without the stamp, and no
   later listing has the row at all.
   */
  lemma ChangeDuringBackupIsLost(
    env: B.Env, w: B.World, f: nat, ops: seq<B.Op>, v: B.World, ops1: seq<B.Op>, w': B.World,
    now: i64, prunes: bool, more: seq<B.Op>, id: Id)
    requires B.Lawful(env.suite) && Safe(env, w)
    requires id in B.Unmarked(w.store) && !IsStamped(w.store, id)
    requires Lists(env, w, f, ops, v) && IsStamped(v.store, id)
    requires w' == B.Run(env, v, ops1) && B.Begin(f) !in ops1
    requires f in w'.flights && w'.flights[f].stage.Advanced?
    ensures Published(env, w'.remote, w'.flights[f].snapshot)
    ensures id in w'.flights[f].snapshot.skeletons && w'.flights[f].snapshot.skeletons[id] == w.store.skeletons[id]
    ensures var marked := B.Step(env, w', B.Mark(f, true, now, prunes));
            && IsMarked(marked.store, id) && IsStamped(marked.store, id)
            && id !in B.Unmarked(B.Run(env, marked, more).store)
  {
    ListedSkeletons(env, w, f, ops, v);
    RunKeepsListed(env, v, ops1, f);
    StepRunKeepsSafe(env, w, B.ListSkeletons(f), ops);
    RunKeepsSafe(env, v, ops1);
    FlightIsPublished(env, w', f);
    RunKeepsStamp(env, v, ops1, id);
    MarkTakesRow(env, w', f, now, prunes, id);
    LateChangesNeverBackedUp(env, B.Step(env, w', B.Mark(f, true, now, prunes)), more, id);
  }
}

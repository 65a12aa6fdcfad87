/**
 Incremental backup (`core_impl.rs`, `backup/`): list three tables, build a segment and a
 manifest, upload both, advance the coordinator, mark the rows.

 The coordinator is locked only while it builds and while it advances.  Between the phases
 messages keep arriving and further backups may run; an upload can fail or lose its
 reply; the process can be killed.  `Step` is one phase of one backup, or one call on the
 store, or one restart; a phase that is not due does nothing.

 Sealing, compression, serialisation and hashing are functions of which only the laws in
 `Lawful` are assumed.
 */
module Backup {
  import opened Common
  import opened Journal
  import opened ManifestChain
  import opened MessageStore
  import opened StateMachines
  import opened Tokenizer
  import opened Transport

  datatype Snapshot = Snapshot(
    conversations: map<Id, Conversation>, skeletons: map<Id, Skeleton>, bodies: map<Id, string>)

  datatype Suite = Suite(
    seal: (Bytes, Bytes, Bytes) -> Bytes,
    open: (Bytes, Bytes, Bytes) -> Option<Bytes>,
    compress: Bytes -> Bytes,
    decompress: Bytes -> Option<Bytes>,
    encode: Snapshot -> Bytes,
    decode: Bytes -> Option<Snapshot>,
    digest: Bytes -> Hash,
    hash: Hashing)

  /** What stays the same over a run. */
  datatype Env = Env(suite: Suite, key: Bytes, lower: Lowercase)

  ghost predicate Lawful(suite: Suite) {
    && (forall k, n, m :: suite.open(k, n, suite.seal(k, n, m)) == Some(m))
    && (forall m :: suite.decompress(suite.compress(m)) == Some(m))
    && (forall s :: suite.decode(suite.encode(s)) == Some(s))
    && (forall m :: |suite.hash(m)| == HASH_SIZE)
  }

  const NONCE_SIZE: nat := 24
  const HASH_SIZE: nat := 32

  // ---------------------------------------------------------------------------
  // Segments
  // ---------------------------------------------------------------------------

  /** Nonce and ciphertext in one frame. */
  function BuildSegment(env: Env, data: Bytes, nonce: Bytes): Bytes {
    nonce + env.suite.seal(env.key, nonce, env.suite.compress(data))
  }

  function OpenSegment(env: Env, frame: Bytes): Option<Bytes> {
    if |frame| < NONCE_SIZE then None
    else
      match env.suite.open(env.key, frame[..NONCE_SIZE], frame[NONCE_SIZE..])
      case None => None
      case Some(compressed) => env.suite.decompress(compressed)
  }

  lemma OpenOwnSegment(env: Env, data: Bytes, nonce: Bytes)
    requires Lawful(env.suite) && |nonce| == NONCE_SIZE
    ensures OpenSegment(env, BuildSegment(env, data, nonce)) == Some(data)
  {
    var sealed := env.suite.seal(env.key, nonce, env.suite.compress(data));
    assert (nonce + sealed)[..NONCE_SIZE] == nonce && (nonce + sealed)[NONCE_SIZE..] == sealed;
  }

  ghost predicate OpensTo(env: Env, frame: Bytes, snapshot: Snapshot) {
    && OpenSegment(env, frame).Some?
    && env.suite.decode(OpenSegment(env, frame).value) == Some(snapshot)
  }

  // ---------------------------------------------------------------------------
  // The coordinator
  // ---------------------------------------------------------------------------

  datatype BackupEvent = SegmentUploaded(segment: Id, size: nat) | ManifestPublished(generation: nat)

  datatype Coordinator = Coordinator(events: seq<BackupEvent>, generation: nat, previous: Hash)

  /** The row of the table `backup_state`. */
  datatype SavedState = SavedState(generation: nat, previous: Hash)

  datatype Payload = Payload(
    segment: Id, ciphertext: Bytes, manifest: Manifest, plaintextHash: Hash, manifestHash: Hash, generation: nat)

  /** What is drawn at random for one backup. */
  datatype Drawn = Drawn(segment: Id, manifest: Id, nonce: Bytes)

  const NewCoordinator: Coordinator := Coordinator([], 0, Zero())

  function Prepare(env: Env, c: Coordinator, data: Bytes, r: Drawn): Payload {
    var frame := BuildSegment(env, data, r.nonce);
    var ref := SegmentRef(r.segment, env.suite.digest(data), |frame|);
    var manifest := Manifest(r.manifest, c.generation, c.previous, [ref]);
    Payload(r.segment, frame, manifest, env.suite.digest(data), env.suite.hash(manifest), c.generation)
  }

  function Advance(c: Coordinator, uploaded: Id, p: Payload): Coordinator {
    Coordinator(c.events + [SegmentUploaded(uploaded, |p.ciphertext|), ManifestPublished(p.generation)],
                c.generation + 1, p.manifestHash)
  }

  function Load(saved: Option<SavedState>): Coordinator {
    match saved
    case None => NewCoordinator
    case Some(row) => Coordinator([], row.generation, if |row.previous| == HASH_SIZE then row.previous else Zero())
  }

  // ---------------------------------------------------------------------------
  // The gateway
  // ---------------------------------------------------------------------------

  /** What can be restored from a manifest. */
  function Recover(env: Env, remote: Remote<Bytes>, m: Manifest): Option<Snapshot> {
    if |m.segments| != 1 || m.segments[0].segment !in remote.segments then None
    else
      match OpenSegment(env, remote.segments[m.segments[0].segment])
      case None => None
      case Some(data) => env.suite.decode(data)
  }

  // ---------------------------------------------------------------------------
  // The store
  // ---------------------------------------------------------------------------

  /** The skeletons not yet backed up. */
  function Unmarked(s: Store): map<Id, Skeleton> {
    map id | id in s.skeletons && s.skeletons[id].backupState == NotBackedUp :: s.skeletons[id]
  }

  /** What a backup reads that nothing interrupts: conversations and bodies in full, and the unmarked skeletons. */
  function Collect(s: Store): Snapshot {
    Snapshot(s.conversations, Unmarked(s), s.bodies)
  }

  function Marked(s: Store, ids: set<Id>): Store {
    s.(skeletons := map id | id in s.skeletons ::
         if id in ids then s.skeletons[id].(backupState := BackupManifestCommitted) else s.skeletons[id])
  }

  const JOURNAL_RETENTION_MS: nat := 30 * 24 * 60 * 60 * 1000

  function Pruned(events: seq<Event>, cutoff: int): seq<Event> {
    if events == [] then []
    else
      var front, last := events[..|events| - 1], events[|events| - 1];
      if last.createdAt < cutoff then Pruned(front, cutoff) else Pruned(front, cutoff) + [last]
  }

  ghost function Recent(cutoff: int): Event -> bool {
    (e: Event) => e.createdAt >= cutoff
  }

  /** What pruning leaves: the events from the cutoff on, as they were. */
  ghost predicate KeepsRecent(events: seq<Event>, cutoff: int, left: seq<Event>) {
    exists idx :: IsSelection(events, Recent(cutoff), idx, left)
  }

  lemma {:induction false} PrunedSelects(events: seq<Event>, cutoff: int) returns (idx: seq<nat>)
    ensures IsSelection(events, Recent(cutoff), idx, Pruned(events, cutoff))
    decreases |events|
  {
    if events == [] {
      idx := [];
    } else {
      var front, last := events[..|events| - 1], events[|events| - 1];
      var before := PrunedSelects(front, cutoff);
      SelectionSnoc(front, Recent(cutoff), before, Pruned(front, cutoff), last);
      assert events == front + [last];
      idx := if last.createdAt >= cutoff then before + [|front|] else before;
    }
  }

  lemma PrunedKeepsRecent(events: seq<Event>, cutoff: int)
    ensures KeepsRecent(events, cutoff, Pruned(events, cutoff))
  {
    var idx := PrunedSelects(events, cutoff);
  }

  function MarkAndPrune(s: Store, ids: set<Id>, now: i64, prunes: bool): Store {
    var marked := Marked(s, ids);
    if prunes then marked.(journal := Pruned(s.journal, now - JOURNAL_RETENTION_MS)) else marked
  }

  // ---------------------------------------------------------------------------
  // One step
  // ---------------------------------------------------------------------------

  /**
   How far a backup has come: the conversations are listed, the skeletons listed, the bodies
   too and the snapshot complete, the payload built, the segment up, the manifest up, the
   coordinator advanced.
   */
  datatype Stage =
    | ConversationsListed
    | SkeletonsListed
    | Collected
    | Built(payload: Payload)
    | SegmentUp(payload: Payload)
    | ManifestUp(payload: Payload)
    | Advanced

  datatype Flight = Flight(snapshot: Snapshot, stage: Stage)

  /** `sealed` is every segment built so far by its id. */
  datatype World = World(
    store: Store,
    coordinator: Coordinator,
    saved: Option<SavedState>,
    remote: Remote<Bytes>,
    flights: map<nat, Flight>,
    sealed: map<Id, Bytes>)

  /** Every step of a backup names its flight. */
  datatype Op =
    | Write(op: MessageStore.Op)
    | Begin(flight: nat)
    | ListSkeletons(flight: nat)
    | ListBodies(flight: nat)
    | Build(flight: nat, drawn: Drawn)
    | SendSegment(flight: nat, reply: Reply)
    | SendManifest(flight: nat, reply: Reply)
    | Finalize(flight: nat)
    | Mark(flight: nat, ok: bool, now: i64, prunes: bool)
    | Save
    | Restart(load: bool)

  /** The three tables of a snapshot are read one after the other. */
  function BeginStep(w: World, f: nat): World {
    if f in w.flights then w
    else w.(flights := w.flights[f := Flight(Snapshot(w.store.conversations, map[], map[]), ConversationsListed)])
  }

  function ListSkeletonsStep(w: World, f: nat): World {
    if f !in w.flights || !w.flights[f].stage.ConversationsListed? then w
    else
      var snapshot := w.flights[f].snapshot.(skeletons := Unmarked(w.store));
      w.(flights := w.flights[f := Flight(snapshot, SkeletonsListed)])
  }

  /** The backup ends here when there is nothing to encode. */
  function ListBodiesStep(env: Env, w: World, f: nat): World {
    if f !in w.flights || !w.flights[f].stage.SkeletonsListed? then w
    else
      var snapshot := w.flights[f].snapshot.(bodies := w.store.bodies);
      w.(flights := if env.suite.encode(snapshot) == [] then w.flights - {f}
                    else w.flights[f := Flight(snapshot, Collected)])
  }

  /** Segment ids and nonces are drawn from the random source: an id is never drawn twice. */
  predicate CanDraw(w: World, r: Drawn) {
    r.segment !in w.sealed && |r.nonce| == NONCE_SIZE
  }

  function BuildStep(env: Env, w: World, f: nat, r: Drawn): World {
    if f !in w.flights || !w.flights[f].stage.Collected? || !CanDraw(w, r) then w
    else
      var p := Prepare(env, w.coordinator, env.suite.encode(w.flights[f].snapshot), r);
      w.(flights := w.flights[f := w.flights[f].(stage := Built(p))], sealed := w.sealed[r.segment := p.ciphertext])
  }

  /** The flight moves on if the upload was acknowledged and ends if not. */
  function AfterUpload(flights: map<nat, Flight>, f: nat, reply: Reply, stage: Stage): map<nat, Flight>
    requires f in flights
  {
    if reply == Acknowledged then flights[f := flights[f].(stage := stage)] else flights - {f}
  }

  function SendSegmentStep(w: World, f: nat, reply: Reply): World {
    if f !in w.flights || !w.flights[f].stage.Built? then w
    else
      var p := w.flights[f].stage.payload;
      w.(remote := PutSegment(w.remote, reply, p.segment, p.ciphertext),
         flights := AfterUpload(w.flights, f, reply, SegmentUp(p)))
  }

  function SendManifestStep(w: World, f: nat, reply: Reply): World {
    if f !in w.flights || !w.flights[f].stage.SegmentUp? then w
    else
      var p := w.flights[f].stage.payload;
      w.(remote := PutManifest(w.remote, reply, p.manifest),
         flights := AfterUpload(w.flights, f, reply, ManifestUp(p)))
  }

  function FinalizeStep(w: World, f: nat): World {
    if f !in w.flights || !w.flights[f].stage.ManifestUp? then w
    else
      var p := w.flights[f].stage.payload;
      w.(coordinator := Advance(w.coordinator, p.segment, p),
         flights := w.flights[f := w.flights[f].(stage := Advanced)])
  }

  function MarkStep(w: World, f: nat, ok: bool, now: i64, prunes: bool): World {
    if f !in w.flights || !w.flights[f].stage.Advanced? then w
    else
      w.(store := if ok then MarkAndPrune(w.store, w.flights[f].snapshot.skeletons.Keys, now, prunes) else w.store,
         flights := w.flights - {f})
  }

  function Step(env: Env, w: World, op: Op): World {
    match op
    case Write(op) => w.(store := MessageStore.Step(env.lower, w.store, op).0)
    case Begin(f) => BeginStep(w, f)
    case ListSkeletons(f) => ListSkeletonsStep(w, f)
    case ListBodies(f) => ListBodiesStep(env, w, f)
    case Build(f, r) => BuildStep(env, w, f, r)
    case SendSegment(f, reply) => SendSegmentStep(w, f, reply)
    case SendManifest(f, reply) => SendManifestStep(w, f, reply)
    case Finalize(f) => FinalizeStep(w, f)
    case Mark(f, ok, now, prunes) => MarkStep(w, f, ok, now, prunes)
    case Save => w.(saved := Some(SavedState(w.coordinator.generation, w.coordinator.previous)))
    case Restart(load) => w.(coordinator := if load then Load(w.saved) else NewCoordinator, flights := map[])
  }

  function Run(env: Env, w: World, ops: seq<Op>): World {
    if ops == [] then w else Step(env, Run(env, w, ops[..|ops| - 1]), ops[|ops| - 1])
  }

  lemma RunSnoc(env: Env, w: World, ops: seq<Op>, op: Op)
    ensures Run(env, w, ops + [op]) == Step(env, Run(env, w, ops), op)
  {
    assert (ops + [op])[..|ops|] == ops;
  }

  lemma StepsOfRun(env: Env, w: World, a: Op, b: Op, c: Op, d: Op, e: Op, f: Op)
    ensures Run(env, w, [a, b, c, d, e, f]) ==
            Step(env, Step(env, Step(env, Step(env, Step(env, Step(env, w, a), b), c), d), e), f)
  {
    assert [] + [a] == [a];
    RunSnoc(env, w, [], a);
    RunSnoc(env, w, [a], b);
    RunSnoc(env, w, [a, b], c);
    RunSnoc(env, w, [a, b, c], d);
    RunSnoc(env, w, [a, b, c, d], e);
    RunSnoc(env, w, [a, b, c, d, e], f);
    assert [a] + [b] == [a, b] && [a, b] + [c] == [a, b, c] && [a, b, c] + [d] == [a, b, c, d];
    assert [a, b, c, d] + [e] == [a, b, c, d, e] && [a, b, c, d, e] + [f] == [a, b, c, d, e, f];
  }

  function Start(store: Store): World {
    World(store, NewCoordinator, None, Remote(map[], []), map[], map[])
  }
}

/**
 The manifests that backups publish, as `restore/manifest_verifier.rs` sees them.

 They form a chain exactly when every manifest is stored in its turn: when it carries the
 number of manifests already there.  That is a matter of counting; the hashes then follow.
 Backups that run one after the other, keep their replies and resume from a state saved in
 time see to it; overlapping backups, lost replies and restarts from scratch do not.
 */
module BackupChain {
  import opened Common
  import opened ManifestChain
  import opened MessageStore
  import B = Backup
  import opened Transport

  // ---------------------------------------------------------------------------
  // When the chain holds
  // ---------------------------------------------------------------------------

  /** A manifest that the step stores carries the number of manifests already stored. */
  predicate StoresInTurn(w: B.World, op: B.Op) {
    op.SendManifest? && op.reply != Rejected && op.flight in w.flights && w.flights[op.flight].stage.SegmentUp? ==>
      w.flights[op.flight].stage.payload.manifest.generation == |w.remote.manifests|
  }

  predicate RunStoresInTurn(env: B.Env, w: B.World, ops: seq<B.Op>) {
    ops == [] ||
    (RunStoresInTurn(env, w, ops[..|ops| - 1]) && StoresInTurn(B.Run(env, w, ops[..|ops| - 1]), ops[|ops| - 1]))
  }

  /** A generation with the hash that the list had when it was that long. */
  ghost predicate Fits(env: B.Env, ms: seq<Manifest>, generation: nat, previous: Hash) {
    && generation <= |ms|
    && previous == TipHash(env.suite.hash, ms[..generation])
    && |previous| == B.HASH_SIZE
  }

  /**
   A payload was built where the list has been, and not ahead of the coordinator; a manifest
   that is up is the last one.
   */
  ghost predicate FlightInLine(env: B.Env, ms: seq<Manifest>, c: B.Coordinator, stage: B.Stage) {
    match stage
    case Built(p) =>
      && Fits(env, ms, p.manifest.generation, p.manifest.previous)
      && p.manifest.generation <= c.generation
      && p.manifestHash == env.suite.hash(p.manifest)
    case SegmentUp(p) =>
      && Fits(env, ms, p.manifest.generation, p.manifest.previous)
      && p.manifest.generation <= c.generation
      && p.manifestHash == env.suite.hash(p.manifest)
    case ManifestUp(p) =>
      && ms != [] && ms[|ms| - 1] == p.manifest
      && c.generation == |ms| - 1
      && p.manifestHash == env.suite.hash(p.manifest)
    case _ => true
  }

  ghost predicate FlightsInLine(env: B.Env, ms: seq<Manifest>, c: B.Coordinator, flights: map<nat, B.Flight>) {
    && (forall f :: f in flights ==> FlightInLine(env, ms, c, flights[f].stage))
    && (forall f, g :: f in flights && g in flights && flights[f].stage.ManifestUp? && flights[g].stage.ManifestUp? ==>
          f == g)
  }

  ghost predicate InLine(env: B.Env, w: B.World) {
    && Sound(env.suite.hash, w.remote.manifests)
    && StartsAtZero(w.remote.manifests)
    && Fits(env, w.remote.manifests, w.coordinator.generation, w.coordinator.previous)
    && (w.saved.Some? ==> Fits(env, w.remote.manifests, w.saved.value.generation, w.saved.value.previous))
    && FlightsInLine(env, w.remote.manifests, w.coordinator, w.flights)
  }

  lemma FitsLonger(env: B.Env, ms: seq<Manifest>, m: Manifest, generation: nat, previous: Hash)
    requires Fits(env, ms, generation, previous)
    ensures Fits(env, ms + [m], generation, previous)
  {
    assert (ms + [m])[..generation] == ms[..generation];
  }

  /** A manifest that fits and carries the next number continues the chain. */
  lemma NextInTurn(env: B.Env, ms: seq<Manifest>, m: Manifest)
    requires Sound(env.suite.hash, ms) && StartsAtZero(ms)
    requires Fits(env, ms, m.generation, m.previous) && m.generation == |ms|
    ensures Sound(env.suite.hash, ms + [m]) && StartsAtZero(ms + [m])
  {
    assert ms[..|ms|] == ms;
    NumberedSnoc(ms, m);
    AppendAcceptedIff(env.suite.hash, ms, m);
  }

  /** The flights after the manifest of flight `f` has been stored in its turn. */
  lemma StoreKeepsFlights(env: B.Env, w: B.World, f: nat, reply: Reply)
    requires InLine(env, w) && reply != Rejected && f in w.flights && w.flights[f].stage.SegmentUp?
    requires StoresInTurn(w, B.SendManifest(f, reply))
    ensures var w' := B.SendManifestStep(w, f, reply);
            FlightsInLine(env, w'.remote.manifests, w.coordinator, w'.flights)
  {
    var p, ms, w' := w.flights[f].stage.payload, w.remote.manifests, B.SendManifestStep(w, f, reply);
    assert FlightInLine(env, ms, w.coordinator, w.flights[f].stage);
    assert w.coordinator.generation == |ms|;
    forall g | g in w'.flights
      ensures FlightInLine(env, w'.remote.manifests, w.coordinator, w'.flights[g].stage)
      ensures w'.flights[g].stage.ManifestUp? ==> g == f
    {
      if g != f {
        var stage := w.flights[g].stage;
        assert FlightInLine(env, ms, w.coordinator, stage);
        assert !stage.ManifestUp?;
        if stage.Built? || stage.SegmentUp? {
          FitsLonger(env, ms, p.manifest, stage.payload.manifest.generation, stage.payload.manifest.previous);
        }
      }
    }
  }

  lemma SendManifestKeepsInLine(env: B.Env, w: B.World, f: nat, reply: Reply)
    requires InLine(env, w) && StoresInTurn(w, B.SendManifest(f, reply))
    ensures InLine(env, B.SendManifestStep(w, f, reply))
  {
    if f in w.flights && w.flights[f].stage.SegmentUp? {
      var p, ms := w.flights[f].stage.payload, w.remote.manifests;
      assert FlightInLine(env, ms, w.coordinator, w.flights[f].stage);
      if reply != Rejected {
        NextInTurn(env, ms, p.manifest);
        FitsLonger(env, ms, p.manifest, w.coordinator.generation, w.coordinator.previous);
        if w.saved.Some? {
          FitsLonger(env, ms, p.manifest, w.saved.value.generation, w.saved.value.previous);
        }
        StoreKeepsFlights(env, w, f, reply);
      }
    }
  }

  lemma BuildKeepsInLine(env: B.Env, w: B.World, f: nat, r: B.Drawn)
    requires InLine(env, w)
    ensures InLine(env, B.BuildStep(env, w, f, r))
  {
  }

  lemma SendSegmentKeepsInLine(env: B.Env, w: B.World, f: nat, reply: Reply)
    requires InLine(env, w)
    ensures InLine(env, B.SendSegmentStep(w, f, reply))
  {
    if f in w.flights && w.flights[f].stage.Built? {
      assert FlightInLine(env, w.remote.manifests, w.coordinator, w.flights[f].stage);
    }
  }

  lemma FinalizeKeepsInLine(env: B.Env, w: B.World, f: nat)
    requires B.Lawful(env.suite) && InLine(env, w)
    ensures InLine(env, B.FinalizeStep(w, f))
  {
    if f in w.flights && w.flights[f].stage.ManifestUp? {
      var w', ms := B.FinalizeStep(w, f), w.remote.manifests;
      assert FlightInLine(env, ms, w.coordinator, w.flights[f].stage);
      assert ms[..|ms|] == ms;
      forall g | g in w'.flights
        ensures FlightInLine(env, ms, w'.coordinator, w'.flights[g].stage) && !w'.flights[g].stage.ManifestUp?
      {
        if g != f {
          assert FlightInLine(env, ms, w.coordinator, w.flights[g].stage);
        }
      }
    }
  }

  lemma StepKeepsInLine(env: B.Env, w: B.World, op: B.Op)
    requires B.Lawful(env.suite) && InLine(env, w) && StoresInTurn(w, op)
    ensures InLine(env, B.Step(env, w, op))
  {
    match op
    case Write(_) =>
    case Begin(f) =>
    case ListSkeletons(f) =>
    case ListBodies(f) =>
    case Build(f, r) => BuildKeepsInLine(env, w, f, r);
    case SendSegment(f, reply) => SendSegmentKeepsInLine(env, w, f, reply);
    case SendManifest(f, reply) => SendManifestKeepsInLine(env, w, f, reply);
    case Finalize(f) => FinalizeKeepsInLine(env, w, f);
    case Mark(f, ok, now, prunes) =>
    case Save =>
    case Restart(load) =>
      assert w.remote.manifests[..0] == [];
  }

  /** What a step does to the numbering. */
  lemma StepIsNumberedIff(env: B.Env, w: B.World, op: B.Op)
    ensures Numbered(B.Step(env, w, op).remote.manifests) <==> Numbered(w.remote.manifests) && StoresInTurn(w, op)
  {
    if op.SendManifest? && op.flight in w.flights && w.flights[op.flight].stage.SegmentUp? {
      NumberedSnoc(w.remote.manifests, w.flights[op.flight].stage.payload.manifest);
    }
  }

  lemma {:induction false} RunStaysInLine(env: B.Env, store: Store, ops: seq<B.Op>)
    requires B.Lawful(env.suite) && RunStoresInTurn(env, B.Start(store), ops)
    ensures InLine(env, B.Run(env, B.Start(store), ops))
    decreases |ops|
  {
    if ops != [] {
      RunStaysInLine(env, store, ops[..|ops| - 1]);
      StepKeepsInLine(env, B.Run(env, B.Start(store), ops[..|ops| - 1]), ops[|ops| - 1]);
    }
  }

  lemma {:induction false} RunIsNumberedIff(env: B.Env, w: B.World, ops: seq<B.Op>)
    requires Numbered(w.remote.manifests)
    ensures Numbered(B.Run(env, w, ops).remote.manifests) <==> RunStoresInTurn(env, w, ops)
    decreases |ops|
  {
    if ops != [] {
      RunIsNumberedIff(env, w, ops[..|ops| - 1]);
      StepIsNumberedIff(env, B.Run(env, w, ops[..|ops| - 1]), ops[|ops| - 1]);
    }
  }

  /**
   Over every run, whatever overlaps, fails, gets lost or restarts: the published list is
   numbered 0, 1, 2, ... exactly when every manifest is stored in its turn, and then it starts
   at the zero hash and is accepted.
   */
  lemma ChainHoldsIff(env: B.Env, store: Store, ops: seq<B.Op>)
    requires B.Lawful(env.suite)
    ensures var ms := B.Run(env, B.Start(store), ops).remote.manifests;
            && (Numbered(ms) <==> RunStoresInTurn(env, B.Start(store), ops))
            && (Sound(env.suite.hash, ms) <==> RunStoresInTurn(env, B.Start(store), ops))
            && (Numbered(ms) ==> Accepts(env.suite.hash, ms) && StartsAtZero(ms))
  {
    RunIsNumberedIff(env, B.Start(store), ops);
    if RunStoresInTurn(env, B.Start(store), ops) {
      RunStaysInLine(env, store, ops);
    }
  }

  // ---------------------------------------------------------------------------
  // Serialised backups
  // ---------------------------------------------------------------------------

  predicate InFlight(stage: B.Stage) {
    stage.Built? || stage.SegmentUp? || stage.ManifestUp?
  }

  /** No backup has advanced the coordinator since the state was last saved. */
  predicate SavedInTime(env: B.Env, w: B.World, ops: seq<B.Op>) {
    if ops == [] then true
    else
      var front, op := ops[..|ops| - 1], ops[|ops| - 1];
      op.Save? || (SavedInTime(env, w, front) && !Advances(B.Run(env, w, front), op))
  }

  predicate Advances(w: B.World, op: B.Op) {
    op.Finalize? && op.flight in w.flights && w.flights[op.flight].stage.ManifestUp?
  }

  /**
   One backup at a time has a manifest under way; no reply is lost; a restart loads a state that
   was saved in time, and does not fall between the upload of a manifest and the end of its
   backup.
   */
  ghost predicate Careful(w: B.World, op: B.Op, savedInTime: bool) {
    match op
    case Build(f, r) => forall g :: g in w.flights ==> !InFlight(w.flights[g].stage)
    case SendManifest(f, reply) => reply != ReplyLost
    case Restart(load) => load && savedInTime && forall g :: g in w.flights ==> !w.flights[g].stage.ManifestUp?
    case _ => true
  }

  ghost predicate CarefulRun(env: B.Env, w: B.World, ops: seq<B.Op>) {
    ops == [] ||
    var front, op := ops[..|ops| - 1], ops[|ops| - 1];
    CarefulRun(env, w, front) && Careful(B.Run(env, w, front), op, SavedInTime(env, w, front))
  }

  /** The coordinator has counted the manifests, but for the one of a backup that has yet to advance it. */
  ghost predicate CountsFit(c: B.Coordinator, ms: seq<Manifest>, stage: B.Stage) {
    match stage
    case Built(p) => p.manifest.generation == c.generation == |ms|
    case SegmentUp(p) => p.manifest.generation == c.generation == |ms|
    case ManifestUp(p) => c.generation + 1 == |ms|
    case _ => true
  }

  ghost predicate Serialised(w: B.World) {
    && (forall f, g ::
          f in w.flights && g in w.flights && InFlight(w.flights[f].stage) && InFlight(w.flights[g].stage) ==> f == g)
    && (forall f :: f in w.flights ==> CountsFit(w.coordinator, w.remote.manifests, w.flights[f].stage))
    && ((forall f :: f in w.flights ==> !w.flights[f].stage.ManifestUp?) ==>
          w.coordinator.generation == |w.remote.manifests|)
  }

  lemma SerialisedStoresInTurn(w: B.World, op: B.Op)
    requires Serialised(w)
    ensures StoresInTurn(w, op)
  {
    if op.SendManifest? && op.flight in w.flights {
      assert CountsFit(w.coordinator, w.remote.manifests, w.flights[op.flight].stage);
    }
  }

  /** A change to the one flight that is under way. */
  lemma FlightMoves(w: B.World, w': B.World, f: nat)
    requires Serialised(w) && f in w.flights && InFlight(w.flights[f].stage)
    requires w'.flights.Keys <= w.flights.Keys
    requires forall g :: g in w'.flights && g != f ==> w'.flights[g] == w.flights[g]
    requires f in w'.flights ==> CountsFit(w'.coordinator, w'.remote.manifests, w'.flights[f].stage)
    requires f !in w'.flights || !w'.flights[f].stage.ManifestUp? ==>
               w'.coordinator.generation == |w'.remote.manifests|
    ensures Serialised(w')
  {
    forall g | g in w'.flights
      ensures CountsFit(w'.coordinator, w'.remote.manifests, w'.flights[g].stage)
      ensures InFlight(w'.flights[g].stage) ==> g == f
    {
      if g != f {
        assert !InFlight(w.flights[g].stage);
      }
    }
  }

  /** A change to a flight that is neither before nor after it under way. */
  lemma OtherFlightMoves(w: B.World, w': B.World, f: nat)
    requires Serialised(w) && w'.coordinator == w.coordinator && w'.remote == w.remote
    requires f in w.flights ==> !InFlight(w.flights[f].stage)
    requires f in w'.flights ==> !InFlight(w'.flights[f].stage)
    requires forall g :: g != f ==> (g in w.flights <==> g in w'.flights)
    requires forall g :: g in w'.flights && g != f ==> w'.flights[g] == w.flights[g]
    ensures Serialised(w')
  {
    if forall g :: g in w'.flights ==> !w'.flights[g].stage.ManifestUp? {
      forall g | g in w.flights
        ensures !w.flights[g].stage.ManifestUp?
      {
        assert g != f ==> g in w'.flights;
      }
    }
  }

  lemma ListingKeepsSerialised(env: B.Env, w: B.World, f: nat)
    requires Serialised(w)
    ensures Serialised(B.BeginStep(w, f))
    ensures Serialised(B.ListSkeletonsStep(w, f))
    ensures Serialised(B.ListBodiesStep(env, w, f))
  {
    if f !in w.flights {
      OtherFlightMoves(w, B.BeginStep(w, f), f);
    } else if w.flights[f].stage.ConversationsListed? {
      OtherFlightMoves(w, B.ListSkeletonsStep(w, f), f);
    } else if w.flights[f].stage.SkeletonsListed? {
      OtherFlightMoves(w, B.ListBodiesStep(env, w, f), f);
    }
  }

  lemma MarkKeepsSerialised(w: B.World, f: nat, ok: bool, now: i64, prunes: bool)
    requires Serialised(w)
    ensures Serialised(B.MarkStep(w, f, ok, now, prunes))
  {
    if f in w.flights && w.flights[f].stage.Advanced? {
      OtherFlightMoves(w, B.MarkStep(w, f, ok, now, prunes), f);
    }
  }

  lemma BuildKeepsSerialised(env: B.Env, w: B.World, f: nat, r: B.Drawn)
    requires Serialised(w) && forall g :: g in w.flights ==> !InFlight(w.flights[g].stage)
    ensures Serialised(B.BuildStep(env, w, f, r))
  {
  }

  lemma UploadKeepsSerialised(w: B.World, f: nat, reply: Reply)
    requires Serialised(w)
    ensures Serialised(B.SendSegmentStep(w, f, reply))
    ensures reply != ReplyLost ==> Serialised(B.SendManifestStep(w, f, reply))
  {
    if f in w.flights {
      assert CountsFit(w.coordinator, w.remote.manifests, w.flights[f].stage);
      if w.flights[f].stage.Built? {
        FlightMoves(w, B.SendSegmentStep(w, f, reply), f);
      } else if w.flights[f].stage.SegmentUp? && reply != ReplyLost {
        FlightMoves(w, B.SendManifestStep(w, f, reply), f);
      }
    }
  }

  lemma FinalizeKeepsSerialised(w: B.World, f: nat)
    requires Serialised(w)
    ensures Serialised(B.FinalizeStep(w, f))
  {
    if f in w.flights && w.flights[f].stage.ManifestUp? {
      assert CountsFit(w.coordinator, w.remote.manifests, w.flights[f].stage);
      FlightMoves(w, B.FinalizeStep(w, f), f);
    }
  }

  lemma StepKeepsSerialised(env: B.Env, w: B.World, op: B.Op, savedInTime: bool)
    requires Serialised(w) && Careful(w, op, savedInTime)
    requires savedInTime ==> B.Load(w.saved).generation == w.coordinator.generation
    ensures Serialised(B.Step(env, w, op))
  {
    match op
    case Write(_) =>
    case Begin(f) => ListingKeepsSerialised(env, w, f);
    case ListSkeletons(f) => ListingKeepsSerialised(env, w, f);
    case ListBodies(f) => ListingKeepsSerialised(env, w, f);
    case Build(f, r) => BuildKeepsSerialised(env, w, f, r);
    case SendSegment(f, reply) => UploadKeepsSerialised(w, f, reply);
    case SendManifest(f, reply) => UploadKeepsSerialised(w, f, reply);
    case Finalize(f) => FinalizeKeepsSerialised(w, f);
    case Mark(f, ok, now, prunes) => MarkKeepsSerialised(w, f, ok, now, prunes);
    case Save =>
    case Restart(load) =>
  }

  // ---------------------------------------------------------------------------
  // Saving and loading
  // ---------------------------------------------------------------------------

  /** All hashes have their size, so that loading keeps them. */
  ghost predicate HashesSized(env: B.Env, w: B.World) {
    && |w.coordinator.previous| == B.HASH_SIZE
    && (w.saved.Some? ==> |w.saved.value.previous| == B.HASH_SIZE)
    && (forall f :: f in w.flights && InFlight(w.flights[f].stage) ==>
          w.flights[f].stage.payload.manifestHash == env.suite.hash(w.flights[f].stage.payload.manifest))
  }

  lemma StepKeepsSizes(env: B.Env, w: B.World, op: B.Op)
    requires B.Lawful(env.suite) && HashesSized(env, w)
    ensures HashesSized(env, B.Step(env, w, op))
  {
  }

  lemma {:induction false} RunKeepsSizes(env: B.Env, store: Store, ops: seq<B.Op>)
    requires B.Lawful(env.suite)
    ensures HashesSized(env, B.Run(env, B.Start(store), ops))
    decreases |ops|
  {
    if ops != [] {
      RunKeepsSizes(env, store, ops[..|ops| - 1]);
      StepKeepsSizes(env, B.Run(env, B.Start(store), ops[..|ops| - 1]), ops[|ops| - 1]);
    }
  }

  lemma StepKeepsLoad(env: B.Env, w: B.World, op: B.Op)
    requires HashesSized(env, w) && (op.Save? || (!Advances(w, op) && LoadsItself(w)))
    requires op.Restart? ==> op.load
    ensures LoadsItself(B.Step(env, w, op))
  {
  }

  /** Loading gives a coordinator that stands where this one stands. */
  ghost predicate LoadsItself(w: B.World) {
    B.Load(w.saved) == w.coordinator.(events := [])
  }

  /**
   Over every run whose restarts load, careful or not: as long as the state was saved in time, a
   restart finds the coordinator's generation and hash.
   */
  lemma {:induction false} LoadFindsCoordinator(env: B.Env, store: Store, ops: seq<B.Op>)
    requires B.Lawful(env.suite) && SavedInTime(env, B.Start(store), ops)
    requires forall op :: op in ops && op.Restart? ==> op.load
    ensures LoadsItself(B.Run(env, B.Start(store), ops))
    decreases |ops|
  {
    if ops != [] {
      var front, op := ops[..|ops| - 1], ops[|ops| - 1];
      assert op in ops;
      if !op.Save? {
        LoadFindsCoordinator(env, store, front);
      }
      RunKeepsSizes(env, store, front);
      StepKeepsLoad(env, B.Run(env, B.Start(store), front), op);
    }
  }

  lemma {:induction false} CarefulRunLoads(env: B.Env, w: B.World, ops: seq<B.Op>)
    requires CarefulRun(env, w, ops)
    ensures forall op :: op in ops && op.Restart? ==> op.load
    decreases |ops|
  {
    if ops != [] {
      CarefulRunLoads(env, w, ops[..|ops| - 1]);
    }
  }

  lemma {:induction false} CarefulRunIsSerialised(env: B.Env, store: Store, ops: seq<B.Op>)
    requires B.Lawful(env.suite) && CarefulRun(env, B.Start(store), ops)
    ensures Serialised(B.Run(env, B.Start(store), ops)) && RunStoresInTurn(env, B.Start(store), ops)
    decreases |ops|
  {
    if ops != [] {
      var front, op := ops[..|ops| - 1], ops[|ops| - 1];
      var w, saved := B.Run(env, B.Start(store), front), SavedInTime(env, B.Start(store), front);
      CarefulRunIsSerialised(env, store, front);
      CarefulRunLoads(env, B.Start(store), front);
      if saved {
        LoadFindsCoordinator(env, store, front);
      }
      StepKeepsSerialised(env, w, op, saved);
      SerialisedStoresInTurn(w, op);
    }
  }

  /**
   Backups that run one after the other publish generations 0, 1, 2, ... in a list that is
   accepted and starts at the zero hash: whatever uploads are refused, whatever arrives between
   the phases, and wherever the process is killed and resumes from a state saved in time.
   */
  lemma ChainHolds(env: B.Env, store: Store, ops: seq<B.Op>)
    requires B.Lawful(env.suite) && CarefulRun(env, B.Start(store), ops)
    ensures Numbered(B.Run(env, B.Start(store), ops).remote.manifests)
    ensures Accepts(env.suite.hash, B.Run(env, B.Start(store), ops).remote.manifests)
    ensures StartsAtZero(B.Run(env, B.Start(store), ops).remote.manifests)
  {
    CarefulRunIsSerialised(env, store, ops);
    ChainHoldsIff(env, store, ops);
  }

  // ---------------------------------------------------------------------------
  // Restarts
  // ---------------------------------------------------------------------------

  /** A backup that nothing interrupts, as far as its manifest. */
  function Published(env: B.Env, w: B.World, f: nat, r: B.Drawn): B.World {
    Sent(env, B.Step(env, Listed(env, w, f), B.Build(f, r)), f)
  }

  function Listed(env: B.Env, w: B.World, f: nat): B.World {
    B.Step(env, B.Step(env, B.Step(env, w, B.Begin(f)), B.ListSkeletons(f)), B.ListBodies(f))
  }

  function Sent(env: B.Env, w: B.World, f: nat): B.World {
    B.Step(env, B.Step(env, w, B.SendSegment(f, Acknowledged)), B.SendManifest(f, Acknowledged))
  }

  lemma ListedWorld(env: B.Env, w: B.World, f: nat)
    requires f !in w.flights && env.suite.encode(B.Collect(w.store)) != []
    ensures Listed(env, w, f) == w.(flights := w.flights[f := B.Flight(B.Collect(w.store), B.Collected)])
  {
    var begun := B.Step(env, w, B.Begin(f));
    assert begun.flights[f].snapshot == B.Snapshot(w.store.conversations, map[], map[]);
    var listed := B.Step(env, begun, B.ListSkeletons(f));
    assert listed.flights[f].snapshot.(bodies := w.store.bodies) == B.Collect(w.store);
    assert Listed(env, w, f).flights == w.flights[f := B.Flight(B.Collect(w.store), B.Collected)];
  }

  lemma SentManifests(env: B.Env, w: B.World, f: nat)
    requires f in w.flights && w.flights[f].stage.Built?
    ensures Sent(env, w, f).remote.manifests == w.remote.manifests + [w.flights[f].stage.payload.manifest]
  {
  }

  /** A manifest at the coordinator's generation and hash is published. */
  lemma PublishedManifest(env: B.Env, w: B.World, f: nat, r: B.Drawn) returns (m: Manifest)
    requires f !in w.flights && B.CanDraw(w, r) && env.suite.encode(B.Collect(w.store)) != []
    ensures Published(env, w, f, r).remote.manifests == w.remote.manifests + [m]
    ensures m.generation == w.coordinator.generation && m.previous == w.coordinator.previous
  {
    ListedWorld(env, w, f);
    var built := B.Step(env, Listed(env, w, f), B.Build(f, r));
    assert built.flights[f].stage.Built?;
    m := built.flights[f].stage.payload.manifest;
    SentManifests(env, built, f);
  }

  /**
   The backup after a restart continues the chain exactly when the restart finds a generation
   that counts all manifests.
   */
  lemma RestartContinuesIff(env: B.Env, w: B.World, load: bool, f: nat, r: B.Drawn)
    requires InLine(env, w) && B.CanDraw(w, r) && env.suite.encode(B.Collect(w.store)) != []
    ensures var found := if load then B.Load(w.saved) else B.NewCoordinator;
            var ms := Published(env, B.Step(env, w, B.Restart(load)), f, r).remote.manifests;
            && |ms| == |w.remote.manifests| + 1
            && (Numbered(ms) <==> found.generation == |w.remote.manifests|)
            && (Sound(env.suite.hash, ms) <==> found.generation == |w.remote.manifests|)
  {
    var again := B.Step(env, w, B.Restart(load));
    var m := PublishedManifest(env, again, f, r);
    assert w.remote.manifests[..0] == [];
    NumberedSnoc(w.remote.manifests, m);
    if m.generation == |w.remote.manifests| {
      NextInTurn(env, w.remote.manifests, m);
    }
  }

  /** A restart that loads nothing starts a second chain at generation zero. */
  lemma RestartForks(env: B.Env, w: B.World, f: nat, r: B.Drawn)
    requires Sound(env.suite.hash, w.remote.manifests) && w.remote.manifests != []
    requires B.CanDraw(w, r) && env.suite.encode(B.Collect(w.store)) != []
    ensures var ms := Published(env, B.Step(env, w, B.Restart(false)), f, r).remote.manifests;
            && !Numbered(ms)
            && (Accepts(env.suite.hash, ms) <==> TipHash(env.suite.hash, w.remote.manifests) == Zero())
  {
    var m := PublishedManifest(env, B.Step(env, w, B.Restart(false)), f, r);
    NumberedSnoc(w.remote.manifests, m);
    AppendAcceptedIff(env.suite.hash, w.remote.manifests, m);
  }

  /** There are published lists to restart after: a backup that nothing interrupts leads to one. */
  lemma PublishedIsReachable(env: B.Env, store: Store, r: B.Drawn)
    requires env.suite.encode(B.Collect(store)) != [] && |r.nonce| == B.NONCE_SIZE
    ensures var ops := [B.Begin(0), B.ListSkeletons(0), B.ListBodies(0), B.Build(0, r),
                        B.SendSegment(0, Acknowledged), B.SendManifest(0, Acknowledged)];
            var ms := B.Run(env, B.Start(store), ops).remote.manifests;
            Sound(env.suite.hash, ms) && |ms| == 1
  {
    var start := B.Start(store);
    B.StepsOfRun(env, start, B.Begin(0), B.ListSkeletons(0), B.ListBodies(0), B.Build(0, r),
                 B.SendSegment(0, Acknowledged), B.SendManifest(0, Acknowledged));
    var m := PublishedManifest(env, start, 0, r);
    assert [] + [m] == [m];
    NumberedSnoc([], m);
    AppendAcceptedIff(env.suite.hash, [], m);
  }

  // ---------------------------------------------------------------------------
  // Overlapping backups and lost replies
  // ---------------------------------------------------------------------------

  ghost predicate AtTip(env: B.Env, w: B.World) {
    && w.coordinator.generation == |w.remote.manifests|
    && w.coordinator.previous == TipHash(env.suite.hash, w.remote.manifests)
  }

  /** Two backups that are built before either is finalized, each of which then succeeds. */
  function Overlap(env: B.Env, w: B.World, f: nat, g: nat, r: B.Drawn, r': B.Drawn): B.World {
    var both := B.Step(env, B.Step(env, w, B.Build(f, r)), B.Build(g, r'));
    Complete(env, Complete(env, both, f), g)
  }

  function Complete(env: B.Env, w: B.World, f: nat): B.World {
    B.Step(env, Sent(env, w, f), B.Finalize(f))
  }

  lemma CompletePublishes(env: B.Env, w: B.World, f: nat)
    requires f in w.flights && w.flights[f].stage.Built?
    ensures Complete(env, w, f).remote.manifests == w.remote.manifests + [w.flights[f].stage.payload.manifest]
    ensures forall g :: g in w.flights && g != f ==>
              g in Complete(env, w, f).flights && Complete(env, w, f).flights[g] == w.flights[g]
  {
  }

  lemma OverlapForks(env: B.Env, w: B.World, f: nat, g: nat, r: B.Drawn, r': B.Drawn)
    requires Sound(env.suite.hash, w.remote.manifests) && AtTip(env, w)
    requires f != g && f in w.flights && g in w.flights
    requires w.flights[f].stage.Collected? && w.flights[g].stage.Collected?
    requires B.CanDraw(w, r) && B.CanDraw(w, r') && r.segment != r'.segment
    ensures var ms := Overlap(env, w, f, g, r, r').remote.manifests;
            && |ms| == |w.remote.manifests| + 2
            && !Numbered(ms)
            && (Accepts(env.suite.hash, ms) <==> env.suite.hash(ms[|ms| - 2]) == w.coordinator.previous)
  {
    var both := B.Step(env, B.Step(env, w, B.Build(f, r)), B.Build(g, r'));
    var first, second := both.flights[f].stage.payload.manifest, both.flights[g].stage.payload.manifest;
    CompletePublishes(env, both, f);
    CompletePublishes(env, Complete(env, both, f), g);
    NumberedSnoc(w.remote.manifests, first);
    AppendAcceptedIff(env.suite.hash, w.remote.manifests, first);
    SameTipForks(env.suite.hash, w.remote.manifests, first, second);
  }

  /** Two backups that list their tables before either is built: `OverlapForks` applies to what they lead to. */
  lemma OverlapIsReachable(env: B.Env, store: Store)
    requires env.suite.encode(B.Collect(store)) != []
    ensures var ops := [B.Begin(0), B.ListSkeletons(0), B.ListBodies(0),
                        B.Begin(1), B.ListSkeletons(1), B.ListBodies(1)];
            var w := B.Run(env, B.Start(store), ops);
            && Sound(env.suite.hash, w.remote.manifests) && AtTip(env, w)
            && 0 in w.flights && w.flights[0].stage.Collected?
            && 1 in w.flights && w.flights[1].stage.Collected?
  {
    var start := B.Start(store);
    B.StepsOfRun(env, start, B.Begin(0), B.ListSkeletons(0), B.ListBodies(0),
                 B.Begin(1), B.ListSkeletons(1), B.ListBodies(1));
    ListedWorld(env, start, 0);
    ListedWorld(env, Listed(env, start, 0), 1);
  }

  /** A backup whose segment is up: `LostReplyForks` applies to what it leads to. */
  lemma SegmentUpIsReachable(env: B.Env, store: Store, r: B.Drawn)
    requires env.suite.encode(B.Collect(store)) != [] && |r.nonce| == B.NONCE_SIZE
    ensures var ops := [B.Begin(0), B.ListSkeletons(0), B.ListBodies(0), B.Build(0, r),
                        B.SendSegment(0, Acknowledged), B.Save];
            var w := B.Run(env, B.Start(store), ops);
            && Sound(env.suite.hash, w.remote.manifests) && AtTip(env, w)
            && 0 in w.flights && w.flights[0].stage.SegmentUp?
            && w.flights[0].stage.payload.manifest.generation == w.coordinator.generation
            && w.flights[0].stage.payload.manifest.previous == w.coordinator.previous
  {
    var start := B.Start(store);
    B.StepsOfRun(env, start, B.Begin(0), B.ListSkeletons(0), B.ListBodies(0), B.Build(0, r),
                 B.SendSegment(0, Acknowledged), B.Save);
    ListedWorld(env, start, 0);
    var built := B.Step(env, Listed(env, start, 0), B.Build(0, r));
    assert built.flights[0].stage.Built?;
    assert B.Step(env, built, B.SendSegment(0, Acknowledged)).flights[0].stage.SegmentUp?;
  }

  /** A manifest that is stored while its reply gets lost, then another backup. */
  function Repeat(env: B.Env, w: B.World, f: nat, r: B.Drawn): B.World {
    Published(env, B.Step(env, w, B.SendManifest(f, ReplyLost)), f, r)
  }

  /** The backup is reported as failed, so the next one is built at the same tip. */
  lemma LostReplyForks(env: B.Env, w: B.World, f: nat, r: B.Drawn)
    requires Sound(env.suite.hash, w.remote.manifests) && AtTip(env, w)
    requires f in w.flights && w.flights[f].stage.SegmentUp?
    requires var m := w.flights[f].stage.payload.manifest;
             m.generation == w.coordinator.generation && m.previous == w.coordinator.previous
    requires B.CanDraw(w, r) && env.suite.encode(B.Collect(w.store)) != []
    ensures var ms := Repeat(env, w, f, r).remote.manifests;
            && |ms| == |w.remote.manifests| + 2
            && !Numbered(ms)
            && (Accepts(env.suite.hash, ms) <==> env.suite.hash(ms[|ms| - 2]) == w.coordinator.previous)
  {
    var first := w.flights[f].stage.payload.manifest;
    var second := PublishedManifest(env, B.Step(env, w, B.SendManifest(f, ReplyLost)), f, r);
    NumberedSnoc(w.remote.manifests, first);
    AppendAcceptedIff(env.suite.hash, w.remote.manifests, first);
    SameTipForks(env.suite.hash, w.remote.manifests, first, second);
  }
}

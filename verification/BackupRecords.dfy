/** What manifests and the coordinator's journal record of the uploads, over every run. */
module BackupRecords {
  import opened BackupChain
  import opened BackupSafety
  import opened Common
  import opened ManifestChain
  import opened MessageStore
  import B = Backup
  import opened Transport

  /** The reference has the size of the frame and the digest of what the frame opens to. */
  ghost predicate RefTells(env: B.Env, frame: Bytes, ref: SegmentRef) {
    && ref.size == |frame|
    && B.OpenSegment(env, frame).Some?
    && ref.digest == env.suite.digest(B.OpenSegment(env, frame).value)
  }

  ghost predicate PayloadTells(env: B.Env, p: B.Payload) {
    && |p.manifest.segments| == 1
    && p.manifest.segments[0].segment == p.segment
    && RefTells(env, p.ciphertext, p.manifest.segments[0])
    && p.generation == p.manifest.generation
  }

  /** The one segment that the manifest lists is on the gateway, as the reference tells. */
  ghost predicate ManifestTells(env: B.Env, remote: Remote<Bytes>, m: Manifest) {
    && |m.segments| == 1
    && m.segments[0].segment in remote.segments
    && RefTells(env, remote.segments[m.segments[0].segment], m.segments[0])
  }

  ghost predicate AllTell(env: B.Env, w: B.World) {
    && (forall f :: f in w.flights && InFlight(w.flights[f].stage) ==> PayloadTells(env, w.flights[f].stage.payload))
    && (forall m :: m in w.remote.manifests ==> ManifestTells(env, w.remote, m))
  }

  lemma PreparedTells(env: B.Env, c: B.Coordinator, data: Bytes, r: B.Drawn)
    requires B.Lawful(env.suite) && |r.nonce| == B.NONCE_SIZE
    ensures PayloadTells(env, B.Prepare(env, c, data, r))
  {
    B.OpenOwnSegment(env, data, r.nonce);
  }

  lemma SendSegmentKeepsTelling(env: B.Env, w: B.World, f: nat, reply: Reply)
    requires Safe(env, w) && AllTell(env, w)
    ensures AllTell(env, B.SendSegmentStep(w, f, reply))
  {
    if f in w.flights && w.flights[f].stage.Built? {
      var p, w' := w.flights[f].stage.payload, B.SendSegmentStep(w, f, reply);
      assert FlightFits(env, w.remote, w.sealed, w.flights[f]);
      forall m | m in w'.remote.manifests
        ensures ManifestTells(env, w'.remote, m)
      {
        assert ManifestTells(env, w.remote, m);
      }
    }
  }

  lemma SendManifestKeepsTelling(env: B.Env, w: B.World, f: nat, reply: Reply)
    requires Safe(env, w) && AllTell(env, w)
    ensures AllTell(env, B.SendManifestStep(w, f, reply))
  {
    if f in w.flights && w.flights[f].stage.SegmentUp? {
      var p, w' := w.flights[f].stage.payload, B.SendManifestStep(w, f, reply);
      assert FlightFits(env, w.remote, w.sealed, w.flights[f]);
      assert PayloadTells(env, p);
      forall m | m in w'.remote.manifests
        ensures ManifestTells(env, w'.remote, m)
      {
        assert m in w.remote.manifests || m == p.manifest;
      }
    }
  }

  lemma BuildKeepsTelling(env: B.Env, w: B.World, f: nat, r: B.Drawn)
    requires B.Lawful(env.suite) && AllTell(env, w)
    ensures AllTell(env, B.BuildStep(env, w, f, r))
  {
    if f in w.flights && w.flights[f].stage.Collected? && B.CanDraw(w, r) {
      PreparedTells(env, w.coordinator, env.suite.encode(w.flights[f].snapshot), r);
    }
  }

  lemma StepKeepsTelling(env: B.Env, w: B.World, op: B.Op)
    requires B.Lawful(env.suite) && Safe(env, w) && AllTell(env, w)
    ensures AllTell(env, B.Step(env, w, op))
  {
    match op
    case Build(f, r) => BuildKeepsTelling(env, w, f, r);
    case SendSegment(f, reply) => SendSegmentKeepsTelling(env, w, f, reply);
    case SendManifest(f, reply) => SendManifestKeepsTelling(env, w, f, reply);
    case _ =>
  }

  /**
   Over every run, each published manifest lists one segment that is on the gateway, with its size
   and the digest of its plaintext.
   */
  lemma {:induction false} ManifestsTell(env: B.Env, store: Store, ops: seq<B.Op>)
    requires B.Lawful(env.suite) && NothingBackedUp(store)
    ensures Safe(env, B.Run(env, B.Start(store), ops)) && AllTell(env, B.Run(env, B.Start(store), ops))
    decreases |ops|
  {
    if ops == [] {
      assert Safe(env, B.Start(store));
    } else {
      var w := B.Run(env, B.Start(store), ops[..|ops| - 1]);
      ManifestsTell(env, store, ops[..|ops| - 1]);
      StepKeepsSafe(env, w, ops[|ops| - 1]);
      StepKeepsTelling(env, w, ops[|ops| - 1]);
    }
  }

  // ---------------------------------------------------------------------------
  // The journal of the coordinator
  // ---------------------------------------------------------------------------

  /** Two events for each manifest from number `first` on: its segment, then its generation. */
  ghost predicate EventsTell(events: seq<B.BackupEvent>, ms: seq<Manifest>, first: nat) {
    && |events| % 2 == 0 && first + |events| / 2 <= |ms|
    && forall k :: 0 <= k < |events| / 2 ==> PairTells(events, ms, first, k)
  }

  ghost predicate PairTells(events: seq<B.BackupEvent>, ms: seq<Manifest>, first: nat, k: nat)
    requires 2 * k + 1 < |events| && first + k < |ms|
  {
    var m := ms[first + k];
    && |m.segments| == 1
    && events[2 * k] == B.SegmentUploaded(m.segments[0].segment, m.segments[0].size)
    && events[2 * k + 1] == B.ManifestPublished(first + k)
  }

  /** The events since the coordinator was made are about the manifests up to the one it stands at. */
  ghost predicate JournalTells(w: B.World) {
    var n := |w.coordinator.events| / 2;
    n <= w.coordinator.generation && EventsTell(w.coordinator.events, w.remote.manifests, w.coordinator.generation - n)
  }

  lemma EventsTellMore(events: seq<B.BackupEvent>, ms: seq<Manifest>, first: nat, m: Manifest)
    requires EventsTell(events, ms, first)
    ensures EventsTell(events, ms + [m], first)
  {
    var all := ms + [m];
    forall k | 0 <= k < |events| / 2
      ensures PairTells(events, all, first, k)
    {
      assert PairTells(events, ms, first, k);
    }
  }

  lemma TwoMoreEvents(events: seq<B.BackupEvent>, ms: seq<Manifest>, first: nat)
    requires EventsTell(events, ms, first) && first + |events| / 2 < |ms|
    requires |ms[first + |events| / 2].segments| == 1
    ensures var n := first + |events| / 2;
            var ref := ms[n].segments[0];
            EventsTell(events + [B.SegmentUploaded(ref.segment, ref.size), B.ManifestPublished(n)], ms, first)
  {
    var n := first + |events| / 2;
    var ref := ms[n].segments[0];
    var more := events + [B.SegmentUploaded(ref.segment, ref.size), B.ManifestPublished(n)];
    forall k | 0 <= k < |more| / 2
      ensures PairTells(more, ms, first, k)
    {
      if k < |events| / 2 {
        assert PairTells(events, ms, first, k);
      }
    }
  }

  lemma FinalizeKeepsJournal(env: B.Env, w: B.World, f: nat)
    requires InLine(env, w) && AllTell(env, w) && JournalTells(w)
    ensures JournalTells(B.FinalizeStep(w, f))
  {
    if f in w.flights && w.flights[f].stage.ManifestUp? {
      var p, c := w.flights[f].stage.payload, w.coordinator;
      assert FlightInLine(env, w.remote.manifests, c, w.flights[f].stage);
      assert PayloadTells(env, p);
      assert Numbered(w.remote.manifests);
      TwoMoreEvents(c.events, w.remote.manifests, c.generation - |c.events| / 2);
      assert B.FinalizeStep(w, f).coordinator.events ==
             c.events + [B.SegmentUploaded(p.segment, |p.ciphertext|), B.ManifestPublished(p.generation)];
    }
  }

  lemma SendManifestKeepsJournal(w: B.World, f: nat, reply: Reply)
    requires JournalTells(w)
    ensures JournalTells(B.SendManifestStep(w, f, reply))
  {
    if f in w.flights && w.flights[f].stage.SegmentUp? {
      var n := |w.coordinator.events| / 2;
      EventsTellMore(w.coordinator.events, w.remote.manifests, w.coordinator.generation - n,
                     w.flights[f].stage.payload.manifest);
    }
  }

  lemma StepKeepsJournal(env: B.Env, w: B.World, op: B.Op)
    requires InLine(env, w) && AllTell(env, w) && JournalTells(w)
    ensures JournalTells(B.Step(env, w, op))
  {
    match op
    case SendManifest(f, reply) => SendManifestKeepsJournal(w, f, reply);
    case Finalize(f) => FinalizeKeepsJournal(env, w, f);
    case Restart(load) =>
      assert Fits(env, w.remote.manifests, w.coordinator.generation, w.coordinator.previous);
    case _ =>
  }

  /** As long as every manifest is stored in its turn, the journal tells of the manifests, in order. */
  lemma {:induction false} JournalTellsOfManifests(env: B.Env, store: Store, ops: seq<B.Op>)
    requires B.Lawful(env.suite) && NothingBackedUp(store) && RunStoresInTurn(env, B.Start(store), ops)
    ensures JournalTells(B.Run(env, B.Start(store), ops))
    decreases |ops|
  {
    if ops != [] {
      var front := ops[..|ops| - 1];
      JournalTellsOfManifests(env, store, front);
      RunStaysInLine(env, store, front);
      ManifestsTell(env, store, front);
      StepKeepsJournal(env, B.Run(env, B.Start(store), front), ops[|ops| - 1]);
    }
  }
}

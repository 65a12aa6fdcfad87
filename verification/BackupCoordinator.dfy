/**
 The backup coordinator and the backup call of `CoreImpl`, on mutable state.

 `RunIncrementalBackup` is proved to take the steps of `Backup.Run` one after the other.
 */
module BackupCoordinator {
  import opened Backup
  import opened Common
  import opened LocalStore
  import opened ManifestChain
  import opened MessageStore
  import opened StateMachines
  import opened Transport

  /** The table `backup_state`, of one row. */
  class StateTable {
    var row: Option<SavedState>

    constructor ()
      ensures row == None
    {
      row := None;
    }
  }

  class Coordinator {
    var events: seq<BackupEvent>
    var generation: nat
    var previous: Hash

    function State(): Backup.Coordinator
      reads this
    {
      Backup.Coordinator(events, generation, previous)
    }

    constructor ()
      ensures State() == NewCoordinator
    {
      events, generation, previous := [], 0, Zero();
    }

    method PrepareBackup(env: Env, data: Bytes, r: Drawn) returns (p: Payload)
      ensures p == Prepare(env, State(), data, r)
    {
      var frame := BuildSegment(env, data, r.nonce);
      var hash := env.suite.digest(data);
      var manifest := Manifest(r.manifest, generation, previous, [SegmentRef(r.segment, hash, |frame|)]);
      p := Payload(r.segment, frame, manifest, hash, env.suite.hash(manifest), generation);
    }

    method FinalizeBackup(uploaded: Id, p: Payload) returns (next: nat)
      modifies this
      ensures State() == Advance(old(State()), uploaded, p)
      ensures next == generation
    {
      events := events + [SegmentUploaded(uploaded, |p.ciphertext|)];
      previous := p.manifestHash;
      events := events + [ManifestPublished(p.generation)];
      generation := generation + 1;
      next := generation;
    }

    /** All three phases in one call; `None` when an upload fails, and then the coordinator is as it was. */
    method RunBackup(env: Env, data: Bytes, r: Drawn, gateway: Gateway<Bytes>, segment: Reply, manifest: Reply)
      returns (next: Option<nat>)
      modifies this, gateway
      ensures var p := Prepare(env, old(State()), data, r);
              && State() == (if data != [] && next.Some? then Advance(old(State()), r.segment, p) else old(State()))
              && gateway.State() == RunBackupUploads(old(gateway.State()), data, p, segment, manifest)
      ensures next.Some? <==> data == [] || (segment == Acknowledged && manifest == Acknowledged)
      ensures next.Some? ==> next.value == generation
    {
      if data == [] {
        return Some(generation);
      }
      var p := PrepareBackup(env, data, r);
      var ok := gateway.UploadSegment(segment, p.segment, p.ciphertext);
      if !ok {
        return None;
      }
      ok := gateway.UploadManifest(manifest, p.manifest);
      if !ok {
        return None;
      }
      var g := FinalizeBackup(p.segment, p);
      return Some(g);
    }

    method SaveState(table: StateTable)
      modifies table
      ensures table.row == Some(SavedState(generation, previous))
    {
      table.row := Some(SavedState(generation, previous));
    }
  }

  /** The second upload is attempted only when the first was acknowledged. */
  function RunBackupUploads(remote: Remote<Bytes>, data: Bytes, p: Payload, segment: Reply, manifest: Reply)
    : Remote<Bytes>
  {
    if data == [] then remote
    else
      var sent := PutSegment(remote, segment, p.segment, p.ciphertext);
      if segment == Acknowledged then PutManifest(sent, manifest, p.manifest) else sent
  }

  method LoadState(table: StateTable) returns (c: Coordinator)
    ensures fresh(c) && c.State() == Load(table.row)
  {
    c := new Coordinator();
    match table.row
    case None =>
    case Some(row) =>
      c.generation := row.generation;
      c.previous := if |row.previous| == HASH_SIZE then row.previous else Zero();
  }

  datatype BackupResult = BackupResult(segments: nat, generation: nat, bytes: nat)

  /** The steps of a backup that nothing interrupts. */
  function BackupOps(r: Drawn, segment: Reply, manifest: Reply, marks: bool, now: i64, prunes: bool): seq<Backup.Op> {
    [Begin(0), ListSkeletons(0), ListBodies(0)]
    + [Build(0, r), SendSegment(0, segment), SendManifest(0, manifest), Finalize(0), Mark(0, marks, now, prunes)]
  }

  /** What a backup that nothing interrupts comes to. */
  function AfterBackup(
    env: Env, w: World, r: Drawn, segment: Reply, manifest: Reply, marks: bool, now: i64, prunes: bool): World
  {
    var snapshot := Collect(w.store);
    var data := env.suite.encode(snapshot);
    if data == [] then w
    else
      var p := Prepare(env, w.coordinator, data, r);
      var sent := w.(remote := PutSegment(w.remote, segment, r.segment, p.ciphertext),
                     sealed := w.sealed[r.segment := p.ciphertext]);
      if segment != Acknowledged then sent
      else
        var up := sent.(remote := PutManifest(sent.remote, manifest, p.manifest));
        if manifest != Acknowledged then up
        else
          up.(coordinator := Advance(w.coordinator, r.segment, p),
              store := if marks then MarkAndPrune(w.store, snapshot.skeletons.Keys, now, prunes) else w.store)
  }

  lemma StepsOfBackup(
    env: Env, w: World, r: Drawn, segment: Reply, manifest: Reply, marks: bool, now: i64, prunes: bool)
    ensures var begun := Backup.Step(env, w, Begin(0));
            var listed := Backup.Step(env, Backup.Step(env, begun, ListSkeletons(0)), ListBodies(0));
            var built := Backup.Step(env, listed, Build(0, r));
            var sent := Backup.Step(env, Backup.Step(env, built, SendSegment(0, segment)), SendManifest(0, manifest));
            Backup.Run(env, w, BackupOps(r, segment, manifest, marks, now, prunes)) ==
            Backup.Step(env, Backup.Step(env, sent, Finalize(0)), Mark(0, marks, now, prunes))
  {
    var six := [Begin(0), ListSkeletons(0), ListBodies(0),
                Build(0, r), SendSegment(0, segment), SendManifest(0, manifest)];
    StepsOfRun(env, w, six[0], six[1], six[2], six[3], six[4], six[5]);
    RunSnoc(env, w, six, Finalize(0));
    RunSnoc(env, w, six + [Finalize(0)], Mark(0, marks, now, prunes));
    assert BackupOps(r, segment, manifest, marks, now, prunes) == six + [Finalize(0)] + [Mark(0, marks, now, prunes)];
  }

  /** A flight that has ended takes no more steps. */
  lemma EndedFlight(env: Env, w: World, op: Backup.Op)
    requires op.Build? || op.SendSegment? || op.SendManifest? || op.Finalize? || op.Mark?
    requires op.flight == 0 && 0 !in w.flights
    ensures Backup.Step(env, w, op) == w
  {
  }

  lemma AfterSegment(
    env: Env, w: World, p: Payload, snapshot: Snapshot, manifest: Reply, marks: bool, now: i64, prunes: bool)
    requires w.flights == map[0 := Flight(snapshot, SegmentUp(p))]
    ensures Backup.Step(env, Backup.Step(env, Backup.Step(env, w, SendManifest(0, manifest)), Finalize(0)),
                        Mark(0, marks, now, prunes)) ==
            var up := w.(remote := PutManifest(w.remote, manifest, p.manifest), flights := map[]);
            if manifest != Acknowledged then up
            else up.(coordinator := Advance(w.coordinator, p.segment, p),
                     store := if marks then MarkAndPrune(w.store, snapshot.skeletons.Keys, now, prunes) else w.store)
  {
    var sent := Backup.Step(env, w, SendManifest(0, manifest));
    if manifest != Acknowledged {
      assert sent.flights == map[];
      EndedFlight(env, sent, Finalize(0));
      EndedFlight(env, sent, Mark(0, marks, now, prunes));
    } else {
      var done := Backup.Step(env, sent, Finalize(0));
      assert done.flights == map[0 := Flight(snapshot, Advanced)];
      assert Backup.Step(env, done, Mark(0, marks, now, prunes)).flights == map[];
    }
  }

  lemma RunIsAfterBackup(
    env: Env, w: World, r: Drawn, segment: Reply, manifest: Reply, marks: bool, now: i64, prunes: bool)
    requires w.flights == map[] && CanDraw(w, r)
    ensures Backup.Run(env, w, BackupOps(r, segment, manifest, marks, now, prunes)) ==
            AfterBackup(env, w, r, segment, manifest, marks, now, prunes)
  {
    StepsOfBackup(env, w, r, segment, manifest, marks, now, prunes);
    var snapshot := Collect(w.store);
    var data := env.suite.encode(snapshot);
    ListAll(env, w);
    if data == [] {
      EndedFlight(env, w, Build(0, r));
      AfterFailure(env, w, segment, manifest, marks, now, prunes);
    } else {
      BuildListed(env, w, r, snapshot);
      var p := Prepare(env, w.coordinator, data, r);
      var built := w.(flights := map[0 := Flight(snapshot, Built(p))], sealed := w.sealed[r.segment := p.ciphertext]);
      AfterBuild(env, built, p, snapshot, segment, manifest, marks, now, prunes);
    }
  }

  lemma BuildListed(env: Env, w: World, r: Drawn, snapshot: Snapshot)
    requires CanDraw(w, r)
    ensures var p := Prepare(env, w.coordinator, env.suite.encode(snapshot), r);
            Backup.Step(env, w.(flights := map[0 := Flight(snapshot, Collected)]), Build(0, r)) ==
            w.(flights := map[0 := Flight(snapshot, Built(p))], sealed := w.sealed[r.segment := p.ciphertext])
  {
  }

  /** The three listings, one right after the other. */
  lemma ListAll(env: Env, w: World)
    requires w.flights == map[]
    ensures Backup.Step(env, Backup.Step(env, Backup.Step(env, w, Begin(0)), ListSkeletons(0)), ListBodies(0)) ==
            if env.suite.encode(Collect(w.store)) == [] then w
            else w.(flights := map[0 := Flight(Collect(w.store), Collected)])
  {
    var begun := Backup.Step(env, w, Begin(0));
    assert begun.flights == map[0 := Flight(Snapshot(w.store.conversations, map[], map[]), ConversationsListed)];
    var listed := Backup.Step(env, begun, ListSkeletons(0));
    var skeletons := Collect(w.store).(bodies := map[]);
    assert listed.flights == map[0 := Flight(skeletons, SkeletonsListed)];
    assert skeletons.(bodies := w.store.bodies) == Collect(w.store);
    assert listed.flights - {0} == map[];
  }

  lemma AfterBuild(
    env: Env, w: World, p: Payload, snapshot: Snapshot, segment: Reply, manifest: Reply, marks: bool, now: i64,
    prunes: bool)
    requires w.flights == map[0 := Flight(snapshot, Built(p))]
    ensures Backup.Step(env, Backup.Step(env, Backup.Step(env, Backup.Step(env, w,
              SendSegment(0, segment)), SendManifest(0, manifest)), Finalize(0)), Mark(0, marks, now, prunes)) ==
            var sent := w.(remote := PutSegment(w.remote, segment, p.segment, p.ciphertext), flights := map[]);
            if segment != Acknowledged then sent
            else
              var up := sent.(remote := PutManifest(sent.remote, manifest, p.manifest));
              if manifest != Acknowledged then up
              else up.(coordinator := Advance(w.coordinator, p.segment, p),
                       store := if marks then MarkAndPrune(w.store, snapshot.skeletons.Keys, now, prunes) else w.store)
  {
    var sent := w.(remote := PutSegment(w.remote, segment, p.segment, p.ciphertext),
                   flights := if segment == Acknowledged then map[0 := Flight(snapshot, SegmentUp(p))] else map[]);
    assert Backup.Step(env, w, SendSegment(0, segment)) == sent;
    if segment == Acknowledged {
      AfterSegment(env, sent, p, snapshot, manifest, marks, now, prunes);
    } else {
      AfterFailure(env, sent, segment, manifest, marks, now, prunes);
    }
  }

  lemma AfterFailure(env: Env, w: World, segment: Reply, manifest: Reply, marks: bool, now: i64, prunes: bool)
    requires w.flights == map[]
    ensures Backup.Step(env, w, SendSegment(0, segment)) == w
    ensures Backup.Step(env, Backup.Step(env, Backup.Step(env, w, SendManifest(0, manifest)), Finalize(0)),
                        Mark(0, marks, now, prunes)) == w
  {
    EndedFlight(env, w, SendSegment(0, segment));
    EndedFlight(env, w, SendManifest(0, manifest));
    EndedFlight(env, w, Finalize(0));
    EndedFlight(env, w, Mark(0, marks, now, prunes));
  }

  class Core {
    const env: Env
    const db: Db
    const coordinator: Coordinator
    const gateway: Gateway<Bytes>
    const table: StateTable

    /** The state of all parts when no backup is under way. */
    ghost function World(sealed: map<Id, Bytes>): World
      reads db, coordinator, gateway, table
    {
      Backup.World(db.State(), coordinator.State(), table.row, gateway.State(), map[], sealed)
    }

    constructor (env: Env, db: Db, coordinator: Coordinator, gateway: Gateway<Bytes>, table: StateTable)
      ensures this.env == env && this.db == db && this.coordinator == coordinator
      ensures this.gateway == gateway && this.table == table
    {
      this.env, this.db, this.coordinator, this.gateway, this.table := env, db, coordinator, gateway, table;
    }

    /**
     A backup: `None` when an upload or the marking fails.  The new state is that of the
     steps of `BackupOps`, of which those after a failure do nothing.
     */
    method RunIncrementalBackup(
      r: Drawn, segment: Reply, manifest: Reply, marks: bool, now: i64, prunes: bool, ghost sealed: map<Id, Bytes>)
      returns (result: Option<BackupResult>)
      requires CanDraw(World(sealed), r)
      modifies db, coordinator, gateway
      ensures var after := Backup.Run(env, old(World(sealed)), BackupOps(r, segment, manifest, marks, now, prunes));
              World(after.sealed) == after
      ensures result.Some? <==> env.suite.encode(Collect(old(db.State()))) == []
                                || (segment == Acknowledged && manifest == Acknowledged && marks)
      ensures if result.Some? && prunes && env.suite.encode(Collect(old(db.State()))) != [] then
                KeepsRecent(old(db.journal), now - 30 * 24 * 60 * 60 * 1000, db.journal)
              else db.journal == old(db.journal)
      ensures result.Some? ==>
                var data := env.suite.encode(Collect(old(db.State())));
                result.value == if data == [] then BackupResult(0, 0, 0)
                                else BackupResult(1, coordinator.generation, |data|)
    {
      ghost var w := World(sealed);
      RunIsAfterBackup(env, w, r, segment, manifest, marks, now, prunes);
      var conversations := db.conversations;
      var skeletons := Unmarked(db.State());
      var bodies := db.bodies;
      var snapshot := Snapshot(conversations, skeletons, bodies);
      var data := env.suite.encode(snapshot);
      if data == [] {
        return Some(BackupResult(0, 0, 0));
      }
      var p := coordinator.PrepareBackup(env, data, r);
      var ok := gateway.UploadSegment(segment, p.segment, p.ciphertext);
      if !ok {
        return None;
      }
      ok := gateway.UploadManifest(manifest, p.manifest);
      if !ok {
        return None;
      }
      var generation := coordinator.FinalizeBackup(p.segment, p);
      ok := MarkBackedUp(snapshot.skeletons.Keys, marks);
      if !ok {
        return None;
      }
      if prunes {
        PruneBackupEvents(now - JOURNAL_RETENTION_MS);
      }
      return Some(BackupResult(1, generation, |data|));
    }

    method PruneBackupEvents(cutoff: int)
      modifies db`journal
      ensures db.journal == Pruned(old(db.journal), cutoff) && KeepsRecent(old(db.journal), cutoff, db.journal)
    {
      PrunedKeepsRecent(db.journal, cutoff);
      db.journal := Pruned(db.journal, cutoff);
    }

    /** One transaction: a row after the other, or none. */
    method MarkBackedUp(ids: set<Id>, ok: bool) returns (marked: bool)
      modifies db`skeletons
      ensures marked == ok
      ensures db.State() == if ok then Marked(old(db.State()), ids) else old(db.State())
    {
      if !ok {
        return false;
      }
      var rest := ids;
      assert Marked(db.State(), {}).skeletons == db.skeletons;
      while rest != {}
        invariant rest <= ids
        invariant db.skeletons == Marked(old(db.State()), ids - rest).skeletons
        decreases rest
      {
        var id :| id in rest;
        ghost var done := ids - rest;
        if id in db.skeletons {
          db.skeletons := db.skeletons[id := db.skeletons[id].(backupState := BackupManifestCommitted)];
        }
        rest := rest - {id};
        assert ids - rest == done + {id};
      }
      assert ids - {} == ids;
      return true;
    }
  }
}

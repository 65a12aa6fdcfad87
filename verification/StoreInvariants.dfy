/**
 What every call keeps: the search indexes agree with the bodies, and the rows of a message
 agree with each other.
 */
module StoreInvariants {
  import opened Common
  import opened Journal
  import opened MessageStore
  import opened StateMachines
  import opened StoreRows
  import opened Tokenizer

  // ---------------------------------------------------------------------------
  // Rows of one message
  // ---------------------------------------------------------------------------

  /** A body needs a skeleton, and the deletion stamp goes with the deleted states. */
  ghost predicate RowsAgree(s: Store) {
    && s.bodies.Keys <= s.skeletons.Keys
    && forall id {:trigger s.skeletons[id]} :: id in s.skeletons ==>
         var k := s.skeletons[id];
         && (k.deletedAt.Some? <==> IsDeleted(k.bodyState))
         && (!IsDeleted(k.bodyState) ==> k.bodyState == LocalPlainAvailable || k.bodyState == RemoteArchiveOnly)
         && (k.bodyState == DeletedForEveryone ==> id !in s.bodies)
  }

  lemma EvictKeepsRowsAgree(s: Store, ids: seq<Id>)
    requires RowsAgree(s)
    ensures RowsAgree(AfterEvict(s, ids))
  {
    var s' := AfterEvict(s, ids);
    assert s'.skeletons.Keys == s.skeletons.Keys;
  }

  lemma IngestKeepsRowsAgree(lower: Lowercase, s: Store, m: Message, now: i64)
    requires RowsAgree(s) && m.id !in s.skeletons
    ensures RowsAgree(AfterIngest(lower, s, m, now))
  {
  }

  lemma OutboxKeepsRowsAgree(lower: Lowercase, s: Store, e: OutboxEntry, now: i64)
    requires RowsAgree(s) && e.id !in s.skeletons
    ensures RowsAgree(AfterOutbox(lower, s, e, now))
  {
  }

  lemma EditKeepsRowsAgree(lower: Lowercase, s: Store, id: Id, text: string, now: i64)
    requires RowsAgree(s) && id in s.skeletons
    ensures RowsAgree(AfterEdit(lower, s, id, text, now))
  {
  }

  lemma DeleteKeepsRowsAgree(s: Store, id: Id, scope: DeleteScope, now: i64)
    requires RowsAgree(s) && id in s.skeletons
    requires s.skeletons[id].bodyState == LocalPlainAvailable
    ensures RowsAgree(AfterDelete(s, id, scope, now))
  {
  }

  lemma VerifyKeepsRowsAgree(s: Store, id: Id)
    requires RowsAgree(s)
    ensures RowsAgree(AfterVerify(s, id))
  {
  }

  lemma StepKeepsRowsAgree(lower: Lowercase, s: Store, op: Op)
    requires RowsAgree(s)
    ensures RowsAgree(Step(lower, s, op).0)
  {
    if Step(lower, s, op).1 == Ok {
      match op
      case Ingest(m, now, fault) => IngestKeepsRowsAgree(lower, s, m, now);
      case SendOutbox(e, now, fault) => OutboxKeepsRowsAgree(lower, s, e, now);
      case Edit(id, text, now, fault) => EditKeepsRowsAgree(lower, s, id, text, now);
      case Delete(id, scope, now, fault) => DeleteKeepsRowsAgree(s, id, scope, now);
      case Evict(ids) => EvictKeepsRowsAgree(s, ids);
      case MarkSent(_, _, _) =>
      case VerifyArchive(id) => VerifyKeepsRowsAgree(s, id);
    }
  }

  lemma {:induction false} RunKeepsRowsAgree(lower: Lowercase, s: Store, ops: seq<Op>)
    requires RowsAgree(s)
    ensures RowsAgree(Run(lower, s, ops))
    decreases |ops|
  {
    if ops != [] {
      RunKeepsRowsAgree(lower, s, ops[..|ops| - 1]);
      StepKeepsRowsAgree(lower, Run(lower, s, ops[..|ops| - 1]), ops[|ops| - 1]);
    }
  }

  predicate IsLive(s: Store, id: Id) {
    id in s.skeletons && s.skeletons[id].deletedAt.None?
  }

  // ---------------------------------------------------------------------------
  // The indexes
  // ---------------------------------------------------------------------------

  /** A live message with a text body. */
  ghost predicate Indexed(s: Store, id: Id) {
    id in s.skeletons && s.skeletons[id].deletedAt.None? && id in s.bodies
  }

  ghost function FtsOf(rows: seq<FtsRow>, id: Id): seq<FtsRow> {
    if rows == [] then []
    else
      var front, last := rows[..|rows| - 1], rows[|rows| - 1];
      if last.message == id then FtsOf(front, id) + [last] else FtsOf(front, id)
  }

  ghost function ExpectedFts(s: Store, id: Id): seq<FtsRow> {
    if Indexed(s, id) then
      var k := s.skeletons[id];
      [FtsRow(id, k.conversation, k.sender, k.createdAt, s.bodies[id])]
    else []
  }

  ghost function FuzzyOf(rows: set<FuzzyRow>, id: Id): set<FuzzyRow> {
    set r | r in rows && r.message == id
  }

  ghost function ExpectedFuzzy(lower: Lowercase, s: Store, id: Id): set<FuzzyRow> {
    if Indexed(s, id) then FuzzyRows(lower, s.bodies[id], id) else {}
  }

  /** The index rows of a message: one full-text row and the grams of the text if it is indexed, none if not. */
  ghost predicate RowsExact(lower: Lowercase, s: Store, id: Id) {
    FtsOf(s.fts, id) == ExpectedFts(s, id) && FuzzyOf(s.fuzzy, id) == ExpectedFuzzy(lower, s, id)
  }

  /** The index rows of every message are exact. */
  ghost predicate IndexesAgree(lower: Lowercase, s: Store) {
    RowsAgree(s) && forall id :: RowsExact(lower, s, id)
  }

  lemma FtsOfSnoc(rows: seq<FtsRow>, r: FtsRow, id: Id)
    ensures FtsOf(rows + [r], id) == FtsOf(rows, id) + (if r.message == id then [r] else [])
  {
    assert (rows + [r])[..|rows|] == rows;
  }

  lemma {:induction false} FtsOfWithout(rows: seq<FtsRow>, x: Id, id: Id)
    ensures FtsOf(FtsWithout(rows, x), id) == if id == x then [] else FtsOf(rows, id)
    decreases |rows|
  {
    if rows != [] {
      var front, last := rows[..|rows| - 1], rows[|rows| - 1];
      FtsOfWithout(front, x, id);
      if last.message != x {
        FtsOfSnoc(FtsWithout(front, x), last, id);
      }
    }
  }

  lemma {:induction false} FtsMembers(rows: seq<FtsRow>, r: FtsRow)
    requires r in rows
    ensures r in FtsOf(rows, r.message)
    decreases |rows|
  {
    var front, last := rows[..|rows| - 1], rows[|rows| - 1];
    if r != last {
      assert r in front;
      FtsMembers(front, r);
    }
  }

  lemma FuzzyOfRows(lower: Lowercase, rows: set<FuzzyRow>, text: string, x: Id, id: Id)
    ensures FuzzyOf(rows + FuzzyRows(lower, text, x), id) ==
            FuzzyOf(rows, id) + (if x == id then FuzzyRows(lower, text, x) else {})
    ensures FuzzyOf(FuzzyWithout(rows, x), id) == if x == id then {} else FuzzyOf(rows, id)
  {
  }

  // ---------------------------------------------------------------------------
  // One message
  // ---------------------------------------------------------------------------

  /** What the indexes have of a message and what they should have are both as before. */
  ghost predicate SameRows(lower: Lowercase, s: Store, s': Store, id: Id) {
    && FtsOf(s'.fts, id) == FtsOf(s.fts, id) && ExpectedFts(s', id) == ExpectedFts(s, id)
    && FuzzyOf(s'.fuzzy, id) == FuzzyOf(s.fuzzy, id) && ExpectedFuzzy(lower, s', id) == ExpectedFuzzy(lower, s, id)
  }

  lemma OtherIngest(lower: Lowercase, s: Store, m: Message, now: i64, id: Id)
    requires id != m.id
    ensures SameRows(lower, s, AfterIngest(lower, s, m, now), id)
  {
    if m.text.Some? {
      FtsOfSnoc(s.fts, FtsRow(m.id, m.conversation, m.sender, m.createdAt, m.text.value), id);
      FuzzyOfRows(lower, s.fuzzy, m.text.value, m.id, id);
    }
  }

  lemma OtherOutbox(lower: Lowercase, s: Store, e: OutboxEntry, now: i64, id: Id)
    requires id != e.id || e.text == []
    ensures SameRows(lower, s, AfterOutbox(lower, s, e, now), id)
  {
    if e.text != [] {
      FtsOfSnoc(s.fts, FtsRow(e.id, e.conversation, SELF, e.createdAt, e.text), id);
      FuzzyOfRows(lower, s.fuzzy, e.text, e.id, id);
    }
  }

  lemma OtherEdit(lower: Lowercase, s: Store, x: Id, text: string, now: i64, id: Id)
    requires x in s.skeletons && id != x
    ensures SameRows(lower, s, AfterEdit(lower, s, x, text, now), id)
  {
    EditedRows(lower, s, x, text, now, id);
  }

  lemma OtherDelete(lower: Lowercase, s: Store, x: Id, scope: DeleteScope, now: i64, id: Id)
    requires x in s.skeletons && id != x
    ensures SameRows(lower, s, AfterDelete(s, x, scope, now), id)
  {
    FtsOfWithout(s.fts, x, id);
    FuzzyOfRows(lower, s.fuzzy, [], x, id);
  }

  /** A call leaves the index rows of every message but its target alone. */
  lemma OtherRows(lower: Lowercase, s: Store, op: Op, id: Id)
    requires Step(lower, s, op).1 != Ok || Some(id) != Target(op)
    ensures SameRows(lower, s, Step(lower, s, op).0, id)
  {
    if Step(lower, s, op).1 == Ok {
      match op
      case Ingest(m, now, fault) => OtherIngest(lower, s, m, now, id);
      case SendOutbox(e, now, fault) => OtherOutbox(lower, s, e, now, id);
      case Edit(x, text, now, fault) => OtherEdit(lower, s, x, text, now, id);
      case Delete(x, scope, now, fault) => OtherDelete(lower, s, x, scope, now, id);
      case MarkSent(_, _, _) =>
      case VerifyArchive(_) =>
      case Evict(ids) => OtherEvict(lower, s, ids, id);
    }
  }

  lemma OtherEvict(lower: Lowercase, s: Store, ids: seq<Id>, id: Id)
    ensures SameRows(lower, s, AfterEvict(s, ids), id)
  {
  }

  lemma FirstRow(lower: Lowercase, s: Store, s': Store, row: FtsRow)
    requires FtsOf(s.fts, row.message) == [] && FuzzyOf(s.fuzzy, row.message) == {}
    requires s'.fts == s.fts + [row] && s'.fuzzy == s.fuzzy + FuzzyRows(lower, row.text, row.message)
    ensures FtsOf(s'.fts, row.message) == [row]
    ensures FuzzyOf(s'.fuzzy, row.message) == FuzzyRows(lower, row.text, row.message)
  {
    FtsOfSnoc(s.fts, row, row.message);
    FuzzyOfRows(lower, s.fuzzy, row.text, row.message, row.message);
  }

  lemma IngestedRows(lower: Lowercase, s: Store, m: Message, now: i64)
    requires RowsAgree(s) && m.id !in s.skeletons && RowsExact(lower, s, m.id)
    ensures RowsExact(lower, AfterIngest(lower, s, m, now), m.id)
  {
    var s' := AfterIngest(lower, s, m, now);
    assert s'.skeletons[m.id] == NewSkeleton(m, now);
    if m.text.Some? {
      FirstRow(lower, s, s', FtsRow(m.id, m.conversation, m.sender, m.createdAt, m.text.value));
      assert s'.bodies[m.id] == m.text.value;
    } else {
      assert s'.bodies == s.bodies && m.id !in s.bodies;
    }
  }

  lemma SentRows(lower: Lowercase, s: Store, e: OutboxEntry, now: i64)
    requires e.id !in s.skeletons && e.text != [] && RowsExact(lower, s, e.id)
    ensures RowsExact(lower, AfterOutbox(lower, s, e, now), e.id)
  {
    var s' := AfterOutbox(lower, s, e, now);
    assert s'.skeletons[e.id] == OutboxSkeleton(e) && s'.bodies[e.id] == e.text;
    FirstRow(lower, s, s', FtsRow(e.id, e.conversation, SELF, e.createdAt, e.text));
  }

  lemma EditedRows(lower: Lowercase, s: Store, x: Id, text: string, now: i64, id: Id)
    requires x in s.skeletons
    ensures var k, s' := s.skeletons[x], AfterEdit(lower, s, x, text, now);
            && FtsOf(s'.fts, id) ==
               (if id == x then [FtsRow(x, k.conversation, k.sender, k.createdAt, text)] else FtsOf(s.fts, id))
            && FuzzyOf(s'.fuzzy, id) == (if id == x then FuzzyRows(lower, text, x) else FuzzyOf(s.fuzzy, id))
  {
    var k := s.skeletons[x];
    FtsOfWithout(s.fts, x, id);
    FtsOfSnoc(FtsWithout(s.fts, x), FtsRow(x, k.conversation, k.sender, k.createdAt, text), id);
    FuzzyOfRows(lower, s.fuzzy, text, x, id);
    FuzzyOfRows(lower, FuzzyWithout(s.fuzzy, x), text, x, id);
  }

  lemma DeletedRows(lower: Lowercase, s: Store, x: Id, scope: DeleteScope, now: i64)
    requires x in s.skeletons
    ensures RowsExact(lower, AfterDelete(s, x, scope, now), x)
  {
    FtsOfWithout(s.fts, x, x);
    FuzzyOfRows(lower, s.fuzzy, [], x, x);
  }

  /** The one call that can part index and body: a successful edit of a message without a body. */
  predicate EditsBodyless(lower: Lowercase, s: Store, op: Op) {
    op.Edit? && op.id !in s.bodies && Step(lower, s, op).1 == Ok
  }

  lemma EditedExactly(lower: Lowercase, s: Store, x: Id, text: string, now: i64)
    requires x in s.skeletons && s.skeletons[x].deletedAt.None? && x in s.bodies
    ensures RowsExact(lower, AfterEdit(lower, s, x, text, now), x)
  {
    EditedRows(lower, s, x, text, now, x);
  }

  lemma OwnRows(lower: Lowercase, s: Store, op: Op, id: Id)
    requires RowsAgree(s) && RowsExact(lower, s, id)
    requires Step(lower, s, op).1 == Ok && Target(op) == Some(id) && !EditsBodyless(lower, s, op)
    ensures RowsExact(lower, Step(lower, s, op).0, id)
  {
    match op
    case Ingest(m, now, fault) => IngestedRows(lower, s, m, now);
    case SendOutbox(e, now, fault) => SentRows(lower, s, e, now);
    case Edit(x, text, now, fault) => EditedExactly(lower, s, x, text, now);
    case Delete(x, scope, now, fault) => DeletedRows(lower, s, x, scope, now);
  }

  lemma SameStaysExact(lower: Lowercase, s: Store, s': Store, id: Id)
    requires SameRows(lower, s, s', id)
    ensures RowsExact(lower, s', id) <==> RowsExact(lower, s, id)
  {
  }

  /** Every other call keeps the index rows of a message exact. */
  lemma StepKeepsExact(lower: Lowercase, s: Store, op: Op, id: Id)
    requires RowsAgree(s) && RowsExact(lower, s, id)
    requires EditsBodyless(lower, s, op) ==> op.id != id
    ensures RowsExact(lower, Step(lower, s, op).0, id)
  {
    if Step(lower, s, op).1 != Ok || Some(id) != Target(op) {
      OtherRows(lower, s, op, id);
      SameStaysExact(lower, s, Step(lower, s, op).0, id);
    } else {
      OwnRows(lower, s, op, id);
    }
  }

  lemma StepKeepsIndexes(lower: Lowercase, s: Store, op: Op)
    requires IndexesAgree(lower, s) && !EditsBodyless(lower, s, op)
    ensures IndexesAgree(lower, Step(lower, s, op).0)
  {
    StepKeepsRowsAgree(lower, s, op);
    forall id
      ensures RowsExact(lower, Step(lower, s, op).0, id)
    {
      StepKeepsExact(lower, s, op, id);
    }
  }

  /** An edit that goes through keeps the indexes in agreement exactly when there is a body to edit. */
  lemma EditKeepsIndexesIff(lower: Lowercase, s: Store, id: Id, text: string, now: i64, fault: nat)
    requires IndexesAgree(lower, s) && EditStep(lower, s, id, text, now, fault).1 == Ok
    ensures IndexesAgree(lower, EditStep(lower, s, id, text, now, fault).0) <==> id in s.bodies
  {
    if id in s.bodies {
      StepKeepsIndexes(lower, s, Edit(id, text, now, fault));
    } else {
      EditedRows(lower, s, id, text, now, id);
      assert !RowsExact(lower, AfterEdit(lower, s, id, text, now), id);
    }
  }

  lemma RunOfOne(lower: Lowercase, s: Store, ops: seq<Op>)
    requires ops != []
    ensures Run(lower, s, ops[..1]) == Step(lower, s, ops[0]).0
  {
    assert ops[..1][..0] == [];
  }

  /** Messages without a body are there: one with media only, ingested and then edited. */
  lemma BodylessEditIsReachable(lower: Lowercase, m: Message, conversation: Conversation, text: string, now: i64)
    requires ValidIngest(m) && m.text.None? && text != []
    ensures var start := EmptyStore(map[m.conversation := conversation]);
            var ops := [Ingest(m, now, IngestStatements(m)), Edit(m.id, text, now, EDIT_STATEMENTS)];
            && IndexesAgree(lower, Run(lower, start, ops[..1]))
            && Step(lower, Run(lower, start, ops[..1]), ops[1]).1 == Ok
            && !IndexesAgree(lower, Run(lower, start, ops))
  {
    var start := EmptyStore(map[m.conversation := conversation]);
    var ops := [Ingest(m, now, IngestStatements(m)), Edit(m.id, text, now, EDIT_STATEMENTS)];
    var s := AfterIngest(lower, start, m, now);
    RunOfOne(lower, start, ops);
    assert Step(lower, start, ops[0]).0 == s;
    StepKeepsIndexes(lower, start, ops[0]);
    EditKeepsIndexesIff(lower, s, m.id, text, now, EDIT_STATEMENTS);
  }

  // ---------------------------------------------------------------------------
  // Whole runs
  // ---------------------------------------------------------------------------

  ghost predicate NeverEditsBodyless(lower: Lowercase, s: Store, ops: seq<Op>) {
    forall i {:trigger ops[i]} :: 0 <= i < |ops| ==> !EditsBodyless(lower, Run(lower, s, ops[..i]), ops[i])
  }

  /** From any store in agreement, runs that never edit a message without a body keep it. */
  lemma {:induction false} RunKeepsIndexes(lower: Lowercase, s: Store, ops: seq<Op>)
    requires IndexesAgree(lower, s) && NeverEditsBodyless(lower, s, ops)
    ensures IndexesAgree(lower, Run(lower, s, ops))
    decreases |ops|
  {
    if ops != [] {
      var front := ops[..|ops| - 1];
      forall i | 0 <= i < |front|
        ensures !EditsBodyless(lower, Run(lower, s, front[..i]), front[i])
      {
        assert front[..i] == ops[..i] && front[i] == ops[i];
      }
      RunKeepsIndexes(lower, s, front);
      StepKeepsIndexes(lower, Run(lower, s, front), ops[|ops| - 1]);
    }
  }

  /** A live message that has been edited and has no body. */
  predicate IsStray(s: Store, id: Id) {
    IsLive(s, id) && id !in s.bodies && s.skeletons[id].editedAt.Some?
  }

  /** What every run keeps of a message. */
  ghost predicate Accounted(lower: Lowercase, s: Store, id: Id) {
    if IsStray(s, id) then FtsOf(s.fts, id) != [] else RowsExact(lower, s, id)
  }

  /** A call makes a message stray only by editing it without a body, and ends that only by deleting it. */
  lemma CallStrays(lower: Lowercase, s: Store, op: Op, id: Id)
    requires RowsAgree(s)
    ensures var stays := IsStray(s, id) && !(op.Delete? && op.id == id && Step(lower, s, op).1 == Ok);
            IsStray(Step(lower, s, op).0, id) <==> stays || (EditsBodyless(lower, s, op) && op.id == id)
  {
    if id in s.skeletons {
      CallRow(lower, s, op, id);
    }
  }

  lemma BodylessEditIndexes(lower: Lowercase, s: Store, op: Op)
    requires EditsBodyless(lower, s, op)
    ensures FtsOf(Step(lower, s, op).0.fts, op.id) != []
  {
    EditedRows(lower, s, op.id, op.text, op.now, op.id);
  }

  lemma StepKeepsAccounted(lower: Lowercase, s: Store, op: Op, id: Id)
    requires RowsAgree(s) && Accounted(lower, s, id)
    ensures Accounted(lower, Step(lower, s, op).0, id)
  {
    CallStrays(lower, s, op, id);
    if EditsBodyless(lower, s, op) && op.id == id {
      BodylessEditIndexes(lower, s, op);
    } else if !IsStray(s, id) {
      StepKeepsExact(lower, s, op, id);
    } else {
      StepOnStray(lower, s, op, id);
    }
  }

  lemma StepOnStray(lower: Lowercase, s: Store, op: Op, id: Id)
    requires IsStray(s, id) && FtsOf(s.fts, id) != []
    requires EditsBodyless(lower, s, op) ==> op.id != id
    ensures if op.Delete? && op.id == id && Step(lower, s, op).1 == Ok then RowsExact(lower, Step(lower, s, op).0, id)
            else FtsOf(Step(lower, s, op).0.fts, id) != []
  {
    if op.Delete? && op.id == id && Step(lower, s, op).1 == Ok {
      DeletedRows(lower, s, op.id, op.scope, op.now);
    } else {
      StrayIsNoTarget(lower, s, op, id);
      OtherRows(lower, s, op, id);
    }
  }

  lemma StrayIsNoTarget(lower: Lowercase, s: Store, op: Op, id: Id)
    requires IsStray(s, id)
    requires op.Delete? && op.id == id ==> Step(lower, s, op).1 != Ok
    requires EditsBodyless(lower, s, op) ==> op.id != id
    ensures Step(lower, s, op).1 != Ok || Some(id) != Target(op)
  {
  }

  lemma {:induction false} RunIsAccounted(
    lower: Lowercase, conversations: map<Id, Conversation>, ops: seq<Op>, id: Id)
    ensures RowsAgree(Run(lower, EmptyStore(conversations), ops))
    ensures Accounted(lower, Run(lower, EmptyStore(conversations), ops), id)
    decreases |ops|
  {
    if ops != [] {
      var s := Run(lower, EmptyStore(conversations), ops[..|ops| - 1]);
      RunIsAccounted(lower, conversations, ops[..|ops| - 1], id);
      StepKeepsRowsAgree(lower, s, ops[|ops| - 1]);
      StepKeepsAccounted(lower, s, ops[|ops| - 1], id);
    }
  }

  /** After every run, failed calls included, the index rows of a message are exact exactly when it is not stray. */
  lemma RowsExactIff(lower: Lowercase, conversations: map<Id, Conversation>, ops: seq<Op>, id: Id)
    ensures RowsExact(lower, Run(lower, EmptyStore(conversations), ops), id) <==>
              !IsStray(Run(lower, EmptyStore(conversations), ops), id)
  {
    RunIsAccounted(lower, conversations, ops, id);
  }

  /** After every run the indexes agree with the bodies exactly when no live message was edited without a body. */
  lemma IndexesAgreeIff(lower: Lowercase, conversations: map<Id, Conversation>, ops: seq<Op>)
    ensures IndexesAgree(lower, Run(lower, EmptyStore(conversations), ops)) <==>
              forall id :: !IsStray(Run(lower, EmptyStore(conversations), ops), id)
  {
    var s := Run(lower, EmptyStore(conversations), ops);
    RunIsAccounted(lower, conversations, ops, []);
    forall id
      ensures RowsExact(lower, s, id) <==> !IsStray(s, id)
    {
      RowsExactIff(lower, conversations, ops, id);
    }
  }

  /** A call that reports failure leaves the store as it was, unless it is `MarkSent`. */
  lemma FailedCallChangesNothing(lower: Lowercase, s: Store, op: Op)
    requires Step(lower, s, op).1 != Ok && !op.MarkSent?
    ensures Step(lower, s, op).0 == s
  {
  }

  /** `MarkSent` has no savepoint: it fails with a changed store exactly when its second statement fails. */
  lemma MarkSentFailsDirtyIff(lower: Lowercase, s: Store, id: Id, now: i64, fault: nat)
    requires MarkSentStep(s, id, now, fault).1 != Ok
    ensures MarkSentStep(s, id, now, fault).0 != s <==>
              fault == 1 && id in s.skeletons && id in s.outbox && s.outbox[id].sentAt != Some(now)
  {
    if id in s.skeletons && fault == 1 && id in s.outbox {
      var s' := MarkSentStep(s, id, now, fault).0;
      assert s'.outbox[id].sentAt == Some(now);
      if s.outbox[id].sentAt == Some(now) {
        assert s'.outbox == s.outbox;
      }
    }
  }
}

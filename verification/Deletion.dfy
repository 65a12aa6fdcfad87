/**
 The life of one message over a run: its body state follows the state diagram, a deletion is
 final, and an evicted message can no longer be edited or deleted.
 */
module Deletion {
  import opened Common
  import opened Journal
  import opened MessageStore
  import opened StateMachines
  import opened StoreInvariants
  import opened StoreRows
  import opened Tokenizer

  /** Every change of a body state is an edge of the diagram; no message disappears. */
  lemma StepFollowsDiagram(lower: Lowercase, s: Store, op: Op, id: Id)
    requires RowsAgree(s) && id in s.skeletons
    ensures id in Step(lower, s, op).0.skeletons
    ensures var from, to := s.skeletons[id].bodyState, Step(lower, s, op).0.skeletons[id].bodyState;
            to == from || IsEdge(from, to)
  {
    CallRow(lower, s, op, id);
  }

  /** The body states of a message after each call of a run. */
  ghost function StatesOf(lower: Lowercase, s: Store, ops: seq<Op>, id: Id): (states: seq<BodyState>)
    requires RowsAgree(s) && id in s.skeletons
    ensures |states| == |ops| + 1
    ensures id in Run(lower, s, ops).skeletons && RowsAgree(Run(lower, s, ops))
    ensures states[|ops|] == Run(lower, s, ops).skeletons[id].bodyState
  {
    if ops == [] then [s.skeletons[id].bodyState]
    else
      var front, last := ops[..|ops| - 1], ops[|ops| - 1];
      var states := StatesOf(lower, s, front, id);
      StepFollowsDiagram(lower, Run(lower, s, front), last, id);
      StepKeepsRowsAgree(lower, Run(lower, s, front), last);
      states + [Run(lower, s, ops).skeletons[id].bodyState]
  }

  lemma {:induction false} RunFollowsDiagram(lower: Lowercase, s: Store, ops: seq<Op>, id: Id)
    requires RowsAgree(s) && id in s.skeletons
    ensures LegalPath(StatesOf(lower, s, ops, id))
    decreases |ops|
  {
    if ops != [] {
      var front, last := ops[..|ops| - 1], ops[|ops| - 1];
      RunFollowsDiagram(lower, s, front, id);
      var states := StatesOf(lower, s, front, id);
      StepFollowsDiagram(lower, Run(lower, s, front), last, id);
      var all := StatesOf(lower, s, ops, id);
      assert all[..|front| + 1] == states;
      forall i | 0 <= i < |all| - 1
        ensures all[i + 1] == all[i] || IsEdge(all[i], all[i + 1])
      {
        if i < |states| - 1 {
          assert states[i + 1] == states[i] || IsEdge(states[i], states[i + 1]);
        }
      }
    }
  }

  /** A call leaves the row of a deleted message exactly as it is, but for its archive state. */
  lemma StepFreezesDeleted(lower: Lowercase, s: Store, op: Op, id: Id)
    requires RowsAgree(s) && id in s.skeletons && IsDeleted(s.skeletons[id].bodyState)
    ensures id in Step(lower, s, op).0.skeletons
    ensures var k := Step(lower, s, op).0.skeletons[id];
            k == s.skeletons[id].(archiveState := k.archiveState)
    ensures id in Step(lower, s, op).0.bodies <==> id in s.bodies
  {
    CallRow(lower, s, op, id);
  }

  /** Deletion is final: re-ingest, edits, sends, further deletes and evictions included. */
  lemma {:induction false} DeletionIsFinal(lower: Lowercase, s: Store, ops: seq<Op>, id: Id)
    requires RowsAgree(s) && id in s.skeletons && IsDeleted(s.skeletons[id].bodyState)
    ensures id in Run(lower, s, ops).skeletons
    ensures var k := Run(lower, s, ops).skeletons[id];
            k == s.skeletons[id].(archiveState := k.archiveState)
    ensures id in Run(lower, s, ops).bodies <==> id in s.bodies
    decreases |ops|
  {
    if ops != [] {
      var front := ops[..|ops| - 1];
      DeletionIsFinal(lower, s, front, id);
      RunKeepsRowsAgree(lower, s, front);
      StepFreezesDeleted(lower, Run(lower, s, front), ops[|ops| - 1], id);
    }
  }

  /** Both indexes only have rows of messages that are there and not deleted. */
  ghost predicate IndexesOnlyLive(s: Store) {
    && RowsAgree(s)
    && (forall r :: r in s.fts ==> IsLive(s, r.message))
    && (forall r :: r in s.fuzzy ==> IsLive(s, r.message))
  }

  /** After every run, also of calls that fail and of edits of messages without a body. */
  lemma RunIndexesOnlyLive(lower: Lowercase, conversations: map<Id, Conversation>, ops: seq<Op>)
    ensures IndexesOnlyLive(Run(lower, EmptyStore(conversations), ops))
  {
    var s := Run(lower, EmptyStore(conversations), ops);
    RunIsAccounted(lower, conversations, ops, []);
    forall r | r in s.fts
      ensures IsLive(s, r.message)
    {
      RunIsAccounted(lower, conversations, ops, r.message);
      FtsMembers(s.fts, r);
    }
    forall r | r in s.fuzzy
      ensures IsLive(s, r.message)
    {
      RunIsAccounted(lower, conversations, ops, r.message);
      assert r in FuzzyOf(s.fuzzy, r.message);
    }
  }

  /** A delete goes through exactly when the message is there, still local, and storage works. */
  lemma DeleteSucceedsIff(s: Store, id: Id, scope: DeleteScope, now: i64, fault: nat)
    ensures DeleteStep(s, id, scope, now, fault).1 == Ok <==>
              && id in s.skeletons
              && s.skeletons[id].bodyState == LocalPlainAvailable
              && fault >= DeleteStatements(s, id, scope)
  {
  }

  ghost predicate IsOffloaded(s: Store, id: Id) {
    id in s.skeletons && s.skeletons[id].bodyState == RemoteArchiveOnly
  }

  lemma StepKeepsOffloaded(lower: Lowercase, s: Store, op: Op, id: Id)
    requires RowsAgree(s) && IsOffloaded(s, id)
    ensures IsOffloaded(Step(lower, s, op).0, id)
    ensures id in s.bodies ==> id in Step(lower, s, op).0.bodies && Step(lower, s, op).0.bodies[id] == s.bodies[id]
  {
    CallRow(lower, s, op, id);
  }

  /**
   Once the budget enforcer has offloaded a message, no run of these calls edits it, deletes
   it or brings it back, and its text stays in the body table.
   */
  lemma {:induction false} OffloadedStaysOffloaded(lower: Lowercase, s: Store, ops: seq<Op>, id: Id)
    requires RowsAgree(s) && IsOffloaded(s, id)
    ensures IsOffloaded(Run(lower, s, ops), id)
    ensures id in s.bodies ==> id in Run(lower, s, ops).bodies && Run(lower, s, ops).bodies[id] == s.bodies[id]
    ensures forall scope, now, fault :: DeleteStep(Run(lower, s, ops), id, scope, now, fault).1 == IllegalTransition
    ensures forall text, now, fault :: EditStep(lower, Run(lower, s, ops), id, text, now, fault).1 == InvalidMessage
    decreases |ops|
  {
    if ops != [] {
      var front := ops[..|ops| - 1];
      OffloadedStaysOffloaded(lower, s, front, id);
      RunKeepsRowsAgree(lower, s, front);
      StepKeepsOffloaded(lower, Run(lower, s, front), ops[|ops| - 1], id);
    }
  }

  lemma RunSnoc(lower: Lowercase, s: Store, ops: seq<Op>, op: Op)
    ensures Run(lower, s, ops + [op]) == Step(lower, Run(lower, s, ops), op).0
  {
    assert (ops + [op])[..|ops|] == ops;
  }

  lemma RunOfThree(lower: Lowercase, s: Store, a: Op, b: Op, c: Op)
    ensures Run(lower, s, [a, b, c]) == Step(lower, Step(lower, Step(lower, s, a).0, b).0, c).0
  {
    RunSnoc(lower, s, [], a);
    RunSnoc(lower, s, [a], b);
    RunSnoc(lower, s, [a, b], c);
    assert [] + [a] == [a] && [a] + [b] == [a, b] && [a, b] + [c] == [a, b, c];
  }

  /** A message with a text that is archived and then planned for eviction is offloaded. */
  lemma OffloadedIsReachable(lower: Lowercase, m: Message, conversation: Conversation, now: i64)
    requires ValidIngest(m) && m.text.Some?
    ensures var ops := [Ingest(m, now, IngestStatements(m)), VerifyArchive(m.id), Evict([m.id])];
            IsOffloaded(Run(lower, EmptyStore(map[m.conversation := conversation]), ops), m.id)
  {
    var start := EmptyStore(map[m.conversation := conversation]);
    RunOfThree(lower, start, Ingest(m, now, IngestStatements(m)), VerifyArchive(m.id), Evict([m.id]));
    var ingested := AfterIngest(lower, start, m, now);
    assert ingested.skeletons[m.id] == NewSkeleton(m, now) && m.id in ingested.bodies;
    assert Evictable(AfterVerify(ingested, m.id), m.id);
  }
}

/**
 The journal of the store records its skeletons: decoding and folding the events of any run
 rebuilds the header of every message.
 */
module StoreReplay {
  import opened Common
  import opened Journal
  import opened MessageStore
  import opened StateMachines
  import opened StoreInvariants
  import opened Tokenizer

  ghost function HeaderOf(k: Skeleton): Header {
    Header(k.conversation, k.sender, k.createdAt,
           if k.editedAt.Some? then Some(k.editedAt.value) else None,
           if k.deletedAt.None? then None
           else Some((k.deletedAt.value, if k.bodyState == DeletedForMe then ForMe else ForEveryone)))
  }

  ghost function Headers(s: Store): map<Id, Header> {
    map id | id in s.skeletons :: HeaderOf(s.skeletons[id])
  }

  /** The length limit of the encoder, for the identifiers a call brings in. */
  predicate Encodable(op: Op) {
    match op
    case Ingest(m, _, _) => |m.id| <= U32_MAX && |m.conversation| <= U32_MAX && |m.sender| <= U32_MAX
    case SendOutbox(e, _, _) => |e.id| <= U32_MAX && |e.conversation| <= U32_MAX
    case Edit(id, _, _, _) => |id| <= U32_MAX
    case Delete(id, _, _, _) => |id| <= U32_MAX
    case _ => true
  }

  /** The journal after a call replays to the skeletons after it. */
  ghost predicate Replays(s: Store) {
    Replay(s.journal) == Headers(s)
  }

  lemma HeadersAfterWrite(s: Store, s': Store, id: Id, k: Skeleton)
    requires s'.skeletons == s.skeletons[id := k]
    ensures Headers(s') == Headers(s)[id := HeaderOf(k)]
  {
  }

  lemma IngestReplays(lower: Lowercase, s: Store, m: Message, now: i64)
    requires Replays(s) && |m.id| <= U32_MAX && |m.conversation| <= U32_MAX && |m.sender| <= U32_MAX
    ensures Replays(AfterIngest(lower, s, m, now))
  {
    var e := Event(MessageReceived, m.conversation, m.id,
                   EventPayload(m.id, m.conversation, m.sender, m.createdAt), now);
    ReplayCreated(s.journal, e, m.sender, m.createdAt);
    HeadersAfterWrite(s, AfterIngest(lower, s, m, now), m.id, NewSkeleton(m, now));
  }

  lemma OutboxReplays(lower: Lowercase, s: Store, e: OutboxEntry, now: i64)
    requires Replays(s) && |e.id| <= U32_MAX && |e.conversation| <= U32_MAX
    ensures Replays(AfterOutbox(lower, s, e, now))
  {
    if e.text == [] {
      assert Headers(AfterOutbox(lower, s, e, now)) == Headers(s);
    } else {
      var pending := Event(OutboxPending, e.conversation, e.id,
                           EventPayload(e.id, e.conversation, SELF, e.createdAt), now);
      ReplayCreated(s.journal, pending, SELF, e.createdAt);
      HeadersAfterWrite(s, AfterOutbox(lower, s, e, now), e.id, OutboxSkeleton(e));
    }
  }

  lemma EditReplays(lower: Lowercase, s: Store, id: Id, text: string, now: i64)
    requires Replays(s) && id in s.skeletons && |id| <= U32_MAX
    ensures Replays(AfterEdit(lower, s, id, text, now))
  {
    var k := s.skeletons[id];
    assert id in Headers(s);
    ReplayEdited(s.journal, Event(MessageEdited, k.conversation, id, EditPayload(id, now), now), now);
    HeadersAfterWrite(s, AfterEdit(lower, s, id, text, now), id, k.(editedAt := Some(now)));
  }

  lemma DeleteReplays(s: Store, id: Id, scope: DeleteScope, now: i64)
    requires Replays(s) && id in s.skeletons && |id| <= U32_MAX
    ensures Replays(AfterDelete(s, id, scope, now))
  {
    var k := s.skeletons[id];
    var e := Event(MessageDeleted, k.conversation, id, DeletePayload(id, scope), now);
    assert id in Headers(s);
    ReplayDeleted(s.journal, e, scope);
    ReplayIgnores(s.journal + [e], MediaDeletedEvents(k.conversation, id, AssetsOf(s.assets, id), now));
    HeadersAfterWrite(s, AfterDelete(s, id, scope, now), id,
                      k.(deletedAt := Some(now), bodyState := DeletedState(scope)));
  }

  lemma MarkSentReplays(s: Store, id: Id, now: i64, fault: nat)
    requires Replays(s)
    ensures Replays(MarkSentStep(s, id, now, fault).0)
  {
    var (s', outcome) := MarkSentStep(s, id, now, fault);
    assert Headers(s') == Headers(s);
    if outcome == Ok {
      ReplayIgnores(s.journal, [s'.journal[|s.journal|]]);
    }
  }

  lemma EvictReplays(s: Store, ids: seq<Id>)
    requires RowsAgree(s) && Replays(s)
    ensures Replays(AfterEvict(s, ids))
  {
    assert Headers(AfterEvict(s, ids)) == Headers(s);
  }

  lemma VerifyReplays(s: Store, id: Id)
    requires Replays(s)
    ensures Replays(AfterVerify(s, id))
  {
    assert Headers(AfterVerify(s, id)) == Headers(s);
  }

  lemma StepReplays(lower: Lowercase, s: Store, op: Op)
    requires RowsAgree(s) && Replays(s) && Encodable(op)
    ensures Replays(Step(lower, s, op).0)
  {
    match op
    case Ingest(m, now, fault) =>
      if IngestStep(lower, s, m, now, fault).1 == Ok {
        IngestReplays(lower, s, m, now);
      }
    case SendOutbox(e, now, fault) =>
      if OutboxStep(lower, s, e, now, fault).1 == Ok {
        OutboxReplays(lower, s, e, now);
      }
    case Edit(id, text, now, fault) =>
      if EditStep(lower, s, id, text, now, fault).1 == Ok {
        EditReplays(lower, s, id, text, now);
      }
    case Delete(id, scope, now, fault) =>
      if DeleteStep(s, id, scope, now, fault).1 == Ok {
        DeleteReplays(s, id, scope, now);
      }
    case MarkSent(id, now, fault) => MarkSentReplays(s, id, now, fault);
    case VerifyArchive(id) => VerifyReplays(s, id);
    case Evict(ids) => EvictReplays(s, ids);
  }

  lemma {:induction false} RunReplaysFrom(lower: Lowercase, s: Store, ops: seq<Op>)
    requires RowsAgree(s) && Replays(s)
    requires forall op :: op in ops ==> Encodable(op)
    ensures Replays(Run(lower, s, ops))
    decreases |ops|
  {
    if ops != [] {
      var front, last := ops[..|ops| - 1], ops[|ops| - 1];
      RunReplaysFrom(lower, s, front);
      RunKeepsRowsAgree(lower, s, front);
      assert last in ops;
      StepReplays(lower, Run(lower, s, front), last);
    }
  }

  /** From an empty store, the journal of every run replays to its skeletons. */
  lemma JournalRebuildsSkeletons(lower: Lowercase, conversations: map<Id, Conversation>, ops: seq<Op>)
    requires forall op :: op in ops ==> Encodable(op)
    ensures Replay(Run(lower, EmptyStore(conversations), ops).journal) ==
            Headers(Run(lower, EmptyStore(conversations), ops))
  {
    RunReplaysFrom(lower, EmptyStore(conversations), ops);
  }
}

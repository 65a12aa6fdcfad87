/** What a call does to the row and the body of a message that is already there. */
module StoreRows {
  import opened Common
  import opened Journal
  import opened MessageStore
  import opened StateMachines
  import opened Tokenizer

  /** The message that a call indexes anew or takes out of the index. */
  function Target(op: Op): Option<Id> {
    match op
    case Ingest(m, _, _) => Some(m.id)
    case SendOutbox(e, _, _) => if e.text == [] then None else Some(e.id)
    case Edit(id, _, _, _) => Some(id)
    case Delete(id, _, _, _) => Some(id)
    case _ => None
  }

  predicate EditGoesThrough(k: Skeleton, text: string, fault: nat) {
    text != [] && k.bodyState == LocalPlainAvailable && fault >= EDIT_STATEMENTS
  }

  predicate DeleteGoesThrough(s: Store, id: Id, scope: DeleteScope, fault: nat)
    requires id in s.skeletons
  {
    IsEdge(s.skeletons[id].bodyState, DeletedState(scope)) && fault >= DeleteStatements(s, id, scope)
  }

  function RowAfter(s: Store, op: Op, id: Id): Skeleton
    requires id in s.skeletons
  {
    var k := s.skeletons[id];
    match op
    case Edit(x, text, now, fault) =>
      if x == id && EditGoesThrough(k, text, fault) then k.(editedAt := Some(now)) else k
    case Delete(x, scope, now, fault) =>
      if x == id && DeleteGoesThrough(s, id, scope, fault) then
        k.(deletedAt := Some(now), bodyState := DeletedState(scope))
      else k
    case VerifyArchive(x) => if x == id then k.(archiveState := ArchiveVerified) else k
    case Evict(ids) => if id in ids && Evictable(s, id) then k.(bodyState := RemoteArchiveOnly) else k
    case _ => k
  }

  function BodyOf(s: Store, id: Id): Option<string> {
    if id in s.bodies then Some(s.bodies[id]) else None
  }

  function BodyAfter(s: Store, op: Op, id: Id): Option<string>
    requires id in s.skeletons
  {
    match op
    case Edit(x, text, now, fault) =>
      if x == id && EditGoesThrough(s.skeletons[id], text, fault) && id in s.bodies then Some(text) else BodyOf(s, id)
    case Delete(x, scope, now, fault) =>
      if x == id && scope == ForEveryone && DeleteGoesThrough(s, id, scope, fault) then None else BodyOf(s, id)
    case _ => BodyOf(s, id)
  }

  /** The row, or `None`, and the body of a message. */
  ghost predicate Goes(s: Store, s': Store, op: Op, id: Id)
    requires id in s.skeletons
  {
    id in s'.skeletons && s'.skeletons[id] == RowAfter(s, op, id) && BodyOf(s', id) == BodyAfter(s, op, id)
  }

  lemma IngestRow(lower: Lowercase, s: Store, m: Message, now: i64, fault: nat, id: Id)
    requires id in s.skeletons
    ensures Goes(s, IngestStep(lower, s, m, now, fault).0, Ingest(m, now, fault), id)
  {
  }

  lemma OutboxRow(lower: Lowercase, s: Store, e: OutboxEntry, now: i64, fault: nat, id: Id)
    requires id in s.skeletons
    ensures Goes(s, OutboxStep(lower, s, e, now, fault).0, SendOutbox(e, now, fault), id)
  {
  }

  lemma EditRow(lower: Lowercase, s: Store, x: Id, text: string, now: i64, fault: nat, id: Id)
    requires id in s.skeletons
    ensures Goes(s, EditStep(lower, s, x, text, now, fault).0, Edit(x, text, now, fault), id)
  {
  }

  lemma DeleteRow(s: Store, x: Id, scope: DeleteScope, now: i64, fault: nat, id: Id)
    requires id in s.skeletons
    ensures Goes(s, DeleteStep(s, x, scope, now, fault).0, Delete(x, scope, now, fault), id)
  {
  }

  lemma EvictRow(s: Store, ids: seq<Id>, id: Id)
    requires id in s.skeletons
    ensures Goes(s, AfterEvict(s, ids), Evict(ids), id)
  {
  }

  /** A call changes the row and the body of a message only so. */
  lemma CallRow(lower: Lowercase, s: Store, op: Op, id: Id)
    requires id in s.skeletons
    ensures Goes(s, Step(lower, s, op).0, op, id)
  {
    match op
    case Ingest(m, now, fault) => IngestRow(lower, s, m, now, fault, id);
    case SendOutbox(e, now, fault) => OutboxRow(lower, s, e, now, fault, id);
    case Edit(x, text, now, fault) => EditRow(lower, s, x, text, now, fault, id);
    case Delete(x, scope, now, fault) => DeleteRow(s, x, scope, now, fault, id);
    case Evict(ids) => EvictRow(s, ids, id);
    case MarkSent(_, _, _) =>
    case VerifyArchive(_) =>
  }
}

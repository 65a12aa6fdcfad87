/**
 The local store as a value, and the effect on it of every `MessagePersister` call.

 Tables with a primary key are maps, sets or lists without repeats; the full-text table has
 no key and is a list.  `Step` is what one call does, `Run` what a list of calls does.  The
 class `LocalStore.Db` performs the same calls on mutable tables and is proved against
 `Step`.

 A call is given the reading of the clock and the number of the first SQL statement that
 fails in it; a number past the last statement means that none does.
 */
module MessageStore {
  import opened Common
  import opened Journal
  import opened StateMachines
  import opened Tokenizer

  type Id = Bytes

  datatype Kind = Text | Media

  datatype Skeleton = Skeleton(
    conversation: Id,
    sender: Id,
    createdAt: i64,
    receivedAt: i64,
    kind: Kind,
    bodyState: BodyState,
    mediaState: Option<MediaState>,
    archiveState: ArchiveState,
    backupState: BackupState,
    replyTo: Option<Id>,
    editedAt: Option<i64>,
    deletedAt: Option<i64>)

  datatype Conversation = Conversation(lastMessage: Option<Id>, lastActivity: i64)

  datatype FtsRow = FtsRow(message: Id, conversation: Id, sender: Id, createdAt: i64, text: string)

  datatype FuzzyRow = FuzzyRow(gram: string, script: Script, message: Id)

  datatype Asset = Asset(asset: Id, message: Id)

  datatype OutboxRow = OutboxRow(
    conversation: Id, text: Option<string>, mediaAsset: Option<Id>, createdAt: i64, sentAt: Option<i64>)

  datatype Store = Store(
    conversations: map<Id, Conversation>,
    skeletons: map<Id, Skeleton>,
    bodies: map<Id, string>,
    fts: seq<FtsRow>,
    fuzzy: set<FuzzyRow>,
    assets: seq<Asset>,
    outbox: map<Id, OutboxRow>,
    journal: seq<Event>)

  // ---------------------------------------------------------------------------
  // Calls
  // ---------------------------------------------------------------------------

  datatype Message = Message(
    id: Id,
    conversation: Id,
    sender: Id,
    createdAt: i64,
    text: Option<string>,
    media: seq<Id>,
    replyTo: Option<Id>)

  datatype OutboxEntry = OutboxEntry(
    id: Id, conversation: Id, text: string, mediaAsset: Option<Id>, replyTo: Option<Id>, createdAt: i64)

  datatype Outcome = Ok | InvalidMessage | DuplicateMessage | StorageFailure | IllegalTransition

  /** The sender of client-originated messages. */
  const SELF: Id := Ascii("self")

  predicate ValidIngest(m: Message) {
    && m.id != []
    && m.conversation != []
    && m.sender != []
    && m.createdAt > 0
    && (m.text.Some? || m.media != [])
    && m.text != Some([])
  }

  predicate ValidOutbox(e: OutboxEntry) {
    e.text != [] || e.mediaAsset.Some?
  }

  // ---------------------------------------------------------------------------
  // Rows
  // ---------------------------------------------------------------------------

  function FtsWithout(rows: seq<FtsRow>, id: Id): seq<FtsRow> {
    if rows == [] then []
    else
      var front, last := rows[..|rows| - 1], rows[|rows| - 1];
      if last.message == id then FtsWithout(front, id) else FtsWithout(front, id) + [last]
  }

  function FuzzyWithout(rows: set<FuzzyRow>, id: Id): set<FuzzyRow> {
    set r | r in rows && r.message != id
  }

  function AssetsWithout(rows: seq<Asset>, asset: Id): seq<Asset> {
    if rows == [] then []
    else
      var front, last := rows[..|rows| - 1], rows[|rows| - 1];
      if last.asset == asset then AssetsWithout(front, asset) else AssetsWithout(front, asset) + [last]
  }

  /** The assets of a message, in table order. */
  function AssetsOf(rows: seq<Asset>, id: Id): seq<Id> {
    if rows == [] then []
    else
      var front, last := rows[..|rows| - 1], rows[|rows| - 1];
      if last.message == id then AssetsOf(front, id) + [last.asset] else AssetsOf(front, id)
  }

  /** `INSERT OR REPLACE` of one asset row after the other. */
  function AddAssets(rows: seq<Asset>, media: seq<Id>, id: Id): seq<Asset> {
    if media == [] then rows
    else
      var last := media[|media| - 1];
      AssetsWithout(AddAssets(rows, media[..|media| - 1], id), last) + [Asset(last, id)]
  }

  function RowsOfGrams(grams: seq<string>, script: Script, id: Id): set<FuzzyRow> {
    set g | g in grams :: FuzzyRow(g, script, id)
  }

  function RowsOfTokens(lower: Lowercase, tokens: seq<Token>, id: Id): (rows: set<FuzzyRow>)
    ensures forall r :: r in rows ==> r.message == id
  {
    if tokens == [] then {}
    else
      var front, last := tokens[..|tokens| - 1], tokens[|tokens| - 1];
      RowsOfTokens(lower, front, id) + RowsOfGrams(Grams(lower, last), last.script, id)
  }

  lemma {:induction false} RowsOfTokensMembers(lower: Lowercase, tokens: seq<Token>, id: Id, r: FuzzyRow)
    ensures r in RowsOfTokens(lower, tokens, id) <==>
              r.message == id && exists t :: t in tokens && t.script == r.script && r.gram in Grams(lower, t)
    decreases |tokens|
  {
    if tokens != [] {
      var front, last := tokens[..|tokens| - 1], tokens[|tokens| - 1];
      RowsOfTokensMembers(lower, front, id, r);
      assert forall t :: t in tokens <==> t in front || t == last;
    }
  }

  /** The fuzzy rows of a text: the grams of all its tokens. */
  function FuzzyRows(lower: Lowercase, text: string, id: Id): set<FuzzyRow> {
    RowsOfTokens(lower, Tokens(text), id)
  }

  function MediaDeletedEvents(conversation: Id, id: Id, assets: seq<Id>, now: i64): seq<Event> {
    seq(|assets|, i requires 0 <= i < |assets| =>
      Event(EventKind.MediaDeleted, conversation, id, MediaDeletePayload(assets[i], id), now))
  }

  function NewSkeleton(m: Message, now: i64): Skeleton {
    Skeleton(m.conversation, m.sender, m.createdAt, now,
             if m.media != [] then Media else Text,
             LocalPlainAvailable,
             if m.media != [] then Some(ThumbnailOnly) else None,
             NotArchived, NotBackedUp, m.replyTo, None, None)
  }

  function OutboxSkeleton(e: OutboxEntry): Skeleton {
    Skeleton(e.conversation, SELF, e.createdAt, e.createdAt, Text, LocalPlainAvailable, None,
             NotArchived, NotBackedUp, e.replyTo, None, None)
  }

  function Bump(conversations: map<Id, Conversation>, conversation: Id, id: Id, at: i64): map<Id, Conversation> {
    if conversation in conversations then conversations[conversation := Conversation(Some(id), at)] else conversations
  }

  // ---------------------------------------------------------------------------
  // One call
  // ---------------------------------------------------------------------------

  datatype Op =
    | Ingest(m: Message, now: i64, fault: nat)
    | SendOutbox(e: OutboxEntry, now: i64, fault: nat)
    | MarkSent(id: Id, now: i64, fault: nat)
    | Edit(id: Id, text: string, now: i64, fault: nat)
    | Delete(id: Id, scope: DeleteScope, now: i64, fault: nat)
    | VerifyArchive(id: Id)
    | Evict(ids: seq<Id>)

  function IngestStatements(m: Message): nat {
    2 + |m.media| + (if m.text.Some? then 2 else 0)
  }

  function AfterIngest(lower: Lowercase, s: Store, m: Message, now: i64): Store {
    var created := Event(MessageReceived, m.conversation, m.id,
                         EventPayload(m.id, m.conversation, m.sender, m.createdAt), now);
    s.(conversations := Bump(s.conversations, m.conversation, m.id, m.createdAt),
       skeletons := s.skeletons[m.id := NewSkeleton(m, now)],
       bodies := if m.text.Some? then s.bodies[m.id := m.text.value] else s.bodies,
       fts := if m.text.Some?
              then s.fts + [FtsRow(m.id, m.conversation, m.sender, m.createdAt, m.text.value)] else s.fts,
       fuzzy := if m.text.Some? then s.fuzzy + FuzzyRows(lower, m.text.value, m.id) else s.fuzzy,
       assets := AddAssets(s.assets, m.media, m.id),
       journal := s.journal + [created])
  }

  function IngestStep(lower: Lowercase, s: Store, m: Message, now: i64, fault: nat): (Store, Outcome) {
    if !ValidIngest(m) then (s, InvalidMessage)
    else if m.id in s.skeletons then (s, DuplicateMessage)
    else if m.conversation !in s.conversations || fault < IngestStatements(m) then (s, StorageFailure)
    else (AfterIngest(lower, s, m, now), Ok)
  }

  function OutboxStatements(e: OutboxEntry): nat {
    if e.text == [] then 1 else 5
  }

  function AfterOutbox(lower: Lowercase, s: Store, e: OutboxEntry, now: i64): Store {
    var row := OutboxRow(e.conversation, if e.text == [] then None else Some(e.text), e.mediaAsset, e.createdAt, None);
    var s' := s.(outbox := s.outbox[e.id := row]);
    if e.text == [] then s'
    else
      var pending := Event(OutboxPending, e.conversation, e.id,
                           EventPayload(e.id, e.conversation, SELF, e.createdAt), now);
      s'.(conversations := Bump(s.conversations, e.conversation, e.id, e.createdAt),
          skeletons := s.skeletons[e.id := OutboxSkeleton(e)],
          bodies := s.bodies[e.id := e.text],
          fts := s.fts + [FtsRow(e.id, e.conversation, SELF, e.createdAt, e.text)],
          fuzzy := s.fuzzy + FuzzyRows(lower, e.text, e.id),
          journal := s.journal + [pending])
  }

  function OutboxStep(lower: Lowercase, s: Store, e: OutboxEntry, now: i64, fault: nat): (Store, Outcome) {
    if !ValidOutbox(e) then (s, InvalidMessage)
    else if e.id in s.skeletons then (s, DuplicateMessage)
    else if fault < OutboxStatements(e) || (e.text != [] && e.conversation !in s.conversations) then (s, StorageFailure)
    else (AfterOutbox(lower, s, e, now), Ok)
  }

  /** Two statements and no savepoint. */
  function MarkSentStep(s: Store, id: Id, now: i64, fault: nat): (Store, Outcome) {
    if id !in s.skeletons then (s, InvalidMessage)
    else if fault == 0 then (s, StorageFailure)
    else
      var k := s.skeletons[id];
      var s' := s.(outbox := if id in s.outbox then s.outbox[id := s.outbox[id].(sentAt := Some(now))] else s.outbox);
      if fault == 1 then (s', StorageFailure)
      else
        (s'.(journal := s.journal + [Event(OutboxSent, k.conversation, id,
                                           EventPayload(id, k.conversation, k.sender, k.createdAt), now)]), Ok)
  }

  const EDIT_STATEMENTS: nat := 6

  function AfterEdit(lower: Lowercase, s: Store, id: Id, text: string, now: i64): Store
    requires id in s.skeletons
  {
    var k := s.skeletons[id];
    s.(skeletons := s.skeletons[id := k.(editedAt := Some(now))],
       bodies := if id in s.bodies then s.bodies[id := text] else s.bodies,
       fts := FtsWithout(s.fts, id) + [FtsRow(id, k.conversation, k.sender, k.createdAt, text)],
       fuzzy := FuzzyWithout(s.fuzzy, id) + FuzzyRows(lower, text, id),
       journal := s.journal + [Event(MessageEdited, k.conversation, id, EditPayload(id, now), now)])
  }

  function EditStep(lower: Lowercase, s: Store, id: Id, text: string, now: i64, fault: nat): (Store, Outcome) {
    if text == [] || id !in s.skeletons || s.skeletons[id].bodyState != LocalPlainAvailable then (s, InvalidMessage)
    else if fault < EDIT_STATEMENTS then (s, StorageFailure)
    else (AfterEdit(lower, s, id, text, now), Ok)
  }

  function DeletedState(scope: DeleteScope): BodyState {
    if scope == ForMe then DeletedForMe else DeletedForEveryone
  }

  /** Five or six statements, and one for each asset of the message. */
  function DeleteStatements(s: Store, id: Id, scope: DeleteScope): nat {
    5 + (if scope == ForEveryone then 1 else 0) + |AssetsOf(s.assets, id)|
  }

  function AfterDelete(s: Store, id: Id, scope: DeleteScope, now: i64): Store
    requires id in s.skeletons
  {
    var k := s.skeletons[id];
    s.(skeletons := s.skeletons[id := k.(deletedAt := Some(now), bodyState := DeletedState(scope))],
       bodies := if scope == ForEveryone then s.bodies - {id} else s.bodies,
       fts := FtsWithout(s.fts, id),
       fuzzy := FuzzyWithout(s.fuzzy, id),
       journal := s.journal + [Event(MessageDeleted, k.conversation, id, DeletePayload(id, scope), now)]
                  + MediaDeletedEvents(k.conversation, id, AssetsOf(s.assets, id), now))
  }

  function DeleteStep(s: Store, id: Id, scope: DeleteScope, now: i64, fault: nat): (Store, Outcome) {
    if id !in s.skeletons then (s, InvalidMessage)
    else if TryTransition(s.skeletons[id].bodyState, DeletedState(scope)).None? then (s, IllegalTransition)
    else if fault < DeleteStatements(s, id, scope) then (s, StorageFailure)
    else (AfterDelete(s, id, scope, now), Ok)
  }

  /** The rows `fetch_evictable_bodies` may return. */
  predicate Evictable(s: Store, id: Id) {
    && id in s.bodies
    && id in s.skeletons
    && s.skeletons[id].archiveState == ArchiveVerified
    && s.skeletons[id].deletedAt.None?
  }

  /** `update_body_state` for every evictable id of the plan. */
  function AfterEvict(s: Store, ids: seq<Id>): Store {
    s.(skeletons := map id | id in s.skeletons ::
         if id in ids && Evictable(s, id) then s.skeletons[id].(bodyState := RemoteArchiveOnly) else s.skeletons[id])
  }

  /** The archive pipeline has verified the segment that holds the message. */
  function AfterVerify(s: Store, id: Id): Store {
    if id !in s.skeletons then s
    else s.(skeletons := s.skeletons[id := s.skeletons[id].(archiveState := ArchiveVerified)])
  }

  function Step(lower: Lowercase, s: Store, op: Op): (Store, Outcome) {
    match op
    case Ingest(m, now, fault) => IngestStep(lower, s, m, now, fault)
    case SendOutbox(e, now, fault) => OutboxStep(lower, s, e, now, fault)
    case MarkSent(id, now, fault) => MarkSentStep(s, id, now, fault)
    case Edit(id, text, now, fault) => EditStep(lower, s, id, text, now, fault)
    case Delete(id, scope, now, fault) => DeleteStep(s, id, scope, now, fault)
    case VerifyArchive(id) => (AfterVerify(s, id), Ok)
    case Evict(ids) => (AfterEvict(s, ids), Ok)
  }

  function Run(lower: Lowercase, s: Store, ops: seq<Op>): Store {
    if ops == [] then s else Step(lower, Run(lower, s, ops[..|ops| - 1]), ops[|ops| - 1]).0
  }

  function EmptyStore(conversations: map<Id, Conversation>): Store {
    Store(conversations, map[], map[], [], {}, [], map[], [])
  }
}

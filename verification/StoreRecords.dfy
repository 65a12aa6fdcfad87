/**
 What calls leave behind: the rows they create, the events they record, the owners of assets,
 the outbox and the last activity of conversations, call by call and over runs.
 */
module StoreRecords {
  import opened Common
  import opened Journal
  import opened MessageStore
  import opened StateMachines
  import opened StoreInvariants
  import opened StoreRows
  import opened Tokenizer

  predicate GoesOk(lower: Lowercase, s: Store, op: Op) {
    Step(lower, s, op).1 == Ok
  }

  // ---------------------------------------------------------------------------
  // Rows that calls create
  // ---------------------------------------------------------------------------

  /** The row with which a message enters the store. */
  function BornAs(op: Op): Option<(Id, Skeleton)> {
    match op
    case Ingest(m, now, _) =>
      Some((m.id, Skeleton(
        conversation := m.conversation, sender := m.sender, createdAt := m.createdAt, receivedAt := now,
        kind := if m.media == [] then Text else Media,
        bodyState := LocalPlainAvailable,
        mediaState := if m.media == [] then None else Some(ThumbnailOnly),
        archiveState := NotArchived, backupState := NotBackedUp,
        replyTo := m.replyTo, editedAt := None, deletedAt := None)))
    case SendOutbox(e, _, _) =>
      if e.text == [] then None
      else
        Some((e.id, Skeleton(
          conversation := e.conversation, sender := SELF, createdAt := e.createdAt, receivedAt := e.createdAt,
          kind := Text, bodyState := LocalPlainAvailable, mediaState := None,
          archiveState := NotArchived, backupState := NotBackedUp,
          replyTo := e.replyTo, editedAt := None, deletedAt := None)))
    case _ => None
  }

  function BornWith(op: Op): Option<string> {
    match op
    case Ingest(m, _, _) => m.text
    case SendOutbox(e, _, _) => if e.text == [] then None else Some(e.text)
    case _ => None
  }

  predicate Creates(lower: Lowercase, s: Store, op: Op, id: Id) {
    GoesOk(lower, s, op) && BornAs(op).Some? && BornAs(op).value.0 == id
  }

  /** A call that creates a message gives it that row and that text, and only such a call makes a message appear. */
  lemma CallCreates(lower: Lowercase, s: Store, op: Op, id: Id)
    requires RowsAgree(s)
    ensures var s' := Step(lower, s, op).0;
            && (Creates(lower, s, op, id) ==>
                  && id !in s.skeletons && id in s'.skeletons
                  && s'.skeletons[id] == BornAs(op).value.1 && BodyOf(s', id) == BornWith(op))
            && (id in s'.skeletons <==> id in s.skeletons || Creates(lower, s, op, id))
  {
    if id in s.skeletons {
      CallRow(lower, s, op, id);
    }
  }

  /** The fields of a row that no call changes. */
  predicate SameBirth(a: Skeleton, b: Skeleton) {
    && a.conversation == b.conversation && a.sender == b.sender
    && a.createdAt == b.createdAt && a.receivedAt == b.receivedAt
    && a.kind == b.kind && a.mediaState == b.mediaState && a.replyTo == b.replyTo
  }

  /** The row with which the message entered the store in a run. */
  function Birth(lower: Lowercase, s: Store, ops: seq<Op>, id: Id): Option<Skeleton> {
    if ops == [] then None
    else
      var front, op := ops[..|ops| - 1], ops[|ops| - 1];
      if Creates(lower, Run(lower, s, front), op, id) then Some(BornAs(op).value.1) else Birth(lower, s, front, id)
  }

  /** After any run the messages are those that some call has created, with the fields it gave them. */
  lemma {:induction false} RowsAreBorn(lower: Lowercase, conversations: map<Id, Conversation>, ops: seq<Op>, id: Id)
    ensures var s := Run(lower, EmptyStore(conversations), ops);
            var birth := Birth(lower, EmptyStore(conversations), ops, id);
            && RowsAgree(s)
            && (id in s.skeletons <==> birth.Some?)
            && (id in s.skeletons && birth.Some? ==> SameBirth(s.skeletons[id], birth.value))
    decreases |ops|
  {
    if ops != [] {
      var s := Run(lower, EmptyStore(conversations), ops[..|ops| - 1]);
      RowsAreBorn(lower, conversations, ops[..|ops| - 1], id);
      StepKeepsRowsAgree(lower, s, ops[|ops| - 1]);
      CallCreates(lower, s, ops[|ops| - 1], id);
      if id in s.skeletons {
        CallRow(lower, s, ops[|ops| - 1], id);
      }
    }
  }

  // ---------------------------------------------------------------------------
  // Assets
  // ---------------------------------------------------------------------------

  ghost predicate OneRowEach(rows: seq<Asset>) {
    forall i, j :: 0 <= i < j < |rows| ==> rows[i].asset != rows[j].asset
  }

  /** The asset has a row, and it is of the message. */
  predicate Owns(rows: seq<Asset>, asset: Id, id: Id) {
    Asset(asset, id) in rows
  }

  lemma {:induction false} WithoutAsset(rows: seq<Asset>, asset: Id)
    requires OneRowEach(rows)
    ensures OneRowEach(AssetsWithout(rows, asset))
    ensures forall a :: a in AssetsWithout(rows, asset) <==> a in rows && a.asset != asset
    decreases |rows|
  {
    if rows != [] {
      var front, last := rows[..|rows| - 1], rows[|rows| - 1];
      WithoutAsset(front, asset);
      assert rows == front + [last];
      assert forall a :: a in front ==> a.asset != last.asset;
    }
  }

  /** The descriptors of a message become its own, whoever had them before; no asset has two rows. */
  lemma {:induction false} AddedAssets(rows: seq<Asset>, media: seq<Id>, id: Id)
    requires OneRowEach(rows)
    ensures OneRowEach(AddAssets(rows, media, id))
    ensures forall a :: a in AddAssets(rows, media, id) <==> if a.asset in media then a.message == id else a in rows
    decreases |media|
  {
    if media != [] {
      var front, last := media[..|media| - 1], media[|media| - 1];
      AddedAssets(rows, front, id);
      WithoutAsset(AddAssets(rows, front, id), last);
      assert media == front + [last];
    }
  }

  /** The last message that was ingested with the asset. */
  function Owner(lower: Lowercase, s: Store, ops: seq<Op>, asset: Id): Option<Id> {
    if ops == [] then None
    else
      var front, op := ops[..|ops| - 1], ops[|ops| - 1];
      if op.Ingest? && asset in op.m.media && GoesOk(lower, Run(lower, s, front), op) then Some(op.m.id)
      else Owner(lower, s, front, asset)
  }

  lemma CallKeepsAssets(lower: Lowercase, s: Store, op: Op)
    requires OneRowEach(s.assets)
    ensures var rows := Step(lower, s, op).0.assets;
            && OneRowEach(rows)
            && (forall a :: a in rows <==>
                  if op.Ingest? && a.asset in op.m.media && GoesOk(lower, s, op) then a.message == op.m.id
                  else a in s.assets)
  {
    if op.Ingest? {
      AddedAssets(s.assets, op.m.media, op.m.id);
    }
  }

  /** After any run every asset has at most one row, and that is of the last message that was ingested with it. */
  lemma {:induction false} AssetsAreOwned(
    lower: Lowercase, conversations: map<Id, Conversation>, ops: seq<Op>, asset: Id, id: Id)
    ensures var s := Run(lower, EmptyStore(conversations), ops);
            && OneRowEach(s.assets)
            && (Owns(s.assets, asset, id) <==> Owner(lower, EmptyStore(conversations), ops, asset) == Some(id))
    decreases |ops|
  {
    if ops != [] {
      AssetsAreOwned(lower, conversations, ops[..|ops| - 1], asset, id);
      CallKeepsAssets(lower, Run(lower, EmptyStore(conversations), ops[..|ops| - 1]), ops[|ops| - 1]);
    }
  }

  // ---------------------------------------------------------------------------
  // Events
  // ---------------------------------------------------------------------------

  ghost function OfMessage(id: Id): Asset -> bool {
    (a: Asset) => a.message == id
  }

  /** The rows of a message, and where they are in the table. */
  lemma {:induction false} AssetsOfSelects(rows: seq<Asset>, id: Id) returns (idx: seq<nat>, mine: seq<Asset>)
    ensures IsSelection(rows, OfMessage(id), idx, mine)
    ensures |AssetsOf(rows, id)| == |mine| && forall k :: 0 <= k < |mine| ==> AssetsOf(rows, id)[k] == mine[k].asset
    decreases |rows|
  {
    if rows == [] {
      idx, mine := [], [];
    } else {
      var front, last := rows[..|rows| - 1], rows[|rows| - 1];
      idx, mine := AssetsOfSelects(front, id);
      SelectionSnoc(front, OfMessage(id), idx, mine, last);
      assert rows == front + [last];
      if last.message == id {
        idx, mine := idx + [|front|], mine + [last];
      }
    }
  }

  predicate RecordsAsset(e: Event, a: Asset) {
    && e.kind == EventKind.MediaDeleted
    && DecodeTextPair(ASSET_ID, MESSAGE_ID, e.payload) == Some((a.asset, a.message))
  }

  /** The events record the deletion of exactly the asset rows of the message, in table order. */
  ghost predicate RecordMedia(events: seq<Event>, rows: seq<Asset>, id: Id) {
    exists idx, mine :: IsSelection(rows, OfMessage(id), idx, mine) && RecordEach(events, mine)
  }

  ghost predicate RecordEach(events: seq<Event>, mine: seq<Asset>) {
    |events| == |mine| && forall k :: 0 <= k < |mine| ==> RecordsAsset(events[k], mine[k])
  }

  /** What identifiers the encoder can take. */
  ghost predicate Encodable(s: Store, op: Op) {
    && (forall id :: id in s.skeletons ==>
          |id| <= U32_MAX && |s.skeletons[id].conversation| <= U32_MAX && |s.skeletons[id].sender| <= U32_MAX)
    && (forall a :: a in s.assets ==> |a.asset| <= U32_MAX)
    && match op
       case Ingest(m, _, _) => |m.id| <= U32_MAX && |m.conversation| <= U32_MAX && |m.sender| <= U32_MAX
       case SendOutbox(e, _, _) => |e.id| <= U32_MAX && |e.conversation| <= U32_MAX
       case _ => true
  }

  /** The events of a call. */
  ghost predicate Records(s: Store, op: Op, events: seq<Event>) {
    match op
    case Ingest(m, now, _) =>
      && |events| == 1 && events[0].kind == MessageReceived
      && DecodeEventPayload(events[0].payload) == Some(Created(m.id, m.conversation, m.sender, m.createdAt))
    case SendOutbox(e, now, _) =>
      if e.text == [] then events == []
      else
        && |events| == 1 && events[0].kind == OutboxPending
        && DecodeEventPayload(events[0].payload) == Some(Created(e.id, e.conversation, SELF, e.createdAt))
    case MarkSent(id, now, _) =>
      && id in s.skeletons && |events| == 1 && events[0].kind == OutboxSent
      && var k := s.skeletons[id];
         DecodeEventPayload(events[0].payload) == Some(Created(id, k.conversation, k.sender, k.createdAt))
    case Edit(id, _, now, _) =>
      && |events| == 1 && events[0].kind == MessageEdited
      && DecodeEditPayload(events[0].payload) == Some((id, now))
    case Delete(id, scope, now, _) =>
      && |events| > 0 && events[0].kind == MessageDeleted
      && DecodeDeletePayload(events[0].payload) == Some((id, scope))
      && RecordMedia(events[1..], s.assets, id)
    case _ => events == []
  }

  /** Every event carries the message of the call, its conversation and the time of the call. */
  ghost predicate Stamped(s: Store, op: Op, events: seq<Event>) {
    forall e :: e in events ==>
      match op
      case Ingest(m, now, _) => e.message == m.id && e.conversation == m.conversation && e.createdAt == now
      case SendOutbox(o, now, _) => e.message == o.id && e.conversation == o.conversation && e.createdAt == now
      case MarkSent(id, now, _) =>
        id in s.skeletons && e.message == id && e.conversation == s.skeletons[id].conversation && e.createdAt == now
      case Edit(id, _, now, _) =>
        id in s.skeletons && e.message == id && e.conversation == s.skeletons[id].conversation && e.createdAt == now
      case Delete(id, _, now, _) =>
        id in s.skeletons && e.message == id && e.conversation == s.skeletons[id].conversation && e.createdAt == now
      case _ => false
  }

  lemma MediaEventsRecord(rows: seq<Asset>, id: Id, conversation: Id, now: i64)
    requires |id| <= U32_MAX && forall a :: a in rows ==> |a.asset| <= U32_MAX
    ensures RecordMedia(MediaDeletedEvents(conversation, id, AssetsOf(rows, id), now), rows, id)
  {
    var idx, mine := AssetsOfSelects(rows, id);
    var events := MediaDeletedEvents(conversation, id, AssetsOf(rows, id), now);
    forall k | 0 <= k < |mine|
      ensures RecordsAsset(events[k], mine[k])
    {
      assert mine[k] == rows[idx[k]] && rows[idx[k]] in rows;
      MediaDeletePayloadRoundTrip(mine[k].asset, id);
    }
    assert RecordEach(events, mine);
  }

  lemma DeleteEventsRecord(s: Store, id: Id, scope: DeleteScope, now: i64, fault: nat, first: Event, media: seq<Event>)
    requires Encodable(s, Delete(id, scope, now, fault)) && id in s.skeletons
    requires first == Event(MessageDeleted, s.skeletons[id].conversation, id, DeletePayload(id, scope), now)
    requires media == MediaDeletedEvents(s.skeletons[id].conversation, id, AssetsOf(s.assets, id), now)
    ensures Records(s, Delete(id, scope, now, fault), [first] + media)
    ensures Stamped(s, Delete(id, scope, now, fault), [first] + media)
  {
    DeletePayloadRoundTrip(id, scope);
    MediaEventsRecord(s.assets, id, s.skeletons[id].conversation, now);
    assert ([first] + media)[1..] == media;
  }

  lemma NewEvents(journal: seq<Event>, events: seq<Event>)
    ensures (journal + events)[|journal|..] == events
  {
  }

  lemma DeleteRecords(s: Store, id: Id, scope: DeleteScope, now: i64, fault: nat)
    requires DeleteStep(s, id, scope, now, fault).1 == Ok && Encodable(s, Delete(id, scope, now, fault))
    ensures var s' := DeleteStep(s, id, scope, now, fault).0;
            && |s.journal| <= |s'.journal|
            && var op, events := Delete(id, scope, now, fault), s'.journal[|s.journal|..];
               s'.journal == s.journal + events && Records(s, op, events) && Stamped(s, op, events)
  {
    var k := s.skeletons[id];
    var first := Event(MessageDeleted, k.conversation, id, DeletePayload(id, scope), now);
    var media := MediaDeletedEvents(k.conversation, id, AssetsOf(s.assets, id), now);
    DeleteEventsRecord(s, id, scope, now, fault, first, media);
    NewEvents(s.journal, [first] + media);
    DeleteAppends(s, id, scope, now, fault, first, media);
  }

  lemma DeleteAppends(s: Store, id: Id, scope: DeleteScope, now: i64, fault: nat, first: Event, media: seq<Event>)
    requires DeleteStep(s, id, scope, now, fault).1 == Ok
    requires first == Event(MessageDeleted, s.skeletons[id].conversation, id, DeletePayload(id, scope), now)
    requires media == MediaDeletedEvents(s.skeletons[id].conversation, id, AssetsOf(s.assets, id), now)
    ensures DeleteStep(s, id, scope, now, fault).0.journal == s.journal + ([first] + media)
  {
    assert s.journal + [first] + media == s.journal + ([first] + media);
  }

  lemma OneEvent(journal: seq<Event>, e: Event)
    ensures (journal + [e])[|journal|..] == [e] && journal[|journal|..] == []
  {
  }

  /** A call that goes through adds its events to the journal and changes nothing else in it. */
  lemma CallRecords(lower: Lowercase, s: Store, op: Op)
    requires GoesOk(lower, s, op) && Encodable(s, op)
    ensures var s' := Step(lower, s, op).0;
            && |s.journal| <= |s'.journal|
            && var events := s'.journal[|s.journal|..];
               s'.journal == s.journal + events && Records(s, op, events) && Stamped(s, op, events)
  {
    match op
    case Ingest(m, now, fault) => IngestRecords(lower, s, m, now, fault);
    case SendOutbox(e, now, fault) => OutboxRecords(lower, s, e, now, fault);
    case MarkSent(id, now, fault) => MarkSentRecords(s, id, now, fault);
    case Edit(id, text, now, fault) => EditRecords(lower, s, id, text, now, fault);
    case Delete(id, scope, now, fault) => DeleteRecords(s, id, scope, now, fault);
    case VerifyArchive(_) => NewEvents(s.journal, []);
    case Evict(_) => NewEvents(s.journal, []);
  }

  lemma IngestRecords(lower: Lowercase, s: Store, m: Message, now: i64, fault: nat)
    requires IngestStep(lower, s, m, now, fault).1 == Ok && Encodable(s, Ingest(m, now, fault))
    ensures var s' := IngestStep(lower, s, m, now, fault).0;
            && |s.journal| <= |s'.journal|
            && var op, events := Ingest(m, now, fault), s'.journal[|s.journal|..];
               s'.journal == s.journal + events && Records(s, op, events) && Stamped(s, op, events)
  {
    EventPayloadRoundTrip(m.id, m.conversation, m.sender, m.createdAt);
    OneEvent(s.journal, Event(MessageReceived, m.conversation, m.id,
                              EventPayload(m.id, m.conversation, m.sender, m.createdAt), now));
  }

  lemma EditRecords(lower: Lowercase, s: Store, id: Id, text: string, now: i64, fault: nat)
    requires EditStep(lower, s, id, text, now, fault).1 == Ok && Encodable(s, Edit(id, text, now, fault))
    ensures var s' := EditStep(lower, s, id, text, now, fault).0;
            && |s.journal| <= |s'.journal|
            && var op, events := Edit(id, text, now, fault), s'.journal[|s.journal|..];
               s'.journal == s.journal + events && Records(s, op, events) && Stamped(s, op, events)
  {
    EditPayloadRoundTrip(id, now);
    OneEvent(s.journal, Event(MessageEdited, s.skeletons[id].conversation, id, EditPayload(id, now), now));
  }

  lemma OutboxRecords(lower: Lowercase, s: Store, e: OutboxEntry, now: i64, fault: nat)
    requires OutboxStep(lower, s, e, now, fault).1 == Ok && Encodable(s, SendOutbox(e, now, fault))
    ensures var s' := OutboxStep(lower, s, e, now, fault).0;
            && |s.journal| <= |s'.journal|
            && var op, events := SendOutbox(e, now, fault), s'.journal[|s.journal|..];
               s'.journal == s.journal + events && Records(s, op, events) && Stamped(s, op, events)
  {
    ghost var self_size := |SELF|;
    assert self_size == 4;
    if e.text != [] {
      EventPayloadRoundTrip(e.id, e.conversation, SELF, e.createdAt);
      OneEvent(s.journal, Event(OutboxPending, e.conversation, e.id,
                                EventPayload(e.id, e.conversation, SELF, e.createdAt), now));
    }
  }

  lemma MarkSentRecords(s: Store, id: Id, now: i64, fault: nat)
    requires MarkSentStep(s, id, now, fault).1 == Ok && Encodable(s, MarkSent(id, now, fault))
    ensures var s' := MarkSentStep(s, id, now, fault).0;
            && |s.journal| <= |s'.journal|
            && var op, events := MarkSent(id, now, fault), s'.journal[|s.journal|..];
               s'.journal == s.journal + events && Records(s, op, events) && Stamped(s, op, events)
  {
    var k := s.skeletons[id];
    EventPayloadRoundTrip(id, k.conversation, k.sender, k.createdAt);
    OneEvent(s.journal, Event(OutboxSent, k.conversation, id,
                              EventPayload(id, k.conversation, k.sender, k.createdAt), now));
  }

  lemma RecordsOnlyIts(e: Event, a: Asset, b: Asset)
    requires RecordsAsset(e, a)
    ensures RecordsAsset(e, b) <==> a == b
  {
  }

  lemma SelectedOnce(rows: seq<Asset>, idx: seq<nat>, mine: seq<Asset>, id: Id)
    requires OneRowEach(rows) && IsSelection(rows, OfMessage(id), idx, mine)
    ensures forall j, k :: 0 <= j < k < |mine| ==> mine[j] != mine[k]
    ensures forall a :: a in mine <==> a in rows && a.message == id
  {
    forall a | a in rows && a.message == id
      ensures a in mine
    {
      var i :| 0 <= i < |rows| && rows[i] == a;
      assert OfMessage(id)(rows[i]);
      var k :| 0 <= k < |idx| && idx[k] == i;
      assert mine[k] == a;
    }
  }

  lemma RecordedOf(media: seq<Event>, mine: seq<Asset>, a: Asset)
    requires RecordEach(media, mine)
    requires forall j, k :: 0 <= j < k < |mine| ==> mine[j] != mine[k]
    ensures (exists k :: 0 <= k < |media| && RecordsAsset(media[k], a)) <==> a in mine
    ensures forall j, k :: 0 <= j < k < |media| ==> !(RecordsAsset(media[j], a) && RecordsAsset(media[k], a))
  {
    forall k | 0 <= k < |media|
      ensures RecordsAsset(media[k], a) <==> mine[k] == a
    {
      RecordsOnlyIts(media[k], mine[k], a);
    }
  }

  /** Among recorded media an asset occurs exactly if it has a row of the message, and once. */
  lemma RecordedOnce(rows: seq<Asset>, media: seq<Event>, id: Id, asset: Id)
    requires OneRowEach(rows) && RecordMedia(media, rows, id)
    ensures (exists k :: 0 <= k < |media| && RecordsAsset(media[k], Asset(asset, id))) <==> Owns(rows, asset, id)
    ensures forall j, k :: 0 <= j < k < |media| ==>
              !(RecordsAsset(media[j], Asset(asset, id)) && RecordsAsset(media[k], Asset(asset, id)))
  {
    var idx, mine :| IsSelection(rows, OfMessage(id), idx, mine) && RecordEach(media, mine);
    SelectedOnce(rows, idx, mine, id);
    RecordedOf(media, mine, Asset(asset, id));
  }

  /** The events of a delete after the first. */
  function MediaOf(lower: Lowercase, s: Store, op: Op): seq<Event> {
    var after := Step(lower, s, op).0.journal;
    if |s.journal| < |after| then after[|s.journal| + 1..] else []
  }

  lemma DeleteRecordsMedia(lower: Lowercase, s: Store, op: Op)
    requires op.Delete? && GoesOk(lower, s, op) && Encodable(s, op)
    ensures RecordMedia(MediaOf(lower, s, op), s.assets, op.id)
  {
    DeleteRecords(s, op.id, op.scope, op.now, op.fault);
    var after := DeleteStep(s, op.id, op.scope, op.now, op.fault).0.journal;
    assert after[|s.journal|..][1..] == after[|s.journal| + 1..];
  }

  /**
   After any run a delete that goes through records an asset as deleted exactly if the message
   was the last to be ingested with it, and once.
   */
  lemma DeletedMediaAreOwned(lower: Lowercase, conversations: map<Id, Conversation>, ops: seq<Op>, op: Op, asset: Id)
    requires var s := Run(lower, EmptyStore(conversations), ops);
             op.Delete? && GoesOk(lower, s, op) && Encodable(s, op)
    ensures var media := MediaOf(lower, Run(lower, EmptyStore(conversations), ops), op);
            && ((exists k :: 0 <= k < |media| && RecordsAsset(media[k], Asset(asset, op.id))) <==>
                  Owner(lower, EmptyStore(conversations), ops, asset) == Some(op.id))
            && (forall j, k :: 0 <= j < k < |media| ==>
                  !(RecordsAsset(media[j], Asset(asset, op.id)) && RecordsAsset(media[k], Asset(asset, op.id))))
  {
    var s := Run(lower, EmptyStore(conversations), ops);
    AssetsAreOwned(lower, conversations, ops, asset, op.id);
    DeleteRecordsMedia(lower, s, op);
    RecordedOnce(s.assets, MediaOf(lower, s, op), op.id, asset);
  }

  // ---------------------------------------------------------------------------
  // Conversations
  // ---------------------------------------------------------------------------

  /** The message that a call brings into a conversation. */
  function Brings(op: Op): Option<(Id, Id, i64)> {
    match op
    case Ingest(m, _, _) => Some((m.conversation, m.id, m.createdAt))
    case SendOutbox(e, _, _) => if e.text == [] then None else Some((e.conversation, e.id, e.createdAt))
    case _ => None
  }

  /** The last message brought into the conversation in a run, and when it was created. */
  function LastInto(lower: Lowercase, s: Store, ops: seq<Op>, conversation: Id): Option<(Id, i64)> {
    if ops == [] then None
    else
      var front, op := ops[..|ops| - 1], ops[|ops| - 1];
      if GoesOk(lower, Run(lower, s, front), op) && Brings(op).Some? && Brings(op).value.0 == conversation then
        Some((Brings(op).value.1, Brings(op).value.2))
      else LastInto(lower, s, front, conversation)
  }

  lemma CallBumps(lower: Lowercase, s: Store, op: Op, conversation: Id)
    requires conversation in s.conversations
    ensures var s' := Step(lower, s, op).0;
            && conversation in s'.conversations
            && s'.conversations[conversation] ==
               if GoesOk(lower, s, op) && Brings(op).Some? && Brings(op).value.0 == conversation then
                 Conversation(Some(Brings(op).value.1), Brings(op).value.2)
               else s.conversations[conversation]
  {
  }

  /** After any run a conversation shows the last message that was ingested or sent into it. */
  lemma {:induction false} ConversationsShowLast(lower: Lowercase, s: Store, ops: seq<Op>, conversation: Id)
    requires conversation in s.conversations
    ensures var s', last := Run(lower, s, ops), LastInto(lower, s, ops, conversation);
            && conversation in s'.conversations
            && s'.conversations[conversation] ==
               if last.Some? then Conversation(Some(last.value.0), last.value.1) else s.conversations[conversation]
    decreases |ops|
  {
    if ops != [] {
      ConversationsShowLast(lower, s, ops[..|ops| - 1], conversation);
      CallBumps(lower, Run(lower, s, ops[..|ops| - 1]), ops[|ops| - 1], conversation);
    }
  }

  // ---------------------------------------------------------------------------
  // The outbox
  // ---------------------------------------------------------------------------

  /** The outbox row that a run leaves for a message: the last entry, and when it was last marked as sent after that. */
  function LastSent(lower: Lowercase, s: Store, ops: seq<Op>, id: Id): Option<OutboxRow> {
    if ops == [] then None
    else
      var front, op := ops[..|ops| - 1], ops[|ops| - 1];
      var before, t := LastSent(lower, s, front, id), Run(lower, s, front);
      if op.SendOutbox? && op.e.id == id && GoesOk(lower, t, op) then
        Some(OutboxRow(
          conversation := op.e.conversation, text := if op.e.text == [] then None else Some(op.e.text),
          mediaAsset := op.e.mediaAsset, createdAt := op.e.createdAt, sentAt := None))
      else if op.MarkSent? && op.id == id && id in t.skeletons && op.fault > 0 && before.Some? then
        Some(before.value.(sentAt := Some(op.now)))
      else before
  }

  lemma CallOnOutbox(lower: Lowercase, s: Store, op: Op, id: Id)
    ensures var s' := Step(lower, s, op).0;
            && (op.SendOutbox? && op.e.id == id && GoesOk(lower, s, op) ==>
                  && id in s'.outbox
                  && s'.outbox[id] == OutboxRow(op.e.conversation, if op.e.text == [] then None else Some(op.e.text),
                                                op.e.mediaAsset, op.e.createdAt, None))
            && (op.MarkSent? && op.id == id && id in s.skeletons && op.fault > 0 && id in s.outbox ==>
                  id in s'.outbox && s'.outbox[id] == s.outbox[id].(sentAt := Some(op.now)))
            && (!(op.SendOutbox? && op.e.id == id && GoesOk(lower, s, op))
                && !(op.MarkSent? && op.id == id && id in s.skeletons && op.fault > 0) ==>
                  (id in s'.outbox <==> id in s.outbox) && (id in s.outbox ==> s'.outbox[id] == s.outbox[id]))
            && (op.MarkSent? && id !in s.outbox ==> id !in s'.outbox)
  {
  }

  /** After any run the outbox holds the last entry of each message, and when it was last marked as sent. */
  lemma {:induction false} OutboxShowsLast(lower: Lowercase, conversations: map<Id, Conversation>, ops: seq<Op>, id: Id)
    ensures var start := EmptyStore(conversations);
            var s, last := Run(lower, start, ops), LastSent(lower, start, ops, id);
            && (id in s.outbox <==> last.Some?)
            && (id in s.outbox && last.Some? ==> s.outbox[id] == last.value)
    decreases |ops|
  {
    if ops != [] {
      OutboxShowsLast(lower, conversations, ops[..|ops| - 1], id);
      CallOnOutbox(lower, Run(lower, EmptyStore(conversations), ops[..|ops| - 1]), ops[|ops| - 1], id);
    }
  }

  // ---------------------------------------------------------------------------
  // Offloading
  // ---------------------------------------------------------------------------

  ghost predicate Verified(s: Store, ops: seq<Op>, id: Id) {
    && (IsVerified(s, id) ==> VerifyArchive(id) in ops)
    && (id in s.skeletons && s.skeletons[id].bodyState == RemoteArchiveOnly ==> IsVerified(s, id) && id in s.bodies)
  }

  predicate IsVerified(s: Store, id: Id) {
    id in s.skeletons && s.skeletons[id].archiveState == ArchiveVerified
  }

  /** After any run a message is offloaded only if it was verified in the archive before, and it has its text still. */
  lemma {:induction false} OffloadedWasVerified(
    lower: Lowercase, conversations: map<Id, Conversation>, ops: seq<Op>, id: Id)
    ensures RowsAgree(Run(lower, EmptyStore(conversations), ops))
    ensures Verified(Run(lower, EmptyStore(conversations), ops), ops, id)
    decreases |ops|
  {
    if ops != [] {
      var s, op := Run(lower, EmptyStore(conversations), ops[..|ops| - 1]), ops[|ops| - 1];
      OffloadedWasVerified(lower, conversations, ops[..|ops| - 1], id);
      StepKeepsRowsAgree(lower, s, op);
      assert ops == ops[..|ops| - 1] + [op];
      VerifiedStep(lower, s, op, ops[..|ops| - 1], id);
    }
  }

  lemma VerifiedStep(lower: Lowercase, s: Store, op: Op, ops: seq<Op>, id: Id)
    requires RowsAgree(s) && Verified(s, ops, id)
    ensures Verified(Step(lower, s, op).0, ops + [op], id)
  {
    CallCreates(lower, s, op, id);
    if id in s.skeletons {
      OffloadedStep(lower, s, op, id);
    }
  }

  lemma OffloadedStep(lower: Lowercase, s: Store, op: Op, id: Id)
    requires RowsAgree(s) && id in s.skeletons
    ensures var k, s' := s.skeletons[id], Step(lower, s, op).0;
            && id in s'.skeletons
            && (s'.skeletons[id].archiveState == ArchiveVerified ==>
                  k.archiveState == ArchiveVerified || op == VerifyArchive(id))
            && (k.archiveState == ArchiveVerified ==> s'.skeletons[id].archiveState == ArchiveVerified)
            && (s'.skeletons[id].bodyState == RemoteArchiveOnly ==>
                  (k.bodyState == RemoteArchiveOnly || (k.archiveState == ArchiveVerified && id in s.bodies)))
            && (s'.skeletons[id].bodyState == RemoteArchiveOnly && id in s.bodies ==> id in s'.bodies)
  {
    CallRow(lower, s, op, id);
  }
}

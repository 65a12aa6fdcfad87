/**
 The backup event journal of `message/processor.rs`: the payloads its events carry, and the
 replay of a journal into the skeleton headers it records.
 */
module Journal {
  import opened Cbor
  import opened Common

  datatype DeleteScope = ForMe | ForEveryone

  datatype EventKind = MessageReceived | OutboxPending | OutboxSent | MessageEdited | MessageDeleted | MediaDeleted

  /** A row of `backup_event_journal`; the sequence number is its position. */
  datatype Event = Event(kind: EventKind, conversation: Bytes, message: Bytes, payload: Bytes, createdAt: i64)

  // ---------------------------------------------------------------------------
  // Payloads
  // ---------------------------------------------------------------------------

  function Ascii(s: string): (r: Bytes)
    ensures |r| == |s|
  {
    seq(|s|, i requires 0 <= i < |s| => (s[i] as int) % 128)
  }

  const MESSAGE_ID := Ascii("message_id")
  const EDITED_AT_MS := Ascii("edited_at_ms")
  const SCOPE := Ascii("scope")
  const ASSET_ID := Ascii("asset_id")
  const FOR_ME := Ascii("for_me")
  const FOR_EVERYONE := Ascii("for_everyone")

  function ScopeLabel(scope: DeleteScope): (r: Bytes)
    ensures |r| <= 12
  {
    if scope == ForMe then FOR_ME else FOR_EVERYONE
  }

  /** An array of four. */
  function EventPayload(message: Bytes, conversation: Bytes, sender: Bytes, createdAt: i64): Bytes {
    [0x84] + TextItem(message) + TextItem(conversation) + TextItem(sender) + IntItem(createdAt)
  }

  /** A map of two up to its last item: a text entry and a key. */
  function MapStart(key1: Bytes, value1: Bytes, key2: Bytes): Bytes {
    [0xa2] + TextItem(key1) + TextItem(value1) + TextItem(key2)
  }

  function MapOfTwo(key1: Bytes, value1: Bytes, key2: Bytes, item2: Bytes): Bytes {
    MapStart(key1, value1, key2) + item2
  }

  function EditPayload(message: Bytes, editedAt: i64): Bytes {
    MapOfTwo(MESSAGE_ID, message, EDITED_AT_MS, IntItem(editedAt))
  }

  function DeletePayload(message: Bytes, scope: DeleteScope): Bytes {
    MapOfTwo(MESSAGE_ID, message, SCOPE, TextItem(ScopeLabel(scope)))
  }

  function MediaDeletePayload(asset: Bytes, message: Bytes): Bytes {
    MapOfTwo(ASSET_ID, asset, MESSAGE_ID, TextItem(message))
  }

  method EncodeEventPayload(message: Bytes, conversation: Bytes, sender: Bytes, createdAt: i64) returns (out: Bytes)
    ensures out == EventPayload(message, conversation, sender, createdAt)
  {
    var buffer := new Buffer();
    buffer.Push(0x84);
    assert buffer.data == [0x84];
    buffer.PushText(message);
    buffer.PushText(conversation);
    buffer.PushText(sender);
    buffer.PushInt(createdAt);
    out := buffer.data;
  }

  method StartMapOfTwo(key1: Bytes, value1: Bytes, key2: Bytes) returns (buffer: Buffer)
    ensures fresh(buffer)
    ensures buffer.data == MapStart(key1, value1, key2)
  {
    buffer := new Buffer();
    buffer.Push(0xa2);
    assert buffer.data == [0xa2];
    buffer.PushText(key1);
    buffer.PushText(value1);
    buffer.PushText(key2);
  }

  method EncodeEditPayload(message: Bytes, editedAt: i64) returns (out: Bytes)
    ensures out == EditPayload(message, editedAt)
  {
    var buffer := StartMapOfTwo(MESSAGE_ID, message, EDITED_AT_MS);
    buffer.PushInt(editedAt);
    out := buffer.data;
  }

  method EncodeDeletePayload(message: Bytes, scope: DeleteScope) returns (out: Bytes)
    ensures out == DeletePayload(message, scope)
  {
    var buffer := StartMapOfTwo(MESSAGE_ID, message, SCOPE);
    buffer.PushText(ScopeLabel(scope));
    out := buffer.data;
  }

  method EncodeMediaDeletePayload(asset: Bytes, message: Bytes) returns (out: Bytes)
    ensures out == MediaDeletePayload(asset, message)
  {
    var buffer := StartMapOfTwo(ASSET_ID, asset, MESSAGE_ID);
    buffer.PushText(message);
    out := buffer.data;
  }

  // ---------------------------------------------------------------------------
  // Decoding, with nothing left over
  // ---------------------------------------------------------------------------

  datatype Created = Created(message: Bytes, conversation: Bytes, sender: Bytes, createdAt: int)

  /** The text item at the front, when it is `key`, dropped. */
  function SkipKey(key: Bytes, bs: Bytes): Option<Bytes> {
    match DecodeText(bs)
    case Some(Item(k, rest)) => if k == key then Some(rest) else None
    case None => None
  }

  function LastInt(bs: Bytes): Option<int> {
    match DecodeInt(bs)
    case Some(Item(v, rest)) => if rest == [] then Some(v) else None
    case None => None
  }

  function LastText(bs: Bytes): Option<Bytes> {
    match DecodeText(bs)
    case Some(Item(s, rest)) => if rest == [] then Some(s) else None
    case None => None
  }

  function DecodeEventPayload(bs: Bytes): Option<Created> {
    if bs == [] || bs[0] != 0x84 then None
    else match DecodeText(bs[1..])
      case None => None
      case Some(Item(message, r1)) =>
        match DecodeText(r1)
        case None => None
        case Some(Item(conversation, r2)) =>
          match DecodeText(r2)
          case None => None
          case Some(Item(sender, r3)) =>
            match LastInt(r3)
            case None => None
            case Some(at) => Some(Created(message, conversation, sender, at))
  }

  /** The first entry of a map of two: its value, and the bytes after it. */
  function DecodeFirstEntry(key: Bytes, bs: Bytes): Option<Item<Bytes>> {
    if bs == [] || bs[0] != 0xa2 then None
    else match SkipKey(key, bs[1..])
      case None => None
      case Some(r1) => DecodeText(r1)
  }

  function DecodeEditPayload(bs: Bytes): Option<(Bytes, int)> {
    match DecodeFirstEntry(MESSAGE_ID, bs)
    case None => None
    case Some(Item(message, r1)) =>
      match SkipKey(EDITED_AT_MS, r1)
      case None => None
      case Some(r2) =>
        match LastInt(r2)
        case None => None
        case Some(at) => Some((message, at))
  }

  /** A map of two text entries, with the keys given. */
  function DecodeTextPair(key1: Bytes, key2: Bytes, bs: Bytes): Option<(Bytes, Bytes)> {
    match DecodeFirstEntry(key1, bs)
    case None => None
    case Some(Item(first, r1)) =>
      match SkipKey(key2, r1)
      case None => None
      case Some(r2) =>
        match LastText(r2)
        case None => None
        case Some(second) => Some((first, second))
  }

  function DecodeDeletePayload(bs: Bytes): Option<(Bytes, DeleteScope)> {
    match DecodeTextPair(MESSAGE_ID, SCOPE, bs)
    case None => None
    case Some((message, scope)) =>
      if scope == FOR_ME then Some((message, ForMe))
      else if scope == FOR_EVERYONE then Some((message, ForEveryone))
      else None
  }

  lemma Reassociate(first: byte, a: Bytes, b: Bytes, c: Bytes, d: Bytes)
    ensures [first] + a + b + c + d == [first] + (a + (b + (c + d)))
  {
  }

  lemma EventPayloadRoundTrip(message: Bytes, conversation: Bytes, sender: Bytes, createdAt: i64)
    requires |message| <= U32_MAX && |conversation| <= U32_MAX && |sender| <= U32_MAX
    ensures DecodeEventPayload(EventPayload(message, conversation, sender, createdAt)) ==
            Some(Created(message, conversation, sender, createdAt))
  {
    var r3 := IntItem(createdAt);
    var r2 := TextItem(sender) + r3;
    var r1 := TextItem(conversation) + r2;
    var r0 := TextItem(message) + r1;
    var bs := EventPayload(message, conversation, sender, createdAt);
    Reassociate(0x84, TextItem(message), TextItem(conversation), TextItem(sender), r3);
    assert bs[1..] == r0;
    TextRoundTripIff(message, r1);
    TextRoundTripIff(conversation, r2);
    TextRoundTripIff(sender, r3);
    LastItemRoundTrip([], createdAt);
  }

  lemma FirstEntryRoundTrip(key1: Bytes, value1: Bytes, key2: Bytes, item2: Bytes)
    requires |key1| <= U32_MAX && |value1| <= U32_MAX
    ensures DecodeFirstEntry(key1, MapOfTwo(key1, value1, key2, item2)) ==
            Some(Item(value1, TextItem(key2) + item2))
  {
    var r2 := TextItem(key2) + item2;
    var r1 := TextItem(value1) + r2;
    var r0 := TextItem(key1) + r1;
    var bs := MapOfTwo(key1, value1, key2, item2);
    Reassociate(0xa2, TextItem(key1), TextItem(value1), TextItem(key2), item2);
    assert bs[1..] == r0;
    TextRoundTripIff(key1, r1);
    TextRoundTripIff(value1, r2);
  }

  lemma SkipKeyRoundTrip(key: Bytes, item: Bytes)
    requires |key| <= U32_MAX
    ensures SkipKey(key, TextItem(key) + item) == Some(item)
  {
    TextRoundTripIff(key, item);
  }

  lemma LastItemRoundTrip(s: Bytes, v: i64)
    requires |s| <= U32_MAX
    ensures LastText(TextItem(s)) == Some(s) && LastInt(IntItem(v)) == Some(v)
  {
    assert TextItem(s) + [] == TextItem(s) && IntItem(v) + [] == IntItem(v);
    TextRoundTripIff(s, []);
    IntRoundTrip(v, []);
  }

  lemma EditPayloadRoundTrip(message: Bytes, editedAt: i64)
    requires |message| <= U32_MAX
    ensures DecodeEditPayload(EditPayload(message, editedAt)) == Some((message, editedAt))
  {
    FirstEntryRoundTrip(MESSAGE_ID, message, EDITED_AT_MS, IntItem(editedAt));
    SkipKeyRoundTrip(EDITED_AT_MS, IntItem(editedAt));
    LastItemRoundTrip([], editedAt);
  }

  lemma TextPairRoundTrip(key1: Bytes, value1: Bytes, key2: Bytes, value2: Bytes)
    requires |key1| <= U32_MAX && |value1| <= U32_MAX && |key2| <= U32_MAX && |value2| <= U32_MAX
    ensures DecodeTextPair(key1, key2, MapOfTwo(key1, value1, key2, TextItem(value2))) == Some((value1, value2))
  {
    FirstEntryRoundTrip(key1, value1, key2, TextItem(value2));
    SkipKeyRoundTrip(key2, TextItem(value2));
    LastItemRoundTrip(value2, 0);
  }

  lemma ScopeLabelsDiffer()
    ensures FOR_ME != FOR_EVERYONE
  {
    assert |FOR_ME| == 6 && |FOR_EVERYONE| == 12;
  }

  lemma DeletePayloadRoundTrip(message: Bytes, scope: DeleteScope)
    requires |message| <= U32_MAX
    ensures DecodeDeletePayload(DeletePayload(message, scope)) == Some((message, scope))
  {
    ScopeLabelsDiffer();
    TextPairRoundTrip(MESSAGE_ID, message, SCOPE, ScopeLabel(scope));
  }

  lemma MediaDeletePayloadRoundTrip(asset: Bytes, message: Bytes)
    requires |asset| <= U32_MAX && |message| <= U32_MAX
    ensures DecodeTextPair(ASSET_ID, MESSAGE_ID, MediaDeletePayload(asset, message)) == Some((asset, message))
  {
    TextPairRoundTrip(ASSET_ID, asset, MESSAGE_ID, message);
  }

  // ---------------------------------------------------------------------------
  // Replay
  // ---------------------------------------------------------------------------

  /** What a journal records about a message. */
  datatype Header = Header(
    conversation: Bytes,
    sender: Bytes,
    createdAt: int,
    editedAt: Option<int>,
    deleted: Option<(int, DeleteScope)>)

  /** The effect of one event, read from its payload alone but for the time of a deletion. */
  function Apply(headers: map<Bytes, Header>, e: Event): map<Bytes, Header> {
    match e.kind
    case MessageReceived | OutboxPending =>
      (match DecodeEventPayload(e.payload)
       case Some(c) => headers[c.message := Header(c.conversation, c.sender, c.createdAt, None, None)]
       case None => headers)
    case MessageEdited =>
      (match DecodeEditPayload(e.payload)
       case Some((m, at)) => if m in headers then headers[m := headers[m].(editedAt := Some(at))] else headers
       case None => headers)
    case MessageDeleted =>
      (match DecodeDeletePayload(e.payload)
       case Some((m, scope)) =>
         if m in headers then headers[m := headers[m].(deleted := Some((e.createdAt, scope)))] else headers
       case None => headers)
    case OutboxSent | MediaDeleted => headers
  }

  function Replay(journal: seq<Event>): map<Bytes, Header> {
    if journal == [] then map[] else Apply(Replay(journal[..|journal| - 1]), journal[|journal| - 1])
  }

  lemma ReplaySnoc(journal: seq<Event>, e: Event)
    ensures Replay(journal + [e]) == Apply(Replay(journal), e)
  {
    assert (journal + [e])[..|journal|] == journal;
  }

  lemma ReplayCreated(journal: seq<Event>, e: Event, sender: Bytes, at: i64)
    requires e.kind == MessageReceived || e.kind == OutboxPending
    requires |e.message| <= U32_MAX && |e.conversation| <= U32_MAX && |sender| <= U32_MAX
    requires e.payload == EventPayload(e.message, e.conversation, sender, at)
    ensures Replay(journal + [e]) ==
            Replay(journal)[e.message := Header(e.conversation, sender, at, None, None)]
  {
    ReplaySnoc(journal, e);
    EventPayloadRoundTrip(e.message, e.conversation, sender, at);
  }

  lemma ReplayEdited(journal: seq<Event>, e: Event, at: i64)
    requires e.kind == MessageEdited && e.message in Replay(journal) && |e.message| <= U32_MAX
    requires e.payload == EditPayload(e.message, at)
    ensures Replay(journal + [e]) ==
            Replay(journal)[e.message := Replay(journal)[e.message].(editedAt := Some(at))]
  {
    ReplaySnoc(journal, e);
    EditPayloadRoundTrip(e.message, at);
  }

  lemma ReplayDeleted(journal: seq<Event>, e: Event, scope: DeleteScope)
    requires e.kind == MessageDeleted && e.message in Replay(journal) && |e.message| <= U32_MAX
    requires e.payload == DeletePayload(e.message, scope)
    ensures Replay(journal + [e]) ==
            Replay(journal)[e.message := Replay(journal)[e.message].(deleted := Some((e.createdAt, scope)))]
  {
    ReplaySnoc(journal, e);
    DeletePayloadRoundTrip(e.message, scope);
  }

  /** Events that carry no header change leave the replay alone. */
  lemma {:induction false} ReplayIgnores(journal: seq<Event>, more: seq<Event>)
    requires forall e :: e in more ==> e.kind == MediaDeleted || e.kind == OutboxSent
    ensures Replay(journal + more) == Replay(journal)
    decreases |more|
  {
    if more == [] {
      assert journal + more == journal;
    } else {
      var front, last := more[..|more| - 1], more[|more| - 1];
      assert journal + more == journal + front + [last];
      assert last in more;
      ReplayIgnores(journal, front);
      ReplaySnoc(journal + front, last);
    }
  }
}

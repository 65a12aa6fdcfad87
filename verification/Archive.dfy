/**
 The archive (`archive/coordinator.rs`, `archive/segment_builder.rs`): messages go into
 encrypted segments, each sealed with the key of the epoch; segments queue until a manifest
 that lists them is published.

 Sealing, compression, serialisation and hashing are functions of which only the laws in
 `Lawful` are assumed.
 */
module Archive {
  import opened Common
  import opened EpochKeys
  import opened ManifestChain
  import opened Transport

  type Id = Bytes

  datatype Media = Media(asset: Id, mime: Bytes, node: Bytes, version: Bytes, bytes: nat)

  /** The fields of an ingested message that the archive reads. */
  datatype Message = Message(id: Id, createdAt: i64, text: Option<Bytes>, media: seq<Media>)

  datatype EntryKind = TextEntry | MediaEntry

  datatype Entry = Entry(
    id: Id, createdAt: i64, kind: EntryKind, bodyCiphertext: Bytes, bodyNonce: Bytes, media: seq<Media>)

  datatype Payload = Payload(segment: Id, conversation: Id, bucket: Bytes, epoch: nat, entries: seq<Entry>)

  datatype Frame = Frame(nonce: Bytes, ciphertext: Bytes, plaintextHash: Hash, plaintextSize: nat)

  /** `seal` and `open` take key, nonce, text and the purpose that the text is sealed for. */
  datatype Suite = Suite(
    keys: KeySuite,
    seal: (Bytes, Bytes, Bytes, Purpose) -> Bytes,
    open: (Bytes, Bytes, Bytes, Purpose) -> Option<Bytes>,
    compress: Bytes -> Bytes,
    decompress: Bytes -> Option<Bytes>,
    encode: Payload -> Bytes,
    decode: Bytes -> Option<Payload>,
    digest: Bytes -> Hash,
    hash: Hashing)

  datatype Purpose = ArchiveBody | ArchiveSegment

  ghost predicate Lawful(suite: Suite) {
    && EpochKeys.Lawful(suite.keys)
    && (forall k, n, m, a :: suite.open(k, n, suite.seal(k, n, m, a), a) == Some(m))
    && (forall m :: suite.decompress(suite.compress(m)) == Some(m))
    && (forall p :: suite.decode(suite.encode(p)) == Some(p))
  }

  // ---------------------------------------------------------------------------
  // Segments
  // ---------------------------------------------------------------------------

  /** What is drawn at random for one segment; `body` gives the nonce of each entry. */
  datatype Drawn = Drawn(inner: Id, body: nat -> Bytes, nonce: Bytes, segment: Id)

  function TextOf(m: Message): Bytes {
    if m.text.Some? then m.text.value else []
  }

  function EntryOf(suite: Suite, key: Bytes, m: Message, nonce: Bytes): Entry {
    Entry(m.id, m.createdAt, if m.media == [] then TextEntry else MediaEntry,
          suite.seal(key, nonce, TextOf(m), ArchiveBody), nonce, m.media)
  }

  function EntriesOf(suite: Suite, key: Bytes, messages: seq<Message>, nonces: nat -> Bytes): seq<Entry> {
    seq(|messages|, i requires 0 <= i < |messages| => EntryOf(suite, key, messages[i], nonces(i)))
  }

  function FrameOf(suite: Suite, key: Bytes, nonce: Bytes, payload: Payload): Frame {
    var plaintext := suite.encode(payload);
    var ciphertext := suite.seal(key, nonce, suite.compress(plaintext), ArchiveSegment);
    Frame(nonce, ciphertext, suite.digest(plaintext), |plaintext|)
  }

  function SegmentOf(
    suite: Suite, key: Bytes, messages: seq<Message>, conversation: Id, bucket: Bytes, epoch: nat, r: Drawn): Frame
  {
    FrameOf(suite, key, r.nonce,
            Payload(r.inner, conversation, bucket, epoch, EntriesOf(suite, key, messages, r.body)))
  }

  method BuildSegment(
    suite: Suite, messages: seq<Message>, conversation: Id, bucket: Bytes, epoch: nat, key: Bytes, r: Drawn)
    returns (frame: Frame)
    ensures frame == SegmentOf(suite, key, messages, conversation, bucket, epoch, r)
  {
    var entries: seq<Entry> := [];
    for i := 0 to |messages|
      invariant entries == EntriesOf(suite, key, messages, r.body)[..i]
    {
      var nonce := r.body(i);
      var ciphertext := suite.seal(key, nonce, TextOf(messages[i]), ArchiveBody);
      var kind := if messages[i].media == [] then TextEntry else MediaEntry;
      entries := entries + [Entry(messages[i].id, messages[i].createdAt, kind, ciphertext, nonce, messages[i].media)];
    }
    assert entries == EntriesOf(suite, key, messages, r.body);
    var payload := Payload(r.inner, conversation, bucket, epoch, entries);
    var plaintext := suite.encode(payload);
    var ciphertext := suite.seal(key, r.nonce, suite.compress(plaintext), ArchiveSegment);
    frame := Frame(r.nonce, ciphertext, suite.digest(plaintext), |plaintext|);
  }

  function OpenSegment(suite: Suite, frame: Frame, key: Bytes): Option<Payload> {
    match suite.open(key, frame.nonce, frame.ciphertext, ArchiveSegment)
    case None => None
    case Some(compressed) =>
      match suite.decompress(compressed)
      case None => None
      case Some(plaintext) => suite.decode(plaintext)
  }

  /** What the archive keeps of a message.  No text and empty text are the same to it. */
  datatype Record = Record(id: Id, createdAt: i64, text: Bytes, media: seq<Media>)

  function RecordOf(m: Message): Record {
    Record(m.id, m.createdAt, TextOf(m), m.media)
  }

  function RecordsOf(messages: seq<Message>): seq<Record> {
    seq(|messages|, i requires 0 <= i < |messages| => RecordOf(messages[i]))
  }

  /** The entries of a payload read with a key, in order; `None` when a body does not open. */
  function ReadEntries(suite: Suite, key: Bytes, entries: seq<Entry>): Option<seq<Record>> {
    if entries == [] then Some([])
    else
      var last := entries[|entries| - 1];
      var text := suite.open(key, last.bodyNonce, last.bodyCiphertext, ArchiveBody);
      match (ReadEntries(suite, key, entries[..|entries| - 1]), text)
      case (Some(front), Some(text)) => Some(front + [Record(last.id, last.createdAt, text, last.media)])
      case _ => None
  }

  function ReadSegment(suite: Suite, frame: Frame, key: Bytes): Option<seq<Record>> {
    match OpenSegment(suite, frame, key)
    case None => None
    case Some(payload) => ReadEntries(suite, key, payload.entries)
  }

  ghost predicate Opens(suite: Suite, key: Bytes, e: Entry, r: Record) {
    && suite.open(key, e.bodyNonce, e.bodyCiphertext, ArchiveBody) == Some(r.text)
    && e.id == r.id && e.createdAt == r.createdAt && e.media == r.media
  }

  lemma {:induction false} ReadOpenEntries(suite: Suite, key: Bytes, entries: seq<Entry>, records: seq<Record>)
    requires |entries| == |records| && forall i :: 0 <= i < |entries| ==> Opens(suite, key, entries[i], records[i])
    ensures ReadEntries(suite, key, entries) == Some(records)
    decreases |entries|
  {
    if entries != [] {
      var n := |entries| - 1;
      ReadOpenEntries(suite, key, entries[..n], records[..n]);
      assert Opens(suite, key, entries[n], records[n]);
      assert records == records[..n] + [records[n]];
    }
  }

  lemma ReadOwnEntries(suite: Suite, key: Bytes, messages: seq<Message>, nonces: nat -> Bytes)
    requires Lawful(suite)
    ensures ReadEntries(suite, key, EntriesOf(suite, key, messages, nonces)) == Some(RecordsOf(messages))
  {
    var entries, records := EntriesOf(suite, key, messages, nonces), RecordsOf(messages);
    forall i | 0 <= i < |messages|
      ensures Opens(suite, key, entries[i], records[i])
    {
      var ciphertext := suite.seal(key, nonces(i), TextOf(messages[i]), ArchiveBody);
      assert suite.open(key, nonces(i), ciphertext, ArchiveBody) == Some(TextOf(messages[i]));
      assert entries[i].bodyCiphertext == ciphertext;
    }
    ReadOpenEntries(suite, key, entries, records);
  }

  /** A segment opens to the entries it was built from, with its conversation, bucket and epoch. */
  lemma SegmentRoundTrip(
    suite: Suite, key: Bytes, messages: seq<Message>, conversation: Id, bucket: Bytes, epoch: nat, r: Drawn)
    requires Lawful(suite)
    ensures var frame := SegmentOf(suite, key, messages, conversation, bucket, epoch, r);
            && ReadSegment(suite, frame, key) == Some(RecordsOf(messages))
            && OpenSegment(suite, frame, key) ==
               Some(Payload(r.inner, conversation, bucket, epoch, EntriesOf(suite, key, messages, r.body)))
  {
    ReadOwnEntries(suite, key, messages, r.body);
  }

  // ---------------------------------------------------------------------------
  // The coordinator
  // ---------------------------------------------------------------------------

  datatype ArchiveEvent =
    | SegmentUploaded(segment: Id, epoch: nat, messages: nat)
    | ManifestUploaded(generation: nat, segments: nat)
    | EpochRotated(epoch: nat)

  datatype Pending = Pending(segment: Id, frame: Frame)

  datatype Coordinator = Coordinator(
    keys: Keys, events: seq<ArchiveEvent>, pending: seq<Pending>, generation: nat, previous: Hash)

  const MAX_PENDING_SEGMENTS: nat := 100

  function NewCoordinator(suite: Suite, wrappingKey: Bytes, now: nat): Coordinator {
    Coordinator(NewKeys(suite.keys, wrappingKey, now), [], [], 0, Zero())
  }

  /** The key of the current epoch. */
  function CurrentKey(suite: Suite, keys: Keys): Bytes {
    suite.keys.derive(keys.root, keys.current)
  }

  /**
   The cap is checked after the upload: a segment over the cap is on the gateway, and in the
   journal, but never queued.
   */
  function AfterBatch(c: Coordinator, id: Id, frame: Frame, messages: nat): (Coordinator, Option<Id>) {
    var recorded := c.(events := c.events + [SegmentUploaded(id, c.keys.current, messages)]);
    if |c.pending| >= MAX_PENDING_SEGMENTS then (recorded, None)
    else (recorded.(pending := c.pending + [Pending(id, frame)]), Some(id))
  }

  function RefsOf(pending: seq<Pending>): seq<SegmentRef> {
    seq(|pending|, i requires 0 <= i < |pending| =>
      SegmentRef(pending[i].segment, pending[i].frame.plaintextHash, |pending[i].frame.ciphertext|))
  }

  /**
   The manifest of all pending segments.  The wrapped keys of prior epochs, which are also
   collected, do not enter it.
   */
  function ManifestOf(c: Coordinator, id: Id): Manifest {
    Manifest(id, c.generation, c.previous, RefsOf(c.pending))
  }

  function AfterManifest(suite: Suite, c: Coordinator, m: Manifest): Coordinator {
    c.(events := c.events + [ManifestUploaded(c.generation, |c.pending|)],
       pending := [],
       generation := c.generation + 1,
       previous := suite.hash(m))
  }

  function AfterRotation(suite: Suite, c: Coordinator, now: nat): Coordinator {
    if CurrentEpochId(now) > c.keys.current then
      c.(keys := Rotated(suite.keys, c.keys), events := c.events + [EpochRotated(c.keys.current)])
    else c
  }

  class ArchiveCoordinator {
    const suite: Suite
    const epochManager: EpochKeyManager
    var events: seq<ArchiveEvent>
    var pending: seq<Pending>
    var generation: nat
    var previous: Hash

    function State(): Coordinator
      reads this, epochManager
    {
      Coordinator(epochManager.State(), events, pending, generation, previous)
    }

    ghost predicate Valid() {
      epochManager.suite == suite.keys
    }

    constructor (suite: Suite, wrappingKey: Bytes, now: nat)
      ensures Valid() && this.suite == suite && fresh(epochManager)
      ensures State() == NewCoordinator(suite, wrappingKey, now)
    {
      this.suite := suite;
      epochManager := new EpochKeyManager(suite.keys, wrappingKey, now);
      events, pending, generation, previous := [], [], 0, Zero();
    }

    method ArchiveBatch(
      messages: seq<Message>, conversation: Id, bucket: Bytes, r: Drawn, gateway: Gateway<Frame>, reply: Reply)
      returns (id: Option<Id>)
      requires Valid()
      modifies this, gateway
      ensures var keys := old(epochManager.State());
              var frame := SegmentOf(suite, CurrentKey(suite, keys), messages, conversation, bucket, keys.current, r);
              && gateway.State() == PutSegment(old(gateway.State()), reply, r.segment, frame)
              && (State(), id) == if reply == Acknowledged then AfterBatch(old(State()), r.segment, frame, |messages|)
                                  else (old(State()), None)
    {
      var epoch := epochManager.current;
      var key := epochManager.CurrentEpochKey();
      var frame := BuildSegment(suite, messages, conversation, bucket, epoch, key, r);
      var ok := gateway.UploadSegment(reply, r.segment, frame);
      if !ok {
        return None;
      }
      events := events + [SegmentUploaded(r.segment, epoch, |messages|)];
      if |pending| >= MAX_PENDING_SEGMENTS {
        return None;
      }
      pending := pending + [Pending(r.segment, frame)];
      return Some(r.segment);
    }

    method FinalizeEpoch(manifest: Id, gateway: Gateway<Frame>, reply: Reply) returns (next: Option<nat>)
      modifies this, gateway
      ensures next.Some? <==> old(pending) == [] || reply == Acknowledged
      ensures next.Some? ==> next.value == generation
      ensures var m := ManifestOf(old(State()), manifest);
              && gateway.State() == (if old(pending) == [] then old(gateway.State())
                                     else PutManifest(old(gateway.State()), reply, m))
              && State() == if old(pending) != [] && reply == Acknowledged then AfterManifest(suite, old(State()), m)
                            else old(State())
    {
      if pending == [] {
        return Some(generation);
      }
      var m := Manifest(manifest, generation, previous, RefsOf(pending));
      var ok := gateway.UploadManifest(reply, m);
      if !ok {
        return None;
      }
      previous := suite.hash(m);
      events := events + [ManifestUploaded(generation, |pending|)];
      pending := [];
      generation := generation + 1;
      return Some(generation);
    }

    method MaybeRotate(now: nat) returns (rotated: bool)
      requires Valid()
      modifies this, epochManager
      ensures State() == AfterRotation(suite, old(State()), now)
      ensures rotated <==> CurrentEpochId(now) > old(epochManager.current)
      ensures epochManager.current == old(epochManager.current) + if rotated then 1 else 0
    {
      var epoch := epochManager.current;
      if CurrentEpochId(now) > epoch {
        epochManager.Rotate();
        events := events + [EpochRotated(epoch)];
        return true;
      }
      return false;
    }
  }
}

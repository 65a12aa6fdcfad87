/**
 `MessagePersister` and the pieces of `CoreImpl` that write messages, on mutable tables.

 Each call validates, opens a savepoint, runs its statements one by one and rolls back when
 one fails.  `fault` is the number of the statement that fails.  Every method is proved
 against the function of `MessageStore` that says what the call does.
 */
module LocalStore {
  import opened Common
  import opened Delivery
  import opened Journal
  import opened MessageStore
  import opened StateMachines
  import opened Tokenizer

  lemma RowsOfGramsSnoc(grams: seq<string>, g: string, script: Script, id: Id)
    ensures RowsOfGrams(grams + [g], script, id) == RowsOfGrams(grams, script, id) + {FuzzyRow(g, script, id)}
  {
  }

  lemma OffloadOneMore(s: Store, ids: seq<Id>, id: Id)
    requires Evictable(s, id)
    ensures AfterEvict(s, ids + [id]) ==
            AfterEvict(s, ids).(skeletons :=
              AfterEvict(s, ids).skeletons[id := AfterEvict(s, ids).skeletons[id].(bodyState := RemoteArchiveOnly)])
  {
    assert forall x :: x in ids + [id] <==> x in ids || x == id;
  }

  class Db {
    const lower: Lowercase
    var conversations: map<Id, Conversation>
    var skeletons: map<Id, Skeleton>
    var bodies: map<Id, string>
    var fts: seq<FtsRow>
    var fuzzy: set<FuzzyRow>
    var assets: seq<Asset>
    var outbox: map<Id, OutboxRow>
    var journal: seq<Event>

    function State(): Store
      reads this
    {
      Store(conversations, skeletons, bodies, fts, fuzzy, assets, outbox, journal)
    }

    constructor (lower: Lowercase, conversations: map<Id, Conversation>)
      ensures this.lower == lower && State() == EmptyStore(conversations)
    {
      this.lower := lower;
      this.conversations := conversations;
      skeletons, bodies, fts, fuzzy, assets, outbox, journal := map[], map[], [], {}, [], map[], [];
    }

    /** `ROLLBACK TO` a savepoint. */
    method Rollback(saved: Store)
      modifies this
      ensures State() == saved
    {
      conversations, skeletons, bodies := saved.conversations, saved.skeletons, saved.bodies;
      fts, fuzzy, assets := saved.fts, saved.fuzzy, saved.assets;
      outbox, journal := saved.outbox, saved.journal;
    }

    /** Insert a fuzzy row for every gram of every token. */
    method IndexFuzzy(text: string, id: Id)
      modifies this`fuzzy
      ensures fuzzy == old(fuzzy) + FuzzyRows(lower, text, id)
    {
      var tokens := Tokenize(text);
      var i := 0;
      while i < |tokens|
        invariant 0 <= i <= |tokens|
        invariant fuzzy == old(fuzzy) + RowsOfTokens(lower, tokens[..i], id)
      {
        IndexToken(tokens[i], id);
        assert tokens[..i + 1][..i] == tokens[..i];
        i := i + 1;
      }
      assert tokens[..|tokens|] == tokens;
    }

    method IndexToken(token: Token, id: Id)
      modifies this`fuzzy
      ensures fuzzy == old(fuzzy) + RowsOfGrams(Grams(lower, token), token.script, id)
    {
      var grams := Grams(lower, token);
      var j := 0;
      while j < |grams|
        invariant 0 <= j <= |grams|
        invariant fuzzy == old(fuzzy) + RowsOfGrams(grams[..j], token.script, id)
      {
        fuzzy := fuzzy + {FuzzyRow(grams[j], token.script, id)};
        RowsOfGramsSnoc(grams[..j], grams[j], token.script, id);
        assert grams[..j] + [grams[j]] == grams[..j + 1];
        j := j + 1;
      }
      assert grams[..|grams|] == grams;
    }

    /** The body row, the full-text row and the fuzzy rows of a new text. */
    method InsertText(row: FtsRow, fault: nat) returns (ok: bool)
      modifies this`bodies, this`fts, this`fuzzy
      ensures ok <==> fault >= 2
      ensures ok ==> bodies == old(bodies)[row.message := row.text]
      ensures ok ==> fts == old(fts) + [row]
      ensures ok ==> fuzzy == old(fuzzy) + FuzzyRows(lower, row.text, row.message)
    {
      if fault == 0 {
        return false;
      }
      bodies := bodies[row.message := row.text];
      if fault == 1 {
        return false;
      }
      fts := fts + [row];
      IndexFuzzy(row.text, row.message);
      return true;
    }

    /** One `INSERT OR REPLACE` for each descriptor; `ok` is whether all of them went through. */
    method InsertAssets(media: seq<Id>, id: Id, fault: nat) returns (ok: bool)
      modifies this`assets
      ensures ok <==> fault >= |media|
      ensures ok ==> assets == AddAssets(old(assets), media, id)
    {
      var i := 0;
      while i < |media|
        invariant 0 <= i <= |media| && i <= fault
        invariant assets == AddAssets(old(assets), media[..i], id)
      {
        if fault == i {
          return false;
        }
        assets := AssetsWithout(assets, media[i]) + [Asset(media[i], id)];
        assert media[..i + 1][..i] == media[..i];
        i := i + 1;
      }
      assert media[..|media|] == media;
      return true;
    }

    method PersistIngestedMessage(m: Message, now: i64, fault: nat) returns (outcome: Outcome)
      modifies this
      ensures (State(), outcome) == IngestStep(lower, old(State()), m, now, fault)
    {
      if !ValidIngest(m) {
        return InvalidMessage;
      }
      if m.id in skeletons {
        return DuplicateMessage;
      }
      var saved := State();
      var ok := PersistIngestedMessageInner(m, now, fault);
      if !ok {
        Rollback(saved);
        return StorageFailure;
      }
      return Ok;
    }

    method PersistIngestedMessageInner(m: Message, now: i64, fault: nat) returns (ok: bool)
      requires ValidIngest(m) && m.id !in skeletons
      modifies this
      ensures ok <==> m.conversation in old(conversations) && fault >= IngestStatements(m)
      ensures ok ==> State() == AfterIngest(lower, old(State()), m, now)
    {
      if fault == 0 || m.conversation !in conversations {
        return false;
      }
      skeletons := skeletons[m.id := NewSkeleton(m, now)];
      var allAssets := InsertAssets(m.media, m.id, fault - 1);
      if !allAssets {
        return false;
      }
      var done := 1 + |m.media|;
      if m.text.Some? {
        var row := FtsRow(m.id, m.conversation, m.sender, m.createdAt, m.text.value);
        var inserted := InsertText(row, fault - done);
        if !inserted {
          return false;
        }
        done := done + 2;
      }
      conversations := Bump(conversations, m.conversation, m.id, m.createdAt);
      var payload := EncodeEventPayload(m.id, m.conversation, m.sender, m.createdAt);
      if fault == done {
        return false;
      }
      journal := journal + [Event(MessageReceived, m.conversation, m.id, payload, now)];
      return true;
    }

    method PersistOutboxEntry(e: OutboxEntry, now: i64, fault: nat) returns (outcome: Outcome)
      modifies this
      ensures (State(), outcome) == OutboxStep(lower, old(State()), e, now, fault)
    {
      if e.text == [] && e.mediaAsset.None? {
        return InvalidMessage;
      }
      if e.id in skeletons {
        return DuplicateMessage;
      }
      var saved := State();
      var ok := PersistOutboxEntryInner(e, now, fault);
      if !ok {
        Rollback(saved);
        return StorageFailure;
      }
      return Ok;
    }

    method PersistOutboxEntryInner(e: OutboxEntry, now: i64, fault: nat) returns (ok: bool)
      requires e.id !in skeletons
      modifies this
      ensures ok <==> fault >= OutboxStatements(e) && (e.text == [] || e.conversation in old(conversations))
      ensures ok ==> State() == AfterOutbox(lower, old(State()), e, now)
    {
      if fault == 0 {
        return false;
      }
      var text := if e.text == [] then None else Some(e.text);
      outbox := outbox[e.id := OutboxRow(e.conversation, text, e.mediaAsset, e.createdAt, None)];
      if e.text != [] {
        if fault == 1 || e.conversation !in conversations {
          return false;
        }
        skeletons := skeletons[e.id := OutboxSkeleton(e)];
        var inserted := InsertText(FtsRow(e.id, e.conversation, SELF, e.createdAt, e.text), fault - 2);
        if !inserted {
          return false;
        }
        conversations := Bump(conversations, e.conversation, e.id, e.createdAt);
        var payload := EncodeEventPayload(e.id, e.conversation, SELF, e.createdAt);
        if fault == 4 {
          return false;
        }
        journal := journal + [Event(OutboxPending, e.conversation, e.id, payload, now)];
      }
      return true;
    }

    /** No savepoint here: a failure of the second statement leaves the first one in place. */
    method MarkSent(id: Id, now: i64, fault: nat) returns (outcome: Outcome)
      modifies this
      ensures (State(), outcome) == MarkSentStep(old(State()), id, now, fault)
    {
      if id !in skeletons {
        return InvalidMessage;
      }
      var k := skeletons[id];
      if fault == 0 {
        return StorageFailure;
      }
      if id in outbox {
        outbox := outbox[id := outbox[id].(sentAt := Some(now))];
      }
      var payload := EncodeEventPayload(id, k.conversation, k.sender, k.createdAt);
      if fault == 1 {
        return StorageFailure;
      }
      journal := journal + [Event(OutboxSent, k.conversation, id, payload, now)];
      return Ok;
    }

    /** Old index rows out, new ones in. */
    method ReplaceText(row: FtsRow, fault: nat) returns (ok: bool)
      modifies this`fts, this`fuzzy
      ensures ok <==> fault >= 3
      ensures ok ==> fts == FtsWithout(old(fts), row.message) + [row]
      ensures ok ==> fuzzy == FuzzyWithout(old(fuzzy), row.message) + FuzzyRows(lower, row.text, row.message)
    {
      if fault == 0 {
        return false;
      }
      fts := FtsWithout(fts, row.message);
      if fault == 1 {
        return false;
      }
      fts := fts + [row];
      if fault == 2 {
        return false;
      }
      fuzzy := FuzzyWithout(fuzzy, row.message);
      IndexFuzzy(row.text, row.message);
      return true;
    }

    method EditMessage(id: Id, text: string, now: i64, fault: nat) returns (outcome: Outcome)
      modifies this
      ensures (State(), outcome) == EditStep(lower, old(State()), id, text, now, fault)
    {
      if text == [] || id !in skeletons || skeletons[id].bodyState != LocalPlainAvailable {
        return InvalidMessage;
      }
      var saved := State();
      var ok := EditMessageInner(id, text, now, fault);
      if !ok {
        Rollback(saved);
        return StorageFailure;
      }
      return Ok;
    }

    method EditMessageInner(id: Id, text: string, now: i64, fault: nat) returns (ok: bool)
      requires id in skeletons
      modifies this
      ensures ok <==> fault >= EDIT_STATEMENTS
      ensures ok ==> State() == AfterEdit(lower, old(State()), id, text, now)
    {
      var k := skeletons[id];
      if fault == 0 {
        return false;
      }
      if id in bodies {
        bodies := bodies[id := text];
      }
      if fault == 1 {
        return false;
      }
      skeletons := skeletons[id := k.(editedAt := Some(now))];
      var reindexed := ReplaceText(FtsRow(id, k.conversation, k.sender, k.createdAt, text), fault - 2);
      if !reindexed {
        return false;
      }
      var payload := EncodeEditPayload(id, now);
      if fault == 5 {
        return false;
      }
      journal := journal + [Event(MessageEdited, k.conversation, id, payload, now)];
      return true;
    }

    method DeleteMessage(id: Id, scope: DeleteScope, now: i64, fault: nat) returns (outcome: Outcome)
      modifies this
      ensures (State(), outcome) == DeleteStep(old(State()), id, scope, now, fault)
    {
      if id !in skeletons {
        return InvalidMessage;
      }
      var target := TryTransition(skeletons[id].bodyState, DeletedState(scope));
      if target.None? {
        return IllegalTransition;
      }
      var saved := State();
      var ok := DeleteMessageInner(id, scope, target.value, now, fault);
      if !ok {
        Rollback(saved);
        return StorageFailure;
      }
      return Ok;
    }

    method DeleteMessageInner(id: Id, scope: DeleteScope, target: BodyState, now: i64, fault: nat)
      returns (ok: bool)
      requires id in skeletons && target == DeletedState(scope)
      modifies this
      ensures ok <==> fault >= DeleteStatements(old(State()), id, scope)
      ensures ok ==> State() == AfterDelete(old(State()), id, scope, now)
    {
      var k := skeletons[id];
      if fault == 0 {
        return false;
      }
      skeletons := skeletons[id := k.(deletedAt := Some(now), bodyState := target)];
      if fault == 1 {
        return false;
      }
      fts := FtsWithout(fts, id);
      if fault == 2 {
        return false;
      }
      fuzzy := FuzzyWithout(fuzzy, id);
      var done := 3;
      if scope == ForEveryone {
        if fault == done {
          return false;
        }
        bodies := bodies - {id};
        done := done + 1;
      }
      var payload := EncodeDeletePayload(id, scope);
      if fault == done {
        return false;
      }
      journal := journal + [Event(MessageDeleted, k.conversation, id, payload, now)];
      if fault == done + 1 {
        return false;
      }
      var mine := AssetsOf(assets, id);
      ok := RecordMediaDeleted(k.conversation, id, mine, now, fault - done - 2);
    }

    method RecordMediaDeleted(conversation: Id, id: Id, mine: seq<Id>, now: i64, fault: nat) returns (ok: bool)
      modifies this`journal
      ensures ok <==> fault >= |mine|
      ensures ok ==> journal == old(journal) + MediaDeletedEvents(conversation, id, mine, now)
    {
      var i := 0;
      while i < |mine|
        invariant 0 <= i <= |mine| && i <= fault
        invariant journal == old(journal) + MediaDeletedEvents(conversation, id, mine, now)[..i]
      {
        var payload := EncodeMediaDeletePayload(mine[i], id);
        if fault == i {
          return false;
        }
        journal := journal + [Event(EventKind.MediaDeleted, conversation, id, payload, now)];
        i := i + 1;
      }
      return true;
    }

    method IngestNextMessage(d: Delivered, newSoFar: nat, duplicatesSoFar: nat)
      returns (newCount: nat, duplicateCount: nat, failed: bool)
      modifies this
      ensures PageResult(State(), newCount, duplicateCount, failed) ==
              IngestNext(lower, PageResult(old(State()), newSoFar, duplicatesSoFar, false), d)
    {
      newCount, duplicateCount, failed := newSoFar, duplicatesSoFar, false;
      var outcome := PersistIngestedMessage(d.m, d.now, d.fault);
      if outcome == Ok {
        newCount := newCount + 1;
      } else if outcome == DuplicateMessage {
        duplicateCount := duplicateCount + 1;
      } else {
        failed := true;
      }
    }

    /** The loop of `ingest_remote_messages` over a fetched page. */
    method IngestRemoteMessages(page: seq<Delivered>) returns (newCount: nat, duplicateCount: nat, failed: bool)
      modifies this
      ensures PageResult(State(), newCount, duplicateCount, failed) == IngestPage(lower, old(State()), page)
    {
      newCount, duplicateCount, failed := 0, 0, false;
      ghost var before := State();
      var i := 0;
      while i < |page|
        invariant 0 <= i <= |page|
        invariant PageResult(State(), newCount, duplicateCount, failed) == IngestPage(lower, before, page[..i])
        invariant !failed
      {
        NextOfPage(lower, before, page, i);
        newCount, duplicateCount, failed := IngestNextMessage(page[i], newCount, duplicateCount);
        if failed {
          FailedPage(lower, before, page, i + 1);
          return;
        }
        i := i + 1;
      }
      assert page[..|page|] == page;
    }

    /** The loop of `enforce_storage_budget` over the message bodies of its plan. */
    method OffloadBodies(plan: seq<Id>) returns (offloaded: nat)
      requires forall id :: id in plan ==> Evictable(State(), id)
      modifies this
      ensures State() == AfterEvict(old(State()), plan)
      ensures offloaded == |plan|
    {
      ghost var before := State();
      var i := 0;
      while i < |plan|
        invariant 0 <= i <= |plan|
        invariant State() == AfterEvict(before, plan[..i])
      {
        var id := plan[i];
        assert Evictable(before, id) && id in skeletons;
        skeletons := skeletons[id := skeletons[id].(bodyState := RemoteArchiveOnly)];
        OffloadOneMore(before, plan[..i], id);
        assert plan[..i] + [id] == plan[..i + 1];
        i := i + 1;
      }
      assert plan[..|plan|] == plan;
      return |plan|;
    }
  }
}

/**
 The shard cache of `search/shard_cache.rs`: least recently used by counter timestamps.

 `Cache` is the cache as a value and `Apply` one operation on it.  Two results are about
 whole traces: the timestamps implement a recency list (`ListStep`, the textbook LRU), and a
 larger cache always holds everything a smaller one does.
 */
module ShardCache {
  import opened Common

  datatype Entry<F> = Entry(frame: F, lastAccess: nat)

  datatype Cache<K(!new), F(!new)> = Cache(entries: map<K, Entry<F>>, counter: nat)

  datatype Op<K, F> = Get(key: K) | Insert(key: K, frame: F) | Clear

  /** Timestamps are distinct and not ahead of the counter. */
  ghost predicate Valid<K(!new), F(!new)>(c: Cache<K, F>) {
    && (forall k :: k in c.entries ==> c.entries[k].lastAccess <= c.counter)
    && (forall k, l ::
          k in c.entries && l in c.entries && c.entries[k].lastAccess == c.entries[l].lastAccess ==> k == l)
  }

  /** `k` was touched longest ago. */
  ghost predicate IsOldest<K(!new), F(!new)>(entries: map<K, Entry<F>>, k: K) {
    k in entries && forall l :: l in entries ==> entries[k].lastAccess <= entries[l].lastAccess
  }

  lemma {:induction false} OldestExists<K(!new), F(!new)>(entries: map<K, Entry<F>>)
    requires |entries| > 0
    ensures exists k :: IsOldest(entries, k)
    decreases |entries|
  {
    var k :| k in entries;
    if !IsOldest(entries, k) {
      var rest := map l | l in entries && l != k :: entries[l];
      var l :| l in entries && entries[l].lastAccess < entries[k].lastAccess;
      assert l in rest;
      assert entries.Keys == rest.Keys + {k};
      OldestExists(rest);
      var m :| IsOldest(rest, m);
      assert IsOldest(entries, m);
    }
  }

  ghost function Oldest<K(!new), F(!new)>(entries: map<K, Entry<F>>): (k: K)
    requires |entries| > 0
    ensures IsOldest(entries, k)
  {
    OldestExists(entries);
    var k :| IsOldest(entries, k);
    k
  }

  /** The entries after making room for `key`. */
  ghost function MakeRoom<K(!new), F(!new)>(entries: map<K, Entry<F>>, key: K, maxEntries: nat): map<K, Entry<F>> {
    if |entries| >= maxEntries && key !in entries && |entries| > 0 then entries - {Oldest(entries)} else entries
  }

  ghost function Apply<K(!new), F(!new)>(c: Cache<K, F>, op: Op<K, F>, maxEntries: nat): (Cache<K, F>, Option<F>) {
    match op
    case Get(key) =>
      var ts := c.counter + 1;
      if key in c.entries then
        (Cache(c.entries[key := c.entries[key].(lastAccess := ts)], ts), Some(c.entries[key].frame))
      else (Cache(c.entries, ts), None)
    case Insert(key, frame) =>
      var ts := c.counter + 1;
      (Cache(MakeRoom(c.entries, key, maxEntries)[key := Entry(frame, ts)], ts), None)
    case Clear => (Cache(map[], c.counter), None)
  }

  /** The cache and the answers after a trace of operations. */
  ghost function Trace<K(!new), F(!new)>(ops: seq<Op<K, F>>, maxEntries: nat): (Cache<K, F>, seq<Option<F>>) {
    if ops == [] then (Cache(map[], 0), [])
    else
      var (c, answers) := Trace(ops[..|ops| - 1], maxEntries);
      var (c', answer) := Apply(c, ops[|ops| - 1], maxEntries);
      (c', answers + [answer])
  }

  // ---------------------------------------------------------------------------
  // The program
  // ---------------------------------------------------------------------------

  class ShardCache<K(!new, ==), F(!new)> {
    const maxEntries: nat
    var entries: map<K, Entry<F>>
    var counter: nat

    ghost function State(): Cache<K, F>
      reads this
    {
      Cache(entries, counter)
    }

    constructor (maxEntries: nat)
      ensures this.maxEntries == maxEntries && State() == Cache(map[], 0)
    {
      this.maxEntries := maxEntries;
      entries, counter := map[], 0;
    }

    method Get(key: K) returns (answer: Option<F>)
      modifies this
      ensures (State(), answer) == Apply(old(State()), Op.Get(key), maxEntries)
    {
      counter := counter + 1;
      var ts := counter;
      if key in entries {
        entries := entries[key := entries[key].(lastAccess := ts)];
        return Some(entries[key].frame);
      }
      return None;
    }

    method Insert(key: K, frame: F)
      requires Valid(State())
      modifies this
      ensures (State(), None) == Apply(old(State()), Op.Insert(key, frame), maxEntries)
    {
      counter := counter + 1;
      var ts := counter;
      if |entries| >= maxEntries && key !in entries {
        var lru := FindOldest();
        if lru.Some? {
          OldestIsUnique(Cache(entries, counter - 1), lru.value);
          entries := entries - {lru.value};
        }
      }
      entries := entries[key := Entry(frame, ts)];
    }

    /** The minimum by timestamp over the entries, in whatever order they come. */
    method FindOldest() returns (lru: Option<K>)
      ensures lru.None? <==> |entries| == 0
      ensures lru.Some? ==> IsOldest(entries, lru.value)
    {
      lru := None;
      var rest := entries.Keys;
      while rest != {}
        invariant rest <= entries.Keys
        invariant lru.None? ==> rest == entries.Keys
        invariant lru.Some? ==> lru.value in entries
        invariant lru.Some? ==> forall l :: l in entries && l !in rest ==>
                    entries[lru.value].lastAccess <= entries[l].lastAccess
        decreases rest
      {
        var k :| k in rest;
        if lru.None? || entries[k].lastAccess < entries[lru.value].lastAccess {
          lru := Some(k);
        }
        rest := rest - {k};
      }
      if lru.None? {
        assert entries.Keys == {};
      }
    }

    method Clear()
      modifies this
      ensures (State(), None) == Apply(old(State()), Op.Clear, maxEntries)
    {
      entries := map[];
    }
  }

  lemma OldestIsUnique<K(!new), F(!new)>(c: Cache<K, F>, k: K)
    requires Valid(c) && IsOldest(c.entries, k)
    ensures |c.entries| > 0 && Oldest(c.entries) == k
  {
    assert k in c.entries.Keys;
    var o := Oldest(c.entries);
    assert c.entries[o].lastAccess == c.entries[k].lastAccess;
  }

  // ---------------------------------------------------------------------------
  // Every cache
  // ---------------------------------------------------------------------------

  /** A capacity of zero behaves as one. */
  function Capacity(maxEntries: nat): nat {
    if maxEntries == 0 then 1 else maxEntries
  }

  lemma SizeAfterWrite<K(!new), F(!new)>(entries: map<K, Entry<F>>, key: K, e: Entry<F>)
    ensures |entries[key := e]| == if key in entries then |entries| else |entries| + 1
  {
    var after := entries[key := e];
    if key in entries {
      assert after.Keys == entries.Keys;
    } else {
      assert after.Keys == entries.Keys + {key};
    }
  }

  lemma SizeAfterRemove<K(!new), F(!new)>(entries: map<K, Entry<F>>, key: K)
    requires key in entries
    ensures |entries - {key}| == |entries| - 1
  {
    assert entries.Keys == (entries - {key}).Keys + {key};
  }

  lemma SizeAfterInsert<K(!new), F(!new)>(c: Cache<K, F>, key: K, frame: F, maxEntries: nat)
    requires |c.entries| <= Capacity(maxEntries)
    ensures |Apply(c, Insert(key, frame), maxEntries).0.entries| ==
            if key in c.entries || |c.entries| == Capacity(maxEntries) then |c.entries| else |c.entries| + 1
    ensures |c.entries| == 0 ==> c.entries.Keys == {}
  {
    var room := MakeRoom(c.entries, key, maxEntries);
    SizeAfterWrite(room, key, Entry(frame, c.counter + 1));
    if room != c.entries {
      SizeAfterRemove(c.entries, Oldest(c.entries));
    }
    if key in c.entries {
      assert c.entries.Keys != {};
    }
  }

  lemma StepKeepsValid<K(!new), F(!new)>(c: Cache<K, F>, op: Op<K, F>, maxEntries: nat)
    requires Valid(c) && |c.entries| <= Capacity(maxEntries)
    ensures Valid(Apply(c, op, maxEntries).0)
    ensures |Apply(c, op, maxEntries).0.entries| <= Capacity(maxEntries)
  {
    match op
    case Get(key) =>
      if key in c.entries {
        SizeAfterWrite(c.entries, key, c.entries[key].(lastAccess := c.counter + 1));
      }
    case Insert(key, frame) => SizeAfterInsert(c, key, frame, maxEntries);
    case Clear =>
  }

  /** Never more than `max(1, maxEntries)` shards. */
  lemma {:induction false} TraceIsValid<K(!new), F(!new)>(ops: seq<Op<K, F>>, maxEntries: nat)
    ensures Valid(Trace(ops, maxEntries).0)
    ensures |Trace(ops, maxEntries).0.entries| <= Capacity(maxEntries)
    ensures |Trace(ops, maxEntries).1| == |ops|
    decreases |ops|
  {
    if ops != [] {
      TraceIsValid(ops[..|ops| - 1], maxEntries);
      StepKeepsValid(Trace(ops[..|ops| - 1], maxEntries).0, ops[|ops| - 1], maxEntries);
    }
  }

  // ---------------------------------------------------------------------------
  // Inclusion
  // ---------------------------------------------------------------------------

  ghost predicate Submap<K(!new), F(!new)>(small: map<K, Entry<F>>, large: map<K, Entry<F>>) {
    forall k :: k in small ==> k in large && large[k] == small[k]
  }

  /** The larger cache has every entry of the smaller; while the smaller has room, they are the same. */
  ghost predicate Includes<K(!new), F(!new)>(small: Cache<K, F>, large: Cache<K, F>, maxSmall: nat) {
    && small.counter == large.counter
    && Submap(small.entries, large.entries)
    && (|small.entries| < Capacity(maxSmall) ==> small.entries == large.entries)
  }

  /** When the larger cache evicts a shard the smaller one has, the smaller one evicts it too. */
  lemma RoomKeepsSubmap<K(!new), F(!new)>(
    small: Cache<K, F>, large: Cache<K, F>, key: K, maxSmall: nat, maxLarge: nat)
    requires Valid(small) && Includes(small, large, maxSmall) && maxSmall <= maxLarge
    requires |small.entries| <= Capacity(maxSmall) && |large.entries| <= Capacity(maxLarge)
    ensures Submap(MakeRoom(small.entries, key, maxSmall), MakeRoom(large.entries, key, maxLarge))
  {
    if |large.entries| >= maxLarge && key !in large.entries && |large.entries| > 0 {
      var v := Oldest(large.entries);
      if v in small.entries {
        assert IsOldest(small.entries, v);
        OldestIsUnique(small, v);
      }
    }
  }

  lemma InsertKeepsInclusion<K(!new), F(!new)>(
    small: Cache<K, F>, large: Cache<K, F>, key: K, frame: F, maxSmall: nat, maxLarge: nat)
    requires Valid(small) && Valid(large) && Includes(small, large, maxSmall)
    requires maxSmall <= maxLarge
    requires |small.entries| <= Capacity(maxSmall) && |large.entries| <= Capacity(maxLarge)
    ensures Includes(Apply(small, Op.Insert(key, frame), maxSmall).0,
                     Apply(large, Op.Insert(key, frame), maxLarge).0, maxSmall)
  {
    RoomKeepsSubmap(small, large, key, maxSmall, maxLarge);
    SizeAfterInsert(small, key, frame, maxSmall);
    if |small.entries| < Capacity(maxSmall) {
      NoEviction(small.entries, key, maxSmall);
      NoEviction(large.entries, key, maxLarge);
    }
  }

  lemma NoEviction<K(!new), F(!new)>(entries: map<K, Entry<F>>, key: K, maxEntries: nat)
    requires |entries| < Capacity(maxEntries)
    ensures MakeRoom(entries, key, maxEntries) == entries
  {
  }

  lemma StepKeepsInclusion<K(!new), F(!new)>(
    small: Cache<K, F>, large: Cache<K, F>, op: Op<K, F>, maxSmall: nat, maxLarge: nat)
    requires Valid(small) && Valid(large) && Includes(small, large, maxSmall)
    requires maxSmall <= maxLarge
    requires |small.entries| <= Capacity(maxSmall) && |large.entries| <= Capacity(maxLarge)
    ensures Includes(Apply(small, op, maxSmall).0, Apply(large, op, maxLarge).0, maxSmall)
    ensures Apply(small, op, maxSmall).1.Some? ==> Apply(large, op, maxLarge).1 == Apply(small, op, maxSmall).1
  {
    match op
    case Get(key) =>
      if key in small.entries {
        SizeAfterWrite(small.entries, key, small.entries[key].(lastAccess := small.counter + 1));
      }
    case Insert(key, frame) => InsertKeepsInclusion(small, large, key, frame, maxSmall, maxLarge);
    case Clear =>
  }

  /**
   On every trace the larger cache holds what the smaller one holds, with the same frames and
   timestamps, and every hit of the smaller is the same hit of the larger.
   */
  lemma {:induction false} LargerCacheIncludesSmaller<K(!new), F(!new)>(
    ops: seq<Op<K, F>>, maxSmall: nat, maxLarge: nat)
    requires maxSmall <= maxLarge
    ensures Includes(Trace(ops, maxSmall).0, Trace(ops, maxLarge).0, maxSmall)
    ensures |Trace(ops, maxSmall).1| == |Trace(ops, maxLarge).1| == |ops|
    ensures forall i :: 0 <= i < |ops| && Trace(ops, maxSmall).1[i].Some? ==>
              Trace(ops, maxLarge).1[i] == Trace(ops, maxSmall).1[i]
    decreases |ops|
  {
    if ops != [] {
      var front, op := ops[..|ops| - 1], ops[|ops| - 1];
      LargerCacheIncludesSmaller(front, maxSmall, maxLarge);
      TraceIsValid(front, maxSmall);
      TraceIsValid(front, maxLarge);
      StepKeepsInclusion(Trace(front, maxSmall).0, Trace(front, maxLarge).0, op, maxSmall, maxLarge);
    }
  }

  // ---------------------------------------------------------------------------
  // The recency list
  // ---------------------------------------------------------------------------

  datatype Shard<K, F> = Shard(key: K, frame: F)

  ghost predicate Holds<K(!new), F(!new)>(list: seq<Shard<K, F>>, key: K) {
    list != [] && (list[0].key == key || Holds(list[1..], key))
  }

  ghost function FrameOf<K(!new), F(!new)>(list: seq<Shard<K, F>>, key: K): F
    requires Holds(list, key)
  {
    if list[0].key == key then list[0].frame else FrameOf(list[1..], key)
  }

  ghost function Without<K(!new), F(!new)>(list: seq<Shard<K, F>>, key: K): seq<Shard<K, F>> {
    if list == [] then []
    else if list[0].key == key then Without(list[1..], key)
    else [list[0]] + Without(list[1..], key)
  }

  /** The list with room for one more shard. */
  ghost function DropWhenFull<K(!new), F(!new)>(list: seq<Shard<K, F>>, capacity: nat): seq<Shard<K, F>> {
    if |list| >= capacity && list != [] then list[..|list| - 1] else list
  }

  /** What stays behind a shard that is put at the front. */
  ghost function Behind<K(!new), F(!new)>(list: seq<Shard<K, F>>, key: K, capacity: nat): seq<Shard<K, F>> {
    if Holds(list, key) then Without(list, key) else DropWhenFull(list, capacity)
  }

  /** Textbook LRU: a touched shard moves to the front, a full list drops its last shard. */
  ghost function ListStep<K(!new), F(!new)>(list: seq<Shard<K, F>>, op: Op<K, F>, capacity: nat)
    : (seq<Shard<K, F>>, Option<F>)
  {
    match op
    case Get(key) =>
      if Holds(list, key) then
        ([Shard(key, FrameOf(list, key))] + Without(list, key), Some(FrameOf(list, key)))
      else (list, None)
    case Insert(key, frame) => ([Shard(key, frame)] + Behind(list, key, capacity), None)
    case Clear => ([], None)
  }

  ghost function ListTrace<K(!new), F(!new)>(ops: seq<Op<K, F>>, capacity: nat): (seq<Shard<K, F>>, seq<Option<F>>) {
    if ops == [] then ([], [])
    else
      var (list, answers) := ListTrace(ops[..|ops| - 1], capacity);
      var (list', answer) := ListStep(list, ops[|ops| - 1], capacity);
      (list', answers + [answer])
  }

  ghost predicate IsNewest<K(!new), F(!new)>(entries: map<K, Entry<F>>, k: K) {
    k in entries && forall l :: l in entries && l != k ==> entries[l].lastAccess < entries[k].lastAccess
  }

  /** The list is the entries, most recent first. */
  ghost predicate Lists<K(!new), F(!new)>(list: seq<Shard<K, F>>, entries: map<K, Entry<F>>)
    decreases |list|
  {
    if list == [] then entries == map[]
    else
      && IsNewest(entries, list[0].key)
      && entries[list[0].key].frame == list[0].frame
      && Lists(list[1..], entries - {list[0].key})
  }

  lemma {:induction false} ListedKeys<K(!new), F(!new)>(list: seq<Shard<K, F>>, entries: map<K, Entry<F>>, key: K)
    requires Lists(list, entries)
    ensures Holds(list, key) <==> key in entries
    ensures key in entries ==> FrameOf(list, key) == entries[key].frame
    ensures key !in entries ==> Without(list, key) == list
    decreases |list|
  {
    if list != [] {
      ListedKeys(list[1..], entries - {list[0].key}, key);
    }
  }

  lemma {:induction false} ListedSize<K(!new), F(!new)>(list: seq<Shard<K, F>>, entries: map<K, Entry<F>>)
    requires Lists(list, entries)
    ensures |list| == |entries|
    decreases |list|
  {
    if list != [] {
      ListedSize(list[1..], entries - {list[0].key});
      SizeAfterRemove(entries, list[0].key);
    }
  }

  lemma PushFront<K(!new), F(!new)>(list: seq<Shard<K, F>>, entries: map<K, Entry<F>>, key: K, e: Entry<F>)
    requires Lists(list, entries) && key !in entries
    requires forall k :: k in entries ==> entries[k].lastAccess < e.lastAccess
    ensures Lists([Shard(key, e.frame)] + list, entries[key := e])
  {
    assert entries[key := e] - {key} == entries;
    assert ([Shard(key, e.frame)] + list)[1..] == list;
  }

  lemma {:induction false} Remove<K(!new), F(!new)>(list: seq<Shard<K, F>>, entries: map<K, Entry<F>>, key: K)
    requires Lists(list, entries)
    ensures Lists(Without(list, key), entries - {key})
    decreases |list|
  {
    if list != [] {
      var h, rest := list[0].key, entries - {list[0].key};
      if h == key {
        ListedKeys(list[1..], rest, key);
      } else {
        Remove(list[1..], rest, key);
        assert rest - {key} == (entries - {key}) - {h};
        assert Without(list, key)[1..] == Without(list[1..], key);
      }
    } else {
      assert entries - {key} == map[];
    }
  }

  lemma {:induction false} DropLast<K(!new), F(!new)>(list: seq<Shard<K, F>>, entries: map<K, Entry<F>>)
    requires Lists(list, entries) && list != []
    ensures IsOldest(entries, list[|list| - 1].key)
    ensures Lists(list[..|list| - 1], entries - {list[|list| - 1].key})
    decreases |list|
  {
    var h, v := list[0].key, list[|list| - 1].key;
    if |list| > 1 {
      var rest := entries - {h};
      DropLast(list[1..], rest);
      forall l | l in entries
        ensures entries[v].lastAccess <= entries[l].lastAccess
      {
        assert l == h || l in rest;
      }
      assert rest - {v} == (entries - {v}) - {h};
      assert list[..|list| - 1][1..] == list[1..][..|list| - 2];
    } else {
      assert list[1..] == [];
      assert forall l :: l in entries ==> l == h || l in entries - {h};
    }
  }

  /** Making room drops the last shard of a full list. */
  lemma RoomIsDrop<K(!new), F(!new)>(list: seq<Shard<K, F>>, c: Cache<K, F>, key: K, maxEntries: nat)
    requires Valid(c) && Lists(list, c.entries) && key !in c.entries
    ensures Lists(DropWhenFull(list, Capacity(maxEntries)), MakeRoom(c.entries, key, maxEntries))
  {
    ListedSize(list, c.entries);
    if list != [] && |list| >= Capacity(maxEntries) {
      DropLast(list, c.entries);
      OldestIsUnique(c, list[|list| - 1].key);
    }
  }

  lemma RoomIsBehind<K(!new), F(!new)>(list: seq<Shard<K, F>>, c: Cache<K, F>, key: K, maxEntries: nat)
    requires Valid(c) && Lists(list, c.entries)
    ensures Lists(Behind(list, key, Capacity(maxEntries)), MakeRoom(c.entries, key, maxEntries) - {key})
  {
    ListedKeys(list, c.entries, key);
    if key in c.entries {
      Remove(list, c.entries, key);
    } else {
      RoomIsDrop(list, c, key, maxEntries);
      assert MakeRoom(c.entries, key, maxEntries) - {key} == MakeRoom(c.entries, key, maxEntries);
    }
  }

  lemma PutInFront<K(!new), F(!new)>(list: seq<Shard<K, F>>, entries: map<K, Entry<F>>, key: K, e: Entry<F>)
    requires Lists(list, entries - {key})
    requires forall k :: k in entries ==> entries[k].lastAccess < e.lastAccess
    ensures Lists([Shard(key, e.frame)] + list, entries[key := e])
  {
    PushFront(list, entries - {key}, key, e);
    assert (entries - {key})[key := e] == entries[key := e];
  }

  lemma GetRefinesList<K(!new), F(!new)>(list: seq<Shard<K, F>>, c: Cache<K, F>, key: K, maxEntries: nat)
    requires Valid(c) && Lists(list, c.entries)
    ensures Lists(ListStep(list, Op.Get(key), Capacity(maxEntries)).0, Apply(c, Op.Get(key), maxEntries).0.entries)
    ensures Apply(c, Op.Get(key), maxEntries).1 == ListStep(list, Op.Get(key), Capacity(maxEntries)).1
  {
    ListedKeys(list, c.entries, key);
    if key in c.entries {
      Remove(list, c.entries, key);
      PutInFront(Without(list, key), c.entries, key, c.entries[key].(lastAccess := c.counter + 1));
    }
  }

  lemma InsertRefinesList<K(!new), F(!new)>(
    list: seq<Shard<K, F>>, c: Cache<K, F>, key: K, e: Entry<F>, maxEntries: nat, room: map<K, Entry<F>>)
    requires Valid(c) && Lists(list, c.entries) && e.lastAccess == c.counter + 1
    requires room == MakeRoom(c.entries, key, maxEntries)
    ensures Lists([Shard(key, e.frame)] + Behind(list, key, Capacity(maxEntries)), room[key := e])
  {
    RoomIsBehind(list, c, key, maxEntries);
    PutInFront(Behind(list, key, Capacity(maxEntries)), room, key, e);
  }

  lemma StepRefinesList<K(!new), F(!new)>(list: seq<Shard<K, F>>, c: Cache<K, F>, op: Op<K, F>, maxEntries: nat)
    requires Valid(c) && Lists(list, c.entries)
    ensures Lists(ListStep(list, op, Capacity(maxEntries)).0, Apply(c, op, maxEntries).0.entries)
    ensures Apply(c, op, maxEntries).1 == ListStep(list, op, Capacity(maxEntries)).1
  {
    match op
    case Get(key) => GetRefinesList(list, c, key, maxEntries);
    case Insert(key, frame) =>
      var e, room := Entry(frame, c.counter + 1), MakeRoom(c.entries, key, maxEntries);
      InsertRefinesList(list, c, key, e, maxEntries, room);
      assert Apply(c, op, maxEntries).0.entries == room[key := e];
    case Clear =>
  }

  /** On every trace the cache answers as the recency list does, and holds its shards. */
  lemma {:induction false} TraceRefinesList<K(!new), F(!new)>(ops: seq<Op<K, F>>, maxEntries: nat)
    ensures Lists(ListTrace(ops, Capacity(maxEntries)).0, Trace(ops, maxEntries).0.entries)
    ensures Trace(ops, maxEntries).1 == ListTrace(ops, Capacity(maxEntries)).1
    decreases |ops|
  {
    if ops != [] {
      var front, op := ops[..|ops| - 1], ops[|ops| - 1];
      TraceRefinesList(front, maxEntries);
      TraceIsValid(front, maxEntries);
      StepRefinesList(ListTrace(front, Capacity(maxEntries)).0, Trace(front, maxEntries).0, op, maxEntries);
    }
  }
}

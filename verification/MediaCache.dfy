/**
 The media cache of `media/cache.rs`: a directory of files and a byte counter.

 Overwriting a file counts it twice, so the counter runs ahead of the bytes on disk.  It
 never falls back, which is why the bound holds; but what it is ahead by is budget the cache
 has lost for good, and what it is behind by from the start is added to the bound.
 */
module MediaCache {
  import opened Common

  datatype File = File(size: nat, modified: nat)

  type Dir = map<Bytes, File>

  datatype Disk = Disk(maxBytes: nat, currentBytes: nat, files: Dir)

  // ---------------------------------------------------------------------------
  // Bytes on disk
  // ---------------------------------------------------------------------------

  ghost function Total(files: Dir): nat
    decreases |files|
  {
    if files.Keys == {} then 0
    else
      var name :| name in files;
      assert files.Keys == (files - {name}).Keys + {name};
      files[name].size + Total(files - {name})
  }

  lemma {:induction false} TotalWithout(files: Dir, name: Bytes)
    requires name in files
    ensures Total(files) == files[name].size + Total(files - {name})
    decreases |files|
  {
    var first :| first in files && Total(files) == files[first].size + Total(files - {first});
    if first != name {
      assert files.Keys == (files - {first}).Keys + {first};
      TotalWithout(files - {first}, name);
      assert files - {first} - {name} == files - {name} - {first};
      assert files.Keys == (files - {name}).Keys + {name};
      TotalWithout(files - {name}, first);
    }
  }

  lemma TotalAfterWrite(files: Dir, name: Bytes, f: File)
    ensures Total(files[name := f]) == f.size + Total(files - {name})
  {
    TotalWithout(files[name := f], name);
    assert files[name := f] - {name} == files - {name};
  }

  function SizeOf(files: Dir, name: Bytes): nat {
    if name in files then files[name].size else 0
  }

  lemma TotalSplit(files: Dir, name: Bytes)
    ensures Total(files) == SizeOf(files, name) + Total(files - {name})
  {
    if name in files {
      TotalWithout(files, name);
    } else {
      assert files - {name} == files;
    }
  }

  // ---------------------------------------------------------------------------
  // Operations
  // ---------------------------------------------------------------------------

  function SaturatingSub(x: nat, y: nat): nat {
    if x >= y then x - y else 0
  }

  function Remove(c: Disk, name: Bytes): Disk {
    c.(files := c.files - {name}, currentBytes := SaturatingSub(c.currentBytes, SizeOf(c.files, name)))
  }

  /** Every file once, oldest first. */
  ghost predicate IsAgeOrder(files: Dir, order: seq<Bytes>) {
    && (forall name :: name in order <==> name in files)
    && (forall i, j :: 0 <= i < j < |order| ==> order[i] != order[j])
    && (forall i, j :: 0 <= i < j < |order| && order[i] in files && order[j] in files ==>
          files[order[i]].modified <= files[order[j]].modified)
  }

  /** Remove files from the front of the list until the counter is at the target. */
  function EvictUntil(c: Disk, order: seq<Bytes>, target: nat): Disk
    decreases |order|
  {
    if order == [] || c.currentBytes <= target then c
    else EvictUntil(Remove(c, order[0]), order[1..], target)
  }

  function AfterStore(c: Disk, name: Bytes, size: nat, now: nat, order: seq<Bytes>): Disk {
    var room := if c.currentBytes + size > c.maxBytes
                then EvictUntil(c, order, SaturatingSub(c.maxBytes, size)) else c;
    room.(files := room.files[name := File(size, now)], currentBytes := room.currentBytes + size)
  }

  /**
   How far the counter is ahead of the bytes on disk.  It is behind them, and this negative, when
   the cache was opened on a directory with files: the counter starts at zero.
   */
  ghost function Lead(c: Disk): int {
    c.currentBytes - Total(c.files)
  }

  // ---------------------------------------------------------------------------
  // The program
  // ---------------------------------------------------------------------------

  class MediaCache {
    const maxBytes: nat
    var currentBytes: nat
    var files: Dir

    function State(): Disk
      reads this
    {
      Disk(maxBytes, currentBytes, files)
    }

    /** Opened on a directory as it is, with a counter of zero. */
    constructor (maxBytes: nat, files: Dir)
      ensures State() == Disk(maxBytes, 0, files)
    {
      this.maxBytes := maxBytes;
      this.currentBytes, this.files := 0, files;
    }

    method Store(name: Bytes, size: nat, now: nat) returns (ghost order: seq<Bytes>)
      modifies this
      ensures IsAgeOrder(old(files), order)
      ensures State() == AfterStore(old(State()), name, size, now, order)
    {
      if currentBytes + size > maxBytes {
        order := EvictOldestUntilFit(size);
      } else {
        var listed := ListOldestFirst();
        order := listed;
      }
      files := files[name := File(size, now)];
      currentBytes := currentBytes + size;
    }

    method EvictOldestUntilFit(incoming: nat) returns (order: seq<Bytes>)
      modifies this
      ensures IsAgeOrder(old(files), order)
      ensures State() == EvictUntil(old(State()), order, SaturatingSub(maxBytes, incoming))
    {
      var target := SaturatingSub(maxBytes, incoming);
      order := ListOldestFirst();
      ghost var before := State();
      var i := 0;
      while i < |order| && currentBytes > target
        invariant 0 <= i <= |order|
        invariant EvictUntil(before, order, target) == EvictUntil(State(), order[i..], target)
      {
        var name := order[i];
        currentBytes, files := SaturatingSub(currentBytes, SizeOf(files, name)), files - {name};
        assert order[i..][0] == name && order[i..][1..] == order[i + 1..];
        i := i + 1;
      }
    }

    /** Read the directory and sort by modification time. */
    method ListOldestFirst() returns (order: seq<Bytes>)
      ensures IsAgeOrder(files, order)
    {
      order := [];
      var rest := files.Keys;
      while rest != {}
        invariant rest <= files.Keys
        invariant forall name :: name in order <==> name in files && name !in rest
        invariant forall i, j :: 0 <= i < j < |order| ==> order[i] != order[j]
        invariant forall i, j :: 0 <= i < j < |order| ==> files[order[i]].modified <= files[order[j]].modified
        invariant forall name, i :: name in rest && 0 <= i < |order| ==>
                    files[order[i]].modified <= files[name].modified
        decreases rest
      {
        var oldest := FindOldest(rest);
        assert forall i :: 0 <= i < |order| ==> order[i] in order;
        order := order + [oldest];
        rest := rest - {oldest};
      }
    }

    method FindOldest(names: set<Bytes>) returns (oldest: Bytes)
      requires names != {} && names <= files.Keys
      ensures oldest in names && forall name :: name in names ==> files[oldest].modified <= files[name].modified
    {
      oldest :| oldest in names;
      var rest := names - {oldest};
      while rest != {}
        invariant rest <= names && oldest in names
        invariant forall name :: name in names && name !in rest ==> files[oldest].modified <= files[name].modified
        decreases rest
      {
        var name :| name in rest;
        if files[name].modified < files[oldest].modified {
          oldest := name;
        }
        rest := rest - {name};
      }
    }

    method Evict(name: Bytes)
      modifies this
      ensures State() == Remove(old(State()), name)
    {
      if name in files {
        var size := files[name].size;
        files := files - {name};
        currentBytes := SaturatingSub(currentBytes, size);
      } else {
        assert files - {name} == files;
      }
    }
  }

  // ---------------------------------------------------------------------------
  // One operation
  // ---------------------------------------------------------------------------

  lemma RemoveKeepsLead(c: Disk, name: Bytes)
    ensures Lead(Remove(c, name)) >= Lead(c)
    ensures Lead(c) >= 0 ==> Lead(Remove(c, name)) == Lead(c)
  {
    TotalSplit(c.files, name);
  }

  lemma {:induction false} EvictKeepsLead(c: Disk, order: seq<Bytes>, target: nat)
    ensures Lead(EvictUntil(c, order, target)) >= Lead(c)
    ensures Lead(c) >= 0 ==> Lead(EvictUntil(c, order, target)) == Lead(c)
    ensures EvictUntil(c, order, target).maxBytes == c.maxBytes
    decreases |order|
  {
    if order != [] && c.currentBytes > target {
      RemoveKeepsLead(c, order[0]);
      EvictKeepsLead(Remove(c, order[0]), order[1..], target);
    }
  }

  ghost function Names(order: seq<Bytes>): set<Bytes> {
    set name | name in order
  }

  /** What eviction removes is a minimal prefix of the list: without its last file the counter was over the target. */
  lemma {:induction false} EvictsMinimalPrefix(c: Disk, order: seq<Bytes>, target: nat) returns (k: nat)
    ensures k <= |order|
    ensures EvictUntil(c, order, target).files == c.files - Names(order[..k])
    ensures k == |order| || EvictUntil(c, order, target).currentBytes <= target
    ensures forall j :: 0 <= j < k ==> EvictUntil(c, order[..j], target).currentBytes > target
    decreases |order|
  {
    if order == [] || c.currentBytes <= target {
      k := 0;
    } else {
      var k' := EvictsMinimalPrefix(Remove(c, order[0]), order[1..], target);
      k := k' + 1;
      assert order[..k] == [order[0]] + order[1..][..k'];
      forall j | 0 <= j < k
        ensures EvictUntil(c, order[..j], target).currentBytes > target
      {
        if j > 0 {
          assert order[..j][1..] == order[1..][..j - 1];
        }
      }
    }
  }

  /** Either the target is met or the directory is empty. */
  lemma EvictFits(c: Disk, order: seq<Bytes>, target: nat)
    requires IsAgeOrder(c.files, order)
    ensures EvictUntil(c, order, target).currentBytes <= target || EvictUntil(c, order, target).files == map[]
  {
    var k := EvictsMinimalPrefix(c, order, target);
    if k == |order| {
      assert order[..k] == order;
    }
  }

  /** The cache that a store writes to, once it has made room. */
  function MadeRoom(c: Disk, size: nat, order: seq<Bytes>): Disk {
    if c.currentBytes + size > c.maxBytes then EvictUntil(c, order, SaturatingSub(c.maxBytes, size)) else c
  }

  /**
   What a store leaves: the new file, and every other file as it was or evicted.  It evicts only
   if the counter is over budget, no file before an older one, and until the counter is back in
   budget or the new file is alone.
   */
  lemma StoreKeepsNewest(c: Disk, name: Bytes, size: nat, now: nat, order: seq<Bytes>)
    requires IsAgeOrder(c.files, order)
    ensures var c' := AfterStore(c, name, size, now, order);
            && name in c'.files && c'.files[name] == File(size, now)
            && (forall other :: other != name && other in c'.files ==>
                  other in c.files && c'.files[other] == c.files[other])
            && (c.currentBytes + size <= c.maxBytes ==>
                  c'.files.Keys == c.files.Keys + {name} && c'.currentBytes == c.currentBytes + size)
            && (forall gone, kept :: gone in c.files && gone !in c'.files && kept != name && kept in c'.files ==>
                  c.files[gone].modified <= c.files[kept].modified)
            && (c'.currentBytes <= Max(c.maxBytes, size) || c'.files.Keys == {name})
  {
    var target := SaturatingSub(c.maxBytes, size);
    var room := EvictUntil(c, order, target);
    var k := EvictsMinimalPrefix(c, order, target);
    EvictFits(c, order, target);
    forall gone, kept | gone in c.files && gone !in room.files && kept in room.files
      ensures c.files[gone].modified <= c.files[kept].modified
    {
      var i :| 0 <= i < k && order[i] == gone;
      var j :| 0 <= j < |order| && order[j] == kept;
      assert kept !in Names(order[..k]);
    }
  }

  /** A store counts the file it overwrites, if that is still there, once more. */
  lemma StoreDrifts(c: Disk, name: Bytes, size: nat, now: nat, order: seq<Bytes>)
    ensures Lead(AfterStore(c, name, size, now, order)) ==
            Lead(MadeRoom(c, size, order)) + SizeOf(MadeRoom(c, size, order).files, name)
    ensures Lead(AfterStore(c, name, size, now, order)) >= Lead(c)
    ensures Lead(c) >= 0 ==> Lead(MadeRoom(c, size, order)) == Lead(c)
  {
    var room := MadeRoom(c, size, order);
    EvictKeepsLead(c, order, SaturatingSub(c.maxBytes, size));
    TotalAfterWrite(room.files, name, File(size, now));
    TotalSplit(room.files, name);
  }

  /**
   What a store may leave on disk.  With a counter that is ahead: the file it stored, or as much
   as the counter allows.  With one that is behind: what it is behind by on top.
   */
  function Bound(maxBytes: nat, lead: int, size: nat): nat {
    if lead >= 0 then Max(size, SaturatingSub(maxBytes, lead)) else Max(size, maxBytes) - lead
  }

  lemma StoreIsBounded(c: Disk, name: Bytes, size: nat, now: nat, order: seq<Bytes>)
    requires IsAgeOrder(c.files, order)
    ensures var c' := AfterStore(c, name, size, now, order);
            Total(c'.files) <= Bound(c.maxBytes, Lead(c'), size)
  {
    var room := MadeRoom(c, size, order);
    StoreDrifts(c, name, size, now, order);
    EvictKeepsLead(c, order, SaturatingSub(c.maxBytes, size));
    EvictFits(c, order, SaturatingSub(c.maxBytes, size));
    TotalAfterWrite(room.files, name, File(size, now));
    TotalSplit(room.files, name);
    if room.files == map[] {
      assert room.files - {name} == map[];
    }
  }

  // ---------------------------------------------------------------------------
  // Whole runs
  // ---------------------------------------------------------------------------

  datatype Op = StoreFile(name: Bytes, size: nat, now: nat, order: seq<Bytes>) | EvictFile(name: Bytes)

  function Step(c: Disk, op: Op): Disk {
    match op
    case StoreFile(name, size, now, order) => AfterStore(c, name, size, now, order)
    case EvictFile(name) => Remove(c, name)
  }

  function Run(c: Disk, ops: seq<Op>): Disk {
    if ops == [] then c else Step(Run(c, ops[..|ops| - 1]), ops[|ops| - 1])
  }

  /** Every store lists the directory as it finds it. */
  ghost predicate ListsDirectory(c: Disk, ops: seq<Op>) {
    forall i {:trigger ops[i]} :: 0 <= i < |ops| && ops[i].StoreFile? ==>
      IsAgeOrder(Run(c, ops[..i]).files, ops[i].order)
  }

  lemma {:induction false} RunKeepsLead(c: Disk, ops: seq<Op>)
    ensures Lead(Run(c, ops)) >= Lead(c) && Run(c, ops).maxBytes == c.maxBytes
    decreases |ops|
  {
    if ops != [] {
      var front, op := ops[..|ops| - 1], ops[|ops| - 1];
      var d := Run(c, front);
      RunKeepsLead(c, front);
      match op
      case StoreFile(name, size, now, order) =>
        StoreDrifts(d, name, size, now, order);
        EvictKeepsLead(d, order, SaturatingSub(d.maxBytes, size));
      case EvictFile(name) => RemoveKeepsLead(d, name);
    }
  }

  /**
   After every run that ends in a store, from any directory and any counter: the bytes on disk
   are at most the size just stored or the budget, less what the counter was ahead by at the
   start or more by what it was behind.
   */
  lemma RunIsBounded(c: Disk, ops: seq<Op>)
    requires ops != [] && ops[|ops| - 1].StoreFile? && ListsDirectory(c, ops)
    ensures Total(Run(c, ops).files) <= Bound(c.maxBytes, Lead(c), ops[|ops| - 1].size)
  {
    var front, op := ops[..|ops| - 1], ops[|ops| - 1];
    RunKeepsLead(c, front);
    RunKeepsLead(c, ops);
    StoreIsBounded(Run(c, front), op.name, op.size, op.now, op.order);
  }

  /** From an empty directory the bound is the whole budget. */
  lemma DiskIsBounded(maxBytes: nat, ops: seq<Op>)
    requires ops != [] && ops[|ops| - 1].StoreFile? && ListsDirectory(Disk(maxBytes, 0, map[]), ops)
    ensures Total(Run(Disk(maxBytes, 0, map[]), ops).files) <= Max(maxBytes, ops[|ops| - 1].size)
  {
    RunIsBounded(Disk(maxBytes, 0, map[]), ops);
  }

  /** From a directory with files it is more by their size. */
  lemma OpenedDiskIsBounded(maxBytes: nat, files: Dir, ops: seq<Op>)
    requires ops != [] && ops[|ops| - 1].StoreFile? && ListsDirectory(Disk(maxBytes, 0, files), ops)
    ensures Total(Run(Disk(maxBytes, 0, files), ops).files) <= Max(maxBytes, ops[|ops| - 1].size) + Total(files)
  {
    RunIsBounded(Disk(maxBytes, 0, files), ops);
  }

  /** And one store into a full directory gets there: twice the budget. */
  lemma FullDirectoryDoubles(maxBytes: nat, other: Bytes, name: Bytes, now: nat)
    requires other != name
    ensures var full := Disk(maxBytes, 0, map[other := File(maxBytes, 0)]);
            Total(AfterStore(full, name, maxBytes, now, [other]).files) == 2 * maxBytes
  {
    var files: Dir := map[other := File(maxBytes, 0)];
    TotalAfterWrite(files, name, File(maxBytes, now));
    assert files - {name} == files;
    var none: Dir := map[];
    TotalAfterWrite(none, other, File(maxBytes, 0));
    assert none - {other} == none;
  }

  /** A file stored and then overwritten with one that still fits. */
  function Overwritten(maxBytes: nat, name: Bytes, size: nat, size': nat, now: nat): Disk {
    var once := AfterStore(Disk(maxBytes, 0, map[]), name, size, now, []);
    AfterStore(once, name, size', now, [name])
  }

  /** It costs the cache the size of the first file, for good. */
  lemma OverwriteLosesBudget(maxBytes: nat, name: Bytes, size: nat, size': nat, now: nat, ops: seq<Op>)
    requires size + size' <= maxBytes
    requires ops != [] && ops[|ops| - 1].StoreFile?
    requires ListsDirectory(Overwritten(maxBytes, name, size, size', now), ops)
    ensures Total(Run(Overwritten(maxBytes, name, size, size', now), ops).files) <=
            Max(ops[|ops| - 1].size, maxBytes - size)
  {
    var c := Disk(maxBytes, 0, map[]);
    var once := AfterStore(c, name, size, now, []);
    StoreDrifts(c, name, size, now, []);
    StoreDrifts(once, name, size', now, [name]);
    RunIsBounded(Overwritten(maxBytes, name, size, size', now), ops);
  }
}

/**
 The manifest chain of `restore/manifest_verifier.rs`.

 A manifest names its predecessor by hash.  The hash of a manifest (BLAKE3 of its CBOR form)
 is a function of which nothing is assumed: a theorem that would need it to be injective
 says which collision its failure would exhibit.
 */
module ManifestChain {
  import opened Common

  type Hash = Bytes

  /** What the first manifest names in place of a predecessor. */
  function Zero(): Hash {
    seq(32, _ => 0)
  }

  datatype SegmentRef = SegmentRef(segment: Bytes, digest: Hash, size: nat)

  datatype Manifest = Manifest(id: Bytes, generation: nat, previous: Hash, segments: seq<SegmentRef>)

  type Hashing = Manifest -> Hash

  /** The third case carries the generation of the manifest whose link is broken. */
  datatype Verdict = Accepted | NonZeroFirst | BrokenAt(generation: nat)

  predicate LinkedAt(hash: Hashing, ms: seq<Manifest>, i: nat)
    requires 1 <= i < |ms|
  {
    ms[i].previous == hash(ms[i - 1])
  }

  /** Every manifest names the one before it. */
  ghost predicate Linked(hash: Hashing, ms: seq<Manifest>) {
    forall i :: 1 <= i < |ms| ==> LinkedAt(hash, ms, i)
  }

  /** What is asked of the first manifest: a genesis generation is not asked for a zero hash. */
  predicate StartsWell(ms: seq<Manifest>) {
    ms != [] && ms[0].generation != 0 ==> ms[0].previous == Zero()
  }

  ghost predicate Accepts(hash: Hashing, ms: seq<Manifest>) {
    StartsWell(ms) && Linked(hash, ms)
  }

  lemma ExtendLinked(hash: Hashing, ms: seq<Manifest>, i: nat)
    requires 1 <= i < |ms| && Linked(hash, ms[..i]) && LinkedAt(hash, ms, i)
    ensures Linked(hash, ms[..i + 1])
  {
    var more := ms[..i + 1];
    forall j | 1 <= j < i + 1
      ensures LinkedAt(hash, more, j)
    {
      assert j < i ==> LinkedAt(hash, ms[..i], j);
    }
  }

  /** A broken chain is reported at its first broken link. */
  method VerifyChain(hash: Hashing, ms: seq<Manifest>) returns (v: Verdict)
    ensures v == Accepted <==> Accepts(hash, ms)
    ensures v == NonZeroFirst <==> !StartsWell(ms)
    ensures v.BrokenAt? ==>
              exists i :: 1 <= i < |ms| && Linked(hash, ms[..i]) && !Linked(hash, ms[..i + 1])
                          && ms[i].generation == v.generation
  {
    if ms == [] {
      return Accepted;
    }
    if ms[0].generation != 0 && ms[0].previous != Zero() {
      return NonZeroFirst;
    }
    for i := 1 to |ms|
      invariant Linked(hash, ms[..i])
    {
      if ms[i].previous != hash(ms[i - 1]) {
        assert !LinkedAt(hash, ms, i) && !LinkedAt(hash, ms[..i + 1], i);
        return BrokenAt(ms[i].generation);
      }
      ExtendLinked(hash, ms, i);
    }
    assert ms[..|ms|] == ms;
    return Accepted;
  }

  // ---------------------------------------------------------------------------
  // Parts of a chain
  // ---------------------------------------------------------------------------

  /** Every prefix of an accepted list is accepted. */
  lemma PrefixAccepted(hash: Hashing, ms: seq<Manifest>, n: nat)
    requires Accepts(hash, ms) && n <= |ms|
    ensures Accepts(hash, ms[..n])
  {
    forall i | 1 <= i < n
      ensures LinkedAt(hash, ms[..n], i)
    {
      assert LinkedAt(hash, ms, i);
    }
  }

  lemma SuffixLinked(hash: Hashing, ms: seq<Manifest>, n: nat)
    requires Linked(hash, ms) && n <= |ms|
    ensures Linked(hash, ms[n..])
  {
    forall i | 1 <= i < |ms| - n
      ensures LinkedAt(hash, ms[n..], i)
    {
      assert LinkedAt(hash, ms, n + i);
    }
  }

  /** A suffix is accepted only if it could have been a list of its own. */
  lemma SuffixAcceptedIff(hash: Hashing, ms: seq<Manifest>, n: nat)
    requires Accepts(hash, ms) && 0 < n < |ms|
    ensures Accepts(hash, ms[n..]) <==> ms[n].generation == 0 || hash(ms[n - 1]) == Zero()
  {
    SuffixLinked(hash, ms, n);
    assert LinkedAt(hash, ms, n);
  }

  /** What one more manifest has to satisfy. */
  predicate Follows(hash: Hashing, ms: seq<Manifest>, m: Manifest) {
    if ms == [] then m.generation == 0 || m.previous == Zero() else m.previous == hash(ms[|ms| - 1])
  }

  lemma AppendAcceptedIff(hash: Hashing, ms: seq<Manifest>, m: Manifest)
    ensures Accepts(hash, ms + [m]) <==> Accepts(hash, ms) && Follows(hash, ms, m)
  {
    var all := ms + [m];
    if Accepts(hash, all) {
      PrefixAccepted(hash, all, |ms|);
      assert all[..|ms|] == ms;
      assert all[|ms|] == m;
      assert ms != [] ==> LinkedAt(hash, all, |ms|);
    }
    if Accepts(hash, ms) && Follows(hash, ms, m) {
      forall i | 1 <= i < |all|
        ensures LinkedAt(hash, all, i)
      {
        assert i < |ms| ==> LinkedAt(hash, ms, i);
      }
    }
  }

  // ---------------------------------------------------------------------------
  // Growing a chain
  // ---------------------------------------------------------------------------

  /** Generations 0, 1, 2, ... */
  ghost predicate Numbered(ms: seq<Manifest>) {
    forall i {:trigger ms[i]} :: 0 <= i < |ms| ==> ms[i].generation == i
  }

  ghost predicate Sound(hash: Hashing, ms: seq<Manifest>) {
    Numbered(ms) && Accepts(hash, ms)
  }

  /** What the next manifest should name. */
  function TipHash(hash: Hashing, ms: seq<Manifest>): Hash {
    if ms == [] then Zero() else hash(ms[|ms| - 1])
  }

  lemma NumberedSnoc(ms: seq<Manifest>, m: Manifest)
    ensures Numbered(ms + [m]) <==> Numbered(ms) && m.generation == |ms|
  {
    var all := ms + [m];
    if Numbered(all) {
      assert all[|ms|] == m;
      forall i | 0 <= i < |ms|
        ensures ms[i].generation == i
      {
        assert all[i] == ms[i];
      }
    }
  }

  /**
   Two manifests built at the same tip: the second breaks the numbering, and the chain but for
   a fixed point of the hash.
   */
  lemma SameTipForks(hash: Hashing, ms: seq<Manifest>, first: Manifest, second: Manifest)
    requires Sound(hash, ms + [first]) && second.generation == first.generation && second.previous == first.previous
    ensures !Numbered(ms + [first] + [second])
    ensures Accepts(hash, ms + [first] + [second]) <==> hash(first) == first.previous
  {
    NumberedSnoc(ms, first);
    NumberedSnoc(ms + [first], second);
    AppendAcceptedIff(hash, ms + [first], second);
  }

  // ---------------------------------------------------------------------------
  // The last manifest determines the chain
  // ---------------------------------------------------------------------------

  datatype Evidence = Same | Collision(x: Manifest, y: Manifest) | Preimage(m: Manifest)

  /** A collision of the hash, or a manifest with the hash that marks the start of a chain. */
  ghost predicate Refutes(hash: Hashing, e: Evidence) {
    match e
    case Same => false
    case Collision(x, y) => x != y && hash(x) == hash(y)
    case Preimage(m) => hash(m) == Zero()
  }

  ghost predicate StartsAtZero(ms: seq<Manifest>) {
    ms == [] || ms[0].previous == Zero()
  }

  lemma DropLastLinked(hash: Hashing, ms: seq<Manifest>)
    requires Linked(hash, ms) && |ms| >= 2
    ensures Linked(hash, ms[..|ms| - 1])
    ensures ms[|ms| - 1].previous == hash(ms[|ms| - 2])
    ensures ms == ms[..|ms| - 1] + [ms[|ms| - 1]]
  {
    var front := ms[..|ms| - 1];
    forall i | 1 <= i < |front|
      ensures LinkedAt(hash, front, i)
    {
      assert LinkedAt(hash, ms, i);
    }
    assert LinkedAt(hash, ms, |ms| - 1);
  }

  /**
   Equally long linked lists with the same last manifest are equal, or show a collision between
   two of their manifests.
   */
  lemma {:induction false} LastDetermines(hash: Hashing, a: seq<Manifest>, b: seq<Manifest>) returns (e: Evidence)
    requires Linked(hash, a) && Linked(hash, b) && |a| == |b| > 0 && a[|a| - 1] == b[|b| - 1]
    ensures if a == b then e == Same else e.Collision? && Refutes(hash, e) && e.x in a && e.y in b
    decreases |a|
  {
    var n := |a| - 1;
    if n == 0 {
      e := Same;
    } else {
      DropLastLinked(hash, a);
      DropLastLinked(hash, b);
      if a[n - 1] == b[n - 1] {
        e := LastDetermines(hash, a[..n], b[..n]);
      } else {
        e := Collision(a[n - 1], b[n - 1]);
      }
    }
  }

  /**
   Lists of any length that start at the zero hash and share their last manifest are equal, or
   show a collision or a manifest that hashes to zero.
   */
  lemma {:induction false} GenesisDetermines(hash: Hashing, a: seq<Manifest>, b: seq<Manifest>) returns (e: Evidence)
    requires Linked(hash, a) && Linked(hash, b) && a != [] && b != [] && a[|a| - 1] == b[|b| - 1]
    requires StartsAtZero(a) && StartsAtZero(b)
    ensures if a == b then e == Same else Refutes(hash, e)
    decreases |a| + |b|
  {
    var m, n := |a| - 1, |b| - 1;
    if m == 0 && n == 0 {
      e := Same;
    } else if m == 0 {
      DropLastLinked(hash, b);
      e := Preimage(b[n - 1]);
    } else if n == 0 {
      DropLastLinked(hash, a);
      e := Preimage(a[m - 1]);
    } else {
      DropLastLinked(hash, a);
      DropLastLinked(hash, b);
      if a[m - 1] == b[n - 1] {
        e := GenesisDetermines(hash, a[..m], b[..n]);
      } else {
        e := Collision(a[m - 1], b[n - 1]);
      }
    }
  }

  // ---------------------------------------------------------------------------
  // What acceptance does not say
  // ---------------------------------------------------------------------------

  /** Acceptance implies the documented zero hash at the start exactly for generations other than zero. */
  lemma StartsAtZeroIff(hash: Hashing, generation: nat)
    ensures (forall ms: seq<Manifest> :: Accepts(hash, ms) && ms != [] && ms[0].generation == generation ==>
                StartsAtZero(ms))
            <==> generation != 0
  {
    var m := Manifest([], generation, [], []);
    assert Zero()[0] == 0;
    assert Linked(hash, [m]);
    assert Accepts(hash, [m]) <==> generation == 0;
    assert !StartsAtZero([m]);
  }

  function Renumbered(hash: Hashing, generations: seq<nat>): (ms: seq<Manifest>)
    ensures |ms| == |generations|
  {
    if generations == [] then []
    else
      var front := Renumbered(hash, generations[..|generations| - 1]);
      var previous := if front == [] then Zero() else hash(front[|front| - 1]);
      front + [Manifest([], generations[|generations| - 1], previous, [])]
  }

  /** The numbering is not checked: whatever the generations, some accepted list has them. */
  lemma {:induction false} AnyNumberingAccepted(hash: Hashing, generations: seq<nat>)
    ensures Accepts(hash, Renumbered(hash, generations))
    ensures forall i :: 0 <= i < |generations| ==> Renumbered(hash, generations)[i].generation == generations[i]
    decreases |generations|
  {
    if generations != [] {
      var front := generations[..|generations| - 1];
      AnyNumberingAccepted(hash, front);
      var ms := Renumbered(hash, front);
      AppendAcceptedIff(hash, ms, Renumbered(hash, generations)[|front|]);
      assert Renumbered(hash, generations) == ms + [Renumbered(hash, generations)[|front|]];
      forall i | 0 <= i < |generations|
        ensures Renumbered(hash, generations)[i].generation == generations[i]
      {
        if i < |front| {
          assert Renumbered(hash, generations)[i] == ms[i];
        }
      }
    }
  }
}

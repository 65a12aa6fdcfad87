/**
 The edit distance of `search/fuzzy_search.rs`.

 `EditPath` is the reference notion: a list of strings, each one single-character
 insertion, deletion or substitution away from the one before it.  `Distance` is the
 recurrence behind the dynamic program, `Levenshtein` is the program itself (two rows
 that trade places).  The main results say that all three agree and that the common
 value is a metric.
 */
module EditDistance {
  import opened Common

  function Cost(x: char, y: char): nat {
    if x == y then 0 else 1
  }

  /** The recurrence: the distance between the first `i` characters of `a` and the first `j` of `b`. */
  function PrefixDistance(a: string, b: string, i: nat, j: nat): nat
    requires i <= |a| && j <= |b|
    decreases i + j, 1
  {
    if i == 0 then j
    else if j == 0 then i
    else CheapestLastEdit(a, b, i, j)
  }

  /** Delete `a[i - 1]`, insert `b[j - 1]`, or put the one in the place of the other. */
  function CheapestLastEdit(a: string, b: string, i: nat, j: nat): nat
    requires 0 < i <= |a| && 0 < j <= |b|
    decreases i + j, 0
  {
    Min(Min(PrefixDistance(a, b, i - 1, j) + 1, PrefixDistance(a, b, i, j - 1) + 1),
        PrefixDistance(a, b, i - 1, j - 1) + Cost(a[i - 1], b[j - 1]))
  }

  function Distance(a: string, b: string): nat {
    PrefixDistance(a, b, |a|, |b|)
  }

  // ---------------------------------------------------------------------------
  // The program: two rows, swapped after each character of `a`
  // ---------------------------------------------------------------------------

  /** `row` holds the distances from the first `i` characters of `a` to the first `k` prefixes of `b`. */
  ghost predicate RowOf(row: seq<nat>, a: string, b: string, i: nat, k: nat)
    requires i <= |a|
  {
    && k <= |row|
    && k <= |b| + 1
    && forall j {:trigger row[j]} :: 0 <= j < k ==> row[j] == PrefixDistance(a, b, i, j)
  }

  method Levenshtein(a: string, b: string) returns (d: nat)
    ensures d == Distance(a, b)
  {
    var m, n := |a|, |b|;
    if m == 0 {
      return n;
    }
    if n == 0 {
      return m;
    }
    var prev := new nat[n + 1](j => j);
    var curr := new nat[n + 1](_ => 0);
    var i := 1;
    while i <= m
      invariant 1 <= i <= m + 1
      invariant fresh(prev) && fresh(curr) && prev != curr
      invariant prev.Length == curr.Length == n + 1
      invariant RowOf(prev[..], a, b, i - 1, n + 1)
    {
      FillRow(a, b, i, prev, curr);
      prev, curr := curr, prev;
      i := i + 1;
    }
    d := prev[..][n];
  }

  /** The inner loop: the row of `i` from the row of `i - 1`. */
  method FillRow(a: string, b: string, i: nat, prev: array<nat>, curr: array<nat>)
    requires 0 < i <= |a| && prev != curr
    requires prev.Length == curr.Length == |b| + 1
    requires RowOf(prev[..], a, b, i - 1, |b| + 1)
    modifies curr
    ensures RowOf(curr[..], a, b, i, |b| + 1)
  {
    ghost var above := prev[..];
    curr[0] := i;
    var j := 1;
    while j <= |b|
      invariant 1 <= j <= |b| + 1
      invariant prev[..] == above
      invariant RowOf(curr[..], a, b, i, j)
    {
      var cost := if a[i - 1] == b[j - 1] then 0 else 1;
      ghost var row := curr[..];
      assert above[j] == prev[j] && above[j - 1] == prev[j - 1] && row[j - 1] == curr[j - 1];
      curr[j] := Min(Min(prev[j] + 1, curr[j - 1] + 1), prev[j - 1] + cost);
      assert curr[..] == row[j := PrefixDistance(a, b, i, j)];
      j := j + 1;
    }
  }

  // ---------------------------------------------------------------------------
  // Metric laws
  // ---------------------------------------------------------------------------

  lemma {:induction false} PrefixSymmetric(a: string, b: string, i: nat, j: nat)
    requires i <= |a| && j <= |b|
    ensures PrefixDistance(a, b, i, j) == PrefixDistance(b, a, j, i)
    decreases i + j
  {
    if i > 0 && j > 0 {
      PrefixSymmetric(a, b, i - 1, j);
      PrefixSymmetric(a, b, i, j - 1);
      PrefixSymmetric(a, b, i - 1, j - 1);
    }
  }

  lemma DistanceSymmetric(a: string, b: string)
    ensures Distance(a, b) == Distance(b, a)
  {
    PrefixSymmetric(a, b, |a|, |b|);
  }

  lemma {:induction false} PrefixZeroIffEqual(a: string, b: string, i: nat, j: nat)
    requires i <= |a| && j <= |b|
    ensures PrefixDistance(a, b, i, j) == 0 <==> a[..i] == b[..j]
    decreases i + j
  {
    if i > 0 && j > 0 {
      PrefixZeroIffEqual(a, b, i - 1, j - 1);
      assert a[..i] == a[..i - 1] + [a[i - 1]] && b[..j] == b[..j - 1] + [b[j - 1]];
    }
  }

  lemma DistanceZeroIffEqual(a: string, b: string)
    ensures Distance(a, b) == 0 <==> a == b
  {
    PrefixZeroIffEqual(a, b, |a|, |b|);
    assert a[..|a|] == a && b[..|b|] == b;
  }

  lemma {:induction false} PrefixBounds(a: string, b: string, i: nat, j: nat)
    requires i <= |a| && j <= |b|
    ensures i - j <= PrefixDistance(a, b, i, j)
    ensures j - i <= PrefixDistance(a, b, i, j)
    ensures PrefixDistance(a, b, i, j) <= Max(i, j)
    decreases i + j
  {
    if i > 0 && j > 0 {
      PrefixBounds(a, b, i - 1, j);
      PrefixBounds(a, b, i, j - 1);
      PrefixBounds(a, b, i - 1, j - 1);
    }
  }

  /** Between the difference of the lengths and the longer length. */
  lemma DistanceBounds(a: string, b: string)
    ensures |a| - |b| <= Distance(a, b)
    ensures |b| - |a| <= Distance(a, b)
    ensures Distance(a, b) <= Max(|a|, |b|)
  {
    PrefixBounds(a, b, |a|, |b|);
  }

  lemma {:induction false} PrefixTriangle(a: string, b: string, c: string, i: nat, j: nat, k: nat)
    requires i <= |a| && j <= |b| && k <= |c|
    ensures PrefixDistance(a, c, i, k) <= PrefixDistance(a, b, i, j) + PrefixDistance(b, c, j, k)
    decreases i + j + k, 1
  {
    if i == 0 || j == 0 || k == 0 {
      PrefixBounds(a, b, i, j);
      PrefixBounds(b, c, j, k);
      PrefixBounds(a, c, i, k);
    } else {
      SmallerTriangle(a, b, c, i, j, k, PrefixDistance(a, b, i, j), PrefixDistance(b, c, j, k));
    }
  }

  lemma {:induction false} SmallerTriangle(
    a: string, b: string, c: string, i: nat, j: nat, k: nat, ab: nat, bc: nat)
    requires 0 < i <= |a| && 0 < j <= |b| && 0 < k <= |c|
    requires CheapestLastEdit(a, b, i, j) == ab && CheapestLastEdit(b, c, j, k) == bc
    ensures CheapestLastEdit(a, c, i, k) <= ab + bc
    decreases i + j + k, 0
  {
    if ab == PrefixDistance(a, b, i - 1, j) + 1 {
      PrefixTriangle(a, b, c, i - 1, j, k);
    } else if bc == PrefixDistance(b, c, j, k - 1) + 1 {
      PrefixTriangle(a, b, c, i, j, k - 1);
    } else if ab == PrefixDistance(a, b, i, j - 1) + 1 && bc == PrefixDistance(b, c, j - 1, k) + 1 {
      PrefixTriangle(a, b, c, i, j - 1, k);
    } else if ab == PrefixDistance(a, b, i, j - 1) + 1 {
      PrefixTriangle(a, b, c, i, j - 1, k - 1);
    } else if bc == PrefixDistance(b, c, j - 1, k) + 1 {
      PrefixTriangle(a, b, c, i - 1, j - 1, k);
    } else {
      PrefixTriangle(a, b, c, i - 1, j - 1, k - 1);
    }
  }

  lemma DistanceTriangle(a: string, b: string, c: string)
    ensures Distance(a, c) <= Distance(a, b) + Distance(b, c)
  {
    PrefixTriangle(a, b, c, |a|, |b|, |c|);
  }

  // ---------------------------------------------------------------------------
  // The reference: shortest edit paths
  // ---------------------------------------------------------------------------

  /** `u` and `v` agree but for at most one character between `p` and `s`. */
  ghost predicate DifferAt(u: string, v: string, p: string, x: string, y: string, s: string) {
    |x| <= 1 && |y| <= 1 && u == p + x + s && v == p + y + s
  }

  /** One insertion, deletion or substitution of a single character. */
  ghost predicate OneEdit(u: string, v: string) {
    exists p, x, y, s :: DifferAt(u, v, p, x, y, s)
  }

  ghost predicate EditPath(path: seq<string>, a: string, b: string) {
    && path != []
    && path[0] == a
    && path[|path| - 1] == b
    && forall i {:trigger path[i]} :: 0 <= i < |path| - 1 ==> OneEdit(path[i], path[i + 1])
  }

  lemma {:induction false} PrefixOnly(a: string, b: string, a': string, b': string, i: nat, j: nat)
    requires i <= |a| && j <= |b| && a <= a' && b <= b'
    ensures PrefixDistance(a', b', i, j) == PrefixDistance(a, b, i, j)
    decreases i + j
  {
    if i > 0 && j > 0 {
      PrefixOnly(a, b, a', b', i - 1, j);
      PrefixOnly(a, b, a', b', i, j - 1);
      PrefixOnly(a, b, a', b', i - 1, j - 1);
    }
  }

  lemma {:induction false} SharedSuffix(p: string, q: string, s: string, k: nat)
    requires k <= |s|
    ensures PrefixDistance(p + s, q + s, |p| + k, |q| + k) <= Distance(p, q)
    decreases k
  {
    if k == 0 {
      PrefixOnly(p, q, p + s, q + s, |p|, |q|);
    } else {
      SharedSuffix(p, q, s, k - 1);
      PrefixBounds(p + s, q + s, |p| + k, |q| + k);
      assert (p + s)[|p| + k - 1] == s[k - 1] == (q + s)[|q| + k - 1];
    }
  }

  lemma OneEditDistance(u: string, v: string)
    requires OneEdit(u, v)
    ensures Distance(u, v) <= 1
  {
    var p, x, y, s :| DifferAt(u, v, p, x, y, s);
    SharedSuffix(p + x, p + y, s, |s|);
    PrefixZeroIffEqual(p + x, p + y, |p|, |p|);
    assert (p + x)[..|p|] == p == (p + y)[..|p|];
    PrefixBounds(p + x, p + y, |p| + |x|, |p| + |y|);
  }

  lemma EditPathTail(path: seq<string>, a: string, b: string)
    requires EditPath(path, a, b) && |path| > 1
    ensures EditPath(path[1..], path[1], b) && OneEdit(a, path[1])
  {
    var rest := path[1..];
    forall i | 0 <= i < |rest| - 1
      ensures OneEdit(rest[i], rest[i + 1])
    {
      assert OneEdit(path[i + 1], path[i + 1 + 1]);
    }
    assert OneEdit(path[0], path[0 + 1]);
  }

  /** No edit path is shorter than the distance. */
  lemma {:induction false} EditPathAtLeastDistance(path: seq<string>, a: string, b: string)
    requires EditPath(path, a, b)
    ensures Distance(a, b) <= |path| - 1
    decreases |path|
  {
    if |path| == 1 {
      DistanceZeroIffEqual(a, b);
    } else {
      EditPathTail(path, a, b);
      EditPathAtLeastDistance(path[1..], path[1], b);
      OneEditDistance(a, path[1]);
      DistanceTriangle(a, path[1], b);
    }
  }

  function AppendToAll(path: seq<string>, c: char): (r: seq<string>)
    ensures |r| == |path|
    ensures forall i :: 0 <= i < |path| ==> r[i] == path[i] + [c]
  {
    seq(|path|, i requires 0 <= i < |path| => path[i] + [c])
  }

  lemma OneEditAppend(u: string, v: string, c: char)
    requires OneEdit(u, v)
    ensures OneEdit(u + [c], v + [c])
  {
    var p, x, y, s :| DifferAt(u, v, p, x, y, s);
    assert u + [c] == p + x + (s + [c]) && v + [c] == p + y + (s + [c]);
    assert DifferAt(u + [c], v + [c], p, x, y, s + [c]);
  }

  lemma EditPathAppend(path: seq<string>, a: string, b: string, c: char)
    requires EditPath(path, a, b)
    ensures EditPath(AppendToAll(path, c), a + [c], b + [c])
  {
    var r := AppendToAll(path, c);
    forall i | 0 <= i < |r| - 1
      ensures OneEdit(r[i], r[i + 1])
    {
      assert OneEdit(path[i], path[i + 1]);
      OneEditAppend(path[i], path[i + 1], c);
    }
  }

  lemma EditPathSnoc(path: seq<string>, a: string, b: string, c: string)
    requires EditPath(path, a, b) && OneEdit(b, c)
    ensures EditPath(path + [c], a, c)
  {
    var r := path + [c];
    forall i | 0 <= i < |r| - 1
      ensures OneEdit(r[i], r[i + 1])
    {
      if i < |path| - 1 {
        assert OneEdit(path[i], path[i + 1]);
      }
    }
  }

  lemma EditPathCons(a: string, path: seq<string>, b: string, c: string)
    requires EditPath(path, b, c) && OneEdit(a, b)
    ensures EditPath([a] + path, a, c)
  {
    var r := [a] + path;
    forall i | 0 <= i < |r| - 1
      ensures OneEdit(r[i], r[i + 1])
    {
      if i > 0 {
        assert OneEdit(path[i - 1], path[i - 1 + 1]);
      }
    }
  }

  lemma OneEditLast(s: string, x: string, y: string)
    requires |x| <= 1 && |y| <= 1
    ensures OneEdit(s + x, s + y)
  {
    assert s + x == s + x + [] && s + y == s + y + [];
    assert DifferAt(s + x, s + y, s, x, y, []);
  }

  /** Some edit path is exactly as long as the distance. */
  lemma {:induction false} ShortestEditPath(a: string, b: string, i: nat, j: nat, d: nat) returns (path: seq<string>)
    requires i <= |a| && j <= |b| && PrefixDistance(a, b, i, j) == d
    ensures EditPath(path, a[..i], b[..j]) && |path| == d + 1
    decreases i + j
  {
    if i == 0 && j == 0 {
      path := [[]];
    } else if i > 0 && (j == 0 || PrefixDistance(a, b, i - 1, j) + 1 == d) {
      var rest := ShortestEditPath(a, b, i - 1, j, d - 1);
      path := DeleteFirst(a, b, i, j, rest);
    } else if j > 0 && (i == 0 || PrefixDistance(a, b, i, j - 1) + 1 == d) {
      var rest := ShortestEditPath(a, b, i, j - 1, d - 1);
      path := InsertLast(a, b, i, j, rest);
    } else {
      var rest := ShortestEditPath(a, b, i - 1, j - 1, d - Cost(a[i - 1], b[j - 1]));
      path := SubstituteLast(a, b, i, j, rest);
    }
  }

  lemma DeleteFirst(a: string, b: string, i: nat, j: nat, rest: seq<string>) returns (path: seq<string>)
    requires 0 < i <= |a| && j <= |b| && EditPath(rest, a[..i - 1], b[..j])
    ensures EditPath(path, a[..i], b[..j]) && |path| == |rest| + 1
  {
    EditAtEnd(a, i);
    EditPathCons(a[..i], rest, a[..i - 1], b[..j]);
    path := [a[..i]] + rest;
  }

  lemma InsertLast(a: string, b: string, i: nat, j: nat, rest: seq<string>) returns (path: seq<string>)
    requires i <= |a| && 0 < j <= |b| && EditPath(rest, a[..i], b[..j - 1])
    ensures EditPath(path, a[..i], b[..j]) && |path| == |rest| + 1
  {
    EditAtEnd(b, j);
    EditPathSnoc(rest, a[..i], b[..j - 1], b[..j]);
    path := rest + [b[..j]];
  }

  lemma SubstituteLast(a: string, b: string, i: nat, j: nat, rest: seq<string>) returns (path: seq<string>)
    requires 0 < i <= |a| && 0 < j <= |b| && EditPath(rest, a[..i - 1], b[..j - 1])
    ensures EditPath(path, a[..i], b[..j]) && |path| == |rest| + Cost(a[i - 1], b[j - 1])
  {
    EditPathAppend(rest, a[..i - 1], b[..j - 1], a[i - 1]);
    path := AppendToAll(rest, a[i - 1]);
    assert a[..i] == a[..i - 1] + [a[i - 1]] && b[..j] == b[..j - 1] + [b[j - 1]];
    if a[i - 1] != b[j - 1] {
      OneEditLast(b[..j - 1], [a[i - 1]], [b[j - 1]]);
      EditPathSnoc(path, a[..i], b[..j - 1] + [a[i - 1]], b[..j]);
      path := path + [b[..j]];
    }
  }

  lemma EditAtEnd(a: string, i: nat)
    requires 0 < i <= |a|
    ensures OneEdit(a[..i], a[..i - 1]) && OneEdit(a[..i - 1], a[..i])
  {
    var s, x := a[..i - 1], [a[i - 1]];
    assert a[..i] == s + x && s == s + [];
    OneEditLast(s, x, []);
    OneEditLast(s, [], x);
  }

  /** The distance is the length of a shortest edit path. */
  lemma DistanceIsShortestEditPath(a: string, b: string)
    ensures exists path :: EditPath(path, a, b) && |path| - 1 == Distance(a, b)
    ensures forall path :: EditPath(path, a, b) ==> Distance(a, b) <= |path| - 1
  {
    var shortest := ShortestEditPath(a, b, |a|, |b|, Distance(a, b));
    assert a[..|a|] == a && b[..|b|] == b;
    forall path | EditPath(path, a, b)
      ensures Distance(a, b) <= |path| - 1
    {
      EditPathAtLeastDistance(path, a, b);
    }
  }
}

/**
 Windows of `q` consecutive characters, and what they have to do with the edit distance.

 One single-character edit destroys at most `q` windows, so strings at distance `k` share
 all but `q * k` of them.  This is what makes the gram index of `search/fuzzy_search.rs`
 a complete filter for close tokens.
 */
module QGrams {
  import opened Arithmetic
  import opened EditDistance

  /** Every window of `q` characters, from left to right. */
  function Windows(s: string, q: nat): (r: seq<string>)
    requires q > 0
    ensures |r| == if |s| < q then 0 else |s| - q + 1
  {
    if |s| < q then [] else [s[..q]] + Windows(s[1..], q)
  }

  lemma {:induction false} WindowAt(s: string, q: nat, i: nat)
    requires q > 0 && i + q <= |s|
    ensures Windows(s, q)[i] == s[i..i + q]
    decreases i
  {
    if i > 0 {
      WindowAt(s[1..], q, i - 1);
      var window := s[1..][i - 1..i - 1 + q];
      assert |window| == q && forall t :: 0 <= t < q ==> window[t] == s[i + t];
      assert window == s[i..i + q];
    }
  }

  ghost function Bag(s: string, q: nat): multiset<string>
    requires q > 0
  {
    multiset(Windows(s, q))
  }

  /** The windows of `u` that `v` does not have, with multiplicity. */
  ghost function Lost(u: string, v: string, q: nat): multiset<string>
    requires q > 0
  {
    Bag(u, q) - Bag(v, q)
  }

  // ---------------------------------------------------------------------------
  // Multisets
  // ---------------------------------------------------------------------------

  lemma SubBagSize(x: multiset<string>, y: multiset<string>)
    requires x <= y
    ensures |y - x| == |y| - |x| && |x| <= |y|
  {
    assert y == x + (y - x);
  }

  lemma LostThroughCommon(x: multiset<string>, y: multiset<string>, common: multiset<string>)
    requires common <= x && common <= y
    ensures |x - y| <= |x| - |common|
  {
    SubBagSize(common, x);
    SubBagSize(x - y, x - common);
  }

  lemma LostTriangle(x: multiset<string>, y: multiset<string>, z: multiset<string>)
    ensures |x - z| <= |x - y| + |y - z|
  {
    assert x - z <= (x - y) + (y - z);
    SubBagSize(x - z, (x - y) + (y - z));
  }

  lemma SharedSize(x: multiset<string>, y: multiset<string>)
    ensures |x * y| == |x| - |x - y|
  {
    assert x == x * y + (x - y);
  }

  // ---------------------------------------------------------------------------
  // One edit
  // ---------------------------------------------------------------------------

  lemma {:induction false} WindowsOfCons(c: char, s: string, q: nat)
    requires q > 0
    ensures Bag([c] + s, q) == if |s| + 1 < q then multiset{} else multiset{([c] + s)[..q]} + Bag(s, q)
  {
    assert ([c] + s)[1..] == s;
  }

  lemma {:induction false} PartsOfCons(c: char, p: string, s: string, q: nat)
    requires q > 0 && Bag(p, q) + Bag(s, q) <= Bag(p + s, q)
    ensures Bag([c] + p, q) + Bag(s, q) <= Bag([c] + (p + s), q)
  {
    var whole, front := Bag([c] + (p + s), q), Bag([c] + p, q);
    WindowsOfCons(c, p, q);
    WindowsOfCons(c, p + s, q);
    if |p| + 1 >= q {
      assert ([c] + (p + s))[..q] == ([c] + p)[..q];
    }
    assert front + Bag(s, q) <= whole;
  }

  lemma {:induction false} WindowsOfParts(p: string, s: string, q: nat)
    requires q > 0
    ensures Bag(p, q) + Bag(s, q) <= Bag(p + s, q)
    decreases |p|
  {
    if p == [] {
      assert p + s == s;
    } else {
      WindowsOfParts(p[1..], s, q);
      PartsOfCons(p[0], p[1..], s, q);
      assert [p[0]] + p[1..] == p && [p[0]] + (p[1..] + s) == p + s;
    }
  }

  lemma CommonWindows(p: string, x: string, s: string, q: nat)
    requires q > 0 && |x| <= 1
    ensures Bag(p, q) + Bag(s, q) <= Bag(p + x + s, q)
    ensures |Bag(p + x + s, q)| <= |Bag(p, q)| + |Bag(s, q)| + q
  {
    WindowsOfParts(p, x + s, q);
    WindowsOfParts(x, s, q);
    assert p + x + s == p + (x + s);
  }

  lemma OneEditLoses(u: string, v: string, q: nat)
    requires q > 0 && OneEdit(u, v)
    ensures |Lost(u, v, q)| <= q
  {
    var p, x, y, s :| DifferAt(u, v, p, x, y, s);
    CommonWindows(p, x, s, q);
    CommonWindows(p, y, s, q);
    LostThroughCommon(Bag(u, q), Bag(v, q), Bag(p, q) + Bag(s, q));
  }

  // ---------------------------------------------------------------------------
  // Any number of edits
  // ---------------------------------------------------------------------------

  lemma EditLoses(a: string, b: string, c: string, q: nat, lost: nat)
    requires q > 0 && OneEdit(a, b) && |Lost(b, c, q)| <= lost
    ensures |Lost(a, c, q)| <= lost + q
  {
    OneEditLoses(a, b, q);
    LostTriangle(Bag(a, q), Bag(b, q), Bag(c, q));
  }

  lemma {:induction false} EditPathLoses(path: seq<string>, a: string, b: string, q: nat, k: nat)
    requires q > 0 && EditPath(path, a, b) && |path| == k + 1
    ensures |Lost(a, b, q)| <= q * k
    decreases k
  {
    if k == 0 {
      assert Lost(a, b, q) == multiset{};
    } else {
      EditPathTail(path, a, b);
      EditPathLoses(path[1..], path[1], b, q, k - 1);
      EditLoses(a, path[1], b, q, q * (k - 1));
      MulStep(q, k - 1, k);
    }
  }

  /** The q-gram lemma: at least `|a| - q + 1 - q * k` windows of `a` survive `k` edits. */
  lemma QGramLemma(a: string, b: string, q: nat)
    requires q > 0
    ensures |Bag(a, q) * Bag(b, q)| >= |a| - q + 1 - q * Distance(a, b)
  {
    DistanceIsShortestEditPath(a, b);
    var path :| EditPath(path, a, b) && |path| - 1 == Distance(a, b);
    EditPathLoses(path, a, b, q, Distance(a, b));
    SharedSize(Bag(a, q), Bag(b, q));
  }

  /** A token long enough for its distance keeps a window. */
  lemma CloseStringsShareWindow(a: string, b: string, q: nat) returns (gram: string)
    requires q > 0 && |a| >= q * Distance(a, b) + q
    ensures gram in Windows(a, q) && gram in Windows(b, q)
  {
    QGramLemma(a, b, q);
    var shared := Bag(a, q) * Bag(b, q);
    assert |shared| > 0;
    gram :| gram in shared;
    assert gram in Bag(a, q) && gram in Bag(b, q);
  }

  // ---------------------------------------------------------------------------
  // The bound is tight
  // ---------------------------------------------------------------------------

  /** `n` characters, those at `q - 1`, `2 * q - 1`, ... different from the rest. */
  function Striped(n: nat, q: nat, plain: char, stripe: char): (r: string)
    requires q > 0
    ensures |r| == n
    ensures forall i :: 0 <= i < n ==> r[i] == if i % q == q - 1 then stripe else plain
  {
    seq(n, i => if i % q == q - 1 then stripe else plain)
  }

  lemma {:induction false} StripesCost(n: nat, q: nat, i: nat)
    requires q > 0 && i <= n
    ensures PrefixDistance(Striped(n, q, 'x', 'x'), Striped(n, q, 'x', 'y'), i, i) <= i / q
    decreases i
  {
    if i > 0 {
      StripesCost(n, q, i - 1);
      NextQuotient(i - 1, q);
    }
  }

  /** One character fewer, and `k` edits can destroy every window. */
  lemma WindowBoundIsTight(q: nat, k: nat) returns (a: string, b: string)
    requires q > 0
    ensures |a| == q * k + q - 1 && Distance(a, b) <= k
    ensures forall gram :: !(gram in Windows(a, q) && gram in Windows(b, q))
  {
    var n := q * k + q - 1;
    a, b := Striped(n, q, 'x', 'x'), Striped(n, q, 'x', 'y');
    StripesCost(n, q, n);
    QuotientIs(n, q, k, q - 1);
    forall i, j | 0 <= i < |Windows(a, q)| && 0 <= j < |Windows(b, q)|
      ensures Windows(a, q)[i] != Windows(b, q)[j]
    {
      PlainAndStripedDiffer(n, q, i, j);
    }
  }

  lemma PlainAndStripedDiffer(n: nat, q: nat, i: nat, j: nat)
    requires q > 0 && i + q <= n && j + q <= n
    ensures Windows(Striped(n, q, 'x', 'x'), q)[i] != Windows(Striped(n, q, 'x', 'y'), q)[j]
  {
    var t := StripeIn(j, q);
    StripedWindow(n, q, 'x', 'x', i, t);
    StripedWindow(n, q, 'x', 'y', j, t);
  }

  lemma StripeIn(j: nat, q: nat) returns (t: nat)
    requires q > 0
    ensures t < q && (j + t) % q == q - 1
  {
    t := q - 1 - j % q;
    QuotientIs(j + t, q, j / q, q - 1);
  }

  lemma StripedWindow(n: nat, q: nat, plain: char, stripe: char, i: nat, t: nat)
    requires q > 0 && i + q <= n && t < q
    ensures |Windows(Striped(n, q, plain, stripe), q)[i]| == q
    ensures Windows(Striped(n, q, plain, stripe), q)[i][t] == if (i + t) % q == q - 1 then stripe else plain
  {
    WindowAt(Striped(n, q, plain, stripe), q, i);
  }
}

/** Types that several components share. */
module Common {

  datatype Option<+T> = None | Some(value: T)

  datatype Result<+T, +E> = Success(value: T) | Failure(error: E)

  type byte = x: int | 0 <= x < 256

  /** A Rust `str` is its UTF-8 bytes, so identifiers are sequences of bytes too. */
  type Bytes = seq<byte>

  const U8_MAX: nat := 0xFF
  const U16_MAX: nat := 0xFFFF
  const U32_MAX: nat := 0xFFFF_FFFF
  const U64_MAX: nat := 0xFFFF_FFFF_FFFF_FFFF

  type i64 = x: int | -0x8000_0000_0000_0000 <= x <= 0x7FFF_FFFF_FFFF_FFFF

  function Min(x: nat, y: nat): nat {
    if x <= y then x else y
  }

  function Max(x: nat, y: nat): nat {
    if x >= y then x else y
  }

  // ---------------------------------------------------------------------------
  // Selections
  // ---------------------------------------------------------------------------

  /** `ys` is what is kept of `xs`, each as often as it occurs and in the same order; `idx` says where it was. */
  ghost predicate IsSelection<T(!new)>(xs: seq<T>, keep: T -> bool, idx: seq<nat>, ys: seq<T>) {
    && |ys| == |idx|
    && (forall k :: 0 <= k < |idx| ==> idx[k] < |xs| && ys[k] == xs[idx[k]] && keep(ys[k]))
    && (forall j, k :: 0 <= j < k < |idx| ==> idx[j] < idx[k])
    && (forall i :: 0 <= i < |xs| && keep(xs[i]) ==> i in idx)
  }

  lemma SelectionSnoc<T(!new)>(xs: seq<T>, keep: T -> bool, idx: seq<nat>, ys: seq<T>, x: T)
    requires IsSelection(xs, keep, idx, ys)
    ensures if keep(x) then IsSelection(xs + [x], keep, idx + [|xs|], ys + [x])
            else IsSelection(xs + [x], keep, idx, ys)
  {
    if keep(x) {
      assert forall i :: i in idx + [|xs|] <==> i in idx || i == |xs|;
    }
  }
}

/**
 The hand-written CBOR of `message/processor.rs`, which fills the payload column of the
 backup event journal, against a decoder for the definite-length heads of section 3 of
 RFC 8949.
 */
module Cbor {
  import opened Arithmetic
  import opened Common

  // ---------------------------------------------------------------------------
  // Big-endian integers
  // ---------------------------------------------------------------------------

  function Pow256(width: nat): (p: nat)
    ensures p > 0
  {
    if width == 0 then 1 else 256 * Pow256(width - 1)
  }

  /** The low `width` bytes of `n`, most significant first: what a truncating cast keeps. */
  function BigEndian(n: nat, width: nat): (r: Bytes)
    ensures |r| == width
  {
    if width == 0 then [] else BigEndian(n / 256, width - 1) + [n % 256]
  }

  function FromBigEndian(bs: Bytes): nat {
    if bs == [] then 0 else FromBigEndian(bs[..|bs| - 1]) * 256 + bs[|bs| - 1]
  }

  lemma {:induction false} BigEndianRoundTrip(n: nat, width: nat)
    ensures FromBigEndian(BigEndian(n, width)) == n % Pow256(width)
    decreases width
  {
    if width > 0 {
      var high := BigEndian(n / 256, width - 1);
      BigEndianRoundTrip(n / 256, width - 1);
      assert BigEndian(n, width)[..width - 1] == high;
      ModOfProduct(n, 256, Pow256(width - 1));
    }
  }

  lemma PowersOf256()
    ensures Pow256(1) == U8_MAX + 1
    ensures Pow256(2) == U16_MAX + 1
    ensures Pow256(4) == U32_MAX + 1
    ensures Pow256(8) == U64_MAX + 1
  {
    assert Pow256(3) == 256 * Pow256(2) && Pow256(5) == 256 * Pow256(4) && Pow256(6) == 256 * Pow256(5);
    assert Pow256(7) == 256 * Pow256(6);
  }

  /** The most significant byte comes first. */
  lemma {:induction false} BigEndianAt(n: nat, width: nat, k: nat)
    requires k < width
    ensures BigEndian(n, width)[k] == n / Pow256(width - 1 - k) % 256
    decreases width
  {
    if k < width - 1 {
      BigEndianAt(n / 256, width - 1, k);
      QuotientOfQuotient(n, 256, Pow256(width - 2 - k));
    } else {
      assert n / Pow256(0) == n;
    }
  }

  // ---------------------------------------------------------------------------
  // What the encoder writes
  // ---------------------------------------------------------------------------

  /** The head of an item: major type and argument, the argument in the fewest bytes. */
  function Head(major: nat, v: nat): Bytes
    requires major < 8 && v <= U64_MAX
  {
    var m: nat := major * 32;
    if v < 24 then [m + v]
    else if v <= U8_MAX then [m + 24] + BigEndian(v, 1)
    else if v <= U16_MAX then [m + 25] + BigEndian(v, 2)
    else if v <= U32_MAX then [m + 26] + BigEndian(v, 4)
    else [m + 27] + BigEndian(v, 8)
  }

  function IntItem(v: i64): Bytes {
    if v >= 0 then Head(0, v) else Head(1, -(v + 1))
  }

  /** The head of a text string never takes eight bytes: a longer length is cut to 32 bits. */
  function TextHead(len: nat): Bytes {
    if len <= U32_MAX then Head(3, len) else [0x7a] + BigEndian(len, 4)
  }

  function TextItem(s: Bytes): Bytes {
    TextHead(|s|) + s
  }

  // ---------------------------------------------------------------------------
  // The encoder
  // ---------------------------------------------------------------------------

  class Buffer {
    var data: Bytes

    constructor ()
      ensures data == []
    {
      data := [];
    }

    method Push(b: byte)
      modifies this
      ensures data == old(data) + [b]
    {
      data := data + [b];
    }

    method Extend(bs: Bytes)
      modifies this
      ensures data == old(data) + bs
    {
      data := data + bs;
    }

    method PushUintWithMajor(major: nat, v: nat)
      requires major < 8 && v <= U64_MAX
      modifies this
      ensures data == old(data) + Head(major, v)
    {
      var m: nat := major * 32;
      if v < 24 {
        Push(m + v);
      } else if v <= U8_MAX {
        Push(m + 24);
        Extend(BigEndian(v, 1));
      } else if v <= U16_MAX {
        Push(m + 25);
        Extend(BigEndian(v, 2));
      } else if v <= U32_MAX {
        Push(m + 26);
        Extend(BigEndian(v, 4));
      } else {
        Push(m + 27);
        Extend(BigEndian(v, 8));
      }
    }

    method PushInt(v: i64)
      modifies this
      ensures data == old(data) + IntItem(v)
    {
      if v >= 0 {
        PushUintWithMajor(0, v);
      } else {
        var n := -(v + 1);
        PushUintWithMajor(1, n);
      }
    }

    method PushText(s: Bytes)
      modifies this
      ensures data == old(data) + TextItem(s)
    {
      var len := |s|;
      if len < 24 {
        Push(0x60 + len);
      } else if len <= U8_MAX {
        Push(0x78);
        Extend(BigEndian(len, 1));
      } else if len <= U16_MAX {
        Push(0x79);
        Extend(BigEndian(len, 2));
      } else {
        Push(0x7a);
        Extend(BigEndian(len, 4));
      }
      assert data == old(data) + TextHead(len);
      Extend(s);
    }
  }

  // ---------------------------------------------------------------------------
  // The decoder (sections 3 and 3.1 of RFC 8949)
  // ---------------------------------------------------------------------------

  datatype Item<+T> = Item(value: T, rest: Bytes)

  datatype HeadValue = HeadValue(major: nat, arg: nat)

  function ArgWidth(info: nat): nat
    requires 24 <= info <= 27
  {
    if info == 24 then 1 else if info == 25 then 2 else if info == 26 then 4 else 8
  }

  function DecodeHead(bs: Bytes): (r: Option<Item<HeadValue>>)
    ensures r.Some? ==> r.value.value.major < 8 && |r.value.rest| < |bs|
  {
    if bs == [] then None
    else
      var major, info := bs[0] / 32, bs[0] % 32;
      if info < 24 then Some(Item(HeadValue(major, info), bs[1..]))
      else if info > 27 || |bs| < 1 + ArgWidth(info) then None
      else
        var w := ArgWidth(info);
        Some(Item(HeadValue(major, FromBigEndian(bs[1..1 + w])), bs[1 + w..]))
  }

  function DecodeInt(bs: Bytes): Option<Item<int>> {
    match DecodeHead(bs)
    case None => None
    case Some(Item(h, rest)) =>
      if h.major == 0 then Some(Item(h.arg, rest))
      else if h.major == 1 then Some(Item(-1 - h.arg, rest))
      else None
  }

  function DecodeText(bs: Bytes): Option<Item<Bytes>> {
    match DecodeHead(bs)
    case None => None
    case Some(Item(h, rest)) =>
      if h.major == 3 && h.arg <= |rest| then Some(Item(rest[..h.arg], rest[h.arg..])) else None
  }

  // ---------------------------------------------------------------------------
  // Round trips
  // ---------------------------------------------------------------------------

  lemma WideHead(first: byte, v: nat, w: nat, tail: Bytes)
    requires 24 <= first % 32 <= 27 && w == ArgWidth(first % 32)
    ensures DecodeHead([first] + BigEndian(v, w) + tail) ==
            Some(Item(HeadValue(first / 32, v % Pow256(w)), tail))
  {
    var bs := [first] + BigEndian(v, w) + tail;
    assert bs[1..1 + w] == BigEndian(v, w) && bs[1 + w..] == tail;
    BigEndianRoundTrip(v, w);
  }

  lemma NarrowHead(first: byte, tail: Bytes)
    requires first % 32 < 24
    ensures DecodeHead([first] + tail) == Some(Item(HeadValue(first / 32, first % 32), tail))
  {
    assert ([first] + tail)[1..] == tail;
  }

  /** The additional information that announces an argument of 24 or more. */
  function ArgInfo(v: nat): (info: nat)
    ensures 24 <= info <= 27
  {
    if v <= U8_MAX then 24 else if v <= U16_MAX then 25 else if v <= U32_MAX then 26 else 27
  }

  lemma HeadOfWideArg(major: nat, v: nat)
    requires major < 8 && 24 <= v <= U64_MAX
    ensures Head(major, v) == [major * 32 + ArgInfo(v)] + BigEndian(v, ArgWidth(ArgInfo(v)))
    ensures v < Pow256(ArgWidth(ArgInfo(v)))
  {
    PowersOf256();
  }

  lemma HeadRoundTrip(major: nat, v: nat, tail: Bytes)
    requires major < 8 && v <= U64_MAX
    ensures DecodeHead(Head(major, v) + tail) == Some(Item(HeadValue(major, v), tail))
  {
    if v < 24 {
      NarrowHead(major * 32 + v, tail);
    } else {
      WideHeadRoundTrip(major, v, ArgInfo(v), Head(major, v), tail);
    }
  }

  lemma WideHeadRoundTrip(major: nat, v: nat, info: nat, head: Bytes, tail: Bytes)
    requires major < 8 && 24 <= v <= U64_MAX && info == ArgInfo(v) && head == Head(major, v)
    ensures DecodeHead(head + tail) == Some(Item(HeadValue(major, v), tail))
  {
    HeadOfWideArg(major, v);
    WideHead(major * 32 + info, v, ArgWidth(info), tail);
    QuotientIs(v, Pow256(ArgWidth(info)), 0, v);
  }

  lemma {:induction false} FromBigEndianBound(bs: Bytes)
    ensures FromBigEndian(bs) < Pow256(|bs|)
    decreases |bs|
  {
    if bs != [] {
      FromBigEndianBound(bs[..|bs| - 1]);
    }
  }

  /** No head that decodes to the same argument is shorter (section 4.1 of RFC 8949). */
  lemma HeadIsShortest(bs: Bytes)
    requires DecodeHead(bs).Some?
    ensures DecodeHead(bs).value.value.arg <= U64_MAX
    ensures |Head(DecodeHead(bs).value.value.major, DecodeHead(bs).value.value.arg)| <=
            |bs| - |DecodeHead(bs).value.rest|
  {
    PowersOf256();
    if bs[0] % 32 >= 24 {
      FromBigEndianBound(bs[1..1 + ArgWidth(bs[0] % 32)]);
    }
  }

  /** Every `i64` comes back, the minimum included, with nothing left over. */
  lemma IntRoundTrip(v: i64, tail: Bytes)
    ensures DecodeInt(IntItem(v) + tail) == Some(Item(v, tail))
  {
    if v >= 0 {
      HeadRoundTrip(0, v, tail);
    } else {
      HeadRoundTrip(1, -(v + 1), tail);
    }
  }

  lemma TextHeadDecodes(len: nat, tail: Bytes)
    ensures DecodeHead(TextHead(len) + tail) ==
            Some(Item(HeadValue(3, if len <= U32_MAX then len else len % (U32_MAX + 1)), tail))
  {
    if len <= U32_MAX {
      HeadRoundTrip(3, len, tail);
    } else {
      PowersOf256();
      WideHead(0x7a, len, 4, tail);
    }
  }

  /** Text comes back exactly when its length fits in 32 bits. */
  lemma TextRoundTripIff(s: Bytes, tail: Bytes)
    ensures DecodeText(TextItem(s) + tail) == Some(Item(s, tail)) <==> |s| <= U32_MAX
  {
    assert TextItem(s) + tail == TextHead(|s|) + (s + tail);
    TextHeadDecodes(|s|, s + tail);
    assert (s + tail)[..|s|] == s && (s + tail)[|s|..] == tail;
    if |s| > U32_MAX {
      var n := |s| % (U32_MAX + 1);
      assert n < |s|;
      assert |(s + tail)[..n]| == n;
    }
  }

  /** No integer item is a proper prefix of another. */
  lemma IntPrefixFree(v: i64, w: i64, x: Bytes, y: Bytes)
    requires IntItem(v) + x == IntItem(w) + y
    ensures v == w && x == y
  {
    IntRoundTrip(v, x);
    IntRoundTrip(w, y);
  }

  lemma TextPrefixFree(s: Bytes, t: Bytes, x: Bytes, y: Bytes)
    requires |s| <= U32_MAX && |t| <= U32_MAX
    requires TextItem(s) + x == TextItem(t) + y
    ensures s == t && x == y
  {
    TextRoundTripIff(s, x);
    TextRoundTripIff(t, y);
  }
}

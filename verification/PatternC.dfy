/**
 Pattern C convergent encryption (`crypto/convergent.rs`): a plaintext cut into chunks, each
 sealed into a frame of nonce, length and ciphertext.

 The AEAD and the nonce derivation (HKDF, RFC 5869) are functions of which only the laws in
 `Lawful` are assumed.
 */
module PatternC {
  import opened Arithmetic
  import opened Cbor
  import opened Common

  datatype Suite = Suite(
    seal: (Bytes, Bytes, Bytes) -> Bytes,
    open: (Bytes, Bytes, Bytes) -> Option<Bytes>,
    nonce: (Bytes, nat) -> Bytes)

  const DEK_SIZE: nat := 32
  const NONCE_SIZE: nat := 24
  const HEADER_SIZE: nat := 28
  const TAG_SIZE: nat := 16
  const DEFAULT_CHUNK_SIZE: nat := 16 * 1024 * 1024

  /** What a frame adds to its chunk. */
  const OVERHEAD: nat := 44

  /** Opening undoes sealing, the tag takes sixteen bytes, a nonce twenty-four. */
  ghost predicate Lawful(suite: Suite) {
    && (forall k, n, m :: suite.open(k, n, suite.seal(k, n, m)) == Some(m))
    && (forall k, n, m :: |suite.seal(k, n, m)| == |m| + TAG_SIZE)
    && (forall k, i :: |suite.nonce(k, i)| == NONCE_SIZE)
  }

  datatype CryptoError = InvalidInput | Frame | Aead

  type Outcome = Result<Bytes, CryptoError>

  function EffectiveChunkSize(chunkSize: nat): nat {
    if chunkSize == 0 then DEFAULT_CHUNK_SIZE else chunkSize
  }

  // ---------------------------------------------------------------------------
  // Streams
  // ---------------------------------------------------------------------------

  function FrameOf(suite: Suite, dek: Bytes, i: nat, chunk: Bytes): Bytes {
    var sealed := suite.seal(dek, suite.nonce(dek, i), chunk);
    suite.nonce(dek, i) + BigEndian(|sealed|, 4) + sealed
  }

  /** The frames of the plaintext, the first of them with index `i`. */
  function Frames(suite: Suite, dek: Bytes, size: nat, plain: Bytes, i: nat): Bytes
    requires size > 0
    decreases |plain|
  {
    if plain == [] then []
    else
      var n := Min(size, |plain|);
      FrameOf(suite, dek, i, plain[..n]) + Frames(suite, dek, size, plain[n..], i + 1)
  }

  /** The length of a sealed chunk fits its field; the first chunk is the longest. */
  predicate Sealable(size: nat, plain: Bytes) {
    plain == [] || Min(size, |plain|) + TAG_SIZE <= U32_MAX
  }

  function Encrypted(suite: Suite, plain: Bytes, dek: Bytes, chunkSize: nat): Outcome {
    var size := EffectiveChunkSize(chunkSize);
    if |dek| != DEK_SIZE then Failure(InvalidInput)
    else if !Sealable(size, plain) then Failure(Frame)
    else Success(Frames(suite, dek, size, plain, 0))
  }

  /** One frame off the front of the stream: its plaintext and the rest. */
  function OpenFrame(suite: Suite, dek: Bytes, maxCt: nat, ct: Bytes): (r: Result<(Bytes, Bytes), CryptoError>)
    ensures r.Success? ==> |r.value.1| < |ct|
  {
    if |ct| < HEADER_SIZE then Failure(Frame)
    else
      var len := FromBigEndian(ct[NONCE_SIZE..HEADER_SIZE]);
      if len == 0 || len > maxCt then Failure(Frame)
      else if HEADER_SIZE + len > |ct| then Failure(Frame)
      else
        match suite.open(dek, ct[..NONCE_SIZE], ct[HEADER_SIZE..HEADER_SIZE + len])
        case None => Failure(Aead)
        case Some(plain) => Success((plain, ct[HEADER_SIZE + len..]))
  }

  /** An outcome with plaintext in front of it. */
  function Prepend(plain: Bytes, r: Outcome): Outcome {
    if r.Success? then Success(plain + r.value) else r
  }

  function OpenFrames(suite: Suite, dek: Bytes, maxCt: nat, ct: Bytes): Outcome
    decreases |ct|
  {
    if ct == [] then Success([])
    else
      var first := OpenFrame(suite, dek, maxCt, ct);
      if first.Failure? then Failure(first.error)
      else Prepend(first.value.0, OpenFrames(suite, dek, maxCt, first.value.1))
  }

  function Decrypted(suite: Suite, ct: Bytes, dek: Bytes, chunkSize: nat): Outcome {
    var size := EffectiveChunkSize(chunkSize);
    if |dek| != DEK_SIZE then Failure(InvalidInput)
    else if size + TAG_SIZE > U32_MAX then Failure(Frame)
    else OpenFrames(suite, dek, size + TAG_SIZE, ct)
  }

  // ---------------------------------------------------------------------------
  // The program
  // ---------------------------------------------------------------------------

  /** The length the source reserves for the output. */
  function OutCapacity(len: nat, size: nat): nat
    requires size > 0
  {
    if len == 0 then 0
    else
      var chunks := (len + size - 1) / size;
      ChunksBound(len, size, chunks);
      var last := len - (chunks - 1) * size;
      (chunks - 1) * (HEADER_SIZE + size + TAG_SIZE) + HEADER_SIZE + last + TAG_SIZE
  }

  method EncryptObject(suite: Suite, plain: Bytes, dek: Bytes, chunkSize: nat) returns (r: Outcome)
    requires Lawful(suite)
    ensures r == Encrypted(suite, plain, dek, chunkSize)
  {
    if |dek| != DEK_SIZE {
      return Failure(InvalidInput);
    }
    var size := EffectiveChunkSize(chunkSize);
    r := EncryptChunks(suite, plain, dek, size);
  }

  method EncryptChunks(suite: Suite, plain: Bytes, dek: Bytes, size: nat) returns (r: Outcome)
    requires Lawful(suite) && size > 0
    ensures r == if Sealable(size, plain) then Success(Frames(suite, dek, size, plain, 0)) else Failure(Frame)
  {
    var out: Bytes := [];
    var index, offset := 0, 0;
    ghost var whole := Frames(suite, dek, size, plain, 0);
    assert plain[0..] == plain;
    while offset < |plain|
      invariant 0 <= offset <= |plain|
      invariant whole == out + Frames(suite, dek, size, plain[offset..], index)
      invariant offset > 0 ==> Sealable(size, plain)
    {
      var end := Min(offset + size, |plain|);
      var sealed, frame := SealFrame(suite, dek, index, plain[offset..end]);
      if |sealed| > U32_MAX {
        return Failure(Frame);
      }
      NextFrame(suite, dek, size, plain, offset, end, index, out, frame);
      out := out + frame;
      offset := end;
      index := index + 1;
    }
    assert plain[offset..] == [] && out + [] == out;
    return Success(out);
  }

  method SealFrame(suite: Suite, dek: Bytes, index: nat, chunk: Bytes) returns (sealed: Bytes, frame: Bytes)
    requires Lawful(suite)
    ensures frame == FrameOf(suite, dek, index, chunk)
    ensures |sealed| == |chunk| + TAG_SIZE
  {
    var nonce := suite.nonce(dek, index);
    sealed := suite.seal(dek, nonce, chunk);
    frame := nonce + BigEndian(|sealed|, 4) + sealed;
  }

  lemma NextFrame(
    suite: Suite, dek: Bytes, size: nat, plain: Bytes, offset: nat, end: nat, index: nat, out: Bytes, frame: Bytes)
    requires size > 0 && offset < |plain| && end == Min(offset + size, |plain|)
    requires frame == FrameOf(suite, dek, index, plain[offset..end])
    ensures out + Frames(suite, dek, size, plain[offset..], index) ==
            out + frame + Frames(suite, dek, size, plain[end..], index + 1)
  {
    var rest, more := plain[offset..], Frames(suite, dek, size, plain[end..], index + 1);
    assert rest[..Min(size, |rest|)] == plain[offset..end];
    assert rest[Min(size, |rest|)..] == plain[end..];
    assert out + (frame + more) == out + frame + more;
  }

  lemma ChunksBound(len: nat, size: nat, chunks: nat)
    requires len > 0 && size > 0 && chunks == (len + size - 1) / size
    ensures chunks > 0 && (chunks - 1) * size < len <= chunks * size
  {
    var m := (len + size - 1) % size;
    assert len + size - 1 == size * chunks + m;
    assert (chunks - 1) * size == size * chunks - size;
    assert chunks * size == size * chunks;
    assert size * chunks > 0;
  }

  lemma FrameLength(suite: Suite, dek: Bytes, i: nat, chunk: Bytes)
    requires Lawful(suite)
    ensures |FrameOf(suite, dek, i, chunk)| == OVERHEAD + |chunk|
  {
  }

  /** The frames of a plaintext of `chunks` chunks. */
  lemma {:induction false} FramesLength(suite: Suite, dek: Bytes, size: nat, plain: Bytes, i: nat, chunks: nat)
    requires Lawful(suite) && size > 0 && chunks > 0 && (chunks - 1) * size < |plain| <= chunks * size
    ensures |Frames(suite, dek, size, plain, i)| == chunks * OVERHEAD + |plain|
    decreases chunks
  {
    var n := Min(size, |plain|);
    FrameLength(suite, dek, i, plain[..n]);
    if chunks == 1 {
      assert plain[n..] == [];
    } else {
      FewerChunks(size, |plain|, chunks);
      FramesLength(suite, dek, size, plain[n..], i + 1, chunks - 1);
    }
  }

  lemma FewerChunks(size: nat, len: nat, chunks: nat)
    requires size > 0 && chunks > 1 && (chunks - 1) * size < len <= chunks * size
    ensures size < len && (chunks - 2) * size < len - size <= (chunks - 1) * size
  {
    assert (chunks - 1) * size == (chunks - 2) * size + size;
    assert chunks * size == (chunks - 1) * size + size;
    assert (chunks - 2) * size >= 0;
  }

  /** The output is exactly as long as the source reserves for it. */
  lemma CapacityIsExact(suite: Suite, plain: Bytes, dek: Bytes, chunkSize: nat)
    requires Lawful(suite) && Encrypted(suite, plain, dek, chunkSize).Success?
    ensures |Encrypted(suite, plain, dek, chunkSize).value| == OutCapacity(|plain|, EffectiveChunkSize(chunkSize))
  {
    var size := EffectiveChunkSize(chunkSize);
    if plain != [] {
      var chunks := (|plain| + size - 1) / size;
      ChunksBound(|plain|, size, chunks);
      FramesLength(suite, dek, size, plain, 0, chunks);
      SumOfFrames(chunks, size, |plain|);
    }
  }

  lemma SumOfFrames(chunks: nat, size: nat, len: nat)
    requires chunks > 0
    ensures (chunks - 1) * (HEADER_SIZE + size + TAG_SIZE) + HEADER_SIZE + (len - (chunks - 1) * size) + TAG_SIZE ==
            chunks * OVERHEAD + len
  {
    assert (chunks - 1) * (OVERHEAD + size) == (chunks - 1) * OVERHEAD + (chunks - 1) * size;
  }

  method DecryptObject(suite: Suite, ct: Bytes, dek: Bytes, chunkSize: nat) returns (r: Outcome)
    ensures r == Decrypted(suite, ct, dek, chunkSize)
  {
    if |dek| != DEK_SIZE {
      return Failure(InvalidInput);
    }
    var size := EffectiveChunkSize(chunkSize);
    if size + TAG_SIZE > U32_MAX {
      return Failure(Frame);
    }
    var maxCt := size + TAG_SIZE;
    var out: Bytes := [];
    var cursor := 0;
    assert ct[0..] == ct;
    PrependNothing(OpenFrames(suite, dek, maxCt, ct));
    while cursor < |ct|
      invariant 0 <= cursor <= |ct|
      invariant OpenFrames(suite, dek, maxCt, ct) == Prepend(out, OpenFrames(suite, dek, maxCt, ct[cursor..]))
    {
      var frame := ReadFrame(suite, dek, maxCt, ct, cursor);
      if frame.Failure? {
        return Failure(frame.error);
      }
      var (plain, end) := frame.value;
      PrependTwice(out, plain, OpenFrames(suite, dek, maxCt, ct[end..]));
      out := out + plain;
      cursor := end;
    }
    assert ct[cursor..] == [];
    assert out + [] == out;
    return Success(out);
  }

  /** The frame at `cursor`: its plaintext and where it ends. */
  method ReadFrame(suite: Suite, dek: Bytes, maxCt: nat, ct: Bytes, cursor: nat)
    returns (r: Result<(Bytes, nat), CryptoError>)
    requires cursor < |ct|
    ensures r.Failure? ==> OpenFrame(suite, dek, maxCt, ct[cursor..]) == Failure(r.error)
    ensures r.Success? ==> cursor < r.value.1 <= |ct|
    ensures r.Success? ==> OpenFrame(suite, dek, maxCt, ct[cursor..]) == Success((r.value.0, ct[r.value.1..]))
  {
    ghost var rest := ct[cursor..];
    if |ct| - cursor < HEADER_SIZE {
      return Failure(Frame);
    }
    var len := FromBigEndian(ct[cursor + NONCE_SIZE..cursor + HEADER_SIZE]);
    assert ct[cursor + NONCE_SIZE..cursor + HEADER_SIZE] == rest[NONCE_SIZE..HEADER_SIZE];
    if len == 0 || len > maxCt {
      return Failure(Frame);
    }
    var start := cursor + HEADER_SIZE;
    if start + len > |ct| {
      return Failure(Frame);
    }
    var plain := suite.open(dek, ct[cursor..cursor + NONCE_SIZE], ct[start..start + len]);
    assert ct[cursor..cursor + NONCE_SIZE] == rest[..NONCE_SIZE];
    assert ct[start..start + len] == rest[HEADER_SIZE..HEADER_SIZE + len];
    assert ct[start + len..] == rest[HEADER_SIZE + len..];
    if plain.None? {
      return Failure(Aead);
    }
    return Success((plain.value, start + len));
  }

  lemma PrependNothing(r: Outcome)
    ensures Prepend([], r) == r
  {
    if r.Success? {
      assert [] + r.value == r.value;
    }
  }

  lemma PrependTwice(x: Bytes, y: Bytes, r: Outcome)
    ensures Prepend(x, Prepend(y, r)) == Prepend(x + y, r)
  {
    if r.Success? {
      assert x + (y + r.value) == x + y + r.value;
    }
  }

  // ---------------------------------------------------------------------------
  // Round trip
  // ---------------------------------------------------------------------------

  lemma FrameHeader(suite: Suite, dek: Bytes, i: nat, chunk: Bytes)
    requires Lawful(suite) && |chunk| + TAG_SIZE <= U32_MAX
    ensures |FrameOf(suite, dek, i, chunk)| == OVERHEAD + |chunk|
    ensures FrameOf(suite, dek, i, chunk)[..NONCE_SIZE] == suite.nonce(dek, i)
    ensures FromBigEndian(FrameOf(suite, dek, i, chunk)[NONCE_SIZE..HEADER_SIZE]) == |chunk| + TAG_SIZE
    ensures FrameOf(suite, dek, i, chunk)[HEADER_SIZE..] == suite.seal(dek, suite.nonce(dek, i), chunk)
  {
    var frame := FrameOf(suite, dek, i, chunk);
    assert frame[NONCE_SIZE..HEADER_SIZE] == BigEndian(|chunk| + TAG_SIZE, 4);
    BigEndianRoundTrip(|chunk| + TAG_SIZE, 4);
    PowersOf256();
    QuotientIs(|chunk| + TAG_SIZE, U32_MAX + 1, 0, |chunk| + TAG_SIZE);
  }

  /** A frame at the front opens, provided the reader allows its length. */
  lemma OpenOwnFrame(suite: Suite, dek: Bytes, maxCt: nat, i: nat, chunk: Bytes, rest: Bytes)
    requires Lawful(suite) && |chunk| + TAG_SIZE <= U32_MAX
    ensures OpenFrame(suite, dek, maxCt, FrameOf(suite, dek, i, chunk) + rest) ==
            if |chunk| + TAG_SIZE <= maxCt then Success((chunk, rest)) else Failure(Frame)
  {
    FrameHeader(suite, dek, i, chunk);
    OpenFrameParts(suite, dek, maxCt, FrameOf(suite, dek, i, chunk), |chunk| + TAG_SIZE, rest);
  }

  lemma OpenFrameParts(suite: Suite, dek: Bytes, maxCt: nat, frame: Bytes, len: nat, rest: Bytes)
    requires |frame| == HEADER_SIZE + len && len > 0 && FromBigEndian(frame[NONCE_SIZE..HEADER_SIZE]) == len
    ensures OpenFrame(suite, dek, maxCt, frame + rest) ==
            if len > maxCt then Failure(Frame)
            else
              match suite.open(dek, frame[..NONCE_SIZE], frame[HEADER_SIZE..])
              case None => Failure(Aead)
              case Some(plain) => Success((plain, rest))
  {
    var ct := frame + rest;
    assert ct[..NONCE_SIZE] == frame[..NONCE_SIZE];
    assert ct[NONCE_SIZE..HEADER_SIZE] == frame[NONCE_SIZE..HEADER_SIZE];
    assert ct[HEADER_SIZE..HEADER_SIZE + len] == frame[HEADER_SIZE..];
    assert ct[HEADER_SIZE + len..] == rest;
  }

  lemma {:induction false} OpenOwnFrames(suite: Suite, dek: Bytes, size: nat, maxCt: nat, plain: Bytes, i: nat)
    requires Lawful(suite) && size > 0 && Sealable(size, plain)
    ensures OpenFrames(suite, dek, maxCt, Frames(suite, dek, size, plain, i)) ==
            if plain == [] || Min(size, |plain|) + TAG_SIZE <= maxCt then Success(plain) else Failure(Frame)
    decreases |plain|
  {
    if plain != [] {
      var n := Min(size, |plain|);
      OpenOwnFrame(suite, dek, maxCt, i, plain[..n], Frames(suite, dek, size, plain[n..], i + 1));
      OpenOwnFrames(suite, dek, size, maxCt, plain[n..], i + 1);
      assert plain[..n] + plain[n..] == plain;
    }
  }

  /**
   What one chunk size has encrypted, another decrypts exactly when it fits the length field
   itself and is no smaller than the longest chunk.
   */
  lemma RoundTripIff(suite: Suite, plain: Bytes, dek: Bytes, chunkSize: nat, chunkSize': nat)
    requires Lawful(suite) && Encrypted(suite, plain, dek, chunkSize).Success?
    ensures Decrypted(suite, Encrypted(suite, plain, dek, chunkSize).value, dek, chunkSize') == Success(plain) <==>
              && EffectiveChunkSize(chunkSize') + TAG_SIZE <= U32_MAX
              && Min(EffectiveChunkSize(chunkSize), |plain|) <= EffectiveChunkSize(chunkSize')
  {
    var size, size' := EffectiveChunkSize(chunkSize), EffectiveChunkSize(chunkSize');
    OpenOwnFrames(suite, dek, size, size' + TAG_SIZE, plain, 0);
  }

  /** With one chunk size on both sides that fits the field, every plaintext comes back. */
  lemma RoundTrip(suite: Suite, plain: Bytes, dek: Bytes, chunkSize: nat)
    requires Lawful(suite) && |dek| == DEK_SIZE && EffectiveChunkSize(chunkSize) + TAG_SIZE <= U32_MAX
    ensures Encrypted(suite, plain, dek, chunkSize).Success?
    ensures Decrypted(suite, Encrypted(suite, plain, dek, chunkSize).value, dek, chunkSize) == Success(plain)
  {
    RoundTripIff(suite, plain, dek, chunkSize, chunkSize);
  }

  // ---------------------------------------------------------------------------
  // Streams end to end
  // ---------------------------------------------------------------------------

  lemma OpenFramePrefix(suite: Suite, dek: Bytes, maxCt: nat, x: Bytes, y: Bytes)
    requires OpenFrame(suite, dek, maxCt, x).Success?
    ensures OpenFrame(suite, dek, maxCt, x + y) ==
            Success((OpenFrame(suite, dek, maxCt, x).value.0, OpenFrame(suite, dek, maxCt, x).value.1 + y))
  {
    var len := FromBigEndian(x[NONCE_SIZE..HEADER_SIZE]);
    assert (x + y)[..NONCE_SIZE] == x[..NONCE_SIZE];
    assert (x + y)[NONCE_SIZE..HEADER_SIZE] == x[NONCE_SIZE..HEADER_SIZE];
    assert (x + y)[HEADER_SIZE..HEADER_SIZE + len] == x[HEADER_SIZE..HEADER_SIZE + len];
    assert (x + y)[HEADER_SIZE + len..] == x[HEADER_SIZE + len..] + y;
  }

  /** After a stream that decrypts, whatever follows is decrypted on its own. */
  lemma {:induction false} OpenConcat(suite: Suite, dek: Bytes, maxCt: nat, x: Bytes, y: Bytes)
    requires OpenFrames(suite, dek, maxCt, x).Success?
    ensures OpenFrames(suite, dek, maxCt, x + y) ==
            Prepend(OpenFrames(suite, dek, maxCt, x).value, OpenFrames(suite, dek, maxCt, y))
    decreases |x|
  {
    if x == [] {
      assert x + y == y;
      PrependNothing(OpenFrames(suite, dek, maxCt, y));
    } else {
      var (plain, rest) := OpenFrame(suite, dek, maxCt, x).value;
      OpenFramePrefix(suite, dek, maxCt, x, y);
      OpenConcat(suite, dek, maxCt, rest, y);
      PrependTwice(plain, OpenFrames(suite, dek, maxCt, rest).value, OpenFrames(suite, dek, maxCt, y));
    }
  }

  lemma DecryptConcat(suite: Suite, x: Bytes, y: Bytes, dek: Bytes, chunkSize: nat)
    requires Decrypted(suite, x, dek, chunkSize).Success? && Decrypted(suite, y, dek, chunkSize).Success?
    ensures Decrypted(suite, x + y, dek, chunkSize) ==
            Success(Decrypted(suite, x, dek, chunkSize).value + Decrypted(suite, y, dek, chunkSize).value)
  {
    OpenConcat(suite, dek, EffectiveChunkSize(chunkSize) + TAG_SIZE, x, y);
  }

  // ---------------------------------------------------------------------------
  // Truncated streams
  // ---------------------------------------------------------------------------

  /** How much plaintext the first `n` bytes of the frames of `len` bytes hold, when they are whole frames. */
  function WholeFrames(size: nat, len: nat, n: nat): (k: Option<nat>)
    requires size > 0
    ensures k.Some? ==> k.value <= len
    decreases len
  {
    if n == 0 then Some(0)
    else if len == 0 || n < OVERHEAD + Min(size, len) then None
    else
      var m := Min(size, len);
      match WholeFrames(size, len - m, n - OVERHEAD - m)
      case None => None
      case Some(k) => Some(m + k)
  }

  lemma CutFrame(suite: Suite, dek: Bytes, maxCt: nat, i: nat, chunk: Bytes, n: nat)
    requires Lawful(suite) && |chunk| + TAG_SIZE <= U32_MAX && n < OVERHEAD + |chunk|
    ensures |FrameOf(suite, dek, i, chunk)| == OVERHEAD + |chunk|
    ensures OpenFrame(suite, dek, maxCt, FrameOf(suite, dek, i, chunk)[..n]) == Failure(Frame)
  {
    FrameLength(suite, dek, i, chunk);
    var cut := FrameOf(suite, dek, i, chunk)[..n];
    if n >= HEADER_SIZE {
      FrameHeader(suite, dek, i, chunk);
      assert cut[NONCE_SIZE..HEADER_SIZE] == FrameOf(suite, dek, i, chunk)[NONCE_SIZE..HEADER_SIZE];
    }
  }

  /** What the decryption of a truncated stream should give: the plaintext of the whole frames, if they are whole. */
  ghost function Prefix(plain: Bytes, k: Option<nat>): Outcome
    requires k.Some? ==> k.value <= |plain|
  {
    if k.Some? then Success(plain[..k.value]) else Failure(Frame)
  }

  lemma PrependPrefix(plain: Bytes, m: nat, k: Option<nat>)
    requires m <= |plain| && (k.Some? ==> k.value <= |plain| - m)
    ensures Prepend(plain[..m], Prefix(plain[m..], k)) ==
            Prefix(plain, if k.Some? then Some(m + k.value) else None)
  {
    if k.Some? {
      assert plain[..m] + plain[m..][..k.value] == plain[..m + k.value];
    }
  }

  lemma TakeSplit(first: Bytes, rest: Bytes, n: nat)
    requires n <= |first| + |rest|
    ensures (first + rest)[..n] == if n < |first| then first[..n] else first + rest[..n - |first|]
  {
  }

  /** What is used of a frame: it opens to its chunk whatever follows it, and no proper part of it opens. */
  ghost predicate IsFrame(suite: Suite, dek: Bytes, maxCt: nat, frame: Bytes, chunk: Bytes) {
    && |frame| == OVERHEAD + |chunk|
    && (forall rest :: OpenFrame(suite, dek, maxCt, frame + rest) == Success((chunk, rest)))
    && (forall n :: 0 <= n < |frame| ==> OpenFrame(suite, dek, maxCt, frame[..n]) == Failure(Frame))
  }

  lemma OwnFrameIsFrame(suite: Suite, dek: Bytes, maxCt: nat, i: nat, chunk: Bytes)
    requires Lawful(suite) && |chunk| + TAG_SIZE <= maxCt <= U32_MAX
    ensures IsFrame(suite, dek, maxCt, FrameOf(suite, dek, i, chunk), chunk)
  {
    FrameLength(suite, dek, i, chunk);
    forall rest
      ensures OpenFrame(suite, dek, maxCt, FrameOf(suite, dek, i, chunk) + rest) == Success((chunk, rest))
    {
      OpenOwnFrame(suite, dek, maxCt, i, chunk, rest);
    }
    forall n | 0 <= n < |FrameOf(suite, dek, i, chunk)|
      ensures OpenFrame(suite, dek, maxCt, FrameOf(suite, dek, i, chunk)[..n]) == Failure(Frame)
    {
      CutFrame(suite, dek, maxCt, i, chunk, n);
    }
  }

  lemma SplitFrames(suite: Suite, dek: Bytes, size: nat, plain: Bytes, i: nat, m: nat)
    requires size > 0 && plain != [] && m == Min(size, |plain|)
    ensures Frames(suite, dek, size, plain, i) ==
            FrameOf(suite, dek, i, plain[..m]) + Frames(suite, dek, size, plain[m..], i + 1)
  {
  }

  /** A cut inside a frame is a frame error; a cut between frames decrypts to the plaintext before it. */
  lemma {:induction false} TruncatedFrames(
    suite: Suite, dek: Bytes, size: nat, plain: Bytes, i: nat, frames: Bytes, n: nat, k: Option<nat>)
    requires Lawful(suite) && size > 0 && size + TAG_SIZE <= U32_MAX
    requires frames == Frames(suite, dek, size, plain, i) && n <= |frames| && k == WholeFrames(size, |plain|, n)
    ensures OpenFrames(suite, dek, size + TAG_SIZE, frames[..n]) == Prefix(plain, k)
    decreases |plain|, 1
  {
    if n == 0 {
      assert frames[..n] == [];
    } else {
      var m := Min(size, |plain|);
      var first, rest := FrameOf(suite, dek, i, plain[..m]), Frames(suite, dek, size, plain[m..], i + 1);
      SplitFrames(suite, dek, size, plain, i, m);
      TakeSplit(first, rest, n);
      FrameLength(suite, dek, i, plain[..m]);
      var later := WholeFramesStep(size, |plain|, n, m);
      TruncatedMore(suite, dek, size, plain, i, first, rest, frames[..n], n, m, later);
    }
  }

  lemma {:induction false} TruncatedMore(
    suite: Suite, dek: Bytes, size: nat, plain: Bytes, i: nat, first: Bytes, rest: Bytes, cut: Bytes, n: nat, m: nat,
    k: Option<nat>)
    requires Lawful(suite) && size > 0 && size + TAG_SIZE <= U32_MAX && plain != [] && m == Min(size, |plain|)
    requires first == FrameOf(suite, dek, i, plain[..m]) && rest == Frames(suite, dek, size, plain[m..], i + 1)
    requires |first| == OVERHEAD + m && 0 < n <= OVERHEAD + m + |rest|
    requires cut == if n < OVERHEAD + m then first[..n] else first + rest[..n - (OVERHEAD + m)]
    requires k == if n < OVERHEAD + m then None else WholeFrames(size, |plain| - m, n - (OVERHEAD + m))
    ensures OpenFrames(suite, dek, size + TAG_SIZE, cut) == Prefix(plain, if k.Some? then Some(m + k.value) else None)
    decreases |plain|, 0
  {
    var maxCt := size + TAG_SIZE;
    OwnFrameIsFrame(suite, dek, maxCt, i, plain[..m]);
    if n < OVERHEAD + m {
      CutInFirst(suite, dek, maxCt, first, plain[..m], n, cut);
    } else {
      assert |plain[m..]| == |plain| - m;
      TruncatedFrames(suite, dek, size, plain[m..], i + 1, rest, n - (OVERHEAD + m), k);
      CutLater(suite, dek, maxCt, plain, m, first, rest[..n - (OVERHEAD + m)], k, cut);
    }
  }

  lemma WholeFramesStep(size: nat, len: nat, n: nat, m: nat) returns (later: Option<nat>)
    requires size > 0 && len > 0 && n > 0 && m == Min(size, len)
    ensures later == if n < OVERHEAD + m then None else WholeFrames(size, len - m, n - (OVERHEAD + m))
    ensures WholeFrames(size, len, n) == if later.Some? then Some(m + later.value) else None
    ensures later.Some? ==> later.value <= len - m
  {
    later := if n < OVERHEAD + m then None else WholeFrames(size, len - m, n - OVERHEAD - m);
  }

  lemma CutInFirst(suite: Suite, dek: Bytes, maxCt: nat, first: Bytes, chunk: Bytes, n: nat, cut: Bytes)
    requires IsFrame(suite, dek, maxCt, first, chunk) && 0 < n < |first| && cut == first[..n]
    ensures OpenFrames(suite, dek, maxCt, cut) == Failure(Frame)
  {
    assert cut != [];
  }

  lemma CutLater(
    suite: Suite, dek: Bytes, maxCt: nat, plain: Bytes, m: nat, first: Bytes, rest: Bytes, k: Option<nat>,
    cut: Bytes)
    requires m <= |plain| && IsFrame(suite, dek, maxCt, first, plain[..m]) && cut == first + rest
    requires k.Some? ==> k.value <= |plain| - m
    requires OpenFrames(suite, dek, maxCt, rest) == Prefix(plain[m..], k)
    ensures OpenFrames(suite, dek, maxCt, cut) == Prefix(plain, if k.Some? then Some(m + k.value) else None)
  {
    assert cut != [];
    PrependPrefix(plain, m, k);
  }

  /** Whole frames are a multiple of the full frame length, or everything. */
  lemma {:induction false} WholeFramesIff(size: nat, len: nat, n: nat, chunks: nat)
    requires size > 0 && chunks > 0 && (chunks - 1) * size < len <= chunks * size
    requires n <= chunks * OVERHEAD + len
    ensures WholeFrames(size, len, n).Some? <==> n % (OVERHEAD + size) == 0 || n == chunks * OVERHEAD + len
    decreases chunks
  {
    if 0 < n < OVERHEAD + size {
      QuotientIs(n, OVERHEAD + size, 0, n);
    }
    if chunks > 1 {
      FewerChunks(size, len, chunks);
      if n >= OVERHEAD + size {
        WholeFramesIff(size, len - size, n - OVERHEAD - size, chunks - 1);
        ModMinus(n, OVERHEAD + size);
      }
    } else {
      OneChunk(size, len, n);
    }
  }

  lemma OneChunk(size: nat, len: nat, n: nat)
    requires 0 < len <= size && n <= OVERHEAD + len
    ensures WholeFrames(size, len, n).Some? <==> n == 0 || n == OVERHEAD + len
  {
  }

  lemma ModMinus(n: nat, d: nat)
    requires 0 < d <= n
    ensures n % d == (n - d) % d
  {
    var q, m := (n - d) / d, (n - d) % d;
    assert n - d == d * q + m;
    assert d * (q + 1) == d * q + d;
    QuotientIs(n, d, q + 1, m);
  }

  /**
   Truncation is noticed exactly when the cut is not between frames: the first `n` bytes of an
   encrypted object decrypt if and only if `n` is a multiple of the full frame length, or all.
   */
  lemma TruncationNoticedIff(suite: Suite, plain: Bytes, dek: Bytes, chunkSize: nat, n: nat)
    requires Lawful(suite) && |dek| == DEK_SIZE && EffectiveChunkSize(chunkSize) + TAG_SIZE <= U32_MAX
    requires var r := Encrypted(suite, plain, dek, chunkSize); r.Success? && n <= |r.value|
    ensures var ct, size := Encrypted(suite, plain, dek, chunkSize).value, EffectiveChunkSize(chunkSize);
            && (Decrypted(suite, ct[..n], dek, chunkSize).Success? <==> n % (OVERHEAD + size) == 0 || n == |ct|)
            && (Decrypted(suite, ct[..n], dek, chunkSize).Success? ==>
                  Decrypted(suite, ct[..n], dek, chunkSize).value <= plain)
  {
    var size := EffectiveChunkSize(chunkSize);
    TruncatedFrames(suite, dek, size, plain, 0, Frames(suite, dek, size, plain, 0), n, WholeFrames(size, |plain|, n));
    if plain != [] {
      var chunks := (|plain| + size - 1) / size;
      ChunksBound(|plain|, size, chunks);
      FramesLength(suite, dek, size, plain, 0, chunks);
      WholeFramesIff(size, |plain|, n, chunks);
    }
  }

  // ---------------------------------------------------------------------------
  // What a stream is
  // ---------------------------------------------------------------------------

  /** Chunk `j` of the plaintext. */
  function ChunkAt(size: nat, plain: Bytes, j: nat): Bytes
    requires size > 0 && j * size < |plain|
  {
    plain[j * size..Min((j + 1) * size, |plain|)]
  }

  lemma ChunkOfRest(size: nat, plain: Bytes, j: nat)
    requires size > 0 && j > 0 && j * size < |plain|
    ensures j * size == (j - 1) * size + size && size < |plain|
    ensures (j - 1) * size < |plain[size..]|
    ensures ChunkAt(size, plain[size..], j - 1) == ChunkAt(size, plain, j)
  {
    assert j * size == (j - 1) * size + size;
    assert (j + 1) * size == j * size + size;
    assert (j - 1) * size >= 0;
  }

  lemma FirstChunk(size: nat, plain: Bytes)
    requires size > 0 && plain != []
    ensures ChunkAt(size, plain, 0) == plain[..Min(size, |plain|)]
  {
  }

  /** `part` stands in the stream at `at`. */
  ghost predicate StandsAt(stream: Bytes, at: nat, part: Bytes) {
    at + |part| <= |stream| && stream[at..at + |part|] == part
  }

  lemma StandsBehind(front: Bytes, stream: Bytes, at: nat, part: Bytes)
    requires StandsAt(stream, at, part)
    ensures StandsAt(front + stream, |front| + at, part)
  {
    assert (front + stream)[|front| + at..|front| + at + |part|] == stream[at..at + |part|];
  }

  function FrameStart(size: nat, j: nat): nat {
    j * (OVERHEAD + size)
  }

  lemma NextFrameStart(size: nat, j: nat)
    requires j > 0
    ensures FrameStart(size, j) == OVERHEAD + size + FrameStart(size, j - 1)
  {
  }

  lemma FirstFrameStands(suite: Suite, dek: Bytes, size: nat, plain: Bytes, i: nat)
    requires Lawful(suite) && size > 0 && plain != []
    ensures StandsAt(Frames(suite, dek, size, plain, i), 0, FrameOf(suite, dek, i, plain[..Min(size, |plain|)]))
  {
    var n := Min(size, |plain|);
    var first := FrameOf(suite, dek, i, plain[..n]);
    assert (first + Frames(suite, dek, size, plain[n..], i + 1))[0..|first|] == first;
  }

  lemma LaterFrameStands(suite: Suite, dek: Bytes, size: nat, plain: Bytes, i: nat, at: nat, part: Bytes)
    requires Lawful(suite) && 0 < size < |plain|
    requires StandsAt(Frames(suite, dek, size, plain[size..], i + 1), at, part)
    ensures StandsAt(Frames(suite, dek, size, plain, i), OVERHEAD + size + at, part)
  {
    FrameLength(suite, dek, i, plain[..size]);
    StandsBehind(FrameOf(suite, dek, i, plain[..size]), Frames(suite, dek, size, plain[size..], i + 1), at, part);
  }

  lemma {:induction false} FramesAt(suite: Suite, dek: Bytes, size: nat, plain: Bytes, i: nat, j: nat)
    requires Lawful(suite) && size > 0 && j * size < |plain|
    ensures StandsAt(Frames(suite, dek, size, plain, i), FrameStart(size, j),
                     FrameOf(suite, dek, i + j, ChunkAt(size, plain, j)))
    decreases j
  {
    if j == 0 {
      FirstChunk(size, plain);
      FirstFrameStands(suite, dek, size, plain, i);
    } else {
      ChunkOfRest(size, plain, j);
      NextFrameStart(size, j);
      FramesAt(suite, dek, size, plain[size..], i + 1, j - 1);
      var chunk := ChunkAt(size, plain, j);
      assert i + 1 + (j - 1) == i + j;
      LaterFrameStands(suite, dek, size, plain, i, FrameStart(size, j - 1), FrameOf(suite, dek, i + j, chunk));
    }
  }

  /**
   Where chunk `j` of a plaintext is in the stream: sealed under its own nonce, behind that nonce
   and its length.
   */
  lemma ChunkIsSealedAt(suite: Suite, plain: Bytes, dek: Bytes, chunkSize: nat, j: nat)
    requires Lawful(suite) && Encrypted(suite, plain, dek, chunkSize).Success?
    requires j * EffectiveChunkSize(chunkSize) < |plain|
    ensures var stream, size := Encrypted(suite, plain, dek, chunkSize).value, EffectiveChunkSize(chunkSize);
            var at, chunk := j * (44 + size), plain[j * size..Min((j + 1) * size, |plain|)];
            && StandsAt(stream, at, suite.nonce(dek, j))
            && StandsAt(stream, at + 24, BigEndian(|chunk| + 16, 4))
            && StandsAt(stream, at + 28, suite.seal(dek, suite.nonce(dek, j), chunk))
  {
    var stream, size := Encrypted(suite, plain, dek, chunkSize).value, EffectiveChunkSize(chunkSize);
    var chunk := ChunkAt(size, plain, j);
    FramesAt(suite, dek, size, plain, 0, j);
    PartsStand(stream, FrameStart(size, j), suite.nonce(dek, j), BigEndian(|chunk| + 16, 4),
               suite.seal(dek, suite.nonce(dek, j), chunk));
  }

  lemma PartsStand(stream: Bytes, at: nat, x: Bytes, y: Bytes, z: Bytes)
    requires StandsAt(stream, at, x + y + z)
    ensures StandsAt(stream, at, x) && StandsAt(stream, at + |x|, y) && StandsAt(stream, at + |x| + |y|, z)
  {
    var part := x + y + z;
    assert part[..|x|] == x && part[|x|..|x| + |y|] == y && part[|x| + |y|..] == z;
    SliceOfSlice(stream, at, part, 0, |x|);
    SliceOfSlice(stream, at, part, |x|, |x| + |y|);
    SliceOfSlice(stream, at, part, |x| + |y|, |part|);
  }

  lemma SliceOfSlice(stream: Bytes, at: nat, part: Bytes, lo: nat, hi: nat)
    requires StandsAt(stream, at, part) && lo <= hi <= |part|
    ensures StandsAt(stream, at + lo, part[lo..hi])
  {
    forall k | lo <= k < hi
      ensures stream[at + k] == part[k]
    {
      assert stream[at..at + |part|][k] == part[k];
    }
  }

  /** A frame on the wire: nonce, length, ciphertext. */
  datatype Piece = Piece(nonce: Bytes, sealed: Bytes)

  function WireOf(p: Piece): Bytes {
    p.nonce + BigEndian(|p.sealed|, 4) + p.sealed
  }

  function Wire(pieces: seq<Piece>): Bytes {
    if pieces == [] then [] else WireOf(pieces[0]) + Wire(pieces[1..])
  }

  ghost predicate Fits(maxCt: nat, p: Piece) {
    |p.nonce| == NONCE_SIZE && 0 < |p.sealed| <= maxCt
  }

  function ChunkOf(suite: Suite, dek: Bytes, p: Piece): Option<Bytes> {
    suite.open(dek, p.nonce, p.sealed)
  }

  ghost predicate AllOpen(suite: Suite, dek: Bytes, maxCt: nat, pieces: seq<Piece>) {
    forall i :: 0 <= i < |pieces| ==> Fits(maxCt, pieces[i]) && ChunkOf(suite, dek, pieces[i]).Some?
  }

  function Text(suite: Suite, dek: Bytes, pieces: seq<Piece>): Bytes
    requires forall i :: 0 <= i < |pieces| ==> ChunkOf(suite, dek, pieces[i]).Some?
  {
    if pieces == [] then [] else ChunkOf(suite, dek, pieces[0]).value + Text(suite, dek, pieces[1..])
  }

  /** The stream is these pieces and its plaintext theirs. */
  ghost predicate Holds(suite: Suite, dek: Bytes, maxCt: nat, ct: Bytes, pieces: seq<Piece>, plain: Bytes) {
    AllOpen(suite, dek, maxCt, pieces) && ct == Wire(pieces) && plain == Text(suite, dek, pieces)
  }

  /** The stream is these pieces, then one that does not open, then anything. */
  ghost predicate Breaks(suite: Suite, dek: Bytes, maxCt: nat, ct: Bytes, pieces: seq<Piece>, bad: Piece, rest: Bytes) {
    && AllOpen(suite, dek, maxCt, pieces)
    && Fits(maxCt, bad) && ChunkOf(suite, dek, bad) == None
    && ct == Wire(pieces) + (WireOf(bad) + rest)
  }

  lemma OpenPiece(suite: Suite, dek: Bytes, maxCt: nat, p: Piece, rest: Bytes)
    requires Fits(maxCt, p) && maxCt <= U32_MAX
    ensures OpenFrame(suite, dek, maxCt, WireOf(p) + rest) ==
            match ChunkOf(suite, dek, p)
            case None => Failure(Aead)
            case Some(chunk) => Success((chunk, rest))
  {
    var frame := WireOf(p);
    assert frame[..NONCE_SIZE] == p.nonce;
    assert frame[NONCE_SIZE..HEADER_SIZE] == BigEndian(|p.sealed|, 4);
    assert frame[HEADER_SIZE..] == p.sealed;
    FourBytes(|p.sealed|);
    OpenFrameParts(suite, dek, maxCt, frame, |p.sealed|, rest);
  }

  lemma FourBytes(n: nat)
    requires n <= U32_MAX
    ensures FromBigEndian(BigEndian(n, 4)) == n
  {
    BigEndianRoundTrip(n, 4);
    PowersOf256();
    QuotientIs(n, U32_MAX + 1, 0, n);
  }

  lemma {:induction false} BytesRoundTrip(bs: Bytes)
    ensures BigEndian(FromBigEndian(bs), |bs|) == bs
    decreases |bs|
  {
    if bs != [] {
      var front, last := bs[..|bs| - 1], bs[|bs| - 1];
      BytesRoundTrip(front);
      QuotientIs(FromBigEndian(bs), 256, FromBigEndian(front), last as nat);
    }
  }

  /** What opens, or fails to, is a piece at the front. */
  lemma FrontIsPiece(suite: Suite, dek: Bytes, maxCt: nat, ct: Bytes) returns (p: Piece, rest: Bytes)
    requires var r := OpenFrame(suite, dek, maxCt, ct); r.Success? || r.error == Aead
    ensures Fits(maxCt, p) && ct == WireOf(p) + rest
    ensures ChunkOf(suite, dek, p).Some? <==> OpenFrame(suite, dek, maxCt, ct).Success?
    ensures OpenFrame(suite, dek, maxCt, ct).Success? ==>
              OpenFrame(suite, dek, maxCt, ct).value == (ChunkOf(suite, dek, p).value, rest)
  {
    var field := ct[NONCE_SIZE..HEADER_SIZE];
    var len := FromBigEndian(field);
    p, rest := Piece(ct[..NONCE_SIZE], ct[HEADER_SIZE..HEADER_SIZE + len]), ct[HEADER_SIZE + len..];
    BytesRoundTrip(field);
    assert ct == p.nonce + field + p.sealed + rest;
  }

  lemma {:induction false} OpenPieces(suite: Suite, dek: Bytes, maxCt: nat, pieces: seq<Piece>, rest: Bytes)
    requires AllOpen(suite, dek, maxCt, pieces) && maxCt <= U32_MAX
    ensures OpenFrames(suite, dek, maxCt, Wire(pieces) + rest) ==
            Prepend(Text(suite, dek, pieces), OpenFrames(suite, dek, maxCt, rest))
    decreases |pieces|
  {
    if pieces == [] {
      assert Wire(pieces) + rest == rest;
      PrependNothing(OpenFrames(suite, dek, maxCt, rest));
    } else {
      var p, more := pieces[0], Wire(pieces[1..]) + rest;
      assert Wire(pieces) + rest == WireOf(p) + more;
      OpenPiece(suite, dek, maxCt, p, more);
      OpenPieces(suite, dek, maxCt, pieces[1..], rest);
      PrependTwice(ChunkOf(suite, dek, p).value, Text(suite, dek, pieces[1..]), OpenFrames(suite, dek, maxCt, rest));
    }
  }

  lemma {:induction false} PiecesOf(suite: Suite, dek: Bytes, maxCt: nat, ct: Bytes) returns (pieces: seq<Piece>)
    requires OpenFrames(suite, dek, maxCt, ct).Success?
    ensures Holds(suite, dek, maxCt, ct, pieces, OpenFrames(suite, dek, maxCt, ct).value)
    decreases |ct|
  {
    pieces := [];
    if ct != [] {
      var p, rest := FrontIsPiece(suite, dek, maxCt, ct);
      var more := PiecesOf(suite, dek, maxCt, rest);
      pieces := [p] + more;
      assert pieces[1..] == more;
    }
  }

  lemma {:induction false} PiecesToBad(suite: Suite, dek: Bytes, maxCt: nat, ct: Bytes)
    returns (pieces: seq<Piece>, bad: Piece, rest: Bytes)
    requires OpenFrames(suite, dek, maxCt, ct) == Failure(Aead)
    ensures Breaks(suite, dek, maxCt, ct, pieces, bad, rest)
    decreases |ct|
  {
    var p, more := FrontIsPiece(suite, dek, maxCt, ct);
    if OpenFrame(suite, dek, maxCt, ct).Failure? {
      pieces, bad, rest := [], p, more;
      assert Wire([]) + (WireOf(bad) + rest) == WireOf(bad) + rest;
    } else {
      pieces, bad, rest := PiecesToBad(suite, dek, maxCt, more);
      assert WireOf(p) + (Wire(pieces) + (WireOf(bad) + rest)) == WireOf(p) + Wire(pieces) + (WireOf(bad) + rest);
      assert ([p] + pieces)[1..] == pieces;
      pieces := [p] + pieces;
    }
  }

  /**
   A stream decrypts exactly if it is cut into frames that all open, and its plaintext is then
   theirs in order.  It fails to open exactly if such frames are followed by one that does not.
   */
  lemma DecryptsIff(suite: Suite, ct: Bytes, dek: Bytes, chunkSize: nat, plain: Bytes)
    requires |dek| == DEK_SIZE && EffectiveChunkSize(chunkSize) + 16 <= U32_MAX
    ensures var maxCt := EffectiveChunkSize(chunkSize) + 16;
            && (Decrypted(suite, ct, dek, chunkSize) == Success(plain) <==>
                  exists pieces :: Holds(suite, dek, maxCt, ct, pieces, plain))
            && (Decrypted(suite, ct, dek, chunkSize) == Failure(Aead) <==>
                  exists pieces, bad, rest :: Breaks(suite, dek, maxCt, ct, pieces, bad, rest))
  {
    var maxCt := EffectiveChunkSize(chunkSize) + 16;
    forall pieces | Holds(suite, dek, maxCt, ct, pieces, plain)
      ensures OpenFrames(suite, dek, maxCt, ct) == Success(plain)
    {
      OpenPieces(suite, dek, maxCt, pieces, []);
      assert ct + [] == ct && plain + [] == plain;
    }
    forall pieces, bad, rest | Breaks(suite, dek, maxCt, ct, pieces, bad, rest)
      ensures OpenFrames(suite, dek, maxCt, ct) == Failure(Aead)
    {
      OpenPiece(suite, dek, maxCt, bad, rest);
      OpenPieces(suite, dek, maxCt, pieces, WireOf(bad) + rest);
    }
    if OpenFrames(suite, dek, maxCt, ct) == Success(plain) {
      var pieces := PiecesOf(suite, dek, maxCt, ct);
    } else if OpenFrames(suite, dek, maxCt, ct) == Failure(Aead) {
      var pieces, bad, rest := PiecesToBad(suite, dek, maxCt, ct);
    }
  }
}

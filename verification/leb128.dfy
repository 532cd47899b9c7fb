/** Variable-length integers: seven bits a byte, the lowest first, with a bit for continuation. */
module Leb128 {
  import opened Radix

  const CHUNK: nat := 128
  const SIGN: nat := 64

  // ---------------------------------------------------------------- what byte strings denote

  function Payloads(bytes: seq<nat>): (p: seq<nat>)
    ensures |p| == |bytes| && Digits(p, CHUNK)
  {
    seq(|bytes|, i requires 0 <= i < |bytes| => bytes[i] % CHUNK)
  }

  function Unsigned(bytes: seq<nat>): nat {
    Val(Payloads(bytes), CHUNK)
  }

  /** The highest payload bit counts negatively. */
  function Signed(bytes: seq<nat>): int {
    Unsigned(bytes) - if bytes != [] && bytes[|bytes| - 1] % CHUNK >= SIGN then Pow(CHUNK, |bytes|) else 0
  }

  predicate Terminated(bytes: seq<nat>) {
    && bytes != [] && bytes[|bytes| - 1] < CHUNK
    && forall i :: 0 <= i < |bytes| - 1 ==> CHUNK <= bytes[i] < 2 * CHUNK
  }

  predicate Continued(bytes: seq<nat>) {
    forall i :: 0 <= i < |bytes| ==> CHUNK <= bytes[i] < 2 * CHUNK
  }

  lemma UnsignedSnoc(bytes: seq<nat>, b: nat)
    ensures Unsigned(bytes + [b]) == Unsigned(bytes) + Pow(CHUNK, |bytes|) * (b % CHUNK)
  {
    assert Payloads(bytes + [b]) == Payloads(bytes) + [b % CHUNK];
    ValSnoc(Payloads(bytes), b % CHUNK, CHUNK);
  }

  lemma UnsignedBound(bytes: seq<nat>)
    ensures Unsigned(bytes) < Pow(CHUNK, |bytes|)
  {
    ValBound(Payloads(bytes), CHUNK);
  }

  lemma ChunkPower(n: nat)
    ensures Pow(CHUNK, n) == Pow2(7 * n)
  {
    assert Pow(2, 7) == CHUNK;
    PowPow(2, 7, n);
  }

  // ---------------------------------------------------------------- encoding

  /** `n` is what `bytes` denote with `rest` above them. */
  ghost predicate Split(n: nat, bytes: seq<nat>, rest: nat) {
    Continued(bytes) && n == Unsigned(bytes) + Pow(CHUNK, |bytes|) * rest
  }

  lemma SplitStart(n: nat)
    ensures Split(n, [], n)
  {
    assert Pow(CHUNK, 0) * n == n;
  }

  lemma SplitStep(n: nat, bytes: seq<nat>, rest: nat, b: nat)
    requires Split(n, bytes, rest) && b % CHUNK == rest % CHUNK
    ensures n == Unsigned(bytes + [b]) + Pow(CHUNK, |bytes + [b]|) * (rest / CHUNK)
  {
    hide Unsigned, Pow;
    UnsignedSnoc(bytes, b);
    PowNext(|bytes|);
    Chunks(Pow(CHUNK, |bytes|), rest);
  }

  lemma PowNext(n: nat)
    ensures Pow(CHUNK, n + 1) == CHUNK * Pow(CHUNK, n)
  {
  }

  lemma Chunks(p: nat, rest: nat)
    ensures p * rest == p * (rest % CHUNK) + (CHUNK * p) * (rest / CHUNK)
  {
    var q, r := rest / CHUNK, rest % CHUNK;
    assert p * (r + CHUNK * q) == p * r + p * (CHUNK * q);
    assert p * (CHUNK * q) == (CHUNK * p) * q;
  }

  /** Writes the low chunks of a number until nothing is left; with `addBit`, also the highest bit
    * written must be zero. */
  method EncodeGo(n: nat, addBit: bool) returns (bytes: seq<nat>)
    ensures Terminated(bytes) && Unsigned(bytes) == n
    ensures addBit ==> bytes[|bytes| - 1] < SIGN
    ensures |bytes| > 1 ==> n >= (if addBit then Pow2(7 * |bytes| - 8) else Pow2(7 * |bytes| - 7))
  {
    hide Unsigned, Pow, Pow2, LowBits, HighBits, WithMore, TopBit;
    var tmp: nat := n;
    bytes := [];
    SplitStart(n);
    while true
      invariant Split(n, bytes, tmp)
      invariant tmp == 0 ==> n == 0 || addBit
      invariant |bytes| > 0 ==> n >= (if addBit then Pow2(7 * |bytes| - 1) else Pow2(7 * |bytes|))
      decreases tmp
    {
      var byte := LowBits(tmp);
      ghost var rest: nat := tmp;
      tmp := HighBits(tmp);
      LowByte(rest);
      if tmp != 0 || (addBit && TopBit(byte)) {
        var b := WithMore(byte);
        SplitStep(n, bytes, rest, b);
        StillMore(n, bytes, b, tmp, addBit);
        bytes := bytes + [b];
      } else {
        SplitStep(n, bytes, rest, byte);
        MulZero(Pow(CHUNK, |bytes + [byte]|));
        bytes := bytes + [byte];
        return;
      }
    }
  }

  function LowBits(v: nat): nat {
    v % 256
  }

  function HighBits(v: nat): nat {
    v / CHUNK
  }

  /** The byte with its continuation bit set. */
  function WithMore(byte: nat): nat {
    byte % CHUNK + CHUNK
  }

  predicate TopBit(byte: nat) {
    byte / SIGN % 2 != 0
  }

  lemma LowByte(rest: nat)
    ensures HighBits(rest) == rest / CHUNK
    ensures var byte := LowBits(rest);
      && byte % CHUNK == rest % CHUNK && (HighBits(rest) == 0 ==> byte == rest < CHUNK)
      && WithMore(byte) % CHUNK == byte % CHUNK && CHUNK <= WithMore(byte) < 256
      && (TopBit(byte) <==> byte % CHUNK >= SIGN)
      && (HighBits(rest) == 0 && !TopBit(byte) ==> byte < SIGN)
      && (HighBits(rest) != 0 || TopBit(byte) ==> HighBits(rest) < rest)
  {
    var q, r := rest / 256, rest % 256;
    assert rest == CHUNK * (2 * q + r / CHUNK) + r % CHUNK;
    Chunked(rest, 2 * q + r / CHUNK, r % CHUNK);
  }

  lemma Chunked(v: nat, q: nat, r: nat)
    requires v == CHUNK * q + r && r < CHUNK
    ensures v / CHUNK == q && v % CHUNK == r
  {
  }

  lemma MulZero(p: nat)
    ensures p * 0 == 0
  {
  }

  /** A further byte is written only when the number is large enough. */
  lemma StillMore(n: nat, bytes: seq<nat>, b: nat, rest: nat, addBit: bool)
    requires n == Unsigned(bytes + [b]) + Pow(CHUNK, |bytes + [b]|) * rest
    requires rest != 0 || (addBit && b % CHUNK >= SIGN)
    ensures n >= if addBit then Pow2(7 * |bytes + [b]| - 1) else Pow2(7 * |bytes + [b]|)
  {
    hide Unsigned, Pow, Pow2;
    var k := |bytes| + 1;
    ChunkPower(k);
    ChunkPower(k - 1);
    Pow2Next(7 * k - 1);
    if rest != 0 {
      MulAtLeast(Pow(CHUNK, k), rest);
    } else {
      UnsignedSnoc(bytes, b);
      MulZero(Pow(CHUNK, k));
      SignBit(k);
      MulMonotone(Pow(CHUNK, k - 1), SIGN, b % CHUNK);
    }
  }

  lemma Pow2Next(n: nat)
    ensures Pow2(n + 1) == 2 * Pow2(n)
  {
  }

  lemma MulMonotone(p: nat, a: nat, b: nat)
    requires a <= b
    ensures p * a <= p * b
  {
  }

  lemma SignBit(k: nat)
    requires k > 0
    ensures Pow(CHUNK, k - 1) * SIGN == Pow2(7 * k - 1)
  {
    ChunkPower(k - 1);
    PowAdd(2, 7 * (k - 1), 6);
    assert Pow(2, 6) == SIGN;
  }

  /** From the size of a number to its number of bits. */
  lemma BitsBetween(v: nat, lo: nat, hi: nat)
    requires v < Pow2(hi)
    ensures BitLength(v) <= hi
    ensures v >= Pow2(lo) ==> lo < BitLength(v)
  {
    BitLengthOf(v, hi);
    if v >= Pow2(lo) && BitLength(v) <= lo {
      BitLengthBounds(v);
      PowGrows(2, BitLength(v), lo);
    }
  }

  /** Bytes of the unsigned encoding. */
  function Leb128Size(n: nat): nat {
    if n == 0 then 1 else (BitLength(n) + 6) / 7
  }

  method BigintLeb128Encode(n: nat) returns (bytes: seq<nat>)
    ensures Terminated(bytes) && Unsigned(bytes) == n && Shortest(bytes) && |bytes| == Leb128Size(n)
  {
    hide Unsigned, Pow, Pow2, BitLength, Shortest;
    bytes := EncodeGo(n, false);
    NoByteTooMany(n, bytes);
    UnsignedBound(bytes);
    ChunkPower(|bytes|);
    BitsBetween(n, if |bytes| > 1 then 7 * |bytes| - 7 else 0, 7 * |bytes|);
    PositivePower(if |bytes| > 1 then 7 * |bytes| - 7 else 0);
    if n > 0 {
      Positive(n);
    }
  }

  lemma Positive(n: nat)
    requires n > 0
    ensures BitLength(n) > 0 && n >= Pow2(0)
  {
  }

  lemma PositivePower(n: nat)
    ensures Pow2(n) > 0
  {
  }

  /** Bits of the two's complement. */
  function ComplementBits(n: int): nat {
    1 + BitLength(if n < 0 then -(n + 1) else n)
  }

  function Sleb128Size(n: int): nat {
    (ComplementBits(n) + 6) / 7
  }

  method BigintSleb128Encode(n: int) returns (bytes: seq<nat>)
    ensures Terminated(bytes) && Signed(bytes) == n && ShortestSigned(bytes) && |bytes| == Sleb128Size(n)
  {
    hide Unsigned, Pow, Pow2, BitLength, ShortestSigned, Wide;
    if n < 0 {
      var size := Sleb128Size(n);
      ComplementFits(n, size);
      var tmp := n + Pow2(7 * size);
      bytes := EncodeGo(tmp, false);
      ComplementSize(tmp, bytes, size);
    } else {
      bytes := EncodeGo(n, true);
      NonNegative(n, bytes);
    }
    ComplementWide(n);
    NoSignedByteTooMany(n, bytes);
  }

  /** The number of bytes is just large enough. */
  lemma ComplementFits(n: int, size: nat)
    requires n < 0 && size == Sleb128Size(n)
    ensures size > 0 && Pow2(7 * size - 1) + n >= 0 && Pow2(7 * size) == 2 * Pow2(7 * size - 1)
  {
    var m: nat := -(n + 1);
    BitLengthBounds(m);
    PowGrows(2, BitLength(m), 7 * size - 1);
  }

  lemma ComplementSize(tmp: nat, bytes: seq<nat>, size: nat)
    requires size > 0 && Pow2(7 * size - 1) <= tmp < Pow2(7 * size) && Terminated(bytes) && Unsigned(bytes) == tmp
    requires |bytes| > 1 ==> tmp >= Pow2(7 * |bytes| - 7)
    ensures |bytes| == size && Signed(bytes) == tmp - Pow2(7 * size)
  {
    hide Unsigned, Pow, Pow2, BitLength;
    var k := |bytes|;
    UnsignedBound(bytes);
    ChunkPower(k);
    BitsBetween(tmp, 7 * size - 1, 7 * size);
    BitsBetween(tmp, if k > 1 then 7 * k - 7 else 0, 7 * k);
    TopPayload(bytes);
  }

  /** The highest payload bit tells in which half of the range the number lies. */
  lemma TopPayload(bytes: seq<nat>)
    requires bytes != []
    ensures bytes[|bytes| - 1] % CHUNK >= SIGN <==> Unsigned(bytes) >= Pow2(7 * |bytes| - 1)
  {
    hide Unsigned, Pow, Pow2;
    var k := |bytes|;
    var init, last := bytes[..k - 1], bytes[k - 1];
    assert bytes == init + [last];
    UnsignedSnoc(init, last);
    UnsignedBound(init);
    SignBit(k);
    if last % CHUNK >= SIGN {
      MulMonotone(Pow(CHUNK, k - 1), SIGN, last % CHUNK);
    } else {
      MulMonotone(Pow(CHUNK, k - 1), last % CHUNK, SIGN - 1);
      MulPred(Pow(CHUNK, k - 1), SIGN);
    }
  }

  lemma MulPred(p: nat, a: nat)
    requires a > 0
    ensures p * (a - 1) == p * a - p
  {
  }

  lemma NonNegative(n: nat, bytes: seq<nat>)
    requires Terminated(bytes) && Unsigned(bytes) == n && bytes[|bytes| - 1] < SIGN
    requires |bytes| > 1 ==> n >= Pow2(7 * |bytes| - 8)
    ensures |bytes| == Sleb128Size(n) && Signed(bytes) == n
  {
    hide Unsigned, Pow, Pow2, BitLength;
    TopPayload(bytes);
    BitsBetween(n, if |bytes| > 1 then 7 * |bytes| - 8 else 0, 7 * |bytes| - 1);
  }

  // ---------------------------------------------------------------- no byte too many

  /** No shorter encoding denotes the same natural number. */
  ghost predicate Shortest(bytes: seq<nat>) {
    forall other :: Terminated(other) && Unsigned(other) == Unsigned(bytes) ==> |bytes| <= |other|
  }

  ghost predicate ShortestSigned(bytes: seq<nat>) {
    forall other :: Terminated(other) && Signed(other) == Signed(bytes) ==> |bytes| <= |other|
  }

  lemma NoByteTooMany(n: nat, bytes: seq<nat>)
    requires Unsigned(bytes) == n && (|bytes| > 1 ==> n >= Pow2(7 * |bytes| - 7))
    ensures Shortest(bytes)
  {
    hide Unsigned, Pow, Pow2;
    forall other | Terminated(other) && Unsigned(other) == n
      ensures |bytes| <= |other|
    {
      UnsignedBound(other);
      ChunkPower(|other|);
      if |other| < |bytes| {
        Pow2Grows(7 * |other|, 7 * |bytes| - 7);
      }
    }
  }

  lemma Pow2Grows(m: nat, n: nat)
    requires m <= n
    ensures Pow2(m) <= Pow2(n)
  {
    PowGrows(2, m, n);
  }

  /** The number needs more than `k` bytes. */
  ghost predicate Wide(n: int, k: nat)
    requires k > 0
  {
    n >= Pow2(7 * k - 1) || n + Pow2(7 * k - 1) < 0
  }

  lemma SignedBound(bytes: seq<nat>)
    requires bytes != []
    ensures !Wide(Signed(bytes), |bytes|)
  {
    hide Unsigned, Pow, Pow2;
    UnsignedBound(bytes);
    ChunkPower(|bytes|);
    Pow2Next(7 * |bytes| - 1);
    TopPayload(bytes);
  }

  lemma NoSignedByteTooMany(n: int, bytes: seq<nat>)
    requires Signed(bytes) == n && (|bytes| > 1 ==> Wide(n, |bytes| - 1))
    ensures ShortestSigned(bytes)
  {
    hide Signed, Pow2;
    forall other | Terminated(other) && Signed(other) == n
      ensures |bytes| <= |other|
    {
      SignedBound(other);
      if |other| < |bytes| {
        Pow2Grows(7 * |other| - 1, 7 * (|bytes| - 1) - 1);
      }
    }
  }

  lemma ComplementWide(n: int)
    ensures Sleb128Size(n) > 1 ==> Wide(n, Sleb128Size(n) - 1)
  {
    hide Pow2;
    var m: nat := if n < 0 then -(n + 1) else n;
    if Sleb128Size(n) > 1 {
      BitLengthBounds(m);
      Pow2Grows(7 * (Sleb128Size(n) - 1) - 1, BitLength(m) - 1);
    }
  }

  // ---------------------------------------------------------------- decoding

  datatype Decoded<T> = Decoded(value: T, length: nat) | EndOfBuffer

  /** The first byte without continuation. */
  ghost predicate EndsAt(buf: seq<nat>, n: nat) {
    n <= |buf| && Terminated(buf[..n])
  }

  /** Reads up to the first byte without continuation. */
  method BigintLeb128Decode(buf: seq<nat>) returns (r: Decoded<nat>)
    requires forall i :: 0 <= i < |buf| ==> buf[i] < 2 * CHUNK
    ensures r.Decoded? ==> EndsAt(buf, r.length) && r.value == Unsigned(buf[..r.length])
    ensures r.EndOfBuffer? <==> Continued(buf)
  {
    hide Unsigned, Pow, Pow2;
    var i, shift, at := 0, 0, 0;
    UnsignedEmpty();
    while at < |buf|
      invariant at <= |buf| && shift == 7 * at && Continued(buf[..at]) && i == Unsigned(buf[..at])
    {
      var byte := buf[at];
      NextByte(buf, at);
      i := i + byte % CHUNK * Pow2(shift);
      shift := shift + 7;
      at := at + 1;
      if byte < CHUNK {
        assert !Continued(buf);
        return Decoded(i, at);
      }
    }
    assert buf[..at] == buf;
    r := EndOfBuffer;
  }

  lemma UnsignedEmpty()
    ensures Unsigned([]) == 0
  {
  }

  lemma NextByte(buf: seq<nat>, at: nat)
    requires at < |buf|
    ensures buf[..at + 1] == buf[..at] + [buf[at]]
    ensures Unsigned(buf[..at + 1]) == Unsigned(buf[..at]) + buf[at] % CHUNK * Pow2(7 * at)
  {
    hide Unsigned, Pow, Pow2;
    assert buf[..at + 1] == buf[..at] + [buf[at]];
    UnsignedSnoc(buf[..at], buf[at]);
    ChunkPower(at);
  }

  method BigintSleb128Decode(buf: seq<nat>) returns (r: Decoded<int>)
    requires forall i :: 0 <= i < |buf| ==> buf[i] < 2 * CHUNK
    ensures r.Decoded? ==> EndsAt(buf, r.length) && r.value == Signed(buf[..r.length])
    ensures r.EndOfBuffer? <==> Continued(buf)
  {
    hide Unsigned, Pow, Pow2;
    var i: int, shift, at := 0, 0, 0;
    UnsignedEmpty();
    while at < |buf|
      invariant at <= |buf| && shift == 7 * at && Continued(buf[..at]) && i == Unsigned(buf[..at])
    {
      var byte := buf[at];
      NextByte(buf, at);
      ChunkPower(at + 1);
      i := i + byte % CHUNK * Pow2(shift);
      var signBit := byte / SIGN % 2 != 0;
      shift := shift + 7;
      at := at + 1;
      if byte < CHUNK {
        if signBit {
          i := i - Pow2(shift);
        }
        assert !Continued(buf);
        return Decoded(i, at);
      }
    }
    assert buf[..at] == buf;
    r := EndOfBuffer;
  }

  lemma BeforeEnd(buf: seq<nat>, m: nat, n: nat)
    requires EndsAt(buf, n) && 0 < m <= n
    ensures m < n ==> buf[m - 1] >= CHUNK
    ensures m == n ==> buf[m - 1] < CHUNK
  {
    assert buf[..n][m - 1] == buf[m - 1];
  }

  /** There is at most one end. */
  lemma EndUnique(buf: seq<nat>, m: nat, n: nat)
    requires EndsAt(buf, m) && EndsAt(buf, n)
    ensures m == n
  {
    BeforeEnd(buf, if m < n then m else n, n);
    BeforeEnd(buf, if m < n then m else n, m);
  }

  /** Decoding gives back what has been encoded, whatever follows in the buffer. */
  method LebRoundTrip(n: nat, rest: seq<nat>) returns (r: Decoded<nat>)
    requires forall i :: 0 <= i < |rest| ==> rest[i] < 2 * CHUNK
    ensures r == Decoded(n, Leb128Size(n))
  {
    hide Unsigned, Pow, Pow2, BitLength;
    var bytes := BigintLeb128Encode(n);
    assert (bytes + rest)[..|bytes|] == bytes && (bytes + rest)[|bytes| - 1] == bytes[|bytes| - 1];
    r := BigintLeb128Decode(bytes + rest);
    EndUnique(bytes + rest, r.length, |bytes|);
  }

  method SlebRoundTrip(n: int, rest: seq<nat>) returns (r: Decoded<int>)
    requires forall i :: 0 <= i < |rest| ==> rest[i] < 2 * CHUNK
    ensures r == Decoded(n, Sleb128Size(n))
  {
    hide Signed, Pow, Pow2, BitLength;
    var bytes := BigintSleb128Encode(n);
    assert (bytes + rest)[..|bytes|] == bytes && (bytes + rest)[|bytes| - 1] == bytes[|bytes| - 1];
    r := BigintSleb128Decode(bytes + rest);
    EndUnique(bytes + rest, r.length, |bytes|);
  }
}

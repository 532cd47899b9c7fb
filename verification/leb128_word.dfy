/** The variable-length integers of 64-bit machine words. */
module Leb128Word {
  import opened Radix
  import opened Leb128

  const USIZE: nat := 0x1_0000_0000_0000_0000
  const ISIZE_MAX: nat := 0x7fff_ffff_ffff_ffff
  const MAX_LENGTH: nat := 10

  datatype Checked<T> = Value(value: T, length: nat) | Overflow | EndOfBuffer

  predicate FitsSigned(v: int) {
    v <= ISIZE_MAX && v + ISIZE_MAX >= -1
  }

  lemma WordPowers()
    ensures Pow2(64) == USIZE && Pow2(63) == ISIZE_MAX + 1 && Pow(CHUNK, 9) == Pow2(63)
  {
    assert Pow2(16) == 0x1_0000 by {
      PowAdd(2, 8, 8);
      assert Pow(2, 8) == 256;
    }
    PowAdd(2, 16, 16);
    PowAdd(2, 32, 32);
    assert Pow2(64) == 2 * Pow2(63);
    ChunkPower(9);
  }

  // ---------------------------------------------------------------- encoding

  method Leb128Encode(word: nat) returns (bytes: seq<nat>)
    requires word < USIZE
    ensures Terminated(bytes) && Unsigned(bytes) == word && |bytes| <= MAX_LENGTH && Shortest(bytes)
  {
    hide Unsigned, Pow, Pow2, Shortest;
    var val: nat := word;
    bytes := [];
    SplitStart(word);
    while true
      invariant Split(word, bytes, val) && (|bytes| > 0 ==> val > 0)
      decreases val
    {
      var byte: nat := val % CHUNK;
      SplitStep(word, bytes, val, byte);
      SplitStep(word, bytes, val, byte + CHUNK);
      EncodedLength(word, bytes, val);
      EncodedEnough(word, bytes, val);
      val := val / CHUNK;
      if val == 0 {
        MulZero(Pow(CHUNK, |bytes + [byte]|));
        bytes := bytes + [byte];
        NoByteTooMany(word, bytes);
        return;
      }
      bytes := bytes + [byte + CHUNK];
    }
  }

  /** Ten bytes hold any word. */
  lemma EncodedLength(word: nat, bytes: seq<nat>, rest: nat)
    requires word < USIZE && Split(word, bytes, rest) && (|bytes| > 0 ==> rest > 0)
    ensures |bytes| < MAX_LENGTH
  {
    hide Unsigned, Pow, Pow2;
    if |bytes| >= MAX_LENGTH {
      MulAtLeast(Pow(CHUNK, |bytes|), rest);
      ChunkPower(|bytes|);
      PowGrows(2, 64, 7 * |bytes|);
      WordPowers();
      Pow2IsPow();
    }
  }

  /** The bytes before the last one do not suffice. */
  lemma EncodedEnough(word: nat, bytes: seq<nat>, rest: nat)
    requires Split(word, bytes, rest) && (|bytes| > 0 ==> rest > 0)
    ensures |bytes| > 0 ==> word >= Pow2(7 * |bytes|)
  {
    hide Unsigned, Pow, Pow2;
    if |bytes| > 0 {
      MulAtLeast(Pow(CHUNK, |bytes|), rest);
      ChunkPower(|bytes|);
    }
  }

  lemma Pow2IsPow()
    ensures forall n: nat :: Pow2(n) == Pow(2, n)
  {
  }

  /** `n` is what `bytes` denote with the signed number `rest` above them. */
  ghost predicate SignedSplit(n: int, bytes: seq<nat>, rest: int) {
    Continued(bytes) && n == Unsigned(bytes) + Pow(CHUNK, |bytes|) * rest
  }

  lemma SignedStart(n: int)
    ensures SignedSplit(n, [], n)
  {
    assert Pow(CHUNK, 0) * n == n;
  }

  lemma SignedStep(n: int, bytes: seq<nat>, rest: int, b: nat)
    requires SignedSplit(n, bytes, rest) && b % CHUNK == rest % CHUNK
    ensures n == Unsigned(bytes + [b]) + Pow(CHUNK, |bytes + [b]|) * (rest / CHUNK)
  {
    hide Unsigned, Pow;
    UnsignedSnoc(bytes, b);
    PowNext(|bytes|);
    SignedChunks(Pow(CHUNK, |bytes|), rest);
  }

  lemma SignedChunks(p: nat, rest: int)
    ensures p * rest == p * (rest % CHUNK) + (CHUNK * p) * (rest / CHUNK)
  {
    var q, r := rest / CHUNK, rest % CHUNK;
    assert p * (r + CHUNK * q) == p * r + p * (CHUNK * q);
    assert p * (CHUNK * q) == (CHUNK * p) * q;
  }

  method Sleb128Encode(word: int) returns (bytes: seq<nat>)
    requires FitsSigned(word)
    ensures Terminated(bytes) && Signed(bytes) == word && |bytes| <= MAX_LENGTH && ShortestSigned(bytes)
  {
    hide Unsigned, Pow, Pow2, ShortestSigned, Wide;
    var val := word;
    bytes := [];
    SignedStart(word);
    WordPowers();
    while true
      invariant SignedSplit(word, bytes, val) && |bytes| < MAX_LENGTH && Below(val, 63 - 7 * |bytes|)
      invariant |bytes| > 0 ==> Wide(word, |bytes|)
      decreases if val < 0 then -(val + 1) else val, if bytes != [] && (val == 0 || val == -1) then 0 else 1
    {
      var byte: nat := val % CHUNK;
      SignedStep(word, bytes, val, byte);
      SignedStep(word, bytes, val, byte + CHUNK);
      Shrinks(val, |bytes|);
      // The shift keeps the sign.
      val := val / CHUNK;
      if (val == 0 && byte < SIGN) || (val == -1 && byte >= SIGN) {
        SignedEnd(word, bytes + [byte], val);
        bytes := bytes + [byte];
        NoSignedByteTooMany(word, bytes);
        return;
      }
      SignedEnough(word, bytes + [byte + CHUNK], val);
      bytes := bytes + [byte + CHUNK];
    }
  }

  /** The signed number has at most `n` bits below the sign. */
  predicate Below(v: int, n: nat) {
    0 <= v + Pow2(n) && v < Pow2(n)
  }

  /** Seven bits less are left after each byte; after the ninth, only the sign is. */
  lemma Shrinks(v: int, length: nat)
    requires length < MAX_LENGTH && Below(v, 63 - 7 * length)
    ensures length < 9 ==> Below(v / CHUNK, 63 - 7 * (length + 1))
    ensures length == 9 ==> (v == 0 || v == -1) && v / CHUNK == v && v % CHUNK == if v == 0 then 0 else CHUNK - 1
  {
    if length < 9 {
      var p := Pow2(63 - 7 * (length + 1));
      PowAdd(2, 7, 63 - 7 * (length + 1));
      assert Pow(2, 7) == CHUNK;
      assert Pow2(63 - 7 * length) == CHUNK * p;
    } else {
      assert Pow2(0) == 1;
    }
  }

  /** Unless the rest is the sign that the last byte tells, more bytes are needed. */
  lemma SignedEnough(n: int, bytes: seq<nat>, rest: int)
    requires bytes != [] && n == Unsigned(bytes) + Pow(CHUNK, |bytes|) * rest
    requires rest != if bytes[|bytes| - 1] % CHUNK >= SIGN then -1 else 0
    ensures Wide(n, |bytes|)
  {
    hide Unsigned, Pow, Pow2;
    var p: int := Pow(CHUNK, |bytes|);
    UnsignedBound(bytes);
    TopPayload(bytes);
    ChunkPower(|bytes|);
    Pow2Next(7 * |bytes| - 1);
    if rest > 0 {
      SignedTimes(p, 1, rest);
    } else if rest < -1 {
      SignedTimes(p, rest, -2);
    } else {
      assert p * 0 == 0 && p * -1 == 0 - p;
    }
  }

  lemma SignedTimes(p: nat, a: int, b: int)
    requires a <= b
    ensures p * a <= p * b
  {
  }

  lemma SignedEnd(n: int, bytes: seq<nat>, rest: int)
    requires bytes != [] && n == Unsigned(bytes) + Pow(CHUNK, |bytes|) * rest
    requires rest == if bytes[|bytes| - 1] % CHUNK >= SIGN then -1 else 0
    ensures Signed(bytes) == n
  {
    hide Unsigned, Pow;
    assert Pow(CHUNK, |bytes|) * 0 == 0 && Pow(CHUNK, |bytes|) * -1 == 0 - Pow(CHUNK, |bytes|);
  }

  // ---------------------------------------------------------------- decoding

  /** On an encoding of at most ten bytes the decoder succeeds exactly when the number fits into a
    * word; longer encodings are refused. */
  method Leb128DecodeChecked(buf: seq<nat>) returns (r: Checked<nat>)
    requires forall i :: 0 <= i < |buf| ==> buf[i] < 2 * CHUNK
    ensures forall n: nat :: EndsAt(buf, n) ==>
              r == if n <= MAX_LENGTH && Unsigned(buf[..n]) < USIZE then Value(Unsigned(buf[..n]), n) else Overflow
    ensures r.EndOfBuffer? <==> Continued(buf) && |buf| < MAX_LENGTH
  {
    hide Unsigned, Pow, Pow2;
    var result, shift, at := 0, 0, 0;
    UnsignedEmpty();
    WordPowers();
    while at < |buf|
      invariant at <= |buf| && at < MAX_LENGTH && shift == 7 * at && Continued(buf[..at]) && result == Unsigned(buf[..at])
    {
      var byte := buf[at];
      NextByte(buf, at);
      TenthByte(buf, at);
      result := result + byte % CHUNK * Pow2(shift) % USIZE;
      if shift == 63 && byte / 2 != 0 {
        OnlyEnd(buf, at);
        return Overflow;
      }
      shift := shift + 7;
      at := at + 1;
      if byte < CHUNK {
        OnlyEnd(buf, at - 1);
        return Value(result, at);
      }
    }
    assert buf[..at] == buf;
    NoEnd(buf);
    r := Checked.EndOfBuffer;
  }

  /** Up to nine bytes the payload fits; the tenth may contribute one bit. */
  lemma TenthByte(buf: seq<nat>, at: nat)
    requires at < |buf| && at < MAX_LENGTH && buf[at] < 2 * CHUNK
    ensures Unsigned(buf[..at + 1]) == Unsigned(buf[..at]) + buf[at] % CHUNK * Pow2(7 * at)
    ensures at < 9 || buf[at] < 2 ==> buf[at] % CHUNK * Pow2(7 * at) < USIZE && Unsigned(buf[..at + 1]) < USIZE
    ensures at == 9 && buf[at] % CHUNK >= 2 ==> Unsigned(buf[..at + 1]) >= USIZE
    ensures at < 9 ==> Unsigned(buf[..at + 1]) < Pow2(63)
  {
    hide Unsigned, Pow, Pow2;
    NextByte(buf, at);
    WordPowers();
    UnsignedBound(buf[..at + 1]);
    UnsignedBound(buf[..at]);
    if at < 9 {
      ChunkPower(at + 1);
      PowGrows(2, 7 * (at + 1), 63);
      Pow2IsPow();
    }
  }

  /** The byte at `at` is where the encoding ends, if it ends there, and if not, it ends later. */
  lemma OnlyEnd(buf: seq<nat>, at: nat)
    requires at < |buf| && Continued(buf[..at])
    ensures buf[at] < CHUNK ==> EndsAt(buf, at + 1)
    ensures forall n: nat :: EndsAt(buf, n) ==> if buf[at] < CHUNK then n == at + 1 else n > at + 1
    ensures buf[at] < CHUNK ==> !Continued(buf)
  {
    forall i | 0 <= i < at
      ensures CHUNK <= buf[i] < 2 * CHUNK
    {
      assert buf[..at][i] == buf[i];
    }
    if buf[at] < CHUNK {
      assert buf[..at + 1][at] == buf[at];
    }
    forall n: nat | EndsAt(buf, n)
      ensures if buf[at] < CHUNK then n == at + 1 else n > at + 1
    {
      BeforeEnd(buf, n, n);
      if buf[at] < CHUNK {
        EndUnique(buf, n, at + 1);
      }
    }
  }

  lemma NoEnd(buf: seq<nat>)
    requires Continued(buf)
    ensures forall n: nat :: !EndsAt(buf, n)
  {
    forall n: nat | n <= |buf|
      ensures !Terminated(buf[..n])
    {
      assert n > 0 ==> buf[..n][n - 1] == buf[n - 1];
    }
  }

  /** A word read as a signed number. */
  function AsSigned(word: nat): int {
    if word > ISIZE_MAX then word - USIZE else word
  }

  /** Bitwise disjunction. */
  function Or(a: nat, b: nat): nat
    decreases a + b
  {
    if a == 0 && b == 0 then 0
    else (if a % 2 == 1 || b % 2 == 1 then 1 else 0) + 2 * Or(a / 2, b / 2)
  }

  lemma {:induction false} OrZero(a: nat)
    ensures Or(0, a) == a
  {
    if a > 0 {
      OrZero(a / 2);
    }
  }

  /** Numbers without a common bit add up. */
  lemma {:induction false} OrDisjoint(a: nat, b: nat, p: nat)
    requires a < Pow2(p)
    ensures Or(a, b * Pow2(p)) == a + b * Pow2(p)
  {
    if p == 0 {
      OrZero(b);
    } else {
      var c := b * Pow2(p - 1);
      assert b * Pow2(p) == 2 * c;
      OrDisjoint(a / 2, b, p - 1);
    }
  }

  /** The payload of the tenth byte repeats the sign. */
  predicate SignExtension(byte: nat) {
    byte % CHUNK == 0 || byte % CHUNK == CHUNK - 1
  }

  /** The decoder succeeds exactly when the number fits, if the encoding ends within ten bytes. A longer
    * one is refused exactly when the payload of its tenth byte is no sign extension. */
  method Sleb128DecodeChecked(buf: seq<nat>) returns (r: Checked<int>)
    requires forall i :: 0 <= i < |buf| ==> buf[i] < 2 * CHUNK
    ensures forall n: nat :: EndsAt(buf, n) && n <= MAX_LENGTH ==>
              r == if FitsSigned(Signed(buf[..n])) then Value(Signed(buf[..n]), n) else Overflow
    ensures forall n: nat :: EndsAt(buf, n) && n > MAX_LENGTH ==>
              if SignExtension(buf[9]) then r.Value? && r.length == n else r == Overflow
    ensures r.EndOfBuffer? <==> Continued(buf) && (|buf| < MAX_LENGTH || SignExtension(buf[9]))
  {
    hide Unsigned, Signed, Pow, Pow2, EndsAt, Or;
    var result: nat, shift: nat, at: nat := 0, 0, 0;
    UnsignedEmpty();
    WordPowers();
    while at < |buf|
      invariant at <= |buf| && shift == 7 * at && Continued(buf[..at])
      invariant at < MAX_LENGTH ==> result == Unsigned(buf[..at]) && (at > 0 ==> result < Pow2(7 * at) && result < Pow2(63))
      invariant at >= MAX_LENGTH ==> SignExtension(buf[9])
    {
      var byte := buf[at];
      ghost var before := result;
      // A shift by more than the word has bits shifts by the remainder.
      result := Or(result, byte % CHUNK * Pow2(shift % 64) % USIZE);
      if shift == 63 && !SignExtension(byte) {
        EndAfter(buf, at);
        OnlyEnd(buf, at);
        if byte < CHUNK {
          TenthMisfit(buf, MAX_LENGTH);
        }
        return Overflow;
      }
      if at < MAX_LENGTH {
        ShortStep(buf, at, before);
      }
      EndAfter(buf, at);
      OnlyEnd(buf, at);
      shift := shift + 7;
      at := at + 1;
      if byte < CHUNK {
        if at < MAX_LENGTH {
          NinthFits(buf, at);
        } else if at == MAX_LENGTH {
          TenthFits(buf);
        }
        if shift < 64 && byte / SIGN % 2 != 0 {
          // Sign extension.
          result := result + (USIZE - Pow2(shift));
        }
        return Value(AsSigned(result), at);
      }
    }
    assert buf[..at] == buf;
    NoEnd(buf);
    r := Checked.EndOfBuffer;
  }

  /** An encoding of eleven bytes is not refused, although it has more than ten. */
  method LongEncodingAccepted() returns (r: Checked<int>)
    ensures r.Value? && r.length > MAX_LENGTH
  {
    var buf: seq<nat> := seq(MAX_LENGTH, _ => CHUNK) + [0];
    assert buf[..11] == buf;
    assert EndsAt(buf, 11);
    r := Sleb128DecodeChecked(buf);
  }

  /** Every word is read back, whatever follows in the buffer. */
  method WordRoundTrip(word: nat, rest: seq<nat>) returns (r: Checked<nat>, ghost length: nat)
    requires word < USIZE && forall i :: 0 <= i < |rest| ==> rest[i] < 2 * CHUNK
    ensures r == Value(word, length) && length <= MAX_LENGTH
  {
    hide Unsigned;
    var bytes := Leb128Encode(word);
    length := |bytes|;
    EncodedFirst(bytes, rest);
    r := Leb128DecodeChecked(bytes + rest);
  }

  method SignedWordRoundTrip(word: int, rest: seq<nat>) returns (r: Checked<int>, ghost length: nat)
    requires FitsSigned(word) && forall i :: 0 <= i < |rest| ==> rest[i] < 2 * CHUNK
    ensures r == Value(word, length) && length <= MAX_LENGTH
  {
    hide Signed;
    var bytes := Sleb128Encode(word);
    length := |bytes|;
    EncodedFirst(bytes, rest);
    r := Sleb128DecodeChecked(bytes + rest);
  }

  lemma EncodedFirst(bytes: seq<nat>, rest: seq<nat>)
    requires Terminated(bytes) && forall i :: 0 <= i < |rest| ==> rest[i] < 2 * CHUNK
    ensures EndsAt(bytes + rest, |bytes|) && (bytes + rest)[..|bytes|] == bytes
    ensures forall i :: 0 <= i < |bytes + rest| ==> (bytes + rest)[i] < 2 * CHUNK
  {
    assert (bytes + rest)[..|bytes|] == bytes;
    assert bytes[|bytes| - 1] < CHUNK;
  }

  lemma EndAfter(buf: seq<nat>, at: nat)
    requires at < |buf| && Continued(buf[..at]) && buf[at] < 2 * CHUNK
    ensures buf[at] >= CHUNK ==> Continued(buf[..at + 1])
    ensures at < |buf[..at + 1]|
  {
    forall i | 0 <= i < at
      ensures CHUNK <= buf[i] < 2 * CHUNK
    {
      assert buf[..at][i] == buf[i];
    }
  }

  /** Up to the tenth byte, the payload goes above what is there. */
  lemma ShortStep(buf: seq<nat>, at: nat, result: nat)
    requires at < |buf| && at < MAX_LENGTH && buf[at] < 2 * CHUNK && result == Unsigned(buf[..at])
    ensures at < 9 ==>
      && Or(result, buf[at] % CHUNK * Pow2(7 * at % 64) % USIZE) == Unsigned(buf[..at + 1])
      && Unsigned(buf[..at + 1]) < Pow2(7 * (at + 1)) && Unsigned(buf[..at + 1]) < Pow2(63)
    ensures at == 9 && SignExtension(buf[9]) ==>
      Or(result, buf[at] % CHUNK * Pow2(7 * at % 64) % USIZE) == result + buf[9] % CHUNK * Pow2(63) % USIZE
  {
    hide Unsigned, Pow, Pow2, Or;
    TenthByte(buf, at);
    UnsignedBound(buf[..at]);
    UnsignedBound(buf[..at + 1]);
    ChunkPower(at);
    ChunkPower(at + 1);
    Pow2IsPow();
    WordPowers();
    if at < 9 {
      OrDisjoint(result, buf[at] % CHUNK, 7 * at);
    } else if buf[at] % CHUNK == 0 {
      OrDisjoint(result, 0, 63);
    } else {
      OrDisjoint(result, 1, 63);
    }
  }

  /** Nine bytes always fit. */
  lemma NinthFits(buf: seq<nat>, end: nat)
    requires EndsAt(buf, end) && end < MAX_LENGTH
    ensures buf[end - 1] < CHUNK && FitsSigned(Signed(buf[..end]))
    ensures Signed(buf[..end]) == Unsigned(buf[..end]) - if buf[end - 1] >= SIGN then Pow2(7 * end) else 0
    ensures buf[end - 1] < SIGN ==> Unsigned(buf[..end]) <= ISIZE_MAX
    ensures buf[end - 1] >= SIGN ==> Pow2(7 * end) <= Pow2(63) && Unsigned(buf[..end]) < Pow2(7 * end)
  {
    hide Unsigned, Pow, Pow2;
    var bytes := buf[..end];
    assert bytes[end - 1] == buf[end - 1];
    UnsignedBound(bytes);
    ChunkPower(end);
    WordPowers();
    PowGrows(2, 7 * end, 63);
    Pow2IsPow();
  }

  /** The tenth byte must be a sign extension. */
  lemma TenthFits(buf: seq<nat>)
    requires EndsAt(buf, MAX_LENGTH) && (buf[9] == 0 || buf[9] == CHUNK - 1)
    ensures Unsigned(buf[..9]) < Pow2(63)
    ensures FitsSigned(Signed(buf[..10]))
    ensures Signed(buf[..10]) == AsSigned(Unsigned(buf[..9]) + buf[9] % CHUNK * Pow2(63) % USIZE)
  {
    hide Unsigned, Pow, Pow2;
    TenthValue(buf);
  }

  lemma TenthMisfit(buf: seq<nat>, end: nat)
    requires EndsAt(buf, end) && end == MAX_LENGTH && buf[9] % CHUNK != 0 && buf[9] % CHUNK != CHUNK - 1
    ensures !FitsSigned(Signed(buf[..10]))
  {
    hide Unsigned, Pow, Pow2;
    TenthValue(buf);
  }

  lemma TenthValue(buf: seq<nat>)
    requires EndsAt(buf, MAX_LENGTH)
    ensures buf[9] < CHUNK && Unsigned(buf[..9]) < Pow2(63) == ISIZE_MAX + 1
    ensures Signed(buf[..10]) == Unsigned(buf[..9]) + (if buf[9] >= SIGN then buf[9] - CHUNK else buf[9]) * (ISIZE_MAX + 1)
  {
    hide Unsigned, Pow, Pow2;
    var bytes := buf[..10];
    assert bytes[9] == buf[9];
    NextByte(buf, 9);
    UnsignedBound(buf[..9]);
    WordPowers();
    PowNext(9);
  }
}

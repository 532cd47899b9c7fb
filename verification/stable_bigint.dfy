/** Big integers in stable memory: digits of 60 bits are packed into words of 64 bits, and read back
  * byte by byte.
  */
module StableBigInt {
  import opened Radix

  const USED_BITS: nat := 60
  const WORD_BITS: nat := 64
  const BYTE_BITS: nat := 8
  const ELEMENT_SIZE: nat := 8

  const DIGIT: nat := Pow2(USED_BITS)
  const WORD: nat := Pow2(WORD_BITS)
  const BYTE: nat := Pow2(BYTE_BITS)

  /** The most significant digit of a number is not zero. */
  predicate Normal(digits: seq<nat>) {
    Digits(digits, DIGIT) && (digits != [] ==> digits[|digits| - 1] != 0)
  }

  function CeilingDiv(dividend: nat, divisor: nat): nat
    requires divisor > 0
  {
    (dividend + divisor - 1) / divisor
  }

  function Min(a: nat, b: nat): nat {
    if a < b then a else b
  }

  /** Number of used bits. */
  function SerializedLength(digits: seq<nat>): nat {
    if digits == [] then 0 else (|digits| - 1) * USED_BITS + BitLength(digits[|digits| - 1])
  }

  lemma PowOfTwo(m: nat, n: nat)
    ensures Pow2(m + n) == Pow2(m) * Pow2(n)
    ensures Pow(Pow2(m), n) == Pow2(m * n)
  {
    PowAdd(2, m, n);
    PowPow(2, m, n);
  }

  /** The number fits in the used bits, in no fewer, and needs more than all digits but the last. */
  lemma LengthFits(digits: seq<nat>)
    requires Normal(digits)
    ensures Val(digits, DIGIT) < Pow2(SerializedLength(digits))
    ensures digits != [] ==> Val(digits, DIGIT) >= Pow2(SerializedLength(digits) - 1)
    ensures digits != [] ==> (|digits| - 1) * USED_BITS < SerializedLength(digits) <= |digits| * USED_BITS
  {
    hide Pow2, Val;
    if digits != [] {
      var n := |digits| - 1;
      var init, last := digits[..n], digits[n];
      assert digits == init + [last];
      ValSnoc(init, last, DIGIT);
      ValBound(init, DIGIT);
      PowOfTwo(USED_BITS, n);
      BitLengthBounds(last);
      BitLengthOf(last, USED_BITS);
      PowOfTwo(USED_BITS * n, BitLength(last));
      Leading(Val(init, DIGIT), Pow2(USED_BITS * n), last, Pow2(BitLength(last)));
      PowOfTwo(USED_BITS * n, BitLength(last) - 1);
      Product(Pow2(USED_BITS * n), Pow2(BitLength(last) - 1), last);
    } else {
      EmptyValue(DIGIT);
    }
  }

  lemma EmptyValue(b: nat)
    ensures Val([], b) == 0 && Pow2(0) == 1
  {
  }

  lemma Leading(low: nat, p: nat, high: nat, q: nat)
    requires low < p && high < q
    ensures low + p * high < p * q
  {
    assert p * (high + 1) <= p * q;
    assert p * (high + 1) == p * high + p;
  }

  lemma Product(p: nat, a: nat, b: nat)
    requires a <= b
    ensures p * a <= p * b
  {
  }

  // ---------------------------------------------------------------- moving bits

  function Quot(v: nat, n: nat): (q: nat)
    ensures v == Low(v, n) + Pow2(n) * q
  {
    Division(v, Pow2(n));
    v / Pow2(n)
  }

  function Low(v: nat, n: nat): (r: nat)
    ensures r < Pow2(n)
  {
    Division(v, Pow2(n));
    v % Pow2(n)
  }

  lemma Unique(v: nat, n: nat, q: nat, r: nat)
    requires v == r + Pow2(n) * q && r < Pow2(n)
    ensures Low(v, n) == r && Quot(v, n) == q
  {
    hide Quot, Low;
    DivMod(Quot(v, n), q, Low(v, n), r, Pow2(n));
  }

  /** `unit` of `width` bits is added above `p` bits of a window of `size` bits: what does not fit is
    * carried over. */
  lemma AddUnit(element: nat, p: nat, unit: nat, width: nat, size: nat)
    requires p < size && element < Pow2(p) && unit < Pow2(width)
    ensures var consumed := Min(width, size - p);
            && element + Low(unit * Pow2(p), size) < Pow2(p + consumed)
            && element + unit * Pow2(p) == element + Low(unit * Pow2(p), size) + Pow2(size) * Quot(unit, size - p)
            && (consumed == width ==> Quot(unit, size - p) == 0)
            && Quot(unit, size - p) < Pow2(width - consumed)
  {
    hide Pow2, Quot, Low;
    var rest := size - p;
    var hi, lo := Quot(unit, rest), Low(unit, rest);
    PowOfTwo(rest, p);
    MoveUp(lo, hi, Pow2(rest), Pow2(p));
    Leading(element, Pow2(p), lo, Pow2(rest));
    Unique(unit * Pow2(p), size, hi, lo * Pow2(p));
    if width <= rest {
      PowMonotone(width, rest);
      SmallUnit(unit, rest);
      PowOfTwo(p, width);
      Leading(element, Pow2(p), unit, Pow2(width));
      Pow2Zero();
    } else {
      PowOfTwo(rest, width - rest);
      QuotientBound(hi, lo, Pow2(rest), Pow2(width - rest));
    }
  }

  lemma PowMonotone(m: nat, n: nat)
    requires m <= n
    ensures Pow2(m) <= Pow2(n)
  {
    PowGrows(2, m, n);
  }

  lemma Pow2Zero()
    ensures Pow2(0) == 1
  {
  }

  lemma SmallUnit(v: nat, n: nat)
    requires v < Pow2(n)
    ensures Quot(v, n) == 0 && Low(v, n) == v
  {
    hide Quot, Low, Pow2;
    Unique(v, n, 0, v);
  }

  lemma MoveUp(lo: nat, hi: nat, a: nat, b: nat)
    ensures (lo + a * hi) * b == lo * b + (a * b) * hi
  {
    assert (lo + a * hi) * b == lo * b + (a * hi) * b;
    assert (a * hi) * b == (a * b) * hi;
  }

  // ---------------------------------------------------------------- serialization

  /** The first `index` digits are in `words` and, above them, in `carry`. */
  ghost predicate Packed(digits: seq<nat>, index: nat, words: seq<nat>, carry: nat) {
    && index <= |digits| && Digits(words, WORD)
    && Val(digits[..index], DIGIT) == Val(words, WORD) + Pow2(WORD_BITS * |words|) * carry
  }

  /** The next digit goes on top of the carry. */
  lemma PackDigit(digits: seq<nat>, index: nat, words: seq<nat>, element: nat, pending: nat)
    requires Packed(digits, index, words, element) && index < |digits| && USED_BITS * index == WORD_BITS * |words| + pending
    ensures Packed(digits, index + 1, words, element + digits[index] * Pow2(pending))
  {
    hide Pow2, Val;
    var d, k := digits[index], WORD_BITS * |words|;
    assert digits[..index + 1] == digits[..index] + [d];
    ValSnoc(digits[..index], d, DIGIT);
    PowOfTwo(USED_BITS, index);
    PowOfTwo(k, pending);
    Regroup(Val(words, WORD), Pow2(k), element, Pow2(pending), d);
  }

  lemma Regroup(v: nat, p: nat, e: nat, q: nat, d: nat)
    ensures v + p * e + (p * q) * d == v + p * (e + d * q)
  {
    assert p * (e + d * q) == p * e + p * (d * q);
    assert p * (d * q) == (p * q) * d;
  }

  /** A full word is written, and what does not fit is the new carry. */
  lemma PackWord(digits: seq<nat>, index: nat, words: seq<nat>, element: nat, carry: nat)
    requires Packed(digits, index, words, element + WORD * carry) && element < WORD
    ensures Packed(digits, index, words + [element], carry)
  {
    hide Pow2, Val;
    var k := WORD_BITS * |words|;
    ValSnoc(words, element, WORD);
    PowOfTwo(WORD_BITS, |words|);
    PowOfTwo(k, WORD_BITS);
    Regroup2(Val(words, WORD), Pow2(k), element, WORD, carry);
  }

  lemma Regroup2(v: nat, p: nat, e: nat, w: nat, c: nat)
    ensures v + p * (e + w * c) == v + p * e + (p * w) * c
  {
    assert p * (e + w * c) == p * e + p * (w * c);
  }

  /** When the words hold all used bits, nothing is left to carry. */
  lemma NothingLeft(digits: seq<nat>, words: seq<nat>, carry: nat)
    requires Normal(digits) && Packed(digits, |digits|, words, carry) && SerializedLength(digits) <= WORD_BITS * |words|
    ensures carry == 0 && Val(words, WORD) == Val(digits, DIGIT) && Digits(words, WORD)
  {
    hide Pow2, Val;
    LengthFits(digits);
    PowMonotone(SerializedLength(digits), WORD_BITS * |words|);
    assert digits[..|digits|] == digits;
    if carry > 0 {
      MulAtLeast(Pow2(WORD_BITS * |words|), carry);
    }
  }

  /** Packs the digits; the words hold the same number, all digits are used up and no bits are left. */
  method Serialize(digits: seq<nat>) returns (bits: nat, words: seq<nat>)
    requires Normal(digits)
    ensures bits == SerializedLength(digits) && Digits(words, WORD)
    ensures |words| == CeilingDiv(CeilingDiv(bits, BYTE_BITS), ELEMENT_SIZE)
    ensures Val(words, WORD) == Val(digits, DIGIT)
  {
    hide Pow2, Val, SerializedLength, Quot, Low, Packed, Normal, Digits;
    bits := SerializedLength(digits);
    var totalBytes := CeilingDiv(bits, BYTE_BITS);
    var written: nat, index: nat, element: nat, pending: nat := 0, 0, 0, 0;
    var nextElement: nat, nextPending: nat := 0, 0;
    words := [];
    StartPacking(digits);
    Pow2Zero();
    ghost var done := false;
    while written < totalBytes
      invariant written == ELEMENT_SIZE * |words| && (|words| > 0 ==> ELEMENT_SIZE * (|words| - 1) < totalBytes)
      invariant index <= |digits| && nextPending == 0
      invariant done ==> index == |digits| && totalBytes <= written && Packed(digits, index, words, 0)
      invariant !done ==>
                  && pending <= USED_BITS && element < Pow2(pending)
                  && USED_BITS * index == WORD_BITS * |words| + pending && Packed(digits, index, words, element)
    {
      index, element, pending, nextElement, nextPending := FillWord(digits, index, element, pending, nextElement, words);
      ghost var carry := if nextPending > 0 then nextElement else 0;
      if pending < WORD_BITS {
        LastWord(digits, index, words, pending, element);
        PowMonotone(pending, WORD_BITS);
        done := true;
      }
      PackWord(digits, index, words, element, carry);
      words := words + [element];
      written := written + ELEMENT_SIZE;
      element := nextElement;
      pending := nextPending;
      nextPending := 0;
    }
    if !done {
      AllDigitsUsed(digits, index, words, pending);
    }
    NothingLeft(digits, words, if done then 0 else element);
    WordCount(totalBytes, |words|);
  }

  /** Takes digits until the word is full or no digit is left. */
  method FillWord(digits: seq<nat>, index0: nat, element0: nat, pending0: nat, nextElement0: nat, ghost words: seq<nat>)
    returns (index: nat, element: nat, pending: nat, nextElement: nat, nextPending: nat)
    requires Normal(digits) && index0 <= |digits| && pending0 <= USED_BITS && element0 < Pow2(pending0)
    requires USED_BITS * index0 == WORD_BITS * |words| + pending0 && Packed(digits, index0, words, element0)
    ensures index <= |digits| && pending <= WORD_BITS && element < Pow2(pending)
    ensures pending < WORD_BITS ==> index == |digits| && nextPending == 0
    ensures pending == WORD_BITS ==> nextElement < Pow2(nextPending)
    ensures nextPending <= USED_BITS && USED_BITS * index == WORD_BITS * |words| + pending + nextPending
    ensures Packed(digits, index, words, element + WORD * (if nextPending > 0 then nextElement else 0))
  {
    hide Pow2, Val, Quot, Low, Packed, Normal;
    index, element, pending, nextElement, nextPending := index0, element0, pending0, nextElement0, 0;
    ghost var carry := 0;
    while pending < WORD_BITS && index < |digits|
      invariant index <= |digits| && pending <= WORD_BITS && element < Pow2(pending)
      invariant pending < WORD_BITS ==> nextPending == 0
      invariant pending == WORD_BITS ==> nextElement < Pow2(nextPending)
      invariant nextPending <= USED_BITS && USED_BITS * index == WORD_BITS * |words| + pending + nextPending
      invariant carry == (if nextPending > 0 then nextElement else 0) && Packed(digits, index, words, element + WORD * carry)
      decreases |digits| - index
    {
      DigitFits(digits, index);
      PackDigit(digits, index, words, element, pending);
      AddUnit(element, pending, digits[index], USED_BITS, WORD_BITS);
      nextElement := digits[index];
      index := index + 1;
      // The bits are disjoint: adding them is `or`.
      element := element + Low(nextElement * Pow2(pending), WORD_BITS);
      var consumed := Min(USED_BITS, WORD_BITS - pending);
      ShiftedOut(nextElement, pending);
      carry := Quot(nextElement, WORD_BITS - pending);
      pending := pending + consumed;
      nextElement := Quot(nextElement, consumed);
      nextPending := USED_BITS - consumed;
    }
  }

  lemma DigitFits(digits: seq<nat>, index: nat)
    requires Normal(digits) && index < |digits|
    ensures digits[index] < Pow2(USED_BITS)
  {
  }

  /** What is shifted out is what does not fit, and nothing if all bits fit. */
  lemma ShiftedOut(digit: nat, pending: nat)
    requires digit < Pow2(USED_BITS) && pending < WORD_BITS
    ensures var consumed := Min(USED_BITS, WORD_BITS - pending);
            && Quot(digit, WORD_BITS - pending) == (if USED_BITS - consumed > 0 then Quot(digit, consumed) else 0)
            && (consumed == USED_BITS ==> Quot(digit, consumed) == 0)
  {
    hide Pow2, Quot, Low;
    if USED_BITS <= WORD_BITS - pending {
      PowMonotone(USED_BITS, WORD_BITS - pending);
      SmallUnit(digit, WORD_BITS - pending);
      SmallUnit(digit, USED_BITS);
    }
  }

  lemma StartPacking(digits: seq<nat>)
    ensures Packed(digits, 0, [], 0) && 0 < Pow2(0)
  {
    assert digits[..0] == [];
  }

  /** A word that is not full is the last one. */
  lemma LastWord(digits: seq<nat>, index: nat, words: seq<nat>, pending: nat, element: nat)
    requires Normal(digits) && index == |digits| && USED_BITS * index == WORD_BITS * |words| + pending && pending < WORD_BITS
    ensures CeilingDiv(SerializedLength(digits), BYTE_BITS) <= ELEMENT_SIZE * (|words| + 1)
  {
    hide Pow2, Val, BitLength;
    LengthFits(digits);
    EmptyLength();
  }

  lemma EmptyLength()
    ensures SerializedLength([]) == 0
  {
  }

  lemma AllDigitsUsed(digits: seq<nat>, index: nat, words: seq<nat>, pending: nat)
    requires Normal(digits) && index <= |digits| && USED_BITS * index == WORD_BITS * |words| + pending
    requires CeilingDiv(SerializedLength(digits), BYTE_BITS) <= ELEMENT_SIZE * |words|
    ensures index == |digits| && SerializedLength(digits) <= WORD_BITS * |words|
  {
    hide Pow2, Val, BitLength;
    LengthFits(digits);
    EmptyLength();
    assert index < |digits| ==> USED_BITS * index <= USED_BITS * (|digits| - 1);
  }

  lemma WordCount(totalBytes: nat, n: nat)
    requires totalBytes <= ELEMENT_SIZE * n && (n > 0 ==> ELEMENT_SIZE * (n - 1) < totalBytes)
    ensures n == CeilingDiv(totalBytes, ELEMENT_SIZE)
  {
  }

  // ---------------------------------------------------------------- deserialization

  /** The words in memory: eight bytes each, the lowest first. */
  function Bytes(words: seq<nat>): (bytes: seq<nat>)
    ensures |bytes| == ELEMENT_SIZE * |words|
  {
    if words == [] then [] else Expand(words[0], BYTE, ELEMENT_SIZE) + Bytes(words[1..])
  }

  lemma {:induction false} BytesValue(words: seq<nat>)
    requires Digits(words, WORD)
    ensures Digits(Bytes(words), BYTE) && Val(Bytes(words), BYTE) == Val(words, WORD)
  {
    hide Pow2, Expand;
    if words != [] {
      var first := Expand(words[0], BYTE, ELEMENT_SIZE);
      BytesValue(words[1..]);
      PowOfTwo(BYTE_BITS, ELEMENT_SIZE);
      ExpandDigits(words[0], BYTE, ELEMENT_SIZE);
      ValExpand(words[0], BYTE, ELEMENT_SIZE);
      ValAppend(first, Bytes(words[1..]), BYTE);
      assert Val(words, WORD) == words[0] + WORD * Val(words[1..], WORD);
    } else {
      EmptyValue(BYTE);
      EmptyValue(WORD);
    }
  }

  /** The bytes beyond the used bits are zero and need not be read. */
  lemma UsedBytes(bytes: seq<nat>, bits: nat)
    requires Digits(bytes, BYTE) && Val(bytes, BYTE) < Pow2(bits) && CeilingDiv(bits, BYTE_BITS) <= |bytes|
    ensures Val(bytes[..CeilingDiv(bits, BYTE_BITS)], BYTE) == Val(bytes, BYTE)
  {
    hide Pow2, Val;
    var n := CeilingDiv(bits, BYTE_BITS);
    assert bytes == bytes[..n] + bytes[n..];
    ValAppend(bytes[..n], bytes[n..], BYTE);
    PowOfTwo(BYTE_BITS, n);
    PowMonotone(bits, BYTE_BITS * n);
    if Val(bytes[n..], BYTE) > 0 {
      MulAtLeast(Pow2(BYTE_BITS * n), Val(bytes[n..], BYTE));
    } else {
      assert Pow(BYTE, n) * 0 == 0;
    }
  }

  /** The first `offset` bytes are in `digits` and, above them, in `carry`. */
  ghost predicate Unpacked(bytes: seq<nat>, offset: nat, digits: seq<nat>, carry: nat) {
    && offset <= |bytes| && Digits(digits, DIGIT)
    && Val(bytes[..offset], BYTE) == Val(digits, DIGIT) + Pow2(USED_BITS * |digits|) * carry
  }

  lemma UnpackByte(bytes: seq<nat>, offset: nat, digits: seq<nat>, element: nat, pending: nat)
    requires Unpacked(bytes, offset, digits, element) && offset < |bytes|
    requires BYTE_BITS * offset == USED_BITS * |digits| + pending
    ensures Unpacked(bytes, offset + 1, digits, element + bytes[offset] * Pow2(pending))
  {
    hide Pow2, Val;
    var b, k := bytes[offset], USED_BITS * |digits|;
    assert bytes[..offset + 1] == bytes[..offset] + [b];
    ValSnoc(bytes[..offset], b, BYTE);
    PowOfTwo(BYTE_BITS, offset);
    PowOfTwo(k, pending);
    Regroup(Val(digits, DIGIT), Pow2(k), element, Pow2(pending), b);
  }

  lemma UnpackDigit(bytes: seq<nat>, offset: nat, digits: seq<nat>, element: nat, carry: nat)
    requires Unpacked(bytes, offset, digits, element + DIGIT * carry) && element < DIGIT
    ensures Unpacked(bytes, offset, digits + [element], carry)
  {
    hide Pow2, Val;
    var k := USED_BITS * |digits|;
    ValSnoc(digits, element, DIGIT);
    PowOfTwo(USED_BITS, |digits|);
    PowOfTwo(k, USED_BITS);
    Regroup2(Val(digits, DIGIT), Pow2(k), element, DIGIT, carry);
  }

  /** Masking an element of the machine's width keeps its low bits. */
  lemma Masked(element: nat, p: nat, unit: nat)
    requires p < USED_BITS && element < Pow2(p) && unit < BYTE
    ensures Low(element + Low(unit * Pow2(p), WORD_BITS), USED_BITS) == element + Low(unit * Pow2(p), USED_BITS)
  {
    hide Pow2, Quot, Low;
    var x := unit * Pow2(p);
    var q, r := Quot(x, WORD_BITS), Low(x, WORD_BITS);
    var s, t := Quot(r, USED_BITS), Low(r, USED_BITS);
    AddUnit(element, p, unit, BYTE_BITS, USED_BITS);
    PowOfTwo(USED_BITS, WORD_BITS - USED_BITS);
    Nested(t, DIGIT, s, Pow2(WORD_BITS - USED_BITS), q);
    Unique(x, USED_BITS, s + Pow2(WORD_BITS - USED_BITS) * q, t);
    PowMonotone(p + Min(BYTE_BITS, USED_BITS - p), USED_BITS);
    Unique(element + r, USED_BITS, s, element + t);
  }

  lemma Nested(t: nat, a: nat, s: nat, b: nat, q: nat)
    ensures t + a * s + (a * b) * q == t + a * (s + b * q)
  {
    assert a * (s + b * q) == a * s + a * (b * q);
    assert a * (b * q) == (a * b) * q;
  }

  /** Reads the digits back from the bytes. */
  method Deserialize(bits: nat, bytes: seq<nat>) returns (digits: seq<nat>)
    requires Digits(bytes, BYTE) && CeilingDiv(bits, BYTE_BITS) <= |bytes| && Val(bytes, BYTE) < Pow2(bits)
    ensures |digits| == CeilingDiv(bits, USED_BITS) && Digits(digits, DIGIT)
    ensures Val(digits, DIGIT) == Val(bytes, BYTE)
  {
    hide Pow2, Val, Quot, Low, Unpacked;
    var totalBytes, totalElements := CeilingDiv(bits, BYTE_BITS), CeilingDiv(bits, USED_BITS);
    var offset: nat, element: nat, pending: nat, nextByte: nat, nextPending: nat := 0, 0, 0, 0, 0;
    digits := [];
    StartUnpacking(bytes);
    Pow2Zero();
    ghost var done := false;
    while |digits| < totalElements
      invariant |digits| <= totalElements && offset <= totalBytes && nextPending == 0
      invariant done ==> |digits| == totalElements && offset == totalBytes && Unpacked(bytes, offset, digits, 0)
      invariant !done ==>
                  && pending <= BYTE_BITS && element < Pow2(pending)
                  && BYTE_BITS * offset == USED_BITS * |digits| + pending && Unpacked(bytes, offset, digits, element)
    {
      offset, element, pending, nextByte, nextPending := FillElement(bytes, totalBytes, offset, element, pending, nextByte, digits);
      ghost var carry := if nextPending > 0 then nextByte else 0;
      if pending < USED_BITS {
        PowMonotone(pending, USED_BITS);
        LastElement(bits, |digits|, offset, pending);
        done := true;
      }
      UnpackDigit(bytes, offset, digits, element, carry);
      digits := digits + [element];
      element := nextByte;
      pending := nextPending;
      nextPending := 0;
    }
    if !done {
      AllBytesUsed(bits, |digits|, offset, pending);
    }
    UnpackedAll(bytes, bits, digits, if done then 0 else element);
  }

  /** Takes bytes until the digit is full or no byte is left. */
  method FillElement(bytes: seq<nat>, totalBytes: nat, offset0: nat, element0: nat, pending0: nat, nextByte0: nat,
                     ghost digits: seq<nat>)
    returns (offset: nat, element: nat, pending: nat, nextByte: nat, nextPending: nat)
    requires Digits(bytes, BYTE) && offset0 <= totalBytes <= |bytes| && pending0 <= BYTE_BITS && element0 < Pow2(pending0)
    requires BYTE_BITS * offset0 == USED_BITS * |digits| + pending0 && Unpacked(bytes, offset0, digits, element0)
    ensures offset <= totalBytes && pending <= USED_BITS && element < Pow2(pending)
    ensures pending < USED_BITS ==> offset == totalBytes && nextPending == 0
    ensures pending == USED_BITS ==> nextByte < Pow2(nextPending)
    ensures nextPending <= BYTE_BITS && BYTE_BITS * offset == USED_BITS * |digits| + pending + nextPending
    ensures Unpacked(bytes, offset, digits, element + DIGIT * (if nextPending > 0 then nextByte else 0))
  {
    hide Pow2, Val, Quot, Low, Unpacked;
    offset, element, pending, nextByte, nextPending := offset0, element0, pending0, nextByte0, 0;
    ghost var carry := 0;
    while pending < USED_BITS && offset < totalBytes
      invariant offset <= totalBytes && pending <= USED_BITS && element < Pow2(pending)
      invariant pending < USED_BITS ==> nextPending == 0
      invariant pending == USED_BITS ==> nextByte < Pow2(nextPending)
      invariant nextPending <= BYTE_BITS && BYTE_BITS * offset == USED_BITS * |digits| + pending + nextPending
      invariant carry == (if nextPending > 0 then nextByte else 0) && Unpacked(bytes, offset, digits, element + DIGIT * carry)
      decreases totalBytes - offset
    {
      UnpackByte(bytes, offset, digits, element, pending);
      AddUnit(element, pending, bytes[offset], BYTE_BITS, USED_BITS);
      Masked(element, pending, bytes[offset]);
      nextByte := bytes[offset];
      offset := offset + 1;
      // The shift drops what does not fit in the machine word, and the mask what does not fit in the digit.
      element := Low(element + Low(nextByte * Pow2(pending), WORD_BITS), USED_BITS);
      var consumed := Min(BYTE_BITS, USED_BITS - pending);
      ByteShiftedOut(nextByte, pending);
      carry := Quot(nextByte, USED_BITS - pending);
      pending := pending + consumed;
      nextByte := if consumed < BYTE_BITS then Quot(nextByte, consumed) else 0;
      nextPending := BYTE_BITS - consumed;
    }
  }

  lemma ByteShiftedOut(b: nat, pending: nat)
    requires b < BYTE && pending < USED_BITS
    ensures var consumed := Min(BYTE_BITS, USED_BITS - pending);
            Quot(b, USED_BITS - pending) == if consumed < BYTE_BITS then Quot(b, consumed) else 0
  {
    hide Pow2, Quot, Low;
    if BYTE_BITS <= USED_BITS - pending {
      PowMonotone(BYTE_BITS, USED_BITS - pending);
      SmallUnit(b, USED_BITS - pending);
    }
  }

  lemma StartUnpacking(bytes: seq<nat>)
    ensures Unpacked(bytes, 0, [], 0) && 0 < Pow2(0)
  {
    assert bytes[..0] == [];
  }

  /** A digit that is not full is the last one. */
  lemma LastElement(bits: nat, n: nat, offset: nat, pending: nat)
    requires n < CeilingDiv(bits, USED_BITS) && offset == CeilingDiv(bits, BYTE_BITS)
    requires BYTE_BITS * offset == USED_BITS * n + pending && pending < USED_BITS
    ensures n + 1 == CeilingDiv(bits, USED_BITS)
  {
  }

  lemma AllBytesUsed(bits: nat, n: nat, offset: nat, pending: nat)
    requires n == CeilingDiv(bits, USED_BITS) && offset <= CeilingDiv(bits, BYTE_BITS)
    requires BYTE_BITS * offset == USED_BITS * n + pending
    ensures offset == CeilingDiv(bits, BYTE_BITS)
  {
  }

  lemma UnpackedAll(bytes: seq<nat>, bits: nat, digits: seq<nat>, carry: nat)
    requires Digits(bytes, BYTE) && Val(bytes, BYTE) < Pow2(bits) && CeilingDiv(bits, BYTE_BITS) <= |bytes|
    requires |digits| == CeilingDiv(bits, USED_BITS) && Unpacked(bytes, CeilingDiv(bits, BYTE_BITS), digits, carry)
    ensures Val(digits, DIGIT) == Val(bytes, BYTE) && Digits(digits, DIGIT)
  {
    hide Pow2, Val;
    UsedBytes(bytes, bits);
    PowMonotone(bits, USED_BITS * |digits|);
    if carry > 0 {
      MulAtLeast(Pow2(USED_BITS * |digits|), carry);
    }
  }

  /** What has been serialized is read back digit by digit. */
  method RoundTrip(digits: seq<nat>) returns (back: seq<nat>)
    requires Normal(digits)
    ensures back == digits
  {
    hide Pow2, Val, Normal, Bytes;
    var bits, words := Serialize(digits);
    BytesValue(words);
    LengthFits(digits);
    BytesSuffice(bits, |words|);
    back := Deserialize(bits, Bytes(words));
    SameLength(digits, back);
    ValUnique(back, digits, DIGIT);
  }

  lemma BytesSuffice(bits: nat, n: nat)
    requires n == CeilingDiv(CeilingDiv(bits, BYTE_BITS), ELEMENT_SIZE)
    ensures CeilingDiv(bits, BYTE_BITS) <= ELEMENT_SIZE * n
  {
  }

  /** The number of digits follows from the number of bits. */
  lemma SameLength(digits: seq<nat>, back: seq<nat>)
    requires Normal(digits) && |back| == CeilingDiv(SerializedLength(digits), USED_BITS)
    ensures |back| == |digits| && Digits(digits, DIGIT)
  {
    hide Pow2, Val, BitLength;
    LengthFits(digits);
    EmptyLength();
  }
}

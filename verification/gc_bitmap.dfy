/** The mark bitmap of a partition, and the iterator over the marked offsets. */
module GcBitmap {
  import GcModel
  import opened Radix

  const WORD_SIZE: nat := 8
  const BITS_PER_BYTE: nat := 8
  const BITS_PER_WORD: nat := 64
  const PARTITION_SIZE: nat := GcModel.PARTITION_SIZE
  const BITMAP_SIZE: nat := PARTITION_SIZE / (WORD_SIZE * BITS_PER_BYTE)
  const BIT_INDEX_END: nat := BITMAP_SIZE * BITS_PER_BYTE
  const BITMAP_ITERATION_END: nat := 0xffff_ffff_ffff_ffff

  type byte = n: nat | n < 256

  // ---------------------------------------------------------------- bits of a number

  predicate Bit(v: nat, k: nat) {
    if k == 0 then v % 2 == 1 else Bit(v / 2, k - 1)
  }

  function ShiftRight(v: nat, s: nat): nat {
    if s == 0 then v else ShiftRight(v / 2, s - 1)
  }

  function TrailingZeros(v: nat): (n: nat)
    requires v > 0
    ensures Bit(v, n) && forall k :: 0 <= k < n ==> !Bit(v, k)
  {
    if v % 2 == 1 then 0 else
      var n := TrailingZeros(v / 2);
      assert forall k :: 0 < k < 1 + n ==> !Bit(v, k) by {
        forall k | 0 < k < 1 + n
          ensures !Bit(v, k)
        {
          assert !Bit(v / 2, k - 1);
        }
      }
      1 + n
  }

  function LeadingZeros(v: nat): nat
    requires v < Pow2(BITS_PER_WORD)
  {
    BitLengthOf(v, BITS_PER_WORD);
    BITS_PER_WORD - BitLength(v)
  }

  lemma {:induction false} BitShifted(v: nat, s: nat, k: nat)
    ensures Bit(ShiftRight(v, s), k) == Bit(v, s + k)
  {
    if s > 0 {
      BitShifted(v / 2, s - 1, k);
    }
  }

  lemma {:induction false} BitAbove(v: nat, k: nat)
    requires BitLength(v) <= k
    ensures !Bit(v, k)
  {
    if k > 0 {
      if v == 0 {
        BitAbove(0, k - 1);
      } else {
        BitAbove(v / 2, k - 1);
      }
    }
  }

  lemma {:induction false} LengthShifted(v: nat, s: nat)
    requires s <= BitLength(v)
    ensures BitLength(ShiftRight(v, s)) == BitLength(v) - s
  {
    if s > 0 {
      LengthShifted(v / 2, s - 1);
    }
  }

  /** Numbers side by side: the low `n` bits come from the first. */
  lemma {:induction false} BitJoined(low: nat, high: nat, n: nat, k: nat)
    requires low < Pow2(n)
    ensures Bit(low + Pow2(n) * high, k) == if k < n then Bit(low, k) else Bit(high, k - n)
  {
    if n > 0 {
      var p := Pow2(n - 1);
      Associate(2, p, high);
      assert (low + 2 * (p * high)) / 2 == low / 2 + p * high;
      assert (low + 2 * (p * high)) % 2 == low % 2;
      if k > 0 {
        BitJoined(low / 2, high, n - 1, k - 1);
      }
    } else {
      assert Pow2(0) * high == high;
    }
  }

  lemma Pow2Of8()
    ensures Pow2(8) == 256
  {
    assert Pow2(4) == 16;
    PowAdd(2, 4, 4);
  }

  /** The bits of a word are those of its bytes, the lowest byte first. */
  lemma {:induction false} WordBits(s: seq<nat>, k: nat)
    requires Digits(s, 256)
    ensures Bit(Val(s, 256), k) == (k / 8 < |s| && Bit(s[k / 8], k % 8))
  {
    if s == [] {
      BitAbove(0, k);
    } else {
      Pow2Of8();
      BitJoined(s[0], Val(s[1..], 256), 8, k);
      if k >= 8 {
        WordBits(s[1..], k - 8);
        assert k / 8 == (k - 8) / 8 + 1 && k % 8 == (k - 8) % 8;
      }
    }
  }

  lemma WordFits(s: seq<nat>)
    requires Digits(s, 256) && |s| == 8
    ensures Val(s, 256) < Pow2(BITS_PER_WORD)
  {
    ValBound(s, 256);
    Pow2Of8();
    PowPow(2, 8, 8);
  }

  /** The byte with one more bit. */
  lemma {:induction false} BitAdded(b: nat, n: nat, k: nat)
    requires !Bit(b, n)
    ensures Bit(b + Pow2(n), k) == (k == n || Bit(b, k))
  {
    if n > 0 {
      assert (b + 2 * Pow2(n - 1)) / 2 == b / 2 + Pow2(n - 1);
      if k > 0 {
        BitAdded(b / 2, n - 1, k - 1);
      }
    } else {
      assert (b + 1) / 2 == b / 2;
    }
  }

  lemma {:induction false} BitAddedFits(b: nat, n: nat, m: nat)
    requires !Bit(b, n) && b < Pow2(m) && n < m
    ensures b + Pow2(n) < Pow2(m)
  {
    if n > 0 {
      BitAddedFits(b / 2, n - 1, m - 1);
    } else {
      assert Pow2(m) == 2 * Pow2(m - 1);
    }
  }

  // ---------------------------------------------------------------- the bitmap

  /** The object at word `i` of the partition is marked. */
  predicate Marked(bytes: seq<byte>, i: nat) {
    i / BITS_PER_BYTE < |bytes| && Bit(bytes[i / BITS_PER_BYTE], i % BITS_PER_BYTE)
  }

  /** The offsets at which an object is marked. */
  ghost function MarkedOffsets(bytes: seq<byte>): set<nat> {
    set i: nat | i < BITS_PER_BYTE * |bytes| && Marked(bytes, i) :: i * WORD_SIZE
  }

  lemma OffsetMarked(bytes: seq<byte>, offset: nat)
    requires offset % WORD_SIZE == 0
    ensures offset in MarkedOffsets(bytes) <==> Marked(bytes, offset / WORD_SIZE)
  {
    var i := offset / WORD_SIZE;
    assert i * WORD_SIZE == offset;
    if Marked(bytes, i) {
      assert i < BITS_PER_BYTE * |bytes|;
    }
  }

  class MarkBitmap {
    // The memory of the bitmap; absent outside of a collection.
    var pointer: array?<byte>

    ghost predicate Assigned()
      reads this
    {
      pointer != null && pointer.Length == BITMAP_SIZE
    }

    constructor ()
      ensures pointer == null
    {
      pointer := null;
    }

    /** Takes the memory over, and clears it. */
    method Assign(memory: array<byte>)
      requires pointer == null && memory.Length == BITMAP_SIZE
      modifies this, memory
      ensures Assigned() && pointer == memory
      ensures MarkedOffsets(memory[..]) == {}
    {
      var i := 0;
      while i < memory.Length
        invariant i <= memory.Length
        invariant forall j :: 0 <= j < i ==> memory[j] == 0
      {
        memory[i] := 0;
        i := i + 1;
      }
      pointer := memory;
      forall k: nat
        ensures !Marked(memory[..], k)
      {
        BitAbove(0, k % BITS_PER_BYTE);
      }
    }

    method IsMarked(offset: nat) returns (marked: bool)
      requires Assigned() && offset % WORD_SIZE == 0 && offset < PARTITION_SIZE
      ensures marked <==> offset in MarkedOffsets(pointer[..])
    {
      var wordIndex := offset / WORD_SIZE;
      var byteIndex, bitIndex := wordIndex / BITS_PER_BYTE, wordIndex % BITS_PER_BYTE;
      OffsetMarked(pointer[..], offset);
      marked := Bit(pointer[byteIndex], bitIndex);
    }

    method Mark(offset: nat)
      requires Assigned() && offset % WORD_SIZE == 0 && offset < PARTITION_SIZE
      modifies pointer
      ensures MarkedOffsets(pointer[..]) == old(MarkedOffsets(pointer[..])) + {offset}
    {
      var wordIndex := offset / WORD_SIZE;
      var byteIndex, bitIndex := wordIndex / BITS_PER_BYTE, wordIndex % BITS_PER_BYTE;
      var b := pointer[byteIndex];
      ghost var before := pointer[..];
      if !Bit(b, bitIndex) {
        Pow2Of8();
        BitAddedFits(b, bitIndex, BITS_PER_BYTE);
        pointer[byteIndex] := b + Pow2(bitIndex);
      }
      MarkedMore(before, pointer[..], wordIndex);
    }
  }

  /** Setting the bit of word `i` marks that word and changes no other. */
  lemma MarkedMore(before: seq<byte>, after: seq<byte>, i: nat)
    requires i / BITS_PER_BYTE < |before|
    requires |after| == |before| && forall j :: 0 <= j < |before| && j != i / BITS_PER_BYTE ==> after[j] == before[j]
    requires after[i / BITS_PER_BYTE] == before[i / BITS_PER_BYTE] + (if Marked(before, i) then 0 else Pow2(i % BITS_PER_BYTE))
    ensures MarkedOffsets(after) == MarkedOffsets(before) + {i * WORD_SIZE}
  {
    forall k: nat
      ensures Marked(after, k) == (k == i || Marked(before, k))
    {
      if k / BITS_PER_BYTE == i / BITS_PER_BYTE && !Marked(before, i) {
        BitAdded(before[i / BITS_PER_BYTE], i % BITS_PER_BYTE, k % BITS_PER_BYTE);
      }
    }
    assert i < BITS_PER_BYTE * |before|;
    assert Marked(after, i);
  }

  // ---------------------------------------------------------------- iteration

  /** No bit is marked from `from` up to `to`. */
  ghost predicate Unmarked(bytes: seq<byte>, from: nat, to: nat) {
    forall i: nat :: from <= i < to ==> !Marked(bytes, i)
  }

  /** What the iterator reports next from position `from`: one past the first marked bit there, or the sentinel. */
  ghost predicate NextIs(bytes: seq<byte>, from: nat, next: nat) {
    if next == BITMAP_ITERATION_END then
      from == BITMAP_ITERATION_END || Unmarked(bytes, from, BIT_INDEX_END)
    else
      from < next <= BIT_INDEX_END && Marked(bytes, next - 1) && Unmarked(bytes, from, next - 1)
  }

  /** The bits of `word` and then `zeros` unset bits are the bits from `next` to a word boundary. */
  ghost predicate Ahead(bytes: seq<byte>, next: nat, word: nat, zeros: nat) {
    var end := next + BitLength(word) + zeros;
    && end % BITS_PER_WORD == 0 && end <= BIT_INDEX_END
    && forall i: nat :: next <= i < end ==> (Marked(bytes, i) <==> Bit(word, i - next))
  }

  /** Finding the lowest bit of the word. */
  lemma LowestAhead(bytes: seq<byte>, next: nat, word: nat, zeros: nat, n: nat)
    requires Ahead(bytes, next, word, zeros)
    requires Bit(word, n) && forall k :: 0 <= k < n ==> !Bit(word, k)
    ensures n < BitLength(word) && NextIs(bytes, next, next + n + 1)
  {
    if n >= BitLength(word) {
      BitAbove(word, n);
    }
  }

  /** Shifting the lowest bits out. */
  lemma ShiftedAhead(bytes: seq<byte>, next: nat, word: nat, zeros: nat, n: nat)
    requires Ahead(bytes, next, word, zeros) && n <= BitLength(word)
    ensures Ahead(bytes, next + n, ShiftRight(word, n), zeros)
  {
    var end := next + BitLength(word) + zeros;
    LengthShifted(word, n);
    forall i: nat | next + n <= i < end
      ensures Marked(bytes, i) <==> Bit(ShiftRight(word, n), i - (next + n))
    {
      BitShifted(word, n, i - (next + n));
    }
  }

  /** A word without bits left: everything up to the word boundary is unmarked. */
  lemma NothingAhead(bytes: seq<byte>, next: nat, zeros: nat)
    requires Ahead(bytes, next, 0, zeros)
    ensures (next + zeros) % BITS_PER_WORD == 0 && next + zeros <= BIT_INDEX_END && Unmarked(bytes, next, next + zeros)
  {
    forall i: nat | next <= i < next + zeros
      ensures !Marked(bytes, i)
    {
      BitAbove(0, i - next);
    }
  }

  /** A freshly loaded word. */
  lemma LoadedWord(bytes: seq<byte>, next: nat)
    requires |bytes| == BITMAP_SIZE && next % BITS_PER_WORD == 0 && next < BIT_INDEX_END
    ensures next / BITS_PER_BYTE + WORD_SIZE <= |bytes|
    ensures var word := Val(bytes[next / BITS_PER_BYTE..][..WORD_SIZE], 256);
      && word < Pow2(BITS_PER_WORD)
      && LeadingZeros(word) + BitLength(word) == BITS_PER_WORD && (word == 0 ==> LeadingZeros(word) > 0)
      && Ahead(bytes, next, word, LeadingZeros(word))
  {
    var first := next / BITS_PER_BYTE;
    var s: seq<nat> := bytes[first..][..WORD_SIZE];
    var word := Val(s, 256);
    WordFits(s);
    BitLengthOf(word, BITS_PER_WORD);
    forall i: nat | next <= i < next + BITS_PER_WORD
      ensures Marked(bytes, i) <==> Bit(word, i - next)
    {
      LoadedBit(bytes, next, i);
    }
  }

  lemma LoadedBit(bytes: seq<byte>, next: nat, i: nat)
    requires |bytes| == BITMAP_SIZE && next % BITS_PER_WORD == 0 && next <= i < next + BITS_PER_WORD <= BIT_INDEX_END
    ensures Marked(bytes, i) <==> Bit(Val(bytes[next / BITS_PER_BYTE..][..WORD_SIZE], 256), i - next)
  {
    hide Bit, Val, Marked;
    var first := next / BITS_PER_BYTE;
    assert next == first * 8;
    ByteBit(bytes, first, i - next);
  }

  lemma ByteBit(bytes: seq<byte>, first: nat, k: nat)
    requires first + 8 <= |bytes| && k < 64
    ensures Marked(bytes, first * 8 + k) <==> Bit(Val(bytes[first..][..8], 256), k)
  {
    hide Bit, Val;
    WordBits(bytes[first..][..8], k);
    SplitIndex(first, k);
  }

  lemma SplitIndex(first: nat, k: nat)
    ensures (first * 8 + k) / 8 == first + k / 8 && (first * 8 + k) % 8 == k % 8
  {
  }

  /** The iterator is at a marked bit, unless it has just been set up or is at the end. */
  ghost predicate AtMark(bytes: seq<byte>, next: nat, word: nat, zeros: nat) {
    next != BITMAP_ITERATION_END ==> Ahead(bytes, next, word, zeros) && (next > 0 ==> Marked(bytes, next - 1))
  }

  lemma MovedToMark(bytes: seq<byte>, from: nat, next: nat, word: nat, zeros: nat)
    requires NextIs(bytes, from, next) && Ahead(bytes, next, word, zeros)
    ensures AtMark(bytes, next, word, zeros)
  {
  }

  lemma NothingBetween(bytes: seq<byte>, from: nat, middle: nat, to: nat)
    ensures from >= to ==> Unmarked(bytes, from, to)
    ensures Unmarked(bytes, from, middle) && Unmarked(bytes, middle, to) ==> Unmarked(bytes, from, to)
  {
  }

  lemma AtTheEnd(bytes: seq<byte>, from: nat, word: nat, zeros: nat)
    requires from == BITMAP_ITERATION_END || Unmarked(bytes, from, BIT_INDEX_END)
    ensures NextIs(bytes, from, BITMAP_ITERATION_END) && AtMark(bytes, BITMAP_ITERATION_END, word, zeros)
  {
  }

  lemma AheadWithin(bytes: seq<byte>, next: nat, word: nat, zeros: nat)
    requires AtMark(bytes, next, word, zeros)
    ensures next != BITMAP_ITERATION_END ==> Ahead(bytes, next, word, zeros) && next <= BIT_INDEX_END
    ensures BIT_INDEX_END < BITMAP_ITERATION_END
  {
  }

  lemma NextAfter(bytes: seq<byte>, from: nat, middle: nat, next: nat)
    requires from <= middle && Unmarked(bytes, from, middle) && NextIs(bytes, middle, next)
    requires from <= BIT_INDEX_END && middle <= BIT_INDEX_END
    ensures NextIs(bytes, from, next)
  {
  }

  class BitmapIterator {
    const bitmap: array<byte>
    var nextBitIndex: nat
    var currentWord: nat
    var leadingZeros: nat

    ghost predicate Valid()
      reads this, bitmap
    {
      && bitmap.Length == BITMAP_SIZE
      && AtMark(bitmap[..], nextBitIndex, currentWord, leadingZeros)
    }

    /** Starts at the first marked offset. */
    constructor (memory: array<byte>)
      requires memory.Length == BITMAP_SIZE
      ensures Valid() && bitmap == memory
      ensures NextIs(memory[..], 0, nextBitIndex)
    {
      bitmap := memory;
      nextBitIndex, currentWord, leadingZeros := 0, 0, 0;
      new;
      Next();
    }

    /** The offset that the iterator is at, or the sentinel. */
    function CurrentMarkedOffset(): (offset: nat)
      requires Valid() && nextBitIndex > 0
      reads this, bitmap
      ensures if nextBitIndex == BITMAP_ITERATION_END then offset == BITMAP_ITERATION_END
              else offset in MarkedOffsets(bitmap[..]) && nextBitIndex == offset / WORD_SIZE + 1
    {
      if nextBitIndex == BITMAP_ITERATION_END then BITMAP_ITERATION_END else (nextBitIndex - 1) * WORD_SIZE
    }

    /** Moves on to the next marked bit; the end of the bitmap is final. */
    method Next()
      requires Valid()
      modifies this
      ensures Valid()
      ensures NextIs(bitmap[..], old(nextBitIndex), nextBitIndex)
    {
      hide BIT_INDEX_END, BITMAP_SIZE, AtMark, Ahead, NextIs, Unmarked, Marked, TrailingZeros, ShiftRight, LeadingZeros, BitLength, Bit, Val, Pow2;
      ghost var bytes := bitmap[..];
      ghost var start := nextBitIndex;
      NothingBetween(bytes, start, start, start);
      AheadWithin(bytes, nextBitIndex, currentWord, leadingZeros);
      while nextBitIndex < BIT_INDEX_END
        invariant nextBitIndex == start == BITMAP_ITERATION_END || start <= nextBitIndex <= BIT_INDEX_END
        invariant nextBitIndex < BIT_INDEX_END ==> Ahead(bytes, nextBitIndex, currentWord, leadingZeros)
        invariant nextBitIndex != BITMAP_ITERATION_END ==> Unmarked(bytes, start, nextBitIndex)
        decreases BIT_INDEX_END - nextBitIndex, if currentWord == 0 && leadingZeros == 0 then 1 else 0
      {
        if currentWord != 0 {
          var shift := TrailingZeros(currentWord);
          LowestAhead(bytes, nextBitIndex, currentWord, leadingZeros, shift);
          ShiftedAhead(bytes, nextBitIndex, currentWord, leadingZeros, shift + 1);
          NextAfter(bytes, start, nextBitIndex, nextBitIndex + shift + 1);
          currentWord := ShiftRight(currentWord, shift + 1);
          MovedToMark(bytes, start, nextBitIndex + shift + 1, currentWord, leadingZeros);
          nextBitIndex := nextBitIndex + shift + 1;
          return;
        }
        NothingAhead(bytes, nextBitIndex, leadingZeros);
        NothingBetween(bytes, start, nextBitIndex, nextBitIndex + leadingZeros);
        nextBitIndex := nextBitIndex + leadingZeros;
        if nextBitIndex < BIT_INDEX_END {
          LoadWord();
        }
      }
      AtTheEnd(bytes, start, currentWord, leadingZeros);
      nextBitIndex := BITMAP_ITERATION_END;
    }

    method LoadWord()
      requires bitmap.Length == BITMAP_SIZE && nextBitIndex % BITS_PER_WORD == 0 && nextBitIndex < BIT_INDEX_END
      modifies this`currentWord, this`leadingZeros
      ensures Ahead(bitmap[..], nextBitIndex, currentWord, leadingZeros)
      ensures currentWord == 0 ==> leadingZeros > 0
    {
      LoadedWord(bitmap[..], nextBitIndex);
      currentWord := Val(bitmap[nextBitIndex / BITS_PER_BYTE..][..WORD_SIZE], 256);
      leadingZeros := LeadingZeros(currentWord);
    }
  }

  ghost predicate Ascending(s: seq<nat>) {
    forall i, j :: 0 <= i < j < |s| ==> s[i] < s[j]
  }

  /** The marked offsets before bit `from` are visited. */
  ghost predicate VisitedUpTo(bytes: seq<byte>, visited: seq<nat>, from: nat) {
    && Ascending(visited)
    && (forall offset :: offset in visited <==> offset < from * WORD_SIZE && offset in MarkedOffsets(bytes))
  }

  lemma NothingVisited(bytes: seq<byte>)
    ensures VisitedUpTo(bytes, [], 0)
  {
  }

  lemma VisitedMore(bytes: seq<byte>, visited: seq<nat>, from: nat, next: nat)
    requires |bytes| == BITMAP_SIZE && next != BITMAP_ITERATION_END
    requires NextIs(bytes, from, next) && VisitedUpTo(bytes, visited, from)
    ensures from < next <= BIT_INDEX_END
    ensures VisitedUpTo(bytes, visited + [(next - 1) * WORD_SIZE], next)
  {
    var all := visited + [(next - 1) * WORD_SIZE];
    forall i | 0 <= i < |visited|
      ensures visited[i] < (next - 1) * WORD_SIZE
    {
      assert visited[i] in visited;
    }
    forall offset
      ensures offset in all <==> offset < next * WORD_SIZE && offset in MarkedOffsets(bytes)
    {
      if offset == (next - 1) * WORD_SIZE {
        assert Marked(bytes, next - 1);
      } else if offset in MarkedOffsets(bytes) && offset < next * WORD_SIZE {
        var i: nat :| i < BITS_PER_BYTE * |bytes| && Marked(bytes, i) && i * WORD_SIZE == offset;
        assert i < from;
      }
    }
  }

  lemma AllVisited(bytes: seq<byte>, visited: seq<nat>, from: nat)
    requires |bytes| == BITMAP_SIZE && from <= BIT_INDEX_END
    requires NextIs(bytes, from, BITMAP_ITERATION_END) && VisitedUpTo(bytes, visited, from)
    ensures forall offset :: offset in visited <==> offset in MarkedOffsets(bytes)
  {
    forall offset
      ensures offset in visited <==> offset in MarkedOffsets(bytes)
    {
      if offset in MarkedOffsets(bytes) {
        var i: nat :| i < BITS_PER_BYTE * |bytes| && Marked(bytes, i) && i * WORD_SIZE == offset;
        assert i < from;
      }
    }
  }

  /** A complete iteration visits every marked offset exactly once, in ascending order, and then stays at the end. */
  method VisitAll(memory: array<byte>) returns (visited: seq<nat>)
    requires memory.Length == BITMAP_SIZE
    ensures Ascending(visited)
    ensures forall offset :: offset in visited <==> offset in MarkedOffsets(memory[..])
  {
    hide NextIs, MarkedOffsets, Ascending, Ahead;
    visited := [];
    ghost var bytes := memory[..];
    NothingVisited(bytes);
    var position := new BitmapIterator(memory);
    ghost var from: nat := 0;
    NextPositive(bytes, from, position.nextBitIndex);
    while position.CurrentMarkedOffset() != BITMAP_ITERATION_END
      invariant position.Valid() && fresh(position) && position.bitmap == memory && memory[..] == bytes
      invariant NextIs(bytes, from, position.nextBitIndex) && from <= BIT_INDEX_END
      invariant position.nextBitIndex > 0
      invariant VisitedUpTo(bytes, visited, from)
      decreases BIT_INDEX_END - from
    {
      VisitedMore(bytes, visited, from, position.nextBitIndex);
      visited := visited + [position.CurrentMarkedOffset()];
      from := position.nextBitIndex;
      position.Next();
      NextPositive(bytes, from, position.nextBitIndex);
    }
    AllVisited(bytes, visited, from);
    AscendingOf(bytes, visited, from);
  }

  lemma NextPositive(bytes: seq<byte>, from: nat, next: nat)
    requires NextIs(bytes, from, next)
    ensures next > 0
  {
  }

  lemma AscendingOf(bytes: seq<byte>, visited: seq<nat>, from: nat)
    requires VisitedUpTo(bytes, visited, from)
    ensures Ascending(visited)
  {
  }
}

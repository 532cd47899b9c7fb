/** The cache of the subtype check: two bits for every polarity and pair of table entries. */
module BitRel {
  import opened IdlScan
  import opened IdlCheck

  const BITS: nat := 2
  const WORD_BITS: nat := 64

  function Words(size1: nat, size2: nat): nat {
    ((2 * size1 * size2 * BITS) + (WORD_BITS - 1)) / WORD_BITS
  }

  // A machine word, lowest bit first.
  type Word = w: seq<bool> | |w| == WORD_BITS witness seq(WORD_BITS, _ => false)

  const ZERO: Word := seq(WORD_BITS, _ => false)

  // ---------------------------------------------------------------- cells

  /** Number of the first bit of the cell of `q`. */
  function Cell(size1: nat, size2: nat, q: Query): int {
    var base, i, j := if q.p then 0 else size1, if q.p then q.t1 else q.t2, if q.p then q.t2 else q.t1;
    ((base + i) * size2 + j) * BITS
  }

  lemma PairBounds(size1: nat, size2: nat, q: Query)
    requires q in AllPairs(size1, size2)
    ensures 0 <= q.t1 < (if q.p then size1 else size2) && 0 <= q.t2 < (if q.p then size2 else size1)
  {
  }

  /** The row of the cell table that `q` belongs to, and its place there. */
  function Row(size1: nat, q: Query): int {
    if q.p then q.t1 else size1 + q.t2
  }

  function Column(q: Query): int {
    if q.p then q.t2 else q.t1
  }

  lemma CellOfRow(size1: nat, size2: nat, q: Query)
    requires q in AllPairs(size1, size2)
    ensures 0 <= Row(size1, q) < 2 * size1 && 0 <= Column(q) < size2
    ensures Cell(size1, size2, q) == (Row(size1, q) * size2 + Column(q)) * BITS
  {
    PairBounds(size1, size2, q);
  }

  lemma CellInRange(size1: nat, size2: nat, q: Query, bit: nat)
    requires q in AllPairs(size1, size2) && bit < BITS
    ensures 0 <= Cell(size1, size2, q) + bit < 2 * size1 * size2 * BITS <= Words(size1, size2) * WORD_BITS
  {
    hide AllPairs, Cell, Row, Column, Words;
    CellOfRow(size1, size2, q);
    RowsDisjoint(size2, Row(size1, q), Column(q), 2 * size1, 0);
    WordsSuffice(size1, size2);
  }

  lemma WordsSuffice(size1: nat, size2: nat)
    ensures 2 * size1 * size2 * BITS <= Words(size1, size2) * WORD_BITS
  {
    RoundUp(2 * size1 * size2 * BITS);
  }

  lemma RoundUp(n: int)
    ensures n <= (n + (WORD_BITS - 1)) / WORD_BITS * WORD_BITS
  {
  }

  lemma RowsDisjoint(n: nat, r: nat, i: nat, s: nat, j: nat)
    requires i < n && r < s
    ensures r * n + i < s * n + j
  {
    assert (r + 1) * n <= s * n;
    assert (r + 1) * n == r * n + n;
  }

  /** Different pairs have different cells, also under the exchange of the two types. */
  lemma CellsDistinct(size1: nat, size2: nat, q: Query, r: Query)
    requires q in AllPairs(size1, size2) && r in AllPairs(size1, size2) && q != r
    ensures Cell(size1, size2, q) + BITS <= Cell(size1, size2, r) || Cell(size1, size2, r) + BITS <= Cell(size1, size2, q)
  {
    hide Cell, AllPairs;
    CellOfRow(size1, size2, q);
    CellOfRow(size1, size2, r);
    if Row(size1, q) == Row(size1, r) && Column(q) == Column(r) {
      RowAndColumn(size1, size2, q, r);
    }
    if Row(size1, q) < Row(size1, r) {
      RowsDisjoint(size2, Row(size1, q), Column(q), Row(size1, r), Column(r));
    } else if Row(size1, r) < Row(size1, q) {
      RowsDisjoint(size2, Row(size1, r), Column(r), Row(size1, q), Column(q));
    }
  }

  lemma RowAndColumn(size1: nat, size2: nat, q: Query, r: Query)
    requires q in AllPairs(size1, size2) && r in AllPairs(size1, size2)
    requires Row(size1, q) == Row(size1, r) && Column(q) == Column(r)
    ensures q == r
  {
    PairBounds(size1, size2, q);
    PairBounds(size1, size2, r);
  }

  // ---------------------------------------------------------------- the relation

  predicate BitAt(words: seq<Word>, k: nat)
    requires k / WORD_BITS < |words|
  {
    words[k / WORD_BITS][k % WORD_BITS]
  }

  lemma BitSet(words: seq<Word>, k: nat, l: nat)
    requires k / WORD_BITS < |words| && l / WORD_BITS < |words|
    ensures var words' := words[k / WORD_BITS := words[k / WORD_BITS][k % WORD_BITS := true]];
            BitAt(words', l) <==> BitAt(words, l) || k == l
  {
    assert k / WORD_BITS == l / WORD_BITS && k % WORD_BITS == l % WORD_BITS ==> k == l;
  }

  /** The pairs whose bit `bit` is set. */
  ghost function Marked(words: seq<Word>, size1: nat, size2: nat, bit: nat): set<Query>
    requires |words| == Words(size1, size2) && bit < BITS
  {
    set q | q in AllPairs(size1, size2) && (CellInRange(size1, size2, q, bit); BitAt(words, Cell(size1, size2, q) + bit))
  }

  class Relation {
    const size1: nat
    const size2: nat
    const words: array<Word>

    ghost predicate Valid()
      reads this
    {
      words.Length == Words(size1, size2)
    }

    /** The cache that the bits stand for; the second bit is negated. */
    ghost function View(): Cache
      requires Valid()
      reads this, words
    {
      Cache(Marked(words[..], size1, size2, 0), Marked(words[..], size1, size2, 1))
    }

    /** A relation in which nothing has been visited. */
    constructor (size1: nat, size2: nat)
      ensures Valid() && this.size1 == size1 && this.size2 == size2 && fresh(words)
      ensures View() == FRESH
    {
      this.size1, this.size2 := size1, size2;
      words := new Word[Words(size1, size2)](_ => ZERO);
      new;
      Unmarked(words[..], size1, size2, 0);
      Unmarked(words[..], size1, size2, 1);
    }

    /** The index of the word and of the bit in it. */
    function Locate(q: Query, bit: nat): (at: (nat, nat))
      requires Valid() && q in AllPairs(size1, size2) && bit < BITS
      reads this
      ensures at.0 < words.Length && at.1 < WORD_BITS
      ensures Cell(size1, size2, q) + bit >= 0
      ensures at == ((Cell(size1, size2, q) + bit) / WORD_BITS, (Cell(size1, size2, q) + bit) % WORD_BITS)
    {
      CellInRange(size1, size2, q, bit);
      var k := Cell(size1, size2, q) + bit;
      (k / WORD_BITS, k % WORD_BITS)
    }

    method Set(q: Query, bit: nat)
      requires Valid() && q in AllPairs(size1, size2) && bit < BITS
      modifies words
      ensures Marked(words[..], size1, size2, bit) == old(Marked(words[..], size1, size2, bit)) + {q}
      ensures Marked(words[..], size1, size2, 1 - bit) == old(Marked(words[..], size1, size2, 1 - bit))
    {
      hide Cell, AllPairs, Marked;
      ghost var before := words[..];
      var at := Locate(q, bit);
      words[at.0] := words[at.0][at.1 := true];
      assert words[..] == before[at.0 := before[at.0][at.1 := true]];
      MarkedSet(before, size1, size2, q, bit, words[..]);
    }

    predicate Get(q: Query, bit: nat)
      requires Valid() && q in AllPairs(size1, size2) && bit < BITS
      reads this, words
      ensures Get(q, bit) <==> q in Marked(words[..], size1, size2, bit)
    {
      var at := Locate(q, bit);
      words[at.0][at.1]
    }

    predicate Visited(q: Query)
      requires Valid() && q in AllPairs(size1, size2)
      reads this, words
      ensures Visited(q) <==> q in View().visited
    {
      Get(q, 0)
    }

    predicate Related(q: Query)
      requires Valid() && q in AllPairs(size1, size2)
      reads this, words
      ensures Related(q) <==> q !in View().disproved
    {
      !Get(q, 1)
    }

    method Visit(q: Query)
      requires Valid() && q in AllPairs(size1, size2)
      modifies words
      ensures View() == old(View()).(visited := old(View()).visited + {q})
    {
      Set(q, 0);
    }

    method Disprove(q: Query)
      requires Valid() && q in AllPairs(size1, size2)
      modifies words
      ensures View() == old(View()).(disproved := old(View()).disproved + {q})
    {
      Set(q, 1);
    }
  }

  lemma Unmarked(words: seq<Word>, size1: nat, size2: nat, bit: nat)
    requires |words| == Words(size1, size2) && bit < BITS
    requires forall k :: 0 <= k < |words| ==> words[k] == ZERO
    ensures Marked(words, size1, size2, bit) == {}
  {
    forall q | q in AllPairs(size1, size2)
      ensures q !in Marked(words, size1, size2, bit)
    {
      CellInRange(size1, size2, q, bit);
    }
  }

  lemma MarkedSet(words: seq<Word>, size1: nat, size2: nat, q: Query, bit: nat, words': seq<Word>)
    requires |words| == Words(size1, size2) && q in AllPairs(size1, size2) && bit < BITS
    requires var k := Cell(size1, size2, q) + bit;
             0 <= k / WORD_BITS < |words| && 0 <= k &&
             words' == words[k / WORD_BITS := words[k / WORD_BITS][k % WORD_BITS := true]]
    ensures Marked(words', size1, size2, bit) == Marked(words, size1, size2, bit) + {q}
    ensures Marked(words', size1, size2, 1 - bit) == Marked(words, size1, size2, 1 - bit)
  {
    hide Cell, AllPairs, BitAt;
    var k := Cell(size1, size2, q) + bit;
    forall r, b: nat | r in AllPairs(size1, size2) && b < BITS
      ensures r in Marked(words', size1, size2, b) <==> r in Marked(words, size1, size2, b) || (r == q && b == bit)
    {
      CellInRange(size1, size2, r, b);
      BitSet(words, k, Cell(size1, size2, r) + b);
      if r != q {
        CellsDistinct(size1, size2, q, r);
      }
    }
  }
}

/**
  Sizes of the allocator: constants of the 64-bit build, the treebin index of a
  size, and the bits that steer a walk through a treebin.
 */
module MallocSizes {
  import opened MallocBits

  const SIZE_BITS := 64
  const ALIGN := 8              // MALLOC_ALIGNMENT
  const OVERHEAD := 8           // CHUNK_OVERHEAD without footers
  const MIN_CHUNK := 32         // MIN_CHUNK_SIZE
  const BINS := 32              // NSMALLBINS and NTREEBINS
  const MIN_LARGE := 256        // MIN_LARGE_SIZE
  const MIN_REQUEST := 23
  const MAX_SMALL_REQUEST := 240
  const MAX_SIZE := 0xFFFF_FFFF_FFFF_FFFF
  const WORD := 0x1_0000_0000_0000_0000        // 2^64
  const HALF_WORD := 0x8000_0000_0000_0000
  const MAX_REQUEST := 0xFFFF_FFFF_FFFF_FF80   // (-MIN_CHUNK_SIZE) << 2

  predicate IsSmall(s: nat) {
    s / 8 < BINS
  }

  predicate Aligned(s: nat) {
    s % ALIGN == 0
  }

  function PadRequest(bytes: nat): nat {
    (bytes + OVERHEAD + (ALIGN - 1)) / ALIGN * ALIGN
  }

  // ---------------------------------------------------------------------
  // compute_tree_index, portable form, with 32-bit unsigned arithmetic

  function Sub32(a: nat, b: nat): nat {
    (a as int - b as int) % 0x1_0000_0000
  }

  /** ((y - t) >> 16) & v: v when y is below t. */
  function Below(y: nat, t: nat, v: nat): nat
    requires v > 0
  {
    Mask(Sub32(y, t) / 0x10000, v)
  }

  function ShlBy(y: nat, k: nat): nat {
    if k == 8 then y * 0x100 else if k == 4 then y * 0x10 else if k == 2 then y * 4 else y
  }

  /** The position of the highest bit of x. */
  function HighBit(x: nat): int {
    var n1 := Below(x, 0x100, 8);
    var y1 := ShlBy(x, n1);
    var n2 := Below(y1, 0x1000, 4);
    var y2 := ShlBy(y1, n2);
    var n3 := Below(y2, 0x4000, 2);
    var y3 := ShlBy(y2, n3);
    14 - (n1 + n2 + n3) + y3 / 0x8000
  }

  function TreeIndex(s: nat): nat {
    var x := s / 0x100;
    if x == 0 then 0
    else if x > 0xFFFF then BINS - 1
    else
      HighBitOk(x);
      var k := HighBit(x);
      2 * k + BitAt(s, k + 7)
  }

  lemma BelowValue(y: nat, t: nat, v: nat)
    requires y <= 0xFFFF && ((t == 0x100 && v == 8) || (t == 0x1000 && v == 4) || (t == 0x4000 && v == 2))
    ensures Below(y, t, v) == if y < t then v else 0
  {
  }

  /** The word shifted up until it has one of its two top bits. */
  lemma Normalised(x: nat, y: nat, n: nat)
    requires 1 <= x <= 0xFFFF && 0x4000 <= y <= 0xFFFF
    requires n in {0, 2, 4, 6, 8, 10, 12, 14} && y == x * Pow2(n)
    ensures var k := 14 - n + y / 0x8000; 0 <= k <= 15 && Pow2(k) <= x < 2 * Pow2(k)
  {
    var k := 14 - n + y / 0x8000;
    assert 0x4000 * (1 + y / 0x8000) <= y < 0x8000 * (1 + y / 0x8000);
    Pow2Values();
    Pow2Sum(k, n);
    assert Pow2(14) * 4 == Pow2(16) && Pow2(15) * 2 == Pow2(16);
    assert Pow2(k) * Pow2(n) == 0x4000 * (1 + y / 0x8000);
    MulCancel(Pow2(k), x, Pow2(n));
  }

  lemma MulCancel(a: nat, x: nat, p: nat)
    requires p > 0 && a * p <= x * p < 2 * a * p
    ensures a <= x < 2 * a
  {
  }

  lemma HighBitOk(x: nat)
    requires 1 <= x <= 0xFFFF
    ensures 0 <= HighBit(x) <= 15 && Pow2(HighBit(x)) <= x < 2 * Pow2(HighBit(x))
  {
    var n1 := Below(x, 0x100, 8);
    BelowValue(x, 0x100, 8);
    var y1 := ShlBy(x, n1);
    var n2 := Below(y1, 0x1000, 4);
    BelowValue(y1, 0x1000, 4);
    var y2 := ShlBy(y1, n2);
    var n3 := Below(y2, 0x4000, 2);
    BelowValue(y2, 0x4000, 2);
    var y3 := ShlBy(y2, n3);
    ShiftedBy(x, n1, n2, n3);
    Normalised(x, y3, n1 + n2 + n3);
  }

  lemma ShiftedBy(x: nat, n1: nat, n2: nat, n3: nat)
    requires n1 in {0, 8} && n2 in {0, 4} && n3 in {0, 2}
    ensures ShlBy(ShlBy(ShlBy(x, n1), n2), n3) == x * Pow2(n1 + n2 + n3)
  {
    Pow2Values();
    assert Pow2(6) == 4 * Pow2(4) && Pow2(10) == 4 * Pow2(8) && Pow2(12) == 16 * Pow2(8) && Pow2(14) == 64 * Pow2(8);
  }

  /** minsize_for_tree_index. */
  function MinSize(i: nat): nat {
    Pow2(i / 2 + 8) + if i % 2 == 1 then Pow2(i / 2 + 7) else 0
  }

  /** compute_tree_index puts every large size between the smallest sizes of its bin and of the next one. */
  lemma TreeIndexBrackets(s: nat)
    requires s >= MIN_LARGE
    ensures TreeIndex(s) < BINS
    ensures MinSize(TreeIndex(s)) <= s
    ensures TreeIndex(s) < BINS - 1 ==> s < MinSize(TreeIndex(s) + 1)
  {
    var x := s / 0x100;
    if x > 0xFFFF {
      LastMinSize(BINS - 1);
    } else {
      HighBitOk(x);
      BracketsFor(s, HighBit(x));
    }
  }

  lemma LastMinSize(i: nat)
    requires i == BINS - 1
    ensures MinSize(i) == 0xC0_0000
  {
    Pow2Values();
    Pow2Seven(i / 2);
    assert Pow2(i / 2 + 1) == 2 * Pow2(i / 2);
  }

  lemma BracketsFor(s: nat, k: nat)
    requires k <= 15 && Pow2(k) <= s / 0x100 < 2 * Pow2(k)
    ensures var i := 2 * k + BitAt(s, k + 7); i < BINS && MinSize(i) <= s < MinSize(i + 1)
  {
    HalfSizes(k);
    Pow2Seven(k);
    HalfBit(s, k + 7);
  }

  lemma HalfBit(s: nat, b: nat)
    requires 2 * Pow2(b) <= s < 4 * Pow2(b)
    ensures BitAt(s, b) == if s < 3 * Pow2(b) then 0 else 1
  {
    PrefixIsQuotient(s, b);
    UpperHalf(s, Pow2(b));
  }

  lemma UpperHalf(s: nat, p: nat)
    requires p > 0 && 2 * p <= s < 4 * p
    ensures s / p % 2 == if s < 3 * p then 0 else 1
  {
  }

  lemma Pow2Seven(k: nat)
    ensures Pow2(k + 7) == 128 * Pow2(k)
  {
    Pow2Values();
    assert Pow2(8) == 2 * Pow2(7);
    Pow2Sum(7, k);
  }

  /** Two bins for each power of two. */
  lemma HalfSizes(k: nat)
    ensures MinSize(2 * k) == 2 * Pow2(k + 7)
    ensures MinSize(2 * k + 1) == 3 * Pow2(k + 7)
    ensures MinSize(2 * k + 2) == 4 * Pow2(k + 7)
  {
  }

  lemma {:induction false} MinSizeOrder(i: nat, j: nat)
    requires i < j
    ensures MinSize(i) < MinSize(j)
  {
    if i + 1 < j {
      MinSizeOrder(i, j - 1);
    }
    MinSizeStep(j - 1);
  }

  lemma MinSizeStep(i: nat)
    ensures MinSize(i) < MinSize(i + 1)
  {
  }

  /** The treebin of a size: two bins for each doubling, and everything above in the last one. */
  function BinOf(s: nat): (i: nat)
    ensures i < BINS
  {
    if s < 384 then 0
    else if s < 512 then 1
    else
      var i := 2 + BinOf(s / 2);
      if i < BINS then i else BINS - 1
  }

  lemma MinSizeDoubles(i: nat)
    ensures MinSize(i + 2) == 2 * MinSize(i)
  {
    assert (i + 2) / 2 == i / 2 + 1;
    assert Pow2(i / 2 + 9) == 2 * Pow2(i / 2 + 8) && Pow2(i / 2 + 8) == 2 * Pow2(i / 2 + 7);
  }

  lemma FirstMinSizes()
    ensures MinSize(0) == 256 && MinSize(1) == 384 && MinSize(2) == 512
  {
  }

  lemma {:induction false} BinBrackets(s: nat)
    requires s >= MIN_LARGE
    ensures MinSize(BinOf(s)) <= s
    ensures BinOf(s) < BINS - 1 ==> s < MinSize(BinOf(s) + 1)
  {
    FirstMinSizes();
    if s >= 512 {
      var i := BinOf(s / 2);
      BinBrackets(s / 2);
      MinSizeDoubles(i);
      if i + 2 < BINS {
        MinSizeDoubles(i + 1);
      } else if i + 2 > BINS - 1 {
        MinSizeOrder(BINS - 1, i + 2);
      }
    }
  }

  /** The index computed with shifts and masks is that bin. */
  lemma TreeIndexIsBin(s: nat)
    requires s >= MIN_LARGE
    ensures TreeIndex(s) == BinOf(s)
  {
    TreeIndexBrackets(s);
    OnlyBin(s, TreeIndex(s));
  }

  lemma OnlyBin(s: nat, i: nat)
    requires s >= MIN_LARGE && i < BINS && MinSize(i) <= s && (i < BINS - 1 ==> s < MinSize(i + 1))
    ensures i == BinOf(s)
  {
    BinBrackets(s);
    SameBracket(s, i, BinOf(s));
    SameBracket(s, BinOf(s), i);
  }

  lemma SameBracket(s: nat, i: nat, j: nat)
    requires i < BINS && j < BINS && MinSize(j) <= s && (i < BINS - 1 ==> s < MinSize(i + 1))
    ensures j <= i
  {
    if i + 1 < j {
      MinSizeOrder(i + 1, j);
    }
  }

  /** Larger bins hold larger sizes. */
  lemma {:induction false} BinOrder(s: nat, z: nat)
    ensures BinOf(s) < BinOf(z) ==> s < z
  {
    if s >= 512 && z >= 512 {
      BinOrder(s / 2, z / 2);
    }
  }

  // ---------------------------------------------------------------------
  // Bits of the sizes in a bin

  /** Number of size bits a walk through bin i may look at. */
  function BinBits(i: nat): nat {
    if i == BINS - 1 then SIZE_BITS else i / 2 + 7
  }

  /** The leading bits that all sizes in bin i share. */
  function BinPrefix(i: nat): nat {
    if i == BINS - 1 then 0 else 2 + i % 2
  }

  /** leftshift_for_tree_index: brings the first deciding bit to the top. */
  function LeftShift(i: nat): nat
    requires i < BINS
  {
    if i == BINS - 1 then 0 else SIZE_BITS - 1 - (i / 2 + 6)
  }

  lemma SharedPrefix(s: nat)
    requires MIN_LARGE <= s <= MAX_SIZE
    ensures Prefix(s, BinBits(BinOf(s))) == BinPrefix(BinOf(s))
  {
    BinBrackets(s);
    PrefixIsQuotient(s, BinBits(BinOf(s)));
    PrefixInBin(s, BinOf(s));
  }

  lemma PrefixInBin(s: nat, i: nat)
    requires i < BINS && s < WORD && MinSize(i) <= s && (i < BINS - 1 ==> s < MinSize(i + 1))
    ensures s / Pow2(BinBits(i)) == BinPrefix(i)
  {
    if i == BINS - 1 {
      Pow2Word(BinBits(i));
    } else {
      var k := i / 2;
      HalfSizes(k);
      if i % 2 == 0 {
        assert i == 2 * k;
        PrefixOf(s, Pow2(k + 7), 0);
      } else {
        assert i == 2 * k + 1;
        PrefixOf(s, Pow2(k + 7), 1);
      }
    }
  }

  lemma PrefixOf(s: nat, p: nat, odd: nat)
    requires p > 0 && odd <= 1 && (if odd == 0 then 2 * p <= s < 3 * p else 3 * p <= s < 4 * p)
    ensures s / p == 2 + odd
  {
  }

  lemma Pow2Word(n: nat)
    requires n == SIZE_BITS
    ensures Pow2(n) == WORD
  {
    Pow2Values();
    Pow2Sum(16, 16);
    Pow2Sum(n / 2, n / 2);
  }

  /** The walk variable of the tree macros when b bits of the size are still to be looked at. */
  function SizeWord(s: nat, b: nat): nat
    requires b <= SIZE_BITS
  {
    s * Pow2(SIZE_BITS - b) % WORD
  }

  function TopBit(w: nat): nat {
    w / HALF_WORD
  }

  lemma WordSplit(b: nat)
    requires b <= SIZE_BITS
    ensures Pow2(b) * Pow2(SIZE_BITS - b) == WORD
    ensures b >= 1 ==> Pow2(b - 1) * Pow2(SIZE_BITS - b) == HALF_WORD
  {
    Pow2Word(SIZE_BITS);
    Pow2Sum(b, SIZE_BITS - b);
    if b >= 1 {
      MulAssoc(2, Pow2(b - 1), Pow2(SIZE_BITS - b));
    }
  }

  /** The top bit of the walk variable is the next bit of the size, and doubling moves on. */
  lemma WalkBits(s: nat, b: nat)
    requires 1 <= b <= SIZE_BITS
    ensures TopBit(SizeWord(s, b)) == BitAt(s, b - 1)
    ensures SizeWord(s, b) * 2 % WORD == SizeWord(s, b - 1)
  {
    WordSplit(b);
    PrefixIsQuotient(s, b - 1);
    var h, w := WordOf(s, Pow2(SIZE_BITS - b), Pow2(b - 1));
    NextWord(s, b, h, w);
  }

  /** s p modulo 2^64, where 2 half p is 2^64: its top bit is the lowest bit of s / half. */
  lemma WordOf(s: nat, p: nat, half: nat) returns (h: nat, w: nat)
    requires half * p == HALF_WORD && p > 0 && half > 0
    ensures s * p == WORD * h + w && w < WORD && s * p % WORD == w
    ensures w / HALF_WORD == s / half % 2
  {
    var q, r := s / half, s % half;
    assert s == half * q + r;
    assert s * p == HALF_WORD * q + r * p by { SplitProduct(half, q, r, p); }
    assert r * p < HALF_WORD by { LessProduct(r, half, p); }
    h := q / 2;
    w := HALF_WORD * (q % 2) + r * p;
    DivUnique(s * p, WORD, h, w);
    DivUnique(w, HALF_WORD, q % 2, r * p);
  }

  lemma SplitProduct(a: nat, q: nat, r: nat, p: nat)
    ensures (a * q + r) * p == (a * p) * q + r * p
  {
  }

  lemma LessProduct(a: nat, b: nat, p: nat)
    requires a < b && p > 0
    ensures a * p < b * p
  {
  }

  lemma NextWord(s: nat, b: nat, h: nat, w: nat)
    requires 1 <= b <= SIZE_BITS && s * Pow2(SIZE_BITS - b) == WORD * h + w && w < WORD
    ensures w * 2 % WORD == SizeWord(s, b - 1)
  {
    assert Pow2(SIZE_BITS - (b - 1)) == 2 * Pow2(SIZE_BITS - b);
    assert s * Pow2(SIZE_BITS - (b - 1)) == WORD * (2 * h) + w * 2;
    DivUnique(WORD * (2 * h) + w * 2, WORD, 2 * h + w * 2 / WORD, w * 2 % WORD);
  }
}

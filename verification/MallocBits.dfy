/**
  The bit manipulation of the allocator, on natural numbers: 64-bit sizes and
  32-bit bin maps.  Wrap-around is written out with the remainder.
 */
module MallocBits {

  function Pow2(n: nat): (p: nat)
    ensures p >= 1
  {
    if n == 0 then 1 else 2 * Pow2(n - 1)
  }

  /** z without its last b bits. */
  function Prefix(z: nat, b: nat): nat {
    if b == 0 then z else Prefix(z / 2, b - 1)
  }

  /** Bit i of x. */
  function BitAt(x: nat, i: nat): nat {
    Prefix(x, i) % 2
  }

  lemma {:induction false} PrefixIsQuotient(z: nat, b: nat)
    ensures Prefix(z, b) == z / Pow2(b)
  {
    if b > 0 {
      PrefixIsQuotient(z / 2, b - 1);
      DivDiv(z, b - 1);
    }
  }

  lemma DivDiv(x: nat, i: nat)
    ensures x / Pow2(i + 1) == x / 2 / Pow2(i)
  {
    var p := Pow2(i);
    var q, r := x / 2 / p, x / 2 % p;
    assert x == 2 * (q * p + r) + x % 2;
    assert 2 * r + x % 2 < 2 * p;
    DivUnique(x, 2 * p, q, 2 * r + x % 2);
  }

  lemma DivUnique(x: int, d: int, q: int, r: int)
    requires d > 0 && 0 <= r < d && x == d * q + r
    ensures x / d == q && x % d == r
  {
    var k := q - x / d;
    assert d * k == x % d - r by { assert d * (x / d) + x % d == x; assert d * k == d * q - d * (x / d); }
    MulBound(d, k);
  }

  lemma MulBound(d: int, k: int)
    requires d > 0
    ensures k >= 1 ==> d * k >= d
    ensures k <= -1 ==> d * k <= -d
  {
  }

  lemma BitAtShift(x: nat, i: nat)
    ensures BitAt(x, i + 1) == BitAt(x / 2, i)
    ensures BitAt(x, 0) == x % 2
  {
  }

  // ---------------------------------------------------------------------
  // n-bit words

  function And(x: nat, y: nat, n: nat): nat {
    if n == 0 then 0 else (x % 2) * (y % 2) + 2 * And(x / 2, y / 2, n - 1)
  }

  function Or(x: nat, y: nat, n: nat): nat {
    if n == 0 then 0 else (if x % 2 + y % 2 > 0 then 1 else 0) + 2 * Or(x / 2, y / 2, n - 1)
  }

  function Complement(x: nat, n: nat): nat
    requires x < Pow2(n)
  {
    Pow2(n) - 1 - x
  }

  /** Two's complement negation. */
  function Neg(x: nat, n: nat): nat {
    (0 - x as int) % Pow2(n)
  }

  function Shl(x: nat, k: nat, n: nat): nat {
    x * Pow2(k) % Pow2(n)
  }

  lemma {:induction false} AndBits(x: nat, y: nat, n: nat, i: nat)
    ensures And(x, y, n) < Pow2(n)
    ensures i < n ==> BitAt(And(x, y, n), i) == BitAt(x, i) * BitAt(y, i)
  {
    if n > 0 {
      AndBits(x / 2, y / 2, n - 1, if i > 0 then i - 1 else 0);
      var w := And(x, y, n);
      assert w / 2 == And(x / 2, y / 2, n - 1) && w % 2 == (x % 2) * (y % 2);
      if i > 0 {
        BitAtShift(w, i - 1);
        BitAtShift(x, i - 1);
        BitAtShift(y, i - 1);
      } else {
        BitAtShift(w, 0);
        BitAtShift(x, 0);
        BitAtShift(y, 0);
      }
    }
  }

  lemma {:induction false} OrBits(x: nat, y: nat, n: nat, i: nat)
    ensures Or(x, y, n) < Pow2(n)
    ensures i < n ==> (BitAt(Or(x, y, n), i) == 1 <==> BitAt(x, i) == 1 || BitAt(y, i) == 1)
  {
    if n > 0 {
      OrBits(x / 2, y / 2, n - 1, if i > 0 then i - 1 else 0);
      var w := Or(x, y, n);
      assert w / 2 == Or(x / 2, y / 2, n - 1);
      if i > 0 {
        BitAtShift(w, i - 1);
        BitAtShift(x, i - 1);
        BitAtShift(y, i - 1);
      } else {
        BitAtShift(w, 0);
        BitAtShift(x, 0);
        BitAtShift(y, 0);
      }
    }
  }

  lemma {:induction false} ComplementBits(x: nat, n: nat, i: nat)
    requires x < Pow2(n) && i < n
    ensures BitAt(Complement(x, n), i) == 1 - BitAt(x, i)
  {
    var w := Complement(x, n);
    BitAtShift(w, 0);
    BitAtShift(x, 0);
    if i > 0 {
      assert w / 2 == Complement(x / 2, n - 1);
      ComplementBits(x / 2, n - 1, i - 1);
      BitAtShift(w, i - 1);
      BitAtShift(x, i - 1);
    }
  }

  lemma {:induction false} Pow2Bits(k: nat, i: nat)
    ensures BitAt(Pow2(k), i) == if i == k then 1 else 0
  {
    BitAtShift(Pow2(k), 0);
    if i > 0 {
      BitAtShift(Pow2(k), i - 1);
      if k > 0 {
        assert Pow2(k) / 2 == Pow2(k - 1);
        Pow2Bits(k - 1, i - 1);
      } else {
        ZeroBits(i - 1);
      }
    }
  }

  lemma {:induction false} ZeroBits(i: nat)
    ensures BitAt(0, i) == 0
  {
    if i > 0 {
      ZeroBits(i - 1);
    }
  }

  lemma {:induction false} Pow2Order(i: nat, j: nat)
    requires i < j
    ensures 2 * Pow2(i) <= Pow2(j)
  {
    if i + 1 < j {
      Pow2Order(i, j - 1);
    }
  }

  /** A non-zero word has a set bit. */
  lemma {:induction false} SomeBit(x: nat, n: nat) returns (i: nat)
    requires 0 < x < Pow2(n)
    ensures i < n && BitAt(x, i) == 1
    ensures forall j :: 0 <= j < i ==> BitAt(x, j) == 0
  {
    BitAtShift(x, 0);
    if x % 2 == 1 {
      i := 0;
    } else {
      var k := SomeBit(x / 2, n - 1);
      i := k + 1;
      BitAtShift(x, k);
      forall j | 0 <= j < i ensures BitAt(x, j) == 0 {
        if j > 0 {
          BitAtShift(x, j - 1);
        }
      }
    }
  }

  // ---------------------------------------------------------------------
  // Bin maps

  const MAP_BITS := 32
  const MAP_LIMIT := 0x1_0000_0000   // 2^32

  lemma MapLimit()
    ensures Pow2(MAP_BITS) == MAP_LIMIT
  {
    Pow2Values();
    Pow2Sum(16, 16);
  }

  function Idx2Bit(i: nat): nat {
    Pow2(i)
  }

  /** least_bit: isolate the least set bit. */
  function LeastBit(x: nat, n: nat): nat {
    And(x, Neg(x, n), n)
  }

  /** left_bits: all bits to the left of the least bit. */
  function LeftBits(x: nat, n: nat): nat {
    var y := Shl(x, 1, n);
    Or(y, Neg(y, n), n)
  }

  lemma {:induction false} AndComplement(x: nat, n: nat)
    requires x < Pow2(n)
    ensures And(x, Complement(x, n), n) == 0
  {
    if n > 0 {
      var w := Complement(x, n);
      assert w / 2 == Complement(x / 2, n - 1) && w % 2 == 1 - x % 2;
      AndComplement(x / 2, n - 1);
    }
  }

  /** least_bit yields the power of two of the lowest set bit. */
  lemma {:induction false} LeastBitIsLowest(x: nat, n: nat, i: nat)
    requires 0 < x < Pow2(n) && i < n && BitAt(x, i) == 1
    requires forall j :: 0 <= j < i ==> BitAt(x, j) == 0
    ensures LeastBit(x, n) == Pow2(i)
  {
    BitAtShift(x, 0);
    var m := Neg(x, n);
    DivUnique(0 - x as int, Pow2(n), -1, Pow2(n) - x);
    assert m == Pow2(n) - x;
    if i == 0 {
      assert m / 2 == Complement(x / 2, n - 1) && m % 2 == 1;
      AndComplement(x / 2, n - 1);
    } else {
      assert BitAt(x, 0) == 0;
      var y := x / 2;
      DivUnique(0 - y as int, Pow2(n - 1), -1, Pow2(n - 1) - y);
      assert m / 2 == Neg(y, n - 1) && m % 2 == 0;
      BitAtShift(x, i - 1);
      forall j | 0 <= j < i - 1 ensures BitAt(y, j) == 0 {
        BitAtShift(x, j);
        assert BitAt(x, j + 1) == 0;
      }
      LeastBitIsLowest(y, n - 1, i - 1);
    }
  }

  lemma {:induction false} BitOfMultiple(q: nat, k: nat, i: nat)
    ensures i < k ==> BitAt(q * Pow2(k), i) == 0
    ensures i >= k ==> BitAt(q * Pow2(k), i) == BitAt(q, i - k)
  {
    if k > 0 {
      assert q * Pow2(k) == 2 * (q * Pow2(k - 1));
      BitAtShift(q * Pow2(k), 0);
      if i > 0 {
        BitAtShift(q * Pow2(k), i - 1);
        BitOfMultiple(q, k - 1, i - 1);
      }
    }
  }

  /** The word 2^n - 2^k has exactly the bits from k on. */
  lemma {:induction false} HighOnes(k: nat, n: nat, i: nat)
    requires k < n && i < n
    ensures Pow2(k) < Pow2(n) && (BitAt(Pow2(n) - Pow2(k), i) == 1 <==> i >= k)
  {
    Pow2Order(k, n);
    var m := Pow2(n) - Pow2(k);
    if k == 0 {
      AllOnes(n, i);
    } else {
      assert m == 2 * (Pow2(n - 1) - Pow2(k - 1));
      HighOnesStep(m, Pow2(n - 1) - Pow2(k - 1), i);
      if i > 0 {
        HighOnes(k - 1, n - 1, i - 1);
      }
    }
  }

  lemma AllOnes(n: nat, i: nat)
    requires i < n
    ensures BitAt(Pow2(n) - 1, i) == 1
  {
    ZeroBits(i);
    ComplementBits(0, n, i);
    assert Complement(0, n) == Pow2(n) - 1;
  }

  lemma HighOnesStep(m: nat, h: int, i: nat)
    requires m == 2 * h
    ensures h >= 0 && (if i == 0 then BitAt(m, i) == 0 else BitAt(m, i) == BitAt(h, i - 1))
  {
  }

  /** left_bits of bit k below the top one: 2^(k+1) and its negation. */
  lemma LeftBitsWord(k: nat, n: nat)
    requires k < n
    ensures Shl(Idx2Bit(k), 1, n) == if k + 1 == n then 0 else Pow2(k + 1)
    ensures Neg(0, n) == 0
    ensures k + 1 < n ==> Neg(Pow2(k + 1), n) == Pow2(n) - Pow2(k + 1)
  {
    assert Pow2(1) == 2 * Pow2(0);
    assert Pow2(k) * Pow2(1) == Pow2(k + 1);
    DivUnique(0, Pow2(n), 0, 0);
    if k + 1 == n {
      DivUnique(Pow2(n), Pow2(n), 1, 0);
    } else {
      Pow2Order(k + 1, n);
      DivUnique(Pow2(k + 1), Pow2(n), 0, Pow2(k + 1));
      DivUnique(0 - Pow2(k + 1), Pow2(n), -1, Pow2(n) - Pow2(k + 1));
    }
  }

  /** left_bits of a single bit selects exactly the bits above it. */
  lemma LeftBitsAbove(k: nat, n: nat, i: nat)
    requires k < n && i < n
    ensures BitAt(LeftBits(Idx2Bit(k), n), i) == 1 <==> i > k
  {
    LeftBitsWord(k, n);
    if k + 1 == n {
      OrBits(0, 0, n, i);
      ZeroBits(i);
    } else {
      HighOnes(k + 1, n, i);
      OrBits(Pow2(k + 1), Pow2(n) - Pow2(k + 1), n, i);
      Pow2Bits(k + 1, i);
    }
  }

  /** The value of bit v (a power of two) in x, as in x & v. */
  function Mask(x: nat, v: nat): nat
    requires v > 0
  {
    if x / v % 2 == 1 then v else 0
  }

  /** y >> k for the shifts that the portable bit searches use. */
  function Shr(y: nat, k: nat): nat {
    if k == 16 then y / 0x10000
    else if k == 8 then y / 0x100
    else if k == 4 then y / 0x10
    else if k == 2 then y / 4
    else if k == 1 then y / 2
    else y
  }

  /** One probe of compute_bit2idx: y shifted right by v minus log v, masked with v. */
  function Probe(y: nat, v: nat): nat {
    if v == 16 then Mask(y / 0x1000, 16)
    else if v == 8 then Mask(y / 0x20, 8)
    else if v == 4 then Mask(y / 4, 4)
    else if v == 2 then Mask(y / 2, 2)
    else Mask(y / 2, 1)
  }

  /** The probes with 16, 8, 4, 2 and 1, starting with v. */
  function Bit2IdxFrom(y: nat, v: nat): nat {
    if v == 0 then y else
    var k := Probe(y, v);
    k + Bit2IdxFrom(Shr(y, k), v / 2)
  }

  /** compute_bit2idx, portable form. */
  function Bit2Idx(x: nat): nat
    requires x > 0
  {
    Bit2IdxFrom(x - 1, 16)
  }

  lemma Pow2Values()
    ensures Pow2(0) == 1 && Pow2(1) == 2 && Pow2(2) == 4 && Pow2(4) == 16 && Pow2(8) == 256 && Pow2(16) == 65536
  {
  }

  /** 2^i for i in the lower half is small; in the upper half it is 2^v times an even power. */
  lemma {:induction false} SplitPow2(i: nat, v: nat)
    ensures i <= v ==> Pow2(i) <= Pow2(v)
    ensures i > v ==> Pow2(i) == Pow2(i - v) * Pow2(v) && Pow2(i - v) % 2 == 0
  {
    if i < v {
      Pow2Order(i, v);
    } else if i > v {
      Pow2Sum(i - v, v);
      assert Pow2(i - v) == 2 * Pow2(i - v - 1);
    }
  }

  lemma {:induction false} Pow2Sum(a: nat, b: nat)
    ensures Pow2(a + b) == Pow2(a) * Pow2(b)
  {
    if a > 0 {
      Pow2Sum(a - 1, b);
      MulAssoc(2, Pow2(a - 1), Pow2(b));
    }
  }

  lemma MulAssoc(a: int, b: int, c: int)
    ensures a * (b * c) == (a * b) * c
  {
  }

  predicate Width(v: nat) {
    v == 16 || v == 8 || v == 4 || v == 2 || v == 1
  }

  /** A probe finds nothing in a word below 2^v. */
  lemma ProbeLow(y: nat, v: nat)
    requires Width(v) && y < Pow2(v)
    ensures Probe(y, v) == 0
  {
    Pow2Values();
  }

  /** A probe finds the bit in q 2^v - 1 for even q, and shifting leaves q - 1. */
  lemma ProbeHigh(q: nat, v: nat)
    requires Width(v) && q > 0 && q % 2 == 0
    ensures q * Pow2(v) > 0
    ensures Probe(q * Pow2(v) - 1, v) == v && Shr(q * Pow2(v) - 1, v) == q - 1
  {
    Pow2Values();
    if v == 16 {
      ProbeHigh16(q);
    } else if v == 8 {
      ProbeHigh8(q);
    } else if v == 4 {
      ProbeHigh4(q);
    }
  }

  lemma ProbeHigh16(q: nat)
    requires q > 0 && q % 2 == 0
    ensures Probe(q * 0x10000 - 1, 16) == 16 && Shr(q * 0x10000 - 1, 16) == q - 1
  {
    var y := q * 0x10000 - 1;
    assert y / 0x1000 == q * 16 - 1;
    assert (q * 16 - 1) / 16 == q - 1 && (q - 1) % 2 == 1;
    assert y / 0x10000 == q - 1;
  }

  lemma ProbeHigh8(q: nat)
    requires q > 0 && q % 2 == 0
    ensures Probe(q * 0x100 - 1, 8) == 8 && Shr(q * 0x100 - 1, 8) == q - 1
  {
    var y := q * 0x100 - 1;
    assert y / 0x20 == q * 8 - 1;
    assert (q * 8 - 1) / 8 == q - 1 && (q - 1) % 2 == 1;
    assert y / 0x100 == q - 1;
  }

  lemma ProbeHigh4(q: nat)
    requires q > 0 && q % 2 == 0
    ensures Probe(q * 0x10 - 1, 4) == 4 && Shr(q * 0x10 - 1, 4) == q - 1
  {
    var y := q * 0x10 - 1;
    assert y / 4 == q * 4 - 1;
    assert (q * 4 - 1) / 4 == q - 1 && (q - 1) % 2 == 1;
    assert y / 0x10 == q - 1;
  }

  /** One probe of 2^i - 1: i is what it finds plus the position that is left. */
  lemma ProbeStep(i: nat, v: nat)
    requires Width(v)
    ensures i <= v ==> Probe(Pow2(i) - 1, v) == 0
    ensures i > v ==> Probe(Pow2(i) - 1, v) == v && Shr(Pow2(i) - 1, v) == Pow2(i - v) - 1
  {
    SplitPow2(i, v);
    if i <= v {
      ProbeLow(Pow2(i) - 1, v);
    } else {
      ProbeHigh(Pow2(i - v), v);
    }
  }

  lemma {:induction false} FindsBit(i: nat, v: nat)
    requires (v == 0 && i <= 1) || (Width(v) && i <= 2 * v)
    ensures Bit2IdxFrom(Pow2(i) - 1, v) == i
  {
    if v == 0 {
      assert Pow2(1) == 2 * Pow2(0);
    } else {
      ProbeStep(i, v);
      FindsBit(if i <= v then i else i - v, v / 2);
    }
  }

  /** compute_bit2idx undoes idx2bit. */
  lemma Bit2IdxInverts(i: nat)
    requires i < MAP_BITS
    ensures Bit2Idx(Idx2Bit(i)) == i
  {
    FindsBit(i, 16);
    assert Bit2Idx(Idx2Bit(i)) == Bit2IdxFrom(Pow2(i) - 1, 16);
  }

  /** The bin map search: the index of the lowest set bit. */
  lemma LowestBin(x: nat, i: nat)
    requires 0 < x < MAP_LIMIT && i < MAP_BITS && BitAt(x, i) == 1
    requires forall j :: 0 <= j < i ==> BitAt(x, j) == 0
    ensures LeastBit(x, MAP_BITS) == Idx2Bit(i) && Bit2Idx(LeastBit(x, MAP_BITS)) == i
  {
    MapLimit();
    LeastBitIsLowest(x, MAP_BITS, i);
    Bit2IdxInverts(i);
  }
}

/** Unsigned machine words. A 64-bit word is a natural below 2^64; the
    bitwise operators the index uses (AND, OR, logical right shift, count
    trailing zeros) are defined on binary digits, so that every fact about
    them is proved by induction on the number. */
module Bits {

  const WordBits: nat := 64

  /** Go's uint64. */
  type Word = x: nat | x < 0x1_0000_0000_0000_0000

  /** The all-ones word (0xffffffffffffffff). */
  const AllOnes: Word := 0xffff_ffff_ffff_ffff

  function Pow2(n: nat): (r: nat)
    ensures r >= 1
  {
    if n == 0 then 1 else 2 * Pow2(n - 1)
  }

  /** Bit j of x; bit 0 is the least significant. */
  predicate Bit(x: nat, j: nat)
  {
    if j == 0 then x % 2 == 1 else Bit(x / 2, j - 1)
  }

  /** Bitwise AND (Go's `&`). */
  function And(x: nat, y: nat): (r: nat)
    ensures r <= x && r <= y
  {
    if x == 0 || y == 0 then 0
    else 2 * And(x / 2, y / 2) + (if x % 2 == 1 && y % 2 == 1 then 1 else 0)
  }

  /** Bitwise OR (Go's `|`). */
  function Or(x: nat, y: nat): (r: nat)
    ensures x <= r && y <= r
    ensures r == 0 <==> x == 0 && y == 0
  {
    if x == 0 then y
    else if y == 0 then x
    else 2 * Or(x / 2, y / 2) + (if x % 2 == 1 || y % 2 == 1 then 1 else 0)
  }

  /** Logical right shift (Go's `>>` on an unsigned operand). */
  function Shr(x: nat, n: nat): (r: nat)
    ensures r <= x
    ensures n > 0 && x > 0 ==> r < x
  {
    if n == 0 then x else Shr(x / 2, n - 1)
  }

  /** Count of trailing zero bits of a non-zero word: the index of its lowest set bit. */
  function Ctz(u: nat): (t: nat)
    requires u > 0
    ensures Bit(u, t)
  {
    if u % 2 == 1 then 0 else 1 + Ctz(u / 2)
  }

  /** No bit below the trailing-zero count is set. */
  lemma {:induction false} CtzLowest(u: nat, k: nat)
    requires u > 0 && k < Ctz(u)
    ensures !Bit(u, k)
  {
    if k > 0 {
      CtzLowest(u / 2, k - 1);
    }
  }

  lemma {:induction false} Pow2Add(a: nat, b: nat)
    ensures Pow2(a + b) == Pow2(a) * Pow2(b)
  {
    if a > 0 {
      Pow2Add(a - 1, b);
    }
  }

  /** 2^64 is the bound of Word, so Pow2(64) - 1 is AllOnes. */
  lemma WordLimit()
    ensures Pow2(64) == 0x1_0000_0000_0000_0000
    ensures Pow2(6) == 64 && Pow2(8) == 256 && Pow2(16) == 0x1_0000
  {
    assert Pow2(2) == 4;
    Pow2Add(2, 2);
    assert Pow2(4) == 16;
    Pow2Add(4, 2);
    assert Pow2(6) == 64;
    Pow2Add(4, 4);
    assert Pow2(8) == 256;
    Pow2Add(8, 8);
    assert Pow2(16) == 0x1_0000;
    Pow2Add(16, 16);
    assert Pow2(32) == 0x1_0000_0000;
    Pow2Add(32, 32);
  }

  lemma {:induction false} BitZero(j: nat)
    ensures !Bit(0, j)
  {
    if j > 0 {
      BitZero(j - 1);
    }
  }

  /** A number below 2^n has no bit at or above position n. */
  lemma {:induction false} HighBitsZero(x: nat, n: nat, j: nat)
    requires x < Pow2(n) && n <= j
    ensures !Bit(x, j)
  {
    if n == 0 {
      assert x == 0;
      BitZero(j);
    } else {
      HighBitsZero(x / 2, n - 1, j - 1);
    }
  }

  lemma WordHighBitsZero(x: Word, j: nat)
    requires WordBits <= j
    ensures !Bit(x, j)
  {
    WordLimit();
    HighBitsZero(x, 64, j);
  }

  /** 2^n - 1 has exactly the bits below n. */
  lemma {:induction false} LowMaskBit(n: nat, j: nat)
    ensures Bit(Pow2(n) - 1, j) <==> j < n
  {
    if n == 0 {
      BitZero(j);
    } else if j > 0 {
      assert (Pow2(n) - 1) / 2 == Pow2(n - 1) - 1;
      LowMaskBit(n - 1, j - 1);
    }
  }

  lemma AllOnesBit(j: nat)
    ensures Bit(AllOnes, j) <==> j < WordBits
  {
    WordLimit();
    LowMaskBit(64, j);
  }

  /** 2^k has exactly bit k (Go's `1 << k`). */
  lemma {:induction false} Pow2Bit(k: nat, j: nat)
    ensures Bit(Pow2(k), j) <==> j == k
  {
    if k == 0 {
      if j > 0 {
        BitZero(j - 1);
      }
    } else if j > 0 {
      Pow2Bit(k - 1, j - 1);
    }
  }

  lemma {:induction false} AndBit(x: nat, y: nat, j: nat)
    ensures Bit(And(x, y), j) <==> Bit(x, j) && Bit(y, j)
  {
    if x == 0 || y == 0 {
      BitZero(j);
    } else if j > 0 {
      AndBit(x / 2, y / 2, j - 1);
    }
  }

  lemma {:induction false} OrBit(x: nat, y: nat, j: nat)
    ensures Bit(Or(x, y), j) <==> Bit(x, j) || Bit(y, j)
  {
    if x == 0 {
      BitZero(j);
    } else if y == 0 {
      BitZero(j);
    } else if j > 0 {
      OrBit(x / 2, y / 2, j - 1);
    }
  }

  lemma {:induction false} ShrBit(x: nat, n: nat, j: nat)
    ensures Bit(Shr(x, n), j) <==> Bit(x, n + j)
  {
    if n > 0 {
      ShrBit(x / 2, n - 1, j);
    }
  }

  lemma {:induction false} ShrShr(x: nat, a: nat, b: nat)
    ensures Shr(Shr(x, a), b) == Shr(x, a + b)
  {
    if a > 0 {
      ShrShr(x / 2, a - 1, b);
    }
  }

  /** Two numbers with the same bits are equal. */
  lemma {:induction false} BitsEqual(x: nat, y: nat)
    requires forall j :: Bit(x, j) == Bit(y, j)
    ensures x == y
    decreases x + y
  {
    assert Bit(x, 0) == Bit(y, 0);
    if x != 0 || y != 0 {
      forall j: nat ensures Bit(x / 2, j) == Bit(y / 2, j) {
        assert Bit(x, j + 1) == Bit(y, j + 1);
      }
      BitsEqual(x / 2, y / 2);
    }
  }

  /** The OR of two words is a word. */
  lemma {:induction false} OrBelow(x: nat, y: nat, n: nat)
    requires x < Pow2(n) && y < Pow2(n)
    ensures Or(x, y) < Pow2(n)
  {
    if n > 0 && x != 0 && y != 0 {
      OrBelow(x / 2, y / 2, n - 1);
    }
  }

  /** Masking with 2^n - 1 keeps the remainder modulo 2^n. */
  lemma {:induction false} AndLowMask(x: nat, n: nat)
    ensures And(x, Pow2(n) - 1) == x % Pow2(n)
  {
    if n == 0 {
      assert Pow2(n) == 1;
    } else if x == 0 {
      assert And(x, Pow2(n) - 1) == 0;
    } else {
      var p, m := Pow2(n - 1), Pow2(n) - 1;
      LowMaskHalf(n);
      AndOddStep(x, m);
      AndLowMask(x / 2, n - 1);
      ModHalf(x, p);
    }
  }

  /** 2^n - 1 is odd for n > 0 and halving it gives 2^(n-1) - 1. */
  lemma LowMaskHalf(n: nat)
    requires n > 0
    ensures Pow2(n) == 2 * Pow2(n - 1)
    ensures (Pow2(n) - 1) / 2 == Pow2(n - 1) - 1 && (Pow2(n) - 1) % 2 == 1
  {
  }

  /** AND with an odd mask keeps the lowest bit of x. */
  lemma AndOddStep(x: nat, m: nat)
    requires x > 0 && m % 2 == 1
    ensures And(x, m) == 2 * And(x / 2, m / 2) + x % 2
  {
  }

  lemma ModHalf(x: nat, p: nat)
    requires p >= 1
    ensures x % (2 * p) == 2 * ((x / 2) % p) + x % 2
  {
    var q, r := (x / 2) / p, (x / 2) % p;
    assert x / 2 == p * q + r;
    assert x == 2 * (p * q) + (2 * r + x % 2);
    assert 2 * (p * q) == (2 * p) * q;
    DivModUnique(x, 2 * p, q, 2 * r + x % 2);
  }

  lemma DivModUnique(x: nat, d: nat, q: nat, r: nat)
    requires 0 <= r < d && x == d * q + r
    ensures x % d == r && x / d == q
  {
    var q', r' := x / d, x % d;
    assert d * q' + r' == d * q + r;
    if q' > q {
      assert d * (q' - q) == d * q' - d * q;
      MulMonotone(d, q' - q);
    } else if q' < q {
      assert d * (q - q') == d * q - d * q';
      MulMonotone(d, q - q');
    }
  }

  lemma MulMonotone(d: nat, k: nat)
    requires k >= 1
    ensures d * k >= d
  {
  }
}

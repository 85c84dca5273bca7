/** Deriving bloom-bit positions from a 32-bit term hash: Marsaglia's
    xorshift32 followed by double hashing of its two 16-bit halves in
    uint16 arithmetic, masked to the row count. */
module Hashing {
  import opened Bits

  /** Marsaglia's xorshift32 ("favourite" triple 13, 17, 5). Like every
      xorshift generator it never reaches the zero state from another. */
  function Xorshift32(y: bv32): (r: bv32)
    ensures y != 0 ==> r != 0
  {
    XorLeft5(XorRight17(XorLeft13(y)))
  }

  /** `y ^= y << 13` */
  function XorLeft13(y: bv32): (r: bv32)
    ensures y != 0 ==> r != 0
  {
    y ^ (y << 13)
  }

  /** `y ^= y >> 17` */
  function XorRight17(y: bv32): (r: bv32)
    ensures y != 0 ==> r != 0
  {
    y ^ (y >> 17)
  }

  /** `y ^= y << 5` */
  function XorLeft5(y: bv32): (r: bv32)
    ensures y != 0 ==> r != 0
  {
    y ^ (y << 5)
  }

  /** The first step loses no information. */
  lemma Left13Injective(a: bv32, b: bv32)
    ensures XorLeft13(a) == XorLeft13(b) ==> a == b
  {
  }

  /** The last step loses no information. */
  lemma Left5Injective(a: bv32, b: bv32)
    ensures XorLeft5(a) == XorLeft5(b) ==> a == b
  {
  }

  /** The first output of the generator seeded with 1. */
  lemma XorshiftOfOne()
    ensures Xorshift32(1) == 270369
  {
  }

  /** Zero is the fixed point of xorshift32, so the term 0 probes row 0
      only, whatever the number of probes. */
  lemma ZeroTermProbesRowZero(i: nat, mask: nat)
    ensures Xorshift32(0) == 0
    ensures Position(0, i, mask) == 0
  {
    assert High16(0) == 0 && Low16(0) == 0;
  }

  /** Go's `uint16(size) - 1`: the conversion keeps size modulo 2^16 and the
      subtraction wraps, so a size that is a multiple of 2^16 gives 0xffff. */
  function Uint16Mask(size: nat): (m: nat)
    ensures m < 0x1_0000
  {
    (size % 0x1_0000 - 1) % 0x1_0000
  }

  /** Every masked position selects an existing row, whatever the size. */
  lemma MaskBelowSize(size: nat)
    requires size >= 1
    ensures Uint16Mask(size) < size
  {
  }

  /** For a power of two up to 2^16 the mask is size - 1. */
  lemma MaskOfPowerOfTwo(k: nat)
    requires k <= 16
    ensures Uint16Mask(Pow2(k)) == Pow2(k) - 1
  {
    Pow2Sixteen();
    if k < 16 {
      Pow2Add(k, 16 - k);
      Pow2Factor(Pow2(k), Pow2(16 - k), 0x1_0000);
      MaskBelowLimit(Pow2(k));
    } else {
      MaskOfLimit();
    }
  }

  lemma MaskOfLimit()
    ensures Uint16Mask(0x1_0000) == 0xFFFF
  {
  }

  lemma Pow2Sixteen()
    ensures Pow2(16) == 0x1_0000
  {
    Pow2Add(8, 8);
    assert Pow2(8) == 256;
  }

  lemma Pow2Factor(a: nat, b: nat, c: nat)
    requires a * b == c && b >= 2 && a >= 1
    ensures a < c
  {
  }

  lemma MaskBelowLimit(a: nat)
    requires 1 <= a < 0x1_0000
    ensures Uint16Mask(a) == a - 1
  {
  }

  /** h1: the high 16 bits of the mixed hash (Go's `uint16(h >> 16)`). */
  function High16(h: bv32): (r: nat)
    ensures 0x1_0000 * r <= h as nat < 0x1_0000 * (r + 1)
  {
    h as nat / 0x1_0000
  }

  /** h2: the low 16 bits of the mixed hash (Go's `uint16(h)`). */
  function Low16(h: bv32): (r: nat)
    ensures r < 0x1_0000
  {
    h as nat % 0x1_0000
  }

  /** The two halves put back together give the mixed hash. */
  lemma Halves(h: bv32)
    ensures h as nat == 0x1_0000 * High16(h) + Low16(h)
  {
  }

  /** The i-th probe `(h1 + i*h2) & mask`, where the uint16 sum and product
      wrap modulo 2^16. */
  function Probe(h1: nat, h2: nat, i: nat, mask: nat): (p: nat)
    ensures p <= mask
  {
    And((h1 + i * h2) % 0x1_0000, mask)
  }

  /** When the row count is a power of two up to 2^16, the probe is the
      wrapped double hash reduced modulo the row count. */
  lemma ProbeIsModulo(h1: nat, h2: nat, i: nat, k: nat)
    requires k <= 16
    ensures Probe(h1, h2, i, Uint16Mask(Pow2(k))) == ((h1 + i * h2) % 0x1_0000) % Pow2(k)
  {
    MaskOfPowerOfTwo(k);
    AndLowMask((h1 + i * h2) % 0x1_0000, k);
  }

  /** Bit position i of term t for a table masked by mask. */
  function Position(t: bv32, i: nat, mask: nat): (p: nat)
    ensures p <= mask
  {
    var h := Xorshift32(t);
    Probe(High16(h), Low16(h), i, mask)
  }

  /** The first n positions of term t, in probe order. */
  function TermPositions(t: bv32, n: nat, mask: nat): (ps: seq<nat>)
    ensures |ps| == n
    ensures forall i :: 0 <= i < n ==> ps[i] == Position(t, i, mask)
  {
    if n == 0 then [] else TermPositions(t, n - 1, mask) + [Position(t, n - 1, mask)]
  }

  /** The positions of a list of terms, term by term, as the loops of
      AddTerms and Query enumerate them. */
  function Positions(terms: seq<bv32>, n: nat, mask: nat): (ps: seq<nat>)
  {
    if terms == [] then []
    else Positions(terms[..|terms| - 1], n, mask) + TermPositions(terms[|terms| - 1], n, mask)
  }

  /** Every position of every term is listed, and nothing else is. */
  lemma {:induction false} PositionsMember(terms: seq<bv32>, n: nat, mask: nat, p: nat)
    ensures p in Positions(terms, n, mask) <==>
            exists t, i :: t in terms && 0 <= i < n && p == Position(t, i, mask)
  {
    if terms != [] {
      var init, last := terms[..|terms| - 1], terms[|terms| - 1];
      assert terms == init + [last];
      PositionsMember(init, n, mask, p);
      if p in Positions(terms, n, mask) && p !in Positions(init, n, mask) {
        var i :| 0 <= i < n && TermPositions(last, n, mask)[i] == p;
        assert last in terms && p == Position(last, i, mask);
      }
      if exists t, i :: t in terms && 0 <= i < n && p == Position(t, i, mask) {
        var t, i :| t in terms && 0 <= i < n && p == Position(t, i, mask);
        if t == last {
          assert TermPositions(last, n, mask)[i] == p;
        } else {
          assert t in init;
        }
      }
    }
  }

  /** Positions exist exactly when there is a term and at least one probe. */
  lemma {:induction false} PositionsEmpty(terms: seq<bv32>, n: nat, mask: nat)
    ensures Positions(terms, n, mask) == [] <==> terms == [] || n == 0
  {
    if terms != [] {
      PositionsEmpty(terms[..|terms| - 1], n, mask);
    }
  }

  lemma PositionsBelow(terms: seq<bv32>, n: nat, mask: nat, p: nat)
    requires p in Positions(terms, n, mask)
    ensures p <= mask
  {
    PositionsMember(terms, n, mask, p);
  }
}

/** The arithmetic of CRC-32: polynomials over two elements modulo the CRC polynomial, written reflected,
    so that bit 31 is the coefficient of 1 and multiplying by x shifts right. */
module CrcField {
  function Xor(u: bv64, v: bv64): bv64 { u ^ v }

  lemma XorZero(a: bv64)
    ensures Xor(a, a) == 0 && Xor(a, 0) == a && Xor(0, a) == a
  {
  }

  lemma XorSwap(a: bv64, b: bv64)
    ensures Xor(a, b) == Xor(b, a)
  {
  }

  lemma XorIs(u: bv64, v: bv64)
    ensures Xor(u, v) == u ^ v
  {
  }

  lemma AssocParts(a: bv64, b: bv64, c: bv64, x: bv64, y: bv64)
    requires x == b ^ c && y == a ^ b
    ensures a ^ x == y ^ c
  {
  }

  lemma XorAssoc(a: bv64, b: bv64, c: bv64)
    ensures Xor(a, Xor(b, c)) == Xor(Xor(a, b), c)
  {
    hide *;
    XorIs(b, c);
    XorIs(a, b);
    XorIs(a, Xor(b, c));
    XorIs(Xor(a, b), c);
    AssocParts(a, b, c, Xor(b, c), Xor(a, b));
  }

  lemma XorPairs(a: bv64, b: bv64, c: bv64, d: bv64)
    ensures Xor(Xor(a, b), Xor(c, d)) == Xor(Xor(a, c), Xor(b, d))
  {
    hide *;
    XorSwap(b, c);
    XorAssoc(a, b, c);
    XorAssoc(a, c, b);
    XorAssoc(Xor(a, b), c, d);
    XorAssoc(Xor(a, c), b, d);
  }

  /** A value of 32 bits, held in a word that may be wider. */
  predicate Small(v: bv64) { v < 0x1_0000_0000 }

  function Half(v: bv64): bv64 { v >> 1 }

  /** The polynomial, if a bit is shifted out. */
  function Fold(v: bv64): bv64 { -(v & 1) & 0xedb8_8320 }

  /** Multiplication by x.  It also serves words wider than 32 bits, whose low bits come first. */
  function S1(v: bv64): bv64 { Xor(Half(v), Fold(v)) }

  /** n multiplications by x. */
  function Sn(v: bv64, n: nat): bv64
    decreases n
  {
    if n == 0 then v else Sn(S1(v), n - 1)
  }

  /** The shift register step of the source. */
  lemma S1Is(v: bv64)
    ensures S1(v) == if v & 1 != 0 then (v >> 1) ^ 0xedb8_8320 else v >> 1
  {
    if v & 1 != 0 { LowBitSet(v); } else { LowBitClear(v); }
  }

  lemma LowBitSet(v: bv64)
    requires v & 1 != 0
    ensures -(v & 1) & 0xedb8_8320 == 0xedb8_8320
  {
  }

  lemma LowBitClear(v: bv64)
    requires v & 1 == 0
    ensures -(v & 1) & 0xedb8_8320 == 0
  {
  }

  lemma HalfLinear(u: bv64, v: bv64)
    ensures Half(Xor(u, v)) == Xor(Half(u), Half(v))
  {
  }

  lemma FoldLinear(u: bv64, v: bv64)
    ensures Fold(Xor(u, v)) == Xor(Fold(u), Fold(v))
  {
  }

  lemma S1Linear(u: bv64, v: bv64)
    ensures S1(Xor(u, v)) == Xor(S1(u), S1(v))
  {
    hide Xor, Half, Fold;
    HalfLinear(u, v);
    FoldLinear(u, v);
    XorPairs(Half(u), Fold(u), Half(v), Fold(v));
  }

  lemma S1Zero()
    ensures S1(0) == 0
  {
  }

  lemma S1Small(v: bv64)
    requires Small(v)
    ensures Small(S1(v)) && (v != 0 ==> S1(v) != 0)
  {
  }

  lemma {:induction false} SnLinear(u: bv64, v: bv64, n: nat)
    ensures Sn(Xor(u, v), n) == Xor(Sn(u, n), Sn(v, n))
    decreases n
  {
    hide S1, Xor;
    if n > 0 {
      S1Linear(u, v);
      SnLinear(S1(u), S1(v), n - 1);
    }
  }

  lemma {:induction false} SnZero(n: nat)
    ensures Sn(0, n) == 0
    decreases n
  {
    hide S1;
    S1Zero();
    if n > 0 { SnZero(n - 1); }
  }

  lemma {:induction false} SnAdd(v: bv64, j: nat, k: nat)
    ensures Sn(v, j + k) == Sn(Sn(v, j), k)
    decreases j
  {
    hide S1;
    if j > 0 { SnAdd(S1(v), j - 1, k); }
  }

  lemma {:induction false} SnSmall(v: bv64, n: nat)
    requires Small(v)
    ensures Small(Sn(v, n)) && (v != 0 ==> Sn(v, n) != 0)
    decreases n
  {
    hide S1, Small;
    if n > 0 {
      S1Small(v);
      SnSmall(S1(v), n - 1);
    }
  }

  // ---------- products ----------

  const ONE: bv64 := 0x8000_0000

  predicate Has(a: bv64, m: bv64) { a & m != 0 }

  /** b, if the coefficient of a under m is one. */
  function Pick(a: bv64, m: bv64, b: bv64): bv64 {
    if Has(a, m) then b else 0
  }

  /** The sum of b, x b, x^2 b and so on for the n coefficients of a from m down. */
  ghost function MulFrom(a: bv64, b: bv64, m: bv64, n: nat): bv64
    decreases n
  {
    if n == 0 then 0 else Xor(Pick(a, m, b), MulFrom(a, S1(b), m >> 1, n - 1))
  }

  ghost function Mul(a: bv64, b: bv64): bv64 { MulFrom(a, b, 0x8000_0000, 32) }

  lemma MulIs(a: bv64, b: bv64)
    ensures Mul(a, b) == MulFrom(a, b, 0x8000_0000, 32)
  {
  }

  lemma MulStep(a: bv64, b: bv64, m: bv64, n: nat)
    ensures MulFrom(a, b, m, n) == if n == 0 then 0 else Xor(Pick(a, m, b), MulFrom(a, S1(b), m >> 1, n - 1))
  {
    hide S1, Xor, Pick;
  }

  lemma PickLaws(a: bv64, m: bv64, b: bv64, c: bv64)
    ensures Pick(a, m, Xor(b, c)) == Xor(Pick(a, m, b), Pick(a, m, c))
    ensures Pick(a, m, S1(b)) == S1(Pick(a, m, b)) && Pick(a, m, 0) == 0
    ensures Pick(a, m, b) == b || Pick(a, m, b) == 0
  {
    hide Xor, S1, Has;
    XorZero(0);
    S1Zero();
  }

  lemma {:induction false} MulRight(a: bv64, b: bv64, c: bv64, m: bv64, n: nat)
    ensures MulFrom(a, Xor(b, c), m, n) == Xor(MulFrom(a, b, m, n), MulFrom(a, c, m, n))
    decreases n
  {
    hide *;
    MulStep(a, Xor(b, c), m, n);
    MulStep(a, b, m, n);
    MulStep(a, c, m, n);
    XorZero(0);
    if n > 0 {
      PickLaws(a, m, b, c);
      S1Linear(b, c);
      MulRight(a, S1(b), S1(c), m >> 1, n - 1);
      XorPairs(Pick(a, m, b), Pick(a, m, c), MulFrom(a, S1(b), m >> 1, n - 1), MulFrom(a, S1(c), m >> 1, n - 1));
    }
  }

  lemma {:induction false} MulRightStep(a: bv64, b: bv64, m: bv64, n: nat)
    ensures MulFrom(a, S1(b), m, n) == S1(MulFrom(a, b, m, n)) && MulFrom(a, 0, m, n) == 0
    decreases n
  {
    hide *;
    MulStep(a, S1(b), m, n);
    MulStep(a, b, m, n);
    MulStep(a, 0, m, n);
    XorZero(0);
    S1Zero();
    if n > 0 {
      PickLaws(a, m, b, 0);
      MulRightStep(a, S1(b), m >> 1, n - 1);
      S1Linear(Pick(a, m, b), MulFrom(a, S1(b), m >> 1, n - 1));
    }
  }

  lemma {:induction false} MulRightMany(a: bv64, b: bv64, n: nat)
    ensures Mul(a, Sn(b, n)) == Sn(Mul(a, b), n)
    decreases n
  {
    hide S1, MulFrom;
    if n > 0 {
      MulRightStep(a, b, 0x8000_0000, 32);
      MulRightMany(a, S1(b), n - 1);
    }
  }

  // ---------- one is neutral ----------

  /** m is one bit with n - 1 bits below it, or nothing at all. */
  ghost predicate Bit(m: bv64, n: nat)
    decreases n
  {
    if n == 0 then m == 0 else m != 0 && m & (m - 1) == 0 && (n == 1 <==> m == 1) && Bit(m >> 1, n - 1)
  }

  /** The coefficients of a under m and every lower bit. */
  function Kept(a: bv64, m: bv64): bv64 { if m == 0 then 0 else a & (m | (m - 1)) }

  lemma BitSplit(a: bv64, m: bv64)
    requires m & (m - 1) == 0
    ensures a & (m | (m - 1)) == (a & m) ^ (a & (m - 1))
  {
  }

  lemma BitWhole(a: bv64, m: bv64)
    requires m & (m - 1) == 0
    ensures a & m == 0 || a & m == m
  {
  }

  lemma BitHalf(m: bv64)
    requires m != 0 && m != 1 && m & (m - 1) == 0
    ensures (m >> 1) | ((m >> 1) - 1) == m - 1 && m >> 1 != 0 && m & 1 == 0
  {
  }

  lemma BitOne(a: bv64)
    ensures a & 0 == 0 && (1 as bv64) >> 1 == 0
  {
  }

  lemma BitNone(a: bv64, m: bv64)
    requires a & (m | (m - 1)) == 0
    ensures a & m == 0 && a & (m - 1) == 0
  {
  }

  lemma KeptHalf(a: bv64, m: bv64, n: nat)
    requires n > 0 && Bit(m, n)
    ensures Kept(a, m) == a & (m | (m - 1)) && Kept(a, m >> 1) == a & (m - 1)
  {
    if m == 1 { BitOne(a); } else { BitHalf(m); }
  }

  lemma PickIs(a: bv64, m: bv64, b: bv64)
    ensures Has(a, m) <==> a & m != 0
    ensures Has(a, m) ==> Pick(a, m, b) == b
    ensures !Has(a, m) ==> Pick(a, m, b) == 0
  {
  }

  lemma BitParts(m: bv64, n: nat)
    requires n > 0 && Bit(m, n)
    ensures m & (m - 1) == 0 && m != 0 && (n == 1 <==> m == 1) && Bit(m >> 1, n - 1)
  {
  }

  lemma PickSelf(a: bv64, m: bv64)
    requires m & (m - 1) == 0
    ensures Pick(a, m, m) == a & m
  {
    hide *;
    PickIs(a, m, m);
    BitWhole(a, m);
  }

  lemma SplitXor(a: bv64, m: bv64)
    requires m & (m - 1) == 0
    ensures a & (m | (m - 1)) == Xor(a & m, a & (m - 1))
  {
    hide *;
    BitSplit(a, m);
    XorIs(a & m, a & (m - 1));
  }

  lemma KeptStep(a: bv64, m: bv64, n: nat)
    requires n > 0 && Bit(m, n)
    ensures Kept(a, m) == Xor(Pick(a, m, m), Kept(a, m >> 1))
  {
    hide *;
    BitParts(m, n);
    KeptHalf(a, m, n);
    PickSelf(a, m);
    SplitXor(a, m);
  }

  lemma KeptNone(a: bv64, m: bv64, n: nat)
    requires n > 0 && Bit(m, n) && Kept(a, m) == 0
    ensures !Has(a, m) && Kept(a, m >> 1) == 0
  {
    hide *;
    BitParts(m, n);
    KeptHalf(a, m, n);
    BitNone(a, m);
    PickIs(a, m, m);
  }

  lemma BitTimesX(m: bv64, n: nat)
    requires n > 1 && Bit(m, n)
    ensures S1(m) == m >> 1
  {
    hide *;
    BitParts(m, n);
    BitHalf(m);
    S1Is(m);
  }

  lemma NoneKept(a: bv64)
    ensures Kept(a, 0) == 0
  {
  }

  lemma BitEnd(m: bv64)
    requires Bit(m, 0)
    ensures m == 0
  {
  }

  /** One is neutral: what the coefficients of a choose among the powers of x is a itself. */
  lemma {:induction false} MulOneFrom(a: bv64, m: bv64, n: nat)
    requires n > 0 && Bit(m, n)
    ensures MulFrom(a, m, m, n) == Kept(a, m)
    decreases n
  {
    hide *;
    BitParts(m, n);
    KeptStep(a, m, n);
    MulStep(a, m, m, n);
    if n == 1 {
      MulStep(a, S1(m), m >> 1, 0);
      BitEnd(m >> 1);
      NoneKept(a);
    } else {
      BitTimesX(m, n);
      MulOneFrom(a, m >> 1, n - 1);
    }
  }

  lemma Bits8(n: nat)
    ensures n == 8 ==> Bit(0x80, n)
    ensures n == 16 && Bit(0x80, 8) ==> Bit(0x8000, n)
    ensures n == 24 && Bit(0x8000, 16) ==> Bit(0x80_0000, n)
    ensures n == 32 && Bit(0x80_0000, 24) ==> Bit(0x8000_0000, n)
  {
  }

  lemma Constants(a: bv64)
    requires Small(a)
    ensures Bit(ONE, 32) && Kept(a, ONE) == a && Small(ONE) && ONE == 0x8000_0000
  {
    assert a & 0xffff_ffff == a;
    Bits8(8);
    Bits8(16);
    Bits8(24);
    Bits8(32);
  }

  lemma MulOne(a: bv64)
    requires Small(a)
    ensures Mul(a, ONE) == a && Small(ONE)
  {
    hide *;
    Constants(a);
    MulOneFrom(a, ONE, 32);
    MulIs(a, ONE);
  }

  // ---------- the order of a product ----------

  lemma MulLinear(a: bv64, b: bv64, c: bv64)
    ensures Mul(a, Xor(b, c)) == Xor(Mul(a, b), Mul(a, c)) && Mul(a, S1(b)) == S1(Mul(a, b)) && Mul(a, 0) == 0
  {
    hide S1, Xor, MulFrom;
    MulRight(a, b, c, 0x8000_0000, 32);
    MulRightStep(a, b, 0x8000_0000, 32);
  }

  lemma PickMul(c: bv64, b: bv64, m: bv64, y: bv64)
    ensures Mul(c, Pick(b, m, y)) == Pick(b, m, Mul(c, y))
  {
    hide *;
    MulLinear(c, 0, 0);
    PickIs(b, m, y);
    PickIs(b, m, Mul(c, y));
  }

  lemma {:induction false} MulSwap(c: bv64, b: bv64, y: bv64, m: bv64, n: nat)
    ensures Mul(c, MulFrom(b, y, m, n)) == MulFrom(b, Mul(c, y), m, n)
    decreases n
  {
    hide *;
    MulLinear(c, Pick(b, m, y), MulFrom(b, S1(y), m >> 1, if n == 0 then 0 else n - 1));
    MulLinear(c, y, y);
    MulStep(b, y, m, n);
    MulStep(b, Mul(c, y), m, n);
    if n > 0 {
      MulSwap(c, b, S1(y), m >> 1, n - 1);
      PickMul(c, b, m, y);
    }
  }

  /** The product does not depend on the order. */
  lemma MulCommutes(a: bv64, b: bv64)
    requires Small(a) && Small(b)
    ensures Mul(a, b) == Mul(b, a)
  {
    hide *;
    MulOne(a);
    MulOne(b);
    MulSwap(a, b, ONE, 0x8000_0000, 32);
    MulIs(b, ONE);
    MulIs(b, a);
  }

  /** Multiplying by the n-th power of x, from either side, is n multiplications by x. */
  lemma MulPower(a: bv64, n: nat)
    requires Small(a)
    ensures Mul(a, Sn(ONE, n)) == Sn(a, n) && Mul(Sn(ONE, n), a) == Sn(a, n)
    ensures Small(Sn(ONE, n)) && Sn(ONE, n) != 0
  {
    hide *;
    OneSet();
    MulOne(a);
    SnSmall(ONE, n);
    MulRightMany(a, ONE, n);
    MulCommutes(a, Sn(ONE, n));
  }

  lemma OneSet()
    ensures ONE != 0
  {
  }

  // ---------- multmodp ----------

  lemma {:induction false} NothingBelow(a: bv64, b: bv64, m: bv64, n: nat)
    requires Bit(m, n) && Kept(a, m) == 0
    ensures MulFrom(a, b, m, n) == 0
    decreases n
  {
    hide *;
    MulStep(a, b, m, n);
    if n > 0 {
      BitParts(m, n);
      KeptNone(a, m, n);
      PickIs(a, m, b);
      NothingBelow(a, S1(b), m >> 1, n - 1);
      XorZero(0);
    }
  }

  /** The state of the loop: what is still to be added to p is the product from m on. */
  ghost predicate Owes(a: bv64, b0: bv64, p: bv64, b: bv64, m: bv64, n: nat) {
    n > 0 && Bit(m, n) && Kept(a, m) != 0 && Xor(p, MulFrom(a, b, m, n)) == Mul(a, b0)
  }

  lemma OwesAll(a: bv64, b: bv64)
    requires Small(a) && a != 0
    ensures Owes(a, b, 0, b, 0x8000_0000, 32)
  {
    hide *;
    Constants(a);
    MulIs(a, b);
    XorZero(MulFrom(a, b, 0x8000_0000, 32));
    OwesIs(a, b, 0, b, 0x8000_0000, 32);
  }

  lemma OwesIs(a: bv64, b0: bv64, p: bv64, b: bv64, m: bv64, n: nat)
    ensures Owes(a, b0, p, b, m, n) <==>
            n > 0 && Bit(m, n) && Kept(a, m) != 0 && Xor(p, MulFrom(a, b, m, n)) == Mul(a, b0)
  {
    hide Bit, Kept, Xor, MulFrom, Mul;
  }

  lemma PayBit(a: bv64, b0: bv64, p: bv64, b: bv64, m: bv64, n: nat)
    requires Owes(a, b0, p, b, m, n)
    ensures a & m != 0 ==> Xor(Xor(p, b), MulFrom(a, S1(b), m >> 1, n - 1)) == Mul(a, b0)
    ensures a & m == 0 ==> Xor(p, MulFrom(a, S1(b), m >> 1, n - 1)) == Mul(a, b0)
    ensures Bit(m >> 1, n - 1) && Kept(a, m >> 1) == a & (m - 1)
  {
    hide *;
    OwesIs(a, b0, p, b, m, n);
    BitParts(m, n);
    KeptHalf(a, m, n);
    MulStep(a, b, m, n);
    PickIs(a, m, b);
    XorAssoc(p, b, MulFrom(a, S1(b), m >> 1, n - 1));
    XorZero(MulFrom(a, S1(b), m >> 1, n - 1));
  }

  lemma PayLast(a: bv64, b0: bv64, p: bv64, b: bv64, m: bv64, n: nat)
    requires Owes(a, b0, p, b, m, n) && a & m != 0 && a & (m - 1) == 0
    ensures Xor(p, b) == Mul(a, b0)
  {
    hide *;
    OwesIs(a, b0, p, b, m, n);
    PayBit(a, b0, p, b, m, n);
    NothingBelow(a, S1(b), m >> 1, n - 1);
    XorZero(Xor(p, b));
  }

  lemma PayOn(a: bv64, b0: bv64, p: bv64, b: bv64, m: bv64, n: nat)
    requires Owes(a, b0, p, b, m, n) && (a & m == 0 || a & (m - 1) != 0)
    ensures n > 1
    ensures a & m != 0 ==> Owes(a, b0, Xor(p, b), S1(b), m >> 1, n - 1)
    ensures a & m == 0 ==> Owes(a, b0, p, S1(b), m >> 1, n - 1)
  {
    hide *;
    OwesIs(a, b0, p, b, m, n);
    OwesIs(a, b0, Xor(p, b), S1(b), m >> 1, n - 1);
    OwesIs(a, b0, p, S1(b), m >> 1, n - 1);
    PayBit(a, b0, p, b, m, n);
    KeptStep(a, m, n);
    PickIs(a, m, m);
    XorZero(Kept(a, m >> 1));
    if n == 1 {
      BitEnd(m >> 1);
      NoneKept(a);
    }
  }

  /** The product modulo the polynomial, for a first factor other than zero: with zero it would not end. */
  method MultModP(a: bv64, b0: bv64) returns (p: bv64)
    requires Small(a) && a != 0
    ensures p == Mul(a, b0)
  {
    hide *;
    var m: bv64, b := 0x8000_0000, b0;
    p := 0;
    ghost var n: nat := 32;
    OwesAll(a, b0);
    while true
      invariant Owes(a, b0, p, b, m, n)
      decreases n
    {
      ghost var was := p;
      XorIs(was, b);
      if a & m != 0 {
        p := p ^ b;
        if a & (m - 1) == 0 {
          PayLast(a, b0, was, b, m, n);
          break;
        }
      }
      PayOn(a, b0, was, b, m, n);
      m := m >> 1;
      S1Is(b);
      b := if b & 1 != 0 then (b >> 1) ^ 0xedb8_8320 else b >> 1;
      n := n - 1;
    }
  }
}

/** The table of the powers of x by powers of two, as shipped, and the function that multiplies from it. */
module CrcPowers {
  import opened CrcField
  import opened Powers

  // x2n_table, eight entries to a row
  const ROW0: seq<bv64> := [0x40000000, 0x20000000, 0x08000000, 0x00800000, 0x00008000, 0xedb88320, 0xb1e6b092, 0xa06a2517]
  const ROW1: seq<bv64> := [0xed627dae, 0x88d14467, 0xd7bbfe6a, 0xec447f11, 0x8e7ea170, 0x6427800e, 0x4d47bae0, 0x09fe548f]
  const ROW2: seq<bv64> := [0x83852d0f, 0x30362f1a, 0x7b5a9cc3, 0x31fec169, 0x9fec022a, 0x6c8dedc4, 0x15d6874d, 0x5fde7a4e]
  const ROW3: seq<bv64> := [0xbad90e37, 0x2e4e5eef, 0x4eaba214, 0xa8a472c0, 0x429a969e, 0x148d302a, 0xc40ba6d0, 0xc4e22c3c]

  function X2N(i: nat): bv64
    requires i < 32
  {
    if i < 8 then ROW0[i] else if i < 16 then ROW1[i - 8] else if i < 24 then ROW2[i - 16] else ROW3[i - 24]
  }

  // ---------- squaring adds up even powers ----------

  /** The sum of c, x^2 c, x^4 c and so on for the n coefficients of a from m down. */
  ghost function SquareFrom(a: bv64, c: bv64, m: bv64, n: nat): bv64
    decreases n
  {
    if n == 0 then 0 else Xor(Pick(a, m, c), SquareFrom(a, S1(S1(c)), m >> 1, n - 1))
  }

  lemma SquareStep(a: bv64, c: bv64, m: bv64, n: nat)
    ensures SquareFrom(a, c, m, n) == if n == 0 then 0 else Xor(Pick(a, m, c), SquareFrom(a, S1(S1(c)), m >> 1, n - 1))
  {
    hide S1, Xor, Pick;
  }

  /** The two mixed products of a sum's square cancel. */
  lemma SquareSum(a: bv64, b: bv64)
    requires Small(a) && Small(b) && Small(Xor(a, b))
    ensures Mul(Xor(a, b), Xor(a, b)) == Xor(Mul(a, a), Mul(b, b))
  {
    hide *;
    MulLinear(Xor(a, b), a, b);
    MulCommutes(Xor(a, b), a);
    MulCommutes(Xor(a, b), b);
    MulLinear(a, a, b);
    MulLinear(b, a, b);
    MulCommutes(a, b);
    XorSwap(Mul(b, a), Mul(b, b));
    XorPairs(Mul(a, a), Mul(a, b), Mul(b, b), Mul(b, a));
    XorZero(Mul(a, b));
    XorZero(Xor(Mul(a, a), Mul(b, b)));
  }

  lemma SquareTimesX(m: bv64)
    requires Small(m) && Small(S1(m))
    ensures Mul(S1(m), S1(m)) == S1(S1(Mul(m, m)))
  {
    hide *;
    MulLinear(S1(m), m, m);
    MulCommutes(S1(m), m);
    MulLinear(m, m, m);
  }

  lemma KeptSmall(a: bv64, m: bv64)
    requires Small(a) && Small(m)
    ensures Small(Kept(a, m)) && Small(m >> 1)
  {
  }

  lemma PickSquare(a: bv64, m: bv64)
    requires Small(m)
    ensures Small(Pick(a, m, m)) && Mul(Pick(a, m, m), Pick(a, m, m)) == Pick(a, m, Mul(m, m))
  {
    hide *;
    PickIs(a, m, m);
    PickIs(a, m, Mul(m, m));
    MulLinear(0, 0, 0);
    ZeroSmall();
  }

  lemma ZeroSmall()
    ensures Small(0)
  {
  }

  lemma {:induction false} SquareKept(a: bv64, m: bv64, n: nat)
    requires Small(a) && Small(m) && n > 0 && Bit(m, n)
    ensures Mul(Kept(a, m), Kept(a, m)) == SquareFrom(a, Mul(m, m), m, n)
    decreases n
  {
    hide *;
    BitParts(m, n);
    KeptStep(a, m, n);
    KeptSmall(a, m);
    KeptSmall(a, m >> 1);
    PickSquare(a, m);
    SquareSum(Pick(a, m, m), Kept(a, m >> 1));
    SquareStep(a, Mul(m, m), m, n);
    if n == 1 {
      BitEnd(m >> 1);
      NoneKept(a);
      MulLinear(0, 0, 0);
      SquareStep(a, S1(S1(Mul(m, m))), m >> 1, 0);
    } else {
      BitTimesX(m, n);
      SquareTimesX(m);
      SquareKept(a, m >> 1, n - 1);
    }
  }

  // ---------- the even powers are constants ----------

  lemma SquareLink(a: bv64, m: bv64, n: nat, c: bv64, m1: bv64, c1: bv64)
    requires n >= 1 && S1(S1(c)) == c1 && m1 == m >> 1
    ensures SquareFrom(a, c, m, n) == Xor(Pick(a, m, c), SquareFrom(a, c1, m1, n - 1))
  {
    hide *;
    SquareStep(a, c, m, n);
  }

  lemma SquareTwo(a: bv64, n: nat, m: bv64, m1: bv64, m2: bv64, c: bv64, c1: bv64, c2: bv64)
    requires n >= 2 && S1(S1(c)) == c1 && S1(S1(c1)) == c2 && m1 == m >> 1 && m2 == m1 >> 1
    ensures SquareFrom(a, c, m, n) == Xor(Pick(a, m, c), Xor(Pick(a, m1, c1), SquareFrom(a, c2, m2, n - 2)))
  {
    hide *;
    SquareLink(a, m, n, c, m1, c1);
    SquareLink(a, m1, n - 1, c1, m2, c2);
  }

  /** Two coefficients of a, and the even powers they choose. */
  function Pair(a: bv64, m: bv64, m1: bv64, c: bv64, c1: bv64): bv64 {
    (if a & m != 0 then c else 0) ^ (if a & m1 != 0 then c1 else 0)
  }

  lemma PickUnfold(a: bv64, m: bv64, b: bv64)
    ensures Pick(a, m, b) == if a & m != 0 then b else 0
  {
  }

  lemma PairUnfold(a: bv64, m: bv64, m1: bv64, c: bv64, c1: bv64)
    ensures Pair(a, m, m1, c, c1) == Xor(if a & m != 0 then c else 0, if a & m1 != 0 then c1 else 0)
  {
  }

  lemma PairIs(a: bv64, m: bv64, m1: bv64, c: bv64, c1: bv64)
    ensures Pair(a, m, m1, c, c1) == Xor(Pick(a, m, c), Pick(a, m1, c1))
  {
    hide *;
    PairUnfold(a, m, m1, c, c1);
    PickUnfold(a, m, c);
    PickUnfold(a, m1, c1);
  }

  lemma SquarePair(a: bv64, n: nat, m: bv64, m1: bv64, m2: bv64, c: bv64, c1: bv64, c2: bv64)
    requires n >= 2 && S1(S1(c)) == c1 && S1(S1(c1)) == c2 && m1 == m >> 1 && m2 == m1 >> 1
    ensures SquareFrom(a, c, m, n) == Xor(Pair(a, m, m1, c, c1), SquareFrom(a, c2, m2, n - 2))
  {
    hide *;
    SquareTwo(a, n, m, m1, m2, c, c1, c2);
    PairIs(a, m, m1, c, c1);
    XorAssoc(Pick(a, m, c), Pick(a, m1, c1), SquareFrom(a, c2, m2, n - 2));
  }

  lemma XorFour(p: bv64, q: bv64, r: bv64, s: bv64, t: bv64)
    ensures Xor(p, Xor(q, Xor(r, Xor(s, t)))) == Xor(Xor(Xor(p, q), Xor(r, s)), t)
  {
    hide *;
    XorAssoc(r, s, t);
    XorAssoc(q, Xor(r, s), t);
    XorAssoc(p, Xor(q, Xor(r, s)), t);
    XorAssoc(p, q, Xor(r, s));
  }

  function Quarter0(a: bv64): bv64 {
    (Pair(a, 0x80000000, 0x40000000, 0x80000000, 0x20000000) ^ Pair(a, 0x20000000, 0x10000000, 0x8000000, 0x2000000)) ^
    (Pair(a, 0x8000000, 0x4000000, 0x800000, 0x200000) ^ Pair(a, 0x2000000, 0x1000000, 0x80000, 0x20000))
  }

  function Quarter1(a: bv64): bv64 {
    (Pair(a, 0x800000, 0x400000, 0x8000, 0x2000) ^ Pair(a, 0x200000, 0x100000, 0x800, 0x200)) ^
    (Pair(a, 0x80000, 0x40000, 0x80, 0x20) ^ Pair(a, 0x20000, 0x10000, 0x8, 0x2))
  }

  function Quarter2(a: bv64): bv64 {
    (Pair(a, 0x8000, 0x4000, 0xedb88320, 0x3b6e20c8) ^ Pair(a, 0x2000, 0x1000, 0xedb8832, 0xee0e612c)) ^
    (Pair(a, 0x800, 0x400, 0x3b83984b, 0x958424a2) ^ Pair(a, 0x200, 0x100, 0xc8d98a08, 0x32366282))
  }

  function Quarter3(a: bv64): bv64 {
    (Pair(a, 0x80, 0x40, 0xe1351b80, 0x384d46e0) ^ Pair(a, 0x20, 0x10, 0xe1351b8, 0x384d46e)) ^
    (Pair(a, 0x8, 0x4, 0xed59b63b, 0xa032af3e) ^ Pair(a, 0x2, 0x1, 0xc5b428ef, 0xaa09c88b))
  }

  /** The square as a sum of constants, the even powers of x. */
  function Square(a: bv64): bv64 { (Quarter0(a) ^ Quarter1(a)) ^ (Quarter2(a) ^ Quarter3(a)) }

  lemma Quarter0Is(a: bv64)
    ensures Quarter0(a) == Xor(Xor(Pair(a, 0x80000000, 0x40000000, 0x80000000, 0x20000000), Pair(a, 0x20000000, 0x10000000, 0x8000000, 0x2000000)), Xor(Pair(a, 0x8000000, 0x4000000, 0x800000, 0x200000), Pair(a, 0x2000000, 0x1000000, 0x80000, 0x20000)))
  {
    hide Pair;
  }

  lemma Quarter1Is(a: bv64)
    ensures Quarter1(a) == Xor(Xor(Pair(a, 0x800000, 0x400000, 0x8000, 0x2000), Pair(a, 0x200000, 0x100000, 0x800, 0x200)), Xor(Pair(a, 0x80000, 0x40000, 0x80, 0x20), Pair(a, 0x20000, 0x10000, 0x8, 0x2)))
  {
    hide Pair;
  }

  lemma Quarter2Is(a: bv64)
    ensures Quarter2(a) == Xor(Xor(Pair(a, 0x8000, 0x4000, 0xedb88320, 0x3b6e20c8), Pair(a, 0x2000, 0x1000, 0xedb8832, 0xee0e612c)), Xor(Pair(a, 0x800, 0x400, 0x3b83984b, 0x958424a2), Pair(a, 0x200, 0x100, 0xc8d98a08, 0x32366282)))
  {
    hide Pair;
  }

  lemma Quarter3Is(a: bv64)
    ensures Quarter3(a) == Xor(Xor(Pair(a, 0x80, 0x40, 0xe1351b80, 0x384d46e0), Pair(a, 0x20, 0x10, 0xe1351b8, 0x384d46e)), Xor(Pair(a, 0x8, 0x4, 0xed59b63b, 0xa032af3e), Pair(a, 0x2, 0x1, 0xc5b428ef, 0xaa09c88b)))
  {
    hide Pair;
  }

  lemma SquareParts(a: bv64)
    ensures Square(a) == Xor(Xor(Quarter0(a), Quarter1(a)), Xor(Quarter2(a), Quarter3(a)))
  {
    hide Quarter0, Quarter1, Quarter2, Quarter3;
  }

  lemma EvenPowers0()
    ensures S1(S1(0x80000000)) == 0x20000000 && S1(S1(0x20000000)) == 0x8000000 && S1(S1(0x8000000)) == 0x2000000 && S1(S1(0x2000000)) == 0x800000
    ensures S1(S1(0x800000)) == 0x200000 && S1(S1(0x200000)) == 0x80000 && S1(S1(0x80000)) == 0x20000 && S1(S1(0x20000)) == 0x8000
  {
    hide *;
    S1Is(0x80000000);
    S1Is(0x40000000);
    S1Is(0x20000000);
    S1Is(0x10000000);
    S1Is(0x8000000);
    S1Is(0x4000000);
    S1Is(0x2000000);
    S1Is(0x1000000);
    S1Is(0x800000);
    S1Is(0x400000);
    S1Is(0x200000);
    S1Is(0x100000);
    S1Is(0x80000);
    S1Is(0x40000);
    S1Is(0x20000);
    S1Is(0x10000);
  }

  lemma EvenPowers1()
    ensures S1(S1(0x8000)) == 0x2000 && S1(S1(0x2000)) == 0x800 && S1(S1(0x800)) == 0x200 && S1(S1(0x200)) == 0x80
    ensures S1(S1(0x80)) == 0x20 && S1(S1(0x20)) == 0x8 && S1(S1(0x8)) == 0x2 && S1(S1(0x2)) == 0xedb88320
  {
    hide *;
    S1Is(0x8000);
    S1Is(0x4000);
    S1Is(0x2000);
    S1Is(0x1000);
    S1Is(0x800);
    S1Is(0x400);
    S1Is(0x200);
    S1Is(0x100);
    S1Is(0x80);
    S1Is(0x40);
    S1Is(0x20);
    S1Is(0x10);
    S1Is(0x8);
    S1Is(0x4);
    S1Is(0x2);
    S1Is(0x1);
  }

  lemma EvenPowers2()
    ensures S1(S1(0xedb88320)) == 0x3b6e20c8 && S1(S1(0x3b6e20c8)) == 0xedb8832 && S1(S1(0xedb8832)) == 0xee0e612c && S1(S1(0xee0e612c)) == 0x3b83984b
    ensures S1(S1(0x3b83984b)) == 0x958424a2 && S1(S1(0x958424a2)) == 0xc8d98a08 && S1(S1(0xc8d98a08)) == 0x32366282 && S1(S1(0x32366282)) == 0xe1351b80
  {
    hide *;
    S1Is(0xedb88320);
    S1Is(0x76dc4190);
    S1Is(0x3b6e20c8);
    S1Is(0x1db71064);
    S1Is(0xedb8832);
    S1Is(0x76dc419);
    S1Is(0xee0e612c);
    S1Is(0x77073096);
    S1Is(0x3b83984b);
    S1Is(0xf0794f05);
    S1Is(0x958424a2);
    S1Is(0x4ac21251);
    S1Is(0xc8d98a08);
    S1Is(0x646cc504);
    S1Is(0x32366282);
    S1Is(0x191b3141);
  }

  lemma EvenPowers3()
    ensures S1(S1(0xe1351b80)) == 0x384d46e0 && S1(S1(0x384d46e0)) == 0xe1351b8 && S1(S1(0xe1351b8)) == 0x384d46e && S1(S1(0x384d46e)) == 0xed59b63b
    ensures S1(S1(0xed59b63b)) == 0xa032af3e && S1(S1(0xa032af3e)) == 0xc5b428ef && S1(S1(0xc5b428ef)) == 0xaa09c88b && S1(S1(0xaa09c88b)) == 0xb1e6b092
  {
    hide *;
    S1Is(0xe1351b80);
    S1Is(0x709a8dc0);
    S1Is(0x384d46e0);
    S1Is(0x1c26a370);
    S1Is(0xe1351b8);
    S1Is(0x709a8dc);
    S1Is(0x384d46e);
    S1Is(0x1c26a37);
    S1Is(0xed59b63b);
    S1Is(0x9b14583d);
    S1Is(0xa032af3e);
    S1Is(0x5019579f);
    S1Is(0xc5b428ef);
    S1Is(0x8f629757);
    S1Is(0xaa09c88b);
    S1Is(0xb8bc6765);
  }

  lemma SquareQuarter0(a: bv64)
    ensures SquareFrom(a, 0x80000000, 0x80000000, 32) == Xor(Quarter0(a), SquareFrom(a, 0x8000, 0x800000, 24))
  {
    hide *;
    EvenPowers0();
    Quarter0Is(a);
    SquarePair(a, 32, 0x80000000, 0x40000000, 0x20000000, 0x80000000, 0x20000000, 0x8000000);
    SquarePair(a, 30, 0x20000000, 0x10000000, 0x8000000, 0x8000000, 0x2000000, 0x800000);
    SquarePair(a, 28, 0x8000000, 0x4000000, 0x2000000, 0x800000, 0x200000, 0x80000);
    SquarePair(a, 26, 0x2000000, 0x1000000, 0x800000, 0x80000, 0x20000, 0x8000);
    XorFour(Pair(a, 0x80000000, 0x40000000, 0x80000000, 0x20000000), Pair(a, 0x20000000, 0x10000000, 0x8000000, 0x2000000), Pair(a, 0x8000000, 0x4000000, 0x800000, 0x200000), Pair(a, 0x2000000, 0x1000000, 0x80000, 0x20000),
            SquareFrom(a, 0x8000, 0x800000, 24));
  }

  lemma SquareQuarter1(a: bv64)
    ensures SquareFrom(a, 0x8000, 0x800000, 24) == Xor(Quarter1(a), SquareFrom(a, 0xedb88320, 0x8000, 16))
  {
    hide *;
    EvenPowers1();
    Quarter1Is(a);
    SquarePair(a, 24, 0x800000, 0x400000, 0x200000, 0x8000, 0x2000, 0x800);
    SquarePair(a, 22, 0x200000, 0x100000, 0x80000, 0x800, 0x200, 0x80);
    SquarePair(a, 20, 0x80000, 0x40000, 0x20000, 0x80, 0x20, 0x8);
    SquarePair(a, 18, 0x20000, 0x10000, 0x8000, 0x8, 0x2, 0xedb88320);
    XorFour(Pair(a, 0x800000, 0x400000, 0x8000, 0x2000), Pair(a, 0x200000, 0x100000, 0x800, 0x200), Pair(a, 0x80000, 0x40000, 0x80, 0x20), Pair(a, 0x20000, 0x10000, 0x8, 0x2),
            SquareFrom(a, 0xedb88320, 0x8000, 16));
  }

  lemma SquareQuarter2(a: bv64)
    ensures SquareFrom(a, 0xedb88320, 0x8000, 16) == Xor(Quarter2(a), SquareFrom(a, 0xe1351b80, 0x80, 8))
  {
    hide *;
    EvenPowers2();
    Quarter2Is(a);
    SquarePair(a, 16, 0x8000, 0x4000, 0x2000, 0xedb88320, 0x3b6e20c8, 0xedb8832);
    SquarePair(a, 14, 0x2000, 0x1000, 0x800, 0xedb8832, 0xee0e612c, 0x3b83984b);
    SquarePair(a, 12, 0x800, 0x400, 0x200, 0x3b83984b, 0x958424a2, 0xc8d98a08);
    SquarePair(a, 10, 0x200, 0x100, 0x80, 0xc8d98a08, 0x32366282, 0xe1351b80);
    XorFour(Pair(a, 0x8000, 0x4000, 0xedb88320, 0x3b6e20c8), Pair(a, 0x2000, 0x1000, 0xedb8832, 0xee0e612c), Pair(a, 0x800, 0x400, 0x3b83984b, 0x958424a2), Pair(a, 0x200, 0x100, 0xc8d98a08, 0x32366282),
            SquareFrom(a, 0xe1351b80, 0x80, 8));
  }

  lemma SquareQuarter3(a: bv64)
    ensures SquareFrom(a, 0xe1351b80, 0x80, 8) == Xor(Quarter3(a), SquareFrom(a, 0xb1e6b092, 0x0, 0))
  {
    hide *;
    EvenPowers3();
    Quarter3Is(a);
    SquarePair(a, 8, 0x80, 0x40, 0x20, 0xe1351b80, 0x384d46e0, 0xe1351b8);
    SquarePair(a, 6, 0x20, 0x10, 0x8, 0xe1351b8, 0x384d46e, 0xed59b63b);
    SquarePair(a, 4, 0x8, 0x4, 0x2, 0xed59b63b, 0xa032af3e, 0xc5b428ef);
    SquarePair(a, 2, 0x2, 0x1, 0x0, 0xc5b428ef, 0xaa09c88b, 0xb1e6b092);
    XorFour(Pair(a, 0x80, 0x40, 0xe1351b80, 0x384d46e0), Pair(a, 0x20, 0x10, 0xe1351b8, 0x384d46e), Pair(a, 0x8, 0x4, 0xed59b63b, 0xa032af3e), Pair(a, 0x2, 0x1, 0xc5b428ef, 0xaa09c88b),
            SquareFrom(a, 0xb1e6b092, 0x0, 0));
  }

  lemma SquareWhole(a: bv64)
    ensures SquareFrom(a, 0x8000_0000, 0x8000_0000, 32) == Square(a)
  {
    hide *;
    SquareQuarter0(a);
    SquareQuarter1(a);
    SquareQuarter2(a);
    SquareQuarter3(a);
    SquareStep(a, 0xb1e6b092, 0, 0);
    SquareParts(a);
    XorFour(Quarter0(a), Quarter1(a), Quarter2(a), Quarter3(a), 0);
    XorZero(Square(a));
  }

  lemma SquareIs(a: bv64)
    requires Small(a)
    ensures Mul(a, a) == Square(a)
  {
    hide *;
    Constants(a);
    SquareKept(a, ONE, 32);
    MulOne(ONE);
    SquareWhole(a);
  }

  lemma Square0()
    ensures Square(0x40000000) == 0x20000000
  {
  }

  lemma Square1()
    ensures Square(0x20000000) == 0x08000000
  {
  }

  lemma Square2()
    ensures Square(0x08000000) == 0x00800000
  {
  }

  lemma Square3()
    ensures Square(0x00800000) == 0x00008000
  {
  }

  lemma Square4()
    ensures Square(0x00008000) == 0xedb88320
  {
  }

  lemma Square5()
    ensures Square(0xedb88320) == 0xb1e6b092
  {
  }

  lemma Square6()
    ensures Square(0xb1e6b092) == 0xa06a2517
  {
  }

  lemma Square7()
    ensures Square(0xa06a2517) == 0xed627dae
  {
  }

  lemma Square8()
    ensures Square(0xed627dae) == 0x88d14467
  {
  }

  lemma Square9()
    ensures Square(0x88d14467) == 0xd7bbfe6a
  {
  }

  lemma Square10()
    ensures Square(0xd7bbfe6a) == 0xec447f11
  {
  }

  lemma Square11()
    ensures Square(0xec447f11) == 0x8e7ea170
  {
  }

  lemma Square12()
    ensures Square(0x8e7ea170) == 0x6427800e
  {
  }

  lemma Square13()
    ensures Square(0x6427800e) == 0x4d47bae0
  {
  }

  lemma Square14()
    ensures Square(0x4d47bae0) == 0x09fe548f
  {
  }

  lemma Square15()
    ensures Square(0x09fe548f) == 0x83852d0f
  {
  }

  lemma Square16()
    ensures Square(0x83852d0f) == 0x30362f1a
  {
  }

  lemma Square17()
    ensures Square(0x30362f1a) == 0x7b5a9cc3
  {
  }

  lemma Square18()
    ensures Square(0x7b5a9cc3) == 0x31fec169
  {
  }

  lemma Square19()
    ensures Square(0x31fec169) == 0x9fec022a
  {
  }

  lemma Square20()
    ensures Square(0x9fec022a) == 0x6c8dedc4
  {
  }

  lemma Square21()
    ensures Square(0x6c8dedc4) == 0x15d6874d
  {
  }

  lemma Square22()
    ensures Square(0x15d6874d) == 0x5fde7a4e
  {
  }

  lemma Square23()
    ensures Square(0x5fde7a4e) == 0xbad90e37
  {
  }

  lemma Square24()
    ensures Square(0xbad90e37) == 0x2e4e5eef
  {
  }

  lemma Square25()
    ensures Square(0x2e4e5eef) == 0x4eaba214
  {
  }

  lemma Square26()
    ensures Square(0x4eaba214) == 0xa8a472c0
  {
  }

  lemma Square27()
    ensures Square(0xa8a472c0) == 0x429a969e
  {
  }

  lemma Square28()
    ensures Square(0x429a969e) == 0x148d302a
  {
  }

  lemma Square29()
    ensures Square(0x148d302a) == 0xc40ba6d0
  {
  }

  lemma Square30()
    ensures Square(0xc40ba6d0) == 0xc4e22c3c
  {
  }

  lemma Square31()
    ensures Square(0xc4e22c3c) == 0x40000000
  {
  }

  // ---------- the table ----------

  lemma Entries0()
    ensures ROW0[0] == 0x40000000 && ROW0[1] == 0x20000000 && ROW0[2] == 0x08000000 && ROW0[3] == 0x00800000 && ROW0[4] == 0x00008000 && ROW0[5] == 0xedb88320 && ROW0[6] == 0xb1e6b092 && ROW0[7] == 0xa06a2517
    ensures |ROW0| == 8 && |ROW1| == 8 && ROW1[0] == 0xed627dae
  {
  }

  lemma Entries1()
    ensures ROW1[0] == 0xed627dae && ROW1[1] == 0x88d14467 && ROW1[2] == 0xd7bbfe6a && ROW1[3] == 0xec447f11 && ROW1[4] == 0x8e7ea170 && ROW1[5] == 0x6427800e && ROW1[6] == 0x4d47bae0 && ROW1[7] == 0x09fe548f
    ensures |ROW1| == 8 && |ROW2| == 8 && ROW2[0] == 0x83852d0f
  {
  }

  lemma Entries2()
    ensures ROW2[0] == 0x83852d0f && ROW2[1] == 0x30362f1a && ROW2[2] == 0x7b5a9cc3 && ROW2[3] == 0x31fec169 && ROW2[4] == 0x9fec022a && ROW2[5] == 0x6c8dedc4 && ROW2[6] == 0x15d6874d && ROW2[7] == 0x5fde7a4e
    ensures |ROW2| == 8 && |ROW3| == 8 && ROW3[0] == 0xbad90e37
  {
  }

  lemma Entries3()
    ensures ROW3[0] == 0xbad90e37 && ROW3[1] == 0x2e4e5eef && ROW3[2] == 0x4eaba214 && ROW3[3] == 0xa8a472c0 && ROW3[4] == 0x429a969e && ROW3[5] == 0x148d302a && ROW3[6] == 0xc40ba6d0 && ROW3[7] == 0xc4e22c3c
    ensures |ROW3| == 8 && |ROW0| == 8 && ROW0[0] == 0x40000000
  {
  }

  lemma Row0(i: nat)
    requires i < 8
    ensures i < 7 ==> Square(ROW0[i]) == ROW0[i + 1]
    ensures i == 7 ==> Square(ROW0[i]) == ROW1[0]
  {
    hide *;
    Entries0();
    Square0();
    Square1();
    Square2();
    Square3();
    Square4();
    Square5();
    Square6();
    Square7();
  }

  lemma Row1(i: nat)
    requires i < 8
    ensures i < 7 ==> Square(ROW1[i]) == ROW1[i + 1]
    ensures i == 7 ==> Square(ROW1[i]) == ROW2[0]
  {
    hide *;
    Entries1();
    Square8();
    Square9();
    Square10();
    Square11();
    Square12();
    Square13();
    Square14();
    Square15();
  }

  lemma Row2(i: nat)
    requires i < 8
    ensures i < 7 ==> Square(ROW2[i]) == ROW2[i + 1]
    ensures i == 7 ==> Square(ROW2[i]) == ROW3[0]
  {
    hide *;
    Entries2();
    Square16();
    Square17();
    Square18();
    Square19();
    Square20();
    Square21();
    Square22();
    Square23();
  }

  lemma Row3(i: nat)
    requires i < 8
    ensures i < 7 ==> Square(ROW3[i]) == ROW3[i + 1]
    ensures i == 7 ==> Square(ROW3[i]) == ROW0[0]
  {
    hide *;
    Entries3();
    Square24();
    Square25();
    Square26();
    Square27();
    Square28();
    Square29();
    Square30();
    Square31();
  }

  lemma X2NIs(i: nat)
    requires i < 32
    ensures X2N(i) == if i < 8 then ROW0[i] else if i < 16 then ROW1[i - 8] else if i < 24 then ROW2[i - 16] else ROW3[i - 24]
  {
  }

  /** Each entry of the shipped table is the square of the one before it, and the first of the last. */
  lemma TableSquares(i: nat)
    requires i < 32
    ensures Square(X2N(i)) == X2N((i + 1) % 32)
  {
    hide *;
    X2NIs(i);
    X2NIs((i + 1) % 32);
    if i < 8 { Row0(i); } else if i < 16 { Row1(i - 8); } else if i < 24 { Row2(i - 16); } else { Row3(i - 24); }
  }

  lemma SquareOfPower(k: nat)
    ensures Sn(ONE, Pow2(k + 1)) == Square(Sn(ONE, Pow2(k))) && Small(Sn(ONE, Pow2(k))) && Sn(ONE, Pow2(k)) != 0
  {
    hide Square, Sn, Mul, Small;
    Start();
    MulPower(ONE, Pow2(k));
    MulPower(Sn(ONE, Pow2(k)), Pow2(k));
    SnAdd(ONE, Pow2(k), Pow2(k));
    SquareIs(Sn(ONE, Pow2(k)));
  }

  /** The shipped table: entry i is x to the power 2^i. */
  lemma {:induction false} ShippedPowers(i: nat)
    requires i < 32
    ensures X2N(i) == Sn(ONE, Pow2(i)) && Small(X2N(i)) && X2N(i) != 0
  {
    hide Square, X2N, Sn, Small;
    SquareOfPower(i);
    if i == 0 {
      FirstPower();
    } else {
      ShippedPowers(i - 1);
      TableSquares(i - 1);
      SquareOfPower(i - 1);
    }
  }

  lemma FirstPower()
    ensures X2N(0) == Sn(ONE, Pow2(0))
  {
    assert S1(0x8000_0000) == 0x4000_0000;
    assert Sn(0x8000_0000, 1) == S1(0x8000_0000);
  }

  // ---------- the powers repeat ----------

  lemma FirstDouble()
    ensures Pow2(0) == 1
  {
  }

  /** x^(2^32) is x. */
  lemma PowersRepeat()
    ensures Sn(ONE, Pow2(32)) == Sn(ONE, 1)
  {
    FirstDouble();
    hide *;
    ShippedPowers(31);
    SquareOfPower(31);
    TableSquares(31);
    ShippedPowers(0);
  }

  lemma RepeatAny(a: bv64)
    requires Small(a)
    ensures Sn(a, Pow2(32)) == S1(a)
  {
    assert Sn(a, 1) == S1(a);
    hide Sn, Mul, S1, Small;
    PowersRepeat();
    MulPower(a, Pow2(32));
    MulPower(a, 1);
  }

  lemma {:induction false} RepeatMany(a: bv64, q: nat)
    requires Small(a)
    ensures Sn(a, Pow2(32) * q) == Sn(a, q)
    decreases q
  {
    hide *;
    Peel(Pow2(32), q);
    OneMore(a, q);
    if q > 0 {
      RepeatAny(a);
      S1Small(a);
      RepeatMany(S1(a), q - 1);
      SnAdd(a, Pow2(32), Pow2(32) * (q - 1));
    }
  }

  lemma Peel(p: nat, q: nat)
    ensures q > 0 ==> p * q == p + p * (q - 1)
    ensures q == 0 ==> p * q == 0
  {
  }

  lemma OneMore(a: bv64, q: nat)
    ensures Sn(a, q) == if q == 0 then a else Sn(S1(a), q - 1)
  {
    hide S1;
  }

  /** Why the source may reduce the exponent of two modulo 32. */
  lemma {:induction false} PowerWraps(a: bv64, k: nat)
    requires Small(a)
    ensures Sn(a, Pow2(k)) == Sn(a, Pow2(k % 32))
    decreases k
  {
    hide *;
    if k >= 32 {
      PowerWraps(a, k - 32);
      RepeatMany(a, Pow2(k - 32));
      Pow2Add(32, k - 32);
      WrapMod(k);
    } else {
      InRange(k);
    }
  }

  lemma InRange(k: nat)
    requires k < 32
    ensures k % 32 == k
  {
  }

  lemma WrapMod(k: nat)
    requires k >= 32
    ensures k % 32 == (k - 32) % 32
  {
  }

  // ---------- x2nmodp ----------

  lemma Doubling(n: nat, k: nat)
    ensures n * Pow2(k) == (n / 2) * Pow2(k + 1) + (if n % 2 == 1 then Pow2(k) else 0)
  {
    assert n == 2 * (n / 2) + n % 2;
    Spread(n / 2, n % 2, Pow2(k));
  }

  lemma Spread(q: nat, r: nat, p: nat)
    ensures (2 * q + r) * p == q * (2 * p) + r * p
  {
  }

  /** x to the power n 2^k. */
  method X2NModP(n0: nat, k0: nat) returns (p: bv64)
    ensures p == Sn(ONE, n0 * Pow2(k0)) && Small(p) && p != 0
  {
    hide *;
    p := 0x8000_0000;
    var n: nat, k: nat := n0, k0;
    Start();
    while n != 0
      invariant Small(p) && p != 0 && Sn(p, n * Pow2(k)) == Sn(ONE, n0 * Pow2(k0))
    {
      Doubling(n, k);
      if n % 2 == 1 {
        ghost var was := p;
        Multiply(was, k);
        SnAdd(was, Pow2(k), (n / 2) * Pow2(k + 1));
        p := MultModP(X2N(k % 32), p);
      }
      n := n / 2;
      k := k + 1;
    }
    assert n * Pow2(k) == 0;
    None(p);
  }

  lemma Multiply(p: bv64, k: nat)
    requires Small(p)
    ensures Mul(X2N(k % 32), p) == Sn(p, Pow2(k)) && Small(X2N(k % 32)) && X2N(k % 32) != 0
    ensures Small(Sn(p, Pow2(k))) && (p != 0 ==> Sn(p, Pow2(k)) != 0)
  {
    hide *;
    ShippedPowers(k % 32);
    MulPower(p, Pow2(k % 32));
    PowerWraps(p, k);
    SnSmall(p, Pow2(k));
  }

  lemma Start()
    ensures ONE == 0x8000_0000 && Small(ONE) && ONE != 0
  {
  }

  lemma None(p: bv64)
    ensures Sn(p, 0) == p
  {
  }
}

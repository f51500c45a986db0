/** engine::distance: the number of steps from one state to another, found bit by bit from below. */
module LcgDistance {
  import opened Powers
  import opened Lcg
  import opened LcgJumps

  /** Generators of full period: increment odd and multiplier one modulo four; or no increment, multiplier
      five modulo eight and an odd state. */
  ghost predicate FullPeriod(x: nat, a: nat, c: nat) {
    if c == 0 then a % 8 == 5 && x % 2 == 1 else a % 4 == 1 && c % 2 == 1
  }

  /** The shipped multipliers of 8, 16, 32, 64 and 128 bits, and the cheaper one for 128 bits: five modulo eight, so any odd increment, or none with
      an odd state, gives the full period. */
  lemma Shipped(x: nat, a: nat, c: nat)
    requires a in {141, 12829, 747796405, 6364136223846793005, 0xda94_2042_e4dd_58b5,
                   2549297995355413924 * 0x1_0000_0000_0000_0000 + 4865540595714422341}
    requires if c == 0 then x % 2 == 1 else c % 2 == 1
    ensures FullPeriod(x, a, c)
  {
    FiveModEight(a);
  }

  lemma FiveModEight(a: nat)
    requires a in {141, 12829, 747796405, 6364136223846793005, 0xda94_2042_e4dd_58b5,
                   2549297995355413924 * 0x1_0000_0000_0000_0000 + 4865540595714422341}
    ensures a % 8 == 5 && a % 4 == 1
  {
  }

  /** The lowest bit that moves. */
  function Fixed(c: nat): nat {
    if c == 0 then 2 else 0
  }

  /** The generator squared j times, modulo 2^w. */
  ghost predicate Form(c0: nat, b: nat, d: nat, j: nat, w: nat) {
    if c0 == 0 then d == 0 && Has(b, j + 3, 1 + Pow2(j + 2))
    else Has(b, j + 1, 1) && (j + 2 <= w ==> Has(b, j + 2, 1)) && Has(d, j + 1, Pow2(j))
  }

  lemma Powers3(j: nat, p: nat)
    requires p == Pow2(j)
    ensures Pow2(j + 1) == 2 * p && Pow2(j + 2) == 4 * p && Pow2(j + 3) == 8 * p && Pow2(j + 4) == 16 * p
  {
  }

  lemma FormFirst(a: nat, c: nat, w: nat)
    requires if c == 0 then a % 8 == 5 else a % 4 == 1 && c % 2 == 1
    ensures Form(c, a, c, 0, w)
  {
    Powers3(0, 1);
    hide Pow2;
    if c != 0 { OneOdd(a); }
  }

  lemma {:induction false} FormAt(a: nat, c: nat, j: nat, w: nat, m: nat)
    requires j + Fixed(c) < w && m == Pow2(w) && if c == 0 then a % 8 == 5 else a % 4 == 1 && c % 2 == 1
    ensures Form(c, MultAt(a, j, m), PlusAt(a, c, j, m), j, w)
    decreases j
  {
    hide Form, Pow2;
    if j == 0 {
      FormFirst(a, c, w);
    } else {
      FormAt(a, c, j - 1, w, m);
      var b, d := MultAt(a, j - 1, m), PlusAt(a, c, j - 1, m);
      if c == 0 { FormOnMcg(b, d, j - 1, w, Pow2(j - 1), c); } else { FormOn(b, d, j - 1, w, Pow2(j - 1), c); }
    }
  }

  lemma FormOn(b: nat, d: nat, j: nat, w: nat, p: nat, c: nat)
    requires c != 0 && Form(c, b, d, j, w) && p == Pow2(j) && j + 1 < w
    ensures Form(c, b * b % Pow2(w), (b + 1) * d % Pow2(w), j + 1, w)
  {
    Powers3(j, p);
    hide Pow2;
    var t := Quotient(b, j + 2, 1);
    var u := Quotient(d, j + 1, p);
    SquareFour(b, t, p);
    OddTimes(b, d, t, u, p);
    MakeHas(b * b, j + 3, 1, t + 2 * p * t * t);
    MakeHas(b * b, j + 2, 1, 2 * (t + 2 * p * t * t));
    MakeHas((b + 1) * d, j + 2, 2 * p, u + p * t * (1 + 2 * u));
    ResidueMod(b * b, j + 2, w);
    if j + 3 <= w { ResidueMod(b * b, j + 3, w); }
    ResidueMod((b + 1) * d, j + 2, w);
  }

  lemma SquareFour(b: int, t: int, p: int)
    requires b == 1 + t * (4 * p)
    ensures b * b == 1 + (t + 2 * p * t * t) * (8 * p)
    ensures b * b == 1 + (2 * (t + 2 * p * t * t)) * (4 * p)
  {
    assert t * (4 * p) * (t * (4 * p)) == 2 * p * t * t * (8 * p);
  }

  lemma OddTimes(b: int, d: int, t: int, u: int, p: int)
    requires b == 1 + t * (4 * p) && d == p + u * (2 * p)
    ensures (b + 1) * d == 2 * p + (u + p * t * (1 + 2 * u)) * (4 * p)
  {
    assert d == p * (1 + 2 * u);
    assert b + 1 == 2 * (1 + 2 * p * t);
    assert (b + 1) * d == 2 * p * ((1 + 2 * p * t) * (1 + 2 * u));
    assert (1 + 2 * p * t) * (1 + 2 * u) == 1 + 2 * (u + p * t * (1 + 2 * u));
    assert 2 * p * (1 + 2 * (u + p * t * (1 + 2 * u))) == 2 * p + (u + p * t * (1 + 2 * u)) * (4 * p);
  }

  lemma FormOnMcg(b: nat, d: nat, j: nat, w: nat, p: nat, c: nat)
    requires c == 0 && Form(c, b, d, j, w) && p == Pow2(j) && j + 3 < w
    ensures Form(c, b * b % Pow2(w), (b + 1) * d % Pow2(w), j + 1, w)
  {
    Powers3(j, p);
    hide Pow2;
    var t := Quotient(b, j + 3, 1 + 4 * p);
    SquareFive(b, t, p);
    MakeHas(b * b, j + 4, 1 + 8 * p, t + p * (1 + 2 * t) * (1 + 2 * t));
    ResidueMod(b * b, j + 4, w);
    ModIs(0, 0, 0, Pow2(w));
  }

  lemma SquareFive(b: int, t: int, p: int)
    requires b == 1 + 4 * p + t * (8 * p)
    ensures b * b == 1 + 8 * p + (t + p * (1 + 2 * t) * (1 + 2 * t)) * (16 * p)
  {
    var s := 1 + 2 * t;
    assert b == 1 + 4 * p * s;
    assert b * b == 1 + 8 * p * s + (p * s * s) * (16 * p);
    assert 8 * p * s == 8 * p + t * (16 * p);
  }

  // ---------- one stride moves one bit ----------

  lemma StrideFlips(x: nat, c: nat, b: nat, d: nat, j: nat, w: nat, p: nat)
    requires Form(c, b, d, j, w) && p == j + Fixed(c) < w && (c == 0 ==> x % 2 == 1)
    ensures Step(x, b, d, Pow2(w)) % Pow2(p + 1) == (x + Pow2(p)) % Pow2(p + 1)
  {
    var q := Pow2(j);
    Powers3(j, q);
    hide Pow2;
    var k;
    if c == 0 {
      var t := Quotient(b, j + 3, 1 + 4 * q);
      k := x / 2 + t * x;
      assert b * x + d == x + 4 * q + k * (8 * q) by { MovesMcg(x, b, t, q); }
    } else {
      var t := Quotient(b, j + 1, 1);
      var u := Quotient(d, j + 1, q);
      k := t * x + u;
      assert b * x + d == x + q + k * (2 * q) by { Moves(x, b, d, t, u, q); }
    }
    ModShift(x + Pow2(p), k, Pow2(p + 1));
    ResidueMod(b * x + d, p + 1, w);
  }

  lemma MovesMcg(x: int, b: int, t: int, q: int)
    requires b == 1 + 4 * q + t * (8 * q) && x % 2 == 1
    ensures b * x == x + 4 * q + (x / 2 + t * x) * (8 * q)
  {
    var y := x / 2;
    assert x == 1 + 2 * y;
    assert 4 * q * x == 4 * q + y * (8 * q);
    assert t * (8 * q) * x == (t * x) * (8 * q);
  }

  lemma Moves(x: int, b: int, d: int, t: int, u: int, q: int)
    requires b == 1 + t * (2 * q) && d == q + u * (2 * q)
    ensures b * x + d == x + q + (t * x + u) * (2 * q)
  {
    assert t * (2 * q) * x == (t * x) * (2 * q);
  }

  lemma FlipBit(x: nat, y: nat, p: nat)
    requires y % Pow2(p + 1) == (x + Pow2(p)) % Pow2(p + 1)
    ensures y % Pow2(p) == x % Pow2(p) && Bit(y, p) == 1 - Bit(x, p)
  {
    var z := x + Pow2(p);
    Half(y, p);
    Half(z, p);
    Carry(x, p);
    NextBit(y, p);
    NextBit(z, p);
    hide Pow2, Bit;
    BitOf(y, z, p);
  }

  lemma Half(x: nat, p: nat)
    ensures x % Pow2(p + 1) % Pow2(p) == x % Pow2(p)
  {
    ModOfMod(x, Pow2(p), 2, Pow2(p + 1));
  }

  /** Adding 2^p. */
  lemma Carry(x: nat, p: nat)
    ensures (x + Pow2(p)) % Pow2(p) == x % Pow2(p) && Bit(x + Pow2(p), p) == 1 - Bit(x, p)
  {
    var m := Pow2(p);
    ModIs(x + m, x / m + 1, x % m, m);
  }

  lemma BitOf(x: nat, y: nat, p: nat)
    requires x % Pow2(p) + Bit(x, p) * Pow2(p) == y % Pow2(p) + Bit(y, p) * Pow2(p) && x % Pow2(p) == y % Pow2(p)
    ensures Bit(x, p) == Bit(y, p)
  {
    assert Bit(x, p) * Pow2(p) == Bit(y, p) * Pow2(p);
    if Bit(x, p) == 0 { MulMono(Bit(y, p), 1, Pow2(p)); }
  }

  // ---------- the search ----------

  ghost predicate Agree(x: nat, y: nat, p: nat) {
    x % Pow2(p) == y % Pow2(p)
  }

  lemma AgreeMore(x: nat, y: nat, p: nat)
    requires Agree(x, y, p) && Bit(x, p) == Bit(y, p)
    ensures Agree(x, y, p + 1)
  {
    NextBit(x, p);
    NextBit(y, p);
  }

  lemma AgreeAll(x: nat, y: nat, p: nat, w: nat)
    requires Agree(x, y, p) && x < Pow2(w) && y < Pow2(w) && p >= w
    ensures x == y
  {
    Pow2Mono(w, p);
    ModIs(x, 0, x, Pow2(p));
    ModIs(y, 0, y, Pow2(p));
  }

  /** k strides move bit p as often as k says, and nothing below it. */
  lemma {:induction false} StridesMove(x: nat, k: nat, c: nat, b: nat, d: nat, j: nat, w: nat, m: nat, p: nat)
    requires Form(c, b, d, j, w) && m == Pow2(w) && p == j + Fixed(c) < w && (c == 0 ==> x % 2 == 1) && x < m
    ensures Agree(Steps(x, k, b, d, m), x, p) && Bit(Steps(x, k, b, d, m), p) == (Bit(x, p) + k) % 2
    decreases k
  {
    hide *;
    BitSmall(x, p);
    if k == 0 {
      NoStep(x, b, d, m);
      AgreeSame(x, p);
    } else {
      var y := Step(x, b, d, m);
      FirstStep(x, k, b, d, m);
      StrideFlips(x, c, b, d, j, w, p);
      FlipBit(x, y, p);
      StillAgree(x, y, x, p) by { AgreeSame(x, p); }
      if c == 0 { StillOdd(x, y, p) by { FixedTwo(c); } }
      StridesMove(y, k - 1, c, b, d, j, w, m, p);
      AgreeTwice(Steps(y, k - 1, b, d, m), y, x, p);
      Toggled(Bit(x, p), Bit(y, p), k);
    }
  }

  lemma Toggled(b: nat, b': nat, k: nat)
    requires b < 2 && b' == 1 - b && k > 0
    ensures (b' + (k - 1)) % 2 == (b + k) % 2
  {
  }

  lemma FixedTwo(c: nat)
    ensures Fixed(c) == if c == 0 then 2 else 0
  {
  }

  lemma BitSmall(x: nat, p: nat)
    ensures 0 <= Bit(x, p) < 2
  {
  }

  lemma AgreeSame(x: nat, p: nat)
    ensures Agree(x, x, p)
  {
  }

  lemma AgreeTwice(x: nat, y: nat, t: nat, p: nat)
    requires Agree(x, y, p) && Agree(y, t, p)
    ensures Agree(x, t, p)
  {
  }

  lemma StillOdd(x: nat, y: nat, p: nat)
    requires Agree(y, x, p) && p >= 1 && x % 2 == 1
    ensures y % 2 == 1
  {
    var q := PowSplit(1, p);
    ModOfMod(x, 2, q, Pow2(p));
    ModOfMod(y, 2, q, Pow2(p));
  }

  lemma {:induction false} OddPart(n: nat) returns (t: nat, k: nat)
    requires n > 0
    ensures n == Pow2(t) * k && k % 2 == 1
    decreases n
  {
    if n % 2 == 1 {
      t, k := 0, n;
    } else {
      var s, l := OddPart(n / 2);
      t, k := s + 1, l;
    }
  }

  lemma PeriodParts(x: nat, a: nat, c: nat)
    requires FullPeriod(x, a, c)
    ensures (if c == 0 then a % 8 == 5 && x % 2 == 1 else a % 4 == 1 && c % 2 == 1) && a % 2 == 1
    ensures Fixed(c) == if c == 0 then 2 else 0
  {
    if c == 0 { FiveOdd(a); } else { OneOdd(a); }
  }

  lemma FiveOdd(a: nat)
    requires a % 8 == 5
    ensures a % 2 == 1
  {
    var k := a / 8;
    assert a == 8 * k + 5;
    OddIs(a, 4 * k + 2);
  }

  lemma OneOdd(a: nat)
    requires a % 4 == 1
    ensures a % 2 == 1
  {
    var k := a / 4;
    assert a == 4 * k + 1;
    OddIs(a, 2 * k);
  }

  lemma OddIs(a: nat, k: nat)
    requires a == 2 * k + 1
    ensures a % 2 == 1
  {
  }

  lemma OddPartSmall(t: nat, k: nat, n: nat, w: nat)
    requires n == Pow2(t) * k && k % 2 == 1 && n < Pow2(w)
    ensures t < w
  {
    MulMono(1, k, Pow2(t));
    if t >= w { Pow2Mono(w, t); }
  }

  /** No state is met again before all 2^w (a quarter of them without an increment) are used up. */
  lemma NeverBack(x: nat, n: nat, a: nat, c: nat, w: nat, m: nat)
    requires FullPeriod(x, a, c) && Fixed(c) <= w && m == Pow2(w) && x < m && 0 < n < Pow2(w - Fixed(c))
    ensures Steps(x, n, a, c, m) != x
  {
    hide *;
    var t, k := OddPart(n);
    PeriodParts(x, a, c);
    OddPartSmall(t, k, n, w - Fixed(c));
    FormAt(a, c, t, w, m);
    Strides(x, k, a, c, t, m);
    StridesMove(x, k, c, MultAt(a, t, m), PlusAt(a, c, t, m), t, w, m, t + Fixed(c));
  }

  lemma MakePeriod(x: nat, a: nat, c: nat)
    requires if c == 0 then a % 8 == 5 && x % 2 == 1 else a % 4 == 1 && c % 2 == 1
    ensures FullPeriod(x, a, c)
  {
  }

  /** So the distance is the only one below the period. */
  lemma DistanceUnique(x: nat, d: nat, e: nat, a: nat, c: nat, w: nat, m: nat)
    requires FullPeriod(x, a, c) && Fixed(c) <= w && m == Pow2(w) && x < m && d <= e < Pow2(w - Fixed(c))
    requires Steps(x, d, a, c, m) == Steps(x, e, a, c, m)
    ensures d == e
  {
    hide *;
    PeriodParts(x, a, c);
    if d < e {
      var y := Steps(x, d, a, c, m);
      StepsAdd(x, d, e - d, a, c, m);
      if c == 0 { OddForever(x, d, a, w, m); }
      MakePeriod(y, a, c);
      NeverBack(y, e - d, a, c, w, m);
      assert false;
    }
  }

  lemma {:induction false} OddForever(x: nat, d: nat, a: nat, w: nat, m: nat)
    requires a % 2 == 1 && x % 2 == 1 && m == Pow2(w) && w >= 1 && x < m
    ensures Steps(x, d, a, 0, m) % 2 == 1
    decreases d
  {
    if d > 0 {
      var q := PowSplit(1, w);
      ModOfMod(a * x, 2, q, m);
      assert a * x % 2 == 1 by { assert a * x == (a / 2) * x * 2 + x; ModShift(x, (a / 2) * x, 2); }
      OddForever(Step(x, a, 0, m), d - 1, a, w, m);
    }
  }

  lemma SearchStart(state: nat, newstate: nat, mult: nat, plus: nat, m: nat, w: nat, theBit: nat)
    requires FullPeriod(state, mult, plus) && (plus == 0 ==> state % 4 == newstate % 4) && state < m && mult < m && plus < m && w >= 2 && m == Pow2(w)
    requires theBit == if plus == 0 then 4 else 1
    ensures Searching(state, newstate, mult, plus, m, w, 0, 0, state, mult, plus, theBit, 0)
    ensures if plus == 0 then mult % 8 == 5 else mult % 4 == 1 && plus % 2 == 1
  {
    assert Pow2(2) == 4 && Pow2(0) == 1;
    Pow2Mono(2, w);
  }

  lemma NextSquaring(a: nat, c: nat, j: nat, m: nat, p: nat, w: nat)
    requires m == Pow2(w) && p < w
    ensures MultAt(a, j + 1, m) == Squared(MultAt(a, j, m), m) < m
    ensures PlusAt(a, c, j + 1, m) == Plussed(MultAt(a, j, m), PlusAt(a, c, j, m), m) < m
    ensures Pow2(j + 1) == 2 * Pow2(j) && (p + 1 < w ==> Pow2(p) * 2 % m == Pow2(p + 1))
  {
    if p + 1 < w {
      Pow2Mono(p + 1, w);
      ModIs(Pow2(p + 1), 0, Pow2(p + 1), m);
    }
  }

  lemma OneStride(x: nat, a: nat, c: nat, j: nat, m: nat)
    requires x < m
    ensures Steps(x, Pow2(j), a, c, m) == Step(x, MultAt(a, j, m), PlusAt(a, c, j, m), m)
  {
    Strides(x, 1, a, c, j, m);
    hide Pow2, MultAt, PlusAt, Step;
    var b, d := MultAt(a, j, m), PlusAt(a, c, j, m);
    FirstStep(x, 1, b, d, m);
    NoStep(Step(x, b, d, m), b, d, m);
  }

  lemma BitIs(x: nat, p: nat)
    ensures Bit(x, p) == x / Pow2(p) % 2
  {
  }

  lemma Scaled(c: nat, j: nat, theBit: nat, z: nat)
    requires theBit == Pow2(j + z) && z == Fixed(c)
    ensures theBit == (if c == 0 then 4 else 1) * Pow2(j) && theBit > 0
  {
    Powers3(j, Pow2(j));
  }

  lemma StillAgree(x: nat, y: nat, t: nat, p: nat)
    requires x % Pow2(p) == y % Pow2(p) && Agree(x, t, p)
    ensures Agree(y, t, p) && Agree(y, x, p)
  {
  }

  /** One round of the search: bit p of the current state is made to agree, with one stride if need be. */
  method MatchBit(cur0: nat, newstate: nat, theBit: nat, curMult: nat, curPlus: nat, m: nat, ghost c: nat, ghost j: nat, ghost w: nat, ghost p: nat)
    returns (cur: nat, moved: bool)
    requires Form(c, curMult, curPlus, j, w) && m == Pow2(w) && p == j + Fixed(c) < w && theBit == Pow2(p) && cur0 < m
    requires Agree(cur0, newstate, p) && (c == 0 ==> cur0 % 2 == 1)
    ensures cur < m && Agree(cur, newstate, p + 1) && (c == 0 ==> cur % 2 == 1)
    ensures cur == if moved then Step(cur0, curMult, curPlus, m) else cur0
  {
    hide *;
    cur, moved := cur0, false;
    BitIs(cur, p);
    BitIs(newstate, p);
    FixedTwo(c);
    if cur / theBit % 2 != newstate / theBit % 2 {
      StrideFlips(cur0, c, curMult, curPlus, j, w, p);
      StepIs(cur0, curMult, curPlus, m);
      cur, moved := (cur * curMult + curPlus) % m, true;
      FlipBit(cur0, cur, p);
      StillAgree(cur0, cur, newstate, p);
      if c == 0 { StillOdd(cur0, cur, p); }
      BitIs(cur, p);
      BitSmall(cur0, p);
      BitSmall(newstate, p);
    }
    assert cur / theBit % 2 == newstate / theBit % 2;
    AgreeMore(cur, newstate, p);
  }

  /** After j rounds: d steps were taken, the low bits agree, the generator is squared j times. */
  ghost predicate Searching(s: nat, t: nat, a: nat, c: nat, m: nat, w: nat, j: nat, d: nat, cur: nat, b: nat, e: nat, theBit: nat, distance: nat) {
    && m == Pow2(w) && j + Fixed(c) <= w && cur < m && s < m && Agree(cur, t, j + Fixed(c)) && (c == 0 ==> cur % 2 == 1)
    && b == MultAt(a, j, m) && e == PlusAt(a, c, j, m) && b < m && e < m
    && Steps(s, d, a, c, m) == cur && d < Pow2(j) && distance == (if c == 0 then 4 * d else d)
    && (j + Fixed(c) < w ==> theBit == Pow2(j + Fixed(c)))
  }

  lemma SearchNext(s: nat, t: nat, a: nat, c: nat, m: nat, w: nat, j: nat, d: nat, cur0: nat, b: nat, e: nat, theBit: nat, distance0: nat,
                   cur: nat, moved: bool, b': nat, e': nat, theBit': nat, distance: nat)
    requires Searching(s, t, a, c, m, w, j, d, cur0, b, e, theBit, distance0) && j + Fixed(c) < w && Agree(cur, t, j + Fixed(c) + 1)
    requires (c == 0 ==> cur % 2 == 1) && cur < m && cur == if moved then Step(cur0, b, e, m) else cur0
    requires m > 0 && b' == Squared(b, m) && e' == Plussed(b, e, m) && theBit' == Doubled(theBit, m)
    requires distance == distance0 + if moved then theBit else 0
    ensures Searching(s, t, a, c, m, w, j + 1, d + if moved then Pow2(j) else 0, cur, b', e', theBit', distance)
  {
    hide Pow2, Step, Steps, MultAt, PlusAt, Agree, Squared, Plussed, Doubled;
    DoubledIs(theBit, m);
    NextSquaring(a, c, j, m, j + Fixed(c), w);
    Scaled(c, j, theBit, Fixed(c));
    OneStride(cur0, a, c, j, m);
    StepsAdd(s, d, Pow2(j), a, c, m);
  }

  function Squared(b: nat, m: nat): nat
    requires m > 0
  {
    b * b % m
  }

  function Plussed(b: nat, e: nat, m: nat): nat
    requires m > 0
  {
    (b + 1) * e % m
  }

  function Doubled(bit: nat, m: nat): nat
    requires m > 0
  {
    bit * 2 % m
  }

  lemma DoubledIs(bit: nat, m: nat)
    requires m > 0
    ensures Doubled(bit, m) == bit * 2 % m
  {
  }

  lemma SearchParts(s: nat, t: nat, a: nat, c: nat, m: nat, w: nat, j: nat, d: nat, cur: nat, b: nat, e: nat, theBit: nat, distance: nat)
    requires Searching(s, t, a, c, m, w, j, d, cur, b, e, theBit, distance) && t < m && w >= 2 && if c == 0 then a % 8 == 5 else a % 4 == 1 && c % 2 == 1
    ensures j <= w && cur < m && (cur != t ==> j + Fixed(c) < w && Form(c, b, e, j, w) && theBit == Pow2(j + Fixed(c)) > 0)
    ensures m == Pow2(w) && Agree(cur, t, j + Fixed(c)) && (c == 0 ==> cur % 2 == 1)
    ensures cur == t ==> Steps(s, d, a, c, m) == t && d < Pow2(w - Fixed(c)) && distance == if c == 0 then 4 * d else d
  {
    Pow2Mono(j, w - Fixed(c));
    if j + Fixed(c) == w { AgreeAll(cur, t, w, w); } else { FormAt(a, c, j, w, m); }
    hide Pow2, Steps, MultAt, PlusAt, Agree, Form;
  }

  // ---------- masks ----------

  /** The bits of x that the mask selects. */
  function Masked(x: nat, mask: nat): nat
    decreases mask
  {
    if mask == 0 then 0 else 2 * Masked(x / 2, mask / 2) + (x % 2) * (mask % 2)
  }

  lemma HalfMod(x: nat, q: nat)
    requires q > 0
    ensures x % (2 * q) == 2 * (x / 2 % q) + x % 2
  {
    var k, r := x / 2 / q, x / 2 % q;
    TwiceTimes(k, q);
    ModIs(x, k, 2 * r + x % 2, 2 * q);
  }

  lemma TwiceTimes(k: nat, q: nat)
    ensures k * (2 * q) == 2 * (k * q)
  {
  }

  /** A mask of p bits sees only the p low bits. */
  lemma {:induction false} MaskedAgree(x: nat, y: nat, mask: nat, p: nat)
    requires mask < Pow2(p) && Agree(x, y, p)
    ensures Masked(x, mask) == Masked(y, mask)
    decreases p
  {
    if mask > 0 {
      HalfMod(x, Pow2(p - 1));
      HalfMod(y, Pow2(p - 1));
      MaskedAgree(x / 2, y / 2, mask / 2, p - 1);
    }
  }

  /** And a mask of all w bits sees everything. */
  lemma {:induction false} MaskedAll(x: nat, w: nat)
    requires x < Pow2(w)
    ensures Masked(x, Pow2(w) - 1) == x
  {
    if w > 0 {
      MaskedAll(x / 2, w - 1);
      assert (Pow2(w) - 1) / 2 == Pow2(w - 1) - 1 && (Pow2(w) - 1) % 2 == 1;
    } else {
      assert Pow2(0) == 1;
    }
  }

  lemma SearchHas(s: nat, t: nat, a: nat, c: nat, m: nat, w: nat, j: nat, d: nat, cur: nat, b: nat, e: nat, theBit: nat, distance: nat)
    requires Searching(s, t, a, c, m, w, j, d, cur, b, e, theBit, distance)
    ensures Steps(s, d, a, c, m) == cur && d < Pow2(j) && distance == (if c == 0 then 4 * d else d) && Agree(cur, t, j + Fixed(c))
  {
    hide Pow2, Steps, MultAt, PlusAt, Agree;
  }

  lemma DifferBelow(x: nat, y: nat, mask: nat, p: nat, k: nat)
    requires Agree(x, y, p) && mask < Pow2(k) && Masked(x, mask) != Masked(y, mask)
    ensures p < k
  {
    if p >= k {
      Pow2Mono(k, p);
      MaskedAgree(x, y, mask, p);
    }
  }

  lemma FewRounds(d: nat, j: nat, k: nat, z: nat)
    requires d < Pow2(j) && z <= k && j + z <= k
    ensures d < Pow2(k - z)
  {
    Pow2Mono(j, k - z);
  }

  /** engine::distance, with any mask of k bits.  It ends after at most k rounds, its assertion holds in every one,
      and the result leads from one state to one that the mask cannot tell from the other; with all bits in
      the mask, to the other. */
  method Distance(state: nat, newstate: nat, mult: nat, plus: nat, mask: nat, w: nat, m: nat, ghost k: nat) returns (r: nat)
    requires m == Pow2(w) && w >= 2 && state < m && newstate < m && mult < m && plus < m
    requires FullPeriod(state, mult, plus) && (plus == 0 ==> state % 4 == newstate % 4)
    requires mask < Pow2(k) && Fixed(plus) <= k <= w
    ensures Masked(Steps(state, r, mult, plus, m), mask) == Masked(newstate, mask) && r < Pow2(k - Fixed(plus))
    ensures mask == m - 1 ==> Steps(state, r, mult, plus, m) == newstate
  {
    hide *;
    var isMcg := plus == 0;
    var cur: nat, curMult: nat, curPlus: nat, distance: nat := state, mult, plus, 0;
    var theBit: nat := if isMcg then 4 else 1;
    ghost var j: nat, d: nat := 0, 0;
    FixedTwo(plus);
    SearchStart(state, newstate, mult, plus, m, w, theBit);
    SearchParts(state, newstate, mult, plus, m, w, j, d, cur, curMult, curPlus, theBit, distance);
    while Masked(cur, mask) != Masked(newstate, mask)
      invariant Searching(state, newstate, mult, plus, m, w, j, d, cur, curMult, curPlus, theBit, distance) && j + Fixed(plus) <= k && cur < m
      invariant cur != newstate ==> j + Fixed(plus) < w && Form(plus, curMult, curPlus, j, w) && theBit == Pow2(j + Fixed(plus)) > 0
      invariant Agree(cur, newstate, j + Fixed(plus)) && (plus == 0 ==> cur % 2 == 1)
      decreases w - j
    {
      ghost var cur0, b, e, bit, distance0 := cur, curMult, curPlus, theBit, distance;
      DifferBelow(cur, newstate, mask, j + Fixed(plus), k);
      var moved;
      cur, moved := MatchBit(cur, newstate, theBit, curMult, curPlus, m, plus, j, w, j + Fixed(plus));
      if moved { distance := distance + theBit; }  // the bit is still clear: the source's OR is this sum
      theBit := Doubled(theBit, m);
      curPlus := Plussed(curMult, curPlus, m);
      curMult := Squared(curMult, m);
      SearchNext(state, newstate, mult, plus, m, w, j, d, cur0, b, e, bit, distance0, cur, moved, curMult, curPlus, theBit, distance);
      d := d + if moved then Pow2(j) else 0;
      j := j + 1;
      SearchParts(state, newstate, mult, plus, m, w, j, d, cur, curMult, curPlus, theBit, distance);
    }
    SearchHas(state, newstate, mult, plus, m, w, j, d, cur, curMult, curPlus, theBit, distance);
    FewRounds(d, j, k, Fixed(plus));
    MaskedAll(cur, w);
    MaskedAll(newstate, w);
    r := if isMcg then distance / 4 else distance;
  }
}

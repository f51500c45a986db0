/** 128-bit arithmetic on four 32-bit words: addition, subtraction and multiplication with explicit
    carries, and division by shifting and subtracting. */
module Uint128 {
  import opened Powers
  import opened Lcg

  type word = x: int | 0 <= x < 0x1_0000_0000

  datatype UintX4 = UintX4(v0: word, v1: word, v2: word, v3: word)

  /** The double-word views d.v01 and d.v23. */
  function V01(a: UintX4): (r: nat)
    ensures r < 0x1_0000_0000_0000_0000
  {
    a.v0 + a.v1 * 0x1_0000_0000
  }

  function V23(a: UintX4): (r: nat)
    ensures r < 0x1_0000_0000_0000_0000
  {
    a.v2 + a.v3 * 0x1_0000_0000
  }

  function Value(a: UintX4): (r: nat)
    ensures r < 0x1_0000_0000_0000_0000_0000_0000_0000_0000
  {
    V01(a) + V23(a) * 0x1_0000_0000_0000_0000
  }

  /** A sum of two words and a carry; the carry out is recognised by the wrap-around. */
  function AddWithCarry(x: word, y: word, carryin: bool): (r: (word, bool))
    ensures r.0 + (if r.1 then 0x1_0000_0000 else 0) == x + y + if carryin then 1 else 0
  {
    var half: word := (y + if carryin then 1 else 0) % 0x1_0000_0000;
    var result: word := (x + half) % 0x1_0000_0000;
    (result, half < y || result < x)
  }

  function SubWithCarry(x: word, y: word, carryin: bool): (r: (word, bool))
    ensures r.0 - (if r.1 then 0x1_0000_0000 else 0) == x - y - if carryin then 1 else 0
  {
    var half: word := (y + if carryin then 1 else 0) % 0x1_0000_0000;
    var result: word := (x - half) % 0x1_0000_0000;
    (result, half < y || result > x)
  }

  lemma Wrapped(x: int, r: nat, k: int)
    requires x == r + k * 0x1_0000_0000_0000_0000_0000_0000_0000_0000 && r < 0x1_0000_0000_0000_0000_0000_0000_0000_0000
    ensures x % 0x1_0000_0000_0000_0000_0000_0000_0000_0000 == r
  {
    ModIs(x, k, r, 0x1_0000_0000_0000_0000_0000_0000_0000_0000);
  }

  /** operator+: the sum modulo 2^128. */
  method Add(a: UintX4, b: UintX4) returns (r: UintX4)
    ensures Value(r) == (Value(a) + Value(b)) % 0x1_0000_0000_0000_0000_0000_0000_0000_0000
  {
    hide AddWithCarry;
    var s0 := AddWithCarry(a.v0, b.v0, false);
    var s1 := AddWithCarry(a.v1, b.v1, s0.1);
    var s2 := AddWithCarry(a.v2, b.v2, s1.1);
    var s3 := AddWithCarry(a.v3, b.v3, s2.1);
    r := UintX4(s0.0, s1.0, s2.0, s3.0);
    assert Value(r) + (if s3.1 then 0x1_0000_0000_0000_0000_0000_0000_0000_0000 else 0) == Value(a) + Value(b);
    Wrapped(Value(a) + Value(b), Value(r), if s3.1 then 1 else 0);
  }

  /** operator-: the difference modulo 2^128. */
  method Sub(a: UintX4, b: UintX4) returns (r: UintX4)
    ensures Value(r) == (Value(a) - Value(b)) % 0x1_0000_0000_0000_0000_0000_0000_0000_0000
  {
    hide SubWithCarry;
    var s0 := SubWithCarry(a.v0, b.v0, false);
    var s1 := SubWithCarry(a.v1, b.v1, s0.1);
    var s2 := SubWithCarry(a.v2, b.v2, s1.1);
    var s3 := SubWithCarry(a.v3, b.v3, s2.1);
    r := UintX4(s0.0, s1.0, s2.0, s3.0);
    assert Value(r) - (if s3.1 then 0x1_0000_0000_0000_0000_0000_0000_0000_0000 else 0) == Value(a) - Value(b);
    Wrapped(Value(a) - Value(b), Value(r), if s3.1 then -1 else 0);
  }

  function Lo(p: nat): word { p % 0x1_0000_0000 }

  function Hi(p: nat): (r: word)
    requires p < 0x1_0000_0000_0000_0000
  {
    p / 0x1_0000_0000
  }

  lemma LoHi(p: nat)
    requires p < 0x1_0000_0000_0000_0000
    ensures Lo(p) + Hi(p) * 0x1_0000_0000 == p
  {
  }

  lemma WordProduct(x: word, y: word)
    ensures 0 <= x * y < 0x1_0000_0000_0000_0000
  {
    ProductBound(x, y, 0xFFFF_FFFF);
  }

  /** The four word products added up in their places, carries and all. */
  method SumProducts(a0b0: nat, a1b0: nat, a0b1: nat, a1b1: nat) returns (r: UintX4, ghost k: int)
    requires a0b0 < 0x1_0000_0000_0000_0000 && a1b0 < 0x1_0000_0000_0000_0000 && a0b1 < 0x1_0000_0000_0000_0000 && a1b1 < 0x1_0000_0000_0000_0000
    ensures Value(r) + k * 0x1_0000_0000_0000_0000_0000_0000_0000_0000 == a0b0 + (a1b0 + a0b1) * 0x1_0000_0000 + a1b1 * 0x1_0000_0000_0000_0000
  {
    hide AddWithCarry, Lo, Hi;
    LoHi(a0b0);
    LoHi(a1b0);
    LoHi(a0b1);
    LoHi(a1b1);
    var r0, r1 := Lo(a0b0), Hi(a0b0);

    var c1 := AddWithCarry(r1, Lo(a1b0), false);
    var c2 := AddWithCarry(Hi(a1b0), 0, c1.1);
    var c3 := AddWithCarry(0, 0, c2.1);

    var d2 := AddWithCarry(c2.0, Hi(a0b1), false);
    var d3 := AddWithCarry(c3.0, 0, d2.1);

    var e1 := AddWithCarry(c1.0, Lo(a0b1), false);
    var e2 := AddWithCarry(d2.0, 0, e1.1);
    var e3 := AddWithCarry(d3.0, 0, e2.1);

    var f2 := AddWithCarry(e2.0, Lo(a1b1), false);
    var f3 := AddWithCarry(e3.0, Hi(a1b1), f2.1);

    r := UintX4(r0, e1.0, f2.0, f3.0);
    k := (if c3.1 then 1 else 0) + (if d3.1 then 1 else 0) + (if e3.1 then 1 else 0) + if f3.1 then 1 else 0;
  }

  /** The first part of operator*: the product of the low halves. */
  method MulLow(a: UintX4, b: UintX4) returns (r: UintX4)
    ensures Value(r) == V01(a) * V01(b) % 0x1_0000_0000_0000_0000_0000_0000_0000_0000
  {
    WordProduct(a.v0, b.v0);
    WordProduct(a.v1, b.v0);
    WordProduct(a.v0, b.v1);
    WordProduct(a.v1, b.v1);
    ghost var k;
    r, k := SumProducts(a.v0 * b.v0, a.v1 * b.v0, a.v0 * b.v1, a.v1 * b.v1);
    LowProduct(a.v0, a.v1, b.v0, b.v1);
    Wrapped(V01(a) * V01(b), Value(r), k);
  }

  lemma LowProduct(a0: int, a1: int, b0: int, b1: int)
    ensures (a0 + a1 * 0x1_0000_0000) * (b0 + b1 * 0x1_0000_0000) == a0 * b0 + (a1 * b0 + a0 * b1) * 0x1_0000_0000 + a1 * b1 * 0x1_0000_0000_0000_0000
  {
    assert (a0 + a1 * 0x1_0000_0000) * (b0 + b1 * 0x1_0000_0000) == a0 * b0 + a0 * (b1 * 0x1_0000_0000) + a1 * 0x1_0000_0000 * b0 + a1 * 0x1_0000_0000 * (b1 * 0x1_0000_0000);
  }

  /** operator*: the product modulo 2^128. */
  method Mul(a: UintX4, b: UintX4) returns (r: UintX4)
    ensures Value(r) == Value(a) * Value(b) % 0x1_0000_0000_0000_0000_0000_0000_0000_0000
  {
    hide *;
    var low := MulLow(a, b);
    var v23 := (V23(low) + (V01(a) * V23(b) % 0x1_0000_0000_0000_0000 + V23(a) * V01(b) % 0x1_0000_0000_0000_0000) % 0x1_0000_0000_0000_0000) % 0x1_0000_0000_0000_0000;
    r := UintX4(low.v0, low.v1, v23 % 0x1_0000_0000, v23 / 0x1_0000_0000);
    Highs(V01(a), V23(a), V01(b), V23(b), V01(low), V23(low), v23) by { Halves(low); }
    Halves(a);
    Halves(b);
    Rebuilt(r, low, v23);
  }

  lemma Halves(a: UintX4)
    ensures Value(a) == V01(a) + V23(a) * 0x1_0000_0000_0000_0000
  {
  }

  lemma Rebuilt(r: UintX4, low: UintX4, v23: nat)
    requires v23 < 0x1_0000_0000_0000_0000 && r == UintX4(low.v0, low.v1, v23 % 0x1_0000_0000, v23 / 0x1_0000_0000)
    ensures Value(r) == V01(low) + v23 * 0x1_0000_0000_0000_0000
  {
  }

  lemma Highs(a01: nat, a23: nat, b01: nat, b23: nat, l01: nat, l23: nat, v23: nat)
    requires l01 < 0x1_0000_0000_0000_0000 && l23 < 0x1_0000_0000_0000_0000 && l01 + l23 * 0x1_0000_0000_0000_0000 == a01 * b01 % 0x1_0000_0000_0000_0000_0000_0000_0000_0000
    requires v23 == (l23 + ((a01 * b23) % 0x1_0000_0000_0000_0000 + (a23 * b01) % 0x1_0000_0000_0000_0000) % 0x1_0000_0000_0000_0000) % 0x1_0000_0000_0000_0000
    ensures l01 + v23 * 0x1_0000_0000_0000_0000 == (a01 + a23 * 0x1_0000_0000_0000_0000) * (b01 + b23 * 0x1_0000_0000_0000_0000) % 0x1_0000_0000_0000_0000_0000_0000_0000_0000
  {
    HighProduct(a01, a23, b01, b23);
    var k := HighSum(a01 * b01, a01 * b23, a23 * b01, a23 * b23, l01, l23, v23);
    Wrapped((a01 + a23 * 0x1_0000_0000_0000_0000) * (b01 + b23 * 0x1_0000_0000_0000_0000), l01 + v23 * 0x1_0000_0000_0000_0000, k);
  }

  lemma HighSum(p: nat, q: nat, s: nat, h: nat, l01: nat, l23: nat, v23: nat) returns (k: int)
    requires l01 < 0x1_0000_0000_0000_0000 && l23 < 0x1_0000_0000_0000_0000 && l01 + l23 * 0x1_0000_0000_0000_0000 == p % 0x1_0000_0000_0000_0000_0000_0000_0000_0000
    requires v23 == (l23 + (q % 0x1_0000_0000_0000_0000 + s % 0x1_0000_0000_0000_0000) % 0x1_0000_0000_0000_0000) % 0x1_0000_0000_0000_0000
    ensures p + (q + s) * 0x1_0000_0000_0000_0000 + h * 0x1_0000_0000_0000_0000_0000_0000_0000_0000 == (l01 + v23 * 0x1_0000_0000_0000_0000) + k * 0x1_0000_0000_0000_0000_0000_0000_0000_0000 && v23 < 0x1_0000_0000_0000_0000
  {
    var x := l23 + q + s;
    assert v23 == x % 0x1_0000_0000_0000_0000;
    k := p / 0x1_0000_0000_0000_0000_0000_0000_0000_0000 + x / 0x1_0000_0000_0000_0000 + h;
  }

  lemma HighProduct(a01: int, a23: int, b01: int, b23: int)
    ensures (a01 + a23 * 0x1_0000_0000_0000_0000) * (b01 + b23 * 0x1_0000_0000_0000_0000) == a01 * b01 + (a01 * b23 + a23 * b01) * 0x1_0000_0000_0000_0000 + a23 * b23 * 0x1_0000_0000_0000_0000_0000_0000_0000_0000
  {
    assert (a01 + a23 * 0x1_0000_0000_0000_0000) * (b01 + b23 * 0x1_0000_0000_0000_0000) == a01 * b01 + a01 * (b23 * 0x1_0000_0000_0000_0000) + a23 * 0x1_0000_0000_0000_0000 * b01 + a23 * 0x1_0000_0000_0000_0000 * (b23 * 0x1_0000_0000_0000_0000);
  }

  // ---------- division ----------

  /** flog2: the position of the highest bit. */
  function Flog2(v: nat): (k: nat)
    requires v > 0
    ensures Pow2(k) <= v < Pow2(k + 1)
  {
    if v == 1 then 0 else Flog2(v / 2) + 1
  }

  lemma Flog2Mono(u: nat, v: nat)
    requires 0 < u <= v
    ensures Flog2(u) <= Flog2(v)
  {
    if Flog2(v) < Flog2(u) { Pow2Mono(Flog2(v) + 1, Flog2(u)); }
  }

  ghost predicate Factored(divisor: nat, factor: nat, qfactor: nat, k: nat) {
    qfactor == Pow2(k) && factor == divisor * qfactor
  }

  ghost predicate Divided(whole: nat, quotient: nat, divisor: nat, rest: nat) {
    whole == quotient * divisor + rest
  }

  lemma StartDivided(whole: nat, divisor: nat)
    ensures Divided(whole, 0, divisor, whole) && (divisor <= whole ==> Divided(whole, 1, divisor, whole - divisor))
  {
  }

  lemma SameLog(divisor: nat, dividend: nat)
    requires 0 < divisor <= dividend && Flog2(dividend) == Flog2(divisor)
    ensures dividend - divisor < divisor
  {
    hide Flog2;
    assert Pow2(Flog2(divisor) + 1) == 2 * Pow2(Flog2(divisor));
  }

  lemma Underestimate(divisor: nat, dividend: nat, k: nat)
    requires 0 < divisor <= dividend && Flog2(dividend) == Flog2(divisor) + k + 1
    ensures 0 < Pow2(k) <= divisor * Pow2(k) <= dividend && Factored(divisor, divisor * Pow2(k), Pow2(k), k)
  {
    hide Pow2, Flog2;
    var l: nat := Flog2(divisor);
    Pow2Add(l + 1, k);
    Between(divisor, Pow2(l + 1), Pow2(k));
  }

  lemma Between(x: nat, p: nat, d: nat)
    requires 0 < x <= p
    ensures d <= x * d <= p * d
  {
    MulMono(x, p, d);
    MulMono(1, x, d);
  }

  lemma Subtracted(whole: nat, quotient: nat, qfactor: nat, divisor: nat, dividend: nat, factor: nat, k: nat)
    requires Factored(divisor, factor, qfactor, k) && factor <= dividend && Divided(whole, quotient, divisor, dividend)
    ensures Divided(whole, quotient + qfactor, divisor, dividend - factor)
  {
    assert (quotient + qfactor) * divisor == quotient * divisor + factor;
  }

  lemma Halved(k: nat, divisor: nat, qfactor: nat, factor: nat)
    requires divisor > 0 && Factored(divisor, factor, qfactor, k) && factor > divisor
    ensures k > 0 && Factored(divisor, factor / 2, qfactor / 2, k - 1)
  {
    assert k == 0 ==> factor == divisor;
    var h := Pow2(k - 1);
    assert divisor * (2 * h) == 2 * (divisor * h);
  }

  lemma FactorPositive(divisor: nat, factor: nat, qfactor: nat, k: nat)
    requires divisor > 0 && Factored(divisor, factor, qfactor, k)
    ensures factor > 0
  {
    hide Pow2;
    MulMono(1, qfactor, divisor);
  }

  /** And quotient and remainder are the ones of arithmetic. */
  lemma DividedIs(whole: nat, q: nat, divisor: nat, r: nat)
    requires Divided(whole, q, divisor, r) && r < divisor
    ensures q == whole / divisor && r == whole % divisor
  {
    ModIs(whole, q, r, divisor);
  }
}

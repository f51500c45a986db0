/** Division of 128-bit numbers by shifting and subtracting, on words. */
module Uint128Division {
  import opened Powers
  import opened Lcg
  import opened Uint128
  import opened Uint128Shifts

  lemma BaseFour()
    ensures Base(4) == 0x1_0000_0000_0000_0000_0000_0000_0000_0000
  {
    hide Base;
    BaseNext(0);
    BaseNext(1);
    BaseNext(2);
    BaseNext(3);
  }

  /** operator+ and operator- where nothing wraps around. */
  method Plus(a: UintX4, b: UintX4) returns (r: UintX4)
    requires Value(a) + Value(b) < 0x1_0000_0000_0000_0000_0000_0000_0000_0000
    ensures Value(r) == Value(a) + Value(b)
  {
    hide *;
    r := Add(a, b);
    ModIs(Value(a) + Value(b), 0, Value(a) + Value(b), 0x1_0000_0000_0000_0000_0000_0000_0000_0000);
  }

  method Minus(a: UintX4, b: UintX4) returns (r: UintX4)
    requires Value(b) <= Value(a)
    ensures Value(r) == Value(a) - Value(b)
  {
    hide *;
    r := Sub(a, b);
    ModIs(Value(a) - Value(b), 0, Value(a) - Value(b), 0x1_0000_0000_0000_0000_0000_0000_0000_0000);
  }

  /** operator<< where nothing is shifted out. */
  method Raise(v: UintX4, shift: nat) returns (r: UintX4)
    requires shift < 128 && Value(v) * Pow2(shift) < 0x1_0000_0000_0000_0000_0000_0000_0000_0000
    ensures Value(r) == Value(v) * Pow2(shift)
  {
    hide *;
    r := Shl(v, shift);
    BaseFour();
    ModIs(Value(v) * Pow2(shift), 0, Value(v) * Pow2(shift), Base(4));
  }

  method Halve(v: UintX4) returns (r: UintX4)
    ensures Value(r) == Value(v) / 2
  {
    assert Pow2(1) == 2;
    hide *;
    r := Shr(v, 1);
  }

  lemma OneIs()
    ensures Value(UintX4(1, 0, 0, 0)) == 1 && Value(UintX4(0, 0, 0, 0)) == 0
  {
  }

  lemma QuotientFits(whole: nat, quotient: nat, qfactor: nat, divisor: nat, dividend: nat, factor: nat, k: nat)
    requires divisor > 0 && Factored(divisor, factor, qfactor, k) && factor <= dividend && Divided(whole, quotient, divisor, dividend)
    requires whole < 0x1_0000_0000_0000_0000_0000_0000_0000_0000
    ensures quotient + qfactor < 0x1_0000_0000_0000_0000_0000_0000_0000_0000
  {
    Subtracted(whole, quotient, qfactor, divisor, dividend, factor, k);
    hide Pow2, Factored;
    AtMostWhole(whole, quotient + qfactor, divisor, dividend - factor);
  }

  lemma AtMostWhole(whole: nat, q: nat, divisor: nat, rest: nat)
    requires divisor > 0 && Divided(whole, q, divisor, rest)
    ensures q <= whole
  {
    MulMono(1, divisor, q);
  }

  /** divmod, for a divisor other than zero: nothing is shifted out, nothing wraps around, factor stays divisor times
      qfactor while there is something to divide, and the loops end with quotient and remainder. */
  method DivMod(origDividend: UintX4, divisor: UintX4) returns (q: UintX4, r: UintX4)
    requires Value(divisor) > 0
    ensures Divided(Value(origDividend), Value(q), Value(divisor), Value(r)) && Value(r) < Value(divisor)
  {
    hide *;
    ghost var whole, d := Value(origDividend), Value(divisor);
    StartDivided(whole, d);
    OneIs();
    if Less(origDividend, divisor) { return UintX4(0, 0, 0, 0), origDividend; }
    var dividend := origDividend;
    Flog2Mono(d, whole);
    var log2Divisor := Flog2X4(divisor);
    var log2Dividend := Flog2X4(dividend);
    var logdiff: nat := log2Dividend - log2Divisor;
    if logdiff == 0 {
      SameLog(d, whole);
      r := Minus(dividend, divisor);
      return UintX4(1, 0, 0, 0), r;
    }
    logdiff := logdiff - 1;
    Underestimate(d, whole, logdiff);
    OneTimes(d, Pow2(logdiff));
    var quotient := UintX4(0, 0, 0, 0);
    var qfactor := Raise(UintX4(1, 0, 0, 0), logdiff);
    var factor := Raise(divisor, logdiff);
    ghost var k: nat := logdiff;
    while true
      invariant Factored(d, Value(factor), Value(qfactor), k) && 0 < Value(factor) <= Value(dividend)
      invariant Divided(whole, Value(quotient), d, Value(dividend))
      decreases Value(dividend)
    {
      Subtracted(whole, Value(quotient), Value(qfactor), d, Value(dividend), Value(factor), k);
      QuotientFits(whole, Value(quotient), Value(qfactor), d, Value(dividend), Value(factor), k);
      dividend := Minus(dividend, factor);
      quotient := Plus(quotient, qfactor);
      factor, qfactor, k := Lower(dividend, divisor, factor, qfactor, k);
      if Less(dividend, divisor) { break; }
      FactorPositive(d, Value(factor), Value(qfactor), k);
    }
    return quotient, dividend;
  }

  lemma OneTimes(d: nat, p: nat)
    requires d > 0
    ensures 1 * p == p <= d * p
  {
    MulMono(1, d, p);
  }

  /** The inner loop: factor and qfactor are halved until factor is no larger than what is left. */
  method Lower(dividend: UintX4, divisor: UintX4, factor0: UintX4, qfactor0: UintX4, ghost k0: nat)
    returns (factor: UintX4, qfactor: UintX4, ghost k: nat)
    requires Value(divisor) > 0 && Factored(Value(divisor), Value(factor0), Value(qfactor0), k0)
    ensures Value(factor) <= Value(dividend)
    ensures Value(dividend) >= Value(divisor) ==> Factored(Value(divisor), Value(factor), Value(qfactor), k)
  {
    hide *;
    factor, qfactor, k := factor0, qfactor0, k0;
    while Less(dividend, factor)
      invariant Value(dividend) >= Value(divisor) ==> Factored(Value(divisor), Value(factor), Value(qfactor), k)
      decreases Value(factor)
    {
      if Value(dividend) >= Value(divisor) {
        Halved(k, Value(divisor), Value(qfactor), Value(factor));
        k := k - 1;
      }
      factor := Halve(factor);
      qfactor := Halve(qfactor);
    }
  }
}

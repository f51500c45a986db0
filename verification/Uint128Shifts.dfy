/** Shifts, comparison and the highest bit of 128-bit numbers held in four words. */
module Uint128Shifts {
  import opened Powers
  import opened Lcg
  import opened Uint128

  /** The number in the words, lowest first. */
  function Num(ws: seq<word>): nat {
    if ws == [] then 0 else ws[0] + 0x1_0000_0000 * Num(ws[1..])
  }

  function Words(a: UintX4): (r: seq<word>)
    ensures |r| == 4
  {
    [a.v0, a.v1, a.v2, a.v3]
  }

  function FromWords(r: seq<word>): UintX4
    requires |r| == 4
  {
    UintX4(r[0], r[1], r[2], r[3])
  }

  lemma NumIs(a: UintX4)
    ensures Num(Words(a)) == Value(a)
  {
    hide Num;
    NumStep([a.v0, a.v1, a.v2, a.v3], [a.v1, a.v2, a.v3]);
    NumStep([a.v1, a.v2, a.v3], [a.v2, a.v3]);
    NumStep([a.v2, a.v3], [a.v3]);
    NumStep([a.v3], []);
  }

  lemma NumStep(ws: seq<word>, rest: seq<word>)
    requires |ws| > 0 && ws[1..] == rest
    ensures Num(ws) == ws[0] + 0x1_0000_0000 * Num(rest) && Num([]) == 0
  {
  }

  lemma FromNum(r: seq<word>)
    requires |r| == 4
    ensures Value(FromWords(r)) == Num(r)
  {
    assert Words(FromWords(r)) == r;
    NumIs(FromWords(r));
  }

  /** 2^(32 n). */
  function Base(n: nat): nat { Pow2(32 * n) }

  lemma BaseNext(n: nat)
    ensures Base(n + 1) == 0x1_0000_0000 * Base(n) && Base(0) == 1 && Base(n) > 0
  {
    Pow2Add(32, 32 * n);
    Pow2Values();
  }

  lemma BaseAdd(m: nat, n: nat)
    ensures Base(m + n) == Base(m) * Base(n)
  {
    Pow2Add(32 * m, 32 * n);
  }

  lemma {:induction false} NumAppend(u: seq<word>, v: seq<word>)
    ensures Num(u + v) == Num(u) + Base(|u|) * Num(v)
    decreases |u|
  {
    hide Base;
    if u == [] {
      BaseNext(0);
      assert u + v == v;
    } else {
      assert (u + v)[1..] == u[1..] + v;
      NumAppend(u[1..], v);
      BaseNext(|u| - 1);
      Distributed(Num(u[1..]), Base(|u| - 1), Num(v));
    }
  }

  lemma Distributed(x: nat, b: nat, y: nat)
    ensures 0x1_0000_0000 * (x + b * y) == 0x1_0000_0000 * x + 0x1_0000_0000 * b * y
  {
  }

  lemma {:induction false} NumBound(u: seq<word>)
    ensures Num(u) < Base(|u|)
    decreases |u|
  {
    hide Base;
    BaseNext(0);
    if u != [] {
      NumBound(u[1..]);
      BaseNext(|u| - 1);
    }
  }

  lemma OneWord(x: word)
    ensures Num([x]) == x
  {
    assert [x][1..] == [];
  }

  function Zeros(n: nat): (r: seq<word>)
    ensures |r| == n
  {
    seq(n, _ => 0)
  }

  lemma {:induction false} NumZeros(n: nat)
    ensures Num(Zeros(n)) == 0
  {
    if n > 0 {
      assert Zeros(n)[1..] == Zeros(n - 1);
      NumZeros(n - 1);
    }
  }

  // ---------- one word of a shift ----------

  /** Powers of two that split a word. */
  ghost predicate Splits(p: nat, q: nat) { p > 0 && q > 0 && p * q == 0x1_0000_0000 }

  lemma SplitsAt(s: nat)
    requires s <= 32
    ensures Splits(Pow2(s), Pow2(32 - s))
  {
    Pow2Add(s, 32 - s);
    Pow2Values();
  }

  /** A word shifted left by less than its width: what stays, and what is carried out. */
  lemma ShlWord(x: word, p: nat, q: nat, c: nat)
    requires Splits(p, q) && c < p
    ensures x * p % 0x1_0000_0000 + c < 0x1_0000_0000 && x / q < p
    ensures x * p == x * p % 0x1_0000_0000 + 0x1_0000_0000 * (x / q)
  {
    var h, l := x / q, x % q;
    Factors(h, q, l, p);
    MulMono(l, q - 1, p);
    DivBelow(x, q, p);
    ModIs(x * p, h, l * p, 0x1_0000_0000);
  }

  lemma Factors(h: nat, q: nat, l: nat, p: nat)
    requires p * q == 0x1_0000_0000
    ensures (h * q + l) * p == h * 0x1_0000_0000 + l * p && (q - 1) * p == 0x1_0000_0000 - p
  {
    assert h * q * p == h * (p * q);
    assert (h * q + l) * p == h * q * p + l * p;
  }

  lemma DivBelow(x: nat, q: nat, p: nat)
    requires q > 0 && x < p * q
    ensures x / q < p
  {
    assert x == (x / q) * q + x % q;
    if x / q >= p { MulMono(p, x / q, q); }
  }

  /** A word shifted right, with the low bits of the word above coming in. */
  lemma ShrWord(x: word, p: nat, q: nat, rem: nat)
    requires Splits(p, q) && rem < p
    ensures x / p + rem * q < 0x1_0000_0000 && x % p < p
    ensures 0x1_0000_0000 * rem + x == p * (x / p + rem * q) + x % p
  {
    assert p * (rem * q) == rem * (p * q);
    DivBelow(x, p, q);
    MulMono(rem, p - 1, q);
    assert (p - 1) * q == 0x1_0000_0000 - q;
    assert p * (x / p + rem * q) == p * (x / p) + p * (rem * q);
  }

  // ---------- the left shift ----------

  /** The first n words of v shifted left by s bits are r, and c is carried on. */
  ghost predicate ShiftedLeft(r: seq<word>, c: nat, v: seq<word>, p: nat) {
    |r| == |v| && c < p && Num(r) + Base(|r|) * c == p * Num(v)
  }

  lemma ShiftedMore(r: seq<word>, c: nat, v: seq<word>, p: nat, q: nat, x: word, y: word)
    requires ShiftedLeft(r, c, v, p) && Splits(p, q) && y == x * p % 0x1_0000_0000 + c
    ensures ShiftedLeft(r + [y], x / q, v + [x], p)
  {
    hide Num, Base;
    ShlWord(x, p, q, c);
    NumAppend(r, [y]);
    NumAppend(v, [x]);
    OneWord(x);
    OneWord(y);
    BaseNext(|r|);
    LeftSums(Num(r), Base(|r|), c, Num(v), p, x, y, x / q);
  }

  lemma LeftSums(r: nat, b: nat, c: nat, v: nat, p: nat, x: nat, y: nat, c': nat)
    requires r + b * c == p * v && x * p == y - c + 0x1_0000_0000 * c'
    ensures r + b * y + 0x1_0000_0000 * b * c' == p * (v + b * x)
  {
    assert b * (x * p) == b * y - b * c + b * (0x1_0000_0000 * c');
    assert p * (v + b * x) == p * v + b * (x * p);
    assert b * (0x1_0000_0000 * c') == 0x1_0000_0000 * b * c';
  }

  lemma LeftStep(r: seq<word>, c: nat, v: seq<word>, i: nat, p: nat, q: nat)
    requires i < |v| && ShiftedLeft(r, c, v[..i], p) && Splits(p, q) && p > 0 && q > 0
    ensures v[i] * p % 0x1_0000_0000 + c < 0x1_0000_0000
    ensures ShiftedLeft(r + [v[i] * p % 0x1_0000_0000 + c], v[i] / q, v[..i + 1], p)
  {
    hide *;
    LeftCarry(r, c, v[..i], p);
    ShlWord(v[i], p, q, c);
    ShiftedMore(r, c, v[..i], p, q, v[i], v[i] * p % 0x1_0000_0000 + c);
    assert v[..i + 1] == v[..i] + [v[i]];
  }

  /** operator<<: the number times a power of two, modulo 2^128. */
  method Shl(v: UintX4, shift: nat) returns (r: UintX4)
    requires shift < 128
    ensures Value(r) == Value(v) * Pow2(shift) % Base(4)
  {
    hide *;
    var shiftdiv: nat, shiftmod: nat := shift / 32, shift % 32;
    var p: nat, q: nat := Pow2(shiftmod), Pow2(32 - shiftmod);
    SplitsAt(shiftmod);
    SplitParts(p, q);
    BaseNext(3);
    var ws := Words(v);
    var rs: seq<word> := [];
    var carryover: nat := 0;
    var i: nat := 0;
    NoWords(p);
    assert ws[..0] == [];
    while shiftdiv + i < 4
      invariant shiftdiv + i <= 4 && |rs| == i && ShiftedLeft(rs, carryover, ws[..i], p)
    {
      LeftStep(rs, carryover, ws, i, p, q);
      rs := rs + [ws[i] * p % 0x1_0000_0000 + carryover];
      carryover := ws[i] / q;
      i := i + 1;
    }
    r := FromWords(Zeros(shiftdiv) + rs);
    FromNum(Zeros(shiftdiv) + rs);
    LeftWhole(v, rs, carryover, i, shift, shiftdiv, shiftmod);
  }

  lemma SplitParts(p: nat, q: nat)
    requires Splits(p, q)
    ensures p > 0 && q > 0
  {
  }

  lemma NoWords(p: nat)
    requires p > 0
    ensures ShiftedLeft([], 0, [], p)
  {
    hide Base;
  }

  lemma LeftCarry(r: seq<word>, c: nat, v: seq<word>, p: nat)
    requires ShiftedLeft(r, c, v, p)
    ensures c < p
  {
    hide Num, Base;
  }

  lemma LeftWhole(v: UintX4, rs: seq<word>, c: nat, i: nat, shift: nat, shiftdiv: nat, shiftmod: nat)
    requires shift == 32 * shiftdiv + shiftmod && shiftmod < 32 && shiftdiv + i == 4
    requires ShiftedLeft(rs, c, Words(v)[..i], Pow2(shiftmod))
    ensures Num(Zeros(shiftdiv) + rs) == Value(v) * Pow2(shift) % Base(4)
  {
    hide *;
    var ws := Words(v);
    var p, a, b := Pow2(shiftmod), Base(shiftdiv), Base(i);
    NumIs(v);
    assert ws == ws[..i] + ws[i..];
    NumAppend(ws[..i], ws[i..]);
    NumAppend(Zeros(shiftdiv), rs);
    NumZeros(shiftdiv);
    BaseAdd(shiftdiv, i);
    PowShift(shift, shiftdiv, shiftmod);
    LeftEquation(rs, c, ws[..i], p);
    NumBound(Zeros(shiftdiv) + rs);
    BaseNext(3);
    LeftMod(Num(rs), c, Num(ws[..i]), Num(ws[i..]), p, a, b);
    ModIs(Value(v) * Pow2(shift), c + Num(ws[i..]) * p, Num(Zeros(shiftdiv) + rs), Base(4));
  }

  lemma PowShift(shift: nat, shiftdiv: nat, shiftmod: nat)
    requires shift == 32 * shiftdiv + shiftmod
    ensures Pow2(shift) == Base(shiftdiv) * Pow2(shiftmod)
  {
    Pow2Add(32 * shiftdiv, shiftmod);
  }

  lemma LeftEquation(r: seq<word>, c: nat, v: seq<word>, p: nat)
    requires ShiftedLeft(r, c, v, p)
    ensures Num(r) + Base(|r|) * c == p * Num(v) && |r| == |v|
  {
    hide Num, Base;
  }

  lemma LeftMod(r: nat, c: nat, lo: nat, hi: nat, p: nat, a: nat, b: nat)
    requires r + b * c == p * lo
    ensures (lo + b * hi) * (a * p) == (c + hi * p) * (a * b) + a * r
  {
    assert (lo + b * hi) * (a * p) == a * (p * lo) + (b * hi) * (a * p);
    assert a * (r + b * c) == a * r + c * (a * b);
    assert (b * hi) * (a * p) == (hi * p) * (a * b);
    assert (c + hi * p) * (a * b) == c * (a * b) + (hi * p) * (a * b);
  }

  // ---------- the right shift ----------

  /** The words of v shifted right by the bits of p are r, and c is what falls out below. */
  ghost predicate ShiftedRight(r: seq<word>, c: nat, v: seq<word>, p: nat) {
    |r| == |v| && c < p && Num(v) == p * Num(r) + c
  }

  lemma RightMore(r: seq<word>, c: nat, v: seq<word>, p: nat, q: nat, x: word, y: word)
    requires ShiftedRight(r, c, v, p) && Splits(p, q) && y == x / p + c * q
    ensures ShiftedRight([y] + r, x % p, [x] + v, p)
  {
    hide Num, Base;
    ShrWord(x, p, q, c);
    BaseNext(0);
    NumAppend([y], r);
    NumAppend([x], v);
    OneWord(x);
    OneWord(y);
    assert p * (y + 0x1_0000_0000 * Num(r)) == p * y + 0x1_0000_0000 * (p * Num(r)) by { RightSums(p, y, Num(r)); }
  }

  lemma RightSums(p: nat, y: nat, r: nat)
    ensures p * (y + 0x1_0000_0000 * r) == p * y + 0x1_0000_0000 * (p * r)
  {
    assert p * (0x1_0000_0000 * r) == 0x1_0000_0000 * (p * r);
  }

  /** A word shifted right, and the bits from the word above. */
  function InWord(x: word, p: nat, c: nat, q: nat): nat
    requires p > 0
  {
    x / p + c * q
  }

  lemma InWordFits(x: word, p: nat, c: nat, q: nat)
    requires Splits(p, q) && c < p
    ensures InWord(x, p, c, q) < 0x1_0000_0000
  {
    ShrWord(x, p, q, c);
  }

  lemma InWordMore(r: seq<word>, c: nat, v: seq<word>, p: nat, q: nat, x: word)
    requires ShiftedRight(r, c, v, p) && Splits(p, q) && c < p && InWord(x, p, c, q) < 0x1_0000_0000
    ensures ShiftedRight([InWord(x, p, c, q)] + r, x % p, [x] + v, p)
  {
    hide Num, ShiftedRight;
    RightMore(r, c, v, p, q, x, InWord(x, p, c, q));
  }

  lemma RightStep(r: seq<word>, c: nat, v: seq<word>, i: nat, p: nat, q: nat)
    requires 0 < i <= |v| && ShiftedRight(r, c, v[i..], p) && Splits(p, q) && p > 0
    ensures InWord(v[i - 1], p, c, q) < 0x1_0000_0000
    ensures ShiftedRight([InWord(v[i - 1], p, c, q)] + r, v[i - 1] % p, v[i - 1..], p)
  {
    hide *;
    RightCarry(r, c, v[i..], p);
    InWordFits(v[i - 1], p, c, q);
    InWordMore(r, c, v[i..], p, q, v[i - 1]);
    assert v[i - 1..] == [v[i - 1]] + v[i..];
  }

  lemma RightCarry(r: seq<word>, c: nat, v: seq<word>, p: nat)
    requires ShiftedRight(r, c, v, p)
    ensures c < p
  {
    hide Num;
  }

  lemma NoneRight(p: nat)
    requires p > 0
    ensures ShiftedRight([], 0, [], p)
  {
  }

  /** The bits that fall out of a word, shifted up to where they come into the next. */
  lemma CarryUp(x: nat, p: nat, q: nat)
    requires Splits(p, q)
    ensures x * q % 0x1_0000_0000 == x % p * q
  {
    var t, m := x / p, x % p;
    Regroup(t, p, m, q, x);
    assert m * q <= (p - 1) * q by { TimesUp(m, p - 1, q); }
    OneLess(p, q);
    Remainder(x * q, t, m * q);
  }

  lemma Regroup(t: nat, p: nat, m: nat, q: nat, x: nat)
    requires p * q == 0x1_0000_0000 && x == t * p + m
    ensures x * q == t * 0x1_0000_0000 + m * q
  {
    assert (t * p + m) * q == t * (p * q) + m * q;
  }

  lemma TimesUp(m: nat, n: nat, q: nat)
    requires m <= n
    ensures m * q <= n * q
  {
  }

  lemma OneLess(p: nat, q: nat)
    requires p > 0 && q > 0
    ensures (p - 1) * q == p * q - q
  {
  }

  lemma Remainder(y: nat, t: nat, r: nat)
    requires y == t * 0x1_0000_0000 + r && r < 0x1_0000_0000
    ensures y % 0x1_0000_0000 == r
  {
  }

  lemma InWordIs(x: word, p: nat, c: nat, q: nat)
    requires p > 0
    ensures InWord(x, p, c, q) == x / p + c * q
  {
  }

  /** operator>>: the number divided by a power of two. */
  method Shr(v: UintX4, shift: nat) returns (r: UintX4)
    requires shift < 128
    ensures Pow2(shift) > 0 && Value(r) == Value(v) / Pow2(shift)
  {
    hide *;
    var shiftdiv: nat, shiftmod: nat := shift / 32, shift % 32;
    var p: nat, q: nat := Pow2(shiftmod), Pow2(32 - shiftmod);
    SplitsAt(shiftmod);
    SplitParts(p, q);
    var ws := Words(v);
    var rs: seq<word> := [];
    var carryover: nat := 0;
    ghost var rest: nat := 0;
    var i: nat := 4;
    NoneRight(p);
    assert ws[4..] == [];
    while i > shiftdiv
      invariant shiftdiv <= i <= 4 && |rs| == 4 - i && ShiftedRight(rs, rest, ws[i..], p) && carryover == rest * q
      decreases i
    {
      RightStep(rs, rest, ws, i, p, q);
      InWordIs(ws[i - 1], p, rest, q);
      CarryUp(ws[i - 1], p, q);
      rs := [ws[i - 1] / p + carryover] + rs;
      carryover := ws[i - 1] * q % 0x1_0000_0000;
      rest := ws[i - 1] % p;
      i := i - 1;
    }
    r := FromWords(rs + Zeros(shiftdiv));
    FromNum(rs + Zeros(shiftdiv));
    RightWhole(v, rs, rest, shift, shiftdiv, shiftmod);
  }

  lemma RightWhole(v: UintX4, rs: seq<word>, c: nat, shift: nat, shiftdiv: nat, shiftmod: nat)
    requires shift == 32 * shiftdiv + shiftmod && shiftdiv < 4
    requires ShiftedRight(rs, c, Words(v)[shiftdiv..], Pow2(shiftmod))
    ensures Pow2(shift) > 0 && Num(rs + Zeros(shiftdiv)) == Value(v) / Pow2(shift)
  {
    hide *;
    var ws := Words(v);
    var p, a, lo := Pow2(shiftmod), Base(shiftdiv), Num(ws[..shiftdiv]);
    NumIs(v);
    assert ws == ws[..shiftdiv] + ws[shiftdiv..];
    NumAppend(ws[..shiftdiv], ws[shiftdiv..]);
    NumBound(ws[..shiftdiv]);
    NumAppend(rs, Zeros(shiftdiv));
    NumZeros(shiftdiv);
    PowShift(shift, shiftdiv, shiftmod);
    RightEquation(rs, c, ws[shiftdiv..], p);
    RightMod(lo, Num(rs), c, p, a);
    ModIs(Value(v), Num(rs), lo + a * c, Pow2(shift));
  }

  lemma RightEquation(r: seq<word>, c: nat, v: seq<word>, p: nat)
    requires ShiftedRight(r, c, v, p)
    ensures Num(v) == p * Num(r) + c && c < p
  {
    hide Num;
  }

  lemma RightMod(lo: nat, r: nat, c: nat, p: nat, a: nat)
    requires lo < a && c < p
    ensures lo + a * (p * r + c) == r * (a * p) + (lo + a * c) && lo + a * c < a * p
  {
    assert a * (p * r + c) == r * (a * p) + a * c;
    MulMono(c, p - 1, a);
    assert (p - 1) * a == a * p - a;
  }

  // ---------- comparison and the highest bit ----------

  /** operator< */
  function Less(a: UintX4, b: UintX4): (r: bool)
    ensures r <==> Value(a) < Value(b)
  {
    V23(a) < V23(b) || (V23(a) == V23(b) && V01(a) < V01(b))
  }

  lemma FlogIs(v: nat, k: nat)
    requires v > 0 && Pow2(k) <= v < Pow2(k + 1)
    ensures Flog2(v) == k
  {
    if Flog2(v) < k { Pow2Mono(Flog2(v) + 1, k); }
    if k < Flog2(v) { Pow2Mono(k + 1, Flog2(v)); }
  }

  /** flog2 of four words: the first one from the top that is not zero tells. */
  method Flog2X4(v: UintX4) returns (k: nat)
    requires Value(v) > 0
    ensures k == Flog2(Value(v)) && k < 128
  {
    hide *;
    NumIs(v);
    var ws := Words(v);
    var i: nat := 4;
    assert ws[..4] == ws;
    while i > 0 && ws[i - 1] == 0
      invariant i <= 4 && Num(ws[..i]) == Value(v)
      decreases i
    {
      TopZero(ws, i);
      i := i - 1;
    }
    if i == 0 {
      NoNum(ws[..0]);
      assert false;
    }
    TopWord(ws, i);
    k := Flog2(ws[i - 1]) + 32 * (i - 1);
  }

  lemma NoNum(u: seq<word>)
    requires u == []
    ensures Num(u) == 0
  {
  }

  lemma TopZero(ws: seq<word>, i: nat)
    requires 0 < i <= |ws| && ws[i - 1] == 0
    ensures Num(ws[..i]) == Num(ws[..i - 1])
  {
    hide Num, Base;
    assert ws[..i] == ws[..i - 1] + [ws[i - 1]];
    NumAppend(ws[..i - 1], [ws[i - 1]]);
    OneWord(ws[i - 1]);
  }

  lemma TopWord(ws: seq<word>, i: nat)
    requires 0 < i <= |ws| && ws[i - 1] > 0 && Num(ws[..i]) > 0
    ensures Flog2(Num(ws[..i])) == Flog2(ws[i - 1]) + 32 * (i - 1) && Flog2(ws[i - 1]) < 32
  {
    hide Num, Base, Flog2, Pow2;
    var x, k, b, lo := ws[i - 1], Flog2(ws[i - 1]), Base(i - 1), Num(ws[..i - 1]);
    assert ws[..i] == ws[..i - 1] + [x];
    NumAppend(ws[..i - 1], [x]);
    OneWord(x);
    NumBound(ws[..i - 1]);
    PowBase(k, i - 1);
    PowBase(k + 1, i - 1);
    Below32(x, k);
    Spread(Pow2(k), x, Pow2(k + 1), b, lo);
    FlogIs(Num(ws[..i]), k + 32 * (i - 1));
  }

  lemma Spread(p: nat, x: nat, p': nat, b: nat, lo: nat)
    requires p <= x < p' && lo < b
    ensures p * b <= lo + b * x < p' * b
  {
    MulMono(p, x, b);
    MulMono(x, p' - 1, b);
    LastStep(p', b);
  }

  lemma PowBase(k: nat, n: nat)
    ensures Pow2(k + 32 * n) == Pow2(k) * Base(n)
  {
    Pow2Add(k, 32 * n);
  }

  lemma LastStep(p: nat, b: nat)
    ensures (p - 1) * b == p * b - b
  {
  }

  lemma Below32(x: word, k: nat)
    requires Pow2(k) <= x
    ensures k < 32
  {
    if k >= 32 {
      Pow2Mono(32, k);
      Pow2Values();
    }
  }
}

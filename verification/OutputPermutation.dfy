/** The invertible output function of the generators whose result is as wide as their state: xorshifts,
    a shift by a few leading bits of the state itself, and a multiplication. */
module OutputPermutation {
  import opened Powers
  import opened Bits
  import opened Lcg

  // ---------- xorshift on bit strings, most significant bit first ----------

  /** x ^ (x >> s) */
  function ShiftXor(x: seq<bool>, s: nat): (r: seq<bool>)
    ensures |r| == |x|
  {
    seq(|x|, i requires 0 <= i < |x| => if i < s then x[i] else x[i] != x[i - s])
  }

  /** unxorshift: the top 2s bits first, the rest recursively. */
  function UnXorShift(x: seq<bool>, s: nat): (r: seq<bool>)
    requires s >= 1
    ensures |r| == |x|
    decreases |x|
  {
    if 2 * s >= |x| then ShiftXor(x, s)
    else
      var top1 := ShiftXor(x, s)[..2 * s];
      var bottom2 := UnXorShift((top1 + x[2 * s..])[s..], s);
      top1 + bottom2[s..]
  }

  lemma ShiftXorAt(x: seq<bool>, s: nat, i: nat)
    requires i < |x|
    ensures ShiftXor(x, s)[i] == if i < s then x[i] else x[i] != x[i - s]
  {
  }

  lemma {:induction false} Unshifts(x: seq<bool>, s: nat)
    requires s >= 1
    ensures UnXorShift(ShiftXor(x, s), s) == x
    decreases |x|
  {
    var n, y := |x|, ShiftXor(x, s);
    var t := ShiftXor(y, s);
    forall i | 0 <= i < n && i < 2 * s ensures t[i] == x[i] { ShiftXorAt(y, s, i); }
    if 2 * s >= n {
      assert t == x;
    } else {
      var z := x[s..];
      var rest := (t[..2 * s] + y[2 * s..])[s..];
      assert rest == ShiftXor(z, s) by {
        forall i | 0 <= i < n - s ensures rest[i] == ShiftXor(z, s)[i] { ShiftXorAt(z, s, i); }
      }
      Unshifts(z, s);
      assert t[..2 * s] + z[s..] == x;
    }
  }

  lemma {:induction false} Reshifts(x: seq<bool>, s: nat)
    requires s >= 1
    ensures ShiftXor(UnXorShift(x, s), s) == x
    decreases |x|
  {
    var n, r, t := |x|, UnXorShift(x, s), ShiftXor(x, s);
    if 2 * s >= n {
      forall i | 0 <= i < n ensures ShiftXor(r, s)[i] == x[i] { ShiftXorAt(r, s, i); }
    } else {
      var rest := (t[..2 * s] + x[2 * s..])[s..];
      var b := UnXorShift(rest, s);
      Reshifts(rest, s);
      assert r == t[..2 * s] + b[s..];
      hide UnXorShift;
      forall i | 0 <= i < n ensures ShiftXor(r, s)[i] == x[i] { ReshiftAt(x, s, i, t, rest, b, r); }
    }
  }

  lemma ReshiftAt(x: seq<bool>, s: nat, i: nat, t: seq<bool>, rest: seq<bool>, b: seq<bool>, r: seq<bool>)
    requires s >= 1 && 2 * s < |x| == |r| && t == ShiftXor(x, s) && rest == (t[..2 * s] + x[2 * s..])[s..]
    requires |b| == |rest| && ShiftXor(b, s) == rest && r == t[..2 * s] + b[s..] && i < |x|
    ensures ShiftXor(r, s)[i] == x[i]
  {
    ShiftXorAt(r, s, i);
    ShiftXorAt(x, s, i);
    if i >= s { ShiftXorAt(x, s, i - s); }
    if i >= 2 * s {
      ShiftXorAt(b, s, i - s);
      assert rest[i - s] == x[i];
      if i < 3 * s {
        ShiftXorAt(b, s, i - 2 * s);
        assert rest[i - 2 * s] == t[i - s];
      }
    }
  }

  // ---------- the output function ----------

  function XorShift(x: nat, w: nat, s: nat): nat {
    ToNat(ShiftXor(BitsOf(x, w), s))
  }

  function UnXorShiftOf(x: nat, w: nat, s: nat): nat
    requires s >= 1
  {
    ToNat(UnXorShift(BitsOf(x, w), s))
  }

  /** The constants of one width: how many leading bits choose the shift, the multiplier and its inverse. */
  datatype Width = Width(bits: nat, opbits: nat, multiplier: nat, unmultiplier: nat)

  function Times(x: nat, a: nat, m: nat): (r: nat)
    requires m > 0
    ensures r < m
  {
    x * a % m
  }

  ghost predicate Fits(d: Width) {
    1 <= d.opbits <= d.bits && d.multiplier * d.unmultiplier % Pow2(d.bits) == 1
  }

  /** rxs_m_xs_mixin::output, result and state equally wide. */
  function Output(d: Width, x: nat): nat
    requires d.opbits <= d.bits
  {
    var rshift := Shr(x, d.bits - d.opbits);
    var y := XorShift(x, d.bits, d.opbits + rshift);
    var z := Times(y, d.multiplier, Pow2(d.bits));
    XorShift(z, d.bits, (2 * d.bits + 2) / 3)
  }

  /** rxs_m_xs_mixin::unoutput */
  function Unoutput(d: Width, r: nat): nat
    requires 1 <= d.opbits <= d.bits
  {
    var z := UnXorShiftOf(r, d.bits, (2 * d.bits + 2) / 3);
    var y := Times(z, d.unmultiplier, Pow2(d.bits));
    var rshift := Shr(y, d.bits - d.opbits);
    UnXorShiftOf(y, d.bits, d.opbits + rshift)
  }

  lemma Inverses(x: nat, w: nat, s: nat)
    requires s >= 1 && x < Pow2(w)
    ensures UnXorShiftOf(XorShift(x, w, s), w, s) == x && XorShift(UnXorShiftOf(x, w, s), w, s) == x
    ensures XorShift(x, w, s) < Pow2(w) && UnXorShiftOf(x, w, s) < Pow2(w)
  {
    hide Pow2, ShiftXor, UnXorShift, ToNat, BitsOf;
    var u := BitsOf(x, w);
    OfToNat(ShiftXor(u, s));
    OfToNat(UnXorShift(u, s));
    ToNatBound(ShiftXor(u, s));
    ToNatBound(UnXorShift(u, s));
    Unshifts(u, s);
    Reshifts(u, s);
    ToNatOf(x, w);
  }

  /** Leading bits no further in than the shift are not changed. */
  lemma LeadingBits(x: nat, w: nat, k: nat, s: nat)
    requires k <= w && k <= s && x < Pow2(w)
    ensures Shr(XorShift(x, w, s), w - k) == Shr(x, w - k)
  {
    hide Pow2, ToNat, BitsOf, Shr;
    var u := BitsOf(x, w);
    var v := ShiftXor(u, s);
    OfToNat(v);
    ToNatBound(v);
    Leading(x, w, k);
    Leading(ToNat(v), w, k);
    assert v[..k] == u[..k];
  }

  lemma Leading(x: nat, w: nat, k: nat)
    requires k <= w && x < Pow2(w)
    ensures Shr(x, w - k) == ToNat(BitsOf(x, w)[..k])
  {
    BitsSplit(x, k, w - k);
    ShrBelow(x, k, w - k);
    ToNatOf(Shr(x, w - k), k);
  }

  lemma {:induction false} ShrBelow(x: nat, k: nat, n: nat)
    requires x < Pow2(k + n)
    ensures Shr(x, n) < Pow2(k)
    decreases n
  {
    if n > 0 { ShrBelow(x / 2, k, n - 1); }
  }

  /** Multiplying by the multiplier and by its inverse. */
  lemma Unmultiplied(x: nat, a: nat, b: nat, m: nat)
    requires x < m && a * b % m == 1
    ensures Times(Times(x, a, m), b, m) == x
  {
    ModAffine(b, x * a, 0, m);
    assert (x * a % m) * b == b * (x * a % m);
    assert b * (x * a) == (a * b) * x;
    ModAffine(a * b, x, 0, m);
    ModIs(x, 0, x, m);
  }

  /** unoutput and output are inverse to each other on all states. */
  lemma OutputInvertible(d: Width, x: nat, m: nat)
    requires Fits(d) && m == Pow2(d.bits) && x < m
    ensures Unoutput(d, Output(d, x)) == x && Output(d, Unoutput(d, x)) == x
  {
    Forth(d, x, m);
    Back(d, x, m);
  }

  lemma FitsParts(d: Width, m: nat)
    requires Fits(d) && m == Pow2(d.bits)
    ensures 1 <= d.opbits <= d.bits && d.multiplier * d.unmultiplier % m == 1 && d.unmultiplier * d.multiplier % m == 1 && (2 * d.bits + 2) / 3 >= 1
  {
    assert d.multiplier * d.unmultiplier == d.unmultiplier * d.multiplier;
  }

  lemma Forth(d: Width, x: nat, m: nat)
    requires Fits(d) && m == Pow2(d.bits) && x < m
    ensures Unoutput(d, Output(d, x)) == x
  {
    hide Pow2, XorShift, UnXorShiftOf, Shr, Times, Fits;
    FitsParts(d, m);
    var s := d.opbits + Shr(x, d.bits - d.opbits);
    var y := XorShift(x, d.bits, s);
    var z := Times(y, d.multiplier, m);
    Inverses(x, d.bits, s);
    Inverses(z, d.bits, (2 * d.bits + 2) / 3);
    Unmultiplied(y, d.multiplier, d.unmultiplier, m);
    LeadingBits(x, d.bits, d.opbits, s);
  }

  lemma Back(d: Width, x: nat, m: nat)
    requires Fits(d) && m == Pow2(d.bits) && x < m
    ensures Output(d, Unoutput(d, x)) == x
  {
    hide Pow2, XorShift, UnXorShiftOf, Shr, Times, Fits;
    FitsParts(d, m);
    var z := UnXorShiftOf(x, d.bits, (2 * d.bits + 2) / 3);
    var y := Times(z, d.unmultiplier, m);
    var s := d.opbits + Shr(y, d.bits - d.opbits);
    var t := UnXorShiftOf(y, d.bits, s);
    Inverses(x, d.bits, (2 * d.bits + 2) / 3);
    Inverses(y, d.bits, s);
    Unmultiplied(z, d.unmultiplier, d.multiplier, m);
    LeadingBits(t, d.bits, d.opbits, s);
  }

  const WIDTH8 := Width(8, 2, 217, 105)
  const WIDTH16 := Width(16, 3, 62169, 28009)
  const WIDTH32 := Width(32, 4, 277803737, 2897767785)
  const WIDTH64 := Width(64, 5, 12605985483714917081, 15009553638781119849)
  const WIDTH128 := Width(128, 6, 17766728186571221404 * 0x1_0000_0000_0000_0000 + 12605985483714917081,
                          14422606686972528997 * 0x1_0000_0000_0000_0000 + 15009553638781119849)

  const TWO64: nat := 0x1_0000_0000_0000_0000

  lemma Powers64()
    ensures Pow2(64) == TWO64 && Pow2(128) == TWO64 * TWO64
  {
    Pow2Values();
    Pow2Add(32, 32);
    Pow2Add(64, 64);
    hide Pow2;
  }

  lemma SmallWidthsFit()
    ensures Fits(WIDTH8) && Fits(WIDTH16) && Fits(WIDTH32)
  {
    Pow2Values();
    hide Pow2;
  }

  lemma BigWidthsFit()
    ensures Fits(WIDTH64) && Fits(WIDTH128)
  {
    Powers64();
    hide Pow2;
  }
}

/** Bit strings, most significant bit first. */
module Bits {
  import opened Powers

  function BitsOf(v: nat, n: nat): (r: seq<bool>)
    ensures |r| == n
  {
    if n == 0 then [] else BitsOf(v / 2, n - 1) + [v % 2 == 1]
  }

  function ToNat(bits: seq<bool>): nat {
    if bits == [] then 0
    else 2 * ToNat(bits[..|bits| - 1]) + if bits[|bits| - 1] then 1 else 0
  }

  lemma {:induction false} ToNatOf(v: nat, n: nat)
    requires v < Pow2(n)
    ensures ToNat(BitsOf(v, n)) == v
  {
    if n > 0 {
      ToNatOf(v / 2, n - 1);
      assert BitsOf(v, n)[..n - 1] == BitsOf(v / 2, n - 1);
    }
  }

  lemma {:induction false} ToNatBound(bits: seq<bool>)
    ensures ToNat(bits) < Pow2(|bits|)
  {
    if bits != [] { ToNatBound(bits[..|bits| - 1]); }
  }

  lemma {:induction false} OfToNat(bits: seq<bool>)
    ensures BitsOf(ToNat(bits), |bits|) == bits
  {
    if bits != [] {
      OfToNat(bits[..|bits| - 1]);
      assert bits == bits[..|bits| - 1] + [bits[|bits| - 1]];
    }
  }

  /** The value of the first k of n bits. */
  function Top(v: nat, n: nat, k: nat): nat
    requires k <= n
    decreases n - k
  {
    if k == n then v else Top(v, n, k + 1) / 2
  }

  lemma {:induction false} TopBits(v: nat, n: nat, k: nat)
    requires k <= n
    ensures BitsOf(v, n)[..k] == BitsOf(Top(v, n, k), k)
    decreases n - k
  {
    if k < n {
      TopBits(v, n, k + 1);
      var u := Top(v, n, k + 1);
      assert BitsOf(u, k + 1)[..k] == BitsOf(u / 2, k);
      assert BitsOf(v, n)[..k] == BitsOf(v, n)[..k + 1][..k];
    }
  }

  lemma {:induction false} TopBound(v: nat, n: nat, k: nat)
    requires k <= n && v < Pow2(n)
    ensures Top(v, n, k) < Pow2(k)
    decreases n - k
  {
    if k < n { TopBound(v, n, k + 1); }
  }

  lemma ToNatTop(v: nat, n: nat, k: nat)
    requires k <= n && v < Pow2(n)
    ensures ToNat(BitsOf(v, n)[..k]) == Top(v, n, k)
  {
    TopBits(v, n, k);
    TopBound(v, n, k);
    ToNatOf(Top(v, n, k), k);
  }

  // ---------- shifts and masks ----------

  /** v << k on numbers wide enough. */
  function Shl(v: nat, k: nat): nat { if k == 0 then v else 2 * Shl(v, k - 1) }

  /** v >> k */
  function Shr(v: nat, k: nat): nat { if k == 0 then v else Shr(v / 2, k - 1) }

  /** v & ((1 << n) - 1) */
  function Low(v: nat, n: nat): nat { if n == 0 then 0 else 2 * Low(v / 2, n - 1) + v % 2 }

  function Zeros(n: nat): (r: seq<bool>)
    ensures |r| == n
  {
    seq(n, _ => false)
  }

  lemma {:induction false} ShlIs(v: nat, k: nat)
    ensures Shl(v, k) == v * Pow2(k)
  {
    if k > 0 {
      ShlIs(v, k - 1);
      assert 2 * (v * Pow2(k - 1)) == v * (2 * Pow2(k - 1));
    }
  }

  lemma {:induction false} ShlAdd(v: nat, j: nat, k: nat)
    ensures Shl(v, j + k) == Shl(Shl(v, j), k)
  {
    if k > 0 { ShlAdd(v, j, k - 1); }
  }

  lemma {:induction false} LowIs(v: nat, n: nat)
    ensures Low(v, n) == ToNat(BitsOf(v, n))
  {
    if n > 0 {
      LowIs(v / 2, n - 1);
      assert BitsOf(v, n)[..n - 1] == BitsOf(v / 2, n - 1);
    }
  }

  /** The first m and the last n of m + n bits. */
  lemma {:induction false} BitsSplit(w: nat, m: nat, n: nat)
    ensures BitsOf(w, m + n) == BitsOf(Shr(w, n), m) + BitsOf(w, n)
  {
    if n > 0 { BitsSplit(w / 2, m, n - 1); }
  }

  lemma {:induction false} BitsJoin(u: nat, v: nat, m: nat, n: nat)
    requires v < Pow2(n)
    ensures BitsOf(Shl(u, n) + v, m + n) == BitsOf(u, m) + BitsOf(v, n)
  {
    if n > 0 {
      BitsJoin(u, v / 2, m, n - 1);
      assert (Shl(u, n) + v) / 2 == Shl(u, n - 1) + v / 2;
    } else {
      assert BitsOf(u, m) + BitsOf(v, 0) == BitsOf(u, m);
    }
  }

  /** Only the low n bits of the number matter. */
  lemma {:induction false} BitsSame(u: nat, v: nat, n: nat)
    ensures BitsOf(Shl(u, n) + v, n) == BitsOf(v, n)
  {
    if n > 0 {
      BitsSame(u, v / 2, n - 1);
      assert (Shl(u, n) + v) / 2 == Shl(u, n - 1) + v / 2;
    }
  }

  lemma {:induction false} BitsZero(n: nat)
    ensures BitsOf(0, n) == Zeros(n)
  {
    if n > 0 { BitsZero(n - 1); }
  }

  /** OR-ing n bits under m bits whose n low places are clear. */
  lemma {:induction false} AddLow(x: nat, v: nat, m: nat, n: nat)
    requires x < Pow2(m + n) && BitsOf(x, m + n)[m..] == Zeros(n) && v < Pow2(n)
    ensures x + v < Pow2(m + n)
    ensures BitsOf(x + v, m + n) == BitsOf(x, m + n)[..m] + BitsOf(v, n)
    decreases n
  {
    var b := BitsOf(x, m + n);
    if n > 0 {
      assert b[m..][n - 1] == false;
      assert BitsOf(x / 2, m + n - 1) == b[..m + n - 1];
      assert b[..m + n - 1][m..] == b[m..][..n - 1] == Zeros(n - 1);
      AddLow(x / 2, v / 2, m, n - 1);
      assert (x + v) / 2 == x / 2 + v / 2;
      assert b[..m + n - 1][..m] == b[..m];
    } else {
      assert b[..m] + BitsOf(v, 0) == b;
    }
  }

  /** OR-ing n bits in k places up. */
  lemma {:induction false} AddShifted(x: nat, v: nat, m: nat, n: nat, k: nat)
    requires x < Pow2(m + n + k) && BitsOf(x, m + n + k)[m..] == Zeros(n + k) && v < Pow2(n)
    ensures x + Shl(v, k) < Pow2(m + n + k)
    ensures BitsOf(x + Shl(v, k), m + n + k) == BitsOf(x, m + n + k)[..m] + BitsOf(v, n) + Zeros(k)
    decreases k
  {
    var b := BitsOf(x, m + n + k);
    if k > 0 {
      assert b[m..][n + k - 1] == false;
      assert BitsOf(x / 2, m + n + k - 1) == b[..m + n + k - 1];
      assert b[..m + n + k - 1][m..] == b[m..][..n + k - 1] == Zeros(n + k - 1);
      AddShifted(x / 2, v, m, n, k - 1);
      assert (x + Shl(v, k)) / 2 == x / 2 + Shl(v, k - 1);
      assert b[..m + n + k - 1][..m] == b[..m];
      assert Zeros(k) == Zeros(k - 1) + [false];
    } else {
      assert b[m..] == Zeros(n);
      AddLow(x, v, m, n);
    }
  }
}

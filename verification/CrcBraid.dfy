/** The CRC of whole words, and the interleaved form that keeps several independent registers: each word's part
    is carried over n words at once, from tables of multiples. */
module CrcBraid {
  import opened CrcBytes
  import opened CrcField
  import opened CrcPowers
  import opened Powers

  // ---------- words ----------

  /** The little-endian word of the bytes. */
  function Word(bs: seq<bv8>): bv64
    decreases |bs|
  {
    if bs == [] then 0 else Xor(Wide(bs[0]), Up(Word(bs[1..])))
  }

  function Up(w: bv64): bv64 { w << 8 }

  /** Nothing from byte n on. */
  ghost predicate Fits(w: bv64, n: nat)
    decreases n
  {
    if n == 0 then w == 0 else Fits(Off(w), n - 1)
  }

  lemma FitsStep(w: bv64, n: nat)
    ensures Fits(w, n) <==> if n == 0 then w == 0 else Fits(Off(w), n - 1)
  {
  }

  lemma {:induction false} FitsMore(w: bv64, n: nat)
    requires Fits(w, n)
    ensures Fits(w, n + 1)
    decreases n
  {
    hide *;
    FitsStep(w, n);
    FitsStep(w, n + 1);
    FitsStep(Off(w), 0);
    NoneOff();
    if n > 0 { FitsMore(Off(w), n - 1); }
  }

  lemma NoneOff()
    ensures Off(0) == 0
  {
  }

  lemma {:induction false} FitsUpTo(w: bv64, n: nat, m: nat)
    requires Fits(w, n) && n <= m
    ensures Fits(w, m)
    decreases m
  {
    hide *;
    if n < m {
      FitsUpTo(w, n, m - 1);
      FitsMore(w, m - 1);
    }
  }

  lemma SevenFit(w: bv64)
    requires Fits(w, 7)
    ensures Off(Up(w)) == w
  {
    hide *;
    FourFit(w, 7);
    FourFit(Off(Off(Off(Off(w)))), 3);
    SevenShift(w);
  }

  lemma FourFit(w: bv64, n: nat)
    requires Fits(w, n)
    ensures n >= 4 ==> Fits(Off(Off(Off(Off(w)))), n - 4)
    ensures n == 3 ==> Off(Off(Off(w))) == 0
  {
    hide Off;
    FitsStep(w, n);
    if n > 0 { FitsStep(Off(w), n - 1); }
    if n > 1 { FitsStep(Off(Off(w)), n - 2); }
    if n > 2 { FitsStep(Off(Off(Off(w))), n - 3); }
  }

  lemma SevenShift(w: bv64)
    requires Off(Off(Off(Off(Off(Off(Off(w))))))) == 0
    ensures Off(Up(w)) == w
  {
  }

  lemma LowAndUp(b: bv8, w: bv64)
    ensures Off(Xor(Wide(b), Up(w))) == Off(Up(w)) && Up(w) & 0xff == 0 && Low(Xor(Wide(b), Up(w))) == b
  {
  }

  lemma WordStep(bs: seq<bv8>)
    ensures Word(bs) == if bs == [] then 0 else Xor(Wide(bs[0]), Up(Word(bs[1..])))
  {
    hide Xor, Wide, Up;
  }

  lemma {:induction false} WordFits(bs: seq<bv8>)
    requires |bs| <= 8
    ensures Fits(Word(bs), |bs|)
    decreases |bs|
  {
    hide *;
    WordStep(bs);
    FitsStep(Word(bs), |bs|);
    if bs != [] {
      WordFits(bs[1..]);
      FitsUpTo(Word(bs[1..]), |bs[1..]|, 7);
      SevenFit(Word(bs[1..]));
      LowAndUp(bs[0], Word(bs[1..]));
    }
  }

  /** Adding a whole word and stepping over it feeds its bytes in order. */
  lemma {:induction false} WordFeeds(c: bv64, bs: seq<bv8>)
    requires |bs| <= 8
    ensures Sn(Xor(c, Word(bs)), 8 * |bs|) == Feed(c, bs)
    decreases |bs|
  {
    hide *;
    WordStep(bs);
    FeedStep(c, bs);
    if bs == [] {
      XorZero(c);
      NoSteps(c);
    } else {
      var b: bv64, w: bv64 := Wide(bs[0]), Word(bs[1..]);
      XorAssoc(c, b, Up(w));
      SnLinear(Xor(c, b), Up(w), 8);
      WordFits(bs[1..]);
      FitsUpTo(w, |bs[1..]|, 7);
      SevenFit(w);
      LowAndUp(bs[0], w);
      UpSteps(w);
      SnAdd(Xor(c, Word(bs)), 8, 8 * |bs[1..]|);
      WordFeeds(Sn(Xor(c, b), 8), bs[1..]);
    }
  }

  lemma UpSteps(w: bv64)
    requires Up(w) & 0xff == 0
    ensures Sn(Up(w), 8) == Off(Up(w))
  {
    hide Sn, Up;
    ShiftEight(Up(w));
  }

  // ---------- the register over words ----------

  /** The register after words of w bytes. */
  function Words(c: bv64, ws: seq<bv64>, w: nat): bv64
    decreases |ws|
  {
    if ws == [] then c else Words(Sn(Xor(c, ws[0]), 8 * w), ws[1..], w)
  }

  lemma WordsStep(c: bv64, ws: seq<bv64>, w: nat)
    ensures Words(c, ws, w) == if ws == [] then c else Words(Sn(Xor(c, ws[0]), 8 * w), ws[1..], w)
  {
    hide Sn, Xor;
  }

  /** Something in the register may instead be added to a later word, multiplied over the words between. */
  lemma {:induction false} Carry(c: bv64, a: bv64, ws: seq<bv64>, w: nat, j: nat, wj: nat)
    requires j < |ws| && wj == w * j
    ensures Words(Xor(c, a), ws, w) == Words(c, ws[j := Xor(ws[j], Sn(a, 8 * wj))], w)
    decreases j
  {
    hide *;
    ghost var vs := ws[j := Xor(ws[j], Sn(a, 8 * wj))];
    WordsStep(Xor(c, a), ws, w);
    WordsStep(c, vs, w);
    if j == 0 {
      Peel(w, j);
      NoSteps(a);
      XorAssoc(c, a, ws[0]);
      XorSwap(a, ws[0]);
      assert vs[1..] == ws[1..];
    } else {
      Peel(w, j);
      ghost var rest: nat := w * (j - 1);
      Distribute(w, rest, wj);
      XorPairs(c, a, ws[0], 0);
      XorZero(ws[0]);
      XorZero(a);
      SnLinear(Xor(c, ws[0]), a, 8 * w);
      SnAdd(a, 8 * w, 8 * rest);
      Carry(Sn(Xor(c, ws[0]), 8 * w), Sn(a, 8 * w), ws[1..], w, j - 1, rest);
      assert vs[1..] == ws[1..][j - 1 := Xor(ws[j], Sn(a, 8 * wj))];
    }
  }

  lemma Distribute(w: nat, rest: nat, wj: nat)
    requires wj == w + rest
    ensures 8 * wj == 8 * w + 8 * rest
  {
  }

  // ---------- braids ----------

  /** The words with the registers of the braids added to the first of them. */
  ghost function Merge(cs: seq<bv64>, ws: seq<bv64>): (m: seq<bv64>)
    ensures |m| == |ws|
    decreases |cs|
  {
    if cs == [] || ws == [] then ws else [Xor(ws[0], cs[0])] + Merge(cs[1..], ws[1..])
  }

  /** Each word carried over e steps. */
  ghost function Lift(vs: seq<bv64>, e: nat): (r: seq<bv64>)
    ensures |r| == |vs|
    decreases |vs|
  {
    if vs == [] then [] else [Sn(vs[0], e)] + Lift(vs[1..], e)
  }

  /** The first word may be taken out and carried over n words. */
  lemma TakeOne(v: bv64, ws: seq<bv64>, w: nat, n: nat, e: nat)
    requires 0 < n <= |ws| && e == 8 * (w * n)
    ensures Words(0, [v] + ws, w) == Words(0, ws[n - 1 := Xor(ws[n - 1], Sn(v, e))], w)
  {
    hide *;
    assert ([v] + ws)[1..] == ws;
    WordsStep(0, [v] + ws, w);
    XorZero(v);
    XorZero(Sn(v, 8 * w));
    Peel(w, n);
    ghost var rest: nat := w * (n - 1);
    Distribute(w, rest, w * n);
    SnAdd(v, 8 * w, 8 * rest);
    Carry(0, Sn(v, 8 * w), ws, w, n - 1, rest);
  }

  /** The first words may be taken out and carried over n words, each by itself. */
  lemma {:induction false} BraidStep(vs: seq<bv64>, mid: seq<bv64>, rest: seq<bv64>, w: nat, n: nat, e: nat)
    requires |vs| + |mid| == n <= |mid| + |rest| && e == 8 * (w * n)
    ensures Words(0, vs + mid + rest, w) == Words(0, mid + Merge(Lift(vs, e), rest), w)
    decreases |vs|
  {
    hide *;
    LiftStep(vs, e);
    MergeStep(Lift(vs, e), rest);
    if vs == [] {
      assert vs + mid + rest == mid + rest;
    } else {
      ghost var r0 := Xor(rest[0], Sn(vs[0], e));
      ghost var ws := vs[1..] + mid + rest;
      assert vs + mid + rest == [vs[0]] + ws;
      TakeOne(vs[0], ws, w, n, e);
      assert ws[n - 1 := r0] == vs[1..] + (mid + [r0]) + rest[1..];
      BraidStep(vs[1..], mid + [r0], rest[1..], w, n, e);
      BraidMore(vs, mid, rest, r0, e);
    }
  }

  lemma BraidMore(vs: seq<bv64>, mid: seq<bv64>, rest: seq<bv64>, r0: bv64, e: nat)
    requires vs != [] && rest != [] && r0 == Xor(rest[0], Sn(vs[0], e))
    ensures (mid + [r0]) + Merge(Lift(vs[1..], e), rest[1..]) == mid + Merge(Lift(vs, e), rest)
  {
    hide *;
    LiftStep(vs, e);
    MergeStep(Lift(vs, e), rest);
    assert Lift(vs, e)[1..] == Lift(vs[1..], e);
    ghost var tail := Merge(Lift(vs[1..], e), rest[1..]);
    assert (mid + [r0]) + tail == mid + ([r0] + tail);
  }

  lemma LiftStep(vs: seq<bv64>, e: nat)
    ensures Lift(vs, e) == if vs == [] then [] else [Sn(vs[0], e)] + Lift(vs[1..], e)
  {
    hide Sn;
  }

  lemma MergeStep(cs: seq<bv64>, ws: seq<bv64>)
    ensures Merge(cs, ws) == if cs == [] || ws == [] then ws else [Xor(ws[0], cs[0])] + Merge(cs[1..], ws[1..])
  {
    hide Xor;
  }
}

/** The braided loop on words as a big-endian machine loads them: registers and tables are byte-swapped, and so
    is everything computed from them. */
module CrcBig {
  import opened CrcBlocks
  import opened CrcBraid
  import opened CrcBytes
  import opened CrcField
  import opened CrcPowers
  import opened CrcSwap
  import opened CrcTables

  // ---------- tables ----------

  /** A table with every entry swapped. */
  ghost predicate Swapped(big: seq<bv64>, little: seq<bv64>, w: nat) {
    |big| == |little| && forall i :: 0 <= i < |big| ==> big[i] == Swap(little[i], w)
  }

  method SwapTable(t: seq<bv64>, w: nat) returns (big: seq<bv64>)
    ensures Swapped(big, t, w)
  {
    hide Swap;
    big := [];
    for i: nat := 0 to |t|
      invariant |big| == i && forall j :: 0 <= j < i ==> big[j] == Swap(t[j], w)
    {
      big := big + [Swap(t[i], w)];
    }
  }

  /** The big-endian braid table: the rows swapped, and in the opposite order. */
  ghost predicate BigBraided(big: seq<seq<bv64>>, t: seq<seq<bv64>>, w: nat) {
    |big| == |t| == w && forall k :: 0 <= k < w ==> Swapped(big[k], t[w - 1 - k], w)
  }

  lemma BigRow(big: seq<seq<bv64>>, t: seq<seq<bv64>>, w: nat, k: nat)
    requires BigBraided(big, t, w) && k < w
    ensures |big| == |t| == w && Swapped(big[k], t[w - 1 - k], w)
  {
    hide Swapped;
  }

  /** braid, both tables. */
  method MakeBraids(n: nat, w: nat) returns (t: seq<seq<bv64>>, big: seq<seq<bv64>>)
    requires n >= 1
    ensures Braided(t, w, n * w) && BigBraided(big, t, w)
  {
    hide Braided, Swapped;
    t := MakeBraid(n, w);
    BraidSize(t, w, n * w);
    big := [];
    for k: nat := 0 to w
      invariant |big| == k && forall j :: 0 <= j < k ==> Swapped(big[j], t[w - 1 - j], w)
    {
      var row := SwapTable(t[w - 1 - k], w);
      big := big + [row];
    }
  }

  lemma BraidSize(t: seq<seq<bv64>>, w: nat, nw: nat)
    requires Braided(t, w, nw)
    ensures |t| == w
  {
    hide RowIs;
  }

  lemma SwappedAt(big: seq<bv64>, little: seq<bv64>, w: nat, i: nat)
    requires Swapped(big, little, w) && i < |little|
    ensures i < |big| && big[i] == Swap(little[i], w)
  {
    hide Swap;
  }

  // ---------- one word ----------

  /** What the lower bytes of a word add when it is carried over e steps. */
  ghost function Carried(v: bv64, e: nat, j: nat): bv64
    requires 8 * j <= e + 8
  {
    if j == 0 then 0 else Xor(Carried(v, e, j - 1), Sn(Wide(Low(Shifted(v, j - 1))), e + 8 - 8 * j))
  }

  lemma CarriedStep(v: bv64, e: nat, j: nat)
    requires 8 * j <= e + 8
    ensures Carried(v, e, j) == if j == 0 then 0 else Xor(Carried(v, e, j - 1), Sn(Wide(Low(Shifted(v, j - 1))), e + 8 - 8 * j))
  {
    hide Xor, Sn, Wide, Low, Shifted;
  }

  lemma {:induction false} CarriedRest(v: bv64, e: nat, j: nat)
    requires 8 * j <= e
    ensures Xor(Carried(v, e, j), Sn(Shifted(v, j), e - 8 * j)) == Sn(v, e)
    decreases j
  {
    hide *;
    CarriedStep(v, e, j);
    ShiftedStep(v, j);
    if j == 0 {
      XorZero(Sn(v, e));
    } else {
      var u := Shifted(v, j - 1);
      CarriedRest(v, e, j - 1);
      ByteOff(u, e - 8 * (j - 1));
      XorAssoc(Carried(v, e, j - 1), Sn(Wide(Low(u)), e + 8 - 8 * j), Sn(Off(u), e - 8 * j));
    }
  }

  /** All bytes of the word. */
  lemma CarriedAll(v: bv64, w: nat, nw: nat)
    requires Fits(v, w) && w <= nw
    ensures Carried(v, 8 * nw, w) == Sn(v, 8 * nw)
  {
    hide *;
    CarriedRest(v, 8 * nw, w);
    ShiftedFits(v, w, w);
    FitsStep(Shifted(v, w), 0);
    SnZero(8 * nw - 8 * w);
    XorZero(Carried(v, 8 * nw, w));
  }

  lemma CarryByteBig(big: seq<seq<bv64>>, t: seq<seq<bv64>>, v: bv64, w: nat, nw: nat, k: nat)
    requires Braided(t, w, nw) && BigBraided(big, t, w) && (w == 8 || w == 4) && k < w <= nw
    ensures |big| == w && Low(Shifted(Swap(v, w), k)) as int < |big[k]|
    ensures big[k][Low(Shifted(Swap(v, w), k)) as int] == Swap(Sn(Wide(Low(Shifted(v, w - 1 - k))), 8 * nw + 8 - 8 * (w - k)), w)
  {
    hide *;
    var j: nat := w - 1 - k;
    var b := Low(Shifted(v, j));
    BigRow(big, t, w, k);
    BraidRow(t, w, nw, j);
    RowAt(t[j], 8 * (nw - j), b);
    ByteSwapped(v, w, k);
    SwappedAt(big[k], t[j], w, b as int);
  }

  /** A swapped word carried over a block. */
  method CarryWordBig(big: seq<seq<bv64>>, word: bv64, w: nat, ghost nw: nat, ghost t: seq<seq<bv64>>, ghost v: bv64) returns (crc: bv64)
    requires Braided(t, w, nw) && BigBraided(big, t, w) && (w == 8 || w == 4) && w <= nw && Fits(v, w) && word == Swap(v, w)
    ensures crc == Swap(Sn(v, 8 * nw), w)
  {
    hide *;
    CarriedAll(v, w, nw);
    CarryByteBig(big, t, v, w, nw, 0);
    CarriedStep(v, 8 * nw, w);
    crc := big[0][Low(Shifted(word, 0)) as int];
    ghost var a := Sn(Wide(Low(Shifted(v, w - 1))), 8 * nw + 8 - 8 * w);
    for k: nat := 1 to w
      invariant |big| == w && crc == Swap(a, w) && Xor(Carried(v, 8 * nw, w - k), a) == Sn(v, 8 * nw)
    {
      CarryByteBig(big, t, v, w, nw, k);
      CarriedStep(v, 8 * nw, w - k);
      ghost var x := Sn(Wide(Low(Shifted(v, w - 1 - k))), 8 * nw + 8 - 8 * (w - k));
      XorAssoc(Carried(v, 8 * nw, w - k - 1), x, a);
      XorSwap(x, a);
      SwapLinear(a, x, w);
      crc := Xor(crc, big[k][Low(Shifted(word, k)) as int]);
      a := Xor(a, x);
    }
    CarriedStep(v, 8 * nw, 0);
    XorZero(a);
  }

  lemma SteppedFits(v: bv64, w: nat)
    requires Fits(v, w) && 4 <= w <= 8
    ensures Fits(Sn(v, 8), w)
  {
    hide *;
    ByteOff(v, 8);
    NoSteps(Off(v));
    ByteSmall(Low(v));
    SnSmall(Wide(Low(v)), 8);
    SmallFits(Sn(Wide(Low(v)), 8));
    FitsUpTo(Sn(Wide(Low(v)), 8), 4, w);
    FitsStep(v, w);
    FitsMore(Off(v), w - 1);
    FitsXor(Sn(Wide(Low(v)), 8), Off(v), w);
  }

  /** crc_word_big: a swapped word stepped over its own bytes. */
  method CrcWordBig(big: seq<bv64>, data0: bv64, w: nat, ghost t: seq<bv64>, ghost v: bv64) returns (crc: bv64)
    requires Tabled(t) && Swapped(big, t, w) && (w == 8 || w == 4) && Fits(v, w) && data0 == Swap(v, w)
    ensures crc == Swap(Sn(v, 8 * w), w)
  {
    hide *;
    crc := data0;
    NoSteps(v);
    ghost var u := v;
    for k: nat := 0 to w
      invariant crc == Swap(u, w) && u == Sn(v, 8 * k) && Fits(u, w)
    {
      SwapOff(u, w);
      TableStep(t, u);
      SwappedAt(big, t, w, Low(u) as int);
      SwapLinear(Off(u), t[Low(u) as int], w);
      SnAdd(v, 8 * k, 8);
      SteppedFits(u, w);
      crc := Xor(Push(crc, w), big[TopByte(crc, w) as int]);
      u := Sn(u, 8);
    }
  }

  // ---------- blocks ----------

  /** The registers of the braids, swapped. */
  ghost predicate SwappedAll(ds: seq<bv64>, cs: seq<bv64>, w: nat) {
    |ds| == |cs| && forall i :: 0 <= i < |cs| ==> ds[i] == Swap(cs[i], w)
  }

  lemma SwappedMore(ds: seq<bv64>, cs: seq<bv64>, w: nat, d: bv64, c: bv64)
    requires SwappedAll(ds, cs, w) && d == Swap(c, w)
    ensures SwappedAll(ds + [d], cs + [c], w)
  {
    hide Swap;
  }

  lemma SwappedOne(ds: seq<bv64>, cs: seq<bv64>, w: nat, i: nat)
    requires SwappedAll(ds, cs, w) && i < |cs|
    ensures i < |ds| && ds[i] == Swap(cs[i], w)
  {
    hide Swap;
  }

  lemma SwappedNone(w: nat)
    ensures SwappedAll([], [], w)
  {
  }

  /** A word as a big-endian machine loads it. */
  function BigWord(bs: seq<bv8>): bv64 { Swap(Word(bs), |bs|) }

  lemma BigWordIs(bs: seq<bv8>)
    ensures BigWord(bs) == Swap(Word(bs), |bs|)
  {
    hide Swap, Word;
  }

  /** One block: every braid takes its word and is carried over the block. */
  method BlockBig(big: seq<seq<bv64>>, bs: seq<bv8>, pos: nat, cs: seq<bv64>, n: nat, w: nat,
                  ghost nw: nat, ghost t: seq<seq<bv64>>, ghost ls: seq<bv64>)
    returns (ds: seq<bv64>, ghost ms: seq<bv64>, ghost fs: seq<bv64>)
    requires Braided(t, w, nw) && BigBraided(big, t, w) && (w == 8 || w == 4) && n >= 1 && nw == w * n
    requires |ls| == n && SwappedAll(cs, ls, w) && AllSmall(ls) && pos + nw <= |bs|
    ensures |fs| == n && Loaded(bs[pos..], w) == fs + Loaded(bs[pos + nw..], w)
    ensures |ms| == n && ms == Lift(Merge(ls, fs), 8 * nw) && AllSmall(ms) && SwappedAll(ds, ms, w)
  {
    hide *;
    ds, ms, fs := [], [], [];
    var q: nat := pos;
    SwappedNone(w);
    Turned(n, w, 0);
    InBlockStart(bs, pos, ls, w, 8 * nw);
    for i: nat := 0 to n
      invariant |fs| == |ds| == |ms| == i && q + w * (n - i) == pos + nw <= |bs| && q <= |bs|
      invariant InBlock(bs, pos, q, ls, fs, ms, w, 8 * nw) && SwappedAll(ds, ms, w)
    {
      Peel(w, n - i);
      SmallAt(ls, i);
      CarriedSmall(ls[i], bs[q..q + w], nw);
      ghost var x := Word(bs[q..q + w]);
      InBlockMore(bs, pos, q, ls, fs, ms, w, 8 * nw, ls[i], x);
      SwappedOne(cs, ls, w, i);
      BigWordIs(bs[q..q + w]);
      SwapLinear(x, ls[i], w);
      var d := CarryWordBig(big, Xor(BigWord(bs[q..q + w]), cs[i]), w, nw, t, Xor(x, ls[i]));
      ghost var m := Sn(Xor(x, ls[i]), 8 * nw);
      SwappedMore(ds, ms, w, d, m);
      ds := ds + [d];
      ms := ms + [m];
      fs := fs + [x];
      q := q + w;
    }
    Peel(w, 0);
    InBlockEnd(bs, pos, q, ls, fs, ms, w, 8 * nw);
  }

  /** The first braid starts with the swapped register, the others with nothing. */
  method StartBig(crc: bv64, n: nat, w: nat) returns (cs: seq<bv64>, ghost ls: seq<bv64>)
    requires n >= 1
    ensures |ls| == n && SwappedAll(cs, ls, w) && Starts(ls, crc)
  {
    hide Swap;
    SwapZero(w);
    cs, ls := [Swap(crc, w)], [crc];
    for i: nat := 1 to n
      invariant |ls| == i && SwappedAll(cs, ls, w) && Starts(ls, crc)
    {
      cs, ls := cs + [0], ls + [0];
    }
  }

  method BlockStepBig(big: seq<seq<bv64>>, bs: seq<bv8>, pos: nat, cs: seq<bv64>, n: nat, w: nat,
                      ghost nw: nat, ghost t: seq<seq<bv64>>, ghost ls: seq<bv64>, ghost crc: bv64)
    returns (ds: seq<bv64>, ghost ms: seq<bv64>)
    requires Braided(t, w, nw) && BigBraided(big, t, w) && (w == 8 || w == 4) && n >= 1 && nw == w * n
    requires |ls| == n && SwappedAll(cs, ls, w) && pos + 2 * nw <= |bs| && Ahead(bs, pos, ls, crc, w)
    ensures |ms| == n && SwappedAll(ds, ms, w) && Ahead(bs, pos + nw, ms, crc, w)
  {
    hide *;
    AheadIs(bs, pos, ls, crc, w);
    ghost var fs: seq<bv64>;
    ds, ms, fs := BlockBig(big, bs, pos, cs, n, w, nw, t, ls);
    BlockKeeps(bs, pos, ls, fs, ms, n, w, nw, crc);
  }

  /** The last block: the braids are combined, swapped as they are. */
  method FinishBig(big: seq<bv64>, bs: seq<bv8>, pos: nat, cs: seq<bv64>, n: nat, w: nat, ghost t: seq<bv64>, ghost ls: seq<bv64>)
    returns (comb: bv64)
    requires Tabled(t) && Swapped(big, t, w) && (w == 8 || w == 4) && |ls| == n && SwappedAll(cs, ls, w) && AllSmall(ls) && pos + w * n == |bs|
    ensures comb == Swap(Words(0, Merge(ls, Loaded(bs[pos..], w)), w), w) && Small(Words(0, Merge(ls, Loaded(bs[pos..], w)), w))
  {
    hide *;
    comb := 0;
    ghost var crc: bv64 := 0;
    ZeroSmall();
    SwapZero(w);
    var q: nat := pos;
    assert ls[0..] == ls;
    for i: nat := 0 to n
      invariant q + w * (n - i) == |bs| && q <= |bs| && Small(crc) && comb == Swap(crc, w)
      invariant Words(crc, Merge(ls[i..], Loaded(bs[q..], w)), w) == Words(0, Merge(ls, Loaded(bs[pos..], w)), w)
    {
      Peel(w, n - i);
      ghost var x := Word(bs[q..q + w]);
      FinishStep(crc, bs, q, ls[i..], w);
      SmallAt(ls, i);
      SwappedOne(cs, ls, w, i);
      XorSmall(ls[i], crc);
      CarriedSmall(Xor(ls[i], crc), bs[q..q + w], w);
      Reordered(x, ls[i], crc);
      assert ls[i..][1..] == ls[i + 1..] && ls[i..][0] == ls[i];
      BigWordIs(bs[q..q + w]);
      SwapLinear(ls[i], x, w);
      SwapLinear(Xor(ls[i], x), crc, w);
      comb := CrcWordBig(big, Xor(Xor(cs[i], BigWord(bs[q..q + w])), comb), w, t, Xor(Xor(ls[i], x), crc));
      crc := Sn(Xor(Xor(ls[i], x), crc), 8 * w);
      q := q + w;
    }
    Peel(w, 0);
    LoadedNone(bs[q..], w);
    MergeStep(ls[n..], Loaded(bs[q..], w));
    WordsStep(crc, [], w);
  }

  /** All blocks but the last. */
  method BlocksBig(bigs: seq<seq<bv64>>, bs: seq<bv8>, cs0: seq<bv64>, n: nat, w: nat, nw: nat, blks: nat,
                   ghost bt: seq<seq<bv64>>, ghost ls0: seq<bv64>, ghost crc: bv64)
    returns (cs: seq<bv64>, pos: nat, ghost ls: seq<bv64>)
    requires Braided(bt, w, nw) && BigBraided(bigs, bt, w) && (w == 8 || w == 4) && n >= 1 && nw == w * n
    requires |ls0| == n && SwappedAll(cs0, ls0, w) && Ahead(bs, 0, ls0, crc, w) && blks >= 1 && nw * (blks - 1) + nw == |bs|
    ensures pos + nw == |bs| && |ls| == n && SwappedAll(cs, ls, w) && Ahead(bs, pos, ls, crc, w)
  {
    hide *;
    cs, ls, pos := cs0, ls0, 0;
    var b: nat := blks - 1;
    while b != 0
      invariant pos + nw * b + nw == |bs| && |ls| == n && SwappedAll(cs, ls, w) && Ahead(bs, pos, ls, crc, w)
    {
      NotLast(pos, nw, b, |bs|);
      cs, ls := BlockStepBig(bigs, bs, pos, cs, n, w, nw, bt, ls, crc);
      pos := pos + nw;
      b := b - 1;
    }
    Peel(nw, 0);
  }

  /** The braided calculation, big-endian. */
  method BraidsBig(big: seq<bv64>, bigs: seq<seq<bv64>>, bs: seq<bv8>, crc0: bv64, n: nat, w: nat, blks: nat,
                   ghost t: seq<bv64>, ghost bt: seq<seq<bv64>>)
    returns (crc: bv64)
    requires Tabled(t) && Swapped(big, t, w) && Braided(bt, w, n * w) && BigBraided(bigs, bt, w) && (w == 8 || w == 4) && n >= 1 && Small(crc0)
    requires blks >= 1 && |bs| == blks * (n * w)
    ensures crc == Feed(crc0, bs) && Small(crc)
  {
    hide *;
    var nw: nat := n * w;
    Turned(n, w, blks);
    Peel(nw, blks);
    LoadedFeeds(crc0, bs, w, n * blks);
    assert bs[0..] == bs;
    LoadedAt(bs, w, 0);
    var cs, pos;
    ghost var ls: seq<bv64>;
    cs, ls := StartBig(crc0, n, w);
    StartKeeps(ls, crc0, Loaded(bs, w), w);
    AheadIs(bs, 0, ls, Feed(crc0, bs), w);
    cs, pos, ls := BlocksBig(bigs, bs, cs, n, w, nw, blks, bt, ls, Feed(crc0, bs));
    AheadIs(bs, pos, ls, Feed(crc0, bs), w);
    var comb := FinishBig(big, bs, pos, cs, n, w, t, ls);
    SmallFits(Feed(crc0, bs));
    FitsUpTo(Feed(crc0, bs), 4, w);
    SwapTwice(Feed(crc0, bs), w);
    crc := Swap(comb, w);
  }
}

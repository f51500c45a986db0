/** The braided loop on words as a little-endian machine loads them. */
module CrcBlocks {
  import opened CrcBraid
  import opened CrcBytes
  import opened CrcField
  import opened CrcPowers
  import opened CrcTables

  // ---------- one word ----------

  /** The word shifted right by k << 3: byte k and those above it. */
  function Shifted(word: bv64, k: nat): bv64
    decreases k
  {
    if k == 0 then word else Off(Shifted(word, k - 1))
  }

  lemma {:induction false} ShiftedFits(word: bv64, k: nat, w: nat)
    requires Fits(word, w) && k <= w
    ensures Fits(Shifted(word, k), w - k)
    decreases k
  {
    hide Fits, Off;
    if k > 0 {
      ShiftedFits(word, k - 1, w);
      FitsStep(Shifted(word, k - 1), w - k + 1);
    }
  }

  lemma ShiftedStep(word: bv64, k: nat)
    ensures Shifted(word, k) == if k == 0 then word else Off(Shifted(word, k - 1))
  {
    hide Off;
  }

  lemma CarryByte(row: seq<bv64>, crc: bv64, u: bv64, e: nat)
    requires RowIs(row, e) && e >= 8
    ensures Low(u) as int < |row|
    ensures Xor(Xor(crc, row[Low(u) as int]), Sn(Off(u), e - 8)) == Xor(crc, Sn(u, e))
    ensures row[Low(u) as int] == Sn(Wide(Low(u)), e)
  {
    hide *;
    RowAt(row, e, Low(u));
    ByteOff(u, e);
    XorAssoc(crc, Sn(Wide(Low(u)), e), Sn(Off(u), e - 8));
  }

  /** A word carried over a block of nw bytes, byte by byte from the tables. */
  method CarryWord(t: seq<seq<bv64>>, word: bv64, w: nat, ghost nw: nat) returns (crc: bv64)
    requires Braided(t, w, nw) && Fits(word, w) && w >= 1
    ensures crc == Sn(word, 8 * nw)
  {
    hide *;
    BraidRow(t, w, nw, 0);
    CarryByte(t[0], 0, word, 8 * nw);
    XorZero(t[0][Low(word) as int]);
    XorZero(Sn(word, 8 * nw));
    ShiftedStep(word, 0);
    ShiftedStep(word, 1);
    crc := t[0][Low(word) as int];
    for k: nat := 1 to w
      invariant |t| == w <= nw && Xor(crc, Sn(Shifted(word, k), 8 * (nw - k))) == Sn(word, 8 * nw)
    {
      BraidRow(t, w, nw, k);
      CarryByte(t[k], crc, Shifted(word, k), 8 * (nw - k));
      ShiftedStep(word, k + 1);
      crc := Xor(crc, t[k][Low(Shifted(word, k)) as int]);
    }
    ShiftedFits(word, w, w);
    FitsStep(Shifted(word, w), 0);
    SnZero(8 * (nw - w));
    XorZero(crc);
  }

  /** crc_word: a word stepped over its own bytes. */
  method CrcWord(t: seq<bv64>, data0: bv64, w: nat) returns (crc: bv64)
    requires Tabled(t) && Small(Sn(data0, 8 * w))
    ensures crc == Sn(data0, 8 * w)
  {
    hide *;
    var data := data0;
    NoSteps(data0);
    for k: nat := 0 to w
      invariant data == Sn(data0, 8 * k)
    {
      TableStep(t, data);
      SnAdd(data0, 8 * k, 8);
      data := Xor(Off(data), t[Low(data) as int]);
    }
    Truncated(data);
    crc := data & 0xffff_ffff;
  }

  lemma Truncated(u: bv64)
    requires Small(u)
    ensures u & 0xffff_ffff == u
  {
  }

  // ---------- blocks of n words ----------

  /** The words of the bytes, whole ones only. */
  ghost function Loaded(bs: seq<bv8>, w: nat): seq<bv64>
    requires w > 0
    decreases |bs|
  {
    if |bs| < w then [] else [Word(bs[..w])] + Loaded(bs[w..], w)
  }

  lemma LoadedAt(bs: seq<bv8>, w: nat, q: nat)
    requires w > 0 && q + w <= |bs|
    ensures Loaded(bs[q..], w) == [Word(bs[q..q + w])] + Loaded(bs[q + w..], w)
  {
    hide Word;
    assert bs[q..][..w] == bs[q..q + w];
    assert bs[q..][w..] == bs[q + w..];
  }

  lemma LoadedNone(bs: seq<bv8>, w: nat)
    requires w > 0 && |bs| < w
    ensures Loaded(bs, w) == []
  {
  }

  /** Words fed are bytes fed. */
  lemma {:induction false} LoadedFeeds(c: bv64, bs: seq<bv8>, w: nat, m: nat)
    requires 0 < w <= 8 && |bs| == w * m
    ensures Words(c, Loaded(bs, w), w) == Feed(c, bs)
    decreases m
  {
    hide *;
    Peel(w, m);
    WordsStep(c, Loaded(bs, w), w);
    FeedStep(c, bs);
    if m == 0 {
      LoadedNone(bs, w);
    } else {
      LoadedAt(bs, w, 0);
      assert bs[0..] == bs && bs[0..w] == bs[..w] && bs[0 + w..] == bs[w..];
      assert Loaded(bs, w)[1..] == Loaded(bs[w..], w);
      WordFeeds(c, bs[..w]);
      FeedAppend(c, bs[..w], bs[w..]);
      assert bs == bs[..w] + bs[w..];
      LoadedFeeds(Feed(c, bs[..w]), bs[w..], w, m - 1);
    }
  }

  ghost predicate AllSmall(cs: seq<bv64>) { forall i :: 0 <= i < |cs| ==> Small(cs[i]) }

  lemma {:induction false} MergeSnoc(cs: seq<bv64>, fs: seq<bv64>, c: bv64, x: bv64)
    requires |cs| == |fs|
    ensures Merge(cs + [c], fs + [x]) == Merge(cs, fs) + [Xor(x, c)]
    decreases |cs|
  {
    hide *;
    MergeStep(cs + [c], fs + [x]);
    MergeStep(cs, fs);
    if cs == [] {
      MergeStep([], []);
      assert cs + [c] == [c] && fs + [x] == [x];
    } else {
      assert (cs + [c])[1..] == cs[1..] + [c] && (fs + [x])[1..] == fs[1..] + [x];
      MergeSnoc(cs[1..], fs[1..], c, x);
    }
  }

  lemma {:induction false} MergeAppend(cs: seq<bv64>, fs: seq<bv64>, rest: seq<bv64>)
    requires |cs| == |fs|
    ensures Merge(cs, fs + rest) == Merge(cs, fs) + rest
    decreases |cs|
  {
    hide *;
    MergeStep(cs, fs + rest);
    MergeStep(cs, fs);
    if cs == [] {
      assert fs + rest == rest;
    } else {
      assert (fs + rest)[1..] == fs[1..] + rest;
      MergeAppend(cs[1..], fs[1..], rest);
    }
  }

  lemma {:induction false} LiftSnoc(vs: seq<bv64>, v: bv64, e: nat)
    ensures Lift(vs + [v], e) == Lift(vs, e) + [Sn(v, e)]
    decreases |vs|
  {
    hide *;
    LiftStep(vs + [v], e);
    LiftStep(vs, e);
    if vs == [] {
      LiftStep([], e);
      assert vs + [v] == [v];
    } else {
      assert (vs + [v])[1..] == vs[1..] + [v];
      LiftSnoc(vs[1..], v, e);
    }
  }

  lemma SmallFits(c: bv64)
    requires Small(c)
    ensures Fits(c, 4)
  {
    FitsStep(c, 4);
    FitsStep(Off(c), 3);
    FitsStep(Off(Off(c)), 2);
    FitsStep(Off(Off(Off(c))), 1);
    FitsStep(Off(Off(Off(Off(c)))), 0);
    hide Fits;
  }

  lemma OffXor(u: bv64, v: bv64)
    ensures Off(Xor(u, v)) == Xor(Off(u), Off(v))
  {
  }

  lemma {:induction false} FitsXor(u: bv64, v: bv64, n: nat)
    requires Fits(u, n) && Fits(v, n)
    ensures Fits(Xor(u, v), n)
    decreases n
  {
    hide *;
    FitsStep(u, n);
    FitsStep(v, n);
    FitsStep(Xor(u, v), n);
    if n == 0 {
      XorZero(0);
    } else {
      OffXor(u, v);
      FitsXor(Off(u), Off(v), n - 1);
    }
  }

  /** What a register and a word become in a block. */
  lemma CarriedSmall(c: bv64, bs: seq<bv8>, nw: nat)
    requires Small(c) && 4 <= |bs| <= 8 && nw >= |bs|
    ensures Fits(Xor(Word(bs), c), |bs|) && Small(Sn(Xor(Word(bs), c), 8 * nw)) && Small(Sn(Xor(Word(bs), c), 8 * |bs|))
  {
    hide *;
    SmallFits(c);
    FitsUpTo(c, 4, |bs|);
    WordFits(bs);
    FitsXor(Word(bs), c, |bs|);
    XorSwap(c, Word(bs));
    WordFeeds(c, bs);
    FeedSmall(c, bs);
    SnAdd(Xor(c, Word(bs)), 8 * |bs|, 8 * (nw - |bs|));
    SnSmall(Feed(c, bs), 8 * (nw - |bs|));
  }

  /** What the loop over the braids of a block knows before braid i, whose word is at q. */
  ghost predicate InBlock(bs: seq<bv8>, pos: nat, q: nat, cs: seq<bv64>, fs: seq<bv64>, ds: seq<bv64>, w: nat, e: nat)
    requires w > 0 && pos <= |bs| && q <= |bs|
  {
    && |fs| <= |cs| && ds == Lift(Merge(cs[..|fs|], fs), e) && AllSmall(ds)
    && Loaded(bs[pos..], w) == fs + Loaded(bs[q..], w)
  }

  lemma InBlockMore(bs: seq<bv8>, pos: nat, q: nat, cs: seq<bv64>, fs: seq<bv64>, ds: seq<bv64>, w: nat, e: nat,
                    c: bv64, x: bv64)
    requires w > 0 && pos <= |bs| && q + w <= |bs| && InBlock(bs, pos, q, cs, fs, ds, w, e)
    requires |fs| < |cs| && c == cs[|fs|] && x == Word(bs[q..q + w]) && Small(Sn(Xor(x, c), e))
    ensures InBlock(bs, pos, q + w, cs, fs + [x], ds + [Sn(Xor(x, c), e)], w, e)
  {
    hide Lift, Merge, AllSmall, Loaded, Word, Small, Xor, Sn;
    LoadedAt(bs, w, q);
    MergeSnoc(cs[..|fs|], fs, c, x);
    assert cs[..|fs| + 1] == cs[..|fs|] + [c];
    LiftSnoc(Merge(cs[..|fs|], fs), Xor(x, c), e);
    SmallSnoc(ds, Sn(Xor(x, c), e));
    assert fs + ([x] + Loaded(bs[q + w..], w)) == (fs + [x]) + Loaded(bs[q + w..], w);
  }

  lemma InBlockStart(bs: seq<bv8>, pos: nat, cs: seq<bv64>, w: nat, e: nat)
    requires w > 0 && pos <= |bs|
    ensures InBlock(bs, pos, pos, cs, [], [], w, e)
  {
    hide Loaded, Word;
    assert cs[..0] == [];
    assert [] + Loaded(bs[pos..], w) == Loaded(bs[pos..], w);
  }

  lemma InBlockEnd(bs: seq<bv8>, pos: nat, q: nat, cs: seq<bv64>, fs: seq<bv64>, ds: seq<bv64>, w: nat, e: nat)
    requires w > 0 && pos <= |bs| && q <= |bs| && InBlock(bs, pos, q, cs, fs, ds, w, e) && |fs| == |cs|
    ensures Loaded(bs[pos..], w) == fs + Loaded(bs[q..], w) && ds == Lift(Merge(cs, fs), e) && AllSmall(ds)
  {
    hide Lift, Merge, AllSmall, Loaded;
    assert cs[..|fs|] == cs;
  }

  /** One block: every braid takes its word and is carried over the block. */
  method Block(t: seq<seq<bv64>>, bs: seq<bv8>, pos: nat, cs: seq<bv64>, n: nat, w: nat, ghost nw: nat)
    returns (ds: seq<bv64>, ghost fs: seq<bv64>)
    requires Braided(t, w, nw) && 4 <= w <= 8 && n >= 1 && nw == w * n
    requires |cs| == n && AllSmall(cs) && pos + nw <= |bs|
    ensures |fs| == n && Loaded(bs[pos..], w) == fs + Loaded(bs[pos + nw..], w)
    ensures |ds| == n && ds == Lift(Merge(cs, fs), 8 * nw) && AllSmall(ds)
  {
    hide *;
    ds, fs := [], [];
    var q: nat := pos;
    InBlockStart(bs, pos, cs, w, 8 * nw);
    for i: nat := 0 to n
      invariant |fs| == |ds| == i && q + w * (n - i) == pos + nw <= |bs| && q <= |bs|
      invariant InBlock(bs, pos, q, cs, fs, ds, w, 8 * nw)
    {
      Peel(w, n - i);
      SmallAt(cs, i);
      CarriedSmall(cs[i], bs[q..q + w], nw);
      ghost var x := Word(bs[q..q + w]);
      InBlockMore(bs, pos, q, cs, fs, ds, w, 8 * nw, cs[i], x);
      var d := CarryWord(t, Xor(Word(bs[q..q + w]), cs[i]), w, nw);
      ds := ds + [d];
      fs := fs + [x];
      q := q + w;
    }
    Peel(w, 0);
    InBlockEnd(bs, pos, q, cs, fs, ds, w, 8 * nw);
  }

  lemma SmallAt(cs: seq<bv64>, i: nat)
    requires AllSmall(cs) && i < |cs|
    ensures Small(cs[i])
  {
  }

  lemma SmallSnoc(cs: seq<bv64>, c: bv64)
    requires AllSmall(cs) && Small(c)
    ensures AllSmall(cs + [c])
  {
    hide Small;
  }

  // ---------- all blocks ----------

  lemma {:induction false} MergeZeros(zs: seq<bv64>, ws: seq<bv64>)
    requires forall i :: 0 <= i < |zs| ==> zs[i] == 0
    ensures Merge(zs, ws) == ws
    decreases |zs|
  {
    hide *;
    MergeStep(zs, ws);
    if zs != [] && ws != [] {
      XorZero(ws[0]);
      MergeZeros(zs[1..], ws[1..]);
    }
  }

  /** The register for the first braid, nothing for the others. */
  ghost predicate Starts(cs: seq<bv64>, crc: bv64) {
    cs != [] && cs[0] == crc && forall j :: 1 <= j < |cs| ==> cs[j] == 0
  }

  lemma StartKeeps(cs: seq<bv64>, crc: bv64, ws: seq<bv64>, w: nat)
    requires Starts(cs, crc) && Small(crc) && ws != []
    ensures AllSmall(cs) && Words(0, Merge(cs, ws), w) == Words(crc, ws, w)
  {
    StartSmall(cs);
    MergeZeros(cs[1..], ws[1..]);
    hide *;
    MergeStep(cs, ws);
    StartFirst(cs, crc);
    ghost var ms := [Xor(ws[0], crc)] + ws[1..];
    assert ms[1..] == ws[1..];
    WordsStep(0, ms, w);
    WordsStep(crc, ws, w);
    XorZero(Xor(ws[0], crc));
    XorSwap(ws[0], crc);
  }

  lemma StartFirst(cs: seq<bv64>, crc: bv64)
    requires Starts(cs, crc)
    ensures cs != [] && cs[0] == crc
  {
  }

  /** The first braid starts with the register, the others with nothing. */
  method StartBraids(crc: bv64, n: nat) returns (cs: seq<bv64>)
    requires n >= 1
    ensures |cs| == n && Starts(cs, crc)
  {
    cs := [crc];
    for i: nat := 1 to n
      invariant |cs| == i && Starts(cs, crc)
    {
      cs := cs + [0];
    }
  }

  lemma StartSmall(cs: seq<bv64>)
    requires cs != [] && Small(cs[0]) && forall j :: 1 <= j < |cs| ==> cs[j] == 0
    ensures AllSmall(cs)
  {
    assert Small(0);
    hide Small;
  }

  /** The register the braids and the words from pos on lead to is the one the bytes lead to. */
  ghost predicate Ahead(bs: seq<bv8>, pos: nat, cs: seq<bv64>, crc: bv64, w: nat)
    requires w > 0 && pos <= |bs|
  {
    AllSmall(cs) && Words(0, Merge(cs, Loaded(bs[pos..], w)), w) == crc
  }

  lemma AheadIs(bs: seq<bv8>, pos: nat, cs: seq<bv64>, crc: bv64, w: nat)
    requires w > 0 && pos <= |bs|
    ensures Ahead(bs, pos, cs, crc, w) <==> AllSmall(cs) && Words(0, Merge(cs, Loaded(bs[pos..], w)), w) == crc
  {
    hide AllSmall, Words, Merge, Loaded;
  }

  /** A block step keeps it. */
  lemma BlockKeeps(bs: seq<bv8>, pos: nat, cs: seq<bv64>, fs: seq<bv64>, ds: seq<bv64>, n: nat, w: nat, nw: nat, crc: bv64)
    requires w > 0 && nw == w * n && |cs| == |fs| == n && pos + 2 * nw <= |bs| && Ahead(bs, pos, cs, crc, w)
    requires Loaded(bs[pos..], w) == fs + Loaded(bs[pos + nw..], w) && ds == Lift(Merge(cs, fs), 8 * nw) && AllSmall(ds)
    ensures Ahead(bs, pos + nw, ds, crc, w)
  {
    hide *;
    AheadIs(bs, pos, cs, crc, w);
    AheadIs(bs, pos + nw, ds, crc, w);
    ghost var rest := Loaded(bs[pos + nw..], w);
    LoadedLong(bs[pos + nw..], w, n);
    MergeAppend(cs, fs, rest);
    ghost var vs := Merge(cs, fs);
    assert vs + [] + rest == vs + rest;
    assert [] + Merge(ds, rest) == Merge(ds, rest);
    BraidStep(vs, [], rest, w, n, 8 * nw);
  }

  lemma {:induction false} LoadedLong(bs: seq<bv8>, w: nat, n: nat)
    requires w > 0 && |bs| >= w * n
    ensures |Loaded(bs, w)| >= n
    decreases n
  {
    hide Word;
    Peel(w, n);
    if n > 0 {
      LoadedLong(bs[w..], w, n - 1);
    }
  }

  /** The last block: the braids are combined, each word stepped over with the register so far. */
  method Finish(t: seq<bv64>, bs: seq<bv8>, pos: nat, cs: seq<bv64>, n: nat, w: nat) returns (crc: bv64)
    requires Tabled(t) && 4 <= w <= 8 && |cs| == n && AllSmall(cs) && pos + w * n == |bs|
    ensures crc == Words(0, Merge(cs, Loaded(bs[pos..], w)), w) && Small(crc)
  {
    hide *;
    crc := 0;
    ZeroSmall();
    var q: nat := pos;
    assert cs[0..] == cs;
    for i: nat := 0 to n
      invariant q + w * (n - i) == |bs| && q <= |bs| && Small(crc)
      invariant Words(crc, Merge(cs[i..], Loaded(bs[q..], w)), w) == Words(0, Merge(cs, Loaded(bs[pos..], w)), w)
    {
      Peel(w, n - i);
      var word := Word(bs[q..q + w]);
      FinishStep(crc, bs, q, cs[i..], w);
      SmallAt(cs, i);
      XorSmall(cs[i], crc);
      CarriedSmall(Xor(cs[i], crc), bs[q..q + w], w);
      Reordered(word, cs[i], crc);
      assert cs[i..][1..] == cs[i + 1..] && cs[i..][0] == cs[i];
      crc := CrcWord(t, Xor(Xor(cs[i], word), crc), w);
      q := q + w;
    }
    Peel(w, 0);
    LoadedNone(bs[q..], w);
    MergeStep(cs[n..], Loaded(bs[q..], w));
    WordsStep(crc, [], w);
  }

  lemma Reordered(x: bv64, c: bv64, crc: bv64)
    ensures Xor(x, Xor(c, crc)) == Xor(Xor(c, x), crc) && Xor(crc, Xor(x, c)) == Xor(Xor(c, x), crc)
  {
    hide *;
    XorSwap(x, c);
    XorAssoc(x, c, crc);
    XorSwap(crc, Xor(x, c));
  }

  lemma FinishStep(crc: bv64, bs: seq<bv8>, q: nat, cs: seq<bv64>, w: nat)
    requires w > 0 && q + w <= |bs| && cs != []
    ensures Words(crc, Merge(cs, Loaded(bs[q..], w)), w)
         == Words(Sn(Xor(crc, Xor(Word(bs[q..q + w]), cs[0])), 8 * w), Merge(cs[1..], Loaded(bs[q + w..], w)), w)
  {
    hide *;
    LoadedAt(bs, w, q);
    ghost var x := Word(bs[q..q + w]);
    ghost var rest := Loaded(bs[q + w..], w);
    assert ([x] + rest)[1..] == rest;
    MergeStep(cs, [x] + rest);
    ghost var more := Merge(cs[1..], rest);
    assert ([Xor(x, cs[0])] + more)[1..] == more;
    WordsStep(crc, [Xor(x, cs[0])] + more, w);
  }

  method BlockStep(bt: seq<seq<bv64>>, bs: seq<bv8>, pos: nat, cs: seq<bv64>, n: nat, w: nat, ghost nw: nat, ghost crc: bv64)
    returns (ds: seq<bv64>)
    requires Braided(bt, w, nw) && 4 <= w <= 8 && n >= 1 && nw == w * n
    requires |cs| == n && pos + 2 * nw <= |bs| && Ahead(bs, pos, cs, crc, w)
    ensures |ds| == n && Ahead(bs, pos + nw, ds, crc, w)
  {
    hide *;
    AheadIs(bs, pos, cs, crc, w);
    ghost var fs: seq<bv64>;
    ds, fs := Block(bt, bs, pos, cs, n, w, nw);
    BlockKeeps(bs, pos, cs, fs, ds, n, w, nw, crc);
  }

  /** The braided calculation over blks blocks of n words of w bytes. */
  method Braids(t: seq<bv64>, bt: seq<seq<bv64>>, bs: seq<bv8>, crc0: bv64, n: nat, w: nat, blks: nat) returns (crc: bv64)
    requires Tabled(t) && Braided(bt, w, n * w) && 4 <= w <= 8 && n >= 1 && Small(crc0)
    requires blks >= 1 && |bs| == blks * (n * w)
    ensures crc == Feed(crc0, bs) && Small(crc)
  {
    hide *;
    ghost var nw: nat := w * n;
    Turned(n, w, blks);
    Peel(nw, blks);
    LoadedFeeds(crc0, bs, w, n * blks);
    var b: nat := blks - 1;
    var pos: nat := 0;
    assert bs[0..] == bs;
    LoadedAt(bs, w, 0);
    var cs := StartBraids(crc0, n);
    StartKeeps(cs, crc0, Loaded(bs, w), w);
    AheadIs(bs, 0, cs, Feed(crc0, bs), w);
    while b != 0
      invariant pos + nw * b + nw == |bs| && |cs| == n && Ahead(bs, pos, cs, Feed(crc0, bs), w)
    {
      NotLast(pos, nw, b, |bs|);
      cs := BlockStep(bt, bs, pos, cs, n, w, nw, Feed(crc0, bs));
      pos := pos + n * w;
      b := b - 1;
    }
    Peel(nw, 0);
    AheadIs(bs, pos, cs, Feed(crc0, bs), w);
    crc := Finish(t, bs, pos, cs, n, w);
  }

  /** Before the last block there are two. */
  lemma NotLast(pos: nat, nw: nat, b: nat, size: nat)
    requires pos + nw * b + nw == size && b > 0
    ensures pos + 2 * nw <= size && pos + nw + nw * (b - 1) + nw == size
  {
    Peel(nw, b);
  }

  lemma Turned(n: nat, w: nat, blks: nat)
    ensures n * w == w * n && blks * (n * w) == (w * n) * blks == w * (n * blks)
    ensures n >= 1 ==> w * n >= w
  {
  }
}

/** mainSort: two-byte radix sort, then big buckets one by one, smallest first. */
module MainSort {
  import opened Rotations
  import opened Counting
  import opened Bits
  import opened BurrowsWheeler
  import opened Segments
  import opened MainCompare
  import opened MainSimpleSort
  import opened MainQSort
  import opened PairBuckets
  import opened CopyScan
  import opened BigBucket

  const SETMASK: int := 0x20_0000

  /** ftab holds the start of every small bucket, with a mark on those already sorted. */
  ghost predicate Flagged(ftab: seq<int>, k: seq<int>, flags: seq<bool>) {
    && |ftab| == |flags| == PAIRS + 1 && Keys(k, PAIRS) && |k| <= 900000
    && forall sb :: 0 <= sb <= PAIRS ==> ftab[sb] == Start(k, sb) + if flags[sb] then SETMASK else 0
  }

  /** Reading a marked entry: & CLEARMASK and & SETMASK. */
  lemma Unmask(ftab: seq<int>, k: seq<int>, flags: seq<bool>, sb: nat)
    requires Flagged(ftab, k, flags) && sb <= PAIRS
    ensures |ftab| == PAIRS + 1 && 0 <= sb < |ftab|
    ensures ftab[sb] % SETMASK == Start(k, sb) <= |k| && (ftab[sb] / SETMASK % 2 == 1 <==> flags[sb])
    ensures flags[sb] ==> ftab[sb] == Start(k, sb) + SETMASK
    ensures !flags[sb] ==> ftab[sb] == Start(k, sb)
  {
    StartMono(k, sb, PAIRS);
    StartTotal(k, PAIRS);
    MaskArith(Start(k, sb));
  }

  lemma MaskArith(s: nat)
    requires s <= 900000
    ensures s % SETMASK == s && s / SETMASK == 0 && (s + SETMASK) % SETMASK == s && (s + SETMASK) / SETMASK == 1
  {
  }

  lemma FlagSet(ftab: seq<int>, k: seq<int>, flags: seq<bool>, sb: nat)
    requires Flagged(ftab, k, flags) && sb <= PAIRS
    ensures Flagged(ftab[sb := Start(k, sb) + SETMASK], k, flags[sb := true])
  {
    hide Start;
  }

  /** Every marked small bucket is sorted, and finished big buckets have all their marks. */
  ghost predicate Marked(b: seq<byte>, k: seq<int>, p: seq<int>, flags: seq<bool>, done: seq<bool>) {
    && |b| > 0 && k == Pairs(b) && Bucketed(k, p) && |flags| == PAIRS + 1 && |done| == 256
    && (forall sb: nat :: sb < PAIRS && flags[sb] ==> SmallSorted(b, k, p, sb))
    && forall sb: nat :: sb < PAIRS && (done[sb / 256] || done[sb % 256]) ==> flags[sb]
  }

  // ---------- step 1: sorting small buckets ----------

  /** Rearranging one bucket in place. */
  lemma ShuffleBucket(b: seq<byte>, k: seq<int>, p: seq<int>, q: seq<int>, sb: nat)
    requires Bucketed(k, p) && sb < PAIRS && Shuffled(p, q, Start(k, sb), Start(k, sb + 1) - 1)
    ensures Bucketed(k, q)
  {
    var lo, hi := Start(k, sb), Start(k, sb + 1) - 1;
    StartMono(k, sb, sb + 1);
    StartMono(k, sb + 1, PAIRS);
    StartTotal(k, PAIRS);
    forall x | 0 <= x < |k| ensures 0 <= q[x] < |k| && Start(k, k[q[x]]) <= x < Start(k, k[q[x]] + 1) {
      if lo <= x <= hi {
        var y := ShuffledFrom(p, q, lo, hi, x);
        BucketOf(k, p, y, sb);
      }
    }
    ShuffledDistinct(p, q);
  }

  lemma ShuffledDistinct(p: seq<int>, q: seq<int>)
    requires |p| == |q| && multiset(p) == multiset(q) && forall x, y :: 0 <= x < y < |p| ==> p[x] != p[y]
    ensures forall x, y :: 0 <= x < y < |q| ==> q[x] != q[y]
  {
    forall x, y | 0 <= x < y < |q| ensures q[x] != q[y] {
      if q[x] == q[y] {
        var v := q[x];
        TwiceIn(q, x, y);
        OnceIn(p, v);
      }
    }
  }

  lemma TwiceIn(q: seq<int>, x: nat, y: nat)
    requires x < y < |q| && q[x] == q[y]
    ensures multiset(q)[q[x]] >= 2
  {
    assert q == q[..y] + [q[y]] + q[y + 1..];
    assert q[..y][x] == q[x];
    assert q[x] in multiset(q[..y]);
    assert multiset(q) == multiset(q[..y]) + multiset([q[y]]) + multiset(q[y + 1..]);
  }

  lemma {:induction false} OnceIn(p: seq<int>, v: int)
    requires forall x, y :: 0 <= x < y < |p| ==> p[x] != p[y]
    ensures multiset(p)[v] <= 1
  {
    if p != [] {
      var l := |p| - 1;
      assert p == p[..l] + [p[l]];
      OnceIn(p[..l], v);
      if p[l] == v {
        assert v !in p[..l];
        assert multiset(p[..l])[v] == 0;
      }
    }
  }

  lemma BucketEnds(k: seq<int>, p: seq<int>, sb: nat)
    requires Bucketed(k, p) && sb < PAIRS
    ensures |p| == |k| && 0 <= Start(k, sb) && Start(k, sb + 1) <= |p|
  {
    StartMono(k, sb + 1, PAIRS);
    StartTotal(k, PAIRS);
  }

  lemma SmallAlike(b: seq<byte>, k: seq<int>, p: seq<int>, q: seq<int>, sb: nat)
    requires SmallSorted(b, k, p, sb) && |q| == |p| && 0 <= Start(k, sb) && Start(k, sb + 1) <= |p|
    requires forall x :: Start(k, sb) <= x <= Start(k, sb + 1) - 1 ==> q[x] == p[x]
    ensures SmallSorted(b, k, q, sb)
  {
    hide ByRotation, Start;
    var lo, hi := Start(k, sb), Start(k, sb + 1) - 1;
    forall x, y | lo <= x < y <= hi ensures 0 <= x && y < |q| && ByRotation(b)(q[x], q[y]) {
      assert ByRotation(b)(p[x], p[y]);
      assert q[x] == p[x] && q[y] == p[y];
    }
  }

  lemma OthersSorted(b: seq<byte>, k: seq<int>, p: seq<int>, q: seq<int>, sb: nat, other: nat)
    requires Bucketed(k, p) && sb < PAIRS && other < PAIRS && other != sb && SmallSorted(b, k, p, other) && |q| == |p|
    requires forall x :: 0 <= x < |p| && !(Start(k, sb) <= x <= Start(k, sb + 1) - 1) ==> q[x] == p[x]
    ensures SmallSorted(b, k, q, other)
  {
    hide *;
    PairCount();
    if other < sb { StartMono(k, other + 1, sb); } else { StartMono(k, sb + 1, other); }
    BucketEnds(k, p, other);
    SmallAlike(b, k, p, q, other);
  }

  lemma BucketAgrees(b: seq<byte>, k: seq<int>, p: seq<int>, sb: nat)
    requires |b| > 0 && k == Pairs(b) && Bucketed(k, p) && sb < PAIRS
    ensures Agree(b, p, Start(k, sb), Start(k, sb + 1) - 1, N_RADIX)
    ensures Start(k, sb) <= Start(k, sb + 1) <= |k|
  {
    var lo, hi := Start(k, sb), Start(k, sb + 1) - 1;
    StartMono(k, sb, sb + 1);
    StartMono(k, sb + 1, PAIRS);
    StartTotal(k, PAIRS);
    forall x | lo <= x <= hi ensures 0 <= p[x] < |b| && k[p[x]] == sb { BucketOf(k, p, x, sb); }
    forall x, y | lo <= x <= hi && lo <= y <= hi ensures Cmp(b, p[x], p[y], N_RADIX) == 0 {
      SamePair(b, p[x], p[y], sb);
    }
  }

  lemma SamePair(b: seq<byte>, u: nat, v: nat, sb: nat)
    requires u < |b| && v < |b| && Pairs(b)[u] == sb == Pairs(b)[v]
    ensures Cmp(b, u, v, N_RADIX) == 0
  {
    assert Pairs(b)[u] == 256 * b[u] + At(b, u + 1) && Pairs(b)[v] == 256 * b[v] + At(b, v + 1);
    assert At(b, u) == b[u] && At(b, v) == b[v];
    assert At(b, u) == At(b, v) && At(b, u + 1) == At(b, v + 1);
    assert Cmp(b, u + 2, v + 2, 0) == 0;
    assert Cmp(b, u + 1, v + 1, 1) == 0;
  }

  /** One more bucket sorted and marked. */
  lemma MarkSorted(b: seq<byte>, k: seq<int>, p: seq<int>, q: seq<int>, flags: seq<bool>, done: seq<bool>, sb: nat)
    requires Marked(b, k, p, flags, done) && sb < PAIRS && Shuffled(p, q, Start(k, sb), Start(k, sb + 1) - 1) && SmallSorted(b, k, q, sb)
    ensures Marked(b, k, q, flags[sb := true], done)
  {
    hide SmallSorted, Start;
    ShuffleBucket(b, k, p, q, sb);
    forall other: nat | other < PAIRS && flags[sb := true][other] ensures SmallSorted(b, k, q, other) {
      if other != sb { OthersSorted(b, k, p, q, sb, other); }
    }
  }

  lemma MarkedParts(b: seq<byte>, k: seq<int>, p: seq<int>, flags: seq<bool>, done: seq<bool>)
    requires Marked(b, k, p, flags, done)
    ensures |b| > 0 && k == Pairs(b) && |k| == |b| == |p| && Bucketed(k, p) && |flags| == PAIRS + 1 && |done| == 256 && PAIRS == 65536
  {
  }

  lemma SmallEmpty(b: seq<byte>, k: seq<int>, p: seq<int>, sb: nat)
    requires Start(k, sb + 1) - 1 <= Start(k, sb)
    ensures SmallSorted(b, k, p, sb)
  {
    hide Start;
  }

  lemma FlagIs(b: seq<byte>, k: seq<int>, p: seq<int>, flags: seq<bool>, done: seq<bool>, sb: nat)
    requires Marked(b, k, p, flags, done) && sb < PAIRS && flags[sb]
    ensures SmallSorted(b, k, p, sb)
  {
    hide SmallSorted;
  }

  /** Sorts small bucket sb unless it is marked, and marks it. */
  method FinishSmall(ptr: array<int>, block: array<int>, quadrant: array<int>, ftab: array<int>, nblock: nat, sb: nat, budget0: int,
                     ghost b: seq<byte>, ghost k: seq<int>, ghost flags: seq<bool>, ghost done: seq<bool>)
    returns (budget: int)
    requires ptr != block && ptr != quadrant && ptr != ftab && ftab != block && ftab != quadrant && sb < PAIRS
    requires Extended(b, block[..]) && Quadrants(b, quadrant[..]) && nblock == |b| <= 900000
    requires Marked(b, k, ptr[..], flags, done) && Flagged(ftab[..], k, flags)
    modifies ptr, ftab
    ensures budget <= budget0
    ensures budget0 >= 0 && budget >= 0 ==> Marked(b, k, ptr[..], flags[sb := true], done) && Flagged(ftab[..], k, flags[sb := true])
  {
    hide *;
    budget := budget0;
    ghost var p := ptr[..];
    MarkedParts(b, k, p, flags, done);
    Unmask(ftab[..], k, flags, sb);
    Unmask(ftab[..], k, flags, sb + 1);
    BucketAgrees(b, k, p, sb);
    MaskSize();
    if ftab[sb] / SETMASK % 2 != 1 {
      var lo := ftab[sb] % SETMASK;
      var hi := ftab[sb + 1] % SETMASK - 1;
      if hi > lo {
        budget := MainQSort3(ptr, block, quadrant, nblock, lo, hi, N_RADIX, budget, b);
        if budget < 0 { return; }
        SmallIs(b, k, ptr[..], sb);
      } else {
        SmallEmpty(b, k, p, sb);
        ShuffledRefl(p, Start(k, sb), Start(k, sb + 1) - 1);
      }
      MarkSorted(b, k, p, ptr[..], flags, done, sb);
      ftab[sb] := ftab[sb] + SETMASK;
    } else {
      assert flags[sb := true] == flags;
    }
    FlagSet(old(ftab[..]), k, flags, sb);
    assert ftab[..] == old(ftab[..])[sb := Start(k, sb) + SETMASK];
  }

  lemma MaskSize()
    ensures SETMASK == 0x20_0000 && N_RADIX == 2 && DEPTH_MAX == 15
  {
  }

  lemma SmallIs(b: seq<byte>, k: seq<int>, p: seq<int>, sb: nat)
    requires SortedIn(ByRotation(b), p, Start(k, sb), Start(k, sb + 1) - 1)
    ensures SmallSorted(b, k, p, sb)
  {
  }

  /** Step 1: every small bucket of big bucket ss but [ss, ss]. */
  method FinishOthers(ptr: array<int>, block: array<int>, quadrant: array<int>, ftab: array<int>, nblock: nat, ss: nat, budget0: int,
                      ghost b: seq<byte>, ghost k: seq<int>, ghost flags0: seq<bool>, ghost done: seq<bool>)
    returns (budget: int, ghost flags: seq<bool>)
    requires ptr != block && ptr != quadrant && ptr != ftab && ftab != block && ftab != quadrant && ss < 256
    requires Extended(b, block[..]) && Quadrants(b, quadrant[..]) && nblock == |b| <= 900000 && budget0 >= 0
    requires Marked(b, k, ptr[..], flags0, done) && Flagged(ftab[..], k, flags0)
    modifies ptr, ftab
    ensures budget <= budget0
    ensures budget >= 0 ==> Marked(b, k, ptr[..], flags, done) && Flagged(ftab[..], k, flags)
    ensures budget >= 0 ==> |flags| == PAIRS + 1 && forall sb: nat :: 256 * ss <= sb < 256 * ss + 256 && sb != 256 * ss + ss ==> flags[sb]
  {
    hide *;
    budget, flags := budget0, flags0;
    MarkedParts(b, k, ptr[..], flags, done);
    ghost var blk, q := block[..], quadrant[..];
    for j := 0 to 256
      invariant block[..] == blk && quadrant[..] == q && 0 <= budget <= budget0
      invariant Marked(b, k, ptr[..], flags, done) && Flagged(ftab[..], k, flags) && |flags| == PAIRS + 1
      invariant forall sb: nat :: 256 * ss <= sb < 256 * ss + j && sb != 256 * ss + ss ==> flags[sb]
    {
      if j != ss {
        var sb := ss * 256 + j;
        budget := FinishSmall(ptr, block, quadrant, ftab, nblock, sb, budget, b, k, flags, done);
        if budget < 0 { return; }
        flags := flags[sb := true];
      }
    }
  }

  // ---------- step 2: the copy scans ----------

  lemma FullParts(b: seq<byte>, k: seq<int>, p: seq<int>, sb: nat)
    requires FullBucket(b, k, p, sb)
    ensures SmallSorted(b, k, p, sb) && |p| == |k| == |b|
    ensures forall x :: Start(k, sb) <= x < Start(k, sb + 1) ==> 0 <= x < |p| && 0 <= p[x] < |k| && k[p[x]] == sb
    ensures forall x, y :: Start(k, sb) <= x < y < Start(k, sb + 1) ==> p[x] != p[y]
  {
    hide SmallSorted, Start;
    forall x | Start(k, sb) <= x < Start(k, sb + 1) ensures 0 <= x < |p| && 0 <= p[x] < |k| && k[p[x]] == sb {
      assert 0 <= p[x] < |k|;
    }
  }

  lemma KeptAt(k: seq<int>, p0: seq<int>, p: seq<int>, c: int, done: seq<bool>, x: int)
    requires Kept(k, p0, p, c, done) && 0 <= x < |k|
    ensures |p| == |p0| == |k| && |done| == 256 && 0 <= p0[x] < |k| && 0 <= k[p0[x]] < PAIRS
    ensures k[p0[x]] % 256 != c || done[k[p0[x]] / 256] ==> p[x] == p0[x]
  {
  }

  lemma KeySplit(sb: nat)
    requires sb < PAIRS
    ensures sb == 256 * (sb / 256) + sb % 256 && 0 <= sb / 256 < 256 && 0 <= sb % 256 < 256
  {
    var t, r := sb / 256, sb % 256;
    assert sb == 256 * t + r && 0 <= r < 256 && PAIRS == 65536;
  }

  /** Where an entry is after both scans, and which bucket it is in. */
  lemma EntryAfter(b: seq<byte>, k: seq<int>, c: int, done: seq<bool>, p0: seq<int>, p: seq<int>, x: int)
    requires Bucketed(k, p0) && Kept(k, p0, p, c, done) && 0 <= c < 256 && |done| == 256 && |p| == |p0| == |k| && 0 <= x < |k|
    requires forall t :: 0 <= t < 256 && !done[t] ==> FullBucket(b, k, p, 256 * t + c)
    ensures 0 <= p0[x] < |k| && 0 <= p[x] < |k| && k[p[x]] == k[p0[x]] && 0 <= k[p0[x]] < PAIRS
    ensures k[p0[x]] % 256 != c || done[k[p0[x]] / 256] ==> p[x] == p0[x]
  {
    hide FullBucket, Start;
    KeptAt(k, p0, p, c, done, x);
    var sb := k[p0[x]];
    KeySplit(sb);
    if sb % 256 == c && !done[sb / 256] {
      FullParts(b, k, p, sb);
      BucketOf(k, p0, x, sb);
    }
  }

  lemma ScansBucketed(b: seq<byte>, k: seq<int>, c: int, done: seq<bool>, p0: seq<int>, p: seq<int>)
    requires Bucketed(k, p0) && Kept(k, p0, p, c, done) && 0 <= c < 256 && |done| == 256 && |p| == |p0| == |k|
    requires forall t :: 0 <= t < 256 && !done[t] ==> FullBucket(b, k, p, 256 * t + c)
    ensures Bucketed(k, p)
  {
    hide FullBucket, Start, Kept;
    forall x | 0 <= x < |k| ensures 0 <= p[x] < |k| && Start(k, k[p[x]]) <= x < Start(k, k[p[x]] + 1) {
      EntryAfter(b, k, c, done, p0, p, x);
    }
    forall x, y | 0 <= x < y < |k| ensures p[x] != p[y] {
      EntryAfter(b, k, c, done, p0, p, x);
      EntryAfter(b, k, c, done, p0, p, y);
      var sb := k[p0[x]];
      KeySplit(sb);
      if sb == k[p0[y]] && sb % 256 == c && !done[sb / 256] {
        FullParts(b, k, p, sb);
        BucketOf(k, p0, x, sb);
        BucketOf(k, p0, y, sb);
      }
    }
  }

  /** All marks of big bucket ss and second byte ss may be set. */
  ghost function AllMarks(flags: seq<bool>, ss: int): (r: seq<bool>)
    ensures |r| == |flags| && forall sb :: 0 <= sb < |flags| ==> r[sb] == (flags[sb] || (sb < PAIRS && sb % 256 == ss))
  {
    seq(|flags|, sb requires 0 <= sb < |flags| => flags[sb] || (sb < PAIRS && sb % 256 == ss))
  }

  lemma StillSorted(b: seq<byte>, k: seq<int>, c: int, done: seq<bool>, p0: seq<int>, p: seq<int>, sb: nat)
    requires Bucketed(k, p0) && Kept(k, p0, p, c, done) && 0 <= c < 256 && |done| == 256 && sb < PAIRS && SmallSorted(b, k, p0, sb) && |p| == |p0| == |k|
    requires sb % 256 != c || done[sb / 256]
    ensures SmallSorted(b, k, p, sb)
  {
    hide Start, ByRotation, Kept;
    StartMono(k, sb + 1, PAIRS);
    StartTotal(k, PAIRS);
    forall x, y | Start(k, sb) <= x < y <= Start(k, sb + 1) - 1 ensures 0 <= x && y < |p| && ByRotation(b)(p[x], p[y]) {
      assert ByRotation(b)(p0[x], p0[y]);
      BucketOf(k, p0, x, sb);
      BucketOf(k, p0, y, sb);
      KeptAt(k, p0, p, c, done, x);
      KeptAt(k, p0, p, c, done, y);
    }
  }

  /** Step 2 finishes big bucket ss and every small bucket whose second byte is ss. */
  lemma ScansMark(b: seq<byte>, k: seq<int>, ss: int, done: seq<bool>, p0: seq<int>, p: seq<int>, flags: seq<bool>)
    requires Marked(b, k, p0, flags, done) && 0 <= ss < 256 && Kept(k, p0, p, ss, done) && |done| == 256 && !done[ss] && |p| == |p0| == |k|
    requires forall t :: 0 <= t < 256 && !done[t] ==> FullBucket(b, k, p, 256 * t + ss)
    requires |flags| == PAIRS + 1 && forall sb: nat :: 256 * ss <= sb < 256 * ss + 256 && sb != 256 * ss + ss ==> flags[sb]
    ensures Marked(b, k, p, AllMarks(flags, ss), done[ss := true])
  {
    hide FullBucket, SmallSorted, Kept, Bucketed, Pairs;
    var f, d := AllMarks(flags, ss), done[ss := true];
    MarkedParts(b, k, p0, flags, done);
    ScansBucketed(b, k, ss, done, p0, p);
    forall sb: nat | sb < PAIRS && f[sb] ensures SmallSorted(b, k, p, sb) {
      KeySplit(sb);
      if sb % 256 == ss && !done[sb / 256] {
        FullParts(b, k, p, sb);
      } else {
        FlagIs(b, k, p0, flags, done, sb);
        StillSorted(b, k, ss, done, p0, p, sb);
      }
    }
    forall sb: nat | sb < PAIRS && (d[sb / 256] || d[sb % 256]) ensures f[sb] {
      KeySplit(sb);
    }
  }

  lemma ReadyNow(b: seq<byte>, k: seq<int>, p: seq<int>, flags: seq<bool>, done: seq<bool>, ss: int)
    requires Marked(b, k, p, flags, done) && 0 <= ss < 256 && |flags| == PAIRS + 1
    requires forall sb: nat :: 256 * ss <= sb < 256 * ss + 256 && sb != 256 * ss + ss ==> flags[sb]
    ensures Ready(b, k, p, ss)
  {
    hide SmallSorted, Bucketed;
  }

  /** copyStart and copyEnd from ftab. */
  method CopyEnds(ftab: array<int>, ss: nat, ghost k: seq<int>, ghost flags: seq<bool>) returns (copyStart: array<int>, copyEnd: array<int>)
    requires Flagged(ftab[..], k, flags) && ss < 256
    ensures fresh(copyStart) && fresh(copyEnd) && copyStart != copyEnd
    ensures copyStart[..] == Lows(k, ss) && copyEnd[..] == Ends(k, ss)
  {
    hide Start, Flagged;
    copyStart, copyEnd := new int[256], new int[256];
    for j := 0 to 256
      invariant forall t :: 0 <= t < j ==> copyStart[t] == Start(k, 256 * t + ss) && copyEnd[t] == Start(k, 256 * t + ss + 1) - 1
    {
      Unmask(ftab[..], k, flags, j * 256 + ss);
      Unmask(ftab[..], k, flags, j * 256 + ss + 1);
      copyStart[j] := ftab[j * 256 + ss] % SETMASK;
      copyEnd[j] := ftab[j * 256 + ss + 1] % SETMASK - 1;
    }
    assert copyStart[..] == Lows(k, ss);
    assert copyEnd[..] == Ends(k, ss);
  }

  /** Marks every small bucket with second byte ss. */
  method MarkColumn(ftab: array<int>, ss: nat, ghost k: seq<int>, ghost flags0: seq<bool>)
    requires Flagged(ftab[..], k, flags0) && ss < 256
    modifies ftab
    ensures Flagged(ftab[..], k, AllMarks(flags0, ss))
  {
    hide Start, Flagged;
    ghost var flags := flags0;
    FlagSizes(ftab[..], k, flags);
    for j := 0 to 256
      invariant Flagged(ftab[..], k, flags) && |flags| == |flags0| == PAIRS + 1
      invariant forall sb :: 0 <= sb <= PAIRS ==> flags[sb] == (flags0[sb] || (sb < 256 * j && sb % 256 == ss))
    {
      var sb := j * 256 + ss;
      ghost var f := ftab[..];
      Unmask(f, k, flags, sb);
      FlagSet(f, k, flags, sb);
      if ftab[sb] / SETMASK % 2 != 1 { ftab[sb] := ftab[sb] + SETMASK; }
      assert ftab[..] == f[sb := Start(k, sb) + SETMASK];
      flags := flags[sb := true];
      ColumnStep(j, ss);
    }
    assert flags == AllMarks(flags0, ss);
  }

  lemma FlagSizes(ftab: seq<int>, k: seq<int>, flags: seq<bool>)
    requires Flagged(ftab, k, flags)
    ensures |ftab| == |flags| == PAIRS + 1 && PAIRS == 65536
  {
  }

  lemma ColumnStep(j: nat, ss: nat)
    requires ss < 256
    ensures forall sb {:trigger sb % 256} :: 256 * j <= sb < 256 * (j + 1) && sb % 256 == ss ==> sb == j * 256 + ss
    ensures (j * 256 + ss) % 256 == ss
  {
  }

  lemma TopsWaiting(b: seq<byte>, k: seq<int>, c: int, done: seq<bool>, p0: seq<int>, p1: seq<int>, cs: seq<int>)
    requires |b| > 0 && k == Pairs(b) && 0 <= c < 256 && Bucketed(k, p0) && Kept(k, p0, p1, c, done) && |cs| == |done| == 256 && |p1| == |p0|
    requires (forall t :: 0 <= t < 256 ==> 0 <= Lows(k, c)[t] <= cs[t] <= |p1|) && Waiting(p0, p1, cs, Highs(k, c))
    ensures Waiting(p0, p1, Tops(k, c, Below(p1, Lows(k, c), cs, done)), Highs(k, c))
  {
    hide Start, Pairs, Kept, Bucketed;
    BucketedSlots(k, p0);
    var from, to := Tops(k, c, Below(p1, Lows(k, c), cs, done)), Highs(k, c);
    forall t | 0 <= t < 256 ensures from[t] == if done[t] then Start(k, 256 * t + c) else cs[t] {}
    forall t, x {:trigger from[t], p1[x]} | 0 <= t < 256 && 0 <= from[t] <= x < to[t] <= |p1| ensures p1[x] == p0[x] {
      if done[t] { TopWaits(k, c, t, done, p0, p1, x); }
    }
  }

  lemma TopWaits(k: seq<int>, c: int, t: int, done: seq<bool>, p0: seq<int>, p1: seq<int>, x: nat)
    requires Bucketed(k, p0) && Kept(k, p0, p1, c, done) && 0 <= c < 256 && 0 <= t < 256 == |done| && done[t] && x < |p1| == |p0|
    requires Start(k, 256 * t + c) <= x < Start(k, 256 * t + c + 1)
    ensures p1[x] == p0[x]
  {
    hide *;
    PairCount();
    BucketedSlots(k, p0);
    BucketOf(k, p0, x, 256 * t + c);
    DivMod(t, c);
    KeptAt(k, p0, p1, c, done, x);
  }

  lemma BelowFits(k: seq<int>, c: int, p1: seq<int>, cs: seq<int>, done: seq<bool>)
    requires 0 <= c < 256 && |cs| == |done| == 256 && Keys(k, PAIRS) && |p1| == |k|
    requires forall t :: 0 <= t < 256 ==> 0 <= Lows(k, c)[t] <= cs[t] <= Start(k, 256 * t + c + 1) <= |p1|
    ensures forall t :: 0 <= t < 256 ==> Start(k, 256 * t + c) + |Below(p1, Lows(k, c), cs, done)[t]| <= Start(k, 256 * t + c + 1)
  {
    hide Start;
  }

  lemma MakeBothScans(b: seq<byte>, k: seq<int>, c: int, done: seq<bool>, p0: seq<int>, p1: seq<int>, cs: seq<int>, us: seq<int>, ud: seq<int>,
                      p: seq<int>, ce: seq<int>, ds: seq<int>, dd: seq<int>)
    requires |b| > 0 && k == Pairs(b) && 0 <= c < 256 && |cs| == |ce| == |done| == 256 && !done[c] && |p0| == |p1| == |p| == |b|
    requires Scanning(b, k, c, done, Up(k, c), p1, cs, us, ud, cs[c]) && forall t :: 0 <= t < 256 ==> 0 <= Lows(k, c)[t] <= cs[t] <= |p1|
    requires Scanning(b, k, c, done, Down(k, c, Below(p1, Lows(k, c), cs, done)), Rev(p), Mirror(ce, |b| - 1), ds, dd, |b| - 1 - ce[c])
    requires Frozen(p, Lows(k, c), done, Below(p1, Lows(k, c), cs, done))
    requires Waiting(p0, p1, cs, Highs(k, c)) && Waiting(p0, p, Tops(k, c, Below(p1, Lows(k, c), cs, done)), Shifted(ce, 1))
    requires Bucketed(k, p0) && Kept(k, p0, p, c, done)
    ensures BothScans(b, k, c, done, p0, p1, cs, us, ud, p, ce, ds, dd)
  {
    hide Scanning, Frozen, Waiting, Bucketed, Kept, Start, Pairs;
  }

  /** Step 2: both scans of big bucket ss, and the marks they earn. */
  method CopyBuckets(ptr: array<int>, block: array<int>, ftab: array<int>, bigDone: array<bool>, ss: nat, nblock: nat, ghost b: seq<byte>, ghost k: seq<int>, ghost flags: seq<bool>)
    requires ptr != block && ptr != ftab && ftab != block && ss < 256 && bigDone.Length == 256 && !bigDone[ss]
    requires ptr.Length == nblock == |b| && Holds(block[..], b) && Marked(b, k, ptr[..], flags, bigDone[..]) && Flagged(ftab[..], k, flags)
    requires |flags| == PAIRS + 1 && forall sb: nat :: 256 * ss <= sb < 256 * ss + 256 && sb != 256 * ss + ss ==> flags[sb]
    modifies ptr, ftab
    ensures Marked(b, k, ptr[..], AllMarks(flags, ss), bigDone[..][ss := true]) && Flagged(ftab[..], k, AllMarks(flags, ss))
  {
    hide *;
    ghost var p0, done := ptr[..], bigDone[..];
    MarkedParts(b, k, p0, flags, done);
    MaskSize();
    PairsSize(b);
    ReadyNow(b, k, p0, flags, done, ss);
    var copyStart, copyEnd := CopyEnds(ftab, ss, k, flags);
    Unmask(ftab[..], k, flags, ss * 256);
    Unmask(ftab[..], k, flags, (ss + 1) * 256);
    ghost var us, ud := ScanUp(ptr, block, bigDone, copyStart, ss, ftab[ss * 256] % SETMASK, nblock, b, k);
    ghost var p1, cs := ptr[..], copyStart[..];
    UpShape(k, ss);
    ScanningParts(b, k, ss, done, Up(k, ss), p1, cs, us, ud, cs[ss]);
    BelowOpposed(b, k, ss, done, Up(k, ss), p1, cs, us, ud);
    ghost var below := Below(p1, Lows(k, ss), cs, done);
    BelowFits(k, ss, p1, cs, done);
    FrozenStart(p1, Lows(k, ss), cs, done);
    TopsWaiting(b, k, ss, done, p0, p1, cs);
    ghost var ds, dd := ScanDown(ptr, block, bigDone, copyEnd, ss, ftab[(ss + 1) * 256] % SETMASK - 1, nblock, b, k, p0, below);
    MakeBothScans(b, k, ss, done, p0, p1, cs, us, ud, ptr[..], copyEnd[..], ds, dd);
    forall t | 0 <= t < 256 && !done[t] ensures FullBucket(b, k, ptr[..], 256 * t + ss) {
      ScansFill(b, k, ss, done, p0, p1, cs, us, ud, ptr[..], copyEnd[..], ds, dd, t);
    }
    ScansFill(b, k, ss, done, p0, p1, cs, us, ud, ptr[..], copyEnd[..], ds, dd, ss);
    OneBucket(b, k, ss);
    // assertion 1007 of the source
    assert copyStart[ss] - 1 == copyEnd[ss] || (copyStart[ss] == 0 && copyEnd[ss] == nblock - 1);
    ScansMark(b, k, ss, done, p0, ptr[..], flags);
    MarkColumn(ftab, ss, k, flags);
  }

  /** In a block of one byte c the bucket [c, c] is everything. */
  lemma OneBucket(b: seq<byte>, k: seq<int>, c: int)
    requires |b| > 0 && k == Pairs(b) && 0 <= c < 256
    ensures (forall i :: 0 <= i < |b| ==> b[i] == c) ==> Start(k, 256 * c + c) == 0 && Start(k, 256 * c + c + 1) == |b|
  {
    if forall i :: 0 <= i < |b| ==> b[i] == c {
      forall i | 0 <= i < |b| ensures k[i] == 256 * c + c {
        AtAll(b, c, i + 1);
      }
      hide Pairs;
      StartOnly(k, 256 * c + c, 256 * c + c);
      StartNext(k, 256 * c + c);
      OccFull(k, 256 * c + c, |k|);
    }
  }

  lemma {:induction false} StartOnly(k: seq<int>, c: int, d: nat)
    requires d <= c && forall i :: 0 <= i < |k| ==> k[i] == c
    ensures Start(k, d) == 0
  {
    if d > 0 {
      StartOnly(k, c, d - 1);
      OccAbsent(k, d - 1, |k|);
    }
  }

  lemma {:induction false} OccAbsent(k: seq<int>, c: int, i: nat)
    requires i <= |k| && forall x :: 0 <= x < |k| ==> k[x] != c
    ensures Occ(k, c, i) == 0
  {
    if i > 0 { OccAbsent(k, c, i - 1); }
  }

  lemma {:induction false} OccFull(k: seq<int>, c: int, i: nat)
    requires i <= |k| && forall x :: 0 <= x < |k| ==> k[x] == c
    ensures Occ(k, c, i) == i
  {
    if i > 0 { OccFull(k, c, i - 1); }
  }

  // ---------- step 3: the quadrants of a finished big bucket ----------

  lemma {:induction false} ShrMono(u: nat, v: nat, s: nat)
    requires u <= v
    ensures Shr(u, s) <= Shr(v, s) <= v
  {
    if s > 0 { ShrMono(u / 2, v / 2, s - 1); }
  }

  lemma {:induction false} ShrLess(v: nat, s: nat)
    requires Shr(v, s) > 0
    ensures Shr(v, s + 1) < Shr(v, s)
  {
    if s > 0 { ShrLess(v / 2, s - 1); }
  }

  /** How far ranks must be shifted to fit 16 bits. */
  method Shifts(bbSize: nat) returns (shifts: nat)
    ensures Shr(bbSize, shifts) <= 65534
  {
    shifts := 0;
    while Shr(bbSize, shifts) > 65534
      decreases Shr(bbSize, shifts)
    {
      ShrLess(bbSize, shifts);
      shifts := shifts + 1;
    }
  }

  /** The ranks from j up have been recorded, in the overshoot area too. */
  ghost predicate Ranked(b: seq<byte>, p: seq<int>, q0: seq<int>, q: seq<int>, c: int, lo: int, hi: int, j: int, shifts: nat) {
    && |b| > 0 && |q| == |q0| == |b| + N_OVERSHOOT && 0 <= lo <= hi <= |p| && 0 <= j
    && (forall x :: lo <= x < hi ==> 0 <= p[x] < |b| && b[p[x]] == c)
    && (forall x :: lo + j <= x < hi ==> q[p[x]] == Shr(x - lo, shifts) && (p[x] < N_OVERSHOOT ==> q[p[x] + |b|] == Shr(x - lo, shifts)))
    && forall u: nat :: u < |q| && At(b, u) != c ==> q[u] == q0[u]
  }

  lemma RankedStep(b: seq<byte>, p: seq<int>, q0: seq<int>, q: seq<int>, q': seq<int>, c: int, lo: int, hi: int, j: int, shifts: nat, a: int)
    requires Ranked(b, p, q0, q, c, lo, hi, j + 1, shifts) && 0 <= j && lo + j < hi && a == p[lo + j] && |b| >= N_OVERSHOOT
    requires forall x, y :: lo <= x < y < hi ==> p[x] != p[y]
    requires q' == if a < N_OVERSHOOT then q[a := Shr(j, shifts)][a + |b| := Shr(j, shifts)] else q[a := Shr(j, shifts)]
    ensures Ranked(b, p, q0, q', c, lo, hi, j, shifts)
  {
    hide Shr;
    forall u: nat | u < |q| && At(b, u) != c ensures q'[u] == q0[u] {
      assert At(b, a) == c;
      assert At(b, a + |b|) == At(b, a);
    }
  }

  /** The new values keep the quadrant invariant. */
  lemma RankedQuadrants(b: seq<byte>, k: seq<int>, p: seq<int>, q0: seq<int>, q: seq<int>, c: int, lo: int, hi: int, shifts: nat)
    requires Ranked(b, p, q0, q, c, lo, hi, 0, shifts) && Quadrants(b, q0) && |b| >= N_OVERSHOOT
    requires forall x, y :: lo <= x < y < hi ==> Cmp(b, p[x], p[y], |b|) <= 0
    requires forall w :: 0 <= w < |b| && b[w] == c ==> exists x :: lo <= x < hi && p[x] == w
    ensures Quadrants(b, q)
  {
    hide Shr, Ranked, Cmp;
    RankedSize(b, p, q0, q, c, lo, hi, shifts);
    forall u, v | 0 <= u < |q| && 0 <= v < |q| && At(b, u) == At(b, v) && q[u] < q[v] ensures Cmp(b, u, v, |b|) <= 0 {
      if At(b, u) == c {
        RankedPair(b, p, q0, q, c, lo, hi, shifts, u, v);
      } else {
        RankedOther(b, p, q0, q, c, lo, hi, shifts, u);
        RankedOther(b, p, q0, q, c, lo, hi, shifts, v);
      }
    }
  }

  lemma RankedSize(b: seq<byte>, p: seq<int>, q0: seq<int>, q: seq<int>, c: int, lo: int, hi: int, shifts: nat)
    requires Ranked(b, p, q0, q, c, lo, hi, 0, shifts)
    ensures |b| > 0 && |q| == |q0| == |b| + N_OVERSHOOT && 0 <= lo <= hi <= |p| && forall x :: lo <= x < hi ==> 0 <= p[x] < |b|
  {
  }

  lemma RankedOther(b: seq<byte>, p: seq<int>, q0: seq<int>, q: seq<int>, c: int, lo: int, hi: int, shifts: nat, u: nat)
    requires Ranked(b, p, q0, q, c, lo, hi, 0, shifts) && u < |q| && At(b, u) != c
    ensures q[u] == q0[u]
  {
    hide Shr;
  }

  lemma RankedPair(b: seq<byte>, p: seq<int>, q0: seq<int>, q: seq<int>, c: int, lo: int, hi: int, shifts: nat, u: nat, v: nat)
    requires Ranked(b, p, q0, q, c, lo, hi, 0, shifts) && |b| >= N_OVERSHOOT && 0 <= lo && hi <= |p| && forall x :: lo <= x < hi ==> 0 <= p[x] < |b|
    requires forall x, y :: lo <= x < y < hi ==> Cmp(b, p[x], p[y], |b|) <= 0
    requires forall w :: 0 <= w < |b| && b[w] == c ==> exists x :: lo <= x < hi && p[x] == w
    requires u < |q| && v < |q| && At(b, u) == c == At(b, v) && q[u] < q[v]
    ensures Cmp(b, u, v, |b|) <= 0
  {
    hide Shr, Ranked, Cmp, At;
    var x := RankOf(b, p, q0, q, c, lo, hi, shifts, u);
    var y := RankOf(b, p, q0, q, c, lo, hi, shifts, v);
    if y <= x { ShrMono(y - lo, x - lo, shifts); }
    assert x < y;
    if u >= |b| { CmpWrap(b, p[x], v, |b|); }
    if v >= |b| { CmpWrap(b, p[x], p[y], |b|); }
  }

  lemma RankOf(b: seq<byte>, p: seq<int>, q0: seq<int>, q: seq<int>, c: int, lo: int, hi: int, shifts: nat, u: nat) returns (x: int)
    requires Ranked(b, p, q0, q, c, lo, hi, 0, shifts) && u < |q| && At(b, u) == c && |b| >= N_OVERSHOOT
    requires forall w :: 0 <= w < |b| && b[w] == c ==> exists x :: lo <= x < hi && p[x] == w
    ensures lo <= x < hi && q[u] == Shr(x - lo, shifts) && (if u < |b| then p[x] == u else p[x] == u - |b|)
  {
    hide Shr;
    var w := if u < |b| then u else u - |b|;
    assert At(b, w) == b[w] == c;
    x :| lo <= x < hi && p[x] == w;
  }

  lemma BigRegion(b: seq<byte>, k: seq<int>, p: seq<int>, flags: seq<bool>, done: seq<bool>, ss: int)
    requires Marked(b, k, p, flags, done) && 0 <= ss < 256 && |done| == 256 && done[ss]
    ensures |p| == |b| && 0 <= Start(k, 256 * ss) <= Start(k, 256 * ss + 256) <= |p|
    ensures forall x :: Start(k, 256 * ss) <= x < Start(k, 256 * ss + 256) ==> 0 <= p[x] < |b| && b[p[x]] == ss
    ensures forall x, y :: Start(k, 256 * ss) <= x < y < Start(k, 256 * ss + 256) ==> Cmp(b, p[x], p[y], |b|) <= 0 && p[x] != p[y]
    ensures forall w :: 0 <= w < |b| && b[w] == ss ==> exists x :: Start(k, 256 * ss) <= x < Start(k, 256 * ss + 256) && p[x] == w
  {
    hide Pairs, Start, SmallSorted, Bucketed, Cmp;
    MarkedParts(b, k, p, flags, done);
    PairsSize(b);
    BucketedPerm(k, p);
    StartsInside(k, ss, ss);
    var from, to := 256 * ss, 256 * ss + 256;
    forall sb: nat | from <= sb < to ensures SmallSorted(b, k, p, sb) {
      KeySplit(sb);
      assert sb / 256 == ss;
      assert flags[sb];
    }
    forall x | Start(k, from) <= x < Start(k, to) ensures 0 <= p[x] < |b| && b[p[x]] == ss {
      RegionKey(k, p, from, to, x);
      PairParts(b, ss, p[x]);
    }
    forall x, y | Start(k, from) <= x < y < Start(k, to) ensures Cmp(b, p[x], p[y], |b|) <= 0 && p[x] != p[y] { RegionOrdered(b, k, p, from, to, x, y); }
    forall w | 0 <= w < |b| && b[w] == ss ensures exists x :: Start(k, from) <= x < Start(k, to) && p[x] == w {
      var x := InRange(p, |k|, w);
      FirstKey(b, ss, w);
      RegionKey(k, p, from, to, x);
    }
  }

  /** Step 3: records the ranks of big bucket ss. */
  method RecordRanks(ptr: array<int>, quadrant: array<int>, ftab: array<int>, ss: nat, nblock: nat, ghost b: seq<byte>, ghost k: seq<int>, ghost flags: seq<bool>, ghost done: seq<bool>)
    requires ptr != quadrant && quadrant != ftab && ss < 256 && nblock == |b| >= N_OVERSHOOT
    requires Marked(b, k, ptr[..], flags, done) && |done| == 256 && done[ss] && Flagged(ftab[..], k, flags) && Quadrants(b, quadrant[..])
    modifies quadrant
    ensures Quadrants(b, quadrant[..])
  {
    hide *;
    MaskSize();
    ghost var p, q0 := ptr[..], quadrant[..];
    MarkedParts(b, k, p, flags, done);
    Unmask(ftab[..], k, flags, ss * 256);
    Unmask(ftab[..], k, flags, (ss + 1) * 256);
    BigRegion(b, k, p, flags, done, ss);
    var bbStart := ftab[ss * 256] % SETMASK;
    var bbSize := ftab[(ss + 1) * 256] % SETMASK - bbStart;
    ghost var hi := bbStart + bbSize;
    var shifts := Shifts(bbSize);
    RankedStart(b, p, q0, ss, bbStart, hi, bbSize, shifts);
    var j := bbSize - 1;
    while j >= 0
      invariant -1 <= j < bbSize && ptr[..] == p && Ranked(b, p, q0, quadrant[..], ss, bbStart, hi, j + 1, shifts)
      decreases j
    {
      RankedSizes(b, p, q0, quadrant[..], ss, bbStart, hi, j + 1, shifts);
      ghost var q := quadrant[..];
      var a2update := ptr[bbStart + j];
      var qVal := Shr(j, shifts);
      ShrMono(j, bbSize, shifts);
      assert qVal <= 65535;  // assertion 1002 of the source: the cast to 16 bits loses nothing
      quadrant[a2update] := qVal;
      if a2update < N_OVERSHOOT { quadrant[a2update + nblock] := qVal; }
      assert quadrant[..] == if a2update < N_OVERSHOOT then q[a2update := qVal][a2update + |b| := qVal] else q[a2update := qVal];
      RankedStep(b, p, q0, q, quadrant[..], ss, bbStart, hi, j, shifts, a2update);
      j := j - 1;
    }
    RankedQuadrants(b, k, p, q0, quadrant[..], ss, bbStart, hi, shifts);
  }

  lemma RankedSizes(b: seq<byte>, p: seq<int>, q0: seq<int>, q: seq<int>, c: int, lo: int, hi: int, j: int, shifts: nat)
    requires Ranked(b, p, q0, q, c, lo, hi, j, shifts)
    ensures |b| > 0 && |q| == |b| + N_OVERSHOOT && 0 <= lo <= hi <= |p| && forall x :: lo <= x < hi ==> 0 <= p[x] < |b|
  {
    hide Shr;
  }

  lemma RankedStart(b: seq<byte>, p: seq<int>, q0: seq<int>, c: int, lo: int, hi: int, j: int, shifts: nat)
    requires Quadrants(b, q0) && 0 <= lo <= hi <= |p| && j == hi - lo && forall x :: lo <= x < hi ==> 0 <= p[x] < |b| && b[p[x]] == c
    ensures Ranked(b, p, q0, q0, c, lo, hi, j, shifts)
  {
    hide Shr;
  }

  // ---------- the running order ----------

  /** BIGFREQ, before any mark is set. */
  function BigFreq(ftab: seq<int>, c: int): int
    requires |ftab| == PAIRS + 1 && 0 <= c < 256
  {
    ftab[(c + 1) * 256] - ftab[c * 256]
  }

  ghost function BySize(ftab: seq<int>): (int, int) -> bool {
    (u, v) => |ftab| == PAIRS + 1 && 0 <= u < 256 && 0 <= v < 256 && BigFreq(ftab, u) <= BigFreq(ftab, v)
  }

  ghost predicate Bytes256(s: seq<int>) {
    |s| == 256 && forall i :: 0 <= i < 256 ==> 0 <= s[i] < 256
  }

  lemma SizeStep(ftab: seq<int>, s: seq<int>, cur: seq<int>, i: int, j: int, h: int, sorted: bool)
    requires |ftab| == PAIRS + 1 && Shuffled(s, cur, 0, 255) && Bytes256(cur) && 0 < h <= j <= i < 256
    requires BigFreq(ftab, cur[j - h]) > BigFreq(ftab, cur[j])
    requires sorted ==> h == 1 && Rising(BySize(ftab), cur, 0, j, i)
    ensures Shuffled(s, Swapped(cur, j, j - h), 0, 255) && Bytes256(Swapped(cur, j, j - h))
    ensures sorted ==> Rising(BySize(ftab), Swapped(cur, j, j - h), 0, j - h, i)
  {
    hide Shuffled, Rising, BigFreq;
    if sorted { RiseStep(BySize(ftab), cur, 0, j, i); }
    SwapShuffled(cur, j, j - h, 0, 255);
    ShuffledTrans(s, cur, Swapped(cur, j, j - h), 0, 255, 0, 255);
  }

  lemma SizeEnd(ftab: seq<int>, cur: seq<int>, j: int, i: int)
    requires |ftab| == PAIRS + 1 && Bytes256(cur) && Rising(BySize(ftab), cur, 0, j, i) && 0 <= j <= i < 256
    requires 0 < j ==> BigFreq(ftab, cur[j - 1]) <= BigFreq(ftab, cur[j])
    ensures SortedIn(BySize(ftab), cur, 0, i)
  {
    hide BigFreq;
    forall u, v, w | BySize(ftab)(u, v) && BySize(ftab)(v, w) ensures BySize(ftab)(u, w) { }
    RiseEnd(BySize(ftab), cur, 0, j, i);
  }

  /** One insertion step of the shell sort of the 256 big buckets. */
  method SizeInsert(order: array<int>, ftab: array<int>, i: int, h: int)
    requires order != ftab && order.Length == 256 && ftab.Length == PAIRS + 1 && Bytes256(order[..]) && 0 < h <= i < 256
    modifies order
    ensures Bytes256(order[..]) && Shuffled(old(order[..]), order[..], 0, 255)
    ensures h == 1 && old(SortedIn(BySize(ftab[..]), order[..], 0, i - 1)) ==> SortedIn(BySize(ftab[..]), order[..], 0, i)
  {
    hide Shuffled, Rising, SortedIn, BigFreq, BySize;
    ghost var s, f := order[..], ftab[..];
    ghost var sorted := h == 1 && SortedIn(BySize(f), s, 0, i - 1);
    if sorted { RiseStart(BySize(f), s, 0, i); }
    ShuffledRefl(s, 0, 255);
    var vv := order[i];
    var j := i;
    ghost var cur := s;
    while BigFreq(ftab[..], order[j - h]) > BigFreq(ftab[..], vv)
      invariant ftab[..] == f && h <= j <= i && |cur| == 256 && cur[j] == vv
      invariant forall x :: 0 <= x < 256 && x != j ==> order[x] == cur[x]
      invariant Shuffled(s, cur, 0, 255) && Bytes256(cur) && 0 <= order[j - h] < 256
      invariant sorted ==> Rising(BySize(f), cur, 0, j, i)
      decreases j
    {
      SizeStep(f, s, cur, i, j, h, sorted);
      cur := Swapped(cur, j, j - h);
      order[j] := order[j - h];
      j := j - h;
      if j <= h - 1 { break; }
      assert order[j - h] == cur[j - h];
    }
    order[j] := vv;
    assert order[..] == cur;
    if sorted { SizeEnd(f, cur, j, i); }
  }

  /** The big buckets in order of size. */
  method RunningOrder(ftab: array<int>) returns (order: array<int>)
    requires ftab.Length == PAIRS + 1
    ensures fresh(order) && IsPerm(order[..], 256) && SortedIn(BySize(ftab[..]), order[..], 0, 255)
  {
    hide Shuffled, SortedIn, BySize;
    order := new int[256](i => i);
    ghost var s, f := order[..], ftab[..];
    ShuffledRefl(s, 0, 255);
    var h := 4;
    while h <= 256
      invariant h in {4, 13, 40, 121, 364} && ftab[..] == f && order[..] == s
      decreases 256 - h
    {
      h := 3 * h + 1;
    }
    while h != 1
      invariant h in {364, 121, 40, 13, 4, 1} && ftab[..] == f
      invariant Bytes256(order[..]) && Shuffled(s, order[..], 0, 255)
      invariant h == 1 ==> SortedIn(BySize(f), order[..], 0, 255)
      decreases h
    {
      h := h / 3;
      OneSorted(f, order[..], h);
      for i := h to 256
        invariant ftab[..] == f && Bytes256(order[..]) && Shuffled(s, order[..], 0, 255)
        invariant h == 1 ==> SortedIn(BySize(f), order[..], 0, i - 1)
      {
        ghost var t := order[..];
        SizeInsert(order, ftab, i, h);
        ShuffledTrans(s, t, order[..], 0, 255, 0, 255);
      }
    }
    OrderPerm(s, order[..]);
  }

  lemma OneSorted(f: seq<int>, s: seq<int>, h: int)
    ensures h == 1 ==> SortedIn(BySize(f), s, 0, h - 1)
  {
  }

  lemma OrderPerm(s: seq<int>, t: seq<int>)
    requires Bytes256(t) && Shuffled(s, t, 0, 255) && |s| == 256 && forall i :: 0 <= i < 256 ==> s[i] == i
    ensures IsPerm(t, 256)
  {
    ShuffledDistinct(s, t);
  }

  // ---------- the sort ----------

  /** Zeroes the quadrants and repeats the beginning of the block past its end. */
  method Extend(block: array<int>, quadrant: array<int>, nblock: nat, ghost b: seq<byte>)
    requires block != quadrant && block.Length == quadrant.Length == nblock + N_OVERSHOOT && nblock == |b| >= N_OVERSHOOT && Holds(block[..], b)
    modifies block, quadrant
    ensures Extended(b, block[..]) && Quadrants(b, quadrant[..]) && Holds(block[..], b)
  {
    ghost var blk := block[..];
    for i := 0 to nblock
      invariant block[..] == blk && forall u :: 0 <= u < i ==> quadrant[u] == 0
    {
      quadrant[i] := 0;
    }
    for i := 0 to N_OVERSHOOT
      invariant forall u :: 0 <= u < nblock ==> block[u] == b[u]
      invariant forall u :: nblock <= u < nblock + i ==> block[u] == b[u - nblock]
      invariant forall u :: 0 <= u < nblock + i ==> quadrant[u] == 0
    {
      block[nblock + i] := block[i];
      quadrant[nblock + i] := 0;
    }
    forall i | 0 <= i < block.Length ensures block[..][i] == At(b, i) { }
  }

  lemma ExtendedHolds(b: seq<byte>, blk: seq<int>)
    requires Extended(b, blk)
    ensures Holds(blk, b)
  {
    forall i | 0 <= i < |b| ensures blk[i] == b[i] { assert At(b, i) == b[i]; }
  }

  lemma StartFlags(ftab: seq<int>, k: seq<int>)
    requires |ftab| == PAIRS + 1 && Keys(k, PAIRS) && |k| <= 900000 && forall c :: 0 <= c <= PAIRS ==> ftab[c] == Start(k, c)
    ensures Flagged(ftab, k, seq(PAIRS + 1, _ => false))
  {
    hide Start;
  }

  lemma StartMarks(b: seq<byte>, k: seq<int>, p: seq<int>)
    requires |b| > 0 && k == Pairs(b) && Bucketed(k, p)
    ensures Marked(b, k, p, seq(PAIRS + 1, _ => false), seq(256, _ => false))
  {
    hide SmallSorted, Bucketed, Pairs;
  }

  lemma AllDone(b: seq<byte>, k: seq<int>, p: seq<int>, flags: seq<bool>, done: seq<bool>)
    requires Marked(b, k, p, flags, done) && |done| == 256 && forall t :: 0 <= t < 256 ==> done[t]
    ensures RotationSorted(b, p)
  {
    hide Pairs, Start, SmallSorted, Cmp, Bucketed;
    MarkedParts(b, k, p, flags, done);
    PairsSize(b);
    BucketedPerm(k, p);
    StartTotal(k, PAIRS);
    forall sb: nat | 0 <= sb < PAIRS ensures SmallSorted(b, k, p, sb) {
      KeySplit(sb);
      assert flags[sb];
    }
    forall x, y | 0 <= x < y < |p| ensures Cmp(b, p[x], p[y], |b|) <= 0 { RegionOrdered(b, k, p, 0, PAIRS, x, y); }
  }

  /** Everything the main loop keeps. */
  ghost predicate Sorting(b: seq<byte>, k: seq<int>, p: seq<int>, ftab: seq<int>, flags: seq<bool>, done: seq<bool>, blk: seq<int>, q: seq<int>) {
    Marked(b, k, p, flags, done) && Flagged(ftab, k, flags) && Extended(b, blk) && Quadrants(b, q)
  }

  /** The initial radix sort. */
  method Prepare(ptr: array<int>, block: array<int>, quadrant: array<int>, ftab: array<int>, nblock: nat, ghost b: seq<byte>)
    requires ptr != block && ptr != quadrant && ptr != ftab && block != quadrant && block != ftab && quadrant != ftab
    requires ptr.Length == nblock == |b| && N_OVERSHOOT <= nblock <= 900000 && block.Length == quadrant.Length == nblock + N_OVERSHOOT
    requires ftab.Length == PAIRS + 1 && Holds(block[..], b)
    modifies ptr, block, quadrant, ftab
    ensures |b| > 0 && Holds(block[..], b)
    ensures Sorting(b, Pairs(b), ptr[..], ftab[..], seq(PAIRS + 1, _ => false), seq(256, _ => false), block[..], quadrant[..])
  {
    hide *;
    HoldsSize(block[..], b);
    PairsSize(b);
    HeldAll(block[..], b);
    CountPairs(block, ftab, nblock, b);
    Extend(block, quadrant, nblock, b);
    Accumulate(ftab, Pairs(b));
    HeldAll(block[..], b);
    ScatterPairs(block, ftab, ptr, nblock, b);
    StartFlags(ftab[..], Pairs(b));
    StartMarks(b, Pairs(b), ptr[..]);
    MakeSorting(b, Pairs(b), ptr[..], ftab[..], seq(PAIRS + 1, _ => false), seq(256, _ => false), block[..], quadrant[..]);
  }

  lemma HeldAll(block: seq<int>, b: seq<byte>)
    requires Holds(block, b)
    ensures 0 < |b| <= |block| && forall i :: 0 <= i < |b| ==> block[i] == b[i]
  {
  }

  lemma MakeSorting(b: seq<byte>, k: seq<int>, p: seq<int>, ftab: seq<int>, flags: seq<bool>, done: seq<bool>, blk: seq<int>, q: seq<int>)
    requires Marked(b, k, p, flags, done) && Flagged(ftab, k, flags) && Extended(b, blk) && Quadrants(b, q)
    ensures Sorting(b, k, p, ftab, flags, done, blk, q)
  {
    hide Marked, Flagged, Extended, Quadrants;
  }

  lemma SortingParts(b: seq<byte>, k: seq<int>, p: seq<int>, ftab: seq<int>, flags: seq<bool>, done: seq<bool>, blk: seq<int>, q: seq<int>)
    requires Sorting(b, k, p, ftab, flags, done, blk, q)
    ensures Marked(b, k, p, flags, done) && Flagged(ftab, k, flags) && Extended(b, blk) && Quadrants(b, q)
  {
    hide Marked, Flagged, Extended, Quadrants;
  }

  /** Steps 1 to 3 for one big bucket. */
  method DoBig(ptr: array<int>, block: array<int>, quadrant: array<int>, ftab: array<int>, bigDone: array<bool>, nblock: nat, ss: nat, last: bool, budget0: int,
               ghost b: seq<byte>, ghost k: seq<int>, ghost flags0: seq<bool>)
    returns (budget: int, ghost flags: seq<bool>)
    requires ptr != block && ptr != quadrant && ptr != ftab && block != quadrant && block != ftab && quadrant != ftab && bigDone.Length == 256
    requires ptr.Length == nblock == |b| && N_OVERSHOOT <= nblock <= 900000 && ss < 256 && !bigDone[ss] && budget0 >= 0
    requires Sorting(b, k, ptr[..], ftab[..], flags0, bigDone[..], block[..], quadrant[..])
    modifies ptr, quadrant, ftab, bigDone
    ensures budget <= budget0
    ensures budget >= 0 ==> bigDone[..] == old(bigDone[..])[ss := true] && Sorting(b, k, ptr[..], ftab[..], flags, bigDone[..], block[..], quadrant[..])
  {
    hide *;
    ghost var done := bigDone[..];
    SortingParts(b, k, ptr[..], ftab[..], flags0, done, block[..], quadrant[..]);
    ExtendedHolds(b, block[..]);
    budget, flags := FinishOthers(ptr, block, quadrant, ftab, nblock, ss, budget0, b, k, flags0, done);
    if budget < 0 { return; }
    assert !bigDone[ss];  // assertion 1006 of the source
    CopyBuckets(ptr, block, ftab, bigDone, ss, nblock, b, k, flags);
    flags := AllMarks(flags, ss);
    bigDone[ss] := true;
    assert bigDone[..] == done[ss := true];
    if !last { RecordRanks(ptr, quadrant, ftab, ss, nblock, b, k, flags, bigDone[..]); }
    MakeSorting(b, k, ptr[..], ftab[..], flags, bigDone[..], block[..], quadrant[..]);
  }

  /** mainSort: unless it runs out of budget, sorts the rotations.  The block itself comes back as it was. */
  method MainSort(ptr: array<int>, block: array<int>, quadrant: array<int>, ftab: array<int>, nblock: nat, budget0: int, ghost b: seq<byte>)
    returns (budget: int)
    requires ptr != block && ptr != quadrant && ptr != ftab && block != quadrant && block != ftab && quadrant != ftab
    requires ptr.Length == nblock == |b| && N_OVERSHOOT <= nblock <= 900000 && block.Length == quadrant.Length == nblock + N_OVERSHOOT
    requires ftab.Length == PAIRS + 1 && Holds(block[..], b) && budget0 >= 0
    modifies ptr, block, quadrant, ftab
    ensures budget <= budget0 && Holds(block[..], b)
    ensures budget >= 0 ==> RotationSorted(b, ptr[..])
  {
    hide *;
    budget := budget0;
    Prepare(ptr, block, quadrant, ftab, nblock, b);
    ghost var k, flags, blk := Pairs(b), seq(PAIRS + 1, _ => false), block[..];
    var bigDone := new bool[256](_ => false);
    assert bigDone[..] == seq(256, _ => false);
    var runningOrder := RunningOrder(ftab);
    ghost var order := runningOrder[..];
    OrderRange(order);
    for i := 0 to 256
      invariant block[..] == blk && runningOrder[..] == order && 0 <= budget <= budget0
      invariant Sorting(b, k, ptr[..], ftab[..], flags, bigDone[..], block[..], quadrant[..])
      invariant forall t :: 0 <= t < 256 ==> (bigDone[t] <==> t in order[..i])
    {
      var ss := runningOrder[i];
      OrderNext(order, i);
      budget, flags := DoBig(ptr, block, quadrant, ftab, bigDone, nblock, ss, i == 255, budget, b, k, flags);
      if budget < 0 { return; }
    }
    SortingParts(b, k, ptr[..], ftab[..], flags, bigDone[..], block[..], quadrant[..]);
    OrderAll(order);
    AllDone(b, k, ptr[..], flags, bigDone[..]);
  }

  lemma OrderRange(order: seq<int>)
    requires IsPerm(order, 256)
    ensures |order| == 256 && forall i :: 0 <= i < 256 ==> 0 <= order[i] < 256
  {
  }

  lemma OrderNext(order: seq<int>, i: nat)
    requires IsPerm(order, 256) && i < 256
    ensures order[i] !in order[..i] && order[..i + 1] == order[..i] + [order[i]]
  {
  }

  lemma OrderAll(order: seq<int>)
    requires IsPerm(order, 256)
    ensures forall t :: 0 <= t < 256 ==> t in order[..256]
  {
    assert order[..256] == order;
    forall t | 0 <= t < 256 ensures t in order { var x := InRange(order, 256, t); }
  }
}

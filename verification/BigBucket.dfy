/** Step 2 of the main sort, as the source runs it: one scan up and one scan down the big bucket. */
module BigBucket {
  import opened Rotations
  import opened Counting
  import opened BurrowsWheeler
  import opened Segments
  import opened MainCompare
  import opened MainSimpleSort
  import opened PairBuckets
  import opened CopyScan

  // ---------- the two directions ----------

  ghost function Lows(k: seq<int>, c: int): (r: seq<int>)
    requires 0 <= c < 256
    ensures |r| == 256 && forall t :: 0 <= t < 256 ==> r[t] == Start(k, 256 * t + c)
  {
    seq(256, t requires 0 <= t < 256 => Start(k, 256 * t + c))
  }

  ghost function Highs(k: seq<int>, c: int): (r: seq<int>)
    requires 0 <= c < 256
    ensures |r| == 256 && forall t :: 0 <= t < 256 ==> r[t] == Start(k, 256 * t + c + 1)
  {
    seq(256, t requires 0 <= t < 256 => Start(k, 256 * t + c + 1))
  }

  ghost function Up(k: seq<int>, c: int): Side
    requires 0 <= c < 256
  {
    Side(false, Lows(k, c), Highs(k, c), Start(k, 256 * c), seq(256, _ => []))
  }

  ghost function Mirror(s: seq<int>, n: int): (r: seq<int>)
    ensures |r| == |s| && forall t :: 0 <= t < |s| ==> r[t] == n - s[t]
  {
    seq(|s|, t requires 0 <= t < |s| => n - s[t])
  }

  ghost function Down(k: seq<int>, c: int, below: seq<seq<int>>): Side
    requires 0 <= c < 256
  {
    Side(true, Mirror(Highs(k, c), |k|), Mirror(Lows(k, c), |k|), |k| - Start(k, 256 * c + 256), below)
  }

  ghost function Rev(s: seq<int>): (r: seq<int>)
    ensures |r| == |s| && forall x :: 0 <= x < |s| ==> r[x] == s[|s| - 1 - x]
  {
    seq(|s|, x requires 0 <= x < |s| => s[|s| - 1 - x])
  }

  lemma RevUpdate(s: seq<int>, i: int, v: int)
    requires 0 <= i < |s|
    ensures Rev(s[i := v]) == Rev(s)[|s| - 1 - i := v]
  {
  }

  lemma MirrorUpdate(s: seq<int>, n: int, t: int, x: int)
    requires 0 <= t < |s|
    ensures Mirror(s[t := x], n) == Mirror(s, n)[t := n - x]
  {
  }

  /** Starts of the small buckets with second byte c, in order. */
  lemma StartsApart(k: seq<int>, c: int, t: int, u: int)
    requires Keys(k, PAIRS) && 0 <= c < 256 && 0 <= t < u < 256
    ensures Start(k, 256 * t + c + 1) <= Start(k, 256 * u + c)
    ensures u == c ==> Start(k, 256 * t + c + 1) <= Start(k, 256 * c)
    ensures t == c ==> Start(k, 256 * c + 256) <= Start(k, 256 * u + c)
  {
    StartMono(k, 256 * t + c + 1, 256 * u + c);
    if u == c { StartMono(k, 256 * t + c + 1, 256 * c); }
    if t == c { StartMono(k, 256 * c + 256, 256 * u + c); }
  }

  lemma StartsInside(k: seq<int>, c: int, t: int)
    requires Keys(k, PAIRS) && 0 <= c < 256 && 0 <= t < 256
    ensures 0 <= Start(k, 256 * t + c) <= Start(k, 256 * t + c + 1) <= |k|
    ensures Start(k, 256 * t + c + 1) == Start(k, 256 * t + c) + Occ(k, 256 * t + c, |k|)
    ensures Start(k, 256 * c) <= Start(k, 256 * c + c) <= Start(k, 256 * c + c + 1) <= Start(k, 256 * c + 256) <= |k|
  {
    StartTotal(k, PAIRS);
    StartNext(k, 256 * t + c);
    StartMono(k, 256 * t + c + 1, PAIRS);
    StartMono(k, 256 * c, 256 * c + c);
    StartMono(k, 256 * c + c, 256 * c + c + 1);
    StartMono(k, 256 * c + c + 1, 256 * c + 256);
    StartMono(k, 256 * c + 256, PAIRS);
  }

  lemma UpLaid(b: seq<byte>, k: seq<int>, c: int)
    requires |b| > 0 && k == Pairs(b) && 0 <= c < 256
    ensures Laid(b, k, c, Up(k, c))
  {
    hide Start, Occ, Leans, Pairs;
    var g := Up(k, c);
    forall t | 0 <= t < 256 ensures 0 <= g.lo[t] <= g.hi[t] <= |b| && g.hi[t] - g.lo[t] == Occ(k, 256 * t + c, |k|) { StartsInside(k, c, t); }
    forall t, u | 0 <= t < u < 256 ensures g.hi[t] <= g.lo[u] || g.hi[u] <= g.lo[t] { StartsApart(k, c, t, u); }
    forall t | 0 <= t < 256 && t != c ensures g.hi[t] <= g.left || g.hi[c] <= g.lo[t] {
      StartsInside(k, c, t);
      if t < c { StartsApart(k, c, t, c); } else { StartsApart(k, c, c, t); }
    }
    StartsInside(k, c, c);
  }

  lemma DownLaid(b: seq<byte>, k: seq<int>, c: int, below: seq<seq<int>>)
    requires |b| > 0 && k == Pairs(b) && 0 <= c < 256 && |below| == 256
    requires forall t :: 0 <= t < 256 ==> Opposed(b, k, c, true, below[t], 256 * t + c)
    ensures Laid(b, k, c, Down(k, c, below))
  {
    hide Start, Occ, Leans, Pairs, Opposed, Keys;
    assert Keys(k, PAIRS) && |k| == |b|;
    var g := Down(k, c, below);
    forall t | 0 <= t < 256 ensures 0 <= g.lo[t] <= g.hi[t] <= |b| && g.hi[t] - g.lo[t] == Occ(k, 256 * t + c, |k|) { StartsInside(k, c, t); }
    forall t, u | 0 <= t < u < 256 ensures g.hi[t] <= g.lo[u] || g.hi[u] <= g.lo[t] { StartsApart(k, c, t, u); }
    forall t | 0 <= t < 256 && t != c ensures g.hi[t] <= g.left || g.hi[c] <= g.lo[t] {
      StartsInside(k, c, t);
      if t < c { StartsApart(k, c, t, c); } else { StartsApart(k, c, c, t); }
    }
    StartsInside(k, c, c);
  }

  // ---------- what the scans start from ----------

  ghost predicate SmallSorted(b: seq<byte>, k: seq<int>, p: seq<int>, sb: nat) {
    SortedIn(ByRotation(b), p, Start(k, sb), Start(k, sb + 1) - 1)
  }

  /** Entries of consecutive sorted small buckets are in order throughout. */
  lemma RegionOrdered(b: seq<byte>, k: seq<int>, p: seq<int>, from: nat, to: nat, x: int, y: int)
    requires |b| > 0 && k == Pairs(b) && Bucketed(k, p) && from <= to <= PAIRS && |p| == |b|
    requires forall sb: nat :: from <= sb < to ==> SmallSorted(b, k, p, sb)
    requires 0 <= Start(k, from) <= x < y < Start(k, to) && Start(k, to) <= |b|
    ensures Cmp(b, p[x], p[y], |b|) <= 0 && p[x] != p[y] && from <= k[p[x]] < to
  {
    hide Start, Cmp, Pairs;
    RegionKey(k, p, from, to, x);
    RegionKey(k, p, from, to, y);
    BucketOrder(k, p, x, y);
    if k[p[x]] == k[p[y]] {
      var sb := k[p[x]];
      BucketOf(k, p, x, sb);
      BucketOf(k, p, y, sb);
      assert SmallSorted(b, k, p, sb);
      assert ByRotation(b)(p[x], p[y]);
    } else {
      PairOrder(b, p[x], p[y]);
    }
  }

  lemma RegionKey(k: seq<int>, p: seq<int>, from: nat, to: nat, x: int)
    requires Bucketed(k, p) && from <= to <= PAIRS && 0 <= x < |k|
    ensures |p| == |k| && 0 <= p[x] < |k| && (Start(k, from) <= x < Start(k, to) <==> from <= k[p[x]] < to)
  {
    var d := k[p[x]];
    if d < from { StartMono(k, d + 1, from); } else { StartMono(k, from, d); }
    if d < to { StartMono(k, d + 1, to); } else { StartMono(k, to, d); }
  }

  /** Outside the small buckets that are being filled nothing has changed. */
  ghost predicate Kept(k: seq<int>, p0: seq<int>, p: seq<int>, c: int, done: seq<bool>) {
    && |p| == |p0| == |k| && |done| == 256 && (forall x :: 0 <= x < |p0| ==> 0 <= p0[x] < |k| && 0 <= k[p0[x]] < PAIRS)
    && forall x {:trigger p[x]} :: 0 <= x < |p0| && (k[p0[x]] % 256 != c || done[k[p0[x]] / 256]) ==> p[x] == p0[x]
  }

  lemma KeptWrite(k: seq<int>, p0: seq<int>, p: seq<int>, c: int, done: seq<bool>, w: int, v: int, t: int)
    requires Kept(k, p0, p, c, done) && Bucketed(k, p0) && 0 <= t < 256 && !done[t] && 0 <= c < 256
    requires Start(k, 256 * t + c) <= w < Start(k, 256 * t + c + 1) && 0 <= w < |p|
    ensures Kept(k, p0, p[w := v], c, done)
  {
    BucketOf(k, p0, w, 256 * t + c);
    DivMod(t, c);
  }

  lemma DivMod(t: int, c: int)
    requires 0 <= t < 256 && 0 <= c < 256
    ensures (256 * t + c) / 256 == t && (256 * t + c) % 256 == c
  {
  }

  /** The small buckets of big bucket c other than [c, c] are sorted. */
  ghost predicate Ready(b: seq<byte>, k: seq<int>, p: seq<int>, c: int) {
    0 <= c < 256 && forall sb: nat :: 256 * c <= sb < 256 * c + 256 && sb != 256 * c + c ==> SmallSorted(b, k, p, sb)
  }

  lemma PairParts(b: seq<byte>, c: int, v: nat)
    requires 0 <= c < 256 && v < |b| && 256 * c <= Pairs(b)[v] < 256 * c + 256
    ensures b[v] == c && At(b, v + 1) == Pairs(b)[v] - 256 * c && At(b, v) == c
  {
    assert Pairs(b)[v] == 256 * b[v] + At(b, v + 1);
  }

  lemma LeansNow(b: seq<byte>, rev: bool, c: int, v: nat)
    requires 0 <= c < 256 && v < |b| && 256 * c <= Pairs(b)[v] < 256 * c + 256
    requires if rev then Pairs(b)[v] > 256 * c + c else Pairs(b)[v] < 256 * c + c
    ensures Leans(b, rev, c, v)
  {
    PairParts(b, c, v);
    assert Edge(b, rev, c, v, 1);
  }

  lemma UpStart(b: seq<byte>, k: seq<int>, c: int, p: seq<int>)
    requires |b| > 0 && k == Pairs(b) && Bucketed(k, p) && Ready(b, k, p, c)
    ensures Known(b, k, c, Up(k, c), p, Start(k, 256 * c + c)) && Base(b, k, c, Up(k, c), p, Start(k, 256 * c + c))
  {
    var g, from, to := Up(k, c), 256 * c, 256 * c + c;
    StartsInside(k, c, c);
    hide Pairs, Leans, SmallSorted, Start, Cmp, Occ, Le;
    forall x | g.left <= x < Start(k, to) ensures 0 <= p[x] < |b| && b[p[x]] == c && Leans(b, false, c, p[x]) && k[p[x]] < 256 * c + c {
      RegionKey(k, p, from, to, x);
      PairParts(b, c, p[x]);
      LeansNow(b, false, c, p[x]);
    }
    forall x, y | g.left <= x < y < Start(k, to) ensures Le(b, false, p[x], p[y]) && p[x] != p[y] { UpOrder(b, k, c, p, x, y); }
    forall w | 0 <= w < |b| && b[w] == c && k[w] < 256 * c + c ensures exists x :: g.left <= x < Start(k, to) && p[x] == w {
      var x := InRange(p, |k|, w);
      FirstKey(b, c, w);
      RegionKey(k, p, from, to, x);
    }
  }

  lemma UpOrder(b: seq<byte>, k: seq<int>, c: int, p: seq<int>, x: int, y: int)
    requires |b| > 0 && k == Pairs(b) && Bucketed(k, p) && Ready(b, k, p, c) && 0 <= Start(k, 256 * c) <= x < y < Start(k, 256 * c + c) <= |b|
    ensures Le(b, false, p[x], p[y]) && p[x] != p[y]
  {
    hide Pairs, SmallSorted, Start, Cmp;
    RegionOrdered(b, k, p, 256 * c, 256 * c + c, x, y);
  }

  lemma FirstKey(b: seq<byte>, c: int, w: nat)
    requires w < |b| && b[w] == c
    ensures 256 * c <= Pairs(b)[w] < 256 * c + 256
  {
    assert Pairs(b)[w] == 256 * b[w] + At(b, w + 1);
  }

  lemma DownStart(b: seq<byte>, k: seq<int>, c: int, p0: seq<int>, p: seq<int>, done: seq<bool>, below: seq<seq<int>>)
    requires |b| > 0 && k == Pairs(b) && Bucketed(k, p0) && Ready(b, k, p0, c) && Kept(k, p0, p, c, done) && 0 <= c < 256
    ensures Known(b, k, c, Down(k, c, below), Rev(p), |k| - Start(k, 256 * c + c + 1))
    ensures Base(b, k, c, Down(k, c, below), Rev(p), |k| - Start(k, 256 * c + c + 1))
  {
    hide *;
    PairsSize(b);
    DownSizes(k, c, p0, p, done, below);
    var mid := |k| - Start(k, 256 * c + c + 1);
    forall x | Down(k, c, below).left <= x < mid
      ensures 0 <= Rev(p)[x] < |b| && b[Rev(p)[x]] == c && Leans(b, true, c, Rev(p)[x]) && k[Rev(p)[x]] > 256 * c + c
    {
      DownEntry(b, k, c, p0, p, done, below, x);
    }
    forall x, y | Down(k, c, below).left <= x < y < mid ensures Le(b, true, Rev(p)[x], Rev(p)[y]) && Rev(p)[x] != Rev(p)[y] {
      DownPair(b, k, c, p0, p, done, below, x, y);
    }
    forall w | 0 <= w < |b| && b[w] == c && k[w] > 256 * c + c ensures exists x :: Down(k, c, below).left <= x < mid && Rev(p)[x] == w {
      var x := DownFind(b, k, c, p0, p, done, below, w);
    }
    MakeKnown(b, k, c, Down(k, c, below), Rev(p), mid);
  }

  lemma MakeKnown(b: seq<byte>, k: seq<int>, c: int, g: Side, p: seq<int>, mid: int)
    requires g.rev && |p| == |b| == |k| && 0 <= g.left && mid <= |p|
    requires forall x :: g.left <= x < mid ==> 0 <= p[x] < |b| && b[p[x]] == c && Leans(b, g.rev, c, p[x]) && k[p[x]] > 256 * c + c
    requires forall x, y :: g.left <= x < y < mid ==> Le(b, g.rev, p[x], p[y]) && p[x] != p[y]
    requires forall w :: 0 <= w < |b| && b[w] == c && k[w] > 256 * c + c ==> exists x :: g.left <= x < mid && p[x] == w
    ensures Known(b, k, c, g, p, mid) && Base(b, k, c, g, p, mid)
  {
    hide Leans, Le;
  }

  lemma DownSizes(k: seq<int>, c: int, p0: seq<int>, p: seq<int>, done: seq<bool>, below: seq<seq<int>>)
    requires Keys(k, PAIRS) && 0 <= c < 256 && Kept(k, p0, p, c, done)
    ensures 0 <= Down(k, c, below).left
    ensures |p| == |p0| == |k| == |Rev(p)| && Down(k, c, below).rev && Down(k, c, below).left == |k| - Start(k, 256 * c + 256)
    ensures Start(k, 256 * c + c + 1) <= Start(k, 256 * c + 256) <= |k|
  {
    hide Start, Kept, Rev;
    KeptSize(k, p0, p, c, done);
    StartsInside(k, c, c);
  }

  lemma DownEntry(b: seq<byte>, k: seq<int>, c: int, p0: seq<int>, p: seq<int>, done: seq<bool>, below: seq<seq<int>>, x: int)
    requires |b| > 0 && k == Pairs(b) && Bucketed(k, p0) && Kept(k, p0, p, c, done) && 0 <= c < 256
    requires |k| - Start(k, 256 * c + 256) <= x < |k| - Start(k, 256 * c + c + 1) && |p| == |p0| == |k| == |b| == |Rev(p)|
    requires Start(k, 256 * c + 256) <= |k|
    ensures 0 <= x < |b| && Rev(p)[x] == p0[|k| - 1 - x]
    ensures 0 <= Rev(p)[x] < |b| && b[Rev(p)[x]] == c && Leans(b, true, c, Rev(p)[x]) && k[Rev(p)[x]] > 256 * c + c
  {
    hide *;
    PairCount();
    var y := |k| - 1 - x;
    RegionKey(k, p0, 256 * c + c + 1, 256 * c + 256, y);
    KeptHere(k, p0, p, c, done, y);
    RevAt(p, x);
    PairParts(b, c, p0[y]);
    LeansNow(b, true, c, p0[y]);
  }

  lemma PairsSize(b: seq<byte>)
    requires |b| > 0
    ensures |Pairs(b)| == |b| && Keys(Pairs(b), PAIRS)
  {
  }

  lemma BucketedPerm(k: seq<int>, p: seq<int>)
    requires Bucketed(k, p)
    ensures IsPerm(p, |k|) && Keys(k, PAIRS)
  {
  }

  lemma PairCount()
    ensures PAIRS == 65536
  {
  }

  lemma DownPair(b: seq<byte>, k: seq<int>, c: int, p0: seq<int>, p: seq<int>, done: seq<bool>, below: seq<seq<int>>, x: int, y: int)
    requires |b| > 0 && k == Pairs(b) && Bucketed(k, p0) && Ready(b, k, p0, c) && Kept(k, p0, p, c, done) && 0 <= c < 256
    requires |k| - Start(k, 256 * c + 256) <= x < y < |k| - Start(k, 256 * c + c + 1) && |p| == |p0| == |k| == |b| == |Rev(p)|
    requires Start(k, 256 * c + 256) <= |k|
    ensures 0 <= x < y < |b| && Le(b, true, Rev(p)[x], Rev(p)[y]) && Rev(p)[x] != Rev(p)[y]
  {
    hide Pairs, Leans, SmallSorted, Start, Cmp, Kept, Rev, Bucketed;
    DownEntry(b, k, c, p0, p, done, below, x);
    DownEntry(b, k, c, p0, p, done, below, y);
    RegionOrdered(b, k, p0, 256 * c + c + 1, 256 * c + 256, |k| - 1 - y, |k| - 1 - x);
    CmpAnti(b, Rev(p)[y], Rev(p)[x], |b|);
  }

  lemma DownFind(b: seq<byte>, k: seq<int>, c: int, p0: seq<int>, p: seq<int>, done: seq<bool>, below: seq<seq<int>>, w: int) returns (x: int)
    requires |b| > 0 && k == Pairs(b) && Bucketed(k, p0) && Kept(k, p0, p, c, done) && 0 <= c < 256
    requires |p| == |p0| == |k| == |b| == |Rev(p)| && 0 <= w < |b| && b[w] == c && k[w] > 256 * c + c && Start(k, 256 * c + 256) <= |k|
    ensures |k| - Start(k, 256 * c + 256) <= x < |k| - Start(k, 256 * c + c + 1) && 0 <= x < |b| && Rev(p)[x] == w
  {
    hide *;
    PairCount();
    BucketedPerm(k, p0);
    var y := InRange(p0, |k|, w);
    FirstKey(b, c, w);
    RegionKey(k, p0, 256 * c + c + 1, 256 * c + 256, y);
    x := |k| - 1 - y;
    DownEntry(b, k, c, p0, p, done, below, x);
  }

  lemma RevAt(p: seq<int>, x: int)
    requires 0 <= x < |p|
    ensures |Rev(p)| == |p| && Rev(p)[x] == p[|p| - 1 - x]
  {
  }

  lemma KeptSize(k: seq<int>, p0: seq<int>, p: seq<int>, c: int, done: seq<bool>)
    requires Kept(k, p0, p, c, done)
    ensures |p| == |p0| == |k| && |Rev(p)| == |p|
  {
  }

  lemma KeptHere(k: seq<int>, p0: seq<int>, p: seq<int>, c: int, done: seq<bool>, x: int)
    requires Kept(k, p0, p, c, done) && 0 <= c < 256 && 0 <= x < |p0| && 0 <= p0[x] < |k| && 256 * c + c < k[p0[x]] < 256 * c + 256
    ensures p[x] == p0[x]
  {
    assert k[p0[x]] % 256 != c by { DivMod(c, k[p0[x]] - 256 * c); }
  }

  /** The slots not yet refilled still hold what they held. */
  ghost predicate Waiting(p0: seq<int>, p: seq<int>, from: seq<int>, to: seq<int>) {
    && |p| == |p0| && |from| == |to| == 256
    && forall t, x {:trigger from[t], p[x]} :: 0 <= t < 256 && 0 <= from[t] <= x < to[t] <= |p| ==> p[x] == p0[x]
  }

  lemma WaitingRefl(p: seq<int>, from: seq<int>, to: seq<int>)
    requires |from| == |to| == 256
    ensures Waiting(p, p, from, to)
  {
  }

  /** Refilling the first waiting slot of bucket t. */
  lemma WaitingUp(p0: seq<int>, p: seq<int>, from: seq<int>, to: seq<int>, t: int, v: int)
    requires Waiting(p0, p, from, to) && 0 <= t < 256 && 0 <= from[t] < |p|
    requires forall u :: 0 <= u < 256 && u != t ==> !(from[u] <= from[t] < to[u])
    ensures Waiting(p0, p[from[t] := v], from[t := from[t] + 1], to)
  {
    var p', from' := p[from[t] := v], from[t := from[t] + 1];
    forall u, x {:trigger from'[u], p'[x]} | 0 <= u < 256 && 0 <= from'[u] <= x < to[u] <= |p| ensures p'[x] == p0[x] {
      assert 0 <= from[u] <= x;
      assert p[x] == p0[x];
    }
  }

  /** Refilling the last waiting slot of bucket t. */
  lemma WaitingDown(p0: seq<int>, p: seq<int>, from: seq<int>, to: seq<int>, t: int, v: int)
    requires Waiting(p0, p, from, to) && 0 <= t < 256 && 0 < to[t] <= |p|
    requires forall u :: 0 <= u < 256 && u != t ==> !(from[u] <= to[t] - 1 < to[u])
    ensures Waiting(p0, p[to[t] - 1 := v], from, to[t := to[t] - 1])
  {
    var w := to[t] - 1;
    var p', to' := p[w := v], to[t := w];
    forall u, x {:trigger from[u], p'[x]} | 0 <= u < 256 && 0 <= from[u] <= x < to'[u] <= |p| ensures p'[x] == p0[x] {
      assert x < to[u];
      assert p[x] == p0[x];
    }
  }

  ghost function Shifted(s: seq<int>, d: int): (r: seq<int>)
    ensures |r| == |s| && forall t :: 0 <= t < |s| ==> r[t] == s[t] + d
  {
    seq(|s|, t requires 0 <= t < |s| => s[t] + d)
  }

  ghost function Tops(k: seq<int>, c: int, below: seq<seq<int>>): (r: seq<int>)
    requires 0 <= c < 256 && |below| == 256
    ensures |r| == 256 && forall t :: 0 <= t < 256 ==> r[t] == Start(k, 256 * t + c) + |below[t]|
  {
    seq(256, t requires 0 <= t < 256 => Start(k, 256 * t + c) + |below[t]|)
  }

  // ---------- the upward scan ----------

  lemma EmptyFilled(b: seq<byte>, k: seq<int>, key: int, g: Side, p: seq<int>, lo: int, src: seq<int>, j: int)
    requires |p| == |b| == |k| == |src| && 0 <= lo <= |p| && 0 <= g.left && j <= |p|
    ensures Filled(b, k, key, g, p, lo, lo, src, j)
  {
  }

  lemma NothingCopied(b: seq<byte>, done: seq<bool>, g: Side, p: seq<int>, cs: seq<int>, dst: seq<int>)
    requires |p| == |b| == |dst| && |done| == 256 == |cs| == |g.lo| && 0 <= g.left <= |p|
    ensures Copied(b, done, g, p, cs, dst, g.left)
  {
  }

  /** Before anything is scanned. */
  lemma ScanStart(b: seq<byte>, k: seq<int>, c: int, done: seq<bool>, g: Side, p: seq<int>, src: seq<int>, dst: seq<int>)
    requires Laid(b, k, c, g) && |done| == 256 && 0 <= c < 256 && !done[c] && |p| == |b| == |src| == |dst| && |g.lo| == |g.hi| == |g.other| == 256
    requires forall t :: 0 <= t < 256 ==> g.lo[t] <= g.hi[t] - |g.other[t]|
    requires Known(b, k, c, g, p, g.lo[c]) && Base(b, k, c, g, p, g.lo[c])
    ensures Scanning(b, k, c, done, g, p, g.lo, src, dst, g.left)
  {
    hide *;
    LaidParts(b, k, c, g);
    NothingCopied(b, done, g, p, g.lo, dst);
    forall t | 0 <= t < 256 && !done[t] ensures Filled(b, k, 256 * t + c, g, p, g.lo[t], g.lo[t], src, g.left) {
      EmptyFilled(b, k, 256 * t + c, g, p, g.lo[t], src, g.left);
    }
    MakeScanning(b, k, c, done, g, p, g.lo, src, dst, g.left);
  }

  lemma UpShape(k: seq<int>, c: int)
    requires 0 <= c < 256
    ensures Up(k, c).lo == Lows(k, c) && Up(k, c).hi == Highs(k, c) && Up(k, c).left == Start(k, 256 * c) && !Up(k, c).rev
    ensures |Up(k, c).lo| == |Up(k, c).hi| == |Up(k, c).other| == 256 && Up(k, c).lo[c] == Start(k, 256 * c + c)
    ensures forall t :: 0 <= t < 256 ==> Up(k, c).other[t] == [] && Up(k, c).lo[t] == Start(k, 256 * t + c) && Up(k, c).hi[t] == Start(k, 256 * t + c + 1)
  {
    hide Start;
  }

  ghost predicate Holds(block: seq<int>, b: seq<byte>) {
    0 < |b| <= |block| && forall i :: 0 <= i < |b| ==> block[i] == b[i]
  }

  lemma HoldsAt(block: seq<int>, b: seq<byte>, v: int)
    requires Holds(block, b) && 0 <= v < |b|
    ensures v < |block| && block[v] == b[v]
  {
  }

  /** The upward scan: stops when it has caught up with what it adds to bucket [ss, ss]. */
  method ScanUp(ptr: array<int>, block: array<int>, bigDone: array<bool>, copyStart: array<int>, ss: int, first: int, nblock: nat, ghost b: seq<byte>, ghost k: seq<int>)
    returns (ghost src: seq<int>, ghost dst: seq<int>)
    requires ptr != block && ptr != copyStart && copyStart != block && 0 <= ss < 256 && bigDone.Length == 256 && !bigDone[ss]
    requires ptr.Length == nblock == |b| && Holds(block[..], b) && k == Pairs(b) && Bucketed(k, ptr[..]) && Ready(b, k, ptr[..], ss)
    requires copyStart[..] == Lows(k, ss) && first == Start(k, 256 * ss)
    modifies ptr, copyStart
    ensures copyStart.Length == 256
    ensures Scanning(b, k, ss, bigDone[..], Up(k, ss), ptr[..], copyStart[..], src, dst, copyStart[ss])
    ensures Kept(k, old(ptr[..]), ptr[..], ss, bigDone[..]) && Waiting(old(ptr[..]), ptr[..], copyStart[..], Highs(k, ss))
  {
    hide *;
    ghost var p0, done, blk := ptr[..], bigDone[..], block[..];
    ghost var g := Up(k, ss);
    HoldsSize(blk, b);
    PairsSize(b);
    UpShape(k, ss);
    UpLaid(b, k, ss);
    LaidParts(b, k, ss, g);
    UpStart(b, k, ss, p0);
    src, dst := p0, p0;
    BucketedPerm(k, p0);
    KeptRefl(k, p0, ss, done);
    WaitingRefl(p0, copyStart[..], Highs(k, ss));
    ScanStart(b, k, ss, done, g, p0, src, dst);
    var j := first;
    ScanningParts(b, k, ss, done, g, p0, copyStart[..], src, dst, j);
    while j < copyStart[ss]
      invariant bigDone[..] == done && block[..] == blk && copyStart.Length == 256
      invariant Scanning(b, k, ss, done, g, ptr[..], copyStart[..], src, dst, j) && Kept(k, p0, ptr[..], ss, done)
      invariant Waiting(p0, ptr[..], copyStart[..], Highs(k, ss))
      decreases nblock - j
    {
      ghost var p, cs := ptr[..], copyStart[..];
      ScanningParts(b, k, ss, done, g, p, cs, src, dst, j);
      StepFacts(b, k, ss, done, g, p, cs, src, dst, j);
      var v := ptr[j] - 1;
      if v < 0 { v := v + nblock; }
      PredIs(p[j], nblock);
      HoldsAt(blk, b, v);
      var c1 := block[v];
      if !bigDone[c1] {
        StepCopy(b, k, ss, done, g, p, cs, src, dst, j, v, c1);
        KeptWrite(k, p0, p, ss, done, cs[c1], v, c1);
        SegmentsApart(b, k, ss, g, c1);
        WaitingUp(p0, p, cs, Highs(k, ss), c1, v);
        var w := copyStart[c1];
        ptr[w] := v;
        copyStart[c1] := w + 1;
        assert ptr[..] == p[w := v];
        assert copyStart[..] == cs[c1 := w + 1];
        src, dst := src[w := j], dst[j := w];
      } else {
        StepSkip(b, k, ss, done, g, p, cs, src, dst, j);
      }
      j := j + 1;
    }
    ScanningParts(b, k, ss, done, g, ptr[..], copyStart[..], src, dst, j);
  }

  lemma HoldsSize(block: seq<int>, b: seq<byte>)
    requires Holds(block, b)
    ensures 0 < |b| <= |block|
  {
  }

  lemma PredIs(u: int, n: int)
    requires 0 <= u < n
    ensures Pred(u, n) == (if u - 1 < 0 then u - 1 + n else u - 1)
  {
  }

  lemma KeptRefl(k: seq<int>, p: seq<int>, c: int, done: seq<bool>)
    requires IsPerm(p, |k|) && Keys(k, PAIRS) && |done| == 256
    ensures Kept(k, p, p, c, done)
  {
  }

  // ---------- the downward scan ----------

  /** What the upward scan put into each bucket that is still wanted. */
  ghost function Below(p: seq<int>, lo: seq<int>, cs: seq<int>, done: seq<bool>): (r: seq<seq<int>>)
    requires |lo| == |cs| == |done| == 256 && forall t :: 0 <= t < 256 ==> 0 <= lo[t] <= cs[t] <= |p|
    ensures |r| == 256 && forall t :: 0 <= t < 256 ==> r[t] == if done[t] then [] else p[lo[t]..cs[t]]
  {
    seq(256, t requires 0 <= t < 256 => if done[t] then [] else p[lo[t]..cs[t]])
  }

  lemma FilledOpposed(b: seq<byte>, k: seq<int>, c: int, key: int, g: Side, p: seq<int>, lo: int, end: int, src: seq<int>, j: int, bound: int)
    requires Filled(b, k, key, g, p, lo, end, src, j) && lo <= end && Known(b, k, c, g, p, bound) && j <= bound && !g.rev
    ensures Opposed(b, k, c, true, p[lo..end], key)
  {
    hide Le, Leans;
    var q := p[lo..end];
    forall i | 0 <= i < |q| ensures 0 <= q[i] < |k| && k[q[i]] == key && Leans(b, false, c, Succ(q[i], |b|)) {
      assert q[i] == p[lo + i];
    }
    forall i, l | 0 <= i < l < |q| ensures q[i] != q[l] {
      assert q[i] == p[lo + i] && q[l] == p[lo + l];
    }
  }

  lemma BelowOpposed(b: seq<byte>, k: seq<int>, c: int, done: seq<bool>, g: Side, p: seq<int>, cs: seq<int>, src: seq<int>, dst: seq<int>)
    requires |cs| == 256 && 0 <= c < 256 && Scanning(b, k, c, done, g, p, cs, src, dst, cs[c]) && !g.rev
    ensures |g.lo| == |cs| == |done| == 256 && forall t :: 0 <= t < 256 ==> 0 <= g.lo[t] <= cs[t] <= |p|
    ensures forall t :: 0 <= t < 256 ==> Opposed(b, k, c, true, Below(p, g.lo, cs, done)[t], 256 * t + c)
  {
    hide *;
    ScanningParts(b, k, c, done, g, p, cs, src, dst, cs[c]);
    LaidParts(b, k, c, g);
    forall t | 0 <= t < 256 ensures Opposed(b, k, c, true, Below(p, g.lo, cs, done)[t], 256 * t + c) {
      if done[t] {
        NoneOpposed(b, k, c, 256 * t + c);
      } else {
        FilledOpposed(b, k, c, 256 * t + c, g, p, g.lo[t], cs[t], src, cs[c], cs[c]);
      }
    }
  }

  lemma NoneOpposed(b: seq<byte>, k: seq<int>, c: int, key: int)
    requires |k| == |b|
    ensures Opposed(b, k, c, true, [], key)
  {
  }

  /** The upward scan's entries stay where it put them. */
  ghost predicate Frozen(p: seq<int>, lo: seq<int>, done: seq<bool>, below: seq<seq<int>>) {
    && |lo| == |done| == |below| == 256
    && forall t :: 0 <= t < 256 && !done[t] ==> 0 <= lo[t] && lo[t] + |below[t]| <= |p| && p[lo[t]..lo[t] + |below[t]|] == below[t]
  }

  lemma FrozenStart(p: seq<int>, lo: seq<int>, cs: seq<int>, done: seq<bool>)
    requires |lo| == |cs| == |done| == 256 && forall t :: 0 <= t < 256 ==> 0 <= lo[t] <= cs[t] <= |p|
    ensures Frozen(p, lo, done, Below(p, lo, cs, done))
  {
  }

  lemma FrozenWrite(p: seq<int>, lo: seq<int>, done: seq<bool>, below: seq<seq<int>>, w: int, v: int)
    requires Frozen(p, lo, done, below) && 0 <= w < |p|
    requires forall t :: 0 <= t < 256 && !done[t] ==> !(lo[t] <= w < lo[t] + |below[t]|)
    ensures Frozen(p[w := v], lo, done, below)
  {
    forall t | 0 <= t < 256 && !done[t] ensures p[w := v][lo[t]..lo[t] + |below[t]|] == below[t] {
      assert p[lo[t]..lo[t] + |below[t]|] == below[t];
    }
  }

  lemma DownShape(k: seq<int>, c: int, below: seq<seq<int>>)
    requires 0 <= c < 256 && |below| == 256
    ensures Down(k, c, below).rev && Down(k, c, below).left == |k| - Start(k, 256 * c + 256) && Down(k, c, below).other == below
    ensures |Down(k, c, below).lo| == |Down(k, c, below).hi| == 256
    ensures Down(k, c, below).lo == Mirror(Highs(k, c), |k|) && Down(k, c, below).hi == Mirror(Lows(k, c), |k|)
    ensures forall t :: 0 <= t < 256 ==> Down(k, c, below).lo[t] == |k| - Start(k, 256 * t + c + 1) && Down(k, c, below).hi[t] == |k| - Start(k, 256 * t + c)
  {
    hide Start;
  }

  ghost function Ends(k: seq<int>, c: int): (r: seq<int>)
    requires 0 <= c < 256
    ensures |r| == 256 && forall t :: 0 <= t < 256 ==> r[t] == Start(k, 256 * t + c + 1) - 1
  {
    seq(256, t requires 0 <= t < 256 => Start(k, 256 * t + c + 1) - 1)
  }

  lemma EndsMirror(k: seq<int>, c: int)
    requires 0 <= c < 256
    ensures Mirror(Ends(k, c), |k| - 1) == Mirror(Highs(k, c), |k|)
  {
    hide Start;
  }

  /** The scan down: keeps what the scan up has filled in. */
  method ScanDown(ptr: array<int>, block: array<int>, bigDone: array<bool>, copyEnd: array<int>, ss: int, last: int, nblock: nat,
                  ghost b: seq<byte>, ghost k: seq<int>, ghost p0: seq<int>, ghost below: seq<seq<int>>)
    returns (ghost src: seq<int>, ghost dst: seq<int>)
    requires ptr != block && ptr != copyEnd && copyEnd != block && 0 <= ss < 256 && bigDone.Length == 256 && !bigDone[ss]
    requires ptr.Length == nblock == |b| && Holds(block[..], b) && k == Pairs(b) && Bucketed(k, p0) && Ready(b, k, p0, ss)
    requires copyEnd[..] == Ends(k, ss) && last == Start(k, 256 * ss + 256) - 1
    requires Kept(k, p0, ptr[..], ss, bigDone[..]) && |below| == 256 && (forall t :: 0 <= t < 256 ==> Opposed(b, k, ss, true, below[t], 256 * t + ss))
    requires (forall t :: 0 <= t < 256 ==> Start(k, 256 * t + ss) + |below[t]| <= Start(k, 256 * t + ss + 1)) && Frozen(ptr[..], Lows(k, ss), bigDone[..], below)
    requires Waiting(p0, ptr[..], Tops(k, ss, below), Highs(k, ss))
    modifies ptr, copyEnd
    ensures copyEnd.Length == 256 && Waiting(p0, ptr[..], Tops(k, ss, below), Shifted(copyEnd[..], 1))
    ensures Scanning(b, k, ss, bigDone[..], Down(k, ss, below), Rev(ptr[..]), Mirror(copyEnd[..], nblock - 1), src, dst, nblock - 1 - copyEnd[ss])
    ensures Kept(k, p0, ptr[..], ss, bigDone[..]) && Frozen(ptr[..], Lows(k, ss), bigDone[..], below)
  {
    hide *;
    ghost var done, blk := bigDone[..], block[..];
    ghost var g := Down(k, ss, below);
    HoldsSize(blk, b);
    PairsSize(b);
    DownShape(k, ss, below);
    DownLaid(b, k, ss, below);
    LaidParts(b, k, ss, g);
    DownStart(b, k, ss, p0, ptr[..], done, below);
    src, dst := p0, p0;
    BucketedPerm(k, p0);
    EndsMirror(k, ss);
    EndsShifted(k, ss);
    KeptSize(k, p0, ptr[..], ss, done);
    ScanStart(b, k, ss, done, g, Rev(ptr[..]), src, dst);
    var j := last;
    while j > copyEnd[ss]
      invariant bigDone[..] == done && block[..] == blk && copyEnd.Length == 256
      invariant Scanning(b, k, ss, done, g, Rev(ptr[..]), Mirror(copyEnd[..], nblock - 1), src, dst, nblock - 1 - j)
      invariant Kept(k, p0, ptr[..], ss, done) && Frozen(ptr[..], Lows(k, ss), done, below)
      invariant Waiting(p0, ptr[..], Tops(k, ss, below), Shifted(copyEnd[..], 1))
      decreases j + 1
    {
      src, dst := DownOne(ptr, block, bigDone, copyEnd, ss, j, nblock, b, k, p0, below, src, dst);
      j := j - 1;
    }
    ScanningParts(b, k, ss, done, g, Rev(ptr[..]), Mirror(copyEnd[..], nblock - 1), src, dst, nblock - 1 - j);
  }

  /** One entry of the downward scan. */
  method DownOne(ptr: array<int>, block: array<int>, bigDone: array<bool>, copyEnd: array<int>, ss: int, j: int, nblock: nat,
                 ghost b: seq<byte>, ghost k: seq<int>, ghost p0: seq<int>, ghost below: seq<seq<int>>, ghost src0: seq<int>, ghost dst0: seq<int>)
    returns (ghost src: seq<int>, ghost dst: seq<int>)
    requires ptr != block && ptr != copyEnd && copyEnd != block && 0 <= ss < 256 && bigDone.Length == 256 && copyEnd.Length == 256
    requires ptr.Length == nblock == |b| && Holds(block[..], b) && k == Pairs(b) && Bucketed(k, p0) && |below| == 256 && j > copyEnd[ss]
    requires Scanning(b, k, ss, bigDone[..], Down(k, ss, below), Rev(ptr[..]), Mirror(copyEnd[..], nblock - 1), src0, dst0, nblock - 1 - j)
    requires Kept(k, p0, ptr[..], ss, bigDone[..]) && Frozen(ptr[..], Lows(k, ss), bigDone[..], below)
    requires forall t :: 0 <= t < 256 ==> Start(k, 256 * t + ss) + |below[t]| <= Start(k, 256 * t + ss + 1)
    requires Waiting(p0, ptr[..], Tops(k, ss, below), Shifted(copyEnd[..], 1))
    modifies ptr, copyEnd
    ensures Waiting(p0, ptr[..], Tops(k, ss, below), Shifted(copyEnd[..], 1))
    ensures Scanning(b, k, ss, bigDone[..], Down(k, ss, below), Rev(ptr[..]), Mirror(copyEnd[..], nblock - 1), src, dst, nblock - 1 - (j - 1))
    ensures Kept(k, p0, ptr[..], ss, bigDone[..]) && Frozen(ptr[..], Lows(k, ss), bigDone[..], below) && j >= 0
  {
    hide *;
    ghost var g, done := Down(k, ss, below), bigDone[..];
    ghost var p, ce, cs := ptr[..], copyEnd[..], Mirror(copyEnd[..], nblock - 1);
    src, dst := src0, dst0;
    HoldsSize(block[..], b);
    DownShape(k, ss, below);
    ScanningParts(b, k, ss, done, g, Rev(p), cs, src, dst, nblock - 1 - j);
    StepFacts(b, k, ss, done, g, Rev(p), cs, src, dst, nblock - 1 - j);
    RevAt(p, nblock - 1 - j);
    var v := ptr[j] - 1;
    if v < 0 { v := v + nblock; }
    PredIs(p[j], nblock);
    HoldsAt(block[..], b, v);
    var c1 := block[v];
    if !bigDone[c1] {
      StepCopy(b, k, ss, done, g, Rev(p), cs, src, dst, nblock - 1 - j, v, c1);
      var w := copyEnd[c1];
      assert cs[c1] == nblock - 1 - w;
      DownWrite(b, k, ss, p, done, below, c1, w);
      KeptWrite(k, p0, p, ss, done, w, v, c1);
      FrozenWrite(p, Lows(k, ss), done, below, w, v);
      DownWaiting(b, k, ss, p0, p, done, below, ce, c1, v);
      RevUpdate(p, w, v);
      MirrorUpdate(ce, nblock - 1, c1, w - 1);
      ptr[w] := v;
      copyEnd[c1] := w - 1;
      assert ptr[..] == p[w := v];
      assert copyEnd[..] == ce[c1 := w - 1];
      src, dst := src[nblock - 1 - w := nblock - 1 - j], dst[nblock - 1 - j := nblock - 1 - w];
    } else {
      StepSkip(b, k, ss, done, g, Rev(p), cs, src, dst, nblock - 1 - j);
    }
  }

  lemma EndsShifted(k: seq<int>, c: int)
    requires 0 <= c < 256
    ensures Shifted(Ends(k, c), 1) == Highs(k, c)
  {
    hide Start;
  }

  lemma DownWaiting(b: seq<byte>, k: seq<int>, c: int, p0: seq<int>, p: seq<int>, done: seq<bool>, below: seq<seq<int>>, ce: seq<int>, t: int, v: int)
    requires |b| > 0 && k == Pairs(b) && 0 <= c < 256 && |below| == 256 && |ce| == 256 && 0 <= t < 256
    requires Waiting(p0, p, Tops(k, c, below), Shifted(ce, 1)) && 0 <= ce[t] < |p|
    requires forall u :: 0 <= u < 256 ==> ce[u] < Start(k, 256 * u + c + 1)
    requires Start(k, 256 * t + c) <= ce[t]
    ensures Waiting(p0, p[ce[t] := v], Tops(k, c, below), Shifted(ce[t := ce[t] - 1], 1))
  {
    hide Start, Pairs, Waiting;
    var from, to := Tops(k, c, below), Shifted(ce, 1);
    forall u | 0 <= u < 256 && u != t ensures !(from[u] <= to[t] - 1 < to[u]) {
      if u < t { StartsApart(k, c, u, t); } else { StartsApart(k, c, t, u); }
    }
    WaitingDown(p0, p, from, to, t, v);
    assert to[t := to[t] - 1] == Shifted(ce[t := ce[t] - 1], 1);
  }

  /** A slot between the two scans' entries of one bucket is nobody else's. */
  lemma DownWrite(b: seq<byte>, k: seq<int>, c: int, p: seq<int>, done: seq<bool>, below: seq<seq<int>>, t: int, w: int)
    requires |b| > 0 && k == Pairs(b) && 0 <= c < 256 && 0 <= t < 256 && |below| == 256 && |done| == 256
    requires Start(k, 256 * t + c) + |below[t]| <= w < Start(k, 256 * t + c + 1)
    requires forall u :: 0 <= u < 256 ==> Start(k, 256 * u + c) + |below[u]| <= Start(k, 256 * u + c + 1)
    ensures forall u :: 0 <= u < 256 ==> !(Lows(k, c)[u] <= w < Lows(k, c)[u] + |below[u]|)
  {
    hide Start, Pairs;
    forall u | 0 <= u < 256 ensures !(Lows(k, c)[u] <= w < Lows(k, c)[u] + |below[u]|) {
      if u < t { StartsApart(k, c, u, t); } else if u > t { StartsApart(k, c, t, u); }
    }
  }

  // ---------- what both scans leave ----------

  /** Small bucket sb holds exactly its own positions, in order. */
  ghost predicate FullBucket(b: seq<byte>, k: seq<int>, p: seq<int>, sb: nat) {
    && Start(k, sb + 1) <= |p| == |k| == |b|
    && (forall x :: Start(k, sb) <= x < Start(k, sb + 1) ==> 0 <= p[x] < |k| && k[p[x]] == sb)
    && (forall x, y :: Start(k, sb) <= x < y < Start(k, sb + 1) ==> p[x] != p[y]) && SmallSorted(b, k, p, sb)
  }

  /** The state after both scans of big bucket c. */
  ghost predicate BothScans(b: seq<byte>, k: seq<int>, c: int, done: seq<bool>, p0: seq<int>, p1: seq<int>, cs: seq<int>, us: seq<int>, ud: seq<int>,
                            p: seq<int>, ce: seq<int>, ds: seq<int>, dd: seq<int>) {
    && |b| > 0 && k == Pairs(b) && 0 <= c < 256 && |cs| == |ce| == |done| == 256 && !done[c] && |p0| == |p1| == |p| == |b|
    && Scanning(b, k, c, done, Up(k, c), p1, cs, us, ud, cs[c])
    && (forall t :: 0 <= t < 256 ==> 0 <= Lows(k, c)[t] <= cs[t] <= |p1|)
    && Scanning(b, k, c, done, Down(k, c, Below(p1, Lows(k, c), cs, done)), Rev(p), Mirror(ce, |b| - 1), ds, dd, |b| - 1 - ce[c])
    && Frozen(p, Lows(k, c), done, Below(p1, Lows(k, c), cs, done))
    && Waiting(p0, p1, cs, Highs(k, c)) && Waiting(p0, p, Tops(k, c, Below(p1, Lows(k, c), cs, done)), Shifted(ce, 1))
    && Bucketed(k, p0) && Kept(k, p0, p, c, done)
  }

  /** The two parts of one bucket: what the scan up put at its bottom and the scan down at its top. */
  ghost predicate TwoParts(b: seq<byte>, k: seq<int>, key: int, p: seq<int>, lo: int, mid: int, top: int, hi: int) {
    && 0 <= lo <= mid <= top <= hi <= |p| == |k| == |b| && |b| > 0
    && (forall x :: lo <= x < mid ==> 0 <= p[x] < |b| && k[p[x]] == key && Leans(b, false, key % 256, Succ(p[x], |b|)))
    && (forall x :: top <= x < hi ==> 0 <= p[x] < |b| && k[p[x]] == key && Leans(b, true, key % 256, Succ(p[x], |b|)))
    && (forall x, y :: lo <= x < y < mid ==> Le(b, false, p[x], p[y]) && p[x] != p[y])
    && (forall x, y :: top <= x < y < hi ==> Le(b, false, p[x], p[y]) && p[x] != p[y])
  }

  lemma UpPart(b: seq<byte>, k: seq<int>, c: int, t: int, g: Side, p: seq<int>, lo: int, end: int, src: seq<int>, j: int, bound: int, x: int)
    requires Filled(b, k, 256 * t + c, g, p, lo, end, src, j) && Known(b, k, c, g, p, bound) && j <= bound && lo <= x < end
    ensures 0 <= x < |p| && 0 <= p[x] < |b| && |b| == |k| && k[p[x]] == 256 * t + c && Leans(b, g.rev, c, Succ(p[x], |b|))
  {
    hide Le, Leans;
  }

  lemma LowerPart(b: seq<byte>, k: seq<int>, c: int, done: seq<bool>, p0: seq<int>, p1: seq<int>, cs: seq<int>, us: seq<int>, ud: seq<int>,
                  p: seq<int>, ce: seq<int>, ds: seq<int>, dd: seq<int>, t: int)
    requires BothScans(b, k, c, done, p0, p1, cs, us, ud, p, ce, ds, dd) && 0 <= t < 256 && !done[t]
    ensures |cs| == 256 && |p| == |k| == |b| && 0 <= Start(k, 256 * t + c) <= cs[t] <= |p|
    ensures forall x :: Start(k, 256 * t + c) <= x < cs[t] ==> 0 <= p[x] < |b| && k[p[x]] == 256 * t + c && Leans(b, false, c, Succ(p[x], |b|))
    ensures forall x, y :: Start(k, 256 * t + c) <= x < y < cs[t] ==> Le(b, false, p[x], p[y]) && p[x] != p[y]
  {
    hide *;
    var below := BothBelow(b, k, c, done, p0, p1, cs, us, ud, p, ce, ds, dd);
    var g := Up(k, c);
    UpShape(k, c);
    ScanningParts(b, k, c, done, g, p1, cs, us, ud, cs[c]);
    var lo, mid := Start(k, 256 * t + c), cs[t];
    FrozenAt(p, Lows(k, c), done, below, t);
    forall x | lo <= x < mid ensures p[x] == p1[x] && 0 <= p[x] < |b| && k[p[x]] == 256 * t + c && Leans(b, false, c, Succ(p[x], |b|)) {
      UpPart(b, k, c, t, g, p1, lo, mid, us, cs[c], cs[c], x);
      assert below[t][x - lo] == p[lo..lo + |below[t]|][x - lo];
    }
    forall x, y | lo <= x < y < mid ensures Le(b, false, p[x], p[y]) && p[x] != p[y] {
      FilledPair(b, k, 256 * t + c, g, p1, lo, mid, us, cs[c], x, y);
    }
  }

  lemma UpperPart(b: seq<byte>, k: seq<int>, c: int, done: seq<bool>, p0: seq<int>, p1: seq<int>, cs: seq<int>, us: seq<int>, ud: seq<int>,
                  p: seq<int>, ce: seq<int>, ds: seq<int>, dd: seq<int>, t: int)
    requires BothScans(b, k, c, done, p0, p1, cs, us, ud, p, ce, ds, dd) && 0 <= t < 256 && !done[t]
    ensures |ce| == 256 && |cs| == 256 && |p| == |k| == |b| && cs[t] <= ce[t] + 1 <= Start(k, 256 * t + c + 1) <= |p| && -1 <= ce[t]
    ensures forall x :: ce[t] + 1 <= x < Start(k, 256 * t + c + 1) ==> 0 <= p[x] < |b| && k[p[x]] == 256 * t + c && Leans(b, true, c, Succ(p[x], |b|))
    ensures forall x, y :: ce[t] + 1 <= x < y < Start(k, 256 * t + c + 1) ==> Le(b, false, p[x], p[y]) && p[x] != p[y]
  {
    hide *;
    var below := BothBelow(b, k, c, done, p0, p1, cs, us, ud, p, ce, ds, dd);
    var g, cs' := Down(k, c, below), Mirror(ce, |b| - 1);
    DownShape(k, c, below);
    var n := |b|;
    ScanningParts(b, k, c, done, g, Rev(p), cs', ds, dd, n - 1 - ce[c]);
    var top, hi := ce[t] + 1, Start(k, 256 * t + c + 1);
    PartFlat(b, k, c, t, g, Rev(p), g.lo[t], cs'[t], ds, n - 1 - ce[c], cs'[c]);
    FlipPart(b, k, c, t, p, Rev(p), g.lo[t], cs'[t]);
  }

  lemma PartFlat(b: seq<byte>, k: seq<int>, c: int, t: int, g: Side, p: seq<int>, lo: int, end: int, src: seq<int>, j: int, bound: int)
    requires Filled(b, k, 256 * t + c, g, p, lo, end, src, j) && Known(b, k, c, g, p, bound) && j <= bound
    ensures |p| == |k| == |b| && 0 <= lo && end <= |p|
    ensures forall x :: lo <= x < end ==> 0 <= p[x] < |b| && k[p[x]] == 256 * t + c && Leans(b, g.rev, c, Succ(p[x], |b|))
    ensures forall x, y :: lo <= x < y < end ==> Le(b, g.rev, p[x], p[y]) && p[x] != p[y]
  {
    hide Le, Leans;
  }

  /** A stretch of the reversed order, read forwards. */
  lemma FlipPart(b: seq<byte>, k: seq<int>, c: int, t: int, p: seq<int>, r: seq<int>, lo: int, end: int)
    requires |p| == |r| == |k| == |b| && 0 <= lo <= end <= |p| && r == Rev(p)
    requires forall x :: lo <= x < end ==> 0 <= r[x] < |b| && k[r[x]] == 256 * t + c && Leans(b, true, c, Succ(r[x], |b|))
    requires forall x, y :: lo <= x < y < end ==> Le(b, true, r[x], r[y]) && r[x] != r[y]
    ensures forall x :: |b| - end <= x < |b| - lo ==> 0 <= p[x] < |b| && k[p[x]] == 256 * t + c && Leans(b, true, c, Succ(p[x], |b|))
    ensures forall x, y :: |b| - end <= x < y < |b| - lo ==> Le(b, false, p[x], p[y]) && p[x] != p[y]
  {
    hide *;
    var n := |b|;
    forall x | n - end <= x < n - lo ensures 0 <= p[x] < n && k[p[x]] == 256 * t + c && Leans(b, true, c, Succ(p[x], n)) {
      RevBack(p, r, x);
    }
    forall x, y | n - end <= x < y < n - lo ensures Le(b, false, p[x], p[y]) && p[x] != p[y] {
      RevBack(p, r, x);
      RevBack(p, r, y);
      LeFlip(b, p[y], p[x]);
    }
  }

  lemma RevBack(p: seq<int>, r: seq<int>, x: int)
    requires r == Rev(p) && 0 <= x < |p|
    ensures |r| == |p| && r[|p| - 1 - x] == p[x]
  {
  }

  lemma BothParts(b: seq<byte>, k: seq<int>, c: int, done: seq<bool>, p0: seq<int>, p1: seq<int>, cs: seq<int>, us: seq<int>, ud: seq<int>,
                  p: seq<int>, ce: seq<int>, ds: seq<int>, dd: seq<int>, t: int)
    requires BothScans(b, k, c, done, p0, p1, cs, us, ud, p, ce, ds, dd) && 0 <= t < 256 && !done[t]
    ensures |cs| == |ce| == 256 && TwoParts(b, k, 256 * t + c, p, Start(k, 256 * t + c), cs[t], ce[t] + 1, Start(k, 256 * t + c + 1))
  {
    hide *;
    var below := BothBelow(b, k, c, done, p0, p1, cs, us, ud, p, ce, ds, dd);
    DivMod(t, c);
    LowerPart(b, k, c, done, p0, p1, cs, us, ud, p, ce, ds, dd, t);
    UpperPart(b, k, c, done, p0, p1, cs, us, ud, p, ce, ds, dd, t);
    MakeParts(b, k, 256 * t + c, p, Start(k, 256 * t + c), cs[t], ce[t] + 1, Start(k, 256 * t + c + 1));
  }

  lemma BothBelow(b: seq<byte>, k: seq<int>, c: int, done: seq<bool>, p0: seq<int>, p1: seq<int>, cs: seq<int>, us: seq<int>, ud: seq<int>,
                  p: seq<int>, ce: seq<int>, ds: seq<int>, dd: seq<int>) returns (below: seq<seq<int>>)
    requires BothScans(b, k, c, done, p0, p1, cs, us, ud, p, ce, ds, dd)
    ensures |b| > 0 && k == Pairs(b) && |k| == |b| && 0 <= c < 256 && |cs| == |ce| == |done| == 256 && !done[c] && |p0| == |p1| == |p| == |b| == |Rev(p)|
    ensures |below| == 256 && (forall t :: 0 <= t < 256 ==> 0 <= Lows(k, c)[t] <= cs[t] <= |p1|) && below == Below(p1, Lows(k, c), cs, done)
    ensures Scanning(b, k, c, done, Up(k, c), p1, cs, us, ud, cs[c]) && |Mirror(ce, |b| - 1)| == 256
    ensures Scanning(b, k, c, done, Down(k, c, below), Rev(p), Mirror(ce, |b| - 1), ds, dd, |b| - 1 - ce[c])
    ensures Frozen(p, Lows(k, c), done, below) && Waiting(p0, p1, cs, Highs(k, c)) && Waiting(p0, p, Tops(k, c, below), Shifted(ce, 1))
    ensures Bucketed(k, p0) && Kept(k, p0, p, c, done)
  {
    hide Scanning, Frozen, Waiting, Bucketed, Kept, Start;
    below := Below(p1, Lows(k, c), cs, done);
  }

  lemma FrozenAt(p: seq<int>, lo: seq<int>, done: seq<bool>, below: seq<seq<int>>, t: int)
    requires Frozen(p, lo, done, below) && 0 <= t < 256 && |done| == 256 && !done[t]
    ensures |lo| == |below| == 256 && 0 <= lo[t] && lo[t] + |below[t]| <= |p| && p[lo[t]..lo[t] + |below[t]|] == below[t]
  {
  }

  lemma FilledPair(b: seq<byte>, k: seq<int>, key: int, g: Side, p: seq<int>, lo: int, end: int, src: seq<int>, j: int, x: int, y: int)
    requires Filled(b, k, key, g, p, lo, end, src, j) && lo <= x < y < end
    ensures 0 <= x < y < |p| && Le(b, g.rev, p[x], p[y]) && p[x] != p[y]
  {
    hide Le;
  }

  lemma LeFlip(b: seq<byte>, u: int, v: int)
    requires Le(b, true, u, v)
    ensures Le(b, false, v, u)
  {
    CmpAnti(b, u, v, |b|);
  }

  lemma MakeParts(b: seq<byte>, k: seq<int>, key: int, p: seq<int>, lo: int, mid: int, top: int, hi: int)
    requires 0 <= lo <= mid <= top <= hi <= |p| == |k| == |b| && |b| > 0
    requires forall x :: lo <= x < mid ==> 0 <= p[x] < |b| && k[p[x]] == key && Leans(b, false, key % 256, Succ(p[x], |b|))
    requires forall x :: top <= x < hi ==> 0 <= p[x] < |b| && k[p[x]] == key && Leans(b, true, key % 256, Succ(p[x], |b|))
    requires forall x, y :: lo <= x < y < mid ==> Le(b, false, p[x], p[y]) && p[x] != p[y]
    requires forall x, y :: top <= x < y < hi ==> Le(b, false, p[x], p[y]) && p[x] != p[y]
    ensures TwoParts(b, k, key, p, lo, mid, top, hi)
  {
    hide Leans, Le;
  }

  /** Everything below precedes everything above. */
  lemma PartsOrder(b: seq<byte>, k: seq<int>, t: int, c: int, p: seq<int>, lo: int, mid: int, top: int, hi: int, x: int, y: int)
    requires TwoParts(b, k, 256 * t + c, p, lo, mid, top, hi) && k == Pairs(b) && 0 <= t < 256 && 0 <= c < 256
    requires lo <= x < mid && top <= y < hi
    ensures Le(b, false, p[x], p[y]) && p[x] != p[y]
  {
    hide Leans, Pairs;
    DivMod(t, c);
    SuccPred(p[x], |b|);
    SuccPred(p[y], |b|);
    LeansOrder(b, c, Succ(p[x], |b|), Succ(p[y], |b|));
    FirstByte(b, p[x], t, c);
    FirstByte(b, p[y], t, c);
    BackOrder(b, false, p[x], p[y]);
  }

  lemma PartsFlat(b: seq<byte>, k: seq<int>, key: int, p: seq<int>, lo: int, mid: int, top: int, hi: int)
    requires TwoParts(b, k, key, p, lo, mid, top, hi)
    ensures 0 <= lo <= mid <= top <= hi <= |p| == |k| == |b| && |b| > 0
    ensures (forall x :: lo <= x < mid ==> 0 <= p[x] < |k| && k[p[x]] == key) && forall x :: top <= x < hi ==> 0 <= p[x] < |k| && k[p[x]] == key
    ensures forall x, y :: lo <= x < y < mid ==> Le(b, false, p[x], p[y]) && p[x] != p[y]
    ensures forall x, y :: top <= x < y < hi ==> Le(b, false, p[x], p[y]) && p[x] != p[y]
  {
    hide Leans, Le;
  }

  lemma PartsDistinct(b: seq<byte>, k: seq<int>, t: int, c: int, p: seq<int>, lo: int, mid: int, top: int, hi: int)
    requires TwoParts(b, k, 256 * t + c, p, lo, mid, top, hi) && k == Pairs(b) && 0 <= t < 256 && 0 <= c < 256
    ensures 0 <= lo <= mid <= top <= hi <= |p| && DistinctKeys(k, 256 * t + c, p[lo..mid] + p[top..hi])
  {
    hide *;
    PartsFlat(b, k, 256 * t + c, p, lo, mid, top, hi);
    forall x, y | lo <= x < mid && top <= y < hi ensures p[x] != p[y] { PartsOrder(b, k, t, c, p, lo, mid, top, hi, x, y); }
    TwoSlices(k, 256 * t + c, p, lo, mid, top, hi);
  }

  lemma TwoSlices(k: seq<int>, key: int, p: seq<int>, lo: int, mid: int, top: int, hi: int)
    requires 0 <= lo <= mid <= top <= hi <= |p|
    requires (forall x :: lo <= x < mid ==> 0 <= p[x] < |k| && k[p[x]] == key) && forall x :: top <= x < hi ==> 0 <= p[x] < |k| && k[p[x]] == key
    requires (forall x, y :: lo <= x < y < mid ==> p[x] != p[y]) && forall x, y :: top <= x < y < hi ==> p[x] != p[y]
    requires forall x, y :: lo <= x < mid && top <= y < hi ==> p[x] != p[y]
    ensures DistinctKeys(k, key, p[lo..mid] + p[top..hi])
  {
    var u, v := p[lo..mid], p[top..hi];
    var q := u + v;
    forall i, l | 0 <= i < l < |q| ensures q[i] != q[l] {
      if l < |u| {
        assert q[i] == p[lo + i] && q[l] == p[lo + l];
      } else if i >= |u| {
        assert q[i] == p[top + (i - |u|)] && q[l] == p[top + (l - |u|)];
      } else {
        assert q[i] == p[lo + i] && q[l] == p[top + (l - |u|)];
      }
    }
  }

  /** Unless the block is all c, every position of the bucket was put there by one of the scans. */
  lemma Reached(b: seq<byte>, k: seq<int>, c: int, done: seq<bool>, p0: seq<int>, p1: seq<int>, cs: seq<int>, us: seq<int>, ud: seq<int>,
                p: seq<int>, ce: seq<int>, ds: seq<int>, dd: seq<int>, t: int, w: nat, v: int)
    requires BothScans(b, k, c, done, p0, p1, cs, us, ud, p, ce, ds, dd) && 0 <= t < 256 && !done[t] && w < |b| && b[w] != c
    requires 0 <= v < |b| && |k| == |b| && k[v] == 256 * t + c && |p| == |b| && |cs| == |ce| == 256
    requires 0 <= Start(k, 256 * t + c) <= cs[t] <= ce[t] + 1 <= Start(k, 256 * t + c + 1) <= |p|
    ensures v in p[Start(k, 256 * t + c)..cs[t]] + p[ce[t] + 1..Start(k, 256 * t + c + 1)]
  {
    hide *;
    var below := BothBelow(b, k, c, done, p0, p1, cs, us, ud, p, ce, ds, dd);
    var n := |b|;
    UpShape(k, c);
    DownShape(k, c, below);
    SuccPred(v, n);
    LeansEither(b, c, t, v, w);
    var lo, mid, top, hi := Start(k, 256 * t + c), cs[t], ce[t] + 1, Start(k, 256 * t + c + 1);
    if Leans(b, false, c, Succ(v, n)) {
      var y := AllCopied(b, k, c, done, Up(k, c), p1, cs, us, ud, v, t);
      FrozenAt(p, Lows(k, c), done, below, t);
      assert below[t][y - lo] == p[lo..mid][y - lo] == v;
      assert v in p[lo..mid];
    } else {
      var y := AllCopied(b, k, c, done, Down(k, c, below), Rev(p), Mirror(ce, n - 1), ds, dd, v, t);
      RevAt(p, y);
      assert p[top..hi][n - 1 - y - top] == v;
      assert v in p[top..hi];
    }
  }

  lemma LeansEither(b: seq<byte>, c: int, t: int, v: nat, w: nat)
    requires 0 <= c < 256 && 0 <= t < 256 && v < |b| && w < |b| && b[w] != c && Pairs(b)[v] == 256 * t + c
    ensures Leans(b, false, c, Succ(v, |b|)) || Leans(b, true, c, Succ(v, |b|))
  {
    FirstByte(b, v, t, c);
    AtSucc(b, v, v + 1);
    assert At(b, w + |b|) == At(b, w) == b[w];
    LeansSome(b, c, Succ(v, |b|), w + |b|);
  }

  /** The two scans of a bucket meet: the first case of assertion 1007 of the source. */
  lemma ScansMeet(b: seq<byte>, k: seq<int>, c: int, done: seq<bool>, p0: seq<int>, p1: seq<int>, cs: seq<int>, us: seq<int>, ud: seq<int>,
                  p: seq<int>, ce: seq<int>, ds: seq<int>, dd: seq<int>, t: int, w: nat)
    requires BothScans(b, k, c, done, p0, p1, cs, us, ud, p, ce, ds, dd) && 0 <= t < 256 && !done[t] && w < |b| && b[w] != c
    ensures |cs| == |ce| == 256 && cs[t] == ce[t] + 1
  {
    hide *;
    var below := BothBelow(b, k, c, done, p0, p1, cs, us, ud, p, ce, ds, dd);
    BothParts(b, k, c, done, p0, p1, cs, us, ud, p, ce, ds, dd, t);
    PairCount();
    PairsSize(b);
    StartsInside(k, c, t);
    var lo, mid, top, hi := Start(k, 256 * t + c), cs[t], ce[t] + 1, Start(k, 256 * t + c + 1);
    PartsDistinct(b, k, t, c, p, lo, mid, top, hi);
    var q := p[lo..mid] + p[top..hi];
    DistinctPairwise(k, 256 * t + c, q);
    var s := DistinctSet(q);
    forall v | v in KeySet(k, 256 * t + c, |k|) ensures v in s {
      Reached(b, k, c, done, p0, p1, cs, us, ud, p, ce, ds, dd, t, w, v);
    }
    SubsetSize(KeySet(k, 256 * t + c, |k|), s);
  }

  lemma DistinctPairwise(k: seq<int>, c: int, q: seq<int>)
    requires DistinctKeys(k, c, q)
    ensures forall i, j :: 0 <= i < j < |q| ==> q[i] != q[j]
  {
  }

  lemma JoinedBucket(b: seq<byte>, k: seq<int>, t: int, c: int, p: seq<int>, mid: int)
    requires |b| > 0 && k == Pairs(b) && 0 <= t < 256 && 0 <= c < 256
    requires TwoParts(b, k, 256 * t + c, p, Start(k, 256 * t + c), mid, mid, Start(k, 256 * t + c + 1))
    ensures FullBucket(b, k, p, 256 * t + c)
  {
    hide *;
    var sb, lo, hi := 256 * t + c, Start(k, 256 * t + c), Start(k, 256 * t + c + 1);
    PartsFlat(b, k, sb, p, lo, mid, mid, hi);
    forall x, y | lo <= x < y < hi ensures p[x] != p[y] && Le(b, false, p[x], p[y]) {
      if x < mid <= y { PartsOrder(b, k, t, c, p, lo, mid, mid, hi, x, y); }
    }
    MakeFull(b, k, p, sb, lo, hi);
  }

  lemma MakeFull(b: seq<byte>, k: seq<int>, p: seq<int>, sb: nat, lo: int, hi: int)
    requires 0 <= lo == Start(k, sb) && Start(k, sb + 1) == hi <= |p| == |k| == |b|
    requires forall x :: lo <= x < hi ==> 0 <= p[x] < |k| && k[p[x]] == sb
    requires forall x, y :: lo <= x < y < hi ==> p[x] != p[y] && Le(b, false, p[x], p[y])
    ensures FullBucket(b, k, p, sb)
  {
    hide Start, Cmp;
    forall x, y | lo <= x < y <= hi - 1 ensures 0 <= x && y < |p| && ByRotation(b)(p[x], p[y]) {
      assert Le(b, false, p[x], p[y]);
    }
  }

  // ---------- a block of one byte only ----------

  lemma AllEqualCmp(b: seq<byte>, c: int, u: nat, v: nat)
    requires |b| > 0 && forall i :: 0 <= i < |b| ==> b[i] == c
    ensures Cmp(b, u, v, |b|) == 0
  {
    forall i: nat ensures At(b, i) == c { AtAll(b, c, i); }
    AllSame(b, c, u, v, |b|);
  }

  lemma {:induction false} AtAll(b: seq<byte>, c: int, i: nat)
    requires |b| > 0 && forall i :: 0 <= i < |b| ==> b[i] == c
    ensures At(b, i) == c
    decreases i
  {
    if i >= |b| { AtAll(b, c, i - |b|); }
  }

  lemma NeverLeans(b: seq<byte>, rev: bool, c: int, v: nat)
    requires |b| > 0 && forall i :: 0 <= i < |b| ==> b[i] == c
    ensures !Leans(b, rev, c, v)
  {
    if Leans(b, rev, c, v) {
      var m: nat :| Edge(b, rev, c, v, m);
      AtAll(b, c, v + m);
    }
  }

  /** In a block of one byte nothing is scanned and nothing moves: the second case of assertion 1007. */
  lemma OneByteBlock(b: seq<byte>, k: seq<int>, c: int, done: seq<bool>, p0: seq<int>, p1: seq<int>, cs: seq<int>, us: seq<int>, ud: seq<int>,
                     p: seq<int>, ce: seq<int>, ds: seq<int>, dd: seq<int>, t: int)
    requires BothScans(b, k, c, done, p0, p1, cs, us, ud, p, ce, ds, dd) && 0 <= t < 256 && !done[t] && forall i :: 0 <= i < |b| ==> b[i] == c
    ensures |cs| == |ce| == 256 && cs[t] == Start(k, 256 * t + c) && ce[t] + 1 == Start(k, 256 * t + c + 1)
    ensures FullBucket(b, k, p, 256 * t + c)
  {
    hide *;
    var below := BothBelow(b, k, c, done, p0, p1, cs, us, ud, p, ce, ds, dd);
    LowerPart(b, k, c, done, p0, p1, cs, us, ud, p, ce, ds, dd, t);
    UpperPart(b, k, c, done, p0, p1, cs, us, ud, p, ce, ds, dd, t);
    PairCount();
    PairsSize(b);
    StartsInside(k, c, t);
    var lo, hi := Start(k, 256 * t + c), Start(k, 256 * t + c + 1);
    if lo < cs[t] { NeverLeans(b, false, c, Succ(p[lo], |b|)); }
    if ce[t] + 1 < hi { NeverLeans(b, true, c, Succ(p[hi - 1], |b|)); }
    WaitingAt(p0, p, Tops(k, c, below), Shifted(ce, 1), t);
    UntouchedBucket(b, k, c, p0, p, t);
  }

  lemma WaitingAt(p0: seq<int>, p: seq<int>, from: seq<int>, to: seq<int>, t: int)
    requires Waiting(p0, p, from, to) && 0 <= t < 256
    ensures |p| == |p0| && |from| == |to| == 256
    ensures forall x :: 0 <= from[t] <= x < to[t] <= |p| ==> p[x] == p0[x]
  {
  }

  lemma AllEqualLe(b: seq<byte>, c: int, u: nat, v: nat)
    requires |b| > 0 && forall i :: 0 <= i < |b| ==> b[i] == c
    ensures Le(b, false, u, v)
  {
    AllEqualCmp(b, c, u, v);
  }

  lemma BucketedSlots(k: seq<int>, p: seq<int>)
    requires Bucketed(k, p)
    ensures |p| == |k| && (forall x :: 0 <= x < |p| ==> 0 <= p[x] < |k|) && (forall x, y :: 0 <= x < y < |p| ==> p[x] != p[y])
    ensures forall sb: nat :: 0 <= Start(k, sb)
  {
    hide Start;
  }

  lemma UntouchedBucket(b: seq<byte>, k: seq<int>, c: int, p0: seq<int>, p: seq<int>, t: int)
    requires |b| > 0 && k == Pairs(b) && Bucketed(k, p0) && |p| == |p0| == |k| && 0 <= t < 256 && 0 <= c < 256 && Start(k, 256 * t + c + 1) <= |k|
    requires (forall x :: Start(k, 256 * t + c) <= x < Start(k, 256 * t + c + 1) ==> p[x] == p0[x]) && forall i :: 0 <= i < |b| ==> b[i] == c
    ensures FullBucket(b, k, p, 256 * t + c)
  {
    hide *;
    PairCount();
    var sb, lo, hi := 256 * t + c, Start(k, 256 * t + c), Start(k, 256 * t + c + 1);
    BucketedSlots(k, p0);
    forall x | lo <= x < hi ensures 0 <= p[x] < |k| && k[p[x]] == sb { BucketOf(k, p0, x, sb); }
    forall x, y | lo <= x < y < hi ensures p[x] != p[y] && Le(b, false, p[x], p[y]) { AllEqualLe(b, c, p[x], p[y]); }
    MakeFull(b, k, p, sb, lo, hi);
  }

  /** After both scans every bucket [t, c] that was wanted is complete and sorted. */
  lemma ScansFill(b: seq<byte>, k: seq<int>, c: int, done: seq<bool>, p0: seq<int>, p1: seq<int>, cs: seq<int>, us: seq<int>, ud: seq<int>,
                  p: seq<int>, ce: seq<int>, ds: seq<int>, dd: seq<int>, t: int)
    requires BothScans(b, k, c, done, p0, p1, cs, us, ud, p, ce, ds, dd) && 0 <= t < 256 && !done[t]
    ensures FullBucket(b, k, p, 256 * t + c) && |cs| == |ce| == 256
    ensures cs[t] == ce[t] + 1 || ((forall i :: 0 <= i < |b| ==> b[i] == c) && cs[t] == Start(k, 256 * t + c) && ce[t] + 1 == Start(k, 256 * t + c + 1))
  {
    hide *;
    if forall i :: 0 <= i < |b| ==> b[i] == c {
      OneByteBlock(b, k, c, done, p0, p1, cs, us, ud, p, ce, ds, dd, t);
    } else {
      var w: nat :| w < |b| && b[w] != c;
      var below := BothBelow(b, k, c, done, p0, p1, cs, us, ud, p, ce, ds, dd);
      ScansMeet(b, k, c, done, p0, p1, cs, us, ud, p, ce, ds, dd, t, w);
      BothParts(b, k, c, done, p0, p1, cs, us, ud, p, ce, ds, dd, t);
      JoinedBucket(b, k, t, c, p, cs[t]);
    }
  }
}

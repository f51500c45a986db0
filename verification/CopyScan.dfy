/** Step 2 of the main sort: scanning a finished big bucket to fill in, already sorted, every small
    bucket whose second byte it is.  The upward scan is described here for either direction: the
    downward scan is the upward one with positions and order reversed. */
module CopyScan {
  import opened Rotations
  import opened Counting
  import opened BurrowsWheeler
  import opened PairBuckets

  // ---------- which end of its big bucket a rotation belongs to ----------

  /** The run of c at v is m long and ends in a smaller byte (a larger one if rev). */
  ghost predicate Edge(b: seq<byte>, rev: bool, c: int, v: nat, m: nat) {
    && |b| > 0 && m >= 1 && (forall i: nat {:trigger At(b, i)} :: v <= i < v + m ==> At(b, i) == c)
    && if rev then At(b, v + m) > c else At(b, v + m) < c
  }

  ghost predicate Leans(b: seq<byte>, rev: bool, c: int, v: nat) {
    exists m: nat :: Edge(b, rev, c, v, m)
  }

  /** A run as long as the block never ends. */
  lemma NoFullRun(b: seq<byte>, c: int, u: nat, v: nat, h: nat)
    requires |b| > 0 && (forall i: nat {:trigger At(b, i)} :: u <= i < u + h ==> At(b, i) == c)
    requires (forall i: nat {:trigger At(b, i)} :: v <= i < v + h ==> At(b, i) == c) && At(b, u + h) < At(b, v + h)
    ensures h < |b|
  {
    var i, j := u + h, v + h;
    assert i >= |b| ==> At(b, i) == At(b, i - |b|);
    assert j >= |b| ==> At(b, j) == At(b, j - |b|);
  }

  lemma EdgesMeet(b: seq<byte>, c: int, u: nat, v: nat, m: nat, n: nat)
    requires Edge(b, false, c, u, m) && Edge(b, true, c, v, n)
    ensures Cmp(b, u, v, |b|) <= 0
    ensures u != v
  {
    var h := if m < n then m else n;
    AllSame(b, c, u, v, h);
    CmpSplit(b, u, v, h, 1);
    assert At(b, u + h) < At(b, v + h);
    NoFullRun(b, c, u, v, h);
    CmpSplit(b, u, v, h + 1, |b| - (h + 1));
  }

  lemma {:induction false} AllSame(b: seq<byte>, c: int, u: nat, v: nat, h: nat)
    requires |b| > 0 && (forall i: nat {:trigger At(b, i)} :: u <= i < u + h ==> At(b, i) == c)
    requires forall i: nat {:trigger At(b, i)} :: v <= i < v + h ==> At(b, i) == c
    ensures Cmp(b, u, v, h) == 0
    decreases h
  {
    if h > 0 { AllSame(b, c, u + 1, v + 1, h - 1); }
  }

  /** Rotations leaning down precede rotations leaning up; none does both. */
  lemma LeansOrder(b: seq<byte>, c: int, u: nat, v: nat)
    requires Leans(b, false, c, u) && Leans(b, true, c, v)
    ensures Cmp(b, u, v, |b|) <= 0 && u != v
  {
    var m: nat :| Edge(b, false, c, u, m);
    var n: nat :| Edge(b, true, c, v, n);
    EdgesMeet(b, c, u, v, m, n);
  }

  function Succ(v: nat, n: nat): nat {
    if v + 1 == n then 0 else v + 1
  }

  lemma SuccPred(v: nat, n: nat)
    requires v < n
    ensures Succ(Pred(v, n), n) == v && Pred(v, n) < n && Succ(v, n) < n && Pred(Succ(v, n), n) == v
  {
  }

  lemma AtSucc(b: seq<byte>, v: nat, i: nat)
    requires v < |b| && v < i
    ensures i - (v + 1) + Succ(v, |b|) >= 0 && At(b, i) == At(b, i - (v + 1) + Succ(v, |b|))
  {
  }

  /** Prepending c to a rotation that leans gives one that leans the same way. */
  lemma LeansBack(b: seq<byte>, rev: bool, c: int, v: nat)
    requires v < |b| && b[v] == c && Leans(b, rev, c, Succ(v, |b|))
    ensures Leans(b, rev, c, v)
  {
    var m: nat :| Edge(b, rev, c, Succ(v, |b|), m);
    forall i: nat {:trigger At(b, i)} | v <= i < v + (m + 1) ensures At(b, i) == c {
      if i > v { AtSucc(b, v, i); }
    }
    AtSucc(b, v, v + (m + 1));
    assert Edge(b, rev, c, v, m + 1);
  }

  /** Dropping the first byte of a run of two or more keeps the leaning. */
  lemma EdgeForward(b: seq<byte>, rev: bool, c: int, v: nat, m: nat)
    requires v < |b| && Edge(b, rev, c, v, m) && m >= 2
    ensures Edge(b, rev, c, Succ(v, |b|), m - 1)
  {
    var s := Succ(v, |b|);
    forall i: nat {:trigger At(b, i)} | s <= i < s + (m - 1) ensures At(b, i) == c {
      AtSucc(b, v, i - s + (v + 1));
      assert At(b, i - s + (v + 1)) == c;
    }
    AtSucc(b, v, v + m);
  }

  /** Unless the block is all c, every rotation that starts with c leans one way. */
  lemma {:induction false} LeansSome(b: seq<byte>, c: int, v: nat, w: nat)
    requires v <= w && |b| > 0 && At(b, v) == c && At(b, w) != c
    ensures Leans(b, false, c, v) || Leans(b, true, c, v)
  {
    var m := FirstOther(b, c, v, w);
    assert Edge(b, false, c, v, m) || Edge(b, true, c, v, m);
  }

  lemma {:induction false} FirstOther(b: seq<byte>, c: int, v: nat, w: nat) returns (m: nat)
    requires v <= w && |b| > 0 && At(b, w) != c
    ensures At(b, v + m) != c && forall i: nat {:trigger At(b, i)} :: v <= i < v + m ==> At(b, i) == c
    decreases w - v
  {
    if At(b, v) != c {
      m := 0;
    } else {
      var l := FirstOther(b, c, v + 1, w);
      m := l + 1;
    }
  }

  // ---------- counting ----------

  ghost function KeySet(k: seq<int>, c: int, i: nat): (s: set<int>)
    requires i <= |k|
    ensures forall v :: v in s <==> 0 <= v < i && k[v] == c
    ensures |s| == Occ(k, c, i)
  {
    if i == 0 then {} else KeySet(k, c, i - 1) + if k[i - 1] == c then {i - 1} else {}
  }

  ghost predicate DistinctKeys(k: seq<int>, c: int, q: seq<int>) {
    (forall i :: 0 <= i < |q| ==> 0 <= q[i] < |k| && k[q[i]] == c) && forall i, j :: 0 <= i < j < |q| ==> q[i] != q[j]
  }

  lemma {:induction false} DistinctSet(q: seq<int>) returns (s: set<int>)
    requires forall i, j :: 0 <= i < j < |q| ==> q[i] != q[j]
    ensures |s| == |q| && forall v :: v in s <==> v in q
  {
    if q == [] {
      s := {};
    } else {
      var l := |q| - 1;
      var t := DistinctSet(q[..l]);
      assert q == q[..l] + [q[l]];
      assert q[l] !in q[..l];
      s := t + {q[l]};
      forall v ensures v in s <==> v in q { assert v in q <==> v in q[..l] || v == q[l]; }
    }
  }

  /** A bucket cannot be given more positions than it has. */
  lemma NotTooMany(k: seq<int>, c: int, q: seq<int>)
    requires DistinctKeys(k, c, q)
    ensures |q| <= Occ(k, c, |k|)
  {
    var s := DistinctSet(q);
    forall v | v in s ensures v in KeySet(k, c, |k|) { var i :| 0 <= i < |q| && q[i] == v; }
    SubsetSize(s, KeySet(k, c, |k|));
  }

  // ---------- the scan ----------

  /** One direction of the scan: for every first byte t the segment lo[t]..hi[t] of the small bucket
      [t, c], what the other direction has already put at its far end, and where the scan begins. */
  datatype Side = Side(rev: bool, lo: seq<int>, hi: seq<int>, left: int, other: seq<seq<int>>)

  ghost predicate Laid(b: seq<byte>, k: seq<int>, c: int, g: Side) {
    && 0 <= c < 256 && |g.lo| == |g.hi| == |g.other| == 256 && |b| > 0 && k == Pairs(b)
    && (forall t :: 0 <= t < 256 ==> 0 <= g.lo[t] <= g.hi[t] <= |b| && g.hi[t] - g.lo[t] == Occ(k, 256 * t + c, |k|))
    && (forall t, u :: 0 <= t < u < 256 ==> g.hi[t] <= g.lo[u] || g.hi[u] <= g.lo[t])
    && 0 <= g.left <= g.lo[c] && (forall t :: 0 <= t < 256 && t != c ==> g.hi[t] <= g.left || g.hi[c] <= g.lo[t])
    && forall t :: 0 <= t < 256 ==> Opposed(b, k, c, g.rev, g.other[t], 256 * t + c)
  }

  /** Positions of one bucket whose successors lean the other way. */
  ghost predicate Opposed(b: seq<byte>, k: seq<int>, c: int, rev: bool, q: seq<int>, key: int) {
    |k| == |b| && DistinctKeys(k, key, q) && forall i :: 0 <= i < |q| ==> Leans(b, !rev, c, Succ(q[i], |b|))
  }

  ghost predicate Le(b: seq<byte>, rev: bool, u: int, v: int) {
    |b| > 0 && 0 <= u && 0 <= v && if rev then Cmp(b, u, v, |b|) >= 0 else Cmp(b, u, v, |b|) <= 0
  }

  /** The part of the big bucket known so far: sorted, leaning towards the start of the scan. */
  ghost predicate Known(b: seq<byte>, k: seq<int>, c: int, g: Side, p: seq<int>, end: int) {
    && |p| == |b| == |k| && 0 <= g.left && end <= |p|
    && (forall x :: g.left <= x < end ==> 0 <= p[x] < |b| && b[p[x]] == c && Leans(b, g.rev, c, p[x]))
    && forall x, y :: g.left <= x < y < end ==> Le(b, g.rev, p[x], p[y]) && p[x] != p[y]
  }

  /** The finished small buckets [c, e] the scan begins with. */
  ghost predicate Base(b: seq<byte>, k: seq<int>, c: int, g: Side, p: seq<int>, mid: int) {
    && |p| == |b| == |k| && 0 <= g.left && mid <= |p|
    && (forall x :: g.left <= x < mid ==> 0 <= p[x] < |b| && if g.rev then k[p[x]] > 256 * c + c else k[p[x]] < 256 * c + c)
    && forall w :: 0 <= w < |b| && b[w] == c && (if g.rev then k[w] > 256 * c + c else k[w] < 256 * c + c)
                ==> exists x :: g.left <= x < mid && p[x] == w
  }

  /** Entries lo..end hold sorted positions of bucket [t, c]; src says which scanned entry each came from. */
  ghost predicate Filled(b: seq<byte>, k: seq<int>, key: int, g: Side, p: seq<int>, lo: int, end: int, src: seq<int>, j: int) {
    && |p| == |b| == |k| == |src| && 0 <= lo && end <= |p| && 0 <= g.left && j <= |p|
    && (forall y :: lo <= y < end ==> 0 <= p[y] < |b| && k[p[y]] == key && g.left <= src[y] < j && p[src[y]] == Succ(p[y], |b|))
    && forall y, z :: lo <= y < z < end ==> Le(b, g.rev, p[y], p[z]) && p[y] != p[z]
  }

  /** Every scanned entry whose predecessor is wanted has put it somewhere. */
  ghost predicate Copied(b: seq<byte>, done: seq<bool>, g: Side, p: seq<int>, cs: seq<int>, dst: seq<int>, j: int) {
    && |p| == |b| == |dst| && |done| == 256 == |cs| == |g.lo| && 0 <= g.left && j <= |p|
    && forall x :: g.left <= x < j ==> 0 <= p[x] < |b| && CopiedOne(b, done, g, p, cs, dst, x)
  }

  ghost predicate CopiedOne(b: seq<byte>, done: seq<bool>, g: Side, p: seq<int>, cs: seq<int>, dst: seq<int>, x: int)
    requires |p| == |b| == |dst| && |done| == 256 == |cs| == |g.lo| && 0 <= x < |p| && 0 <= p[x] < |b|
  {
    var v := Pred(p[x], |b|);
    !done[b[v]] ==> g.lo[b[v]] <= dst[x] < cs[b[v]] && 0 <= dst[x] < |p| && p[dst[x]] == v
  }

  ghost predicate Scanning(b: seq<byte>, k: seq<int>, c: int, done: seq<bool>, g: Side, p: seq<int>, cs: seq<int>, src: seq<int>, dst: seq<int>, j: int) {
    && Laid(b, k, c, g) && |done| == |cs| == 256 && !done[c] && |p| == |b|
    && g.left <= j <= cs[c] && (forall t :: 0 <= t < 256 ==> g.lo[t] <= cs[t] <= g.hi[t] - |g.other[t]|)
    && Known(b, k, c, g, p, cs[c]) && Base(b, k, c, g, p, g.lo[c])
    && (forall t :: 0 <= t < 256 && !done[t] ==> Filled(b, k, 256 * t + c, g, p, g.lo[t], cs[t], src, j))
    && Copied(b, done, g, p, cs, dst, j)
  }

  /** Going back one byte from ordered rotations that have the same byte before them. */
  lemma BackOrder(b: seq<byte>, rev: bool, u: nat, v: nat)
    requires u < |b| && v < |b| && b[u] == b[v] && Le(b, rev, Succ(u, |b|), Succ(v, |b|))
    ensures Le(b, rev, u, v)
  {
    var u', v' := Succ(u, |b|), Succ(v, |b|);
    SuccPred(u, |b|);
    SuccPred(v, |b|);
    PredAt(b, u', 0);
    PredAt(b, v', 0);
    if rev {
      CmpAnti(b, u', v', |b|);
      PredOrder(b, v', u');
      CmpAnti(b, u, v, |b|);
    } else {
      PredOrder(b, u', v');
    }
  }

  lemma PairOrder(b: seq<byte>, u: nat, v: nat)
    requires u < |b| && v < |b| && Pairs(b)[u] < Pairs(b)[v]
    ensures Cmp(b, u, v, |b|) < 0
  {
    assert At(b, u) == b[u] && At(b, v) == b[v];
    if b[u] == b[v] { assert |b| > 1; }
  }

  /** Where the next entry scanned comes from. */
  lemma StepFacts(b: seq<byte>, k: seq<int>, c: int, done: seq<bool>, g: Side, p: seq<int>, cs: seq<int>, src: seq<int>, dst: seq<int>, j: int)
    requires Scanning(b, k, c, done, g, p, cs, src, dst, j) && j < cs[c]
    ensures 0 <= j < |p| && 0 <= p[j] < |b| && Succ(Pred(p[j], |b|), |b|) == p[j] && Pred(p[j], |b|) < |b|
    ensures |k| == |b| && k[Pred(p[j], |b|)] == 256 * b[Pred(p[j], |b|)] + c && Leans(b, g.rev, c, p[j])
  {
    hide Laid, Base, Filled, Copied, Leans, Le, Known, At, Pairs, Pred, Succ;
    LaidParts(b, k, c, g);
    KnownAt(b, k, c, g, p, cs[c], j);
    SuccPred(p[j], |b|);
    PredKey(b, k, p[j], Pred(p[j], |b|), c);
  }

  lemma KnownAt(b: seq<byte>, k: seq<int>, c: int, g: Side, p: seq<int>, end: int, x: int)
    requires Known(b, k, c, g, p, end) && g.left <= x < end
    ensures 0 <= x < |p| && 0 <= p[x] < |b| && b[p[x]] == c && Leans(b, g.rev, c, p[x])
  {
    hide Leans, Le;
  }

  /** The key of the position before u ends in the byte at u. */
  lemma PredKey(b: seq<byte>, k: seq<int>, u: nat, v: nat, c: int)
    requires u < |b| && v == Pred(u, |b|) && |b| > 0 && k == Pairs(b) && b[u] == c
    ensures v < |b| == |k| && k[v] == 256 * b[v] + c
  {
    hide *;
    NextByte(b, u, v);
  }

  lemma NextByte(b: seq<byte>, u: nat, v: nat)
    requires u < |b| && v == Pred(u, |b|)
    ensures v < |b| && At(b, v + 1) == b[u]
  {
    if u == 0 { assert At(b, |b|) == At(b, 0); }
  }

  lemma LaidParts(b: seq<byte>, k: seq<int>, c: int, g: Side)
    requires Laid(b, k, c, g)
    ensures |b| > 0 && k == Pairs(b) && |k| == |b| && 0 <= c < 256 && |g.lo| == |g.hi| == |g.other| == 256
    ensures forall t :: 0 <= t < 256 ==> 0 <= g.lo[t] <= g.hi[t] <= |b| && g.hi[t] - g.lo[t] == Occ(k, 256 * t + c, |k|)
    ensures forall t :: 0 <= t < 256 ==> Opposed(b, k, c, g.rev, g.other[t], 256 * t + c)
    ensures 0 <= g.left <= g.lo[c]
  {
    hide Opposed, Occ;
  }

  /** An entry not yet in its bucket. */
  lemma Fresh(b: seq<byte>, k: seq<int>, c: int, key: int, g: Side, p: seq<int>, lo: int, end: int, src: seq<int>, j: int, bound: int, v: int)
    requires Filled(b, k, key, g, p, lo, end, src, j) && Known(b, k, c, g, p, bound) && g.left <= j < bound
    requires 0 <= v < |b| && Succ(v, |b|) == p[j]
    ensures forall y :: lo <= y < end ==> p[y] != v
  {
    hide Le, Leans;
    forall y | lo <= y < end ensures p[y] != v {
      assert p[src[y]] != p[j];
    }
  }

  lemma FilledLeans(b: seq<byte>, k: seq<int>, c: int, key: int, g: Side, p: seq<int>, lo: int, end: int, src: seq<int>, j: int, bound: int)
    requires Filled(b, k, key, g, p, lo, end, src, j) && Known(b, k, c, g, p, bound) && j <= bound && lo <= end
    ensures 0 <= lo <= end <= |p| && forall v :: v in p[lo..end] ==> 0 <= v < |b| && Leans(b, g.rev, c, Succ(v, |b|))
  {
    hide Le, Leans;
    forall v | v in p[lo..end] ensures 0 <= v < |b| && Leans(b, g.rev, c, Succ(v, |b|)) {
      var y :| lo <= y < end && p[y] == v;
      assert p[src[y]] == Succ(v, |b|);
    }
  }

  /** There is room for it. */
  lemma Room(b: seq<byte>, k: seq<int>, c: int, key: int, g: Side, p: seq<int>, lo: int, end: int, src: seq<int>, j: int, bound: int, v: int, other: seq<int>)
    requires Filled(b, k, key, g, p, lo, end, src, j) && Known(b, k, c, g, p, bound) && g.left <= j < bound && lo <= end
    requires 0 <= v < |b| && Succ(v, |b|) == p[j] && k[v] == key && Opposed(b, k, c, g.rev, other, key)
    ensures end - lo + |other| + 1 <= Occ(k, key, |k|)
  {
    hide Le, Leans;
    Fresh(b, k, c, key, g, p, lo, end, src, j, bound, v);
    FilledLeans(b, k, c, key, g, p, lo, end, src, j, bound);
    var here := p[lo..end];
    var q := here + other + [v];
    forall i | 0 <= i < |other| ensures other[i] != v && other[i] !in here {
      NotBoth(b, c, g.rev, Succ(other[i], |b|));
      assert !Leans(b, g.rev, c, Succ(other[i], |b|));
    }
    JoinDistinct(k, key, p, lo, end, other, v);
    NotTooMany(k, key, q);
  }

  lemma JoinDistinct(k: seq<int>, key: int, p: seq<int>, lo: int, end: int, other: seq<int>, v: int)
    requires 0 <= lo <= end <= |p| && DistinctKeys(k, key, other) && 0 <= v < |k| && k[v] == key
    requires forall y :: lo <= y < end ==> 0 <= p[y] < |k| && k[p[y]] == key && p[y] != v
    requires forall y, z :: lo <= y < z < end ==> p[y] != p[z]
    requires forall i :: 0 <= i < |other| ==> other[i] != v && other[i] !in p[lo..end]
    ensures DistinctKeys(k, key, p[lo..end] + other + [v])
  {
    var here := p[lo..end];
    var q := here + other + [v];
    forall i, l | 0 <= i < l < |q| ensures q[i] != q[l] {
      if i < |here| && |here| <= l < |q| - 1 { assert here[i] in here && q[l] == other[l - |here|]; }
    }
  }

  lemma NotBoth(b: seq<byte>, c: int, rev: bool, v: nat)
    ensures !(Leans(b, rev, c, v) && Leans(b, !rev, c, v))
  {
    if Leans(b, rev, c, v) && Leans(b, !rev, c, v) {
      LeansOrder(b, c, v, v);
    }
  }

  /** Everything in the bucket so far precedes the new entry. */
  lemma Precede(b: seq<byte>, k: seq<int>, c: int, t: int, g: Side, p: seq<int>, lo: int, end: int, src: seq<int>, j: int, bound: int, v: int)
    requires |b| > 0 && k == Pairs(b) && 0 <= c < 256 && 0 <= t < 256
    requires Filled(b, k, 256 * t + c, g, p, lo, end, src, j) && Known(b, k, c, g, p, bound) && g.left <= j < bound
    requires 0 <= v < |b| && Succ(v, |b|) == p[j] && k[v] == 256 * t + c
    ensures forall y :: lo <= y < end ==> Le(b, g.rev, p[y], v)
  {
    hide Le, Leans;
    forall y | lo <= y < end ensures Le(b, g.rev, p[y], v) {
      assert Le(b, g.rev, p[src[y]], p[j]);
      FirstByte(b, p[y], t, c);
      FirstByte(b, v, t, c);
      BackOrder(b, g.rev, p[y], v);
    }
  }

  lemma FirstByte(b: seq<byte>, v: nat, t: int, c: int)
    requires v < |b| && Pairs(b)[v] == 256 * t + c && 0 <= c < 256 && 0 <= t < 256
    ensures b[v] == t && At(b, v + 1) == c
  {
    assert Pairs(b)[v] == 256 * b[v] + At(b, v + 1);
    hide Pairs, At;
  }

  /** Writing outside the known part, or just past its end, keeps it. */
  lemma KnownKept(b: seq<byte>, k: seq<int>, c: int, g: Side, p: seq<int>, end: int, w: int, v: int)
    requires Known(b, k, c, g, p, end) && 0 <= w < |p| && !(g.left <= w < end)
    ensures Known(b, k, c, g, p[w := v], end)
  {
    hide Le, Leans;
  }

  lemma KnownMore(b: seq<byte>, k: seq<int>, c: int, g: Side, p: seq<int>, end: int, v: int)
    requires Known(b, k, c, g, p, end) && g.left <= end < |p| && 0 <= v < |b| && b[v] == c && Leans(b, g.rev, c, v)
    requires forall x :: g.left <= x < end ==> Le(b, g.rev, p[x], v) && p[x] != v
    ensures Known(b, k, c, g, p[end := v], end + 1)
  {
    hide Le, Leans;
  }

  lemma BaseKept(b: seq<byte>, k: seq<int>, c: int, g: Side, p: seq<int>, mid: int, w: int, v: int)
    requires Base(b, k, c, g, p, mid) && 0 <= w < |p| && !(g.left <= w < mid)
    ensures Base(b, k, c, g, p[w := v], mid)
  {
    var p' := p[w := v];
    forall u | 0 <= u < |b| && b[u] == c && (if g.rev then k[u] > 256 * c + c else k[u] < 256 * c + c)
      ensures exists x :: g.left <= x < mid && p'[x] == u
    {
      var x :| g.left <= x < mid && p[x] == u;
      assert p'[x] == u;
    }
  }

  lemma FilledKept(b: seq<byte>, k: seq<int>, key: int, g: Side, p: seq<int>, lo: int, end: int, src: seq<int>, j: int, w: int, v: int, from: int)
    requires Filled(b, k, key, g, p, lo, end, src, j) && 0 <= w < |p| && !(lo <= w < end) && !(g.left <= w < j) && j < |p|
    ensures Filled(b, k, key, g, p[w := v], lo, end, src[w := from], j + 1)
  {
    hide Le;
  }

  lemma FilledLater(b: seq<byte>, k: seq<int>, key: int, g: Side, p: seq<int>, lo: int, end: int, src: seq<int>, j: int)
    requires Filled(b, k, key, g, p, lo, end, src, j) && j < |p|
    ensures Filled(b, k, key, g, p, lo, end, src, j + 1)
  {
    hide Le;
  }

  lemma FilledMore(b: seq<byte>, k: seq<int>, key: int, g: Side, p: seq<int>, lo: int, end: int, src: seq<int>, j: int, v: int)
    requires Filled(b, k, key, g, p, lo, end, src, j) && lo <= end < |p| && g.left <= j < |p| && !(g.left <= end <= j)
    requires 0 <= v < |b| && k[v] == key && p[j] == Succ(v, |b|)
    requires forall y :: lo <= y < end ==> Le(b, g.rev, p[y], v) && p[y] != v
    ensures Filled(b, k, key, g, p[end := v], lo, end + 1, src[end := j], j + 1)
  {
    hide Le;
  }

  lemma CopiedMore(b: seq<byte>, done: seq<bool>, g: Side, p: seq<int>, cs: seq<int>, dst: seq<int>, j: int, t: int, v: int)
    requires Copied(b, done, g, p, cs, dst, j) && g.left <= j < |p| && 0 <= t < 256 && 0 <= v < |b| && b[v] == t && 0 <= p[j] < |b| && Pred(p[j], |b|) == v
    requires g.lo[t] <= cs[t] && 0 <= cs[t] < |p| && !(g.left <= cs[t] <= j)
    requires forall u :: 0 <= u < 256 && u != t && !done[u] ==> !(g.lo[u] <= cs[t] < cs[u])
    ensures Copied(b, done, g, p[cs[t] := v], cs[t := cs[t] + 1], dst[j := cs[t]], j + 1)
  {
    var w := cs[t];
    var p', cs', dst' := p[w := v], cs[t := w + 1], dst[j := w];
    forall x | g.left <= x < j + 1 ensures 0 <= p'[x] < |b| && CopiedOne(b, done, g, p', cs', dst', x) {
      if x < j {
        assert CopiedOne(b, done, g, p, cs, dst, x);
      }
    }
  }

  lemma CopiedSkip(b: seq<byte>, done: seq<bool>, g: Side, p: seq<int>, cs: seq<int>, dst: seq<int>, j: int)
    requires Copied(b, done, g, p, cs, dst, j) && g.left <= j < |p| && 0 <= p[j] < |b| && done[b[Pred(p[j], |b|)]]
    ensures Copied(b, done, g, p, cs, dst, j + 1)
  {
    forall x | g.left <= x < j + 1 ensures 0 <= p[x] < |b| && CopiedOne(b, done, g, p, cs, dst, x) {
      if x < j { assert CopiedOne(b, done, g, p, cs, dst, x); }
    }
  }

  lemma ScanningParts(b: seq<byte>, k: seq<int>, c: int, done: seq<bool>, g: Side, p: seq<int>, cs: seq<int>, src: seq<int>, dst: seq<int>, j: int)
    requires Scanning(b, k, c, done, g, p, cs, src, dst, j)
    ensures Laid(b, k, c, g) && |done| == |cs| == 256 && !done[c] && |p| == |b| == |src| == |dst| && 0 <= c < 256
    ensures |g.lo| == |g.hi| == |g.other| == 256 && 0 <= g.left <= j <= cs[c] <= |b|
    ensures forall t :: 0 <= t < 256 ==> 0 <= g.lo[t] <= cs[t] <= g.hi[t] - |g.other[t]| <= |b|
    ensures Known(b, k, c, g, p, cs[c]) && Base(b, k, c, g, p, g.lo[c]) && Copied(b, done, g, p, cs, dst, j)
    ensures forall t :: 0 <= t < 256 && !done[t] ==> Filled(b, k, 256 * t + c, g, p, g.lo[t], cs[t], src, j)
  {
    hide Known, Base, Opposed, Occ, CopiedOne, Le;
  }

  /** Segments do not overlap each other or the part scanned. */
  lemma SegmentsApart(b: seq<byte>, k: seq<int>, c: int, g: Side, t: int)
    requires Laid(b, k, c, g) && 0 <= t < 256
    ensures |g.lo| == |g.hi| == 256 && 0 <= c < 256
    ensures forall u :: 0 <= u < 256 && u != t ==> g.hi[t] <= g.lo[u] || g.hi[u] <= g.lo[t]
    ensures t != c ==> g.hi[t] <= g.left || g.hi[c] <= g.lo[t]
  {
    hide Opposed, Occ;
  }

  /** In bucket [c, c] the new entry follows everything known. */
  lemma AfterKnown(b: seq<byte>, k: seq<int>, c: int, done: seq<bool>, g: Side, p: seq<int>, cs: seq<int>, src: seq<int>, dst: seq<int>, j: int, v: int)
    requires Scanning(b, k, c, done, g, p, cs, src, dst, j) && j < cs[c] && 0 <= v < |b| && Succ(v, |b|) == p[j]
    requires |k| == |b| && k[v] == 256 * c + c
    ensures |p| == |b| && 0 <= c < 256 && |cs| == 256 && 0 <= g.left && cs[c] <= |p|
    ensures forall x :: g.left <= x < cs[c] ==> Le(b, g.rev, p[x], v) && p[x] != v
  {
    hide *;
    ScanningParts(b, k, c, done, g, p, cs, src, dst, j);
    LaidParts(b, k, c, g);
    Precede(b, k, c, c, g, p, g.lo[c], cs[c], src, j, cs[c], v);
    Fresh(b, k, c, 256 * c + c, g, p, g.lo[c], cs[c], src, j, cs[c], v);
    BaseBefore(b, k, c, g, p, g.lo[c], v);
  }

  lemma BaseBefore(b: seq<byte>, k: seq<int>, c: int, g: Side, p: seq<int>, mid: int, v: int)
    requires Base(b, k, c, g, p, mid) && |b| > 0 && k == Pairs(b) && 0 <= v < |b| && k[v] == 256 * c + c
    ensures |p| == |b| && mid <= |p| && 0 <= g.left
    ensures forall x :: g.left <= x < mid ==> Le(b, g.rev, p[x], v) && p[x] != v
  {
    forall x | g.left <= x < mid ensures Le(b, g.rev, p[x], v) && p[x] != v {
      if g.rev {
        PairOrder(b, v, p[x]);
        CmpAnti(b, v, p[x], |b|);
      } else {
        PairOrder(b, p[x], v);
      }
    }
  }

  lemma MakeScanning(b: seq<byte>, k: seq<int>, c: int, done: seq<bool>, g: Side, p: seq<int>, cs: seq<int>, src: seq<int>, dst: seq<int>, j: int)
    requires Laid(b, k, c, g) && |done| == |cs| == 256 && 0 <= c < 256 && !done[c] && |p| == |b| && |g.lo| == |g.hi| == |g.other| == 256
    requires g.left <= j <= cs[c] && forall t :: 0 <= t < 256 ==> g.lo[t] <= cs[t] <= g.hi[t] - |g.other[t]|
    requires Known(b, k, c, g, p, cs[c]) && Base(b, k, c, g, p, g.lo[c]) && Copied(b, done, g, p, cs, dst, j)
    requires forall t :: 0 <= t < 256 && !done[t] ==> Filled(b, k, 256 * t + c, g, p, g.lo[t], cs[t], src, j)
    ensures Scanning(b, k, c, done, g, p, cs, src, dst, j)
  {
    hide Laid, Known, Base, Copied, Filled;
  }

  /** The predecessor of the entry scanned goes to its bucket. */
  lemma StepCopy(b: seq<byte>, k: seq<int>, c: int, done: seq<bool>, g: Side, p: seq<int>, cs: seq<int>, src: seq<int>, dst: seq<int>, j: int, v: int, t: int)
    requires Scanning(b, k, c, done, g, p, cs, src, dst, j) && |p| == |b| == |src| == |dst| && |cs| == |done| == 256 && 0 <= c < 256
    requires 0 <= j < cs[c] <= |p| && 0 <= p[j] < |b| && v == Pred(p[j], |b|) && 0 <= v < |b| && t == b[v] && !done[t]
    ensures |g.hi| == |g.other| == 256 && 0 <= cs[t] < g.hi[t] - |g.other[t]| <= |p|
    ensures Scanning(b, k, c, done, g, p[cs[t] := v], cs[t := cs[t] + 1], src[cs[t] := j], dst[j := cs[t]], j + 1)
  {
    hide *;
    ScanningParts(b, k, c, done, g, p, cs, src, dst, j);
    LaidParts(b, k, c, g);
    StepFacts(b, k, c, done, g, p, cs, src, dst, j);
    SegmentsApart(b, k, c, g, t);
    Room(b, k, c, 256 * t + c, g, p, g.lo[t], cs[t], src, j, cs[c], v, g.other[t]);
    var w := cs[t];
    BaseKept(b, k, c, g, p, g.lo[c], w, v);
    CopiedMore(b, done, g, p, cs, dst, j, t, v);
    Precede(b, k, c, t, g, p, g.lo[t], w, src, j, cs[c], v);
    Fresh(b, k, c, 256 * t + c, g, p, g.lo[t], w, src, j, cs[c], v);
    if t == c {
      AfterKnown(b, k, c, done, g, p, cs, src, dst, j, v);
      LeansBack(b, g.rev, c, v);
      KnownMore(b, k, c, g, p, w, v);
    } else {
      KnownKept(b, k, c, g, p, cs[c], w, v);
    }
    forall u | 0 <= u < 256 && !done[u] ensures Filled(b, k, 256 * u + c, g, p[w := v], g.lo[u], cs[t := w + 1][u], src[w := j], j + 1) {
      if u == t {
        FilledMore(b, k, 256 * t + c, g, p, g.lo[t], w, src, j, v);
      } else {
        FilledKept(b, k, 256 * u + c, g, p, g.lo[u], cs[u], src, j, w, v, j);
      }
    }
    MakeScanning(b, k, c, done, g, p[w := v], cs[t := w + 1], src[w := j], dst[j := w], j + 1);
  }

  /** Its big bucket is finished: nothing to do. */
  lemma StepSkip(b: seq<byte>, k: seq<int>, c: int, done: seq<bool>, g: Side, p: seq<int>, cs: seq<int>, src: seq<int>, dst: seq<int>, j: int)
    requires Scanning(b, k, c, done, g, p, cs, src, dst, j) && |p| == |b| && |cs| == |done| == 256 && 0 <= c < 256
    requires 0 <= j < cs[c] <= |p| && 0 <= p[j] < |b| && done[b[Pred(p[j], |b|)]]
    ensures Scanning(b, k, c, done, g, p, cs, src, dst, j + 1)
  {
    hide *;
    ScanningParts(b, k, c, done, g, p, cs, src, dst, j);
    CopiedSkip(b, done, g, p, cs, dst, j);
    forall u | 0 <= u < 256 && !done[u] ensures Filled(b, k, 256 * u + c, g, p, g.lo[u], cs[u], src, j + 1) {
      FilledLater(b, k, 256 * u + c, g, p, g.lo[u], cs[u], src, j);
    }
    MakeScanning(b, k, c, done, g, p, cs, src, dst, j + 1);
  }

  /** Once the scan has caught up with its own output, every rotation of c leaning its way is known. */
  lemma {:induction false} AllKnown(b: seq<byte>, k: seq<int>, c: int, done: seq<bool>, g: Side, p: seq<int>, cs: seq<int>, src: seq<int>, dst: seq<int>, v: nat, m: nat) returns (x: int)
    requires |cs| == 256 && 0 <= c < 256 && Scanning(b, k, c, done, g, p, cs, src, dst, cs[c]) && v < |b| && Edge(b, g.rev, c, v, m)
    ensures 0 <= g.left <= x < cs[c] <= |p| && p[x] == v
    decreases m
  {
    hide *;
    ScanningParts(b, k, c, done, g, p, cs, src, dst, cs[c]);
    LaidParts(b, k, c, g);
    EdgeStart(b, g.rev, c, v, m);
    if m == 1 {
      x := BaseHas(b, k, c, g, p, g.lo[c], v);
    } else {
      EdgeForward(b, g.rev, c, v, m);
      SuccPred(v, |b|);
      var y := AllKnown(b, k, c, done, g, p, cs, src, dst, Succ(v, |b|), m - 1);
      x := CopiedTo(b, done, g, p, cs, dst, cs[c], y, v);
    }
  }

  lemma EdgeStart(b: seq<byte>, rev: bool, c: int, v: nat, m: nat)
    requires Edge(b, rev, c, v, m) && v < |b|
    ensures m >= 1 && b[v] == c
  {
    assert At(b, v) == b[v];
  }

  lemma CopiedTo(b: seq<byte>, done: seq<bool>, g: Side, p: seq<int>, cs: seq<int>, dst: seq<int>, j: int, y: int, v: int) returns (x: int)
    requires Copied(b, done, g, p, cs, dst, j) && g.left <= y < j && 0 <= p[y] < |b| && v == Pred(p[y], |b|) && 0 <= v < |b| && !done[b[v]]
    ensures |g.lo| == |cs| == 256 && g.lo[b[v]] <= x < cs[b[v]] && 0 <= x < |p| && p[x] == v
  {
    assert CopiedOne(b, done, g, p, cs, dst, y);
    x := dst[y];
  }

  lemma BaseHas(b: seq<byte>, k: seq<int>, c: int, g: Side, p: seq<int>, mid: int, v: nat) returns (x: int)
    requires Base(b, k, c, g, p, mid) && |b| > 0 && k == Pairs(b) && v < |b| && b[v] == c && Edge(b, g.rev, c, v, 1)
    ensures 0 <= g.left <= x < mid <= |p| && p[x] == v
  {
    assert k[v] == 256 * c + At(b, v + 1);
    x :| g.left <= x < mid && p[x] == v;
  }

  /** And every position of a wanted bucket whose successor leans its way is in that bucket. */
  lemma AllCopied(b: seq<byte>, k: seq<int>, c: int, done: seq<bool>, g: Side, p: seq<int>, cs: seq<int>, src: seq<int>, dst: seq<int>, v: nat, t: int) returns (y: int)
    requires |cs| == |done| == 256 && 0 <= c < 256 && 0 <= t < 256 && !done[t] && Scanning(b, k, c, done, g, p, cs, src, dst, cs[c])
    requires v < |b| == |k| && k[v] == 256 * t + c && Leans(b, g.rev, c, Succ(v, |b|))
    ensures |g.lo| == 256 && 0 <= g.lo[t] <= y < cs[t] <= |p| && p[y] == v
  {
    hide Known, Base, Filled, Laid, Le, Edge;
    ScanningParts(b, k, c, done, g, p, cs, src, dst, cs[c]);
    LaidParts(b, k, c, g);
    var m: nat :| Edge(b, g.rev, c, Succ(v, |b|), m);
    SuccPred(v, |b|);
    FirstByte(b, v, t, c);
    var x := AllKnown(b, k, c, done, g, p, cs, src, dst, Succ(v, |b|), m);
    assert CopiedOne(b, done, g, p, cs, dst, x);
    y := dst[x];
  }
}

/** mainQSort3: three-way quicksort by one byte at a time, with an explicit stack of segments and the
    depth to which each of them agrees. */
module MainQSort {
  import opened Powers
  import opened Rotations
  import opened Segments
  import opened Partitioning
  import opened MainCompare
  import opened MainSimpleSort

  const SMALL_THRESH: int := 20
  const DEPTH_THRESH: int := 14  // N_RADIX + N_QSORT
  const STACK_SIZE: int := 100

  // ---------- how deep the stack gets ----------

  /** Sizes fall along the stack, and every segment but the last is at least as big as all those
      beyond the next together. */
  ghost predicate Tapered(stack: seq<Range>) {
    |stack| >= 2 ==>
      && Size(stack[0]) >= Size(stack[1]) && Size(stack[0]) >= Total(stack[2..])
      && (|stack| >= 3 ==> Size(stack[0]) >= 1) && Tapered(stack[1..])
  }

  lemma {:induction false} TaperedDepth(stack: seq<Range>)
    requires Tapered(stack) && |stack| >= 3
    ensures Total(stack) >= Pow2((|stack| - 3) / 2)
    decreases |stack|
  {
    assert Total(stack) == Size(stack[0]) + Total(stack[1..]);
    if |stack| >= 5 {
      assert stack[1..][1..] == stack[2..];
      assert Total(stack[1..]) == Size(stack[1]) + Total(stack[2..]);
      assert stack[1..][2..] == stack[3..];
      assert Tapered(stack[1..]) && Tapered(stack[2..]);
      TaperedDepth(stack[2..]);
      assert (|stack| - 3) / 2 == (|stack[2..]| - 3) / 2 + 1;
    }
  }

  /** A tapered stack over fewer than 2^31 entries stays far from the limit of 98. */
  lemma TaperedBound(stack: seq<Range>)
    requires Tapered(stack) && Total(stack) < 0x8000_0000
    ensures |stack| <= 66
  {
    if |stack| >= 3 {
      TaperedDepth(stack);
      if |stack| > 66 {
        Pow2Mono(31, (|stack| - 3) / 2);
        Pow2Values();
      }
    }
  }

  lemma {:induction false} TaperedPop(stack: seq<Range>, top: Range)
    requires Tapered(stack + [top])
    ensures Tapered(stack)
    decreases |stack|
  {
    var all := stack + [top];
    if |stack| >= 2 {
      assert all[1..] == stack[1..] + [top];
      assert all[2..] == stack[2..] + [top];
      TotalPush(stack[2..], top);
      TaperedPop(stack[1..], top);
    }
  }

  /** The top segment gives way to three parts of it, biggest first. */
  lemma {:induction false} TaperedSplit(stack: seq<Range>, top: Range, p: Range, q: Range, r: Range)
    requires Tapered(stack + [top]) && Size(p) >= Size(q) >= Size(r) && Size(p) >= 1
    requires Size(p) + Size(q) + Size(r) == Size(top)
    ensures Tapered(stack + [p, q, r])
    ensures Total(stack + [p, q, r]) == Total(stack + [top])
    decreases |stack|
  {
    hide Size;
    var old_, new_ := stack + [top], stack + [p, q, r];
    if stack == [] {
      TaperedThree(p, q, r);
      assert [top][1..] == [];
      assert old_ == [top] && new_ == [p, q, r];
    } else {
      assert old_[1..] == stack[1..] + [top] && new_[1..] == stack[1..] + [p, q, r];
      TaperedSplit(stack[1..], top, p, q, r);
      if |stack| == 1 {
        assert stack[1..] == [];
        TotalThree(p, q, r);
        assert old_ == [stack[0], top] && new_ == [stack[0], p, q, r];
        assert new_[2..] == [q, r];
      } else {
        assert old_[2..] == stack[2..] + [top] && new_[2..] == stack[2..] + [p, q, r];
        TaperedSplitTotal(stack[2..], top, p, q, r);
      }
    }
  }

  lemma TaperedThree(p: Range, q: Range, r: Range)
    requires Size(p) >= Size(q) >= Size(r) && Size(p) >= 1
    ensures Tapered([p, q, r]) && Total([p, q, r]) == Size(p) + Size(q) + Size(r)
  {
    hide Size;
    TotalThree(p, q, r);
    assert [p, q, r][1..] == [q, r] && [p, q, r][2..] == [r] && [q, r][1..] == [r] && [q, r][2..] == [];
    assert Total([]) == 0;
    assert [q, r][0] == q && [q, r][1] == r && [p, q, r][0] == p && [p, q, r][1] == q;
    assert Tapered([r]);
    assert Tapered([q, r]);
  }

  lemma TotalThree(p: Range, q: Range, r: Range)
    ensures Total([p, q, r]) == Size(p) + Size(q) + Size(r) && Total([q, r]) == Size(q) + Size(r) && Total([r]) == Size(r)
  {
    assert [p, q, r][1..] == [q, r] && [q, r][1..] == [r] && [r][1..] == [];
    hide Size;
    assert Total([r]) == Size(r) + Total([]);
    assert Total([q, r]) == Size(q) + Total([r]);
    assert Total([p, q, r]) == Size(p) + Total([q, r]);
  }

  lemma {:induction false} TaperedSplitTotal(stack: seq<Range>, top: Range, p: Range, q: Range, r: Range)
    requires Size(p) + Size(q) + Size(r) == Size(top)
    ensures Total(stack + [p, q, r]) == Total(stack + [top])
  {
    if stack == [] {
      TotalThree(p, q, r);
      assert stack + [p, q, r] == [p, q, r] && stack + [top] == [top] && [top][1..] == [];
    } else {
      assert (stack + [p, q, r])[1..] == stack[1..] + [p, q, r] && (stack + [top])[1..] == stack[1..] + [top];
      TaperedSplitTotal(stack[1..], top, p, q, r);
    }
  }

  // ---------- work left ----------

  /** Segment sizes weighted by how many more bytes they may be split on. */
  ghost function Work(stack: seq<Range>, ds: seq<nat>): nat
    requires |ds| == |stack| && forall i :: 0 <= i < |ds| ==> ds[i] <= DEPTH_MAX
  {
    if stack == [] then 0 else Work(stack[..|stack| - 1], ds[..|ds| - 1]) + Weight(Size(stack[|stack| - 1]), ds[|ds| - 1])
  }

  ghost function Weight(size: nat, d: nat): nat
    requires d <= DEPTH_MAX
  {
    size * (16 - d)
  }

  lemma WorkPush(stack: seq<Range>, ds: seq<nat>, r: Range, d: nat)
    requires |ds| == |stack| && d <= DEPTH_MAX && forall i :: 0 <= i < |ds| ==> ds[i] <= DEPTH_MAX
    ensures Work(stack + [r], ds + [d]) == Work(stack, ds) + Weight(Size(r), d)
  {
    hide Size, Weight;
    assert (stack + [r])[..|stack|] == stack && (ds + [d])[..|ds|] == ds;
  }

  /** Splitting a segment and going one byte deeper in its middle leaves less to do. */
  lemma WeightSplit(a: nat, e: nat, c: nat, d: nat)
    requires d < DEPTH_MAX && e > 0
    ensures Weight(a, d) + Weight(e, d + 1) + Weight(c, d) < Weight(a + e + c, d)
  {
    var w := 16 - d;
    assert (a + e + c) * w == a * w + e * w + c * w;
    assert e * (w - 1) == e * w - e;
  }

  // ---------- the segments on the stack ----------

  ghost predicate StackAgree(b: seq<byte>, s: seq<int>, stack: seq<Range>, ds: seq<nat>) {
    |ds| == |stack| && (forall i :: 0 <= i < |ds| ==> ds[i] <= DEPTH_MAX)
    && forall i :: 0 <= i < |stack| ==> Agree(b, s, stack[i].lo, stack[i].hi, ds[i])
  }

  /** Everything the loop keeps. */
  ghost predicate State(b: seq<byte>, s0: seq<int>, s: seq<int>, lo: int, hi: int, stack: seq<Range>, ds: seq<nat>) {
    && Shuffled(s0, s, lo, hi) && SortedBut(ByRotation(b), s, lo, hi, stack) && Apart(stack, lo, hi)
    && Tapered(stack) && Total(stack) <= hi - lo + 1 && StackAgree(b, s, stack, ds)
  }

  /** Segments other than the one rearranged keep their entries. */
  lemma OthersAgree(b: seq<byte>, s: seq<int>, t: seq<int>, stack: seq<Range>, ds: seq<nat>, top: Range, d: nat, lo: int, hi: int)
    requires StackAgree(b, s, stack + [top], ds + [d]) && |ds| == |stack| && Apart(stack + [top], lo, hi) && Shuffled(s, t, top.lo, top.hi)
    ensures StackAgree(b, t, stack, ds)
  {
    forall i | 0 <= i < |stack| ensures Agree(b, t, stack[i].lo, stack[i].hi, ds[i]) && ds[i] <= DEPTH_MAX {
      assert (stack + [top])[i] == stack[i] && (ds + [d])[i] == ds[i];
      assert (stack + [top])[|stack|] == top;
      assert Disjoint(stack[i], top);
      forall x | stack[i].lo <= x <= stack[i].hi ensures t[x] == s[x] {
        assert Inside(stack[i], x);
        assert !Inside(top, x);
      }
    }
  }

  lemma SmallerByte(b: seq<byte>, blk: seq<int>, u: nat, v: nat, d: nat)
    requires Extended(b, blk) && u < |b| && v < |b| && d <= DEPTH_MAX && Cmp(b, u, v, d) == 0 && blk[u + d] < blk[v + d]
    ensures ByRotation(b)(u, v)
  {
    CmpSplit(b, u, v, d, |b| - d);
  }

  lemma SameByte(b: seq<byte>, blk: seq<int>, u: nat, v: nat, d: nat)
    requires Extended(b, blk) && u < |b| && v < |b| && d <= DEPTH_MAX && Cmp(b, u, v, d) == 0 && blk[u + d] == blk[v + d]
    ensures Cmp(b, u, v, d + 1) == 0
  {
    CmpSplit(b, u, v, d, 1);
    assert Cmp(b, u + d + 1, v + d + 1, 0) == 0;
  }

  ghost predicate Parts(parts: seq<Range>, lo: int, n: int, m: int, hi: int) {
    && |parts| == 3 && (forall i :: 0 <= i < 3 ==> parts[i] == Range(lo, n) || parts[i] == Range(n + 1, m - 1) || parts[i] == Range(m, hi))
    && Range(lo, n) in parts && Range(n + 1, m - 1) in parts && Range(m, hi) in parts
  }

  /** Only pairs inside one of the three parts can be out of order. */
  lemma SplitThree(le: (int, int) -> bool, key: int -> int, s: seq<int>, med: int, lo: int, n: int, m: int, hi: int, parts: seq<Range>)
    requires Split(key, s, med, lo, n, m, hi) && Parts(parts, lo, n, m, hi)
    requires forall x, y :: lo <= x <= hi && lo <= y <= hi && key(s[x]) < key(s[y]) ==> le(s[x], s[y])
    ensures SortedBut(le, s, lo, hi, parts)
  {
    forall x, y | lo <= x < y <= hi && !Pending(parts, x, y) ensures le(s[x], s[y]) {
      NotTogether(parts, Range(lo, n), x, y);
      NotTogether(parts, Range(n + 1, m - 1), x, y);
      NotTogether(parts, Range(m, hi), x, y);
      assert key(s[x]) < key(s[y]);
    }
  }

  lemma NotTogether(parts: seq<Range>, r: Range, x: int, y: int)
    requires r in parts && !Pending(parts, x, y)
    ensures !(Inside(r, x) && Inside(r, y))
  {
    var i :| 0 <= i < |parts| && parts[i] == r;
    PendingMemberIf(parts, i, x, y);
  }

  lemma PartsApart(p: Range, q: Range, r: Range, lo: int, n: int, m: int, hi: int)
    requires Parts([p, q, r], lo, n, m, hi) && lo <= n + 1 <= m <= hi + 1 && n + 1 < m
    ensures Apart([p, q, r], lo, hi)
    ensures Size(p) + Size(q) + Size(r) == hi - lo + 1
  {
    var parts := [p, q, r];
    assert parts[0] == p && parts[1] == q && parts[2] == r;
    assert Distinct(p, q, r, Range(lo, n), Range(n + 1, m - 1), Range(m, hi));
  }

  /** p, q and r are x, y and z in some order. */
  ghost predicate Distinct(p: Range, q: Range, r: Range, x: Range, y: Range, z: Range) {
    || (p == x && q == y && r == z) || (p == x && q == z && r == y) || (p == y && q == x && r == z)
    || (p == y && q == z && r == x) || (p == z && q == x && r == y) || (p == z && q == y && r == x)
  }

  lemma PartAgree(b: seq<byte>, blk: seq<int>, t: seq<int>, med: int, lo: int, n: int, m: int, hi: int, d: nat)
    requires Extended(b, blk) && d < DEPTH_MAX && Agree(b, t, lo, hi, d) && Split(KeyAt(blk, d), t, med, lo, n, m, hi)
    ensures Agree(b, t, lo, n, d) && Agree(b, t, m, hi, d) && Agree(b, t, n + 1, m - 1, d + 1)
  {
    forall x, y | n + 1 <= x <= m - 1 && n + 1 <= y <= m - 1 ensures Cmp(b, t[x], t[y], d + 1) == 0 {
      assert KeyAt(blk, d)(t[x]) == med && KeyAt(blk, d)(t[y]) == med;
      SameByte(b, blk, t[x], t[y], d);
    }
  }

  lemma KeysOrder(b: seq<byte>, blk: seq<int>, t: seq<int>, lo: int, hi: int, d: nat)
    requires Extended(b, blk) && d <= DEPTH_MAX && Agree(b, t, lo, hi, d)
    ensures forall x, y :: lo <= x <= hi && lo <= y <= hi && KeyAt(blk, d)(t[x]) < KeyAt(blk, d)(t[y]) ==> ByRotation(b)(t[x], t[y])
  {
    forall x, y | lo <= x <= hi && lo <= y <= hi && KeyAt(blk, d)(t[x]) < KeyAt(blk, d)(t[y]) ensures ByRotation(b)(t[x], t[y]) {
      SmallerByte(b, blk, t[x], t[y], d);
    }
  }

  /** Segments, sorted so that the biggest comes first, each with its own depth. */
  datatype Seg = Seg(lo: int, hi: int, d: nat)

  function Span(g: Seg): Range { Range(g.lo, g.hi) }

  ghost predicate Ordered3(g: Seg, h: Seg, k: Seg, x: Seg, y: Seg, z: Seg) {
    || (g == x && h == y && k == z) || (g == x && h == z && k == y) || (g == y && h == x && k == z)
    || (g == y && h == z && k == x) || (g == z && h == x && k == y) || (g == z && h == y && k == x)
  }

  /** The three conditional swaps. */
  method BiggestFirst(x: Seg, y: Seg, z: Seg) returns (g: Seg, h: Seg, k: Seg)
    ensures Ordered3(g, h, k, x, y, z)
    ensures g.hi - g.lo >= h.hi - h.lo >= k.hi - k.lo
  {
    g, h, k := x, y, z;
    if g.hi - g.lo < h.hi - h.lo { g, h := h, g; }
    if h.hi - h.lo < k.hi - k.lo { h, k := k, h; }
    if g.hi - g.lo < h.hi - h.lo { g, h := h, g; }
  }

  /** The top segment is sorted. */
  lemma StepSorted(b: seq<byte>, s0: seq<int>, s: seq<int>, t: seq<int>, lo: int, hi: int, stack: seq<Range>, ds: seq<nat>, top: Range, d: nat)
    requires State(b, s0, s, lo, hi, stack + [top], ds + [d]) && |ds| == |stack|
    requires Shuffled(s, t, top.lo, top.hi) && SortedIn(ByRotation(b), t, top.lo, top.hi)
    ensures State(b, s0, t, lo, hi, stack, ds) && d <= DEPTH_MAX
    ensures Work(stack, ds) <= Work(stack + [top], ds + [d])
  {
    hide *;
    StateParts(b, s0, s, lo, hi, stack + [top], ds + [d]);
    TopDepth(b, s, stack, ds, top, d);
    TopIn(stack, top, lo, hi);
    PopSorted(ByRotation(b), s, t, lo, hi, stack, top);
    OthersAgree(b, s, t, stack, ds, top, d, lo, hi);
    TaperedPop(stack, top);
    TotalPush(stack, top);
    WorkPush(stack, ds, top, d);
    ShuffledTrans(s0, s, t, lo, hi, top.lo, top.hi);
    MakeState(b, s0, t, lo, hi, stack, ds);
  }

  lemma StateParts(b: seq<byte>, s0: seq<int>, s: seq<int>, lo: int, hi: int, stack: seq<Range>, ds: seq<nat>)
    requires State(b, s0, s, lo, hi, stack, ds)
    ensures Shuffled(s0, s, lo, hi) && SortedBut(ByRotation(b), s, lo, hi, stack) && Apart(stack, lo, hi)
    ensures Tapered(stack) && Total(stack) <= hi - lo + 1 && StackAgree(b, s, stack, ds)
    ensures |ds| == |stack| && (forall i :: 0 <= i < |ds| ==> ds[i] <= DEPTH_MAX)
  {
    hide Shuffled, SortedBut, Apart, Tapered, Total, Agree;
  }

  lemma MakeState(b: seq<byte>, s0: seq<int>, s: seq<int>, lo: int, hi: int, stack: seq<Range>, ds: seq<nat>)
    requires Shuffled(s0, s, lo, hi) && SortedBut(ByRotation(b), s, lo, hi, stack) && Apart(stack, lo, hi)
    requires Tapered(stack) && Total(stack) <= hi - lo + 1 && StackAgree(b, s, stack, ds)
    ensures State(b, s0, s, lo, hi, stack, ds)
  {
    hide Shuffled, SortedBut, Apart, Tapered, Total, StackAgree;
  }

  lemma TopDepth(b: seq<byte>, s: seq<int>, stack: seq<Range>, ds: seq<nat>, top: Range, d: nat)
    requires StackAgree(b, s, stack + [top], ds + [d]) && |ds| == |stack|
    ensures d <= DEPTH_MAX && Agree(b, s, top.lo, top.hi, d) && forall i :: 0 <= i < |ds| ==> ds[i] <= DEPTH_MAX
  {
    hide Agree;
    assert (stack + [top])[|stack|] == top && (ds + [d])[|stack|] == d;
    forall i | 0 <= i < |ds| ensures ds[i] <= DEPTH_MAX { assert (ds + [d])[i] == ds[i]; }
  }

  lemma TopIn(stack: seq<Range>, top: Range, lo: int, hi: int)
    requires Apart(stack + [top], lo, hi)
    ensures lo <= top.lo <= top.hi + 1 <= hi + 1
  {
    assert (stack + [top])[|stack|] == top;
  }

  lemma PushAgree(b: seq<byte>, s: seq<int>, stack: seq<Range>, ds: seq<nat>, r: Range, d: nat)
    requires StackAgree(b, s, stack, ds) && Agree(b, s, r.lo, r.hi, d) && d <= DEPTH_MAX
    ensures StackAgree(b, s, stack + [r], ds + [d])
  {
    hide Agree;
  }

  /** Every rotation of the top segment has the same byte d places on: try the next byte. */
  lemma StepDeeper(b: seq<byte>, blk: seq<int>, s0: seq<int>, s: seq<int>, t: seq<int>, lo: int, hi: int, stack: seq<Range>, ds: seq<nat>, top: Range, d: nat, med: int)
    requires State(b, s0, s, lo, hi, stack + [top], ds + [d]) && |ds| == |stack| && Extended(b, blk) && d < DEPTH_MAX && 0 <= top.lo <= top.hi < |t|
    requires Shuffled(s, t, top.lo, top.hi) && forall x :: top.lo <= x <= top.hi ==> KeyAt(blk, d)(t[x]) == med
    ensures State(b, s0, t, lo, hi, stack + [top], ds + [d + 1])
    ensures forall i :: 0 <= i < |ds| ==> ds[i] <= DEPTH_MAX
    ensures Work(stack + [top], ds + [d + 1]) < Work(stack + [top], ds + [d])
  {
    hide *;
    StateParts(b, s0, s, lo, hi, stack + [top], ds + [d]);
    TopDepth(b, s, stack, ds, top, d);
    TopIn(stack, top, lo, hi);
    ShuffledAgree(b, s, t, top.lo, top.hi, d);
    DeeperAgree(b, blk, t, top.lo, top.hi, d, med);
    OnlyTop(b, t, top);
    PopSplit(ByRotation(b), s, t, lo, hi, stack, top, [top]);
    OthersAgree(b, s, t, stack, ds, top, d, lo, hi);
    DepthLimit();
    PushAgree(b, t, stack, ds, top, d + 1);
    WorkPush(stack, ds, top, d);
    WorkPush(stack, ds, top, d + 1);
    WeightDeeper(top, d);
    ShuffledTrans(s0, s, t, lo, hi, top.lo, top.hi);
    MakeState(b, s0, t, lo, hi, stack + [top], ds + [d + 1]);
  }

  lemma DepthLimit()
    ensures DEPTH_MAX == 15
  {
  }

  lemma WeightDeeper(top: Range, d: nat)
    requires d < DEPTH_MAX && top.lo <= top.hi
    ensures Weight(Size(top), d + 1) < Weight(Size(top), d)
  {
    WeightSplit(0, Size(top), 0, d);
  }

  lemma DeeperAgree(b: seq<byte>, blk: seq<int>, t: seq<int>, lo: int, hi: int, d: nat, med: int)
    requires Extended(b, blk) && d < DEPTH_MAX && Agree(b, t, lo, hi, d) && forall x :: lo <= x <= hi ==> KeyAt(blk, d)(t[x]) == med
    ensures Agree(b, t, lo, hi, d + 1)
  {
    forall x, y | lo <= x <= hi && lo <= y <= hi ensures Cmp(b, t[x], t[y], d + 1) == 0 {
      assert KeyAt(blk, d)(t[x]) == med && KeyAt(blk, d)(t[y]) == med;
      SameByte(b, blk, t[x], t[y], d);
    }
  }

  lemma OnlyTop(b: seq<byte>, t: seq<int>, top: Range)
    requires 0 <= top.lo <= top.hi < |t|
    ensures SortedBut(ByRotation(b), t, top.lo, top.hi, [top]) && Apart([top], top.lo, top.hi)
  {
    forall x, y | top.lo <= x < y <= top.hi ensures Pending([top], x, y) {
      PendingMember([top], 0, x, y);
    }
  }

  /** The top segment gives way to its three parts. */
  lemma StepSplit(b: seq<byte>, blk: seq<int>, s0: seq<int>, s: seq<int>, t: seq<int>, lo: int, hi: int, stack: seq<Range>, ds: seq<nat>, top: Range, d: nat,
                  med: int, n: int, m: int, g: Seg, h: Seg, k: Seg)
    requires State(b, s0, s, lo, hi, stack + [top], ds + [d]) && |ds| == |stack| && Extended(b, blk) && d < DEPTH_MAX && top.lo <= top.hi
    requires Shuffled(s, t, top.lo, top.hi) && Split(KeyAt(blk, d), t, med, top.lo, n, m, top.hi) && n + 1 < m
    requires Ordered3(g, h, k, Seg(top.lo, n, d), Seg(m, top.hi, d), Seg(n + 1, m - 1, d + 1)) && g.hi - g.lo >= h.hi - h.lo >= k.hi - k.lo
    ensures State(b, s0, t, lo, hi, stack + [Span(g), Span(h), Span(k)], ds + [g.d, h.d, k.d])
    ensures (forall i :: 0 <= i < |ds| ==> ds[i] <= DEPTH_MAX) && g.d <= DEPTH_MAX && h.d <= DEPTH_MAX && k.d <= DEPTH_MAX
    ensures Work(stack + [Span(g), Span(h), Span(k)], ds + [g.d, h.d, k.d]) < Work(stack + [top], ds + [d])
  {
    hide *;
    var p, q, r := Span(g), Span(h), Span(k);
    StateParts(b, s0, s, lo, hi, stack + [top], ds + [d]);
    TopDepth(b, s, stack, ds, top, d);
    TopIn(stack, top, lo, hi);
    ShuffledAgree(b, s, t, top.lo, top.hi, d);
    PartAgree(b, blk, t, med, top.lo, n, m, top.hi, d);
    KeysOrder(b, blk, t, top.lo, top.hi, d);
    SplitRange(KeyAt(blk, d), t, med, top.lo, n, m, top.hi);
    ThreeParts(b, t, g, h, k, top.lo, n, m, top.hi, d);
    SplitThree(ByRotation(b), KeyAt(blk, d), t, med, top.lo, n, m, top.hi, [p, q, r]);
    PartsApart(p, q, r, top.lo, n, m, top.hi);
    PopSplit(ByRotation(b), s, t, lo, hi, stack, top, [p, q, r]);
    TaperedSplit(stack, top, p, q, r);
    OthersAgree(b, s, t, stack, ds, top, d, lo, hi);
    PushThree(b, t, stack, ds, g, h, k);
    WorkPush(stack, ds, top, d);
    ShuffledTrans(s0, s, t, lo, hi, top.lo, top.hi);
    MakeState(b, s0, t, lo, hi, stack + [p, q, r], ds + [g.d, h.d, k.d]);
  }

  lemma SplitRange(key: int -> int, s: seq<int>, med: int, lo: int, n: int, m: int, hi: int)
    requires Split(key, s, med, lo, n, m, hi)
    ensures 0 <= lo <= n + 1 <= m <= hi + 1 <= |s|
  {
  }

  /** What the three parts are, whatever their order: depths, sizes and weights. */
  lemma ThreeParts(b: seq<byte>, t: seq<int>, g: Seg, h: Seg, k: Seg, lo: int, n: int, m: int, hi: int, d: nat)
    requires Ordered3(g, h, k, Seg(lo, n, d), Seg(m, hi, d), Seg(n + 1, m - 1, d + 1)) && g.hi - g.lo >= h.hi - h.lo >= k.hi - k.lo
    requires 0 <= lo <= n + 1 < m <= hi + 1 && d < DEPTH_MAX
    requires Agree(b, t, lo, n, d) && Agree(b, t, m, hi, d) && Agree(b, t, n + 1, m - 1, d + 1)
    ensures Parts([Span(g), Span(h), Span(k)], lo, n, m, hi)
    ensures Agree(b, t, g.lo, g.hi, g.d) && Agree(b, t, h.lo, h.hi, h.d) && Agree(b, t, k.lo, k.hi, k.d)
    ensures g.d <= DEPTH_MAX && h.d <= DEPTH_MAX && k.d <= DEPTH_MAX
    ensures Size(Span(g)) >= Size(Span(h)) >= Size(Span(k)) && Size(Span(g)) >= 1
    ensures Size(Span(g)) + Size(Span(h)) + Size(Span(k)) == Size(Range(lo, hi))
    ensures Weight(Size(Span(g)), g.d) + Weight(Size(Span(h)), h.d) + Weight(Size(Span(k)), k.d) < Weight(Size(Range(lo, hi)), d)
  {
    hide Agree, Weight;
    var a, e, c := Size(Range(lo, n)), Size(Range(n + 1, m - 1)), Size(Range(m, hi));
    WeightSplit(a, e, c, d);
    var parts := [Span(g), Span(h), Span(k)];
    assert parts[0] == Span(g) && parts[1] == Span(h) && parts[2] == Span(k);
  }

  lemma PushThree(b: seq<byte>, t: seq<int>, stack: seq<Range>, ds: seq<nat>, g: Seg, h: Seg, k: Seg)
    requires StackAgree(b, t, stack, ds) && |ds| == |stack| && (forall i :: 0 <= i < |ds| ==> ds[i] <= DEPTH_MAX)
    requires Agree(b, t, g.lo, g.hi, g.d) && Agree(b, t, h.lo, h.hi, h.d) && Agree(b, t, k.lo, k.hi, k.d)
    requires g.d <= DEPTH_MAX && h.d <= DEPTH_MAX && k.d <= DEPTH_MAX
    ensures StackAgree(b, t, stack + [Span(g), Span(h), Span(k)], ds + [g.d, h.d, k.d])
    ensures Work(stack + [Span(g), Span(h), Span(k)], ds + [g.d, h.d, k.d])
            == Work(stack, ds) + Weight(Size(Span(g)), g.d) + Weight(Size(Span(h)), h.d) + Weight(Size(Span(k)), k.d)
  {
    hide Agree, Weight, Work, Size, StackAgree;
    var p, q, r := Span(g), Span(h), Span(k);
    PushAgree(b, t, stack, ds, p, g.d);
    PushAgree(b, t, stack + [p], ds + [g.d], q, h.d);
    PushAgree(b, t, stack + [p] + [q], ds + [g.d] + [h.d], r, k.d);
    WorkPush(stack, ds, p, g.d);
    WorkPush(stack + [p], ds + [g.d], q, h.d);
    WorkPush(stack + [p] + [q], ds + [g.d] + [h.d], r, k.d);
    assert stack + [p] + [q] + [r] == stack + [p, q, r];
    assert ds + [g.d] + [h.d] + [k.d] == ds + [g.d, h.d, k.d];
  }

  // ---------- the sort ----------

  function Med3(a0: int, b0: int, c: int): (m: int)
    ensures m == a0 || m == b0 || m == c
  {
    var a, b := if a0 > b0 then b0 else a0, if a0 > b0 then a0 else b0;
    if b > c then (if a > c then a else c) else b
  }

  method MainQSort3(ptr: array<int>, block: array<int>, quadrant: array<int>, nblock: nat, loSt: int, hiSt: int, dSt: nat, budget0: int, ghost b: seq<byte>)
    returns (budget: int)
    requires ptr != block && ptr != quadrant && Extended(b, block[..]) && Quadrants(b, quadrant[..]) && nblock == |b|
    requires Agree(b, ptr[..], loSt, hiSt, dSt) && dSt <= DEPTH_MAX && 0 <= loSt <= hiSt < ptr.Length < 2391484
    modifies ptr
    ensures budget <= budget0 && Shuffled(old(ptr[..]), ptr[..], loSt, hiSt)
    ensures budget >= 0 ==> SortedIn(ByRotation(b), ptr[..], loSt, hiSt)
  {
    hide *;
    Limits();
    ghost var s, blk, q := ptr[..], block[..], quadrant[..];
    var stack: seq<Range>, stackD: seq<nat> := [Range(loSt, hiSt)], [dSt];
    budget := budget0;
    StateStart(b, s, loSt, hiSt, dSt);
    while |stack| > 0
      invariant block[..] == blk && quadrant[..] == q && budget <= budget0
      invariant State(b, s, ptr[..], loSt, hiSt, stack, stackD)
      invariant |stackD| == |stack| && forall i :: 0 <= i < |stackD| ==> stackD[i] <= DEPTH_MAX
      decreases Work(stack, stackD), |stack|
    {
      StateParts(b, s, ptr[..], loSt, hiSt, stack, stackD);
      TaperedBound(stack);
      assert |stack| < STACK_SIZE - 2;  // assertion 1001 of the source
      ghost var s1, was, wasD := ptr[..], stack, stackD;
      var top, d := stack[|stack| - 1], stackD[|stack| - 1];
      stack, stackD := stack[..|stack| - 1], stackD[..|stack| - 1];
      assert was == stack + [top] && wasD == stackD + [d];
      TopDepth(b, s1, stack, stackD, top, d);
      TopIn(stack, top, loSt, hiSt);
      if top.hi - top.lo < SMALL_THRESH || d > DEPTH_THRESH {
        budget := MainSimpleSort.MainSimpleSort(ptr, block, quadrant, nblock, top.lo, top.hi, d, budget, b);
        if budget < 0 {
          ShuffledTrans(s, s1, ptr[..], loSt, hiSt, top.lo, top.hi);
          return;
        }
        StepSorted(b, s, s1, ptr[..], loSt, hiSt, stack, stackD, top, d);
      } else {
        stack, stackD := SplitTop(ptr, block, quadrant, loSt, hiSt, stack, stackD, top, d, b, s);
      }
    }
    StateDone(b, s, ptr[..], loSt, hiSt, stack, stackD);
  }

  lemma Limits()
    ensures STACK_SIZE == 100 && DEPTH_MAX == 15 && DEPTH_THRESH == 14 && SMALL_THRESH == 20
  {
  }

  lemma StateStart(b: seq<byte>, s: seq<int>, lo: int, hi: int, d: nat)
    requires Agree(b, s, lo, hi, d) && d <= DEPTH_MAX && 0 <= lo <= hi < |s|
    ensures State(b, s, s, lo, hi, [Range(lo, hi)], [d])
  {
    hide Agree, ByRotation;
    forall x, y | lo <= x < y <= hi ensures Pending([Range(lo, hi)], x, y) {
      PendingMember([Range(lo, hi)], 0, x, y);
    }
    assert [Range(lo, hi)][1..] == [];
    assert Total([Range(lo, hi)]) == Size(Range(lo, hi)) + Total([]);
  }

  lemma StateDone(b: seq<byte>, s0: seq<int>, s: seq<int>, lo: int, hi: int, stack: seq<Range>, ds: seq<nat>)
    requires State(b, s0, s, lo, hi, stack, ds) && stack == []
    ensures Shuffled(s0, s, lo, hi) && SortedIn(ByRotation(b), s, lo, hi)
  {
    hide Shuffled, ByRotation;
  }

  lemma MedIn(blk: seq<int>, s: seq<int>, d: nat, lo: int, mid: int, hi: int, med: int) returns (x: int)
    requires 0 <= lo <= mid <= hi < |s| && 0 <= s[lo] + d < |blk| && 0 <= s[hi] + d < |blk| && 0 <= s[mid] + d < |blk|
    requires med == Med3(blk[s[lo] + d], blk[s[hi] + d], blk[s[mid] + d])
    ensures lo <= x <= hi && 0 <= s[x] + d < |blk| && blk[s[x] + d] == med
  {
    x := if blk[s[lo] + d] == med then lo else if blk[s[hi] + d] == med then hi else mid;
  }

  lemma AgreeValued(b: seq<byte>, blk: seq<int>, s: seq<int>, lo: int, hi: int, d: nat)
    requires Agree(b, s, lo, hi, d) && Extended(b, blk) && d <= DEPTH_MAX
    ensures Valued(s, lo, hi, |blk| - d) && Valued(s, lo, hi, |blk|) && |blk| > d
    ensures 0 <= lo && hi < |s| && forall x :: lo <= x <= hi ==> 0 <= s[x] && s[x] + d < |blk|
  {
  }

  /** One partitioning step of the loop: deeper, or three parts. */
  method SplitTop(ptr: array<int>, block: array<int>, quadrant: array<int>, loSt: int, hiSt: int, stack0: seq<Range>, stackD0: seq<nat>, top: Range, d: nat, ghost b: seq<byte>, ghost s: seq<int>)
    returns (stack: seq<Range>, stackD: seq<nat>)
    requires ptr != block && ptr != quadrant && Extended(b, block[..]) && |stackD0| == |stack0| && d < DEPTH_MAX && top.lo < top.hi
    requires State(b, s, ptr[..], loSt, hiSt, stack0 + [top], stackD0 + [d]) && (forall i :: 0 <= i < |stackD0| ==> stackD0[i] <= DEPTH_MAX)
    requires DEPTH_MAX == 15
    modifies ptr
    ensures State(b, s, ptr[..], loSt, hiSt, stack, stackD)
    ensures |stackD| == |stack| && forall i :: 0 <= i < |stackD| ==> stackD[i] <= DEPTH_MAX
    ensures Work(stack, stackD) < Work(stack0 + [top], stackD0 + [d])
  {
    hide *;
    ghost var s1, blk := ptr[..], block[..];
    StateParts(b, s, s1, loSt, hiSt, stack0 + [top], stackD0 + [d]);
    TopDepth(b, s1, stack0, stackD0, top, d);
    AgreeValued(b, blk, s1, top.lo, top.hi, d);
    var lo, hi, mid := top.lo, top.hi, (top.lo + top.hi) / 2;
    var med := Med3(block[ptr[lo] + d], block[ptr[hi] + d], block[ptr[mid] + d]);
    ghost var x := MedIn(blk, s1, d, lo, mid, hi, med);
    var split, n, m := Partition(ptr, block, d, lo, hi, med);
    if !split {
      StepDeeper(b, blk, s, s1, ptr[..], loSt, hiSt, stack0, stackD0, top, d, med);
      return stack0 + [top], stackD0 + [d + 1];
    }
    MiddleNonEmpty(blk, d, s1, ptr[..], x, lo, n, m, hi);
    var g, h, k := BiggestFirst(Seg(lo, n, d), Seg(m, hi, d), Seg(n + 1, m - 1, d + 1));
    StepSplit(b, blk, s, s1, ptr[..], loSt, hiSt, stack0, stackD0, top, d, med, n, m, g, h, k);
    stack, stackD := stack0 + [Span(g), Span(h), Span(k)], stackD0 + [g.d, h.d, k.d];
  }
}

/** Rearranging a segment of a sequence, and order up to the intervals still on a quicksort stack. */
module Segments {
  import opened Powers

  /** b is a with the entries lo..hi permuted and everything else in place. */
  ghost predicate Shuffled(a: seq<int>, b: seq<int>, lo: int, hi: int) {
    && |a| == |b|
    && (forall x :: 0 <= x < |a| && !(lo <= x <= hi) ==> b[x] == a[x])
    && multiset(a) == multiset(b)
  }

  lemma ShuffledRefl(a: seq<int>, lo: int, hi: int)
    ensures Shuffled(a, a, lo, hi)
  {
  }

  lemma ShuffledTrans(a: seq<int>, b: seq<int>, c: seq<int>, lo: int, hi: int, lo': int, hi': int)
    requires Shuffled(a, b, lo, hi) && Shuffled(b, c, lo', hi') && lo <= lo' && hi' <= hi
    ensures Shuffled(a, c, lo, hi)
  {
  }

  lemma SwapShuffled(a: seq<int>, i: int, j: int, lo: int, hi: int)
    requires 0 <= lo <= i <= hi < |a| && lo <= j <= hi
    ensures Shuffled(a, a[i := a[j]][j := a[i]], lo, hi)
  {
    var c := a[i := a[j]];
    assert c[j] == a[j];
    assert multiset(c) == multiset(a) - multiset{a[i]} + multiset{a[j]};
    assert a[i] in multiset(a);
  }

  lemma MultisetSplit(a: seq<int>, lo: nat, hi: nat)
    requires lo <= hi <= |a|
    ensures multiset(a) == multiset(a[..lo]) + multiset(a[lo..hi]) + multiset(a[hi..])
  {
    assert a == a[..lo] + a[lo..hi] + a[hi..];
  }

  lemma Cancel(p: multiset<int>, a: multiset<int>, b: multiset<int>, q: multiset<int>)
    requires p + a + q == p + b + q
    ensures a == b
  {
    forall v ensures a[v] == b[v] {
      assert (p + a + q)[v] == p[v] + a[v] + q[v];
      assert (p + b + q)[v] == p[v] + b[v] + q[v];
    }
  }

  lemma ShuffledSlices(a: seq<int>, b: seq<int>, lo: nat, hi: int)
    requires Shuffled(a, b, lo, hi) && lo <= hi + 1 <= |a|
    ensures multiset(a[lo..hi + 1]) == multiset(b[lo..hi + 1])
  {
    MultisetSplit(a, lo, hi + 1);
    MultisetSplit(b, lo, hi + 1);
    assert a[..lo] == b[..lo];
    assert a[hi + 1..] == b[hi + 1..];
    Cancel(multiset(a[..lo]), multiset(a[lo..hi + 1]), multiset(b[lo..hi + 1]), multiset(a[hi + 1..]));
  }

  /** Every entry of the segment after a shuffle was in the segment before. */
  lemma ShuffledFrom(a: seq<int>, b: seq<int>, lo: nat, hi: int, x: nat) returns (y: nat)
    requires Shuffled(a, b, lo, hi) && lo <= x <= hi < |a|
    ensures lo <= y <= hi && a[y] == b[x]
  {
    ShuffledSlices(a, b, lo, hi);
    assert b[x] == b[lo..hi + 1][x - lo];
    assert b[x] in multiset(b[lo..hi + 1]);
    assert b[x] in a[lo..hi + 1];
    var z :| 0 <= z < |a[lo..hi + 1]| && a[lo..hi + 1][z] == b[x];
    y := lo + z;
  }

  lemma ShuffledSym(a: seq<int>, b: seq<int>, lo: int, hi: int)
    requires Shuffled(a, b, lo, hi)
    ensures Shuffled(b, a, lo, hi)
  {
  }

  // ---------- order up to pending intervals ----------

  datatype Range = Range(lo: int, hi: int)

  ghost function Size(r: Range): nat {
    if r.lo <= r.hi then r.hi - r.lo + 1 else 0
  }

  ghost predicate Inside(r: Range, x: int) { r.lo <= x <= r.hi }

  /** x and y lie in one interval that is still to be sorted. */
  ghost predicate Pending(stack: seq<Range>, x: int, y: int) {
    exists i :: 0 <= i < |stack| && Inside(stack[i], x) && Inside(stack[i], y)
  }

  ghost predicate Disjoint(r: Range, s: Range) {
    forall x :: Inside(r, x) ==> !Inside(s, x)
  }

  ghost predicate Apart(stack: seq<Range>, lo: int, hi: int) {
    && (forall i :: 0 <= i < |stack| ==> lo <= stack[i].lo <= stack[i].hi + 1 <= hi + 1)
    && forall i, j :: 0 <= i < j < |stack| ==> Disjoint(stack[i], stack[j])
  }

  /** Entries lo..hi of s are in order except possibly inside one pending interval. */
  ghost predicate SortedBut(le: (int, int) -> bool, s: seq<int>, lo: int, hi: int, stack: seq<Range>) {
    0 <= lo && hi < |s|
    && forall x, y :: lo <= x < y <= hi && !Pending(stack, x, y) ==> le(s[x], s[y])
  }

  ghost predicate SortedIn(le: (int, int) -> bool, s: seq<int>, lo: int, hi: int) {
    forall x, y :: lo <= x < y <= hi ==> 0 <= x && y < |s| && le(s[x], s[y])
  }

  lemma PendingPop(stack: seq<Range>, top: Range, x: int, y: int)
    requires !Pending(stack, x, y)
    ensures !(Inside(top, x) && Inside(top, y)) ==> !Pending(stack + [top], x, y)
  {
  }

  lemma PendingMember(stack: seq<Range>, i: int, x: int, y: int)
    requires 0 <= i < |stack| && Inside(stack[i], x) && Inside(stack[i], y)
    ensures Pending(stack, x, y)
  {
  }

  lemma OutsideOthers(stack: seq<Range>, top: Range, lo: int, hi: int, x: int, y: int)
    requires Apart(stack + [top], lo, hi) && Inside(top, x)
    ensures !Pending(stack, x, y) && !Pending(stack, y, x)
  {
    forall i | 0 <= i < |stack| ensures !Inside(stack[i], x) {
      assert Disjoint((stack + [top])[i], (stack + [top])[|stack|]);
    }
  }

  /** Where entry x of the shuffled segment came from, with the pending status of a pair kept. */
  lemma CameFrom(a: seq<int>, b: seq<int>, top: Range, x: int) returns (y: int)
    requires Shuffled(a, b, top.lo, top.hi) && 0 <= top.lo && top.hi < |a| && 0 <= x < |a|
    ensures 0 <= y < |a| && b[x] == a[y]
    ensures Inside(top, x) ==> Inside(top, y)
    ensures !Inside(top, x) ==> y == x
  {
    if Inside(top, x) { y := ShuffledFrom(a, b, top.lo, top.hi, x); } else { y := x; }
  }

  /** Shuffling the top interval keeps the order of every pair that it does not hold. */
  lemma CrossOrder(le: (int, int) -> bool, a: seq<int>, b: seq<int>, lo: int, hi: int,
                   stack: seq<Range>, top: Range, x: int, y: int)
    requires SortedBut(le, a, lo, hi, stack + [top]) && Apart(stack + [top], lo, hi)
    requires Shuffled(a, b, top.lo, top.hi) && lo <= top.lo && top.hi <= hi
    requires lo <= x < y <= hi && !Pending(stack, x, y) && !(Inside(top, x) && Inside(top, y))
    ensures le(b[x], b[y])
  {
    var x' := CameFrom(a, b, top, x);
    var y' := CameFrom(a, b, top, y);
    if Inside(top, x) {
      OutsideOthers(stack, top, lo, hi, x', y');
    } else if Inside(top, y) {
      OutsideOthers(stack, top, lo, hi, y', x');
    }
    PendingPop(stack, top, x', y');
    assert x' < y';
  }

  /** The top interval is sorted and popped. */
  lemma PopSorted(le: (int, int) -> bool, a: seq<int>, b: seq<int>, lo: int, hi: int, stack: seq<Range>, top: Range)
    requires SortedBut(le, a, lo, hi, stack + [top]) && Apart(stack + [top], lo, hi)
    requires Shuffled(a, b, top.lo, top.hi) && lo <= top.lo && top.hi <= hi
    requires SortedIn(le, b, top.lo, top.hi)
    ensures SortedBut(le, b, lo, hi, stack) && Apart(stack, lo, hi)
  {
    forall x, y | lo <= x < y <= hi && !Pending(stack, x, y) ensures le(b[x], b[y]) {
      if !(Inside(top, x) && Inside(top, y)) { CrossOrder(le, a, b, lo, hi, stack, top, x, y); }
    }
    assert forall i :: 0 <= i < |stack| ==> stack[i] == (stack + [top])[i];
  }

  /** The top interval is replaced by disjoint parts r and s of itself. */
  lemma PopSplit(le: (int, int) -> bool, a: seq<int>, b: seq<int>, lo: int, hi: int, stack: seq<Range>, top: Range, parts: seq<Range>)
    requires SortedBut(le, a, lo, hi, stack + [top]) && Apart(stack + [top], lo, hi)
    requires Shuffled(a, b, top.lo, top.hi) && lo <= top.lo && top.hi <= hi
    requires Apart(parts, top.lo, top.hi)
    requires SortedBut(le, b, top.lo, top.hi, parts)
    ensures SortedBut(le, b, lo, hi, stack + parts) && Apart(stack + parts, lo, hi)
  {
    var all := stack + parts;
    forall x, y | lo <= x < y <= hi && !Pending(all, x, y) ensures le(b[x], b[y]) {
      forall i | 0 <= i < |stack| ensures !(Inside(stack[i], x) && Inside(stack[i], y)) {
        assert stack[i] == all[i];
      }
      forall i | 0 <= i < |parts| ensures !(Inside(parts[i], x) && Inside(parts[i], y)) {
        assert parts[i] == all[|stack| + i];
      }
      if !(Inside(top, x) && Inside(top, y)) { CrossOrder(le, a, b, lo, hi, stack, top, x, y); }
    }
    ApartJoin(stack, top, parts, lo, hi);
  }

  lemma ApartJoin(stack: seq<Range>, top: Range, parts: seq<Range>, lo: int, hi: int)
    requires Apart(stack + [top], lo, hi) && Apart(parts, top.lo, top.hi) && lo <= top.lo && top.hi <= hi
    ensures Apart(stack + parts, lo, hi)
  {
    var all := stack + parts;
    forall i | 0 <= i < |all| ensures lo <= all[i].lo <= all[i].hi + 1 <= hi + 1 {
      if i < |stack| { assert all[i] == (stack + [top])[i]; }
    }
    forall i, j | 0 <= i < j < |all| ensures Disjoint(all[i], all[j]) {
      if j < |stack| {
        assert all[i] == (stack + [top])[i] && all[j] == (stack + [top])[j];
      } else if i < |stack| {
        assert all[i] == (stack + [top])[i] && top == (stack + [top])[|stack|];
        assert Disjoint(all[i], top);
      }
    }
  }

  // ---------- how deep the stack gets ----------

  ghost function Total(stack: seq<Range>): nat {
    if stack == [] then 0 else Size(stack[0]) + Total(stack[1..])
  }

  /** Every interval below the top is non-empty and at least as big as all those above it together. */
  ghost predicate Balanced(stack: seq<Range>) {
    |stack| > 1 ==> Size(stack[0]) >= 1 && Size(stack[0]) >= Total(stack[1..]) && Balanced(stack[1..])
  }

  lemma {:induction false} BalancedDepth(stack: seq<Range>)
    requires Balanced(stack) && |stack| >= 2
    ensures Total(stack) >= Pow2(|stack| - 2)
  {
    if |stack| > 2 { BalancedDepth(stack[1..]); }
  }

  /** A balanced stack over fewer than 2^31 entries never comes near a 99-entry limit. */
  lemma DepthBound(stack: seq<Range>)
    requires Balanced(stack) && Total(stack) < 0x8000_0000
    ensures |stack| <= 33
  {
    if |stack| >= 2 {
      BalancedDepth(stack);
      if |stack| > 33 {
        Pow2Mono(31, |stack| - 2);
        Pow2Values();
      }
    }
  }

  lemma {:induction false} TotalPush(stack: seq<Range>, r: Range)
    ensures Total(stack + [r]) == Total(stack) + Size(r)
  {
    if stack != [] {
      assert (stack + [r])[1..] == stack[1..] + [r];
      TotalPush(stack[1..], r);
    } else {
      assert (stack + [r])[1..] == [];
    }
  }

  lemma {:induction false} BalancedPop(stack: seq<Range>, top: Range)
    requires Balanced(stack + [top])
    ensures Balanced(stack)
  {
    if |stack| > 1 {
      assert (stack + [top])[1..] == stack[1..] + [top];
      TotalPush(stack[1..], top);
      BalancedPop(stack[1..], top);
    }
  }

  /** Popping an interval and pushing two parts of it, the bigger one first, keeps the balance. */
  lemma {:induction false} BalancedSplit(stack: seq<Range>, top: Range, big: Range, small: Range)
    requires Balanced(stack + [top])
    requires Size(big) >= 1 && Size(small) <= Size(big) && Size(big) + Size(small) <= Size(top)
    ensures Balanced(stack + [big, small])
    ensures Total(stack + [big, small]) == Total(stack) + Size(big) + Size(small)
  {
    var all := stack + [big, small];
    assert all == (stack + [big]) + [small];
    TotalPush(stack + [big], small);
    TotalPush(stack, big);
    if stack == [] {
      assert all[1..] == [small];
    } else {
      assert (stack + [top])[1..] == stack[1..] + [top];
      assert all[1..] == stack[1..] + [big, small];
      TotalPush(stack[1..], top);
      BalancedSplit(stack[1..], top, big, small);
    }
  }

  // ---------- three-way partitioning ----------

  ghost function Swapped(s: seq<int>, i: int, j: int): seq<int>
    requires 0 <= i < |s| && 0 <= j < |s|
  {
    s[i := s[j]][j := s[i]]
  }

  /** Where entry x comes from when n entries at p1 and p2 trade places. */
  ghost function VecImage(p1: int, p2: int, n: int, x: int): int {
    if p1 <= x < p1 + n then p2 + (x - p1)
    else if p2 <= x < p2 + n then p1 + (x - p2)
    else x
  }

  ghost predicate Exchanged(s: seq<int>, t: seq<int>, p1: int, p2: int, n: int) {
    |t| == |s| && forall x :: 0 <= x < |s| ==> 0 <= VecImage(p1, p2, n, x) < |s| && t[x] == s[VecImage(p1, p2, n, x)]
  }

  lemma SwappedAt(s: seq<int>, i: int, j: int)
    requires 0 <= i < |s| && 0 <= j < |s|
    ensures |Swapped(s, i, j)| == |s|
    ensures forall x :: 0 <= x < |s| && x != i && x != j ==> Swapped(s, i, j)[x] == s[x]
  {
  }

  lemma ExchangeStart(s: seq<int>, p1: int, p2: int)
    ensures Exchanged(s, s, p1, p2, 0)
  {
  }

  lemma ExchangeStep(s: seq<int>, t: seq<int>, p1: int, p2: int, n: int)
    requires Exchanged(s, t, p1, p2, n) && 0 <= n && 0 <= p1 && p1 + n < p2 && p2 + n < |s|
    ensures Exchanged(s, Swapped(t, p1 + n, p2 + n), p1, p2, n + 1)
  {
  }

  /** Mid-partition: equal keys gather at both ends, smaller and larger ones next to them. */
  ghost predicate Parted(key: int -> int, s: seq<int>, med: int, lo: int, ltLo: int, unLo: int, unHi: int, gtHi: int, hi: int) {
    && 0 <= lo <= ltLo <= unLo <= unHi + 1 <= gtHi + 1 <= hi + 1 <= |s|
    && (forall x :: lo <= x < ltLo ==> key(s[x]) == med)
    && (forall x :: ltLo <= x < unLo ==> key(s[x]) < med)
    && (forall x :: unHi < x <= gtHi ==> key(s[x]) > med)
    && (forall x :: gtHi < x <= hi ==> key(s[x]) == med)
  }

  /** Partitioned: smaller keys in lo..n, equal ones between, larger ones in m..hi. */
  ghost predicate Split(key: int -> int, s: seq<int>, med: int, lo: int, n: int, m: int, hi: int) {
    && 0 <= lo <= n + 1 <= m <= hi + 1 <= |s|
    && (forall x :: lo <= x <= n ==> key(s[x]) < med)
    && (forall x :: n < x < m ==> key(s[x]) == med)
    && (forall x :: m <= x <= hi ==> key(s[x]) > med)
  }

  lemma PartLoEqual(key: int -> int, s: seq<int>, med: int, lo: int, ltLo: int, unLo: int, unHi: int, gtHi: int, hi: int)
    requires Parted(key, s, med, lo, ltLo, unLo, unHi, gtHi, hi) && unLo <= unHi && key(s[unLo]) == med
    ensures Parted(key, Swapped(s, unLo, ltLo), med, lo, ltLo + 1, unLo + 1, unHi, gtHi, hi)
  {
  }

  lemma PartHiEqual(key: int -> int, s: seq<int>, med: int, lo: int, ltLo: int, unLo: int, unHi: int, gtHi: int, hi: int)
    requires Parted(key, s, med, lo, ltLo, unLo, unHi, gtHi, hi) && unLo <= unHi && key(s[unHi]) == med
    ensures Parted(key, Swapped(s, unHi, gtHi), med, lo, ltLo, unLo, unHi - 1, gtHi - 1, hi)
  {
  }

  lemma PartCross(key: int -> int, s: seq<int>, med: int, lo: int, ltLo: int, unLo: int, unHi: int, gtHi: int, hi: int)
    requires Parted(key, s, med, lo, ltLo, unLo, unHi, gtHi, hi) && unLo <= unHi
    requires key(s[unLo]) > med && key(s[unHi]) < med
    ensures unLo < unHi
    ensures Parted(key, Swapped(s, unLo, unHi), med, lo, ltLo, unLo + 1, unHi - 1, gtHi, hi)
  {
  }

  lemma PartEnds(key: int -> int, s: seq<int>, t: seq<int>, u: seq<int>, med: int, lo: int, ltLo: int, unLo: int, unHi: int, gtHi: int, hi: int, n: int, m: int)
    requires Parted(key, s, med, lo, ltLo, unLo, unHi, gtHi, hi) && unHi == unLo - 1
    requires n == if ltLo - lo < unLo - ltLo then ltLo - lo else unLo - ltLo
    requires m == if hi - gtHi < gtHi - unHi then hi - gtHi else gtHi - unHi
    requires Exchanged(s, t, lo, unLo - n, n) && Exchanged(t, u, unLo, hi - m + 1, m)
    ensures Split(key, u, med, lo, lo + unLo - ltLo - 1, hi - (gtHi - unHi) + 1, hi)
  {
    forall x | lo <= x < lo + unLo - ltLo ensures key(u[x]) < med {
      assert VecImage(unLo, hi - m + 1, m, x) == x;
      assert u[x] == t[x];
      assert ltLo <= VecImage(lo, unLo - n, n, x) < unLo;
    }
    forall x | lo + unLo - ltLo <= x < unLo ensures key(u[x]) == med {
      assert VecImage(unLo, hi - m + 1, m, x) == x;
      assert u[x] == t[x];
      assert lo <= VecImage(lo, unLo - n, n, x) < ltLo;
    }
    forall x | unLo <= x <= hi ensures u[x] == s[VecImage(unLo, hi - m + 1, m, x)] {
      var y := VecImage(unLo, hi - m + 1, m, x);
      assert unLo <= y <= hi;
      assert VecImage(lo, unLo - n, n, y) == y;
    }
    forall x | unLo <= x <= hi - (gtHi - unHi) ensures key(u[x]) == med {
      assert gtHi < VecImage(unLo, hi - m + 1, m, x) <= hi;
    }
    forall x | hi - (gtHi - unHi) < x <= hi ensures key(u[x]) > med {
      assert unHi < VecImage(unLo, hi - m + 1, m, x) <= gtHi;
    }
  }

  lemma PartAllEqual(key: int -> int, s: seq<int>, med: int, lo: int, ltLo: int, unLo: int, unHi: int, gtHi: int, hi: int)
    requires Parted(key, s, med, lo, ltLo, unLo, unHi, gtHi, hi) && unHi == unLo - 1 && gtHi < ltLo
    ensures forall x :: lo <= x <= hi ==> key(s[x]) == med
  {
  }

  /** The two ends of a split are apart, and only pairs inside one end can be out of order. */
  lemma SplitSortedBut(le: (int, int) -> bool, key: int -> int, s: seq<int>, med: int, lo: int, n: int, m: int, hi: int, parts: seq<Range>)
    requires Split(key, s, med, lo, n, m, hi)
    requires forall x, y :: lo <= x <= hi && lo <= y <= hi && key(s[x]) < key(s[y]) ==> le(s[x], s[y])
    requires forall x, y :: n < x < m && n < y < m ==> le(s[x], s[y])
    requires parts == [Range(lo, n), Range(m, hi)] || parts == [Range(m, hi), Range(lo, n)]
    ensures SortedBut(le, s, lo, hi, parts) && Apart(parts, lo, hi)
  {
    forall x, y | lo <= x < y <= hi && !Pending(parts, x, y) ensures le(s[x], s[y]) {
      PendingMemberIf(parts, 0, x, y);
      PendingMemberIf(parts, 1, x, y);
    }
  }

  lemma PendingMemberIf(stack: seq<Range>, i: int, x: int, y: int)
    requires 0 <= i < |stack| && !Pending(stack, x, y)
    ensures !(Inside(stack[i], x) && Inside(stack[i], y))
  {
  }

  // ---------- insertion ----------

  /** Entries lo..i are in order but for the one at p, which is no larger than those after it. */
  ghost predicate Rising(le: (int, int) -> bool, s: seq<int>, lo: int, p: int, i: int) {
    && 0 <= lo <= p <= i < |s|
    && (forall x, y :: lo <= x < y <= i && x != p && y != p ==> le(s[x], s[y]))
    && forall y :: p < y <= i ==> le(s[p], s[y])
  }

  lemma RiseStart(le: (int, int) -> bool, s: seq<int>, lo: int, i: int)
    requires 0 <= lo <= i < |s| && SortedIn(le, s, lo, i - 1)
    ensures Rising(le, s, lo, i, i)
  {
  }

  lemma RiseStep(le: (int, int) -> bool, s: seq<int>, lo: int, p: int, i: int)
    requires Rising(le, s, lo, p, i) && lo < p && le(s[p], s[p - 1])
    ensures Rising(le, Swapped(s, p, p - 1), lo, p - 1, i)
  {
  }

  lemma RiseEnd(le: (int, int) -> bool, s: seq<int>, lo: int, p: int, i: int)
    requires Rising(le, s, lo, p, i) && (lo < p ==> le(s[p - 1], s[p]))
    requires forall u, v, w :: le(u, v) && le(v, w) ==> le(u, w)
    ensures SortedIn(le, s, lo, i)
  {
    forall x, y | lo <= x < y <= i ensures le(s[x], s[y]) { RisePair(le, s, lo, p, i, x, y); }
  }

  lemma RisePair(le: (int, int) -> bool, s: seq<int>, lo: int, p: int, i: int, x: int, y: int)
    requires Rising(le, s, lo, p, i) && (lo < p ==> le(s[p - 1], s[p])) && lo <= x < y <= i
    requires forall u, v, w :: le(u, v) && le(v, w) ==> le(u, w)
    ensures le(s[x], s[y])
  {
    if y == p && x < p - 1 {
      var u, v, w := s[x], s[p - 1], s[p];
      assert le(u, v) && le(v, w);
      assert le(u, w);
    }
  }
}

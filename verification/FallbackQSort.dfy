/** The fallback sort's quicksort: three-way partitioning with an explicit stack, finished off by
    a gap-4 then gap-1 insertion sort.  Entries of fmap are ordered by their eclass. */
module FallbackQSort {
  import opened Segments
  import opened Partitioning

  const SMALL_THRESH: int := 10
  const STACK_SIZE: int := 100

  /** The order on positions given by the class array. */
  ghost function ByClass(ec: seq<int>): (int, int) -> bool {
    (u, v) => 0 <= u < |ec| && 0 <= v < |ec| && ec[u] <= ec[v]
  }

  /** Entries i..hi are in order but for the one at p, which still exceeds everything before it. */
  ghost predicate Sunk(ec: seq<int>, s: seq<int>, i: int, p: int, hi: int) {
    && 0 <= i <= p <= hi < |s|
    && (forall x :: i <= x <= hi ==> 0 <= s[x] < |ec|)
    && (forall x, y :: i <= x < y <= hi && x != p && y != p ==> ec[s[x]] <= ec[s[y]])
    && (forall x :: i <= x < p ==> ec[s[x]] < ec[s[p]])
  }

  lemma SunkStart(ec: seq<int>, s: seq<int>, i: int, hi: int)
    requires 0 <= i <= hi && Valued(s, i, hi, |ec|) && SortedIn(ByClass(ec), s, i + 1, hi)
    ensures Sunk(ec, s, i, i, hi)
  {
    forall x, y | i <= x < y <= hi && x != i && y != i ensures ec[s[x]] <= ec[s[y]] {
      assert ByClass(ec)(s[x], s[y]);
    }
  }

  lemma SunkStep(ec: seq<int>, s: seq<int>, i: int, p: int, hi: int)
    requires Sunk(ec, s, i, p, hi) && p < hi && ec[s[p]] > ec[s[p + 1]]
    ensures Sunk(ec, Swapped(s, p, p + 1), i, p + 1, hi)
  {
  }

  lemma SunkEnd(ec: seq<int>, s: seq<int>, i: int, p: int, hi: int)
    requires Sunk(ec, s, i, p, hi) && (p < hi ==> ec[s[p]] <= ec[s[p + 1]])
    ensures SortedIn(ByClass(ec), s, i, hi)
  {
    forall x, y | i <= x < y <= hi ensures ByClass(ec)(s[x], s[y]) {
      if x == p { assert ec[s[p + 1]] <= ec[s[y]] || y == p + 1; }
    }
  }

  lemma SinkStep(s: seq<int>, ec: seq<int>, cur: seq<int>, lo: int, i: int, p: int, j: int, hi: int, sorted: bool)
    requires Shuffled(s, cur, lo, hi) && Valued(cur, lo, hi, |ec|) && lo <= p < j <= hi
    requires sorted ==> j == p + 1 && Sunk(ec, cur, i, p, hi) && ec[cur[p]] > ec[cur[j]]
    ensures Shuffled(s, Swapped(cur, p, j), lo, hi) && Valued(Swapped(cur, p, j), lo, hi, |ec|)
    ensures sorted ==> Sunk(ec, Swapped(cur, p, j), i, j, hi)
  {
    hide Sunk, Shuffled;
    if sorted { SunkStep(ec, cur, i, p, hi); }
    SwapShuffled(cur, p, j, lo, hi);
    ShuffledTrans(s, cur, Swapped(cur, p, j), lo, hi, lo, hi);
  }

  /** The inner loop of both insertion passes: sinks entry i into i+h, i+2h, ... */
  method Sink(fmap: array<int>, eclass: array<int>, lo: int, i: int, hi: int, h: int)
    requires fmap != eclass && 0 < h && lo <= i <= hi
    requires Valued(fmap[..], lo, hi, eclass.Length)
    modifies fmap
    ensures Shuffled(old(fmap[..]), fmap[..], lo, hi)
    ensures h == 1 && old(SortedIn(ByClass(eclass[..]), fmap[..], i + 1, hi)) ==> SortedIn(ByClass(eclass[..]), fmap[..], i, hi)
  {
    hide Shuffled, Sunk, SortedIn;
    ghost var s, ec := fmap[..], eclass[..];
    ghost var sorted := h == 1 && SortedIn(ByClass(ec), s, i + 1, hi);
    if sorted { SunkStart(ec, s, i, hi); }
    ShuffledRefl(s, lo, hi);
    var tmp := fmap[i];
    var ecTmp := eclass[tmp];
    var j := i + h;
    ghost var cur := s;
    while j <= hi && ecTmp > eclass[fmap[j]]
      invariant i + h <= j && j - h <= hi
      invariant |cur| == fmap.Length && cur[j - h] == tmp
      invariant forall x :: 0 <= x < |cur| && x != j - h ==> fmap[x] == cur[x]
      invariant Shuffled(s, cur, lo, hi) && Valued(cur, lo, hi, |ec|)
      invariant sorted ==> Sunk(ec, cur, i, j - h, hi)
    {
      SinkStep(s, ec, cur, lo, i, j - h, j, hi, sorted);
      cur := Swapped(cur, j - h, j);
      fmap[j - h] := fmap[j];
      j := j + h;
    }
    fmap[j - h] := tmp;
    assert fmap[..] == cur;
    if sorted { SunkEnd(ec, cur, i, j - h, hi); }
  }

  method FallbackSimpleSort(fmap: array<int>, eclass: array<int>, lo: int, hi: int)
    requires fmap != eclass && lo <= hi + 1
    requires Valued(fmap[..], lo, hi, eclass.Length)
    modifies fmap
    ensures Shuffled(old(fmap[..]), fmap[..], lo, hi)
    ensures SortedIn(ByClass(eclass[..]), fmap[..], lo, hi)
  {
    if lo == hi { return; }
    ghost var s := fmap[..];
    if hi - lo > 3 {
      var i := hi - 4;
      while i >= lo
        invariant lo - 1 <= i <= hi - 4
        invariant Shuffled(s, fmap[..], lo, hi)
      {
        ShuffledValued(s, fmap[..], lo, hi, eclass.Length);
        Sink(fmap, eclass, lo, i, hi, 4);
        i := i - 1;
      }
    }
    var i := hi - 1;
    while i >= lo
      invariant lo - 2 <= i < hi
      invariant Shuffled(s, fmap[..], lo, hi)
      invariant SortedIn(ByClass(eclass[..]), fmap[..], i + 1, hi)
    {
      ShuffledValued(s, fmap[..], lo, hi, eclass.Length);
      Sink(fmap, eclass, lo, i, hi, 1);
      i := i - 1;
    }
  }

  lemma SplitParts(ec: seq<int>, s: seq<int>, med: int, lo: int, n: int, m: int, hi: int, parts: seq<Range>)
    requires Split(KeyAt(ec, 0), s, med, lo, n, m, hi) && Valued(s, lo, hi, |ec|)
    requires parts == [Range(lo, n), Range(m, hi)] || parts == [Range(m, hi), Range(lo, n)]
    ensures SortedBut(ByClass(ec), s, lo, hi, parts) && Apart(parts, lo, hi)
  {
    SplitSortedBut(ByClass(ec), KeyAt(ec, 0), s, med, lo, n, m, hi, parts);
  }

  lemma AllEqualSorted(ec: seq<int>, s: seq<int>, med: int, lo: int, hi: int)
    requires Valued(s, lo, hi, |ec|) && forall x :: lo <= x <= hi ==> KeyAt(ec, 0)(s[x]) == med
    ensures SortedIn(ByClass(ec), s, lo, hi)
  {
    forall x, y | lo <= x < y <= hi ensures ByClass(ec)(s[x], s[y]) {
      assert KeyAt(ec, 0)(s[x]) == KeyAt(ec, 0)(s[y]);
    }
  }

  /** Everything one split does to the stack invariants. */
  lemma SplitStep(ec: seq<int>, s: seq<int>, t: seq<int>, x: int, lo: int, hi: int, stack: seq<Range>, top: Range, n: int, m: int, parts: seq<Range>)
    requires SortedBut(ByClass(ec), s, lo, hi, stack + [top]) && Apart(stack + [top], lo, hi) && Balanced(stack + [top])
    requires lo <= top.lo <= top.hi <= hi && Shuffled(s, t, top.lo, top.hi) && Valued(s, lo, hi, |ec|)
    requires top.lo <= x <= top.hi && Split(KeyAt(ec, 0), t, ec[s[x]], top.lo, n, m, top.hi)
    requires top.lo <= n || m <= top.hi
    requires parts == if n - top.lo > top.hi - m then [Range(top.lo, n), Range(m, top.hi)] else [Range(m, top.hi), Range(top.lo, n)]
    ensures SortedBut(ByClass(ec), t, lo, hi, stack + parts) && Apart(stack + parts, lo, hi) && Balanced(stack + parts)
    ensures Total(stack + parts) < Total(stack + [top])
  {
    hide Shuffled, SortedBut, Apart, Balanced, Total;
    assert Valued(s, top.lo, top.hi, |ec|);
    ShuffledValued(s, t, top.lo, top.hi, |ec|);
    MiddleNonEmpty(ec, 0, s, t, x, top.lo, n, m, top.hi);
    SplitParts(ec, t, ec[s[x]], top.lo, n, m, top.hi, parts);
    PopSplit(ByClass(ec), s, t, lo, hi, stack, top, parts);
    assert parts == [parts[0], parts[1]];
    BalancedSplit(stack, top, parts[0], parts[1]);
    TotalPush(stack, top);
  }

  /** Everything finishing the top interval does to the stack invariants. */
  lemma SortedStep(ec: seq<int>, s: seq<int>, t: seq<int>, lo: int, hi: int, stack: seq<Range>, top: Range)
    requires SortedBut(ByClass(ec), s, lo, hi, stack + [top]) && Apart(stack + [top], lo, hi) && Balanced(stack + [top])
    requires lo <= top.lo && top.hi <= hi && Shuffled(s, t, top.lo, top.hi) && SortedIn(ByClass(ec), t, top.lo, top.hi)
    ensures SortedBut(ByClass(ec), t, lo, hi, stack) && Apart(stack, lo, hi) && Balanced(stack)
    ensures Total(stack) <= Total(stack + [top])
  {
    hide Shuffled, SortedBut, Apart, Balanced, Total;
    PopSorted(ByClass(ec), s, t, lo, hi, stack, top);
    BalancedPop(stack, top);
    TotalPush(stack, top);
  }

  method FallbackQSort3(fmap: array<int>, eclass: array<int>, loSt: int, hiSt: int)
    requires fmap != eclass && 0 <= loSt <= hiSt < fmap.Length < 0x8000_0000
    requires Valued(fmap[..], loSt, hiSt, eclass.Length)
    modifies fmap
    ensures Shuffled(old(fmap[..]), fmap[..], loSt, hiSt)
    ensures SortedIn(ByClass(eclass[..]), fmap[..], loSt, hiSt)
  {
    hide Shuffled, SortedBut, SortedIn, Apart, Balanced, Total, Split, ByClass, KeyAt;
    ghost var s, ec := fmap[..], eclass[..];
    var r := 0;
    var stack := [Range(loSt, hiSt)];
    StackStart(ec, s, loSt, hiSt);
    while |stack| > 0
      invariant Shuffled(s, fmap[..], loSt, hiSt) && Valued(fmap[..], loSt, hiSt, |ec|)
      invariant SortedBut(ByClass(ec), fmap[..], loSt, hiSt, stack) && Apart(stack, loSt, hiSt)
      invariant Balanced(stack) && Total(stack) <= hiSt - loSt + 1
      decreases Total(stack), |stack|
    {
      DepthBound(stack);
      assert |stack| < STACK_SIZE - 1;  // assertion 1004 of the source
      ghost var s1, stack1 := fmap[..], stack;
      var top := stack[|stack| - 1];
      stack := stack[..|stack| - 1];
      assert stack1 == stack + [top];
      var lo, hi := top.lo, top.hi;
      TopInside(stack1, loSt, hiSt);
      if hi - lo < SMALL_THRESH {
        FallbackSimpleSort(fmap, eclass, lo, hi);
        SortedStep(ec, s1, fmap[..], loSt, hiSt, stack, top);
      } else {
        r := (r * 7621 + 1) % 32768;
        var r3 := r % 3;
        var x := if r3 == 0 then lo else if r3 == 1 then (lo + hi) / 2 else hi;
        var med := eclass[fmap[x]];
        var split, n, m := Partition(fmap, eclass, 0, lo, hi, med);
        if split {
          ghost var parts;
          if n - lo > hi - m {
            parts := [Range(lo, n), Range(m, hi)];
            stack := stack + [Range(lo, n), Range(m, hi)];
          } else {
            parts := [Range(m, hi), Range(lo, n)];
            stack := stack + [Range(m, hi), Range(lo, n)];
          }
          SplitStep(ec, s1, fmap[..], x, loSt, hiSt, stack1[..|stack1| - 1], top, n, m, parts);
        } else {
          ShuffledValued(s1, fmap[..], lo, hi, |ec|);
          AllEqualSorted(ec, fmap[..], med, lo, hi);
          SortedStep(ec, s1, fmap[..], loSt, hiSt, stack, top);
        }
      }
      ShuffledTrans(s, s1, fmap[..], loSt, hiSt, lo, hi);
      ShuffledValued(s, fmap[..], loSt, hiSt, |ec|);
    }
    StackDone(ec, fmap[..], loSt, hiSt);
  }

  lemma StackStart(ec: seq<int>, s: seq<int>, lo: int, hi: int)
    requires 0 <= lo <= hi < |s|
    ensures SortedBut(ByClass(ec), s, lo, hi, [Range(lo, hi)]) && Apart([Range(lo, hi)], lo, hi)
    ensures Balanced([Range(lo, hi)]) && Total([Range(lo, hi)]) == hi - lo + 1
    ensures Shuffled(s, s, lo, hi)
  {
    forall x, y | lo <= x < y <= hi ensures Pending([Range(lo, hi)], x, y) {
      PendingMember([Range(lo, hi)], 0, x, y);
    }
    assert [Range(lo, hi)][1..] == [];
    assert Total([Range(lo, hi)]) == Size(Range(lo, hi)) + Total([]);
  }

  lemma StackDone(ec: seq<int>, s: seq<int>, lo: int, hi: int)
    requires SortedBut(ByClass(ec), s, lo, hi, [])
    ensures SortedIn(ByClass(ec), s, lo, hi)
  {
  }

  lemma TopInside(stack: seq<Range>, lo: int, hi: int)
    requires |stack| > 0 && Apart(stack, lo, hi)
    ensures var top := stack[|stack| - 1]; lo <= top.lo <= top.hi + 1 <= hi + 1
  {
  }
}

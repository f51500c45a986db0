/** mainSimpleSort: a shell sort of a segment whose rotations agree on their first d bytes. */
module MainSimpleSort {
  import opened Rotations
  import opened Segments
  import opened MainCompare

  /** The order of rotations, as a relation on positions. */
  ghost function ByRotation(b: seq<byte>): (int, int) -> bool {
    (u, v) => |b| > 0 && 0 <= u && 0 <= v && Cmp(b, u, v, |b|) <= 0
  }

  /** Entries lo..hi are positions whose rotations agree on d bytes. */
  ghost predicate Agree(b: seq<byte>, s: seq<int>, lo: int, hi: int, d: nat) {
    && 0 <= lo && hi < |s| && |b| > 0
    && (forall x :: lo <= x <= hi ==> 0 <= s[x] < |b|)
    && forall x, y :: lo <= x <= hi && lo <= y <= hi ==> Cmp(b, s[x], s[y], d) == 0
  }

  lemma ShuffledAgree(b: seq<byte>, s: seq<int>, t: seq<int>, lo: int, hi: int, d: nat)
    requires Shuffled(s, t, lo, hi) && Agree(b, s, lo, hi, d)
    ensures Agree(b, t, lo, hi, d)
  {
    hide Shuffled;
    assert |t| == |s| by { ShuffledSize(s, t, lo, hi); }
    forall x | lo <= x <= hi ensures 0 <= t[x] < |b| {
      var x' := ShuffledFrom(s, t, lo, hi, x);
    }
    forall x, y | lo <= x <= hi && lo <= y <= hi ensures Cmp(b, t[x], t[y], d) == 0 {
      var x' := ShuffledFrom(s, t, lo, hi, x);
      var y' := ShuffledFrom(s, t, lo, hi, y);
    }
  }

  lemma ShuffledSize(s: seq<int>, t: seq<int>, lo: int, hi: int)
    requires Shuffled(s, t, lo, hi)
    ensures |t| == |s|
  {
  }

  /** Comparing d bytes on compares the rotations themselves. */
  lemma FromDepth(b: seq<byte>, u: nat, v: nat, d: nat, gt: bool)
    requires |b| > 0 && Cmp(b, u, v, d) == 0 && Compares(b, u + d, v + d, gt)
    ensures if gt then ByRotation(b)(v, u) else ByRotation(b)(u, v)
  {
    TiedDecides(b, u, v, u + d, v + d, d);
    CmpAnti(b, u, v, |b|);
  }

  lemma ByRotationTrans(b: seq<byte>)
    ensures forall u, v, w :: ByRotation(b)(u, v) && ByRotation(b)(v, w) ==> ByRotation(b)(u, w)
  {
    forall u, v, w | ByRotation(b)(u, v) && ByRotation(b)(v, w) ensures ByRotation(b)(u, w) { CmpTrans(b, u, v, w, |b|); }
  }

  lemma InsertStep(b: seq<byte>, s: seq<int>, cur: seq<int>, lo: int, i: int, j: int, hi: int, h: int, d: nat, sorted: bool)
    requires Shuffled(s, cur, lo, hi) && Agree(b, cur, lo, hi, d) && 0 < h && lo + h <= j <= i <= hi
    requires Compares(b, cur[j - h] + d, cur[j] + d, true)
    requires sorted ==> h == 1 && Rising(ByRotation(b), cur, lo, j, i)
    ensures Shuffled(s, Swapped(cur, j, j - h), lo, hi) && Agree(b, Swapped(cur, j, j - h), lo, hi, d)
    ensures sorted ==> Rising(ByRotation(b), Swapped(cur, j, j - h), lo, j - h, i)
  {
    hide Rising, Shuffled, Compares, ByRotation, Cmp;
    if sorted {
      FromDepth(b, cur[j - h], cur[j], d, true);
      RiseStep(ByRotation(b), cur, lo, j, i);
    }
    SwapShuffled(cur, j, j - h, lo, hi);
    ShuffledAgree(b, cur, Swapped(cur, j, j - h), lo, hi, d);
    ShuffledTrans(s, cur, Swapped(cur, j, j - h), lo, hi, lo, hi);
  }

  lemma AgreeAt(b: seq<byte>, s: seq<int>, lo: int, hi: int, d: nat)
    requires Agree(b, s, lo, hi, d)
    ensures 0 <= lo && hi < |s| && forall x :: lo <= x <= hi ==> 0 <= s[x] < |b|
  {
  }

  lemma InsertEnd(b: seq<byte>, cur: seq<int>, lo: int, j: int, i: int, hi: int, d: nat)
    requires Rising(ByRotation(b), cur, lo, j, i) && Agree(b, cur, lo, hi, d) && i <= hi
    requires lo < j ==> 0 <= cur[j - 1] && 0 <= cur[j] && Compares(b, cur[j - 1] + d, cur[j] + d, false)
    ensures SortedIn(ByRotation(b), cur, lo, i)
  {
    hide Compares, ByRotation, Cmp;
    if lo < j { FromDepth(b, cur[j - 1], cur[j], d, false); }
    ByRotationTrans(b);
    RiseEnd(ByRotation(b), cur, lo, j, i);
  }

  /** Moves entry i down by steps of h past everything larger. */
  method Insert(ptr: array<int>, block: array<int>, quadrant: array<int>, nblock: nat, lo: int, i: int, hi: int, h: int, d: nat, budget0: int, ghost b: seq<byte>)
    returns (budget: int)
    requires ptr != block && ptr != quadrant && Extended(b, block[..]) && Quadrants(b, quadrant[..]) && nblock == |b|
    requires Agree(b, ptr[..], lo, hi, d) && d <= DEPTH_MAX && 0 < h && lo + h <= i <= hi
    modifies ptr
    ensures budget <= budget0 && Shuffled(old(ptr[..]), ptr[..], lo, hi) && Agree(b, ptr[..], lo, hi, d)
    ensures h == 1 && old(SortedIn(ByRotation(b), ptr[..], lo, i - 1)) ==> SortedIn(ByRotation(b), ptr[..], lo, i)
  {
    hide Shuffled, Rising, SortedIn, Agree, Compares, ByRotation, Extended, Quadrants;
    ghost var s, blk, q := ptr[..], block[..], quadrant[..];
    AgreeAt(b, s, lo, hi, d);
    ghost var sorted := h == 1 && SortedIn(ByRotation(b), s, lo, i - 1);
    if sorted { RiseStart(ByRotation(b), s, lo, i); }
    ShuffledRefl(s, lo, hi);
    budget := budget0;
    var v := ptr[i];
    var j := i;
    ghost var cur := s;
    var gt;
    assert s[i] == v && ptr[j - h] == s[j - h];
    gt, budget := MainGtU(ptr[j - h] + d, v + d, block, quadrant, nblock, budget, b);
    while gt
      invariant block[..] == blk && quadrant[..] == q && budget <= budget0
      invariant lo <= j <= i && |cur| == ptr.Length && cur[j] == v
      invariant forall x :: 0 <= x < |cur| && x != j ==> ptr[x] == cur[x]
      invariant Shuffled(s, cur, lo, hi) && Agree(b, cur, lo, hi, d)
      invariant sorted ==> Rising(ByRotation(b), cur, lo, j, i)
      invariant gt ==> lo + h <= j && 0 <= cur[j - h] && 0 <= cur[j] && Compares(b, cur[j - h] + d, cur[j] + d, true)
      invariant !gt && lo + h <= j ==> 0 <= cur[j - h] && 0 <= cur[j] && Compares(b, cur[j - h] + d, cur[j] + d, false)
      decreases j, gt
    {
      InsertStep(b, s, cur, lo, i, j, hi, h, d, sorted);
      cur := Swapped(cur, j, j - h);
      AgreeAt(b, cur, lo, hi, d);
      ptr[j] := ptr[j - h];
      j := j - h;
      if j <= lo + h - 1 { break; }
      assert ptr[j - h] == cur[j - h] && v == cur[j];
      gt, budget := MainGtU(ptr[j - h] + d, v + d, block, quadrant, nblock, budget, b);
    }
    ptr[j] := v;
    assert ptr[..] == cur;
    AgreeAt(b, cur, lo, hi, d);
    if sorted { InsertEnd(b, cur, lo, j, i, hi, d); }
  }

  const INCS: seq<int> := [1, 4, 13, 40, 121, 364, 1093, 3280, 9841, 29524, 88573, 265720, 797161, 2391484]

  /** One pass with step h; with h == 1 it sorts unless it gives up on the budget. */
  method Pass(ptr: array<int>, block: array<int>, quadrant: array<int>, nblock: nat, lo: int, hi: int, h: int, d: nat, budget0: int, ghost b: seq<byte>)
    returns (budget: int, gaveUp: bool)
    requires ptr != block && ptr != quadrant && Extended(b, block[..]) && Quadrants(b, quadrant[..]) && nblock == |b|
    requires Agree(b, ptr[..], lo, hi, d) && d <= DEPTH_MAX && 0 < h && lo < hi
    modifies ptr
    ensures budget <= budget0 && Shuffled(old(ptr[..]), ptr[..], lo, hi) && Agree(b, ptr[..], lo, hi, d)
    ensures h == 1 && !gaveUp ==> SortedIn(ByRotation(b), ptr[..], lo, hi)
    ensures gaveUp ==> budget < 0
  {
    hide PassState, Shuffled, SortedIn, Agree, ByRotation, Extended, Quadrants;
    ghost var s, blk, q := ptr[..], block[..], quadrant[..];
    PassStart(b, s, lo, hi, h, d);
    budget, gaveUp := budget0, false;
    var i := lo + h;
    while true
      invariant block[..] == blk && quadrant[..] == q && budget <= budget0 && lo + h <= i
      invariant PassState(b, s, ptr[..], lo, hi, h, i, d)
      decreases hi - i
    {
      if i > hi { break; }
      budget := InsertNext(ptr, block, quadrant, nblock, lo, i, hi, h, d, budget, b, s);
      i := i + 1;
      if i > hi { break; }
      budget := InsertNext(ptr, block, quadrant, nblock, lo, i, hi, h, d, budget, b, s);
      i := i + 1;
      if i > hi { break; }
      budget := InsertNext(ptr, block, quadrant, nblock, lo, i, hi, h, d, budget, b, s);
      i := i + 1;
      if budget < 0 {
        PassStateParts(b, s, ptr[..], lo, hi, h, i, d);
        gaveUp := true;
        return;
      }
    }
    PassStateParts(b, s, ptr[..], lo, hi, h, i, d);
  }

  /** Mid-pass: entries before i are in order when the step is one. */
  ghost predicate PassState(b: seq<byte>, s: seq<int>, t: seq<int>, lo: int, hi: int, h: int, i: int, d: nat) {
    Shuffled(s, t, lo, hi) && Agree(b, t, lo, hi, d) && (h == 1 ==> i <= hi + 1 && SortedIn(ByRotation(b), t, lo, i - 1))
  }

  lemma PassStateParts(b: seq<byte>, s: seq<int>, t: seq<int>, lo: int, hi: int, h: int, i: int, d: nat)
    requires PassState(b, s, t, lo, hi, h, i, d)
    ensures Shuffled(s, t, lo, hi) && Agree(b, t, lo, hi, d) && (h == 1 ==> i <= hi + 1 && SortedIn(ByRotation(b), t, lo, i - 1))
  {
  }

  lemma PassStart(b: seq<byte>, s: seq<int>, lo: int, hi: int, h: int, d: nat)
    requires Agree(b, s, lo, hi, d) && lo < hi
    ensures PassState(b, s, s, lo, hi, h, lo + h, d)
  {
  }

  lemma PassNext(b: seq<byte>, s: seq<int>, t: seq<int>, u: seq<int>, lo: int, hi: int, h: int, i: int, d: nat)
    requires PassState(b, s, t, lo, hi, h, i, d) && i <= hi && Shuffled(t, u, lo, hi) && Agree(b, u, lo, hi, d)
    requires h == 1 && SortedIn(ByRotation(b), t, lo, i - 1) ==> SortedIn(ByRotation(b), u, lo, i)
    ensures PassState(b, s, u, lo, hi, h, i + 1, d)
  {
    hide Shuffled, Agree, SortedIn;
    ShuffledTrans(s, t, u, lo, hi, lo, hi);
  }

  /** One of the three copies of the insertion step. */
  method InsertNext(ptr: array<int>, block: array<int>, quadrant: array<int>, nblock: nat, lo: int, i: int, hi: int, h: int, d: nat, budget0: int, ghost b: seq<byte>, ghost s: seq<int>)
    returns (budget: int)
    requires ptr != block && ptr != quadrant && Extended(b, block[..]) && Quadrants(b, quadrant[..]) && nblock == |b|
    requires PassState(b, s, ptr[..], lo, hi, h, i, d) && d <= DEPTH_MAX && 0 < h && lo + h <= i <= hi
    modifies ptr
    ensures budget <= budget0 && PassState(b, s, ptr[..], lo, hi, h, i + 1, d)
  {
    hide *;
    ghost var t := ptr[..];
    PassStateParts(b, s, t, lo, hi, h, i, d);
    budget := Insert(ptr, block, quadrant, nblock, lo, i, hi, h, d, budget0, b);
    PassNext(b, s, t, ptr[..], lo, hi, h, i, d);
  }

  /** mainSimpleSort: sorts lo..hi, or runs out of budget. */
  method MainSimpleSort(ptr: array<int>, block: array<int>, quadrant: array<int>, nblock: nat, lo: int, hi: int, d: nat, budget0: int, ghost b: seq<byte>)
    returns (budget: int)
    requires ptr != block && ptr != quadrant && Extended(b, block[..]) && Quadrants(b, quadrant[..]) && nblock == |b|
    requires Agree(b, ptr[..], lo, hi, d) && d <= DEPTH_MAX && hi - lo < 2391484
    modifies ptr
    ensures budget <= budget0 && Shuffled(old(ptr[..]), ptr[..], lo, hi) && Agree(b, ptr[..], lo, hi, d)
    ensures budget >= 0 ==> SortedIn(ByRotation(b), ptr[..], lo, hi)
  {
    hide Shuffled, SortedIn, Agree, ByRotation, Extended, Quadrants;
    ghost var s, blk, q := ptr[..], block[..], quadrant[..];
    ShuffledRefl(s, lo, hi);
    budget := budget0;
    var bigN := hi - lo + 1;
    if bigN < 2 {
      FewSorted(b, s, lo, hi, d);
      return;
    }
    var hp := 0;
    while INCS[hp] < bigN
      invariant 0 <= hp <= 13 && (hp > 0 ==> INCS[hp - 1] < bigN)
      decreases 13 - hp
    {
      hp := hp + 1;
    }
    hp := hp - 1;
    while hp >= 0
      invariant -1 <= hp < 14 && block[..] == blk && quadrant[..] == q && budget <= budget0
      invariant Shuffled(s, ptr[..], lo, hi) && Agree(b, ptr[..], lo, hi, d)
      invariant hp == -1 ==> SortedIn(ByRotation(b), ptr[..], lo, hi)
      decreases hp
    {
      ghost var t := ptr[..];
      var gaveUp;
      budget, gaveUp := Pass(ptr, block, quadrant, nblock, lo, hi, INCS[hp], d, budget, b);
      ShuffledTrans(s, t, ptr[..], lo, hi, lo, hi);
      if gaveUp { return; }
      hp := hp - 1;
    }
  }

  lemma FewSorted(b: seq<byte>, s: seq<int>, lo: int, hi: int, d: nat)
    requires Agree(b, s, lo, hi, d) && hi <= lo
    ensures SortedIn(ByRotation(b), s, lo, hi)
  {
  }
}

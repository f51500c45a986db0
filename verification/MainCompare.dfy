/** mainGtU: comparing two rotations over a block with its first 34 bytes repeated at the end, using
    the quadrant array as a cache of orders already known. */
module MainCompare {
  import opened Rotations

  const N_RADIX: nat := 2
  const N_QSORT: nat := 12
  const N_SHELL: nat := 18
  const N_OVERSHOOT: nat := N_RADIX + N_QSORT + N_SHELL + 2
  const DEPTH_MAX: nat := 15

  /** The block, continued by its own beginning. */
  ghost predicate Extended(b: seq<byte>, blk: seq<int>) {
    |b| >= N_OVERSHOOT && |blk| == |b| + N_OVERSHOOT && forall i :: 0 <= i < |blk| ==> blk[i] == At(b, i)
  }

  /** The quadrant invariant: among positions of one byte, a smaller value never belongs to a larger
      rotation.  Equal rotations may have been given different values. */
  ghost predicate Quadrants(b: seq<byte>, q: seq<int>) {
    |b| > 0 && |q| == |b| + N_OVERSHOOT
    && forall u, v :: 0 <= u < |q| && 0 <= v < |q| && At(b, u) == At(b, v) && q[u] < q[v] ==> Cmp(b, u, v, |b|) <= 0
  }

  /** The rotations at p1 and p2 agree on m bytes, and i1 and i2 are where they go on. */
  ghost predicate Tied(b: seq<byte>, p1: nat, p2: nat, i1: nat, i2: nat, m: nat) {
    |b| > 0 && Cmp(b, p1, p2, m) == 0 && forall h: nat :: Cmp(b, i1, i2, h) == Cmp(b, p1 + m, p2 + m, h)
  }

  lemma TiedStep(b: seq<byte>, p1: nat, p2: nat, i1: nat, i2: nat, m: nat)
    requires Tied(b, p1, p2, i1, i2, m) && At(b, i1) == At(b, i2)
    ensures Tied(b, p1, p2, i1 + 1, i2 + 1, m + 1)
  {
    CmpSplit(b, p1, p2, m, 1);
    assert Cmp(b, i1 + 1, i2 + 1, 0) == 0;
    assert Cmp(b, i1, i2, 1) == 0;
    var j1, j2 := i1 + 1, i2 + 1;
    forall h: nat ensures Cmp(b, j1, j2, h) == Cmp(b, p1 + (m + 1), p2 + (m + 1), h) {
      assert Cmp(b, i1, i2, h + 1) == Cmp(b, p1 + m, p2 + m, h + 1);
      assert Cmp(b, p1 + m, p2 + m, 1) == 0;
    }
  }

  lemma TiedWrap1(b: seq<byte>, p1: nat, p2: nat, i1: nat, i2: nat, m: nat)
    requires Tied(b, p1, p2, i1, i2, m) && i1 >= |b|
    ensures Tied(b, p1, p2, i1 - |b|, i2, m)
  {
    var j1 := i1 - |b|;
    forall h: nat ensures Cmp(b, j1, i2, h) == Cmp(b, p1 + m, p2 + m, h) {
      CmpWrap(b, i1 - |b|, i2, h);
      assert Cmp(b, i1, i2, h) == Cmp(b, p1 + m, p2 + m, h);
    }
  }

  lemma TiedWrap2(b: seq<byte>, p1: nat, p2: nat, i1: nat, i2: nat, m: nat)
    requires Tied(b, p1, p2, i1, i2, m) && i2 >= |b|
    ensures Tied(b, p1, p2, i1, i2 - |b|, m)
  {
    var j2 := i2 - |b|;
    forall h: nat ensures Cmp(b, i1, j2, h) == Cmp(b, p1 + m, p2 + m, h) {
      CmpWrap(b, i1, i2 - |b|, h);
      assert Cmp(b, i1, i2, h) == Cmp(b, p1 + m, p2 + m, h);
    }
  }

  /** How the rotations go on decides how they compare, ties aside. */
  lemma TiedDecides(b: seq<byte>, p1: nat, p2: nat, i1: nat, i2: nat, m: nat)
    requires Tied(b, p1, p2, i1, i2, m)
    ensures Cmp(b, i1, i2, |b|) <= 0 ==> Cmp(b, p1, p2, |b|) <= 0
    ensures Cmp(b, i1, i2, |b|) >= 0 ==> Cmp(b, p1, p2, |b|) >= 0
  {
    var n := |b|;
    assert Cmp(b, i1, i2, n) == Cmp(b, p1 + m, p2 + m, n);
    CmpSplit(b, p1, p2, m, n);
    CmpSplit(b, p1, p2, n, m);
    assert m + n == n + m;
  }

  lemma TiedThrough(b: seq<byte>, p1: nat, p2: nat, i1: nat, i2: nat, m: nat)
    requires Tied(b, p1, p2, i1, i2, m) && m >= |b|
    ensures Cmp(b, p1, p2, |b|) == 0
  {
    CmpSplit(b, p1, p2, |b|, m - |b|);
  }

  lemma TiedStart(b: seq<byte>, p1: nat, p2: nat)
    requires |b| > 0
    ensures Tied(b, p1, p2, p1, p2, 0)
  {
  }

  lemma TiedByte(b: seq<byte>, p1: nat, p2: nat, i1: nat, i2: nat, m: nat)
    requires Tied(b, p1, p2, i1, i2, m) && At(b, i1) != At(b, i2)
    ensures if At(b, i1) > At(b, i2) then Cmp(b, p1, p2, |b|) >= 0 else Cmp(b, p1, p2, |b|) <= 0
  {
    TiedDecides(b, p1, p2, i1, i2, m);
  }

  lemma TiedQuadrant(b: seq<byte>, q: seq<int>, p1: nat, p2: nat, i1: nat, i2: nat, m: nat)
    requires Tied(b, p1, p2, i1, i2, m) && Quadrants(b, q) && i1 < |q| && i2 < |q| && At(b, i1) == At(b, i2) && q[i1] != q[i2]
    ensures if q[i1] > q[i2] then Cmp(b, p1, p2, |b|) >= 0 else Cmp(b, p1, p2, |b|) <= 0
  {
    TiedDecides(b, p1, p2, i1, i2, m);
    CmpAnti(b, i1, i2, |b|);
  }

  /** gt says which of the two rotations is not smaller. */
  ghost predicate Compares(b: seq<byte>, p1: nat, p2: nat, gt: bool) {
    |b| > 0 && if gt then Cmp(b, p1, p2, |b|) >= 0 else Cmp(b, p1, p2, |b|) <= 0
  }

  lemma ByteDecides(b: seq<byte>, blk: seq<int>, p1: nat, p2: nat, i1: nat, i2: nat, m: nat)
    requires Tied(b, p1, p2, i1, i2, m) && Extended(b, blk) && i1 < |blk| && i2 < |blk|
    ensures blk[i1] != blk[i2] ==> Compares(b, p1, p2, blk[i1] > blk[i2])
    ensures blk[i1] == blk[i2] ==> At(b, i1) == At(b, i2) && Tied(b, p1, p2, i1 + 1, i2 + 1, m + 1)
  {
    hide Tied, Cmp, At;
    if blk[i1] != blk[i2] { TiedByte(b, p1, p2, i1, i2, m); } else { TiedStep(b, p1, p2, i1, i2, m); }
  }

  lemma QuadrantDecides(b: seq<byte>, q: seq<int>, p1: nat, p2: nat, i1: nat, i2: nat, m: nat)
    requires Tied(b, p1, p2, i1, i2, m) && Quadrants(b, q) && i1 < |q| && i2 < |q| && At(b, i1) == At(b, i2)
    ensures q[i1] != q[i2] ==> Compares(b, p1, p2, q[i1] > q[i2])
  {
    hide Tied, Cmp, At;
    if q[i1] != q[i2] { TiedQuadrant(b, q, p1, p2, i1, i2, m); }
  }

  /** Compares the rotations at i1 and i2.  No index reaches past the overshoot area: starting at most
      15 places on, twelve bytes and then eight more are read before wrapping round. */
  method MainGtU(i10: nat, i20: nat, block: array<int>, quadrant: array<int>, nblock: nat, budget0: int, ghost b: seq<byte>) returns (gt: bool, budget: int)
    requires Extended(b, block[..]) && Quadrants(b, quadrant[..]) && nblock == |b|
    requires i10 < nblock + DEPTH_MAX && i20 < nblock + DEPTH_MAX
    ensures Compares(b, i10, i20, gt) && budget <= budget0
  {
    hide Tied, Compares, Cmp, At, Extended, Quadrants;
    Sizes(b, block[..], quadrant[..]);
    var i1: nat, i2: nat := i10, i20;
    budget := budget0;
    TiedStart(b, i1, i2);
    for t := 0 to 12
      invariant Tied(b, i10, i20, i1, i2, t) && i1 == i10 + t && i2 == i20 + t
    {
      ByteDecides(b, block[..], i10, i20, i1, i2, t);
      var c1, c2 := block[i1], block[i2];
      if c1 != c2 { return c1 > c2, budget; }
      i1, i2 := i1 + 1, i2 + 1;
    }
    var k: int := nblock + 8;
    ghost var m: nat := 12;
    var more := true;
    while more
      invariant Tied(b, i10, i20, i1, i2, m) && i1 < nblock + 27 && i2 < nblock + 27 && m == 12 + (nblock + 8 - k)
      invariant more <==> k >= 0
      invariant budget <= budget0
      decreases k
    {
      var done;
      done, gt := EightMore(i1, i2, block, quadrant, b, i10, i20, m);
      if done { return; }
      i1, i2, m := i1 + 8, i2 + 8, m + 8;
      if i1 >= nblock {
        TiedWrap1(b, i10, i20, i1, i2, m);
        i1 := i1 - nblock;
      }
      if i2 >= nblock {
        TiedWrap2(b, i10, i20, i1, i2, m);
        i2 := i2 - nblock;
      }
      k := k - 8;
      budget := budget - 1;
      more := k >= 0;
    }
    gt := false;
    AllTied(b, i10, i20, i1, i2, m);
  }

  lemma AllTied(b: seq<byte>, p1: nat, p2: nat, i1: nat, i2: nat, m: nat)
    requires Tied(b, p1, p2, i1, i2, m) && m >= |b|
    ensures Compares(b, p1, p2, false)
  {
    TiedThrough(b, p1, p2, i1, i2, m);
  }

  lemma Sizes(b: seq<byte>, blk: seq<int>, q: seq<int>)
    requires Extended(b, blk) && Quadrants(b, q)
    ensures |b| >= N_OVERSHOOT && |blk| == |q| == |b| + N_OVERSHOOT
  {
  }

  /** The eight steps of the main comparison loop. */
  method EightMore(i10: nat, i20: nat, block: array<int>, quadrant: array<int>, ghost b: seq<byte>, ghost p1: nat, ghost p2: nat, ghost m: nat)
    returns (done: bool, gt: bool)
    requires Extended(b, block[..]) && Quadrants(b, quadrant[..]) && i10 + 7 < block.Length && i20 + 7 < block.Length
    requires Tied(b, p1, p2, i10, i20, m)
    ensures done ==> Compares(b, p1, p2, gt)
    ensures !done ==> Tied(b, p1, p2, i10 + 8, i20 + 8, m + 8)
  {
    hide Tied, Compares, Cmp, At, Extended, Quadrants;
    Sizes(b, block[..], quadrant[..]);
    done, gt := false, false;
    for t := 0 to 8
      invariant Tied(b, p1, p2, i10 + t, i20 + t, m + t)
    {
      ByteDecides(b, block[..], p1, p2, i10 + t, i20 + t, m + t);
      var c1, c2 := block[i10 + t], block[i20 + t];
      if c1 != c2 { return true, c1 > c2; }
      QuadrantDecides(b, quadrant[..], p1, p2, i10 + t, i20 + t, m + t);
      var s1, s2 := quadrant[i10 + t], quadrant[i20 + t];
      if s1 != s2 { return true, s1 > s2; }
    }
  }
}

/** Why doubling works: what the header bits and the order mean at each depth, and what sorting one
    bucket by the classes of the following bytes does to them. */
module PrefixDoubling {
  import opened Rotations
  import opened Segments
  import opened FallbackQSort

  /** Slot i starts a class of positions that agree on d bytes. */
  ghost predicate Head(b: seq<byte>, p: seq<int>, i: int, d: nat)
    requires |b| > 0 && |p| == |b| && (forall x :: 0 <= x < |p| ==> 0 <= p[x]) && 0 <= i < |p|
  {
    i == 0 || Cmp(b, p[i - 1], p[i], d) != 0
  }

  /** In the middle of the round that goes from depth h to 2h, slots 0..r being done: p is sorted to
      depth h, its done part to depth 2h, and the header bits delimit the classes of those depths. */
  ghost predicate Mid(b: seq<byte>, p: seq<int>, bits: seq<bool>, h: nat, r: int) {
    && |b| > 0 && IsPerm(p, |b|) && |bits| > |b| && -1 <= r < |b|
    && SortedTo(b, p, h)
    && (forall i :: 0 <= i < |b| ==> (bits[i] <==> Head(b, p, i, if i <= r then 2 * h else h)))
    && (forall x, y :: 0 <= x < y <= r ==> Cmp(b, p[x], p[y], 2 * h) <= 0)
  }

  /** Between rounds: everything is at depth h. */
  ghost predicate Grouped(b: seq<byte>, p: seq<int>, bits: seq<bool>, h: nat) {
    && |b| > 0 && IsPerm(p, |b|) && |bits| > |b|
    && SortedTo(b, p, h)
    && forall i :: 0 <= i < |b| ==> (bits[i] <==> Head(b, p, i, h))
  }

  lemma RoundStart(b: seq<byte>, p: seq<int>, bits: seq<bool>, h: nat)
    requires Grouped(b, p, bits, h)
    ensures Mid(b, p, bits, h, -1)
  {
  }

  lemma RoundEnd(b: seq<byte>, p: seq<int>, bits: seq<bool>, h: nat)
    requires Mid(b, p, bits, h, |b| - 1)
    ensures Grouped(b, p, bits, 2 * h)
  {
  }

  lemma DeeperStrict(b: seq<byte>, i: nat, j: nat, h: nat, g: nat)
    requires |b| > 0 && h <= g && Cmp(b, i, j, h) < 0
    ensures Cmp(b, i, j, g) < 0
  {
    CmpSplit(b, i, j, h, g - h);
  }

  /** A header between x and y separates them strictly at depth h. */
  lemma AcrossHead(b: seq<byte>, p: seq<int>, h: nat, x: nat, m: nat, y: nat)
    requires |b| > 0 && IsPerm(p, |b|) && SortedTo(b, p, h) && x < m <= y < |b| && Head(b, p, m, h)
    ensures Cmp(b, p[x], p[y], h) < 0
  {
    CmpRefl(b, p[m - 1], h);
    CmpRefl(b, p[m], h);
    assert Cmp(b, p[x], p[m - 1], h) <= 0 && Cmp(b, p[m - 1], p[m], h) < 0 && Cmp(b, p[m], p[y], h) <= 0;
    CmpTrans(b, p[x], p[m - 1], p[m], h);
    CmpTrans(b, p[x], p[m], p[y], h);
  }

  /** No header between x and y: they agree to depth h. */
  lemma {:induction false} WithinClass(b: seq<byte>, p: seq<int>, h: nat, x: nat, y: nat)
    requires |b| > 0 && IsPerm(p, |b|) && SortedTo(b, p, h) && x <= y < |b|
    requires forall i :: x < i <= y ==> !Head(b, p, i, h)
    ensures Cmp(b, p[x], p[y], h) == 0 && Cmp(b, p[y], p[x], h) == 0
    decreases y
  {
    CmpRefl(b, p[x], h);
    if x < y {
      WithinClass(b, p, h, x, y - 1);
      assert !Head(b, p, y, h);
      CmpAnti(b, p[y - 1], p[y], h);
      CmpAnti(b, p[x], p[y - 1], h);
      CmpTrans(b, p[y], p[y - 1], p[x], h);
      CmpAnti(b, p[y], p[x], h);
    }
  }

  /** A stretch of header bits is a stretch of singleton classes, done at any depth. */
  lemma SkipSingles(b: seq<byte>, p: seq<int>, bits: seq<bool>, h: nat, r: int, l: int)
    requires Mid(b, p, bits, h, r) && r < l <= |b|
    requires forall i :: r < i < l ==> bits[i]
    requires l < |b| ==> bits[l]
    ensures Mid(b, p, bits, h, l - 1)
  {
    forall x, y | 0 <= x < y <= l - 1 ensures Cmp(b, p[x], p[y], 2 * h) <= 0 {
      if y > r {
        assert bits[y];
        AcrossHead(b, p, h, x, y, y);
        DeeperStrict(b, p[x], p[y], h, 2 * h);
      }
    }
    forall i | 0 <= i < |b| ensures bits[i] <==> Head(b, p, i, if i <= l - 1 then 2 * h else h) {
      if r < i <= l - 1 && i > 0 {
        assert bits[i];
        AcrossHead(b, p, h, i - 1, i, i);
        DeeperStrict(b, p[i - 1], p[i], h, 2 * h);
      }
    }
  }

  // ---------- the class array ----------

  /** ec orders positions the way h bytes from h on order them. */
  ghost predicate ClassOrder(b: seq<byte>, ec: seq<int>, h: nat) {
    && |b| > 0 && |ec| == |b|
    && forall u, v :: 0 <= u < |b| && 0 <= v < |b| ==>
         && (ec[u] < ec[v] ==> Cmp(b, u + h, v + h, h) < 0)
         && (ec[u] == ec[v] ==> Cmp(b, u + h, v + h, h) == 0)
  }

  /** Positions that agree on h bytes compare to depth 2h as their classes do. */
  lemma ClassDecides(b: seq<byte>, ec: seq<int>, h: nat, u: nat, v: nat)
    requires ClassOrder(b, ec, h) && u < |b| && v < |b| && Cmp(b, u, v, h) == 0
    ensures ec[u] <= ec[v] ==> Cmp(b, u, v, 2 * h) <= 0
    ensures Cmp(b, u, v, 2 * h) == 0 <==> ec[u] == ec[v]
  {
    CmpSplit(b, u, v, h, h);
    CmpAnti(b, u + h, v + h, h);
    assert ec[v] < ec[u] ==> Cmp(b, v + h, u + h, h) < 0;
  }

  // ---------- one bucket ----------

  /** The bits after the scan of bucket l..r: a header wherever the class changes. */
  ghost predicate Rescanned(ec: seq<int>, p: seq<int>, bits: seq<bool>, bits': seq<bool>, l: int, r: int) {
    && |bits'| == |bits|
    && 0 <= l <= r < |p| && r < |bits|
    && (forall x :: l <= x <= r ==> 0 <= p[x] < |ec|)
    && (forall i :: 0 <= i < |bits| && !(l <= i <= r) ==> bits'[i] == bits[i])
    && bits'[l]
    && (forall i :: l < i <= r ==> (bits'[i] <==> ec[p[i]] != ec[p[i - 1]]))
  }

  /** A bucket of depth h: headers at l and just after r, none between. */
  ghost predicate Bucket(bits: seq<bool>, n: nat, l: int, r: int) {
    0 <= l <= r < n < |bits| && bits[l] && (forall i :: l < i <= r ==> !bits[i]) && (r + 1 < n ==> bits[r + 1])
  }

  /** Entries of the bucket all agree on h bytes, before and after it is shuffled. */
  lemma BucketClass(b: seq<byte>, p: seq<int>, q: seq<int>, bits: seq<bool>, h: nat, l: int, r: int, x: int, y: int)
    requires Mid(b, p, bits, h, l - 1) && Bucket(bits, |b|, l, r) && Shuffled(p, q, l, r)
    requires l <= x <= r && l <= y <= r
    ensures 0 <= q[x] < |b| && 0 <= q[y] < |b| && Cmp(b, q[x], q[y], h) == 0
    ensures Cmp(b, p[x], q[y], h) == 0 && Cmp(b, q[y], p[x], h) == 0
  {
    var x' := ShuffledFrom(p, q, l, r, x);
    var y' := ShuffledFrom(p, q, l, r, y);
    forall u, v | l <= u <= v <= r ensures Cmp(b, p[u], p[v], h) == 0 && Cmp(b, p[v], p[u], h) == 0 {
      forall i | u < i <= v ensures !Head(b, p, i, h) { assert !bits[i]; }
      WithinClass(b, p, h, u, v);
    }
  }

  lemma ShufflePerm(p: seq<int>, q: seq<int>, n: nat, l: int, r: int)
    requires IsPerm(p, n) && Shuffled(p, q, l, r)
    ensures IsPerm(q, n)
  {
    forall x | 0 <= x < n ensures 0 <= q[x] < n {
      assert q[x] in multiset(q);
      assert q[x] in multiset(p);
    }
    forall x, y | 0 <= x < y < n ensures q[x] != q[y] {
      if q[x] == q[y] {
        TwoMembers(q, x, y);
        MembersOnce(p, q[x]);
        assert false;
      }
    }
  }

  lemma TwoMembers(q: seq<int>, x: nat, y: nat)
    requires x < y < |q| && q[x] == q[y]
    ensures multiset(q)[q[x]] >= 2
  {
    assert q == q[..y] + [q[y]] + q[y + 1..];
    assert q[x] == q[..y][x];
    assert q[x] in multiset(q[..y]);
  }

  lemma {:induction false} MembersOnce(p: seq<int>, v: int)
    requires forall x, y :: 0 <= x < y < |p| ==> p[x] != p[y]
    ensures multiset(p)[v] <= 1
    decreases |p|
  {
    if |p| > 0 {
      var k := |p| - 1;
      assert p == p[..k] + [p[k]];
      MembersOnce(p[..k], v);
      if v == p[k] { assert v !in p[..k]; }
    }
  }

  /** The bucket keeps its place at depth h whatever order its entries are put in. */
  lemma ShuffleSorted(b: seq<byte>, p: seq<int>, q: seq<int>, bits: seq<bool>, h: nat, l: int, r: int, x: nat, y: nat)
    requires Mid(b, p, bits, h, l - 1) && Bucket(bits, |b|, l, r) && Shuffled(p, q, l, r)
    requires x < y < |b|
    ensures 0 <= q[x] && 0 <= q[y] && Cmp(b, q[x], q[y], h) <= 0
    ensures x < l <= y || x <= r < y ==> Cmp(b, q[x], q[y], h) < 0
  {
    hide Cmp;
    ShufflePerm(p, q, |b|, l, r);
    assert SortedTo(b, p, h);
    if l <= x <= r && l <= y <= r {
      BucketClass(b, p, q, bits, h, l, r, x, y);
    } else if l <= x <= r {
      BucketClass(b, p, q, bits, h, l, r, x, x);
      AcrossHead(b, p, h, x, r + 1, y);
      CmpTrans(b, q[x], p[x], p[y], h);
    } else if l <= y <= r {
      BucketClass(b, p, q, bits, h, l, r, y, y);
      AcrossHead(b, p, h, x, l, y);
      CmpTrans(b, p[x], p[y], q[y], h);
    } else if x < l <= y {
      AcrossHead(b, p, h, x, l, y);
    }
  }

  lemma BucketOrder(b: seq<byte>, p: seq<int>, q: seq<int>, ec: seq<int>, bits: seq<bool>, h: nat, l: int, r: int, x: nat, y: nat)
    requires Mid(b, p, bits, h, l - 1) && Bucket(bits, |b|, l, r) && Shuffled(p, q, l, r)
    requires ClassOrder(b, ec, h) && SortedIn(ByClass(ec), q, l, r)
    requires x < y <= r
    ensures 0 <= q[x] && 0 <= q[y] && Cmp(b, q[x], q[y], 2 * h) <= 0
  {
    hide Cmp;
    ShuffleSorted(b, p, q, bits, h, l, r, x, y);
    if l <= x {
      BucketClass(b, p, q, bits, h, l, r, x, y);
      assert ByClass(ec)(q[x], q[y]);
      ClassDecides(b, ec, h, q[x], q[y]);
    } else if l <= y {
      DeeperStrict(b, q[x], q[y], h, 2 * h);
    }
  }

  lemma BucketHeads(b: seq<byte>, p: seq<int>, q: seq<int>, ec: seq<int>, bits: seq<bool>, bits': seq<bool>, h: nat, l: int, r: int, i: nat)
    requires Mid(b, p, bits, h, l - 1) && Bucket(bits, |b|, l, r) && Shuffled(p, q, l, r) && IsPerm(q, |b|)
    requires ClassOrder(b, ec, h) && Rescanned(ec, q, bits, bits', l, r)
    requires i < |b|
    ensures bits'[i] <==> Head(b, q, i, if i <= r then 2 * h else h)
  {
    hide Cmp;
    if i == 0 {
      assert bits[0];
    } else if i == l {
      ShuffleSorted(b, p, q, bits, h, l, r, i - 1, i);
      DeeperStrict(b, q[i - 1], q[i], h, 2 * h);
    } else if l < i <= r {
      BucketClass(b, p, q, bits, h, l, r, i - 1, i);
      ClassDecides(b, ec, h, q[i - 1], q[i]);
    } else if i == r + 1 {
      ShuffleSorted(b, p, q, bits, h, l, r, i - 1, i);
    } else {
      assert q[i - 1] == p[i - 1] && q[i] == p[i];
    }
  }

  /** Sorting one bucket by class and rescanning it moves the done part to its end. */
  lemma BucketDone(b: seq<byte>, p: seq<int>, q: seq<int>, ec: seq<int>, bits: seq<bool>, bits': seq<bool>, h: nat, l: int, r: int)
    requires Mid(b, p, bits, h, l - 1) && Bucket(bits, |b|, l, r) && Shuffled(p, q, l, r)
    requires ClassOrder(b, ec, h) && SortedIn(ByClass(ec), q, l, r)
    requires Rescanned(ec, q, bits, bits', l, r)
    ensures Mid(b, q, bits', h, r)
  {
    hide Cmp, ClassOrder, Rescanned, Bucket, Shuffled;
    RescannedSize(ec, q, bits, bits', l, r, |b|);
    ShufflePerm(p, q, |b|, l, r);
    forall x, y | 0 <= x < y < |b| ensures Cmp(b, q[x], q[y], h) <= 0 {
      ShuffleSorted(b, p, q, bits, h, l, r, x, y);
    }
    forall x, y | 0 <= x < y <= r ensures Cmp(b, q[x], q[y], 2 * h) <= 0 {
      BucketOrder(b, p, q, ec, bits, h, l, r, x, y);
    }
    forall i | 0 <= i < |b| ensures bits'[i] <==> Head(b, q, i, if i <= r then 2 * h else h) {
      BucketHeads(b, p, q, ec, bits, bits', h, l, r, i);
    }
  }

  lemma RescannedSize(ec: seq<int>, q: seq<int>, bits: seq<bool>, bits': seq<bool>, l: int, r: int, n: nat)
    requires Rescanned(ec, q, bits, bits', l, r) && Bucket(bits, n, l, r)
    ensures |bits'| == |bits| && 0 <= l <= r < n
  {
  }

  // ---------- classes from headers ----------

  /** The header at or before slot i: what the source keeps in j. */
  ghost function LastHead(bits: seq<bool>, i: nat): (j: nat)
    requires i < |bits| && bits[0]
    ensures j <= i && bits[j]
    ensures forall k :: j < k <= i ==> !bits[k]
  {
    if bits[i] then i else LastHead(bits, i - 1)
  }

  lemma LastHeadOrder(b: seq<byte>, p: seq<int>, bits: seq<bool>, h: nat, x: nat, y: nat)
    requires Grouped(b, p, bits, h) && bits[0] && x < |b| && y < |b|
    ensures LastHead(bits, x) < LastHead(bits, y) ==> Cmp(b, p[x], p[y], h) < 0
    ensures LastHead(bits, x) == LastHead(bits, y) ==> Cmp(b, p[x], p[y], h) == 0
  {
    var i, j := LastHead(bits, x), LastHead(bits, y);
    if i < j {
      assert x < j;
      AcrossHead(b, p, h, x, j, y);
    } else if i == j {
      forall k | i < k <= x || i < k <= y ensures !Head(b, p, k, h) { assert !bits[k]; }
      if x <= y { WithinClass(b, p, h, x, y); } else { WithinClass(b, p, h, y, x); }
    }
  }

  function Back(v: nat, h: nat, n: nat): int
  {
    if v < h then v - h + n else v - h
  }

  /** Numbering each position by the class that starts h bytes on gives the order ClassOrder asks for. */
  lemma ClassesOrdered(b: seq<byte>, p: seq<int>, bits: seq<bool>, ec: seq<int>, h: nat)
    requires Grouped(b, p, bits, h) && bits[0] && h <= |b| == |ec|
    requires forall i :: 0 <= i < |b| ==> ec[Back(p[i], h, |b|)] == LastHead(bits, i)
    ensures ClassOrder(b, ec, h)
  {
    forall u, v | 0 <= u < |b| && 0 <= v < |b|
      ensures ec[u] < ec[v] ==> Cmp(b, u + h, v + h, h) < 0
      ensures ec[u] == ec[v] ==> Cmp(b, u + h, v + h, h) == 0
    {
      var x := SlotOf(b, p, h, u);
      var y := SlotOf(b, p, h, v);
      LastHeadOrder(b, p, bits, h, x, y);
      ForwardCmp(b, h, p[x], u, p[y], v);
    }
  }

  lemma SlotOf(b: seq<byte>, p: seq<int>, h: nat, u: nat) returns (x: nat)
    requires IsPerm(p, |b|) && u < |b| && h <= |b|
    ensures x < |b| && Back(p[x], h, |b|) == u
  {
    x := InRange(p, |b|, if u + h < |b| then u + h else u + h - |b|);
  }

  lemma ForwardCmp(b: seq<byte>, h: nat, v: nat, u: nat, v': nat, u': nat)
    requires |b| > 0 && h <= |b| && v < |b| && v' < |b| && u == Back(v, h, |b|) && u' == Back(v', h, |b|)
    ensures Cmp(b, u + h, u' + h, h) == Cmp(b, v, v', h)
  {
    CmpWrap(b, v, v', h);
    CmpWrap(b, v, v' + |b|, h);
  }

  // ---------- when to stop ----------

  /** All classes are single, or the depth has passed the block length: the order is final. */
  lemma FullySorted(b: seq<byte>, p: seq<int>, bits: seq<bool>, h: nat)
    requires Grouped(b, p, bits, h) && (h >= |b| || forall i :: 0 <= i < |b| ==> bits[i])
    ensures RotationSorted(b, p)
  {
    forall x, y | 0 <= x < y < |b| ensures Cmp(b, p[x], p[y], |b|) <= 0 {
      if h >= |b| {
        CmpSplit(b, p[x], p[y], |b|, h - |b|);
      } else {
        assert bits[y];
        AcrossHead(b, p, h, x, y, y);
        DeeperStrict(b, p[x], p[y], h, |b|);
      }
    }
  }
}

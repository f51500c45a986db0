/** The fallback block sort: prefix doubling over header bits, with the block restored at the end. */
module FallbackSort {
  import opened Rotations
  import opened Counting
  import opened Segments
  import opened Partitioning
  import opened FallbackQSort
  import opened HeaderBits
  import opened PrefixDoubling
  import opened RadixStart

  /** The sentinel bits after the block: set and clear in turn. */
  ghost predicate Sentinels(bits: seq<bool>, n: nat) {
    |bits| > n + 1 && bits[n] && !bits[n + 1]
  }

  lemma BackInjective(v: nat, w: nat, h: nat, n: nat)
    requires v < n && w < n && h <= n && v != w
    ensures 0 <= Back(v, h, n) < n && 0 <= Back(w, h, n) < n && Back(v, h, n) != Back(w, h, n)
  {
  }

  /** Numbers every position by the class of the position h further on. */
  method Classify(fmap: array<int>, eclass: array<int>, bh: BhTab, h: nat, ghost b: seq<byte>)
    requires fmap != eclass && bh.Valid() && fmap.Length == eclass.Length == |b| && 1 <= h <= |b|
    requires Grouped(b, fmap[..], bh.bits, h)
    modifies eclass
    ensures ClassOrder(b, eclass[..], h)
    ensures forall u :: 0 <= u < |b| ==> 0 <= eclass[u]
  {
    hide SortedTo, Head, Grouped, Back, LastHead, ClassOrder;
    ghost var p, bits := fmap[..], bh.bits;
    HeadFirst(b, p, bits, h);
    var j := 0;
    for i := 0 to fmap.Length
      invariant bh.Valid() && bh.bits == bits
      invariant i > 0 ==> j == LastHead(bits, i - 1)
      invariant forall x :: 0 <= x < i ==> 0 <= Back(p[x], h, |b|) < |b| && eclass[Back(p[x], h, |b|)] == LastHead(bits, x)
    {
      var head := bh.IsSet(i);
      if head { j := i; }
      var k := fmap[i] - h;
      if k < 0 { k := k + fmap.Length; }
      BackIs(p[i], h, |b|);
      LastHeadStep(bits, i);
      forall x | 0 <= x < i ensures k != Back(p[x], h, |b|) { BackInjective(p[x], p[i], h, |b|); }
      eclass[k] := j;
    }
    ClassesOrdered(b, p, bits, eclass[..], h);
    forall u | 0 <= u < |b| ensures 0 <= eclass[u] {
      var x := SlotOf(b, p, h, u);
    }
  }

  lemma BackIs(v: nat, h: nat, n: nat)
    requires v < n && h <= n
    ensures Back(v, h, n) == if v - h < 0 then v - h + n else v - h
  {
  }

  lemma LastHeadStep(bits: seq<bool>, i: nat)
    requires i < |bits| && bits[0]
    ensures LastHead(bits, i) == if bits[i] then i else LastHead(bits, i - 1)
  {
  }

  lemma HeadFirst(b: seq<byte>, p: seq<int>, bits: seq<bool>, h: nat)
    requires Grouped(b, p, bits, h)
    ensures |bits| > |b| > 0 && bits[0] && IsPerm(p, |b|)
  {
  }

  /** Scans the sorted bucket l..r and sets a header bit wherever the class changes. */
  method Rescan(fmap: array<int>, eclass: array<int>, bh: BhTab, l: int, r: int)
    requires bh.Valid() && 0 <= l <= r < fmap.Length && r < |bh.bits| && bh.bits[l]
    requires Valued(fmap[..], l, r, eclass.Length)
    requires forall u :: 0 <= u < eclass.Length ==> 0 <= eclass[u]
    requires forall i :: l < i <= r ==> !bh.bits[i]
    modifies bh, bh.words
    ensures bh.Valid()
    ensures Rescanned(eclass[..], fmap[..], old(bh.bits), bh.bits, l, r)
  {
    ghost var bits, p, ec := bh.bits, fmap[..], eclass[..];
    var cc := -1;
    for i := l to r + 1
      invariant bh.Valid() && |bh.bits| == |bits| && fmap[..] == p && eclass[..] == ec
      invariant cc == if i == l then -1 else ec[p[i - 1]]
      invariant forall k :: 0 <= k < |bits| && !(l <= k < i) ==> bh.bits[k] == bits[k]
      invariant i > l ==> bh.bits[l]
      invariant forall k :: l < k < i ==> (bh.bits[k] <==> ec[p[k]] != ec[p[k - 1]])
    {
      assert p[i] == fmap[i] && 0 <= p[i] < |ec|;
      var cc1 := eclass[fmap[i]];
      if cc != cc1 {
        bh.Put(i, true);
        cc := cc1;
      }
    }
  }

  /** The stretch of set bits up to the next bucket, seen from slot r. */
  lemma NextBucket(b: seq<byte>, p: seq<int>, bits: seq<bool>, h: nat, r: int, k1: int)
    requires Mid(b, p, bits, h, r) && Sentinels(bits, |b|)
    requires r + 1 < |b| ==> bits[r + 1]
    requires r + 1 <= k1 <= |b| + 1 && !bits[k1] && forall i :: r + 1 <= i < k1 ==> bits[i]
    ensures k1 - 1 < |b| ==> r < k1 - 1 && k1 < |b| && Mid(b, p, bits, h, k1 - 2)
    ensures k1 - 1 >= |b| ==> Mid(b, p, bits, h, |b| - 1)
  {
    if k1 - 1 < |b| {
      SkipSingles(b, p, bits, h, r, k1 - 1);
    } else {
      SkipSingles(b, p, bits, h, r, |b|);
    }
  }

  lemma BucketValued(b: seq<byte>, p: seq<int>, bits: seq<bool>, h: nat, r: int, l: int, hi: int)
    requires Mid(b, p, bits, h, r) && 0 <= l <= hi < |b|
    ensures Valued(p, l, hi, |b|)
  {
  }

  lemma RescanKeeps(ec: seq<int>, p: seq<int>, bits: seq<bool>, bits': seq<bool>, n: nat, l: int, r: int)
    requires Rescanned(ec, p, bits, bits', l, r) && Sentinels(bits, n) && Bucket(bits, n, l, r)
    ensures Sentinels(bits', n) && bits'[r + 1]
  {
  }

  /** One bucket of the round: quicksort by class, then rescan. */
  method SortBucket(fmap: array<int>, eclass: array<int>, bh: BhTab, l: int, r: int, h: nat, ghost b: seq<byte>)
    requires fmap != eclass && bh.Valid() && fmap.Length == eclass.Length == |b| < 0x8000_0000
    requires Mid(b, fmap[..], bh.bits, h, l - 1) && Bucket(bh.bits, |b|, l, r) && Sentinels(bh.bits, |b|)
    requires ClassOrder(b, eclass[..], h) && forall u :: 0 <= u < |b| ==> 0 <= eclass[u]
    modifies fmap, bh, bh.words
    ensures bh.Valid() && Sentinels(bh.bits, |b|) && Mid(b, fmap[..], bh.bits, h, r) && bh.bits[r + 1]
  {
    hide Mid, ClassOrder, Shuffled, SortedIn, Rescanned, Sentinels, ByClass;
    ghost var p, ec, bits := fmap[..], eclass[..], bh.bits;
    BucketValued(b, p, bits, h, l - 1, l, r);
    FallbackQSort3(fmap, eclass, l, r);
    ghost var q := fmap[..];
    assert eclass[..] == ec;
    ShuffledValued(p, q, l, r, |b|);
    Rescan(fmap, eclass, bh, l, r);
    BucketDone(b, p, q, ec, bits, bh.bits, h, l, r);
    RescanKeeps(ec, q, bits, bh.bits, |b|, l, r);
  }

  /** Finds the bucket after slot r, if there is one: its bounds, and everything up to it done. */
  method FindBucket(bh: BhTab, r0: int, nblock: nat, ghost h: nat, ghost b: seq<byte>, ghost p: seq<int>) returns (l: int, r: int)
    requires bh.Valid() && nblock == |b| && Sentinels(bh.bits, |b|) && Mid(b, p, bh.bits, h, r0)
    requires r0 + 1 < |b| ==> bh.bits[r0 + 1]
    ensures r0 < l
    ensures l >= |b| ==> Mid(b, p, bh.bits, h, |b| - 1) && forall i :: r0 + 1 <= i < |b| ==> bh.bits[i]
    ensures l < |b| ==> l < r < |b| && Mid(b, p, bh.bits, h, l - 1) && Bucket(bh.bits, |b|, l, r)
  {
    assert |b| > 0 && -1 <= r0 < |b|;
    hide Mid, BhTab.Valid;
    var k := bh.SkipRun(r0 + 1, true, |b| + 1);
    NextBucket(b, p, bh.bits, h, r0, k);
    l, r := k - 1, 0;
    if l < nblock {
      k := bh.SkipRun(k, false, |b|);
      r := k - 1;
    }
  }

  /** One round of doubling, from depth h to depth 2h; also counts the slots still shared. */
  method Refine(fmap: array<int>, eclass: array<int>, bh: BhTab, h: nat, ghost b: seq<byte>) returns (nNotDone: nat)
    requires fmap != eclass && bh.Valid() && fmap.Length == eclass.Length == |b| < 0x8000_0000 && 1 <= h <= |b|
    requires Grouped(b, fmap[..], bh.bits, h) && Sentinels(bh.bits, |b|)
    modifies fmap, eclass, bh, bh.words
    ensures bh.Valid() && Sentinels(bh.bits, |b|) && Grouped(b, fmap[..], bh.bits, 2 * h)
    ensures nNotDone == 0 ==> forall i :: 0 <= i < |b| ==> bh.bits[i]
  {
    HeadFirst(b, fmap[..], bh.bits, h);
    RoundStart(b, fmap[..], bh.bits, h);
    hide Mid, Grouped, ClassOrder, IsPerm, Bucket, BhTab.Valid;
    Classify(fmap, eclass, bh, h, b);
    nNotDone := 0;
    var r := -1;
    while true
      invariant bh.Valid() && Sentinels(bh.bits, |b|) && -1 <= r < |b|
      invariant Mid(b, fmap[..], bh.bits, h, r) && (r + 1 < |b| ==> bh.bits[r + 1])
      invariant ClassOrder(b, eclass[..], h) && forall u :: 0 <= u < |b| ==> 0 <= eclass[u]
      invariant nNotDone == 0 ==> r == -1
      decreases |b| - r
    {
      var l;
      l, r := FindBucket(bh, r, fmap.Length, h, b, fmap[..]);
      if l >= fmap.Length { break; }
      if r > l {
        nNotDone := nNotDone + (r - l + 1);
        SortBucket(fmap, eclass, bh, l, r, h, b);
      }
    }
    RoundEnd(b, fmap[..], bh.bits, h);
  }

  method InitHeaders(ftab: array<int>, bh: BhTab, nblock: nat, ghost b: seq<byte>)
    requires ftab.Length == 257 && bh.Valid() && nblock == |b| > 0 && bh.words.Length >= 3 + nblock / 32
    requires forall c :: 0 <= c < 256 ==> ftab[c] == Start(b, c)
    modifies bh, bh.words
    ensures bh.Valid() && Sentinels(bh.bits, nblock)
    ensures forall i :: 0 <= i < nblock ==> (bh.bits[i] <==> Begins(b, i))
  {
    hide Start;
    bh.Clear(2 + nblock / 32);
    StartsInside(b);
    for i := 0 to 256
      invariant bh.Valid() && |bh.bits| == 32 * bh.words.Length
      invariant forall c :: 0 <= c < 256 ==> ftab[c] == Start(b, c)
      invariant forall k :: 0 <= k < nblock ==> (bh.bits[k] <==> exists c: nat :: c < i && Start(b, c) == k)
    {
      bh.Put(ftab[i], true);
    }
    for i := 0 to 32
      invariant bh.Valid() && |bh.bits| == 32 * bh.words.Length
      invariant forall k :: 0 <= k < nblock ==> (bh.bits[k] <==> Begins(b, k))
      invariant i > 0 ==> Sentinels(bh.bits, nblock)
    {
      bh.Put(nblock + 2 * i, true);
      bh.Put(nblock + 2 * i + 1, false);
    }
  }

  lemma StartsInside(b: seq<byte>)
    ensures forall c: nat :: c <= 256 ==> 0 <= Start(b, c) <= |b|
  {
    StartTotal(b, 256);
    forall c: nat | c <= 256 ensures 0 <= Start(b, c) <= |b| {
      StartMono(b, 0, c);
      StartMono(b, c, 256);
    }
  }

  /** The whole sort. The result is a permutation in order of full rotation, and the block, which
      the class numbers overwrote, is back byte for byte. */
  method FallbackSort(fmap: array<int>, eclass: array<int>, eclass8: array<int>, bh: BhTab, ghost b: seq<byte>)
    requires fmap != eclass && fmap != eclass8 && eclass != eclass8
    requires bh.Valid() && bh.words.Length >= 3 + |b| / 32
    requires fmap.Length == eclass.Length == eclass8.Length == |b| && 0 < |b| < 0x8000_0000
    requires eclass8[..] == b
    modifies fmap, eclass, eclass8, bh, bh.words
    ensures RotationSorted(b, fmap[..])
    ensures eclass8[..] == b
  {
    hide Grouped, Radixed, IsPerm, SortedTo, Begins, Start, Occ;
    var nblock := fmap.Length;
    var ftab, ftabCopy := new int[257], new int[256];
    CountBytes(eclass8, ftab, ftabCopy, b);
    Scatter(eclass8, ftab, fmap, b);
    InitHeaders(ftab, bh, nblock, b);
    RadixedGrouped(b, fmap[..], bh.bits);
    var h := 1;
    while true
      invariant bh.Valid() && Sentinels(bh.bits, |b|) && 1 <= h <= nblock
      invariant Grouped(b, fmap[..], bh.bits, h)
      invariant forall c :: 0 <= c < 256 ==> ftabCopy[c] == Occ(b, c, |b|)
      decreases nblock - h
    {
      var nNotDone := Refine(fmap, eclass, bh, h, b);
      h := h * 2;
      if h > nblock || nNotDone == 0 { break; }
    }
    FullySorted(b, fmap[..], bh.bits, h);
    Reconstruct(fmap, ftabCopy, eclass8, b);
  }
}

/** The fallback sort's opening one-byte radix sort, and the closing reconstruction of the block. */
module RadixStart {
  import opened Rotations
  import opened Counting
  import opened HeaderBits
  import opened PrefixDoubling

  /** Where position i lands when every bucket is filled from its end. */
  ghost function RSlot(b: seq<byte>, i: nat): int
    requires i < |b|
  {
    Start(b, b[i] as int + 1) - Occ(b, b[i], i) - 1
  }

  lemma RSlotRange(b: seq<byte>, i: nat)
    requires i < |b|
    ensures Start(b, b[i]) <= RSlot(b, i) < Start(b, b[i] as int + 1) <= |b|
  {
    OccMono(b, b[i], i, |b|);
    OccMono(b, b[i], i + 1, |b|);
    StartMono(b, b[i] as int + 1, 256);
    StartTotal(b, 256);
  }

  lemma RSlotOrder(b: seq<byte>, i: nat, j: nat)
    requires i < |b| && j < |b|
    requires b[i] < b[j] || (b[i] == b[j] && i > j)
    ensures RSlot(b, i) < RSlot(b, j)
  {
    RSlotRange(b, i);
    RSlotRange(b, j);
    if b[i] < b[j] { StartMono(b, b[i] as int + 1, b[j]); } else { OccMono(b, b[i], j, i); }
  }

  ghost function RSlots(b: seq<byte>): (f: seq<int>)
    ensures |f| == |b| && forall i :: 0 <= i < |b| ==> f[i] == RSlot(b, i)
  {
    seq(|b|, i requires 0 <= i < |b| => RSlot(b, i))
  }

  lemma RSlotsPerm(b: seq<byte>)
    ensures IsPerm(RSlots(b), |b|)
  {
    forall i | 0 <= i < |b| ensures 0 <= RSlot(b, i) < |b| { RSlotRange(b, i); }
    forall i, j | 0 <= i < j < |b| ensures RSlot(b, i) != RSlot(b, j) {
      if b[i] < b[j] { RSlotOrder(b, i, j); } else { RSlotOrder(b, j, i); }
    }
  }

  /** Slot x holds a byte whose bucket contains x. */
  lemma SlotBucket(b: seq<byte>, p: seq<int>, x: nat)
    requires |p| == |b| && x < |b| && IsPerm(p, |b|) && RSlot(b, p[x]) == x
    ensures Start(b, b[p[x]]) <= x < Start(b, b[p[x]] as int + 1)
  {
    RSlotRange(b, p[x]);
  }

  ghost predicate Radixed(b: seq<byte>, p: seq<int>) {
    |b| > 0 && IsPerm(p, |b|) && forall x :: 0 <= x < |b| ==> RSlot(b, p[x]) == x
  }

  /** The bytes come out in non-descending order. */
  lemma RadixedOrder(b: seq<byte>, p: seq<int>, x: nat, y: nat)
    requires Radixed(b, p) && x < y < |b|
    ensures b[p[x]] <= b[p[y]] && Cmp(b, p[x], p[y], 1) <= 0
    ensures Cmp(b, p[x], p[y], 1) == 0 <==> b[p[x]] == b[p[y]]
  {
    if b[p[y]] < b[p[x]] { RSlotOrder(b, p[y], p[x]); }
    assert Cmp(b, p[x] + 1, p[y] + 1, 0) == 0;
  }

  /** Some bucket starts at slot i. */
  ghost predicate Begins(b: seq<byte>, i: int) {
    exists c: nat :: c < 256 && Start(b, c) == i
  }

  /** A slot is a class head at depth one exactly when some bucket starts there. */
  lemma RadixedHead(b: seq<byte>, p: seq<int>, i: nat)
    requires Radixed(b, p) && i < |b|
    ensures Head(b, p, i, 1) <==> Begins(b, i)
  {
    if i == 0 {
      assert Start(b, 0) == 0;
    } else {
      var e, d := b[p[i - 1]], b[p[i]];
      SlotBucket(b, p, i - 1);
      SlotBucket(b, p, i);
      RadixedOrder(b, p, i - 1, i);
      if e < d {
        StartMono(b, e as int + 1, d);
        assert Start(b, d) == i;
      } else {
        forall c: nat | c < 256 ensures Start(b, c) != i {
          if c <= e { StartMono(b, c, e); } else { StartMono(b, d as int + 1, c); }
        }
      }
    }
  }

  lemma RadixedGrouped(b: seq<byte>, p: seq<int>, bits: seq<bool>)
    requires Radixed(b, p) && |bits| > |b|
    requires forall i :: 0 <= i < |b| ==> (bits[i] <==> Begins(b, i))
    ensures Grouped(b, p, bits, 1)
  {
    hide Cmp, Begins, RSlot;
    forall x, y | 0 <= x < y < |b| ensures Cmp(b, p[x], p[y], 1) <= 0 { RadixedOrder(b, p, x, y); }
    forall i | 0 <= i < |b| ensures bits[i] <==> Head(b, p, i, 1) { RadixedHead(b, p, i); }
  }

  lemma OccNext(l: seq<int>, i: nat)
    requires i < |l|
    ensures forall c :: Occ(l, c, i + 1) == Occ(l, c, i) + if l[i] == c then 1 else 0
  {
  }

  /** Counts the bytes, then turns the counts into the ends of the buckets. */
  method CountBytes(eclass8: array<int>, ftab: array<int>, ftabCopy: array<int>, ghost b: seq<byte>)
    requires ftab.Length == 257 && ftabCopy.Length == 256
    requires ftab != ftabCopy && ftab != eclass8 && ftabCopy != eclass8
    requires eclass8[..] == b
    modifies ftab, ftabCopy
    ensures forall c :: 0 <= c < 256 ==> ftabCopy[c] == Occ(b, c, |b|)
    ensures forall c :: 0 <= c < 257 ==> ftab[c] == Start(b, c + 1)
  {
    hide Occ, Start;
    for i := 0 to 257
      invariant forall c :: 0 <= c < i ==> ftab[c] == 0
    {
      ftab[i] := 0;
    }
    OccStart(b);
    for i := 0 to eclass8.Length
      invariant eclass8[..] == b
      invariant forall c :: 0 <= c < 257 ==> ftab[c] == Occ(b, c, i)
    {
      OccNext(b, i);
      assert eclass8[i] == b[i];
      ftab[eclass8[i]] := ftab[eclass8[i]] + 1;
    }
    for i := 0 to 256
      invariant forall c :: 0 <= c < i ==> ftabCopy[c] == Occ(b, c, |b|)
      invariant forall c :: 0 <= c < 257 ==> ftab[c] == Occ(b, c, |b|)
    {
      ftabCopy[i] := ftab[i];
    }
    StartNext(b, 0);
    for i := 1 to 257
      invariant forall c :: 0 <= c < 256 ==> ftabCopy[c] == Occ(b, c, |b|)
      invariant forall c :: 0 <= c < i ==> ftab[c] == Start(b, c + 1)
      invariant forall c :: i <= c < 257 ==> ftab[c] == Occ(b, c, |b|)
    {
      StartNext(b, i);
      ftab[i] := ftab[i] + ftab[i - 1];
    }
  }

  lemma OccStart(b: seq<byte>)
    ensures forall c :: Occ(b, c, 0) == 0
    ensures Start(b, 0) == 0
  {
  }

  /** Fills fmap bucket by bucket from the ends that CountBytes left in ftab. */
  method Scatter(eclass8: array<int>, ftab: array<int>, fmap: array<int>, ghost b: seq<byte>)
    requires ftab.Length == 257 && ftab != eclass8 && fmap != eclass8 && fmap != ftab
    requires eclass8[..] == b && fmap.Length == |b| > 0
    requires forall c :: 0 <= c < 257 ==> ftab[c] == Start(b, c + 1)
    modifies ftab, fmap
    ensures Radixed(b, fmap[..])
    ensures forall c :: 0 <= c < 256 ==> ftab[c] == Start(b, c)
  {
    hide Occ, Start, RSlot;
    ghost var f := RSlots(b);
    RSlotsPerm(b);
    OccStart(b);
    for i := 0 to fmap.Length
      invariant forall c :: 0 <= c < 256 ==> ftab[c] == Start(b, c + 1) - Occ(b, c, i)
      invariant forall j :: 0 <= j < i ==> fmap[f[j]] == j
    {
      var j := eclass8[i];
      assert j == b[i];
      RSlotIs(b, i);
      var k := ftab[j] - 1;
      assert k == f[i];
      ftab[j] := k;
      fmap[k] := i;
    }
    InvertPerm(f, fmap[..], |b|);
    StartSteps(b);
  }

  lemma RSlotIs(b: seq<byte>, i: nat)
    requires i < |b|
    ensures RSlot(b, i) == Start(b, b[i] as int + 1) - Occ(b, b[i], i) - 1
    ensures forall c :: Occ(b, c, i + 1) == Occ(b, c, i) + if b[i] == c then 1 else 0
  {
  }

  lemma StartSteps(b: seq<byte>)
    ensures forall c: nat :: Start(b, c + 1) - Occ(b, c, |b|) == Start(b, c)
  {
  }

  // ---------- the block, rebuilt from its sorted order ----------

  /** The positions of bytes c among the first k entries of p. */
  ghost function Hits(b: seq<byte>, p: seq<int>, c: int, k: nat): (s: set<int>)
    requires k <= |p| && forall x :: 0 <= x < |p| ==> 0 <= p[x] < |b|
    ensures forall v :: v in s ==> exists x :: 0 <= x < k && p[x] == v && b[v] == c
    ensures forall x :: 0 <= x < k && b[p[x]] == c ==> p[x] in s
  {
    if k == 0 then {} else Hits(b, p, c, k - 1) + if b[p[k - 1]] == c then {p[k - 1]} else {}
  }

  /** The bytes in sorted order: the first column. */
  ghost function FirstColumn(b: seq<byte>, p: seq<int>): (f: seq<int>)
    requires forall x :: 0 <= x < |p| ==> 0 <= p[x] < |b|
    ensures |f| == |p| && forall x :: 0 <= x < |p| ==> f[x] == b[p[x]]
  {
    seq(|p|, x requires 0 <= x < |p| => b[p[x]])
  }

  lemma {:induction false} HitsSize(b: seq<byte>, p: seq<int>, c: int, k: nat)
    requires IsPerm(p, |b|) && k <= |b|
    ensures |Hits(b, p, c, k)| == Occ(FirstColumn(b, p), c, k)
  {
    if k > 0 {
      HitsSize(b, p, c, k - 1);
      assert p[k - 1] !in Hits(b, p, c, k - 1);
    }
  }

  ghost function Identity(n: nat): (p: seq<int>)
    ensures IsPerm(p, n) && forall x :: 0 <= x < n ==> p[x] == x
  {
    seq(n, x => x)
  }

  lemma {:induction false} OccSame(l: seq<int>, m: seq<int>, c: int, k: nat)
    requires k <= |l| && k <= |m| && forall x :: 0 <= x < k ==> l[x] == m[x]
    ensures Occ(l, c, k) == Occ(m, c, k)
  {
    if k > 0 { OccSame(l, m, c, k - 1); }
  }

  /** Permuting the positions does not change how often each byte occurs. */
  lemma OccPermuted(b: seq<byte>, p: seq<int>, c: int)
    requires IsPerm(p, |b|)
    ensures Occ(FirstColumn(b, p), c, |b|) == Occ(b, c, |b|)
  {
    hide Occ;
    var q := Identity(|b|);
    HitsSize(b, p, c, |b|);
    HitsSize(b, q, c, |b|);
    OccSame(FirstColumn(b, q), b, c, |b|);
    assert Hits(b, p, c, |b|) == Hits(b, q, c, |b|) by {
      forall v ensures v in Hits(b, p, c, |b|) <==> v in Hits(b, q, c, |b|) {
        if 0 <= v < |b| {
          var x := InRange(p, |b|, v);
          assert q[v] == v;
        }
      }
    }
  }

  /** Once the sorted bytes have reached f[i], nothing smaller is left. */
  lemma {:induction false} NoneLeft(f: seq<int>, c: int, i: nat, k: nat)
    requires i <= k <= |f| && forall x :: i <= x < |f| ==> c < f[x]
    ensures Occ(f, c, k) == Occ(f, c, i)
    decreases k
  {
    if i < k { NoneLeft(f, c, i, k - 1); }
  }

  lemma Remaining(b: seq<byte>, p: seq<int>, i: nat)
    requires RotationSorted(b, p) && i < |b|
    ensures var f := FirstColumn(b, p);
            && Occ(f, f[i], |b|) > Occ(f, f[i], i)
            && (forall c :: 0 <= c < f[i] ==> Occ(f, c, |b|) == Occ(f, c, i))
            && (i > 0 ==> f[i - 1] <= f[i])
  {
    var f := FirstColumn(b, p);
    OccMono(f, f[i], i, |b|);
    forall x, y | 0 <= x < y < |b| ensures f[x] <= f[y] {
      assert Cmp(b, p[x], p[y], |b|) <= 0;
    }
    forall c | 0 <= c < f[i] ensures Occ(f, c, |b|) == Occ(f, c, i) {
      NoneLeft(f, c, i, |b|);
    }
  }

  lemma FirstColumnNext(b: seq<byte>, p: seq<int>, i: nat)
    requires IsPerm(p, |b|) && i < |b|
    ensures var f := FirstColumn(b, p);
            forall c :: Occ(f, c, i + 1) == Occ(f, c, i) + if f[i] == c then 1 else 0
  {
  }

  lemma CountsAtStart(b: seq<byte>, p: seq<int>)
    requires IsPerm(p, |b|)
    ensures var f := FirstColumn(b, p);
            forall c :: Occ(f, c, |b|) == Occ(b, c, |b|) && Occ(f, c, 0) == 0
  {
    forall c ensures Occ(FirstColumn(b, p), c, |b|) == Occ(b, c, |b|) { OccPermuted(b, p, c); }
  }

  /** Writes the block back from the sorted order and the byte counts alone. */
  method Reconstruct(fmap: array<int>, ftabCopy: array<int>, eclass8: array<int>, ghost b: seq<byte>)
    requires ftabCopy.Length == 256 && fmap.Length == eclass8.Length == |b|
    requires ftabCopy != fmap && ftabCopy != eclass8 && fmap != eclass8
    requires RotationSorted(b, fmap[..])
    requires forall c :: 0 <= c < 256 ==> ftabCopy[c] == Occ(b, c, |b|)
    modifies ftabCopy, eclass8
    ensures eclass8[..] == b
  {
    hide Occ, SortedTo;
    ghost var p := fmap[..];
    ghost var f := FirstColumn(b, p);
    CountsAtStart(b, p);
    var j := 0;
    for i := 0 to fmap.Length
      invariant 0 <= j < 256 && (i > 0 ==> j <= f[i - 1])
      invariant forall c :: 0 <= c < 256 ==> ftabCopy[c] == Occ(f, c, |b|) - Occ(f, c, i)
      invariant forall x :: 0 <= x < i ==> eclass8[p[x]] == b[p[x]]
      invariant i == 0 ==> j == 0
    {
      Remaining(b, p, i);
      while ftabCopy[j] == 0
        invariant 0 <= j <= f[i]
        decreases f[i] - j
      {
        j := j + 1;
      }
      assert j == f[i];
      FirstColumnNext(b, p, i);
      ftabCopy[j] := ftabCopy[j] - 1;
      eclass8[fmap[i]] := j;
    }
    forall v | 0 <= v < |b| ensures eclass8[v] == b[v] {
      var x := InRange(p, |b|, v);
    }
    assert j < 256;  // assertion 1005 of the source
  }
}

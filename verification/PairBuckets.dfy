/** The main sort's two-byte radix sort: small buckets by the first two bytes of a rotation. */
module PairBuckets {
  import opened Rotations
  import opened Counting
  import opened BurrowsWheeler
  import opened Segments
  import opened MainCompare
  import opened MainSimpleSort

  const PAIRS: nat := 65536

  ghost function Pairs(b: seq<byte>): (k: seq<int>)
    requires |b| > 0
    ensures |k| == |b| && Keys(k, PAIRS)
    ensures forall i :: 0 <= i < |b| ==> k[i] == 256 * b[i] + At(b, i + 1)
  {
    seq(|b|, i requires 0 <= i < |b| => 256 * b[i] + At(b, i + 1))
  }

  ghost function PairSlots(k: seq<int>): (f: seq<int>)
    requires Keys(k, PAIRS)
    ensures |f| == |k| && forall i :: 0 <= i < |k| ==> f[i] == Slot(k, i)
  {
    seq(|k|, i requires 0 <= i < |k| => Slot(k, i))
  }

  lemma PairSlotsPerm(k: seq<int>)
    requires Keys(k, PAIRS)
    ensures IsPerm(PairSlots(k), |k|)
  {
    forall x | 0 <= x < |k| ensures PairSlots(k)[x] < |k| { SlotRange(k, PAIRS, x); }
    forall x, y | 0 <= x < y < |k| ensures PairSlots(k)[x] != PairSlots(k)[y] {
      if k[x] < k[y] || k[x] == k[y] { SlotOrder(k, PAIRS, x, y); } else { SlotOrder(k, PAIRS, y, x); }
    }
  }

  /** p is a permutation with every position inside the bucket of its key. */
  ghost predicate Bucketed(k: seq<int>, p: seq<int>) {
    && Keys(k, PAIRS) && IsPerm(p, |k|)
    && forall x :: 0 <= x < |k| ==> Start(k, k[p[x]]) <= x < Start(k, k[p[x]] + 1)
  }

  /** A slot belongs to one bucket only. */
  lemma BucketOf(k: seq<int>, p: seq<int>, x: nat, c: nat)
    requires Bucketed(k, p) && x < |k| && c < PAIRS
    ensures k[p[x]] == c <==> Start(k, c) <= x < Start(k, c + 1)
  {
    var d := k[p[x]];
    if d < c { StartMono(k, d + 1, c); }
    if c < d { StartMono(k, c + 1, d); }
  }

  lemma BucketOrder(k: seq<int>, p: seq<int>, x: nat, y: nat)
    requires Bucketed(k, p) && x < y < |k|
    ensures k[p[x]] <= k[p[y]]
  {
    if k[p[y]] < k[p[x]] { StartMono(k, k[p[y]] + 1, k[p[x]]); }
  }

  lemma ScatteredBucketed(k: seq<int>, p: seq<int>)
    requires Keys(k, PAIRS) && |p| == |k| && forall i :: 0 <= i < |k| ==> Slot(k, i) < |p| && p[Slot(k, i)] == i
    ensures Bucketed(k, p)
  {
    var f := PairSlots(k);
    PairSlotsPerm(k);
    forall i | 0 <= i < |k| ensures p[f[i]] == i { assert f[i] == Slot(k, i); }
    InvertPerm(f, p, |k|);
    forall x | 0 <= x < |k| ensures Start(k, k[p[x]]) <= x < Start(k, k[p[x]] + 1) {
      SlotRange(k, PAIRS, p[x]);
      assert f[p[x]] == x;
    }
  }

  // ---------- building it ----------

  lemma PairStep(b: seq<byte>, i: nat)
    requires i < |b|
    ensures 0 <= Pairs(b)[i] < PAIRS && Pairs(b)[i] / 256 == b[i]
    ensures (if i + 1 == |b| then b[0] * 256 else Pairs(b)[i + 1]) / 256 + b[i] * 256 == Pairs(b)[i]
  {
    var k := Pairs(b);
    assert k[i] == 256 * b[i] + At(b, i + 1);
    assert At(b, i + 1) == if i + 1 == |b| then b[0] else b[i + 1];
    assert i + 1 < |b| ==> k[i + 1] == 256 * b[i + 1] + At(b, i + 2);
    hide Pairs, At;
    HighByte(b[i], At(b, i + 1));
    if i + 1 == |b| { HighByte(b[0], 0); } else { HighByte(b[i + 1], At(b, i + 2)); }
  }

  lemma HighByte(h: byte, l: byte)
    ensures (256 * h + l) / 256 == h && (256 * h + l) % 256 == l && 0 <= 256 * h + l < PAIRS
  {
  }

  lemma OccBack(k: seq<int>, i: nat)
    requires i < |k|
    ensures forall c :: Occ(k, c, i + 1) == Occ(k, c, i) + if k[i] == c then 1 else 0
  {
  }

  /** Counts the pairs with a rolling two-byte key, from the last position down. */
  method CountPairs(block: array<int>, ftab: array<int>, nblock: nat, ghost b: seq<byte>)
    requires ftab.Length == PAIRS + 1 && block != ftab && nblock == |b| > 0 && nblock <= block.Length
    requires forall i :: 0 <= i < nblock ==> block[i] == b[i]
    modifies ftab
    ensures forall c :: 0 <= c <= PAIRS ==> ftab[c] == Occ(Pairs(b), c, |b|)
  {
    hide Occ, Pairs, At;
    ghost var k := Pairs(b);
    for t := 0 to PAIRS + 1
      invariant forall c :: PAIRS - t < c <= PAIRS ==> ftab[c] == 0
    {
      ftab[PAIRS - t] := 0;
    }
    var j := block[0] * 256;
    var i := nblock - 1;
    NoneCounted(k);
    while i >= 0
      invariant -1 <= i < nblock && j == if i + 1 == nblock then b[0] * 256 else k[i + 1]
      invariant forall c :: 0 <= c <= PAIRS ==> ftab[c] == Occ(k, c, |b|) - Occ(k, c, i + 1)
      decreases i
    {
      PairStep(b, i);
      OccBack(k, i);
      j := j / 256 + block[i] * 256;
      ftab[j] := ftab[j] + 1;
      i := i - 1;
    }
  }

  lemma NoneCounted(k: seq<int>)
    ensures forall c :: Occ(k, c, 0) == 0
  {
  }

  /** Turns counts into bucket ends. */
  method Accumulate(ftab: array<int>, ghost k: seq<int>)
    requires ftab.Length == PAIRS + 1 && Keys(k, PAIRS) && forall c :: 0 <= c <= PAIRS ==> ftab[c] == Occ(k, c, |k|)
    modifies ftab
    ensures forall c :: 0 <= c <= PAIRS ==> ftab[c] == Start(k, c + 1)
  {
    hide Occ, Start;
    StartNext(k, 0);
    StartZero(k);
    for i := 1 to PAIRS + 1
      invariant forall c :: 0 <= c < i ==> ftab[c] == Start(k, c + 1)
      invariant forall c :: i <= c <= PAIRS ==> ftab[c] == Occ(k, c, |k|)
    {
      StartNext(k, i);
      ftab[i] := ftab[i] + ftab[i - 1];
    }
  }

  lemma StartZero(k: seq<int>)
    ensures Start(k, 0) == 0
  {
  }

  lemma SlotIs(k: seq<int>, i: nat)
    requires Keys(k, PAIRS) && i < |k|
    ensures Slot(k, i) == Start(k, k[i]) + Occ(k, k[i], i) < |k|
    ensures Start(k, k[i] + 1) == Start(k, k[i]) + Occ(k, k[i], |k|)
  {
    SlotRange(k, PAIRS, i);
  }

  /** The ends of the buckets, with room left for the first n positions. */
  ghost predicate Ending(t: seq<int>, k: seq<int>, n: nat)
    requires n <= |k|
  {
    |t| == PAIRS + 1 && forall c :: 0 <= c <= PAIRS ==> t[c] == Start(k, c) + Occ(k, c, n)
  }

  lemma EndingStep(t: seq<int>, k: seq<int>, i: nat)
    requires Keys(k, PAIRS) && i < |k| && Ending(t, k, i + 1)
    ensures |t| == PAIRS + 1 && 0 <= k[i] < PAIRS && 0 <= t[k[i]] - 1 == Slot(k, i) < |k|
    ensures Ending(t[k[i] := t[k[i]] - 1], k, i)
  {
    hide Occ, Start, Slot;
    OccBack(k, i);
    SlotIs(k, i);
  }

  /** Position x stands in its slot, for every x from n on. */
  ghost predicate Slotted(p: seq<int>, f: seq<int>, n: nat) {
    IsPerm(f, |p|) && forall x :: n <= x < |f| ==> p[f[x]] == x
  }

  lemma SlottedStep(p: seq<int>, f: seq<int>, i: nat)
    requires i < |f| && Slotted(p, f, i + 1)
    ensures |p| == |f| && 0 <= f[i] < |p| && Slotted(p[f[i] := i], f, i)
  {
    ghost var q := p[f[i] := i];
    forall x | i <= x < |f| ensures q[f[x]] == x {
      if x > i { assert f[x] != f[i]; }
    }
  }

  /** The next position into the last free slot of its bucket. */
  method TakeSlot(ftab: array<int>, ptr: array<int>, s: nat, i: nat, ghost k: seq<int>, ghost f: seq<int>)
    requires ftab != ptr && Keys(k, PAIRS) && i < |k| && s == k[i] && f == PairSlots(k)
    requires Ending(ftab[..], k, i + 1) && Slotted(ptr[..], f, i + 1)
    modifies ftab, ptr
    ensures Ending(ftab[..], k, i) && Slotted(ptr[..], f, i)
  {
    hide *;
    ghost var t, p := ftab[..], ptr[..];
    EndingStep(t, k, i);
    SlottedStep(p, f, i);
    var j := ftab[s] - 1;
    ftab[s] := j;
    assert ftab[..] == t[s := j];
    ptr[j] := i;
    assert ptr[..] == p[j := i];
  }

  /** Fills the buckets from their ends, again from the last position down. */
  method ScatterPairs(block: array<int>, ftab: array<int>, ptr: array<int>, nblock: nat, ghost b: seq<byte>)
    requires ftab.Length == PAIRS + 1 && block != ftab && ptr != block && ptr != ftab && nblock == |b| == ptr.Length > 0 && nblock <= block.Length
    requires forall i :: 0 <= i < nblock ==> block[i] == b[i]
    requires forall c :: 0 <= c <= PAIRS ==> ftab[c] == Start(Pairs(b), c + 1)
    modifies ftab, ptr
    ensures Bucketed(Pairs(b), ptr[..])
    ensures forall c :: 0 <= c <= PAIRS ==> ftab[c] == Start(Pairs(b), c)
  {
    ghost var k := Pairs(b);
    ghost var f := PairSlots(k);
    ScatterStart(ftab[..], ptr[..], k);
    hide Occ, Start, Pairs, PairSlots, Slot, At, Ending, Slotted, Bucketed, IsPerm;
    var s := block[0] * 256;
    var i := nblock - 1;
    while i >= 0
      invariant -1 <= i < nblock && s == if i + 1 == nblock then b[0] * 256 else k[i + 1]
      invariant Ending(ftab[..], k, i + 1) && Slotted(ptr[..], f, i + 1)
      decreases i
    {
      PairStep(b, i);
      s := s / 256 + block[i] * 256;
      TakeSlot(ftab, ptr, s, i, k, f);
      i := i - 1;
    }
    ScatterEnd(ftab[..], ptr[..], k);
    assert forall c :: 0 <= c <= PAIRS ==> ftab[..][c] == ftab[c];
  }

  lemma ScatterStart(t: seq<int>, p: seq<int>, k: seq<int>)
    requires Keys(k, PAIRS) && |t| == PAIRS + 1 && |p| == |k| && forall c :: 0 <= c <= PAIRS ==> t[c] == Start(k, c + 1)
    ensures Ending(t, k, |k|) && Slotted(p, PairSlots(k), |k|)
  {
    hide Occ, Start, Slot;
    StartEvery(k);
    PairSlotsPerm(k);
  }

  lemma ScatterEnd(t: seq<int>, p: seq<int>, k: seq<int>)
    requires Keys(k, PAIRS) && |p| == |k| && Ending(t, k, 0) && Slotted(p, PairSlots(k), 0)
    ensures Bucketed(k, p) && |t| == PAIRS + 1 && forall c :: 0 <= c <= PAIRS ==> t[c] == Start(k, c)
  {
    NoneCounted(k);
    hide Occ, Start, Slot, Bucketed;
    ghost var f := PairSlots(k);
    forall i | 0 <= i < |k| ensures Slot(k, i) < |p| && p[Slot(k, i)] == i { assert f[i] == Slot(k, i); }
    ScatteredBucketed(k, p);
  }

  lemma StartEvery(k: seq<int>)
    ensures forall c: nat :: Start(k, c + 1) == Start(k, c) + Occ(k, c, |k|)
  {
  }
}

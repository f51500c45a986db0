/** Undoing the block sort: the FAST form packs byte and link into one word, the SMALL form keeps
    20-bit links in split arrays, reverses one cycle in place and finds bytes by binary search. */
module InverseBwt {
  import opened Rotations
  import opened Counting
  import opened BurrowsWheeler

  const BLOCK_UNIT: nat := 100000

  /** Prefix sums of the byte counts, with the decoder's sanity checks. */
  method MakeCftab(unzftab: array<int>, cftab: array<int>, nblock: nat, ghost l: seq<byte>) returns (ok: bool)
    requires unzftab.Length == 256 && cftab.Length == 257 && unzftab != cftab
    requires nblock == |l|
    requires forall c :: 0 <= c < 256 ==> unzftab[c] == Occ(l, c, |l|)
    modifies cftab
    ensures ok
    ensures forall c :: 0 <= c <= 256 ==> cftab[c] == Start(l, c)
  {
    hide Occ, Start;
    for c := 0 to 256 {
      if unzftab[c] < 0 || unzftab[c] > nblock { return false; }
    }
    cftab[0] := 0;
    for c := 1 to 257
      invariant cftab[0] == 0
      invariant forall d :: 1 <= d < c ==> cftab[d] == Occ(l, d - 1, |l|)
      invariant forall d :: 0 <= d < 256 ==> unzftab[d] == Occ(l, d, |l|)
    {
      cftab[c] := unzftab[c - 1];
    }
    StartTotal(l, 256);
    for c := 1 to 257
      invariant forall d :: 0 <= d < c ==> cftab[d] == Start(l, d)
      invariant forall d :: c <= d <= 256 ==> cftab[d] == Occ(l, d - 1, |l|)
    {
      StartNext(l, c - 1);
      cftab[c] := cftab[c] + cftab[c - 1];
    }
    for c := 0 to 257
      invariant forall d :: 0 <= d <= 256 ==> cftab[d] == Start(l, d)
    {
      StartMono(l, c, 256);
      if cftab[c] < 0 || cftab[c] > nblock { return false; }
    }
    for c := 1 to 257
      invariant forall d :: 0 <= d <= 256 ==> cftab[d] == Start(l, d)
    {
      StartMono(l, c - 1, c);
      if cftab[c - 1] > cftab[c] { return false; }
    }
    return true;
  }

  class Fast {
    const blockSize100k: nat
    const tt: array<int>
    var tPos: nat

    constructor (blockSize100k: nat)
      ensures this.blockSize100k == blockSize100k && tt.Length == BLOCK_UNIT * blockSize100k && fresh(tt)
    {
      this.blockSize100k := blockSize100k;
      tt := new int[BLOCK_UNIT * blockSize100k];
      tPos := 0;
    }

    /** Every word is a byte of the column with its link above it, and tPos is inside. */
    ghost predicate Linked(l: seq<byte>, t: seq<int>)
      reads this, tt
    {
      && |l| <= tt.Length == BLOCK_UNIT * blockSize100k
      && IsLinks(l, t)
      && (forall x :: 0 <= x < |l| ==> tt[x] == l[x] + 256 * t[x])
      && tPos < |l|
    }

    /** Builds the links over the column stored in tt and moves to the slot after origPtr. */
    method Build(cftab: array<int>, nblock: nat, origPtr: nat, ghost l: seq<byte>)
      requires origPtr < nblock == |l| <= tt.Length == BLOCK_UNIT * blockSize100k
      requires cftab.Length == 257 && cftab != tt
      requires forall x :: 0 <= x < nblock ==> tt[x] == l[x]
      requires forall c :: 0 <= c <= 256 ==> cftab[c] == Start(l, c)
      modifies this`tPos, tt, cftab
      ensures Linked(l, Links(l)) && tPos == Links(l)[origPtr]
    {
      hide Start, Occ, Slot, Links, Link;
      ghost var t := Links(l);
      PackStart(l);
      for i := 0 to nblock
        invariant forall c :: 0 <= c < 256 ==> cftab[c] == Start(l, c) + Occ(l, c, i)
        invariant forall x :: 0 <= x < nblock ==> tt[x] == l[x] + 256 * Link(t, x, i)
      {
        Unpack(tt[i], l[i], Link(t, i, i));
        var uc := tt[i] % 256;
        var k := cftab[uc];
        PackStep(l, i);
        assert tt[k] < 256;  // the link bits are still clear, so the source's OR is this sum
        tt[k] := tt[k] + 256 * i;
        cftab[uc] := cftab[uc] + 1;
      }
      LinkDone(t, nblock);
      Unpack(tt[origPtr], l[origPtr], t[origPtr]);
      LinksAreLinks(l);
      tPos := tt[origPtr] / 256;
    }

    /** One byte and one link; None would be the corrupt-data return. */
    method Get(ghost l: seq<byte>, ghost t: seq<int>) returns (ok: bool, c: byte)
      requires Linked(l, t)
      modifies this`tPos
      ensures ok && c == l[old(tPos)] && tPos == t[old(tPos)] && Linked(l, t)
    {
      ok, c := false, 0;
      if tPos >= BLOCK_UNIT * blockSize100k { return; }
      var w := tt[tPos];
      Unpack(w, l[tPos], t[tPos]);
      tPos := w / 256;
      return true, w % 256;
    }
  }

  ghost predicate InBounds(f: seq<int>) {
    forall x :: 0 <= x < |f| ==> 0 <= f[x] < |f|
  }

  /** The k-fold image of o under f. */
  ghost function Iter(f: seq<int>, o: int, k: nat): int
    requires 0 <= o < |f| && InBounds(f)
    ensures 0 <= Iter(f, o, k) < |f|
  {
    if k == 0 then o else f[Iter(f, o, k - 1)]
  }

  /** x is on the cycle of f through o. */
  ghost predicate OnCycle(f: seq<int>, o: int, x: int)
    requires 0 <= o < |f| && InBounds(f)
  {
    exists k: nat :: Iter(f, o, k) == x
  }

  ghost predicate Inverse(f: seq<int>, t: seq<int>) {
    && |t| == |f| && InBounds(f) && IsPerm(f, |f|) && IsPerm(t, |f|)
    && forall x :: 0 <= x < |f| ==> t[f[x]] == x && f[t[x]] == x
  }

  /** The first k slots reached from o, o itself not counted until it is reached again. */
  ghost function Visited(f: seq<int>, o: int, k: nat): set<int>
    requires 0 <= o < |f| && InBounds(f)
  {
    set m: nat | 1 <= m <= k :: Iter(f, o, m)
  }

  lemma {:induction false} IterCancel(f: seq<int>, o: int, a: nat, d: nat)
    requires IsPerm(f, |f|) && 0 <= o < |f|
    requires Iter(f, o, a + d) == Iter(f, o, a)
    ensures Iter(f, o, d) == o
  {
    if a > 0 {
      var x, y := Iter(f, o, a + d - 1), Iter(f, o, a - 1);
      assert f[x] == f[y];
      assert x == y;
      IterCancel(f, o, a - 1, d);
    }
  }

  /** The walk from o has not come back within k steps. */
  ghost predicate NotBack(f: seq<int>, o: int, k: nat)
    requires 0 <= o < |f| && InBounds(f)
  {
    forall m: nat :: 1 <= m <= k ==> Iter(f, o, m) != o
  }

  lemma VisitStart(f: seq<int>, o: int)
    requires InBounds(f) && 0 <= o < |f|
    ensures Iter(f, o, 0) == o && Visited(f, o, 0) == {} && NotBack(f, o, 0)
  {
  }

  /** Until the walk is back at o every step reaches a slot not visited before. */
  lemma VisitNew(f: seq<int>, o: int, k: nat)
    requires InBounds(f) && IsPerm(f, |f|) && 0 <= o < |f| && NotBack(f, o, k)
    ensures Iter(f, o, k + 1) !in Visited(f, o, k)
  {
    if Iter(f, o, k + 1) in Visited(f, o, k) {
      var m: nat :| 1 <= m <= k && Iter(f, o, m) == Iter(f, o, k + 1);
      IterCancel(f, o, m, k + 1 - m);
      assert false;
    }
  }

  lemma VisitedNext(f: seq<int>, o: int, k: nat)
    requires InBounds(f) && 0 <= o < |f|
    ensures Visited(f, o, k + 1) == Visited(f, o, k) + {Iter(f, o, k + 1)}
    ensures |Visited(f, o, k + 1)| <= |f|
  {
    SubsetSize(Visited(f, o, k + 1), Range(|f|));
  }

  lemma VisitStep(f: seq<int>, t: seq<int>, o: int, k: nat)
    requires Inverse(f, t) && 0 <= o < |f| && NotBack(f, o, k)
    ensures var i, j := Iter(f, o, k), f[Iter(f, o, k)];
            && t[j] == i && j !in Visited(f, o, k)
            && Iter(f, o, k + 1) == j && Visited(f, o, k + 1) == Visited(f, o, k) + {j}
            && (j != o ==> NotBack(f, o, k + 1))
    ensures |Visited(f, o, k + 1)| <= |f|
  {
    hide Visited, IsPerm;
    VisitNew(f, o, k);
    VisitedNext(f, o, k);
    assert Iter(f, o, k + 1) == f[Iter(f, o, k)];
  }

  lemma {:induction false} IterVisited(f: seq<int>, o: int, k: nat, m: nat)
    requires IsPerm(f, |f|) && 0 <= o < |f| && k > 0 && Iter(f, o, k) == o
    ensures Iter(f, o, m) in Visited(f, o, k)
    decreases m
  {
    if m > 0 {
      IterVisited(f, o, k, m - 1);
      var i: nat :| 1 <= i <= k && Iter(f, o, i) == Iter(f, o, m - 1);
      assert Iter(f, o, m) == Iter(f, o, i + 1);
      if i == k { assert Iter(f, o, m) == Iter(f, o, 1); }
    }
  }

  /** Once the walk is back at o the visited slots are exactly the cycle, closed under f and t. */
  lemma CycleClosed(f: seq<int>, t: seq<int>, o: int, k: nat)
    requires Inverse(f, t) && 0 <= o < |f| && k > 0 && Iter(f, o, k) == o
    ensures forall x :: 0 <= x < |f| ==> (x in Visited(f, o, k) <==> OnCycle(f, o, x))
    ensures forall x :: x in Visited(f, o, k) ==> 0 <= x < |f| && t[x] in Visited(f, o, k)
    ensures o in Visited(f, o, k)
  {
    forall x | 0 <= x < |f| && OnCycle(f, o, x) ensures x in Visited(f, o, k) {
      var m: nat :| Iter(f, o, m) == x;
      IterVisited(f, o, k, m);
    }
    forall x | x in Visited(f, o, k) ensures t[x] in Visited(f, o, k) {
      var m: nat :| 1 <= m <= k && Iter(f, o, m) == x;
      assert t[x] == Iter(f, o, m - 1);
      IterVisited(f, o, k, m - 1);
    }
  }

  class Small {
    const blockSize100k: nat
    const ll16: array<int>
    const ll4: array<int>
    var tPos: nat
    ghost var cycle: set<int>  // the slots whose links have been reversed

    constructor (blockSize100k: nat)
      ensures this.blockSize100k == blockSize100k && fresh(ll16) && fresh(ll4) && Allocated()
    {
      this.blockSize100k := blockSize100k;
      ll16 := new int[BLOCK_UNIT * blockSize100k];
      ll4 := new int[(1 + BLOCK_UNIT * blockSize100k) / 2](_ => 0);
      tPos := 0;
    }

    ghost predicate Allocated()
      reads ll4
    {
      && ll16 != ll4
      && ll16.Length == BLOCK_UNIT * blockSize100k
      && ll4.Length == (1 + ll16.Length) / 2
      && forall i :: 0 <= i < ll4.Length ==> 0 <= ll4[i] < 256
    }

    /** The four high bits of link i: the low nibble of a shared byte when i is even. */
    function GetLL4(i: nat): (r: nat)
      requires Allocated() && i < ll16.Length
      reads ll4
      ensures r < 16
    {
      if i % 2 == 0 then ll4[i / 2] % 16 else ll4[i / 2] / 16
    }

    function GetLL(i: nat): int
      requires Allocated() && i < ll16.Length
      reads ll16, ll4
    {
      ll16[i] + GetLL4(i) * 0x10000
    }

    /** Stores a 20-bit link without disturbing any other. */
    method SetLL(i: nat, n: nat)
      requires Allocated() && i < ll16.Length && n < 0x100000
      modifies ll16, ll4
      ensures Allocated() && GetLL(i) == n
      ensures forall k :: 0 <= k < ll16.Length && k != i ==> ll16[k] == old(ll16[k]) && GetLL(k) == old(GetLL(k))
    {
      ll16[i] := n % 0x10000;
      var w, h := ll4[i / 2], n / 0x10000;
      if i % 2 == 0 {
        ll4[i / 2] := w / 16 * 16 + h;
      } else {
        ll4[i / 2] := w % 16 + h * 16;
      }
    }

    /** Replaces the column stored in ll16 by the vector T of its stable counting sort. */
    method ComputeT(cftabCopy: array<int>, nblock: nat, ghost l: seq<byte>)
      requires Allocated() && nblock == |l| <= ll16.Length <= 0x100000
      requires cftabCopy.Length == 257 && cftabCopy != ll16 && cftabCopy != ll4
      requires forall x :: 0 <= x < nblock ==> ll16[x] == l[x]
      requires forall c :: 0 <= c <= 256 ==> cftabCopy[c] == Start(l, c)
      modifies ll16, ll4, cftabCopy
      ensures Allocated() && forall x :: 0 <= x < nblock ==> GetLL(x) == Slot(l, x)
    {
      hide Start, Occ, Slot;
      PackStart(l);
      for i := 0 to nblock
        invariant Allocated()
        invariant forall c :: 0 <= c < 256 ==> cftabCopy[c] == Start(l, c) + Occ(l, c, i)
        invariant forall x :: 0 <= x < i ==> GetLL(x) == Slot(l, x)
        invariant forall x :: i <= x < nblock ==> ll16[x] == l[x]
      {
        assert ll16[i] == l[i];
        var uc := ll16[i] % 256;
        PackStep(l, i);
        SetLL(i, cftabCopy[uc]);
        cftabCopy[uc] := cftabCopy[uc] + 1;
      }
    }

    /** Pointer reversal: turns round the cycle through origPtr and nothing else. */
    method ReverseCycle(origPtr: nat, ghost f: seq<int>, ghost t: seq<int>)
      requires Allocated() && InBounds(f) && |t| == |f| && Inverse(f, t)
      requires origPtr < |f| <= ll16.Length <= 0x100000
      requires forall x :: 0 <= x < |f| ==> GetLL(x) == f[x]
      modifies ll16, ll4, this`cycle
      ensures Allocated()
      ensures forall x :: 0 <= x < |f| ==> (x in cycle <==> OnCycle(f, origPtr, x))
      ensures forall x :: x in cycle ==> 0 <= x < |f| && t[x] in cycle
      ensures origPtr in cycle
      ensures forall x :: 0 <= x < |f| ==> GetLL(x) == if x in cycle then t[x] else f[x]
    {
      hide Iter, Visited, OnCycle, NotBack, Inverse, GetLL, GetLL4;
      var i := origPtr;
      var j := GetLL(i);
      ghost var k: nat := 0;
      cycle := {};
      VisitStart(f, origPtr);
      while true
        invariant Allocated()
        invariant 0 <= i < |f| && i == Iter(f, origPtr, k) && j == f[i]
        invariant NotBack(f, origPtr, k)
        invariant cycle == Visited(f, origPtr, k)
        invariant forall x :: 0 <= x < |f| ==> GetLL(x) == if x in cycle then t[x] else f[x]
        decreases |f| - |cycle|
      {
        VisitStep(f, t, origPtr, k);
        var tmp := GetLL(j);
        SetLL(j, i);
        cycle := cycle + {j};
        i := j;
        j := tmp;
        k := k + 1;
        if i == origPtr { break; }
      }
      CycleClosed(f, t, origPtr, k);
    }

    /** Every link on the cycle through tPos is a link of l, and the cycle is closed. */
    ghost predicate Linked(l: seq<byte>, t: seq<int>)
      reads this, ll16, ll4
    {
      && Allocated() && |l| <= ll16.Length
      && IsLinks(l, t)
      && tPos in cycle
      && forall x :: x in cycle ==> 0 <= x < |l| && t[x] in cycle && GetLL(x) == t[x]
    }

    /** Builds T over the column stored in ll16, reverses the one cycle that is read. */
    method Build(cftab: array<int>, cftabCopy: array<int>, nblock: nat, origPtr: nat, ghost l: seq<byte>)
      requires Allocated() && origPtr < nblock == |l| <= ll16.Length <= 0x100000
      requires cftab.Length == 257 && cftabCopy.Length == 257 && cftabCopy != ll16 && cftabCopy != ll4
      requires cftab != cftabCopy && cftab != ll16 && cftab != ll4
      requires forall x :: 0 <= x < nblock ==> ll16[x] == l[x]
      requires forall c :: 0 <= c <= 256 ==> cftab[c] == Start(l, c)
      modifies this`tPos, this`cycle, ll16, ll4, cftabCopy
      ensures Linked(l, Links(l)) && tPos == origPtr
    {
      hide Start, Slot, Links, Inverse, IsLinks, OnCycle, GetLL4;
      for c := 0 to 257
        invariant forall d :: 0 <= d < c ==> cftabCopy[d] == cftab[d]
        invariant Allocated() && forall x :: 0 <= x < nblock ==> ll16[x] == l[x]
      {
        cftabCopy[c] := cftab[c];
      }
      ComputeT(cftabCopy, nblock, l);
      InverseLinks(l);
      ReverseCycle(origPtr, Slots(l), Links(l));
      LinksAreLinks(l);
      tPos := origPtr;
    }

    /** One byte, found by searching cftab for the bucket of the slot, and one link. */
    method Get(cftab: array<int>, ghost l: seq<byte>, ghost t: seq<int>) returns (ok: bool, c: byte)
      requires Linked(l, t) && cftab.Length == 257
      requires forall c :: 0 <= c <= 256 ==> cftab[c] == Start(l, c)
      modifies this`tPos
      ensures ok && tPos == t[old(tPos)] && c == l[tPos] && Linked(l, t)
    {
      hide Start, IsLinks, GetLL, GetLL4;
      ok, c := false, 0;
      if tPos >= BLOCK_UNIT * blockSize100k { return; }
      StartTotal(l, 256);
      var nb := IndexIntoF(tPos, cftab);
      BucketByte(l, t, tPos, nb);
      c := nb;
      tPos := GetLL(tPos);
      ok := true;
    }
  }

  /** Binary search for the bucket that holds indx; empty buckets are skipped. */
  method IndexIntoF(indx: int, cftab: array<int>) returns (nb: nat)
    requires cftab.Length == 257 && cftab[0] <= indx < cftab[256]
    ensures nb < 256 && cftab[nb] <= indx < cftab[nb + 1]
  {
    nb := 0;
    var na := 256;
    while na - nb != 1
      invariant nb < na <= 256 && cftab[nb] <= indx < cftab[na]
      decreases na - nb
    {
      var mid := (nb + na) / 2;
      if indx >= cftab[mid] { nb := mid; } else { na := mid; }
    }
  }

  /** The bucket of a slot is the byte its link points at. */
  lemma BucketByte(l: seq<byte>, t: seq<int>, x: nat, c: nat)
    requires IsLinks(l, t) && x < |l| && c < 256 && Start(l, c) <= x < Start(l, c + 1)
    ensures l[t[x]] == c
  {
    LinksBack(l, t, x);
    SlotRange(l, 256, t[x]);
    var d := l[t[x]] as int;
    if d < c { StartMono(l, d + 1, c); }
    if c < d { StartMono(l, c + 1, d); }
  }

  lemma InverseLinks(l: seq<byte>)
    ensures InBounds(Slots(l)) && Inverse(Slots(l), Links(l))
  {
    LinksAreLinks(l);
    SlotsPerm(l);
    forall x | 0 <= x < |l| ensures Slots(l)[Links(l)[x]] == x { LinksBack(l, Links(l), x); }
  }

  /** The link of slot x once the links below i are in. */
  ghost function Link(t: seq<int>, x: int, i: int): nat
    requires 0 <= x < |t| && 0 <= t[x]
  {
    if t[x] < i then t[x] else 0
  }

  lemma LinkDone(t: seq<int>, i: int)
    requires forall x :: 0 <= x < |t| ==> 0 <= t[x] < i
    ensures forall x :: 0 <= x < |t| ==> Link(t, x, i) == t[x]
  {
  }

  lemma PackStart(l: seq<byte>)
    ensures forall x :: 0 <= x < |l| ==> Link(Links(l), x, 0) == 0
    ensures forall c :: Occ(l, c, 0) == 0
  {
  }

  lemma PackStep(l: seq<byte>, i: nat)
    requires i < |l|
    ensures var t, k := Links(l), Slot(l, i);
            && k < |l| && t[k] == i && k == Start(l, l[i]) + Occ(l, l[i], i)
            && Link(t, k, i) == 0 && Link(t, k, i + 1) == i
            && forall x :: 0 <= x < |l| && x != k ==> Link(t, x, i + 1) == Link(t, x, i)
    ensures forall c :: Occ(l, c, i + 1) == Occ(l, c, i) + if l[i] == c then 1 else 0
  {
    LinksAreLinks(l);
  }

  lemma Unpack(w: int, c: byte, k: nat)
    requires w == c + 256 * k
    ensures w % 256 == c && w / 256 == k
  {
  }
}

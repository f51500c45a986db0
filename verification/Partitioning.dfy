/** Three-way partitioning of a segment in place, as both quicksorts do it. */
module Partitioning {
  import opened Segments

  ghost predicate Valued(s: seq<int>, lo: int, hi: int, n: int) {
    0 <= lo && hi < |s| && forall x :: lo <= x <= hi ==> 0 <= s[x] < n
  }

  lemma ShuffledValued(a: seq<int>, b: seq<int>, lo: int, hi: int, n: int)
    requires Shuffled(a, b, lo, hi) && Valued(a, lo, hi, n)
    ensures Valued(b, lo, hi, n)
  {
    forall x | lo <= x <= hi ensures 0 <= b[x] < n {
      var y := ShuffledFrom(a, b, lo, hi, x);
    }
  }

  method Swap(ptr: array<int>, i: int, j: int, ghost lo: int, ghost hi: int)
    requires 0 <= lo <= i <= hi < ptr.Length && lo <= j <= hi
    modifies ptr
    ensures ptr[..] == Swapped(old(ptr[..]), i, j)
    ensures Shuffled(old(ptr[..]), ptr[..], lo, hi)
  {
    hide Shuffled;
    SwapShuffled(ptr[..], i, j, lo, hi);
    ghost var s := ptr[..];
    ptr[i], ptr[j] := ptr[j], ptr[i];
    assert ptr[..] == Swapped(s, i, j);
  }

  /** Exchanges the n entries from p1 on with the n entries from p2 on. */
  method VecSwap(ptr: array<int>, p1: int, p2: int, n: int, ghost lo: int, ghost hi: int)
    requires 0 <= lo <= p1 && 0 <= n && p1 + n <= p2 && p2 + n <= hi + 1 <= ptr.Length
    modifies ptr
    ensures Shuffled(old(ptr[..]), ptr[..], lo, hi)
    ensures Exchanged(old(ptr[..]), ptr[..], p1, p2, n)
  {
    hide Shuffled, Exchanged, Swapped;
    ghost var s := ptr[..];
    ShuffledRefl(s, lo, hi);
    ExchangeStart(s, p1, p2);
    var k := 0;
    while k < n
      invariant 0 <= k <= n
      invariant Shuffled(s, ptr[..], lo, hi)
      invariant Exchanged(s, ptr[..], p1, p2, k)
    {
      ghost var t := ptr[..];
      ExchangeStep(s, t, p1, p2, k);
      Swap(ptr, p1 + k, p2 + k, lo, hi);
      ShuffledTrans(s, t, ptr[..], lo, hi, lo, hi);
      k := k + 1;
    }
  }

  /** The key of entry u: what keys holds d places on. */
  ghost function KeyAt(keys: seq<int>, d: int): int -> int {
    u => if 0 <= u + d < |keys| then keys[u + d] else 0
  }

  /** Three-way partition of lo..hi about the key med; false when every key equals med. */
  method Partition(ptr: array<int>, keys: array<int>, d: nat, lo: int, hi: int, med: int) returns (split: bool, n: int, m: int)
    requires ptr != keys && lo <= hi
    requires Valued(ptr[..], lo, hi, keys.Length - d)
    modifies ptr
    ensures Shuffled(old(ptr[..]), ptr[..], lo, hi)
    ensures split ==> Split(KeyAt(keys[..], d), ptr[..], med, lo, n, m, hi)
    ensures split ==> lo <= n || m <= hi
    ensures !split ==> forall x :: lo <= x <= hi ==> KeyAt(keys[..], d)(ptr[x]) == med
  {
    hide Shuffled, Parted, Split, Swapped, Exchanged;
    ghost var s, ks := ptr[..], keys[..];
    ghost var key := KeyAt(ks, d);
    var unLo, ltLo, unHi, gtHi := lo, lo, hi, hi;
    ShuffledRefl(s, lo, hi);
    PartStart(key, s, med, lo, hi);
    while true
      invariant lo <= ltLo <= unLo <= unHi + 1 <= gtHi + 1 <= hi + 1
      invariant Shuffled(s, ptr[..], lo, hi) && Parted(key, ptr[..], med, lo, ltLo, unLo, unHi, gtHi, hi)
      decreases unHi - unLo + 1
    {
      ltLo, unLo := ScanLo(ptr, keys, d, s, med, lo, ltLo, unLo, unHi, gtHi, hi);
      unHi, gtHi := ScanHi(ptr, keys, d, s, med, lo, ltLo, unLo, unHi, gtHi, hi);
      if unLo > unHi { break; }
      ghost var t := ptr[..];
      PartCross(key, t, med, lo, ltLo, unLo, unHi, gtHi, hi);
      Swap(ptr, unLo, unHi, lo, hi);
      ShuffledTrans(s, t, ptr[..], lo, hi, lo, hi);
      unLo := unLo + 1;
      unHi := unHi - 1;
    }
    if gtHi < ltLo {
      PartAllEqual(key, ptr[..], med, lo, ltLo, unLo, unHi, gtHi, hi);
      return false, 0, 0;
    }
    n := if ltLo - lo < unLo - ltLo then ltLo - lo else unLo - ltLo;
    m := if hi - gtHi < gtHi - unHi then hi - gtHi else gtHi - unHi;
    ghost var s0 := ptr[..];
    VecSwap(ptr, lo, unLo - n, n, lo, hi);
    ghost var s1 := ptr[..];
    VecSwap(ptr, unLo, hi - m + 1, m, lo, hi);
    ShuffledTrans(s, s0, s1, lo, hi, lo, hi);
    ShuffledTrans(s, s1, ptr[..], lo, hi, lo, hi);
    PartEnds(key, s0, s1, ptr[..], med, lo, ltLo, unLo, unHi, gtHi, hi, n, m);
    return true, lo + unLo - ltLo - 1, hi - (gtHi - unHi) + 1;
  }

  lemma PartStart(key: int -> int, s: seq<int>, med: int, lo: int, hi: int)
    requires 0 <= lo <= hi < |s|
    ensures Parted(key, s, med, lo, lo, lo, hi, hi, hi)
  {
  }

  /** The upward scan: stops at a larger key or when the unknown part is used up. */
  method ScanLo(ptr: array<int>, keys: array<int>, d: nat, ghost s: seq<int>, med: int, lo: int, ltLo0: int, unLo0: int, unHi: int, gtHi: int, hi: int)
    returns (ltLo: int, unLo: int)
    requires ptr != keys && Valued(s, lo, hi, keys.Length - d)
    requires Shuffled(s, ptr[..], lo, hi)
    requires Parted(KeyAt(keys[..], d), ptr[..], med, lo, ltLo0, unLo0, unHi, gtHi, hi)
    modifies ptr
    ensures unLo0 <= unLo && lo <= ltLo <= unLo <= unHi + 1
    ensures Shuffled(s, ptr[..], lo, hi)
    ensures Parted(KeyAt(keys[..], d), ptr[..], med, lo, ltLo, unLo, unHi, gtHi, hi)
    ensures unLo <= unHi ==> KeyAt(keys[..], d)(ptr[unLo]) > med
  {
    hide Shuffled, Swapped;
    ghost var key := KeyAt(keys[..], d);
    ltLo, unLo := ltLo0, unLo0;
    while unLo <= unHi
      invariant unLo0 <= unLo && lo <= ltLo <= unLo <= unHi + 1
      invariant Shuffled(s, ptr[..], lo, hi) && Parted(key, ptr[..], med, lo, ltLo, unLo, unHi, gtHi, hi)
    {
      ShuffledValued(s, ptr[..], lo, hi, keys.Length - d);
      var n := keys[ptr[unLo] + d] - med;
      if n == 0 {
        ghost var t := ptr[..];
        PartLoEqual(key, t, med, lo, ltLo, unLo, unHi, gtHi, hi);
        Swap(ptr, unLo, ltLo, lo, hi);
        ShuffledTrans(s, t, ptr[..], lo, hi, lo, hi);
        ltLo := ltLo + 1;
        unLo := unLo + 1;
        continue;
      }
      if n > 0 { break; }
      unLo := unLo + 1;
    }
  }

  /** The downward scan: stops at a smaller key or when the unknown part is used up. */
  method ScanHi(ptr: array<int>, keys: array<int>, d: nat, ghost s: seq<int>, med: int, lo: int, ltLo: int, unLo: int, unHi0: int, gtHi0: int, hi: int)
    returns (unHi: int, gtHi: int)
    requires ptr != keys && Valued(s, lo, hi, keys.Length - d)
    requires Shuffled(s, ptr[..], lo, hi)
    requires Parted(KeyAt(keys[..], d), ptr[..], med, lo, ltLo, unLo, unHi0, gtHi0, hi)
    modifies ptr
    ensures unHi <= unHi0 && unLo <= unHi + 1 <= gtHi + 1 <= hi + 1
    ensures unLo <= unHi0 ==> ptr[unLo] == old(ptr[unLo]) || unLo > unHi
    ensures Shuffled(s, ptr[..], lo, hi)
    ensures Parted(KeyAt(keys[..], d), ptr[..], med, lo, ltLo, unLo, unHi, gtHi, hi)
    ensures unLo <= unHi ==> KeyAt(keys[..], d)(ptr[unHi]) < med
  {
    hide Shuffled, Swapped;
    ghost var key := KeyAt(keys[..], d);
    unHi, gtHi := unHi0, gtHi0;
    while unLo <= unHi
      invariant unHi <= unHi0 && unLo <= unHi + 1 <= gtHi + 1 <= hi + 1
      invariant unLo <= unHi ==> ptr[unLo] == old(ptr[unLo])
      invariant Shuffled(s, ptr[..], lo, hi) && Parted(key, ptr[..], med, lo, ltLo, unLo, unHi, gtHi, hi)
    {
      ShuffledValued(s, ptr[..], lo, hi, keys.Length - d);
      var n := keys[ptr[unHi] + d] - med;
      if n == 0 {
        ghost var t := ptr[..];
        SwappedAt(t, unHi, gtHi);
        PartHiEqual(key, t, med, lo, ltLo, unLo, unHi, gtHi, hi);
        Swap(ptr, unHi, gtHi, lo, hi);
        ShuffledTrans(s, t, ptr[..], lo, hi, lo, hi);
        gtHi := gtHi - 1;
        unHi := unHi - 1;
        continue;
      }
      if n < 0 { break; }
      unHi := unHi - 1;
    }
  }

  /** A shuffle keeps the key med inside the segment, so the middle of a split is not empty. */
  lemma MiddleNonEmpty(ks: seq<int>, d: nat, s: seq<int>, t: seq<int>, x: int, lo: int, n: int, m: int, hi: int)
    requires Shuffled(s, t, lo, hi) && Valued(s, lo, hi, |ks| - d) && lo <= x <= hi
    requires Split(KeyAt(ks, d), t, ks[s[x] + d], lo, n, m, hi)
    ensures n + 1 < m
  {
    ShuffledSym(s, t, lo, hi);
    var y := ShuffledFrom(t, s, lo, hi, x);
    assert KeyAt(ks, d)(t[y]) == ks[s[x] + d];
  }
}

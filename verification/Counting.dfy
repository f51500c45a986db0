/** Occurrence counts, bucket starts and the stable counting sort they define. */
module Counting {

  /** Occurrences of c among the first i entries of the keys. */
  function Occ(l: seq<int>, c: int, i: nat): (r: nat)
    requires i <= |l|
    ensures r <= i
  {
    if i == 0 then 0 else Occ(l, c, i - 1) + if l[i - 1] == c then 1 else 0
  }

  /** First slot of the bucket of c: how many entries are smaller than c. */
  function Start(l: seq<int>, c: nat): nat {
    if c == 0 then 0 else Start(l, c - 1) + Occ(l, c - 1, |l|)
  }

  /** Where entry i of the keys lands in the stable counting sort: the vector T. */
  function Slot(l: seq<int>, i: nat): nat
    requires i < |l| && 0 <= l[i]
  {
    Start(l, l[i]) + Occ(l, l[i], i)
  }

  lemma {:induction false} OccMono(l: seq<int>, c: int, i: nat, j: nat)
    requires i <= j <= |l|
    ensures Occ(l, c, i) <= Occ(l, c, j)
    ensures i < j && l[i] == c ==> Occ(l, c, i) < Occ(l, c, j)
    decreases j
  {
    if i < j { OccMono(l, c, i, j - 1); }
  }

  lemma {:induction false} StartMono(l: seq<int>, c: nat, d: nat)
    requires c <= d
    ensures Start(l, c) <= Start(l, d)
    ensures c < d ==> Start(l, c) + Occ(l, c, |l|) <= Start(l, d)
    decreases d
  {
    if c < d { StartMono(l, c, d - 1); }
  }

  /** Sum of the occurrences of all values below c among the first i entries. */
  function OccBelow(l: seq<int>, c: nat, i: nat): nat
    requires i <= |l|
  {
    if c == 0 then 0 else OccBelow(l, c - 1, i) + Occ(l, c - 1, i)
  }

  lemma {:induction false} OccBelowIsStart(l: seq<int>, c: nat)
    ensures OccBelow(l, c, |l|) == Start(l, c)
  {
    if c > 0 { OccBelowIsStart(l, c - 1); }
  }

  lemma {:induction false} OccBelowStep(l: seq<int>, c: nat, i: nat)
    requires i < |l| && 0 <= l[i]
    ensures OccBelow(l, c, i + 1) == OccBelow(l, c, i) + if l[i] < c then 1 else 0
  {
    if c > 0 { OccBelowStep(l, c - 1, i); }
  }

  lemma {:induction false} OccBelowZero(l: seq<int>, c: nat)
    ensures OccBelow(l, c, 0) == 0
  {
    if c > 0 { OccBelowZero(l, c - 1); }
  }

  ghost predicate Keys(l: seq<int>, bound: nat) {
    forall i :: 0 <= i < |l| ==> 0 <= l[i] < bound
  }

  lemma {:induction false} OccBelowAll(l: seq<int>, bound: nat, i: nat)
    requires Keys(l, bound) && i <= |l|
    ensures OccBelow(l, bound, i) == i
  {
    if i == 0 {
      OccBelowZero(l, bound);
    } else {
      OccBelowAll(l, bound, i - 1);
      OccBelowStep(l, bound, i - 1);
    }
  }

  /** Every entry is in some bucket. */
  lemma StartTotal(l: seq<int>, bound: nat)
    requires Keys(l, bound)
    ensures Start(l, 0) == 0 && Start(l, bound) == |l|
  {
    OccBelowAll(l, bound, |l|);
    OccBelowIsStart(l, bound);
  }

  lemma StartNext(l: seq<int>, c: nat)
    ensures Start(l, c + 1) == Start(l, c) + Occ(l, c, |l|)
  {
  }

  /** Slots lie inside the bucket of their byte. */
  lemma SlotRange(l: seq<int>, bound: nat, i: nat)
    requires Keys(l, bound) && i < |l|
    ensures Start(l, l[i]) <= Slot(l, i) < Start(l, l[i] + 1) <= |l|
  {
    OccMono(l, l[i], i, |l|);
    StartMono(l, l[i] + 1, bound);
    StartTotal(l, bound);
  }

  /** Slots follow the order (byte, position): the sort is stable and injective. */
  lemma SlotOrder(l: seq<int>, bound: nat, i: nat, j: nat)
    requires Keys(l, bound) && i < |l| && j < |l|
    requires l[i] < l[j] || (l[i] == l[j] && i < j)
    ensures Slot(l, i) < Slot(l, j)
  {
    SlotRange(l, bound, i);
    SlotRange(l, bound, j);
    if l[i] < l[j] {
      StartMono(l, l[i] + 1, l[j]);
    } else {
      OccMono(l, l[i], i, j);
    }
  }

}

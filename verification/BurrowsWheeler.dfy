/** The last column of the sorted rotations, the stable counting sort that links it to the first
    column, and the theorem that following the links spells the block. */
module BurrowsWheeler {
  import opened Rotations
  import opened Counting

  function LastColumn(b: seq<byte>, p: seq<int>): (l: seq<byte>)
    requires |b| > 0 && |p| == |b| && forall x :: 0 <= x < |p| ==> 0 <= p[x]
    ensures |l| == |b|
  {
    seq(|b|, x requires 0 <= x < |b| => At(b, p[x] + |b| - 1))
  }

  // ---------- links ----------

  /** t is the inverse of T on the column. */
  ghost predicate IsLinks(l: seq<byte>, t: seq<int>) {
    && IsPerm(t, |l|)
    && forall i :: 0 <= i < |l| ==> Slot(l, i) < |l| && t[Slot(l, i)] == i
  }

  lemma SlotsDiffer(l: seq<byte>, i: nat, j: nat)
    requires i < |l| && j < |l| && i != j
    ensures Slot(l, i) != Slot(l, j)
  {
    if l[i] < l[j] || (l[i] == l[j] && i < j) { SlotOrder(l, 256, i, j); } else { SlotOrder(l, 256, j, i); }
  }

  ghost function Slots(l: seq<byte>): (f: seq<int>)
    ensures |f| == |l| && forall i :: 0 <= i < |l| ==> f[i] == Slot(l, i)
  {
    seq(|l|, i requires 0 <= i < |l| => Slot(l, i))
  }

  lemma SlotsPerm(l: seq<byte>)
    ensures IsPerm(Slots(l), |l|)
  {
    forall x | 0 <= x < |l| ensures Slots(l)[x] < |l| { SlotRange(l, 256, x); }
    forall x, y | 0 <= x < y < |l| ensures Slots(l)[x] != Slots(l)[y] { SlotsDiffer(l, x, y); }
  }

  ghost function LinkAt(l: seq<byte>, x: nat): (k: nat)
    requires x < |l|
    ensures k < |l| && Slot(l, k) == x
  {
    assert exists k: nat :: k < |l| && Slot(l, k) == x by {
      SlotsPerm(l);
      var k := InRange(Slots(l), |l|, x);
    }
    var k: nat :| k < |l| && Slot(l, k) == x;
    k
  }

  /** The inverse of T, which is the vector the decoder builds. */
  ghost function Links(l: seq<byte>): (t: seq<int>)
    ensures |t| == |l|
    ensures forall x :: 0 <= x < |l| ==> 0 <= t[x] < |l|
  {
    seq(|l|, x requires 0 <= x < |l| => LinkAt(l, x))
  }

  lemma LinksAreLinks(l: seq<byte>)
    ensures IsLinks(l, Links(l))
  {
    forall i | 0 <= i < |l| ensures Slot(l, i) < |l| && Links(l)[Slot(l, i)] == i {
      SlotRange(l, 256, i);
      var j := Links(l)[Slot(l, i)];
      if j != i { SlotsDiffer(l, i, j); }
    }
  }

  lemma LinksBack(l: seq<byte>, t: seq<int>, x: nat)
    requires IsLinks(l, t) && x < |l|
    ensures Slot(l, t[x]) == x
  {
    SlotRange(l, 256, t[x]);
    var y := Slot(l, t[x]);
    assert t[y] == t[x];
  }

  lemma LinksOrder(l: seq<byte>, t: seq<int>, x: nat, y: nat)
    requires IsLinks(l, t) && x < y < |l|
    ensures l[t[x]] < l[t[y]] || (l[t[x]] == l[t[y]] && t[x] < t[y])
  {
    LinksBack(l, t, x);
    LinksBack(l, t, y);
    if !(l[t[x]] < l[t[y]] || (l[t[x]] == l[t[y]] && t[x] < t[y])) {
      assert t[x] != t[y];
      SlotOrder(l, 256, t[y], t[x]);
      assert false;
    }
  }

  // ---------- the inverse transform ----------

  function Pred(v: nat, n: nat): nat
    requires v < n
  {
    if v == 0 then n - 1 else v - 1
  }

  /** The rows of the sorted matrix, each turned right by one, in order of their links. */
  ghost function Turned(p: seq<int>, t: seq<int>): (q: seq<int>)
    requires IsPerm(p, |p|) && IsPerm(t, |p|)
    ensures |q| == |p| && forall x :: 0 <= x < |p| ==> q[x] == Pred(p[t[x]], |p|)
  {
    seq(|p|, x requires 0 <= x < |p| => Pred(p[t[x]], |p|))
  }

  lemma PredAt(b: seq<byte>, v: nat, w: nat)
    requires v < |b|
    ensures At(b, Pred(v, |b|)) == At(b, v + |b| - 1)
    ensures Cmp(b, Pred(v, |b|) + 1, w, |b|) == Cmp(b, v, w, |b|)
    ensures Cmp(b, w, Pred(v, |b|) + 1, |b|) == Cmp(b, w, v, |b|)
  {
    CmpWrap(b, 0, w, |b|);
    CmpWrap(b, w, 0, |b|);
  }

  /** Turning right keeps the order when the byte that comes to the front agrees with it. */
  lemma PredOrder(b: seq<byte>, v: nat, w: nat)
    requires v < |b| && w < |b|
    requires var c, d := At(b, v + |b| - 1), At(b, w + |b| - 1);
             c < d || (c == d && Cmp(b, v, w, |b|) <= 0)
    ensures Cmp(b, Pred(v, |b|), Pred(w, |b|), |b|) <= 0
  {
    var v', w' := Pred(v, |b|), Pred(w, |b|);
    PredAt(b, v, w' + 1);
    PredAt(b, w, v);
    if At(b, v') == At(b, w') { CmpPrepend(b, v', w'); }
  }

  lemma TurnedOrder(b: seq<byte>, p: seq<int>, t: seq<int>, x: nat, y: nat)
    requires RotationSorted(b, p) && IsLinks(LastColumn(b, p), t)
    requires x < y < |b|
    ensures Cmp(b, Pred(p[t[x]], |b|), Pred(p[t[y]], |b|), |b|) <= 0
  {
    hide Cmp, Slot;
    LinksOrder(LastColumn(b, p), t, x, y);
    var u, v := t[x], t[y];
    assert LastColumn(b, p)[u] == At(b, p[u] + |b| - 1);
    assert LastColumn(b, p)[v] == At(b, p[v] + |b| - 1);
    PredOrder(b, p[u], p[v]);
  }

  lemma TurnedSorted(b: seq<byte>, p: seq<int>, t: seq<int>)
    requires RotationSorted(b, p) && IsLinks(LastColumn(b, p), t)
    ensures RotationSorted(b, Turned(p, t))
  {
    var q := Turned(p, t);
    forall x, y | 0 <= x < y < |b| ensures q[x] != q[y] {
      assert t[x] != t[y];
    }
    forall x, y | 0 <= x < y < |b| ensures Cmp(b, q[x], q[y], |b|) <= 0 {
      TurnedOrder(b, p, t, x, y);
    }
  }

  /** One link moves one byte forward in the block. */
  lemma LinkStep(b: seq<byte>, p: seq<int>, t: seq<int>, x: nat)
    requires RotationSorted(b, p) && IsLinks(LastColumn(b, p), t) && x < |b|
    ensures Cmp(b, p[t[x]], p[x] + 1, |b|) == 0
  {
    hide Cmp, At, Slot, LastColumn, SortedTo;
    var q := Turned(p, t);
    TurnedSorted(b, p, t);
    SortedPermsAgree(b, q, p, x);
    CmpShift(b, q[x], p[x], 1);
    CmpWrap(b, 0, p[x] + 1, |b|);
  }

  /** What the decoder emits from slot pos on: the byte there, then on through the links. */
  function Readout(l: seq<byte>, t: seq<int>, pos: nat, k: nat): (r: seq<byte>)
    requires |t| == |l| && pos < |l| && forall x :: 0 <= x < |t| ==> 0 <= t[x] < |t|
    ensures |r| == k
    decreases k
  {
    if k == 0 then [] else [l[pos]] + Readout(l, t, t[pos], k - 1)
  }

  /** Going on longer does not change the beginning. */
  lemma {:induction false} ReadoutMore(l: seq<byte>, t: seq<int>, pos: nat, k: nat, m: nat)
    requires |t| == |l| && pos < |l| && (forall x :: 0 <= x < |t| ==> 0 <= t[x] < |t|) && k <= m
    ensures Readout(l, t, pos, m)[..k] == Readout(l, t, pos, k)
    decreases k
  {
    if k > 0 { ReadoutMore(l, t, t[pos], k - 1, m - 1); }
  }

  lemma {:induction false} ReadoutFrom(b: seq<byte>, p: seq<int>, t: seq<int>, pos: nat, m: nat, k: nat)
    requires RotationSorted(b, p) && IsLinks(LastColumn(b, p), t) && pos < |b|
    requires m + k <= |b| && Cmp(b, p[pos], m + 1, |b|) == 0
    ensures Readout(LastColumn(b, p), t, pos, k) == b[m..m + k]
    decreases k
  {
    hide Cmp, Slot, SortedTo;
    if k > 0 {
      LinkStep(b, p, t, pos);
      CmpShift(b, p[pos], m + 1, 1);
      CmpTrans(b, p[t[pos]], p[pos] + 1, m + 2, |b|);
      CmpAnti(b, p[t[pos]], p[pos] + 1, |b|);
      CmpAnti(b, p[pos] + 1, m + 2, |b|);
      CmpTrans(b, m + 2, p[pos] + 1, p[t[pos]], |b|);
      CmpAnti(b, m + 2, p[t[pos]], |b|);
      ReadoutFrom(b, p, t, t[pos], m + 1, k - 1);
      CmpEqAt(b, p[pos], m + 1, |b|, |b| - 1);
      assert At(b, m + 1 + (|b| - 1)) == At(b, m) == b[m];
      assert b[m..m + k] == [b[m]] + b[m + 1..m + 1 + (k - 1)];
    }
  }

  /** The inverse transform: whatever rotation-sorted permutation the encoder used, following the
      links of its last column from origPtr spells the block. */
  lemma InverseTransform(b: seq<byte>, p: seq<int>, t: seq<int>, orig: nat)
    requires RotationSorted(b, p) && IsLinks(LastColumn(b, p), t)
    requires orig < |b| && p[orig] == 0
    ensures Readout(LastColumn(b, p), t, t[orig], |b|) == b
  {
    hide Cmp, At, Slot, LastColumn, SortedTo;
    LinkStep(b, p, t, orig);
    ReadoutFrom(b, p, t, t[orig], 0, |b|);
  }

  /** The column does not depend on which sort ran or how it ordered equal rotations. */
  lemma LastColumnUnique(b: seq<byte>, p: seq<int>, q: seq<int>)
    requires RotationSorted(b, p) && RotationSorted(b, q)
    ensures LastColumn(b, p) == LastColumn(b, q)
  {
    forall x | 0 <= x < |b| ensures LastColumn(b, p)[x] == LastColumn(b, q)[x] {
      SortedPermsAgree(b, p, q, x);
      CmpEqAt(b, p[x], q[x], |b|, |b| - 1);
    }
  }
}

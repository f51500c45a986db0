/** Cyclic rotations of a block and their order, compared to a given depth. */
module Rotations {

  type byte = x: int | 0 <= x < 256

  /** Byte i of the block repeated for ever. */
  function At(b: seq<byte>, i: nat): byte
    requires |b| > 0
  {
    if i < |b| then b[i] else At(b, i - |b|)
  }

  /** Sign of the comparison of the rotations starting at i and j over their first h bytes. */
  ghost function Cmp(b: seq<byte>, i: nat, j: nat, h: nat): int
    requires |b| > 0
    decreases h
  {
    if h == 0 then 0
    else if At(b, i) < At(b, j) then -1
    else if At(b, i) > At(b, j) then 1
    else Cmp(b, i + 1, j + 1, h - 1)
  }

  ghost predicate IsPerm(p: seq<int>, n: nat) {
    && |p| == n
    && (forall x :: 0 <= x < n ==> 0 <= p[x] < n)
    && (forall x, y :: 0 <= x < y < n ==> p[x] != p[y])
  }

  ghost predicate SortedTo(b: seq<byte>, p: seq<int>, h: nat)
    requires |b| > 0
  {
    && (forall x :: 0 <= x < |p| ==> 0 <= p[x])
    && forall x, y :: 0 <= x < y < |p| ==> Cmp(b, p[x], p[y], h) <= 0
  }

  /** The contract of the block sort: a permutation in non-descending order of full rotation. */
  ghost predicate RotationSorted(b: seq<byte>, p: seq<int>) {
    |b| > 0 && IsPerm(p, |b|) && SortedTo(b, p, |b|)
  }

  // ---------- the order ----------

  lemma {:induction false} CmpRefl(b: seq<byte>, i: nat, h: nat)
    requires |b| > 0
    ensures Cmp(b, i, i, h) == 0
    decreases h
  {
    if h > 0 { CmpRefl(b, i + 1, h - 1); }
  }

  lemma {:induction false} CmpAnti(b: seq<byte>, i: nat, j: nat, h: nat)
    requires |b| > 0
    ensures Cmp(b, i, j, h) == -Cmp(b, j, i, h)
    decreases h
  {
    if h > 0 { CmpAnti(b, i + 1, j + 1, h - 1); }
  }

  lemma {:induction false} CmpTrans(b: seq<byte>, i: nat, j: nat, k: nat, h: nat)
    requires |b| > 0
    requires Cmp(b, i, j, h) <= 0 && Cmp(b, j, k, h) <= 0
    ensures Cmp(b, i, k, h) <= 0
    ensures Cmp(b, i, j, h) < 0 || Cmp(b, j, k, h) < 0 ==> Cmp(b, i, k, h) < 0
    decreases h
  {
    if h > 0 && At(b, i) == At(b, j) == At(b, k) { CmpTrans(b, i + 1, j + 1, k + 1, h - 1); }
  }

  /** Comparing h + g bytes is comparing h bytes and then, on a tie, the next g. */
  lemma {:induction false} CmpSplit(b: seq<byte>, i: nat, j: nat, h: nat, g: nat)
    requires |b| > 0
    ensures Cmp(b, i, j, h + g) == if Cmp(b, i, j, h) != 0 then Cmp(b, i, j, h) else Cmp(b, i + h, j + h, g)
    decreases h
  {
    if h > 0 {
      CmpSplit(b, i + 1, j + 1, h - 1, g);
      assert i + h == i + 1 + (h - 1) && j + h == j + 1 + (h - 1);
    }
  }

  lemma {:induction false} CmpEqAt(b: seq<byte>, i: nat, j: nat, h: nat, k: nat)
    requires |b| > 0 && k < h && Cmp(b, i, j, h) == 0
    ensures At(b, i + k) == At(b, j + k)
    decreases k
  {
    if k > 0 { CmpEqAt(b, i + 1, j + 1, h - 1, k - 1); }
  }

  lemma {:induction false} CmpWrap(b: seq<byte>, i: nat, j: nat, h: nat)
    requires |b| > 0
    ensures Cmp(b, i + |b|, j, h) == Cmp(b, i, j, h)
    ensures Cmp(b, i, j + |b|, h) == Cmp(b, i, j, h)
    decreases h
  {
    if h > 0 { CmpWrap(b, i + 1, j + 1, h - 1); }
  }

  /** Rotations that agree on all |b| bytes agree for ever, at any depth and after any shift. */
  lemma {:induction false} CmpPeriodic(b: seq<byte>, i: nat, j: nat, h: nat)
    requires |b| > 0 && Cmp(b, i, j, |b|) == 0
    ensures Cmp(b, i, j, h) == 0
    decreases h
  {
    if h <= |b| {
      CmpSplit(b, i, j, h, |b| - h);
    } else {
      CmpPeriodic(b, i, j, h - |b|);
      CmpWrap(b, i, j + |b|, h - |b|);
      CmpWrap(b, i, j, h - |b|);
      CmpSplit(b, i, j, |b|, h - |b|);
    }
  }

  lemma CmpShift(b: seq<byte>, i: nat, j: nat, s: nat)
    requires |b| > 0 && Cmp(b, i, j, |b|) == 0
    ensures Cmp(b, i + s, j + s, |b|) == 0
  {
    CmpPeriodic(b, i, j, s + |b|);
    CmpSplit(b, i, j, s, |b|);
  }

  /** Prepending the same byte to two rotations keeps their order. */
  lemma CmpPrepend(b: seq<byte>, i: nat, j: nat)
    requires |b| > 0 && At(b, i) == At(b, j)
    ensures Cmp(b, i, j, |b|) == Cmp(b, i + 1, j + 1, |b|)
  {
    CmpSplit(b, i, j, 1, |b|);
    CmpSplit(b, i, j, |b|, 1);
    assert Cmp(b, i, j, 1) == 0;
    assert Cmp(b, i, j, 1 + |b|) == Cmp(b, i + 1, j + 1, |b|);
    assert At(b, i + |b|) == At(b, i) && At(b, j + |b|) == At(b, j);
    assert Cmp(b, i + |b|, j + |b|, 1) == 0 by {
      assert Cmp(b, i + |b| + 1, j + |b| + 1, 0) == 0;
    }
  }

  // ---------- uniqueness of the sorted order up to equal rotations ----------

  lemma {:induction false} PrefixSetSize(p: seq<int>, n: nat, x: nat) returns (s: set<int>)
    requires IsPerm(p, n) && x <= n
    ensures s == set y | 0 <= y < x :: p[y]
    ensures |s| == x
  {
    if x == 0 {
      s := {};
    } else {
      var t := PrefixSetSize(p, n, x - 1);
      s := t + {p[x - 1]};
      assert p[x - 1] !in t;
    }
  }

  lemma {:induction false} InRange(p: seq<int>, n: nat, v: int) returns (x: nat)
    requires IsPerm(p, n) && 0 <= v < n
    ensures x < n && p[x] == v
  {
    var s := PrefixSetSize(p, n, n);
    if v !in s {
      SubsetSize(s + {v}, Range(n));
      assert false;
    }
    x :| 0 <= x < n && p[x] == v;
  }

  ghost function Range(n: nat): (s: set<int>)
    ensures |s| == n
    ensures forall y :: y in s <==> 0 <= y < n
  {
    if n == 0 then {} else Range(n - 1) + {n - 1}
  }

  lemma {:induction false} SubsetSize<T>(s: set<T>, t: set<T>)
    requires s <= t
    ensures |s| <= |t|
    decreases s
  {
    if s != {} {
      var e :| e in s;
      SubsetSize(s - {e}, t - {e});
    }
  }

  /** One side of the pigeonhole: q cannot be strictly ahead of p at any slot. */
  lemma NotAhead(b: seq<byte>, p: seq<int>, q: seq<int>, x: nat)
    requires RotationSorted(b, p) && RotationSorted(b, q) && x < |b|
    ensures Cmp(b, q[x], p[x], |b|) >= 0
  {
    var n := |b|;
    if Cmp(b, q[x], p[x], n) < 0 {
      var qs := PrefixSetSize(q, n, x + 1);
      var ps := PrefixSetSize(p, n, x);
      forall v | v in qs ensures v in ps {
        var y: nat :| y < x + 1 && q[y] == v;
        var z := InRange(p, n, v);
        if z >= x {
          CmpRefl(b, p[x], n);
          CmpRefl(b, q[x], n);
          CmpTrans(b, p[x], p[z], q[x], n);
          CmpAnti(b, p[x], q[x], n);
          assert false;
        }
      }
      SubsetSize(qs, ps);
      assert false;
    }
  }

  /** Any two rotation-sorted permutations agree slot by slot as rotations, ties broken anyhow. */
  lemma SortedPermsAgree(b: seq<byte>, p: seq<int>, q: seq<int>, x: nat)
    requires RotationSorted(b, p) && RotationSorted(b, q) && x < |b|
    ensures Cmp(b, p[x], q[x], |b|) == 0
  {
    NotAhead(b, p, q, x);
    NotAhead(b, q, p, x);
    CmpAnti(b, p[x], q[x], |b|);
  }

  /** t maps every slot back to what landed there: it is a permutation too, and f's inverse. */
  lemma InvertPerm(f: seq<int>, t: seq<int>, n: nat)
    requires IsPerm(f, n) && |t| == n && forall i :: 0 <= i < n ==> t[f[i]] == i
    ensures IsPerm(t, n) && forall x :: 0 <= x < n ==> f[t[x]] == x
  {
    forall x | 0 <= x < n ensures 0 <= t[x] < n && f[t[x]] == x {
      var i := InRange(f, n, x);
    }
    forall x, y | 0 <= x < y < n ensures t[x] != t[y] {
      assert f[t[x]] != f[t[y]];
    }
  }
}

/** The code tree as the arrays hold it: parents, and (in proofs only) the two children of every
    inner node.  Leaves are 1..a, inner nodes a+1..nn; a node without a parent is a root. */
module HuffmanTree {
  import opened Powers
  import opened Counting
  import opened CanonicalCodes

  /** Parents come later than their children. */
  ghost predicate Upward(par: seq<int>, nn: int) {
    nn < |par| && forall v :: 1 <= v <= nn ==> par[v] == -1 || v < par[v] <= nn
  }

  ghost predicate Tree(par: seq<int>, lc: seq<int>, rc: seq<int>, a: int, nn: int) {
    && 2 <= a <= nn < |par| && |lc| == |rc| == |par|
    && Upward(par, nn) && (forall v :: 1 <= v <= nn ==> par[v] == -1 || a < par[v])
    && (forall k :: a < k <= nn ==> 1 <= lc[k] < k && 1 <= rc[k] < k && lc[k] != rc[k] && par[lc[k]] == k && par[rc[k]] == k)
    && (forall v :: 1 <= v <= nn && par[v] >= 0 ==> v == lc[par[v]] || v == rc[par[v]])
  }

  ghost function Merged(par: seq<int>, nn: int, n1: int, n2: int): seq<int>
    requires 0 <= n1 < |par| && 0 <= n2 < |par| && 0 <= nn + 1 < |par|
  {
    par[n1 := nn + 1][n2 := nn + 1][nn + 1 := -1]
  }

  lemma TreeMerge(par: seq<int>, lc: seq<int>, rc: seq<int>, a: int, nn: int, n1: int, n2: int)
    requires Tree(par, lc, rc, a, nn) && nn + 1 < |par|
    requires 1 <= n1 <= nn && 1 <= n2 <= nn && n1 != n2 && par[n1] == -1 && par[n2] == -1
    ensures Tree(Merged(par, nn, n1, n2), lc[nn + 1 := n1], rc[nn + 1 := n2], a, nn + 1)
  {
  }

  /** One tree: every node but the last has a parent. */
  ghost predicate Whole(par: seq<int>, nn: int) {
    nn < |par| && forall v :: 1 <= v < nn ==> par[v] > v
  }

  /** Steps from v to the root, as the source's length loop counts them. */
  ghost function Depth(par: seq<int>, nn: int, v: int): (d: nat)
    requires 1 <= v <= nn && Upward(par, nn)
    ensures d <= nn - v
    decreases nn - v
  {
    if par[v] < 0 then 0 else 1 + Depth(par, nn, par[v])
  }

  // ---------- Kraft's sum ----------

  ghost function Share(par: seq<int>, lc: seq<int>, rc: seq<int>, a: int, nn: int, v: int): nat
    requires Tree(par, lc, rc, a, nn) && 1 <= v <= nn
  {
    Pow2(nn - Depth(par, nn, v))
  }

  /** The shares of the nodes up to j whose parent is above k. */
  ghost function Cut(par: seq<int>, lc: seq<int>, rc: seq<int>, a: int, nn: int, k: int, j: int): nat
    requires Tree(par, lc, rc, a, nn) && 0 <= j <= nn
    decreases j
  {
    if j == 0 then 0
    else Cut(par, lc, rc, a, nn, k, j - 1) + if par[j] > k || par[j] < 0 then Share(par, lc, rc, a, nn, j) else 0
  }

  /** Lowering the cut past inner node k trades it for its two children. */
  lemma {:induction false} CutLower(par: seq<int>, lc: seq<int>, rc: seq<int>, a: int, nn: int, k: int, j: int)
    requires Tree(par, lc, rc, a, nn) && a < k <= nn && 0 <= j < k
    ensures Cut(par, lc, rc, a, nn, k - 1, j) == Cut(par, lc, rc, a, nn, k, j)
              + (if lc[k] <= j then Share(par, lc, rc, a, nn, lc[k]) else 0)
              + (if rc[k] <= j then Share(par, lc, rc, a, nn, rc[k]) else 0)
    decreases j
  {
    hide Share, Depth;
    if j > 0 { CutLower(par, lc, rc, a, nn, k, j - 1); }
  }

  lemma SharesSplit(par: seq<int>, lc: seq<int>, rc: seq<int>, a: int, nn: int, k: int)
    requires Tree(par, lc, rc, a, nn) && a < k <= nn
    ensures Share(par, lc, rc, a, nn, lc[k]) + Share(par, lc, rc, a, nn, rc[k]) == Share(par, lc, rc, a, nn, k)
  {
    var d := Depth(par, nn, k);
    assert Depth(par, nn, lc[k]) == d + 1 && Depth(par, nn, rc[k]) == d + 1;
    assert Pow2(nn - d) == 2 * Pow2(nn - (d + 1));
  }

  /** At every level the nodes cut off carry the whole tree's share. */
  lemma {:induction false} CutWhole(par: seq<int>, lc: seq<int>, rc: seq<int>, a: int, nn: int, k: int)
    requires Tree(par, lc, rc, a, nn) && Whole(par, nn) && par[nn] == -1 && a <= k <= nn
    ensures Cut(par, lc, rc, a, nn, k, k) == Pow2(nn)
    decreases nn - k
  {
    if k == nn {
      CutNone(par, lc, rc, a, nn, nn - 1);
    } else {
      CutWhole(par, lc, rc, a, nn, k + 1);
      CutLower(par, lc, rc, a, nn, k + 1, k);
      SharesSplit(par, lc, rc, a, nn, k + 1);
      assert Cut(par, lc, rc, a, nn, k + 1, k + 1) == Cut(par, lc, rc, a, nn, k + 1, k) + Share(par, lc, rc, a, nn, k + 1);
    }
  }

  lemma {:induction false} CutNone(par: seq<int>, lc: seq<int>, rc: seq<int>, a: int, nn: int, j: int)
    requires Tree(par, lc, rc, a, nn) && Whole(par, nn) && 0 <= j < nn
    ensures Cut(par, lc, rc, a, nn, nn, j) == 0
    decreases j
  {
    if j > 0 { CutNone(par, lc, rc, a, nn, j - 1); }
  }

  /** The Kraft sum of the first k lengths, scaled by 2^m. */
  ghost function KraftSum(len: seq<int>, m: nat, k: nat): nat
    requires k <= |len| && forall i :: 0 <= i < |len| ==> 0 <= len[i] <= m
  {
    if k == 0 then 0 else KraftSum(len, m, k - 1) + Pow2(m - len[k - 1])
  }

  ghost predicate DepthsOf(par: seq<int>, lc: seq<int>, rc: seq<int>, a: int, nn: int, len: seq<int>) {
    Tree(par, lc, rc, a, nn) && |len| == a && forall i :: 0 <= i < a ==> len[i] == Depth(par, nn, i + 1)
  }

  lemma {:induction false} CutIsKraft(par: seq<int>, lc: seq<int>, rc: seq<int>, a: int, nn: int, len: seq<int>, j: int)
    requires DepthsOf(par, lc, rc, a, nn, len) && 0 <= j <= a
    requires forall i :: 0 <= i < |len| ==> 0 <= len[i] <= nn
    ensures Cut(par, lc, rc, a, nn, a, j) == KraftSum(len, nn, j)
    decreases j
  {
    if j > 0 {
      CutIsKraft(par, lc, rc, a, nn, len, j - 1);
      assert len[j - 1] == Depth(par, nn, j);
    }
  }

  lemma {:induction false} KraftScale(len: seq<int>, m: nat, e: nat, k: nat)
    requires k <= |len| && forall i :: 0 <= i < |len| ==> 0 <= len[i] <= m
    ensures KraftSum(len, m + e, k) == KraftSum(len, m, k) * Pow2(e)
  {
    hide Pow2;
    if k > 0 {
      KraftScale(len, m, e, k - 1);
      Pow2Add(m - len[k - 1], e);
      Distribute(KraftSum(len, m, k - 1), Pow2(m - len[k - 1]), Pow2(e));
      assert m + e - len[k - 1] == m - len[k - 1] + e;
    }
  }

  lemma Distribute(x: nat, y: nat, e: nat)
    ensures (x + y) * e == x * e + y * e
  {
  }

  /** Contributions to Past of the first k lengths that do not exceed n. */
  ghost function PastUpTo(len: seq<int>, n: nat, k: nat): nat
    requires k <= |len| && forall i :: 0 <= i < |len| ==> 0 <= len[i]
  {
    if k == 0 then 0 else PastUpTo(len, n, k - 1) + if len[k - 1] <= n then Pow2(n - len[k - 1]) else 0
  }

  lemma {:induction false} PastUpToStep(len: seq<int>, n: nat, k: nat)
    requires k <= |len| && forall i :: 0 <= i < |len| ==> 0 <= len[i]
    ensures PastUpTo(len, n + 1, k) == 2 * PastUpTo(len, n, k) + Occ(len, n + 1, k)
  {
    if k > 0 { PastUpToStep(len, n, k - 1); }
  }

  lemma {:induction false} PastUpToZero(len: seq<int>, k: nat)
    requires k <= |len| && forall i :: 0 <= i < |len| ==> 0 <= len[i]
    ensures PastUpTo(len, 0, k) == Occ(len, 0, k)
  {
    if k > 0 { PastUpToZero(len, k - 1); }
  }

  lemma {:induction false} PastIsSum(len: seq<int>, n: nat)
    requires forall i :: 0 <= i < |len| ==> 0 <= len[i]
    ensures Past(len, n) == PastUpTo(len, n, |len|)
  {
    if n == 0 {
      PastUpToZero(len, |len|);
    } else {
      PastIsSum(len, n - 1);
      PastUpToStep(len, n - 1, |len|);
    }
  }

  lemma {:induction false} PastUpToAll(len: seq<int>, n: nat, k: nat)
    requires k <= |len| && forall i :: 0 <= i < |len| ==> 0 <= len[i] <= n
    ensures PastUpTo(len, n, k) == KraftSum(len, n, k)
  {
    if k > 0 { PastUpToAll(len, n, k - 1); }
  }

  lemma MulCancel(x: nat, y: nat, e: nat)
    requires x * e == y * e && e >= 1
    ensures x == y
  {
  }

  /** The depths of a whole tree, none above 20, make a complete prefix code. */
  lemma CompleteCode(par: seq<int>, lc: seq<int>, rc: seq<int>, a: int, nn: int, len: seq<int>)
    requires DepthsOf(par, lc, rc, a, nn, len) && Whole(par, nn) && par[nn] == -1
    requires forall i :: 0 <= i < a ==> 0 <= len[i] <= LONGEST
    ensures Past(len, LONGEST) == Pow2(LONGEST)
  {
    hide *;
    DepthsParts(par, lc, rc, a, nn, len);
    CutWhole(par, lc, rc, a, nn, a);
    CutIsKraft(par, lc, rc, a, nn, len, a);
    PastIsSum(len, LONGEST);
    PastUpToAll(len, LONGEST, |len|);
    var k := KraftSum(len, LONGEST, a);
    KraftEnds(len, a, nn);
  }

  lemma DepthsParts(par: seq<int>, lc: seq<int>, rc: seq<int>, a: int, nn: int, len: seq<int>)
    requires DepthsOf(par, lc, rc, a, nn, len)
    ensures Tree(par, lc, rc, a, nn) && 2 <= a <= nn && |len| == a && LONGEST == 20 && forall i :: 0 <= i < |len| ==> 0 <= len[i] <= nn
  {
    hide Tree, Depth;
    assert 2 <= a <= nn && Upward(par, nn) by { TreeParts(par, lc, rc, a, nn); }
    forall i | 0 <= i < |len| ensures 0 <= len[i] <= nn { assert len[i] == Depth(par, nn, i + 1); }
  }

  lemma TreeParts(par: seq<int>, lc: seq<int>, rc: seq<int>, a: int, nn: int)
    requires Tree(par, lc, rc, a, nn)
    ensures 2 <= a <= nn && Upward(par, nn)
  {
  }

  /** A Kraft sum that is whole at one scale is whole at the other. */
  lemma KraftEnds(len: seq<int>, a: int, nn: int)
    requires 0 <= a == |len| && 0 <= nn && (forall i :: 0 <= i < |len| ==> 0 <= len[i] <= nn) && (forall i :: 0 <= i < a ==> 0 <= len[i] <= LONGEST)
    requires KraftSum(len, nn, a) == Pow2(nn)
    ensures KraftSum(len, LONGEST, a) == Pow2(LONGEST)
  {
    hide Pow2, KraftSum;
    var k := KraftSum(len, LONGEST, a);
    if nn >= LONGEST {
      KraftScale(len, LONGEST, nn - LONGEST, a);
      Pow2Add(LONGEST, nn - LONGEST);
      MulCancel(k, Pow2(LONGEST), Pow2(nn - LONGEST));
    } else {
      KraftScale(len, nn, LONGEST - nn, a);
      Pow2Add(nn, LONGEST - nn);
    }
  }
}

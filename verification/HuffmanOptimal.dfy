/** Why merging the two lightest roots gives the cheapest code: going down the merges from the whole tree,
    the code words cut off at every level cost no more than any others that would fit. */
module HuffmanOptimal {
  import opened Powers
  import opened HuffmanTree

  // ---------- sums over the nodes that are roots between two merges ----------

  /** Node v has not yet been merged when k is the newest node. */
  ghost predicate Open(par: seq<int>, k: int, v: int) {
    1 <= v < |par| && (par[v] > k || par[v] < 0)
  }

  ghost function Total(par: seq<int>, val: seq<int>, k: int, j: int): int
    requires 0 <= j < |par| == |val|
    decreases j
  {
    if j == 0 then 0 else Total(par, val, k, j - 1) + if Open(par, k, j) then val[j] else 0
  }

  lemma {:induction false} TotalUpdate(par: seq<int>, val: seq<int>, k: int, j: int, u: int, z: int)
    requires 0 <= j < |par| == |val| && 1 <= u < |val|
    ensures Total(par, val[u := z], k, j) == Total(par, val, k, j) + if u <= j && Open(par, k, u) then z - val[u] else 0
    decreases j
  {
    hide Open;
    if j > 0 { TotalUpdate(par, val, k, j - 1, u, z); }
  }

  lemma {:induction false} TotalNonNeg(par: seq<int>, val: seq<int>, k: int, j: int)
    requires 0 <= j < |par| == |val| && forall v :: 0 <= v < |val| ==> val[v] >= 0
    ensures Total(par, val, k, j) >= 0
    decreases j
  {
    if j > 0 { TotalNonNeg(par, val, k, j - 1); }
  }

  /** Going back before the merge into node k trades it for its two children. */
  lemma {:induction false} TotalLower(par: seq<int>, lc: seq<int>, rc: seq<int>, a: int, nn: int, val: seq<int>, k: int, j: int)
    requires Tree(par, lc, rc, a, nn) && a < k <= nn && 0 <= j < k && |val| == |par|
    ensures Total(par, val, k - 1, j) == Total(par, val, k, j) + (if lc[k] <= j then val[lc[k]] else 0) + (if rc[k] <= j then val[rc[k]] else 0)
    decreases j
  {
    if j > 0 { TotalLower(par, lc, rc, a, nn, val, k, j - 1); }
  }

  lemma TotalStep(par: seq<int>, lc: seq<int>, rc: seq<int>, a: int, nn: int, val: seq<int>, k: int)
    requires Tree(par, lc, rc, a, nn) && a < k <= nn && |val| == |par|
    ensures Total(par, val, k, k) == Total(par, val, k - 1, k - 1) - val[lc[k]] - val[rc[k]] + val[k]
  {
    TotalLower(par, lc, rc, a, nn, val, k, k - 1);
  }

  // ---------- lengths for the roots ----------

  ghost predicate Within(x: seq<int>, m: nat) {
    forall v :: 0 <= v < |x| ==> 0 <= x[v] <= m
  }

  ghost function Shares(x: seq<int>, m: nat): (r: seq<int>)
    requires Within(x, m)
    ensures |r| == |x| && forall v :: 0 <= v < |x| ==> r[v] == Pow2(m - x[v])
  {
    seq(|x|, v requires 0 <= v < |x| => Pow2(m - x[v]))
  }

  ghost function Product(c: int, x: int): int { c * x }

  ghost function Costs(c: seq<int>, x: seq<int>): (r: seq<int>)
    requires |c| == |x|
    ensures |r| == |x| && forall v :: 0 <= v < |x| ==> r[v] == Product(c[v], x[v])
  {
    seq(|x|, v requires 0 <= v < |x| => Product(c[v], x[v]))
  }

  /** Kraft's inequality for the roots when k is the newest node. */
  ghost predicate Fitting(par: seq<int>, x: seq<int>, m: nat, k: int) {
    0 <= k < |par| == |x| && Within(x, m) && Total(par, Shares(x, m), k, k) <= Pow2(m)
  }

  ghost function CostAt(par: seq<int>, c: seq<int>, x: seq<int>, k: int): int
    requires 0 <= k < |par| == |x| == |c|
  {
    Total(par, Costs(c, x), k, k)
  }

  lemma SharesUpdate(x: seq<int>, m: nat, u: int, z: int)
    requires Within(x, m) && 0 <= u < |x| && 0 <= z <= m
    ensures Within(x[u := z], m) && Shares(x[u := z], m) == Shares(x, m)[u := Pow2(m - z)]
  {
    hide Pow2;
  }

  lemma CostsUpdate(c: seq<int>, x: seq<int>, u: int, z: int)
    requires |c| == |x| && 0 <= u < |x|
    ensures Costs(c, x[u := z]) == Costs(c, x)[u := Product(c[u], z)]
  {
    hide Product;
  }

  /** What changing one length does to both sums. */
  lemma OneChange(par: seq<int>, c: seq<int>, x: seq<int>, m: nat, k: int, u: int, z: int)
    requires 0 <= k < |par| == |x| == |c| && Within(x, m) && 1 <= u < |x| && 0 <= z <= m
    ensures Within(x[u := z], m)
    ensures Total(par, Shares(x[u := z], m), k, k) == Total(par, Shares(x, m), k, k) + if u <= k && Open(par, k, u) then Pow2(m - z) - Pow2(m - x[u]) else 0
    ensures CostAt(par, c, x[u := z], k) == CostAt(par, c, x, k) + if u <= k && Open(par, k, u) then Product(c[u], z) - Product(c[u], x[u]) else 0
  {
    hide Pow2, Product, Total, Open;
    SharesUpdate(x, m, u, z);
    CostsUpdate(c, x, u, z);
    TotalUpdate(par, Shares(x, m), k, k, u, Pow2(m - z));
    TotalUpdate(par, Costs(c, x), k, k, u, Product(c[u], z));
  }

  // ---------- the exchange ----------

  lemma Crossed(c: int, d: int, x: int, y: int)
    requires c <= d && x <= y
    ensures Product(c, y) + Product(d, x) <= Product(c, x) + Product(d, y)
  {
    assert (d - c) * (y - x) >= 0;
    assert (d - c) * (y - x) == d * y - d * x - c * y + c * x;
  }

  ghost function Swapped(x: seq<int>, u: int, v: int): seq<int>
    requires 0 <= u < |x| && 0 <= v < |x|
  {
    x[u := x[v]][v := x[u]]
  }

  /** The lighter of two roots may have the longer length. */
  lemma SwapBetter(par: seq<int>, c: seq<int>, x: seq<int>, m: nat, k: int, u: int, v: int)
    requires Fitting(par, x, m, k) && |c| == |x| && 1 <= u <= k && 1 <= v <= k && u != v && Open(par, k, u) && Open(par, k, v)
    requires c[u] <= c[v] && x[u] <= x[v]
    ensures Fitting(par, Swapped(x, u, v), m, k) && CostAt(par, c, Swapped(x, u, v), k) <= CostAt(par, c, x, k)
  {
    hide Pow2, Product, Total, CostAt, Open;
    OneChange(par, c, x, m, k, u, x[v]);
    OneChange(par, c, x[u := x[v]], m, k, v, x[u]);
    Crossed(c[u], c[v], x[u], x[v]);
  }

  /** A root other than skip with the greatest length. */
  lemma {:induction false} Longest(par: seq<int>, x: seq<int>, k: int, j: int, skip: int, some: int) returns (u: int)
    requires 0 <= j <= k < |par| == |x| && 1 <= some <= j && Open(par, k, some) && some != skip
    ensures 1 <= u <= j && Open(par, k, u) && u != skip && forall v :: 1 <= v <= j && v != skip && Open(par, k, v) ==> x[v] <= x[u]
    decreases j
  {
    if w: int :| 1 <= w <= j - 1 && Open(par, k, w) && w != skip {
      u := Longest(par, x, k, j - 1, skip, w);
      if j != skip && Open(par, k, j) && x[j] > x[u] { u := j; }
    } else {
      u := some;
    }
  }

  /** No root is longer than l, and none but l longer than r. */
  ghost predicate Topmost(par: seq<int>, x: seq<int>, k: int, l: int, r: int) {
    && 0 <= k < |par| == |x| && 1 <= l <= k && 1 <= r <= k && l != r && x[r] <= x[l]
    && forall v :: 1 <= v <= k && v != l && Open(par, k, v) ==> x[v] <= x[r]
  }

  /** l and r are the two lightest roots. */
  ghost predicate TwoLeast(par: seq<int>, c: seq<int>, k: int, l: int, r: int) {
    && 0 <= k < |par| == |c| && 1 <= l <= k && 1 <= r <= k && l != r && Open(par, k, l) && Open(par, k, r) && c[l] <= c[r]
    && forall v :: 1 <= v <= k && v != l && Open(par, k, v) ==> c[r] <= c[v]
  }

  /** The two lightest may have the two greatest lengths. */
  lemma Raised(par: seq<int>, c: seq<int>, x: seq<int>, m: nat, k: int, l: int, r: int) returns (y: seq<int>)
    requires Fitting(par, x, m, k) && TwoLeast(par, c, k, l, r)
    ensures |y| == |x| && Fitting(par, y, m, k) && CostAt(par, c, y, k) <= CostAt(par, c, x, k) && Topmost(par, y, k, l, r)
  {
    hide CostAt, Fitting, Open;
    FittingSize(par, x, m, k);
    var u := Longest(par, x, k, k, 0, l);
    y := x;
    if u != l {
      SwapBetter(par, c, x, m, k, l, u);
      y := Swapped(x, l, u);
    }
    assert forall v :: 1 <= v <= k && Open(par, k, v) ==> y[v] <= y[l];
    var z := y;
    var t := Longest(par, z, k, k, l, r);
    if t != r {
      SwapBetter(par, c, z, m, k, r, t);
      y := Swapped(z, r, t);
    }
  }

  lemma FittingSize(par: seq<int>, x: seq<int>, m: nat, k: int)
    requires Fitting(par, x, m, k)
    ensures 0 <= k < |par| == |x|
  {
  }

  // ---------- two equal lengths ----------

  lemma Factor(m: nat, e: nat, y: nat)
    requires y <= e <= m
    ensures Pow2(m - y) == Pow2(m - e) * Pow2(e - y)
  {
    Pow2Add(m - e, e - y);
    assert m - y == m - e + (e - y);
  }

  lemma Plus(q: int, t: int, s: int)
    ensures q * t + q * s == q * (t + s)
  {
  }

  /** But for l, whose share is left out, all shares are multiples of the share of length e. */
  lemma {:induction false} Multiple(par: seq<int>, x: seq<int>, m: nat, e: nat, k: int, j: int, l: int) returns (t: int)
    requires 0 <= j <= k < |par| == |x| && Within(x, m) && e <= m && 1 <= l <= k
    requires forall v :: 1 <= v <= k && v != l && Open(par, k, v) ==> x[v] <= e
    ensures Total(par, Shares(x, m)[l := 0], k, j) == Pow2(m - e) * t
    decreases j
  {
    hide Pow2, Open;
    if j == 0 {
      t := 0;
    } else {
      t := Multiple(par, x, m, e, k, j - 1, l);
      if j != l && Open(par, k, j) {
        Factor(m, e, x[j]);
        Plus(Pow2(m - e), t, Pow2(e - x[j]));
        t := t + Pow2(e - x[j]);
      }
    }
  }

  lemma RoundUp(q: int, t: int, s: int, p: int)
    requires q >= 1 && s >= 1 && q * t + s <= q * p
    ensures q * t + q <= q * p
  {
    assert t < p by { if t >= p { TimesMono(q, p, t); } }
    TimesMono(q, t + 1, p);
    assert q * (t + 1) == q * t + q;
  }

  lemma TimesMono(q: int, t: int, p: int)
    requires q >= 0 && t <= p
    ensures q * t <= q * p
  {
    assert q * (p - t) >= 0;
    assert q * (p - t) == q * p - q * t;
  }

  lemma LessTimes(c: int, y: int, z: int)
    requires c >= 0 && z <= y
    ensures Product(c, z) <= Product(c, y)
  {
    assert c * (y - z) >= 0;
    assert c * (y - z) == c * y - c * z;
  }

  /** The longest need not be longer than the next. */
  lemma Shortened(par: seq<int>, c: seq<int>, x: seq<int>, m: nat, k: int, l: int, r: int)
    requires Fitting(par, x, m, k) && |c| == |x| && Topmost(par, x, k, l, r) && Open(par, k, l) && c[l] >= 0
    ensures Fitting(par, x[l := x[r]], m, k) && CostAt(par, c, x[l := x[r]], k) <= CostAt(par, c, x, k)
  {
    hide Pow2, Product, Total, CostAt, Open;
    var e := x[r];
    OneChange(par, c, x, m, k, l, e);
    LessTimes(c[l], x[l], e);
    var t := Multiple(par, x, m, e, k, k, l);
    TotalUpdate(par, Shares(x, m), k, k, l, 0);
    Factor(m, e, 0);
    Pow2Positive(m - e);
    Pow2Positive(m - x[l]);
    RoundUp(Pow2(m - e), t, Pow2(m - x[l]), Pow2(e));
  }

  lemma Pow2Positive(n: nat)
    ensures Pow2(n) >= 1
  {
  }

  /** Two words of length nothing do not fit. */
  lemma NotNothing(par: seq<int>, x: seq<int>, m: nat, k: int, l: int, r: int)
    requires Fitting(par, x, m, k) && 1 <= l <= k && 1 <= r <= k && l != r && Open(par, k, l) && Open(par, k, r) && x[l] == x[r]
    ensures x[l] >= 1
  {
    hide Pow2, Total, Open;
    var s := Shares(x, m);
    TotalUpdate(par, s, k, k, l, 0);
    TotalUpdate(par, s[l := 0], k, k, r, 0);
    forall v | 0 <= v < |s| ensures s[v] >= 0 { Pow2Positive(m - x[v]); }
    TotalNonNeg(par, s[l := 0][r := 0], k, k);
    Pow2Positive(m);
  }

  lemma Halves(m: nat, e: nat)
    requires 1 <= e <= m
    ensures Pow2(m - (e - 1)) == Pow2(m - e) + Pow2(m - e)
  {
  }

  lemma MergedCost(c: int, d: int, e: int)
    ensures Product(c + d, e - 1) == Product(c, e) + Product(d, e) - (c + d)
  {
  }

  ghost predicate Siblings(par: seq<int>, lc: seq<int>, rc: seq<int>, a: int, nn: int, k: int, l: int, r: int) {
    Tree(par, lc, rc, a, nn) && a < k <= nn && l == lc[k] && r == rc[k]
  }

  lemma SiblingsAt(par: seq<int>, lc: seq<int>, rc: seq<int>, a: int, nn: int, val: seq<int>, k: int, l: int, r: int)
    requires Siblings(par, lc, rc, a, nn, k, l, r) && |val| == |par|
    ensures 1 <= l < k && 1 <= r < k && 2 <= k < |par|
    ensures Total(par, val, k, k) == Total(par, val, k - 1, k - 1) - val[l] - val[r] + val[k]
  {
    TotalStep(par, lc, rc, a, nn, val, k);
  }

  /** Two siblings of equal length merge into their parent. */
  lemma MergedFits(par: seq<int>, lc: seq<int>, rc: seq<int>, a: int, nn: int, x: seq<int>, m: nat, k: int, l: int, r: int)
    requires Siblings(par, lc, rc, a, nn, k, l, r) && 0 <= l < |x| && 0 <= r < |x| && 0 <= k < |x| == |par|
    requires Fitting(par, x, m, k - 1) && x[l] == x[r] >= 1
    ensures Fitting(par, x[k := x[l] - 1], m, k)
  {
    hide Pow2, Product, Total, Open, Siblings;
    var e := x[l];
    var y := x[k := e - 1];
    SiblingsAt(par, lc, rc, a, nn, x, k, l, r);
    SharesUpdate(x, m, k, e - 1);
    TotalUpdate(par, Shares(x, m), k - 1, k - 1, k, Pow2(m - (e - 1)));
    SiblingsAt(par, lc, rc, a, nn, Shares(y, m), k, l, r);
    Halves(m, e);
  }

  lemma MergedCosts(par: seq<int>, lc: seq<int>, rc: seq<int>, a: int, nn: int, c: seq<int>, x: seq<int>, k: int, l: int, r: int)
    requires Siblings(par, lc, rc, a, nn, k, l, r) && 0 <= l < |x| && 0 <= r < |x| && 0 <= k < |x| == |par| == |c|
    requires c[k] == c[l] + c[r] && x[l] == x[r] && k >= 1
    ensures CostAt(par, c, x[k := x[l] - 1], k) == CostAt(par, c, x, k - 1) - c[k]
  {
    hide Product, Total, Open, Siblings;
    var e := x[l];
    var y := x[k := e - 1];
    SiblingsAt(par, lc, rc, a, nn, x, k, l, r);
    CostsUpdate(c, x, k, e - 1);
    TotalUpdate(par, Costs(c, x), k - 1, k - 1, k, Product(c[k], e - 1));
    SiblingsAt(par, lc, rc, a, nn, Costs(c, y), k, l, r);
    MergedCost(c[l], c[r], e);
  }

  // ---------- from the root down ----------

  /** Every merge took the two lightest roots, and added their weights. */
  ghost predicate Greedy(par: seq<int>, lc: seq<int>, rc: seq<int>, c: seq<int>, a: int, nn: int) {
    && |c| == |lc| == |rc| == |par| && 0 <= a && nn < |par|
    && (forall v :: 1 <= v <= nn ==> c[v] >= 0)
    && forall k :: a < k <= nn ==> 0 <= lc[k] < |c| && 0 <= rc[k] < |c| && c[k] == c[lc[k]] + c[rc[k]] && TwoLeast(par, c, k - 1, lc[k], rc[k])
  }

  ghost function Depths(par: seq<int>, nn: int): (d: seq<int>)
    requires Upward(par, nn)
    ensures |d| == |par| && forall v :: 0 <= v < |d| ==> d[v] == if 1 <= v <= nn then Depth(par, nn, v) else 0
  {
    seq(|par|, v requires 0 <= v < |par| => if 1 <= v <= nn then Depth(par, nn, v) else 0)
  }

  /** What a merge costs: one bit more for everything below it. */
  lemma DepthCost(par: seq<int>, lc: seq<int>, rc: seq<int>, a: int, nn: int, c: seq<int>, k: int)
    requires Tree(par, lc, rc, a, nn) && Upward(par, nn) && Greedy(par, lc, rc, c, a, nn) && a < k <= nn < |par| == |c|
    ensures CostAt(par, c, Depths(par, nn), k - 1) == CostAt(par, c, Depths(par, nn), k) + c[k]
  {
    hide *;
    GreedyAt(par, lc, rc, c, a, nn, k);
    UpwardAt(par, lc, rc, a, nn, k);
    var l, r, d := lc[k], rc[k], Depths(par, nn);
    ChildDepths(par, lc, rc, a, nn, k, d);
    TotalStep(par, lc, rc, a, nn, Costs(c, d), k);
    CostIs(par, c, d, k);
    CostIs(par, c, d, k - 1);
    MergedCost(c[l], c[r], d[k] + 1);
  }

  lemma UpwardAt(par: seq<int>, lc: seq<int>, rc: seq<int>, a: int, nn: int, k: int)
    requires Tree(par, lc, rc, a, nn) && a < k <= nn
    ensures Upward(par, nn) && 2 <= a && nn < |par|
  {
  }

  lemma ChildDepths(par: seq<int>, lc: seq<int>, rc: seq<int>, a: int, nn: int, k: int, d: seq<int>)
    requires Tree(par, lc, rc, a, nn) && a < k <= nn && d == Depths(par, nn)
    ensures 1 <= lc[k] < k && 1 <= rc[k] < k && d[lc[k]] == d[k] + 1 && d[rc[k]] == d[k] + 1
  {
  }

  lemma {:induction false} NothingOpen(par: seq<int>, val: seq<int>, nn: int, j: int)
    requires Whole(par, nn) && Upward(par, nn) && |val| == |par| && 0 <= j < nn
    ensures Total(par, val, nn, j) == 0
    decreases j
  {
    if j > 0 { NothingOpen(par, val, nn, j - 1); }
  }

  lemma CostNonNeg(par: seq<int>, c: seq<int>, x: seq<int>, m: nat, nn: int)
    requires 1 <= nn < |par| == |x| == |c| && Whole(par, nn) && Upward(par, nn) && Within(x, m) && c[nn] >= 0
    ensures CostAt(par, c, x, nn) >= 0 && (x[nn] == 0 ==> CostAt(par, c, x, nn) == 0)
  {
    NothingOpen(par, Costs(c, x), nn, nn - 1);
    LessTimes(c[nn], x[nn], 0);
  }

  lemma GreedyAt(par: seq<int>, lc: seq<int>, rc: seq<int>, c: seq<int>, a: int, nn: int, k: int)
    requires Greedy(par, lc, rc, c, a, nn) && a < k <= nn
    ensures |c| == |lc| == |rc| == |par| && 0 <= lc[k] < |c| && 0 <= rc[k] < |c| && c[k] == c[lc[k]] + c[rc[k]]
    ensures TwoLeast(par, c, k - 1, lc[k], rc[k]) && 1 <= lc[k] < k && 1 <= rc[k] < k && lc[k] != rc[k] && c[lc[k]] >= 0
    ensures Open(par, k - 1, lc[k]) && Open(par, k - 1, rc[k])
  {
  }

  /** Lengths that fit before a merge make no dearer ones that fit after it. */
  lemma MergeCheaper(par: seq<int>, lc: seq<int>, rc: seq<int>, a: int, nn: int, c: seq<int>, x: seq<int>, m: nat, k: int) returns (y: seq<int>)
    requires Tree(par, lc, rc, a, nn) && Greedy(par, lc, rc, c, a, nn) && 2 <= a <= k < nn < |par| == |c| && Fitting(par, x, m, k)
    ensures |y| == |c| && Fitting(par, y, m, k + 1) && CostAt(par, c, y, k + 1) + c[k + 1] <= CostAt(par, c, x, k)
  {
    hide *;
    var n := k + 1;
    GreedyAt(par, lc, rc, c, a, nn, n);
    var l, r := lc[n], rc[n];
    FittingSize(par, x, m, k);
    var z := Raised(par, c, x, m, k, l, r);
    Shortened(par, c, z, m, k, l, r);
    z := z[l := z[r]];
    NotNothing(par, z, m, k, l, r);
    SiblingsIs(par, lc, rc, a, nn, n);
    MergedFits(par, lc, rc, a, nn, z, m, n, l, r);
    MergedCosts(par, lc, rc, a, nn, c, z, n, l, r);
    y := z[n := z[l] - 1];
  }

  lemma SiblingsIs(par: seq<int>, lc: seq<int>, rc: seq<int>, a: int, nn: int, k: int)
    requires Tree(par, lc, rc, a, nn) && a < k <= nn
    ensures Siblings(par, lc, rc, a, nn, k, lc[k], rc[k])
  {
    hide Tree;
  }

  /** The depths of the tree cost no more than any lengths that fit, at every level. */
  lemma {:induction false} Cheapest(par: seq<int>, lc: seq<int>, rc: seq<int>, a: int, nn: int, c: seq<int>, x: seq<int>, m: nat, k: int)
    requires Tree(par, lc, rc, a, nn) && Upward(par, nn) && Whole(par, nn) && par[nn] == -1 && Greedy(par, lc, rc, c, a, nn)
    requires 2 <= a <= k <= nn < |par| == |c| == |x| && Fitting(par, x, m, k)
    ensures CostAt(par, c, Depths(par, nn), k) <= CostAt(par, c, x, k)
    decreases nn - k
  {
    hide *;
    if k == nn {
      RootLast(par, lc, rc, a, nn, c, x, m);
    } else {
      var y := MergeCheaper(par, lc, rc, a, nn, c, x, m, k);
      Cheapest(par, lc, rc, a, nn, c, y, m, k + 1);
      DepthCost(par, lc, rc, a, nn, c, k + 1);
    }
  }

  lemma RootLast(par: seq<int>, lc: seq<int>, rc: seq<int>, a: int, nn: int, c: seq<int>, x: seq<int>, m: nat)
    requires Tree(par, lc, rc, a, nn) && Whole(par, nn) && par[nn] == -1 && Greedy(par, lc, rc, c, a, nn) && Fitting(par, x, m, nn)
    ensures CostAt(par, c, Depths(par, nn), nn) <= CostAt(par, c, x, nn)
  {
    var d := Depths(par, nn);
    assert d[nn] == 0 && c[nn] >= 0 && 1 <= nn;
    hide Total, Greedy, Tree;
    CostNonNeg(par, c, x, m, nn);
    NothingOpen(par, Costs(c, d), nn, nn - 1);
    LessTimes(c[nn], 0, 0);
    assert CostAt(par, c, d, nn) == 0 by { RootCost(par, c, d, nn); }
  }

  lemma RootCost(par: seq<int>, c: seq<int>, d: seq<int>, nn: int)
    requires 1 <= nn < |par| == |c| == |d| && Whole(par, nn) && Upward(par, nn) && d[nn] == 0
    ensures CostAt(par, c, d, nn) == 0
  {
    NothingOpen(par, Costs(c, d), nn, nn - 1);
  }

  /** The two lightest roots, seen after their merge. */
  lemma NewLeast(par: seq<int>, c: seq<int>, nn: int, n1: int, n2: int, x: int)
    requires Upward(par, nn) && nn + 1 < |par| == |c|
    requires 1 <= n1 <= nn && 1 <= n2 <= nn && n1 != n2 && par[n1] == -1 && par[n2] == -1 && c[n1] <= c[n2]
    requires forall v :: 1 <= v <= nn && par[v] == -1 && v != n1 ==> c[n2] <= c[v]
    ensures TwoLeast(Merged(par, nn, n1, n2), c[nn + 1 := x], nn, n1, n2)
  {
  }

  lemma MergedAt(par: seq<int>, lc: seq<int>, rc: seq<int>, c: seq<int>, a: int, nn: int, n1: int, n2: int, k: int)
    requires Upward(par, nn) && Greedy(par, lc, rc, c, a, nn) && nn + 1 < |par| && a < k <= nn + 1
    requires 1 <= n1 <= nn && 1 <= n2 <= nn && n1 != n2 && par[n1] == -1 && par[n2] == -1 && |c| == |lc| == |rc| == |par|
    requires TwoLeast(Merged(par, nn, n1, n2), c[nn + 1 := c[n1] + c[n2]], nn, n1, n2)
    ensures var lc', rc', c' := lc[nn + 1 := n1], rc[nn + 1 := n2], c[nn + 1 := c[n1] + c[n2]];
            && 0 <= lc'[k] < |c'| && 0 <= rc'[k] < |c'| && c'[k] == c'[lc'[k]] + c'[rc'[k]]
            && TwoLeast(Merged(par, nn, n1, n2), c', k - 1, lc'[k], rc'[k])
  {
    hide *;
    if k <= nn {
      GreedyAt(par, lc, rc, c, a, nn, k);
      StillLeast(par, c, nn, n1, n2, c[n1] + c[n2], k - 1, lc[k], rc[k]);
    }
  }

  /** A merge keeps it. */
  lemma GreedyMerge(par: seq<int>, lc: seq<int>, rc: seq<int>, c: seq<int>, a: int, nn: int, n1: int, n2: int)
    requires Tree(par, lc, rc, a, nn) && Greedy(par, lc, rc, c, a, nn) && nn + 1 < |par|
    requires 1 <= n1 <= nn && 1 <= n2 <= nn && n1 != n2 && par[n1] == -1 && par[n2] == -1 && c[n1] <= c[n2]
    requires forall v :: 1 <= v <= nn && par[v] == -1 && v != n1 ==> c[n2] <= c[v]
    ensures Greedy(Merged(par, nn, n1, n2), lc[nn + 1 := n1], rc[nn + 1 := n2], c[nn + 1 := c[n1] + c[n2]], a, nn + 1)
  {
    NewLeast(par, c, nn, n1, n2, c[n1] + c[n2]);
    var par', lc', rc', c' := Merged(par, nn, n1, n2), lc[nn + 1 := n1], rc[nn + 1 := n2], c[nn + 1 := c[n1] + c[n2]];
    assert Upward(par, nn) && |par'| == |par| && (forall v :: 1 <= v <= nn + 1 ==> c'[v] >= 0);
    hide Tree, TwoLeast, Merged, Upward;
    forall k | a < k <= nn + 1
      ensures 0 <= lc'[k] < |c'| && 0 <= rc'[k] < |c'| && c'[k] == c'[lc'[k]] + c'[rc'[k]] && TwoLeast(par', c', k - 1, lc'[k], rc'[k])
    {
      MergedAt(par, lc, rc, c, a, nn, n1, n2, k);
    }
  }

  lemma StillLeast(par: seq<int>, c: seq<int>, nn: int, n1: int, n2: int, x: int, k: int, l: int, r: int)
    requires TwoLeast(par, c, k, l, r) && k < nn && nn + 1 < |par|
    requires 1 <= n1 <= nn && 1 <= n2 <= nn && par[n1] == -1 && par[n2] == -1
    ensures TwoLeast(Merged(par, nn, n1, n2), c[nn + 1 := x], k, l, r)
  {
    var par' := Merged(par, nn, n1, n2);
    forall v {:trigger Open(par, k, v)} | 1 <= v <= k ensures Open(par', k, v) <==> Open(par, k, v) {
    }
  }

  // ---------- codes ----------

  /** What a code costs: for every symbol its weight times the length of its code word. */
  ghost function Cost(f: seq<int>, len: seq<int>, n: int): int
    requires 0 <= n <= |f| && n <= |len|
    decreases n
  {
    if n == 0 then 0 else Cost(f, len, n - 1) + Product(f[n - 1], len[n - 1])
  }

  /** Lengths that the words of some prefix code have: Kraft's inequality, whatever m serves as the scale. */
  ghost predicate Possible(len: seq<int>, m: nat) {
    (forall i :: 0 <= i < |len| ==> 0 <= len[i] <= m) && KraftSum(len, m, |len|) <= Pow2(m)
  }

  /** No prefix code costs less. */
  ghost predicate Optimal(f: seq<int>, len: seq<int>) {
    |len| == |f| && forall other: seq<int>, m: nat :: |other| == |f| && Possible(other, m) ==> Cost(f, len, |f|) <= Cost(f, other, |f|)
  }

  /** Lengths of symbols as lengths of the leaves. */
  ghost function Leaves(other: seq<int>, n: int): (x: seq<int>)
    requires n > |other|
    ensures |x| == n && forall v :: 0 <= v < n ==> x[v] == if 1 <= v <= |other| then other[v - 1] else 0
  {
    seq(n, v requires 0 <= v < n => if 1 <= v <= |other| then other[v - 1] else 0)
  }

  lemma {:induction false} LeafShares(par: seq<int>, a: int, x: seq<int>, len: seq<int>, m: nat, j: int)
    requires 0 <= j <= a == |len| && a < |par| == |x| && Within(x, m) && forall v :: 1 <= v <= a ==> (par[v] > a || par[v] < 0) && x[v] == len[v - 1]
    requires forall i :: 0 <= i < |len| ==> 0 <= len[i] <= m
    ensures Total(par, Shares(x, m), a, j) == KraftSum(len, m, j)
    decreases j
  {
    hide Pow2;
    if j > 0 { LeafShares(par, a, x, len, m, j - 1); }
  }

  lemma {:induction false} LeafCosts(par: seq<int>, a: int, c: seq<int>, x: seq<int>, f: seq<int>, len: seq<int>, j: int)
    requires 0 <= j <= a == |len| == |f| && a < |par| == |x| == |c|
    requires forall v :: 1 <= v <= a ==> (par[v] > a || par[v] < 0) && x[v] == len[v - 1] && c[v] == f[v - 1]
    ensures Total(par, Costs(c, x), a, j) == Cost(f, len, j)
    decreases j
  {
    hide Product;
    if j > 0 { LeafCosts(par, a, c, x, f, len, j - 1); }
  }

  lemma NoneCheaper(par: seq<int>, lc: seq<int>, rc: seq<int>, a: int, nn: int, c: seq<int>, f: seq<int>, len: seq<int>, other: seq<int>, m: nat)
    requires DepthsOf(par, lc, rc, a, nn, len) && Whole(par, nn) && par[nn] == -1 && Greedy(par, lc, rc, c, a, nn)
    requires |f| == a && (forall v :: 1 <= v <= a ==> c[v] == f[v - 1]) && |other| == a && Possible(other, m)
    ensures Cost(f, len, a) <= Cost(f, other, a)
  {
    var x, d := Leaves(other, |par|), Depths(par, nn);
    assert 2 <= a <= nn < |par| == |c| && Upward(par, nn) && (forall v :: 1 <= v <= a ==> par[v] > a || par[v] < 0);
    assert forall v :: 1 <= v <= a ==> d[v] == len[v - 1] by { LeafDepths(par, lc, rc, a, nn, len, d); }
    assert Tree(par, lc, rc, a, nn) && Within(x, m) && KraftSum(other, m, a) <= Pow2(m);
    hide *;
    LeafShares(par, a, x, other, m, a);
    FittingIs(par, x, m, a);
    Cheapest(par, lc, rc, a, nn, c, x, m, a);
    LeafCosts(par, a, c, x, f, other, a);
    LeafCosts(par, a, c, d, f, len, a);
    CostIs(par, c, x, a);
    CostIs(par, c, d, a);
  }

  lemma LeafDepths(par: seq<int>, lc: seq<int>, rc: seq<int>, a: int, nn: int, len: seq<int>, d: seq<int>)
    requires DepthsOf(par, lc, rc, a, nn, len) && d == Depths(par, nn)
    ensures forall v :: 1 <= v <= a ==> d[v] == len[v - 1]
  {
    forall v | 1 <= v <= a ensures d[v] == len[v - 1] { assert len[v - 1] == Depth(par, nn, v); }
  }

  lemma FittingIs(par: seq<int>, x: seq<int>, m: nat, k: int)
    requires 0 <= k < |par| == |x| && Within(x, m) && Total(par, Shares(x, m), k, k) <= Pow2(m)
    ensures Fitting(par, x, m, k)
  {
  }

  lemma CostIs(par: seq<int>, c: seq<int>, x: seq<int>, k: int)
    requires 0 <= k < |par| == |x| == |c|
    ensures CostAt(par, c, x, k) == Total(par, Costs(c, x), k, k)
  {
  }

  /** The depths of a tree built greedily are an optimal code for the weights of its leaves. */
  lemma GreedyOptimal(par: seq<int>, lc: seq<int>, rc: seq<int>, a: int, nn: int, c: seq<int>, f: seq<int>, len: seq<int>)
    requires DepthsOf(par, lc, rc, a, nn, len) && Whole(par, nn) && par[nn] == -1 && Greedy(par, lc, rc, c, a, nn)
    requires |f| == a && forall v :: 1 <= v <= a ==> c[v] == f[v - 1]
    ensures Optimal(f, len)
  {
    assert |len| == a;
    hide DepthsOf, Whole, Greedy, Cost, Possible;
    forall other: seq<int>, m: nat | |other| == |f| && Possible(other, m) ensures Cost(f, len, |f|) <= Cost(f, other, |f|) {
      NoneCheaper(par, lc, rc, a, nn, c, f, len, other, m);
    }
  }
}

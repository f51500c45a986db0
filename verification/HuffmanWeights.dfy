/** Weights of tree nodes: count above, subtree height in the low byte.  Why the height byte never
    overflows, and why leaves of weight one and two never make a code too long. */
module HuffmanWeights {
  import opened HuffmanTree

  function Count(w: int): int { w / 256 }

  function Height(w: int): int { w % 256 }

  function AddWeights(w1: int, w2: int): int {
    (Count(w1) + Count(w2)) * 256 + (1 + if Height(w1) > Height(w2) then Height(w1) else Height(w2))
  }

  lemma CountMono(x: int, y: int)
    requires x <= y
    ensures Count(x) <= Count(y)
  {
  }

  lemma AddParts(w1: int, w2: int)
    requires Height(w1) < 255 && Height(w2) < 255
    ensures Count(AddWeights(w1, w2)) == Count(w1) + Count(w2)
    ensures Height(AddWeights(w1, w2)) == 1 + if Height(w1) > Height(w2) then Height(w1) else Height(w2)
  {
    Unpacked(Count(w1) + Count(w2), 1 + if Height(w1) > Height(w2) then Height(w1) else Height(w2));
  }

  lemma Unpacked(c: int, d: int)
    requires 0 <= d < 256
    ensures (c * 256 + d) / 256 == c && (c * 256 + d) % 256 == d
  {
  }

  function Fib(n: nat): nat { if n < 2 then n else Fib(n - 1) + Fib(n - 2) }

  lemma {:induction false} FibMono(m: nat, n: nat)
    requires m <= n
    ensures Fib(m) <= Fib(n)
    decreases n
  {
    if m < n { FibMono(m, n - 1); }
  }

  lemma FibOf34()
    ensures Fib(34) > 0x40_0000
  {
    assert Fib(10) == 55 && Fib(11) == 89;
    assert Fib(20) == 6765 && Fib(21) == 10946;
    assert Fib(30) == 832040 && Fib(31) == 1346269;
  }

  // ---------- what building keeps ----------

  ghost predicate IsRoot(par: seq<int>, nn: int, v: int) {
    nn < |par| && 1 <= v <= nn && par[v] == -1
  }

  /** Sum of the counts of the roots up to j. */
  ghost function RootSum(par: seq<int>, w: seq<int>, j: int): int
    requires 0 <= j < |par| && j < |w|
    decreases j
  {
    if j == 0 then 0 else RootSum(par, w, j - 1) + if par[j] == -1 then Count(w[j]) else 0
  }

  /** Heights are bounded by a Fibonacci law: no root is lighter than m, the heavier of the last two
      nodes merged, and m carries every height. */
  ghost predicate Tall(par: seq<int>, w: seq<int>, nn: int, m: int) {
    && |w| == |par| && 0 <= nn < |par|
    && forall v :: IsRoot(par, nn, v) ==>
         && 0 <= w[v] && Count(w[v]) >= 1 && Count(w[v]) >= m
         && Count(w[v]) >= Fib(Height(w[v]) + 1) && m >= Fib(Height(w[v]))
  }

  /** Started from counts of one and two, roots stay within a factor of two of each other and every
      parent is at least half as heavy again as its children. */
  ghost predicate Even(par: seq<int>, w: seq<int>, nn: int) {
    && |w| == |par| && 0 <= nn < |par|
    && (forall u, v :: IsRoot(par, nn, u) && IsRoot(par, nn, v) ==> Count(w[u]) <= 2 * Count(w[v]))
    && forall v :: 1 <= v <= nn && 0 <= par[v] < |w| ==> 2 * Count(w[par[v]]) >= 3 * Count(w[v])
  }

  /** n1 and n2 are the two lightest roots, in order. */
  ghost predicate Lightest(par: seq<int>, w: seq<int>, nn: int, n1: int, n2: int) {
    && |w| == |par| && IsRoot(par, nn, n1) && IsRoot(par, nn, n2) && n1 != n2 && w[n1] <= w[n2]
    && forall v :: IsRoot(par, nn, v) && v != n1 ==> w[n2] <= w[v]
  }

  lemma {:induction false} RootSumSame(par: seq<int>, w: seq<int>, par': seq<int>, w': seq<int>, j: int)
    requires 0 <= j < |par| && j < |w| && |par'| == |par| && |w'| == |w|
    requires forall v :: 1 <= v <= j ==> par'[v] == par[v] && w'[v] == w[v]
    ensures RootSum(par', w', j) == RootSum(par, w, j)
    decreases j
  {
    if j > 0 { RootSumSame(par, w, par', w', j - 1); }
  }

  lemma {:induction false} RootSumDrop(par: seq<int>, w: seq<int>, x: int, p: int, j: int)
    requires 1 <= x <= j < |par| && j < |w| && par[x] == -1 && p >= 0
    ensures RootSum(par[x := p], w, j) == RootSum(par, w, j) - Count(w[x])
    decreases j
  {
    if x < j {
      RootSumDrop(par, w, x, p, j - 1);
    } else {
      RootSumSame(par, w, par[x := p], w, j - 1);
    }
  }

  lemma {:induction false} RootSumAtLeast(par: seq<int>, w: seq<int>, nn: int, j: int, v: int)
    requires 1 <= v <= j <= nn < |par| && nn < |w| && par[v] == -1
    requires forall u :: IsRoot(par, nn, u) ==> Count(w[u]) >= 0
    ensures RootSum(par, w, j) >= Count(w[v])
    decreases j
  {
    if v < j {
      RootSumAtLeast(par, w, nn, j - 1, v);
      assert IsRoot(par, nn, j) ==> Count(w[j]) >= 0;
    } else {
      RootSumNonNeg(par, w, nn, j - 1);
    }
  }

  lemma {:induction false} RootSumNonNeg(par: seq<int>, w: seq<int>, nn: int, j: int)
    requires 0 <= j <= nn < |par| && nn < |w|
    requires forall u :: IsRoot(par, nn, u) ==> Count(w[u]) >= 0
    ensures RootSum(par, w, j) >= 0
    decreases j
  {
    if j > 0 {
      RootSumNonNeg(par, w, nn, j - 1);
      assert IsRoot(par, nn, j) ==> Count(w[j]) >= 0;
    }
  }

  /** With counts totalling at most 2^22 no root is taller than 32. */
  lemma HeightBound(par: seq<int>, w: seq<int>, nn: int, m: int, v: int)
    requires Tall(par, w, nn, m) && IsRoot(par, nn, v) && RootSum(par, w, nn) <= 0x40_0000
    ensures 0 <= Height(w[v]) <= 32
  {
    hide RootSum, Fib;
    RootSumAtLeast(par, w, nn, nn, v);
    if Height(w[v]) > 32 {
      FibMono(34, Height(w[v]) + 1);
      FibOf34();
    }
  }

  lemma MergeSum(par: seq<int>, w: seq<int>, nn: int, n1: int, n2: int, x: int)
    requires |w| == |par| && 0 <= nn && nn + 1 < |par| && IsRoot(par, nn, n1) && IsRoot(par, nn, n2) && n1 != n2
    requires Count(x) == Count(w[n1]) + Count(w[n2])
    ensures RootSum(Merged(par, nn, n1, n2), w[nn + 1 := x], nn + 1) == RootSum(par, w, nn)
  {
    var p1 := par[n1 := nn + 1];
    var p2 := p1[n2 := nn + 1];
    RootSumDrop(par, w, n1, nn + 1, nn);
    RootSumDrop(p1, w, n2, nn + 1, nn);
    RootSumSame(p2, w, Merged(par, nn, n1, n2), w[nn + 1 := x], nn);
  }

  lemma MergedRoots(par: seq<int>, nn: int, n1: int, n2: int, v: int)
    requires 0 <= nn && nn + 1 < |par| && 1 <= n1 <= nn && 1 <= n2 <= nn
    ensures IsRoot(Merged(par, nn, n1, n2), nn + 1, v) <==> v == nn + 1 || (IsRoot(par, nn, v) && v != n1 && v != n2)
  {
  }

  /** The count of a merged root is enough for its height. */
  lemma TopTall(c1: int, c2: int, h1: int, h2: int, h: int, m: int)
    requires h1 >= 0 && h2 >= 0 && c2 >= c1 >= m && m >= Fib(h1) && m >= Fib(h2) && c1 >= Fib(h1 + 1) && c2 >= Fib(h2 + 1)
    requires h == 1 + if h1 > h2 then h1 else h2
    ensures c1 + c2 >= Fib(h + 1) && c2 >= Fib(h)
  {
    assert Fib(h + 1) == Fib(h) + Fib(h - 1);
  }

  lemma TallAt(par: seq<int>, w: seq<int>, nn: int, m: int, v: int)
    requires Tall(par, w, nn, m) && IsRoot(par, nn, v)
    ensures 0 <= v < |w| && 0 <= w[v] && Count(w[v]) >= 1 && Count(w[v]) >= m && Count(w[v]) >= Fib(Height(w[v]) + 1) && m >= Fib(Height(w[v]))
  {
    hide Count, Height, Fib;
  }

  lemma MergeTall(par: seq<int>, w: seq<int>, nn: int, m: int, n1: int, n2: int)
    requires Tall(par, w, nn, m) && nn + 1 < |par| && Lightest(par, w, nn, n1, n2) && RootSum(par, w, nn) <= 0x40_0000
    ensures Tall(Merged(par, nn, n1, n2), w[nn + 1 := AddWeights(w[n1], w[n2])], nn + 1, Count(w[n2]))
    ensures Count(AddWeights(w[n1], w[n2])) == Count(w[n1]) + Count(w[n2])
    ensures 0 <= AddWeights(w[n1], w[n2])
  {
    hide RootSum, Fib;
    HeightBound(par, w, nn, m, n1);
    HeightBound(par, w, nn, m, n2);
    AddParts(w[n1], w[n2]);
    CountMono(w[n1], w[n2]);
    var x := AddWeights(w[n1], w[n2]);
    var par' := Merged(par, nn, n1, n2);
    hide Count, Height, AddWeights;
    TallAt(par, w, nn, m, n1);
    TallAt(par, w, nn, m, n2);
    TopTall(Count(w[n1]), Count(w[n2]), Height(w[n1]), Height(w[n2]), Height(x), m);
    forall v {:trigger IsRoot(par', nn + 1, v)} | IsRoot(par', nn + 1, v)
      ensures var u := w[nn + 1 := x][v];
              && 0 <= u && Count(u) >= 1 && Count(u) >= Count(w[n2])
              && Count(u) >= Fib(Height(u) + 1) && Count(w[n2]) >= Fib(Height(u))
    {
      MergedRoots(par, nn, n1, n2, v);
      if v != nn + 1 {
        TallAt(par, w, nn, m, v);
        CountMono(w[n2], w[v]);
      }
    }
  }

  lemma MergeEven(par: seq<int>, w: seq<int>, nn: int, n1: int, n2: int, x: int)
    requires Even(par, w, nn) && nn + 1 < |par| && Lightest(par, w, nn, n1, n2)
    requires forall v :: 1 <= v <= nn ==> par[v] <= nn
    requires Count(x) == Count(w[n1]) + Count(w[n2]) && Count(w[n1]) >= 0
    ensures Even(Merged(par, nn, n1, n2), w[nn + 1 := x], nn + 1)
  {
    var par', w' := Merged(par, nn, n1, n2), w[nn + 1 := x];
    CountMono(w[n1], w[n2]);
    hide Count;
    forall v | IsRoot(par', nn + 1, v)
      ensures v == nn + 1 || (IsRoot(par, nn, v) && w'[v] == w[v] && Count(w[n2]) <= Count(w[v]))
    {
      MergedRoots(par, nn, n1, n2, v);
      if v != nn + 1 { CountMono(w[n2], w[v]); }
    }
    assert Count(w[n2]) <= 2 * Count(w[n1]);
    forall u, v | IsRoot(par', nn + 1, u) && IsRoot(par', nn + 1, v) ensures Count(w'[u]) <= 2 * Count(w'[v]) {
      if u != nn + 1 { assert Count(w[u]) <= 2 * Count(w[n1]); }
    }
    forall v | 1 <= v <= nn + 1 && 0 <= par'[v] < |w'| ensures 2 * Count(w'[par'[v]]) >= 3 * Count(w'[v]) {
      if v != n1 && v != n2 {
        assert par'[v] == par[v] && par[v] <= nn;
      }
    }
  }

  // ---------- the depth of an even tree ----------

  /** How heavy an even node must be to stand k levels above a leaf. */
  function Grown(k: nat): nat { if k == 0 then 1 else (3 * Grown(k - 1) + 1) / 2 }

  lemma {:induction false} GrownMono(j: nat, k: nat)
    requires j <= k
    ensures 1 <= Grown(j) <= Grown(k)
    decreases k
  {
    if j < k { GrownMono(j, k - 1); }
    if j == k && k > 0 { GrownMono(j - 1, k - 1); }
  }

  lemma {:induction false} ChainGrows(par: seq<int>, lc: seq<int>, rc: seq<int>, w: seq<int>, a: int, nn: int, v: int, k: nat)
    requires Tree(par, lc, rc, a, nn) && Even(par, w, nn) && Whole(par, nn) && par[nn] == -1
    requires |w| == |par| && 1 <= v <= nn && Count(w[v]) >= Grown(k)
    ensures Count(w[nn]) >= Grown(k + Depth(par, nn, v))
    decreases nn - v
  {
    hide Count, Even;
    if v < nn {
      EvenStep(par, w, nn, v);
      ChainGrows(par, lc, rc, w, a, nn, par[v], k + 1);
    }
  }

  lemma EvenStep(par: seq<int>, w: seq<int>, nn: int, v: int)
    requires Even(par, w, nn) && 1 <= v <= nn && 0 <= par[v] < |w|
    ensures 2 * Count(w[par[v]]) >= 3 * Count(w[v])
  {
  }

  /** Leaves of weight one and two, at most 258 of them: no code is longer than 14 bits. */
  lemma EvenDepth(par: seq<int>, lc: seq<int>, rc: seq<int>, w: seq<int>, a: int, nn: int, v: int)
    requires Tree(par, lc, rc, a, nn) && Even(par, w, nn) && Whole(par, nn) && par[nn] == -1
    requires nn < |par| == |w| && Upward(par, nn) && 1 <= v <= nn && Count(w[v]) >= 1 && Count(w[nn]) <= 516
    ensures Depth(par, nn, v) <= 14
  {
    hide *;
    GrownZero();
    ChainGrows(par, lc, rc, w, a, nn, v, 0);
    GrownLimit(Depth(par, nn, v), Count(w[nn]));
  }

  lemma GrownZero()
    ensures Grown(0) == 1
  {
  }

  lemma GrownLimit(d: nat, c: int)
    requires Grown(d) <= c <= 516
    ensures d <= 14
  {
    if d > 14 {
      GrownMono(15, d);
      GrownOf15();
    }
  }

  lemma GrownOf15()
    ensures Grown(15) == 710
  {
    assert Grown(1) == 2 && Grown(2) == 3 && Grown(3) == 5 && Grown(4) == 8 && Grown(5) == 12;
    assert Grown(6) == 18 && Grown(7) == 27 && Grown(8) == 41 && Grown(9) == 62 && Grown(10) == 93;
    assert Grown(11) == 140 && Grown(12) == 210 && Grown(13) == 315 && Grown(14) == 473;
  }
}

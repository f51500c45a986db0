/** BZ2_hbMakeCodeLengths: code lengths from frequencies by repeatedly merging the two lightest
    roots of a heap, halving the leaf weights and starting again while some code is too long. */
module HuffmanLengths {
  import opened Powers
  import opened Segments
  import opened CanonicalCodes
  import opened NodeHeap
  import opened HuffmanTree
  import opened HuffmanWeights
  import opened HuffmanOptimal

  const NODES: int := MAX_ALPHA_SIZE * 2

  /** The counts of all nodes. */
  ghost function Counts(w: seq<int>): (c: seq<int>)
    ensures |c| == |w| && forall v :: 0 <= v < |w| ==> c[v] == Count(w[v])
  {
    seq(|w|, v requires 0 <= v < |w| => Count(w[v]))
  }

  lemma CountsUpdate(w: seq<int>, k: int, x: int)
    requires 0 <= k < |w|
    ensures Counts(w[k := x]) == Counts(w)[k := Count(x)]
  {
    hide Count;
  }

  ghost function Entries(h: seq<int>, n: int): multiset<int>
    requires 0 <= n < |h|
  {
    multiset(h[1..n + 1])
  }

  /** e is the set of roots, each once. */
  ghost predicate RootsAre(e: multiset<int>, par: seq<int>, nn: int) {
    forall v :: e[v] == if IsRoot(par, nn, v) then 1 else 0
  }

  /** The heap holds the roots. */
  ghost predicate Holding(h: seq<int>, par: seq<int>, nn: int, n: int) {
    0 <= n < |h| && RootsAre(Entries(h, n), par, nn)
  }

  // ---------- heap traffic ----------

  lemma ShuffledEntries(a: seq<int>, b: seq<int>, n: int)
    requires 0 <= n < |a| && Shuffled(a, b, 1, n)
    ensures Entries(b, n) == Entries(a, n)
  {
    ShuffledSlices(a, b, 1, n);
  }

  lemma PushEntries(h: seq<int>, n: int, v: int)
    requires 0 <= n && n + 1 < |h|
    ensures Entries(h[n + 1 := v], n + 1) == Entries(h, n) + multiset{v}
  {
    assert h[n + 1 := v][1..n + 2] == h[1..n + 1] + [v];
  }

  /** r is e without one x. */
  ghost predicate Removed(e: multiset<int>, r: multiset<int>, x: int) {
    x in e && r == e - multiset{x}
  }

  /** r is e with one x more. */
  ghost predicate Added(e: multiset<int>, r: multiset<int>, x: int) {
    r == e + multiset{x}
  }

  lemma PopEntries(h: seq<int>, n: int)
    requires 1 <= n < |h|
    ensures Removed(Entries(h, n), Entries(h[1 := h[n]], n - 1), h[1])
  {
    assert h[1] in Entries(h, n) by { assert h[1..n + 1][0] == h[1]; }
    var g := h[1 := h[n]];
    if n == 1 {
      assert h[1..2] == [h[1]];
      assert g[1..1] == [];
    } else {
      assert h[1..n + 1] == [h[1]] + h[2..n] + [h[n]];
      assert g[1..n] == [h[n]] + h[2..n];
    }
  }

  lemma EntryIn(h: seq<int>, n: int, v: int) returns (i: int)
    requires 0 <= n < |h| && v in Entries(h, n)
    ensures 1 <= i <= n && h[i] == v
  {
    var j :| 0 <= j < n && h[1..n + 1][j] == v;
    i := j + 1;
  }

  lemma PopOrder(h: seq<int>, w: seq<int>, n: int)
    requires Ordered(h, w, n) && 1 <= n
    ensures OrderedDown(h[1 := h[n]], w, n - 1, 1)
    ensures 0 <= h[1] < |w| && 0 <= h[n] < |w|
    ensures LightestOf(Entries(h, n), w, h[1])
  {
    forall v | v in Entries(h, n) ensures 0 <= v < |w| && w[h[1]] <= w[v] {
      var i := EntryIn(h, n, v);
      MinFirst(h, w, n, i);
    }
    var g := h[1 := h[n]];
    forall i | 2 <= i <= n - 1 && i / 2 != 1 ensures w[g[i / 2]] <= w[g[i]] {
      assert w[h[i / 2]] <= w[h[i]];
    }
  }

  /** No entry of e is lighter than its entry top. */
  ghost predicate LightestOf(e: multiset<int>, w: seq<int>, top: int) {
    0 <= top < |w| && forall v :: v in e ==> 0 <= v < |w| && w[top] <= w[v]
  }

  /** Takes the lightest entry off the heap. */
  method Pop(heap: array<int>, weight: array<int>, n: int) returns (top: int)
    requires heap != weight && 1 <= n < heap.Length
    requires Ordered(heap[..], weight[..], n)
    modifies heap
    ensures heap[0] == old(heap[0])
    ensures Ordered(heap[..], weight[..], n - 1)
    ensures Removed(old(Entries(heap[..], n)), Entries(heap[..], n - 1), top)
    ensures LightestOf(old(Entries(heap[..], n)), weight[..], top)
  {
    hide *;
    ghost var h := heap[..];
    PopOrder(h, weight[..], n);
    PopEntries(h, n);
    top := heap[1];
    heap[1] := heap[n];
    assert heap[..] == h[1 := h[n]];
    DownHeap(heap, weight, n - 1);
    ShuffledEntries(h[1 := h[n]], heap[..], n - 1);
  }

  lemma PushOrder(h: seq<int>, w: seq<int>, n: int, v: int)
    requires Ordered(h, w, n) && n + 1 < |h| && 0 <= v < |w|
    ensures OrderedUp(h[n + 1 := v], w, n + 1, n + 1)
  {
    var g := h[n + 1 := v];
    forall i | 2 <= i <= n + 1 && i != n + 1 ensures w[g[i / 2]] <= w[g[i]] {
      assert w[h[i / 2]] <= w[h[i]];
    }
  }

  /** Adds a node to the heap. */
  method Push(heap: array<int>, weight: array<int>, n: int, node: int)
    requires heap != weight && 0 <= n && n + 1 < heap.Length < 0x8000_0000
    requires Ordered(heap[..], weight[..], n)
    requires heap[0] == 0 && 0 < node < weight.Length && weight[0] == 0 && 0 <= weight[node]
    modifies heap
    ensures heap[0] == 0
    ensures Ordered(heap[..], weight[..], n + 1)
    ensures Added(old(Entries(heap[..], n)), Entries(heap[..], n + 1), node)
  {
    ghost var h := heap[..];
    PushOrder(h, weight[..], n, node);
    PushEntries(h, n, node);
    hide Ordered, OrderedUp, Shuffled;
    heap[n + 1] := node;
    assert heap[..] == h[n + 1 := node];
    UpHeap(heap, weight, n + 1, n + 1);
    ShuffledEntries(h[n + 1 := node], heap[..], n + 1);
  }

  // ---------- one merge ----------

  /** Everything building keeps: n roots in the heap, counts conserved, heights and evenness bounded. */
  ghost predicate Growing(h: seq<int>, par: seq<int>, w: seq<int>, lc: seq<int>, rc: seq<int>, a: int, nn: int, n: int, m: int, t: int, even: bool) {
    && |par| == |w| == NODES && |h| == MAX_ALPHA_SIZE + 2
    && 2 <= a <= MAX_ALPHA_SIZE && n + nn == 2 * a && 1 <= n
    && h[0] == 0 && w[0] == 0
    && Tree(par, lc, rc, a, nn) && Ordered(h, w, n) && Holding(h, par, nn, n)
    && Tall(par, w, nn, m) && RootSum(par, w, nn) == t <= 0x40_0000
    && (even ==> Even(par, w, nn)) && Greedy(par, lc, rc, Counts(w), a, nn)
  }

  /** The two entries popped first are the two lightest roots. */
  lemma PoppedLightest(w: seq<int>, par: seq<int>, nn: int, e: multiset<int>, e1: multiset<int>, n1: int, n2: int)
    requires |w| == |par| && nn < |par|
    requires RootsAre(e, par, nn)
    requires Removed(e, e1, n1) && n2 in e1
    requires LightestOf(e, w, n1) && LightestOf(e1, w, n2)
    ensures Lightest(par, w, nn, n1, n2)
  {
    assert e[n1] == 1 && e[n2] == 1;
    assert IsRoot(par, nn, n1) && IsRoot(par, nn, n2);
    forall v | IsRoot(par, nn, v) && v != n1 ensures w[n2] <= w[v] {
      assert v in e1;
    }
  }

  lemma HoldingMerge(e: multiset<int>, e1: multiset<int>, rest: multiset<int>, par: seq<int>, nn: int, n1: int, n2: int)
    requires 0 <= nn && nn + 1 < |par| && IsRoot(par, nn, n1) && IsRoot(par, nn, n2) && n1 != n2
    requires RootsAre(e, par, nn)
    requires Removed(e, e1, n1) && Removed(e1, rest, n2)
    ensures RootsAre(rest + multiset{nn + 1}, Merged(par, nn, n1, n2), nn + 1)
    ensures rest <= e
  {
    forall v {:trigger IsRoot(par, nn, v)} ensures (rest + multiset{nn + 1})[v] == if IsRoot(Merged(par, nn, n1, n2), nn + 1, v) then 1 else 0 {
      MergedRoots(par, nn, n1, n2, v);
    }
  }

  lemma OrderedOther(h: seq<int>, w: seq<int>, n: int, k: int, x: int)
    requires Ordered(h, w, n) && 0 <= k < |w| && forall i :: 1 <= i <= n ==> h[i] != k
    ensures Ordered(h, w[k := x], n)
  {
    forall i {:trigger h[i]} | 2 <= i <= n ensures w[k := x][h[i / 2]] <= w[k := x][h[i]] {
      assert w[h[i / 2]] <= w[h[i]];
    }
  }

  lemma EntriesBelow(h: seq<int>, par: seq<int>, nn: int, n: int, e: multiset<int>)
    requires 0 <= n < |h| && Entries(h, n) <= e
    requires RootsAre(e, par, nn)
    ensures forall i :: 1 <= i <= n ==> h[i] != nn + 1
  {
    forall i | 1 <= i <= n ensures h[i] != nn + 1 {
      assert h[1..n + 1][i - 1] == h[i];
      assert h[i] in Entries(h, n);
      assert h[i] in e;
    }
  }

  /** The state after both pops: what holds of the arrays once the new node is written. */
  ghost predicate Popped(h: seq<int>, par: seq<int>, w: seq<int>, lc: seq<int>, rc: seq<int>, a: int, nn: int, n: int, m: int, t: int, even: bool, e: multiset<int>) {
    && |par| == |w| == NODES && |h| == MAX_ALPHA_SIZE + 2
    && 2 <= a <= MAX_ALPHA_SIZE && n + 1 + nn == 2 * a && 0 <= n
    && h[0] == 0 && w[0] == 0
    && Tree(par, lc, rc, a, nn) && Ordered(h, w, n)
    && RootsAre(e + multiset{nn}, par, nn)
    && Tall(par, w, nn, m) && RootSum(par, w, nn) == t <= 0x40_0000
    && (even ==> Even(par, w, nn)) && Greedy(par, lc, rc, Counts(w), a, nn)
  }

  /** n1 and then n2 came off the heap, leaving the entries of h. */
  ghost predicate TwoOff(h0: seq<int>, h1: seq<int>, h: seq<int>, w: seq<int>, n: int, n1: int, n2: int) {
    && |h| == |h1| == |h0| && 2 <= n < |h| && h[0] == 0 && Ordered(h, w, n - 2)
    && Removed(Entries(h0, n), Entries(h1, n - 1), n1) && LightestOf(Entries(h0, n), w, n1)
    && Removed(Entries(h1, n - 1), Entries(h, n - 2), n2) && LightestOf(Entries(h1, n - 1), w, n2)
  }

  lemma TwoOffLightest(h0: seq<int>, h1: seq<int>, h: seq<int>, par: seq<int>, w: seq<int>, nn: int, n: int, n1: int, n2: int)
    requires TwoOff(h0, h1, h, w, n, n1, n2) && Holding(h0, par, nn, n) && |w| == |par| && 0 <= nn && nn + 1 < |par|
    ensures Lightest(par, w, nn, n1, n2) && IsRoot(par, nn, n1) && IsRoot(par, nn, n2) && n1 != n2
  {
    hide Ordered, IsRoot, Entries, Lightest;
    PoppedLightest(w, par, nn, Entries(h0, n), Entries(h1, n - 1), n1, n2);
    LightestRoots(par, w, nn, n1, n2);
  }

  lemma TwoOffHeap(h0: seq<int>, h1: seq<int>, h: seq<int>, par: seq<int>, w: seq<int>, nn: int, n: int, n1: int, n2: int, x: int)
    requires 2 <= n < |h0| == |h| && |w| == |par| && 0 <= nn && nn + 1 < |par|
    requires Ordered(h, w, n - 2) && |h1| == |h|
    requires Removed(Entries(h0, n), Entries(h1, n - 1), n1) && Removed(Entries(h1, n - 1), Entries(h, n - 2), n2)
    requires RootsAre(Entries(h0, n), par, nn) && IsRoot(par, nn, n1) && IsRoot(par, nn, n2) && n1 != n2
    ensures Ordered(h, w[nn + 1 := x], n - 2)
    ensures RootsAre(Entries(h, n - 2) + multiset{nn + 1}, Merged(par, nn, n1, n2), nn + 1)
  {
    hide *;
    RootRange(par, nn, n1);
    RootRange(par, nn, n2);
    HoldingMerge(Entries(h0, n), Entries(h1, n - 1), Entries(h, n - 2), par, nn, n1, n2);
    EntriesBelow(h, par, nn, n - 2, Entries(h0, n));
    OrderedOther(h, w, n - 2, nn + 1, x);
  }

  lemma TwoOffBasics(h0: seq<int>, h1: seq<int>, h: seq<int>, par: seq<int>, w: seq<int>, nn: int, n: int, n1: int, n2: int)
    requires TwoOff(h0, h1, h, w, n, n1, n2) && Holding(h0, par, nn, n)
    ensures Ordered(h, w, n - 2) && |h1| == |h| && 2 <= n
    ensures Removed(Entries(h0, n), Entries(h1, n - 1), n1) && Removed(Entries(h1, n - 1), Entries(h, n - 2), n2)
    ensures RootsAre(Entries(h0, n), par, nn)
  {
  }

  lemma MergeStep(h0: seq<int>, h1: seq<int>, h: seq<int>, par: seq<int>, w: seq<int>, lc: seq<int>, rc: seq<int>,
                  a: int, nn: int, n: int, m: int, t: int, even: bool, n1: int, n2: int)
    requires Growing(h0, par, w, lc, rc, a, nn, n, m, t, even) && n >= 2 && TwoOff(h0, h1, h, w, n, n1, n2)
    ensures nn + 1 < NODES && 1 <= n1 <= nn && 1 <= n2 <= nn && |par| == |w| == |lc| == |rc| == NODES
    ensures 0 <= AddWeights(w[n1], w[n2])
    ensures Popped(h, Merged(par, nn, n1, n2), w[nn + 1 := AddWeights(w[n1], w[n2])], lc[nn + 1 := n1], rc[nn + 1 := n2],
                   a, nn + 1, n - 2, Count(w[n2]), t, even, Entries(h, n - 2))
  {
    assert |h| == |h0| && h[0] == 0 && |lc| == |rc| == |par| && 0 <= nn;
    hide TwoOff, Holding, RootsAre, Ordered, Tall, Even, RootSum, AddWeights, Count, Entries, Lightest, Merged, IsRoot, Greedy, Counts;
    TwoOffLightest(h0, h1, h, par, w, nn, n, n1, n2);
    RootRange(par, nn, n1);
    RootRange(par, nn, n2);
    var x := AddWeights(w[n1], w[n2]);
    TwoOffBasics(h0, h1, h, par, w, nn, n, n1, n2);
    TwoOffHeap(h0, h1, h, par, w, nn, n, n1, n2, x);
    MergeTall(par, w, nn, m, n1, n2);
    TreeMerge(par, lc, rc, a, nn, n1, n2);
    MergeSum(par, w, nn, n1, n2, x);
    if even { EvenStepUp(par, w, lc, rc, a, nn, m, n1, n2, x); }
    GreedyStepUp(par, w, lc, rc, a, nn, n1, n2, x);
    hide Tree;
  }

  lemma RootRange(par: seq<int>, nn: int, v: int)
    requires IsRoot(par, nn, v)
    ensures nn < |par| && 1 <= v <= nn && par[v] == -1
  {
  }

  lemma LightestCounts(par: seq<int>, w: seq<int>, nn: int, n1: int, n2: int)
    requires Lightest(par, w, nn, n1, n2)
    ensures |w| == |par| && 1 <= n1 <= nn && 1 <= n2 <= nn && n1 != n2 && nn < |par| && par[n1] == -1 && par[n2] == -1
    ensures Counts(w)[n1] <= Counts(w)[n2] && forall v :: 1 <= v <= nn && par[v] == -1 && v != n1 ==> Counts(w)[n2] <= Counts(w)[v]
  {
    CountMono(w[n1], w[n2]);
    forall v | 1 <= v <= nn && par[v] == -1 && v != n1 ensures Counts(w)[n2] <= Counts(w)[v] {
      assert IsRoot(par, nn, v);
      CountMono(w[n2], w[v]);
    }
  }

  lemma GreedyStepUp(par: seq<int>, w: seq<int>, lc: seq<int>, rc: seq<int>, a: int, nn: int, n1: int, n2: int, x: int)
    requires Greedy(par, lc, rc, Counts(w), a, nn) && Tree(par, lc, rc, a, nn) && 0 <= nn && nn + 1 < |par| && Lightest(par, w, nn, n1, n2)
    requires 0 <= n1 < |w| && 0 <= n2 < |w| && |lc| == |rc| == |par| == |w| && Count(x) == Count(w[n1]) + Count(w[n2])
    ensures Greedy(Merged(par, nn, n1, n2), lc[nn + 1 := n1], rc[nn + 1 := n2], Counts(w[nn + 1 := x]), a, nn + 1)
  {
    hide *;
    LightestCounts(par, w, nn, n1, n2);
    CountsUpdate(w, nn + 1, x);
    GreedyMerge(par, lc, rc, Counts(w), a, nn, n1, n2);
  }

  lemma EvenStepUp(par: seq<int>, w: seq<int>, lc: seq<int>, rc: seq<int>, a: int, nn: int, m: int, n1: int, n2: int, x: int)
    requires Even(par, w, nn) && Tall(par, w, nn, m) && Tree(par, lc, rc, a, nn) && nn + 1 < |par| && Lightest(par, w, nn, n1, n2)
    requires Count(x) == Count(w[n1]) + Count(w[n2])
    ensures Even(Merged(par, nn, n1, n2), w[nn + 1 := x], nn + 1)
  {
    RootCounts(par, w, nn, m, n1);
    MergeEven(par, w, nn, n1, n2, x);
  }

  /** Pushing the new node completes the merge. */
  lemma PushedGrowing(h: seq<int>, h': seq<int>, par: seq<int>, w: seq<int>, lc: seq<int>, rc: seq<int>,
                      a: int, nn: int, n: int, m: int, t: int, even: bool, e: multiset<int>)
    requires Popped(h, par, w, lc, rc, a, nn, n, m, t, even, e)
    requires |h'| == |h| && h'[0] == 0 && n + 1 < |h| && Ordered(h', w, n + 1) && Added(e, Entries(h', n + 1), nn)
    ensures Growing(h', par, w, lc, rc, a, nn, n + 1, m, t, even)
  {
    hide Tree, Ordered, Tall, Even, RootSum, Greedy, Counts;
  }

  lemma LightestRoots(par: seq<int>, w: seq<int>, nn: int, n1: int, n2: int)
    requires Lightest(par, w, nn, n1, n2)
    ensures IsRoot(par, nn, n1) && IsRoot(par, nn, n2) && n1 != n2
  {
  }

  lemma RootCounts(par: seq<int>, w: seq<int>, nn: int, m: int, v: int)
    requires Tall(par, w, nn, m) && IsRoot(par, nn, v)
    ensures Count(w[v]) >= 1
  {
  }

  // ---------- building ----------

  /** Takes the two lightest entries off the heap. */
  method PopTwo(heap: array<int>, weight: array<int>, n: int) returns (n1: int, n2: int, ghost h1: seq<int>)
    requires heap != weight && 2 <= n < heap.Length && heap[0] == 0
    requires Ordered(heap[..], weight[..], n)
    modifies heap
    ensures TwoOff(old(heap[..]), h1, heap[..], weight[..], n, n1, n2)
  {
    hide Ordered, Removed, LightestOf, Entries;
    n1 := Pop(heap, weight, n);
    h1 := heap[..];
    n2 := Pop(heap, weight, n - 1);
  }

  /** Puts node nn above n1 and n2. */
  method Attach(weight: array<int>, parent: array<int>, nNodes: int, n1: int, n2: int)
    requires weight != parent && 0 <= nNodes && nNodes + 1 < weight.Length == parent.Length
    requires 1 <= n1 <= nNodes && 1 <= n2 <= nNodes
    modifies weight, parent
    ensures parent[..] == Merged(old(parent[..]), nNodes, n1, n2)
    ensures weight[..] == old(weight[..])[nNodes + 1 := AddWeights(old(weight[n1]), old(weight[n2]))]
  {
    hide AddWeights;
    var nn := nNodes + 1;
    parent[n1] := nn;
    parent[n2] := nn;
    weight[nn] := AddWeights(weight[n1], weight[n2]);
    parent[nn] := -1;
  }

  /** The first half of a merge: the two lightest roots get a common parent, not yet in the heap. */
  method Join(heap: array<int>, weight: array<int>, parent: array<int>, nNodes: int, nHeap: int,
              ghost lc: seq<int>, ghost rc: seq<int>, ghost a: int, ghost m: int, ghost t: int, ghost even: bool)
    returns (ghost lc': seq<int>, ghost rc': seq<int>, ghost m': int)
    requires heap != weight && heap != parent && weight != parent && nHeap >= 2
    requires Growing(heap[..], parent[..], weight[..], lc, rc, a, nNodes, nHeap, m, t, even)
    modifies heap, weight, parent
    ensures 0 <= nHeap - 2 < heap.Length
    ensures Popped(heap[..], parent[..], weight[..], lc', rc', a, nNodes + 1, nHeap - 2, m', t, even, Entries(heap[..], nHeap - 2))
    ensures a <= nNodes < weight.Length && weight[..a + 1] == old(weight[..a + 1])
  {
    ghost var h0, par, w := heap[..], parent[..], weight[..];
    GrowingHeap(h0, par, w, lc, rc, a, nNodes, nHeap, m, t, even);
    hide *;
    ghost var h1;
    var n1, n2;
    n1, n2, h1 := PopTwo(heap, weight, nHeap);
    MergeStep(h0, h1, heap[..], par, w, lc, rc, a, nNodes, nHeap, m, t, even, n1, n2);
    Attach(weight, parent, nNodes, n1, n2);
    lc', rc', m' := lc[nNodes + 1 := n1], rc[nNodes + 1 := n2], Count(w[n2]);
  }

  /** Merges the two lightest roots under a new node. */
  method MergeTwo(heap: array<int>, weight: array<int>, parent: array<int>, nNodes: int, nHeap: int,
                  ghost lc: seq<int>, ghost rc: seq<int>, ghost a: int, ghost m: int, ghost t: int, ghost even: bool)
    returns (ghost lc': seq<int>, ghost rc': seq<int>, ghost m': int)
    requires heap != weight && heap != parent && weight != parent && nHeap >= 2
    requires Growing(heap[..], parent[..], weight[..], lc, rc, a, nNodes, nHeap, m, t, even)
    modifies heap, weight, parent
    ensures Growing(heap[..], parent[..], weight[..], lc', rc', a, nNodes + 1, nHeap - 1, m', t, even)
    ensures a <= nNodes < weight.Length && weight[..a + 1] == old(weight[..a + 1])
  {
    hide *;
    lc', rc', m' := Join(heap, weight, parent, nNodes, nHeap, lc, rc, a, m, t, even);
    ghost var h, e := heap[..], Entries(heap[..], nHeap - 2);
    PoppedHeap(h, parent[..], weight[..], lc', rc', a, nNodes + 1, nHeap - 2, m', t, even, e);
    Push(heap, weight, nHeap - 2, nNodes + 1);
    PushedGrowing(h, heap[..], parent[..], weight[..], lc', rc', a, nNodes + 1, nHeap - 2, m', t, even, e);
  }

  lemma GrowingHeap(h: seq<int>, par: seq<int>, w: seq<int>, lc: seq<int>, rc: seq<int>, a: int, nn: int, n: int, m: int, t: int, even: bool)
    requires Growing(h, par, w, lc, rc, a, nn, n, m, t, even)
    ensures |par| == |w| == |lc| == |rc| == NODES && |h| == MAX_ALPHA_SIZE + 2 && 1 <= n < |h| && h[0] == 0 && w[0] == 0
    ensures Ordered(h, w, n) && 2 <= a <= nn < NODES && nn + n == 2 * a
  {
  }

  lemma PoppedHeap(h: seq<int>, par: seq<int>, w: seq<int>, lc: seq<int>, rc: seq<int>, a: int, nn: int, n: int, m: int, t: int, even: bool, e: multiset<int>)
    requires Popped(h, par, w, lc, rc, a, nn, n, m, t, even, e)
    ensures Ordered(h, w, n) && h[0] == 0 && w[0] == 0 && 0 < nn < |w| && 0 <= n && n + 1 < |h| < 0x8000_0000
    ensures 0 <= w[nn]
  {
    assert (e + multiset{nn})[nn] >= 1;
    assert IsRoot(par, nn, nn);
  }

  /** Leaves carry a positive count and no height. */
  ghost predicate LeafWeights(w: seq<int>, a: int) {
    0 <= a < |w| && forall v :: 1 <= v <= a ==> w[v] >= 256 && Count(w[v]) >= 1 && Height(w[v]) == 0
  }

  ghost function LeafSum(w: seq<int>, a: int): int
    requires 0 <= a < |w|
    decreases a
  {
    if a == 0 then 0 else LeafSum(w, a - 1) + Count(w[a])
  }

  ghost predicate OnesAndTwos(w: seq<int>, a: int) {
    0 <= a < |w| && forall v :: 1 <= v <= a ==> 1 <= Count(w[v]) <= 2
  }

  /** The heap after i leaves have been put in. */
  ghost predicate Planted(h: seq<int>, par: seq<int>, w: seq<int>, i: int) {
    && |par| == |w| == NODES && |h| == MAX_ALPHA_SIZE + 2 && 0 <= i <= MAX_ALPHA_SIZE
    && h[0] == 0 && w[0] == 0 && Ordered(h, w, i) && Holding(h, par, i, i)
    && forall v :: 1 <= v <= i ==> par[v] == -1
  }

  lemma PlantOne(h: seq<int>, h': seq<int>, par: seq<int>, w: seq<int>, i: int)
    requires Planted(h, par, w, i) && i < MAX_ALPHA_SIZE
    requires |h'| == |h| && h'[0] == 0 && Ordered(h', w, i + 1) && Added(Entries(h, i), Entries(h', i + 1), i + 1)
    ensures Planted(h', par[i + 1 := -1], w, i + 1)
  {
    hide Ordered, Entries;
    var par' := par[i + 1 := -1];
    forall v {:trigger IsRoot(par, i, v)} ensures Entries(h', i + 1)[v] == if IsRoot(par', i + 1, v) then 1 else 0 {
      assert Entries(h, i)[v] == if IsRoot(par, i, v) then 1 else 0;
      assert v != i + 1 ==> (IsRoot(par', i + 1, v) <==> IsRoot(par, i, v));
    }
  }

  lemma {:induction false} PlantedSum(par: seq<int>, w: seq<int>, j: int)
    requires 0 <= j < |par| && |w| == |par| && forall v :: 1 <= v <= j ==> par[v] == -1
    ensures RootSum(par, w, j) == LeafSum(w, j)
    decreases j
  {
    if j > 0 { PlantedSum(par, w, j - 1); }
  }

  lemma PlantedGrowing(h: seq<int>, par: seq<int>, w: seq<int>, a: int)
    requires Planted(h, par, w, a) && 2 <= a && LeafWeights(w, a) && LeafSum(w, a) <= 0x40_0000
    ensures var z := seq(NODES, _ => 0);
            Growing(h, par, w, z, z, a, a, a, 0, LeafSum(w, a), OnesAndTwos(w, a))
  {
    hide Ordered, Holding, Entries, Count, Height;
    PlantedSum(par, w, a);
    assert Fib(0) == 0 && Fib(1) == 1;
    forall v | IsRoot(par, a, v) ensures 0 <= w[v] && Count(w[v]) >= 1 && Count(w[v]) >= Fib(Height(w[v]) + 1) && 0 >= Fib(Height(w[v])) {
      assert Height(w[v]) == 0;
    }
  }

  /** Resets parents and puts every leaf in the heap. */
  method Plant(heap: array<int>, weight: array<int>, parent: array<int>, alphaSize: int)
    requires heap != weight && heap != parent && weight != parent && 2 <= alphaSize <= MAX_ALPHA_SIZE
    requires heap.Length == MAX_ALPHA_SIZE + 2 && weight.Length == parent.Length == NODES
    requires LeafWeights(weight[..], alphaSize)
    modifies heap, weight, parent
    ensures Planted(heap[..], parent[..], weight[..], alphaSize)
    ensures weight[1..alphaSize + 1] == old(weight[1..alphaSize + 1])
  {
    ghost var w0 := weight[..];
    heap[0] := 0;
    weight[0] := 0;
    parent[0] := -2;
    ghost var w := weight[..];
    LeafPositive(w0, alphaSize);
    NothingPlanted(heap[..], parent[..], w);
    hide Planted, Ordered, Entries, Added, LeafWeights;
    var nHeap := 0;
    for i := 1 to alphaSize + 1
      invariant nHeap == i - 1 && weight[..] == w
      invariant Planted(heap[..], parent[..], w, nHeap)
    {
      ghost var h, par := heap[..], parent[..];
      PlantedHeap(h, par, w, nHeap);
      assert weight[i] == w0[i];
      parent[i] := -1;
      Push(heap, weight, nHeap, i);
      PlantOne(h, heap[..], par, w, nHeap);
      assert parent[..] == par[nHeap + 1 := -1];
      nHeap := nHeap + 1;
    }
    assert nHeap < MAX_ALPHA_SIZE + 2;  // assertion 2001 of the source
  }

  lemma LeafPositive(w: seq<int>, a: int)
    requires LeafWeights(w, a)
    ensures forall v :: 1 <= v <= a ==> 0 <= w[v]
  {
  }

  lemma NothingPlanted(h: seq<int>, par: seq<int>, w: seq<int>)
    requires |par| == |w| == NODES && |h| == MAX_ALPHA_SIZE + 2 && h[0] == 0 && w[0] == 0
    ensures Planted(h, par, w, 0)
  {
    assert h[1..1] == [];
  }

  lemma PlantedHeap(h: seq<int>, par: seq<int>, w: seq<int>, i: int)
    requires Planted(h, par, w, i)
    ensures 0 <= i < |h| && Ordered(h, w, i) && h[0] == 0 && w[0] == 0
  {
  }

  /** A finished build: one tree over all the leaves. */
  ghost predicate Built(par: seq<int>, w: seq<int>, lc: seq<int>, rc: seq<int>, a: int, t: int, even: bool) {
    && |par| == |w| == NODES && 2 <= a <= MAX_ALPHA_SIZE
    && Tree(par, lc, rc, a, 2 * a - 1) && Whole(par, 2 * a - 1) && par[2 * a - 1] == -1
    && Count(w[2 * a - 1]) == t
    && (even ==> Even(par, w, 2 * a - 1)) && Greedy(par, lc, rc, Counts(w), a, 2 * a - 1)
  }

  lemma {:induction false} OneRootSum(par: seq<int>, w: seq<int>, j: int)
    requires 0 <= j < |par| && |w| == |par| && forall v :: 1 <= v <= j ==> par[v] != -1
    ensures RootSum(par, w, j) == 0
    decreases j
  {
    if j > 0 { OneRootSum(par, w, j - 1); }
  }

  lemma GrownBuilt(h: seq<int>, par: seq<int>, w: seq<int>, lc: seq<int>, rc: seq<int>, a: int, nn: int, n: int, m: int, t: int, even: bool)
    requires Growing(h, par, w, lc, rc, a, nn, n, m, t, even) && n <= 1
    ensures Built(par, w, lc, rc, a, t, even)
  {
    hide Ordered, Tall, Even, Count;
    var r := h[1];
    assert h[1..2] == [r];
    assert Entries(h, 1) == multiset{r};
    assert par[nn] == -1;
    assert IsRoot(par, nn, nn);
    assert Entries(h, 1)[nn] == 1;
    assert r == nn;
    forall v | 1 <= v < nn ensures par[v] > v {
      assert Entries(h, 1)[v] == 0;
    }
    OneRootSum(par, w, nn - 1);
  }

  /** One pass: builds the tree for the current leaf weights. */
  method BuildTree(heap: array<int>, weight: array<int>, parent: array<int>, alphaSize: int)
    returns (ghost lc: seq<int>, ghost rc: seq<int>)
    requires heap != weight && heap != parent && weight != parent && 2 <= alphaSize <= MAX_ALPHA_SIZE
    requires heap.Length == MAX_ALPHA_SIZE + 2 && weight.Length == parent.Length == NODES
    requires LeafWeights(weight[..], alphaSize) && LeafSum(weight[..], alphaSize) <= 0x40_0000
    modifies heap, weight, parent
    ensures weight[1..alphaSize + 1] == old(weight[1..alphaSize + 1])
    ensures Built(parent[..], weight[..], lc, rc, alphaSize, old(LeafSum(weight[..], alphaSize)), OnesAndTwos(weight[..], alphaSize))
  {
    ghost var w0 := weight[..];
    ghost var even, t := OnesAndTwos(w0, alphaSize), LeafSum(w0, alphaSize);
    hide *;
    Plant(heap, weight, parent, alphaSize);
    ghost var w1 := weight[..];
    SameLeaves(w0, w1, alphaSize);
    lc, rc := seq(NODES, _ => 0), seq(NODES, _ => 0);
    PlantedGrowing(heap[..], parent[..], w1, alphaSize);
    lc, rc := Merge(heap, weight, parent, alphaSize, lc, rc, t, even);
    assert weight[1..alphaSize + 1] == weight[..alphaSize + 1][1..] == w1[..alphaSize + 1][1..] == w1[1..alphaSize + 1];
    SameLeaves(w1, weight[..], alphaSize);
  }

  /** The merging loop. */
  method Merge(heap: array<int>, weight: array<int>, parent: array<int>, alphaSize: int, ghost lc0: seq<int>, ghost rc0: seq<int>, ghost t: int, ghost even: bool)
    returns (ghost lc: seq<int>, ghost rc: seq<int>)
    requires heap != weight && heap != parent && weight != parent && 2 <= alphaSize < weight.Length
    requires Growing(heap[..], parent[..], weight[..], lc0, rc0, alphaSize, alphaSize, alphaSize, 0, t, even)
    modifies heap, weight, parent
    ensures weight[..alphaSize + 1] == old(weight[..alphaSize + 1])
    ensures Built(parent[..], weight[..], lc, rc, alphaSize, t, even)
  {
    hide *;
    Sizes();
    ghost var w1 := weight[..alphaSize + 1];
    lc, rc := lc0, rc0;
    GrowingHeap(heap[..], parent[..], weight[..], lc, rc, alphaSize, alphaSize, alphaSize, 0, t, even);
    ghost var m := 0;
    var nNodes, nHeap := alphaSize, alphaSize;
    while nHeap > 1
      invariant nHeap + nNodes == 2 * alphaSize && 1 <= nHeap
      invariant Growing(heap[..], parent[..], weight[..], lc, rc, alphaSize, nNodes, nHeap, m, t, even)
      invariant weight[..alphaSize + 1] == w1
      decreases nHeap
    {
      lc, rc, m := MergeTwo(heap, weight, parent, nNodes, nHeap, lc, rc, alphaSize, m, t, even);
      nNodes := nNodes + 1;
      nHeap := nHeap - 1;
    }
    GrowingHeap(heap[..], parent[..], weight[..], lc, rc, alphaSize, nNodes, nHeap, m, t, even);
    assert nNodes < MAX_ALPHA_SIZE * 2;  // assertion 2002 of the source
    GrownBuilt(heap[..], parent[..], weight[..], lc, rc, alphaSize, nNodes, nHeap, m, t, even);
  }

  lemma SameLeaves(w: seq<int>, w': seq<int>, a: int)
    requires 0 <= a < |w| == |w'| && w[1..a + 1] == w'[1..a + 1]
    ensures LeafSum(w, a) == LeafSum(w', a) && (LeafWeights(w, a) <==> LeafWeights(w', a)) && (OnesAndTwos(w, a) <==> OnesAndTwos(w', a))
  {
    forall v | 1 <= v <= a ensures w[v] == w'[v] {
      assert w[1..a + 1][v - 1] == w'[1..a + 1][v - 1];
    }
    LeafSumSame(w, w', a);
  }

  lemma {:induction false} LeafSumSame(w: seq<int>, w': seq<int>, a: int)
    requires 0 <= a < |w| == |w'| && forall v :: 1 <= v <= a ==> w[v] == w'[v]
    ensures LeafSum(w, a) == LeafSum(w', a)
    decreases a
  {
    if a > 0 { LeafSumSame(w, w', a - 1); }
  }

  // ---------- lengths, and starting again ----------

  /** Counts the steps from leaf i to the root. */
  method StepsUp(parent: array<int>, i: int, ghost nn: int) returns (j: int)
    requires Upward(parent[..], nn) && 1 <= i <= nn
    ensures j == Depth(parent[..], nn, i)
  {
    ghost var par := parent[..];
    hide Depth, Upward;
    var k := i;
    j := 0;
    UpwardRange(par, nn, k);
    while parent[k] >= 0
      invariant 1 <= k <= nn < parent.Length && j + Depth(par, nn, k) == Depth(par, nn, i)
      decreases nn - k
    {
      DepthStep(par, nn, k);
      k := parent[k];
      j := j + 1;
    }
    DepthStep(par, nn, k);
  }

  lemma UpwardRange(par: seq<int>, nn: int, k: int)
    requires Upward(par, nn)
    ensures nn < |par|
  {
  }

  /** Some length exceeds the limit. */
  ghost predicate Exceeds(len: seq<int>, maxLen: int) {
    exists i :: 0 <= i < |len| && len[i] > maxLen
  }

  /** Measures every leaf. */
  method Measure(len: array<int>, parent: array<int>, alphaSize: int, maxLen: int, ghost lc: seq<int>, ghost rc: seq<int>) returns (tooLong: bool)
    requires len != parent && 2 <= alphaSize <= len.Length && 2 * alphaSize - 1 < parent.Length
    requires Tree(parent[..], lc, rc, alphaSize, 2 * alphaSize - 1)
    modifies len
    ensures DepthsOf(parent[..], lc, rc, alphaSize, 2 * alphaSize - 1, len[..alphaSize])
    ensures tooLong <==> Exceeds(len[..alphaSize], maxLen)
  {
    ghost var par := parent[..];
    ghost var nn := 2 * alphaSize - 1;
    TreeUpward(par, lc, rc, alphaSize, nn);
    hide Tree, Depth, Upward;
    tooLong := false;
    for i := 1 to alphaSize + 1
      invariant parent[..] == par
      invariant forall v {:trigger len[v]} :: 0 <= v < i - 1 ==> len[v] == Depth(par, nn, v + 1)
      invariant tooLong <==> Exceeds(len[..i - 1], maxLen)
    {
      var j := StepsUp(parent, i, nn);
      ghost var was := len[..i - 1];
      len[i - 1] := j;
      assert len[..i] == was + [j];
      ExceedsMore(was, j, maxLen);
      if j > maxLen { tooLong := true; }
    }
  }

  lemma ExceedsMore(len: seq<int>, j: int, maxLen: int)
    ensures Exceeds(len + [j], maxLen) <==> Exceeds(len, maxLen) || j > maxLen
  {
    var l := len + [j];
    assert l[|len|] == j;
    if Exceeds(len, maxLen) {
      var i :| 0 <= i < |len| && len[i] > maxLen;
      assert l[i] == len[i];
    }
  }

  lemma TreeUpward(par: seq<int>, lc: seq<int>, rc: seq<int>, a: int, nn: int)
    requires Tree(par, lc, rc, a, nn)
    ensures Upward(par, nn)
  {
  }

  lemma DepthStep(par: seq<int>, nn: int, v: int)
    requires 1 <= v <= nn && Upward(par, nn)
    ensures par[v] >= 0 ==> v < par[v] <= nn && Depth(par, nn, v) == 1 + Depth(par, nn, par[v])
    ensures par[v] < 0 ==> Depth(par, nn, v) == 0
  {
  }

  function Halved(w: int): int {
    (1 + w / 256 / 2) * 256
  }

  lemma HalvedCount(w: int)
    requires Count(w) >= 1
    ensures Count(Halved(w)) == 1 + Count(w) / 2 && Height(Halved(w)) == 0 && Halved(w) >= 256
    ensures 1 <= Count(Halved(w)) <= Count(w)
    ensures Count(w) >= 3 ==> Count(Halved(w)) < Count(w)
  {
    Unpacked(1 + w / 256 / 2, 0);
  }

  /** w' is w with the leaves halved. */
  ghost predicate LeavesHalved(w: seq<int>, w': seq<int>, a: int) {
    0 <= a < |w| == |w'| && forall v :: 1 <= v <= a ==> w'[v] == Halved(w[v])
  }

  lemma {:induction false} HalvedSum(w: seq<int>, w': seq<int>, a: int)
    requires LeavesHalved(w, w', a) && LeafWeights(w, a)
    ensures LeafSum(w', a) <= LeafSum(w, a)
    ensures !OnesAndTwos(w, a) ==> LeafSum(w', a) < LeafSum(w, a)
    decreases a
  {
    hide Count, Height, Halved;
    if a > 0 {
      HalvedCount(w[a]);
      HalvedSum(w, w', a - 1);
    }
  }

  lemma HalvedLeaves(w: seq<int>, w': seq<int>, a: int)
    requires LeavesHalved(w, w', a) && LeafWeights(w, a)
    ensures LeafWeights(w', a)
  {
    hide Count, Height, Halved;
    forall v | 1 <= v <= a ensures w'[v] >= 256 && Count(w'[v]) >= 1 && Height(w'[v]) == 0 { HalvedCount(w[v]); }
  }

  // ---------- how good the lengths are ----------

  /** What the leaves count. */
  ghost function LeafCounts(w: seq<int>, a: int): (f: seq<int>)
    requires 0 <= a < |w|
    ensures |f| == a && forall i :: 0 <= i < a ==> f[i] == Count(w[i + 1])
  {
    seq(a, i requires 0 <= i < a => Count(w[i + 1]))
  }

  /** Frequencies with zeros counted as ones. */
  ghost function Weights(freq: seq<int>): (f: seq<int>)
    ensures |f| == |freq|
  {
    seq(|freq|, i requires 0 <= i < |freq| => if freq[i] == 0 then 1 else freq[i])
  }

  ghost function Halve(f: seq<int>): (r: seq<int>)
    ensures |r| == |f|
  {
    seq(|f|, i requires 0 <= i < |f| => 1 + f[i] / 2)
  }

  /** Weights halved k times. */
  ghost function Scaled(f: seq<int>, k: nat): (r: seq<int>)
    ensures |r| == |f|
  {
    if k == 0 then f else Halve(Scaled(f, k - 1))
  }

  /** An optimal code for these weights has a word that is too long. */
  ghost predicate TooDeep(f: seq<int>, maxLen: int) {
    exists l: seq<int> :: Optimal(f, l) && Exceeds(l, maxLen)
  }

  /** The lengths are optimal for the weights halved k times, which were halved only when they gave too
      long a code. */
  ghost predicate BestAt(f: seq<int>, len: seq<int>, maxLen: int, k: nat) {
    Optimal(Scaled(f, k), len) && forall j: nat :: j < k ==> TooDeep(Scaled(f, j), maxLen)
  }

  lemma HalvedCounts(w: seq<int>, w': seq<int>, a: int)
    requires LeavesHalved(w, w', a) && LeafWeights(w, a)
    ensures LeafCounts(w', a) == Halve(LeafCounts(w, a))
  {
    hide Count, Halved, Height;
    forall i | 0 <= i < a ensures LeafCounts(w', a)[i] == Halve(LeafCounts(w, a))[i] { HalvedCount(w[i + 1]); }
  }

  method Rescale(weight: array<int>, alphaSize: int)
    requires 2 <= alphaSize < weight.Length && LeafWeights(weight[..], alphaSize)
    modifies weight
    ensures LeafWeights(weight[..], alphaSize)
    ensures LeafSum(weight[..], alphaSize) <= old(LeafSum(weight[..], alphaSize))
    ensures !old(OnesAndTwos(weight[..], alphaSize)) ==> LeafSum(weight[..], alphaSize) < old(LeafSum(weight[..], alphaSize))
    ensures LeafCounts(weight[..], alphaSize) == Halve(old(LeafCounts(weight[..], alphaSize)))
  {
    ghost var w := weight[..];
    for i := 1 to alphaSize + 1
      invariant forall v :: i <= v <= alphaSize ==> weight[v] == w[v]
      invariant forall v :: 1 <= v < i ==> weight[v] == Halved(w[v])
    {
      var j := weight[i] / 256;
      j := 1 + j / 2;
      weight[i] := j * 256;
    }
    assert LeavesHalved(w, weight[..], alphaSize);
    HalvedSum(w, weight[..], alphaSize);
    HalvedLeaves(w, weight[..], alphaSize);
    HalvedCounts(w, weight[..], alphaSize);
  }

  /** Once every leaf weighs one or two, no code is longer than 14 bits. */
  lemma ShortEnough(par: seq<int>, w: seq<int>, lc: seq<int>, rc: seq<int>, a: int, t: int, len: seq<int>)
    requires Built(par, w, lc, rc, a, t, true) && LeafWeights(w, a) && t <= 2 * a
    requires DepthsOf(par, lc, rc, a, 2 * a - 1, len)
    ensures |len| == a && forall i :: 0 <= i < a ==> len[i] <= 14
  {
    assert 2 <= a && |len| == a;
    forall i | 0 <= i < a ensures len[i] <= 14 {
      ShortLeaf(par, w, lc, rc, a, t, len, i);
    }
  }

  lemma ShortLeaf(par: seq<int>, w: seq<int>, lc: seq<int>, rc: seq<int>, a: int, t: int, len: seq<int>, i: int)
    requires Built(par, w, lc, rc, a, t, true) && LeafWeights(w, a) && t <= 2 * a
    requires DepthsOf(par, lc, rc, a, 2 * a - 1, len) && 0 <= i < a
    ensures |len| == a && len[i] <= 14
  {
    hide *;
    var nn := BuiltParts(par, w, lc, rc, a, t);
    TreeUpward(par, lc, rc, a, nn);
    LeafHeavy(w, a, i + 1);
    DepthOf(par, lc, rc, a, nn, len, i);
    EvenDepth(par, lc, rc, w, a, nn, i + 1);
  }

  lemma BuiltParts(par: seq<int>, w: seq<int>, lc: seq<int>, rc: seq<int>, a: int, t: int) returns (nn: int)
    requires Built(par, w, lc, rc, a, t, true) && t <= 2 * a
    ensures nn == 2 * a - 1 && a < nn < |par| == |w|
    ensures Tree(par, lc, rc, a, nn) && Even(par, w, nn) && Whole(par, nn) && par[nn] == -1
    ensures Count(w[nn]) <= 516
  {
    hide Tree, Even, Whole, Count;
    nn := 2 * a - 1;
  }

  lemma LeafHeavy(w: seq<int>, a: int, v: int)
    requires LeafWeights(w, a) && 1 <= v <= a
    ensures v < |w| && Count(w[v]) >= 1
  {
    hide Count, Height;
  }

  lemma DepthOf(par: seq<int>, lc: seq<int>, rc: seq<int>, a: int, nn: int, len: seq<int>, i: int)
    requires DepthsOf(par, lc, rc, a, nn, len) && 0 <= i < a <= nn && Upward(par, nn)
    ensures |len| == a && len[i] == Depth(par, nn, i + 1)
  {
    hide Tree, Depth;
  }

  lemma {:induction false} SmallSum(w: seq<int>, a: int)
    requires OnesAndTwos(w, a)
    ensures LeafSum(w, a) <= 2 * a
    decreases a
  {
    if a > 0 { SmallSum(w, a - 1); }
  }

  /** Every leaf has a parent, so every length is at least one. */
  lemma LengthsPositive(par: seq<int>, w: seq<int>, lc: seq<int>, rc: seq<int>, a: int, t: int, even: bool, len: seq<int>)
    requires Built(par, w, lc, rc, a, t, even) && DepthsOf(par, lc, rc, a, 2 * a - 1, len)
    ensures forall i :: 0 <= i < a ==> len[i] >= 1
  {
    forall i | 0 <= i < a ensures len[i] >= 1 {
      assert par[i + 1] > i + 1;
    }
  }

  lemma BuiltComplete(par: seq<int>, w: seq<int>, lc: seq<int>, rc: seq<int>, a: int, t: int, even: bool, len: seq<int>, maxLen: int)
    requires Built(par, w, lc, rc, a, t, even) && DepthsOf(par, lc, rc, a, 2 * a - 1, len)
    requires maxLen <= LONGEST && forall i :: 0 <= i < a ==> len[i] <= maxLen
    ensures |len| == a && (forall i :: 0 <= i < a ==> 1 <= len[i] <= maxLen)
    ensures Past(len, LONGEST) == Pow2(LONGEST)
  {
    LengthsPositive(par, w, lc, rc, a, t, even, len);
    CompleteCode(par, lc, rc, a, 2 * a - 1, len);
  }

  lemma StartWeights(freq: seq<int>, w: seq<int>, a: int)
    requires 0 <= a < |w| && a <= |freq| && forall i :: 0 <= i < a ==> 0 <= freq[i] && w[i + 1] == (if freq[i] == 0 then 1 else freq[i]) * 256
    ensures LeafWeights(w, a) && LeafSum(w, a) == FreqSum(freq, a)
    decreases a
  {
    forall v | 1 <= v <= a ensures w[v] >= 256 && Count(w[v]) >= 1 && Height(w[v]) == 0 {
      assert w[v - 1 + 1] == (if freq[v - 1] == 0 then 1 else freq[v - 1]) * 256;
      Unpacked(if freq[v - 1] == 0 then 1 else freq[v - 1], 0);
    }
    if a > 0 {
      StartWeights(freq, w, a - 1);
      Unpacked(if freq[a - 1] == 0 then 1 else freq[a - 1], 0);
    }
  }

  /** Total of the first k frequencies, zeros counted as ones. */
  ghost function FreqSum(freq: seq<int>, k: int): int
    requires 0 <= k <= |freq|
    decreases k
  {
    if k == 0 then 0 else FreqSum(freq, k - 1) + if freq[k - 1] == 0 then 1 else freq[k - 1]
  }

  lemma {:induction false} LeafSumNonNeg(w: seq<int>, a: int)
    requires LeafWeights(w, a)
    ensures LeafSum(w, a) >= 0
    decreases a
  {
    hide Count, Height;
    if a > 0 { LeafSumNonNeg(w, a - 1); }
  }

  method StartLeaves(weight: array<int>, freq: array<int>, alphaSize: int)
    requires weight != freq && 0 <= alphaSize < weight.Length && alphaSize <= freq.Length
    requires forall i :: 0 <= i < alphaSize ==> 0 <= freq[i]
    modifies weight
    ensures LeafWeights(weight[..], alphaSize) && LeafSum(weight[..], alphaSize) == FreqSum(freq[..], alphaSize)
    ensures LeafCounts(weight[..], alphaSize) == Weights(freq[..alphaSize]) && freq[..] == old(freq[..])
  {
    for i := 0 to alphaSize
      invariant freq[..] == old(freq[..])
      invariant forall v {:trigger weight[v]} :: 1 <= v <= i ==> weight[v] == (if freq[v - 1] == 0 then 1 else freq[v - 1]) * 256
    {
      weight[i + 1] := (if freq[i] == 0 then 1 else freq[i]) * 256;
    }
    StartWeights(freq[..], weight[..], alphaSize);
    StartCounts(freq[..], weight[..], alphaSize);
    assert freq[..][..alphaSize] == freq[..alphaSize];
  }

  /** Lengths in 1..maxLen that make a complete prefix code. */
  ghost predicate LengthsRight(len: seq<int>, maxLen: int) {
    (forall i :: 0 <= i < |len| ==> 1 <= len[i] <= maxLen) && Past(len, LONGEST) == Pow2(LONGEST)
  }

  /** What one pass settles: good lengths, or a leaf of weight three or more. */
  lemma PassEnds(par: seq<int>, w: seq<int>, lc: seq<int>, rc: seq<int>, a: int, t: int, len: seq<int>, maxLen: int, tooLong: bool)
    requires Built(par, w, lc, rc, a, t, OnesAndTwos(w, a)) && LeafWeights(w, a) && t == LeafSum(w, a)
    requires DepthsOf(par, lc, rc, a, 2 * a - 1, len) && 14 <= maxLen <= LONGEST
    requires tooLong <==> Exceeds(len, maxLen)
    ensures if tooLong then !OnesAndTwos(w, a) else LengthsRight(len, maxLen)
  {
    if tooLong {
      if OnesAndTwos(w, a) {
        SmallSum(w, a);
        ShortEnough(par, w, lc, rc, a, t, len);
      }
    } else {
      BuiltComplete(par, w, lc, rc, a, t, OnesAndTwos(w, a), len, maxLen);
    }
  }

  /** One pass gives an optimal code for the weights it started from. */
  lemma PassOptimal(par: seq<int>, w: seq<int>, lc: seq<int>, rc: seq<int>, a: int, t: int, even: bool, len: seq<int>)
    requires Built(par, w, lc, rc, a, t, even) && DepthsOf(par, lc, rc, a, 2 * a - 1, len)
    ensures a < |w| && Optimal(LeafCounts(w, a), len)
  {
    hide Tree, Whole, Greedy, Even, DepthsOf, Count, Optimal;
    GreedyOptimal(par, lc, rc, a, 2 * a - 1, Counts(w), LeafCounts(w, a), len);
  }

  lemma SameCounts(w: seq<int>, w': seq<int>, a: int)
    requires 0 <= a < |w| == |w'| && w[1..a + 1] == w'[1..a + 1]
    ensures LeafCounts(w, a) == LeafCounts(w', a)
  {
    hide Count;
    forall i | 0 <= i < a ensures LeafCounts(w, a)[i] == LeafCounts(w', a)[i] { assert w[1..a + 1][i] == w'[1..a + 1][i]; }
  }

  lemma StartCounts(freq: seq<int>, w: seq<int>, a: int)
    requires 0 <= a < |w| && a <= |freq| && forall i :: 0 <= i < a ==> 0 <= freq[i] && w[i + 1] == (if freq[i] == 0 then 1 else freq[i]) * 256
    ensures LeafCounts(w, a) == Weights(freq[..a])
  {
    forall i | 0 <= i < a ensures LeafCounts(w, a)[i] == Weights(freq[..a])[i] {
      Unpacked(if freq[i] == 0 then 1 else freq[i], 0);
    }
  }

  /** One pass of the outer loop up to the length check. */
  method Attempt(heap: array<int>, weight: array<int>, parent: array<int>, len: array<int>, alphaSize: int, maxLen: int) returns (tooLong: bool)
    requires heap != weight && heap != parent && weight != parent && len != heap && len != weight && len != parent
    requires 2 <= alphaSize <= MAX_ALPHA_SIZE && alphaSize <= len.Length && alphaSize < weight.Length
    requires heap.Length == MAX_ALPHA_SIZE + 2 && weight.Length == parent.Length == NODES
    requires 14 <= maxLen <= LONGEST && 2 * alphaSize - 1 < NODES
    requires LeafWeights(weight[..], alphaSize) && LeafSum(weight[..], alphaSize) <= 0x40_0000
    modifies heap, weight, parent, len
    ensures weight[1..alphaSize + 1] == old(weight[1..alphaSize + 1])
    ensures LeafWeights(weight[..], alphaSize) && LeafSum(weight[..], alphaSize) == old(LeafSum(weight[..], alphaSize))
    ensures if tooLong then !OnesAndTwos(weight[..], alphaSize) else LengthsRight(len[..alphaSize], maxLen)
    ensures LeafCounts(weight[..], alphaSize) == old(LeafCounts(weight[..], alphaSize))
    ensures Optimal(LeafCounts(weight[..], alphaSize), len[..alphaSize]) && (tooLong <==> Exceeds(len[..alphaSize], maxLen))
  {
    hide *;
    ghost var w0 := weight[..];
    ghost var lc, rc;
    lc, rc := BuildTree(heap, weight, parent, alphaSize);
    ghost var w := weight[..];
    assert w[1..alphaSize + 1] == w0[1..alphaSize + 1];
    SameLeaves(w0, w, alphaSize);
    SameCounts(w0, w, alphaSize);
    ghost var even, t := OnesAndTwos(w, alphaSize), LeafSum(w, alphaSize);
    BuiltTree(parent[..], w, lc, rc, alphaSize, t, even);
    tooLong := Measure(len, parent, alphaSize, maxLen, lc, rc);
    PassEnds(parent[..], w, lc, rc, alphaSize, t, len[..alphaSize], maxLen, tooLong);
    PassOptimal(parent[..], w, lc, rc, alphaSize, t, even, len[..alphaSize]);
  }

  lemma ScaledStep(f: seq<int>, k: nat)
    ensures Scaled(f, 0) == f && Scaled(f, k + 1) == Halve(Scaled(f, k))
  {
  }

  ghost predicate AllTooDeep(f: seq<int>, maxLen: int, k: nat) {
    forall j: nat :: j < k ==> TooDeep(Scaled(f, j), maxLen)
  }

  lemma DeepMore(f: seq<int>, maxLen: int, k: nat, l: seq<int>)
    ensures AllTooDeep(f, maxLen, 0)
    ensures AllTooDeep(f, maxLen, k) && Optimal(Scaled(f, k), l) && Exceeds(l, maxLen) ==> AllTooDeep(f, maxLen, k + 1)
    ensures AllTooDeep(f, maxLen, k) && Optimal(Scaled(f, k), l) ==> BestAt(f, l, maxLen, k)
  {
    hide Optimal, Scaled, Exceeds;
  }

  /** The lengths are as good as halving the weights, only as often as needed, allows. */
  ghost predicate BestLengths(f: seq<int>, len: seq<int>, maxLen: int) {
    exists k: nat :: BestAt(f, len, maxLen, k)
  }

  /** If no optimal code is too long, the lengths are an optimal code for the frequencies themselves. */
  lemma OptimalUnlessDeep(f: seq<int>, len: seq<int>, maxLen: int, k: nat)
    requires BestAt(f, len, maxLen, k) && !TooDeep(f, maxLen)
    ensures k == 0 && Optimal(f, len)
  {
    hide Optimal, TooDeep, Halve;
    assert Scaled(f, 0) == f;
  }

  /** Terminates for every frequency vector whose total fits, with lengths in 1..maxLen that make a
      complete prefix code: their Kraft sum is exactly one.  It is an optimal code for the frequencies,
      unless an optimal code for them is too long; then for the weights halved as often as needed. */
  method MakeCodeLengths(len: array<int>, freq: array<int>, alphaSize: int, maxLen: int)
    requires len != freq && 2 <= alphaSize <= MAX_ALPHA_SIZE && alphaSize <= len.Length && alphaSize <= freq.Length
    requires 14 <= maxLen <= LONGEST
    requires (forall i :: 0 <= i < alphaSize ==> 0 <= freq[i]) && FreqSum(freq[..], alphaSize) <= 0x40_0000
    modifies len
    ensures forall i :: 0 <= i < alphaSize ==> 1 <= len[i] <= maxLen
    ensures Past(len[..alphaSize], LONGEST) == Pow2(LONGEST)
    ensures BestLengths(Weights(old(freq[..alphaSize])), len[..alphaSize], maxLen)
    ensures !TooDeep(Weights(old(freq[..alphaSize])), maxLen) ==> Optimal(Weights(old(freq[..alphaSize])), len[..alphaSize])
  {
    hide *;
    Sizes();
    var heap, weight, parent := new int[MAX_ALPHA_SIZE + 2], new int[MAX_ALPHA_SIZE * 2], new int[MAX_ALPHA_SIZE * 2];
    StartLeaves(weight, freq, alphaSize);
    ghost var f, k: nat := Weights(freq[..alphaSize]), 0;
    ScaledStep(f, 0);
    DeepMore(f, maxLen, 0, []);
    var tooLong := true;
    while tooLong
      invariant LeafWeights(weight[..], alphaSize) && LeafSum(weight[..], alphaSize) <= 0x40_0000
      invariant LeafCounts(weight[..], alphaSize) == Scaled(f, k) && AllTooDeep(f, maxLen, k)
      invariant !tooLong ==> LengthsRight(len[..alphaSize], maxLen) && BestAt(f, len[..alphaSize], maxLen, k)
      decreases LeafSum(weight[..], alphaSize), tooLong
    {
      LeafSumNonNeg(weight[..], alphaSize);
      tooLong := Attempt(heap, weight, parent, len, alphaSize, maxLen);
      DeepMore(f, maxLen, k, len[..alphaSize]);
      if tooLong {
        Rescale(weight, alphaSize);
        ScaledStep(f, k);
        k := k + 1;
      }
    }
    LengthsMean(len[..alphaSize], maxLen);
    BestLengthsIs(f, len[..alphaSize], maxLen, k);
    if !TooDeep(f, maxLen) { OptimalUnlessDeep(f, len[..alphaSize], maxLen, k); }
  }

  lemma BestLengthsIs(f: seq<int>, len: seq<int>, maxLen: int, k: nat)
    requires BestAt(f, len, maxLen, k)
    ensures BestLengths(f, len, maxLen)
  {
  }

  lemma Sizes()
    ensures MAX_ALPHA_SIZE == 258 && NODES == MAX_ALPHA_SIZE * 2 && LONGEST == 20
  {
  }

  lemma LengthsMean(len: seq<int>, maxLen: int)
    requires LengthsRight(len, maxLen)
    ensures forall i :: 0 <= i < |len| ==> 1 <= len[i] <= maxLen
    ensures Past(len, LONGEST) == Pow2(LONGEST)
  {
  }

  lemma BuiltTree(par: seq<int>, w: seq<int>, lc: seq<int>, rc: seq<int>, a: int, t: int, even: bool)
    requires Built(par, w, lc, rc, a, t, even)
    ensures Tree(par, lc, rc, a, 2 * a - 1)
  {
  }
}

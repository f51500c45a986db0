/** The heap of tree roots: entries 1..n of an array, smallest weight first, entry 0 a sentinel. */
module NodeHeap {
  import opened Segments

  /** Heap order over entries 1..n of h, by weight. */
  ghost predicate Ordered(h: seq<int>, w: seq<int>, n: int) {
    && 0 <= n < |h| && (forall i :: 1 <= i <= n ==> 0 <= h[i] < |w|)
    && forall i {:trigger h[i]} :: 2 <= i <= n ==> w[h[i / 2]] <= w[h[i]]
  }

  /** Ordered but for entry z against its parent, whose parent is no larger than z's children. */
  ghost predicate OrderedUp(h: seq<int>, w: seq<int>, n: int, z: int) {
    && 1 <= z <= n < |h| && (forall i :: 1 <= i <= n ==> 0 <= h[i] < |w|)
    && (forall i {:trigger h[i]} :: 2 <= i <= n && i != z ==> w[h[i / 2]] <= w[h[i]])
    && (forall i {:trigger h[i]} :: 2 <= i <= n && i / 2 == z && z > 1 ==> w[h[z / 2]] <= w[h[i]])
  }

  /** Ordered but for entry z against its children. */
  ghost predicate OrderedDown(h: seq<int>, w: seq<int>, n: int, z: int) {
    && 1 <= z && n < |h| && (forall i :: 1 <= i <= n ==> 0 <= h[i] < |w|)
    && (forall i {:trigger h[i]} :: 2 <= i <= n && i / 2 != z ==> w[h[i / 2]] <= w[h[i]])
    && (forall i {:trigger h[i]} :: 2 <= i <= n && i / 2 == z && z > 1 ==> w[h[z / 2]] <= w[h[i]])
  }

  lemma UpStep(h: seq<int>, w: seq<int>, n: int, z: int)
    requires OrderedUp(h, w, n, z) && z > 1 && w[h[z]] < w[h[z / 2]]
    ensures OrderedUp(Swapped(h, z, z / 2), w, n, z / 2)
  {
    var g := Swapped(h, z, z / 2);
    forall i | 2 <= i <= n && i != z / 2 ensures w[g[i / 2]] <= w[g[i]] {
      if i == z {
      } else if i / 2 == z {
      } else if i / 2 == z / 2 {
        assert w[h[i / 2]] <= w[h[i]];
      } else {
        assert w[h[i / 2]] <= w[h[i]];
      }
    }
    forall i | 2 <= i <= n && i / 2 == z / 2 && z / 2 > 1 ensures w[g[z / 2 / 2]] <= w[g[i]] {
      assert w[h[z / 2 / 2]] <= w[h[z / 2]];
      if i != z { assert w[h[i / 2]] <= w[h[i]]; }
    }
  }

  lemma UpEnd(h: seq<int>, w: seq<int>, n: int, z: int)
    requires OrderedUp(h, w, n, z) && (z == 1 || w[h[z]] >= w[h[z / 2]])
    ensures Ordered(h, w, n)
  {
  }

  /** y is the smaller child of z. */
  ghost predicate SmallerChild(h: seq<int>, w: seq<int>, n: int, z: int, y: int) {
    && 1 <= z && 2 <= y <= n < |h| && (y == 2 * z || y == 2 * z + 1) && (forall i :: 1 <= i <= n ==> 0 <= h[i] < |w|)
    && (2 * z <= n ==> w[h[y]] <= w[h[2 * z]]) && (2 * z + 1 <= n ==> w[h[y]] <= w[h[2 * z + 1]])
  }

  lemma DownStep(h: seq<int>, w: seq<int>, n: int, z: int, y: int)
    requires OrderedDown(h, w, n, z) && SmallerChild(h, w, n, z, y) && w[h[y]] <= w[h[z]]
    ensures OrderedDown(Swapped(h, z, y), w, n, y)
  {
    var g := Swapped(h, z, y);
    ChildOf(y, z);
    forall i | 2 <= i <= n && i / 2 != y ensures w[g[i / 2]] <= w[g[i]] {
      ChildOf(i, z);
      if i == y {
      } else if i / 2 == z {
        assert w[h[y]] <= w[h[i]];
      } else if i == z {
        assert w[h[z / 2]] <= w[h[y]];
      } else {
        assert w[h[i / 2]] <= w[h[i]];
      }
    }
    forall i | 2 <= i <= n && i / 2 == y ensures w[g[y / 2]] <= w[g[i]] {
      assert w[h[i / 2]] <= w[h[i]];
    }
  }

  lemma DownEnd(h: seq<int>, w: seq<int>, n: int, z: int)
    requires OrderedDown(h, w, n, z)
    requires forall i {:trigger h[i]} :: 2 <= i <= n && i / 2 == z ==> 1 <= z <= n && w[h[z]] <= w[h[i]]
    requires 0 <= n
    ensures Ordered(h, w, n)
  {
  }

  lemma {:induction false} MinFirst(h: seq<int>, w: seq<int>, n: int, i: int)
    requires Ordered(h, w, n) && 1 <= i <= n
    ensures w[h[1]] <= w[h[i]]
    decreases i
  {
    if i > 1 {
      assert w[h[i / 2]] <= w[h[i]];
      MinFirst(h, w, n, i / 2);
    }
  }

  /** UPHEAP: sinks entry z towards the root past every heavier one. */
  method UpHeap(heap: array<int>, weight: array<int>, z: int, n: int)
    requires heap != weight && 1 <= z <= n < heap.Length && n < 0x8000_0000
    requires OrderedUp(heap[..], weight[..], n, z)
    requires heap[0] == 0 && weight.Length > 0 && weight[0] == 0
    requires 0 <= weight[heap[z]]
    modifies heap
    ensures heap[0] == 0 && Shuffled(old(heap[..]), heap[..], 1, n)
    ensures Ordered(heap[..], weight[..], n)
  {
    hide OrderedUp, Ordered, Shuffled;
    ghost var h, w := heap[..], weight[..];
    ghost var cur := h;
    UpInside(h, w, n, z);
    ShuffledRefl(h, 1, n);
    var zz, tmp := z, heap[z];
    while weight[tmp] < weight[heap[zz / 2]]
      invariant 1 <= zz <= n && heap[0] == 0 && |cur| == heap.Length && cur[zz] == tmp && cur[0] == 0
      invariant forall x :: 0 <= x < heap.Length && x != zz ==> heap[x] == cur[x]
      invariant OrderedUp(cur, w, n, zz) && Shuffled(h, cur, 1, n)
      invariant 0 <= heap[zz / 2] < |w| && (zz > 1 ==> cur[zz / 2] == heap[zz / 2])
      decreases zz
    {
      UpStep(cur, w, n, zz);
      SwapShuffled(cur, zz, zz / 2, 1, n);
      ShuffledTrans(h, cur, Swapped(cur, zz, zz / 2), 1, n, 1, n);
      cur := Swapped(cur, zz, zz / 2);
      heap[zz] := heap[zz / 2];
      zz := zz / 2;
      UpInside(cur, w, n, zz);
    }
    UpEnd(cur, w, n, zz);
    heap[zz] := tmp;
    assert heap[..] == cur;
  }

  lemma UpInside(h: seq<int>, w: seq<int>, n: int, z: int)
    requires OrderedUp(h, w, n, z)
    ensures |w| > 0 && forall i :: 1 <= i <= n ==> 0 <= h[i] < |w|
  {
    assert 0 <= h[1] < |w|;
  }

  lemma DownInside(h: seq<int>, w: seq<int>, n: int, z: int)
    requires OrderedDown(h, w, n, z)
    ensures forall i :: 1 <= i <= n ==> 0 <= h[i] < |w|
  {
  }

  lemma IsSmallerChild(h: seq<int>, w: seq<int>, n: int, z: int, y: int)
    requires OrderedDown(h, w, n, z) && 2 * z <= n
    requires y == if 2 * z < n && w[h[2 * z + 1]] < w[h[2 * z]] then 2 * z + 1 else 2 * z
    ensures SmallerChild(h, w, n, z, y)
  {
    DownInside(h, w, n, z);
    hide OrderedDown;
  }

  lemma ChildOf(i: int, z: int)
    ensures i / 2 == z <==> i == 2 * z || i == 2 * z + 1
  {
  }

  /** DOWNHEAP: sinks the first entry below every lighter one. */
  method DownHeap(heap: array<int>, weight: array<int>, n: int)
    requires heap != weight && 0 <= n < heap.Length && heap.Length > 1
    requires OrderedDown(heap[..], weight[..], n, 1)
    requires n == 0 ==> 0 <= heap[1] < weight.Length
    modifies heap
    ensures heap[0] == old(heap[0]) && Shuffled(old(heap[..]), heap[..], 1, n)
    ensures Ordered(heap[..], weight[..], n)
  {
    hide OrderedDown, Ordered, Shuffled, SmallerChild;
    ghost var h, w := heap[..], weight[..];
    ghost var cur := h;
    DownInside(h, w, n, 1);
    ShuffledRefl(h, 1, n);
    var zz, tmp := 1, heap[1];
    while true
      invariant 1 <= zz && (zz <= n || zz == 1) && heap[0] == h[0] && |cur| == heap.Length && cur[zz] == tmp && cur[0] == h[0]
      invariant forall x :: 0 <= x < heap.Length && x != zz ==> heap[x] == cur[x]
      invariant OrderedDown(cur, w, n, zz) && Shuffled(h, cur, 1, n)
      invariant forall i :: 1 <= i <= n ==> 0 <= cur[i] < |w|
      decreases n - zz
    {
      var yy := zz * 2;
      if yy > n {
        DownNoChild(cur, w, n, zz);
        break;
      }
      if yy < n && weight[heap[yy + 1]] < weight[heap[yy]] { yy := yy + 1; }
      IsSmallerChild(cur, w, n, zz, yy);
      if weight[tmp] < weight[heap[yy]] {
        DownStop(cur, w, n, zz, yy);
        break;
      }
      SwapShuffled(cur, zz, yy, 1, n);
      DownStep(cur, w, n, zz, yy);
      ShuffledTrans(h, cur, Swapped(cur, zz, yy), 1, n, 1, n);
      cur := Swapped(cur, zz, yy);
      DownInside(cur, w, n, yy);
      heap[zz] := heap[yy];
      zz := yy;
    }
    heap[zz] := tmp;
    assert heap[..] == cur;
  }

  lemma DownNoChild(h: seq<int>, w: seq<int>, n: int, z: int)
    requires OrderedDown(h, w, n, z) && 0 <= n && 2 * z > n
    ensures Ordered(h, w, n)
  {
  }

  lemma DownStop(h: seq<int>, w: seq<int>, n: int, z: int, y: int)
    requires OrderedDown(h, w, n, z) && SmallerChild(h, w, n, z, y) && w[h[z]] < w[h[y]]
    ensures Ordered(h, w, n)
  {
    forall i | 2 <= i <= n && i / 2 == z ensures 1 <= z <= n && w[h[z]] <= w[h[i]] { ChildOf(i, z); }
    DownEnd(h, w, n, z);
  }
}

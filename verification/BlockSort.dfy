/** BZ2_blockSort: the main sort for big blocks unless they are too repetitive, the fallback sort for
    everything else; and from there a whole block through compressor and decompressor. */
module BlockSort {
  import opened Rotations
  import opened HeaderBits
  import opened FallbackSort
  import opened MainCompare
  import opened PairBuckets
  import opened BigBucket
  import opened MainSort
  import opened BlockFormat

  const SMALL_BLOCK: nat := 10000

  /** The fallback sort over arrays of its own. */
  method SortByFallback(ptr: array<int>, block: array<int>, nblock: nat, ghost b: seq<byte>)
    requires ptr != block && ptr.Length == nblock == |b| <= BLOCK_MAX && Holds(block[..], b)
    modifies ptr
    ensures RotationSorted(b, ptr[..])
  {
    HeldAll(block[..], b);
    hide *;
    BlockLimit();
    var eclass, eclass8 := new int[nblock], new int[nblock](i requires 0 <= i < nblock && nblock <= block.Length reads block => block[i]);
    assert eclass8[..] == b;
    var bh := new BhTab(3 + nblock / 32);
    FallbackSort.FallbackSort(ptr, eclass, eclass8, bh, b);
  }

  lemma BlockLimit()
    ensures BLOCK_MAX == 900000 && N_OVERSHOOT == 34 && SMALL_BLOCK == 10000 && PAIRS == 65536
  {
  }

  /** Sorts the rotations of a block and finds the one that starts at its beginning. */
  method BlockSort(ptr: array<int>, block: array<int>, quadrant: array<int>, ftab: array<int>, nblock: nat, workFactor: int, ghost b: seq<byte>)
    returns (origPtr: int)
    requires ptr != block && ptr != quadrant && ptr != ftab && block != quadrant && block != ftab && quadrant != ftab
    requires ptr.Length == nblock == |b| <= BLOCK_MAX && block.Length == quadrant.Length == nblock + N_OVERSHOOT
    requires ftab.Length == PAIRS + 1 && Holds(block[..], b)
    modifies ptr, block, quadrant, ftab
    ensures RotationSorted(b, ptr[..]) && Holds(block[..], b)
    ensures 0 <= origPtr < nblock && ptr[origPtr] == 0
  {
    hide *;
    BlockLimit();
    if nblock < SMALL_BLOCK {
      SortByFallback(ptr, block, nblock, b);
    } else {
      var wfact := workFactor;
      if wfact < 1 { wfact := 1; }
      if wfact > 100 { wfact := 100; }
      var budgetInit := nblock * ((wfact - 1) / 3);
      var budget := MainSort.MainSort(ptr, block, quadrant, ftab, nblock, budgetInit, b);
      if budget < 0 { SortByFallback(ptr, block, nblock, b); }
    }
    HoldsSize(block[..], b);
    origPtr := FindOrigin(ptr, b);
  }

  method FindOrigin(ptr: array<int>, ghost b: seq<byte>) returns (origPtr: int)
    requires RotationSorted(b, ptr[..])
    ensures 0 <= origPtr < ptr.Length && ptr[origPtr] == 0
  {
    ghost var x := InRange(ptr[..], |b|, 0);
    assert ptr[x] == 0;
    hide *;
    origPtr := -1;
    for i := 0 to ptr.Length
      invariant origPtr == -1 && i <= x
    {
      if ptr[i] == 0 {
        origPtr := i;
        break;
      }
    }
    assert origPtr != -1;  // assertion 1003 of the source
  }
}

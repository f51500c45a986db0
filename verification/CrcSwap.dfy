/** Words with their bytes in the opposite order, as a big-endian machine loads them. */
module CrcSwap {
  import opened CrcBraid
  import opened CrcBlocks
  import opened CrcBytes
  import opened CrcField

  function Swap8(w: bv64): bv64 {
    ((w & 0xff00_0000_0000_0000) >> 56) | ((w & 0xff_0000_0000_0000) >> 40) | ((w & 0xff00_0000_0000) >> 24) | ((w & 0xff_0000_0000) >> 8) |
    ((w & 0xff00_0000) << 8) | ((w & 0xff_0000) << 24) | ((w & 0xff00) << 40) | ((w & 0xff) << 56)
  }

  function Swap4(w: bv64): bv64 {
    ((w & 0xff00_0000) >> 24) | ((w & 0xff_0000) >> 8) | ((w & 0xff00) << 8) | ((w & 0xff) << 24)
  }

  /** byte_swap, for words of eight or four bytes. */
  function Swap(v: bv64, w: nat): bv64 { if w == 8 then Swap8(v) else Swap4(v) }

  function Push8(v: bv64): bv64 { v << 8 }

  function Push4(v: bv64): bv64 { (v << 8) & 0xffff_ffff }

  /** A shift to the left by one byte, in a word of w bytes. */
  function Push(v: bv64, w: nat): bv64 { if w == 8 then Push8(v) else Push4(v) }

  function Top8(v: bv64): bv8 { Low(v >> 56) }

  function Top4(v: bv64): bv8 { Low(v >> 24) }

  /** The byte at the upper end. */
  function TopByte(v: bv64, w: nat): bv8 { if w == 8 then Top8(v) else Top4(v) }

  lemma Swap8Linear(u: bv64, v: bv64)
    ensures Swap8(Xor(u, v)) == Xor(Swap8(u), Swap8(v))
  {
  }

  lemma Swap4Linear(u: bv64, v: bv64)
    ensures Swap4(Xor(u, v)) == Xor(Swap4(u), Swap4(v))
  {
  }

  lemma SwapLinear(u: bv64, v: bv64, w: nat)
    ensures Swap(Xor(u, v), w) == Xor(Swap(u, w), Swap(v, w))
  {
    hide Swap8, Swap4, Xor;
    Swap8Linear(u, v);
    Swap4Linear(u, v);
  }

  lemma SwapZero(w: nat)
    ensures Swap(0, w) == 0
  {
  }

  lemma Swap8Twice(v: bv64)
    ensures Swap8(Swap8(v)) == v
  {
  }

  lemma Swap4Twice(v: bv64)
    requires Small(v)
    ensures Swap4(Swap4(v)) == v
  {
  }

  lemma SwapTwice(v: bv64, w: nat)
    requires (w == 8 || w == 4) && Fits(v, w)
    ensures Swap(Swap(v, w), w) == v
  {
    hide Swap8, Swap4, Fits, Small;
    Swap8Twice(v);
    if w == 4 {
      FitsSmall(v);
      Swap4Twice(v);
    }
  }

  lemma FitsSmall(v: bv64)
    requires Fits(v, 4)
    ensures Small(v)
  {
    FitsStep(v, 4);
    FitsStep(Off(v), 3);
    FitsStep(Off(Off(v)), 2);
    FitsStep(Off(Off(Off(v))), 1);
    FitsStep(Off(Off(Off(Off(v)))), 0);
    hide Fits;
  }

  lemma Swap8Off(v: bv64)
    ensures Swap8(Off(v)) == Push8(Swap8(v)) && Top8(Swap8(v)) == Low(v)
  {
  }

  lemma Swap4Off(v: bv64)
    requires Small(v)
    ensures Swap4(Off(v)) == Push4(Swap4(v)) && Top4(Swap4(v)) == Low(v)
  {
  }

  lemma SwapOff(v: bv64, w: nat)
    requires (w == 8 || w == 4) && Fits(v, w)
    ensures Swap(Off(v), w) == Push(Swap(v, w), w) && TopByte(Swap(v, w), w) == Low(v)
  {
    hide Swap8, Swap4, Fits, Small, Push8, Push4, Top8, Top4, Off, Low;
    Swap8Off(v);
    if w == 4 {
      FitsSmall(v);
      Swap4Off(v);
    }
  }

  // ---------- single bytes ----------

  lemma Bytes8(v: bv64)
    ensures Low(Swap8(v)) == Low(Off(Off(Off(Off(Off(Off(Off(v))))))))
    ensures Low(Off(Swap8(v))) == Low(Off(Off(Off(Off(Off(Off(v)))))))
    ensures Low(Off(Off(Swap8(v)))) == Low(Off(Off(Off(Off(Off(v))))))
    ensures Low(Off(Off(Off(Swap8(v))))) == Low(Off(Off(Off(Off(v)))))
    ensures Low(Off(Off(Off(Off(Swap8(v)))))) == Low(Off(Off(Off(v))))
    ensures Low(Off(Off(Off(Off(Off(Swap8(v))))))) == Low(Off(Off(v)))
    ensures Low(Off(Off(Off(Off(Off(Off(Swap8(v)))))))) == Low(Off(v))
    ensures Low(Off(Off(Off(Off(Off(Off(Off(Swap8(v))))))))) == Low(v)
  {
  }

  lemma Bytes4(v: bv64)
    ensures Low(Swap4(v)) == Low(Off(Off(Off(v))))
    ensures Low(Off(Swap4(v))) == Low(Off(Off(v)))
    ensures Low(Off(Off(Swap4(v)))) == Low(Off(v))
    ensures Low(Off(Off(Off(Swap4(v))))) == Low(v)
  {
  }

  lemma ShiftedOff(v: bv64)
    ensures Shifted(v, 0) == v
    ensures Shifted(v, 1) == Off(v)
    ensures Shifted(v, 2) == Off(Off(v))
    ensures Shifted(v, 3) == Off(Off(Off(v)))
    ensures Shifted(v, 4) == Off(Off(Off(Off(v))))
    ensures Shifted(v, 5) == Off(Off(Off(Off(Off(v)))))
    ensures Shifted(v, 6) == Off(Off(Off(Off(Off(Off(v))))))
    ensures Shifted(v, 7) == Off(Off(Off(Off(Off(Off(Off(v)))))))
  {
    hide Off;
    ShiftedStep(v, 0);
    ShiftedStep(v, 1);
    ShiftedStep(v, 2);
    ShiftedStep(v, 3);
    ShiftedStep(v, 4);
    ShiftedStep(v, 5);
    ShiftedStep(v, 6);
    ShiftedStep(v, 7);
    hide Shifted;
  }

  lemma EachByte8(v: bv64)
    ensures Low(Shifted(Swap8(v), 0)) == Low(Shifted(v, 7))
    ensures Low(Shifted(Swap8(v), 1)) == Low(Shifted(v, 6))
    ensures Low(Shifted(Swap8(v), 2)) == Low(Shifted(v, 5))
    ensures Low(Shifted(Swap8(v), 3)) == Low(Shifted(v, 4))
    ensures Low(Shifted(Swap8(v), 4)) == Low(Shifted(v, 3))
    ensures Low(Shifted(Swap8(v), 5)) == Low(Shifted(v, 2))
    ensures Low(Shifted(Swap8(v), 6)) == Low(Shifted(v, 1))
    ensures Low(Shifted(Swap8(v), 7)) == Low(Shifted(v, 0))
  {
    hide *;
    ShiftedOff(v);
    ShiftedOff(Swap8(v));
    Bytes8(v);
  }

  lemma ByteSwapped8(v: bv64, k: nat)
    requires k < 8
    ensures Low(Shifted(Swap8(v), k)) == Low(Shifted(v, 7 - k))
  {
    hide *;
    EachByte8(v);
  }

  lemma EachByte4(v: bv64)
    ensures Low(Shifted(Swap4(v), 0)) == Low(Shifted(v, 3))
    ensures Low(Shifted(Swap4(v), 1)) == Low(Shifted(v, 2))
    ensures Low(Shifted(Swap4(v), 2)) == Low(Shifted(v, 1))
    ensures Low(Shifted(Swap4(v), 3)) == Low(Shifted(v, 0))
  {
    hide *;
    ShiftedOff(v);
    ShiftedOff(Swap4(v));
    Bytes4(v);
  }

  lemma ByteSwapped4(v: bv64, k: nat)
    requires k < 4
    ensures Low(Shifted(Swap4(v), k)) == Low(Shifted(v, 3 - k))
  {
    hide *;
    EachByte4(v);
  }

  /** The bytes of a swapped word, from the other end. */
  lemma ByteSwapped(v: bv64, w: nat, k: nat)
    requires (w == 8 || w == 4) && k < w
    ensures Low(Shifted(Swap(v, w), k)) == Low(Shifted(v, w - 1 - k))
  {
    hide Swap8, Swap4, Low, Shifted;
    if w == 8 { ByteSwapped8(v, k); } else { ByteSwapped4(v, k); }
  }
}

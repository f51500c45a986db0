/** Undoing the randomising of repetitive blocks: at distances taken from a table the low bit of a byte of
    the block was turned over. */
module Randomising {
  import opened Rotations

  /** The 512 distances of randtable.c; nothing below depends on what is in it but that none is zero. */
  type RandTable = t: seq<nat> | |t| == 512 && forall i :: 0 <= i < 512 ==> t[i] >= 1 witness seq(512, _ => 1)

  datatype Mask = Mask(rNToGo: nat, rTPos: nat)

  /** BZ_RAND_INIT_MASK */
  function Started(): Mask { Mask(0, 0) }

  /** BZ_RAND_UPD_MASK */
  function Updated(t: RandTable, m: Mask): (r: Mask)
    requires m.rTPos < 512
    ensures r.rTPos < 512
  {
    if m.rNToGo == 0
    then Mask(t[m.rTPos] - 1, if m.rTPos + 1 == 512 then 0 else m.rTPos + 1)
    else Mask(m.rNToGo - 1, m.rTPos)
  }

  /** c ^ BZ_RAND_MASK */
  function Masked(m: Mask, c: byte): byte {
    if m.rNToGo != 1 then c else if c % 2 == 0 then c + 1 else c - 1
  }

  /** The mask for byte i - 1 of a block. */
  ghost function MaskAt(t: RandTable, i: nat): (m: Mask)
    ensures m.rTPos < 512
  {
    if i == 0 then Started() else Updated(t, MaskAt(t, i - 1))
  }

  ghost function Unmasked(t: RandTable, walk: seq<byte>): (r: seq<byte>)
    ensures |r| == |walk| && forall i :: 0 <= i < |walk| ==> r[i] == Masked(MaskAt(t, i + 1), walk[i])
  {
    seq(|walk|, i requires 0 <= i < |walk| => Masked(MaskAt(t, i + 1), walk[i]))
  }

  /** The bytes of a block as the decoder takes them. */
  ghost function Seen(t: RandTable, randomised: bool, walk: seq<byte>): (r: seq<byte>)
    ensures |r| == |walk|
  {
    if randomised then Unmasked(t, walk) else walk
  }

  /** What one side turns over the other turns back. */
  lemma MaskedTwice(t: RandTable, walk: seq<byte>)
    ensures Unmasked(t, Unmasked(t, walk)) == walk
  {
    forall i | 0 <= i < |walk| ensures Unmasked(t, Unmasked(t, walk))[i] == walk[i] {
      assert Masked(MaskAt(t, i + 1), Masked(MaskAt(t, i + 1), walk[i])) == walk[i];
    }
  }

  // ---------- where the bits are turned over ----------

  /** The first k distances added up, around the table as often as need be. */
  ghost function Reach(t: RandTable, k: nat): nat {
    if k == 0 then 0 else Reach(t, k - 1) + t[Wrap(k - 1)]
  }

  function Wrap(k: nat): (r: nat)
    ensures r < 512
  {
    k % 512
  }

  lemma WrapNext(k: nat)
    ensures Wrap(k + 1) == if Wrap(k) + 1 == 512 then 0 else Wrap(k) + 1
  {
  }

  /** Between the k-th sum and the next the mask counts down. */
  lemma {:induction false} MaskBetween(t: RandTable, k: nat, i: nat)
    requires Reach(t, k) < i <= Reach(t, k + 1)
    ensures MaskAt(t, i) == Mask(Reach(t, k + 1) - i, Wrap(k + 1))
    decreases i, 0
  {
    hide Wrap;
    if i == Reach(t, k) + 1 {
      MaskAtSum(t, k);
      WrapNext(k);
    } else {
      MaskBetween(t, k, i - 1);
    }
  }

  lemma {:induction false} MaskAtSum(t: RandTable, k: nat)
    ensures MaskAt(t, Reach(t, k)) == Mask(0, Wrap(k))
    decreases Reach(t, k), 1
  {
    if k > 0 { MaskBetween(t, k - 1, Reach(t, k)); }
  }

  lemma {:induction false} SumsGrow(t: RandTable, j: nat, k: nat)
    requires j <= k
    ensures Reach(t, j) + (k - j) <= Reach(t, k)
    decreases k
  {
    if j < k { SumsGrow(t, j, k - 1); }
  }

  /** Byte i is turned over just when two more than i is a sum of distances, the last of them not one. */
  lemma TurnedOver(t: RandTable, i: nat)
    ensures MaskAt(t, i + 1).rNToGo == 1 <==> exists k: nat :: Reach(t, k + 1) == i + 2 && t[Wrap(k)] > 1
  {
    hide Wrap;
    var k := SumAround(t, i + 1, 0);
    MaskBetween(t, k, i + 1);
    if j: nat :| Reach(t, j + 1) == i + 2 && t[Wrap(j)] > 1 {
      if j < k { SumsGrow(t, j + 1, k); }
      if k < j { SumsGrow(t, k + 1, j); }
    }
  }

  lemma SumAround(t: RandTable, i: nat, j: nat) returns (k: nat)
    requires Reach(t, j) < i
    ensures Reach(t, k) < i <= Reach(t, k + 1)
    decreases i - Reach(t, j)
  {
    SumsGrow(t, j, j + 1);
    if i <= Reach(t, j + 1) { k := j; } else { k := SumAround(t, i, j + 1); }
  }
}

/** The tables of the braided loop: each byte of a word, carried over a whole block. */
module CrcTables {
  import opened CrcBraid
  import opened CrcBytes
  import opened CrcField
  import opened CrcPowers
  import opened Powers

  /** Row k of the braid table: each byte k of a word, carried over the nw bytes of a block. */
  ghost predicate RowIs(row: seq<bv64>, e: nat) {
    |row| == 256 && forall b: bv8 :: row[b as int] == Sn(Wide(b), e)
  }

  ghost predicate Braided(t: seq<seq<bv64>>, w: nat, nw: nat) {
    |t| == w <= nw && forall k: nat :: k < w ==> RowIs(t[k], 8 * (nw - k))
  }

  lemma RowAt(row: seq<bv64>, e: nat, b: bv8)
    requires RowIs(row, e)
    ensures b as int < |row| && row[b as int] == Sn(Wide(b), e)
  {
    hide Sn, Wide;
  }

  lemma BraidRow(t: seq<seq<bv64>>, w: nat, nw: nat, k: nat)
    requires Braided(t, w, nw) && k < w
    ensures |t| == w <= nw && RowIs(t[k], 8 * (nw - k))
  {
    hide RowIs;
  }

  function Up24(b: bv8): bv64 { (b as bv64) << 24 }

  lemma Up24Parts(b: bv8)
    ensures Small(Up24(b)) && (b != 0 ==> Up24(b) != 0)
    ensures Up24(b) & 0xff == 0 && Off(Up24(b)) & 0xff == 0 && Off(Off(Up24(b))) & 0xff == 0
    ensures Off(Off(Off(Up24(b)))) == Wide(b)
  {
  }

  lemma OffIs(u: bv64)
    requires u & 0xff == 0
    ensures Sn(u, 8) == Off(u)
  {
    hide Sn;
    ShiftEight(u);
  }

  lemma Up24Steps(b: bv8, e: nat)
    ensures Sn(Up24(b), 24 + e) == Sn(Wide(b), e)
  {
    hide *;
    Up24Parts(b);
    OffIs(Up24(b));
    OffIs(Off(Up24(b)));
    OffIs(Off(Off(Up24(b))));
    SnAdd(Up24(b), 8, 16);
    SnAdd(Off(Up24(b)), 8, 8);
    SnAdd(Up24(b), 24, e);
  }

  lemma WideZero(e: nat)
    ensures Sn(Wide(0), e) == 0
  {
    hide Sn;
    SnZero(e);
  }

  lemma OncePower(e: nat)
    ensures e * Pow2(0) == e
  {
  }

  method MakeRow(p: bv64, e: nat) returns (row: seq<bv64>)
    requires p == Sn(ONE, 24 + e)
    ensures RowIs(row, e)
  {
    hide Sn, Wide, Mul, Up24, Small;
    row := [0];
    WideZero(e);
    for i: nat := 1 to 256
      invariant |row| == i && forall j: nat :: j < i ==> row[j] == Sn(Wide(j as bv8), e)
    {
      var b := i as bv8;
      assert b != 0;
      Up24Parts(b);
      var q := MultModP(Up24(b), p);
      MulPower(Up24(b), 24 + e);
      Up24Steps(b, e);
      row := row + [q];
    }
    forall b: bv8
      ensures row[b as int] == Sn(Wide(b), e)
    {
      Reindexed(b);
    }
  }

  /** The braid tables for n braids of words of w bytes. */
  method MakeBraid(n: nat, w: nat) returns (t: seq<seq<bv64>>)
    requires n >= 1
    ensures Braided(t, w, n * w)
  {
    hide RowIs, Sn;
    AtLeast(n, w);
    t := [];
    for k: nat := 0 to w
      invariant |t| == k && forall j: nat :: j < k ==> RowIs(t[j], 8 * (n * w - j))
    {
      var p := X2NModP((n * w + 3 - k) * 8, 0);
      OncePower((n * w + 3 - k) * 8);
      var row := MakeRow(p, 8 * (n * w - k));
      t := t + [row];
    }
  }

  lemma AtLeast(n: nat, w: nat)
    requires n >= 1
    ensures w <= n * w
  {
  }
}

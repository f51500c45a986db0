/** The CRC register fed byte by byte: the shift register that defines it, and the table that steps it. */
module CrcBytes {
  import opened CrcField

  /** A byte in a register. */
  function Wide(b: bv8): bv64 { b as bv64 }

  /** The register after the bytes: each is added at the low end, and the sum multiplied by x^8. */
  function Feed(c: bv64, bs: seq<bv8>): bv64
    decreases |bs|
  {
    if bs == [] then c else Feed(Sn(Xor(c, Wide(bs[0])), 8), bs[1..])
  }

  lemma FeedStep(c: bv64, bs: seq<bv8>)
    ensures Feed(c, bs) == if bs == [] then c else Feed(Sn(Xor(c, Wide(bs[0])), 8), bs[1..])
  {
    hide Sn, Xor;
  }

  lemma {:induction false} FeedLinear(c: bv64, d: bv64, bs: seq<bv8>)
    ensures Feed(Xor(c, d), bs) == Xor(Feed(c, bs), Sn(d, 8 * |bs|))
    decreases |bs|
  {
    hide *;
    FeedStep(Xor(c, d), bs);
    FeedStep(c, bs);
    if bs == [] {
      NoSteps(d);
    } else {
      var b: bv64 := Wide(bs[0]);
      XorPairs(c, d, b, 0);
      XorZero(b);
      XorZero(d);
      SnLinear(Xor(c, b), d, 8);
      FeedLinear(Sn(Xor(c, b), 8), Sn(d, 8), bs[1..]);
      SnAdd(d, 8, 8 * |bs[1..]|);
    }
  }

  lemma NoSteps(d: bv64)
    ensures Sn(d, 0) == d
  {
  }

  lemma {:induction false} FeedAppend(c: bv64, a: seq<bv8>, b: seq<bv8>)
    ensures Feed(c, a + b) == Feed(Feed(c, a), b)
    decreases |a|
  {
    hide Sn, Xor;
    if a == [] {
      assert a + b == b;
    } else {
      assert (a + b)[1..] == a[1..] + b;
      FeedAppend(Sn(Xor(c, Wide(a[0])), 8), a[1..], b);
    }
  }

  lemma {:induction false} FeedSmall(c: bv64, bs: seq<bv8>)
    requires Small(c)
    ensures Small(Feed(c, bs))
    decreases |bs|
  {
    hide *;
    FeedStep(c, bs);
    if bs != [] {
      ByteSmall(bs[0]);
      XorSmall(c, Wide(bs[0]));
      SnSmall(Xor(c, Wide(bs[0])), 8);
      FeedSmall(Sn(Xor(c, Wide(bs[0])), 8), bs[1..]);
    }
  }

  lemma ByteSmall(b: bv8)
    ensures Small(Wide(b))
  {
  }

  lemma XorSmall(u: bv64, v: bv64)
    requires Small(u) && Small(v)
    ensures Small(Xor(u, v))
  {
  }

  // ---------- eight steps at a time ----------

  ghost predicate LowClear(h: bv64, k: nat)
    decreases k
  {
    k == 0 || (h & 1 == 0 && LowClear(h >> 1, k - 1))
  }

  ghost function Shr(h: bv64, k: nat): bv64
    decreases k
  {
    if k == 0 then h else Shr(h >> 1, k - 1)
  }

  lemma {:induction false} ShiftOut(h: bv64, k: nat)
    requires LowClear(h, k)
    ensures Sn(h, k) == Shr(h, k)
    decreases k
  {
    hide S1;
    if k > 0 {
      S1Is(h);
      ShiftOut(h >> 1, k - 1);
    }
  }

  lemma LowClearFour(h: bv64, k: nat)
    requires k >= 4 && h & 0xf == 0 && LowClear(h >> 4, k - 4)
    ensures LowClear(h, k)
  {
    Shifts(h);
    assert h & 1 == 0 && (h >> 1) & 1 == 0 && (h >> 2) & 1 == 0 && (h >> 3) & 1 == 0;
    assert LowClear(h >> 3, k - 3);
    assert LowClear(h >> 2, k - 2);
    assert LowClear(h >> 1, k - 1);
  }

  lemma Shifts(h: bv64)
    ensures (h >> 1) >> 1 == h >> 2 && (h >> 2) >> 1 == h >> 3 && (h >> 3) >> 1 == h >> 4
  {
  }

  lemma ShrFour(h: bv64, k: nat)
    requires k >= 4
    ensures Shr(h, k) == Shr(h >> 4, k - 4)
  {
    Shifts(h);
    assert Shr(h, k) == Shr(h >> 1, k - 1);
    assert Shr(h >> 1, k - 1) == Shr(h >> 2, k - 2);
    assert Shr(h >> 2, k - 2) == Shr(h >> 3, k - 3);
  }

  /** Eight zero bits are shifted out unchanged. */
  lemma ShiftEight(h: bv64)
    requires h & 0xff == 0
    ensures Sn(h, 8) == h >> 8
  {
    hide *;
    EightZeros(h);
    LowClearFour(h >> 4, 4);
    LowClearFour(h, 8);
    ShrFour(h, 8);
    ShrFour(h >> 4, 4);
    ShiftOut(h, 8);
  }

  lemma EightZeros(h: bv64)
    requires h & 0xff == 0
    ensures h & 0xf == 0 && (h >> 4) & 0xf == 0 && (h >> 4) >> 4 == h >> 8
    ensures LowClear(h >> 8, 0) && Shr(h >> 8, 0) == h >> 8
  {
  }

  function Low(u: bv64): bv8 { (u & 0xff) as bv8 }

  function High(u: bv64): bv64 { u & 0xffff_ffff_ffff_ff00 }

  function Off(u: bv64): bv64 { u >> 8 }

  lemma LowHigh(u: bv64)
    ensures Xor(Wide(Low(u)), High(u)) == u
  {
  }

  lemma HighOff(u: bv64)
    ensures Sn(High(u), 8) == Off(u)
  {
    hide Sn;
    ShiftEight(High(u));
  }

  /** Eight steps or more: the low byte alone, and the rest shifted by one byte. */
  lemma ByteOff(u: bv64, m: nat)
    requires m >= 8
    ensures Sn(u, m) == Xor(Sn(Wide(Low(u)), m), Sn(Off(u), m - 8))
  {
    hide *;
    LowHigh(u);
    SnLinear(Wide(Low(u)), High(u), m);
    HighOff(u);
    SnAdd(High(u), 8, m - 8);
  }

  // ---------- the table ----------

  /** crc_table: what each byte alone becomes. */
  ghost predicate Tabled(t: seq<bv64>) {
    |t| == 256 && forall b: bv8 :: t[b as int] == Sn(Wide(b), 8)
  }

  lemma LookedUp(t: seq<bv64>, b: bv8)
    requires Tabled(t)
    ensures b as int < |t| && t[b as int] == Sn(Wide(b), 8)
  {
    hide Sn, Wide;
  }

  /** Eight shift register steps, looked up. */
  lemma TableStep(t: seq<bv64>, u: bv64)
    requires Tabled(t)
    ensures Low(u) as int < |t| && Xor(Off(u), t[Low(u) as int]) == Sn(u, 8)
  {
    hide *;
    LookedUp(t, Low(u));
    ByteOff(u, 8);
    NoSteps(Off(u));
    XorSwap(Off(u), Sn(Wide(Low(u)), 8));
  }

  lemma OffWide(crc: bv64, b: bv8)
    ensures Off(Xor(crc, Wide(b))) == Off(crc)
  {
  }

  lemma {:induction false} FeedSnoc(c: bv64, bs: seq<bv8>, b: bv8)
    ensures Feed(c, bs + [b]) == Sn(Xor(Feed(c, bs), Wide(b)), 8)
  {
    hide *;
    FeedAppend(c, bs, [b]);
    FeedStep(Feed(c, bs), [b]);
    FeedStep(Sn(Xor(Feed(c, bs), Wide(b)), 8), []);
    assert [b][1..] == [];
  }

  /** The byte step of the source. */
  method Byte(t: seq<bv64>, crc0: bv64, b: bv8) returns (crc: bv64)
    requires Tabled(t) && Small(crc0)
    ensures crc == Sn(Xor(crc0, Wide(b)), 8) && Small(crc)
  {
    hide *;
    TableStep(t, Xor(crc0, Wide(b)));
    OffWide(crc0, b);
    ByteSmall(b);
    XorSmall(crc0, Wide(b));
    SnSmall(Xor(crc0, Wide(b)), 8);
    crc := Xor(Off(crc0), t[Low(Xor(crc0, Wide(b))) as int]);
  }

  lemma Reindexed(b: bv8)
    ensures 0 <= b as int < 256 && (b as int) as bv8 == b
  {
  }

  /** The table filled as make_crc_table fills it. */
  method MakeTable() returns (t: seq<bv64>)
    ensures Tabled(t)
  {
    hide Sn, Wide;
    t := [];
    for i: nat := 0 to 256
      invariant |t| == i && forall j: nat :: j < i ==> t[j] == Sn(Wide(j as bv8), 8)
    {
      var p := EightSteps(Wide(i as bv8));
      t := t + [p];
    }
    forall b: bv8
      ensures t[b as int] == Sn(Wide(b), 8)
    {
      Reindexed(b);
    }
  }

  method EightSteps(p0: bv64) returns (p: bv64)
    ensures p == Sn(p0, 8)
  {
    hide Sn, S1;
    p := p0;
    NoSteps(p0);
    for j: nat := 0 to 8
      invariant p == Sn(p0, j)
    {
      S1Is(p);
      SnAdd(p0, j, 1);
      OneStep(p);
      p := if p & 1 != 0 then (p >> 1) ^ 0xedb8_8320 else p >> 1;
    }
  }

  lemma OneStep(p: bv64)
    ensures Sn(p, 1) == S1(p)
  {
    hide S1;
  }
}

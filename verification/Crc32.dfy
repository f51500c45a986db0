/** The CRC-32 of zlib: the braided loop and the byte loops around it, and the combination of two CRCs. */
module Crc32 {
  import opened CrcBig
  import opened CrcBlocks
  import opened CrcBraid
  import opened CrcBytes
  import opened CrcField
  import opened CrcPowers
  import opened CrcTables
  import opened Powers

  // ---------- crc32_z ----------

  /** The CRC of bytes from a starting CRC: the register is inverted before and after. */
  function Crc(crc: bv64, bs: seq<bv8>): bv64 {
    Xor(Feed(Xor(crc, 0xffff_ffff), bs), 0xffff_ffff)
  }

  lemma CrcIs(crc: bv64, bs: seq<bv8>)
    ensures Crc(crc, bs) == Xor(Feed(Xor(crc, 0xffff_ffff), bs), 0xffff_ffff)
  {
    hide Xor, Feed;
  }

  lemma OnesSmall()
    ensures Small(0xffff_ffff)
  {
  }

  lemma CrcSmall(crc: bv64, bs: seq<bv8>)
    requires Small(crc)
    ensures Small(Crc(crc, bs))
  {
    hide *;
    CrcIs(crc, bs);
    OnesSmall();
    XorSmall(crc, 0xffff_ffff);
    FeedSmall(Xor(crc, 0xffff_ffff), bs);
    XorSmall(Feed(Xor(crc, 0xffff_ffff), bs), 0xffff_ffff);
  }

  /** Bytes one at a time, as far as position hi. */
  method Bytes(t: seq<bv64>, data: seq<bv8>, ghost c0: bv64, crc0: bv64, lo: nat, hi: nat) returns (crc: bv64)
    requires Tabled(t) && lo <= hi <= |data| && Small(crc0) && crc0 == Feed(c0, data[..lo])
    ensures crc == Feed(c0, data[..hi]) && Small(crc)
  {
    hide *;
    crc := crc0;
    for i: nat := lo to hi
      invariant Small(crc) && crc == Feed(c0, data[..i])
    {
      FeedSnoc(c0, data[..i], data[i]);
      assert data[..i + 1] == data[..i] + [data[i]];
      crc := Byte(t, crc, data[i]);
    }
  }

  lemma AddrMod(addr: nat, pos: nat, w: nat)
    requires w == 4 || w == 8
    ensures (addr + pos) % w == (addr % w + pos) % w && addr % w < w && (addr % w + pos == w ==> (addr + pos) % w == 0)
  {
  }

  /** The bytes up to a word boundary: fewer than a word. */
  method Align(t: seq<bv64>, data: seq<bv8>, ghost c0: bv64, crc0: bv64, addr: nat, w: nat)
    returns (crc: bv64, pos: nat)
    requires Tabled(t) && (w == 4 || w == 8) && |data| >= w && Small(crc0) && crc0 == Feed(c0, [])
    ensures pos < w && (addr + pos) % w == 0 && pos <= |data| && crc == Feed(c0, data[..pos]) && Small(crc)
  {
    hide *;
    crc, pos := crc0, 0;
    assert data[..0] == [];
    while pos < |data| && (addr + pos) % w != 0
      invariant pos <= |data| && (pos == 0 || (addr % w > 0 && addr % w + pos <= w))
      invariant Small(crc) && crc == Feed(c0, data[..pos])
    {
      AddrMod(addr, pos, w);
      FeedSnoc(c0, data[..pos], data[pos]);
      assert data[..pos + 1] == data[..pos] + [data[pos]];
      crc := Byte(t, crc, data[pos]);
      pos := pos + 1;
    }
    AddrMod(addr, pos, w);
  }

  lemma Blocks(left: nat, nw: nat, blks: nat)
    requires nw > 0 && blks == left / nw
    ensures blks * nw <= left && (left >= nw ==> blks >= 1)
  {
  }

  /** All tables of the calculation. */
  datatype Tables = Tables(crc: seq<bv64>, crcBig: seq<bv64>, braid: seq<seq<bv64>>, braidBig: seq<seq<bv64>>)

  ghost predicate Made(t: Tables, n: nat, w: nat) {
    Tabled(t.crc) && Swapped(t.crcBig, t.crc, w) && Braided(t.braid, w, n * w) && BigBraided(t.braidBig, t.braid, w)
  }

  /** make_crc_table, for n braids of words of w bytes. */
  method MakeTables(n: nat, w: nat) returns (t: Tables)
    requires n >= 1
    ensures Made(t, n, w)
  {
    hide Tabled, Swapped, Braided, BigBraided;
    var crc := MakeTable();
    var crcBig := SwapTable(crc, w);
    var braid, braidBig := MakeBraids(n, w);
    t := Tables(crc, crcBig, braid, braidBig);
  }

  lemma MadeParts(t: Tables, n: nat, w: nat)
    requires Made(t, n, w)
    ensures Tabled(t.crc) && Swapped(t.crcBig, t.crc, w) && Braided(t.braid, w, n * w) && BigBraided(t.braidBig, t.braid, w)
  {
  }

  /** The part of the buffer that is long enough for braids: up to a word boundary, then as many blocks as
      there are. */
  method Middle(t: Tables, data: seq<bv8>, ghost c0: bv64, crc0: bv64, addr: nat, n: nat, w: nat, little: bool)
    returns (crc: bv64, pos: nat)
    requires Made(t, n, w) && (w == 4 || w == 8) && 1 <= n <= 6 && |data| >= n * w + w - 1 && Small(crc0) && crc0 == Feed(c0, [])
    ensures pos <= |data| && crc == Feed(c0, data[..pos]) && Small(crc)
  {
    hide *;
    MadeParts(t, n, w);
    Turned(n, w, 0);
    crc, pos := Align(t.crc, data, c0, crc0, addr, w);
    var blks: nat := (|data| - pos) / (n * w);
    Blocks(|data| - pos, n * w, blks);
    var more: nat := blks * (n * w);
    var part := data[pos..pos + more];
    FeedAppend(c0, data[..pos], part);
    assert data[..pos + more] == data[..pos] + part;
    if little {
      crc := Braids(t.crc, t.braid, part, crc, n, w, blks);
    } else {
      crc := BraidsBig(t.crcBig, t.braidBig, part, crc, n, w, blks, t.crc, t.braid);
    }
    pos := pos + more;
  }

  /** crc32_z, for n braids of words of w bytes and a buffer that starts at the address addr, on a machine of
      either byte order. */
  method Crc32Z(t: Tables, crc0: bv64, buf: array?<bv8>, len: nat, addr: nat, n: nat, w: nat, little: bool) returns (r: bv64)
    requires Made(t, n, w) && (w == 4 || w == 8) && 1 <= n <= 6 && Small(crc0)
    requires buf != null ==> len <= buf.Length
    ensures buf == null ==> r == 0
    ensures buf != null ==> r == Crc(crc0, buf[..len]) && Small(r)
  {
    hide *;
    if buf == null { return 0; }
    MadeParts(t, n, w);
    var data := buf[..len];
    ghost var c0: bv64 := Xor(crc0, 0xffff_ffff);
    OnesSmall();
    XorSmall(crc0, 0xffff_ffff);
    FeedStep(c0, []);
    var crc, pos: nat := Xor(crc0, 0xffff_ffff), 0;
    assert data[..0] == [];
    if len >= n * w + w - 1 {
      crc, pos := Middle(t, data, c0, crc, addr, n, w, little);
    }
    while len - pos >= 8
      invariant pos <= len && Small(crc) && crc == Feed(c0, data[..pos])
      decreases len - pos
    {
      crc := Bytes(t.crc, data, c0, crc, pos, pos + 8);
      pos := pos + 8;
    }
    crc := Bytes(t.crc, data, c0, crc, pos, len);
    assert data[..len] == data;
    CrcIs(crc0, data);
    CrcSmall(crc0, data);
    r := Xor(crc, 0xffff_ffff);
  }

  // ---------- crc32_combine ----------

  lemma TwiceOnes(a: bv64)
    ensures Xor(Xor(a, 0xffff_ffff), 0xffff_ffff) == a
  {
  }

  /** Bytes may come in pieces: the CRC of the first part is the start for the second. */
  lemma CrcContinues(crc: bv64, a: seq<bv8>, b: seq<bv8>)
    ensures Crc(Crc(crc, a), b) == Crc(crc, a + b)
  {
    hide *;
    CrcIs(crc, a);
    CrcIs(crc, a + b);
    CrcIs(Crc(crc, a), b);
    TwiceOnes(Feed(Xor(crc, 0xffff_ffff), a));
    FeedAppend(Xor(crc, 0xffff_ffff), a, b);
  }

  /** The CRC of a concatenation: that of the first part multiplied by x to the length of the second in bits. */
  lemma CrcOfBoth(crc: bv64, a: seq<bv8>, b: seq<bv8>)
    requires Small(crc)
    ensures Crc(crc, a + b) == Xor(Sn(Crc(crc, a), 8 * |b|), Crc(0, b))
  {
    hide *;
    ghost var ca: bv64, f: bv64 := Crc(crc, a), 0xffff_ffff;
    CrcContinues(crc, a, b);
    CrcIs(ca, b);
    CrcIs(0, b);
    XorZero(f);
    XorSwap(ca, f);
    FeedLinear(f, ca, b);
    ghost var s: bv64, fb: bv64 := Sn(ca, 8 * |b|), Feed(f, b);
    XorSwap(fb, s);
    XorAssoc(s, fb, f);
  }

  lemma EightTimes(n: nat)
    ensures n * Pow2(3) == 8 * n
  {
    assert Pow2(3) == 8;
  }

  /** crc32_combine64, for a length that is not negative. */
  method Combine64(crc1: bv64, crc2: bv64, len2: nat) returns (crc: bv64)
    requires Small(crc1)
    ensures crc == Xor(Sn(crc1, 8 * len2), crc2)
    ensures forall c: bv64, a: seq<bv8>, b: seq<bv8> ::
              Small(c) && crc1 == Crc(c, a) && crc2 == Crc(0, b) && |b| == len2 ==> crc == Crc(c, a + b)
  {
    hide *;
    var op := X2NModP(len2, 3);
    EightTimes(len2);
    MulPower(crc1, 8 * len2);
    var p := MultModP(op, crc1);
    crc := Xor(p, crc2);
    forall c: bv64, a: seq<bv8>, b: seq<bv8> |
      Small(c) && crc1 == Crc(c, a) && crc2 == Crc(0, b) && |b| == len2
      ensures crc == Crc(c, a + b)
    {
      CrcOfBoth(c, a, b);
    }
  }
}

/** BZ2_bzDecompress: stream header, blocks, trailer and checksums, with the output taken in pieces of any
    size and either inverse of the sort. */
module Decompressor {
  import opened Powers
  import opened Rotations
  import opened Counting
  import opened Bits
  import opened Parsing
  import opened BurrowsWheeler
  import opened BlockFormat
  import opened BitIO
  import opened InverseBwt
  import opened BlockDecoder
  import opened RunLength
  import opened Randomising
  import opened StreamFormat
  import opened RunDecoder

  datatype Phase = Magic | BlockHeader | Output | Idle
  datatype Code = BZ_OK | BZ_STREAM_END | BZ_NEED_INPUT | BZ_DATA_ERROR | BZ_DATA_ERROR_MAGIC | BZ_SEQUENCE_ERROR | BZ_SELECTOR_OVERRUN

  /** What an error code says about the stream, of which out has come out: nothing more is to come.  Broken
      data may be noticed before it runs out. */
  ghost predicate Reports(code: Code, o: Outcome, out: seq<byte>) {
    match code
    case BZ_NEED_INPUT => o == MoreInput(out)
    case BZ_DATA_ERROR => o == Corrupt(out) || o == MoreInput(out)
    case BZ_DATA_ERROR_MAGIC => o == NotBzip2(out)
    case BZ_SELECTOR_OVERRUN => o == SelectorOverrun(out)
    case _ => true
  }

  lemma ReportIs(o: Outcome, out: seq<byte>)
    ensures o == MoreInput(out) ==> Reports(BZ_NEED_INPUT, o, out) && Reports(BZ_DATA_ERROR, o, out)
    ensures o == Corrupt(out) ==> Reports(BZ_DATA_ERROR, o, out)
    ensures o == NotBzip2(out) ==> Reports(BZ_DATA_ERROR_MAGIC, o, out)
    ensures o == SelectorOverrun(out) ==> Reports(BZ_SELECTOR_OVERRUN, o, out)
  {
  }

  // ---------- fixed fields ----------

  lemma ReadByteIs(bits: seq<bool>, pos: nat, m: seq<byte>)
    requires m != []
    ensures pos + 8 > |bits| ==> ParseMagic(bits, pos, m) == Starved
    ensures pos + 8 <= |bits| && ToNat(bits[pos..pos + 8]) != m[0] ==> ParseMagic(bits, pos, m) == Bad
    ensures pos + 8 <= |bits| && ToNat(bits[pos..pos + 8]) == m[0] ==> ParseMagic(bits, pos, m) == ParseMagic(bits, pos + 8, m[1..])
  {
    hide ToNat;
  }

  lemma ReadNone(bits: seq<bool>, pos: nat, m: seq<byte>)
    requires m == []
    ensures ParseMagic(bits, pos, m) == Got((), pos)
  {
  }

  lemma AgreesIs<T>(st: Status, v: T, pos: nat, p: Parse<T>)
    ensures Agrees(st, v, pos, p) <==> (p == Got(v, pos) && st == OK) || (p == Starved && st == NEED_INPUT) || (p == Bad && st == DATA_ERROR) || (p == Overrun && st == OVERRUN)
  {
  }

  /** Fixed bytes, each compared as it is read. */
  method GetMagic(r: BitReader, m: seq<byte>) returns (st: Status)
    requires r.Valid()
    modifies r
    ensures r.Valid() && Agrees(st, (), r.Pos(), ParseMagic(r.All(), old(r.Pos()), m))
  {
    hide *;
    ghost var all, p := r.All(), r.Pos();
    assert m[0..] == m;
    for i := 0 to |m|
      invariant r.Valid() && ParseMagic(all, p, m) == ParseMagic(all, r.Pos(), m[i..])
    {
      ghost var q := r.Pos();
      ReadByteIs(all, q, m[i..]);
      var ok, uc := r.Get(8);
      st := if ok then DATA_ERROR else NEED_INPUT;
      AgreesIs(st, (), r.Pos(), ParseMagic(all, p, m));
      if !ok || uc != m[i] { return; }
      assert m[i..][1..] == m[i + 1..];
    }
    ReadNone(all, r.Pos(), m[|m|..]);
    st := OK;
    AgreesIs(st, (), r.Pos(), ParseMagic(all, p, m));
  }

  /** Four bytes, most significant first. */
  method GetWord(r: BitReader) returns (ok: bool, v: nat)
    requires r.Valid()
    modifies r
    ensures r.Valid() && (ok <==> old(r.Pos()) + 32 <= |r.All()|)
    ensures ok ==> r.Pos() == old(r.Pos()) + 32 && v == ToNat(r.All()[old(r.Pos())..old(r.Pos()) + 32])
  {
    hide BitReader.Valid, BitReader.Pos, BitReader.All, ToNat, Pow2;
    ghost var all, p := r.All(), r.Pos();
    v := 0;
    EmptyNat(all, p);
    for i := 0 to 4
      invariant r.Valid() && r.Pos() == p + 8 * i <= |all| && v == ToNat(all[p..p + 8 * i])
    {
      var uc;
      ok, uc := r.Get(8);
      if !ok { return; }
      ByteOn(all, p, p + 8 * i);
      v := v * 256 + uc;
    }
    ok := true;
  }

  /** The rest of a block's magic number, its checksum and the randomised bit. */
  method GetHead(r: BitReader) returns (st: Status, stored: nat, rand: nat)
    requires r.Valid()
    modifies r
    ensures r.Valid() && Agrees(st, (stored, rand), r.Pos(), ParseHead(r.All(), old(r.Pos())))
  {
    hide *;
    ghost var all, p := r.All(), r.Pos();
    Magics();
    stored, rand := 0, 0;
    st := GetMagic(r, BLOCK_MAGIC[1..]);
    ghost var q := r.Pos();
    HeadMagic(all, p, st, q);
    if st != OK { return; }
    var ok;
    ok, stored := GetWord(r);
    if !ok { return NEED_INPUT, stored, rand; }
    ok, rand := r.Get(1);
    st := if ok then OK else NEED_INPUT;
    HeadIs(all, p, q);
    AgreesIs(st, (stored, rand), r.Pos(), ParseHead(all, p));
  }

  lemma HeadMagic(bits: seq<bool>, pos: nat, st: Status, q: nat)
    requires Agrees(st, (), q, ParseMagic(bits, pos, BLOCK_MAGIC[1..]))
    ensures st != OK ==> forall v, e :: Agrees(st, v, e, ParseHead(bits, pos))
    ensures st == OK ==> ParseMagic(bits, pos, BLOCK_MAGIC[1..]) == Got((), q)
    ensures st == OK && q + 32 > |bits| ==> forall v, e :: Agrees(NEED_INPUT, v, e, ParseHead(bits, pos))
    ensures |BLOCK_MAGIC| == 6
  {
    hide ParseMagic;
  }

  lemma HeadIs(bits: seq<bool>, pos: nat, q: nat)
    requires ParseMagic(bits, pos, BLOCK_MAGIC[1..]) == Got((), q) && q + 32 <= |bits|
    ensures ParseHead(bits, pos) == if q + 33 > |bits| then Starved else Got((ToNat(bits[q..q + 32]), ToNat(bits[q + 32..q + 33])), q + 33)
  {
    hide ParseMagic, ToNat;
  }

  // ---------- what the format says next ----------

  ghost function Failure(st: Status, out: seq<byte>): Outcome {
    if st == NEED_INPUT then MoreInput(out) else Corrupt(out)
  }

  lemma StreamStart(bits: seq<bool>, table: Tables, st: Status, q: nat)
    requires Agrees(st, (), q, ParseMagic(bits, 0, STREAM_MAGIC))
    ensures st != OVERRUN
    ensures st == NEED_INPUT ==> ParseStream(bits, table) == MoreInput([])
    ensures st == DATA_ERROR ==> ParseStream(bits, table) == NotBzip2([])
    ensures st == OK && q + 8 > |bits| ==> ParseStream(bits, table) == MoreInput([])
    ensures st == OK ==> ParseMagic(bits, 0, STREAM_MAGIC) == Got((), q)
  {
    hide ParseMagic, ParseBlocks, ToNat;
  }

  lemma StreamLevel(bits: seq<bool>, table: Tables, q: nat, v: nat)
    requires ParseMagic(bits, 0, STREAM_MAGIC) == Got((), q) && q + 8 <= |bits| && v == ToNat(bits[q..q + 8])
    ensures v < 0x31 || v > 0x39 ==> ParseStream(bits, table) == NotBzip2([])
    ensures 0x31 <= v <= 0x39 ==> ParseStream(bits, table) == ParseBlocks(bits, q + 8, v - 0x30, table, 0, [])
  {
    hide ParseMagic, ParseBlocks, ToNat;
  }

  lemma BlockFirst(bits: seq<bool>, pos: nat, level: nat, table: Tables, c: bv32, out: seq<byte>)
    ensures pos + 8 > |bits| ==> ParseBlocks(bits, pos, level, table, c, out) == MoreInput(out)
    ensures pos + 8 <= |bits| && ToNat(bits[pos..pos + 8]) == 0x17 ==>
      ParseBlocks(bits, pos, level, table, c, out) == ParseEnd(bits, pos + 8, c, out)
    ensures pos + 8 <= |bits| && ToNat(bits[pos..pos + 8]) != 0x17 && ToNat(bits[pos..pos + 8]) != 0x31 ==>
      ParseBlocks(bits, pos, level, table, c, out) == Corrupt(out)
  {
    hide ParseHead, ParseWalk, ParseEnd, ToNat, Undo, BlockGood;
  }

  lemma TrailerRead(bits: seq<bool>, pos: nat, c: bv32, out: seq<byte>, st: Status, q: nat)
    requires Agrees(st, (), q, ParseMagic(bits, pos, END_MAGIC[1..]))
    ensures st != OK ==> ParseEnd(bits, pos, c, out) == Failure(st, out)
    ensures st == OK && q + 32 > |bits| ==> ParseEnd(bits, pos, c, out) == MoreInput(out)
    ensures st == OK && q + 32 <= |bits| ==>
      ParseEnd(bits, pos, c, out) == if ToNat(bits[q..q + 32]) == c as int then Whole(out) else Corrupt(out)
  {
    hide ParseMagic, ToNat;
  }

  ghost predicate AtHead(bits: seq<bool>, pos: nat) {
    pos + 8 <= |bits| && ToNat(bits[pos..pos + 8]) == 0x31
  }

  lemma HeadRead(bits: seq<bool>, pos: nat, level: nat, table: Tables, c: bv32, out: seq<byte>, st: Status, head: (nat, nat), q: nat)
    requires AtHead(bits, pos) && Agrees(st, head, q, ParseHead(bits, pos + 8))
    ensures st != OK ==> ParseBlocks(bits, pos, level, table, c, out) == Failure(st, out)
    ensures st == OK ==> ParseHead(bits, pos + 8) == Got(head, q)
  {
    hide ParseHead, ParseWalk, ParseEnd, ToNat, Undo, BlockGood;
  }

  lemma AtHeadIs(bits: seq<bool>, pos: nat)
    requires pos + 8 <= |bits| && ToNat(bits[pos..pos + 8]) == 0x31
    ensures AtHead(bits, pos)
  {
  }

  lemma FailureIs(st: Status, out: seq<byte>)
    ensures Failure(st, out) == if st == NEED_INPUT then MoreInput(out) else Corrupt(out)
  {
  }

  /** What a block's end leads to. */
  ghost function Resume(bits: seq<bool>, pos: nat, level: nat, table: Tables, c: bv32, base: seq<byte>, raw: seq<byte>, sound: bool, stored: nat): Outcome {
    if sound && BlockCrc(table, raw) as int == stored
    then ParseBlocks(bits, pos, level, table, Combine(c, BlockCrc(table, raw)), base + raw)
    else Corrupt(base + raw)
  }

  lemma BlockRead(bits: seq<bool>, pos: nat, level: nat, table: Tables, c: bv32, out: seq<byte>, stored: nat, rand: nat, q: nat, st: Status, walk: seq<byte>, e: nat)
    requires AtHead(bits, pos) && ParseHead(bits, pos + 8) == Got((stored, rand), q) && BlockIs(st, walk, e, ParseWalk(bits, q, level))
    ensures st == NEED_INPUT ==> ParseBlocks(bits, pos, level, table, c, out) == MoreInput(out)
    ensures st == DATA_ERROR ==> Reports(BZ_DATA_ERROR, ParseBlocks(bits, pos, level, table, c, out), out)
    ensures st == OVERRUN ==> ParseBlocks(bits, pos, level, table, c, out) == SelectorOverrun(out)
    ensures st == OK ==> |walk| >= 3 && |Seen(table.rand, rand != 0, walk)| == |walk|
    ensures st == OK ==>
      ParseBlocks(bits, pos, level, table, c, out) ==
      Resume(bits, e, level, table, c, out, Undo(Seen(table.rand, rand != 0, walk)).0, Undo(Seen(table.rand, rand != 0, walk)).1, stored)
    ensures st == OK ==> pos + 8 < q <= e
  {
    BlockAhead(bits, q, level);
    hide ParseHead, ParseWalk, ParseEnd, ToNat, Undo, BlockCrc, Combine, Seen;
  }

  /** What comes out in all begins with what is out already. */
  lemma {:induction false} OutGrows(bits: seq<bool>, pos: nat, level: nat, table: Tables, c: bv32, out: seq<byte>)
    ensures out <= ParseBlocks(bits, pos, level, table, c, out).out
    decreases |bits| - pos
  {
    hide ParseHead, ParseWalk, ToNat, Undo, BlockCrc, Combine, Seen;
    if AtHead(bits, pos) {
      var h := ParseHead(bits, pos + 8);
      if h.Got? {
        var p := ParseWalk(bits, h.pos, level);
        BlockAhead(bits, h.pos, level);
        if p.Got? {
          var seen := Seen(table.rand, h.value.1 != 0, p.value);
          OutGrows(bits, p.pos, level, table, Combine(c, BlockCrc(table, Undo(seen).0)), out + Undo(seen).0);
        }
      }
    }
  }

  // ---------- the decompressor ----------

  lemma FastStarts(s: Fast, l: seq<byte>, walk: seq<byte>)
    requires FastReady(s, l, walk)
    ensures |l| > 0 && FastAt(s, l, walk, 0)
  {
    hide Links, Fast.Linked;
    assert walk[0..] == walk;
  }

  lemma SmallStarts(s: Small, cftab: array<int>, l: seq<byte>, walk: seq<byte>)
    requires SmallReady(s, cftab, l, walk)
    ensures |l| > 0 && SmallAt(s, cftab, l, walk, 0)
  {
    hide Links, Small.Linked, Start;
    assert walk[0..] == walk;
  }

  lemma UndoIs(walk: seq<byte>, n: nat)
    requires |walk| == n + 2
    ensures Undo(walk) == Expand(walk, n, 0)
  {
  }

  class Decompressor {
    const table: Tables
    const small: bool
    const r: BitReader
    const d: RunDecoder
    const cftab: array<int>
    var phase: Phase
    var blockSize100k: nat
    var fast: Fast
    var slow: Small
    var storedBlockCRC: nat
    var calculatedCombinedCRC: bv32
    ghost var l: seq<byte>     // the last column of the current block
    ghost var walk: seq<byte>  // what the inverse yields for it
    ghost var all: seq<byte>   // the bytes of the current block, unmasked, and two more
    ghost var base: seq<byte>  // the output before the current block

    ghost function Meaning(): Outcome
    {
      ParseStream(r.All(), table)
    }

    ghost predicate Sized()
      reads this`blockSize100k, this`fast, this`slow, slow.ll4
    {
      && 1 <= blockSize100k <= 9 && cftab.Length == 257
      && if small then slow.Allocated() && slow.blockSize100k == blockSize100k && cftab != slow.ll16 && cftab != slow.ll4
         else fast.blockSize100k == blockSize100k && fast.tt.Length == 100000 * blockSize100k
    }

    ghost predicate Source()
      reads this, d, fast, fast.tt, slow, slow.ll16, slow.ll4, cftab
    {
      SourceAt(small, fast, slow, cftab, l, walk, d.nblock_used) && all == Seen(table.rand, d.blockRandomised, walk)
    }

    /** Between blocks: what the rest of the input means from here is what the whole input means. */
    ghost predicate AtBlock()
      requires r.Valid()
      reads this, r, d
    {
      ParseBlocks(r.All(), r.Pos(), blockSize100k, table, calculatedCombinedCRC, d.out) == Meaning()
    }

    /** Inside a block: the same once the block is out. */
    ghost predicate InBlock()
      requires r.Valid()
      reads this, r, d
    {
      && d.Inside(all) && d.out == base + d.done
      && Resume(r.All(), r.Pos(), blockSize100k, table, calculatedCombinedCRC, base, d.Total(all), d.Sound(all), storedBlockCRC) == Meaning()
    }

    ghost predicate Valid()
      reads this, r, d, fast, fast.tt, slow, slow.ll16, slow.ll4, cftab
    {
      && r.Valid() && d.table == table && cftab.Length == 257
      && match phase
         case Magic => r.Pos() == 0 && d.out == [] && calculatedCombinedCRC == 0
         case BlockHeader => Sized() && AtBlock()
         case Output => Sized() && Source() && InBlock()
         case Idle => Meaning() == Whole(d.out)
    }

    /** BZ2_bzDecompressInit, over the whole compressed input. */
    constructor (input: seq<byte>, small: bool, table: Tables)
      ensures Valid() && phase == Magic && d.out == [] && r.All() == ByteBits(input) && this.table == table && this.small == small
      ensures fresh(r) && fresh(d) && fresh(fast) && fresh(fast.tt) && fresh(slow) && fresh(slow.ll16) && fresh(slow.ll4) && fresh(cftab)
    {
      hide ByteBits;
      this.table, this.small := table, small;
      var rd := new BitReader(input);
      var dec := new RunDecoder(table);
      var f := new Fast(0);
      var s := new Small(0);
      r, d, fast, slow := rd, dec, f, s;
      cftab := new int[257];
      phase, blockSize100k, storedBlockCRC, calculatedCombinedCRC := Magic, 0, 0, 0;
      l, walk, all, base := [], [], [], [];
    }

    /** The stream header. */
    method ReadHeader() returns (code: Code)
      requires Valid() && phase == Magic
      modifies this, r
      ensures code == BZ_OK ==> Valid() && phase == BlockHeader
      ensures code != BZ_OK ==> code in {BZ_NEED_INPUT, BZ_DATA_ERROR_MAGIC} && Reports(code, Meaning(), d.out)
      ensures code != BZ_OK ==> fast == old(fast) && slow == old(slow)
      ensures code == BZ_OK ==> fresh(fast) && fresh(fast.tt) && fresh(slow) && fresh(slow.ll16) && fresh(slow.ll4)
    {
      hide *;
      HeaderState();
      ghost var bits := r.All();
      var st := GetMagic(r, STREAM_MAGIC);
      ghost var q := r.Pos();
      StreamStart(bits, table, st, q);
      MeaningIs();
      if st != OK {
        code := if st == NEED_INPUT then BZ_NEED_INPUT else BZ_DATA_ERROR_MAGIC;
        ReportIs(Meaning(), d.out);
        return;
      }
      var ok, v := r.Get(8);
      ReportIs(Meaning(), d.out);
      if !ok { return BZ_NEED_INPUT; }
      StreamLevel(bits, table, q, v);
      if v < 0x31 || v > 0x39 { return BZ_DATA_ERROR_MAGIC; }
      phase := BlockHeader;
      Allocate(v - 0x30);
      AtBlockStart();
      code := BZ_OK;
    }

    lemma HeaderState()
      requires Valid() && phase == Magic
      ensures r.Valid() && r.Pos() == 0 && d.table == table && d.out == [] && calculatedCombinedCRC == 0 && cftab.Length == 257
    {
      hide BitReader.Valid, BitReader.Pos, BitReader.All, Sized, Source, InBlock, AtBlock;
    }

    lemma MeaningIs()
      ensures Meaning() == ParseStream(r.All(), table)
    {
      hide ParseStream, BitReader.All;
    }

    lemma AtBlockStart()
      requires r.Valid() && d.table == table && cftab.Length == 257 && Sized() && phase == BlockHeader
      requires ParseStream(r.All(), table) == ParseBlocks(r.All(), r.Pos(), blockSize100k, table, calculatedCombinedCRC, d.out)
      ensures Valid()
    {
      hide BitReader.Valid, BitReader.Pos, BitReader.All, ParseStream, ParseBlocks, Sized, Source, InBlock;
    }

    /** Room for one block, for the inverse in use. */
    method Allocate(level: nat)
      requires 1 <= level <= 9 && cftab.Length == 257
      modifies this`blockSize100k, this`fast, this`slow
      ensures Sized() && blockSize100k == level
      ensures fresh(fast) && fresh(fast.tt) && fresh(slow) && fresh(slow.ll16) && fresh(slow.ll4)
    {
      hide Small.Allocated;
      blockSize100k := level;
      fast := new Fast(if small then 0 else level);
      slow := new Small(if small then level else 0);
    }

    /** The trailer. */
    method ReadTrailer() returns (code: Code)
      requires r.Valid() && d.table == table && cftab.Length == 257 && Meaning() == ParseEnd(r.All(), r.Pos(), calculatedCombinedCRC, d.out)
      modifies this`phase, r
      ensures code in {BZ_STREAM_END, BZ_NEED_INPUT, BZ_DATA_ERROR} && Reports(code, Meaning(), d.out)
      ensures code == BZ_STREAM_END ==> Valid() && phase == Idle && Meaning() == Whole(d.out)
    {
      hide ParseStream, ParseEnd, ToNat, BitReader.Valid, BitReader.Pos, BitReader.All, Small.Allocated;
      ghost var bits, p := r.All(), r.Pos();
      Magics();
      var st := GetMagic(r, END_MAGIC[1..]);
      TrailerRead(bits, p, calculatedCombinedCRC, d.out, st, r.Pos());
      if st != OK { return if st == NEED_INPUT then BZ_NEED_INPUT else BZ_DATA_ERROR; }
      var ok, stored := GetWord(r);
      if !ok { return BZ_NEED_INPUT; }
      if calculatedCombinedCRC as int != stored { return BZ_DATA_ERROR; }
      phase := Idle;
      code := BZ_STREAM_END;
    }

    lemma BlockState()
      requires Valid() && phase == BlockHeader
      ensures r.Valid() && d.table == table && cftab.Length == 257 && Sized()
      ensures Meaning() == ParseBlocks(r.All(), r.Pos(), blockSize100k, table, calculatedCombinedCRC, d.out)
    {
      hide BitReader.Valid, BitReader.Pos, BitReader.All, Sized, Source, InBlock, ParseStream, ParseBlocks;
    }

    /** The block itself, and its first byte. */
    method LoadBytes(randomised: bool)
      returns (st: Status, nblock: nat, first: byte, mask: Mask, ghost l: seq<byte>, ghost walk: seq<byte>)
      requires r.Valid() && Sized()
      modifies r, fast, fast.tt, slow, slow.ll16, slow.ll4, cftab
      ensures r.Valid() && Sized() && BlockIs(st, walk, r.Pos(), ParseWalk(r.All(), old(r.Pos()), blockSize100k))
      ensures st == OK ==> nblock == |walk| - 2 > 0 && first == Seen(table.rand, randomised, walk)[0]
      ensures st == OK ==> SourceAt(small, fast, slow, cftab, l, walk, 1) && MaskIs(table.rand, randomised, mask, 1)
    {
      hide BitReader.Valid, BitReader.Pos, BitReader.All, ParseWalk, BlockIs, FastReady, SmallReady, FastAt, SmallAt, Small.Allocated, Seen;
      first, mask := 0, Started();
      if small {
        st, nblock, l, walk := LoadSmall(r, slow, cftab);
        if st != OK { return; }
        SmallStarts(slow, cftab, l, walk);
      } else {
        st, nblock, l, walk := LoadFast(r, fast);
        if st != OK { return; }
        FastStarts(fast, l, walk);
      }
      var ok;
      ok, first, mask := Next(small, fast, slow, cftab, table.rand, randomised, mask, l, walk, 0);
    }

    /** From a block's header to its bytes. */
    method LoadBlock(stored: nat, rand: nat, ghost p: nat, ghost q: nat) returns (code: Code)
      requires r.Valid() && r.Pos() == q && d.table == table && cftab.Length == 257 && Sized() && AtHead(r.All(), p)
      requires ParseHead(r.All(), p + 8) == Got((stored, rand), q)
      requires Meaning() == ParseBlocks(r.All(), p, blockSize100k, table, calculatedCombinedCRC, d.out)
      modifies this`phase, this`storedBlockCRC, this`l, this`walk, this`all, this`base, r, fast, fast.tt, slow, slow.ll16, slow.ll4, cftab, d
      ensures d.out == old(d.out)
      ensures code == BZ_OK ==> Valid() && phase == Output && r.Pos() > p
      ensures code != BZ_OK ==> code in {BZ_NEED_INPUT, BZ_DATA_ERROR, BZ_SELECTOR_OVERRUN} && Reports(code, Meaning(), d.out)
    {
      hide *;
      ghost var bits := r.All();
      var st, nblock, first, mask;
      ghost var l1, walk1;
      st, nblock, first, mask, l1, walk1 := LoadBytes(rand != 0);
      BlockRead(bits, p, blockSize100k, table, calculatedCombinedCRC, d.out, stored, rand, q, st, walk1, r.Pos());
      ReportIs(Meaning(), d.out);
      if st != OK { return if st == NEED_INPUT then BZ_NEED_INPUT else if st == OVERRUN then BZ_SELECTOR_OVERRUN else BZ_DATA_ERROR; }
      ghost var all1 := Seen(table.rand, rand != 0, walk1);
      UndoIs(all1, nblock);
      Enter(stored, nblock, first, rand != 0, mask, l1, walk1, all1);
      code := BZ_OK;
    }

    method Enter(stored: nat, nblock: nat, first: byte, randomised: bool, mask: Mask, ghost l: seq<byte>, ghost walk: seq<byte>, ghost all: seq<byte>)
      requires r.Valid() && d.table == table && cftab.Length == 257 && Sized() && nblock == |all| - 2 > 0 && first == all[0]
      requires SourceAt(small, fast, slow, cftab, l, walk, 1) && all == Seen(table.rand, randomised, walk) && MaskIs(table.rand, randomised, mask, 1)
      requires Meaning() == Resume(r.All(), r.Pos(), blockSize100k, table, calculatedCombinedCRC, d.out, Expand(all, nblock, 0).0, Expand(all, nblock, 0).1, stored)
      modifies this`phase, this`storedBlockCRC, this`l, this`walk, this`all, this`base, d
      ensures Valid() && phase == Output && d.out == old(d.out)
    {
      hide *;
      d.Begin(nblock, first, randomised, mask, all);
      storedBlockCRC, base, phase := stored, d.out, Output;
      this.l, this.walk, this.all := l, walk, all;
      Entered();
    }

    lemma Entered()
      requires r.Valid() && d.table == table && cftab.Length == 257 && Sized() && phase == Output && d.Inside(all) && d.done == [] && base == d.out
      requires d.nblock_used == 1 && SourceAt(small, fast, slow, cftab, l, walk, 1) && all == Seen(table.rand, d.blockRandomised, walk)
      requires Meaning() == Resume(r.All(), r.Pos(), blockSize100k, table, calculatedCombinedCRC, base, d.Total(all), d.Sound(all), storedBlockCRC)
      ensures Valid()
    {
      hide BitReader.Valid, BitReader.Pos, BitReader.All, ParseStream, Resume, SourceAt, Seen, Sized, AtBlock, Meaning;
      hide RunDecoder.Inside, RunDecoder.Total, RunDecoder.Sound;
      assert base + [] == base;
    }

    /** The next block, up to the point where its bytes can be delivered; or the trailer. */
    method ReadBlock() returns (code: Code)
      requires Valid() && phase == BlockHeader
      modifies this`phase, this`storedBlockCRC, this`l, this`walk, this`all, this`base, r, fast, fast.tt, slow, slow.ll16, slow.ll4, cftab, d
      ensures |d.out| == old(|d.out|) && d.out == old(d.out)
      ensures code == BZ_OK ==> Valid() && phase == Output && r.Pos() > old(r.Pos())
      ensures code == BZ_STREAM_END ==> Valid() && phase == Idle && Meaning() == Whole(d.out)
      ensures code !in {BZ_OK, BZ_STREAM_END} ==> code in {BZ_NEED_INPUT, BZ_DATA_ERROR, BZ_SELECTOR_OVERRUN} && Reports(code, Meaning(), d.out)
    {
      hide *;
      BlockState();
      ghost var bits, p := r.All(), r.Pos();
      BlockFirst(bits, p, blockSize100k, table, calculatedCombinedCRC, d.out);
      ReportIs(Meaning(), d.out);
      var ok, uc := r.Get(8);
      if !ok { return BZ_NEED_INPUT; }
      if uc == 0x17 {
        code := ReadTrailer();
        return;
      }
      if uc != 0x31 { return BZ_DATA_ERROR; }
      AtHeadIs(bits, p);
      var st, stored, rand := GetHead(r);
      ghost var q := r.Pos();
      HeadRead(bits, p, blockSize100k, table, calculatedCombinedCRC, d.out, st, (stored, rand), q);
      FailureIs(st, d.out);
      if st != OK { return if st == NEED_INPUT then BZ_NEED_INPUT else BZ_DATA_ERROR; }
      code := LoadBlock(stored, rand, p, q);
    }

    /** The last byte of the block is out. */
    predicate AllOut()
      reads d
    {
      d.nblock_used == d.save_nblock + 1 && d.state_out_len == 0
    }

    lemma AllOutIs()
      requires AllOut()
      ensures d.nblock_used == d.save_nblock + 1 && d.state_out_len == 0
    {
    }

    /** Either form of undoing the runs. */
    method Drain(avail: nat) returns (corrupt: bool, left: nat)
      requires d.table == table && d.Inside(all) && Source() && d.out == base + d.done
      modifies d, fast`tPos, slow`tPos
      ensures |d.out| + left == |old(d.out)| + avail && old(d.out) <= d.out && d.out == base + d.done
      ensures corrupt ==> !old(d.Sound(all)) && d.done == old(d.Total(all))
      ensures !corrupt ==> d.Inside(all) && Source() && d.Total(all) == old(d.Total(all)) && d.Sound(all) == old(d.Sound(all))
      ensures !corrupt ==> left == 0 || AllOut()
    {
      hide FastAt, SmallAt, RunDecoder.Inside, RunDecoder.Total, RunDecoder.Sound, Grown, Seen;
      if small {
        corrupt, left := d.UnRleSmall(fast, slow, cftab, avail, l, walk, all);
      } else {
        corrupt, left := d.UnRleFast(fast, slow, cftab, avail, l, walk, all);
      }
      GrownBase(old(d.out), old(d.done), d.out, d.done, base);
    }

    /** The bytes of a block, as many as there is room for; at its end the checksum. */
    method WriteBlock(avail: nat) returns (code: Code, left: nat)
      requires Valid() && phase == Output
      modifies this`phase, this`calculatedCombinedCRC, d, fast`tPos, slow`tPos
      ensures |d.out| + left == |old(d.out)| + avail && old(d.out) <= d.out
      ensures code == BZ_OK ==> Valid() && (phase == BlockHeader || (phase == Output && left == 0 && !AllOut()))
      ensures code != BZ_OK ==> code == BZ_DATA_ERROR && Reports(code, Meaning(), d.out)
    {
      hide *;
      OutputState();
      ghost var total, sound := d.Total(all), d.Sound(all);
      var corrupt;
      corrupt, left := Drain(avail);
      ReportIs(Meaning(), d.out);
      ResumeParts(r.All(), r.Pos(), blockSize100k, table, calculatedCombinedCRC, base, total, sound, storedBlockCRC);
      if corrupt { return BZ_DATA_ERROR, left; }
      if AllOut() {
        code := FinishBlock();
      } else {
        StillInBlock();
        code := BZ_OK;
      }
    }

    /** The end of a block: its checksum, and the combined one. */
    method FinishBlock() returns (code: Code)
      requires r.Valid() && d.table == table && cftab.Length == 257 && Sized() && d.Inside(all) && d.out == base + d.done
      requires AllOut()
      requires Meaning() == Resume(r.All(), r.Pos(), blockSize100k, table, calculatedCombinedCRC, base, d.Total(all), d.Sound(all), storedBlockCRC)
      modifies this`phase, this`calculatedCombinedCRC
      ensures code == BZ_OK ==> Valid() && phase == BlockHeader
      ensures code != BZ_OK ==> code == BZ_DATA_ERROR && Reports(code, Meaning(), d.out)
    {
      hide *;
      AllOutIs();
      d.BlockDone(all);
      ReportIs(Meaning(), d.out);
      MeaningIs();
      ResumeParts(r.All(), r.Pos(), blockSize100k, table, calculatedCombinedCRC, base, d.done, true, storedBlockCRC);
      var crc := !d.calculatedBlockCRC;
      if crc as int != storedBlockCRC { return BZ_DATA_ERROR; }
      calculatedCombinedCRC := Combine(calculatedCombinedCRC, crc);
      phase := BlockHeader;
      AtBlockStart();
      code := BZ_OK;
    }

    lemma ReaderValid()
      requires Valid()
      ensures r.Valid()
    {
      hide BitReader.Valid, BitReader.Pos, BitReader.All, ParseStream, Resume, Source, Sized, AtBlock, InBlock, Meaning;
    }

    lemma OutputState()
      requires Valid() && phase == Output
      ensures r.Valid() && d.table == table && cftab.Length == 257 && Sized() && Source() && d.Inside(all) && d.out == base + d.done
      ensures Meaning() == Resume(r.All(), r.Pos(), blockSize100k, table, calculatedCombinedCRC, base, d.Total(all), d.Sound(all), storedBlockCRC)
    {
      hide BitReader.Valid, BitReader.Pos, BitReader.All, ParseStream, Resume, Source, Sized, AtBlock, Meaning;
      hide RunDecoder.Inside, RunDecoder.Total, RunDecoder.Sound;
    }

    lemma StillInBlock()
      requires r.Valid() && d.table == table && cftab.Length == 257 && Sized() && Source() && d.Inside(all) && d.out == base + d.done && phase == Output
      requires Meaning() == Resume(r.All(), r.Pos(), blockSize100k, table, calculatedCombinedCRC, base, d.Total(all), d.Sound(all), storedBlockCRC)
      ensures Valid()
    {
      hide BitReader.Valid, BitReader.Pos, BitReader.All, ParseStream, Resume, Source, Sized, AtBlock, Meaning;
      hide RunDecoder.Inside, RunDecoder.Total, RunDecoder.Sound;
    }

    /** What is out so far is only the beginning of what will have come out, but for one case: a block that
        ends inside a run, all of which is out, but not yet noticed. */
    lemma OutSoFar()
      requires Valid() && phase == Output && !AllOut()
      ensures d.out < Meaning().out || Meaning() == Corrupt(d.out)
    {
      hide *;
      OutputState();
      var raw := d.Total(all);
      StillOut();
      ResumeParts(r.All(), r.Pos(), blockSize100k, table, calculatedCombinedCRC, base, raw, d.Sound(all), storedBlockCRC);
      OutGrows(r.All(), r.Pos(), blockSize100k, table, Combine(calculatedCombinedCRC, BlockCrc(table, raw)), base + raw);
    }

    lemma StillOut()
      requires d.Inside(all) && d.out == base + d.done && !AllOut()
      ensures d.out < base + d.Total(all) || (!d.Sound(all) && d.out == base + d.Total(all))
    {
      hide Checksum, Repeat, Expand;
      ghost var rest := Rest(all, d.save_nblock, d.state_out_len, d.state_out_ch, d.nblock_used);
      assert base + d.Total(all) == base + d.done + rest;
      RestMore(all, d.save_nblock, d.state_out_len, d.state_out_ch, d.nblock_used);
    }

    /** Blocks and output in turn, until the output space, the stream or the input ends. */
    method Blocks(avail: nat) returns (code: Code, left: nat)
      requires Valid() && phase in {BlockHeader, Output}
      modifies this`phase, this`storedBlockCRC, this`calculatedCombinedCRC, this`l, this`walk, this`all, this`base
      modifies r, d, fast, fast.tt, slow, slow.ll16, slow.ll4, cftab
      ensures |d.out| + left == |old(d.out)| + avail && old(d.out) <= d.out
      ensures code == BZ_OK ==> Valid() && left == 0 && (d.out < Meaning().out || Meaning() == Corrupt(d.out))
      ensures code == BZ_STREAM_END ==> Valid() && phase == Idle && Meaning() == Whole(d.out)
      ensures Reports(code, Meaning(), d.out) && code != BZ_SEQUENCE_ERROR
    {
      hide *;
      ReportNone(Meaning());
      ReaderValid();
      left := avail;
      while true
        invariant Valid() && r.Valid() && phase in {BlockHeader, Output}
        invariant |d.out| + left == |old(d.out)| + avail && old(d.out) <= d.out
        decreases |r.All()| - r.Pos()
      {
        if phase == Output {
          code, left := WriteBlock(left);
          if code != BZ_OK { return; }
          if phase == Output {
            OutSoFar();
            return;
          }
          ReaderValid();
        }
        code := ReadBlock();
        if code != BZ_OK { return; }
        ReaderValid();
      }
    }

    /** BZ2_bzDecompress, called again and again: whatever room each call is given, the bytes that come out
        are those the format assigns to the input, and the end is reported exactly when they are all out. */
    method Decompress(avail: nat) returns (code: Code, left: nat)
      requires Valid()
      modifies this, r, d, fast, fast.tt, slow, slow.ll16, slow.ll4, cftab
      ensures |d.out| + left == |old(d.out)| + avail && old(d.out) <= d.out
      ensures code == BZ_OK ==> Valid() && left == 0 && (d.out < Meaning().out || Meaning() == Corrupt(d.out))
      ensures code == BZ_STREAM_END ==> Valid() && phase == Idle && Meaning() == Whole(d.out)
      ensures Reports(code, Meaning(), d.out) && (code == BZ_SEQUENCE_ERROR <==> old(phase) == Idle)
      ensures fast == old(fast) || (fresh(fast) && fresh(fast.tt))
      ensures slow == old(slow) || (fresh(slow) && fresh(slow.ll16) && fresh(slow.ll4))
    {
      hide *;
      ReportNone(Meaning());
      left := avail;
      if phase == Idle { return BZ_SEQUENCE_ERROR, left; }
      if phase == Magic {
        HeaderState();
        code := ReadHeader();
        if code != BZ_OK { return; }
      }
      code, left := Blocks(left);
    }
  }

  lemma GrownBase(out0: seq<byte>, done0: seq<byte>, out: seq<byte>, done: seq<byte>, base: seq<byte>)
    requires Grown(out0, done0, out, done) && out0 == base + done0
    ensures out == base + done && out0 <= out
  {
    var x: seq<byte> :| out == out0 + x && done == done0 + x;
    assert base + (done0 + x) == base + done0 + x;
  }

  lemma ResumeParts(bits: seq<bool>, pos: nat, level: nat, table: Tables, c: bv32, base: seq<byte>, raw: seq<byte>, sound: bool, stored: nat)
    ensures !sound || BlockCrc(table, raw) as int != stored ==> Resume(bits, pos, level, table, c, base, raw, sound, stored) == Corrupt(base + raw)
    ensures sound && BlockCrc(table, raw) as int == stored ==>
      Resume(bits, pos, level, table, c, base, raw, sound, stored) == ParseBlocks(bits, pos, level, table, Combine(c, BlockCrc(table, raw)), base + raw)
  {
    hide ParseBlocks, BlockCrc, Combine;
  }

  lemma ReportNone(o: Outcome)
    ensures forall out: seq<byte> :: Reports(BZ_OK, o, out) && Reports(BZ_STREAM_END, o, out) && Reports(BZ_SEQUENCE_ERROR, o, out)
  {
  }
}

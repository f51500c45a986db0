/** BZ2_compressBlock and the streaming machine around it: input and output in chunks of any size,
    blocks ended by size, by a flush or by the end, and the one stream they all make up. */
module Compressor {
  import opened Powers
  import opened Rotations
  import opened Bits
  import opened BurrowsWheeler
  import opened MtfEncoder
  import opened BlockFormat
  import opened BitIO
  import opened RunLength
  import opened BlockSize
  import opened StreamFormat
  import opened StreamSize
  import opened InputRuns
  import opened MainCompare
  import opened PairBuckets
  import opened BigBucket
  import BlockSort
  import Sender

  // ---------- fixed fields ----------

  method PutBytes(w: BitWriter, m: seq<byte>)
    requires w.Valid()
    modifies w
    ensures w.Valid() && w.Bits() == old(w.Bits()) + ByteBits(m)
  {
    hide *;
    ghost var was := w.Bits();
    ByteBitsNone();
    for i := 0 to |m|
      invariant w.Valid() && w.Bits() == was + ByteBits(m[..i])
    {
      assert m[..i + 1] == m[..i] + [m[i]];
      ByteBitsAdd(m[..i], [m[i]]);
      OneByte(m[i]);
      Widths();
      w.Put(8, m[i]);
    }
    assert m[..|m|] == m;
  }

  lemma ByteBitsNone()
    ensures ByteBits([]) == []
  {
  }

  /** bsPutUInt32 */
  method PutWord(w: BitWriter, crc: bv32)
    requires w.Valid()
    modifies w
    ensures w.Valid() && w.Bits() == old(w.Bits()) + BitsOf(crc as int, 32)
  {
    hide *;
    ghost var was := w.Bits();
    var u := crc as int;
    Widths();
    WordBytes(u);
    w.Put(8, u / 0x100_0000);
    w.Put(8, u / 0x1_0000 % 256);
    w.Put(8, u / 256 % 256);
    w.Put(8, u % 256);
  }

  lemma WordBytes(u: nat)
    requires u < 0x1_0000_0000
    ensures u / 0x100_0000 < 256
    ensures BitsOf(u, 32) == BitsOf(u / 0x100_0000, 8) + BitsOf(u / 0x1_0000 % 256, 8) + BitsOf(u / 256 % 256, 8) + BitsOf(u % 256, 8)
  {
    hide *;
    LastByteBits(u, 24);
    LastByteBits(u / 256, 16);
    LastByteBits(u / 0x1_0000, 8);
    assert u / 256 / 256 == u / 0x1_0000 && u / 0x1_0000 / 256 == u / 0x100_0000;
  }

  lemma LastByteBits(w: nat, n: nat)
    ensures BitsOf(w, n + 8) == BitsOf(w / 256, n) + BitsOf(w % 256, 8)
  {
    hide *;
    BitsSplit(w, n, 8);
    Shr8(w);
    BitsSame(w / 256, w % 256, 8);
    ShlIs(w / 256, 8);
    Widths();
  }

  // ---------- one block ----------

  /** The block in the order of its rotations, and where the original stands. */
  method SortBlock(block: seq<byte>, workFactor: int) returns (ptr: array<int>, origPtr: nat)
    requires 0 < |block| <= BLOCK_MAX
    ensures fresh(ptr) && ptr.Length == |block| && RotationSorted(block, ptr[..]) && origPtr < |block| && ptr[origPtr] == 0
  {
    hide *;
    var n := |block|;
    BlockSort.BlockLimit();
    ptr := new int[n];
    var blk := new int[n + N_OVERSHOOT](i requires 0 <= i < n + N_OVERSHOOT => if i < n then block[i] else 0);
    var quadrant, ftab := new int[n + N_OVERSHOOT], new int[PAIRS + 1];
    MakeHolds(blk[..], block);
    origPtr := BlockSort.BlockSort(ptr, blk, quadrant, ftab, n, workFactor, block);
  }

  lemma MakeHolds(blk: seq<int>, b: seq<byte>)
    requires 0 < |b| <= |blk| && forall i :: 0 <= i < |b| ==> blk[i] == b[i]
    ensures Holds(blk, b)
  {
  }

  /** Every block sent is well formed, leaves ten bytes of its room unused and is coded as the sender does it. */
  ghost predicate AllOk(table: Tables, level: nat, ps: seq<Piece>) {
    forall i :: 0 <= i < |ps| ==> PieceOk(table, level, ps[i]) && |Flatten(ps[i].rs)| <= 100000 * level - 10 && SentPiece(table, ps[i])
  }

  /** What has been written so far, when anything has. */
  ghost function Sent(level: nat, ps: seq<Piece>): seq<bool>
    requires level <= 9
  {
    Header(level) + Words(ps)
  }

  /** The block's own bits. */
  method SendData(w: BitWriter, e: RunEncoder, workFactor: int, crc: bv32, ghost level: nat) returns (ghost p: Piece)
    requires w.Valid() && e.Valid() && 0 < |e.block| <= 100000 * level <= BLOCK_MAX && crc == BlockCrc(e.table, Unroll(e.runs))
    modifies w
    ensures w.Valid() && PieceOk(e.table, level, p) && SentPiece(e.table, p) && p.rs == e.runs && w.Bits() == old(w.Bits()) + p.word
  {
    hide *;
    ghost var was := w.Bits();
    var b := e.block;
    var ptr, origPtr := SortBlock(b, workFactor);
    PutBytes(w, BLOCK_MAGIC);
    PutWord(w, crc);
    Widths();
    w.Put(1, 0);
    var blk := new int[|b|](i requires 0 <= i < |b| => b[i]);
    assert blk[..] == b;
    EncoderUsed(e);
    ghost var mid := w.Bits();
    Sender.SendBlock(w, ptr, blk, e.inUse, origPtr, b);
    ghost var u :| SentAs(u, b) && w.Bits() == mid + u;
    BlockWordIs(crc, u);
    p := Piece(e.runs, BlockWord(crc, u));
    MakePiece(e.table, level, p, b, crc, u);
    assert was + ByteBits(BLOCK_MAGIC) + BitsOf(crc as int, 32) + BitsOf(0, 1) + u
        == was + (ByteBits(BLOCK_MAGIC) + (BitsOf(crc as int, 32) + (BitsOf(0, 1) + u)));
  }

  lemma EncoderUsed(e: RunEncoder)
    requires e.Valid()
    ensures AllUsed(e.block, e.inUse[..]) && Runs(e.runs) && e.block == Flatten(e.runs)
    ensures !e.blockCRC == BlockCrc(e.table, Unroll(e.runs)) && (e.block == [] ==> e.runs == [])
  {
    hide Flatten, Unroll, Checksum;
    NoBytes(e.runs);
  }

  lemma NoBytes(rs: seq<Run>)
    ensures Flatten(rs) == [] ==> rs == []
  {
  }

  lemma MakePiece(table: Tables, level: nat, p: Piece, b: seq<byte>, crc: bv32, u: seq<bool>)
    requires Runs(p.rs) && b == Flatten(p.rs) && 0 < |b| <= 100000 * level && crc == BlockCrc(table, Unroll(p.rs))
    requires SentAs(u, b) && p.word == BlockWord(crc, u)
    ensures PieceOk(table, level, p) && SentPiece(table, p)
  {
    hide Encodes, SentAs, Flatten, Unroll, BlockCrc, BlockWord, Runs;
    SentSize(u, b);
  }

  /** One more block of these bytes, if there are any. */
  ghost predicate Grown(ps: seq<Piece>, ps': seq<Piece>, b: seq<byte>) {
    if b == [] then ps' == ps else |ps'| == |ps| + 1 && ps'[..|ps|] == ps && Flatten(ps'[|ps|].rs) == b
  }

  lemma GrownOne(ps: seq<Piece>, p: Piece, b: seq<byte>)
    requires b != [] && Flatten(p.rs) == b
    ensures Grown(ps, ps + [p], b)
  {
    hide Flatten;
  }

  lemma GrownNone(ps: seq<Piece>)
    ensures Grown(ps, ps, [])
  {
  }

  /** The stream header, before the first block. */
  method PutHeader(w: BitWriter, level: nat, first: bool, ghost ps: seq<Piece>)
    requires w.Valid() && 1 <= level <= 9 && (if first then ps == [] && w.Bits() == [] else w.Bits() == Sent(level, ps))
    modifies w
    ensures w.Valid() && w.Bits() == Sent(level, ps) && old(w.Bits()) <= w.Bits()
  {
    hide *;
    if first {
      PutBytes(w, STREAM_MAGIC);
      Widths();
      w.Put(8, 0x30 + level);
      SentFirst(level, ps);
    }
  }

  /** The block, if it holds anything. */
  method PutBlock(w: BitWriter, e: RunEncoder, level: nat, workFactor: int, crc: bv32, ghost ps: seq<Piece>) returns (ghost ps': seq<Piece>)
    requires w.Valid() && e.Valid() && 1 <= level <= 9 && |e.block| <= 100000 * level - 10 && AllOk(e.table, level, ps)
    requires crc == BlockCrc(e.table, Unroll(e.runs)) && w.Bits() == Sent(level, ps)
    modifies w
    ensures w.Valid() && w.Bits() == Sent(level, ps') && old(w.Bits()) <= w.Bits()
    ensures AllOk(e.table, level, ps') && Raws(ps') == Raws(ps) + Unroll(e.runs) && Grown(ps, ps', e.block)
    ensures Combined(e.table, 0, ps') == if e.block == [] then Combined(e.table, 0, ps) else Combine(Combined(e.table, 0, ps), crc)
  {
    hide *;
    BlockSort.BlockLimit();
    EncoderUsed(e);
    ps' := ps;
    if |e.block| > 0 {
      ghost var p := SendData(w, e, workFactor, crc, level);
      PieceAdd(e.table, 0, ps, p);
      ps' := ps + [p];
      SentMore(e.table, level, ps, p);
      GrownOne(ps, p, e.block);
    } else {
      NothingMore(ps, e.runs);
      GrownNone(ps);
    }
  }

  /** The trailer, and the last byte filled up. */
  method PutTrailer(w: BitWriter, combined: bv32, level: nat, ghost table: Tables, ghost ps: seq<Piece>)
    requires w.Valid() && level <= 9 && w.Bits() == Sent(level, ps) && combined == Combined(table, 0, ps)
    modifies w
    ensures Padded(StreamBits(table, level, ps), ByteBits(w.zbits)) && old(w.Bits()) <= ByteBits(w.zbits)
    ensures |old(w.Bits())| + 80 <= 8 * |w.zbits|
  {
    hide *;
    ghost var was := w.Bits();
    PutBytes(w, END_MAGIC);
    PutWord(w, combined);
    ghost var all := w.Bits();
    StreamParts(table, level, ps, all);
    w.Finish();
    Magics();
    PaddedPrefix(was, all, ByteBits(w.zbits));
  }

  /** All but the trailer. */
  method PutBody(w: BitWriter, e: RunEncoder, level: nat, workFactor: int, crc: bv32, first: bool, ghost ps: seq<Piece>) returns (ghost ps': seq<Piece>)
    requires w.Valid() && e.Valid() && 1 <= level <= 9 && |e.block| <= 100000 * level - 10 && AllOk(e.table, level, ps)
    requires crc == BlockCrc(e.table, Unroll(e.runs)) && (if first then ps == [] && w.Bits() == [] else w.Bits() == Sent(level, ps))
    modifies w
    ensures w.Valid() && w.Bits() == Sent(level, ps') && old(w.Bits()) <= w.Bits()
    ensures AllOk(e.table, level, ps') && Raws(ps') == Raws(ps) + Unroll(e.runs) && Grown(ps, ps', e.block)
    ensures Combined(e.table, 0, ps') == if e.block == [] then Combined(e.table, 0, ps) else Combine(Combined(e.table, 0, ps), crc)
  {
    hide *;
    ghost var u := w.Bits();
    PutHeader(w, level, first, ps);
    ghost var v := w.Bits();
    ps' := PutBlock(w, e, level, workFactor, crc, ps);
    Longer(u, v, w.Bits());
  }

  /** BZ2_compressBlock */
  method CompressBlock(w: BitWriter, e: RunEncoder, level: nat, workFactor: int, combined: bv32, first: bool, last: bool, ghost ps: seq<Piece>)
    returns (combined': bv32, ghost ps': seq<Piece>)
    requires w.Valid() && e.Valid() && 1 <= level <= 9 && |e.block| <= 100000 * level - 10 && AllOk(e.table, level, ps)
    requires combined == Combined(e.table, 0, ps) && (if first then ps == [] && w.Bits() == [] else w.Bits() == Sent(level, ps))
    modifies w
    ensures AllOk(e.table, level, ps') && combined' == Combined(e.table, 0, ps') && Raws(ps') == Raws(ps) + Unroll(e.runs)
    ensures Grown(ps, ps', e.block)
    ensures !last ==> w.Valid() && w.Bits() == Sent(level, ps') && old(w.Bits()) <= w.Bits()
    ensures last ==> Padded(StreamBits(e.table, level, ps'), ByteBits(w.zbits)) && old(w.Bits()) <= ByteBits(w.zbits)
    ensures last ==> |old(w.Bits())| + 80 <= 8 * |w.zbits|
  {
    hide *;
    ghost var u := w.Bits();
    combined' := combined;
    EncoderUsed(e);
    if |e.block| > 0 { combined' := Combine(combined, !e.blockCRC); }
    ps' := PutBody(w, e, level, workFactor, !e.blockCRC, first, ps);
    if last {
      ghost var v := w.Bits();
      PutTrailer(w, combined', level, e.table, ps');
      Longer(u, v, ByteBits(w.zbits));
    }
  }

  lemma Longer(u: seq<bool>, v: seq<bool>, x: seq<bool>)
    requires u <= v <= x
    ensures u <= x && |u| <= |v|
  {
  }

  lemma SentFirst(level: nat, ps: seq<Piece>)
    requires level <= 9 && ps == []
    ensures [] + ByteBits(STREAM_MAGIC) + BitsOf(0x30 + level, 8) == Sent(level, ps)
  {
    hide ByteBits, BitsOf;
  }

  lemma SentMore(table: Tables, level: nat, ps: seq<Piece>, p: Piece)
    requires level <= 9 && AllOk(table, level, ps) && PieceOk(table, level, p) && |Flatten(p.rs)| <= 100000 * level - 10 && SentPiece(table, p)
    ensures Sent(level, ps + [p]) == Sent(level, ps) + p.word && AllOk(table, level, ps + [p])
  {
    hide ByteBits, BitsOf, PieceOk, SentPiece, Header, Words, Flatten;
    PieceAdd(table, 0, ps, p);
    assert Header(level) + (Words(ps) + p.word) == Header(level) + Words(ps) + p.word;
  }

  lemma NothingMore(ps: seq<Piece>, rs: seq<Run>)
    requires rs == []
    ensures Raws(ps) + Unroll(rs) == Raws(ps)
  {
  }

  lemma StreamParts(table: Tables, level: nat, ps: seq<Piece>, all: seq<bool>)
    requires level <= 9 && all == Sent(level, ps) + ByteBits(END_MAGIC) + BitsOf(Combined(table, 0, ps) as int, 32)
    ensures all == StreamBits(table, level, ps)
  {
    hide ByteBits, BitsOf, Combined, Words, Header;
  }

  lemma PaddedPrefix(was: seq<bool>, all: seq<bool>, padded: seq<bool>)
    requires was <= all && Padded(all, padded)
    ensures was <= padded && |all| <= |padded|
  {
  }

  // ---------- the streaming machine ----------

  datatype SState = Input | Output
  datatype Mode = Idle | Running | Flushing | Finishing
  datatype Action = RUN | FLUSH | FINISH
  datatype Code = RUN_OK | FLUSH_OK | FINISH_OK | STREAM_END | SEQUENCE_ERROR | PARAM_ERROR

  /** The bytes handed out are the beginning of what has been written. */
  ghost predicate Handed(out: seq<byte>, bits: seq<bool>) {
    ByteBits(out) <= bits
  }

  class Compressor {
    const table: Tables
    const blockSize100k: nat
    const workFactor: int
    const e: RunEncoder
    const w: BitWriter
    var state: SState
    var mode: Mode
    var avail_in_expect: nat
    var blockNo: nat
    var combinedCRC: bv32
    var state_out_pos: nat
    var out: seq<byte>  // everything handed to the caller
    ghost var taken: seq<byte>  // everything taken from the caller
    ghost var pieces: seq<Piece>
    ghost var ended: bool
    ghost var flushed: bool  // whether a flush was ever asked for

    const nblockMAX: int := 100000 * blockSize100k - 19

    ghost predicate Settings() {
      1 <= blockSize100k <= 9 && e.table == table
    }

    ghost predicate Begun()
      reads this
    {
      blockNo > 1 || state == Output
    }

    /** What is on the wire. */
    ghost predicate Wired()
      requires Settings()
      reads this, w
    {
      && AllOk(table, blockSize100k, pieces) && combinedCRC == Combined(table, 0, pieces) && state_out_pos == |out|
      && if ended then Padded(StreamBits(table, blockSize100k, pieces), ByteBits(w.zbits)) && Handed(out, ByteBits(w.zbits))
         else w.Valid() && Handed(out, w.Bits()) && if Begun() then w.Bits() == Sent(blockSize100k, pieces) else pieces == [] && w.Bits() == []
    }

    /** Every byte taken in is in a block that was sent, in the block being filled or in the pending run. */
    ghost predicate Accounted()
      reads this, e, e.inUse
    {
      if state == Input then e.Open() && |e.block| <= nblockMAX + 4 && taken == Raws(pieces) + e.Content()
      else e.inUse.Length == 256 && e.Pending() && taken == Raws(pieces) + e.Held()
    }

    /** Without a flush only the last block is ended before it is full. */
    ghost predicate Steady()
      reads this`flushed, this`pieces, this`ended
    {
      !flushed ==> if ended then Filled(pieces, nblockMAX) else AllFilled(pieces, nblockMAX)
    }

    ghost predicate Inv()
      reads this, e, e.inUse, w
    {
      && Settings() && Wired() && Accounted() && Steady() && (mode == Flushing ==> flushed) && blockNo >= 1
      && (state == Input ==> state_out_pos >= |w.zbits|)
      && (state == Output && e.EmptyRL() && !ended ==> mode == Flushing && avail_in_expect == 0)
      && (mode == Idle ==> ended) && (ended ==> state == Output && mode in {Finishing, Idle} && avail_in_expect == 0 && e.EmptyRL())
    }

    /** Between calls: while the stream is being finished there is something still to hand out. */
    ghost predicate Valid()
      reads this, e, e.inUse, w
    {
      Inv() && (mode == Finishing && ended ==> state_out_pos < |w.zbits|)
    }

    /** A call the mode does not allow. */
    ghost predicate Misused(action: Action, n: nat)
      reads this
    {
      mode == Idle || (mode == Flushing && (action != FLUSH || avail_in_expect != n)) || (mode == Finishing && (action != FINISH || avail_in_expect != n))
    }

    /** BZ2_bzCompressInit */
    constructor (blockSize100k: nat, workFactor: int, table: Tables)
      requires 1 <= blockSize100k <= 9 && 0 <= workFactor <= 250
      ensures Valid() && fresh(e) && fresh(e.inUse) && fresh(w) && mode == Running && taken == [] && out == [] && state == Input && e.block == [] && !flushed
      ensures this.table == table && this.blockSize100k == blockSize100k
    {
      hide *;
      this.table, this.blockSize100k := table, blockSize100k;
      this.workFactor := if workFactor == 0 then 30 else workFactor;
      var enc := new RunEncoder(table);
      var wr := new BitWriter();
      e, w := enc, wr;
      state, mode, avail_in_expect, blockNo, combinedCRC, state_out_pos, out := Input, Running, 0, 1, 0, 0, [];
      taken, pieces, ended, flushed := [], [], false, false;
      new;
      Begin();
    }

    lemma Begin()
      requires 1 <= blockSize100k <= 9 && e.table == table && state == Input && mode == Running && blockNo == 1 && combinedCRC == 0
      requires state_out_pos == 0 && out == [] && taken == [] && pieces == [] && !ended && !flushed
      requires e.Open() && e.block == [] && e.Content() == [] && w.Valid() && w.Bits() == []
      ensures Valid()
    {
      hide RunEncoder.Open, RunEncoder.Content, BitWriter.Valid, BitWriter.Bits, PieceOk;
      ByteBitsNone();
      NoPieces(table, 0, pieces);
      NoBits(w);
    }

    /** copy_input_until_stop */
    method CopyInput(input: seq<byte>, i0: nat) returns (progress: bool, i: nat)
      requires Inv() && state == Input && i0 <= |input| && mode != Idle && (mode != Running ==> avail_in_expect == |input| - i0)
      modifies this`taken, this`avail_in_expect, e, e.inUse
      ensures Inv() && state == Input && i0 <= i <= |input| && taken == old(taken) + input[i0..i] && progress == (i > i0)
      ensures mode != Running ==> avail_in_expect == |input| - i
      ensures i == |input| || |e.block| >= nblockMAX
      ensures old(|e.block|) < nblockMAX && i0 < |input| ==> i > i0
      ensures i == i0 ==> e.EmptyRL() == old(e.EmptyRL()) && |e.block| == old(|e.block|)
    {
      hide AllOk, AllFilled, Filled, Combined, StreamBits, Sent, Padded, Handed, Raws, ByteBits, RunEncoder.Open, RunEncoder.Content, RunEncoder.Held;
      hide BitWriter.Valid, BitWriter.Bits;
      progress, i := false, i0;
      assert input[i0..i0] == [];
      ghost var was := taken;
      while true
        invariant Inv() && state == Input && i0 <= i <= |input| && taken == was + input[i0..i] && progress == (i > i0)
        invariant mode != Running ==> avail_in_expect == |input| - i
        invariant i == i0 ==> |e.block| == old(|e.block|) && e.EmptyRL() == old(e.EmptyRL())
        decreases |input| - i
      {
        if |e.block| >= nblockMAX { break; }
        if i == |input| { break; }
        if mode != Running && avail_in_expect == 0 { break; }
        progress := true;
        e.AddChar(input[i]);
        taken := taken + [input[i]];
        assert input[i0..i + 1] == input[i0..i] + [input[i]];
        i := i + 1;
        if mode != Running { avail_in_expect := avail_in_expect - 1; }
      }
    }

    /** copy_output_until_stop */
    method CopyOutput(avail: nat) returns (progress: bool, left: nat)
      requires Inv() && state == Output
      modifies this`out, this`state_out_pos
      ensures Inv() && |old(out)| + avail == |out| + left && old(out) <= out && progress == (left < avail)
      ensures left == 0 || state_out_pos >= |w.zbits|
      ensures old(state_out_pos) < |w.zbits| && avail > 0 ==> progress
      ensures !progress ==> state_out_pos == old(state_out_pos)
    {
      hide AllOk, AllFilled, Filled, Combined, StreamBits, Sent, Padded, Handed, Raws, ByteBits, RunEncoder.Open, RunEncoder.Content, RunEncoder.Held;
      hide BitWriter.Valid;
      progress, left := false, avail;
      while true
        invariant Inv() && |old(out)| + avail == |out| + left && old(out) <= out && progress == (left < avail)
        decreases left
      {
        if left == 0 { break; }
        if state_out_pos >= |w.zbits| { break; }
        progress := true;
        HandOne(out, w.zbits, if ended then ByteBits(w.zbits) else w.Bits());
        out := out + [w.zbits[state_out_pos]];
        state_out_pos := state_out_pos + 1;
        left := left - 1;
      }
    }

    /** The call of BZ2_compressBlock. */
    method EndBlock(last: bool)
      requires Settings() && Wired() && state == Input && !ended && blockNo >= 1 && mode != Idle && state_out_pos >= |w.zbits|
      requires e.Valid() && |e.block| <= 100000 * blockSize100k - 10 && taken == Raws(pieces) + e.Content()
      requires last ==> mode == Finishing && avail_in_expect == 0 && e.EmptyRL()
      requires e.EmptyRL() ==> last || (mode == Flushing && avail_in_expect == 0)
      requires Steady() && (mode == Flushing ==> flushed) && (flushed || last || |e.block| >= nblockMAX)
      modifies this`combinedCRC, this`pieces, this`state, this`ended, w
      ensures Inv() && state == Output && ended == last && (last ==> state_out_pos < |w.zbits|)
    {
      hide AllOk, Combined, StreamBits, Sent, Padded, Raws, ByteBits, RunEncoder.Open, RunEncoder.Valid, RunEncoder.Held, Unroll;
      hide BitWriter.Valid, BitWriter.Bits;
      hide Steady, AllFilled, Filled, Grown;
      ghost var was := w.Bits();
      ghost var ps := pieces;
      SteadyIs();
      ValidParts(e);
      combinedCRC, pieces := CompressBlock(w, e, blockSize100k, workFactor, combinedCRC, blockNo == 1, last, pieces);
      assert taken == Raws(pieces) + e.Held() by { assert Raws(pieces) == old(Raws(pieces)) + Unroll(e.runs); }
      state, ended := Output, last;
      KeepsSteady(ps, last);
    }

    lemma SteadyIs()
      requires Steady()
      ensures !flushed ==> if ended then Filled(pieces, nblockMAX) else AllFilled(pieces, nblockMAX)
    {
      hide Filled, AllFilled;
    }

    lemma KeepsSteady(ps: seq<Piece>, last: bool)
      requires !flushed ==> AllFilled(ps, nblockMAX)
      requires Grown(ps, pieces, e.block) && (flushed || last || |e.block| >= nblockMAX) && ended == last
      ensures Steady()
    {
      hide Flatten;
    }

    /** The output half of handle_compress's loop. */
    method OutputStep(avail: nat) returns (progress: bool, left: nat, stop: bool)
      requires Inv() && state == Output && mode != Idle
      modifies this`out, this`state_out_pos, this`state, this`blockNo, e, e.inUse
      ensures Inv() && |old(out)| + avail == |out| + left && old(out) <= out && e.EmptyRL() == old(e.EmptyRL()) && progress == (left < avail)
      ensures old(state_out_pos) < |w.zbits| && avail > 0 ==> progress
      ensures !progress ==> state_out_pos == old(state_out_pos)
      ensures !stop ==> state == Input && e.block == [] && nblockMAX > 0 && !(mode != Running && avail_in_expect == 0 && e.EmptyRL())
      ensures stop && state == Output ==> (left == 0 && state_out_pos < |w.zbits|) || (mode == Finishing && ended && avail_in_expect == 0 && e.EmptyRL() && state_out_pos >= |w.zbits|)
      ensures stop && state == Input ==> mode == Flushing && avail_in_expect == 0 && e.EmptyRL() && state_out_pos >= |w.zbits|
    {
      hide AllOk, AllFilled, Filled, Combined, StreamBits, Sent, Padded, Handed, Raws, ByteBits, RunEncoder.Open, RunEncoder.Content, RunEncoder.Held;
      hide BitWriter.Valid, BitWriter.Bits;
      stop := true;
      progress, left := CopyOutput(avail);
      if state_out_pos < |w.zbits| { return; }
      if mode == Finishing && avail_in_expect == 0 && e.EmptyRL() { return; }
      e.Prepare();
      blockNo := blockNo + 1;
      state := Input;
      if mode == Flushing && avail_in_expect == 0 && e.EmptyRL() { return; }
      stop := false;
    }

    /** The input half. */
    method InputStep(input: seq<byte>, i0: nat) returns (progress: bool, i: nat, stop: bool)
      requires Inv() && state == Input && i0 <= |input| && mode != Idle && (mode != Running ==> avail_in_expect == |input| - i0)
      modifies this, e, e.inUse, w
      ensures Inv() && i0 <= i <= |input| && taken == old(taken) + input[i0..i] && out == old(out) && mode == old(mode) && flushed == old(flushed) && progress == (i > i0)
      ensures ended ==> state_out_pos < |w.zbits|
      ensures mode != Running ==> avail_in_expect == |input| - i
      ensures stop ==> state == Input && mode == Running && i == |input|
      ensures !stop ==> state == Output
      ensures i == i0 && old(e.EmptyRL()) ==> e.EmptyRL()
      ensures old(|e.block|) < nblockMAX && i0 < |input| ==> i > i0
      ensures !stop && i == i0 && old(|e.block|) < nblockMAX ==> e.EmptyRL() && i == |input| && mode != Running
    {
      hide AllOk, AllFilled, Filled, Combined, StreamBits, Sent, Padded, Handed, Raws, ByteBits, RunEncoder.Open, RunEncoder.Content, RunEncoder.Held;
      hide BitWriter.Valid, BitWriter.Bits;
      stop := false;
      progress, i := CopyInput(input, i0);
      OpenValid(e);
      if mode != Running && avail_in_expect == 0 {
        e.FlushRL();
        EndBlock(mode == Finishing);
      } else if |e.block| >= nblockMAX {
        FullHolds(e);
        EndBlock(false);
      } else if i == |input| {
        stop := true;
      }
    }

    /** A change of mode between calls. */
    method SetMode(m: Mode, due: nat)
      requires Inv() && mode != Idle
      requires match m
        case Idle => mode == Finishing && state == Output && due == avail_in_expect == 0 && e.EmptyRL() && state_out_pos >= |w.zbits|
        case Running => mode == Flushing && state == Input
        case _ => mode == Running
      modifies this`mode, this`avail_in_expect, this`flushed
      ensures Inv() && mode == m && avail_in_expect == due && (m == Idle ==> ended) && flushed == (old(flushed) || m == Flushing)
    {
      hide AllOk, AllFilled, Filled, Combined, StreamBits, Sent, Padded, Handed, Raws, ByteBits, RunEncoder.Open, RunEncoder.Content, RunEncoder.Held;
      hide BitWriter.Valid, BitWriter.Bits;
      mode, avail_in_expect, flushed := m, due, flushed || m == Flushing;
    }

    /** handle_compress */
    method HandleCompress(input: seq<byte>, avail: nat) returns (progress: bool, i: nat, left: nat)
      requires Valid() && mode != Idle && (mode != Running ==> avail_in_expect == |input|)
      modifies this, e, e.inUse, w
      ensures Inv() && i <= |input| && taken == old(taken) + input[..i] && mode == old(mode) && flushed == old(flushed)
      ensures |old(out)| + avail == |out| + left && old(out) <= out && progress == (i > 0 || left < avail)
      ensures mode != Running ==> avail_in_expect == |input| - i
      ensures mode == Finishing && avail > 0 ==> progress
      ensures old(state) == Input && old(e.block) == [] && |input| > 0 ==> i > 0
      ensures mode == Finishing && ended && !progress ==> state_out_pos < |w.zbits|
      ensures mode == Running ==> i == |input| || left == 0
      ensures mode == Finishing ==> state == Output && ((left == 0 && state_out_pos < |w.zbits|) || (ended && avail_in_expect == 0 && e.EmptyRL() && state_out_pos >= |w.zbits|))
      ensures mode == Flushing ==> (left == 0 && state == Output && state_out_pos < |w.zbits|) || (i == |input| && e.EmptyRL() && state == Input && state_out_pos >= |w.zbits|)
    {
      hide *;
      ValidIs();
      RoomIs();
      progress, i, left := false, 0, avail;
      assert taken + input[..0] == taken;
      ghost var was, out0 := taken, out;
      while true
        invariant Inv() && i <= |input| && taken == was + input[..i] && mode == old(mode) && flushed == old(flushed)
        invariant |out0| + avail == |out| + left && out0 <= out
        invariant mode != Running ==> avail_in_expect == |input| - i
        invariant progress == (i > 0 || left < avail)
        invariant old(state) == Input && old(e.block) == [] && |input| > 0 && i == 0 ==> state == Input && e.block == []
        invariant mode == Finishing && ended ==> state_out_pos < |w.zbits| || left < avail
        decreases |input| - i, if e.EmptyRL() then 0 else 1, if state == Input then 1 else 0
      {
        var p, stop;
        if state == Output {
          p, left, stop := OutputStep(left);
          progress := progress || p;
          if stop { break; }
        }
        ghost var i0 := i;
        p, i, stop := InputStep(input, i);
        progress := progress || p;
        assert input[..i0] + input[i0..i] == input[..i];
        if stop { break; }
      }
    }

    /** BZ2_bzCompress, called again and again: whatever the chunks in and out, once it reports the end of
        the stream, the bytes handed out read back as the bytes taken in. */
    method Compress(action: Action, input: seq<byte>, avail: nat) returns (code: Code, used: nat, left: nat)
      requires Valid()
      modifies this, e, e.inUse, w
      ensures Valid() && used <= |input| && taken == old(taken) + input[..used]
      ensures |old(out)| + avail == |out| + left && old(out) <= out
      ensures old(Misused(action, |input|)) ==> code == SEQUENCE_ERROR && used == 0 && left == avail
      ensures !old(Misused(action, |input|)) && action == RUN ==>
        code == if used > 0 || left < avail then RUN_OK else PARAM_ERROR
      ensures !old(Misused(action, |input|)) && action == FLUSH ==> code in {FLUSH_OK, RUN_OK}
      ensures !old(Misused(action, |input|)) && action == FINISH ==>
        if used == 0 && left == avail then code == SEQUENCE_ERROR && avail == 0 else code in {FINISH_OK, STREAM_END}
      ensures code == STREAM_END ==> used == |input| && mode == Idle && ParseStream(ByteBits(out), table) == Whole(taken)
      ensures !old(Misused(action, |input|)) && old(state) == Input && old(e.block) == [] && |input| > 0 ==> used > 0
      ensures code in {FLUSH_OK, FINISH_OK} ==> left == 0 && state == Output && state_out_pos < |w.zbits|
      ensures code == RUN_OK ==> mode == Running && (used == |input| || left == 0)
      ensures action != FLUSH ==> flushed == old(flushed)
    {
      hide *;
      var progress;
      code, used, left := SEQUENCE_ERROR, 0, avail;
      assert taken + input[..0] == taken;
      MisusedIs(action, |input|);
      ValidIs();
      if mode == Idle { return; }
      if mode == Running {
        if action == RUN {
          progress, used, left := HandleCompress(input, avail);
          MakeValid();
          code := if progress then RUN_OK else PARAM_ERROR;
          return;
        }
        SetMode(if action == FLUSH then Flushing else Finishing, |input|);
        MakeValid();
      }
      if mode == Flushing {
        if action != FLUSH { return; }
        if avail_in_expect != |input| { return; }
        code, used, left := FlushCall(input, avail);
      } else {
        if action != FINISH { return; }
        if avail_in_expect != |input| { return; }
        code, used, left := FinishCall(input, avail);
      }
    }

    /** The call in mode Flushing. */
    method FlushCall(input: seq<byte>, avail: nat) returns (code: Code, used: nat, left: nat)
      requires Valid() && mode == Flushing && avail_in_expect == |input|
      modifies this, e, e.inUse, w
      ensures Valid() && used <= |input| && taken == old(taken) + input[..used] && |old(out)| + avail == |out| + left && old(out) <= out
      ensures old(state) == Input && old(e.block) == [] && |input| > 0 ==> used > 0
      ensures code == FLUSH_OK ==> left == 0 && state == Output && state_out_pos < |w.zbits|
      ensures code != FLUSH_OK ==> code == RUN_OK && mode == Running && used == |input|
    {
      hide *;
      var progress;
      progress, used, left := HandleCompress(input, avail);
      MakeValid();
      if avail_in_expect > 0 || !e.EmptyRL() || state_out_pos < |w.zbits| { return FLUSH_OK, used, left; }
      SetMode(Running, avail_in_expect);
      MakeValid();
      code := RUN_OK;
    }

    /** The call in mode Finishing. */
    method FinishCall(input: seq<byte>, avail: nat) returns (code: Code, used: nat, left: nat)
      requires Valid() && mode == Finishing && avail_in_expect == |input|
      modifies this, e, e.inUse, w
      ensures Valid() && used <= |input| && taken == old(taken) + input[..used] && |old(out)| + avail == |out| + left && old(out) <= out
      ensures old(state) == Input && old(e.block) == [] && |input| > 0 ==> used > 0
      ensures if used == 0 && left == avail then code == SEQUENCE_ERROR && avail == 0 else code in {FINISH_OK, STREAM_END}
      ensures flushed == old(flushed)
      ensures code == FINISH_OK ==> left == 0 && state == Output && state_out_pos < |w.zbits|
      ensures code == STREAM_END ==> used == |input| && mode == Idle && ParseStream(ByteBits(out), table) == Whole(taken)
    {
      hide *;
      var progress;
      progress, used, left := HandleCompress(input, avail);
      if !progress {
        MakeValid();
        return SEQUENCE_ERROR, used, left;
      }
      if avail_in_expect > 0 || !e.EmptyRL() || state_out_pos < |w.zbits| {
        MakeValid();
        return FINISH_OK, used, left;
      }
      SetMode(Idle, avail_in_expect);
      MakeValid();
      Finished();
      code := STREAM_END;
    }

    lemma RoomIs()
      requires Inv()
      ensures nblockMAX > 0
    {
      hide Wired, Accounted;
    }

    lemma ValidIs()
      requires Valid()
      ensures Inv() && (mode == Finishing && ended ==> state_out_pos < |w.zbits|) && (mode == Running ==> !ended)
    {
      hide Settings, Wired, Accounted;
    }

    lemma MakeValid()
      requires Inv() && (mode == Finishing && ended ==> state_out_pos < |w.zbits|)
      ensures Valid()
    {
      hide Inv;
    }

    lemma MisusedIs(action: Action, n: nat)
      ensures Misused(action, n) <==>
        mode == Idle || (mode == Flushing && (action != FLUSH || avail_in_expect != n)) || (mode == Finishing && (action != FINISH || avail_in_expect != n))
    {
    }

    /** If something is still to hand out, any stream that begins with the blocks sent so far is longer
        than what was handed out. */
    lemma MoreToCome()
      requires Inv() && state == Output && state_out_pos < |w.zbits|
      ensures AllOk(table, blockSize100k, pieces) && 1 <= blockSize100k <= 9 && Raws(pieces) <= taken && TooLong(table, blockSize100k, pieces, |out|)
    {
      hide AllOk, Combined, StreamBits, Raws, ByteBits, RunEncoder.Held, BitWriter.Valid, Sent, Words;
      forall qs: seq<Piece>, y: seq<byte> | Padded(StreamBits(table, blockSize100k, pieces + qs), ByteBits(y)) ensures |y| > |out| {
        StreamLonger(table, blockSize100k, pieces, qs);
        PaddedSize(StreamBits(table, blockSize100k, pieces + qs), ByteBits(y));
        if ended { PaddedSize(StreamBits(table, blockSize100k, pieces), ByteBits(w.zbits)); }
      }
    }

    /** Without a flush that is not much. */
    lemma OutBounded()
      requires Inv() && state == Output && state_out_pos < |w.zbits| && !flushed
      ensures 1 <= blockSize100k <= 9 && Filled(pieces, nblockMAX) && |out| < Bound(|taken|, blockSize100k)
    {
      hide AllOk, Combined, StreamBits, Raws, ByteBits, RunEncoder.Held, BitWriter.Valid, Sent, Words, Bound;
      hide Filled, AllFilled, AllSent;
      FilledAll(pieces, nblockMAX);
      StreamLonger(table, blockSize100k, pieces, []);
      assert pieces + [] == pieces;
      if ended { PaddedSize(StreamBits(table, blockSize100k, pieces), ByteBits(w.zbits)); }
      OkSent(table, blockSize100k, pieces);
      StreamFits(table, blockSize100k, pieces, |taken|, |w.zbits|);
    }

    lemma Finished()
      requires Inv() && ended && state_out_pos >= |w.zbits|
      ensures ParseStream(ByteBits(out), table) == Whole(taken)
    {
      hide AllOk, Combined, StreamBits, Padded, Raws, ByteBits, ParseStream, RunEncoder.Held;
      EmptyHeld(e);
      assert Raws(pieces) + [] == Raws(pieces);
      AllHanded(out, w.zbits);
      AllPieces(table, blockSize100k, pieces);
      StreamRoundTrip(ByteBits(out), table, blockSize100k, pieces);
    }
  }

  lemma FilledAll(ps: seq<Piece>, full: int)
    ensures AllFilled(ps, full) ==> Filled(ps, full)
  {
  }

  lemma OkSent(table: Tables, level: nat, ps: seq<Piece>)
    requires AllOk(table, level, ps)
    ensures AllSent(table, ps)
  {
    hide PieceOk, SentPiece;
  }

  lemma OpenValid(e: RunEncoder)
    requires e.Open()
    ensures e.Valid()
  {
  }

  lemma ValidParts(e: RunEncoder)
    requires e.Valid()
    ensures e.inUse.Length == 256 && e.Pending() && e.Content() == Unroll(e.runs) + e.Held()
  {
  }

  lemma NoBits(w: BitWriter)
    requires w.Valid() && w.Bits() == []
    ensures w.zbits == []
  {
    assert |ByteBits(w.zbits)| == 0;
  }

  lemma FullHolds(e: RunEncoder)
    requires e.Open() && e.block != []
    ensures !e.EmptyRL()
  {
    hide Checksum, UsedExactly;
  }

  lemma EmptyHeld(e: RunEncoder)
    requires e.Pending() && e.EmptyRL()
    ensures e.Held() == []
  {
  }

  lemma HandOne(out: seq<byte>, zbits: seq<byte>, bits: seq<bool>)
    requires Handed(out, bits) && ByteBits(zbits) <= bits && |out| < |zbits|
    ensures Handed(out + [zbits[|out|]], bits)
  {
    hide *;
    var k := |out|;
    var u, v := ByteBits(out), ByteBits(zbits);
    HandedIs(out, bits);
    ByteBitsAdd(out, [zbits[k]]);
    OneByte(zbits[k]);
    ByteBitsAt(zbits, k);
    NextEight(u, v, bits, BitsOf(zbits[k], 8));
    MakeHanded(out + [zbits[k]], bits);
  }

  /** No finished stream that begins with these blocks fits. */
  ghost predicate TooLong(table: Tables, level: nat, ps: seq<Piece>, destLen: nat)
    requires level <= 9
  {
    forall qs: seq<Piece>, y: seq<byte> :: Padded(StreamBits(table, level, ps + qs), ByteBits(y)) ==> |y| > destLen
  }

  lemma {:induction false} WordsLonger(ps: seq<Piece>, qs: seq<Piece>)
    ensures |Words(ps + qs)| >= |Words(ps)|
    decreases |ps|
  {
    if ps != [] {
      assert (ps + qs)[1..] == ps[1..] + qs && (ps + qs)[0] == ps[0];
      WordsLonger(ps[1..], qs);
    }
  }

  lemma StreamLonger(table: Tables, level: nat, ps: seq<Piece>, qs: seq<Piece>)
    requires level <= 9
    ensures |StreamBits(table, level, ps + qs)| >= |StreamBits(table, level, ps)| == |Sent(level, ps)| + 80
  {
    hide Words, Combined, BitsOf, ByteBits;
    WordsLonger(ps, qs);
  }

  lemma PaddedSize(u: seq<bool>, v: seq<bool>)
    requires Padded(u, v)
    ensures |u| <= |v| < |u| + 8
  {
  }

  lemma AllHanded(out: seq<byte>, zbits: seq<byte>)
    requires Handed(out, ByteBits(zbits)) && |out| >= |zbits|
    ensures ByteBits(out) == ByteBits(zbits)
  {
    hide *;
    var u, v := ByteBits(out), ByteBits(zbits);
    HandedIs(out, v);
    assert |u| >= |v|;
    WholePrefix(u, v);
  }

  lemma WholePrefix(u: seq<bool>, v: seq<bool>)
    requires u <= v && |u| >= |v|
    ensures u == v
  {
  }

  lemma AllPieces(table: Tables, level: nat, ps: seq<Piece>)
    requires AllOk(table, level, ps)
    ensures forall i :: 0 <= i < |ps| ==> PieceOk(table, level, ps[i])
  {
    hide PieceOk;
  }

  lemma HandedIs(out: seq<byte>, bits: seq<bool>)
    requires Handed(out, bits)
    ensures ByteBits(out) <= bits
  {
  }

  lemma MakeHanded(out: seq<byte>, bits: seq<bool>)
    requires ByteBits(out) <= bits
    ensures Handed(out, bits)
  {
  }

  lemma NextEight(u: seq<bool>, v: seq<bool>, bits: seq<bool>, x: seq<bool>)
    requires u <= bits && v <= bits && |u| + 8 <= |v| && v[|u|..|u| + 8] == x
    ensures u + x <= bits
  {
    assert bits[|u|..|u| + 8] == v[|u|..|u| + 8];
  }
}

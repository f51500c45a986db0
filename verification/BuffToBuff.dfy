/** The one-call interface: a buffer into a stream, and a stream back into a buffer. */
module BuffToBuff {
  import opened Rotations
  import opened BitIO
  import opened StreamFormat
  import opened StreamSize
  import C = Compressor
  import D = Decompressor

  datatype Answer = Dest(bytes: seq<byte>) | OutbuffFull | UnexpectedEof | CompressError(why: C.Code) | DecompressError(error: D.Code)

  /** Blocks as the compressor makes them, of some beginning of the source and all but the last of them full,
      make a stream that is too long already. */
  ghost predicate NoRoom(source: seq<byte>, destLen: nat, level: nat, table: Tables)
    requires level <= 9
  {
    exists ps :: MadeOf(ps, source, level, table) && C.TooLong(table, level, ps, destLen)
  }

  ghost predicate MadeOf(ps: seq<Piece>, source: seq<byte>, level: nat, table: Tables)
    requires level <= 9
  {
    C.AllOk(table, level, ps) && Filled(ps, 100000 * level - 19) && Raws(ps) <= source
  }

  /** What compressing in one call may answer. */
  ghost predicate Compressed(a: Answer, source: seq<byte>, destLen: nat, level: nat, table: Tables)
    requires 1 <= level <= 9
  {
    match a
    case Dest(bytes) => |bytes| <= destLen && ParseStream(ByteBits(bytes), table) == Whole(source)
    case OutbuffFull => NoRoom(source, destLen, level, table) && destLen < Bound(|source|, level)
    case CompressError(why) => why == C.SEQUENCE_ERROR
    case _ => false
  }

  /** BZ2_bzBuffToBuffCompress: a stream that reads back as the source, and always one when the buffer has
      Bound bytes; the buffer is called full only when every stream that begins with the blocks made is
      too long for it; an error exactly for nothing into nothing. */
  method Compress(source: seq<byte>, destLen: nat, blockSize100k: nat, workFactor: int, table: Tables) returns (a: Answer)
    requires 1 <= blockSize100k <= 9 && 0 <= workFactor <= 250
    ensures Compressed(a, source, destLen, blockSize100k, table)
    ensures destLen >= Bound(|source|, blockSize100k) ==> a.Dest?
    ensures a.CompressError? <==> destLen == 0 && source == []
  {
    hide *;
    var strm := new C.Compressor(blockSize100k, workFactor, table);
    strm.ValidIs();
    strm.MisusedIs(C.FINISH, |source|);
    assert [] + source == source && source[..|source|] == source;
    var ret, used, left := strm.Compress(C.FINISH, source, destLen);
    if ret == C.FINISH_OK {
      strm.ValidIs();
      strm.MoreToCome();
      strm.OutBounded();
      assert source[..used] <= source;
      a := OutbuffFull;
      FullIs(strm);
      BoundMono(|strm.taken|, |source|, blockSize100k);
      NoRoomFor(source, destLen, blockSize100k, table, strm.pieces);
    } else if ret != C.STREAM_END {
      NothingSent(source, used);
      a := CompressError(ret);
    } else {
      a := Dest(strm.out);
    }
    Answered(a, source, destLen, blockSize100k, table);
  }

  lemma NoRoomFor(source: seq<byte>, destLen: nat, level: nat, table: Tables, ps: seq<Piece>)
    requires level <= 9 && C.AllOk(table, level, ps) && Filled(ps, 100000 * level - 19) && Raws(ps) <= source && C.TooLong(table, level, ps, destLen)
    ensures NoRoom(source, destLen, level, table)
  {
    hide C.AllOk, Filled, Raws, C.TooLong;
    assert MadeOf(ps, source, level, table);
  }

  lemma FullIs(strm: C.Compressor)
    ensures strm.nblockMAX == 100000 * strm.blockSize100k - 19
  {
  }

  lemma NothingSent(source: seq<byte>, used: nat)
    ensures |source| == 0 <==> source == []
  {
  }

  lemma Answered(a: Answer, source: seq<byte>, destLen: nat, level: nat, table: Tables)
    requires 1 <= level <= 9
    requires a.Dest? ==> |a.bytes| <= destLen && ParseStream(ByteBits(a.bytes), table) == Whole(source)
    requires a.OutbuffFull? ==> NoRoom(source, destLen, level, table) && destLen < Bound(|source|, level) && !(destLen == 0 && source == [])
    requires a.CompressError? ==> a.why == C.SEQUENCE_ERROR && destLen == 0 && source == []
    requires a.Dest? || a.OutbuffFull? || a.CompressError?
    ensures Compressed(a, source, destLen, level, table)
    ensures a.CompressError? <==> destLen == 0 && source == []
    ensures destLen >= Bound(|source|, level) ==> a.Dest?
  {
    hide NoRoom, Bound, ByteBits;
    BoundPositive(|source|, level);
    if a.Dest? && destLen == 0 { NoStream(a.bytes, table); }
  }

  lemma BoundPositive(size: nat, level: nat)
    requires 1 <= level <= 9
    ensures Bound(size, level) > 0
  {
  }

  /** No bytes are no stream. */
  lemma NoStream(bytes: seq<byte>, table: Tables)
    requires bytes == []
    ensures !ParseStream(ByteBits(bytes), table).Whole?
  {
    C.ByteBitsNone();
  }

  /** What decompressing in one call answers, by what the format says of the input. */
  ghost predicate Decompressed(a: Answer, m: Outcome, destLen: nat) {
    if destLen < |m.out| then a == OutbuffFull
    else
      match m
      case Whole(out) => a == Dest(out)
      case MoreInput(out) => a == DecompressError(D.BZ_DATA_ERROR) || a == if destLen > |out| then UnexpectedEof else OutbuffFull
      case Corrupt(out) => a == DecompressError(D.BZ_DATA_ERROR) || (destLen == |out| && a == OutbuffFull)
      case NotBzip2(_) => a == DecompressError(D.BZ_DATA_ERROR_MAGIC)
      case SelectorOverrun(_) => a == DecompressError(D.BZ_SELECTOR_OVERRUN)
  }

  /** BZ2_bzBuffToBuffDecompress, with either inverse: the buffer is called full exactly when more comes out
      than it holds; otherwise a stream that the format accepts comes back whole, and one that it does not
      gets the error for what is wrong with it. */
  method Decompress(source: seq<byte>, destLen: nat, small: bool, table: Tables) returns (a: Answer)
    ensures Decompressed(a, ParseStream(ByteBits(source), table), destLen)
  {
    hide *;
    var strm := new D.Decompressor(source, small, table);
    var ret, left := strm.Decompress(destLen);
    strm.MeaningIs();
    assert [] + strm.d.out == strm.d.out;
    if ret in {D.BZ_OK, D.BZ_NEED_INPUT} {
      a := if left > 0 then UnexpectedEof else OutbuffFull;
    } else if ret != D.BZ_STREAM_END {
      a := DecompressError(ret);
    } else {
      a := Dest(strm.d.out);
    }
    Given(a, strm.Meaning(), destLen, ret, strm.d.out, left);
  }

  lemma Given(a: Answer, m: Outcome, destLen: nat, ret: D.Code, out: seq<byte>, left: nat)
    requires |out| + left == destLen && D.Reports(ret, m, out) && ret != D.BZ_SEQUENCE_ERROR
    requires ret == D.BZ_OK ==> left == 0 && (out < m.out || m == Corrupt(out))
    requires ret == D.BZ_STREAM_END ==> m == Whole(out)
    requires a == if ret in {D.BZ_OK, D.BZ_NEED_INPUT} then (if left > 0 then UnexpectedEof else OutbuffFull)
                  else if ret != D.BZ_STREAM_END then DecompressError(ret) else Dest(out)
    ensures Decompressed(a, m, destLen)
  {
  }

  /** What one compresses, the other restores, with either inverse. */
  method RoundTrip(source: seq<byte>, destLen: nat, blockSize100k: nat, workFactor: int, small: bool, table: Tables)
    returns (packed: Answer, restored: Answer)
    requires 1 <= blockSize100k <= 9 && 0 <= workFactor <= 250
    ensures Compressed(packed, source, destLen, blockSize100k, table)
    ensures restored == if packed.Dest? then Dest(source) else packed
    ensures destLen >= Bound(|source|, blockSize100k) ==> restored == Dest(source)
  {
    packed := Compress(source, destLen, blockSize100k, workFactor, table);
    restored := packed;
    hide ParseStream, ByteBits, NoRoom, Bound;
    if packed.Dest? { restored := Decompress(packed.bytes, |source|, small, table); }
  }
}

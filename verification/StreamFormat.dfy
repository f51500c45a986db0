/** A whole compressed stream: header, blocks each with its checksum, trailer with the combined
    checksum; what reading yields on any bits; and that reading undoes writing. */
module StreamFormat {
  import opened Powers
  import opened Rotations
  import opened Bits
  import opened Parsing
  import opened CanonicalCodes
  import opened MoveToFront
  import opened MtfEncoder
  import opened BurrowsWheeler
  import opened Wire
  import opened BlockFormat
  import opened BitIO
  import opened RunLength
  import opened Randomising

  const BLOCK_MAGIC: seq<byte> := [0x31, 0x41, 0x59, 0x26, 0x53, 0x59]
  const END_MAGIC: seq<byte> := [0x17, 0x72, 0x45, 0x38, 0x50, 0x90]
  const STREAM_MAGIC: seq<byte> := [0x42, 0x5A, 0x68]

  // ---------- checksums ----------

  /** The tables of crctable.c and randtable.c; nothing below depends on what is in the first. */
  type CrcTable = t: seq<bv32> | |t| == 256 witness seq(256, _ => 0)

  datatype Tables = Tables(crc: CrcTable, rand: RandTable)

  lemma TopByte(crc: bv32, c: bv32)
    requires c < 256
    ensures (crc >> 24) ^ c < 256
  {
  }

  function Update(table: Tables, crc: bv32, c: byte): bv32 {
    var b := c as bv32;
    assert b < 256;
    TopByte(crc, b);
    (crc << 8) ^ table.crc[((crc >> 24) ^ b) as int]
  }

  function Checksum(table: Tables, crc: bv32, s: seq<byte>): bv32
    decreases |s|
  {
    if s == [] then crc else Update(table, Checksum(table, crc, s[..|s| - 1]), s[|s| - 1])
  }

  lemma {:induction false} ChecksumAdd(table: Tables, crc: bv32, s: seq<byte>, t: seq<byte>)
    ensures Checksum(table, crc, s + t) == Checksum(table, Checksum(table, crc, s), t)
    decreases |t|
  {
    if t == [] {
      assert s + t == s;
    } else {
      hide Update;
      ChecksumAdd(table, crc, s, t[..|t| - 1]);
      assert (s + t)[..|s + t| - 1] == s + t[..|t| - 1];
    }
  }

  /** The checksum of a block: of the bytes before the run-length stage. */
  function BlockCrc(table: Tables, raw: seq<byte>): bv32 {
    !Checksum(table, 0xFFFF_FFFF, raw)
  }

  function Combine(combined: bv32, block: bv32): bv32 {
    ((combined << 1) | (combined >> 31)) ^ block
  }

  // ---------- writing ----------

  /** A block as the compressor leaves it: the runs it was made of and the bits sent for it. */
  datatype Piece = Piece(rs: seq<Run>, word: seq<bool>)

  ghost function BlockWord(crc: bv32, u: seq<bool>): seq<bool> {
    ByteBits(BLOCK_MAGIC) + (BitsOf(crc as int, 32) + (BitsOf(0, 1) + u))
  }

  ghost predicate PieceOk(table: Tables, level: nat, p: Piece) {
    && Runs(p.rs) && 0 < |Flatten(p.rs)| <= 100000 * level
    && exists u :: Encodes(u, Flatten(p.rs)) && p.word == BlockWord(BlockCrc(table, Unroll(p.rs)), u)
  }

  ghost function Words(ps: seq<Piece>): seq<bool> {
    if ps == [] then [] else ps[0].word + Words(ps[1..])
  }

  ghost function Raws(ps: seq<Piece>): seq<byte> {
    if ps == [] then [] else Unroll(ps[0].rs) + Raws(ps[1..])
  }

  ghost function Combined(table: Tables, c: bv32, ps: seq<Piece>): bv32
    decreases |ps|
  {
    if ps == [] then c else Combined(table, Combine(c, BlockCrc(table, Unroll(ps[0].rs))), ps[1..])
  }

  ghost function Header(level: nat): seq<bool>
    requires level <= 9
  {
    ByteBits(STREAM_MAGIC) + BitsOf(0x30 + level, 8)
  }

  ghost function Trailer(combined: bv32): seq<bool> {
    ByteBits(END_MAGIC) + BitsOf(combined as int, 32)
  }

  ghost function StreamBits(table: Tables, level: nat, ps: seq<Piece>): seq<bool>
    requires level <= 9
  {
    Header(level) + (Words(ps) + Trailer(Combined(table, 0, ps)))
  }

  lemma {:induction false} PieceAdd(table: Tables, c: bv32, ps: seq<Piece>, p: Piece)
    ensures Words(ps + [p]) == Words(ps) + p.word && Raws(ps + [p]) == Raws(ps) + Unroll(p.rs)
    ensures Combined(table, c, ps + [p]) == Combine(Combined(table, c, ps), BlockCrc(table, Unroll(p.rs)))
    decreases |ps|
  {
    hide *;
    var qs := ps + [p];
    FirstPiece(table, c, qs);
    if ps == [] {
      assert qs[1..] == [];
      NoPieces(table, c, ps);
      NoPieces(table, Combine(c, BlockCrc(table, Unroll(p.rs))), qs[1..]);
    } else {
      assert qs[1..] == ps[1..] + [p];
      FirstPiece(table, c, ps);
      PieceAdd(table, Combine(c, BlockCrc(table, Unroll(ps[0].rs))), ps[1..], p);
      assert qs[0] == ps[0];
    }
  }

  // ---------- reading ----------

  /** How reading a stream can end, and the bytes that have come out by then. */
  datatype Outcome =
    | Whole(out: seq<byte>)
    | MoreInput(out: seq<byte>)
    | Corrupt(out: seq<byte>)
    | NotBzip2(out: seq<byte>)
    | SelectorOverrun(out: seq<byte>)

  /** Fixed bytes, compared one at a time. */
  ghost function ParseMagic(bits: seq<bool>, pos: nat, m: seq<byte>): (r: Parse<()>)
    ensures !r.Overrun? && (r.Got? ==> r.pos == pos + 8 * |m|)
    decreases |m|
  {
    if m == [] then Got((), pos)
    else
      match ReadBits(bits, pos, 8)
      case Starved => Starved
      case Bad => Bad
      case Got(v, p) => if v != m[0] then Bad else ParseMagic(bits, p, m[1..])
  }

  ghost function ParseEnd(bits: seq<bool>, pos: nat, combined: bv32, out: seq<byte>): Outcome {
    match ParseMagic(bits, pos, END_MAGIC[1..])
    case Starved => MoreInput(out)
    case Bad => Corrupt(out)
    case Got(_, p) =>
      match ReadBits(bits, p, 32)
      case Starved => MoreInput(out)
      case Bad => Corrupt(out)
      case Got(stored, _) => if stored == combined as int then Whole(out) else Corrupt(out)
  }

  /** Undoing the run-length stage of a decoded block, of which walk shows two bytes more: its bytes, and
      whether it ends where a run does. */
  ghost function Undo(walk: seq<byte>): (seq<byte>, bool)
    requires |walk| >= 2
  {
    Expand(walk, |walk| - 2, 0)
  }

  /** A block is good if it ends where a run does and its checksum agrees. */
  ghost predicate BlockGood(table: Tables, walk: seq<byte>, stored: nat)
    requires |walk| >= 2
  {
    Undo(walk).1 && BlockCrc(table, Undo(walk).0) as int == stored
  }

  /** A block up to its start slot. */
  ghost function ParseHead(bits: seq<bool>, pos: nat): (r: Parse<(nat, nat)>)
    ensures !r.Overrun? && (r.Got? ==> r.pos > pos)
  {
    match ParseMagic(bits, pos, BLOCK_MAGIC[1..])
    case Starved => Starved
    case Bad => Bad
    case Got(_, p) =>
      match ReadBits(bits, p, 32)
      case Starved => Starved
      case Bad => Bad
      case Got(stored, q) =>
        match ReadBits(bits, q, 1)
        case Starved => Starved
        case Bad => Bad
        case Got(rand, r) => Got((stored, rand), r)
  }

  ghost function ParseBlocks(bits: seq<bool>, pos: nat, level: nat, table: Tables, combined: bv32, out: seq<byte>): Outcome
    decreases |bits| - pos
  {
    match ReadBits(bits, pos, 8)
    case Starved => MoreInput(out)
    case Bad => Corrupt(out)
    case Got(uc, p) =>
      if uc == END_MAGIC[0] then ParseEnd(bits, p, combined, out)
      else if uc != BLOCK_MAGIC[0] then Corrupt(out)
      else
        match ParseHead(bits, p)
        case Starved => MoreInput(out)
        case Bad => Corrupt(out)
        case Got(head, q) =>
          match ParseWalk(bits, q, level)
          case Starved => MoreInput(out)
          case Bad => Corrupt(out)
          case Overrun => SelectorOverrun(out)
          case Got(walk, e) =>
            BlockAhead(bits, q, level);
            var seen := Seen(table.rand, head.1 != 0, walk);
            if BlockGood(table, seen, head.0)
            then ParseBlocks(bits, e, level, table, Combine(combined, BlockCrc(table, Undo(seen).0)), out + Undo(seen).0)
            else Corrupt(out + Undo(seen).0)
  }

  ghost function ParseStream(bits: seq<bool>, table: Tables): Outcome {
    match ParseMagic(bits, 0, STREAM_MAGIC)
    case Starved => MoreInput([])
    case Bad => NotBzip2([])
    case Got(_, p) =>
      match ReadBits(bits, p, 8)
      case Starved => MoreInput([])
      case Bad => NotBzip2([])
      case Got(v, q) =>
        if v < 0x31 || v > 0x39 then NotBzip2([]) else ParseBlocks(bits, q, v - 0x30, table, 0, [])
  }

  // ---------- reading moves forward ----------

  lemma {:induction false} RowsAhead(bits: seq<bool>, pos: nat, flags: seq<bool>, k: nat)
    requires |flags| == 16 && k <= 16
    ensures ParseRows(bits, pos, flags, k).Got? ==> ParseRows(bits, pos, flags, k).pos >= pos
  {
    if k > 0 { RowsAhead(bits, pos, flags, k - 1); }
  }

  lemma {:induction false} UnaryAhead(bits: seq<bool>, pos: nat, j: nat, n: nat)
    ensures ParseUnary(bits, pos, j, n).Got? ==> ParseUnary(bits, pos, j, n).pos >= pos
    decreases |bits| - pos
  {
    if pos < |bits| && bits[pos] && j + 1 < n { UnaryAhead(bits, pos + 1, j + 1, n); }
  }

  lemma {:induction false} SelsAhead(bits: seq<bool>, pos: nat, n: nat, k: nat)
    ensures ParseSels(bits, pos, n, k).Got? ==> ParseSels(bits, pos, n, k).pos >= pos
  {
    if k > 0 {
      SelsAhead(bits, pos, n, k - 1);
      var r := ParseSels(bits, pos, n, k - 1);
      if r.Got? { UnaryAhead(bits, r.pos, 0, n); }
    }
  }

  lemma {:induction false} DeltaAhead(bits: seq<bool>, pos: nat, curr: int)
    ensures ParseDelta(bits, pos, curr).Got? ==> ParseDelta(bits, pos, curr).pos >= pos
    decreases |bits| - pos
  {
    if 1 <= curr <= LONGEST && pos + 1 < |bits| && bits[pos] {
      DeltaAhead(bits, pos + 2, if bits[pos + 1] then curr - 1 else curr + 1);
    }
  }

  lemma {:induction false} LensAhead(bits: seq<bool>, pos: nat, curr: int, k: nat)
    ensures ParseLens(bits, pos, curr, k).Got? ==> ParseLens(bits, pos, curr, k).pos >= pos
  {
    if k > 0 {
      LensAhead(bits, pos, curr, k - 1);
      var r := ParseLens(bits, pos, curr, k - 1);
      if r.Got? { DeltaAhead(bits, r.pos, if r.value == [] then curr else r.value[|r.value| - 1]); }
    }
  }

  lemma {:induction false} TablesAhead(bits: seq<bool>, pos: nat, alphaSize: nat, n: nat)
    ensures ParseTables(bits, pos, alphaSize, n).Got? ==> ParseTables(bits, pos, alphaSize, n).pos >= pos
  {
    if n > 0 {
      TablesAhead(bits, pos, alphaSize, n - 1);
      var r := ParseTables(bits, pos, alphaSize, n - 1);
      if r.Got? && r.pos + 5 <= |bits| { LensAhead(bits, r.pos + 5, ToNat(bits[r.pos..r.pos + 5]), alphaSize); }
    }
  }

  lemma {:induction false} SymAhead(len: seq<int>, bits: seq<bool>, pos: nat, n: nat)
    ensures ReadSym(len, bits, pos, n).Got? ==> ReadSym(len, bits, pos, n).pos >= pos
    decreases LONGEST + 1 - n
  {
    hide IsCode;
    if pos + n <= |bits| && n <= LONGEST { SymAhead(len, bits, pos, n + 1); }
  }

  lemma {:induction false} ScanAhead(bits: seq<bool>, pos: nat, lens: seq<seq<int>>, sels: seq<int>, eob: int, j: nat)
    requires forall i :: 0 <= i < |sels| ==> 0 <= sels[i] < |lens|
    ensures ScanFrom(bits, pos, lens, sels, eob, j).end.Got? ==> ScanFrom(bits, pos, lens, sels, eob, j).end.pos >= pos
    decreases GROUP_SIZE * |sels| - j
  {
    if j < GROUP_SIZE * |sels| {
      hide ReadSym;
      SymAhead(lens[sels[j / GROUP_SIZE]], bits, pos, 0);
      var r := NextSym(bits, pos, lens, sels, j);
      if r.Got? && r.value != eob { ScanAhead(bits, r.pos, lens, sels, eob, j + 1); }
    }
  }

  lemma SelPartAhead(bits: seq<bool>, pos: nat)
    ensures ParseSelPart(bits, pos).Got? ==> ParseSelPart(bits, pos).pos >= pos
  {
    hide ParseSels;
    if pos + 18 <= |bits| { SelsAhead(bits, pos + 18, ToNat(bits[pos..pos + 3]), ToNat(bits[pos + 3..pos + 18])); }
  }

  lemma RestAhead(bits: seq<bool>, pos: nat, inUse: seq<bool>, room: nat)
    requires |inUse| == 256
    ensures ParseRest(bits, pos, inUse, room).Got? ==> ParseRest(bits, pos, inUse, room).pos >= pos
  {
    hide ParseSelPart, ParseTables, ScanFrom, Decode;
    SelPartAhead(bits, pos);
    var a := |UsedBelow(inUse, 256)|;
    var g := ParseSelPart(bits, pos);
    if a > 0 && g.Got? {
      TablesAhead(bits, g.pos, a + 2, g.value.0);
      var t := ParseTables(bits, g.pos, a + 2, g.value.0);
      if t.Got? { ScanAhead(bits, t.pos, t.value, g.value.1, a + 1, 0); }
    }
  }

  lemma BlockAhead(bits: seq<bool>, pos: nat, level: nat)
    ensures ParseWalk(bits, pos, level).Got? ==> ParseWalk(bits, pos, level).pos >= pos
  {
    hide ParseRest, ParseRows, Readout, Links;
    if pos + 40 <= |bits| {
      var flags := bits[pos + 24..pos + 40];
      RowsAhead(bits, pos + 40, flags, 16);
      var m := ParseMap(bits, pos + 24);
      if m.Got? { RestAhead(bits, m.pos, m.value, 100000 * level); }
    }
  }

  // ---------- the round trip ----------

  lemma {:induction false} MagicBack(bits: seq<bool>, pos: nat, m: seq<byte>)
    requires Stands(bits, pos, ByteBits(m))
    ensures ParseMagic(bits, pos, m) == Got((), pos + 8 * |m|)
    decreases |m|
  {
    if m != [] {
      hide ToNat, BitsOf, ByteBits;
      FirstByteStands(bits, pos, m);
      FieldBack(bits, pos, m[0], 8);
      MagicBack(bits, pos + 8, m[1..]);
    }
  }

  lemma FieldBack(bits: seq<bool>, pos: nat, v: nat, n: nat)
    requires Stands(bits, pos, BitsOf(v, n)) && v < Pow2(n)
    ensures ReadBits(bits, pos, n) == Got(v, pos + n)
  {
    ToNatOf(v, n);
  }

  lemma ByteBack(bits: seq<bool>, pos: nat, c: byte)
    requires Stands(bits, pos, BitsOf(c, 8))
    ensures ReadBits(bits, pos, 8) == Got(c, pos + 8)
  {
    hide *;
    Widths();
    FieldBack(bits, pos, c, 8);
  }

  lemma Widths()
    ensures Pow2(1) == 2 && Pow2(8) == 256 && Pow2(32) == 0x1_0000_0000
  {
    Pow2Values();
  }

  lemma UndoRuns(walk: seq<byte>, rs: seq<Run>)
    requires Runs(rs) && |walk| >= 2 && walk[..|walk| - 2] == Flatten(rs)
    ensures Undo(walk) == (Unroll(rs), true)
  {
    hide Runs, Flatten, Unroll;
    RunsRoundTrip(walk, rs, |walk| - 2);
  }

  /** One block, header and checksum included, is read back. */
  lemma PieceBack(bits: seq<bool>, pos: nat, level: nat, table: Tables, c: bv32, out: seq<byte>, p: Piece)
    requires PieceOk(table, level, p) && level <= 9 && Stands(bits, pos, p.word)
    ensures ParseBlocks(bits, pos, level, table, c, out)
         == ParseBlocks(bits, pos + |p.word|, level, table, Combine(c, BlockCrc(table, Unroll(p.rs))), out + Unroll(p.rs))
  {
    hide *;
    var raw, b := Unroll(p.rs), Flatten(p.rs);
    var u := PieceParts(table, level, p);
    var crc := BlockCrc(table, raw) as int;
    WordBack(bits, pos, BlockCrc(table, raw), u, p.word);
    BlockRoundTrip(bits, pos + 81, u, b, level);
    WalkShows(bits, pos + 81, level);
    var walk := ParseWalk(bits, pos + 81, level).value;
    UndoRuns(walk, p.rs);
    ParseBlocksIs(bits, pos, level, table, c, out, crc, walk, pos + 81 + |u|);
  }

  lemma PieceParts(table: Tables, level: nat, p: Piece) returns (u: seq<bool>)
    requires PieceOk(table, level, p)
    ensures Runs(p.rs) && 0 < |Flatten(p.rs)| <= 100000 * level
    ensures Encodes(u, Flatten(p.rs)) && p.word == BlockWord(BlockCrc(table, Unroll(p.rs)), u)
  {
    hide Encodes, Flatten, Unroll, BlockCrc, BlockWord, Runs;
    u :| Encodes(u, Flatten(p.rs)) && p.word == BlockWord(BlockCrc(table, Unroll(p.rs)), u);
  }

  lemma Magics()
    ensures |BLOCK_MAGIC| == |END_MAGIC| == 6 && |STREAM_MAGIC| == 3 && BLOCK_MAGIC[0] == 0x31 && END_MAGIC[0] == 0x17
  {
  }

  /** Fixed bytes of which the first is read apart. */
  lemma MagicSplit(bits: seq<bool>, pos: nat, m: seq<byte>)
    requires m != [] && Stands(bits, pos, ByteBits(m))
    ensures ReadBits(bits, pos, 8) == Got(m[0], pos + 8) && ParseMagic(bits, pos + 8, m[1..]) == Got((), pos + 8 * |m|)
  {
    hide *;
    var c, t := m[0], m[1..];
    FirstByteStands(bits, pos, m);
    ByteBack(bits, pos, c);
    MagicBack(bits, pos + 8, t);
  }

  lemma BlockWordIs(crc: bv32, u: seq<bool>)
    ensures BlockWord(crc, u) == ByteBits(BLOCK_MAGIC) + (BitsOf(crc as int, 32) + (BitsOf(0, 1) + u)) && |BlockWord(crc, u)| == 81 + |u|
  {
    hide ByteBits, BitsOf;
  }

  lemma StandsFour(bits: seq<bool>, pos: nat, w: seq<bool>, a: seq<bool>, b: seq<bool>, c: seq<bool>, d: seq<bool>)
    requires Stands(bits, pos, w) && w == a + (b + (c + d))
    ensures Stands(bits, pos, a) && Stands(bits, pos + |a|, b) && Stands(bits, pos + |a| + |b|, c)
    ensures Stands(bits, pos + |a| + |b| + |c|, d)
  {
    hide *;
    var e := c + d;
    var f := b + e;
    StandsSplit(bits, pos, a, f);
    StandsSplit(bits, pos + |a|, b, e);
    StandsSplit(bits, pos + |a| + |b|, c, d);
  }

  lemma FirstByteStands(bits: seq<bool>, pos: nat, m: seq<byte>)
    requires m != [] && Stands(bits, pos, ByteBits(m))
    ensures Stands(bits, pos, BitsOf(m[0], 8)) && Stands(bits, pos + 8, ByteBits(m[1..]))
  {
    hide *;
    var c, t := m[0], m[1..];
    assert m == [c] + t;
    ByteBitsAdd([c], t);
    OneByte(c);
    StandsSplit(bits, pos, BitsOf(c, 8), ByteBits(t));
  }

  lemma WordBack(bits: seq<bool>, pos: nat, crc: bv32, u: seq<bool>, w: seq<bool>)
    requires w == BlockWord(crc, u) && Stands(bits, pos, w)
    ensures |w| == 81 + |u| && Stands(bits, pos + 81, u)
    ensures ReadBits(bits, pos, 8) == Got(BLOCK_MAGIC[0], pos + 8) && ParseHead(bits, pos + 8) == Got((crc as int, 0), pos + 81)
  {
    hide *;
    var v := crc as int;
    BlockWordIs(crc, u);
    Magics();
    Widths();
    StandsFour(bits, pos, w, ByteBits(BLOCK_MAGIC), BitsOf(v, 32), BitsOf(0, 1), u);
    MagicSplit(bits, pos, BLOCK_MAGIC);
    FieldBack(bits, pos + 48, v, 32);
    FieldBack(bits, pos + 80, 0, 1);
    ParseHeadIs(bits, pos + 8, v);
  }

  lemma ParseHeadIs(bits: seq<bool>, pos: nat, v: nat)
    requires ParseMagic(bits, pos, BLOCK_MAGIC[1..]) == Got((), pos + 40)
    requires ReadBits(bits, pos + 40, 32) == Got(v, pos + 72) && ReadBits(bits, pos + 72, 1) == Got(0, pos + 73)
    ensures ParseHead(bits, pos) == Got((v, 0), pos + 73)
  {
    hide ParseMagic, ReadBits;
  }

  lemma ParseBlocksIs(bits: seq<bool>, pos: nat, level: nat, table: Tables, c: bv32, out: seq<byte>, crc: nat, walk: seq<byte>, e: nat)
    requires ReadBits(bits, pos, 8) == Got(BLOCK_MAGIC[0], pos + 8) && ParseHead(bits, pos + 8) == Got((crc, 0), pos + 81)
    requires ParseWalk(bits, pos + 81, level) == Got(walk, e) && |walk| >= 2 && Undo(walk).1 && crc == BlockCrc(table, Undo(walk).0) as int
    ensures ParseBlocks(bits, pos, level, table, c, out)
         == ParseBlocks(bits, e, level, table, Combine(c, BlockCrc(table, Undo(walk).0)), out + Undo(walk).0)
  {
    hide ParseHead, ReadBits, ParseWalk, Undo, BlockCrc, Combine, ParseEnd;
  }

  lemma EndBack(bits: seq<bool>, pos: nat, level: nat, table: Tables, c: bv32, out: seq<byte>)
    requires Stands(bits, pos, Trailer(c))
    ensures ParseBlocks(bits, pos, level, table, c, out) == Whole(out)
  {
    hide *;
    var v := c as int;
    TrailerIs(c);
    Magics();
    Widths();
    StandsSplit(bits, pos, ByteBits(END_MAGIC), BitsOf(v, 32));
    MagicSplit(bits, pos, END_MAGIC);
    FieldBack(bits, pos + 48, v, 32);
    ParseEndIs(bits, pos, level, table, c, out);
  }

  lemma TrailerIs(c: bv32)
    ensures Trailer(c) == ByteBits(END_MAGIC) + BitsOf(c as int, 32)
  {
  }

  lemma ParseEndIs(bits: seq<bool>, pos: nat, level: nat, table: Tables, c: bv32, out: seq<byte>)
    requires ReadBits(bits, pos, 8) == Got(END_MAGIC[0], pos + 8) && ParseMagic(bits, pos + 8, END_MAGIC[1..]) == Got((), pos + 48)
    requires ReadBits(bits, pos + 48, 32) == Got(c as int, pos + 80)
    ensures ParseBlocks(bits, pos, level, table, c, out) == Whole(out)
  {
    hide ReadBits, ParseMagic, ParseHead, ParseWalk;
  }

  lemma {:induction false} PiecesBack(bits: seq<bool>, pos: nat, level: nat, table: Tables, c: bv32, out: seq<byte>, ps: seq<Piece>)
    requires level <= 9 && (forall i :: 0 <= i < |ps| ==> PieceOk(table, level, ps[i]))
    requires Stands(bits, pos, Words(ps) + Trailer(Combined(table, c, ps)))
    ensures ParseBlocks(bits, pos, level, table, c, out) == Whole(out + Raws(ps))
    decreases |ps|
  {
    hide *;
    var t := Trailer(Combined(table, c, ps));
    if ps == [] {
      NoPieces(table, c, ps);
      assert [] + t == t && out + [] == out;
      EndBack(bits, pos, level, table, c, out);
    } else {
      var p, c' := ps[0], Combine(c, BlockCrc(table, Unroll(ps[0].rs)));
      FirstPiece(table, c, ps);
      assert (p.word + Words(ps[1..])) + t == p.word + (Words(ps[1..]) + t);
      StandsSplit(bits, pos, p.word, Words(ps[1..]) + t);
      PieceBack(bits, pos, level, table, c, out, p);
      PiecesBack(bits, pos + |p.word|, level, table, c', out + Unroll(p.rs), ps[1..]);
      assert out + (Unroll(p.rs) + Raws(ps[1..])) == (out + Unroll(p.rs)) + Raws(ps[1..]);
    }
  }

  lemma NoPieces(table: Tables, c: bv32, ps: seq<Piece>)
    requires ps == []
    ensures Words(ps) == [] && Raws(ps) == [] && Combined(table, c, ps) == c
  {
  }

  lemma FirstPiece(table: Tables, c: bv32, ps: seq<Piece>)
    requires ps != []
    ensures Words(ps) == ps[0].word + Words(ps[1..]) && Raws(ps) == Unroll(ps[0].rs) + Raws(ps[1..])
    ensures Combined(table, c, ps) == Combined(table, Combine(c, BlockCrc(table, Unroll(ps[0].rs))), ps[1..])
  {
    hide Unroll, BlockCrc, Combine;
  }

  /** The stream theorem: whatever the blocks, their sorting and their codes, reading the padded bits
      yields the bytes that went in; no checksum fails and no error is met. */
  lemma StreamRoundTrip(bits: seq<bool>, table: Tables, level: nat, ps: seq<Piece>)
    requires 1 <= level <= 9 && (forall i :: 0 <= i < |ps| ==> PieceOk(table, level, ps[i]))
    requires Padded(StreamBits(table, level, ps), bits)
    ensures ParseStream(bits, table) == Whole(Raws(ps))
  {
    hide *;
    var r := Words(ps) + Trailer(Combined(table, 0, ps));
    StreamIs(table, level, ps);
    PaddedStands(StreamBits(table, level, ps), bits);
    Magics();
    Widths();
    StandsSplit(bits, 0, ByteBits(STREAM_MAGIC) + BitsOf(0x30 + level, 8), r);
    StandsSplit(bits, 0, ByteBits(STREAM_MAGIC), BitsOf(0x30 + level, 8));
    MagicBack(bits, 0, STREAM_MAGIC);
    FieldBack(bits, 24, 0x30 + level, 8);
    PiecesBack(bits, 32, level, table, 0, [], ps);
    assert [] + Raws(ps) == Raws(ps);
    ParseStreamIs(bits, table, level);
  }

  lemma StreamIs(table: Tables, level: nat, ps: seq<Piece>)
    requires level <= 9
    ensures StreamBits(table, level, ps) == ByteBits(STREAM_MAGIC) + BitsOf(0x30 + level, 8) + (Words(ps) + Trailer(Combined(table, 0, ps)))
  {
    hide Words, Trailer, Combined, ByteBits, BitsOf;
  }

  lemma PaddedStands(w: seq<bool>, bits: seq<bool>)
    requires Padded(w, bits)
    ensures Stands(bits, 0, w)
  {
  }

  lemma ParseStreamIs(bits: seq<bool>, table: Tables, level: nat)
    requires 1 <= level <= 9 && ParseMagic(bits, 0, STREAM_MAGIC) == Got((), 24) && ReadBits(bits, 24, 8) == Got(0x30 + level, 32)
    ensures ParseStream(bits, table) == ParseBlocks(bits, 32, level, table, 0, [])
  {
    hide ParseMagic, ReadBits, ParseBlocks;
  }
}

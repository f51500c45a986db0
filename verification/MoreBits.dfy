/** Reading never looks beyond what it has read: what is found in some of the input is found in all of it. */
module MoreBits {
  import opened Rotations
  import opened Bits
  import opened Parsing
  import opened CanonicalCodes
  import opened BitIO
  import opened MtfEncoder
  import opened Wire
  import opened BlockFormat
  import opened Randomising
  import opened StreamFormat
  import opened Decompressor

  lemma SameSlice(bits: seq<bool>, all: seq<bool>, p: nat, q: nat)
    requires bits <= all && p <= q <= |bits|
    ensures bits[p..q] == all[p..q]
  {
  }

  lemma SameBits(bits: seq<bool>, all: seq<bool>, pos: nat, n: nat)
    requires bits <= all && !ReadBits(bits, pos, n).Starved?
    ensures ReadBits(all, pos, n) == ReadBits(bits, pos, n)
  {
    hide ToNat;
    SameSlice(bits, all, pos, pos + n);
  }

  lemma {:induction false} SameMagic(bits: seq<bool>, all: seq<bool>, pos: nat, m: seq<byte>)
    requires bits <= all && !ParseMagic(bits, pos, m).Starved?
    ensures ParseMagic(all, pos, m) == ParseMagic(bits, pos, m)
    decreases |m|
  {
    if m != [] {
      hide ReadBits;
      SameBits(bits, all, pos, 8);
      var r := ReadBits(bits, pos, 8);
      if r.Got? && r.value == m[0] { SameMagic(bits, all, r.pos, m[1..]); }
    }
  }

  // ---------- the block ----------

  lemma {:induction false} SameRows(bits: seq<bool>, all: seq<bool>, pos: nat, flags: seq<bool>, k: nat)
    requires bits <= all && |flags| == 16 && k <= 16 && !ParseRows(bits, pos, flags, k).Starved?
    ensures ParseRows(all, pos, flags, k) == ParseRows(bits, pos, flags, k)
  {
    if k > 0 {
      SameRows(bits, all, pos, flags, k - 1);
      var r := ParseRows(bits, pos, flags, k - 1);
      if r.Got? && flags[k - 1] { SameSlice(bits, all, r.pos, r.pos + 16); }
    }
  }

  lemma SameMap(bits: seq<bool>, all: seq<bool>, pos: nat)
    requires bits <= all && !ParseMap(bits, pos).Starved?
    ensures ParseMap(all, pos) == ParseMap(bits, pos)
  {
    hide ParseRows;
    SameSlice(bits, all, pos, pos + 16);
    SameRows(bits, all, pos + 16, bits[pos..pos + 16], 16);
  }

  lemma {:induction false} SameUnary(bits: seq<bool>, all: seq<bool>, pos: nat, j: nat, n: nat)
    requires bits <= all && !ParseUnary(bits, pos, j, n).Starved?
    ensures ParseUnary(all, pos, j, n) == ParseUnary(bits, pos, j, n)
    decreases |bits| - pos
  {
    if bits[pos] && j + 1 < n { SameUnary(bits, all, pos + 1, j + 1, n); }
  }

  lemma {:induction false} SameSels(bits: seq<bool>, all: seq<bool>, pos: nat, n: nat, k: nat)
    requires bits <= all && !ParseSels(bits, pos, n, k).Starved?
    ensures ParseSels(all, pos, n, k) == ParseSels(bits, pos, n, k)
  {
    if k > 0 {
      hide ParseUnary;
      SameSels(bits, all, pos, n, k - 1);
      var r := ParseSels(bits, pos, n, k - 1);
      if r.Got? { SameUnary(bits, all, r.pos, 0, n); }
    }
  }

  /** A selector that no longer fits is noticed as soon as it is read. */
  lemma SamePositions(bits: seq<bool>, all: seq<bool>, pos: nat, n: nat, k: nat)
    requires bits <= all && !ParsePositions(bits, pos, n, k).Starved?
    ensures ParsePositions(all, pos, n, k) == ParsePositions(bits, pos, n, k)
  {
    hide ParseSels;
    if k > MAX_SELECTORS {
      SelsStuck(bits, pos, n, MAX_SELECTORS + 1, k);
      SameSels(bits, all, pos, n, MAX_SELECTORS + 1);
      SelsStuck(all, pos, n, MAX_SELECTORS + 1, k);
    } else {
      SameSels(bits, all, pos, n, k);
    }
  }

  lemma SameSelPart(bits: seq<bool>, all: seq<bool>, pos: nat)
    requires bits <= all && !ParseSelPart(bits, pos).Starved?
    ensures ParseSelPart(all, pos) == ParseSelPart(bits, pos)
  {
    hide ReadBits, ParsePositions, SelsOf;
    SameBits(bits, all, pos, 3);
    var g := ReadBits(bits, pos, 3);
    if g.Got? && 2 <= g.value <= MAX_GROUPS {
      SameBits(bits, all, g.pos, 15);
      var s := ReadBits(bits, g.pos, 15);
      if s.Got? && s.value >= 1 { SamePositions(bits, all, s.pos, g.value, s.value); }
    }
  }

  lemma {:induction false} SameDelta(bits: seq<bool>, all: seq<bool>, pos: nat, curr: int)
    requires bits <= all && !ParseDelta(bits, pos, curr).Starved?
    ensures ParseDelta(all, pos, curr) == ParseDelta(bits, pos, curr)
    decreases |bits| - pos
  {
    if 1 <= curr <= LONGEST && bits[pos] { SameDelta(bits, all, pos + 2, if bits[pos + 1] then curr - 1 else curr + 1); }
  }

  lemma {:induction false} SameLens(bits: seq<bool>, all: seq<bool>, pos: nat, curr: int, k: nat)
    requires bits <= all && !ParseLens(bits, pos, curr, k).Starved?
    ensures ParseLens(all, pos, curr, k) == ParseLens(bits, pos, curr, k)
  {
    if k > 0 {
      hide ParseDelta;
      SameLens(bits, all, pos, curr, k - 1);
      var r := ParseLens(bits, pos, curr, k - 1);
      if r.Got? { SameDelta(bits, all, r.pos, if r.value == [] then curr else r.value[|r.value| - 1]); }
    }
  }

  lemma SameTable(bits: seq<bool>, all: seq<bool>, pos: nat, alphaSize: nat)
    requires bits <= all && !ParseTable(bits, pos, alphaSize).Starved?
    ensures ParseTable(all, pos, alphaSize) == ParseTable(bits, pos, alphaSize)
  {
    hide ParseLens, ToNat;
    SameSlice(bits, all, pos, pos + 5);
    SameLens(bits, all, pos + 5, ToNat(bits[pos..pos + 5]), alphaSize);
  }

  lemma {:induction false} SameTables(bits: seq<bool>, all: seq<bool>, pos: nat, alphaSize: nat, n: nat)
    requires bits <= all && !ParseTables(bits, pos, alphaSize, n).Starved?
    ensures ParseTables(all, pos, alphaSize, n) == ParseTables(bits, pos, alphaSize, n)
  {
    if n > 0 {
      hide ParseTable;
      SameTables(bits, all, pos, alphaSize, n - 1);
      var r := ParseTables(bits, pos, alphaSize, n - 1);
      if r.Got? { SameTable(bits, all, r.pos, alphaSize); }
    }
  }

  lemma {:induction false} SameSym(len: seq<int>, bits: seq<bool>, all: seq<bool>, pos: nat, n: nat)
    requires bits <= all && !ReadSym(len, bits, pos, n).Starved?
    ensures ReadSym(len, all, pos, n) == ReadSym(len, bits, pos, n)
    decreases LONGEST + 1 - n
  {
    hide IsCode;
    if n <= LONGEST {
      SameSlice(bits, all, pos, pos + n);
      if !ReadSym(len, bits, pos, n + 1).Starved? { SameSym(len, bits, all, pos, n + 1); }
    }
  }

  lemma {:induction false} SameScan(bits: seq<bool>, all: seq<bool>, pos: nat, lens: seq<seq<int>>, sels: seq<int>, eob: int, j: nat)
    requires forall i :: 0 <= i < |sels| ==> 0 <= sels[i] < |lens|
    requires bits <= all && !ScanFrom(bits, pos, lens, sels, eob, j).end.Starved?
    ensures ScanFrom(all, pos, lens, sels, eob, j) == ScanFrom(bits, pos, lens, sels, eob, j)
    decreases GROUP_SIZE * |sels| - j
  {
    if j < GROUP_SIZE * |sels| {
      hide ReadSym;
      SameSym(lens[sels[j / GROUP_SIZE]], bits, all, pos, 0);
      var r := NextSym(bits, pos, lens, sels, j);
      if r.Got? && r.value != eob { SameScan(bits, all, r.pos, lens, sels, eob, j + 1); }
    }
  }

  lemma SameRest(bits: seq<bool>, all: seq<bool>, pos: nat, inUse: seq<bool>, room: nat)
    requires bits <= all && |inUse| == 256 && !ParseRest(bits, pos, inUse, room).Starved?
    ensures ParseRest(all, pos, inUse, room) == ParseRest(bits, pos, inUse, room)
  {
    hide ParseSelPart, ParseTables, ScanFrom, UsedBelow, BytesOf;
    var a := |UsedBelow(inUse, 256)|;
    if a > 0 {
      SameSelPart(bits, all, pos);
      var g := ParseSelPart(bits, pos);
      if g.Got? {
        SameTables(bits, all, g.pos, a + 2, g.value.0);
        var t := ParseTables(bits, g.pos, a + 2, g.value.0);
        if t.Got? { SameScan(bits, all, t.pos, t.value, g.value.1, a + 1, 0); }
      }
    }
  }

  lemma SameBody(bits: seq<bool>, all: seq<bool>, pos: nat, room: nat)
    requires bits <= all && !ParseBody(bits, pos, room).Starved?
    ensures ParseBody(all, pos, room) == ParseBody(bits, pos, room)
  {
    hide ParseMap, ParseRest;
    SameMap(bits, all, pos);
    var m := ParseMap(bits, pos);
    if m.Got? { SameRest(bits, all, m.pos, m.value, room); }
  }

  lemma SameWalk(bits: seq<bool>, all: seq<bool>, pos: nat, level: nat)
    requires bits <= all && !ParseWalk(bits, pos, level).Starved?
    ensures ParseWalk(all, pos, level) == ParseWalk(bits, pos, level)
  {
    hide ReadBits, ParseBody;
    SameBits(bits, all, pos, 24);
    var r := ReadBits(bits, pos, 24);
    if r.Got? && r.value <= 10 + 100000 * level { SameBody(bits, all, r.pos, 100000 * level); }
  }

  // ---------- the stream ----------

  lemma SameHead(bits: seq<bool>, all: seq<bool>, pos: nat)
    requires bits <= all && !ParseHead(bits, pos).Starved?
    ensures ParseHead(all, pos) == ParseHead(bits, pos)
  {
    hide ReadBits, ParseMagic;
    SameMagic(bits, all, pos, BLOCK_MAGIC[1..]);
    var m := ParseMagic(bits, pos, BLOCK_MAGIC[1..]);
    if m.Got? {
      SameBits(bits, all, m.pos, 32);
      var s := ReadBits(bits, m.pos, 32);
      if s.Got? { SameBits(bits, all, s.pos, 1); }
    }
  }

  lemma SameEnd(bits: seq<bool>, all: seq<bool>, pos: nat, c: bv32, out: seq<byte>)
    requires bits <= all && !ParseEnd(bits, pos, c, out).MoreInput?
    ensures ParseEnd(all, pos, c, out) == ParseEnd(bits, pos, c, out)
  {
    hide ReadBits, ParseMagic;
    SameMagic(bits, all, pos, END_MAGIC[1..]);
    var m := ParseMagic(bits, pos, END_MAGIC[1..]);
    if m.Got? { SameBits(bits, all, m.pos, 32); }
  }

  /** How a reading of all the input relates to one of some of it. */
  ghost predicate GoesOn(some: Outcome, whole: Outcome) {
    if some.MoreInput? then some.out <= whole.out else whole == some
  }

  lemma {:induction false} BlocksGoOn(bits: seq<bool>, all: seq<bool>, pos: nat, level: nat, table: Tables, c: bv32, out: seq<byte>)
    requires bits <= all
    ensures GoesOn(ParseBlocks(bits, pos, level, table, c, out), ParseBlocks(all, pos, level, table, c, out))
    decreases |bits| - pos
  {
    OutGrows(all, pos, level, table, c, out);
    if !ReadBits(bits, pos, 8).Starved? {
      hide ReadBits, ParseHead, ParseWalk, ParseEnd, Undo, BlockCrc, Combine, Seen;
      SameBits(bits, all, pos, 8);
      var u := ReadBits(bits, pos, 8);
      if u.Got? && u.value == END_MAGIC[0] {
        if !ParseEnd(bits, u.pos, c, out).MoreInput? { SameEnd(bits, all, u.pos, c, out); }
      } else if u.Got? && u.value == BLOCK_MAGIC[0] && !ParseHead(bits, u.pos).Starved? {
        SameHead(bits, all, u.pos);
        var h := ParseHead(bits, u.pos);
        if h.Got? && !ParseWalk(bits, h.pos, level).Starved? {
          SameWalk(bits, all, h.pos, level);
          var w := ParseWalk(bits, h.pos, level);
          if w.Got? {
            BlockAhead(bits, h.pos, level);
            var seen := Seen(table.rand, h.value.1 != 0, w.value);
            BlocksGoOn(bits, all, w.pos, level, table, Combine(c, BlockCrc(table, Undo(seen).0)), out + Undo(seen).0);
          }
        }
      }
    }
  }

  /** More input never changes what was found in less of it: an outcome other than running out stands, and
      what had come out stays the beginning of what comes out. */
  lemma StreamGoesOn(bits: seq<bool>, all: seq<bool>, table: Tables)
    requires bits <= all
    ensures GoesOn(ParseStream(bits, table), ParseStream(all, table))
  {
    hide ReadBits, ParseMagic, ParseBlocks;
    if !ParseMagic(bits, 0, STREAM_MAGIC).Starved? {
      SameMagic(bits, all, 0, STREAM_MAGIC);
      var m := ParseMagic(bits, 0, STREAM_MAGIC);
      if m.Got? && !ReadBits(bits, m.pos, 8).Starved? {
        SameBits(bits, all, m.pos, 8);
        var v := ReadBits(bits, m.pos, 8);
        if v.Got? && 0x31 <= v.value <= 0x39 { BlocksGoOn(bits, all, v.pos, v.value - 0x30, table, 0, []); }
      }
    }
  }

  /** Bytes that arrive in two pieces: what the first of them decides stands. */
  lemma PiecesAgree(first: seq<byte>, rest: seq<byte>, table: Tables)
    ensures GoesOn(ParseStream(ByteBits(first), table), ParseStream(ByteBits(first + rest), table))
  {
    hide *;
    ByteBitsAdd(first, rest);
    StreamGoesOn(ByteBits(first), ByteBits(first + rest), table);
  }
}

/** The compressor's bit writer and the decompressor's bit reader: a 32-bit shift buffer and a byte
    string, seen from outside as one bit string. */
module BitIO {
  import opened Powers
  import opened Rotations
  import opened Bits

  const WORD: nat := 0x1_0000_0000

  function ByteBits(bytes: seq<byte>): (r: seq<bool>)
    ensures |r| == 8 * |bytes|
  {
    if bytes == [] then [] else ByteBits(bytes[..|bytes| - 1]) + BitsOf(bytes[|bytes| - 1], 8)
  }

  lemma {:induction false} ByteBitsAdd(a: seq<byte>, b: seq<byte>)
    ensures ByteBits(a + b) == ByteBits(a) + ByteBits(b)
  {
    if b == [] {
      assert a + b == a;
    } else {
      ByteBitsAdd(a, b[..|b| - 1]);
      assert (a + b)[..|a + b| - 1] == a + b[..|b| - 1];
    }
  }

  lemma OneByte(c: byte)
    ensures ByteBits([c]) == BitsOf(c, 8)
  {
    assert [c][..0] == [];
  }

  lemma Shr24(x: nat)
    ensures Shr(x, 24) == x / 0x100_0000
  {
    assert Shr(x, 8) == x / 256 by { Shr8(x); }
    Shr8(x / 256);
    Shr8(x / 0x1_0000);
    ShrAdd(x, 8, 8);
    ShrAdd(x, 16, 8);
  }

  lemma Shr8(x: nat)
    ensures Shr(x, 8) == x / 256
  {
    Shr2(x);
    Shr2(x / 4);
    Shr2(x / 16);
    Shr2(x / 64);
    ShrAdd(x, 2, 6);
    ShrAdd(x / 4, 2, 4);
    ShrAdd(x / 16, 2, 2);
  }

  lemma Shr2(x: nat)
    ensures Shr(x, 2) == x / 4
  {
    assert Shr(x, 2) == Shr(x / 2 / 2, 0);
  }

  lemma {:induction false} ShrAdd(x: nat, j: nat, k: nat)
    ensures Shr(x, j + k) == Shr(Shr(x, j), k)
    decreases j
  {
    if j > 0 { ShrAdd(x / 2, j - 1, k); }
  }

  // ---------- writing ----------

  /** A 32-bit buffer with its live bits on top and zeros below. */
  ghost predicate Packed(buff: nat, live: int) {
    0 <= live <= 32 && buff < WORD && BitsOf(buff, 32)[live..] == Zeros(32 - live)
  }

  ghost function Live(buff: nat, live: int): (r: seq<bool>)
    requires 0 <= live <= 32
    ensures |r| == live
  {
    BitsOf(buff, 32)[..live]
  }

  function TopByte(buff: nat): nat { buff / 0x100_0000 }

  function Shift8(buff: nat): nat { buff * 256 % WORD }

  lemma ShiftIs(buff: nat)
    ensures TopByte(buff) == buff / 0x100_0000 && Shift8(buff) == buff * 256 % 0x1_0000_0000
  {
  }

  /** Shifting the top byte out. */
  lemma PackedDrop(buff: nat, live: int)
    requires Packed(buff, live)
    ensures TopByte(buff) < 256
    ensures BitsOf(Shift8(buff), 32) == BitsOf(buff, 32)[8..] + Zeros(8)
    ensures BitsOf(buff, 32)[..8] == BitsOf(TopByte(buff), 8)
  {
    hide *;
    ShiftIs(buff);
    PackedBelow(buff, live);
    DropArith(buff);
    BitsSplit(buff, 8, 24);
    Shr24(buff);
    LowBits(buff);
  }

  lemma LowBits(buff: nat)
    requires buff < 0x1_0000_0000
    ensures BitsOf(buff * 256 % 0x1_0000_0000, 32) == BitsOf(buff, 24) + Zeros(8)
  {
    var c, y := buff / 0x100_0000, buff % 0x100_0000;
    hide *;
    DropArith(buff);
    ShlIs(y, 8);
    ShlIs(c, 24);
    Pow2Values();
    BitsSame(c, y, 24);
    BitsJoin(y, 0, 24, 8);
    BitsZero(8);
  }

  lemma PackedBelow(buff: nat, live: int)
    requires Packed(buff, live)
    ensures buff < 0x1_0000_0000
  {
  }

  lemma DropArith(buff: nat)
    requires buff < 0x1_0000_0000
    ensures var c, y := buff / 0x100_0000, buff % 0x100_0000;
            buff == c * 0x100_0000 + y && buff * 256 % 0x1_0000_0000 == y * 256 && c < 256 && y < 0x100_0000
  {
  }

  lemma DropByte(buff: nat, live: int)
    requires Packed(buff, live) && live >= 8
    ensures Packed(Shift8(buff), live - 8)
    ensures TopByte(buff) < 256
    ensures Live(buff, live) == BitsOf(TopByte(buff), 8) + Live(Shift8(buff), live - 8)
  {
    PackedDrop(buff, live);
    hide BitsOf, TopByte, Shift8;
    var b := BitsOf(buff, 32);
    assert b[live..] == b[8..][live - 8..];
    assert (b[8..] + Zeros(8))[live - 8..] == b[live..] + Zeros(8) == Zeros(40 - live);
    assert b[..live] == b[..8] + b[8..][..live - 8];
  }

  /** The last byte goes out filled up with zeros. */
  lemma DropLast(buff: nat, live: int)
    requires Packed(buff, live) && 0 < live < 8
    ensures TopByte(buff) < 256
    ensures BitsOf(TopByte(buff), 8) == Live(buff, live) + Zeros(8 - live)
  {
    PackedDrop(buff, live);
    hide BitsOf, TopByte, Shift8;
    var b := BitsOf(buff, 32);
    assert b[..8] == b[..live] + b[live..][..8 - live];
  }

  /** Putting n bits in; the operands of the source's OR have no bit in common. */
  lemma PackedAdd(buff: nat, live: int, n: nat, v: nat)
    requires Packed(buff, live) && live + n <= 32 && v < Pow2(n)
    ensures Packed(buff + Shl(v, 32 - live - n), live + n)
    ensures Live(buff + Shl(v, 32 - live - n), live + n) == Live(buff, live) + BitsOf(v, n)
  {
    hide BitsOf, Shl, Pow2;
    Pow2Values();
    AddShifted(buff, v, live, n, 32 - live - n);
    var b := BitsOf(buff + Shl(v, 32 - live - n), 32);
    assert b[live + n..] == Zeros(32 - live - n);
    assert b[..live + n] == Live(buff, live) + BitsOf(v, n);
  }

  lemma EmptyBuffer()
    ensures Packed(0, 0) && ByteBits([]) == []
  {
    BitsZero(32);
  }

  class BitWriter {
    var zbits: seq<byte>
    var bsBuff: nat
    var bsLive: int  // negative only after the last byte has been filled up

    ghost predicate Valid()
      reads this
    {
      Packed(bsBuff, bsLive)
    }

    /** Everything written so far. */
    ghost function Bits(): seq<bool>
      requires Valid()
      reads this
    {
      ByteBits(zbits) + Live(bsBuff, bsLive)
    }

    /** BZ2_bsInitWrite */
    constructor ()
      ensures Valid() && Bits() == []
    {
      zbits, bsBuff, bsLive := [], 0, 0;
      EmptyBuffer();
    }

    lemma State()
      ensures Valid() <==> Packed(bsBuff, bsLive)
      ensures Valid() ==> 0 <= bsLive <= 32 && Bits() == ByteBits(zbits) + Live(bsBuff, bsLive)
    {
      hide ByteBits, BitsOf, Live;
    }

    /** Moves the top byte of the buffer to the output. */
    method PutByte()
      requires Valid() && bsLive >= 8
      modifies this
      ensures Valid() && Bits() == old(Bits()) && bsLive == old(bsLive) - 8
    {
      hide *;
      State();
      DropByte(bsBuff, bsLive);
      ByteBitsAdd(zbits, [TopByte(bsBuff)]);
      OneByte(TopByte(bsBuff));
      zbits := zbits + [TopByte(bsBuff)];
      bsBuff := Shift8(bsBuff);
      bsLive := bsLive - 8;
      State();
    }

    /** bsW: appends the n low bits of v, most significant first. */
    method Put(n: nat, v: nat)
      requires Valid() && n <= 24 && v < Pow2(n)
      modifies this
      ensures Valid() && Bits() == old(Bits()) + BitsOf(v, n)
    {
      hide ByteBits, BitsOf, Live;
      while bsLive >= 8
        invariant Valid() && Bits() == old(Bits())
        decreases bsLive
      {
        PutByte();
      }
      PackedAdd(bsBuff, bsLive, n, v);
      bsBuff := bsBuff + Shl(v, 32 - bsLive - n);
      bsLive := bsLive + n;
    }

    /** bsFinishWrite: flushes the buffer, filling the last byte with zeros. */
    method Finish()
      requires Valid()
      modifies this
      ensures Padded(old(Bits()), ByteBits(zbits))
    {
      ghost var all := Bits();
      hide ByteBits, BitsOf, Padded, Live;
      while bsLive > 0
        invariant if bsLive >= 0 then Valid() && Bits() == all else Padded(all, ByteBits(zbits))
        decreases bsLive
      {
        if bsLive >= 8 {
          PutByte();
        } else {
          LastByte(bsBuff, bsLive, zbits);
          zbits := zbits + [TopByte(bsBuff)];
          bsBuff := Shift8(bsBuff);
          bsLive := bsLive - 8;
        }
      }
      if bsLive == 0 { PaddedNone(all, zbits, bsBuff); }
    }
  }

  /** Zeros up to the next byte boundary. */
  ghost predicate Padded(bits: seq<bool>, padded: seq<bool>) {
    exists n: nat :: n < 8 && (|bits| + n) % 8 == 0 && padded == bits + Zeros(n)
  }

  lemma PaddedNone(all: seq<bool>, out: seq<byte>, buff: nat)
    requires all == ByteBits(out) + Live(buff, 0)
    ensures Padded(all, ByteBits(out))
  {
    assert ByteBits(out) == all + Zeros(0);
  }

  lemma LastByte(buff: nat, live: int, out: seq<byte>)
    requires Packed(buff, live) && 0 < live < 8
    ensures TopByte(buff) < 256
    ensures Padded(ByteBits(out) + Live(buff, live), ByteBits(out + [TopByte(buff)]))
  {
    var c := TopByte(buff);
    DropLast(buff, live);
    ByteBitsAdd(out, [c]);
    OneByte(c);
    hide Packed, ByteBits, BitsOf;
    assert ByteBits(out) + Live(buff, live) + Zeros(8 - live) == ByteBits(out) + BitsOf(c, 8);
  }

  // ---------- reading ----------

  lemma {:induction false} ByteBitsAt(bytes: seq<byte>, k: nat)
    requires k < |bytes|
    ensures ByteBits(bytes)[8 * k..8 * k + 8] == BitsOf(bytes[k], 8)
  {
    if k < |bytes| - 1 {
      ByteBitsAt(bytes[..|bytes| - 1], k);
      hide BitsOf;
      var w := ByteBits(bytes[..|bytes| - 1]);
      assert (w + BitsOf(bytes[|bytes| - 1], 8))[8 * k..8 * k + 8] == w[8 * k..8 * k + 8];
    }
  }

  /** The last live bits of the buffer are the bits up to the next byte of the input. */
  ghost predicate Buffered(all: seq<bool>, next: nat, buff: nat, live: int) {
    0 <= live <= 32 && live <= 8 * next <= |all| && buff < WORD && BitsOf(buff, live) == all[8 * next - live..8 * next]
  }

  lemma BufferStart(all: seq<bool>)
    ensures Buffered(all, 0, 0, 0)
  {
  }

  /** Shifting a byte in: the bits lost off the top were consumed long before. */
  lemma BufferLoad(all: seq<bool>, next: nat, buff: nat, live: int, c: byte)
    requires Buffered(all, next, buff, live) && live <= 24 && 8 * next + 8 <= |all|
    requires all[8 * next..8 * next + 8] == BitsOf(c, 8)
    ensures Buffered(all, next + 1, Shift8(buff) + c, live + 8)
  {
    LoadedBits(buff, live, c);
    hide BitsOf, Shift8;
    Joined(all, 8 * next - live, 8 * next);
  }

  lemma Joined(all: seq<bool>, p: nat, q: nat)
    requires p <= q && q + 8 <= |all|
    ensures all[p..q + 8] == all[p..q] + all[q..q + 8]
  {
  }

  /** What the buffer loses at the top and gains at the bottom. */
  lemma LoadArith(buff: nat, c: byte)
    requires buff < WORD
    ensures Shift8(buff) + c < WORD && Shl(TopByte(buff), 32) + (Shift8(buff) + c) == Shl(buff, 8) + c
  {
    DropArith(buff);
    ShiftIs(buff);
    hide *;
    ShlIs(TopByte(buff), 32);
    ShlIs(buff, 8);
    Pow2Values();
    WordIs();
  }

  lemma WordIs()
    ensures WORD == 0x1_0000_0000
  {
  }

  lemma LoadedBits(buff: nat, live: int, c: byte)
    requires buff < WORD && 0 <= live <= 24
    ensures BitsOf(Shift8(buff) + c, live + 8) == BitsOf(buff, live) + BitsOf(c, 8)
    ensures Shift8(buff) + c < WORD
  {
    hide *;
    var x := Shift8(buff) + c;
    LoadArith(buff, c);
    ShlAdd(TopByte(buff), 24 - live, live + 8);
    BitsSame(Shl(TopByte(buff), 24 - live), x, live + 8);
    Pow2Values();
    BitsJoin(buff, c, live, 8);
  }

  lemma BufferTake(all: seq<bool>, next: nat, buff: nat, live: int, n: nat)
    requires Buffered(all, next, buff, live) && n <= live
    ensures Buffered(all, next, buff, live - n)
    ensures Low(Shr(buff, live - n), n) == ToNat(all[8 * next - live..8 * next - live + n])
  {
    BitsSplit(buff, n, live - n);
    LowIs(Shr(buff, live - n), n);
    hide BitsOf, ToNat, Shr, Low;
    var w := all[8 * next - live..8 * next];
    assert w == BitsOf(Shr(buff, live - n), n) + BitsOf(buff, live - n);
    assert w[..n] == all[8 * next - live..8 * next - live + n];
    assert w[n..] == all[8 * next - (live - n)..8 * next];
  }

  class BitReader {
    const input: seq<byte>
    var next: nat  // bytes consumed
    var bsBuff: nat
    var bsLive: int

    ghost predicate Valid()
      reads this
    {
      Buffered(All(), next, bsBuff, bsLive)
    }

    ghost function All(): (r: seq<bool>)
      ensures |r| == 8 * |input|
    {
      ByteBits(input)
    }

    /** How many bits have been taken. */
    ghost function Pos(): (p: nat)
      requires Valid()
      reads this
      ensures p <= |All()|
    {
      8 * next - bsLive
    }

    constructor (input: seq<byte>)
      ensures Valid() && this.input == input && Pos() == 0
    {
      this.input := input;
      next, bsBuff, bsLive := 0, 0, 0;
      new;
      BufferStart(All());
    }

    /** Shifts one more byte into the buffer. */
    method Load()
      requires Valid() && bsLive <= 24 && next < |input|
      modifies this
      ensures Valid() && Pos() == old(Pos()) && next == old(next) + 1 && bsLive == old(bsLive) + 8
    {
      ByteBitsAt(input, next);
      BufferLoad(All(), next, bsBuff, bsLive, input[next]);
      hide ByteBits, Buffered, Shift8;
      bsBuff := Shift8(bsBuff) + input[next];
      bsLive := bsLive + 8;
      next := next + 1;
    }

    /** Takes n bits off the buffer. */
    method Take(n: nat) returns (v: nat)
      requires Valid() && n <= bsLive
      modifies this
      ensures Valid() && Pos() == old(Pos()) + n <= |All()|
      ensures v == ToNat(All()[old(Pos())..old(Pos()) + n]) && v < Pow2(n)
    {
      BufferRange(All(), next, bsBuff, bsLive);
      BufferTake(All(), next, bsBuff, bsLive, n);
      ToNatBound(All()[Pos()..Pos() + n]);
      hide ByteBits, Buffered, ToNat, Pow2, Low, Shr;
      v := Low(Shr(bsBuff, bsLive - n), n);
      bsLive := bsLive - n;
    }

    /** GET_BITS: the next n bits as a number, or not enough input, with nothing taken. */
    method Get(n: nat) returns (ok: bool, v: nat)
      requires Valid() && n <= 24
      modifies this
      ensures Valid() && (ok <==> old(Pos()) + n <= |All()|)
      ensures ok ==> Pos() == old(Pos()) + n && v == ToNat(All()[old(Pos())..old(Pos()) + n]) && v < Pow2(n)
      ensures !ok ==> Pos() == old(Pos())
    {
      hide Buffered, ToNat, Pow2;
      BufferRange(All(), next, bsBuff, bsLive);
      while bsLive < n
        invariant Valid() && Pos() == old(Pos()) && 0 <= bsLive
        decreases |input| - next
      {
        BufferRange(All(), next, bsBuff, bsLive);
        if next == |input| { return false, 0; }
        Load();
      }
      v := Take(n);
      ok := true;
    }
  }

  lemma BufferRange(all: seq<bool>, next: nat, buff: nat, live: int)
    requires Buffered(all, next, buff, live)
    ensures 0 <= live <= 32 && live <= 8 * next <= |all|
  {
  }
}

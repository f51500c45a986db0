/** Where reading the selectors leaves the two arrays they are kept in.  The count comes from fifteen bits
    and is only compared with one, while the arrays have 18002 entries. */
module SelectorBounds {
  import opened Powers
  import opened Rotations
  import opened Bits
  import opened BitIO
  import opened Parsing
  import opened MoveToFront
  import opened MtfEncoder
  import opened Wire
  import opened BlockFormat
  import opened StreamFormat

  /** How many selector positions are read, and stored at the indices below, before reading stops. */
  ghost function Stored(bits: seq<bool>, pos: nat, n: nat, k: nat): (r: nat)
    ensures r <= k
  {
    if k == 0 then 0 else if ParseSels(bits, pos, n, k).Got? then k else Stored(bits, pos, n, k - 1)
  }

  lemma {:induction false} StoredPast(bits: seq<bool>, pos: nat, n: nat, k: nat, m: nat)
    ensures Stored(bits, pos, n, k) > m <==> k > m && ParseSels(bits, pos, n, m + 1).Got?
  {
    if k > 0 {
      StoredPast(bits, pos, n, k - 1, m);
      SelsStuck(bits, pos, n, m + 1, k);
    }
  }

  ghost predicate Inside(i: nat) { i < MAX_SELECTORS }

  /** Every index stored to is inside the arrays exactly when reading does not report an overrun. */
  lemma InsideIff(bits: seq<bool>, pos: nat, n: nat, k: nat)
    ensures (forall i: nat :: i < Stored(bits, pos, n, k) ==> Inside(i)) <==> ParsePositions(bits, pos, n, k) != Overrun
  {
    StoredPast(bits, pos, n, k, MAX_SELECTORS);
    assert !Inside(MAX_SELECTORS);
    if Stored(bits, pos, n, k) <= MAX_SELECTORS {
      forall i: nat | i < Stored(bits, pos, n, k) ensures Inside(i) {}
    }
  }

  /** The count a block declares. */
  ghost function DeclaredSelectors(bits: seq<bool>, pos: nat): nat {
    if pos + 18 <= |bits| then ToNat(bits[pos + 3..pos + 18]) else 0
  }

  /** How many indices, from 0 up, are stored to while the selectors at pos are read. */
  ghost function StoredIn(bits: seq<bool>, pos: nat): nat {
    match ReadBits(bits, pos, 3)
    case Got(g, p) => if pos + 18 <= |bits| && 2 <= g <= MAX_GROUPS then Stored(bits, pos + 18, g, DeclaredSelectors(bits, pos)) else 0
    case _ => 0
  }

  ghost predicate StaysInside(bits: seq<bool>, pos: nat) {
    forall i: nat :: i < StoredIn(bits, pos) ==> Inside(i)
  }

  /** Reading the selectors at pos stores only inside the arrays exactly when it does not report an overrun. */
  lemma StaysIff(bits: seq<bool>, pos: nat)
    ensures StaysInside(bits, pos) <==> ParseSelPart(bits, pos) != Overrun
  {
    hide ParseSels, SelsOf, ToNat, Stored, Iota, ParsePositions;
    match ReadBits(bits, pos, 3)
    case Got(g, p) =>
      if pos + 18 <= |bits| {
        InsideIff(bits, pos + 18, g, DeclaredSelectors(bits, pos));
        NoPositions(bits, pos + 18, g);
      }
    case _ =>
  }

  lemma NoPositions(bits: seq<bool>, pos: nat, n: nat)
    ensures ParsePositions(bits, pos, n, 0) != Overrun
  {
  }

  /** A count the arrays can hold is enough to stay inside them. */
  lemma GuardSuffices(bits: seq<bool>, pos: nat)
    requires DeclaredSelectors(bits, pos) <= MAX_SELECTORS
    ensures StaysInside(bits, pos)
  {
    StaysIff(bits, pos);
    hide ParseSels, SelsOf, ToNat, StaysInside;
  }

  // ---------- past the end ----------

  lemma {:induction false} ZeroPositions(bits: seq<bool>, pos: nat, n: nat, k: nat) returns (mtf: seq<nat>)
    requires pos + k <= |bits| && forall i :: pos <= i < pos + k ==> !bits[i]
    ensures ParseSels(bits, pos, n, k) == Got(mtf, pos + k)
  {
    if k == 0 {
      mtf := [];
    } else {
      var u := ZeroPositions(bits, pos, n, k - 1);
      mtf := u + [0];
    }
  }

  /** Two groups, n selectors, all of them the first of the list. */
  ghost function ManySelectors(n: nat): seq<bool> {
    BitsOf(2, 3) + (BitsOf(n, 15) + Zeros(n))
  }

  lemma ManyAt(bits: seq<bool>, pos: nat, n: nat)
    requires MAX_SELECTORS < n < 0x8000 && Stands(bits, pos, ManySelectors(n))
    ensures DeclaredSelectors(bits, pos) == n && ParseSelPart(bits, pos) == Overrun
  {
    hide *;
    Pow2Of15();
    ManyParts(n);
    StandsSplit(bits, pos, BitsOf(2, 3), BitsOf(n, 15) + Zeros(n));
    StandsSplit(bits, pos + 3, BitsOf(n, 15), Zeros(n));
    FieldBack(bits, pos, 2, 3);
    FieldBack(bits, pos + 3, n, 15);
    ZerosStand(bits, pos + 18, n);
    var mtf := ZeroPositions(bits, pos + 18, 2, MAX_SELECTORS + 1);
    Declared(bits, pos, n);
  }

  lemma ZerosStand(bits: seq<bool>, pos: nat, n: nat)
    requires Stands(bits, pos, Zeros(n))
    ensures pos + n <= |bits| && forall i :: pos <= i < pos + n ==> !bits[i]
  {
    assert |Zeros(n)| == n;
    forall i | pos <= i < pos + n ensures !bits[i] { assert bits[i] == bits[pos..pos + n][i - pos]; }
  }

  lemma ManyParts(n: nat)
    ensures ManySelectors(n) == BitsOf(2, 3) + (BitsOf(n, 15) + Zeros(n)) && MAX_SELECTORS == 18002
  {
  }

  lemma Declared(bits: seq<bool>, pos: nat, n: nat)
    requires pos + 18 <= |bits| && n > MAX_SELECTORS && ReadBits(bits, pos, 3) == Got(2, pos + 3) && ReadBits(bits, pos + 3, 15) == Got(n, pos + 18)
    requires ParseSels(bits, pos + 18, 2, MAX_SELECTORS + 1).Got?
    ensures DeclaredSelectors(bits, pos) == n && ParseSelPart(bits, pos) == Overrun
  {
    hide ParseSels, SelsOf, ToNat;
  }

  /** The exact condition on the count a block declares: every input that declares n selectors stores only
      inside the arrays if and only if n is at most 18002. */
  lemma CountExact(n: nat)
    requires 1 <= n < 0x8000
    ensures (forall bits: seq<bool>, pos: nat :: DeclaredSelectors(bits, pos) == n ==> StaysInside(bits, pos)) <==> n <= MAX_SELECTORS
  {
    hide *;
    if n <= MAX_SELECTORS {
      forall bits: seq<bool>, pos: nat | DeclaredSelectors(bits, pos) == n ensures StaysInside(bits, pos) { GuardSuffices(bits, pos); }
    } else {
      var bits := ManySelectors(n);
      StandsAlone(bits);
      ManyAt(bits, 0, n);
      StaysIff(bits, 0);
      assert DeclaredSelectors(bits, 0) == n && !StaysInside(bits, 0);
    }
  }

  lemma StandsAlone(w: seq<bool>)
    ensures Stands(w, 0, w)
  {
  }

  // ---------- a whole stream ----------

  ghost function OneByteUsed(): (inUse: seq<bool>)
    ensures |inUse| == 256 && inUse[0]
  {
    seq(256, i => i == 0)
  }

  /** The start slot, the byte map and the selectors of a block that declares n of them. */
  ghost function ManyBlock(n: nat): seq<bool> {
    BitsOf(0, 24) + (MapBits(OneByteUsed()) + ManySelectors(n))
  }

  ghost function ManyStream(n: nat): seq<bool> {
    Header(1) + BlockWord(0, ManyBlock(n))
  }

  lemma ManyBlockAt(bits: seq<bool>, pos: nat, n: nat)
    requires MAX_SELECTORS < n < 0x8000 && Stands(bits, pos, ManyBlock(n))
    ensures ParseWalk(bits, pos, 1) == Overrun
  {
    hide *;
    var inUse := OneByteUsed();
    ManyBlockIs(n);
    StandsSplit(bits, pos, BitsOf(0, 24), MapBits(inUse) + ManySelectors(n));
    StandsSplit(bits, pos + 24, MapBits(inUse), ManySelectors(n));
    ToNat24(0);
    MapRoundTrip(bits, pos + 24, inUse);
    var p: nat := pos + 24 + |MapBits(inUse)|;
    ManyAt(bits, p, n);
    OneUsed(inUse);
    OverrunIs(bits, pos, inUse, p);
  }

  lemma ManyBlockIs(n: nat)
    ensures ManyBlock(n) == BitsOf(0, 24) + (MapBits(OneByteUsed()) + ManySelectors(n))
  {
  }

  lemma OneUsed(inUse: seq<bool>)
    requires |inUse| == 256 && inUse[0]
    ensures |UsedBelow(inUse, 256)| > 0
  {
    UsedAt(inUse, 0, 256);
  }

  lemma OverrunIs(bits: seq<bool>, pos: nat, inUse: seq<bool>, p: nat)
    requires Stands(bits, pos, BitsOf(0, 24)) && ToNat(BitsOf(0, 24)) == 0
    requires |inUse| == 256 && ParseMap(bits, pos + 24) == Got(inUse, p) && |UsedBelow(inUse, 256)| > 0 && ParseSelPart(bits, p) == Overrun
    ensures ParseWalk(bits, pos, 1) == Overrun
  {
    hide ParseMap, ParseSelPart, UsedBelow, BitsOf, ToNat;
  }

  lemma ManyStreamAt(bits: seq<bool>, n: nat, table: Tables)
    requires MAX_SELECTORS < n < 0x8000 && Stands(bits, 0, ManyStream(n))
    ensures ParseStream(bits, table) == SelectorOverrun([])
  {
    hide *;
    ManyStreamIs(n);
    Magics();
    Widths();
    StandsSplit(bits, 0, ByteBits(STREAM_MAGIC) + BitsOf(0x31, 8), BlockWord(0, ManyBlock(n)));
    StandsSplit(bits, 0, ByteBits(STREAM_MAGIC), BitsOf(0x31, 8));
    MagicBack(bits, 0, STREAM_MAGIC);
    FieldBack(bits, 24, 0x31, 8);
    WordBack(bits, 32, 0, ManyBlock(n), BlockWord(0, ManyBlock(n)));
    ManyBlockAt(bits, 113, n);
    OverrunBlocks(bits, 32, table);
    ParseStreamIs(bits, table, 1);
  }

  lemma ManyStreamIs(n: nat)
    ensures ManyStream(n) == ByteBits(STREAM_MAGIC) + BitsOf(0x31, 8) + BlockWord(0, ManyBlock(n))
  {
    hide ByteBits, BitsOf, BlockWord, ManyBlock;
  }

  lemma OverrunBlocks(bits: seq<bool>, pos: nat, table: Tables)
    requires ReadBits(bits, pos, 8) == Got(BLOCK_MAGIC[0], pos + 8) && ParseHead(bits, pos + 8) == Got((0, 0), pos + 81)
    requires ParseWalk(bits, pos + 81, 1) == Overrun
    ensures ParseBlocks(bits, pos, 1, table, 0, []) == SelectorOverrun([])
  {
    hide ParseHead, ReadBits, ParseWalk;
  }

  /** Bytes whose bits begin with these. */
  lemma {:induction false} BytesFor(w: seq<bool>) returns (input: seq<byte>)
    ensures Stands(ByteBits(input), 0, w)
    decreases |w|
  {
    if w == [] {
      input := [];
    } else {
      var c := (w + Zeros(7))[..8];
      ToNatBound(c);
      Eight();
      OfToNat(c);
      var more := BytesFor(if |w| < 8 then [] else w[8..]);
      input := [ToNat(c)] + more;
      ByteBitsAdd([ToNat(c)], more);
      OneByte(ToNat(c));
      FrontStands(w, c, ByteBits(input), ByteBits(more));
    }
  }

  lemma Eight()
    ensures Pow2(8) == 256 && |Zeros(7)| == 7
  {
  }

  lemma FrontStands(w: seq<bool>, c: seq<bool>, all: seq<bool>, more: seq<bool>)
    requires w != [] && c == (w + Zeros(7))[..8] && all == c + more && Stands(more, 0, if |w| < 8 then [] else w[8..])
    ensures Stands(all, 0, w)
  {
    if |w| >= 8 {
      assert w == w[..8] + w[8..] && c == w[..8];
      assert all[..|w|] == c + more[..|w| - 8];
    } else {
      assert all[..|w|] == c[..|w|] == w;
    }
  }

  /** For every count from 18003 to 32767 there are bytes to decompress that declare it and make reading
      store outside the arrays. */
  lemma PastTheEnd(n: nat, table: Tables) returns (input: seq<byte>)
    requires MAX_SELECTORS < n < 0x8000
    ensures Stands(ByteBits(input), 0, ManyStream(n)) && ParseStream(ByteBits(input), table) == SelectorOverrun([])
  {
    hide *;
    input := BytesFor(ManyStream(n));
    ManyStreamAt(ByteBits(input), n, table);
  }
}

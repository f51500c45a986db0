/** A whole block body: what the encoder sends for a block, what reading yields on any input, and
    the theorem that the two are inverse. */
module BlockFormat {
  import opened Powers
  import opened Rotations
  import opened Bits
  import opened Parsing
  import opened CanonicalCodes
  import opened MoveToFront
  import opened BurrowsWheeler
  import opened MtfEncoder
  import opened Wire

  const MAX_GROUPS: nat := 6
  const MAX_SELECTORS: nat := 2 + 900000 / 50
  const BLOCK_MAX: nat := 900000

  /** What the sender may choose: two to six codable tables, a selector for every fifty symbols. */
  ghost predicate Choice(lens: seq<seq<int>>, sels: seq<int>, alphaSize: nat, syms: seq<int>) {
    2 <= |lens| <= MAX_GROUPS && 1 <= |sels| <= MAX_SELECTORS && Sendable(lens, sels, alphaSize, syms)
  }

  lemma InOrder(n: nat, sels: seq<int>)
    requires forall i :: 0 <= i < |sels| ==> 0 <= sels[i] < n
    ensures forall i :: 0 <= i < |sels| ==> sels[i] in Iota(n)
  {
    forall i | 0 <= i < |sels| ensures sels[i] in Iota(n) { assert Iota(n)[sels[i]] == sels[i]; }
  }

  ghost function SelPart(lens: seq<seq<int>>, sels: seq<int>): seq<bool>
    requires forall i :: 0 <= i < |sels| ==> 0 <= sels[i] < |lens|
  {
    InOrder(|lens|, sels);
    BitsOf(|lens|, 3) + (BitsOf(|sels|, 15) + SelBits(MtfOf(Iota(|lens|), sels).1))
  }

  ghost function CodePart(lens: seq<seq<int>>, sels: seq<int>, alphaSize: nat, syms: seq<int>): seq<bool>
    requires Sendable(lens, sels, alphaSize, syms)
  {
    TableBits(lens, alphaSize) + DataBits(lens, sels, alphaSize, syms)
  }

  ghost function BodyBits(inUse: seq<bool>, lens: seq<seq<int>>, sels: seq<int>, alphaSize: nat, syms: seq<int>): seq<bool>
    requires |inUse| == 256 && Sendable(lens, sels, alphaSize, syms)
  {
    MapBits(inUse) + (SelPart(lens, sels) + CodePart(lens, sels, alphaSize, syms))
  }

  // ---------- reading ----------

  lemma {:induction false} UsedBytes(inUse: seq<bool>, k: nat)
    requires k <= |inUse| == 256
    ensures forall i :: 0 <= i < |UsedBelow(inUse, k)| ==> 0 <= UsedBelow(inUse, k)[i] < k
  {
    if k > 0 { UsedBytes(inUse, k - 1); }
  }

  /** seqToUnseq: the byte with a given sequence number. */
  ghost function ByteOf(inUse: seq<bool>, v: int): byte
    requires |inUse| == 256
  {
    UsedBytes(inUse, 256);
    var used := UsedBelow(inUse, 256);
    if 0 <= v < |used| then used[v] else 0
  }

  ghost function BytesOf(inUse: seq<bool>, col: seq<int>): (r: seq<byte>)
    requires |inUse| == 256
    ensures |r| == |col| && forall i :: 0 <= i < |col| ==> r[i] == ByteOf(inUse, col[i])
  {
    seq(|col|, i requires 0 <= i < |col| => ByteOf(inUse, col[i]))
  }

  /** The last column from the code words. */
  ghost function ParseColumn(bits: seq<bool>, pos: nat, lens: seq<seq<int>>, sels: seq<int>, inUse: seq<bool>, room: nat): (r: Parse<seq<byte>>)
    requires |inUse| == 256 && forall i :: 0 <= i < |sels| ==> 0 <= sels[i] < |lens|
    ensures !r.Overrun?
  {
    var eob := |UsedBelow(inUse, 256)| + 1;
    var scan := ScanFrom(bits, pos, lens, sels, eob, 0);
    match scan.end
    case Starved => Starved
    case Bad => Bad
    case Got(_, p) =>
      match Decode(Iota(256), scan.syms, eob, room)
      case None => Bad
      case Some(col) => Got(BytesOf(inUse, col), p)
  }

  lemma {:induction false} SelsInOrder(n: nat, mtf: seq<nat>)
    requires forall i :: 0 <= i < |mtf| ==> mtf[i] < n
    ensures forall i :: 0 <= i < n ==> 0 <= SelsOf(Iota(n), mtf).0[i] < n
    ensures forall i :: 0 <= i < |mtf| ==> 0 <= SelsOf(Iota(n), mtf).1[i] < n
  {
    if mtf != [] {
      var u := SelsOf(Iota(n), mtf[..|mtf| - 1]).0;
      SelsInOrder(n, mtf[..|mtf| - 1]);
      assert SelsOf(Iota(n), mtf).0 == Front(u, mtf[|mtf| - 1]);
    }
  }

  lemma {:induction false} ParseSelsBelow(bits: seq<bool>, pos: nat, n: nat, k: nat)
    requires n > 0 && ParseSels(bits, pos, n, k).Got?
    ensures forall i :: 0 <= i < k ==> ParseSels(bits, pos, n, k).value[i] < n
  {
    if k > 0 {
      ParseSelsBelow(bits, pos, n, k - 1);
      UnaryBelow(bits, ParseSels(bits, pos, n, k - 1).pos, 0, n);
    }
  }

  lemma {:induction false} UnaryBelow(bits: seq<bool>, pos: nat, j: nat, n: nat)
    requires j < n && ParseUnary(bits, pos, j, n).Got?
    ensures ParseUnary(bits, pos, j, n).value < n
    decreases |bits| - pos
  {
    if bits[pos] { UnaryBelow(bits, pos + 1, j + 1, n); }
  }

  /** The selector positions: the source stores each in an array of MAX_SELECTORS entries as it is read,
      without comparing the index. */
  ghost function ParsePositions(bits: seq<bool>, pos: nat, n: nat, k: nat): (r: Parse<seq<nat>>)
    ensures r.Got? ==> |r.value| == k <= MAX_SELECTORS && r == ParseSels(bits, pos, n, k)
  {
    if k > MAX_SELECTORS && ParseSels(bits, pos, n, MAX_SELECTORS + 1).Got? then Overrun
    else
      SelsStuck(bits, pos, n, MAX_SELECTORS + 1, k);
      ParseSels(bits, pos, n, k)
  }

  lemma {:induction false} SelsStuck(bits: seq<bool>, pos: nat, n: nat, k: nat, m: nat)
    ensures k <= m && !ParseSels(bits, pos, n, k).Got? ==> ParseSels(bits, pos, n, m) == ParseSels(bits, pos, n, k)
  {
    if k < m { SelsStuck(bits, pos, n, k, m - 1); }
  }

  /** nGroups, nSelectors and the selectors. */
  ghost function ParseSelPart(bits: seq<bool>, pos: nat): (r: Parse<(nat, seq<int>)>)
    ensures r.Got? ==> 2 <= r.value.0 <= MAX_GROUPS && forall i :: 0 <= i < |r.value.1| ==> 0 <= r.value.1[i] < r.value.0
  {
    match ReadBits(bits, pos, 3)
    case Starved => Starved
    case Bad => Bad
    case Got(nGroups, p) =>
      if nGroups < 2 || nGroups > MAX_GROUPS then Bad
      else
        match ReadBits(bits, p, 15)
        case Starved => Starved
        case Bad => Bad
        case Got(nSelectors, q) =>
          if nSelectors < 1 then Bad
          else
            match ParsePositions(bits, q, nGroups, nSelectors)
            case Starved => Starved
            case Bad => Bad
            case Overrun => Overrun
            case Got(mtf, e) =>
              ParseSelsBelow(bits, q, nGroups, nSelectors);
              SelsInOrder(nGroups, mtf);
              Got((nGroups, SelsOf(Iota(nGroups), mtf).1), e)
  }

  /** Everything after the byte map. */
  ghost function ParseRest(bits: seq<bool>, pos: nat, inUse: seq<bool>, room: nat): Parse<seq<byte>>
    requires |inUse| == 256
  {
    if |UsedBelow(inUse, 256)| == 0 then Bad
    else
      match ParseSelPart(bits, pos)
      case Starved => Starved
      case Bad => Bad
      case Overrun => Overrun
      case Got(g, p) =>
        match ParseTables(bits, p, |UsedBelow(inUse, 256)| + 2, g.0)
        case Starved => Starved
        case Bad => Bad
        case Got(lens, q) => ParseColumn(bits, q, lens, g.1, inUse, room)
  }

  ghost function ParseBody(bits: seq<bool>, pos: nat, room: nat): Parse<seq<byte>> {
    match ParseMap(bits, pos)
    case Starved => Starved
    case Bad => Bad
    case Got(inUse, p) => ParseRest(bits, p, inUse, room)
  }

  /** A block: the start slot, the column, and the walk back through the links, two bytes past the end
      of the block because the decoder looks that far ahead. */
  ghost function ParseWalk(bits: seq<bool>, pos: nat, level: nat): (r: Parse<seq<byte>>)
    ensures r.Got? ==> |r.value| >= 3
  {
    match ReadBits(bits, pos, 24)
    case Starved => Starved
    case Bad => Bad
    case Got(orig, p) =>
      if orig > 10 + 100000 * level then Bad
      else
        match ParseBody(bits, p, 100000 * level)
        case Starved => Starved
        case Bad => Bad
        case Overrun => Overrun
        case Got(l, q) => if orig >= |l| then Bad else Got(Readout(l, Links(l), Links(l)[orig], |l| + 2), q)
  }

  /** The block alone. */
  ghost function ParseBlock(bits: seq<bool>, pos: nat, level: nat): Parse<seq<byte>> {
    match ParseWalk(bits, pos, level)
    case Starved => Starved
    case Bad => Bad
    case Overrun => Overrun
    case Got(walk, q) => Got(walk[..|walk| - 2], q)
  }

  // ---------- the round trip ----------

  lemma SelPartBack(bits: seq<bool>, pos: nat, lens: seq<seq<int>>, sels: seq<int>)
    requires 2 <= |lens| <= MAX_GROUPS && 1 <= |sels| <= MAX_SELECTORS
    requires (forall i :: 0 <= i < |sels| ==> 0 <= sels[i] < |lens|) && Stands(bits, pos, SelPart(lens, sels))
    ensures ParseSelPart(bits, pos) == Got((|lens|, sels), pos + |SelPart(lens, sels)|)
  {
    hide *;
    var g, n := |lens|, |sels|;
    InOrder(g, sels);
    Pow2Of15();
    var u, m := MtfOf(Iota(g), sels), MtfOf(Iota(g), sels).1;
    SelPartParts(lens, sels, m);
    ToNatOf(g, 3);
    ToNatOf(n, 15);
    StandsSplit(bits, pos, BitsOf(g, 3), BitsOf(n, 15) + SelBits(m));
    StandsSplit(bits, pos + 3, BitsOf(n, 15), SelBits(m));
    SelsRoundTrip(bits, pos + 18, m, g);
    SelectorsBack(Iota(g), sels);
    ParseSelIs(bits, pos, g, n, m, sels, pos + 18 + |SelBits(m)|);
  }

  lemma SelPartParts(lens: seq<seq<int>>, sels: seq<int>, m: seq<nat>)
    requires (forall i :: 0 <= i < |sels| ==> 0 <= sels[i] < |lens|) && (forall i :: 0 <= i < |sels| ==> sels[i] in Iota(|lens|))
    requires m == MtfOf(Iota(|lens|), sels).1
    ensures SelPart(lens, sels) == BitsOf(|lens|, 3) + (BitsOf(|sels|, 15) + SelBits(m)) && |m| == |sels|
    ensures MAX_GROUPS == 6 && MAX_SELECTORS == 18002 && forall i :: 0 <= i < |m| ==> m[i] < |lens|
  {
    hide BitsOf, SelBits, MtfOf;
  }

  lemma ParseSelIs(bits: seq<bool>, pos: nat, g: nat, n: nat, m: seq<nat>, sels: seq<int>, end: nat)
    requires Stands(bits, pos, BitsOf(g, 3)) && ToNat(BitsOf(g, 3)) == g && 2 <= g <= MAX_GROUPS
    requires Stands(bits, pos + 3, BitsOf(n, 15)) && ToNat(BitsOf(n, 15)) == n && 1 <= n <= MAX_SELECTORS
    requires ParseSels(bits, pos + 18, g, n) == Got(m, end) && (forall i :: 0 <= i < |m| ==> m[i] < g) && SelsOf(Iota(g), m).1 == sels
    ensures ParseSelPart(bits, pos) == Got((g, sels), end)
  {
    hide BitsOf, ToNat, ParseSels, SelsOf, Iota;
  }

  lemma Pow2Of15()
    ensures Pow2(3) == 8 && Pow2(15) == 32768
  {
    assert Pow2(8) == 256;
  }

  lemma {:induction false} EncodeRange(list: seq<int>, col: seq<int>, pend: nat)
    requires |list| > 0 && forall i :: 0 <= i < |col| ==> col[i] in list
    ensures forall i :: 0 <= i < |Encode(list, col, pend)| ==> 0 <= Encode(list, col, pend)[i] <= |list|
    decreases |col|
  {
    if col != [] {
      if col[0] == list[0] {
        EncodeRange(list, col[1..], pend + 1);
      } else {
        var k := IndexOf(list, col[0]);
        forall v ensures v in list <==> v in Front(list, k) { FrontSame(list, k, v); }
        EncodeRange(Front(list, k), col[1..], 0);
      }
    }
  }

  /** The symbols sent for a column: all in the alphabet, the end marker only at the end. */
  lemma SymbolsRange(l: seq<byte>, inUse: seq<bool>)
    requires AllUsed(l, inUse) && |l| > 0
    ensures var n, syms := |UsedBelow(inUse, 256)|, Symbols(l, inUse);
            && n > 0 && |syms| > 0 && syms[|syms| - 1] == n + 1
            && forall i :: 0 <= i < |syms| - 1 ==> 0 <= syms[i] <= n
  {
    NumberedInList(l, inUse);
    UsedAt(inUse, l[0], 256);
    EncodeRange(Iota(|UsedBelow(inUse, 256)|), Numbered(l, inUse), 0);
  }

  lemma ColumnDecodes(l: seq<byte>, inUse: seq<bool>, room: nat)
    requires AllUsed(l, inUse) && 0 < |l| <= room < 0x10_0000
    ensures Decode(Iota(256), Symbols(l, inUse), |UsedBelow(inUse, 256)| + 1, room) == Some(Numbered(l, inUse))
    ensures BytesOf(inUse, Numbered(l, inUse)) == l
  {
    hide *;
    AllUsedSize(l, inUse);
    var n, col := |UsedBelow(inUse, 256)|, Numbered(l, inUse);
    IotaExtends(n);
    NumberedInList(l, inUse);
    SymbolsSize(l, inUse);
    BytesBack(l, inUse);
    assert Copies(0, 0) + col == col;
    RoundTrip(Iota(n), Iota(256), col, 0, n + 1, room);
  }

  lemma IotaExtends(n: nat)
    requires n <= 256
    ensures Extends(Iota(256), Iota(n))
  {
  }

  lemma SymbolsSize(l: seq<byte>, inUse: seq<bool>)
    requires AllUsed(l, inUse) && |l| > 0 && |inUse| == 256
    requires forall i :: 0 <= i < |l| ==> Numbered(l, inUse)[i] in Iota(|UsedBelow(inUse, 256)|)
    ensures |UsedBelow(inUse, 256)| > 0
    ensures Symbols(l, inUse) == Encode(Iota(|UsedBelow(inUse, 256)|), Numbered(l, inUse), 0) + [|UsedBelow(inUse, 256)| + 1]
  {
    UsedAt(inUse, l[0], 256);
    hide Encode, Numbered, UsedBelow;
  }

  lemma BytesBack(l: seq<byte>, inUse: seq<bool>)
    requires AllUsed(l, inUse) && |inUse| == 256
    ensures BytesOf(inUse, Numbered(l, inUse)) == l
  {
    var col := Numbered(l, inUse);
    hide UsedBelow;
    forall i | 0 <= i < |l| ensures ByteOf(inUse, col[i]) == l[i] { UsedAt(inUse, l[i], 256); }
  }

  /** The alphabet and the symbols of a column. */
  ghost predicate SymbolsOf(l: seq<byte>, inUse: seq<bool>, alphaSize: nat, syms: seq<int>) {
    AllUsed(l, inUse) && |l| > 0 && alphaSize == |UsedBelow(inUse, 256)| + 2 && syms == Symbols(l, inUse)
  }

  lemma SymbolsOfParts(l: seq<byte>, inUse: seq<bool>, alphaSize: nat, syms: seq<int>)
    requires SymbolsOf(l, inUse, alphaSize, syms)
    ensures |inUse| == 256 && AllUsed(l, inUse) && |l| > 0 && alphaSize == |UsedBelow(inUse, 256)| + 2 && syms == Symbols(l, inUse)
    ensures |UsedBelow(inUse, 256)| > 0
  {
    SymbolsRange(l, inUse);
  }

  lemma ColumnBack(bits: seq<bool>, pos: nat, lens: seq<seq<int>>, sels: seq<int>, inUse: seq<bool>, l: seq<byte>, room: nat, alphaSize: nat, syms: seq<int>)
    requires SymbolsOf(l, inUse, alphaSize, syms) && |l| <= room < 0x10_0000 && |inUse| == 256
    requires Sendable(lens, sels, alphaSize, syms) && Stands(bits, pos, DataBits(lens, sels, alphaSize, syms))
    requires forall i :: 0 <= i < |sels| ==> 0 <= sels[i] < |lens|
    ensures ParseColumn(bits, pos, lens, sels, inUse, room) == Got(l, pos + |DataBits(lens, sels, alphaSize, syms)|)
  {
    hide *;
    SymbolsOfParts(l, inUse, alphaSize, syms);
    SymbolsRange(l, inUse);
    DataRoundTrip(bits, pos, lens, sels, alphaSize, syms);
    ColumnDecodes(l, inUse, room);
    ParseColumnIs(bits, pos, lens, sels, inUse, room, syms, Numbered(l, inUse), pos + |DataBits(lens, sels, alphaSize, syms)|);
  }

  lemma ParseColumnIs(bits: seq<bool>, pos: nat, lens: seq<seq<int>>, sels: seq<int>, inUse: seq<bool>, room: nat, syms: seq<int>, col: seq<int>, q: nat)
    requires |inUse| == 256 && forall i :: 0 <= i < |sels| ==> 0 <= sels[i] < |lens|
    requires ScanFrom(bits, pos, lens, sels, |UsedBelow(inUse, 256)| + 1, 0) == Scan(syms, Got((), q))
    requires Decode(Iota(256), syms, |UsedBelow(inUse, 256)| + 1, room) == Some(col)
    ensures ParseColumn(bits, pos, lens, sels, inUse, room) == Got(BytesOf(inUse, col), q)
  {
    hide UsedBelow, ScanFrom, Decode, BytesOf;
  }

  lemma BodyBack(bits: seq<bool>, pos: nat, inUse: seq<bool>, lens: seq<seq<int>>, sels: seq<int>, l: seq<byte>, room: nat, alphaSize: nat, syms: seq<int>)
    requires SymbolsOf(l, inUse, alphaSize, syms) && |l| <= room < 0x10_0000 && |inUse| == 256 && Sendable(lens, sels, alphaSize, syms)
    requires Choice(lens, sels, alphaSize, syms) && Stands(bits, pos, BodyBits(inUse, lens, sels, alphaSize, syms))
    ensures ParseBody(bits, pos, room) == Got(l, pos + |BodyBits(inUse, lens, sels, alphaSize, syms)|)
  {
    hide *;
    ChoiceParts(lens, sels, alphaSize, syms);
    var m, r := MapBits(inUse), SelPart(lens, sels) + CodePart(lens, sels, alphaSize, syms);
    BodyIs(inUse, lens, sels, alphaSize, syms);
    StandsSplit(bits, pos, m, r);
    MapRoundTrip(bits, pos, inUse);
    ParseBodyIs(bits, pos, room, inUse, pos + |m|);
    RestBack(bits, pos + |m|, inUse, lens, sels, l, room, alphaSize, syms);
  }

  lemma BodyIs(inUse: seq<bool>, lens: seq<seq<int>>, sels: seq<int>, alphaSize: nat, syms: seq<int>)
    requires |inUse| == 256 && Sendable(lens, sels, alphaSize, syms)
    ensures BodyBits(inUse, lens, sels, alphaSize, syms) == MapBits(inUse) + (SelPart(lens, sels) + CodePart(lens, sels, alphaSize, syms))
  {
  }

  lemma ParseBodyIs(bits: seq<bool>, pos: nat, room: nat, inUse: seq<bool>, p: nat)
    requires ParseMap(bits, pos) == Got(inUse, p)
    ensures |inUse| == 256 && ParseBody(bits, pos, room) == ParseRest(bits, p, inUse, room)
  {
  }

  lemma RestBack(bits: seq<bool>, pos: nat, inUse: seq<bool>, lens: seq<seq<int>>, sels: seq<int>, l: seq<byte>, room: nat, alphaSize: nat, syms: seq<int>)
    requires SymbolsOf(l, inUse, alphaSize, syms) && |l| <= room < 0x10_0000 && |inUse| == 256 && Sendable(lens, sels, alphaSize, syms)
    requires Choice(lens, sels, alphaSize, syms) && forall i :: 0 <= i < |sels| ==> 0 <= sels[i] < |lens|
    requires Stands(bits, pos, SelPart(lens, sels) + CodePart(lens, sels, alphaSize, syms))
    ensures ParseRest(bits, pos, inUse, room) == Got(l, pos + |SelPart(lens, sels)| + |CodePart(lens, sels, alphaSize, syms)|)
  {
    hide *;
    ChoiceParts(lens, sels, alphaSize, syms);
    SymbolsOfParts(l, inUse, alphaSize, syms);
    var s, t, d := SelPart(lens, sels), TableBits(lens, alphaSize), DataBits(lens, sels, alphaSize, syms);
    CodePartIs(lens, sels, alphaSize, syms);
    StandsSplit(bits, pos, s, t + d);
    StandsSplit(bits, pos + |s|, t, d);
    SelPartBack(bits, pos, lens, sels);
    TablesRoundTrip(bits, pos + |s|, lens, alphaSize);
    ParseRestIs(bits, pos, inUse, room, lens, sels, pos + |s|, pos + |s| + |t|);
    ColumnBack(bits, pos + |s| + |t|, lens, sels, inUse, l, room, alphaSize, syms);
  }

  lemma ChoiceParts(lens: seq<seq<int>>, sels: seq<int>, alphaSize: nat, syms: seq<int>)
    requires Choice(lens, sels, alphaSize, syms)
    ensures 2 <= |lens| <= MAX_GROUPS && 1 <= |sels| <= MAX_SELECTORS && Sendable(lens, sels, alphaSize, syms)
    ensures AllCodable(lens, alphaSize) && forall i :: 0 <= i < |sels| ==> 0 <= sels[i] < |lens|
  {
  }

  lemma AllUsedSize(l: seq<byte>, inUse: seq<bool>)
    requires AllUsed(l, inUse)
    ensures |inUse| == 256
  {
  }

  lemma CodePartIs(lens: seq<seq<int>>, sels: seq<int>, alphaSize: nat, syms: seq<int>)
    requires Sendable(lens, sels, alphaSize, syms) && AllCodable(lens, alphaSize)
    ensures CodePart(lens, sels, alphaSize, syms) == TableBits(lens, alphaSize) + DataBits(lens, sels, alphaSize, syms)
  {
  }

  lemma ParseRestIs(bits: seq<bool>, pos: nat, inUse: seq<bool>, room: nat, lens: seq<seq<int>>, sels: seq<int>, p: nat, q: nat)
    requires |inUse| == 256 && |UsedBelow(inUse, 256)| > 0 && ParseSelPart(bits, pos) == Got((|lens|, sels), p)
    requires ParseTables(bits, p, |UsedBelow(inUse, 256)| + 2, |lens|) == Got(lens, q)
    ensures (forall i :: 0 <= i < |sels| ==> 0 <= sels[i] < |lens|) && ParseRest(bits, pos, inUse, room) == ParseColumn(bits, q, lens, sels, inUse, room)
  {
    hide ParseSelPart, ParseTables, ParseColumn, UsedBelow;
  }

  ghost function BlockBits(orig: nat, inUse: seq<bool>, lens: seq<seq<int>>, sels: seq<int>, l: seq<byte>): seq<bool>
    requires AllUsed(l, inUse) && |l| > 0
    requires Sendable(lens, sels, |UsedBelow(inUse, 256)| + 2, Symbols(l, inUse))
  {
    BitsOf(orig, 24) + BodyBits(inUse, lens, sels, |UsedBelow(inUse, 256)| + 2, Symbols(l, inUse))
  }

  /** w is a form in which the block b may be sent. */
  ghost predicate Encodes(w: seq<bool>, b: seq<byte>) {
    exists p: seq<int>, orig: nat, inUse: seq<bool>, lens: seq<seq<int>>, sels: seq<int> :: EncodesWith(w, b, p, orig, inUse, lens, sels)
  }

  ghost predicate EncodesWith(w: seq<bool>, b: seq<byte>, p: seq<int>, orig: nat, inUse: seq<bool>, lens: seq<seq<int>>, sels: seq<int>) {
    && RotationSorted(b, p) && orig < |b| && p[orig] == 0
    && AllUsed(LastColumn(b, p), inUse)
    && Choice(lens, sels, |UsedBelow(inUse, 256)| + 2, Symbols(LastColumn(b, p), inUse))
    && w == BlockBits(orig, inUse, lens, sels, LastColumn(b, p))
  }

  /** The block theorem: however the block was sorted, whatever tables and selectors were chosen,
      reading it back yields the block, with no data error, and stops exactly at its end. */
  lemma BlockRoundTrip(bits: seq<bool>, pos: nat, w: seq<bool>, b: seq<byte>, level: nat)
    requires Encodes(w, b) && Stands(bits, pos, w) && |b| <= 100000 * level && level <= 9
    ensures ParseBlock(bits, pos, level) == Got(b, pos + |w|)
  {
    var p: seq<int>, orig: nat, inUse: seq<bool>, lens: seq<seq<int>>, sels: seq<int> :| EncodesWith(w, b, p, orig, inUse, lens, sels);
    BlockBack(bits, pos, w, b, level, p, orig, inUse, lens, sels);
  }

  lemma BlockBack(bits: seq<bool>, pos: nat, w: seq<bool>, b: seq<byte>, level: nat,
                  p: seq<int>, orig: nat, inUse: seq<bool>, lens: seq<seq<int>>, sels: seq<int>)
    requires EncodesWith(w, b, p, orig, inUse, lens, sels) && Stands(bits, pos, w) && |b| <= 100000 * level && level <= 9
    ensures ParseBlock(bits, pos, level) == Got(b, pos + |w|)
  {
    hide *;
    var alphaSize, syms := EncodesParts(w, b, p, orig, inUse, lens, sels);
    var l := LastColumn(b, p);
    StandsSplit(bits, pos, BitsOf(orig, 24), BodyBits(inUse, lens, sels, alphaSize, syms));
    ToNat24(orig);
    BodyBack(bits, pos + 24, inUse, lens, sels, l, 100000 * level, alphaSize, syms);
    LinksAreLinks(l);
    ParseBlockIs(bits, pos, level, orig, l, pos + |w|);
    InverseTransform(b, p, Links(l), orig);
  }

  lemma EncodesParts(w: seq<bool>, b: seq<byte>, p: seq<int>, orig: nat, inUse: seq<bool>, lens: seq<seq<int>>, sels: seq<int>)
    returns (alphaSize: nat, syms: seq<int>)
    requires EncodesWith(w, b, p, orig, inUse, lens, sels)
    ensures RotationSorted(b, p) && orig < |b| && |p| == |b| && (forall x :: 0 <= x < |p| ==> 0 <= p[x]) && p[orig] == 0
    ensures SymbolsOf(LastColumn(b, p), inUse, alphaSize, syms) && |inUse| == 256
    ensures Choice(lens, sels, alphaSize, syms) && Sendable(lens, sels, alphaSize, syms)
    ensures w == BitsOf(orig, 24) + BodyBits(inUse, lens, sels, alphaSize, syms)
  {
    hide SortedTo, Symbols, BodyBits, Sendable;
    alphaSize, syms := |UsedBelow(inUse, 256)| + 2, Symbols(LastColumn(b, p), inUse);
  }

  lemma ParseBlockIs(bits: seq<bool>, pos: nat, level: nat, orig: nat, l: seq<byte>, q: nat)
    requires Stands(bits, pos, BitsOf(orig, 24)) && ToNat(BitsOf(orig, 24)) == orig
    requires ParseBody(bits, pos + 24, 100000 * level) == Got(l, q) && orig < |l| <= 100000 * level
    ensures ParseBlock(bits, pos, level) == Got(Readout(l, Links(l), Links(l)[orig], |l|), q)
  {
    LinksAreLinks(l);
    hide ParseBody, Readout, Links, BitsOf, ToNat;
    ReadoutMore(l, Links(l), Links(l)[orig], |l|, |l| + 2);
  }

  /** The block within the walk. */
  lemma WalkShows(bits: seq<bool>, pos: nat, level: nat)
    ensures ParseBlock(bits, pos, level).Got? <==> ParseWalk(bits, pos, level).Got?
    ensures ParseBlock(bits, pos, level).Got? ==>
      && ParseBlock(bits, pos, level).pos == ParseWalk(bits, pos, level).pos
      && ParseBlock(bits, pos, level).value == ParseWalk(bits, pos, level).value[..|ParseWalk(bits, pos, level).value| - 2]
  {
    hide ParseWalk;
  }

  lemma ToNat24(v: nat)
    requires v < 900000
    ensures ToNat(BitsOf(v, 24)) == v
  {
    Pow2Values();
    ToNatOf(v, 24);
  }
}

/** BZ2_decompress for one block, with either inverse transform: on every input it returns exactly
    what the format says, and the two inverses agree. */
module BlockDecoder {
  import opened Powers
  import opened Rotations
  import opened Counting
  import opened Bits
  import opened BitIO
  import opened Parsing
  import opened CanonicalCodes
  import opened MoveToFront
  import opened BurrowsWheeler
  import opened InverseBwt
  import opened TwoLevelMtf
  import opened MtfEncoder
  import opened Wire
  import opened BlockFormat
  import opened Receiver
  import opened ColumnReader

  /** The column of the body is in out; bad data may be noticed before the input runs out. */
  ghost predicate ColumnIn(st: Status, out: seq<int>, tab: seq<int>, nblock: nat, pos: nat, room: nat, p: Parse<seq<byte>>) {
    match p
    case Got(l, q) => st == OK && nblock == |l| <= room && Held(out, tab, l) && pos == q
    case Starved => st == NEED_INPUT || st == DATA_ERROR
    case Bad => st == DATA_ERROR
    case Overrun => st == OVERRUN
  }

  lemma NoColumn<T>(st: Status, out: seq<int>, tab: seq<int>, nblock: nat, pos: nat, room: nat, v: T, x: Parse<T>, p: Parse<seq<byte>>)
    requires Agrees(st, v, pos, x) && st != OK && SameFailure(x, p)
    ensures ColumnIn(st, out, tab, nblock, pos, room, p)
  {
  }

  lemma ColumnDelivered(st: Status, out: seq<int>, tab: seq<int>, nblock: nat, bits: seq<bool>, pos: nat, end: nat, lens: seq<seq<int>>, sels: seq<int>, inUse: seq<bool>, room: nat)
    requires |inUse| == 256 && forall i :: 0 <= i < |sels| ==> 0 <= sels[i] < |lens|
    requires Delivered(st, out, tab, nblock, ScanFrom(bits, pos, lens, sels, |UsedBelow(inUse, 256)| + 1, 0), |UsedBelow(inUse, 256)| + 1, room, inUse)
    requires st == OK ==> ScanFrom(bits, pos, lens, sels, |UsedBelow(inUse, 256)| + 1, 0).end == Got((), end)
    ensures ColumnIn(st, out, tab, nblock, end, room, ParseColumn(bits, pos, lens, sels, inUse, room))
  {
    hide ScanFrom, Decode, BytesOf, UsedBelow, Held;
  }

  lemma ParseRestSteps(bits: seq<bool>, pos: nat, inUse: seq<bool>, room: nat)
    requires |inUse| == 256
    ensures |UsedBelow(inUse, 256)| == 0 ==> ParseRest(bits, pos, inUse, room) == Bad
    ensures |UsedBelow(inUse, 256)| > 0 && !ParseSelPart(bits, pos).Got? ==> SameFailure(ParseSelPart(bits, pos), ParseRest(bits, pos, inUse, room))
  {
    hide ParseSelPart, ParseTables, ParseColumn, UsedBelow;
  }

  lemma ParseRestMore(bits: seq<bool>, pos: nat, inUse: seq<bool>, room: nat, nGroups: nat, sels: seq<int>, p: nat)
    requires |inUse| == 256 && |UsedBelow(inUse, 256)| > 0 && ParseSelPart(bits, pos) == Got((nGroups, sels), p)
    ensures forall i :: 0 <= i < |sels| ==> 0 <= sels[i] < nGroups
    ensures !ParseTables(bits, p, |UsedBelow(inUse, 256)| + 2, nGroups).Got?
            ==> SameFailure(ParseTables(bits, p, |UsedBelow(inUse, 256)| + 2, nGroups), ParseRest(bits, pos, inUse, room))
  {
    hide ParseSelPart, ParseTables, ParseColumn, UsedBelow;
  }

  ghost predicate SameFailure<T, U>(x: Parse<T>, y: Parse<U>) {
    (x == Starved ==> y == Starved) && (x == Bad ==> y == Bad) && (x == Overrun ==> y == Overrun)
  }

  lemma TablesAre(bits: seq<bool>, p: nat, a: nat, n: nat, lens: seq<seq<int>>, q: nat)
    requires ParseTables(bits, p, a, n) == Got(lens, q) && 0 < a <= MAX_ALPHA_SIZE
    ensures |lens| == n && RowsOf(lens, a) && forall t {:trigger lens[t]} :: 0 <= t < |lens| ==> Lengths(lens[t])
  {
    hide ParseTables;
  }

  /** Everything after the byte map. */
  method ReceiveRest(r: BitReader, inUse: seq<bool>, out: array<int>, unzftab: array<int>, nblockMAX: nat) returns (st: Status, nblock: nat)
    requires r.Valid() && |inUse| == 256 && out != unzftab && nblockMAX <= out.Length && unzftab.Length == 256
    modifies r, out, unzftab
    ensures r.Valid() && ColumnIn(st, out[..], unzftab[..], nblock, r.Pos(), nblockMAX, ParseRest(r.All(), old(r.Pos()), inUse, nblockMAX))
  {
    hide *;
    ghost var all, p := r.All(), r.Pos();
    nblock := 0;
    var seqToUnseq, nInUse := MakeMapsD(inUse);
    ParseRestSteps(all, p, inUse, nblockMAX);
    if nInUse == 0 {
      st := DATA_ERROR;
      BadColumn(out[..], unzftab[..], nblock, r.Pos(), nblockMAX, ParseRest(all, p, inUse, nblockMAX));
      return;
    }
    var alphaSize := nInUse + 2;
    var selectorMtf, selectors := new nat[MAX_SELECTORS], new int[MAX_SELECTORS];
    var nGroups, nSelectors;
    st, nGroups, nSelectors := ReceiveSelectors(r, selectorMtf, selectors);
    var selector := selectors[..nSelectors];
    if st != OK {
      SameFails(ParseSelPart(all, p), ParseRest(all, p, inUse, nblockMAX), st, (nGroups, selector), r.Pos());
      NoColumn(st, out[..], unzftab[..], nblock, r.Pos(), nblockMAX, (nGroups, selector), ParseSelPart(all, p), ParseRest(all, p, inUse, nblockMAX));
      return;
    }
    ghost var p1 := r.Pos();
    Agreed((nGroups, selector), p1, ParseSelPart(all, p));
    ParseRestMore(all, p, inUse, nblockMAX, nGroups, selector, p1);
    var lens;
    st, lens := ReceiveTables(r, alphaSize, nGroups);
    if st != OK {
      SameFails(ParseTables(all, p1, alphaSize, nGroups), ParseRest(all, p, inUse, nblockMAX), st, lens, r.Pos());
      NoColumn(st, out[..], unzftab[..], nblock, r.Pos(), nblockMAX, lens, ParseTables(all, p1, alphaSize, nGroups), ParseRest(all, p, inUse, nblockMAX));
      return;
    }
    ghost var p2 := r.Pos();
    Agreed(lens, p2, ParseTables(all, p1, alphaSize, nGroups));
    AlphaLimit();
    TablesAre(all, p1, alphaSize, nGroups, lens, p2);
    ParseRestIs(all, p, inUse, nblockMAX, lens, selector, p1, p2);
    st, nblock := ReceiveColumn(r, inUse, seqToUnseq, nInUse, lens, selector, out, unzftab, nblockMAX);
  }

  lemma AlphaLimit()
    ensures MAX_ALPHA_SIZE == 258
  {
  }

  lemma BadColumn(out: seq<int>, tab: seq<int>, nblock: nat, pos: nat, room: nat, p: Parse<seq<byte>>)
    requires p == Bad
    ensures ColumnIn(DATA_ERROR, out, tab, nblock, pos, room, p)
  {
  }

  lemma SameFails<T, U>(x: Parse<T>, y: Parse<U>, st: Status, v: T, pos: nat)
    requires Agrees(st, v, pos, x) && st != OK
    ensures !x.Got?
  {
  }

  lemma Agreed<T>(v: T, pos: nat, p: Parse<T>)
    requires Agrees(OK, v, pos, p)
    ensures p == Got(v, pos)
  {
  }

  method ReceiveColumn(r: BitReader, inUse: seq<bool>, seqToUnseq: array<int>, nInUse: nat, lens: seq<seq<int>>, selector: seq<int>,
                       out: array<int>, unzftab: array<int>, nblockMAX: nat) returns (st: Status, nblock: nat)
    requires r.Valid() && |inUse| == 256 && out != unzftab && nblockMAX <= out.Length && unzftab.Length == 256
    requires Unseq(seqToUnseq[..], inUse) && nInUse == |UsedBelow(inUse, 256)| && 0 < nInUse <= 256 && RowsOf(lens, nInUse + 2)
    requires (forall i :: 0 <= i < |selector| ==> 0 <= selector[i] < |lens|) && forall t {:trigger lens[t]} :: 0 <= t < |lens| ==> Lengths(lens[t])
    modifies r, out, unzftab
    ensures r.Valid() && ColumnIn(st, out[..], unzftab[..], nblock, r.Pos(), nblockMAX, ParseColumn(r.All(), old(r.Pos()), lens, selector, inUse, nblockMAX))
  {
    hide *;
    ghost var p := r.Pos();
    var tables := MakeTables(lens);
    var sr := new SymbolReader(r, selector, tables, lens);
    var list := new MtfList();
    assert list.list == Iota(256);
    st, nblock := ReadColumn(sr, list, seqToUnseq[..], nInUse, out, unzftab, nblockMAX, inUse);
    ColumnDelivered(st, out[..], unzftab[..], nblock, r.All(), p, r.Pos(), lens, selector, inUse, nblockMAX);
  }

  method ReceiveBody(r: BitReader, out: array<int>, unzftab: array<int>, nblockMAX: nat) returns (st: Status, nblock: nat)
    requires r.Valid() && out != unzftab && nblockMAX <= out.Length && unzftab.Length == 256
    modifies r, out, unzftab
    ensures r.Valid() && ColumnIn(st, out[..], unzftab[..], nblock, r.Pos(), nblockMAX, ParseBody(r.All(), old(r.Pos()), nblockMAX))
  {
    hide *;
    ghost var all, p := r.All(), r.Pos();
    nblock := 0;
    var inUse;
    st, inUse := ReceiveMap(r);
    ParseBodySteps(all, p, nblockMAX);
    if st != OK {
      SameFails(ParseMap(all, p), ParseBody(all, p, nblockMAX), st, inUse[..], r.Pos());
      NoColumn(st, out[..], unzftab[..], nblock, r.Pos(), nblockMAX, inUse[..], ParseMap(all, p), ParseBody(all, p, nblockMAX));
      return;
    }
    Agreed(inUse[..], r.Pos(), ParseMap(all, p));
    ParseBodyIs(all, p, nblockMAX, inUse[..], r.Pos());
    st, nblock := ReceiveRest(r, inUse[..], out, unzftab, nblockMAX);
  }

  lemma ParseBodySteps(bits: seq<bool>, pos: nat, room: nat)
    ensures !ParseMap(bits, pos).Got? ==> SameFailure(ParseMap(bits, pos), ParseBody(bits, pos, room))
  {
    hide ParseMap, ParseRest;
  }

  // ---------- the start slot ----------

  /** BZ_X_ORIGPTR_1 to 3: three bytes, most significant first. */
  method ReceiveOrigPtr(r: BitReader) returns (ok: bool, origPtr: nat)
    requires r.Valid()
    modifies r
    ensures r.Valid() && (ok <==> old(r.Pos()) + 24 <= |r.All()|)
    ensures ok ==> r.Pos() == old(r.Pos()) + 24 && origPtr == ToNat(r.All()[old(r.Pos())..old(r.Pos()) + 24])
  {
    hide BitReader.Valid, BitReader.Pos, BitReader.All, ToNat, Pow2;
    ghost var all, p := r.All(), r.Pos();
    origPtr := 0;
    EmptyNat(all, p);
    for i := 0 to 3
      invariant r.Valid() && r.All() == all && r.Pos() == p + 8 * i <= |all| && origPtr == ToNat(all[p..p + 8 * i])
    {
      var uc;
      ok, uc := r.Get(8);
      if !ok { return; }
      ByteOn(all, p, p + 8 * i);
      origPtr := origPtr * 256 + uc;
    }
    ok := true;
  }

  lemma EmptyNat(bits: seq<bool>, p: nat)
    requires p <= |bits|
    ensures ToNat(bits[p..p]) == 0
  {
  }

  lemma LastBit(s: seq<bool>)
    requires s != []
    ensures ToNat(s) == 2 * ToNat(s[..|s| - 1]) + (if s[|s| - 1] then 1 else 0) && Pow2(|s|) == 2 * Pow2(|s| - 1)
  {
  }

  lemma Doubled(x: nat, p: nat)
    ensures x * (2 * p) == 2 * (x * p)
  {
  }

  lemma {:induction false} ToNatAdd(u: seq<bool>, v: seq<bool>)
    ensures ToNat(u + v) == ToNat(u) * Pow2(|v|) + ToNat(v)
  {
    if v == [] {
      assert u + v == u;
    } else {
      hide *;
      var w := v[..|v| - 1];
      ToNatAdd(u, w);
      LastBit(v);
      LastBit(u + v);
      assert (u + v)[..|u + v| - 1] == u + w;
      Doubled(ToNat(u), Pow2(|w|));
    }
  }

  lemma ByteOn(bits: seq<bool>, p: nat, q: nat)
    requires p <= q && q + 8 <= |bits|
    ensures ToNat(bits[p..q + 8]) == ToNat(bits[p..q]) * 256 + ToNat(bits[q..q + 8])
  {
    assert bits[p..q + 8] == bits[p..q] + bits[q..q + 8];
    ToNatAdd(bits[p..q], bits[q..q + 8]);
    Pow2Values();
  }

  // ---------- the block ----------

  /** How a returned block relates to the format. */
  ghost predicate BlockIs(st: Status, walk: seq<byte>, pos: nat, p: Parse<seq<byte>>) {
    AgreesEarly(st, walk, pos, p)
  }

  ghost predicate ColumnGot(out: seq<int>, tab: seq<int>, nblock: nat, end: nat, level: nat, p: Parse<seq<byte>>) {
    p.Got? && nblock == |p.value| <= 100000 * level && Held(out, tab, p.value) && end == p.pos
  }

  lemma BlockFails(bits: seq<bool>, pos: nat, level: nat, st: Status, out: seq<int>, tab: seq<int>, nblock: nat, end: nat, orig: nat)
    requires pos + 24 <= |bits| && ToNat(bits[pos..pos + 24]) == orig <= 10 + 100000 * level
    requires ColumnIn(st, out, tab, nblock, end, 100000 * level, ParseBody(bits, pos + 24, 100000 * level))
    ensures st != OK ==> BlockIs(st, [], end, ParseWalk(bits, pos, level))
    ensures st == OK && orig >= nblock ==> BlockIs(DATA_ERROR, [], end, ParseWalk(bits, pos, level))
    ensures st == OK ==> ColumnGot(out, tab, nblock, end, level, ParseBody(bits, pos + 24, 100000 * level))
  {
    hide ParseBody, Held, Readout, Links, ToNat;
  }

  lemma ColumnParts(out: seq<int>, tab: seq<int>, nblock: nat, end: nat, level: nat, p: Parse<seq<byte>>)
    requires ColumnGot(out, tab, nblock, end, level, p)
    ensures p.Got? && nblock == |p.value| <= 100000 * level && Held(out, tab, p.value) && p == Got(p.value, end)
  {
    hide Held;
  }

  lemma BlockSucceeds(bits: seq<bool>, pos: nat, level: nat, orig: nat, l: seq<byte>, end: nat, walk: seq<byte>)
    requires pos + 24 <= |bits| && ToNat(bits[pos..pos + 24]) == orig <= 10 + 100000 * level
    requires ParseBody(bits, pos + 24, 100000 * level) == Got(l, end) && orig < |l|
    requires walk == Readout(l, Links(l), Links(l)[orig], |l| + 2)
    ensures BlockIs(OK, walk, end, ParseWalk(bits, pos, level))
  {
    hide ParseBody, Readout, Links, ToNat;
  }

  lemma BlockEarly(bits: seq<bool>, pos: nat, level: nat, end: nat)
    ensures pos + 24 > |bits| ==> BlockIs(NEED_INPUT, [], end, ParseWalk(bits, pos, level))
    ensures pos + 24 <= |bits| && ToNat(bits[pos..pos + 24]) > 10 + 100000 * level ==> BlockIs(DATA_ERROR, [], end, ParseWalk(bits, pos, level))
  {
    hide ParseBody, Readout, Links, ToNat;
  }

  lemma HeldCounts(out: seq<int>, tab: seq<int>, l: seq<byte>)
    requires Held(out, tab, l)
    ensures |l| <= |out| && |tab| == 256 && (forall x :: 0 <= x < |l| ==> out[x] == l[x]) && forall c :: 0 <= c < 256 ==> tab[c] == Occ(l, c, |l|)
  {
  }

  /** The FAST inverse stands at the beginning of a block of which l is the last column; walk shows
      the block and two bytes more. */
  ghost predicate FastReady(s: Fast, l: seq<byte>, walk: seq<byte>)
    reads s, s.tt
  {
    && s.Linked(l, Links(l)) && |l| > 0 && |Links(l)| == |l| && (forall x :: 0 <= x < |l| ==> 0 <= Links(l)[x] < |l|)
    && s.tPos < |l| && walk == Readout(l, Links(l), s.tPos, |l| + 2)
  }

  ghost predicate SmallReady(s: Small, cftab: array<int>, l: seq<byte>, walk: seq<byte>)
    reads s, s.ll16, s.ll4, cftab
  {
    && s.Linked(l, Links(l)) && |l| > 0 && |Links(l)| == |l| && (forall x :: 0 <= x < |l| ==> 0 <= Links(l)[x] < |l|)
    && cftab.Length == 257 && (forall c :: 0 <= c <= 256 ==> cftab[c] == Start(l, c))
    && s.tPos < |l| && walk == Readout(l, Links(l), Links(l)[s.tPos], |l| + 2)
  }

  /** Receives a block and undoes its sorting with the FAST inverse. */
  method LoadFast(r: BitReader, s: Fast) returns (st: Status, nblock: nat, ghost l: seq<byte>, ghost walk: seq<byte>)
    requires r.Valid() && s.tt.Length == 100000 * s.blockSize100k
    modifies r, s, s.tt
    ensures r.Valid() && BlockIs(st, walk, r.Pos(), ParseWalk(r.All(), old(r.Pos()), s.blockSize100k))
    ensures st == OK ==> FastReady(s, l, walk) && nblock == |l| == |walk| - 2
  {
    hide *;
    ghost var all, p := r.All(), r.Pos();
    nblock, l, walk := 0, [], [];
    var ok, origPtr := ReceiveOrigPtr(r);
    BlockEarly(all, p, s.blockSize100k, r.Pos());
    if !ok { return NEED_INPUT, nblock, l, walk; }
    if origPtr > 10 + 100000 * s.blockSize100k { return DATA_ERROR, nblock, l, walk; }
    var unzftab := new int[256];
    st, nblock := ReceiveBody(r, s.tt, unzftab, 100000 * s.blockSize100k);
    BlockFails(all, p, s.blockSize100k, st, s.tt[..], unzftab[..], nblock, r.Pos(), origPtr);
    if st != OK { return; }
    if origPtr >= nblock { return DATA_ERROR, nblock, l, walk; }
    ColumnParts(s.tt[..], unzftab[..], nblock, r.Pos(), s.blockSize100k, ParseBody(all, p + 24, 100000 * s.blockSize100k));
    l := ParseBody(all, p + 24, 100000 * s.blockSize100k).value;
    LinksInside(l);
    walk := Readout(l, Links(l), Links(l)[origPtr], |l| + 2);
    UndoFast(s, unzftab, nblock, origPtr, l);
    BlockSucceeds(all, p, s.blockSize100k, origPtr, l, r.Pos(), walk);
  }

  lemma LinksInside(l: seq<byte>)
    ensures |Links(l)| == |l| && forall x :: 0 <= x < |l| ==> 0 <= Links(l)[x] < |l|
  {
    LinksAreLinks(l);
    hide Links;
  }

  method UndoFast(s: Fast, unzftab: array<int>, nblock: nat, origPtr: nat, ghost l: seq<byte>)
    requires s.tt.Length == 100000 * s.blockSize100k && unzftab != s.tt && unzftab.Length == 256
    requires Held(s.tt[..], unzftab[..], l) && origPtr < nblock == |l| <= s.tt.Length
    modifies s, s.tt
    ensures |Links(l)| == |l| && (forall x :: 0 <= x < |l| ==> 0 <= Links(l)[x] < |l|)
    ensures FastReady(s, l, Readout(l, Links(l), Links(l)[origPtr], |l| + 2))
  {
    HeldCounts(s.tt[..], unzftab[..], l);
    hide Held, Readout, Links, Start, Occ, Fast.Linked, FastReady;
    var cftab := new int[257];
    var ok := MakeCftab(unzftab, cftab, nblock, l);
    assert ok;
    s.Build(cftab, nblock, origPtr, l);
    LinksInside(l);
    FastIs(s, l, origPtr);
  }

  lemma FastIs(s: Fast, l: seq<byte>, orig: nat)
    requires s.Linked(l, Links(l)) && |Links(l)| == |l| && (forall x :: 0 <= x < |l| ==> 0 <= Links(l)[x] < |l|)
    requires orig < |l| && s.tPos == Links(l)[orig]
    ensures FastReady(s, l, Readout(l, Links(l), Links(l)[orig], |l| + 2))
  {
    hide Links, Readout, Fast.Linked;
  }

  /** Receives a block and undoes its sorting with the SMALL inverse: the same result on every input. */
  method LoadSmall(r: BitReader, s: Small, cftab: array<int>) returns (st: Status, nblock: nat, ghost l: seq<byte>, ghost walk: seq<byte>)
    requires r.Valid() && s.Allocated() && s.blockSize100k <= 9 && cftab.Length == 257 && cftab != s.ll16 && cftab != s.ll4
    modifies r, s, s.ll16, s.ll4, cftab
    ensures r.Valid() && BlockIs(st, walk, r.Pos(), ParseWalk(r.All(), old(r.Pos()), s.blockSize100k))
    ensures st == OK ==> SmallReady(s, cftab, l, walk) && nblock == |l| == |walk| - 2
    ensures s.Allocated()
  {
    hide *;
    SmallSize(s);
    ghost var all, p := r.All(), r.Pos();
    nblock, l, walk := 0, [], [];
    var ok, origPtr := ReceiveOrigPtr(r);
    BlockEarly(all, p, s.blockSize100k, r.Pos());
    if !ok { return NEED_INPUT, nblock, l, walk; }
    if origPtr > 10 + 100000 * s.blockSize100k { return DATA_ERROR, nblock, l, walk; }
    var unzftab := new int[256];
    st, nblock := ReceiveBody(r, s.ll16, unzftab, 100000 * s.blockSize100k);
    BlockFails(all, p, s.blockSize100k, st, s.ll16[..], unzftab[..], nblock, r.Pos(), origPtr);
    if st != OK { return; }
    if origPtr >= nblock { return DATA_ERROR, nblock, l, walk; }
    ColumnParts(s.ll16[..], unzftab[..], nblock, r.Pos(), s.blockSize100k, ParseBody(all, p + 24, 100000 * s.blockSize100k));
    l := ParseBody(all, p + 24, 100000 * s.blockSize100k).value;
    LinksInside(l);
    walk := Readout(l, Links(l), Links(l)[origPtr], |l| + 2);
    UndoSmall(s, cftab, unzftab, nblock, origPtr, l);
    BlockSucceeds(all, p, s.blockSize100k, origPtr, l, r.Pos(), walk);
  }

  lemma SmallSize(s: Small)
    requires s.Allocated()
    ensures s.ll16 != s.ll4 && s.ll16.Length == 100000 * s.blockSize100k
  {
  }

  lemma SmallInside(s: Small, l: seq<byte>, t: seq<int>)
    requires s.Linked(l, t)
    ensures s.tPos < |l| && s.Allocated()
  {
  }

  method UndoSmall(s: Small, cftab: array<int>, unzftab: array<int>, nblock: nat, origPtr: nat, ghost l: seq<byte>)
    requires s.Allocated() && s.ll16.Length <= 900000 && unzftab != s.ll16 && unzftab != s.ll4 && unzftab.Length == 256
    requires cftab.Length == 257 && cftab != s.ll16 && cftab != s.ll4 && cftab != unzftab
    requires Held(s.ll16[..], unzftab[..], l) && origPtr < nblock == |l| <= s.ll16.Length
    modifies s, s.ll16, s.ll4, cftab
    ensures |Links(l)| == |l| && (forall x :: 0 <= x < |l| ==> 0 <= Links(l)[x] < |l|) && s.Allocated()
    ensures SmallReady(s, cftab, l, Readout(l, Links(l), Links(l)[origPtr], |l| + 2))
  {
    hide Held, Readout, Links, Start, Occ, Small.Linked, Small.Allocated;
    HeldCounts(s.ll16[..], unzftab[..], l);
    SmallSize(s);
    var cftabCopy := new int[257];
    var ok := MakeCftab(unzftab, cftab, nblock, l);
    assert ok;
    s.Build(cftab, cftabCopy, nblock, origPtr, l);
    SmallInside(s, l, Links(l));
    LinksInside(l);
  }
}

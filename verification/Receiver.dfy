/** The block part of BZ2_decompress: reads byte map, selectors, code lengths and code words, and
    agrees with the format on every input, well-formed or not. */
module Receiver {
  import opened Powers
  import opened Rotations
  import opened Counting
  import opened Bits
  import opened BitIO
  import opened Parsing
  import opened CanonicalCodes
  import opened MoveToFront
  import opened TwoLevelMtf
  import opened MtfEncoder
  import opened Wire
  import opened BlockFormat

  /** GET_BIT */
  method GetBit(r: BitReader) returns (ok: bool, b: bool)
    requires r.Valid()
    modifies r
    ensures r.Valid() && (ok <==> old(r.Pos()) < |r.All()|)
    ensures ok ==> r.Pos() == old(r.Pos()) + 1 && b == r.All()[old(r.Pos())]
    ensures !ok ==> r.Pos() == old(r.Pos())
  {
    var v;
    ok, v := r.Get(1);
    b := v == 1;
    if ok { OneBitValue(r.All(), old(r.Pos())); }
  }

  lemma OneBitValue(bits: seq<bool>, p: nat)
    requires p < |bits|
    ensures ToNat(bits[p..p + 1]) == if bits[p] then 1 else 0
  {
    assert bits[p..p + 1][..0] == [];
  }

  // ---------- the byte map ----------

  /** Sixteen bits into an array. */
  method GetSixteen(r: BitReader, a: array<bool>, from: nat) returns (ok: bool)
    requires r.Valid() && from + 16 <= a.Length
    modifies r, a
    ensures r.Valid() && (ok <==> old(r.Pos()) + 16 <= |r.All()|)
    ensures ok ==> r.Pos() == old(r.Pos()) + 16 && a[from..from + 16] == r.All()[old(r.Pos())..old(r.Pos()) + 16]
    ensures forall i :: 0 <= i < a.Length && !(from <= i < from + 16) ==> a[i] == old(a[i])
  {
    hide BitReader.Valid, BitReader.Pos, BitReader.All;
    ghost var all, p := r.All(), r.Pos();
    for j := 0 to 16
      invariant r.Valid() && r.All() == all && r.Pos() == p + j <= |all|
      invariant a[from..from + j] == all[p..p + j]
      invariant forall i :: 0 <= i < a.Length && !(from <= i < from + 16) ==> a[i] == old(a[i])
    {
      var b;
      ok, b := GetBit(r);
      if !ok { return; }
      ghost var was := a[from..from + j];
      a[from + j] := b;
      assert a[from..from + j + 1] == was + [b];
    }
    ok := true;
  }

  lemma {:induction false} RowsStuck(bits: seq<bool>, pos: nat, flags: seq<bool>, k: nat, n: nat)
    requires |flags| == 16 && k <= n <= 16 && !ParseRows(bits, pos, flags, k).Got?
    ensures ParseRows(bits, pos, flags, n) == ParseRows(bits, pos, flags, k)
  {
    if k < n { RowsStuck(bits, pos, flags, k, n - 1); }
  }

  method ReceiveMap(r: BitReader) returns (st: Status, inUse: array<bool>)
    requires r.Valid()
    modifies r
    ensures r.Valid() && fresh(inUse) && inUse.Length == 256
    ensures Agrees(st, inUse[..], r.Pos(), ParseMap(r.All(), old(r.Pos())))
  {
    hide BitReader.Valid, BitReader.Pos, BitReader.All;
    ghost var all, p := r.All(), r.Pos();
    inUse := new bool[256](_ => false);
    var inUse16 := new bool[16];
    var ok := GetSixteen(r, inUse16, 0);
    if !ok { return NEED_INPUT, inUse; }
    assert inUse16[..] == inUse16[0..16] == all[p..p + 16];
    st := ReceiveRows(r, inUse, inUse16[..], p + 16);
  }

  method ReceiveRows(r: BitReader, inUse: array<bool>, inUse16: seq<bool>, ghost p: nat) returns (st: Status)
    requires r.Valid() && |inUse16| == 16 && p == r.Pos() && inUse.Length == 256 && forall i :: 0 <= i < 256 ==> !inUse[i]
    modifies r, inUse
    ensures r.Valid() && Agrees(st, inUse[..], r.Pos(), ParseRows(r.All(), p, inUse16, 16))
  {
    hide BitReader.Valid, BitReader.Pos, BitReader.All;
    ghost var all := r.All();
    for i := 0 to 16
      invariant r.Valid() && r.All() == all && ParseRows(all, p, inUse16, i) == Got(inUse[..16 * i], r.Pos())
      invariant forall k :: 16 * i <= k < 256 ==> !inUse[k]
    {
      ghost var was := inUse[..16 * i];
      if inUse16[i] {
        var ok := GetSixteen(r, inUse, 16 * i);
        if !ok {
          RowsStuck(all, p, inUse16, i + 1, 16);
          return NEED_INPUT;
        }
        assert inUse[..16 * (i + 1)] == was + inUse[16 * i..16 * i + 16];
      } else {
        assert inUse[..16 * (i + 1)] == was + Zeros(16);
      }
    }
    assert inUse[..16 * 16] == inUse[..];
    st := OK;
  }

  // ---------- the selectors ----------

  method ReceiveUnary(r: BitReader, nGroups: nat) returns (st: Status, j: nat)
    requires r.Valid() && nGroups > 0
    modifies r
    ensures r.Valid() && Agrees(st, j, r.Pos(), ParseUnary(r.All(), old(r.Pos()), 0, nGroups))
  {
    hide BitReader.Valid, BitReader.Pos, BitReader.All;
    ghost var all, p := r.All(), r.Pos();
    j := 0;
    while true
      invariant r.Valid() && r.All() == all && r.Pos() <= |all|
      invariant ParseUnary(all, r.Pos(), j, nGroups) == ParseUnary(all, p, 0, nGroups)
      decreases |all| - r.Pos()
    {
      var ok, b := GetBit(r);
      if !ok { return NEED_INPUT, j; }
      if !b { break; }
      j := j + 1;
      if j >= nGroups { return DATA_ERROR, j; }
    }
    st := OK;
  }

  /** Stops with OVERRUN where the source would store past the end of selectorMtf. */
  method ReceivePositions(r: BitReader, nGroups: nat, nSelectors: nat, selectorMtf: array<nat>) returns (st: Status)
    requires r.Valid() && nGroups > 0 && selectorMtf.Length == MAX_SELECTORS
    modifies r, selectorMtf
    ensures r.Valid() && (st == OK ==> nSelectors <= MAX_SELECTORS)
    ensures Agrees(st, selectorMtf[..if st == OK then nSelectors else 0], r.Pos(), ParsePositions(r.All(), old(r.Pos()), nGroups, nSelectors))
  {
    hide BitReader.Valid, BitReader.Pos, BitReader.All, ParseUnary;
    ghost var all, p := r.All(), r.Pos();
    ghost var got: seq<nat> := [];
    for i := 0 to nSelectors
      invariant r.Valid() && i <= MAX_SELECTORS && ParseSels(all, p, nGroups, i) == Got(got, r.Pos()) && selectorMtf[..i] == got
    {
      var j;
      st, j := ReceiveUnary(r, nGroups);
      SelsStuck(all, p, nGroups, i + 1, nSelectors);
      SelsStuck(all, p, nGroups, i + 1, MAX_SELECTORS + 1);
      if st != OK { return; }
      if i >= selectorMtf.Length { return OVERRUN; }
      selectorMtf[i] := j;
      got := got + [j];
    }
    st := OK;
  }

  /** Moves entry v of the list to its front. */
  method TakeSelector(pos: array<int>, v0: nat) returns (tmp: int)
    requires v0 < pos.Length
    modifies pos
    ensures tmp == old(pos[v0]) && pos[..] == Front(old(pos[..]), v0)
  {
    ghost var list := pos[..];
    var v := v0;
    tmp := pos[v];
    while v > 0
      invariant v <= v0 && tmp == list[v0]
      invariant forall i {:trigger pos[i]} :: 0 <= i < pos.Length ==> pos[i] == if v < i <= v0 then list[i - 1] else list[i]
    {
      pos[v] := pos[v - 1];
      v := v - 1;
    }
    pos[0] := tmp;
    assert pos[..] == Front(list, v0);
  }

  lemma SelsOfStep(list: seq<int>, mtf: seq<nat>, i: nat)
    requires (forall k :: 0 <= k < |mtf| ==> mtf[k] < |list|) && i < |mtf|
    ensures SelsOf(list, mtf[..i + 1]) == (Front(SelsOf(list, mtf[..i]).0, mtf[i]), SelsOf(list, mtf[..i]).1 + [SelsOf(list, mtf[..i]).0[mtf[i]]])
  {
    assert mtf[..i + 1][..i] == mtf[..i];
  }

  /** Undo the MTF values for the selectors. */
  method UndoPositions(selectorMtf: array<nat>, nGroups: nat, nSelectors: nat, selector: array<int>)
    requires selectorMtf.Length == selector.Length == MAX_SELECTORS && nSelectors <= MAX_SELECTORS
    requires forall k :: 0 <= k < nSelectors ==> selectorMtf[k] < nGroups
    modifies selector
    ensures selector[..nSelectors] == SelsOf(Iota(nGroups), selectorMtf[..nSelectors]).1
  {
    hide SelsOf, Front, Iota, MAX_SELECTORS;
    var pos := new int[nGroups](i => i);
    ghost var list, mtf := Iota(nGroups), selectorMtf[..nSelectors];
    assert pos[..] == list;
    assert mtf[..0] == [];
    SelsNone(list);
    for i := 0 to nSelectors
      invariant pos[..] == SelsOf(list, mtf[..i]).0 && selector[..i] == SelsOf(list, mtf[..i]).1
    {
      SelsOfStep(list, mtf, i);
      var tmp := TakeSelector(pos, selectorMtf[i]);
      selector[i] := tmp;
    }
    assert mtf[..nSelectors] == mtf;
  }

  lemma SelsNone(list: seq<int>)
    ensures SelsOf(list, []) == (list, [])
  {
  }

  method ReceiveSelectors(r: BitReader, selectorMtf: array<nat>, selector: array<int>) returns (st: Status, nGroups: nat, nSelectors: nat)
    requires r.Valid() && selectorMtf.Length == selector.Length == MAX_SELECTORS
    modifies r, selectorMtf, selector
    ensures r.Valid() && nSelectors <= MAX_SELECTORS
    ensures Agrees(st, (nGroups, selector[..nSelectors]), r.Pos(), ParseSelPart(r.All(), old(r.Pos())))
  {
    hide BitReader.Valid, BitReader.Pos, BitReader.All, ParsePositions, ParseSels, SelsOf, ToNat, Iota;
    nSelectors := 0;
    var ok;
    ok, nGroups := r.Get(3);
    if !ok { return NEED_INPUT, nGroups, nSelectors; }
    if nGroups < 2 || nGroups > MAX_GROUPS { return DATA_ERROR, nGroups, nSelectors; }
    var n;
    ok, n := r.Get(15);
    if !ok { return NEED_INPUT, nGroups, nSelectors; }
    if n < 1 { return DATA_ERROR, nGroups, nSelectors; }
    ghost var q := r.Pos();
    st := ReceivePositions(r, nGroups, n, selectorMtf);
    if st != OK { return; }
    ParseSelsBelow(r.All(), q, nGroups, n);
    nSelectors := n;
    UndoPositions(selectorMtf, nGroups, nSelectors, selector);
  }

  // ---------- the code lengths ----------

  method ReceiveDelta(r: BitReader, curr0: int) returns (st: Status, curr: int)
    requires r.Valid()
    modifies r
    ensures r.Valid() && Agrees(st, curr, r.Pos(), ParseDelta(r.All(), old(r.Pos()), curr0))
  {
    hide BitReader.Valid, BitReader.Pos, BitReader.All;
    ghost var all, p := r.All(), r.Pos();
    curr := curr0;
    while true
      invariant r.Valid() && r.All() == all && r.Pos() <= |all|
      invariant ParseDelta(all, r.Pos(), curr) == ParseDelta(all, p, curr0)
      decreases |all| - r.Pos()
    {
      if curr < 1 || curr > LONGEST { return DATA_ERROR, curr; }
      var ok, b := GetBit(r);
      if !ok { return NEED_INPUT, curr; }
      if !b { break; }
      ok, b := GetBit(r);
      if !ok { return NEED_INPUT, curr; }
      if !b { curr := curr + 1; } else { curr := curr - 1; }
    }
    st := OK;
  }

  lemma {:induction false} LensStuck(bits: seq<bool>, pos: nat, curr: int, k: nat, m: nat)
    requires k <= m && !ParseLens(bits, pos, curr, k).Got?
    ensures ParseLens(bits, pos, curr, m) == ParseLens(bits, pos, curr, k)
  {
    if k < m { LensStuck(bits, pos, curr, k, m - 1); }
  }

  method ReceiveLengths(r: BitReader, alphaSize: nat) returns (st: Status, len: seq<int>)
    requires r.Valid()
    modifies r
    ensures r.Valid() && Agrees(st, len, r.Pos(), ParseTable(r.All(), old(r.Pos()), alphaSize))
  {
    hide BitReader.Valid, BitReader.Pos, BitReader.All, ParseDelta, ToNat;
    ghost var all, p := r.All(), r.Pos();
    len := [];
    var ok, curr: int := r.Get(5);
    if !ok { return NEED_INPUT, len; }
    ghost var start := curr;
    for i := 0 to alphaSize
      invariant r.Valid() && r.All() == all && ParseLens(all, p + 5, start, i) == Got(len, r.Pos())
      invariant curr == if i == 0 then start else len[i - 1]
    {
      st, curr := ReceiveDelta(r, curr);
      if st != OK {
        LensStuck(all, p + 5, start, i + 1, alphaSize);
        return;
      }
      len := len + [curr];
    }
    st := OK;
  }

  lemma {:induction false} TablesStuck(bits: seq<bool>, pos: nat, alphaSize: nat, k: nat, m: nat)
    requires k <= m && !ParseTables(bits, pos, alphaSize, k).Got?
    ensures ParseTables(bits, pos, alphaSize, m) == ParseTables(bits, pos, alphaSize, k)
  {
    if k < m { TablesStuck(bits, pos, alphaSize, k, m - 1); }
  }

  method ReceiveTables(r: BitReader, alphaSize: nat, nGroups: nat) returns (st: Status, lens: seq<seq<int>>)
    requires r.Valid()
    modifies r
    ensures r.Valid() && Agrees(st, lens, r.Pos(), ParseTables(r.All(), old(r.Pos()), alphaSize, nGroups))
  {
    hide BitReader.Valid, BitReader.Pos, BitReader.All, ParseTable;
    ghost var all, p := r.All(), r.Pos();
    lens := [];
    for t := 0 to nGroups
      invariant r.Valid() && r.All() == all && ParseTables(all, p, alphaSize, t) == Got(lens, r.Pos())
    {
      var len;
      st, len := ReceiveLengths(r, alphaSize);
      if st != OK {
        TablesStuck(all, p, alphaSize, t + 1, nGroups);
        return;
      }
      lens := lens + [len];
    }
    st := OK;
  }

  // ---------- the decoding tables ----------

  datatype DecodeTable = DecodeTable(limit: seq<int>, base: seq<int>, perm: seq<int>, minLen: int)

  ghost predicate TableFor(len: seq<int>, d: DecodeTable) {
    exists maxLen: int :: TableUpTo(len, d, maxLen)
  }

  ghost predicate TableUpTo(len: seq<int>, d: DecodeTable, maxLen: int) {
    Extremes(len, d.minLen, maxLen) && Tabled(len, maxLen, d.minLen, d.limit, d.base, d.perm)
  }

  method MakeTable(len: seq<int>) returns (d: DecodeTable)
    requires Lengths(len)
    ensures TableFor(len, d)
  {
    hide Tabled;
    var alphaSize := |len|;
    var length := new int[alphaSize](v requires 0 <= v < |len| => len[v]);
    assert length[..alphaSize] == len;
    var minLen, maxLen := 32, 0;
    for v := 0 to alphaSize
      invariant forall u :: 0 <= u < v ==> minLen <= len[u] <= maxLen
      invariant v > 0 ==> minLen in len && maxLen in len
      invariant v == 0 ==> minLen == 32 && maxLen == 0
    {
      if len[v] > maxLen { maxLen := len[v]; }
      if len[v] < minLen { minLen := len[v]; }
    }
    var limit, base, perm := new int[MAX_ALPHA_SIZE], new int[MAX_ALPHA_SIZE], new int[MAX_ALPHA_SIZE];
    CreateDecodeTables(limit, base, perm, length, minLen, maxLen, alphaSize);
    d := DecodeTable(limit[..], base[..], perm[..], minLen);
    assert TableUpTo(len, d, maxLen);
  }

  ghost predicate TablesFor(lens: seq<seq<int>>, tables: seq<DecodeTable>, n: nat) {
    |tables| == n <= |lens| && forall t {:trigger tables[t]} :: 0 <= t < n ==> Lengths(lens[t]) && TableFor(lens[t], tables[t])
  }

  method MakeTables(lens: seq<seq<int>>) returns (tables: seq<DecodeTable>)
    requires forall t {:trigger lens[t]} :: 0 <= t < |lens| ==> Lengths(lens[t])
    ensures TablesFor(lens, tables, |lens|)
  {
    hide TableFor, Lengths;
    tables := [];
    for t := 0 to |lens|
      invariant TablesFor(lens, tables, t)
    {
      var d := MakeTable(lens[t]);
      tables := tables + [d];
    }
  }

  // ---------- GET_MTF_VAL ----------

  /** No code word yet, and what one more bit makes of the number. */
  ghost predicate OneMore(len: seq<int>, bits: seq<bool>, pos: nat, zn: nat)
    requires pos + zn <= |bits|
  {
    && NoneYet(len, bits, pos, zn + 1)
    && (pos + zn < |bits| ==> ToNat(bits[pos..pos + zn + 1]) == 2 * ToNat(bits[pos..pos + zn]) + if bits[pos + zn] then 1 else 0)
  }

  /** Entry k of perm, inside the alphabet, is the symbol. */
  ghost predicate Found(len: seq<int>, d: DecodeTable, bits: seq<bool>, pos: nat, zn: nat, k: int) {
    && 0 <= k < |len| <= MAX_ALPHA_SIZE == |d.perm| && d.perm[k] >= 0
    && ReadSym(len, bits, pos, 0) == Got(d.perm[k], pos + zn)
  }

  /** One look at the tables: enough bits for a symbol, or one more needed. */
  lemma Look(len: seq<int>, d: DecodeTable, bits: seq<bool>, pos: nat, zn: nat)
    requires TableFor(len, d) && NoneYet(len, bits, pos, zn) && d.minLen <= zn <= LONGEST && pos + zn <= |bits|
    ensures |d.limit| == |d.base| == |d.perm| == MAX_ALPHA_SIZE
    ensures if ToNat(bits[pos..pos + zn]) > d.limit[zn] then OneMore(len, bits, pos, zn)
            else Found(len, d, bits, pos, zn, ToNat(bits[pos..pos + zn]) - d.base[zn])
  {
    hide NoneYet, TableUpTo, OneMore, Found, ToNat;
    var maxLen: int :| TableUpTo(len, d, maxLen);
    LookAt(len, d, maxLen, bits, pos, zn);
  }

  lemma LookAt(len: seq<int>, d: DecodeTable, maxLen: int, bits: seq<bool>, pos: nat, zn: nat)
    requires TableUpTo(len, d, maxLen) && NoneYet(len, bits, pos, zn) && d.minLen <= zn <= LONGEST && pos + zn <= |bits|
    ensures |d.limit| == |d.base| == |d.perm| == MAX_ALPHA_SIZE && 0 <= zn <= LONGEST < MAX_ALPHA_SIZE
    ensures if ToNat(bits[pos..pos + zn]) > d.limit[zn] then OneMore(len, bits, pos, zn)
            else Found(len, d, bits, pos, zn, ToNat(bits[pos..pos + zn]) - d.base[zn])
  {
    hide *;
    var z := ToNat(bits[pos..pos + zn]);
    TableParts(len, d, maxLen, zn);
    NoneFirst(len, bits, pos, zn);
    if zn > maxLen { BeyondMax(len, bits, pos, maxLen, zn); }
    if z > d.limit[zn] {
      NoneNext(len, bits, pos, zn);
      OneMoreIs(len, bits, pos, zn);
    } else {
      NoneFound(len, bits, pos, zn, d.perm[..|len|]);
      FoundIs(len, d, bits, pos, zn, z - d.base[zn]);
    }
  }

  /** What the tables hold for codes of zn bits. */
  lemma TableParts(len: seq<int>, d: DecodeTable, maxLen: int, zn: nat)
    requires TableUpTo(len, d, maxLen) && d.minLen <= zn <= LONGEST
    ensures |d.limit| == |d.base| == |d.perm| == MAX_ALPHA_SIZE && LONGEST == 20 && MAX_ALPHA_SIZE == 258
    ensures Lengths(len) && |len| <= MAX_ALPHA_SIZE && IsOrder(len, d.perm[..|len|])
    ensures (exists i :: 0 <= i < |len| && len[i] == maxLen) && (forall i :: 0 <= i < |len| ==> 0 <= len[i] <= maxLen)
    ensures if zn <= maxLen then d.limit[zn] == Past(len, zn) - 1 && d.base[zn] == Base(len, zn) else d.limit[zn] == 0
  {
    hide Past, Base, IsOrder;
  }

  lemma OneMoreIs(len: seq<int>, bits: seq<bool>, pos: nat, zn: nat)
    requires pos + zn <= |bits| && NoneYet(len, bits, pos, zn + 1)
    requires pos + zn < |bits| ==> ToNat(bits[pos..pos + zn + 1]) == 2 * ToNat(bits[pos..pos + zn]) + if bits[pos + zn] then 1 else 0
    ensures OneMore(len, bits, pos, zn)
  {
    hide ToNat, NoneYet;
  }

  lemma FoundIs(len: seq<int>, d: DecodeTable, bits: seq<bool>, pos: nat, zn: nat, k: int)
    requires 0 <= k < |len| <= MAX_ALPHA_SIZE == |d.perm| && d.perm[..|len|][k] >= 0
    requires ReadSym(len, bits, pos, 0) == Got(d.perm[..|len|][k], pos + zn)
    ensures Found(len, d, bits, pos, zn, k)
  {
    hide ReadSym;
  }

  lemma NoneFirst(len: seq<int>, bits: seq<bool>, pos: nat, n: nat)
    requires NoneYet(len, bits, pos, n) && pos + n <= |bits|
    ensures First(len, n) <= ToNat(bits[pos..pos + n])
  {
  }

  lemma TableStart(len: seq<int>, d: DecodeTable, bits: seq<bool>, pos: nat)
    requires TableFor(len, d)
    ensures 1 <= d.minLen <= LONGEST && NoneYet(len, bits, pos, d.minLen)
  {
    var maxLen: int :| TableUpTo(len, d, maxLen);
    hide Tabled, NoneYet;
    NoneShort(len, bits, pos, d.minLen);
  }

  /** Reads one code word with the limit, base and perm tables.  perm is only ever indexed inside the
      alphabet, for any lengths the input may have given; the source's range check cannot fail. */
  method ReadSymbol(r: BitReader, d: DecodeTable, ghost len: seq<int>) returns (st: Status, sym: nat)
    requires r.Valid() && TableFor(len, d) && |len| <= MAX_ALPHA_SIZE
    modifies r
    ensures r.Valid() && Agrees(st, sym, r.Pos(), ReadSym(len, r.All(), old(r.Pos()), 0))
  {
    hide BitReader.Valid, BitReader.Pos, BitReader.All, TableFor, ReadSym, NoneYet, ToNat, Pow2;
    ghost var all, p := r.All(), r.Pos();
    sym := 0;
    TableStart(len, d, all, p);
    var zn := d.minLen;
    var ok, zvec := r.Get(zn);
    if !ok {
      NoneStarved(len, all, p, zn);
      return NEED_INPUT, sym;
    }
    while true
      invariant r.Valid() && r.All() == all && d.minLen <= zn <= LONGEST + 1 && r.Pos() == p + zn <= |all|
      invariant NoneYet(len, all, p, zn) && zvec == ToNat(all[p..p + zn])
      decreases LONGEST + 1 - zn
    {
      if zn > LONGEST {
        NoneStarved(len, all, p, zn);
        return DATA_ERROR, sym;
      }
      Look(len, d, all, p, zn);
      if zvec <= d.limit[zn] { break; }
      zn := zn + 1;
      var zj;
      ok, zj := GetBit(r);
      if !ok {
        NoneStarved(len, all, p, zn);
        return NEED_INPUT, sym;
      }
      zvec := zvec * 2 + if zj then 1 else 0;
    }
    assert 0 <= zvec - d.base[zn] < |len|;  // so the source's check against 258 cannot fail
    sym := d.perm[zvec - d.base[zn]];
    st := OK;
  }

  /** The variables GET_MTF_VAL keeps between symbols. */
  class SymbolReader {
    const r: BitReader
    const selector: seq<int>
    const tables: seq<DecodeTable>
    var groupNo: int
    var groupPos: nat
    var gSel: int
    ghost const lens: seq<seq<int>>

    ghost predicate Valid()
      reads this, r
    {
      && r.Valid() && TablesFor(lens, tables, |lens|) && (forall i :: 0 <= i < |selector| ==> 0 <= selector[i] < |lens|)
      && -1 <= groupNo && groupPos <= GROUP_SIZE && (groupNo == -1 ==> groupPos == 0)
      && (groupPos > 0 ==> groupNo < |selector| && gSel == selector[groupNo])
    }

    /** How many symbols have been read. */
    ghost function Count(): int
      reads this
    {
      GROUP_SIZE * groupNo + (GROUP_SIZE - groupPos)
    }

    constructor (r: BitReader, selector: seq<int>, tables: seq<DecodeTable>, ghost lens: seq<seq<int>>)
      requires r.Valid() && TablesFor(lens, tables, |lens|) && forall i :: 0 <= i < |selector| ==> 0 <= selector[i] < |lens|
      ensures Valid() && this.r == r && this.selector == selector && this.lens == lens && Count() == 0
    {
      hide TablesFor, BitReader.Valid;
      this.r, this.selector, this.tables, this.lens := r, selector, tables, lens;
      groupNo, groupPos, gSel := -1, 0, 0;
    }

    /** GET_MTF_VAL: the next symbol, moving on to the next selector after fifty. */
    method Next() returns (st: Status, sym: nat)
      requires Valid()
      modifies this, r
      ensures Valid() && Agrees(st, sym, r.Pos(), NextSym(r.All(), old(r.Pos()), lens, selector, old(Count())))
      ensures st == OK ==> Count() == old(Count()) + 1 && old(Count()) < GROUP_SIZE * |selector|
      ensures st == DATA_ERROR || st == NEED_INPUT || st == OK
    {
      hide BitReader.Valid, BitReader.Pos, BitReader.All, TableFor, Lengths, ReadSym;
      sym := 0;
      ghost var j := Count();
      if groupPos == 0 {
        groupNo := groupNo + 1;
        if groupNo >= |selector| { return DATA_ERROR, sym; }
        groupPos := GROUP_SIZE;
        gSel := selector[groupNo];
      }
      groupPos := groupPos - 1;
      GroupOf(j, groupNo, groupPos);
      ghost var len := lens[gSel];
      assert TableFor(len, tables[gSel]);
      LengthsSmall(len);
      st, sym := ReadSymbol(r, tables[gSel], len);
    }
  }

  lemma GroupOf(j: nat, g: int, p: nat)
    requires p < GROUP_SIZE && j == GROUP_SIZE * g + (GROUP_SIZE - 1 - p)
    ensures g == j / GROUP_SIZE
  {
  }

  lemma LengthsSmall(len: seq<int>)
    requires Lengths(len)
    ensures |len| <= MAX_ALPHA_SIZE
  {
  }
}

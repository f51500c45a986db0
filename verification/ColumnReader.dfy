/** The symbol loop of BZ2_decompress: runs and move-to-front positions into the last column. */
module ColumnReader {
  import opened Powers
  import opened Rotations
  import opened Counting
  import opened BitIO
  import opened Parsing
  import opened CanonicalCodes
  import opened MoveToFront
  import opened TwoLevelMtf
  import opened MtfEncoder
  import opened Wire
  import opened BlockFormat
  import opened Receiver

  // ---------- how far decoding has come ----------

  /** The value of the digits read first; the digit that follows them weighs Pow2(|ds|). */
  lemma {:induction false} RunValueMore(ds: seq<int>, d: int)
    ensures RunValue(ds + [d]) == RunValue(ds) + (d + 1) * Pow2(|ds|)
  {
    if ds == [] {
      assert [d][1..] == [];
    } else {
      RunValueMore(ds[1..], d);
      assert (ds + [d])[1..] == ds[1..] + [d];
      assert (d + 1) * Pow2(|ds|) == 2 * ((d + 1) * Pow2(|ds| - 1));
    }
  }

  lemma {:induction false} RunValuePositive(ds: seq<int>)
    requires forall i :: 0 <= i < |ds| ==> ds[i] == RUNA || ds[i] == RUNB
    ensures RunValue(ds) >= |ds|
  {
    if ds != [] { RunValuePositive(ds[1..]); }
  }

  ghost function Prepend(out: seq<int>, rest: Option<seq<int>>): Option<seq<int>> {
    match rest
    case None => None
    case Some(r) => Some(out + r)
  }

  /** out has been decoded; what remains is rest, to be decoded with the list as it stands now. */
  ghost predicate Progress(total: Scan, eob: int, room: nat, out: seq<int>, list: seq<int>, rest: Scan) {
    && |list| == 256 && |out| <= room && rest.end == total.end
    && Decode(Iota(256), total.syms, eob, room) == Prepend(out, Decode(list, rest.syms, eob, room - |out|))
  }

  lemma ProgressStart(total: Scan, eob: int, room: nat)
    ensures Progress(total, eob, room, [], Iota(256), total)
  {
    hide Decode;
    if d: seq<int> :| Decode(Iota(256), total.syms, eob, room) == Some(d) { assert [] + d == d; }
  }

  lemma ProgressEnd(total: Scan, eob: int, room: nat, out: seq<int>, list: seq<int>, rest: Scan)
    requires Progress(total, eob, room, out, list, rest) && |rest.syms| > 0 && rest.syms[0] == eob
    ensures Decode(Iota(256), total.syms, eob, room) == Some(out)
  {
    assert Decode(list, rest.syms, eob, room - |out|) == Some([]);
    hide Decode;
    assert out + [] == out;
  }

  ghost predicate Digits(ds: seq<int>) {
    forall i :: 0 <= i < |ds| ==> ds[i] == RUNA || ds[i] == RUNB
  }

  lemma PrependTwice(out: seq<int>, more: seq<int>, r: Option<seq<int>>)
    ensures Prepend(out, Prepend(more, r)) == Prepend(out + more, r)
  {
    if r.Some? { assert out + (more + r.value) == out + more + r.value; }
  }

  lemma DecodeRunStep(list: seq<int>, ds: seq<int>, tail: seq<int>, eob: int, room: nat)
    requires |list| > 0 && |ds| > 0 && Digits(ds) && eob >= 2
    requires |tail| > 0 && tail[0] != RUNA && tail[0] != RUNB
    ensures RunValue(ds) >= 0
    ensures Decode(list, ds + tail, eob, room) ==
            if |ds| > RUN_LIMIT || RunValue(ds) > room then None
            else Prepend(Copies(list[0], RunValue(ds)), Decode(list, tail, eob, room - RunValue(ds)))
  {
    var all := ds + tail;
    RunLengthIs(all, |ds|);
    RunValuePositive(ds);
    assert all[..|ds|] == ds && all[|ds|..] == tail && all[0] == ds[0];
    hide RunValue, RunLength;
  }

  lemma ProgressRun(total: Scan, eob: int, room: nat, out: seq<int>, list: seq<int>, rest: Scan, ds: seq<int>, tail: Scan)
    requires Progress(total, eob, room, out, list, rest) && eob >= 2 && |ds| > 0 && Digits(ds)
    requires rest == Scan(ds + tail.syms, tail.end) && |tail.syms| > 0 && tail.syms[0] != RUNA && tail.syms[0] != RUNB
    requires |ds| <= RUN_LIMIT
    ensures RunValue(ds) > room - |out| ==> Decode(Iota(256), total.syms, eob, room) == None
    ensures 0 <= RunValue(ds) <= room - |out| ==> Progress(total, eob, room, out + Copies(list[0], RunValue(ds)), list, tail)
    ensures RunValue(ds) >= 0
  {
    hide Decode, RunValue, Copies, Digits, Iota;
    DecodeRunStep(list, ds, tail.syms, eob, room - |out|);
    var m := RunValue(ds);
    if m <= room - |out| {
      PrependTwice(out, Copies(list[0], m), Decode(list, tail.syms, eob, room - |out| - m));
    }
  }

  /** Too many digits. */
  lemma ProgressLong(total: Scan, eob: int, room: nat, out: seq<int>, list: seq<int>, rest: Scan, ds: seq<int>, tail: seq<int>)
    requires Progress(total, eob, room, out, list, rest) && eob >= 2 && |ds| > RUN_LIMIT && Digits(ds) && rest.syms == ds + tail
    ensures Decode(Iota(256), total.syms, eob, room) == None
  {
    RunLengthAtLeast(ds, tail);
    assert rest.syms[0] == ds[0];
    assert Decode(list, rest.syms, eob, room - |out|) == None by { hide RunLength, RunValue; }
    hide Decode;
  }

  lemma {:induction false} RunLengthAtLeast(ds: seq<int>, tail: seq<int>)
    requires Digits(ds)
    ensures RunLength(ds + tail) >= |ds|
  {
    if ds != [] {
      RunLengthAtLeast(ds[1..], tail);
      assert (ds + tail)[1..] == ds[1..] + tail;
    }
  }

  lemma ProgressSym(total: Scan, eob: int, room: nat, out: seq<int>, list: seq<int>, rest: Scan, s: int, tail: Scan)
    requires Progress(total, eob, room, out, list, rest) && 2 <= s <= 256 && s != eob && rest == Scan([s] + tail.syms, tail.end)
    ensures |out| == room ==> Decode(Iota(256), total.syms, eob, room) == None
    ensures |out| < room ==> Progress(total, eob, room, out + [list[s - 1]], Front(list, s - 1), tail)
  {
    assert ([s] + tail.syms)[1..] == tail.syms;
    hide Front;
    assert |out| < room ==> Decode(list, rest.syms, eob, room - |out|) == Prepend([list[s - 1]], Decode(Front(list, s - 1), tail.syms, eob, room - |out| - 1));
    hide Decode;
    if |out| < room { PrependTwice(out, [list[s - 1]], Decode(Front(list, s - 1), tail.syms, eob, room - |out| - 1)); }
  }

  // ---------- storing ----------

  /** The column so far, as words, and how often each byte occurs in it. */
  ghost predicate Held(out: seq<int>, tab: seq<int>, l: seq<byte>) {
    && |l| <= |out| && |tab| == 256 && (forall x :: 0 <= x < |l| ==> out[x] == l[x])
    && forall c :: 0 <= c < 256 ==> tab[c] == Occ(l, c, |l|)
  }

  lemma {:induction false} OccPrefix(l: seq<int>, r: seq<int>, c: int, i: nat)
    requires i <= |l|
    ensures Occ(l + r, c, i) == Occ(l, c, i)
  {
    if i > 0 { OccPrefix(l, r, c, i - 1); }
  }

  lemma {:induction false} OccCopies(l: seq<byte>, uc: byte, es: nat, c: int)
    ensures Occ(l + seq(es, _ => uc), c, |l| + es) == Occ(l, c, |l|) + if c == uc then es else 0
    decreases es
  {
    if es == 0 {
      assert l + seq(0, _ => uc) == l;
    } else {
      OccCopies(l, uc, es - 1, c);
      assert l + seq(es, _ => uc) == (l + seq(es - 1, _ => uc)) + [uc];
      OccPrefix(l + seq(es - 1, _ => uc), [uc], c, |l| + es - 1);
    }
  }

  lemma HeldMore(out: seq<int>, tab: seq<int>, l: seq<byte>, out': seq<int>, tab': seq<int>, uc: byte, es: nat)
    requires Held(out, tab, l) && |out'| == |out| && |l| + es <= |out| && tab' == tab[uc := tab[uc] + es]
    requires forall x {:trigger out'[x]} :: 0 <= x < |l| + es ==> out'[x] == if x < |l| then out[x] else uc
    ensures Held(out', tab', l + seq(es, _ => uc))
  {
    forall c | 0 <= c < 256 ensures tab'[c] == Occ(l + seq(es, _ => uc), c, |l| + es) { OccCopies(l, uc, es, c); }
  }

  /** Counts and stores es copies of a byte, unless the block is full. */
  method PutRun(out: array<int>, unzftab: array<int>, nblock0: nat, es0: nat, uc: byte, nblockMAX: nat, ghost l: seq<byte>)
    returns (ok: bool, nblock: nat)
    requires out != unzftab && nblockMAX <= out.Length && Held(out[..], unzftab[..], l) && nblock0 == |l| <= nblockMAX
    modifies out, unzftab
    ensures ok <==> nblock0 + es0 <= nblockMAX
    ensures ok ==> nblock == nblock0 + es0 && Held(out[..], unzftab[..], l + seq(es0, _ => uc))
  {
    hide Held;
    HeldSize(out[..], unzftab[..], l);
    ghost var o, t := out[..], unzftab[..];
    unzftab[uc] := unzftab[uc] + es0;
    assert unzftab[..] == t[uc := t[uc] + es0];
    var es;
    nblock, es := nblock0, es0;
    while es > 0
      invariant 0 <= es && nblock + es == nblock0 + es0 && nblock0 <= nblock <= nblockMAX
      invariant unzftab[..] == t[uc := t[uc] + es0]
      invariant forall x {:trigger out[x]} :: 0 <= x < nblock ==> out[x] == if x < nblock0 then o[x] else uc
      decreases es
    {
      if nblock >= nblockMAX { return false, nblock; }
      out[nblock] := uc;
      nblock := nblock + 1;
      es := es - 1;
    }
    ok := true;
    HeldMore(o, t, l, out[..], unzftab[..], uc, es0);
  }

  lemma HeldSize(out: seq<int>, tab: seq<int>, l: seq<byte>)
    requires Held(out, tab, l)
    ensures |l| <= |out| && |tab| == 256
  {
  }

  // ---------- symbols ----------

  ghost predicate RowsOf(lens: seq<seq<int>>, a: nat) {
    forall t {:trigger lens[t]} :: 0 <= t < |lens| ==> |lens[t]| == a
  }

  lemma {:induction false} ReadSymBelow(len: seq<int>, bits: seq<bool>, pos: nat, n: nat)
    requires ReadSym(len, bits, pos, n).Got?
    ensures ReadSym(len, bits, pos, n).value < |len|
    decreases LONGEST + 1 - n
  {
    var w := bits[pos..pos + n];
    if s: nat :| IsCode(len, w, s) {
    } else {
      ReadSymBelow(len, bits, pos, n + 1);
    }
  }

  lemma NextBelow(bits: seq<bool>, pos: nat, lens: seq<seq<int>>, sels: seq<int>, j: nat, a: nat)
    requires (forall i :: 0 <= i < |sels| ==> 0 <= sels[i] < |lens|) && RowsOf(lens, a) && NextSym(bits, pos, lens, sels, j).Got?
    ensures NextSym(bits, pos, lens, sels, j).value < a
  {
    ReadSymBelow(LenFor(lens, sels, j), bits, pos, 0);
  }

  /** What is left to scan when symbol s has just been read. */
  ghost function After(s: int, bits: seq<bool>, pos: nat, lens: seq<seq<int>>, sels: seq<int>, eob: int, j: nat): Scan
    requires forall i :: 0 <= i < |sels| ==> 0 <= sels[i] < |lens|
  {
    if s == eob then Scan([s], Got((), pos))
    else Scan([s] + ScanFrom(bits, pos, lens, sels, eob, j).syms, ScanFrom(bits, pos, lens, sels, eob, j).end)
  }

  /** The reader stands after symbol s, and rest is what that leaves. */
  ghost predicate Reading(sr: SymbolReader, s: int, eob: int, rest: Scan)
    reads sr, sr.r
  {
    sr.Valid() && sr.Count() >= 0 && 0 <= s <= eob
    && rest == After(s, sr.r.All(), sr.r.Pos(), sr.lens, sr.selector, eob, sr.Count())
  }

  /** Reads one symbol: more to scan, or the reason why not. */
  method ReadNext(sr: SymbolReader, eob: nat) returns (st: Status, s: nat, ghost rest: Scan)
    requires sr.Valid() && sr.Count() >= 0 && RowsOf(sr.lens, eob + 1)
    modifies sr, sr.r
    ensures sr.Valid() && rest == ScanFrom(sr.r.All(), old(sr.r.Pos()), sr.lens, sr.selector, eob, old(sr.Count()))
    ensures st == OK ==> Reading(sr, s, eob, rest) && sr.Count() == old(sr.Count()) + 1 <= GROUP_SIZE * |sr.selector|
    ensures st == NEED_INPUT ==> rest == Scan([], Starved)
    ensures st == DATA_ERROR ==> rest == Scan([], Bad)
    ensures st != OVERRUN
  {
    hide BitReader.Valid, BitReader.Pos, BitReader.All, TablesFor, NextSym, ScanFrom;
    ghost var p, j := sr.r.Pos(), sr.Count();
    ScanStep(sr.r.All(), p, sr.lens, sr.selector, eob, j);
    rest := ScanFrom(sr.r.All(), p, sr.lens, sr.selector, eob, j);
    st, s := sr.Next();
    if st == OK { NextBelow(sr.r.All(), p, sr.lens, sr.selector, j, eob + 1); }
  }

  const N_LIMIT: int := 2 * 1024 * 1024

  lemma NLimit(k: nat)
    ensures Pow2(k) >= N_LIMIT <==> k >= RUN_LIMIT
  {
    Pow2Values();
    if k >= 21 { Pow2Mono(21, k); } else { Pow2Mono(k, 21); }
  }

  /** Taking the digit just read off what is left. */
  lemma TakeDigit(sr: SymbolReader, s: int, eob: int, rest0: Scan, ds: seq<int>, rest: Scan)
    requires Reading(sr, s, eob, rest) && eob >= 2 && (s == RUNA || s == RUNB) && rest0 == Scan(ds + rest.syms, rest.end)
    ensures sr.Valid() && sr.Count() >= 0 && sr.r.Valid() && forall i :: 0 <= i < |sr.selector| ==> 0 <= sr.selector[i] < |sr.lens|
    ensures rest0 == Scan(ds + [s] + ScanFrom(sr.r.All(), sr.r.Pos(), sr.lens, sr.selector, eob, sr.Count()).syms,
                          ScanFrom(sr.r.All(), sr.r.Pos(), sr.lens, sr.selector, eob, sr.Count()).end)
  {
    hide TablesFor, BitReader.Valid, SymbolReader.Count, ScanFrom;
  }

  lemma ReadingHead(sr: SymbolReader, s: int, eob: int, rest: Scan)
    requires Reading(sr, s, eob, rest)
    ensures sr.Valid() && sr.Count() >= 0 && 0 <= s <= eob && |rest.syms| > 0 && rest.syms[0] == s
    ensures s == eob ==> rest == Scan([s], Got((), sr.r.Pos()))
    ensures s != eob ==> rest == Scan([s] + ScanFrom(sr.r.All(), sr.r.Pos(), sr.lens, sr.selector, eob, sr.Count()).syms,
                                      ScanFrom(sr.r.All(), sr.r.Pos(), sr.lens, sr.selector, eob, sr.Count()).end)
  {
    hide SymbolReader.Valid, SymbolReader.Count, ScanFrom;
  }

  /** The digits of a run, at most 21 of them, and the symbol that follows. */
  method ReadRun(sr: SymbolReader, nextSym0: nat, eob: nat, ghost rest0: Scan)
    returns (st: Status, es: int, nextSym: nat, ghost ds: seq<int>, ghost rest: Scan)
    requires Reading(sr, nextSym0, eob, rest0) && eob >= 2 && (nextSym0 == RUNA || nextSym0 == RUNB) && RowsOf(sr.lens, eob + 1)
    modifies sr, sr.r
    ensures Digits(ds) && |ds| > 0 && rest0 == Scan(ds + rest.syms, rest.end)
    ensures st == OK ==> Reading(sr, nextSym, eob, rest) && es == RunValue(ds) && |ds| <= RUN_LIMIT && nextSym != RUNA && nextSym != RUNB
    ensures st == OK ==> old(sr.Count()) < sr.Count() <= GROUP_SIZE * |sr.selector|
    ensures st == NEED_INPUT ==> rest.end == Starved
    ensures st == DATA_ERROR ==> rest.end == Bad || |ds| > RUN_LIMIT
    ensures st != OVERRUN
    ensures sr.Valid()
  {
    hide SymbolReader.Valid, SymbolReader.Count, BitReader.Valid, BitReader.Pos, BitReader.All, ScanFrom, RunValue, Pow2, Reading;
    nextSym, es, ds, rest := nextSym0, -1, [], rest0;
    var N := 1;
    RunStart(rest0);
    ReadingHead(sr, nextSym, eob, rest);
    ghost var c := sr.Count();
    while true
      invariant Reading(sr, nextSym, eob, rest) && (nextSym == RUNA || nextSym == RUNB) && rest0 == Scan(ds + rest.syms, rest.end)
      invariant Digits(ds) && N == Pow2(|ds|) && es == RunValue(ds) - 1 && |ds| <= RUN_LIMIT
      invariant sr.Valid() && sr.Count() >= c
      decreases RUN_LIMIT - |ds|
    {
      NLimit(|ds|);
      TakeDigit(sr, nextSym, eob, rest0, ds, rest);
      RunValueMore(ds, nextSym);
      if N >= N_LIMIT {
        ds := ds + [nextSym];
        rest := ScanFrom(sr.r.All(), sr.r.Pos(), sr.lens, sr.selector, eob, sr.Count());
        st := DATA_ERROR;
        return;
      }
      PowNext(|ds|);
      if nextSym == RUNA { es := es + (0 + 1) * N; } else if nextSym == RUNB { es := es + (1 + 1) * N; }
      N := N * 2;
      ds := ds + [nextSym];
      st, nextSym, rest := ReadNext(sr, eob);
      if st != OK { return; }
      if nextSym != RUNA && nextSym != RUNB { break; }
    }
    es := es + 1;
  }

  lemma PowNext(k: nat)
    ensures Pow2(k + 1) == 2 * Pow2(k)
  {
  }

  lemma RunStart(rest: Scan)
    ensures rest == Scan([] + rest.syms, rest.end) && Pow2(0) == 1 && RunValue([]) == 0
  {
  }

  // ---------- the symbol loop ----------

  /** The first n entries of the list are numbers below n, so only bytes in use are looked up. */
  ghost predicate Below(list: seq<int>, n: nat) {
    |list| == 256 && n <= 256 && forall i :: 0 <= i < n ==> 0 <= list[i] < n
  }

  lemma BelowFront(list: seq<int>, n: nat, k: nat)
    requires Below(list, n) && k < n
    ensures Below(Front(list, k), n)
  {
  }

  /** seqToUnseq holds the bytes in use. */
  ghost predicate Unseq(m: seq<int>, inUse: seq<bool>) {
    |inUse| == 256 && |m| == 256 && |UsedBelow(inUse, 256)| <= 256 && forall v :: 0 <= v < |UsedBelow(inUse, 256)| ==> m[v] == UsedBelow(inUse, 256)[v]
  }

  lemma UnseqByte(m: seq<int>, inUse: seq<bool>, v: int)
    requires Unseq(m, inUse) && 0 <= v < |UsedBelow(inUse, 256)|
    ensures |m| == 256 && m[v] == ByteOf(inUse, v) && 0 <= m[v] < 256
  {
    UsedBytes(inUse, 256);
    hide UsedBelow;
  }

  lemma BytesMore(inUse: seq<bool>, out: seq<int>, v: int, es: nat)
    requires |inUse| == 256
    ensures BytesOf(inUse, out + Copies(v, es)) == BytesOf(inUse, out) + seq(es, _ => ByteOf(inUse, v))
    ensures out + Copies(v, 1) == out + [v]
  {
    hide ByteOf;
  }

  /** makeMaps_d: the bytes in use in order. */
  method MakeMapsD(inUse: seq<bool>) returns (seqToUnseq: array<int>, nInUse: nat)
    requires |inUse| == 256
    ensures fresh(seqToUnseq) && Unseq(seqToUnseq[..], inUse) && nInUse == |UsedBelow(inUse, 256)| <= 256
  {
    seqToUnseq := new int[256];
    nInUse := 0;
    for i := 0 to 256
      invariant nInUse == |UsedBelow(inUse, i)| <= i && seqToUnseq[..nInUse] == UsedBelow(inUse, i)
    {
      if inUse[i] {
        ghost var was := seqToUnseq[..nInUse];
        seqToUnseq[nInUse] := i;
        nInUse := nInUse + 1;
        assert seqToUnseq[..nInUse] == was + [i];
      }
    }
    forall v | 0 <= v < nInUse ensures seqToUnseq[..][v] == UsedBelow(inUse, 256)[v] {
      assert seqToUnseq[..nInUse][v] == seqToUnseq[..][v];
    }
  }

  /** What the loop owes its caller, given the scan of the whole data. */
  ghost predicate Delivered(st: Status, out: seq<int>, tab: seq<int>, nblock: nat, total: Scan, eob: int, room: nat, inUse: seq<bool>)
    requires |inUse| == 256
  {
    match total.end
    case Starved => st == NEED_INPUT || st == DATA_ERROR
    case Bad => st == DATA_ERROR
    case Overrun => true  // never: a scan does not end that way
    case Got(_, p) =>
      match Decode(Iota(256), total.syms, eob, room)
      case None => st == DATA_ERROR
      case Some(col) => st == OK && nblock == |col| <= room && Held(out, tab, BytesOf(inUse, col))
  }

  lemma FailedRead(st: Status, out: seq<int>, tab: seq<int>, nblock: nat, total: Scan, eob: int, room: nat, inUse: seq<bool>)
    requires |inUse| == 256 && st != OK && st != OVERRUN && (st == NEED_INPUT ==> total.end == Starved) && (st == DATA_ERROR ==> total.end == Bad)
    ensures Delivered(st, out, tab, nblock, total, eob, room, inUse)
  {
    hide Decode;
  }

  lemma FailedDecode(out: seq<int>, tab: seq<int>, nblock: nat, total: Scan, eob: int, room: nat, inUse: seq<bool>)
    requires |inUse| == 256 && Decode(Iota(256), total.syms, eob, room) == None
    ensures Delivered(DATA_ERROR, out, tab, nblock, total, eob, room, inUse)
  {
  }

  lemma Succeeded(out: seq<int>, tab: seq<int>, nblock: nat, total: Scan, eob: int, room: nat, inUse: seq<bool>, col: seq<int>)
    requires |inUse| == 256 && Decode(Iota(256), total.syms, eob, room) == Some(col) && total.end.Got?
    requires nblock == |col| <= room && Held(out, tab, BytesOf(inUse, col))
    ensures Delivered(OK, out, tab, nblock, total, eob, room, inUse)
  {
    hide Decode, Held, BytesOf;
  }

  /** Everything true at the head of the symbol loop. */
  ghost predicate LoopState(sr: SymbolReader, list: MtfList, nextSym: int, total: Scan, rest: Scan, eob: nat, room: nat, col: seq<int>, out: seq<int>, tab: seq<int>, inUse: seq<bool>)
    reads sr, sr.r, list, list.mtfa, list.mtfbase
  {
    && eob >= 2 && list.Valid() && Reading(sr, nextSym, eob, rest) && Progress(total, eob, room, col, list.list, rest)
    && |inUse| == 256 && Held(out, tab, BytesOf(inUse, col)) && Below(list.list, eob - 1)
  }

  /** A run: its digits, then as many copies of the front of the list. */
  method DoRun(sr: SymbolReader, list: MtfList, seqToUnseq: seq<int>, nextSym0: nat, eob: nat, out: array<int>, unzftab: array<int>, nblock0: nat, nblockMAX: nat,
               ghost total: Scan, ghost rest0: Scan, ghost col0: seq<int>, ghost inUse: seq<bool>)
    returns (st: Status, nblock: nat, nextSym: nat, ghost rest: Scan, ghost col: seq<int>)
    requires LoopState(sr, list, nextSym0, total, rest0, eob, nblockMAX, col0, out[..], unzftab[..], inUse)
    requires (nextSym0 == RUNA || nextSym0 == RUNB) && RowsOf(sr.lens, eob + 1) && Unseq(seqToUnseq, inUse) && eob == |UsedBelow(inUse, 256)| + 1
    requires out != unzftab && out != list.mtfa && out != list.mtfbase && unzftab != list.mtfa && unzftab != list.mtfbase
    requires nblock0 == |col0| <= nblockMAX <= out.Length
    modifies sr, sr.r, out, unzftab
    ensures sr.Valid() && list.Valid()
    ensures st == OK ==> LoopState(sr, list, nextSym, total, rest, eob, nblockMAX, col, out[..], unzftab[..], inUse) && nblock == |col| <= nblockMAX
    ensures st == OK ==> old(sr.Count()) < sr.Count() <= GROUP_SIZE * |sr.selector|
    ensures |inUse| == 256 && (st != OK ==> Delivered(st, out[..], unzftab[..], nblock, total, eob, nblockMAX, inUse))
  {
    hide SymbolReader.Valid, SymbolReader.Count, BitReader.Valid, BitReader.Pos, BitReader.All, MtfList.Valid, Reading, Progress, Held, Delivered, Decode, RunValue, Unseq, UsedBelow, Copies;
    nblock, col := nblock0, col0;
    var es;
    ghost var ds;
    st, es, nextSym, ds, rest := ReadRun(sr, nextSym0, eob, rest0);
    RestEnds(total, eob, nblockMAX, col0, list.list, rest0);
    if st != OK {
      if rest.end.Starved? || rest.end.Bad? {
        DeliverStuck(st, out[..], unzftab[..], nblock, total, eob, nblockMAX, inUse);
      } else {
        ProgressLong(total, eob, nblockMAX, col0, list.list, rest0, ds, rest.syms);
        FailedDecode(out[..], unzftab[..], nblock, total, eob, nblockMAX, inUse);
      }
      return;
    }
    ReadingHead(sr, nextSym, eob, rest);
    ProgressRun(total, eob, nblockMAX, col0, list.list, rest0, ds, rest);
    var v := list.Head();
    UnseqByte(seqToUnseq, inUse, v);
    var ok;
    ok, nblock := PutRun(out, unzftab, nblock0, es, seqToUnseq[v], nblockMAX, BytesOf(inUse, col0));
    if !ok {
      st := DATA_ERROR;
      FailedDecode(out[..], unzftab[..], nblock, total, eob, nblockMAX, inUse);
      return;
    }
    BytesMore(inUse, col0, v, es);
    col := col0 + Copies(v, es);
  }

  lemma RestEnds(total: Scan, eob: int, room: nat, out: seq<int>, list: seq<int>, rest: Scan)
    requires Progress(total, eob, room, out, list, rest)
    ensures rest.end == total.end && |list| == 256
  {
    hide Decode;
  }

  lemma DeliverStuck(st: Status, out: seq<int>, tab: seq<int>, nblock: nat, total: Scan, eob: int, room: nat, inUse: seq<bool>)
    requires |inUse| == 256 && st != OK && st != OVERRUN && (total.end == Starved || (total.end == Bad && st == DATA_ERROR))
    ensures Delivered(st, out, tab, nblock, total, eob, room, inUse)
  {
    hide Decode;
  }

  /** One entry of the list, moved to its front. */
  method DoSym(sr: SymbolReader, list: MtfList, seqToUnseq: seq<int>, nextSym0: nat, eob: nat, out: array<int>, unzftab: array<int>, nblock0: nat, nblockMAX: nat,
               ghost total: Scan, ghost rest0: Scan, ghost col0: seq<int>, ghost inUse: seq<bool>)
    returns (st: Status, nblock: nat, nextSym: nat, ghost rest: Scan, ghost col: seq<int>)
    requires LoopState(sr, list, nextSym0, total, rest0, eob, nblockMAX, col0, out[..], unzftab[..], inUse)
    requires 2 <= nextSym0 < eob && RowsOf(sr.lens, eob + 1) && Unseq(seqToUnseq, inUse) && eob == |UsedBelow(inUse, 256)| + 1
    requires out != unzftab && out != list.mtfa && out != list.mtfbase && unzftab != list.mtfa && unzftab != list.mtfbase
    requires nblock0 == |col0| <= nblockMAX <= out.Length
    modifies sr, sr.r, list, list.mtfa, list.mtfbase, out, unzftab
    ensures sr.Valid() && list.Valid()
    ensures st == OK ==> LoopState(sr, list, nextSym, total, rest, eob, nblockMAX, col, out[..], unzftab[..], inUse) && nblock == |col| <= nblockMAX
    ensures st == OK ==> old(sr.Count()) < sr.Count() <= GROUP_SIZE * |sr.selector|
    ensures |inUse| == 256 && (st != OK ==> Delivered(st, out[..], unzftab[..], nblock, total, eob, nblockMAX, inUse))
  {
    hide SymbolReader.Valid, SymbolReader.Count, BitReader.Valid, BitReader.Pos, BitReader.All, MtfList.Valid, Reading, Progress, Held, Delivered, Decode, Unseq, UsedBelow, Copies, Front, ScanFrom;
    nblock, nextSym, col, rest := nblock0, nextSym0, col0, rest0;
    ReadingHead(sr, nextSym0, eob, rest0);
    ReadingParts(sr, nextSym0, eob, rest0);
    ghost var tail := ScanFrom(sr.r.All(), sr.r.Pos(), sr.lens, sr.selector, eob, sr.Count());
    RestEnds(total, eob, nblockMAX, col0, list.list, rest0);
    ProgressSym(total, eob, nblockMAX, col0, list.list, rest0, nextSym0, tail);
    if nblock >= nblockMAX {
      st := DATA_ERROR;
      FailedDecode(out[..], unzftab[..], nblock, total, eob, nblockMAX, inUse);
      return;
    }
    BelowFront(list.list, eob - 1, nextSym0 - 1);
    ghost var v := list.list[nextSym0 - 1];
    var uc := list.Take(nextSym0 - 1);
    UnseqByte(seqToUnseq, inUse, uc);
    var ok;
    ok, nblock := PutRun(out, unzftab, nblock0, 1, seqToUnseq[uc], nblockMAX, BytesOf(inUse, col0));
    BytesMore(inUse, col0, v, 1);
    col := col0 + [v];
    st, nextSym, rest := ReadNext(sr, eob);
    if st != OK { DeliverStuck(st, out[..], unzftab[..], nblock, total, eob, nblockMAX, inUse); }
  }

  lemma ReadingParts(sr: SymbolReader, s: int, eob: int, rest: Scan)
    requires Reading(sr, s, eob, rest)
    ensures sr.Valid() && sr.r.Valid() && sr.Count() >= 0 && forall i :: 0 <= i < |sr.selector| ==> 0 <= sr.selector[i] < |sr.lens|
  {
    hide TablesFor, BitReader.Valid, SymbolReader.Count, ScanFrom;
  }

  lemma StartState(total: Scan, eob: nat, room: nat, out: seq<int>, tab: seq<int>, inUse: seq<bool>, n: nat)
    requires |inUse| == 256 && |tab| == 256 && n <= 256 && forall c :: 0 <= c < 256 ==> tab[c] == 0
    ensures Progress(total, eob, room, [], Iota(256), total) && Held(out, tab, BytesOf(inUse, [])) && Below(Iota(256), n)
  {
    ProgressStart(total, eob, room);
    hide Decode, Progress;
  }

  /** The symbol loop: reads up to the end marker and leaves the last column in out. */
  method ReadColumn(sr: SymbolReader, list: MtfList, seqToUnseq: seq<int>, nInUse: nat, out: array<int>, unzftab: array<int>, nblockMAX: nat, ghost inUse: seq<bool>)
    returns (st: Status, nblock: nat)
    requires sr.Valid() && sr.Count() == 0 && list.Valid() && list.list == Iota(256) && RowsOf(sr.lens, nInUse + 2)
    requires Unseq(seqToUnseq, inUse) && |inUse| == 256 && nInUse == |UsedBelow(inUse, 256)| && 0 < nInUse <= 256
    requires out != unzftab && out != list.mtfa && out != list.mtfbase && unzftab != list.mtfa && unzftab != list.mtfbase
    requires nblockMAX <= out.Length && unzftab.Length == 256
    modifies sr, sr.r, list, list.mtfa, list.mtfbase, out, unzftab
    ensures sr.r.Valid()
    ensures Delivered(st, out[..], unzftab[..], nblock,
                      ScanFrom(sr.r.All(), old(sr.r.Pos()), sr.lens, sr.selector, nInUse + 1, 0), nInUse + 1, nblockMAX, inUse)
    ensures st == OK ==> ScanFrom(sr.r.All(), old(sr.r.Pos()), sr.lens, sr.selector, nInUse + 1, 0).end == Got((), sr.r.Pos())
  {
    hide SymbolReader.Valid, SymbolReader.Count, BitReader.Valid, BitReader.Pos, BitReader.All, MtfList.Valid, Reading, Progress, Held, Delivered, Decode, Unseq, UsedBelow, ScanFrom, BytesOf, RowsOf;
    ReaderParts(sr);
    var eob := nInUse + 1;
    for i := 0 to 256
      invariant sr.Valid() && sr.Count() == 0 && sr.r.Valid() && sr.r.Pos() == old(sr.r.Pos()) && list.Valid() && list.list == Iota(256)
      invariant forall c :: 0 <= c < i ==> unzftab[c] == 0
    {
      unzftab[i] := 0;
    }
    ghost var total := ScanFrom(sr.r.All(), sr.r.Pos(), sr.lens, sr.selector, eob, 0);
    StartState(total, eob, nblockMAX, out[..], unzftab[..], inUse, nInUse);
    nblock := 0;
    ghost var col: seq<int> := [];
    var nextSym;
    ghost var rest;
    st, nextSym, rest := ReadNext(sr, eob);
    if st != OK {
      ReaderParts(sr);
      FailedRead(st, out[..], unzftab[..], nblock, total, eob, nblockMAX, inUse);
      return;
    }
    st, nblock, nextSym, rest, col := SymbolLoop(sr, list, seqToUnseq, nextSym, eob, out, unzftab, nblockMAX, total, rest, inUse);
    ReaderParts(sr);
  }

  lemma ReaderParts(sr: SymbolReader)
    requires sr.Valid()
    ensures sr.r.Valid() && forall i :: 0 <= i < |sr.selector| ==> 0 <= sr.selector[i] < |sr.lens|
  {
    hide TablesFor, BitReader.Valid;
  }

  method SymbolLoop(sr: SymbolReader, list: MtfList, seqToUnseq: seq<int>, nextSym0: nat, eob: nat, out: array<int>, unzftab: array<int>, nblockMAX: nat,
                    ghost total: Scan, ghost rest0: Scan, ghost inUse: seq<bool>)
    returns (st: Status, nblock: nat, nextSym: nat, ghost rest: Scan, ghost col: seq<int>)
    requires LoopState(sr, list, nextSym0, total, rest0, eob, nblockMAX, [], out[..], unzftab[..], inUse)
    requires RowsOf(sr.lens, eob + 1) && Unseq(seqToUnseq, inUse) && eob == |UsedBelow(inUse, 256)| + 1
    requires out != unzftab && out != list.mtfa && out != list.mtfbase && unzftab != list.mtfa && unzftab != list.mtfbase
    requires nblockMAX <= out.Length && |inUse| == 256 && sr.Count() <= GROUP_SIZE * |sr.selector|
    modifies sr, sr.r, list, list.mtfa, list.mtfbase, out, unzftab
    ensures sr.Valid() && sr.r.Valid() && Delivered(st, out[..], unzftab[..], nblock, total, eob, nblockMAX, inUse)
    ensures st == OK ==> total.end == Got((), sr.r.Pos())
  {
    hide *;
    nblock, nextSym, rest, col := 0, nextSym0, rest0, [];
    ghost var limit := GROUP_SIZE * |sr.selector|;
    while true
      invariant LoopState(sr, list, nextSym, total, rest, eob, nblockMAX, col, out[..], unzftab[..], inUse)
      invariant nblock == |col| <= nblockMAX && 0 <= nextSym && sr.Count() <= limit
      decreases limit - sr.Count()
    {
      LoopParts(sr, list, nextSym, total, rest, eob, nblockMAX, col, out[..], unzftab[..], inUse);
      if nextSym == eob { break; }
      if nextSym == RUNA || nextSym == RUNB {
        st, nblock, nextSym, rest, col := DoRun(sr, list, seqToUnseq, nextSym, eob, out, unzftab, nblock, nblockMAX, total, rest, col, inUse);
      } else {
        st, nblock, nextSym, rest, col := DoSym(sr, list, seqToUnseq, nextSym, eob, out, unzftab, nblock, nblockMAX, total, rest, col, inUse);
      }
      if st != OK {
        ReaderParts(sr);
        return;
      }
    }
    st := OK;
    Finish(sr, list, nextSym, total, rest, eob, nblockMAX, col, out[..], unzftab[..], inUse);
  }

  lemma LoopParts(sr: SymbolReader, list: MtfList, nextSym: int, total: Scan, rest: Scan, eob: nat, room: nat, col: seq<int>, out: seq<int>, tab: seq<int>, inUse: seq<bool>)
    requires LoopState(sr, list, nextSym, total, rest, eob, room, col, out, tab, inUse)
    ensures sr.Valid() && list.Valid() && sr.Count() >= 0 && eob >= 2 && 0 <= nextSym <= eob && |inUse| == 256
    ensures RUNA == 0 && RUNB == 1
  {
    hide SymbolReader.Valid, MtfList.Valid, SymbolReader.Count, Progress, Held, Below, After;
  }

  lemma Finish(sr: SymbolReader, list: MtfList, nextSym: int, total: Scan, rest: Scan, eob: nat, room: nat, col: seq<int>, out: seq<int>, tab: seq<int>, inUse: seq<bool>)
    requires LoopState(sr, list, nextSym, total, rest, eob, room, col, out, tab, inUse) && nextSym == eob && |col| <= room
    ensures sr.Valid() && sr.r.Valid() && |inUse| == 256 && total.end == Got((), sr.r.Pos())
    ensures Delivered(OK, out, tab, |col|, total, eob, room, inUse)
  {
    hide SymbolReader.Valid, MtfList.Valid, SymbolReader.Count, Progress, Held, Below, Reading, Delivered;
    ReadingHead(sr, nextSym, eob, rest);
    ReadingParts(sr, nextSym, eob, rest);
    RestEnds(total, eob, room, col, list.list, rest);
    ProgressEnd(total, eob, room, col, list.list, rest);
    Succeeded(out, tab, |col|, total, eob, room, inUse, col);
  }
}

/** The encoder's move-to-front pass over the last column, with runs of the front value counted up
    and written in bijective base two. */
module MtfEncoder {
  import opened Rotations
  import opened BurrowsWheeler
  import opened MoveToFront

  /** The bytes below k that occur in the block, in ascending order. */
  function UsedBelow(inUse: seq<bool>, k: nat): (r: seq<int>)
    requires k <= |inUse|
    ensures |r| <= k
  {
    if k == 0 then [] else UsedBelow(inUse, k - 1) + if inUse[k - 1] then [k - 1] else []
  }

  /** The sequence number of byte c among the bytes in use. */
  function SeqNo(inUse: seq<bool>, c: nat): nat
    requires c < |inUse|
  {
    |UsedBelow(inUse, c)|
  }

  lemma {:induction false} UsedAt(inUse: seq<bool>, c: nat, k: nat)
    requires c < k <= |inUse| && inUse[c]
    ensures SeqNo(inUse, c) < |UsedBelow(inUse, k)| && UsedBelow(inUse, k)[SeqNo(inUse, c)] == c
    decreases k
  {
    if c < k - 1 { UsedAt(inUse, c, k - 1); }
  }

  ghost predicate AllUsed(b: seq<byte>, inUse: seq<bool>) {
    |inUse| == 256 && forall i :: 0 <= i < |b| ==> inUse[b[i]]
  }

  /** The column as sequence numbers: what the encoder feeds to the list. */
  ghost function Numbered(l: seq<byte>, inUse: seq<bool>): (r: seq<int>)
    requires AllUsed(l, inUse)
    ensures |r| == |l| && forall i :: 0 <= i < |l| ==> r[i] == SeqNo(inUse, l[i])
  {
    seq(|l|, i requires 0 <= i < |l| => SeqNo(inUse, l[i]))
  }

  ghost function Iota(n: nat): (r: seq<int>)
    ensures |r| == n && forall i :: 0 <= i < n ==> r[i] == i
  {
    seq(n, i => i)
  }

  lemma NumberedInList(l: seq<byte>, inUse: seq<bool>)
    requires AllUsed(l, inUse)
    ensures forall i :: 0 <= i < |l| ==> Numbered(l, inUse)[i] in Iota(|UsedBelow(inUse, 256)|)
  {
    forall i | 0 <= i < |l| ensures Numbered(l, inUse)[i] in Iota(|UsedBelow(inUse, 256)|) {
      UsedAt(inUse, l[i], 256);
      var k := SeqNo(inUse, l[i]);
      assert Iota(|UsedBelow(inUse, 256)|)[k] == k;
    }
  }

  lemma ColumnUsed(b: seq<byte>, p: seq<int>, inUse: seq<bool>)
    requires AllUsed(b, inUse) && |b| > 0 && IsPerm(p, |b|)
    ensures AllUsed(LastColumn(b, p), inUse)
  {
    forall i | 0 <= i < |b| ensures inUse[LastColumn(b, p)[i]] {
      PredAt(b, p[i], 0);
      assert LastColumn(b, p)[i] == b[Pred(p[i], |b|)];
    }
  }

  /** Everything the encoder writes for a block, end marker included. */
  ghost function Symbols(l: seq<byte>, inUse: seq<bool>): seq<int>
    requires AllUsed(l, inUse) && |l| > 0
  {
    NumberedInList(l, inUse);
    assert |UsedBelow(inUse, 256)| > 0 by { UsedAt(inUse, l[0], 256); }
    var n := |UsedBelow(inUse, 256)|;
    Encode(Iota(n), Numbered(l, inUse), 0) + [n + 1]
  }

  ghost predicate Numbers(m: seq<int>, inUse: seq<bool>) {
    |m| == |inUse| && forall c :: 0 <= c < |inUse| && inUse[c] ==> m[c] == SeqNo(inUse, c)
  }

  method MakeMaps(inUse: array<bool>, unseqToSeq: array<int>) returns (nInUse: nat)
    requires inUse.Length == 256 && unseqToSeq.Length == 256
    modifies unseqToSeq
    ensures nInUse == |UsedBelow(inUse[..], 256)|
    ensures Numbers(unseqToSeq[..], inUse[..])
  {
    nInUse := 0;
    for i := 0 to 256
      invariant nInUse == |UsedBelow(inUse[..], i)|
      invariant forall c :: 0 <= c < i && inUse[c] ==> unseqToSeq[c] == SeqNo(inUse[..], c)
    {
      if inUse[i] {
        unseqToSeq[i] := nInUse;
        nInUse := nInUse + 1;
      }
    }
  }

  /** Appends one symbol and counts it. */
  method Emit(mtfv: array<int>, wr: nat, sym: int, mtfFreq: array<int>) returns (wr': nat)
    requires mtfv != mtfFreq && wr < mtfv.Length && 0 <= sym < mtfFreq.Length
    requires Counted(mtfFreq[..], mtfv[..wr])
    modifies mtfv, mtfFreq
    ensures wr' == wr + 1 && mtfv[..wr'] == old(mtfv[..wr]) + [sym]
    ensures Counted(mtfFreq[..], mtfv[..wr'])
  {
    ghost var out, f := mtfv[..wr], mtfFreq[..];
    mtfv[wr] := sym;
    mtfFreq[sym] := mtfFreq[sym] + 1;
    wr' := wr + 1;
    assert mtfv[..wr'] == out + [sym];
    CountOne(f, mtfFreq[..], out, sym);
  }

  /** freq[v] is how often v occurs among the symbols. */
  ghost predicate Counted(freq: seq<int>, syms: seq<int>) {
    forall v :: 0 <= v < |freq| ==> freq[v] == multiset(syms)[v]
  }

  lemma CountOne(f: seq<int>, g: seq<int>, syms: seq<int>, s: int)
    requires Counted(f, syms) && 0 <= s < |f| && g == f[s := f[s] + 1]
    ensures Counted(g, syms + [s])
  {
  }

  /** Writes a run of zPend in bijective base two. */
  method FlushRun(mtfv: array<int>, wr0: nat, zPend0: nat, mtfFreq: array<int>) returns (wr: nat)
    requires mtfv != mtfFreq && wr0 + zPend0 <= mtfv.Length && mtfFreq.Length >= 2
    requires Counted(mtfFreq[..], mtfv[..wr0])
    modifies mtfv, mtfFreq
    ensures wr == wr0 + |RunCode(zPend0)| <= wr0 + zPend0
    ensures mtfv[..wr] == old(mtfv[..wr0]) + RunCode(zPend0)
    ensures Counted(mtfFreq[..], mtfv[..wr])
  {
    ghost var all := mtfv[..wr0] + RunCode(zPend0);
    RunCodeSize(zPend0);
    wr := wr0;
    if zPend0 == 0 { return; }
    var zPend := zPend0 - 1;
    while true
      invariant 0 <= zPend && wr0 <= wr && wr + |RunCode(zPend + 1)| == |all| <= mtfv.Length
      invariant mtfv[..wr] + RunCode(zPend + 1) == all
      invariant Counted(mtfFreq[..], mtfv[..wr])
      decreases zPend
    {
      ghost var out := mtfv[..wr];
      RunCodeStep(zPend);
      wr := Emit(mtfv, wr, if zPend % 2 == 1 then RUNB else RUNA, mtfFreq);
      assert out + RunCode(zPend + 1) == mtfv[..wr] + RunCode(zPend / 2);
      if zPend < 2 { break; }
      zPend := (zPend - 2) / 2;
    }
    assert mtfv[..wr] + RunCode(0) == mtfv[..wr];
  }

  lemma RunCodeStep(z: nat)
    ensures RunCode(z + 1) == [z % 2] + RunCode(z / 2)
    ensures z < 2 ==> RunCode(z / 2) == []
    ensures z >= 2 ==> z / 2 == (z - 2) / 2 + 1
  {
  }

  lemma NotYet(list: seq<int>, v: int, j: nat)
    requires v in list && j < |list| && v !in list[..j] && list[j] != v
    ensures j + 1 < |list| && v !in list[..j + 1]
  {
    assert list[..j + 1] == list[..j] + [list[j]];
  }

  /** The list search that shifts as it goes: finds v, moves it to the front, returns its index. */
  method MoveUp(yy: array<int>, n: nat, v: int) returns (j: nat)
    requires 2 <= n <= yy.Length && v in yy[..n] && yy[0] != v
    modifies yy
    ensures j < n && j == IndexOf(old(yy[..n]), v) && yy[..n] == Front(old(yy[..n]), j)
  {
    ghost var list := yy[..n];
    var rtmp := yy[1];
    yy[1] := yy[0];
    j := 1;
    while v != rtmp
      invariant 1 <= j < n && rtmp == list[j] && v !in list[..j]
      invariant forall i {:trigger yy[i]} :: 1 <= i < n ==> yy[i] == if i <= j then list[i - 1] else list[i]
      decreases n - j
    {
      NotYet(list, v, j);
      j := j + 1;
      var rtmp2 := rtmp;
      rtmp := yy[j];
      yy[j] := rtmp2;
    }
    yy[0] := rtmp;
    IndexUnique(list, j);
    assert yy[..n] == Front(list, j);
  }

  /** What is still to be written, from column entry i on with a run of pend due. */
  ghost predicate Rest(out: seq<int>, list: seq<int>, col: seq<int>, i: nat, pend: nat, all: seq<int>) {
    && |list| > 0 && i <= |col| && (forall k :: i <= k < |col| ==> col[k] in list)
    && (forall k :: 0 <= k < |col[i..]| ==> col[i..][k] in list)
    && out + Encode(list, col[i..], pend) == all
  }

  lemma RestSame(out: seq<int>, list: seq<int>, col: seq<int>, i: nat, pend: nat, all: seq<int>)
    requires Rest(out, list, col, i, pend, all) && i < |col| && col[i] == list[0]
    ensures Rest(out, list, col, i + 1, pend + 1, all)
  {
    assert col[i..][1..] == col[i + 1..];
  }

  lemma RestOther(out: seq<int>, list: seq<int>, col: seq<int>, i: nat, pend: nat, all: seq<int>)
    requires Rest(out, list, col, i, pend, all) && i < |col| && col[i] != list[0]
    ensures col[i] in list
    ensures var k := IndexOf(list, col[i]);
            Rest(out + RunCode(pend) + [k + 1], Front(list, k), col, i + 1, 0, all)
  {
    hide RunCode, Encode, IndexOf, Front;
    var k := IndexOf(list, col[i]);
    forall v ensures v in list <==> v in Front(list, k) { FrontSame(list, k, v); }
    EncodeOther(list, col[i..], pend, k);
    assert col[i..][1..] == col[i + 1..];
    var e := Encode(Front(list, k), col[i + 1..], 0);
    assert out + (RunCode(pend) + [k + 1] + e) == out + RunCode(pend) + [k + 1] + e;
  }

  lemma RestEnd(out: seq<int>, list: seq<int>, col: seq<int>, pend: nat, all: seq<int>)
    requires Rest(out, list, col, |col|, pend, all)
    ensures out + RunCode(pend) == all
  {
    assert col[|col|..] == [];
  }

  lemma RestStart(l: seq<byte>, inUse: seq<bool>)
    requires AllUsed(l, inUse) && |l| > 0
    ensures var n, col := |UsedBelow(inUse, 256)|, Numbered(l, inUse);
            exists all :: Rest([], Iota(n), col, 0, 0, all) && all + [n + 1] == Symbols(l, inUse)
  {
    var n, col := |UsedBelow(inUse, 256)|, Numbered(l, inUse);
    NumberedInList(l, inUse);
    UsedAt(inUse, l[0], 256);
    assert col[0..] == col;
    var all := Encode(Iota(n), col, 0);
    assert [] + all == all;
    assert Rest([], Iota(n), col, 0, 0, all);
  }

  /** The value before slot i of the sorted order, as a sequence number. */
  lemma ColumnEntry(b: seq<byte>, p: seq<int>, inUse: seq<bool>, i: nat)
    requires AllUsed(b, inUse) && |b| > 0 && IsPerm(p, |b|) && i < |b|
    ensures AllUsed(LastColumn(b, p), inUse)
    ensures Numbered(LastColumn(b, p), inUse)[i] == SeqNo(inUse, b[Pred(p[i], |b|)])
  {
    ColumnUsed(b, p, inUse);
    PredAt(b, p[i], 0);
  }

  /** The tables generateMTFValues starts from: byte numbers, the identity list, zero counts. */
  method Prepare(inUse: array<bool>, mtfFreq: array<int>) returns (nInUse: nat, unseqToSeq: array<int>, yy: array<int>)
    requires inUse.Length == 256 && mtfFreq.Length == 258
    modifies mtfFreq
    ensures fresh(unseqToSeq) && fresh(yy) && unseqToSeq != yy && yy.Length == 256
    ensures nInUse == |UsedBelow(inUse[..], 256)| && nInUse <= 256
    ensures Numbers(unseqToSeq[..], inUse[..]) && yy[..nInUse] == Iota(nInUse)
    ensures Counted(mtfFreq[..], [])
  {
    unseqToSeq, yy := new int[256], new int[256];
    nInUse := MakeMaps(inUse, unseqToSeq);
    hide UsedBelow, Numbers;
    for v := 0 to 258
      invariant forall u :: 0 <= u < v ==> mtfFreq[u] == 0
      invariant Numbers(unseqToSeq[..], inUse[..])
    {
      mtfFreq[v] := 0;
    }
    for v := 0 to nInUse
      invariant forall u :: 0 <= u < v ==> yy[u] == u
      invariant Numbers(unseqToSeq[..], inUse[..]) && forall u :: 0 <= u < 258 ==> mtfFreq[u] == 0
    {
      yy[v] := v;
    }
    CountNone(mtfFreq[..]);
  }

  /** generateMTFValues: walks the sorted order and writes the symbols of the last column.  wr never
      overtakes i, which is why the source can write them over the order it is still reading. */
  method GenerateMtfValues(ptr: array<int>, block: array<int>, inUse: array<bool>, mtfv: array<int>, mtfFreq: array<int>, ghost b: seq<byte>)
    returns (nInUse: nat, nMTF: nat)
    requires mtfv != mtfFreq && mtfv != ptr && mtfv != block && mtfFreq != ptr && mtfFreq != block
    requires block[..] == b && |b| > 0 && ptr.Length == |b| && IsPerm(ptr[..], |b|)
    requires AllUsed(b, inUse[..]) && mtfv.Length > |b| && mtfFreq.Length == 258
    modifies mtfv, mtfFreq
    ensures nInUse == |UsedBelow(inUse[..], 256)|
    ensures 0 < nMTF <= |b| + 1
    ensures AllUsed(LastColumn(b, ptr[..]), inUse[..])
    ensures mtfv[..nMTF] == Symbols(LastColumn(b, ptr[..]), inUse[..])
    ensures Counted(mtfFreq[..], mtfv[..nMTF])
  {
    hide UsedBelow, Encode, RunCode, Front, IndexOf, Symbols, Rest, Counted, Iota, SeqNo, LastColumn, At;
    ghost var p, used := ptr[..], inUse[..];
    ghost var l := LastColumn(b, p);
    ColumnUsed(b, p, used);
    ghost var col := Numbered(l, used);
    var unseqToSeq, yy;
    nInUse, unseqToSeq, yy := Prepare(inUse, mtfFreq);
    RestStart(l, used);
    ghost var all :| Rest([], Iota(nInUse), col, 0, 0, all) && all + [nInUse + 1] == Symbols(l, used);
    var wr: nat, zPend: nat := 0, 0;
    assert mtfv[..0] == [];
    for i := 0 to ptr.Length
      invariant wr + zPend <= i && Numbers(unseqToSeq[..], used)
      invariant Rest(mtfv[..wr], yy[..nInUse], col, i, zPend, all)
      invariant Counted(mtfFreq[..], mtfv[..wr])
    {
      var j := ptr[i] - 1;
      if j < 0 { j := j + ptr.Length; }
      ColumnEntry(b, p, used, i);
      assert block[j] == b[j] && inUse[b[j]];
      var ll := unseqToSeq[block[j]];
      assert ll == unseqToSeq[..][b[j]];
      assert ll == col[i];
      RestList(mtfv[..wr], yy[..nInUse], col, i, zPend, all);
      assert yy[0] == yy[..nInUse][0];
      if yy[0] == ll {
        RestSame(mtfv[..wr], yy[..nInUse], col, i, zPend, all);
        zPend := zPend + 1;
      } else {
        RestOther(mtfv[..wr], yy[..nInUse], col, i, zPend, all);
        wr := FlushRun(mtfv, wr, zPend, mtfFreq);
        zPend := 0;
        var k := MoveUp(yy, nInUse, ll);
        wr := Emit(mtfv, wr, k + 1, mtfFreq);
      }
    }
    RestEnd(mtfv[..wr], yy[..nInUse], col, zPend, all);
    wr := FlushRun(mtfv, wr, zPend, mtfFreq);
    nMTF := Emit(mtfv, wr, nInUse + 1, mtfFreq);
  }

  lemma CountNone(f: seq<int>)
    requires forall v :: 0 <= v < |f| ==> f[v] == 0
    ensures Counted(f, [])
  {
  }

  lemma RestList(out: seq<int>, list: seq<int>, col: seq<int>, i: nat, pend: nat, all: seq<int>)
    requires Rest(out, list, col, i, pend, all) && i < |col|
    ensures |list| > 0 && col[i] in list && (col[i] != list[0] ==> |list| >= 2)
  {
  }
}

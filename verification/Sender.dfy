/** sendMTFValues and the block part of BZ2_compressBlock: writes byte map, selectors, code lengths
    and code words, bit for bit the format of a block. */
module Sender {
  import opened Powers
  import opened Rotations
  import opened Bits
  import opened BitIO
  import opened CanonicalCodes
  import opened MoveToFront
  import opened BurrowsWheeler
  import opened MtfEncoder
  import opened Wire
  import opened BlockFormat
  import opened TableChoice
  import opened BlockSize

  // ---------- the byte map ----------

  method MakeFlags(inUse: seq<bool>) returns (inUse16: array<bool>)
    requires |inUse| == 256
    ensures fresh(inUse16) && inUse16[..] == Flags(inUse)
  {
    hide Row;
    inUse16 := new bool[16];
    for i := 0 to 16
      invariant forall k :: 0 <= k < i ==> inUse16[k] == (true in Row(inUse, k))
    {
      inUse16[i] := false;
      for j := 0 to 16
        invariant inUse16[i] == (true in Row(inUse, i)[..j])
        invariant forall k :: 0 <= k < i ==> inUse16[k] == (true in Row(inUse, k))
      {
        RowAt(inUse, i, j);
        if inUse[i * 16 + j] { inUse16[i] := true; }
      }
      assert Row(inUse, i)[..16] == Row(inUse, i);
    }
    assert inUse16[..] == Flags(inUse);
  }

  method SendFlags(w: BitWriter, flags: seq<bool>)
    requires w.Valid() && |flags| == 16
    modifies w
    ensures w.Valid() && w.Bits() == old(w.Bits()) + flags
  {
    hide BitWriter.Valid, BitWriter.Bits;
    assert w.Bits() == old(w.Bits()) + flags[..0];
    for i := 0 to 16
      invariant w.Valid() && w.Bits() == old(w.Bits()) + flags[..i]
    {
      OneBit(flags[i]);
      w.Put(1, if flags[i] then 1 else 0);
      assert flags[..i + 1] == flags[..i] + [flags[i]];
    }
    assert flags[..16] == flags;
  }

  lemma RowAt(inUse: seq<bool>, i: nat, j: nat)
    requires |inUse| == 256 && i < 16 && j < 16
    ensures Row(inUse, i)[..j + 1] == Row(inUse, i)[..j] + [inUse[i * 16 + j]]
  {
  }

  lemma OneBit(b: bool)
    ensures BitsOf(if b then 1 else 0, 1) == [b]
    ensures Pow2(1) == 2
  {
    assert BitsOf(0, 0) == [] && BitsOf(1 / 2, 0) == [];
  }

  method SendRow(w: BitWriter, inUse: seq<bool>, i: nat)
    requires w.Valid() && |inUse| == 256 && i < 16
    modifies w
    ensures w.Valid() && w.Bits() == old(w.Bits()) + Row(inUse, i)
  {
    hide BitWriter.Valid, BitWriter.Bits, Row;
    assert w.Bits() == old(w.Bits()) + Row(inUse, i)[..0];
    for j := 0 to 16
      invariant w.Valid() && w.Bits() == old(w.Bits()) + Row(inUse, i)[..j]
    {
      RowAt(inUse, i, j);
      OneBit(inUse[i * 16 + j]);
      w.Put(1, if inUse[i * 16 + j] then 1 else 0);
    }
    assert Row(inUse, i)[..16] == Row(inUse, i);
  }

  method SendMap(w: BitWriter, inUse: seq<bool>)
    requires w.Valid() && |inUse| == 256
    modifies w
    ensures w.Valid() && w.Bits() == old(w.Bits()) + MapBits(inUse)
  {
    hide BitWriter.Valid, BitWriter.Bits, Row;
    ghost var was := w.Bits();
    var inUse16 := MakeFlags(inUse);
    SendFlags(w, inUse16[..]);
    assert RowBits(inUse, 0) == [];
    for i := 0 to 16
      invariant w.Valid() && w.Bits() == was + Flags(inUse) + RowBits(inUse, i)
      invariant inUse16[..] == Flags(inUse)
    {
      assert inUse16[i] == Flags(inUse)[i];
      if inUse16[i] { SendRow(w, inUse, i); }
    }
  }

  // ---------- the selectors ----------

  /** Finds sel in the list and moves it to the front, in one pass. */
  method MoveSelector(pos: array<int>, sel: int) returns (j: nat)
    requires sel in pos[..]
    modifies pos
    ensures j == IndexOf(old(pos[..]), sel) && pos[..] == Front(old(pos[..]), j)
  {
    ghost var list := pos[..];
    j := 0;
    var tmp := pos[j];
    while sel != tmp
      invariant j < pos.Length && tmp == list[j] && sel !in list[..j]
      invariant forall i {:trigger pos[i]} :: 1 <= i < pos.Length ==> pos[i] == if i <= j then list[i - 1] else list[i]
      decreases pos.Length - j
    {
      NotYet(list, sel, j);
      j := j + 1;
      var tmp2 := tmp;
      tmp := pos[j];
      pos[j] := tmp2;
    }
    pos[0] := tmp;
    IndexUnique(list, j);
    assert pos[..] == Front(list, j);
  }

  lemma MtfOfStep(list: seq<int>, sels: seq<int>, i: nat)
    requires (forall k :: 0 <= k < |sels| ==> sels[k] in list) && i < |sels|
    ensures var u := MtfOf(list, sels[..i]);
            sels[i] in u.0 && MtfOf(list, sels[..i + 1]) == (Front(u.0, IndexOf(u.0, sels[i])), u.1 + [IndexOf(u.0, sels[i])])
  {
    assert sels[..i + 1][..i] == sels[..i];
  }

  /** Compute MTF values for the selectors. */
  method SelectorPositions(selector: seq<int>, nGroups: nat) returns (mtf: seq<nat>)
    requires 0 < nGroups && forall i :: 0 <= i < |selector| ==> 0 <= selector[i] < nGroups
    ensures (forall i :: 0 <= i < |selector| ==> selector[i] in Iota(nGroups)) && mtf == MtfOf(Iota(nGroups), selector).1
  {
    InOrder(nGroups, selector);
    hide MtfOf, IndexOf, Front, Iota;
    var pos := new int[nGroups](i => i);
    ghost var list := Iota(nGroups);
    assert pos[..] == list;
    mtf := [];
    assert selector[..0] == [];
    MtfNone(list);
    for i := 0 to |selector|
      invariant pos[..] == MtfOf(list, selector[..i]).0 && mtf == MtfOf(list, selector[..i]).1
    {
      MtfOfStep(list, selector, i);
      var j := MoveSelector(pos, selector[i]);
      mtf := mtf + [j];
    }
    assert selector[..|selector|] == selector;
  }

  lemma MtfNone(list: seq<int>)
    ensures MtfOf(list, []) == (list, [])
  {
  }

  method SendUnary(w: BitWriter, n: nat)
    requires w.Valid()
    modifies w
    ensures w.Valid() && w.Bits() == old(w.Bits()) + UnaryBits(n)
  {
    hide BitWriter.Valid, BitWriter.Bits;
    OneBit(true);
    OneBit(false);
    assert w.Bits() == old(w.Bits()) + Ones(0);
    for j := 0 to n
      invariant w.Valid() && w.Bits() == old(w.Bits()) + Ones(j)
    {
      w.Put(1, 1);
    }
    w.Put(1, 0);
  }

  method SendSelectors(w: BitWriter, nGroups: nat, selector: seq<int>)
    requires w.Valid() && 2 <= nGroups <= MAX_GROUPS && 1 <= |selector| <= MAX_SELECTORS
    requires forall i :: 0 <= i < |selector| ==> 0 <= selector[i] < nGroups
    modifies w
    ensures forall i :: 0 <= i < |selector| ==> selector[i] in Iota(nGroups)
    ensures w.Valid() && w.Bits() == old(w.Bits()) + (BitsOf(nGroups, 3) + (BitsOf(|selector|, 15) + SelBits(MtfOf(Iota(nGroups), selector).1)))
  {
    hide BitWriter.Valid, BitWriter.Bits, BitsOf, MtfOf, UnaryBits;
    var selectorMtf := SelectorPositions(selector, nGroups);
    Pow2Of15();
    hide SelBits, Pow2;
    w.Put(3, nGroups);
    w.Put(15, |selector|);
    SendPositions(w, selectorMtf);
  }

  method SendPositions(w: BitWriter, selectorMtf: seq<nat>)
    requires w.Valid()
    modifies w
    ensures w.Valid() && w.Bits() == old(w.Bits()) + SelBits(selectorMtf)
  {
    hide BitWriter.Valid, BitWriter.Bits, UnaryBits;
    assert selectorMtf[..0] == [] && w.Bits() == old(w.Bits()) + SelBits([]);
    for i := 0 to |selectorMtf|
      invariant w.Valid() && w.Bits() == old(w.Bits()) + SelBits(selectorMtf[..i])
    {
      SendUnary(w, selectorMtf[i]);
      assert selectorMtf[..i + 1][..i] == selectorMtf[..i];
    }
    assert selectorMtf[..|selectorMtf|] == selectorMtf;
  }

  // ---------- the code lengths ----------

  lemma SmallWidths()
    ensures Pow2(1) == 2 && Pow2(2) == 4
  {
    assert Pow2(0) == 1;
  }

  lemma DeltaUp(sent: seq<bool>, curr: int, target: int)
    requires curr < target
    ensures sent + DeltaBits(curr, target) == sent + BitsOf(2, 2) + DeltaBits(curr + 1, target)
  {
    hide BitsOf;
  }

  lemma DeltaDown(sent: seq<bool>, curr: int, target: int)
    requires curr > target
    ensures sent + DeltaBits(curr, target) == sent + BitsOf(3, 2) + DeltaBits(curr - 1, target)
  {
    hide BitsOf;
  }

  lemma DeltaDone(curr: int)
    ensures DeltaBits(curr, curr) == BitsOf(0, 1)
  {
    OneBit(false);
    hide BitsOf;
  }

  method SendDelta(w: BitWriter, curr0: int, target: int)
    requires w.Valid()
    modifies w
    ensures w.Valid() && w.Bits() == old(w.Bits()) + DeltaBits(curr0, target)
  {
    hide *;
    SmallWidths();
    ghost var all := w.Bits() + DeltaBits(curr0, target);
    var curr := curr0;
    while curr < target
      invariant w.Valid() && w.Bits() + DeltaBits(curr, target) == all
      invariant curr0 >= target ==> curr == curr0
      invariant curr0 <= target ==> curr <= target
      decreases target - curr
    {
      DeltaUp(w.Bits(), curr, target);
      w.Put(2, 2);
      curr := curr + 1;
    }
    while curr > target
      invariant w.Valid() && w.Bits() + DeltaBits(curr, target) == all && curr >= target
      decreases curr - target
    {
      DeltaDown(w.Bits(), curr, target);
      w.Put(2, 3);
      curr := curr - 1;
    }
    DeltaDone(curr);
    w.Put(1, 0);
  }

  method SendLengths(w: BitWriter, len: seq<int>)
    requires w.Valid() && Lengths(len)
    modifies w
    ensures w.Valid() && w.Bits() == old(w.Bits()) + LenBits(len, |len|)
  {
    hide BitWriter.Valid, BitWriter.Bits, BitsOf, DeltaBits;
    ghost var was := w.Bits();
    assert Pow2(5) == 32;
    var curr := len[0];
    w.Put(5, curr);
    for i := 0 to |len|
      invariant w.Valid() && w.Bits() == was + LenBits(len, i) && curr == if i == 0 then len[0] else len[i - 1]
    {
      SendDelta(w, curr, len[i]);
      curr := len[i];
    }
  }

  method SendTables(w: BitWriter, lens: seq<seq<int>>, a: nat)
    requires w.Valid() && AllCodable(lens, a)
    modifies w
    ensures w.Valid() && w.Bits() == old(w.Bits()) + TableBits(lens, a)
  {
    hide BitWriter.Valid, BitWriter.Bits, LenBits, Kraft;
    ghost var was := w.Bits();
    assert lens[..0] == [];
    for t := 0 to |lens|
      invariant AllCodable(lens[..t], a) && w.Valid() && w.Bits() == was + TableBits(lens[..t], a)
    {
      assert Codable(lens[t], a);
      SendLengths(w, lens[t]);
      assert lens[..t + 1][..t] == lens[..t];
    }
    assert lens[..|lens|] == lens;
  }

  // ---------- the code words ----------

  /** Codes for one table. */
  method RowCodes(len: seq<int>, ghost a: nat) returns (code: seq<int>)
    requires Codable(len, a)
    ensures |code| == |len| && forall v :: 0 <= v < |len| ==> len[v] >= 0 && code[v] == Code(len, v)
  {
    var alphaSize := |len|;
    var length, codes := new int[alphaSize](v requires 0 <= v < |len| => len[v]), new int[alphaSize];
    assert length[..alphaSize] == len;
    hide Code, Kraft;
    var minLen, maxLen := 32, 0;
    for v := 0 to alphaSize
      invariant forall u :: 0 <= u < v ==> minLen <= len[u] <= maxLen
      invariant v > 0 ==> minLen in len && maxLen in len
      invariant v == 0 ==> minLen == 32 && maxLen == 0
    {
      if len[v] > maxLen { maxLen := len[v]; }
      if len[v] < minLen { minLen := len[v]; }
    }
    assert 1 <= minLen;  // assertion 3005 of the source
    AssignCodes(codes, length, minLen, maxLen, alphaSize);
    code := codes[..];
  }

  ghost predicate CodesFor(codes: seq<seq<int>>, lens: seq<seq<int>>, n: nat) {
    |codes| == n <= |lens| && forall t {:trigger lens[t]} :: 0 <= t < n ==> CodeRow(codes[t], lens[t])
  }

  ghost predicate CodeRow(code: seq<int>, len: seq<int>) {
    |code| == |len| && forall v :: 0 <= v < |len| ==> len[v] >= 0 && code[v] == Code(len, v)
  }

  method AllCodes(lens: seq<seq<int>>, a: nat) returns (codes: seq<seq<int>>)
    requires AllCodable(lens, a)
    ensures CodesFor(codes, lens, |lens|)
  {
    hide Code, Codable;
    codes := [];
    for t := 0 to |lens|
      invariant CodesFor(codes, lens, t)
    {
      assert Codable(lens[t], a);
      var code := RowCodes(lens[t], a);
      codes := codes + [code];
    }
  }

  /** The code of a symbol of a codable table fits its length. */
  lemma CodeWord(len: seq<int>, code: seq<int>, a: nat, s: int)
    requires Codable(len, a) && CodeRow(code, len) && 0 <= s < a
    ensures |len| == |code| == a && 1 <= len[s] <= LONGEST && 0 <= code[s] < Pow2(len[s])
    ensures BitsOf(code[s], len[s]) == CodeBits(len, s)
  {
    hide Code, Kraft;
    CodeFits(len, s);
  }

  /** One group's code words. */
  method SendGroup(w: BitWriter, len: seq<int>, code: seq<int>, gs: nat, ge: nat, syms: seq<int>,
                   ghost lens: seq<seq<int>>, ghost sels: seq<int>, ghost a: nat, ghost g: nat, ghost was: seq<bool>)
    requires w.Valid() && Sendable(lens, sels, a, syms) && gs <= ge < |syms| && g < |sels| && 0 <= sels[g] < |lens|
    requires gs / GROUP_SIZE == ge / GROUP_SIZE == g && len == lens[sels[g]] && CodeRow(code, len)
    requires Sendable(lens, sels, a, syms[..gs]) && w.Bits() == was + DataBits(lens, sels, a, syms[..gs])
    modifies w
    ensures w.Valid() && Sendable(lens, sels, a, syms[..ge + 1]) && w.Bits() == was + DataBits(lens, sels, a, syms[..ge + 1])
  {
    hide BitWriter.Valid, BitWriter.Bits, BitsOf, DataBits, Sendable, CodeBits, Codable, CodeRow, LenFor, Pow2;
    for i := gs to ge + 1
      invariant Sendable(lens, sels, a, syms[..i]) && w.Valid() && w.Bits() == was + DataBits(lens, sels, a, syms[..i])
    {
      var v := syms[i];
      Between(gs, i, ge);
      SendStep(lens, sels, a, syms, i, g, len);
      CodeWord(len, code, a, v);
      w.Put(len[v], code[v]);
    }
  }

  method SendData(w: BitWriter, lens: seq<seq<int>>, sels: seq<int>, a: nat, syms: seq<int>)
    requires w.Valid() && Sendable(lens, sels, a, syms)
    modifies w
    ensures w.Valid() && w.Bits() == old(w.Bits()) + DataBits(lens, sels, a, syms)
  {
    hide BitWriter.Valid, BitWriter.Bits, BitsOf, DataBits, Sendable, CodeBits, Codable, CodeRow, LenFor, AllCodable, CodesFor;
    AllFit(lens, sels, a, syms);
    var codes := AllCodes(lens, a);
    ghost var was := w.Bits();
    DataNone(lens, sels, a, syms);
    var selCtr, gs := 0, 0;
    while gs < |syms|
      invariant gs <= |syms| && (gs < |syms| ==> gs == GROUP_SIZE * selCtr) && 0 <= selCtr <= |sels|
      invariant Sendable(lens, sels, a, syms[..gs]) && w.Valid() && w.Bits() == was + DataBits(lens, sels, a, syms[..gs])
      decreases |syms| - gs
    {
      var ge := gs + GROUP_SIZE - 1;
      if ge >= |syms| { ge := |syms| - 1; }
      GroupEnds(|syms|, selCtr, ge);
      assert 0 <= sels[selCtr] < |lens|;  // assertion 3006 of the source
      var t := sels[selCtr];
      CodesAt(codes, lens, t);
      SendGroup(w, lens[t], codes[t], gs, ge, syms, lens, sels, a, selCtr, was);
      gs := ge + 1;
      selCtr := selCtr + 1;
    }
    assert syms[..|syms|] == syms;
  }

  lemma CodesAt(codes: seq<seq<int>>, lens: seq<seq<int>>, t: int)
    requires CodesFor(codes, lens, |lens|) && 0 <= t < |lens|
    ensures |codes| == |lens| && CodeRow(codes[t], lens[t])
  {
    hide CodeRow;
  }

  lemma Between(i: nat, j: nat, k: nat)
    requires i <= j <= k && i / GROUP_SIZE == k / GROUP_SIZE
    ensures j / GROUP_SIZE == i / GROUP_SIZE
  {
  }

  lemma GroupEnds(n: nat, g: nat, ge: nat)
    requires GROUP_SIZE * g < n && ge == (if GROUP_SIZE * g + GROUP_SIZE - 1 >= n then n - 1 else GROUP_SIZE * g + GROUP_SIZE - 1)
    ensures GROUP_SIZE * g / GROUP_SIZE == ge / GROUP_SIZE == g && GROUP_SIZE * g <= ge < n
    ensures ge + 1 < n ==> ge + 1 == GROUP_SIZE * (g + 1)
  {
  }

  lemma AllFit(lens: seq<seq<int>>, sels: seq<int>, a: nat, syms: seq<int>)
    requires Sendable(lens, sels, a, syms)
    ensures AllCodable(lens, a) && (forall i :: 0 <= i < |sels| ==> 0 <= sels[i] < |lens|) && |syms| <= GROUP_SIZE * |sels|
  {
  }

  lemma DataNone(lens: seq<seq<int>>, sels: seq<int>, a: nat, syms: seq<int>)
    requires Sendable(lens, sels, a, syms)
    ensures syms[..0] == [] && Sendable(lens, sels, a, syms[..0]) && DataBits(lens, sels, a, syms[..0]) == []
  {
  }

  lemma SendStep(lens: seq<seq<int>>, sels: seq<int>, a: nat, syms: seq<int>, i: nat, g: nat, len: seq<int>)
    requires Sendable(lens, sels, a, syms) && i < |syms| && g == i / GROUP_SIZE < |sels| && 0 <= sels[g] < |lens| && len == lens[sels[g]]
    ensures Sendable(lens, sels, a, syms[..i]) && Sendable(lens, sels, a, syms[..i + 1])
    ensures Codable(len, a) && |len| == a && 0 <= syms[i] < a && len[syms[i]] >= 0
    ensures DataBits(lens, sels, a, syms[..i + 1]) == DataBits(lens, sels, a, syms[..i]) + CodeBits(len, syms[i])
  {
    DataBitsMore(lens, sels, a, syms, i);
    LenForIs(lens, sels, i);
    hide *;
  }

  lemma LenForIs(lens: seq<seq<int>>, sels: seq<int>, i: nat)
    requires i / GROUP_SIZE < |sels| && forall k :: 0 <= k < |sels| ==> 0 <= sels[k] < |lens|
    ensures LenFor(lens, sels, i) == lens[sels[i / GROUP_SIZE]]
  {
  }

  // ---------- the whole body ----------

  lemma SmallAlphabet(inUse: seq<bool>, k: nat)
    requires k <= |inUse|
    ensures |UsedBelow(inUse, k)| <= k
  {
  }

  /** sendMTFValues: picks tables and selectors and sends the body. */
  method SendMtfValues(w: BitWriter, syms: seq<int>, mtfFreq: seq<int>, inUse: seq<bool>, nInUse: nat)
    returns (ghost lens: seq<seq<int>>, ghost sels: seq<int>)
    requires w.Valid() && |inUse| == 256 && nInUse <= 256
    requires Inside(syms, nInUse + 2) && 0 < |syms| <= BLOCK_MAX + 1 && Counted(mtfFreq, syms) && |mtfFreq| == 258
    modifies w
    ensures Choice(lens, sels, nInUse + 2, syms) && Sendable(lens, sels, nInUse + 2, syms) && Frugal(lens, sels, nInUse + 2, |syms|)
    ensures w.Valid() && w.Bits() == old(w.Bits()) + BodyBits(inUse, lens, sels, nInUse + 2, syms)
  {
    hide *;
    AlphaSize();
    var alphaSize := nInUse + 2;
    var selector := new int[MAX_SELECTORS];
    ghost var prev;
    var len, nSelectors;
    len, nSelectors, prev := ChooseTables(syms, mtfFreq, alphaSize, selector);
    var sel := selector[..nSelectors];
    lens, sels := len, sel;
    ChosenSendable(len, prev, alphaSize, syms, sel);
    ChoiceParts(len, sel, alphaSize, syms);
    MakeFrugal(len, sel, alphaSize, |syms|);
    SendMap(w, inUse);
    SendSelectors(w, |len|, sel);
    SendTables(w, len, alphaSize);
    SendData(w, len, sel, alphaSize, syms);
    Joined(old(w.Bits()), w.Bits(), inUse, len, sel, alphaSize, syms);
  }

  lemma MakeFrugal(lens: seq<seq<int>>, sels: seq<int>, a: nat, n: nat)
    requires Short(lens, a) && |sels| == Groups(n)
    ensures Frugal(lens, sels, a, n)
  {
  }

  lemma AlphaSize()
    ensures MAX_ALPHA_SIZE == 258 && MAX_SELECTORS == 18002
  {
  }

  lemma Joined(was: seq<bool>, now: seq<bool>, inUse: seq<bool>, lens: seq<seq<int>>, sels: seq<int>, a: nat, syms: seq<int>)
    requires |inUse| == 256 && Sendable(lens, sels, a, syms) && AllCodable(lens, a)
    requires (forall i :: 0 <= i < |sels| ==> 0 <= sels[i] < |lens|) && forall i :: 0 <= i < |sels| ==> sels[i] in Iota(|lens|)
    requires now == was + MapBits(inUse) + (BitsOf(|lens|, 3) + (BitsOf(|sels|, 15) + SelBits(MtfOf(Iota(|lens|), sels).1)))
                  + TableBits(lens, a) + DataBits(lens, sels, a, syms)
    ensures now == was + BodyBits(inUse, lens, sels, a, syms)
  {
    hide *;
    SelPartIs(lens, sels);
    CodePartIs(lens, sels, a, syms);
    BodyIs(inUse, lens, sels, a, syms);
    var m, s, t, d := MapBits(inUse), SelPart(lens, sels), TableBits(lens, a), DataBits(lens, sels, a, syms);
    assert was + m + s + t + d == was + (m + (s + (t + d)));
  }

  lemma SelPartIs(lens: seq<seq<int>>, sels: seq<int>)
    requires (forall i :: 0 <= i < |sels| ==> 0 <= sels[i] < |lens|) && forall i :: 0 <= i < |sels| ==> sels[i] in Iota(|lens|)
    ensures SelPart(lens, sels) == BitsOf(|lens|, 3) + (BitsOf(|sels|, 15) + SelBits(MtfOf(Iota(|lens|), sels).1))
  {
    hide BitsOf, SelBits, MtfOf, Iota;
  }

  /** The symbols of a block are in the alphabet. */
  lemma SymbolsInside(l: seq<byte>, inUse: seq<bool>, syms: seq<int>, n: nat)
    requires AllUsed(l, inUse) && |l| > 0 && syms == Symbols(l, inUse) && n == |UsedBelow(inUse, 256)|
    ensures Inside(syms, n + 2)
  {
    hide Symbols, UsedBelow;
    SymbolsRange(l, inUse);
  }

  /** What BZ2_compressBlock sends for a sorted block: start slot, then the body. */
  method SendBlock(w: BitWriter, ptr: array<int>, block: array<int>, inUse: array<bool>, origPtr: nat, ghost b: seq<byte>)
    requires w.Valid() && block[..] == b && 0 < |b| <= BLOCK_MAX && ptr.Length == |b|
    requires RotationSorted(b, ptr[..]) && origPtr < |b| && ptr[origPtr] == 0 && AllUsed(b, inUse[..])
    modifies w
    ensures w.Valid() && exists u :: SentAs(u, b) && w.Bits() == old(w.Bits()) + u
  {
    hide *;
    SortedPerm(b, ptr[..]);
    AllUsedSize(b, inUse[..]);
    ghost var was := w.Bits();
    assert Pow2(24) == 0x100_0000 && BLOCK_MAX == 900000 by { Limits(); }
    w.Put(24, origPtr);
    var mtfv, mtfFreq := new int[ptr.Length + 1], new int[258];
    var nInUse, nMTF := GenerateMtfValues(ptr, block, inUse, mtfv, mtfFreq, b);
    SmallAlphabet(inUse[..], 256);
    SymbolsInside(LastColumn(b, ptr[..]), inUse[..], mtfv[..nMTF], nInUse);
    ghost var lens, sels;
    lens, sels := SendMtfValues(w, mtfv[..nMTF], mtfFreq[..], inUse[..], nInUse);
    Encoded(was, w.Bits(), b, ptr[..], origPtr, inUse[..], lens, sels, nInUse + 2, mtfv[..nMTF]);
  }

  lemma Limits()
    ensures Pow2(24) == 0x100_0000 && BLOCK_MAX == 900000
  {
    Pow2Values();
  }

  lemma SortedPerm(b: seq<byte>, p: seq<int>)
    requires RotationSorted(b, p)
    ensures IsPerm(p, |b|) && |p| == |b| > 0 && forall x :: 0 <= x < |p| ==> 0 <= p[x]
  {
  }

  lemma Encoded(was: seq<bool>, now: seq<bool>, b: seq<byte>, p: seq<int>, orig: nat, inUse: seq<bool>, lens: seq<seq<int>>, sels: seq<int>, a: nat, syms: seq<int>)
    requires RotationSorted(b, p) && orig < |b| == |p| && p[orig] == 0 && (forall x :: 0 <= x < |p| ==> 0 <= p[x])
    requires |b| > 0 && |inUse| == 256 && AllUsed(LastColumn(b, p), inUse) && a == |UsedBelow(inUse, 256)| + 2 && syms == Symbols(LastColumn(b, p), inUse)
    requires Choice(lens, sels, a, syms) && Sendable(lens, sels, a, syms) && Frugal(lens, sels, a, |syms|)
    requires now == was + BitsOf(orig, 24) + BodyBits(inUse, lens, sels, a, syms)
    ensures exists u :: SentAs(u, b) && now == was + u
  {
    hide LastColumn, RotationSorted, AllUsed, Choice, Sendable, Symbols, UsedBelow, BitsOf, BodyBits, Frugal;
    var u := BitsOf(orig, 24) + BodyBits(inUse, lens, sels, a, syms);
    assert now == was + u;
    assert u == BlockBits(orig, inUse, lens, sels, LastColumn(b, p));
    assert SentWith(u, b, p, orig, inUse, lens, sels);
  }
}

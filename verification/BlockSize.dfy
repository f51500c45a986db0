/** How long the bits of a block can be when the sender chose its tables and selectors: a selector for every fifty
    symbols and no code longer than 17 bits. */
module BlockSize {
  import opened Rotations
  import opened Bits
  import opened CanonicalCodes
  import opened MoveToFront
  import opened BurrowsWheeler
  import opened MtfEncoder
  import opened Wire
  import opened BlockFormat
  import opened TableChoice

  // ---------- the parts ----------

  lemma {:induction false} RowBitsSize(inUse: seq<bool>, k: nat)
    requires |inUse| == 256 && k <= 16
    ensures |RowBits(inUse, k)| <= 16 * k
  {
    if k > 0 { RowBitsSize(inUse, k - 1); }
  }

  lemma {:induction false} SelBitsSize(mtf: seq<nat>, n: nat)
    requires n <= 6 && forall i :: 0 <= i < |mtf| ==> mtf[i] < n
    ensures |SelBits(mtf)| <= 6 * |mtf|
  {
    if mtf != [] { SelBitsSize(mtf[..|mtf| - 1], n); }
  }

  lemma {:induction false} DeltaSize(curr: int, target: int)
    ensures |DeltaBits(curr, target)| == 2 * (if curr < target then target - curr else curr - target) + 1
    decreases if curr < target then target - curr else curr - target
  {
    if curr < target { DeltaSize(curr + 1, target); } else if curr > target { DeltaSize(curr - 1, target); }
  }

  lemma {:induction false} LenBitsSize(len: seq<int>, k: nat)
    requires k <= |len| && |len| > 0 && forall i :: 0 <= i < |len| ==> 1 <= len[i] <= 17
    ensures |LenBits(len, k)| <= 5 + 33 * k
  {
    hide DeltaBits, BitsOf;
    if k > 0 {
      LenBitsSize(len, k - 1);
      DeltaSize(Before(len, k - 1), len[k - 1]);
    }
  }

  lemma {:induction false} TableBitsSize(lens: seq<seq<int>>, a: nat, one: nat)
    requires Short(lens, a) && AllCodable(lens, a) && 1 <= a <= 258 && one == 5 + 33 * 258
    ensures |TableBits(lens, a)| <= one * |lens|
  {
    if lens != [] {
      var n: nat := |lens| - 1;
      TableBitsSize(lens[..n], a, one);
      LastTable(lens, a);
      More(one, n);
    }
  }

  lemma LastTable(lens: seq<seq<int>>, a: nat)
    requires lens != [] && Short(lens, a) && AllCodable(lens, a) && 1 <= a <= 258
    ensures Short(lens[..|lens| - 1], a) && AllCodable(lens[..|lens| - 1], a)
    ensures |TableBits(lens, a)| <= |TableBits(lens[..|lens| - 1], a)| + 5 + 33 * 258
  {
    hide Kraft, LenBits;
    var len := lens[|lens| - 1];
    LenBitsSize(len, |len|);
  }

  lemma More(x: nat, n: nat)
    ensures x * (n + 1) == x * n + x
  {
  }

  lemma {:induction false} DataBitsSize(lens: seq<seq<int>>, sels: seq<int>, a: nat, syms: seq<int>, k: nat)
    requires Short(lens, a) && Sendable(lens, sels, a, syms) && k <= |syms| && Sendable(lens, sels, a, syms[..k])
    ensures |DataBits(lens, sels, a, syms[..k])| <= 17 * k
    decreases k
  {
    hide *;
    if k > 0 {
      DataBitsMore(lens, sels, a, syms, k - 1);
      DataBitsSize(lens, sels, a, syms, k - 1);
      CodeSize(lens, sels, a, syms, k - 1);
    } else {
      NoData(lens, sels, a, syms[..0]);
    }
  }

  lemma NoData(lens: seq<seq<int>>, sels: seq<int>, a: nat, none: seq<int>)
    requires none == [] && Sendable(lens, sels, a, none)
    ensures DataBits(lens, sels, a, none) == []
  {
  }

  lemma CodeSize(lens: seq<seq<int>>, sels: seq<int>, a: nat, syms: seq<int>, j: nat)
    requires Short(lens, a) && Sendable(lens, sels, a, syms) && j < |syms|
    ensures j / GROUP_SIZE < |sels| && (forall i :: 0 <= i < |sels| ==> 0 <= sels[i] < |lens|)
    ensures 0 <= syms[j] < |LenFor(lens, sels, j)| && LenFor(lens, sels, j)[syms[j]] >= 0
    ensures |CodeBits(LenFor(lens, sels, j), syms[j])| <= 17
  {
    hide Kraft, BitsOf;
    LenForFits(lens, sels, a, syms, j);
  }

  lemma {:induction false} EncodeSize(list: seq<int>, col: seq<int>, pend: nat)
    requires |list| > 0 && forall i :: 0 <= i < |col| ==> col[i] in list
    ensures |Encode(list, col, pend)| <= |col| + pend
    decreases |col|
  {
    hide RunCode;
    RunCodeSize(pend);
    if col != [] {
      if col[0] == list[0] {
        EncodeSize(list, col[1..], pend + 1);
      } else {
        var k := IndexOf(list, col[0]);
        forall v ensures v in list ==> v in Front(list, k) { FrontSame(list, k, v); }
        EncodeSize(Front(list, k), col[1..], 0);
      }
    }
  }

  lemma SymbolCount(l: seq<byte>, inUse: seq<bool>)
    requires AllUsed(l, inUse) && |l| > 0
    ensures 0 < |Symbols(l, inUse)| <= |l| + 1
  {
    AllUsedSize(l, inUse);
    NumberedInList(l, inUse);
    SymbolsSize(l, inUse);
    hide Symbols, Encode, UsedBelow;
    EncodeSize(Iota(|UsedBelow(inUse, 256)|), Numbered(l, inUse), 0);
  }

  // ---------- the whole ----------

  /** What the sender keeps to, beyond what the format asks. */
  ghost predicate Frugal(lens: seq<seq<int>>, sels: seq<int>, a: nat, n: nat) {
    Short(lens, a) && |sels| == Groups(n)
  }

  /** The bits of a block of n bytes: start slot, byte map, counts, selectors, code lengths and code words. */
  function BlockBound(n: nat): nat {
    24 + 272 + 18 + 6 * ((n + 50) / 50) + 6 * 8519 + 17 * (n + 1)
  }

  lemma SelPartSize(lens: seq<seq<int>>, sels: seq<int>)
    requires |lens| <= 6 && forall i :: 0 <= i < |sels| ==> 0 <= sels[i] < |lens|
    ensures |SelPart(lens, sels)| <= 18 + 6 * |sels|
  {
    InOrder(|lens|, sels);
    hide SelBits, BitsOf, MtfOf;
    SelBitsSize(MtfOf(Iota(|lens|), sels).1, |lens|);
  }

  lemma BodySize(inUse: seq<bool>, lens: seq<seq<int>>, sels: seq<int>, a: nat, syms: seq<int>)
    requires |inUse| == 256 && Choice(lens, sels, a, syms) && Frugal(lens, sels, a, |syms|) && Sendable(lens, sels, a, syms) && 1 <= a <= 258
    ensures |BodyBits(inUse, lens, sels, a, syms)| <= 272 + 18 + 6 * Groups(|syms|) + 6 * 8519 + 17 * |syms|
  {
    hide Sendable, AllCodable, Short, RowBits, SelPart, TableBits, DataBits, Groups;
    ChoiceParts(lens, sels, a, syms);
    RowBitsSize(inUse, 16);
    SelPartSize(lens, sels);
    TableBitsSize(lens, a, 8519);
    assert syms[..|syms|] == syms;
    DataBitsSize(lens, sels, a, syms, |syms|);
    AtMostSix(|lens|, 8519);
  }

  lemma AtMostSix(n: nat, x: nat)
    requires n <= 6
    ensures x * n <= 6 * x
  {
  }

  ghost predicate SentWith(w: seq<bool>, b: seq<byte>, p: seq<int>, orig: nat, inUse: seq<bool>, lens: seq<seq<int>>, sels: seq<int>) {
    && EncodesWith(w, b, p, orig, inUse, lens, sels)
    && Frugal(lens, sels, |UsedBelow(inUse, 256)| + 2, |Symbols(LastColumn(b, p), inUse)|)
  }

  /** w is a form in which the sender may send the block b. */
  ghost predicate SentAs(w: seq<bool>, b: seq<byte>) {
    exists p: seq<int>, orig: nat, inUse: seq<bool>, lens: seq<seq<int>>, sels: seq<int> :: SentWith(w, b, p, orig, inUse, lens, sels)
  }

  /** It is one of the forms of the block, and no longer than this. */
  lemma SentSize(w: seq<bool>, b: seq<byte>)
    requires SentAs(w, b)
    ensures Encodes(w, b) && |w| <= BlockBound(|b|)
  {
    hide EncodesWith, BlockBound, SentWith;
    var p: seq<int>, orig: nat, inUse: seq<bool>, lens: seq<seq<int>>, sels: seq<int> :| SentWith(w, b, p, orig, inUse, lens, sels);
    FormSize(w, b, p, orig, inUse, lens, sels);
  }

  lemma FormSize(w: seq<bool>, b: seq<byte>, p: seq<int>, orig: nat, inUse: seq<bool>, lens: seq<seq<int>>, sels: seq<int>)
    requires SentWith(w, b, p, orig, inUse, lens, sels)
    ensures EncodesWith(w, b, p, orig, inUse, lens, sels) && |w| <= BlockBound(|b|)
  {
    hide Choice, Sendable, Symbols, UsedBelow, BitsOf, BodyBits, Frugal, AllUsed, Groups, At;
    var l := LastColumn(b, p);
    AllUsedSize(l, inUse);
    SymbolCount(l, inUse);
    SymbolsRange(l, inUse);
    UsedCount(inUse, 256);
    ChoiceParts(lens, sels, |UsedBelow(inUse, 256)| + 2, Symbols(l, inUse));
    BodySize(inUse, lens, sels, |UsedBelow(inUse, 256)| + 2, Symbols(l, inUse));
    GroupsMono(|Symbols(l, inUse)|, |b| + 1);
  }

  lemma {:induction false} UsedCount(inUse: seq<bool>, k: nat)
    requires k <= |inUse|
    ensures |UsedBelow(inUse, k)| <= k
  {
    if k > 0 { UsedCount(inUse, k - 1); }
  }

  lemma GroupsMono(n: nat, m: nat)
    requires n <= m
    ensures Groups(n) <= (m + 49) / 50
  {
  }
}

/** The body of a compressed block as bits: byte map, selectors, code lengths and code words, with
    what reading each part yields on any input, and the round trip. */
module Wire {
  import opened Powers
  import opened Bits
  import opened Parsing
  import opened CanonicalCodes
  import opened MoveToFront

  const GROUP_SIZE: nat := 50

  // ---------- the byte map: sixteen flags, then a row of sixteen for every flag set ----------

  ghost function Row(inUse: seq<bool>, i: nat): (r: seq<bool>)
    requires |inUse| == 256 && i < 16
    ensures |r| == 16
  {
    inUse[16 * i..16 * i + 16]
  }

  ghost function Flags(inUse: seq<bool>): (r: seq<bool>)
    requires |inUse| == 256
    ensures |r| == 16 && forall i :: 0 <= i < 16 ==> r[i] == (true in Row(inUse, i))
  {
    seq(16, i requires 0 <= i < 16 => true in Row(inUse, i))
  }

  ghost function RowBits(inUse: seq<bool>, k: nat): seq<bool>
    requires |inUse| == 256 && k <= 16
  {
    if k == 0 then [] else RowBits(inUse, k - 1) + if true in Row(inUse, k - 1) then Row(inUse, k - 1) else []
  }

  ghost function MapBits(inUse: seq<bool>): seq<bool>
    requires |inUse| == 256
  {
    Flags(inUse) + RowBits(inUse, 16)
  }

  /** The first k rows, given the flags. */
  ghost function ParseRows(bits: seq<bool>, pos: nat, flags: seq<bool>, k: nat): (r: Parse<seq<bool>>)
    requires |flags| == 16 && k <= 16
    ensures !r.Overrun?
    ensures r.Got? ==> |r.value| == 16 * k
  {
    if k == 0 then Got([], pos)
    else
      match ParseRows(bits, pos, flags, k - 1)
      case Starved => Starved
      case Bad => Bad
      case Got(u, p) =>
        if !flags[k - 1] then Got(u + Zeros(16), p)
        else if p + 16 > |bits| then Starved
        else Got(u + bits[p..p + 16], p + 16)
  }

  ghost function ParseMap(bits: seq<bool>, pos: nat): (r: Parse<seq<bool>>)
    ensures !r.Overrun?
    ensures r.Got? ==> |r.value| == 256
  {
    if pos + 16 > |bits| then Starved else ParseRows(bits, pos + 16, bits[pos..pos + 16], 16)
  }

  lemma NoTrue(row: seq<bool>)
    requires |row| == 16 && true !in row
    ensures row == Zeros(16)
  {
    forall o | 0 <= o < 16 ensures row[o] == false { assert row[o] in row; }
  }

  lemma {:induction false} RowsRoundTrip(bits: seq<bool>, pos: nat, inUse: seq<bool>, k: nat)
    requires |inUse| == 256 && k <= 16 && Stands(bits, pos, RowBits(inUse, k))
    ensures ParseRows(bits, pos, Flags(inUse), k) == Got(inUse[..16 * k], pos + |RowBits(inUse, k)|)
  {
    if k > 0 {
      hide *;
      var u, row := RowBits(inUse, k - 1), if true in Row(inUse, k - 1) then Row(inUse, k - 1) else [];
      RowBitsMore(inUse, k);
      StandsSplit(bits, pos, u, row);
      RowsRoundTrip(bits, pos, inUse, k - 1);
      RowBack(bits, pos, inUse, k, pos + |u|);
    }
  }

  lemma RowBitsMore(inUse: seq<bool>, k: nat)
    requires |inUse| == 256 && 0 < k <= 16
    ensures RowBits(inUse, k) == RowBits(inUse, k - 1) + if true in Row(inUse, k - 1) then Row(inUse, k - 1) else []
  {
    hide Row;
  }

  lemma RowBack(bits: seq<bool>, pos: nat, inUse: seq<bool>, k: nat, p: nat)
    requires |inUse| == 256 && 0 < k <= 16 && ParseRows(bits, pos, Flags(inUse), k - 1) == Got(inUse[..16 * (k - 1)], p)
    requires Stands(bits, p, if true in Row(inUse, k - 1) then Row(inUse, k - 1) else [])
    ensures ParseRows(bits, pos, Flags(inUse), k) == Got(inUse[..16 * k], p + if true in Row(inUse, k - 1) then 16 else 0)
  {
    assert inUse[..16 * k] == inUse[..16 * (k - 1)] + Row(inUse, k - 1);
    if true !in Row(inUse, k - 1) { NoTrue(Row(inUse, k - 1)); }
  }

  lemma MapRoundTrip(bits: seq<bool>, pos: nat, inUse: seq<bool>)
    requires |inUse| == 256 && Stands(bits, pos, MapBits(inUse))
    ensures ParseMap(bits, pos) == Got(inUse, pos + |MapBits(inUse)|)
  {
    StandsSplit(bits, pos, Flags(inUse), RowBits(inUse, 16));
    RowsRoundTrip(bits, pos + 16, inUse, 16);
    assert inUse[..256] == inUse;
  }

  // ---------- selectors: move-to-front positions in unary ----------

  ghost function Ones(n: nat): (r: seq<bool>)
    ensures |r| == n
  {
    if n == 0 then [] else Ones(n - 1) + [true]
  }

  ghost function UnaryBits(n: nat): seq<bool> { Ones(n) + [false] }

  ghost function SelBits(mtf: seq<nat>): seq<bool> {
    if mtf == [] then [] else SelBits(mtf[..|mtf| - 1]) + UnaryBits(mtf[|mtf| - 1])
  }

  /** Counting ones from j on, with fewer than n allowed. */
  ghost function ParseUnary(bits: seq<bool>, pos: nat, j: nat, n: nat): (r: Parse<nat>)
    ensures !r.Overrun?
    decreases |bits| - pos
  {
    if pos >= |bits| then Starved
    else if !bits[pos] then Got(j, pos + 1)
    else if j + 1 >= n then Bad
    else ParseUnary(bits, pos + 1, j + 1, n)
  }

  ghost function ParseSels(bits: seq<bool>, pos: nat, n: nat, k: nat): (r: Parse<seq<nat>>)
    ensures !r.Overrun?
    ensures r.Got? ==> |r.value| == k
  {
    if k == 0 then Got([], pos)
    else
      match ParseSels(bits, pos, n, k - 1)
      case Starved => Starved
      case Bad => Bad
      case Got(u, p) =>
        match ParseUnary(bits, p, 0, n)
        case Starved => Starved
        case Bad => Bad
        case Got(j, q) => Got(u + [j], q)
  }

  lemma {:induction false} UnaryFrom(bits: seq<bool>, pos: nat, j: nat, m: nat, n: nat)
    requires j <= m < n && Stands(bits, pos, UnaryBits(m - j))
    ensures ParseUnary(bits, pos, j, n) == Got(m, pos + m - j + 1)
    decreases m - j
  {
    var w := UnaryBits(m - j);
    assert bits[pos] == bits[pos..pos + |w|][0] == w[0];
    if j < m {
      OnesFront(m - j);
      assert w == [true] + UnaryBits(m - j - 1);
      StandsSplit(bits, pos, [true], UnaryBits(m - j - 1));
      UnaryFrom(bits, pos + 1, j + 1, m, n);
    }
  }

  lemma {:induction false} OnesFront(n: nat)
    requires n > 0
    ensures Ones(n) == [true] + Ones(n - 1)
  {
    if n > 1 { OnesFront(n - 1); }
  }

  lemma {:induction false} SelsRoundTrip(bits: seq<bool>, pos: nat, mtf: seq<nat>, n: nat)
    requires Stands(bits, pos, SelBits(mtf)) && forall i :: 0 <= i < |mtf| ==> mtf[i] < n
    ensures ParseSels(bits, pos, n, |mtf|) == Got(mtf, pos + |SelBits(mtf)|)
  {
    if mtf != [] {
      var u, m := mtf[..|mtf| - 1], mtf[|mtf| - 1];
      StandsSplit(bits, pos, SelBits(u), UnaryBits(m));
      SelsRoundTrip(bits, pos, u, n);
      UnaryFrom(bits, pos + |SelBits(u)|, 0, m, n);
      assert u + [m] == mtf;
    }
  }

  /** The list after the selectors and the positions at which they were found. */
  ghost function MtfOf(list: seq<int>, sels: seq<int>): (r: (seq<int>, seq<nat>))
    requires forall i :: 0 <= i < |sels| ==> sels[i] in list
    ensures |r.0| == |list| && |r.1| == |sels| && (forall v :: v in r.0 <==> v in list)
    ensures forall i :: 0 <= i < |sels| ==> r.1[i] < |list|
  {
    if sels == [] then (list, [])
    else
      var u := MtfOf(list, sels[..|sels| - 1]);
      var k := IndexOf(u.0, sels[|sels| - 1]);
      (forall v ensures v in Front(u.0, k) <==> v in u.0 { FrontSame(u.0, k, v); }
       (Front(u.0, k), u.1 + [k]))
  }

  /** The list after the positions and the selectors found at them. */
  ghost function SelsOf(list: seq<int>, mtf: seq<nat>): (r: (seq<int>, seq<int>))
    requires forall i :: 0 <= i < |mtf| ==> mtf[i] < |list|
    ensures |r.0| == |list| && |r.1| == |mtf|
  {
    if mtf == [] then (list, [])
    else
      var u := SelsOf(list, mtf[..|mtf| - 1]);
      (Front(u.0, mtf[|mtf| - 1]), u.1 + [u.0[mtf[|mtf| - 1]]])
  }

  lemma {:induction false} SelectorsBack(list: seq<int>, sels: seq<int>)
    requires forall i :: 0 <= i < |sels| ==> sels[i] in list
    ensures SelsOf(list, MtfOf(list, sels).1) == (MtfOf(list, sels).0, sels)
  {
    if sels != [] {
      SelectorsBack(list, sels[..|sels| - 1]);
      LastBack(list, sels);
    }
  }

  lemma LastBack(list: seq<int>, sels: seq<int>)
    requires sels != [] && (forall i :: 0 <= i < |sels| ==> sels[i] in list)
    requires SelsOf(list, MtfOf(list, sels[..|sels| - 1]).1) == (MtfOf(list, sels[..|sels| - 1]).0, sels[..|sels| - 1])
    ensures SelsOf(list, MtfOf(list, sels).1) == (MtfOf(list, sels).0, sels)
  {
    hide *;
    var p, v := sels[..|sels| - 1], sels[|sels| - 1];
    var u := MtfOf(list, p);
    var k := MtfLast(list, sels, p, v);
    SelsLast(list, u.1, k);
    assert p + [v] == sels;
  }

  lemma MtfLast(list: seq<int>, sels: seq<int>, p: seq<int>, v: int) returns (k: nat)
    requires sels != [] && p == sels[..|sels| - 1] && v == sels[|sels| - 1] && forall i :: 0 <= i < |sels| ==> sels[i] in list
    ensures k < |MtfOf(list, p).0| && MtfOf(list, p).0[k] == v
    ensures MtfOf(list, sels) == (Front(MtfOf(list, p).0, k), MtfOf(list, p).1 + [k])
  {
    hide Front, IndexOf;
    k := IndexOf(MtfOf(list, p).0, v);
  }

  lemma SelsLast(list: seq<int>, w: seq<nat>, k: nat)
    requires k < |list| && forall i :: 0 <= i < |w| ==> w[i] < |list|
    ensures SelsOf(list, w + [k]) == (Front(SelsOf(list, w).0, k), SelsOf(list, w).1 + [SelsOf(list, w).0[k]])
  {
    hide Front;
    assert (w + [k])[..|w|] == w;
  }

  // ---------- code lengths: differences from one symbol to the next ----------

  ghost function DeltaBits(curr: int, target: int): seq<bool>
    decreases if curr < target then target - curr else curr - target
  {
    if curr < target then BitsOf(2, 2) + DeltaBits(curr + 1, target)
    else if curr > target then BitsOf(3, 2) + DeltaBits(curr - 1, target)
    else [false]
  }

  /** The length before entry k: the five-bit start for entry 0. */
  ghost function Before(len: seq<int>, k: nat): int
    requires k < |len|
  {
    if k == 0 then len[0] else len[k - 1]
  }

  ghost function LenBits(len: seq<int>, k: nat): seq<bool>
    requires k <= |len| && |len| > 0 && len[0] >= 0
  {
    if k == 0 then BitsOf(len[0], 5) else LenBits(len, k - 1) + DeltaBits(Before(len, k - 1), len[k - 1])
  }

  ghost predicate Codable(len: seq<int>, alphaSize: nat) {
    |len| == alphaSize && Lengths(len) && Kraft(len)
  }

  ghost predicate AllCodable(lens: seq<seq<int>>, alphaSize: nat) {
    forall t :: 0 <= t < |lens| ==> Codable(lens[t], alphaSize)
  }

  ghost function TableBits(lens: seq<seq<int>>, alphaSize: nat): seq<bool>
    requires AllCodable(lens, alphaSize)
  {
    if lens == [] then []
    else
      var len := lens[|lens| - 1];
      assert Codable(len, alphaSize);
      TableBits(lens[..|lens| - 1], alphaSize) + LenBits(len, |len|)
  }

  ghost function ParseDelta(bits: seq<bool>, pos: nat, curr: int): (r: Parse<int>)
    ensures !r.Overrun?
    ensures r.Got? ==> 1 <= r.value <= LONGEST
    decreases |bits| - pos
  {
    if curr < 1 || curr > LONGEST then Bad
    else if pos >= |bits| then Starved
    else if !bits[pos] then Got(curr, pos + 1)
    else if pos + 1 >= |bits| then Starved
    else ParseDelta(bits, pos + 2, if bits[pos + 1] then curr - 1 else curr + 1)
  }

  /** The first k lengths, curr being the five-bit start. */
  ghost function ParseLens(bits: seq<bool>, pos: nat, curr: int, k: nat): (r: Parse<seq<int>>)
    ensures !r.Overrun?
    ensures r.Got? ==> |r.value| == k && forall i :: 0 <= i < k ==> 1 <= r.value[i] <= LONGEST
  {
    if k == 0 then Got([], pos)
    else
      match ParseLens(bits, pos, curr, k - 1)
      case Starved => Starved
      case Bad => Bad
      case Got(u, p) =>
        match ParseDelta(bits, p, if u == [] then curr else u[|u| - 1])
        case Starved => Starved
        case Bad => Bad
        case Got(l, q) => Got(u + [l], q)
  }

  ghost function ParseTable(bits: seq<bool>, pos: nat, alphaSize: nat): (r: Parse<seq<int>>)
    ensures !r.Overrun?
    ensures r.Got? ==> |r.value| == alphaSize && forall i :: 0 <= i < alphaSize ==> 1 <= r.value[i] <= LONGEST
  {
    if pos + 5 > |bits| then Starved else ParseLens(bits, pos + 5, ToNat(bits[pos..pos + 5]), alphaSize)
  }

  /** The first n tables. */
  ghost function ParseTables(bits: seq<bool>, pos: nat, alphaSize: nat, n: nat): (r: Parse<seq<seq<int>>>)
    ensures !r.Overrun?
    ensures r.Got? ==> |r.value| == n && forall t :: 0 <= t < n ==> |r.value[t]| == alphaSize && forall i :: 0 <= i < alphaSize ==> 1 <= r.value[t][i] <= LONGEST
  {
    if n == 0 then Got([], pos)
    else
      match ParseTables(bits, pos, alphaSize, n - 1)
      case Starved => Starved
      case Bad => Bad
      case Got(u, p) =>
        match ParseTable(bits, p, alphaSize)
        case Starved => Starved
        case Bad => Bad
        case Got(len, q) => Got(u + [len], q)
  }

  lemma DeltaCodes()
    ensures BitsOf(2, 2) == [true, false] && BitsOf(3, 2) == [true, true]
  {
    assert BitsOf(1, 1) == [true];
  }

  lemma {:induction false} DeltaRoundTrip(bits: seq<bool>, pos: nat, curr: int, target: int)
    requires 1 <= curr <= LONGEST && 1 <= target <= LONGEST && Stands(bits, pos, DeltaBits(curr, target))
    ensures ParseDelta(bits, pos, curr) == Got(target, pos + |DeltaBits(curr, target)|)
    decreases if curr < target then target - curr else curr - target
  {
    DeltaCodes();
    if curr == target {
      assert bits[pos] == bits[pos..pos + 1][0];
    } else {
      var c := if curr < target then curr + 1 else curr - 1;
      var w := if curr < target then [true, false] else [true, true];
      StandsSplit(bits, pos, w, DeltaBits(c, target));
      assert bits[pos..pos + 2] == w;
      assert bits[pos] == bits[pos..pos + 2][0] && bits[pos + 1] == bits[pos..pos + 2][1];
      DeltaRoundTrip(bits, pos + 2, c, target);
    }
  }

  lemma {:induction false} LensRoundTrip(bits: seq<bool>, pos: nat, len: seq<int>, k: nat)
    requires Lengths(len) && k <= |len| && Stands(bits, pos, LenBits(len, k))
    ensures pos + 5 <= |bits| && ToNat(bits[pos..pos + 5]) == len[0]
    ensures ParseLens(bits, pos + 5, len[0], k) == Got(len[..k], pos + |LenBits(len, k)|)
  {
    hide ToNat, BitsOf, DeltaBits, ParseDelta, Stands, Kraft;
    if k == 0 {
      FiveBits(bits, pos, len[0]);
    } else {
      var w := DeltaBits(Before(len, k - 1), len[k - 1]);
      StandsSplit(bits, pos, LenBits(len, k - 1), w);
      LensRoundTrip(bits, pos, len, k - 1);
      DeltaRoundTrip(bits, pos + |LenBits(len, k - 1)|, Before(len, k - 1), len[k - 1]);
      assert len[..k] == len[..k - 1] + [len[k - 1]];
    }
  }

  lemma FiveBits(bits: seq<bool>, pos: nat, l: int)
    requires 0 <= l < 32 && Stands(bits, pos, BitsOf(l, 5))
    ensures pos + 5 <= |bits| && ToNat(bits[pos..pos + 5]) == l
  {
    assert Pow2(5) == 32;
    ToNatOf(l, 5);
  }

  lemma {:induction false} TablesRoundTrip(bits: seq<bool>, pos: nat, lens: seq<seq<int>>, alphaSize: nat)
    requires AllCodable(lens, alphaSize) && Stands(bits, pos, TableBits(lens, alphaSize))
    ensures ParseTables(bits, pos, alphaSize, |lens|) == Got(lens, pos + |TableBits(lens, alphaSize)|)
  {
    hide ToNat, LenBits, ParseLens, Stands, Kraft;
    if lens != [] {
      var u, len := lens[..|lens| - 1], lens[|lens| - 1];
      assert Codable(len, alphaSize);
      StandsSplit(bits, pos, TableBits(u, alphaSize), LenBits(len, |len|));
      TablesRoundTrip(bits, pos, u, alphaSize);
      LensRoundTrip(bits, pos + |TableBits(u, alphaSize)|, len, |len|);
      assert len[..|len|] == len;
      assert u + [len] == lens;
    }
  }

  // ---------- code words: fifty symbols to a selector ----------

  /** The selectors and lengths fit the number of symbols. */
  ghost predicate Grouped(lens: seq<seq<int>>, sels: seq<int>, alphaSize: nat, n: nat) {
    && AllCodable(lens, alphaSize)
    && (forall i :: 0 <= i < |sels| ==> 0 <= sels[i] < |lens|)
    && n <= GROUP_SIZE * |sels|
  }

  /** Every symbol is in the alphabet and falls in some group. */
  ghost predicate Sendable(lens: seq<seq<int>>, sels: seq<int>, alphaSize: nat, syms: seq<int>) {
    Grouped(lens, sels, alphaSize, |syms|) && forall i :: 0 <= i < |syms| ==> 0 <= syms[i] < alphaSize
  }

  ghost function CodeBits(len: seq<int>, s: nat): seq<bool>
    requires s < |len| && len[s] >= 0
  {
    BitsOf(Code(len, s), len[s])
  }

  /** The lengths in force for symbol j. */
  ghost function LenFor(lens: seq<seq<int>>, sels: seq<int>, j: nat): seq<int>
    requires j / GROUP_SIZE < |sels| && forall i :: 0 <= i < |sels| ==> 0 <= sels[i] < |lens|
  {
    lens[sels[j / GROUP_SIZE]]
  }

  lemma LenForFits(lens: seq<seq<int>>, sels: seq<int>, alphaSize: nat, syms: seq<int>, j: nat)
    requires Sendable(lens, sels, alphaSize, syms) && j < |syms|
    ensures j / GROUP_SIZE < |sels| && Codable(LenFor(lens, sels, j), alphaSize) && 0 <= syms[j] < alphaSize
    ensures LenFor(lens, sels, j)[syms[j]] >= 0
  {
  }

  lemma SendablePrefix(lens: seq<seq<int>>, sels: seq<int>, alphaSize: nat, syms: seq<int>, k: nat)
    requires Sendable(lens, sels, alphaSize, syms) && k <= |syms|
    ensures Sendable(lens, sels, alphaSize, syms[..k])
  {
  }

  ghost function DataBits(lens: seq<seq<int>>, sels: seq<int>, alphaSize: nat, syms: seq<int>): seq<bool>
    requires Sendable(lens, sels, alphaSize, syms)
  {
    if syms == [] then []
    else
      var k := |syms| - 1;
      LenForFits(lens, sels, alphaSize, syms, k);
      SendablePrefix(lens, sels, alphaSize, syms, k);
      DataBits(lens, sels, alphaSize, syms[..k]) + CodeBits(LenFor(lens, sels, k), syms[k])
  }

  lemma DataBitsMore(lens: seq<seq<int>>, sels: seq<int>, alphaSize: nat, syms: seq<int>, k: nat)
    requires Sendable(lens, sels, alphaSize, syms) && k < |syms|
    ensures Sendable(lens, sels, alphaSize, syms[..k]) && Sendable(lens, sels, alphaSize, syms[..k + 1])
    ensures k / GROUP_SIZE < |sels| && Codable(LenFor(lens, sels, k), alphaSize) && 0 <= syms[k] < alphaSize
    ensures |LenFor(lens, sels, k)| == alphaSize && LenFor(lens, sels, k)[syms[k]] >= 0
    ensures DataBits(lens, sels, alphaSize, syms[..k + 1]) == DataBits(lens, sels, alphaSize, syms[..k]) + CodeBits(LenFor(lens, sels, k), syms[k])
  {
    LenForFits(lens, sels, alphaSize, syms, k);
    SendablePrefix(lens, sels, alphaSize, syms, k);
    SendablePrefix(lens, sels, alphaSize, syms, k + 1);
    assert syms[..k + 1][..k] == syms[..k];
    hide Sendable, Codable;
  }

  /** The symbol after j others: an error when the selectors have run out. */
  ghost function NextSym(bits: seq<bool>, pos: nat, lens: seq<seq<int>>, sels: seq<int>, j: nat): (r: Parse<nat>)
    requires forall i :: 0 <= i < |sels| ==> 0 <= sels[i] < |lens|
    ensures !r.Overrun?
  {
    if j / GROUP_SIZE >= |sels| then Bad else ReadSym(LenFor(lens, sels, j), bits, pos, 0)
  }

  /** Symbols read up to and including the end marker, or up to where reading stops. */
  datatype Scan = Scan(syms: seq<int>, end: Parse<()>)

  ghost function ScanFrom(bits: seq<bool>, pos: nat, lens: seq<seq<int>>, sels: seq<int>, eob: int, j: nat): (r: Scan)
    requires forall i :: 0 <= i < |sels| ==> 0 <= sels[i] < |lens|
    ensures !r.end.Overrun?
    decreases GROUP_SIZE * |sels| - j
  {
    if j >= GROUP_SIZE * |sels| then Scan([], Bad)
    else
      match NextSym(bits, pos, lens, sels, j)
      case Starved => Scan([], Starved)
      case Bad => Scan([], Bad)
      case Got(s, p) =>
        if s == eob then Scan([s], Got((), p))
        else
          var rest := ScanFrom(bits, p, lens, sels, eob, j + 1);
          Scan([s] + rest.syms, rest.end)
  }

  /** Written data, read from symbol j on. */
  lemma {:induction false} DataFrom(bits: seq<bool>, pos: nat, lens: seq<seq<int>>, sels: seq<int>, alphaSize: nat, syms: seq<int>, j: nat)
    requires Sendable(lens, sels, alphaSize, syms) && j < |syms| && Sendable(lens, sels, alphaSize, syms[..j])
    requires Stands(bits, pos, DataBits(lens, sels, alphaSize, syms))
    requires syms[|syms| - 1] == alphaSize - 1 && forall i :: 0 <= i < |syms| - 1 ==> syms[i] != alphaSize - 1
    ensures ScanFrom(bits, pos + |DataBits(lens, sels, alphaSize, syms[..j])|, lens, sels, alphaSize - 1, j)
            == Scan(syms[j..], Got((), pos + |DataBits(lens, sels, alphaSize, syms)|))
    decreases |syms| - j
  {
    hide *;
    SelsIn(lens, sels, alphaSize, syms);
    DataStep(bits, pos, lens, sels, alphaSize, syms, j);
    ScanStep(bits, pos + |DataBits(lens, sels, alphaSize, syms[..j])|, lens, sels, alphaSize - 1, j);
    FromHead(syms, j);
    if j < |syms| - 1 { DataFrom(bits, pos, lens, sels, alphaSize, syms, j + 1); }
  }

  lemma DataStep(bits: seq<bool>, pos: nat, lens: seq<seq<int>>, sels: seq<int>, alphaSize: nat, syms: seq<int>, j: nat)
    requires Sendable(lens, sels, alphaSize, syms) && j < |syms| && Sendable(lens, sels, alphaSize, syms[..j])
    requires Stands(bits, pos, DataBits(lens, sels, alphaSize, syms)) && forall i :: 0 <= i < |sels| ==> 0 <= sels[i] < |lens|
    ensures syms[j] >= 0 && Sendable(lens, sels, alphaSize, syms[..j + 1])
    ensures NextSym(bits, pos + |DataBits(lens, sels, alphaSize, syms[..j])|, lens, sels, j)
            == Got(syms[j], pos + |DataBits(lens, sels, alphaSize, syms[..j + 1])|)
  {
    hide *;
    DataBitsMore(lens, sels, alphaSize, syms, j);
    DataPrefix(bits, pos, lens, sels, alphaSize, syms, j + 1);
    var u, len := DataBits(lens, sels, alphaSize, syms[..j]), LenFor(lens, sels, j);
    StandsSplit(bits, pos, u, CodeBits(len, syms[j]));
    SymRead(bits, pos + |u|, lens, sels, alphaSize, j, syms[j]);
  }

  lemma SelsIn(lens: seq<seq<int>>, sels: seq<int>, alphaSize: nat, syms: seq<int>)
    requires Sendable(lens, sels, alphaSize, syms)
    ensures forall i :: 0 <= i < |sels| ==> 0 <= sels[i] < |lens|
  {
  }

  lemma ScanStep(bits: seq<bool>, p: nat, lens: seq<seq<int>>, sels: seq<int>, eob: int, j: nat)
    requires (forall i :: 0 <= i < |sels| ==> 0 <= sels[i] < |lens|)
    ensures var n, scan := NextSym(bits, p, lens, sels, j), ScanFrom(bits, p, lens, sels, eob, j);
      match n
      case Starved => scan == Scan([], Starved)
      case Bad => scan == Scan([], Bad)
      case Got(s, q) =>
        if s == eob then scan == Scan([s], Got((), q))
        else var rest := ScanFrom(bits, q, lens, sels, eob, j + 1); scan == Scan([s] + rest.syms, rest.end)
  {
    hide LenFor, ReadSym;
  }

  lemma FromHead(syms: seq<int>, j: nat)
    requires j < |syms|
    ensures syms[j..] == [syms[j]] + syms[j + 1..]
    ensures j == |syms| - 1 ==> syms[..j + 1] == syms && syms[j..] == [syms[j]]
  {
  }

  lemma SymRead(bits: seq<bool>, p: nat, lens: seq<seq<int>>, sels: seq<int>, alphaSize: nat, j: nat, s: nat)
    requires j / GROUP_SIZE < |sels| && (forall i :: 0 <= i < |sels| ==> 0 <= sels[i] < |lens|)
    requires Codable(LenFor(lens, sels, j), alphaSize) && s < alphaSize && LenFor(lens, sels, j)[s] >= 0
    requires Stands(bits, p, CodeBits(LenFor(lens, sels, j), s))
    ensures NextSym(bits, p, lens, sels, j) == Got(s, p + |CodeBits(LenFor(lens, sels, j), s)|)
    ensures j < GROUP_SIZE * |sels|
  {
    CodeRoundTrip(LenFor(lens, sels, j), bits, p, s);
  }

  lemma {:induction false} DataPrefix(bits: seq<bool>, pos: nat, lens: seq<seq<int>>, sels: seq<int>, alphaSize: nat, syms: seq<int>, k: nat)
    requires Sendable(lens, sels, alphaSize, syms) && k <= |syms| && Sendable(lens, sels, alphaSize, syms[..k])
    requires Stands(bits, pos, DataBits(lens, sels, alphaSize, syms))
    ensures Stands(bits, pos, DataBits(lens, sels, alphaSize, syms[..k]))
    decreases |syms|
  {
    hide *;
    SelsIn(lens, sels, alphaSize, syms);
    assert k == |syms| ==> syms[..k] == syms;
    if k < |syms| {
      var n := |syms| - 1;
      DataBitsMore(lens, sels, alphaSize, syms, n);
      assert syms[..n + 1] == syms;
      StandsSplit(bits, pos, DataBits(lens, sels, alphaSize, syms[..n]), CodeBits(LenFor(lens, sels, n), syms[n]));
      assert syms[..n][..k] == syms[..k];
      DataPrefix(bits, pos, lens, sels, alphaSize, syms[..n], k);
    }
  }

  lemma DataRoundTrip(bits: seq<bool>, pos: nat, lens: seq<seq<int>>, sels: seq<int>, alphaSize: nat, syms: seq<int>)
    requires Sendable(lens, sels, alphaSize, syms) && |syms| > 0
    requires Stands(bits, pos, DataBits(lens, sels, alphaSize, syms))
    requires syms[|syms| - 1] == alphaSize - 1 && forall i :: 0 <= i < |syms| - 1 ==> syms[i] != alphaSize - 1
    ensures ScanFrom(bits, pos, lens, sels, alphaSize - 1, 0) == Scan(syms, Got((), pos + |DataBits(lens, sels, alphaSize, syms)|))
  {
    SendablePrefix(lens, sels, alphaSize, syms, 0);
    assert DataBits(lens, sels, alphaSize, syms[..0]) == [];
    DataFrom(bits, pos, lens, sels, alphaSize, syms, 0);
    assert syms[0..] == syms;
  }
}

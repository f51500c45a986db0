/** Canonical prefix codes: numbering symbols by length and then by index, and reading them back
    with the limit, base and perm tables. */
module CanonicalCodes {
  import opened Powers
  import opened Counting
  import opened Bits
  import opened Parsing

  const MAX_CODE_LEN: nat := 23
  const LONGEST: nat := 20
  const MAX_ALPHA_SIZE: int := 258

  ghost predicate Lengths(len: seq<int>) {
    0 < |len| <= MAX_ALPHA_SIZE && forall i :: 0 <= i < |len| ==> 1 <= len[i] <= LONGEST
  }

  /** minLen and maxLen are the extremes of the lengths. */
  ghost predicate Extremes(len: seq<int>, minLen: int, maxLen: int) {
    && Lengths(len) && minLen in len && maxLen in len
    && forall i :: 0 <= i < |len| ==> minLen <= len[i] <= maxLen
  }

  /** The first code of n bits. */
  ghost function First(len: seq<int>, n: nat): nat
    decreases n, 0
  {
    if n == 0 then 0 else 2 * Past(len, n - 1)
  }

  /** One past the last code of n bits; also the Kraft sum of lengths up to n, scaled by 2^n. */
  ghost function Past(len: seq<int>, n: nat): nat
    decreases n, 1
  {
    First(len, n) + Occ(len, n, |len|)
  }

  ghost function Code(len: seq<int>, i: nat): nat
    requires i < |len| && len[i] >= 0
  {
    First(len, len[i]) + Occ(len, len[i], i)
  }

  /** Kraft's inequality. */
  ghost predicate Kraft(len: seq<int>) {
    Past(len, LONGEST) <= Pow2(LONGEST)
  }

  lemma {:induction false} KraftAt(len: seq<int>, n: nat, m: nat)
    requires n <= m && Past(len, m) <= Pow2(m)
    ensures Past(len, n) <= Pow2(n)
    decreases m - n
  {
    if n < m { KraftAt(len, n + 1, m); }
  }

  /** Codes fit their lengths. */
  lemma CodeFits(len: seq<int>, i: nat)
    requires Lengths(len) && Kraft(len) && i < |len|
    ensures Code(len, i) < Past(len, len[i]) <= Pow2(len[i])
  {
    KraftAt(len, len[i], LONGEST);
    OccMono(len, len[i], i, |len|);
  }

  /** The top n bits of a longer code lie past every code of n bits. */
  lemma {:induction false} TopPast(len: seq<int>, v: nat, n: nat, l: nat)
    requires n < l && First(len, l) <= v
    ensures Past(len, n) <= Top(v, l, n)
    decreases l - n
  {
    if n + 1 < l {
      TopPast(len, v, n + 1, l);
    }
  }

  // ---------- the tables ----------

  ghost function Limit(len: seq<int>, maxLen: int, n: nat): int {
    if n <= maxLen then Past(len, n) - 1 else 0
  }

  ghost function Base(len: seq<int>, n: nat): int {
    First(len, n) - Start(len, n)
  }

  /** s is the symbol whose code word is w. */
  ghost predicate IsCode(len: seq<int>, w: seq<bool>, s: nat) {
    s < |len| && len[s] == |w| && Code(len, s) == ToNat(w)
  }

  /** Reading a symbol: the shortest prefix of n or more bits that is a code word. */
  ghost function ReadSym(len: seq<int>, bits: seq<bool>, pos: nat, n: nat): (r: Parse<nat>)
    ensures !r.Overrun?
    decreases LONGEST + 1 - n
  {
    if pos + n > |bits| then Starved
    else if n > LONGEST then Bad
    else
      var w := bits[pos..pos + n];
      if s: nat :| IsCode(len, w, s) then Got(s, pos + n) else ReadSym(len, bits, pos, n + 1)
  }

  /** perm lists the symbols by length, then by index. */
  ghost predicate IsOrder(len: seq<int>, perm: seq<int>) {
    |perm| == |len| && forall i :: 0 <= i < |len| && len[i] >= 0 ==> Slot(len, i) < |perm| && perm[Slot(len, i)] == i
  }

  lemma CodesDiffer(len: seq<int>, i: nat, j: nat)
    requires i < |len| && j < |len| && len[i] == len[j] >= 0 && i != j
    ensures Code(len, i) != Code(len, j)
  {
    if i < j { OccMono(len, len[i], i, j); } else { OccMono(len, len[i], j, i); }
  }

  /** No prefix of a code word is a code word. */
  lemma PrefixFree(len: seq<int>, w: seq<bool>, s: nat, n: nat, u: nat)
    requires Lengths(len) && Kraft(len) && IsCode(len, w, s) && n < |w|
    ensures !IsCode(len, w[..n], u)
  {
    if IsCode(len, w[..n], u) {
      var v := Code(len, s);
      CodeFits(len, s);
      CodeFits(len, u);
      OfToNat(w);
      ToNatTop(v, |w|, n);
      CodeIn(len, s);
      TopPast(len, v, n, |w|);
      assert false;
    }
  }

  lemma CodeIn(len: seq<int>, s: nat)
    requires s < |len| && len[s] >= 0
    ensures First(len, len[s]) <= Code(len, s)
  {
  }

  lemma ReadHere(len: seq<int>, bits: seq<bool>, pos: nat, n: nat, w: seq<bool>, s: nat)
    requires pos + n <= |bits| && n <= LONGEST && w == bits[pos..pos + n] && IsCode(len, w, s)
    requires forall u: nat | IsCode(len, w, u) :: u == s
    ensures ReadSym(len, bits, pos, n) == Got(s, pos + n)
  {
    hide IsCode;
  }

  lemma ReadOn(len: seq<int>, bits: seq<bool>, pos: nat, n: nat, w: seq<bool>)
    requires pos + n <= |bits| && n <= LONGEST && w == bits[pos..pos + n] && forall u: nat :: !IsCode(len, w, u)
    ensures ReadSym(len, bits, pos, n) == ReadSym(len, bits, pos, n + 1)
  {
    hide IsCode;
  }

  /** Every code word is read back as its symbol. */
  lemma {:induction false} ReadFrom(len: seq<int>, bits: seq<bool>, pos: nat, s: nat, n: nat)
    requires Lengths(len) && Kraft(len) && s < |len| && n <= len[s]
    requires Stands(bits, pos, BitsOf(Code(len, s), len[s]))
    ensures ReadSym(len, bits, pos, n) == Got(s, pos + len[s])
    decreases len[s] - n
  {
    hide Code, BitsOf, Kraft, First, ToNat, Pow2;
    var l := len[s];
    var w := bits[pos..pos + l];
    CodeFits(len, s);
    ToNatOf(Code(len, s), l);
    assert IsCode(len, w, s);
    if n < l {
      var v := w[..n];
      assert v == bits[pos..pos + n];
      forall u: nat ensures !IsCode(len, v, u) { PrefixFree(len, w, s, n, u); }
      ReadOn(len, bits, pos, n, v);
      ReadFrom(len, bits, pos, s, n + 1);
    } else {
      forall u: nat | IsCode(len, w, u) ensures u == s { if u != s { CodesDiffer(len, s, u); } }
      ReadHere(len, bits, pos, n, w, s);
    }
  }

  /** What AssignCodes writes is what reading finds, whatever follows it. */
  lemma CodeRoundTrip(len: seq<int>, bits: seq<bool>, pos: nat, s: nat)
    requires Lengths(len) && Kraft(len) && s < |len|
    requires Stands(bits, pos, BitsOf(Code(len, s), len[s]))
    ensures ReadSym(len, bits, pos, 0) == Got(s, pos + len[s])
  {
    ReadFrom(len, bits, pos, s, 0);
  }

  // ---------- reading with limit, base and perm ----------

  /** Every number from the first code of a length to the last is the code of a symbol. */
  lemma {:induction false} CodeAt(len: seq<int>, n: nat, r: nat, k: nat) returns (s: nat)
    requires k <= |len| && r < Occ(len, n, k)
    ensures s < k && len[s] == n && Occ(len, n, s) == r
  {
    if Occ(len, n, k - 1) == r {
      s := k - 1;
    } else {
      s := CodeAt(len, n, r, k - 1);
    }
  }

  /** No code word of fewer than n bits begins the bits at pos. */
  ghost predicate NoneYet(len: seq<int>, bits: seq<bool>, pos: nat, n: nat) {
    n <= LONGEST + 1 && ReadSym(len, bits, pos, 0) == ReadSym(len, bits, pos, n)
    && (pos + n <= |bits| ==> First(len, n) <= ToNat(bits[pos..pos + n]))
  }

  /** Too short for every code. */
  lemma {:induction false} NoneShort(len: seq<int>, bits: seq<bool>, pos: nat, n: nat)
    requires n <= LONGEST && forall i :: 0 <= i < |len| ==> n <= len[i]
    ensures NoneYet(len, bits, pos, n)
  {
    NoShorter(len, n);
    if n > 0 { NoneShort(len, bits, pos, n - 1); }
  }

  lemma NoneStarved(len: seq<int>, bits: seq<bool>, pos: nat, n: nat)
    requires NoneYet(len, bits, pos, n) && (pos + n > |bits| || n > LONGEST)
    ensures ReadSym(len, bits, pos, 0) == if pos + n > |bits| then Starved else Bad
  {
  }

  /** Above the limit: one more bit is needed. */
  lemma NoneNext(len: seq<int>, bits: seq<bool>, pos: nat, n: nat)
    requires NoneYet(len, bits, pos, n) && n <= LONGEST && pos + n <= |bits|
    requires Past(len, n) <= ToNat(bits[pos..pos + n])
    ensures NoneYet(len, bits, pos, n + 1)
    ensures pos + n < |bits| ==> ToNat(bits[pos..pos + n + 1]) == 2 * ToNat(bits[pos..pos + n]) + if bits[pos + n] then 1 else 0
  {
    var w := bits[pos..pos + n];
    forall s: nat ensures !IsCode(len, w, s) {
      if s < |len| && len[s] == n { OccMono(len, n, s, |len|); }
    }
    if pos + n < |bits| {
      assert bits[pos..pos + n + 1][..n] == bits[pos..pos + n];
    }
  }

  /** At or below the limit: base turns the number into a place in perm, and perm holds the symbol. */
  lemma NoneFound(len: seq<int>, bits: seq<bool>, pos: nat, n: nat, perm: seq<int>)
    requires NoneYet(len, bits, pos, n) && n <= LONGEST && pos + n <= |bits|
    requires ToNat(bits[pos..pos + n]) < Past(len, n) && Lengths(len) && IsOrder(len, perm)
    ensures var k := ToNat(bits[pos..pos + n]) - Base(len, n);
            0 <= k < |len| && perm[k] >= 0 && ReadSym(len, bits, pos, 0) == Got(perm[k], pos + n)
  {
    var z := ToNat(bits[pos..pos + n]);
    var s := CodeAt(len, n, z - First(len, n), |len|);
    var w := bits[pos..pos + n];
    assert IsCode(len, w, s);
    forall u: nat | IsCode(len, w, u) ensures u == s { if u != s { CodesDiffer(len, s, u); } }
    assert z - Base(len, n) == Slot(len, s);
  }

  /** Past the longest length the tables hold nothing, and nothing is found there. */
  lemma BeyondMax(len: seq<int>, bits: seq<bool>, pos: nat, maxLen: int, n: nat)
    requires maxLen < n <= LONGEST && pos + n <= |bits| && (exists i :: 0 <= i < |len| && len[i] == maxLen)
    requires First(len, n) <= ToNat(bits[pos..pos + n]) && (forall i :: 0 <= i < |len| ==> 0 <= len[i] <= maxLen)
    ensures Past(len, n) <= ToNat(bits[pos..pos + n]) && 2 <= ToNat(bits[pos..pos + n])
  {
    OccNone(len, n, |len|);
    FirstBeyond(len, maxLen, n);
  }

  lemma {:induction false} FirstBeyond(len: seq<int>, maxLen: int, n: nat)
    requires 0 <= maxLen < n && exists i :: 0 <= i < |len| && len[i] == maxLen
    ensures First(len, n) >= 2
    decreases n
  {
    if n == maxLen + 1 {
      var i :| 0 <= i < |len| && len[i] == maxLen;
      OccMono(len, maxLen, i, |len|);
      OccMono(len, maxLen, 0, i);
    } else {
      FirstBeyond(len, maxLen, n - 1);
    }
  }

  // ---------- the two loops that build them ----------

  lemma {:induction false} NoShorter(len: seq<int>, n: nat)
    requires forall i :: 0 <= i < |len| ==> n <= len[i]
    ensures First(len, n) == 0 && Start(len, n) == 0
  {
    if n > 0 {
      NoShorter(len, n - 1);
      OccNone(len, n - 1, |len|);
    }
  }

  lemma {:induction false} OccNone(l: seq<int>, c: int, k: nat)
    requires k <= |l| && forall i :: 0 <= i < k ==> l[i] != c
    ensures Occ(l, c, k) == 0
  {
    if k > 0 { OccNone(l, c, k - 1); }
  }

  method AssignCodes(code: array<int>, length: array<int>, minLen: int, maxLen: int, alphaSize: nat)
    requires code != length && alphaSize <= length.Length && alphaSize <= code.Length
    requires Extremes(length[..alphaSize], minLen, maxLen)
    modifies code
    ensures forall i :: 0 <= i < alphaSize ==> code[i] == Code(length[..alphaSize], i)
  {
    ghost var len := length[..alphaSize];
    NoShorter(len, minLen);
    hide First, Past, Occ, Lengths;
    var vec := 0;
    for n := minLen to maxLen + 1
      invariant vec == First(len, n) && length[..alphaSize] == len
      invariant forall i :: 0 <= i < alphaSize && len[i] < n ==> code[i] == Code(len, i)
    {
      FirstNext(len, n);
      for i := 0 to alphaSize
        invariant vec == First(len, n) + Occ(len, n, i) && length[..alphaSize] == len
        invariant forall k :: 0 <= k < alphaSize && (len[k] < n || (len[k] == n && k < i)) ==> code[k] == Code(len, k)
      {
        OccOne(len, n, i);
        assert length[i] == len[i];
        if length[i] == n {
          code[i] := vec;
          vec := vec + 1;
        }
      }
      vec := vec * 2;
    }
  }

  lemma FirstNext(len: seq<int>, n: nat)
    ensures First(len, n + 1) == 2 * (First(len, n) + Occ(len, n, |len|))
    ensures Occ(len, n, 0) == 0
  {
  }

  lemma OccOne(l: seq<int>, c: int, i: nat)
    requires i < |l|
    ensures Occ(l, c, i + 1) == Occ(l, c, i) + if l[i] == c then 1 else 0
  {
  }

  /** The decoding tables of one coding group. */
  ghost predicate Tabled(len: seq<int>, maxLen: int, minLen: int, limit: seq<int>, base: seq<int>, perm: seq<int>) {
    && |limit| == |base| == MAX_ALPHA_SIZE && |perm| == MAX_ALPHA_SIZE && |len| <= MAX_ALPHA_SIZE && 0 <= minLen
    && (forall n: nat :: minLen <= n <= LONGEST ==> limit[n] == Limit(len, maxLen, n))
    && (forall n: nat :: minLen <= n <= maxLen && n <= LONGEST ==> base[n] == Base(len, n))
    && IsOrder(len, perm[..|len|])
  }

  /** Symbols of length below i, and those of length i with index below j, are in place. */
  ghost predicate PermUpTo(len: seq<int>, perm: seq<int>, i: int, j: int) {
    |len| <= |perm| && Keys(len, LONGEST + 1) &&
    forall k :: 0 <= k < |len| && (len[k] < i || (len[k] == i && k < j)) ==> Slot(len, k) < |len| && perm[Slot(len, k)] == k
  }

  lemma PermStep(len: seq<int>, perm: seq<int>, i: int, j: int, pp: int)
    requires PermUpTo(len, perm, i, j) && 0 <= j < |len| && i >= 0
    requires pp == Start(len, i) + Occ(len, i, j)
    ensures len[j] == i ==> pp < |len| && PermUpTo(len, perm[pp := j], i, j + 1)
    ensures len[j] != i ==> PermUpTo(len, perm, i, j + 1)
  {
    if len[j] == i {
      SlotRange(len, LONGEST + 1, j);
      var perm' := perm[pp := j];
      forall k | 0 <= k < |len| && (len[k] < i || (len[k] == i && k < j + 1)) ensures Slot(len, k) < |len| && perm'[Slot(len, k)] == k {
        if k != j { SlotOrder(len, LONGEST + 1, k, j); }
      }
    }
  }

  lemma PermNext(len: seq<int>, perm: seq<int>, i: int)
    requires PermUpTo(len, perm, i, |len|)
    ensures PermUpTo(len, perm, i + 1, 0)
  {
  }

  lemma PermStart(len: seq<int>, perm: seq<int>, minLen: int)
    requires Lengths(len) && |len| <= |perm| && minLen >= 0 && forall i :: 0 <= i < |len| ==> minLen <= len[i]
    ensures PermUpTo(len, perm, minLen, 0)
  {
  }

  lemma PermEnd(len: seq<int>, perm: seq<int>, maxLen: int)
    requires PermUpTo(len, perm, maxLen + 1, 0) && forall i :: 0 <= i < |len| ==> len[i] <= maxLen
    ensures IsOrder(len, perm[..|len|])
  {
  }

  method MakePerm(perm: array<int>, length: array<int>, minLen: int, maxLen: int, alphaSize: nat)
    requires perm != length && alphaSize <= length.Length && perm.Length == MAX_ALPHA_SIZE
    requires Extremes(length[..alphaSize], minLen, maxLen)
    modifies perm
    ensures IsOrder(length[..alphaSize], perm[..alphaSize])
  {
    ghost var len := length[..alphaSize];
    NoShorter(len, minLen);
    PermStart(len, perm[..], minLen);
    hide *;
    var pp := 0;
    for i := minLen to maxLen + 1
      invariant pp == Start(len, i) && length[..alphaSize] == len
      invariant PermUpTo(len, perm[..], i, 0)
    {
      pp := MakePermRow(perm, length, i, alphaSize, pp);
    }
    PermEnd(len, perm[..], maxLen);
    assert perm[..][..alphaSize] == perm[..alphaSize];
  }

  /** The symbols of one length, in order. */
  method MakePermRow(perm: array<int>, length: array<int>, i: nat, alphaSize: nat, pp0: nat) returns (pp: nat)
    requires perm != length && alphaSize <= length.Length && pp0 == Start(length[..alphaSize], i) && PermUpTo(length[..alphaSize], perm[..], i, 0)
    modifies perm
    ensures pp == Start(length[..alphaSize], i + 1) && PermUpTo(length[..alphaSize], perm[..], i + 1, 0)
  {
    hide *;
    ghost var len := length[..alphaSize];
    pp := pp0;
    OccZeroOf(len, i);
    for j := 0 to alphaSize
      invariant pp == Start(len, i) + Occ(len, i, j) && length[..alphaSize] == len
      invariant PermUpTo(len, perm[..], i, j)
    {
      ghost var p := perm[..];
      PermSize(len, p, i, j);
      PermStep(len, p, i, j, pp);
      OccOne(len, i, j);
      assert length[j] == len[j];
      if length[j] == i {
        perm[pp] := j;
        assert perm[..] == p[pp := j];
        pp := pp + 1;
      }
    }
    StartNext(len, i);
    PermNext(len, perm[..], i);
  }

  lemma PermSize(len: seq<int>, perm: seq<int>, i: int, j: int)
    requires PermUpTo(len, perm, i, j)
    ensures |len| <= |perm|
  {
  }

  lemma OccZeroOf(l: seq<int>, c: int)
    ensures Occ(l, c, 0) == 0
  {
  }

  /** base[n] becomes the number of symbols shorter than n. */
  method CountShorter(base: array<int>, length: array<int>, alphaSize: nat)
    requires base != length && alphaSize <= length.Length && base.Length == MAX_ALPHA_SIZE
    requires Lengths(length[..alphaSize])
    modifies base
    ensures forall n :: 0 <= n < MAX_CODE_LEN ==> base[n] == Start(length[..alphaSize], n)
  {
    hide *;
    CodeSizes();
    ghost var len := length[..alphaSize];
    for i := 0 to MAX_CODE_LEN
      invariant forall n :: 0 <= n < i ==> base[n] == 0
    {
      base[i] := 0;
    }
    OccZero(len);
    for i := 0 to alphaSize
      invariant length[..alphaSize] == len && base[0] == 0
      invariant forall n :: 1 <= n < MAX_CODE_LEN ==> base[n] == Occ(len, n - 1, i)
    {
      OccEvery(len, i);
      assert length[i] == len[i];
      LengthsAt(len, i);
      base[length[i] + 1] := base[length[i] + 1] + 1;
    }
    SumCounts(base, len);
  }

  method SumCounts(base: array<int>, ghost len: seq<int>)
    requires base.Length == MAX_ALPHA_SIZE && base[0] == 0 && forall n :: 1 <= n < MAX_CODE_LEN ==> base[n] == Occ(len, n - 1, |len|)
    modifies base
    ensures forall n :: 0 <= n < MAX_CODE_LEN ==> base[n] == Start(len, n)
  {
    hide *;
    CodeSizes();
    OccZero(len);
    for i := 1 to MAX_CODE_LEN
      invariant forall n :: 0 <= n < i ==> base[n] == Start(len, n)
      invariant forall n :: i <= n < MAX_CODE_LEN ==> base[n] == Occ(len, n - 1, |len|)
    {
      StartNext(len, i - 1);
      base[i] := base[i] + base[i - 1];
    }
  }

  lemma CodeSizes()
    ensures MAX_CODE_LEN == 23 && MAX_ALPHA_SIZE == 258 && LONGEST == 20
  {
  }

  lemma LengthsAt(len: seq<int>, i: nat)
    requires Lengths(len) && i < |len|
    ensures 0 <= len[i] <= LONGEST
  {
  }

  lemma OccZero(l: seq<int>)
    ensures forall c :: Occ(l, c, 0) == 0
    ensures Start(l, 0) == 0
  {
  }

  lemma OccEvery(l: seq<int>, i: nat)
    requires i < |l|
    ensures forall c :: Occ(l, c, i + 1) == Occ(l, c, i) + if l[i] == c then 1 else 0
  {
  }

  /** limit[n] is the last code of n bits, or one less than the first if there is none. */
  method MakeLimits(limit: array<int>, base: array<int>, minLen: int, maxLen: int, ghost len: seq<int>)
    requires limit != base && limit.Length == base.Length == MAX_ALPHA_SIZE && Extremes(len, minLen, maxLen)
    requires forall n :: 0 <= n < MAX_CODE_LEN ==> base[n] == Start(len, n)
    modifies limit
    ensures forall n :: minLen <= n <= LONGEST ==> limit[n] == Limit(len, maxLen, n)
  {
    NoShorter(len, minLen);
    hide Start, Occ, First, Past, Lengths;
    for i := 0 to MAX_CODE_LEN
      invariant forall n :: 0 <= n < i ==> limit[n] == 0
    {
      limit[i] := 0;
    }
    var vec := 0;
    for i := minLen to maxLen + 1
      invariant vec == First(len, i)
      invariant forall n :: minLen <= n < i ==> limit[n] == Past(len, n) - 1
      invariant forall n :: maxLen < n <= LONGEST ==> limit[n] == 0
    {
      StartNext(len, i);
      FirstNext(len, i);
      PastIs(len, i);
      vec := vec + (base[i + 1] - base[i]);
      limit[i] := vec - 1;
      vec := vec * 2;
    }
  }

  /** base[n] becomes the difference between codes of n bits and places in perm. */
  method MakeBases(limit: array<int>, base: array<int>, minLen: int, maxLen: int, ghost len: seq<int>)
    requires limit != base && limit.Length == base.Length == MAX_ALPHA_SIZE && Extremes(len, minLen, maxLen)
    requires forall n :: 0 <= n < MAX_CODE_LEN ==> base[n] == Start(len, n)
    requires forall n :: minLen <= n <= LONGEST ==> limit[n] == Limit(len, maxLen, n)
    modifies base
    ensures forall n :: minLen <= n <= maxLen ==> base[n] == Base(len, n)
  {
    NoShorter(len, minLen);
    ExtremesIn(len, minLen, maxLen);
    BaseStart(len, minLen);
    hide *;
    CodeSizes();
    for i := minLen + 1 to maxLen + 1
      invariant forall n :: minLen <= n < i ==> base[n] == Base(len, n)
      invariant forall n :: i <= n < MAX_CODE_LEN ==> base[n] == Start(len, n)
    {
      BaseStep(len, maxLen, i);
      base[i] := (limit[i - 1] + 1) * 2 - base[i];
    }
  }

  lemma BaseStart(len: seq<int>, n: nat)
    requires First(len, n) == 0 && Start(len, n) == 0
    ensures Base(len, n) == 0
  {
  }

  lemma BaseStep(len: seq<int>, maxLen: int, i: nat)
    requires 0 < i <= maxLen
    ensures Base(len, i) == (Limit(len, maxLen, i - 1) + 1) * 2 - Start(len, i)
  {
    FirstNext(len, i - 1);
  }

  lemma ExtremesIn(len: seq<int>, minLen: int, maxLen: int)
    requires Extremes(len, minLen, maxLen)
    ensures 0 <= minLen <= maxLen <= LONGEST
  {
  }

  method CreateDecodeTables(limit: array<int>, base: array<int>, perm: array<int>, length: array<int>, minLen: int, maxLen: int, alphaSize: nat)
    requires limit != base && limit != perm && base != perm && limit != length && base != length && perm != length
    requires limit.Length == base.Length == perm.Length == MAX_ALPHA_SIZE && alphaSize <= length.Length
    requires Extremes(length[..alphaSize], minLen, maxLen)
    modifies limit, base, perm
    ensures Tabled(length[..alphaSize], maxLen, minLen, limit[..], base[..], perm[..])
  {
    hide Start, Base, Limit, IsOrder;
    ghost var len := length[..alphaSize];
    MakePerm(perm, length, minLen, maxLen, alphaSize);
    CountShorter(base, length, alphaSize);
    MakeLimits(limit, base, minLen, maxLen, len);
    MakeBases(limit, base, minLen, maxLen, len);
    assert perm[..][..alphaSize] == perm[..alphaSize];
  }

  lemma PastIs(len: seq<int>, n: nat)
    ensures Past(len, n) == First(len, n) + Occ(len, n, |len|)
  {
  }
}

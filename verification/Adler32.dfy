/** Adler-32 (section 8.2 of RFC 1950): sums reduced only now and then, reductions without division, and
    the checksum of a concatenation from those of its parts. */
module Adler32 {
  import opened Rotations
  import opened Lcg

  const BASE: nat := 65521
  const NMAX: nat := 5552

  // ---------- reduction without division ----------

  /** CHOP: 65536 leaves 15. */
  function Chop(a: nat): nat {
    a % 65536 + (a / 65536 * 16 - a / 65536)
  }

  function Mod28(a: nat): nat {
    var b := Chop(a);
    if b >= 65521 then b - 65521 else b
  }

  function Mod(a: nat): nat { Mod28(Chop(a)) }

  /** The first step of MOD63: 2^32 leaves 225. */
  function Chop32(a: nat): nat {
    var t := a / 0x1_0000_0000;
    a % 0x1_0000_0000 + (t * 256 - t * 32 + t)
  }

  function Mod63(a: nat): nat {
    var c := Chop(Chop(Chop32(a)));
    if c >= 65521 then c - 65521 else c
  }

  /** CHOP keeps the residue. */
  lemma ChopKeeps(a: nat)
    ensures Chop(a) % 65521 == a % 65521
  {
    ChopIs(a);
    hide Chop;
    ModShift(Chop(a), a / 65536, 65521);
  }

  lemma ChopIs(a: nat)
    ensures a == Chop(a) + (a / 65536) * 65521
  {
  }

  lemma ChopBelow(a: nat)
    ensures a < 0x1000_0000 ==> Chop(a) < 131042
    ensures a < 0x1_0000_0000 ==> Chop(a) < 0x1000_0000
  {
  }

  /** One subtraction reduces completely below two bases, and nowhere else. */
  lemma FoldBase(c: nat)
    ensures (if c >= 65521 then c - 65521 else c) == c % 65521 <==> c < 131042
  {
  }

  lemma Mod28Is(a: nat)
    ensures Mod28(a) == if Chop(a) >= 65521 then Chop(a) - 65521 else Chop(a)
  {
    hide Chop;
  }

  /** MOD28 by itself is enough exactly when one chop leaves less than two bases. */
  lemma Mod28Exact(a: nat)
    ensures Mod28(a) == a % 65521 <==> Chop(a) < 131042
  {
    hide *;
    Mod28Is(a);
    ChopKeeps(a);
    FoldBase(Chop(a));
  }

  /** MOD28 reduces completely below 2^28. */
  lemma Mod28Reduces(a: nat)
    requires a < 0x1000_0000
    ensures Mod28(a) == a % 65521
  {
    hide *;
    ChopBelow(a);
    Mod28Exact(a);
  }

  /** MOD reduces completely below 2^32. */
  lemma ModReduces(a: nat)
    requires a < 0x1_0000_0000
    ensures Mod(a) == a % 65521
  {
    hide Chop, Mod28;
    ChopBelow(a);
    ChopKeeps(a);
    Mod28Reduces(Chop(a));
  }

  lemma Chop32Is(a: nat)
    ensures a == Chop32(a) + (a / 0x1_0000_0000 * 65551) * 65521
  {
  }

  lemma Chop32Below(a: nat)
    requires a < 0x8000_0000_0000_0000
    ensures Chop(Chop(Chop32(a))) < 131042
  {
    assert Chop32(a) < 0x7200_0000_00;
    Chop40(Chop32(a));
    hide *;
    ChopBelow(Chop(Chop32(a)));
  }

  lemma Chop40(a: nat)
    requires a < 0x7200_0000_00
    ensures Chop(a) < 0x1000_0000
  {
  }

  lemma Mod63Reduces(a: nat)
    requires a < 0x8000_0000_0000_0000
    ensures Mod63(a) == a % 65521
  {
    hide Chop, Chop32;
    var b := Chop32(a);
    Chop32Is(a);
    Chop32Below(a);
    ModShift(b, a / 0x1_0000_0000 * 65551, 65521);
    ChopKeeps(b);
    ChopKeeps(Chop(b));
    FoldBase(Chop(Chop(b)));
  }

  // ---------- the checksum ----------

  datatype Sums = Sums(a: nat, b: nat)

  /** One byte at a time, reduced at every byte. */
  function AddByte(s: Sums, c: byte): Sums {
    var a := (s.a + c) % 65521;
    Sums(a, (s.b + a) % 65521)
  }

  function Adler(s: Sums, buf: seq<byte>): Sums
    decreases |buf|
  {
    if buf == [] then s else AddByte(Adler(s, buf[..|buf| - 1]), buf[|buf| - 1])
  }

  ghost predicate Reduced(s: Sums) { s.a < 65521 && s.b < 65521 }

  function Packed(s: Sums): nat { s.a + s.b * 65536 }

  lemma {:induction false} AdlerReduced(s: Sums, buf: seq<byte>)
    requires Reduced(s)
    ensures Reduced(Adler(s, buf))
    decreases |buf|
  {
    if buf != [] { AdlerReduced(s, buf[..|buf| - 1]); }
  }

  lemma {:induction false} AdlerAdd(s: Sums, u: seq<byte>, v: seq<byte>)
    ensures Adler(s, u + v) == Adler(Adler(s, u), v)
    decreases |v|
  {
    if v == [] {
      assert u + v == u;
    } else {
      hide AddByte;
      AdlerAdd(s, u, v[..|v| - 1]);
      assert (u + v)[..|u + v| - 1] == u + v[..|v| - 1];
    }
  }

  /** Unreduced sums that stand for s. */
  ghost predicate Stands(adler: nat, sum2: nat, s: Sums) {
    s == Sums(adler % 65521, sum2 % 65521)
  }

  lemma StandsStep(adler: nat, sum2: nat, s: Sums, c: byte)
    requires Stands(adler, sum2, s)
    ensures Stands(adler + c, sum2 + (adler + c), AddByte(s, c))
  {
    SumMod(adler, c);
    SumMod(sum2, adler + c);
    SumMod(adler + c, sum2 % 65521);
  }

  lemma SumMod(x: nat, y: nat)
    ensures (x % 65521 + y) % 65521 == (x + y) % 65521
  {
    ModShift(x % 65521 + y, x / 65521, 65521);
    assert x + y == x % 65521 + y + x / 65521 * 65521;
  }

  /** DO1 over n bytes, at most NMAX of them from reduced sums: nothing reaches 2^32. */
  method AddBytes(adler0: nat, sum20: nat, buf: seq<byte>, from: nat, n: nat, ghost s: Sums) returns (adler: nat, sum2: nat)
    requires n <= NMAX && from + n <= |buf| && adler0 < 65521 && sum20 < 65521 && s == Sums(adler0, sum20)
    ensures Stands(adler, sum2, Adler(s, buf[from..from + n]))
    ensures adler <= 65520 + 255 * n && sum2 < 0x1_0000_0000 && (n < 16 ==> adler < 2 * 65521 && sum2 < 0x1000_0000)
  {
    adler, sum2 := adler0, sum20;
    hide *;
    NoBytes(s, buf, from);
    assert NMAX == 5552 by { Limit(); }
    StandsStart(adler0, sum20, s);
    for i := 0 to n
      invariant Stands(adler, sum2, Adler(s, buf[from..from + i]))
      invariant adler <= 65520 + 255 * i && 2 * sum2 <= 131040 * (i + 1) + 255 * Triangle(i)
    {
      StandsStep(adler, sum2, Adler(s, buf[from..from + i]), buf[from + i]);
      NextByte(s, buf, from, i);
      NextTriangle(i);
      adler := adler + buf[from + i];
      sum2 := sum2 + adler;
    }
    TriangleBound(n);
  }

  lemma Limit()
    ensures NMAX == 5552 && Triangle(0) == 0
  {
  }

  lemma NoBytes(s: Sums, buf: seq<byte>, from: nat)
    requires from <= |buf|
    ensures Adler(s, buf[from..from]) == s && Triangle(0) == 0
  {
  }

  lemma NextByte(s: Sums, buf: seq<byte>, from: nat, i: nat)
    requires from + i < |buf|
    ensures Adler(s, buf[from..from + i + 1]) == AddByte(Adler(s, buf[from..from + i]), buf[from + i])
  {
    hide AddByte;
    var u := buf[from..from + i + 1];
    assert u[..|u| - 1] == buf[from..from + i];
  }

  lemma NextTriangle(i: nat)
    ensures Triangle(i + 1) == Triangle(i) + 2 * (i + 1)
  {
  }

  lemma StandsStart(adler: nat, sum2: nat, s: Sums)
    requires adler < 65521 && sum2 < 65521 && s == Sums(adler, sum2)
    ensures Stands(adler, sum2, s)
  {
  }

  /** i (i + 1) */
  function Triangle(i: nat): nat {
    if i == 0 then 0 else Triangle(i - 1) + 2 * i
  }

  lemma {:induction false} TriangleIs(i: nat)
    ensures Triangle(i) == i * (i + 1)
  {
    if i > 0 { TriangleIs(i - 1); }
  }

  lemma {:induction false} TriangleMono(i: nat, j: nat)
    requires i <= j
    ensures Triangle(i) <= Triangle(j)
  {
    if i < j { TriangleMono(i, j - 1); }
  }

  lemma TriangleBound(n: nat)
    requires n <= 5552
    ensures 131040 * (n + 1) + 255 * Triangle(n) < 2 * 0x1_0000_0000
    ensures n < 16 ==> 131040 * (n + 1) + 255 * Triangle(n) < 2 * 0x1000_0000
  {
    TriangleMono(n, 5552);
    TriangleIs(5552);
    if n < 16 {
      TriangleMono(n, 15);
      TriangleIs(15);
    }
  }

  /** adler32_z, from reduced sums, with a buffer: the same sums as reducing at every byte. */
  method Adler32(adler0: nat, buf: seq<byte>, ghost s: Sums) returns (r: nat)
    requires Reduced(s) && adler0 == Packed(s)
    ensures r == Packed(Adler(s, buf)) && Reduced(Adler(s, buf))
  {
    hide *;
    AdlerReduced(s, buf);
    Unpacked(adler0, s);
    var sum2: nat, adler: nat := adler0 / 65536 % 65536, adler0 % 65536;
    if |buf| == 1 {
      adler := adler + buf[0];
      if adler >= 65521 { adler := adler - 65521; }
      OneByte(s, buf, adler);
      sum2 := sum2 + adler;
      if sum2 >= 65521 { sum2 := sum2 - 65521; }
      return adler + sum2 * 65536;
    }
    if |buf| < 16 {
      Limit();
      assert buf[0..0 + |buf|] == buf;
      adler, sum2 := AddBytes(adler, sum2, buf, 0, |buf|, s);
      Standing(adler, sum2, Adler(s, buf));
      Mod28Reduces(sum2);
      if adler >= 65521 { adler := adler - 65521; }
      sum2 := Mod28(sum2);
      return adler + sum2 * 65536;
    }
    var done: nat := 0;
    NoBytes(s, buf, 0);
    Limit();
    while |buf| - done >= NMAX
      invariant done <= |buf| && adler < 65521 && sum2 < 65521 && Sums(adler, sum2) == Adler(s, buf[0..done])
    {
      adler, sum2 := ReduceBytes(adler, sum2, buf, done, NMAX, s);
      done := done + NMAX;
    }
    if done < |buf| {
      adler, sum2 := ReduceBytes(adler, sum2, buf, done, |buf| - done, s);
    }
    assert buf[0..|buf|] == buf;
    PackedIs(adler, sum2);
    r := adler + sum2 * 65536;
  }

  method ReduceBytes(adler0: nat, sum20: nat, buf: seq<byte>, from: nat, n: nat, ghost s: Sums) returns (adler: nat, sum2: nat)
    requires n <= NMAX && from + n <= |buf| && adler0 < 65521 && sum20 < 65521 && Sums(adler0, sum20) == Adler(s, buf[0..from])
    ensures adler < 65521 && sum2 < 65521 && Sums(adler, sum2) == Adler(s, buf[0..from + n])
  {
    hide *;
    Limit();
    adler, sum2 := AddBytes(adler0, sum20, buf, from, n, Sums(adler0, sum20));
    AdlerAdd(s, buf[0..from], buf[from..from + n]);
    assert buf[0..from] + buf[from..from + n] == buf[0..from + n];
    Standing(adler, sum2, Adler(s, buf[0..from + n]));
    ModReduces(adler);
    ModReduces(sum2);
    adler, sum2 := Mod(adler), Mod(sum2);
  }

  lemma Standing(adler: nat, sum2: nat, s: Sums)
    requires Stands(adler, sum2, s)
    ensures s == Sums(adler % 65521, sum2 % 65521) && Packed(s) == adler % 65521 + sum2 % 65521 * 65536
    ensures adler < 131042 ==> adler % 65521 == if adler >= 65521 then adler - 65521 else adler
  {
  }

  lemma PackedIs(a: nat, b: nat)
    ensures Packed(Sums(a, b)) == a + b * 65536
  {
  }

  lemma HalvesOf(a: nat, b: nat, adler: nat)
    requires a < 65521 && b < 65521 && adler == a + b * 65536
    ensures adler / 65536 == b && adler % 65536 == a && b % 65536 == b
  {
  }

  lemma Unpacked(adler: nat, s: Sums)
    requires Reduced(s) && adler == Packed(s)
    ensures adler / 65536 % 65536 == s.b < 65521 && adler % 65536 == s.a < 65521 && Sums(adler % 65536, adler / 65536 % 65536) == s
  {
    HalvesOf(s.a, s.b, adler);
  }

  lemma OneByte(s: Sums, buf: seq<byte>, a: nat)
    requires |buf| == 1 && Reduced(s) && a == if s.a + buf[0] >= 65521 then s.a + buf[0] - 65521 else s.a + buf[0]
    ensures Packed(Adler(s, buf)) == a + (if s.b + a >= 65521 then s.b + a - 65521 else s.b + a) * 65536
  {
    hide *;
    SingleByte(s, buf, buf[0]);
    AddedByte(s, buf[0], a);
  }

  lemma SingleByte(s: Sums, buf: seq<byte>, c: byte)
    requires |buf| == 1 && c == buf[0]
    ensures Adler(s, buf) == AddByte(s, c)
  {
    hide AddByte;
    assert buf[..0] == [];
  }

  lemma AddedByte(s: Sums, c: byte, a: nat)
    requires Reduced(s) && a == if s.a + c >= 65521 then s.a + c - 65521 else s.a + c
    ensures Packed(AddByte(s, c)) == a + (if s.b + a >= 65521 then s.b + a - 65521 else s.b + a) * 65536
  {
  }

  // ---------- combining ----------

  /** The checksum of v from any start, given the one from the initial sums. */
  lemma {:induction false} Restarted(s: Sums, v: seq<byte>)
    requires Reduced(s)
    ensures Adler(s, v).a == (s.a + Adler(Sums(1, 0), v).a + 65520) % 65521
    ensures Adler(s, v).b == (s.b + Adler(Sums(1, 0), v).b + |v| * (s.a + 65520)) % 65521
    decreases |v|
  {
    if v == [] {
      ModShift(s.a, 1, 65521);
    } else {
      var u, c := v[..|v| - 1], v[|v| - 1];
      Restarted(s, u);
      RestartStep(s, Adler(s, u), Adler(Sums(1, 0), u), |u|, c);
    }
  }

  lemma RestartStep(s: Sums, x: Sums, y: Sums, n: nat, c: byte)
    requires x.a == (s.a + y.a + 65520) % 65521 && x.b == (s.b + y.b + n * (s.a + 65520)) % 65521
    ensures AddByte(x, c).a == (s.a + AddByte(y, c).a + 65520) % 65521
    ensures AddByte(x, c).b == (s.b + AddByte(y, c).b + (n + 1) * (s.a + 65520)) % 65521
  {
    var k := n * (s.a + 65520);
    assert (n + 1) * (s.a + 65520) == k + (s.a + 65520);
    RestartSums(s.a, s.b, x, y, k, c);
  }

  lemma RestartSums(a: nat, b: nat, x: Sums, y: Sums, k: nat, c: byte)
    requires x.a == (a + y.a + 65520) % 65521 && x.b == (b + y.b + k) % 65521
    ensures AddByte(x, c).a == (a + AddByte(y, c).a + 65520) % 65521
    ensures AddByte(x, c).b == (b + AddByte(y, c).b + (k + (a + 65520))) % 65521
  {
    var p, q := (y.a + c) % 65521, (x.a + c) % 65521;
    SumMod(a + y.a + 65520, c);
    SumMod(y.a + c, a + 65520);
    SumMod(b + y.b + k, q);
    SumMod(p + a + 65520, b + y.b + k);
    SumMod(y.b + p, b + k + a + 65520);
  }

  /** adler32_combine_ */
  method Combine(adler1: nat, adler2: nat, len2: int, ghost s1: Sums, ghost s2: Sums) returns (r: nat)
    requires Reduced(s1) && Reduced(s2) && adler1 == Packed(s1) && adler2 == Packed(s2) && len2 < 0x8000_0000_0000_0000
    ensures len2 < 0 ==> r == 0xFFFF_FFFF
    ensures len2 >= 0 ==> r == Packed(Sums((s1.a + s2.a + 65520) % 65521, (s1.b + s2.b + len2 * (s1.a + 65520)) % 65521))
  {
    hide *;
    if len2 < 0 { return 0xFFFF_FFFF; }
    Unpacked(adler1, s1);
    Unpacked(adler2, s2);
    Mod63Reduces(len2);
    var rem: nat := Mod63(len2);
    var sum1: nat := adler1 % 65536;
    var sum2: nat := rem * sum1;
    SmallProduct(rem, sum1);
    ModReduces(sum2);
    sum2 := Mod(sum2);
    CombineSum(rem, s1.a, len2, s1.b + s2.b);
    sum1 := sum1 + adler2 % 65536 + 65520;
    sum2 := sum2 + adler1 / 65536 % 65536 + adler2 / 65536 % 65536 + 65521 - rem;
    TwiceDown(sum1);
    FourTimes(sum2);
    if sum1 >= 65521 { sum1 := sum1 - 65521; }
    if sum1 >= 65521 { sum1 := sum1 - 65521; }
    if sum2 >= 131042 { sum2 := sum2 - 131042; }
    if sum2 >= 65521 { sum2 := sum2 - 65521; }
    PackedIs(sum1, sum2);
    r := sum1 + sum2 * 65536;
  }

  lemma SmallProduct(x: nat, y: nat)
    requires x < 65521 && y < 65521
    ensures 0 <= x * y < 0x1_0000_0000
  {
    ProductBound(x, y, 65520);
  }

  lemma CombineSum(rem: nat, a: nat, len: nat, b: nat)
    requires rem == len % 65521
    ensures (rem * a % 65521 + b + 65521 - rem) % 65521 == (b + len * (a + 65520)) % 65521
  {
    var q := len / 65521;
    assert len == rem + q * 65521;
    var t, m := rem * a / 65521, rem * a % 65521;
    assert len * (a + 65520) == rem * a + rem * 65520 + q * 65521 * (a + 65520) by { assert (rem + q * 65521) * (a + 65520) == rem * (a + 65520) + q * 65521 * (a + 65520); }
    var k := t + rem - 1 + q * (a + 65520);
    assert q * 65521 * (a + 65520) == (q * (a + 65520)) * 65521;
    assert b + len * (a + 65520) == (m + b + 65521 - rem) + k * 65521;
    ModShift(m + b + 65521 - rem, k, 65521);
  }

  lemma TwiceDown(x: nat)
    requires x < 3 * 65521
    ensures x % 65521 == if x >= 131042 then x - 131042 else if x >= 65521 then x - 65521 else x
  {
  }

  lemma FourTimes(x: nat)
    requires x < 4 * 65521
    ensures x % 65521 == var y := if x >= 131042 then x - 131042 else x; if y >= 65521 then y - 65521 else y
  {
  }

  /** Combining the checksum of u, from any start, with that of v gives the checksum of both together. */
  lemma CombinesWhole(s: Sums, u: seq<byte>, v: seq<byte>, s1: Sums, s2: Sums)
    requires Reduced(s) && s1 == Adler(s, u) && s2 == Adler(Sums(1, 0), v)
    ensures Adler(s, u + v) == Sums((s1.a + s2.a + 65520) % 65521, (s1.b + s2.b + |v| * (s1.a + 65520)) % 65521)
  {
    hide *;
    AdlerReduced(s, u);
    AdlerAdd(s, u, v);
    Restarted(s1, v);
  }
}

/** How long a compressed stream can be: a bound a caller can work out from the length of the input. */
module StreamSize {
  import opened Rotations
  import opened Bits
  import opened BitIO
  import opened RunLength
  import opened BlockSize
  import opened BlockFormat
  import opened StreamFormat

  /** A piece as the sender makes it. */
  ghost predicate SentPiece(table: Tables, p: Piece) {
    exists u :: SentAs(u, Flatten(p.rs)) && p.word == BlockWord(BlockCrc(table, Unroll(p.rs)), u)
  }

  /** Every piece but the last holds a full block: at least so many bytes. */
  ghost predicate Filled(ps: seq<Piece>, full: int) {
    forall i :: 0 <= i < |ps| - 1 ==> |Flatten(ps[i].rs)| >= full
  }

  ghost predicate AllFilled(ps: seq<Piece>, full: int) {
    forall i :: 0 <= i < |ps| ==> |Flatten(ps[i].rs)| >= full
  }

  ghost predicate AllSent(table: Tables, ps: seq<Piece>) {
    forall i :: 0 <= i < |ps| ==> SentPiece(table, ps[i])
  }

  /** The bytes of all blocks. */
  ghost function Total(ps: seq<Piece>): nat {
    if ps == [] then 0 else |Flatten(ps[0].rs)| + Total(ps[1..])
  }

  /** Four bytes of input make at most five of a block. */
  lemma {:induction false} Expands(rs: seq<Run>)
    ensures 4 * |Flatten(rs)| <= 5 * |Unroll(rs)|
  {
    if rs != [] { Expands(rs[..|rs| - 1]); }
  }

  lemma PieceSize(table: Tables, p: Piece)
    requires SentPiece(table, p)
    ensures 50 * |p.word| <= 2576600 + 856 * |Flatten(p.rs)|
  {
    hide Encodes, SentAs, Flatten, Unroll, BlockCrc, ByteBits, BitsOf;
    var b := Flatten(p.rs);
    var u :| SentAs(u, b) && p.word == BlockWord(BlockCrc(table, Unroll(p.rs)), u);
    SentSize(u, b);
    Fifties(|b|);
  }

  lemma Fifties(n: nat)
    ensures 50 * (81 + BlockBound(n)) <= 2576600 + 856 * n
  {
  }

  lemma {:induction false} WordsSize(table: Tables, ps: seq<Piece>)
    requires AllSent(table, ps)
    ensures 50 * |Words(ps)| <= 2576600 * |ps| + 856 * Total(ps)
    decreases |ps|
  {
    hide SentPiece, Flatten;
    if ps != [] {
      PieceSize(table, ps[0]);
      WordsSize(table, ps[1..]);
    }
  }

  lemma {:induction false} TotalSize(ps: seq<Piece>)
    ensures 4 * Total(ps) <= 5 * |Raws(ps)|
    decreases |ps|
  {
    hide Flatten, Unroll;
    if ps != [] {
      Expands(ps[0].rs);
      TotalSize(ps[1..]);
    }
  }

  lemma {:induction false} FewPieces(ps: seq<Piece>, full: nat)
    requires Filled(ps, full)
    ensures |ps| > 0 ==> (|ps| - 1) * full <= Total(ps)
    decreases |ps|
  {
    hide Flatten;
    if |ps| > 1 {
      assert forall i :: 0 <= i < |ps[1..]| ==> ps[1..][i] == ps[i + 1];
      FewPieces(ps[1..], full);
      OneMore(|ps| - 2, full);
    }
  }

  lemma OneMore(k: nat, full: nat)
    ensures (k + 1) * full == k * full + full
  {
  }

  lemma Quotient(k: nat, full: nat, total: nat, n: nat)
    requires full > 0 && k * full <= total <= n
    ensures k <= n / full
  {
    if k > n / full {
      Times(n / full + 1, k, full);
      assert n == (n / full) * full + n % full;
      OneMore(n / full, full);
    }
  }

  lemma Times(j: nat, k: nat, x: nat)
    requires j <= k
    ensures j * x <= k * x
  {
  }

  /** Blocks of at least f bytes, and one more, for n bytes. */
  function BlockCount(n: nat, f: nat): nat
    requires f > 0
  {
    n / f + 1
  }

  /** Bytes enough for k blocks of n bytes in all. */
  function Bytes(k: nat, n: nat): nat {
    (112 + (2576600 * k + 856 * n) / 50) / 8 + 1
  }

  /** Bytes enough for any stream made of an input of this length at this level. */
  function Bound(size: nat, level: nat): nat
    requires 1 <= level <= 9
  {
    Bytes(BlockCount(5 * size / 4, 100000 * level - 19), 5 * size / 4)
  }

  lemma BytesMono(k: nat, n: nat, k': nat, n': nat)
    requires k <= k' && n <= n'
    ensures Bytes(k, n) <= Bytes(k', n')
  {
  }

  lemma BoundMono(s: nat, t: nat, level: nat)
    requires 1 <= level <= 9 && s <= t
    ensures Bound(s, level) <= Bound(t, level)
  {
    hide Bytes;
    var f: nat := 100000 * level - 19;
    DivMono(5 * s / 4, 5 * t / 4, f);
    BytesMono(BlockCount(5 * s / 4, f), 5 * s / 4, BlockCount(5 * t / 4, f), 5 * t / 4);
  }

  lemma DivMono(m: nat, n: nat, f: nat)
    requires m <= n && f > 0
    ensures m / f <= n / f
  {
    assert m == (m / f) * f + m % f;
    Quotient(m / f, f, m, n);
  }

  /** No stream the compressor makes, padded to whole bytes, is longer. */
  lemma StreamFits(table: Tables, level: nat, ps: seq<Piece>, size: nat, bytes: nat)
    requires 1 <= level <= 9 && AllSent(table, ps) && Filled(ps, 100000 * level - 19) && |Raws(ps)| <= size
    requires 8 * bytes < |StreamBits(table, level, ps)| + 8
    ensures bytes <= Bound(size, level)
  {
    hide AllSent, Filled, Words, Raws, StreamBits, Total, Bytes, BlockCount;
    var f: nat := 100000 * level - 19;
    var n: nat := 5 * size / 4;
    WordsSize(table, ps);
    TotalSize(ps);
    FewPieces(ps, f);
    BlocksEnough(|ps|, n, f, Total(ps));
    StreamIs(table, level, ps);
    Enough(|ps|, BlockCount(n, f), Total(ps), n, |Words(ps)|, bytes);
  }

  lemma BlocksEnough(k: nat, n: nat, f: nat, total: nat)
    requires f > 0 && total <= n && (k > 0 ==> (k - 1) * f <= total)
    ensures k <= BlockCount(n, f)
  {
    if k > 0 { Quotient(k - 1, f, total, n); }
  }

  lemma StreamIs(table: Tables, level: nat, ps: seq<Piece>)
    requires level <= 9
    ensures |StreamBits(table, level, ps)| == 112 + |Words(ps)|
  {
    hide Words, Combined, BitsOf, ByteBits;
  }

  lemma Enough(k: nat, k': nat, total: nat, n: nat, words: nat, bytes: nat)
    requires k <= k' && total <= n && 50 * words <= 2576600 * k + 856 * total && 8 * bytes < 112 + words + 8
    ensures bytes <= Bytes(k', n)
  {
  }
}

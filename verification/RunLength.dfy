/** The run-length stage before the sort: runs of 1 to 255 equal bytes, those of four or more written
    as four bytes and a count; what undoing it means on any bytes; and that it undoes the writing. */
module RunLength {
  import opened Rotations

  function Repeat(c: byte, n: nat): (r: seq<byte>)
    ensures |r| == n && forall i :: 0 <= i < n ==> r[i] == c
  {
    seq(n, _ => c)
  }

  lemma RepeatAdd(c: byte, m: nat, n: nat)
    ensures Repeat(c, m) + Repeat(c, n) == Repeat(c, m + n)
  {
  }

  // ---------- writing ----------

  type RunLen = n: int | 1 <= n <= 255 witness 1

  datatype Run = Run(ch: byte, len: RunLen)

  /** add_pair_to_block: a run as block bytes. */
  ghost function Pair(r: Run): (p: seq<byte>)
    ensures |p| == (if r.len < 4 then r.len else 5) && p[0] == r.ch
  {
    if r.len < 4 then Repeat(r.ch, r.len) else Repeat(r.ch, 4) + [r.len - 4]
  }

  /** A run shorter than four is never followed by one of the same byte. */
  ghost predicate Runs(rs: seq<Run>) {
    forall i, j :: 0 <= i < j < |rs| && j == i + 1 && rs[i].len < 4 ==> rs[i].ch != rs[j].ch
  }

  ghost function Flatten(rs: seq<Run>): seq<byte> {
    if rs == [] then [] else Flatten(rs[..|rs| - 1]) + Pair(rs[|rs| - 1])
  }

  ghost function Unroll(rs: seq<Run>): seq<byte> {
    if rs == [] then [] else Unroll(rs[..|rs| - 1]) + Repeat(rs[|rs| - 1].ch, rs[|rs| - 1].len)
  }

  lemma RunsAdd(rs: seq<Run>, r: Run)
    requires Runs(rs) && (rs != [] && rs[|rs| - 1].len < 4 ==> rs[|rs| - 1].ch != r.ch)
    ensures Runs(rs + [r]) && Flatten(rs + [r]) == Flatten(rs) + Pair(r)
    ensures Unroll(rs + [r]) == Unroll(rs) + Repeat(r.ch, r.len)
  {
    hide Pair, Repeat, Flatten, Unroll;
    LastRun(rs + [r], rs, r);
  }

  lemma LastRun(ts: seq<Run>, rs: seq<Run>, r: Run)
    requires ts == rs + [r]
    ensures Flatten(ts) == Flatten(rs) + Pair(r) && Unroll(ts) == Unroll(rs) + Repeat(r.ch, r.len)
  {
    hide Pair, Repeat, Runs;
    assert ts[..|ts| - 1] == rs && ts[|ts| - 1] == r;
  }

  // ---------- undoing ----------

  /** The run that starts at byte i of a block of n bytes, of which all shows two bytes more: how long
      it is, and where the next one starts.  A count is taken to follow four equal bytes even if the
      block ends there. */
  function RunAt(all: seq<byte>, n: nat, i: nat): (r: (nat, nat))
    requires i < n && n + 2 <= |all|
    ensures r.0 >= 1 && i < r.1 <= n + 1
  {
    if i + 1 == n || all[i + 1] != all[i] then (1, i + 1)
    else if i + 2 == n || all[i + 2] != all[i] then (2, i + 2)
    else if i + 3 == n || all[i + 3] != all[i] then (3, i + 3)
    else (4 + all[i + 4] as nat, i + 5)
  }

  /** Everything from the run at byte i on, and whether the block ended where a run did. */
  ghost function Expand(all: seq<byte>, n: nat, i: nat): (seq<byte>, bool)
    requires n + 2 <= |all|
    decreases n + 1 - i
  {
    if i >= n then ([], i == n)
    else
      var r := RunAt(all, n, i);
      var rest := Expand(all, n, r.1);
      (Repeat(all[i], r.0) + rest.0, rest.1)
  }

  // ---------- the two are inverse ----------

  lemma {:induction false} FirstRun(rs: seq<Run>)
    requires rs != []
    ensures Flatten(rs) == Pair(rs[0]) + Flatten(rs[1..])
    ensures Unroll(rs) == Repeat(rs[0].ch, rs[0].len) + Unroll(rs[1..])
    decreases |rs|
  {
    hide *;
    var l, r := |rs| - 1, rs[|rs| - 1];
    var u := rs[..l];
    assert rs == u + [r];
    LastRun(rs, u, r);
    if l == 0 {
      NoRuns(u);
      NoRuns(rs[1..]);
    } else {
      FirstRun(u);
      assert rs[1..] == u[1..] + [r];
      LastRun(rs[1..], u[1..], r);
    }
  }

  /** One run is read back. */
  lemma RunBack(all: seq<byte>, n: nat, i: nat, r: Run)
    requires n + 2 <= |all| && i + |Pair(r)| <= n && all[i..i + |Pair(r)|] == Pair(r)
    requires r.len < 4 && i + r.len < n ==> all[i + r.len] != r.ch
    ensures RunAt(all, n, i) == (r.len, i + |Pair(r)|) && all[i] == r.ch
  {
    var p := Pair(r);
    assert all[i] == p[0];
    if |p| > 1 { assert all[i + 1] == p[1]; }
    if |p| > 2 { assert all[i + 2] == p[2]; }
    if |p| > 3 { assert all[i + 3] == p[3] && all[i + 4] == p[4]; }
  }

  lemma {:induction false} ExpandRuns(all: seq<byte>, rs: seq<Run>, n: nat, i: nat)
    requires Runs(rs) && i <= n && n + 2 <= |all| && all[i..n] == Flatten(rs)
    ensures Expand(all, n, i) == (Unroll(rs), true)
    decreases |rs|
  {
    if rs == [] {
      NoRuns(rs);
      ExpandEnd(all, n);
    } else {
      hide *;
      FirstRun(rs);
      RunsRest(rs);
      var e := OneBack(all, n, i, rs[0], rs[1..]);
      ExpandRuns(all, rs[1..], n, e);
      ExpandStep(all, n, i, rs[0].len, e);
    }
  }

  lemma OneBack(all: seq<byte>, n: nat, i: nat, r: Run, t: seq<Run>) returns (e: nat)
    requires i <= n && n + 2 <= |all| && all[i..n] == Pair(r) + Flatten(t)
    requires t != [] && r.len < 4 ==> r.ch != t[0].ch
    ensures i < e <= n && all[e..n] == Flatten(t) && all[i] == r.ch && RunAt(all, n, i) == (r.len, e)
  {
    var p, f := Pair(r), Flatten(t);
    hide *;
    e := i + |p|;
    PairSize(r);
    Cut(all, i, n, p, f);
    NextByte(all, e, n, t);
    RunBack(all, n, i, r);
  }

  lemma PairSize(r: Run)
    ensures |Pair(r)| == if r.len < 4 then r.len else 5
  {
  }

  lemma NextByte(all: seq<byte>, e: nat, n: nat, t: seq<Run>)
    requires e <= n <= |all| && all[e..n] == Flatten(t)
    ensures if t == [] then e == n else e < n && all[e] == t[0].ch
  {
    hide *;
    if t == [] {
      NoRuns(t);
    } else {
      FirstRun(t);
      assert all[e..n][0] == t[0].ch;
    }
  }

  lemma Cut(all: seq<byte>, i: nat, n: nat, p: seq<byte>, f: seq<byte>)
    requires i <= n <= |all| && all[i..n] == p + f
    ensures i + |p| <= n && all[i..i + |p|] == p && all[i + |p|..n] == f
  {
    assert all[i..i + |p|] == all[i..n][..|p|];
    assert all[i + |p|..n] == all[i..n][|p|..];
  }

  lemma RunsRest(rs: seq<Run>)
    requires Runs(rs) && rs != []
    ensures Runs(rs[1..]) && (rs[1..] != [] && rs[0].len < 4 ==> rs[0].ch != rs[1..][0].ch)
  {
  }

  lemma ExpandStep(all: seq<byte>, n: nat, i: nat, m: nat, e: nat)
    requires i < n && n + 2 <= |all| && RunAt(all, n, i) == (m, e)
    ensures e <= n + 1 && Expand(all, n, i) == (Repeat(all[i], m) + Expand(all, n, e).0, Expand(all, n, e).1)
  {
    hide RunAt, Repeat;
  }

  lemma ExpandEnd(all: seq<byte>, n: nat)
    requires n + 2 <= |all|
    ensures Expand(all, n, n) == ([], true) && Expand(all, n, n + 1) == ([], false)
  {
  }

  lemma NoRuns(rs: seq<Run>)
    requires rs == []
    ensures Flatten(rs) == [] && Unroll(rs) == []
  {
  }

  /** Undoing the run-length stage restores what went in, whatever bytes lie beyond the block. */
  lemma RunsRoundTrip(all: seq<byte>, rs: seq<Run>, n: nat)
    requires Runs(rs) && n == |Flatten(rs)| && n + 2 <= |all| && all[..n] == Flatten(rs)
    ensures Expand(all, n, 0) == (Unroll(rs), true)
  {
    assert all[0..n] == all[..n];
    ExpandRuns(all, rs, n, 0);
  }

  /** A block that ends inside a run of four or more is the one thing Expand objects to: the count
      would be the byte beyond the block. */
  lemma FourAtEnd(c: byte, x: byte, y: byte)
    ensures Expand([c, c, c, c, x, y], 4, 0) == (Repeat(c, x + 4), false)
  {
    var all := [c, c, c, c, x, y];
    assert Expand(all, 4, 5) == ([], false);
    assert Repeat(c, x + 4) + [] == Repeat(c, x + 4);
  }
}

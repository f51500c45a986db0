/** Undoing the run-length stage a byte at a time, into output space of any size: the FAST form with its
    jump into the last byte of a run, and the form that the SMALL inverse and randomised blocks use. */
module RunDecoder {
  import opened Rotations
  import opened Counting
  import opened BurrowsWheeler
  import opened InverseBwt
  import opened RunLength
  import opened Randomising
  import opened StreamFormat

  // ---------- the bytes of the block, as the two inverses deliver them ----------

  /** What the FAST inverse has yet to deliver is all[used..]; it never ends, all shows enough of it. */
  ghost predicate FastAt(s: Fast, l: seq<byte>, all: seq<byte>, used: nat)
    reads s, s.tt
  {
    && s.Linked(l, Links(l)) && |l| > 0 && |Links(l)| == |l| && (forall x :: 0 <= x < |l| ==> 0 <= Links(l)[x] < |l|)
    && s.tPos < |l| && used <= |all| && all[used..] == Readout(l, Links(l), s.tPos, |all| - used)
  }

  method NextFast(s: Fast, ghost l: seq<byte>, ghost all: seq<byte>, ghost used: nat) returns (ok: bool, c: byte)
    requires FastAt(s, l, all, used) && used < |all|
    modifies s`tPos
    ensures ok && c == all[used] && FastAt(s, l, all, used + 1)
  {
    hide Links, Fast.Linked;
    NextOfAll(all, used, l[s.tPos], Readout(l, Links(l), Links(l)[s.tPos], |all| - used - 1));
    ok, c := s.Get(l, Links(l));
    FastInside(s, l, Links(l));
  }

  lemma FastInside(s: Fast, l: seq<byte>, t: seq<int>)
    requires s.Linked(l, t)
    ensures s.tPos < |l|
  {
  }

  ghost predicate SmallAt(s: Small, cftab: array<int>, l: seq<byte>, all: seq<byte>, used: nat)
    reads s, s.ll16, s.ll4, cftab
  {
    && s.Linked(l, Links(l)) && |l| > 0 && |Links(l)| == |l| && (forall x :: 0 <= x < |l| ==> 0 <= Links(l)[x] < |l|)
    && cftab.Length == 257 && (forall c :: 0 <= c <= 256 ==> cftab[c] == Start(l, c))
    && s.tPos < |l| && used <= |all| && all[used..] == Readout(l, Links(l), Links(l)[s.tPos], |all| - used)
  }

  method NextSmall(s: Small, cftab: array<int>, ghost l: seq<byte>, ghost all: seq<byte>, ghost used: nat) returns (ok: bool, c: byte)
    requires SmallAt(s, cftab, l, all, used) && used < |all|
    modifies s`tPos
    ensures ok && c == all[used] && SmallAt(s, cftab, l, all, used + 1)
  {
    hide Links, Small.Linked, Start;
    ghost var p := Links(l)[s.tPos];
    NextOfAll(all, used, l[p], Readout(l, Links(l), Links(l)[p], |all| - used - 1));
    ok, c := s.Get(cftab, l, Links(l));
  }

  lemma NextOfAll(all: seq<byte>, used: nat, c: byte, rest: seq<byte>)
    requires used < |all| && all[used..] == [c] + rest
    ensures all[used] == c && all[used + 1..] == rest
  {
    assert all[used..][0] == c && all[used..][1..] == rest;
  }

  /** Either inverse. */
  ghost predicate SourceAt(small: bool, fast: Fast, slow: Small, cftab: array<int>, l: seq<byte>, walk: seq<byte>, used: nat)
    reads fast, fast.tt, slow, slow.ll16, slow.ll4, cftab
  {
    if small then SmallAt(slow, cftab, l, walk, used) else FastAt(fast, l, walk, used)
  }

  /** The mask for what comes next, if the block is randomised. */
  ghost predicate MaskIs(t: RandTable, randomised: bool, mask: Mask, used: nat) {
    randomised ==> mask == MaskAt(t, used)
  }

  lemma SeenAt(t: RandTable, randomised: bool, walk: seq<byte>, used: nat, mask: Mask)
    requires used < |walk| && MaskIs(t, randomised, mask, used)
    ensures !randomised ==> Seen(t, randomised, walk)[used] == walk[used]
    ensures randomised ==> mask.rTPos < 512 && Seen(t, randomised, walk)[used] == Masked(Updated(t, mask), walk[used])
    ensures randomised ==> MaskIs(t, randomised, Updated(t, mask), used + 1)
  {
    hide Masked, Updated;
    assert MaskAt(t, used + 1) == Updated(t, MaskAt(t, used));
  }

  /** The next byte, unmasked. */
  method Next(small: bool, fast: Fast, slow: Small, cftab: array<int>, t: RandTable, randomised: bool, mask0: Mask,
              ghost l: seq<byte>, ghost walk: seq<byte>, ghost used: nat)
    returns (ok: bool, c: byte, mask: Mask)
    requires SourceAt(small, fast, slow, cftab, l, walk, used) && used < |walk| && MaskIs(t, randomised, mask0, used)
    modifies fast`tPos, slow`tPos
    ensures ok && c == Seen(t, randomised, walk)[used] && SourceAt(small, fast, slow, cftab, l, walk, used + 1)
    ensures MaskIs(t, randomised, mask, used + 1)
  {
    SeenAt(t, randomised, walk, used, mask0);
    hide FastAt, SmallAt, Seen, Masked, Updated, MaskAt;
    mask := mask0;
    if small {
      ok, c := NextSmall(slow, cftab, l, walk, used);
    } else {
      ok, c := NextFast(fast, l, walk, used);
    }
    if randomised {
      mask := Updated(t, mask);
      c := Masked(mask, c);
    }
  }

  // ---------- one run ----------

  /** The state between runs: used bytes were delivered, the last of them, k0, starts the next run. */
  ghost predicate Between(all: seq<byte>, n: nat, used: nat, k0: byte) {
    n >= 1 && |all| == n + 2 && 1 <= used <= n + 2 && (used <= n ==> k0 == all[used - 1])
  }

  /** FAST: a run of one is not stored in state_out_len but reported as one. */
  method StartRunFast(s: Fast, n: nat, used0: nat, k0: byte, ghost l: seq<byte>, ghost all: seq<byte>)
    returns (ok: bool, one: bool, len: nat, used: nat, k: byte)
    requires FastAt(s, l, all, used0) && Between(all, n, used0, k0) && used0 <= n
    modifies s`tPos
    ensures ok && FastAt(s, l, all, used) && Between(all, n, used, k) && RunAt(all, n, used0 - 1) == (if one then 1 else len, used - 1)
    ensures !one ==> len > 1
  {
    hide FastAt;
    one, len, used, k := true, 0, used0, k0;
    var k1;
    ok, k1 := NextFast(s, l, all, used);
    used := used + 1;
    if k1 != k0 { return ok, true, 0, used, k1; }
    if used == n + 1 { return ok, true, 0, used, k; }
    one, len := false, 2;
    ok, k1 := NextFast(s, l, all, used);
    used := used + 1;
    if used == n + 1 { return; }
    if k1 != k0 { return ok, one, len, used, k1; }
    len := 3;
    ok, k1 := NextFast(s, l, all, used);
    used := used + 1;
    if used == n + 1 { return; }
    if k1 != k0 { return ok, one, len, used, k1; }
    ok, k1 := NextFast(s, l, all, used);
    used := used + 1;
    len := 4 + k1 as nat;
    ok, k := NextFast(s, l, all, used);
    used := used + 1;
  }

  /** SMALL, and FAST for a randomised block. */
  method StartRun(small: bool, fast: Fast, slow: Small, cftab: array<int>, t: RandTable, randomised: bool, mask0: Mask,
                  n: nat, used0: nat, k0: byte, ghost l: seq<byte>, ghost walk: seq<byte>, ghost all: seq<byte>)
    returns (ok: bool, len: nat, used: nat, k: byte, mask: Mask)
    requires SourceAt(small, fast, slow, cftab, l, walk, used0) && all == Seen(t, randomised, walk) && MaskIs(t, randomised, mask0, used0)
    requires Between(all, n, used0, k0) && used0 <= n
    modifies fast`tPos, slow`tPos
    ensures ok && SourceAt(small, fast, slow, cftab, l, walk, used) && MaskIs(t, randomised, mask, used)
    ensures Between(all, n, used, k) && RunAt(all, n, used0 - 1) == (len, used - 1)
  {
    hide SourceAt, MaskIs, Seen;
    len, used, k := 1, used0, k0;
    var k1;
    ok, k1, mask := Next(small, fast, slow, cftab, t, randomised, mask0, l, walk, used);
    used := used + 1;
    if used == n + 1 { return; }
    if k1 != k0 { return ok, len, used, k1, mask; }
    len := 2;
    ok, k1, mask := Next(small, fast, slow, cftab, t, randomised, mask, l, walk, used);
    used := used + 1;
    if used == n + 1 { return; }
    if k1 != k0 { return ok, len, used, k1, mask; }
    len := 3;
    ok, k1, mask := Next(small, fast, slow, cftab, t, randomised, mask, l, walk, used);
    used := used + 1;
    if used == n + 1 { return; }
    if k1 != k0 { return ok, len, used, k1, mask; }
    ok, k1, mask := Next(small, fast, slow, cftab, t, randomised, mask, l, walk, used);
    used := used + 1;
    len := 4 + k1 as nat;
    ok, k, mask := Next(small, fast, slow, cftab, t, randomised, mask, l, walk, used);
    used := used + 1;
  }

  // ---------- the rest of the block ----------

  /** What is still to come out: the pending run and everything from the next run on. */
  ghost function Rest(all: seq<byte>, n: nat, len: nat, ch: byte, used: nat): seq<byte>
    requires |all| == n + 2 && used >= 1
  {
    Repeat(ch, len) + Expand(all, n, used - 1).0
  }

  ghost predicate EndsWell(all: seq<byte>, n: nat, used: nat)
    requires |all| == n + 2 && used >= 1
  {
    Expand(all, n, used - 1).1
  }

  lemma RestStart(all: seq<byte>, n: nat, used0: nat, ch: byte, c0: byte, len: nat, used: nat)
    requires |all| == n + 2 && 1 <= used0 <= n && ch == all[used0 - 1] && used >= 1 && RunAt(all, n, used0 - 1) == (len, used - 1)
    ensures Rest(all, n, 0, c0, used0) == Rest(all, n, len, ch, used) && EndsWell(all, n, used0) == EndsWell(all, n, used)
  {
    hide RunAt;
    assert [] + Expand(all, n, used0 - 1).0 == Expand(all, n, used0 - 1).0;
  }

  lemma RestEmit(all: seq<byte>, n: nat, len: nat, ch: byte, used: nat)
    requires |all| == n + 2 && used >= 1 && len > 0
    ensures Rest(all, n, len, ch, used) == [ch] + Rest(all, n, len - 1, ch, used)
  {
    RepeatAdd(ch, 1, len - 1);
    assert [ch] + Repeat(ch, len - 1) == Repeat(ch, len);
  }

  lemma RestEnd(all: seq<byte>, n: nat, ch: byte, used: nat)
    requires |all| == n + 2 && used >= n + 1
    ensures Rest(all, n, 0, ch, used) == [] && EndsWell(all, n, used) == (used == n + 1)
  {
  }

  lemma RestMore(all: seq<byte>, n: nat, len: nat, ch: byte, used: nat)
    requires |all| == n + 2 && 1 <= used
    ensures len > 0 || used <= n ==> Rest(all, n, len, ch, used) != []
    ensures len == 0 && used > n ==> Rest(all, n, len, ch, used) == [] && EndsWell(all, n, used) == (used == n + 1)
  {
    hide RunAt;
  }

  /** The fields of the decompressor that undo the run-length stage of one block. */
  class RunDecoder {
    const table: Tables
    var state_out_len: nat
    var state_out_ch: byte
    var nblock_used: nat
    var k0: byte
    var save_nblock: nat
    var calculatedBlockCRC: bv32
    var blockRandomised: bool
    var mask: Mask  // rNToGo and rTPos
    var out: seq<byte>  // everything handed to the caller
    ghost var done: seq<byte>  // of this, what came from the current block

    ghost predicate Inside(all: seq<byte>)
      reads this
    {
      && Between(all, save_nblock, nblock_used, k0) && calculatedBlockCRC == Checksum(table, 0xFFFF_FFFF, done)
      && MaskIs(table.rand, blockRandomised, mask, nblock_used)
    }

    /** What the block will have yielded in the end. */
    ghost function Total(all: seq<byte>): seq<byte>
      requires Inside(all)
      reads this
    {
      done + Rest(all, save_nblock, state_out_len, state_out_ch, nblock_used)
    }

    ghost predicate Sound(all: seq<byte>)
      requires Inside(all)
      reads this
    {
      EndsWell(all, save_nblock, nblock_used)
    }

    constructor (table: Tables)
      ensures this.table == table && out == []
    {
      this.table := table;
      state_out_len, state_out_ch, nblock_used, k0, save_nblock := 0, 0, 0, 0, 0;
      blockRandomised, mask := false, Started();
      out := [];
    }

    /** The start of a block of n bytes, its first byte already fetched. */
    method Begin(n: nat, first: byte, randomised: bool, mask: Mask, ghost all: seq<byte>)
      requires n >= 1 && |all| == n + 2 && first == all[0] && MaskIs(table.rand, randomised, mask, 1)
      modifies this`state_out_len, this`state_out_ch, this`nblock_used, this`k0, this`save_nblock, this`calculatedBlockCRC, this`done
      modifies this`blockRandomised, this`mask
      ensures Inside(all) && done == [] && nblock_used == 1 && blockRandomised == randomised
      ensures Total(all) == Expand(all, n, 0).0 && Sound(all) == Expand(all, n, 0).1
    {
      state_out_len, state_out_ch, nblock_used, k0, save_nblock := 0, 0, 1, first, n;
      calculatedBlockCRC, done := 0xFFFF_FFFF, [];
      blockRandomised, this.mask := randomised, mask;
      hide Expand, MaskIs;
      assert [] + ([] + Expand(all, n, 0).0) == Expand(all, n, 0).0;
    }

    /** At the end everything is out and the checksum is the block's. */
    lemma BlockDone(all: seq<byte>)
      requires Inside(all) && nblock_used == save_nblock + 1 && state_out_len == 0
      ensures Total(all) == done && Sound(all) && !calculatedBlockCRC == BlockCrc(table, done)
    {
      hide Checksum, Rest;
      RestEnd(all, save_nblock, state_out_ch, nblock_used);
      assert done + [] == done;
    }

    /** One byte out, and into the checksum. */
    method Emit(ghost all: seq<byte>, ghost len: nat)
      requires Inside(all) && len > 0
      modifies this`out, this`done, this`calculatedBlockCRC
      ensures Inside(all) && out == old(out) + [state_out_ch] && done == old(done) + [state_out_ch]
      ensures old(done) + Rest(all, save_nblock, len, state_out_ch, nblock_used) == done + Rest(all, save_nblock, len - 1, state_out_ch, nblock_used)
    {
      hide Update, Rest;
      RestEmit(all, save_nblock, len, state_out_ch, nblock_used);
      SumMore(table, done, state_out_ch);
      out := out + [state_out_ch];
      calculatedBlockCRC := Update(table, calculatedBlockCRC, state_out_ch);
      done := done + [state_out_ch];
    }

    /** FAST: all of the pending run but its last byte, then, or at once, the last byte. */
    method EmitFast(one: bool, avail: nat, ghost all: seq<byte>) returns (full: bool, left: nat)
      requires Inside(all) && (one || state_out_len > 0)
      modifies this`out, this`done, this`calculatedBlockCRC, this`state_out_len
      ensures Inside(all) && |out| + left == |old(out)| + avail && Grown(old(out), old(done), out, done)
      ensures full ==> left == 0 && state_out_len > 0 && Total(all) == old(done + Rest(all, save_nblock, if one then 1 else state_out_len, state_out_ch, nblock_used))
      ensures !full ==>
        done + Rest(all, save_nblock, 0, state_out_ch, nblock_used) == old(done + Rest(all, save_nblock, if one then 1 else state_out_len, state_out_ch, nblock_used))
    {
      hide Between, Rest, Checksum;
      full, left := true, avail;
      GrownNone(out, done);
      if !one {
        while true
          invariant Inside(all) && |out| + left == |old(out)| + avail && Grown(old(out), old(done), out, done) && state_out_len > 0
          invariant Total(all) == old(Total(all))
          decreases state_out_len
        {
          if left == 0 { return; }
          if state_out_len == 1 { break; }
          GrownMore(old(out), old(done), out, done, state_out_ch);
          Emit(all, state_out_len);
          state_out_len := state_out_len - 1;
          left := left - 1;
        }
      }
      if left == 0 {
        state_out_len := 1;
        return;
      }
      GrownMore(old(out), old(done), out, done, state_out_ch);
      Emit(all, 1);
      left := left - 1;
      full := false;
    }

    /** unRLE_obuf_to_output_FAST for a block that is not randomised. */
    method UnRleJumping(s: Fast, avail: nat, ghost l: seq<byte>, ghost all: seq<byte>) returns (corrupt: bool, left: nat)
      requires Inside(all) && FastAt(s, l, all, nblock_used) && !blockRandomised
      modifies this`out, this`done, this`calculatedBlockCRC, this`state_out_len, this`state_out_ch, this`nblock_used, this`k0, s`tPos
      ensures |out| + left == |old(out)| + avail && Grown(old(out), old(done), out, done)
      ensures corrupt ==> !old(Sound(all)) && done == old(Total(all))
      ensures !corrupt ==> Inside(all) && FastAt(s, l, all, nblock_used) && Total(all) == old(Total(all)) && Sound(all) == old(Sound(all))
      ensures !corrupt ==> (left == 0 && state_out_len > 0) || (nblock_used == save_nblock + 1 && state_out_len == 0)
    {
      hide FastAt, Rest, Checksum, EndsWell, Grown, RunAt;
      ghost var total := Total(all);
      corrupt, left := false, avail;
      var one := false;
      GrownNone(out, done);
      while true
        invariant Inside(all) && FastAt(s, l, all, nblock_used) && |out| + left == |old(out)| + avail && Grown(old(out), old(done), out, done)
        invariant Sound(all) == old(Sound(all)) && done + Rest(all, save_nblock, if one then 1 else state_out_len, state_out_ch, nblock_used) == total
        decreases save_nblock + 2 - nblock_used
      {
        if state_out_len > 0 || one {
          ghost var out1, done1 := out, done;
          var full;
          full, left := EmitFast(one, left, all);
          GrownOn(old(out), old(done), out1, done1, out, done);
          if full { return; }
        }
        if nblock_used > save_nblock + 1 {
          RestEnd(all, save_nblock, state_out_ch, nblock_used);
          return true, left;
        }
        if nblock_used == save_nblock + 1 {
          state_out_len := 0;
          return;
        }
        ghost var used0, ch0 := nblock_used, state_out_ch;
        state_out_ch := k0;
        var ok, len;
        ok, one, len, nblock_used, k0 := StartRunFast(s, save_nblock, nblock_used, k0, l, all);
        assert ok;
        RestStart(all, save_nblock, used0, state_out_ch, ch0, if one then 1 else len, nblock_used);
        if !one { state_out_len := len; }
      }
    }

    /** All of the pending run. */
    method EmitRun(avail: nat, ghost all: seq<byte>) returns (full: bool, left: nat)
      requires Inside(all)
      modifies this`out, this`done, this`calculatedBlockCRC, this`state_out_len
      ensures Inside(all) && |out| + left == |old(out)| + avail && Grown(old(out), old(done), out, done)
      ensures Total(all) == old(Total(all)) && (if full then left == 0 else state_out_len == 0)
    {
      hide Between, Rest, Checksum;
      full, left := true, avail;
      GrownNone(out, done);
      while true
        invariant Inside(all) && |out| + left == |old(out)| + avail && Grown(old(out), old(done), out, done)
        invariant Total(all) == old(Total(all))
        decreases state_out_len
      {
        if left == 0 { return; }
        if state_out_len == 0 { break; }
        GrownMore(old(out), old(done), out, done, state_out_ch);
        Emit(all, state_out_len);
        state_out_len := state_out_len - 1;
        left := left - 1;
      }
      full := false;
    }

    /** The pending run is out; the next one is started. */
    method Restart(small: bool, fast: Fast, slow: Small, cftab: array<int>, ghost l: seq<byte>, ghost walk: seq<byte>, ghost all: seq<byte>)
      requires Inside(all) && all == Seen(table.rand, blockRandomised, walk) && SourceAt(small, fast, slow, cftab, l, walk, nblock_used)
      requires state_out_len == 0 && nblock_used <= save_nblock
      modifies this`state_out_len, this`state_out_ch, this`nblock_used, this`k0, this`mask, fast`tPos, slow`tPos
      ensures Inside(all) && SourceAt(small, fast, slow, cftab, l, walk, nblock_used)
      ensures Total(all) == old(Total(all)) && Sound(all) == old(Sound(all)) && old(nblock_used) < nblock_used <= save_nblock + 2
    {
      hide SourceAt, Rest, Checksum, EndsWell, RunAt, MaskIs, Seen;
      ghost var used0, ch0 := nblock_used, state_out_ch;
      state_out_ch := k0;
      var ok;
      ok, state_out_len, nblock_used, k0, mask := StartRun(small, fast, slow, cftab, table.rand, blockRandomised, mask, save_nblock, nblock_used, k0, l, walk, all);
      assert ok;
      RestStart(all, save_nblock, used0, state_out_ch, ch0, state_out_len, nblock_used);
    }

    /** The other three of the four loops: both of unRLE_obuf_to_output_SMALL, and the one of
        unRLE_obuf_to_output_FAST for a randomised block. */
    method UnRleStepping(small: bool, fast: Fast, slow: Small, cftab: array<int>, avail: nat, ghost l: seq<byte>, ghost walk: seq<byte>, ghost all: seq<byte>)
      returns (corrupt: bool, left: nat)
      requires Inside(all) && all == Seen(table.rand, blockRandomised, walk) && SourceAt(small, fast, slow, cftab, l, walk, nblock_used)
      modifies this`out, this`done, this`calculatedBlockCRC, this`state_out_len, this`state_out_ch, this`nblock_used, this`k0, this`mask, fast`tPos, slow`tPos
      ensures |out| + left == |old(out)| + avail && Grown(old(out), old(done), out, done)
      ensures corrupt ==> !old(Sound(all)) && done == old(Total(all))
      ensures !corrupt ==> Inside(all) && SourceAt(small, fast, slow, cftab, l, walk, nblock_used)
      ensures !corrupt ==> Total(all) == old(Total(all)) && Sound(all) == old(Sound(all))
      ensures !corrupt ==> left == 0 || (nblock_used == save_nblock + 1 && state_out_len == 0)
    {
      hide SourceAt, Rest, Checksum, EndsWell, Grown, RunAt, MaskIs, Seen;
      ghost var total := Total(all);
      corrupt, left := false, avail;
      GrownNone(out, done);
      while true
        invariant Inside(all) && SourceAt(small, fast, slow, cftab, l, walk, nblock_used)
        invariant |out| + left == |old(out)| + avail && Grown(old(out), old(done), out, done)
        invariant Sound(all) == old(Sound(all)) && Total(all) == total
        decreases save_nblock + 2 - nblock_used
      {
        ghost var out1, done1 := out, done;
        var full;
        full, left := EmitRun(left, all);
        GrownOn(old(out), old(done), out1, done1, out, done);
        if full { return; }
        if nblock_used == save_nblock + 1 { return; }
        if nblock_used > save_nblock + 1 {
          RestEnd(all, save_nblock, state_out_ch, nblock_used);
          return true, left;
        }
        Restart(small, fast, slow, cftab, l, walk, all);
      }
    }

    /** unRLE_obuf_to_output_FAST */
    method UnRleFast(fast: Fast, slow: Small, cftab: array<int>, avail: nat, ghost l: seq<byte>, ghost walk: seq<byte>, ghost all: seq<byte>)
      returns (corrupt: bool, left: nat)
      requires Inside(all) && all == Seen(table.rand, blockRandomised, walk) && FastAt(fast, l, walk, nblock_used)
      modifies this`out, this`done, this`calculatedBlockCRC, this`state_out_len, this`state_out_ch, this`nblock_used, this`k0, this`mask, fast`tPos, slow`tPos
      ensures |out| + left == |old(out)| + avail && Grown(old(out), old(done), out, done)
      ensures corrupt ==> !old(Sound(all)) && done == old(Total(all))
      ensures !corrupt ==> Inside(all) && FastAt(fast, l, walk, nblock_used) && Total(all) == old(Total(all)) && Sound(all) == old(Sound(all))
      ensures !corrupt ==> left == 0 || (nblock_used == save_nblock + 1 && state_out_len == 0)
    {
      hide FastAt, SmallAt, Inside, Total, Sound, Grown, MaskIs;
      if blockRandomised {
        hide Seen;
        corrupt, left := UnRleStepping(false, fast, slow, cftab, avail, l, walk, all);
      } else {
        corrupt, left := UnRleJumping(fast, avail, l, all);
      }
    }

    /** unRLE_obuf_to_output_SMALL */
    method UnRleSmall(fast: Fast, slow: Small, cftab: array<int>, avail: nat, ghost l: seq<byte>, ghost walk: seq<byte>, ghost all: seq<byte>)
      returns (corrupt: bool, left: nat)
      requires Inside(all) && all == Seen(table.rand, blockRandomised, walk) && SmallAt(slow, cftab, l, walk, nblock_used)
      modifies this`out, this`done, this`calculatedBlockCRC, this`state_out_len, this`state_out_ch, this`nblock_used, this`k0, this`mask, fast`tPos, slow`tPos
      ensures |out| + left == |old(out)| + avail && Grown(old(out), old(done), out, done)
      ensures corrupt ==> !old(Sound(all)) && done == old(Total(all))
      ensures !corrupt ==> Inside(all) && SmallAt(slow, cftab, l, walk, nblock_used) && Total(all) == old(Total(all)) && Sound(all) == old(Sound(all))
      ensures !corrupt ==> left == 0 || (nblock_used == save_nblock + 1 && state_out_len == 0)
    {
      hide FastAt, SmallAt, Inside, Total, Sound, Grown, MaskIs, Seen;
      corrupt, left := UnRleStepping(true, fast, slow, cftab, avail, l, walk, all);
    }
  }

  /** The same bytes were added to both. */
  ghost predicate Grown(out0: seq<byte>, done0: seq<byte>, out: seq<byte>, done: seq<byte>) {
    exists x: seq<byte> :: out == out0 + x && done == done0 + x
  }

  lemma GrownNone(out: seq<byte>, done: seq<byte>)
    ensures Grown(out, done, out, done)
  {
    assert out == out + [] && done == done + [];
  }

  lemma GrownMore(out0: seq<byte>, done0: seq<byte>, out: seq<byte>, done: seq<byte>, c: byte)
    requires Grown(out0, done0, out, done)
    ensures Grown(out0, done0, out + [c], done + [c])
  {
    var x: seq<byte> :| out == out0 + x && done == done0 + x;
    assert out + [c] == out0 + (x + [c]) && done + [c] == done0 + (x + [c]);
  }

  lemma GrownOn(out0: seq<byte>, done0: seq<byte>, out1: seq<byte>, done1: seq<byte>, out: seq<byte>, done: seq<byte>)
    requires Grown(out0, done0, out1, done1) && Grown(out1, done1, out, done)
    ensures Grown(out0, done0, out, done)
  {
    var x: seq<byte> :| out1 == out0 + x && done1 == done0 + x;
    var y: seq<byte> :| out == out1 + y && done == done1 + y;
    assert out == out0 + (x + y) && done == done0 + (x + y);
  }

  lemma SumMore(table: Tables, s: seq<byte>, c: byte)
    ensures Checksum(table, 0xFFFF_FFFF, s + [c]) == Update(table, Checksum(table, 0xFFFF_FFFF, s), c)
  {
    hide Update;
    assert (s + [c])[..|s|] == s;
  }
}

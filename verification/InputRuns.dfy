/** The compressor's input side: bytes are gathered into runs, and runs into the block. */
module InputRuns {
  import opened Rotations
  import opened RunLength
  import opened StreamFormat

  const NO_CHAR: nat := 256
  const NO_CRC: bv32 := 0xFFFF_FFFF

  /** inUse marks exactly the bytes of the block. */
  ghost predicate UsedExactly(inUse: seq<bool>, block: seq<byte>) {
    |inUse| == 256 && forall c :: 0 <= c < 256 ==> (inUse[c] <==> c in block)
  }

  /** A block, its marks and its checksum belong to the same runs. */
  ghost predicate Made(table: Tables, rs: seq<Run>, block: seq<byte>, inUse: seq<bool>, crc: bv32) {
    Runs(rs) && block == Flatten(rs) && UsedExactly(inUse, block) && crc == Checksum(table, NO_CRC, Unroll(rs))
  }

  ghost predicate Follows(rs: seq<Run>, ch: nat) {
    rs != [] && rs[|rs| - 1].len < 4 ==> rs[|rs| - 1].ch != ch
  }

  lemma MadeNone(table: Tables, inUse: seq<bool>)
    requires |inUse| == 256 && forall c :: 0 <= c < 256 ==> !inUse[c]
    ensures Made(table, [], [], inUse, NO_CRC) && Unroll([]) == []
  {
  }

  /** A run appended to the block, its bytes and its count marked, its bytes added to the checksum. */
  lemma MadeMore(table: Tables, rs: seq<Run>, block: seq<byte>, inUse: seq<bool>, crc: bv32, r: Run, marks: seq<bool>)
    requires Made(table, rs, block, inUse, crc) && Follows(rs, r.ch) && |marks| == 256
    requires forall c :: 0 <= c < 256 ==> marks[c] == (inUse[c] || c == r.ch || (r.len >= 4 && c == r.len - 4))
    ensures Made(table, rs + [r], block + Pair(r), marks, Checksum(table, crc, Repeat(r.ch, r.len)))
    ensures Unroll(rs + [r]) == Unroll(rs) + Repeat(r.ch, r.len)
  {
    RunsAdd(rs, r);
    ChecksumAdd(table, NO_CRC, Unroll(rs), Repeat(r.ch, r.len));
    hide Flatten, Unroll, Checksum, Runs;
    MarksMore(inUse, block, r, marks);
  }

  lemma MarksMore(inUse: seq<bool>, block: seq<byte>, r: Run, marks: seq<bool>)
    requires UsedExactly(inUse, block) && |marks| == 256
    requires forall c :: 0 <= c < 256 ==> marks[c] == (inUse[c] || c == r.ch || (r.len >= 4 && c == r.len - 4))
    ensures UsedExactly(marks, block + Pair(r))
  {
    forall c | 0 <= c < 256 ensures marks[c] <==> c in block + Pair(r) {
      InPair(r, c);
    }
  }

  lemma InPair(r: Run, c: int)
    ensures c in Pair(r) <==> c == r.ch || (r.len >= 4 && c == r.len - 4)
  {
    var p := Pair(r);
    assert p[0] == r.ch;
    if r.len >= 4 { assert p[4] == r.len - 4; }
  }

  lemma OneMore(table: Tables, crc: bv32, c: byte, i: nat)
    ensures Checksum(table, crc, Repeat(c, i + 1)) == Update(table, Checksum(table, crc, Repeat(c, i)), c)
    ensures Checksum(table, crc, Repeat(c, 0)) == crc
  {
    hide Update;
    assert Repeat(c, i + 1)[..i] == Repeat(c, i);
  }

  lemma ShortPair(r: Run)
    ensures r.len == 1 ==> Pair(r) == [r.ch]
    ensures r.len == 2 ==> Pair(r) == [r.ch] + [r.ch]
    ensures r.len == 3 ==> Pair(r) == [r.ch] + [r.ch] + [r.ch]
    ensures r.len >= 4 ==> Pair(r) == [r.ch] + [r.ch] + [r.ch] + [r.ch] + [r.len - 4]
    ensures |Pair(r)| <= 5
  {
  }

  class RunEncoder {
    const table: Tables
    var state_in_ch: nat   // NO_CHAR if no run is pending
    var state_in_len: nat
    var block: seq<byte>
    const inUse: array<bool>
    var blockCRC: bv32
    ghost var runs: seq<Run>  // what the block is made of

    ghost predicate Pending()
      reads this
    {
      if state_in_ch == NO_CHAR then state_in_len == 0
      else state_in_ch < 256 && 1 <= state_in_len <= 255
    }

    ghost predicate Valid()
      reads this, inUse
    {
      inUse.Length == 256 && Pending() && Follows(runs, state_in_ch) && Made(table, runs, block, inUse[..], blockCRC)
    }

    /** Fit for more input: after a flush the block must be begun anew. */
    ghost predicate Open()
      reads this, inUse
    {
      Valid() && (state_in_ch == NO_CHAR ==> runs == [])
    }

    /** The run not yet in the block. */
    ghost function Held(): seq<byte>
      reads this
    {
      if state_in_ch < 256 then Repeat(state_in_ch, state_in_len) else []
    }

    /** Everything taken in since the block was begun. */
    ghost function Content(): seq<byte>
      reads this
    {
      Unroll(runs) + Held()
    }

    constructor (table: Tables)
      ensures Open() && fresh(inUse) && runs == [] && block == [] && Content() == Held() == [] && this.table == table
    {
      hide *;
      this.table := table;
      inUse := new bool[256](_ => false);
      state_in_ch, state_in_len := NO_CHAR, 0;
      block, runs, blockCRC := [], [], NO_CRC;
      new;
      MadeNone(table, inUse[..]);
      FollowsNone(state_in_ch);
      PendingNone();
    }

    lemma PendingNone()
      requires state_in_ch == NO_CHAR && state_in_len == 0 && inUse.Length == 256 && Follows(runs, state_in_ch) && Made(table, runs, block, inUse[..], blockCRC)
      ensures Valid() && Held() == [] && Content() == Unroll(runs) && (runs == [] ==> Open())
    {
      hide Made, Follows, Unroll;
      assert Unroll(runs) + [] == Unroll(runs);
    }

    /** isempty_RL */
    predicate EmptyRL()
      reads this
    {
      !(state_in_ch < 256 && state_in_len > 0)
    }

    /** prepare_new_block: an empty block; a pending run stays. */
    method Prepare()
      requires inUse.Length == 256 && Pending()
      modifies this`block, this`blockCRC, this`runs, inUse
      ensures Open() && runs == [] && block == [] && Content() == Held() == old(Held())
    {
      hide Made, Follows, Unroll, Repeat;
      for i := 0 to 256
        invariant forall c :: 0 <= c < i ==> !inUse[c]
      {
        inUse[i] := false;
      }
      block, runs, blockCRC := [], [], NO_CRC;
      MadeNone(table, inUse[..]);
      FollowsNone(state_in_ch);
      assert [] + Held() == Held();
    }

    /** The first half of add_pair_to_block: the checksum. */
    method SumPair(ch: byte)
      modifies this`blockCRC
      ensures blockCRC == Checksum(table, old(blockCRC), Repeat(ch, state_in_len))
    {
      hide *;
      ghost var crc0 := blockCRC;
      OneMore(table, crc0, ch, 0);
      for i := 0 to state_in_len
        invariant blockCRC == Checksum(table, crc0, Repeat(ch, i))
      {
        OneMore(table, crc0, ch, i);
        blockCRC := Update(table, blockCRC, ch);
      }
    }

    /** The second half: marks and bytes. */
    method StorePair(ch: byte)
      requires 1 <= state_in_len <= 255 && inUse.Length == 256
      modifies this`block, inUse
      ensures block == old(block) + Pair(Run(ch, state_in_len))
      ensures forall c :: 0 <= c < 256 ==> inUse[c] == (old(inUse[c]) || c == ch || (state_in_len >= 4 && c == state_in_len - 4))
    {
      hide *;
      ghost var r, b := Run(ch, state_in_len), block;
      ShortPair(r);
      inUse[ch] := true;
      if state_in_len == 1 {
        block := block + [ch];
      } else if state_in_len == 2 {
        block := block + [ch];
        block := block + [ch];
        assert block == b + ([ch] + [ch]);
      } else if state_in_len == 3 {
        block := block + [ch];
        block := block + [ch];
        block := block + [ch];
        assert block == b + ([ch] + [ch] + [ch]);
      } else {
        inUse[state_in_len - 4] := true;
        block := block + [ch];
        block := block + [ch];
        block := block + [ch];
        block := block + [ch];
        block := block + [state_in_len - 4];
        assert block == b + ([ch] + [ch] + [ch] + [ch] + [r.len - 4]);
      }
    }

    /** add_pair_to_block */
    method AddPair()
      requires Valid() && state_in_ch < 256
      modifies this`block, this`blockCRC, this`runs, inUse
      ensures runs == old(runs) + [Run(state_in_ch, state_in_len)] && Made(table, runs, block, inUse[..], blockCRC)
      ensures Unroll(runs) == old(Content()) && |block| <= |old(block)| + 5
    {
      hide Made, Follows, Checksum, Unroll, Pair, Repeat;
      var ch: byte := state_in_ch;
      ghost var r := Run(ch, state_in_len);
      SumPair(ch);
      StorePair(ch);
      ShortPair(r);
      MadeMore(table, runs, old(block), old(inUse[..]), old(blockCRC), r, inUse[..]);
      runs := runs + [r];
    }

    /** flush_RL */
    method FlushRL()
      requires Valid()
      modifies this, inUse
      ensures Valid() && Content() == old(Content()) && Held() == [] && EmptyRL() && |block| <= |old(block)| + 5
    {
      hide Made, Follows, Unroll, Repeat;
      if state_in_ch < 256 { AddPair(); }
      state_in_ch, state_in_len := NO_CHAR, 0;
      NeverFollows(runs);
      assert Unroll(runs) + [] == Unroll(runs);
    }

    /** The common case: a run of one is over. */
    method EndSingle(c: byte)
      requires Valid() && state_in_len == 1 && c != state_in_ch
      modifies this, inUse
      ensures Valid() && Content() == old(Content()) + [c] && !EmptyRL() && |block| <= |old(block)| + 5
    {
      hide Made, Follows, Checksum, Unroll, Pair, Repeat, Update;
      var ch: byte := state_in_ch;
      ghost var r := Run(ch, 1);
      ghost var crc0 := blockCRC;
      OneMore(table, crc0, ch, 0);
      OneMore(table, crc0, ch, 0);
      blockCRC := Update(table, blockCRC, ch);
      inUse[ch] := true;
      block := block + [ch];
      ShortPair(r);
      MadeMore(table, runs, old(block), old(inUse[..]), crc0, r, inUse[..]);
      runs := runs + [r];
      state_in_ch := c;
      FollowsRun(runs, r, c);
      Singles(c);
    }

    /** ADD_CHAR_TO_BLOCK */
    method AddChar(c: byte)
      requires Open()
      modifies this, inUse
      ensures Open() && Content() == old(Content()) + [c] && !EmptyRL() && |block| <= |old(block)| + 5
    {
      hide Made, Follows, Unroll, Repeat;
      if c != state_in_ch && state_in_len == 1 {
        EndSingle(c);
      } else if c != state_in_ch || state_in_len == 255 {
        if state_in_ch < 256 {
          AddPair();
          FollowsRun(runs, Run(state_in_ch, state_in_len), c);
        } else {
          FollowsNone(c);
          assert Content() + [c] == Unroll(runs) + [c];
        }
        state_in_ch, state_in_len := c, 1;
        Singles(c);
      } else {
        state_in_len := state_in_len + 1;
        RepeatAdd(c, state_in_len - 1, 1);
        Singles(c);
        assert Unroll(runs) + (Repeat(c, state_in_len - 1) + [c]) == Unroll(runs) + Repeat(c, state_in_len - 1) + [c];
      }
    }
  }

  lemma Singles(c: byte)
    ensures Repeat(c, 1) == [c]
  {
  }

  lemma NeverFollows(rs: seq<Run>)
    ensures Follows(rs, NO_CHAR)
  {
  }

  lemma FollowsRun(rs: seq<Run>, r: Run, c: nat)
    requires rs != [] && rs[|rs| - 1] == r && (r.len < 4 ==> c != r.ch)
    ensures Follows(rs, c)
  {
  }

  lemma FollowsNone(c: nat)
    ensures Follows([], c)
  {
  }
}

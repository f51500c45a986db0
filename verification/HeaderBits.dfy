/** The bucket-header bitmap: 32 bits to a word, tested a bit or a whole word at a time. */
module HeaderBits {

  type Word = w: seq<bool> | |w| == 32 witness seq(32, _ => false)

  const ALL_ONES: Word := seq(32, _ => true)
  const ALL_ZEROS: Word := seq(32, _ => false)

  class BhTab {
    const words: array<Word>
    ghost var bits: seq<bool>

    ghost predicate Valid()
      reads this, words
    {
      && |bits| == 32 * words.Length
      && forall i :: 0 <= i < |bits| ==> bits[i] == words[i / 32][i % 32]
    }

    constructor (n: nat)
      ensures Valid() && fresh(words) && words.Length == n
    {
      words := new Word[n](_ => ALL_ZEROS);
      bits := seq(32 * n, _ => false);
    }

    /** Zeroes the first n words. */
    method Clear(n: nat)
      requires Valid() && n <= words.Length
      modifies this, words
      ensures Valid() && |bits| == old(|bits|)
      ensures forall k :: 0 <= k < |bits| ==> bits[k] == (old(bits[k]) && k >= 32 * n)
    {
      ghost var was := bits;
      for i := 0 to n
        invariant Valid() && |bits| == |was|
        invariant forall k :: 0 <= k < |bits| ==> bits[k] == (was[k] && k >= 32 * i)
      {
        words[i] := ALL_ZEROS;
        bits := seq(|was|, k requires 0 <= k < |was| => was[k] && k >= 32 * (i + 1));
        forall k | 0 <= k < |bits| ensures bits[k] == words[k / 32][k % 32] {
          if k / 32 != i { assert k < 32 * i || k >= 32 * (i + 1); }
        }
      }
    }

    method Put(k: nat, v: bool)
      requires Valid() && k < |bits|
      modifies this, words
      ensures Valid() && bits == old(bits)[k := v]
    {
      var w := words[k / 32];
      words[k / 32] := w[k % 32 := v];
      bits := bits[k := v];
      assert forall i :: 0 <= i < |bits| && i != k && i / 32 == k / 32 ==> i % 32 != k % 32;
    }

    method IsSet(k: nat) returns (v: bool)
      requires Valid() && k < |bits|
      ensures v == bits[k]
    {
      v := words[k / 32][k % 32];
    }

    /** The word of bit k, an aligned position, has every bit equal to v. */
    method WordIs(k: nat, v: bool) returns (same: bool)
      requires Valid() && k < |bits| && k % 32 == 0
      ensures same ==> k + 32 <= |bits| && forall i :: k <= i < k + 32 ==> bits[i] == v
    {
      same := words[k / 32] == if v then ALL_ONES else ALL_ZEROS;
      if same {
        forall i | k <= i < k + 32 ensures bits[i] == v {
          assert i / 32 == k / 32 && i % 32 == i - k;
        }
      }
    }

    /** First bit from k on that differs from v: bit by bit up to a word boundary, word by word
        while whole words are alike, then bit by bit again.  Bit stop is known to differ. */
    method SkipRun(k0: nat, v: bool, ghost stop: nat) returns (k: nat)
      requires Valid() && k0 <= stop < |bits| && bits[stop] != v
      ensures k0 <= k <= stop && bits[k] != v
      ensures forall i :: k0 <= i < k ==> bits[i] == v
    {
      hide Valid;
      k := k0;
      while true
        invariant k0 <= k <= stop && forall i :: k0 <= i < k ==> bits[i] == v
        decreases stop - k
      {
        var b := IsSet(k);
        if b != v || k % 32 == 0 { break; }
        k := k + 1;
      }
      var b := IsSet(k);
      if b == v {
        while true
          invariant k0 <= k <= stop && k % 32 == 0 && forall i :: k0 <= i < k ==> bits[i] == v
          decreases stop - k
        {
          var same := WordIs(k, v);
          if !same { break; }
          k := k + 32;
        }
        while true
          invariant k0 <= k <= stop && forall i :: k0 <= i < k ==> bits[i] == v
          decreases stop - k
        {
          b := IsSet(k);
          if b != v { break; }
          k := k + 1;
        }
      }
    }
  }
}

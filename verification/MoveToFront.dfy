/** Move-to-front lists, runs of zeros in bijective base two, and the round trip through both. */
module MoveToFront {
  import opened Powers

  const RUNA: int := 0
  const RUNB: int := 1

  datatype Option<+T> = None | Some(value: T)

  /** The list with entry k moved to its front. */
  function Front(list: seq<int>, k: nat): (r: seq<int>)
    requires k < |list|
    ensures |r| == |list|
    ensures forall i :: 0 <= i < |list| ==> r[i] == if i == 0 then list[k] else if i <= k then list[i - 1] else list[i]
  {
    [list[k]] + list[..k] + list[k + 1..]
  }

  function IndexOf(list: seq<int>, v: int): (k: nat)
    requires v in list
    ensures k < |list| && list[k] == v && v !in list[..k]
  {
    if list[0] == v then 0 else 1 + IndexOf(list[1..], v)
  }

  lemma {:induction false} IndexUnique(list: seq<int>, k: nat)
    requires k < |list| && list[k] !in list[..k]
    ensures IndexOf(list, list[k]) == k
  {
    if k > 0 {
      assert list[0] == list[..k][0];
      assert list[1..][..k - 1] == list[..k][1..];
      IndexUnique(list[1..], k - 1);
    }
  }

  lemma FrontSame(list: seq<int>, k: nat, v: int)
    requires k < |list|
    ensures v in Front(list, k) <==> v in list
  {
    if v in list {
      var i :| 0 <= i < |list| && list[i] == v;
      var r := Front(list, k);
      assert r[if i == k then 0 else if i < k then i + 1 else i] == v;
    }
  }

  // ---------- runs ----------

  /** A run length in bijective base two, least significant digit first. */
  function RunCode(m: nat): (r: seq<int>)
    ensures forall i :: 0 <= i < |r| ==> r[i] == RUNA || r[i] == RUNB
  {
    if m == 0 then [] else [(m - 1) % 2] + RunCode((m - 1) / 2)
  }

  function RunValue(ds: seq<int>): int {
    if ds == [] then 0 else ds[0] + 1 + 2 * RunValue(ds[1..])
  }

  lemma {:induction false} RunRoundTrip(m: nat)
    ensures RunValue(RunCode(m)) == m
  {
    if m > 0 {
      RunRoundTrip((m - 1) / 2);
      assert RunCode(m)[1..] == RunCode((m - 1) / 2);
    }
  }

  lemma {:induction false} RunCodeSize(m: nat)
    ensures Pow2(|RunCode(m)|) <= m + 1
    ensures |RunCode(m)| <= m
  {
    if m > 0 { RunCodeSize((m - 1) / 2); }
  }

  /** Runs up to a million use at most 20 digits, below the decoder's limit of 21. */
  lemma RunCodeShort(m: nat)
    requires m < 0x10_0000
    ensures |RunCode(m)| <= 20
  {
    hide RunCode;
    RunCodeSize(m);
    if |RunCode(m)| > 20 {
      Pow2Mono(21, |RunCode(m)|);
      Pow2Values();
    }
  }

  /** How many symbols from the front are run digits. */
  function RunLength(syms: seq<int>): (k: nat)
    ensures k <= |syms| && (k < |syms| ==> syms[k] != RUNA && syms[k] != RUNB)
    ensures forall i :: 0 <= i < k ==> syms[i] == RUNA || syms[i] == RUNB
  {
    if syms == [] || (syms[0] != RUNA && syms[0] != RUNB) then 0 else 1 + RunLength(syms[1..])
  }

  lemma RunLengthIs(syms: seq<int>, k: nat)
    requires k <= |syms| && (k < |syms| ==> syms[k] != RUNA && syms[k] != RUNB)
    requires forall i :: 0 <= i < k ==> syms[i] == RUNA || syms[i] == RUNB
    ensures RunLength(syms) == k
  {
  }

  function Copies(v: int, n: nat): (r: seq<int>)
    ensures |r| == n && forall i :: 0 <= i < n ==> r[i] == v
  {
    seq(n, _ => v)
  }

  // ---------- the two directions ----------

  /** Symbols for the column, pend repeats of the list's first value being already due. */
  function Encode(list: seq<int>, col: seq<int>, pend: nat): seq<int>
    requires |list| > 0 && forall i :: 0 <= i < |col| ==> col[i] in list
    decreases |col|
  {
    if col == [] then RunCode(pend)
    else if col[0] == list[0] then Encode(list, col[1..], pend + 1)
    else
      var k := IndexOf(list, col[0]);
      (forall v ensures v in list ==> v in Front(list, k) { FrontSame(list, k, v); }
       RunCode(pend) + [k + 1] + Encode(Front(list, k), col[1..], 0))
  }

  const RUN_LIMIT: nat := 21  // digits before the decoder's N reaches 2*1024*1024

  /** What the decoder makes of the symbols: None for each of its data errors. */
  function Decode(list: seq<int>, syms: seq<int>, eob: int, room: nat): Option<seq<int>>
    requires |list| > 0
    decreases |syms|
  {
    if syms == [] then None
    else if syms[0] == eob then Some([])
    else if syms[0] == RUNA || syms[0] == RUNB then
      var k := RunLength(syms);
      var m := RunValue(syms[..k]);
      if k > RUN_LIMIT || m < 0 || m > room then None
      else
        match Decode(list, syms[k..], eob, room - m)
        case None => None
        case Some(rest) => Some(Copies(list[0], m) + rest)
    else if room == 0 || !(2 <= syms[0] <= |list|) then None
    else
      match Decode(Front(list, syms[0] - 1), syms[1..], eob, room - 1)
      case None => None
      case Some(rest) => Some([list[syms[0] - 1]] + rest)
  }

  /** Copies of the head and then the tail, in the two ways the proof meets them. */
  lemma CopiesStep(v: int, n: nat, rest: seq<int>)
    ensures Copies(v, n) + ([v] + rest) == Copies(v, n + 1) + rest
  {
  }

  /** Decoding the digits of a run and what follows them. */
  lemma DecodeRun(list: seq<int>, m: nat, syms: seq<int>, eob: int, room: nat)
    requires |list| > 0 && 0 < m <= room && m < 0x10_0000 && eob >= 2
    requires |syms| > 0 && syms[0] >= 2
    ensures Decode(list, RunCode(m) + syms, eob, room) ==
            match Decode(list, syms, eob, room - m)
            case None => None
            case Some(rest) => Some(Copies(list[0], m) + rest)
  {
    var ds := RunCode(m);
    var all := ds + syms;
    hide RunCode, RunLength, RunValue;
    RunCodeHead(m);
    RunCodeShort(m);
    RunLengthIs(all, |ds|);
    RunRoundTrip(m);
    assert all[..|ds|] == ds && all[|ds|..] == syms;
    assert all[0] == ds[0];
  }

  lemma RunCodeHead(m: nat)
    requires m > 0
    ensures |RunCode(m)| > 0
  {
  }

  /** The decoder's list need only agree with the encoder's on the values in use. */
  ghost predicate Extends(long: seq<int>, list: seq<int>) {
    |list| <= |long| && forall i :: 0 <= i < |list| ==> long[i] == list[i]
  }

  /** Encoding and decoding a column are inverse, whatever run is pending. */
  lemma {:induction false} RoundTrip(list: seq<int>, long: seq<int>, col: seq<int>, pend: nat, eob: int, room: nat)
    requires |list| > 0 && Extends(long, list) && eob == |list| + 1
    requires forall i :: 0 <= i < |col| ==> col[i] in list
    requires pend + |col| <= room < 0x10_0000
    ensures Decode(long, Encode(list, col, pend) + [eob], eob, room) == Some(Copies(list[0], pend) + col)
    decreases |col|
  {
    if col == [] {
      assert long[0] == list[0];
      AfterRun(list[0], long, pend, [eob], [], eob, room);
    } else if col[0] == list[0] {
      RoundTrip(list, long, col[1..], pend + 1, eob, room);
      CopiesStep(list[0], pend, col[1..]);
      assert col == [list[0]] + col[1..];
    } else {
      RoundTripOther(list, long, col, pend, eob, room);
    }
  }

  /** A run, if any, in front of symbols that decode to rest. */
  lemma AfterRun(v: int, long: seq<int>, pend: nat, syms: seq<int>, rest: seq<int>, eob: int, room: nat)
    requires |long| > 0 && long[0] == v && pend <= room < 0x10_0000 && eob >= 2
    requires |syms| > 0 && syms[0] >= 2 && Decode(long, syms, eob, room - pend) == Some(rest)
    ensures Decode(long, RunCode(pend) + syms, eob, room) == Some(Copies(v, pend) + rest)
  {
    hide Decode;
    if pend > 0 {
      DecodeRun(long, pend, syms, eob, room);
    } else {
      assert RunCode(pend) + syms == syms && Copies(v, pend) + rest == rest;
    }
  }

  lemma RoundTripOther(list: seq<int>, long: seq<int>, col: seq<int>, pend: nat, eob: int, room: nat)
    requires |list| > 0 && Extends(long, list) && eob == |list| + 1
    requires forall i :: 0 <= i < |col| ==> col[i] in list
    requires pend + |col| <= room < 0x10_0000
    requires |col| > 0 && col[0] != list[0]
    ensures Decode(long, Encode(list, col, pend) + [eob], eob, room) == Some(Copies(list[0], pend) + col)
    decreases |col|, 0
  {
    var k := IndexOf(list, col[0]);
    forall v ensures v in list <==> v in Front(list, k) { FrontSame(list, k, v); }
    RoundTrip(Front(list, k), Front(long, k), col[1..], 0, eob, room - pend - 1);
    OtherStep(list, long, col, pend, k, eob, room);
  }

  lemma OtherStep(list: seq<int>, long: seq<int>, col: seq<int>, pend: nat, k: nat, eob: int, room: nat)
    requires |list| > 0 && Extends(long, list) && eob == |list| + 1
    requires forall i :: 0 <= i < |col| ==> col[i] in list
    requires pend + |col| <= room < 0x10_0000
    requires |col| > 0 && col[0] != list[0] && k == IndexOf(list, col[0])
    requires forall i :: 0 <= i < |col| ==> col[i] in Front(list, k)
    requires Decode(Front(long, k), Encode(Front(list, k), col[1..], 0) + [eob], eob, room - pend - 1) == Some(Copies(Front(list, k)[0], 0) + col[1..])
    ensures Decode(long, Encode(list, col, pend) + [eob], eob, room) == Some(Copies(list[0], pend) + col)
  {
    hide RunCode, IndexOf, Encode, Decode;
    var rest := Encode(Front(list, k), col[1..], 0) + [eob];
    var syms := [k + 1] + rest;
    assert Copies(Front(list, k)[0], 0) + col[1..] == col[1..];
    DecodeOther(long, k, rest, col[1..], eob, room - pend);
    assert [long[k]] + col[1..] == col;
    AfterRun(list[0], long, pend, syms, col, eob, room);
    EncodeOther(list, col, pend, k);
    assert Encode(list, col, pend) + [eob] == RunCode(pend) + syms;
  }

  lemma DecodeOther(long: seq<int>, k: nat, syms: seq<int>, rest: seq<int>, eob: int, room: nat)
    requires 1 <= k < |long| && k + 1 != eob && room > 0
    requires Decode(Front(long, k), syms, eob, room - 1) == Some(rest)
    ensures Decode(long, [k + 1] + syms, eob, room) == Some([long[k]] + rest)
  {
    assert ([k + 1] + syms)[1..] == syms;
  }

  lemma EncodeOther(list: seq<int>, col: seq<int>, pend: nat, k: nat)
    requires |list| > 0 && (forall i :: 0 <= i < |col| ==> col[i] in list)
    requires |col| > 0 && col[0] != list[0] && k == IndexOf(list, col[0])
    requires forall i :: 0 <= i < |col| ==> col[i] in Front(list, k)
    ensures Encode(list, col, pend) == RunCode(pend) + [k + 1] + Encode(Front(list, k), col[1..], 0)
  {
  }
}

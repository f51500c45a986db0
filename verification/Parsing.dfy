/** What reading from a bit string can yield, and where pieces stand in it. */
module Parsing {
  import opened Bits

  /** A value and the position after it, or too little input, or a data error; or data that would make
      the source store outside its selector arrays. */
  datatype Parse<+T> = Got(value: T, pos: nat) | Starved | Bad | Overrun

  datatype Status = OK | NEED_INPUT | DATA_ERROR | OVERRUN

  /** A reader returned status, with value v at position pos, exactly as the format says. */
  ghost predicate Agrees<T>(st: Status, v: T, pos: nat, p: Parse<T>) {
    match p
    case Got(x, q) => st == OK && v == x && pos == q
    case Starved => st == NEED_INPUT
    case Bad => st == DATA_ERROR
    case Overrun => st == OVERRUN
  }

  /** The same, but bad data may be noticed before the input runs out. */
  ghost predicate AgreesEarly<T>(st: Status, v: T, pos: nat, p: Parse<T>) {
    Agrees(st, v, pos, p) || (p.Starved? && st == DATA_ERROR)
  }

  function ReadBits(bits: seq<bool>, pos: nat, n: nat): (r: Parse<nat>)
    ensures !r.Overrun?
  {
    if pos + n <= |bits| then Got(ToNat(bits[pos..pos + n]), pos + n) else Starved
  }

  /** The bits of w stand at position pos. */
  ghost predicate Stands(bits: seq<bool>, pos: nat, w: seq<bool>) {
    pos + |w| <= |bits| && bits[pos..pos + |w|] == w
  }

  lemma StandsSplit(bits: seq<bool>, pos: nat, u: seq<bool>, v: seq<bool>)
    ensures Stands(bits, pos, u + v) <==> Stands(bits, pos, u) && Stands(bits, pos + |u|, v)
  {
    var w := u + v;
    if Stands(bits, pos, w) {
      assert bits[pos..pos + |u|] == bits[pos..pos + |w|][..|u|] == w[..|u|] == u;
      assert bits[pos + |u|..pos + |w|] == bits[pos..pos + |w|][|u|..] == w[|u|..] == v;
    }
    if Stands(bits, pos, u) && Stands(bits, pos + |u|, v) {
      assert bits[pos..pos + |w|] == bits[pos..pos + |u|] + bits[pos + |u|..pos + |w|];
    }
  }
}

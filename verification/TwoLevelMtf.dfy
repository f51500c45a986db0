/** The decoder's move-to-front list: sixteen windows of sixteen that slide down a 4096-byte arena,
    repacked at the top when the first one reaches the bottom. */
module TwoLevelMtf {
  import opened MoveToFront

  const MTFA_SIZE: int := 4096
  const MTFL_SIZE: int := 16

  /** The list cut into sixteen rows. */
  ghost function Rows(list: seq<int>): (rows: seq<seq<int>>)
    requires |list| == 256
    ensures IsGrid(rows)
    ensures forall w, o :: 0 <= w < 16 && 0 <= o < 16 ==> rows[w][o] == list[16 * w + o]
  {
    seq(16, w requires 0 <= w < 16 => list[16 * w..16 * w + 16])
  }

  ghost predicate IsGrid(rows: seq<seq<int>>) {
    |rows| == 16 && forall w :: 0 <= w < 16 ==> |rows[w]| == 16
  }

  /** The windows are in order, disjoint and inside the arena. */
  ghost predicate InOrder(base: seq<int>) {
    && |base| == 16 && (forall w :: 0 <= w < 16 ==> 0 <= base[w] && base[w] + 16 <= MTFA_SIZE)
    && forall v, w :: 0 <= v < w < 16 ==> base[v] + 16 <= base[w]
  }

  /** The n cells of the arena from lo on. */
  ghost function Win(a: seq<int>, lo: int, n: int): (r: seq<int>)
    requires 0 <= lo && 0 <= n && lo + n <= |a|
    ensures |r| == n && forall i :: 0 <= i < n ==> r[i] == a[lo + i]
  {
    a[lo..lo + n]
  }

  ghost predicate Holds(a: seq<int>, base: seq<int>, rows: seq<seq<int>>) {
    && |a| == MTFA_SIZE && IsGrid(rows) && InOrder(base)
    && forall w :: 0 <= w < 16 ==> Win(a, base[w], 16) == rows[w]
  }

  /** new is old with entry (top, off) moved to the front of everything. */
  ghost predicate Moved(old_: seq<seq<int>>, new_: seq<seq<int>>, top: int, off: int) {
    && IsGrid(old_) && IsGrid(new_) && 0 <= top < 16 && 0 <= off < 16
    && (forall w :: top < w < 16 ==> new_[w] == old_[w])
    && new_[top][1..] == old_[top][..off] + old_[top][off + 1..]
    && (forall w :: 0 <= w < top ==> new_[w][1..] == old_[w][..15])
    && (forall w :: 0 < w <= top ==> new_[w][0] == old_[w - 1][15])
    && new_[0][0] == old_[top][off]
  }

  lemma RowAt(list: seq<int>, w: int, o: int)
    requires |list| == 256 && 0 <= w < 16 && 0 <= o < 16
    ensures Rows(list)[w][o] == list[16 * w + o]
  {
  }

  lemma FrontAt(list: seq<int>, k: nat, i: int)
    requires k < |list| && 0 <= i < |list|
    ensures Front(list, k)[i] == if i == 0 then list[k] else if i <= k then list[i - 1] else list[i]
  {
  }

  lemma MovedIsFront(list: seq<int>, top: int, off: int)
    requires |list| == 256 && 0 <= top < 16 && 0 <= off < 16
    ensures Moved(Rows(list), Rows(Front(list, 16 * top + off)), top, off)
  {
    var nn := 16 * top + off;
    var f := Front(list, nn);
    var old_, new_ := Rows(list), Rows(f);
    hide Rows, Front, Moved;
    forall w, o {:trigger new_[w][o]} | 0 <= w < 16 && 0 <= o < 16
      ensures new_[w][o] == if w > top || (w == top && o > off) then old_[w][o]
                            else if o > 0 then old_[w][o - 1]
                            else if w > 0 then old_[w - 1][15] else old_[top][off]
    {
      MovedEntry(list, top, off, w, o);
    }
    EntriesMoved(old_, new_, top, off);
  }

  lemma EntriesMoved(old_: seq<seq<int>>, new_: seq<seq<int>>, top: int, off: int)
    requires IsGrid(old_) && IsGrid(new_) && 0 <= top < 16 && 0 <= off < 16
    requires forall w, o {:trigger new_[w][o]} :: 0 <= w < 16 && 0 <= o < 16 ==>
               new_[w][o] == if w > top || (w == top && o > off) then old_[w][o]
                             else if o > 0 then old_[w][o - 1]
                             else if w > 0 then old_[w - 1][15] else old_[top][off]
    ensures Moved(old_, new_, top, off)
  {
    forall w | top < w < 16 ensures new_[w] == old_[w] { SameRow(new_[w], old_[w]); }
    forall w | 0 <= w < top ensures new_[w][1..] == old_[w][..15] { ShiftRow(new_[w], old_[w]); }
    CutRow(new_[top], old_[top], off);
  }

  lemma SameRow(n: seq<int>, o: seq<int>)
    requires |n| == |o| == 16 && forall i :: 0 <= i < 16 ==> n[i] == o[i]
    ensures n == o
  {
  }

  lemma ShiftRow(n: seq<int>, o: seq<int>)
    requires |n| == |o| == 16 && forall i {:trigger n[i]} :: 1 <= i < 16 ==> n[i] == o[i - 1]
    ensures n[1..] == o[..15]
  {
    var l, r := n[1..], o[..15];
    forall i | 0 <= i < 15 ensures l[i] == r[i] { assert l[i] == n[i + 1]; }
  }

  lemma CutRow(n: seq<int>, o: seq<int>, off: nat)
    requires |n| == |o| == 16 && off < 16 && forall i {:trigger n[i]} :: 1 <= i < 16 ==> n[i] == if i > off then o[i] else o[i - 1]
    ensures n[1..] == o[..off] + o[off + 1..]
  {
    var l, r := n[1..], o[..off] + o[off + 1..];
    forall i | 0 <= i < 15 ensures l[i] == r[i] {
      assert l[i] == n[i + 1];
      assert r[i] == if i < off then o[i] else o[i + 1];
    }
  }

  lemma MovedEntry(list: seq<int>, top: int, off: int, w: int, o: int)
    requires |list| == 256 && 0 <= top < 16 && 0 <= off < 16 && 0 <= w < 16 && 0 <= o < 16
    ensures var old_, new_ := Rows(list), Rows(Front(list, 16 * top + off));
            new_[w][o] == if w > top || (w == top && o > off) then old_[w][o]
                          else if o > 0 then old_[w][o - 1]
                          else if w > 0 then old_[w - 1][15] else old_[top][off]
  {
    var nn, k := 16 * top + off, 16 * w + o;
    var f := Front(list, nn);
    FrontAt(list, nn, k);
    hide Rows, Front;
    RowAt(f, w, o);
    RowAt(list, w, o);
    RowAt(list, top, off);
    if o > 0 { RowAt(list, w, o - 1); } else if w > 0 { RowAt(list, w - 1, 15); }
  }

  /** Part-way down the cascade: rows above l are new, row l still lacks its first entry, rows below
      are old, and the free cell for row l is just under its window. */
  ghost predicate Gapped(base: seq<int>, l: int) {
    && |base| == 16 && (forall w :: 0 <= w < 16 ==> 1 <= base[w] && base[w] + (if w == l then 15 else 16) <= MTFA_SIZE)
    && (forall v, w :: 0 <= v < w < 16 ==> base[v] + (if v == l then 15 else 16) <= base[w])
  }

  ghost predicate Cascading(a: seq<int>, base: seq<int>, old_: seq<seq<int>>, new_: seq<seq<int>>, l: int) {
    && |a| == MTFA_SIZE && IsGrid(old_) && IsGrid(new_) && 0 <= l < 16
    && Gapped(base, l)
    && (forall w :: l < w < 16 ==> Win(a, base[w], 16) == new_[w])
    && Win(a, base[l], 15) == new_[l][1..]
    && (forall w :: 0 <= w < l ==> Win(a, base[w], 16) == old_[w])
  }

  lemma WinKeep(a: seq<int>, x: int, v: int, lo: int, n: int)
    requires 0 <= lo && 0 <= n && lo + n <= |a| && 0 <= x < |a| && !(lo <= x < lo + n)
    ensures Win(a[x := v], lo, n) == Win(a, lo, n)
  {
  }

  lemma WinPush(a: seq<int>, v: int, lo: int, n: int)
    requires 0 < lo && 0 <= n && lo + n <= |a|
    ensures Win(a[lo - 1 := v], lo - 1, n + 1) == [v] + Win(a, lo, n)
  {
  }

  lemma WinTake(a: seq<int>, lo: int)
    requires 0 <= lo && lo + 16 <= |a|
    ensures Win(a, lo, 15) == Win(a, lo, 16)[..15]
  {
  }

  lemma HeadTail(s: seq<int>)
    requires |s| > 0
    ensures [s[0]] + s[1..] == s
  {
  }

  lemma CascadeStep(a: seq<int>, base: seq<int>, old_: seq<seq<int>>, new_: seq<seq<int>>, l: int, top: int, off: int)
    requires Cascading(a, base, old_, new_, l) && 0 < l <= top && Moved(old_, new_, top, off)
    ensures 0 <= base[l - 1] + 15 < |a| && 0 <= base[l] - 1 < |a|
    ensures Cascading(a[base[l] - 1 := a[base[l - 1] + 15]], base[l := base[l] - 1], old_, new_, l - 1)
  {
    hide Win, Gapped, Moved;
    GappedStep(base, l);
    var v := a[base[l - 1] + 15];
    MovedHead(old_, new_, top, off, l);
    assert v == Win(a, base[l - 1], 16)[15];
    WinPush(a, v, base[l], 15);
    HeadTail(new_[l]);
    forall w | l < w < 16 ensures Win(a[base[l] - 1 := v], base[w], 16) == new_[w] { WinKeep(a, base[l] - 1, v, base[w], 16); }
    WinKeep(a, base[l] - 1, v, base[l - 1], 15);
    WinTake(a, base[l - 1]);
    forall w | 0 <= w < l - 1 ensures Win(a[base[l] - 1 := v], base[w], 16) == old_[w] { WinKeep(a, base[l] - 1, v, base[w], 16); }
  }

  lemma GappedStep(base: seq<int>, l: int)
    requires Gapped(base, l) && 0 < l < 16
    ensures |base| == 16 && Gapped(base[l := base[l] - 1], l - 1)
    ensures (forall w :: 0 <= w < 16 && w != l ==> 0 <= base[w] && base[w] + 16 <= MTFA_SIZE) && 0 < base[l] && base[l] + 15 <= MTFA_SIZE
    ensures base[l - 1] + 16 <= base[l] && (forall w :: 0 <= w < l - 1 ==> base[w] + 16 < base[l]) && forall w :: l < w < 16 ==> base[l] <= base[w]
  {
    var b := base[l := base[l] - 1];
    assert base[l - 1] + 16 <= base[l];
    forall v | 0 <= v < l - 1 ensures base[v] + 16 < base[l] { assert base[v] + 16 <= base[l - 1]; }
    forall v, w | 0 <= v < w < 16 ensures b[v] + (if v == l - 1 then 15 else 16) <= b[w] {
      assert base[v] + (if v == l then 15 else 16) <= base[w];
    }
  }

  lemma MovedHead(old_: seq<seq<int>>, new_: seq<seq<int>>, top: int, off: int, l: int)
    requires Moved(old_, new_, top, off) && 0 < l <= top
    ensures IsGrid(old_) && IsGrid(new_) && top < 16 && new_[l][0] == old_[l - 1][15] && new_[l - 1][1..] == old_[l - 1][..15]
  {
  }

  lemma CascadeEnd(a: seq<int>, base: seq<int>, old_: seq<seq<int>>, new_: seq<seq<int>>, top: int, off: int)
    requires Cascading(a, base, old_, new_, 0) && Moved(old_, new_, top, off)
    ensures 0 <= base[0] - 1 < |a|
    ensures Holds(a[base[0] - 1 := old_[top][off]], base[0 := base[0] - 1], new_)
  {
    var v := old_[top][off];
    WinPush(a, v, base[0], 15);
    assert [new_[0][0]] + new_[0][1..] == new_[0];
    forall w | 0 < w < 16 ensures Win(a[base[0] - 1 := v], base[w], 16) == new_[w] {
      WinKeep(a, base[0] - 1, v, base[w], 16);
    }
  }

  /** b is a with cells lo..hi-1 moved up by one, cell lo being left to be filled. */
  ghost predicate ShiftedUp(a: seq<int>, b: seq<int>, lo: int, hi: int) {
    && |b| == |a| && 0 <= lo <= hi < |a|
    && (forall x {:trigger b[x]} :: 0 <= x < |a| && !(lo <= x <= hi) ==> b[x] == a[x])
    && b[lo + 1..hi + 1] == a[lo..hi]
  }

  lemma ShiftedWindow(a: seq<int>, b: seq<int>, lo: int, off: int)
    requires 0 <= off < 16 && 0 <= lo && lo + 16 <= |a| && ShiftedUp(a, b, lo, lo + off)
    ensures Win(b, lo + 1, 15) == Win(a, lo, 16)[..off] + Win(a, lo, 16)[off + 1..]
  {
    var l, r := Win(b, lo + 1, 15), Win(a, lo, 16)[..off] + Win(a, lo, 16)[off + 1..];
    forall i | 0 <= i < 15 ensures l[i] == r[i] {
      if i < off { assert b[lo + 1..lo + off + 1][i] == a[lo..lo + off][i]; }
    }
  }

  lemma ShiftedElsewhere(a: seq<int>, b: seq<int>, lo: int, hi: int, p: int, n: int)
    requires ShiftedUp(a, b, lo, hi) && 0 <= p && 0 <= n && p + n <= |a| && (p + n <= lo || hi < p)
    ensures Win(b, p, n) == Win(a, p, n)
  {
  }

  lemma CascadeStart(a: seq<int>, b: seq<int>, base: seq<int>, old_: seq<seq<int>>, new_: seq<seq<int>>, top: int, off: int)
    requires Holds(a, base, old_) && Moved(old_, new_, top, off) && 0 <= top < 16 == |base| && base[0] >= 1
    requires ShiftedUp(a, b, base[top], base[top] + off)
    ensures Cascading(b, base[top := base[top] + 1], old_, new_, top)
  {
    hide ShiftedUp, InOrder, Gapped, Win, Moved;
    ShiftedSize(a, b, base[top], base[top] + off);
    GappedStart(base, top);
    MovedRow(old_, new_, top, off);
    ShiftedWindow(a, b, base[top], off);
    forall w | 0 <= w < 16 && w != top ensures Win(b, base[w], 16) == old_[w] {
      ShiftedElsewhere(a, b, base[top], base[top] + off, base[w], 16);
    }
  }

  lemma MovedRow(old_: seq<seq<int>>, new_: seq<seq<int>>, top: int, off: int)
    requires Moved(old_, new_, top, off)
    ensures IsGrid(old_) && IsGrid(new_) && 0 <= top < 16 && 0 <= off < 16
    ensures new_[top][1..] == old_[top][..off] + old_[top][off + 1..] && forall w :: top < w < 16 ==> new_[w] == old_[w]
  {
  }

  lemma GappedStart(base: seq<int>, top: int)
    requires InOrder(base) && 0 <= top < 16 && base[0] >= 1
    ensures Gapped(base[top := base[top] + 1], top) && forall w :: 0 <= w < 16 ==> 0 <= base[w] && base[w] + 16 <= MTFA_SIZE
    ensures forall w :: 0 <= w < 16 && w != top ==> base[w] + 16 <= base[top] || base[top] + 16 <= base[w]
  {
    forall w | 0 < w < 16 ensures base[w] >= 1 { assert base[0] + 16 <= base[w]; }
  }

  lemma ShiftedSize(a: seq<int>, b: seq<int>, lo: int, hi: int)
    requires ShiftedUp(a, b, lo, hi)
    ensures |b| == |a|
  {
  }

  lemma FirstRow(a: seq<int>, b: seq<int>, base: seq<int>, old_: seq<seq<int>>, new_: seq<seq<int>>, off: int)
    requires Holds(a, base, old_) && Moved(old_, new_, 0, off)
    requires ShiftedUp(a, b, base[0], base[0] + off)
    ensures Holds(b[base[0] := old_[0][off]], base, new_)
  {
    hide ShiftedUp;
    ShiftedSize(a, b, base[0], base[0] + off);
    var v := old_[0][off];
    ShiftedWindow(a, b, base[0], off);
    WinPush(b, v, base[0] + 1, 15);
    assert [new_[0][0]] + new_[0][1..] == new_[0];
    forall w | 0 < w < 16 ensures Win(b[base[0] := v], base[w], 16) == new_[w] {
      assert base[0] + 16 <= base[w];
      ShiftedElsewhere(a, b, base[0], base[0] + off, base[w], 16);
      WinKeep(b, base[0], v, base[w], 16);
    }
  }

  lemma ShiftedFrom(a: seq<int>, b: seq<int>, lo: int, hi: int)
    requires |b| == |a| && 0 <= lo <= hi < |a|
    requires forall x {:trigger b[x]} :: 0 <= x < |a| && x != lo ==> b[x] == if lo < x <= hi then a[x - 1] else a[x]
    ensures ShiftedUp(a, b, lo, hi)
  {
    forall i | 0 <= i < hi - lo ensures b[lo + 1..hi + 1][i] == a[lo..hi][i] {
      assert b[lo + 1 + i] == a[lo + i];
    }
    assert b[lo + 1..hi + 1] == a[lo..hi];
  }

  lemma WinSame(a: seq<int>, p: int, b: seq<int>, q: int, n: int)
    requires 0 <= n && 0 <= p && p + n <= |a| && 0 <= q && q + n <= |b|
    requires forall i :: 0 <= i < n ==> Win(a, p, n)[i] == Win(b, q, n)[i]
    ensures Win(a, p, n) == Win(b, q, n)
  {
  }

  /** Sixteen windows packed at the top of the arena cannot start above this. */
  lemma {:induction false} TopPlace(base: seq<int>, w: int)
    requires InOrder(base) && 0 <= w < 16
    ensures base[w] <= 3840 + 16 * w
    decreases 16 - w
  {
    if w < 15 { TopPlace(base, w + 1); }
  }

  ghost predicate Repacking(a: seq<int>, base: seq<int>, base0: seq<int>, rows: seq<seq<int>>, ii: int) {
    && |a| == MTFA_SIZE && IsGrid(rows) && InOrder(base0) && |base| == 16 && -1 <= ii < 16
    && (forall w :: ii < w < 16 ==> base[w] == 3840 + 16 * w && Win(a, 3840 + 16 * w, 16) == rows[w])
    && (forall w :: 0 <= w <= ii ==> base[w] == base0[w] && Win(a, base0[w], 16) == rows[w])
  }

  lemma RepackStart(a: seq<int>, base: seq<int>, rows: seq<seq<int>>)
    requires Holds(a, base, rows)
    ensures Repacking(a, base, base, rows, 15)
  {
  }

  lemma RepackEnd(a: seq<int>, base: seq<int>, base0: seq<int>, rows: seq<seq<int>>)
    requires Repacking(a, base, base0, rows, -1)
    ensures Holds(a, base, rows) && base[0] == 3840
  {
  }

  /** The arena after the last jj cells of row ii have been copied up. */
  ghost predicate RowCopying(a: seq<int>, b: seq<int>, src: int, dst: int, jj: int) {
    && |b| == |a| && 0 <= src <= dst && dst + 16 <= |a| && -1 <= jj < 16
    && forall x {:trigger b[x]} :: 0 <= x < |a| ==> b[x] == if dst + jj < x < dst + 16 then a[src + (x - dst)] else a[x]
  }

  lemma RowCopied(a: seq<int>, b: seq<int>, base: seq<int>, base0: seq<int>, rows: seq<seq<int>>, ii: int)
    requires Repacking(a, base, base0, rows, ii) && 0 <= ii
    requires RowCopying(a, b, base0[ii], 3840 + 16 * ii, -1)
    ensures Repacking(b, base[ii := 3840 + 16 * ii], base0, rows, ii - 1)
  {
    var dst := 3840 + 16 * ii;
    forall i | 0 <= i < 16 ensures Win(b, dst, 16)[i] == Win(a, base0[ii], 16)[i] {
      assert b[dst + i] == a[base0[ii] + (dst + i - dst)];
    }
    WinSame(b, dst, a, base0[ii], 16);
    forall w | ii < w < 16 ensures Win(b, 3840 + 16 * w, 16) == rows[w] {
      var p := 3840 + 16 * w;
      forall i | 0 <= i < 16 ensures Win(b, p, 16)[i] == Win(a, p, 16)[i] {
        assert b[p + i] == a[p + i];
      }
      WinSame(b, p, a, p, 16);
    }
    forall w | 0 <= w < ii ensures Win(b, base0[w], 16) == rows[w] {
      assert base0[w] + 16 <= base0[ii];
      WinSame(b, base0[w], a, base0[w], 16);
    }
  }

  lemma HeldAt(a: seq<int>, base: seq<int>, rows: seq<seq<int>>, w: int, o: int)
    requires Holds(a, base, rows) && 0 <= w < 16 && 0 <= o < 16
    ensures |a| == MTFA_SIZE && |base| == 16 && 0 <= base[w] && base[w] + 16 <= |a| && IsGrid(rows)
    ensures a[base[w] + o] == rows[w][o]
  {
    assert Win(a, base[w], 16)[o] == rows[w][o];
  }

  /** The cells above pp+nn have moved up. */
  ghost predicate Shifting(s: seq<int>, a: seq<int>, pp: int, n: int, nn: int) {
    && 0 <= pp && 0 <= nn <= n && pp + n < |s| == |a|
    && forall x {:trigger a[x]} :: 0 <= x < |s| ==> a[x] == if pp + nn < x <= pp + n then s[x - 1] else s[x]
  }

  lemma ShiftingStart(s: seq<int>, pp: int, n: int)
    requires 0 <= pp && 0 <= n && pp + n < |s|
    ensures Shifting(s, s, pp, n, n)
  {
  }

  lemma ShiftingOne(s: seq<int>, a: seq<int>, b: seq<int>, pp: int, n: int, nn: int)
    requires 0 <= nn && Shifting(s, a, pp, n, nn + 1) && pp + nn + 1 < |a| && b == a[pp + nn + 1 := a[pp + nn]]
    ensures Shifting(s, b, pp, n, nn)
  {
  }

  lemma ShiftingFour(s: seq<int>, a: seq<int>, b: seq<int>, pp: int, n: int, nn: int)
    requires 0 <= nn && Shifting(s, a, pp, n, nn + 4) && |b| == |a| && pp + nn + 4 < |a| && 0 <= pp
    requires forall x {:trigger b[x]} :: 0 <= x < |a| ==> b[x] == if pp + nn < x <= pp + nn + 4 then a[x - 1] else a[x]
    ensures Shifting(s, b, pp, n, nn)
  {
  }

  lemma ShiftingEnd(s: seq<int>, a: seq<int>, pp: int, n: int)
    requires Shifting(s, a, pp, n, 0)
    ensures ShiftedUp(s, a, pp, pp + n)
  {
    ShiftedFrom(s, a, pp, pp + n);
  }

  class MtfList {
    const mtfa: array<int>
    const mtfbase: array<int>
    ghost var list: seq<int>

    ghost predicate Valid()
      reads this, mtfa, mtfbase
    {
      && mtfa != mtfbase && mtfa.Length == MTFA_SIZE && mtfbase.Length == 16 && |list| == 256
      && Holds(mtfa[..], mtfbase[..], Rows(list))
      && mtfbase[0] >= 1
    }

    constructor ()
      ensures Valid() && fresh(mtfa) && fresh(mtfbase)
      ensures list == seq(256, k => k)
    {
      mtfa := new int[MTFA_SIZE];
      mtfbase := new int[16];
      new;
      var kk := MTFA_SIZE - 1;
      var ii := 15;
      while ii >= 0
        invariant -1 <= ii < 16 && kk == 3840 + 16 * ii + 15
        invariant forall w :: ii < w < 16 ==> mtfbase[w] == 3840 + 16 * w
        invariant forall x :: kk < x < MTFA_SIZE ==> mtfa[x] == x - 3840
      {
        var jj := MTFL_SIZE - 1;
        while jj >= 0
          invariant -1 <= jj < 16 && kk == 3840 + 16 * ii + jj
          invariant forall w :: ii < w < 16 ==> mtfbase[w] == 3840 + 16 * w
          invariant forall x :: kk < x < MTFA_SIZE ==> mtfa[x] == x - 3840
        {
          mtfa[kk] := ii * MTFL_SIZE + jj;
          kk := kk - 1;
          jj := jj - 1;
        }
        mtfbase[ii] := kk + 1;
        ii := ii - 1;
      }
      list := seq(256, k => k);
      forall w | 0 <= w < 16 ensures Win(mtfa[..], mtfbase[w], 16) == Rows(list)[w] { }
    }

    method Head() returns (v: int)
      requires Valid()
      ensures v == list[0]
    {
      v := mtfa[mtfbase[0]];
      assert v == Win(mtfa[..], mtfbase[..][0], 16)[0] == Rows(list)[0][0];
    }

    /** Moves cells pp..pp+n-1 up by one, four at a time while it can. */
    method ShiftFast(pp: int, n: int)
      requires mtfa.Length == MTFA_SIZE && 0 <= pp && 0 <= n && pp + n < MTFA_SIZE
      modifies mtfa
      ensures ShiftedUp(old(mtfa[..]), mtfa[..], pp, pp + n)
    {
      hide ShiftedUp, Shifting;
      ghost var s := mtfa[..];
      var nn := n;
      ShiftingStart(s, pp, n);
      while nn > 3
        invariant 0 <= nn <= n && Shifting(s, mtfa[..], pp, n, nn)
      {
        ghost var a := mtfa[..];
        var z := pp + nn;
        mtfa[z] := mtfa[z - 1];
        mtfa[z - 1] := mtfa[z - 2];
        mtfa[z - 2] := mtfa[z - 3];
        mtfa[z - 3] := mtfa[z - 4];
        nn := nn - 4;
        ShiftingFour(s, a, mtfa[..], pp, n, nn);
      }
      while nn > 0
        invariant 0 <= nn <= n && Shifting(s, mtfa[..], pp, n, nn)
      {
        ghost var a := mtfa[..];
        mtfa[pp + nn] := mtfa[pp + nn - 1];
        nn := nn - 1;
        ShiftingOne(s, a, mtfa[..], pp, n, nn);
      }
      ShiftingEnd(s, mtfa[..], pp, n);
    }

    method ShiftSlow(lo: int, hi: int)
      requires mtfa.Length == MTFA_SIZE && 0 <= lo <= hi < MTFA_SIZE
      modifies mtfa
      ensures ShiftedUp(old(mtfa[..]), mtfa[..], lo, hi)
    {
      ghost var s := mtfa[..];
      var pp := hi;
      while pp > lo
        invariant lo <= pp <= hi
        invariant forall x {:trigger mtfa[x]} :: 0 <= x < MTFA_SIZE ==> mtfa[x] == if pp < x <= hi then s[x - 1] else s[x]
      {
        mtfa[pp] := mtfa[pp - 1];
        pp := pp - 1;
      }
      ShiftedFrom(s, mtfa[..], lo, hi);
    }

    /** Copies every window to the top of the arena, right to left and in place. */
    method Repack(ghost rows: seq<seq<int>>)
      requires mtfa != mtfbase && mtfa.Length == MTFA_SIZE && mtfbase.Length == 16
      requires Holds(mtfa[..], mtfbase[..], rows)
      modifies mtfa, mtfbase
      ensures Holds(mtfa[..], mtfbase[..], rows) && mtfbase[0] == 3840
    {
      ghost var base0 := mtfbase[..];
      RepackStart(mtfa[..], base0, rows);
      hide Holds, Repacking, RowCopying;
      var kk := MTFA_SIZE - 1;
      var ii := 15;
      while ii >= 0
        invariant -1 <= ii < 16 && kk == 3840 + 16 * ii + 15 && mtfa.Length == MTFA_SIZE
        invariant Repacking(mtfa[..], mtfbase[..], base0, rows, ii)
      {
        ghost var a, base := mtfa[..], mtfbase[..];
        CopyRow(ii, kk, base0, rows);
        kk := kk - 16;
        mtfbase[ii] := kk + 1;
        RowCopied(a, mtfa[..], base, base0, rows, ii);
        assert mtfbase[..] == base[ii := 3840 + 16 * ii];
        ii := ii - 1;
      }
      RepackEnd(mtfa[..], mtfbase[..], base0, rows);
    }

    method CopyRow(ii: int, kk0: int, ghost base0: seq<int>, ghost rows: seq<seq<int>>)
      requires mtfa != mtfbase && mtfa.Length == MTFA_SIZE && mtfbase.Length == 16 && 0 <= ii < 16 && kk0 == 3840 + 16 * ii + 15
      requires Repacking(mtfa[..], mtfbase[..], base0, rows, ii)
      modifies mtfa
      ensures RowCopying(old(mtfa[..]), mtfa[..], base0[ii], 3840 + 16 * ii, -1)
    {
      TopPlace(base0, ii);
      ghost var a := mtfa[..];
      assert mtfbase[..][ii] == base0[ii];
      var kk, jj := kk0, MTFL_SIZE - 1;
      while jj >= 0
        invariant -1 <= jj < 16 && kk == 3840 + 16 * ii + jj
        invariant RowCopying(a, mtfa[..], base0[ii], 3840 + 16 * ii, jj)
      {
        assert mtfa[..][mtfbase[ii] + jj] == a[base0[ii] + jj];
        mtfa[kk] := mtfa[mtfbase[ii] + jj];
        kk := kk - 1;
        jj := jj - 1;
      }
    }

    /** Takes entry nn of the list and moves it to the front. */
    method Take(nn: nat) returns (uc: int)
      requires Valid() && nn < 256
      modifies this, mtfa, mtfbase
      ensures Valid() && uc == old(list)[nn] && list == Front(old(list), nn)
    {
      hide Holds, Moved, Front, IsGrid;
      ghost var rows, rows' := Rows(list), Rows(Front(list, nn));
      if nn < MTFL_SIZE {
        MovedIsFront(list, 0, nn);
        uc := TakeNear(nn, rows, rows');
      } else {
        var lno, off := nn / MTFL_SIZE, nn % MTFL_SIZE;
        MovedIsFront(list, lno, off);
        uc := TakeFar(lno, off, rows, rows');
      }
      RowAt(list, nn / 16, nn % 16);
      list := Front(list, nn);
    }

    method TakeNear(nn: nat, ghost rows: seq<seq<int>>, ghost rows': seq<seq<int>>) returns (uc: int)
      requires mtfa != mtfbase && mtfa.Length == MTFA_SIZE && mtfbase.Length == 16 && nn < 16
      requires Holds(mtfa[..], mtfbase[..], rows) && Moved(rows, rows', 0, nn)
      modifies mtfa
      ensures Holds(mtfa[..], mtfbase[..], rows') && uc == rows[0][nn]
    {
      ghost var a, base := mtfa[..], mtfbase[..];
      var pp := mtfbase[0];
      assert pp == base[0] && Win(a, pp, 16) == rows[0];
      uc := mtfa[pp + nn];
      assert uc == Win(a, pp, 16)[nn];
      hide Holds, Moved, ShiftedUp, Win;
      ShiftFast(pp, nn);
      ghost var b := mtfa[..];
      FirstRow(a, b, base, rows, rows', nn);
      mtfa[pp] := uc;
      assert mtfa[..] == b[pp := uc];
    }

    /** Gives row lno the last entry of the row below it. */
    method PassDown(lno: int, ghost top: int, ghost off: int, ghost rows: seq<seq<int>>, ghost rows': seq<seq<int>>)
      requires mtfa != mtfbase && mtfa.Length == MTFA_SIZE && mtfbase.Length == 16
      requires Cascading(mtfa[..], mtfbase[..], rows, rows', lno) && 0 < lno <= top && Moved(rows, rows', top, off)
      modifies mtfa, mtfbase
      ensures Cascading(mtfa[..], mtfbase[..], rows, rows', lno - 1)
    {
      ghost var a, base := mtfa[..], mtfbase[..];
      CascadeStep(a, base, rows, rows', lno, top, off);
      assert lno < 16;
      hide Cascading, Moved;
      mtfbase[lno] := mtfbase[lno] - 1;
      mtfa[mtfbase[lno]] := mtfa[mtfbase[lno - 1] + MTFL_SIZE - 1];
      assert mtfa[..] == a[base[lno] - 1 := a[base[lno - 1] + 15]];
      assert mtfbase[..] == base[lno := base[lno] - 1];
    }

    /** Puts the entry taken in front of the first row. */
    method PutFirst(uc: int, ghost top: int, ghost off: int, ghost rows: seq<seq<int>>, ghost rows': seq<seq<int>>)
      requires mtfa != mtfbase && mtfa.Length == MTFA_SIZE && mtfbase.Length == 16
      requires Cascading(mtfa[..], mtfbase[..], rows, rows', 0) && Moved(rows, rows', top, off) && uc == rows[top][off]
      modifies mtfa, mtfbase
      ensures Holds(mtfa[..], mtfbase[..], rows')
    {
      ghost var a, base := mtfa[..], mtfbase[..];
      CascadeEnd(a, base, rows, rows', top, off);
      hide Cascading, Moved;
      mtfbase[0] := mtfbase[0] - 1;
      mtfa[mtfbase[0]] := uc;
      assert mtfa[..] == a[base[0] - 1 := uc];
      assert mtfbase[..] == base[0 := base[0] - 1];
    }

    method TakeFar(top: int, off: int, ghost rows: seq<seq<int>>, ghost rows': seq<seq<int>>) returns (uc: int)
      requires mtfa != mtfbase && mtfa.Length == MTFA_SIZE && mtfbase.Length == 16 && 0 < top < 16 && 0 <= off < 16
      requires Holds(mtfa[..], mtfbase[..], rows) && Moved(rows, rows', top, off) && mtfbase[0] >= 1
      modifies mtfa, mtfbase
      ensures Holds(mtfa[..], mtfbase[..], rows') && uc == rows[top][off] && mtfbase[0] >= 1
    {
      hide Holds, Moved, ShiftedUp, Win, Cascading;
      ghost var a, base := mtfa[..], mtfbase[..];
      HeldAt(a, base, rows, top, off);
      var pp := mtfbase[top] + off;
      assert mtfbase[top] == base[top];
      uc := mtfa[pp];
      assert uc == a[pp];
      ShiftSlow(mtfbase[top], pp);
      CascadeStart(a, mtfa[..], base, rows, rows', top, off);
      mtfbase[top] := mtfbase[top] + 1;
      assert mtfbase[..] == base[top := base[top] + 1];
      var lno := top;
      while lno > 0
        invariant 0 <= lno <= top
        invariant Cascading(mtfa[..], mtfbase[..], rows, rows', lno)
      {
        PassDown(lno, top, off, rows, rows');
        lno := lno - 1;
      }
      PutFirst(uc, top, off, rows, rows');
      HeldAt(mtfa[..], mtfbase[..], rows', 0, 0);
      assert mtfbase[0] == mtfbase[..][0];
      if mtfbase[0] == 0 { Repack(rows'); }
    }
  }
}

/** How the sender picks coding tables: an initial split of the alphabet, then four rounds of giving
    every fifty symbols their cheapest table and rebuilding the tables from what they were used for. */
module TableChoice {
  import opened Powers
  import opened CanonicalCodes
  import opened MoveToFront
  import opened MtfEncoder
  import opened Counting
  import opened HuffmanLengths
  import opened HuffmanOptimal
  import opened Wire
  import opened BlockFormat

  const LESSER_COST: int := 0
  const GREATER_COST: int := 15
  const ITERATIONS: nat := 4
  const MAX_LEN: int := 17

  // ---------- the initial tables ----------

  /** n rows of a entries in 0..20. */
  ghost predicate Rows(lens: seq<seq<int>>, n: nat, a: nat) {
    |lens| == n && forall t {:trigger lens[t]} :: 0 <= t < n ==> |lens[t]| == a && forall v :: 0 <= v < a ==> 0 <= lens[t][v] <= LONGEST
  }

  ghost function Sum(f: seq<int>, k: nat): int
    requires k <= |f|
  {
    if k == 0 then 0 else Sum(f, k - 1) + f[k - 1]
  }

  lemma {:induction false} SumMono(f: seq<int>, j: nat, k: nat)
    requires j <= k <= |f| && forall v :: 0 <= v < |f| ==> f[v] >= 0
    ensures 0 <= Sum(f, j) <= Sum(f, k)
    decreases k, j
  {
    if j < k { SumMono(f, j, k - 1); } else if j > 0 { SumMono(f, j - 1, j - 1); }
  }

  /** The counts of the symbols add up to at most their number. */
  lemma {:induction false} CountedSum(f: seq<int>, syms: seq<int>, k: nat)
    requires Counted(f, syms) && k <= |f|
    ensures Sum(f, k) == OccBelow(syms, k, |syms|)
  {
    if k > 0 {
      CountedSum(f, syms, k - 1);
      OccIsCount(syms, k - 1, |syms|);
      assert syms[..|syms|] == syms;
    }
  }

  lemma {:induction false} OccIsCount(syms: seq<int>, v: int, i: nat)
    requires i <= |syms|
    ensures Occ(syms, v, i) == multiset(syms[..i])[v]
  {
    if i > 0 {
      OccIsCount(syms, v, i - 1);
      assert syms[..i] == syms[..i - 1] + [syms[i - 1]];
    }
  }

  /** The symbols from gs to ge cost nothing, all others much. */
  ghost predicate RowFor(row: seq<int>, a: nat, gs: int, end: int) {
    |row| == a && forall v :: 0 <= v < a ==> row[v] == if gs <= v < end then LESSER_COST else GREATER_COST
  }

  method FillRow(alphaSize: nat, gs: int, ge: int) returns (row: seq<int>)
    ensures RowFor(row, alphaSize, gs, ge + 1)
  {
    var a := new int[alphaSize];
    for v := 0 to alphaSize
      invariant forall u :: 0 <= u < v ==> a[u] == if gs <= u <= ge then LESSER_COST else GREATER_COST
    {
      a[v] := if gs <= v <= ge then LESSER_COST else GREATER_COST;
    }
    row := a[..];
  }

  /** Range t of the alphabet belongs to table t from the end. */
  ghost predicate Part(lens: seq<seq<int>>, cuts: seq<nat>, a: nat, t: nat) {
    t + 1 < |cuts| && t < |lens| && cuts[t] <= cuts[t + 1] <= a && RowFor(lens[|lens| - 1 - t], a, cuts[t], cuts[t + 1])
  }

  /** The alphabet is cut into consecutive ranges, the first for the last table. */
  ghost predicate Parts(lens: seq<seq<int>>, cuts: seq<nat>, a: nat) {
    0 < |cuts| <= |lens| + 1 && cuts[0] == 0 && forall t: nat :: t + 1 < |cuts| ==> Part(lens, cuts, a, t)
  }

  /** The range has less than one part in n of what is left before its last symbol. */
  ghost predicate Share(f: seq<int>, lo: nat, hi: nat, n: int, total: int) {
    lo < hi <= |f| && n > 0 ==> Sum(f, hi - 1) - Sum(f, lo) < (total - Sum(f, lo)) / n
  }

  ghost predicate Shares(f: seq<int>, cuts: seq<nat>, n: nat, total: int) {
    forall t {:trigger cuts[t]} :: 0 <= t < |cuts| - 1 ==> Share(f, cuts[t], cuts[t + 1], n - t, total)
  }

  lemma PartsMore(lens: seq<seq<int>>, cuts: seq<nat>, a: nat, row: seq<int>, end: nat)
    requires Parts(lens, cuts, a) && |cuts| <= |lens| && cuts[|cuts| - 1] <= end <= a && RowFor(row, a, cuts[|cuts| - 1], end)
    ensures Parts(lens[|lens| - |cuts| := row], cuts + [end], a)
  {
    ghost var more := cuts + [end];
    ghost var rows := lens[|lens| - |cuts| := row];
    forall t: nat | t + 1 < |more| ensures Part(rows, more, a, t) {
      hide Parts, RowFor;
      if t + 1 < |cuts| { assert Part(lens, cuts, a, t); }
    }
  }

  lemma SharesMore(f: seq<int>, cuts: seq<nat>, n: nat, total: int, end: nat)
    requires Shares(f, cuts, n, total) && 0 < |cuts| && Share(f, cuts[|cuts| - 1], end, n + 1 - |cuts|, total)
    ensures Shares(f, cuts + [end], n, total)
  {
    hide Share;
    ghost var more := cuts + [end];
    forall t | 0 <= t < |more| - 1 ensures Share(f, more[t], more[t + 1], n - t, total) {
      if t < |cuts| - 1 { assert Share(f, cuts[t], cuts[t + 1], n - t, total); }
    }
  }

  lemma MakeShare(f: seq<int>, lo: nat, hi: nat, n: int, total: int)
    requires lo < hi <= |f| && n > 0 ==> Sum(f, hi - 1) - Sum(f, lo) < (total - Sum(f, lo)) / n
    ensures Share(f, lo, hi, n, total)
  {
  }

  /** One range: up to the first symbol that completes its share, or, for every other inner range, one less. */
  method NextRange(mtfFreq: seq<int>, alphaSize: nat, gs: nat, tFreq: int, shorten: bool) returns (ge: int, aFreq: int)
    requires gs <= alphaSize <= |mtfFreq| && forall v :: 0 <= v < |mtfFreq| ==> mtfFreq[v] >= 0
    ensures gs - 1 <= ge < alphaSize && aFreq == Sum(mtfFreq, ge + 1) - Sum(mtfFreq, gs)
    ensures gs <= ge ==> Sum(mtfFreq, ge) - Sum(mtfFreq, gs) < tFreq
    ensures !shorten ==> aFreq >= tFreq || ge == alphaSize - 1
  {
    ge, aFreq := gs - 1, 0;
    while aFreq < tFreq && ge < alphaSize - 1
      invariant gs - 1 <= ge < alphaSize && aFreq == Sum(mtfFreq, ge + 1) - Sum(mtfFreq, gs)
      invariant gs <= ge ==> Sum(mtfFreq, ge) - Sum(mtfFreq, gs) < tFreq
      decreases alphaSize - ge
    {
      ge := ge + 1;
      aFreq := aFreq + mtfFreq[ge];
    }
    if ge > gs && shorten {
      SumMono(mtfFreq, ge - 1, ge);
      aFreq := aFreq - mtfFreq[ge];
      ge := ge - 1;
    }
  }

  /** Splits the alphabet into runs of about equal frequency: consecutive ranges, one for each table, none
      of which has its share before its last symbol, and which leave out only symbols that do not occur.
      remF stays non-negative, so that the source's division of it truncates nothing. */
  method InitialTables(mtfFreq: seq<int>, alphaSize: nat, nMTF: nat, nGroups: nat) returns (lens: seq<seq<int>>, ghost cuts: seq<nat>)
    requires alphaSize <= |mtfFreq| && nGroups > 0 && (forall v :: 0 <= v < |mtfFreq| ==> mtfFreq[v] >= 0)
    requires Sum(mtfFreq, alphaSize) == nMTF
    ensures Rows(lens, nGroups, alphaSize) && |cuts| == nGroups + 1 && Parts(lens, cuts, alphaSize) && Shares(mtfFreq, cuts, nGroups, nMTF)
    ensures forall v :: cuts[nGroups] <= v < alphaSize ==> mtfFreq[v] == 0
  {
    hide Sum, RowFor, Parts, Share, Shares, Rows;
    lens := seq(nGroups, _ => Copies(GREATER_COST, alphaSize));
    cuts := [0];
    StartTables(lens, mtfFreq, nGroups, alphaSize, nMTF);
    var nPart, remF, gs := nGroups, nMTF, 0;
    while nPart > 0
      invariant 0 <= nPart <= nGroups && 0 <= gs <= alphaSize && |lens| == nGroups && |cuts| == nGroups - nPart + 1 && cuts[|cuts| - 1] == gs
      invariant remF == nMTF - Sum(mtfFreq, gs) && Rows(lens, nGroups, alphaSize)
      invariant Parts(lens, cuts, alphaSize) && Shares(mtfFreq, cuts, nGroups, nMTF)
      invariant nPart == 0 ==> Sum(mtfFreq, gs) == nMTF
      decreases nPart
    {
      SumMono(mtfFreq, gs, alphaSize);
      var tFreq := remF / nPart;
      var ge, aFreq := NextRange(mtfFreq, alphaSize, gs, tFreq, nPart != nGroups && nPart != 1 && (nGroups - nPart) % 2 == 1);
      SumMono(mtfFreq, ge + 1, alphaSize);
      if nPart == 1 { Undivided(remF); }
      var row := FillRow(alphaSize, gs, ge);
      RowsMore(lens, nGroups, alphaSize, nPart - 1, row, gs, ge + 1);
      PartsMore(lens, cuts, alphaSize, row, ge + 1);
      MakeShare(mtfFreq, gs, ge + 1, nPart, nMTF);
      SharesMore(mtfFreq, cuts, nGroups, nMTF, ge + 1);
      lens := lens[nPart - 1 := row];
      cuts := cuts + [ge + 1];
      nPart := nPart - 1;
      gs := ge + 1;
      remF := remF - aFreq;
    }
    NothingLeft(mtfFreq, gs, alphaSize);
  }

  lemma Undivided(x: int)
    ensures x / 1 == x
  {
  }

  lemma StartTables(lens: seq<seq<int>>, f: seq<int>, n: nat, a: nat, total: nat)
    requires |lens| == n > 0 && (forall t :: 0 <= t < n ==> lens[t] == Copies(GREATER_COST, a)) && a <= |f|
    ensures Rows(lens, n, a) && Parts(lens, [0], a) && Shares(f, [0], n, total) && Sum(f, 0) == 0
  {
  }

  lemma RowsMore(lens: seq<seq<int>>, n: nat, a: nat, t: nat, row: seq<int>, gs: int, end: int)
    requires Rows(lens, n, a) && t < n && RowFor(row, a, gs, end)
    ensures |lens| == n && Rows(lens[t := row], n, a)
  {
  }

  lemma {:induction false} NothingLeft(f: seq<int>, j: nat, k: nat)
    requires j <= k <= |f| && Sum(f, j) == Sum(f, k) && forall v :: 0 <= v < |f| ==> f[v] >= 0
    ensures forall v :: j <= v < k ==> f[v] == 0
    decreases k
  {
    if j < k {
      SumMono(f, j, k - 1);
      NothingLeft(f, j, k - 1);
    }
  }

  // ---------- costs ----------

  /** The bits it takes to send the symbols with lengths len. */
  ghost function Cost(len: seq<int>, syms: seq<int>): int
    requires Inside(syms, |len|)
  {
    if syms == [] then 0 else Cost(len, syms[..|syms| - 1]) + len[syms[|syms| - 1]]
  }

  ghost predicate Inside(syms: seq<int>, a: nat) {
    forall i :: 0 <= i < |syms| ==> 0 <= syms[i] < a
  }

  lemma CostStep(len: seq<int>, syms: seq<int>, gs: nat, i: nat)
    requires Inside(syms, |len|) && gs <= i < |syms|
    ensures Inside(syms[gs..i], |len|) && Inside(syms[gs..i + 1], |len|)
    ensures Cost(len, syms[gs..i + 1]) == Cost(len, syms[gs..i]) + len[syms[i]]
  {
    assert syms[gs..i + 1][..i - gs] == syms[gs..i];
  }

  lemma {:induction false} CostRange(len: seq<int>, syms: seq<int>)
    requires Inside(syms, |len|) && forall v :: 0 <= v < |len| ==> 0 <= len[v] <= LONGEST
    ensures 0 <= Cost(len, syms) <= LONGEST * |syms|
  {
    if syms != [] { CostRange(len, syms[..|syms| - 1]); }
  }

  ghost predicate CostsOf(lens: seq<seq<int>>, syms: seq<int>, a: nat, cost: seq<int>)
    requires Inside(syms, a)
  {
    |cost| == |lens| && forall t {:trigger lens[t]} :: 0 <= t < |lens| ==> |lens[t]| == a && cost[t] == Cost(lens[t], syms)
  }

  /** The slow version: one table at a time for every symbol. */
  method SlowCosts(lens: seq<seq<int>>, syms: seq<int>, gs: nat, ge: nat, a: nat) returns (costs: seq<int>)
    requires Rows(lens, |lens|, a) && Inside(syms, a) && gs <= ge < |syms|
    ensures Inside(syms[gs..ge + 1], a) && CostsOf(lens, syms[gs..ge + 1], a, costs)
  {
    var nGroups := |lens|;
    var cost := new int[nGroups](_ => 0);
    assert syms[gs..gs] == [];
    hide Cost;
    CostNone(lens, nGroups, a);
    for i := gs to ge + 1
      invariant Inside(syms[gs..i], a)
      invariant forall t {:trigger cost[t]} :: 0 <= t < nGroups ==> |lens[t]| == a && cost[t] == Cost(lens[t], syms[gs..i])
    {
      for t := 0 to nGroups
        invariant Inside(syms[gs..i], a) && Inside(syms[gs..i + 1], a)
        invariant forall u {:trigger cost[u]} :: 0 <= u < nGroups ==> |lens[u]| == a && cost[u] == Cost(lens[u], if u < t then syms[gs..i + 1] else syms[gs..i])
      {
        CostStep(lens[t], syms, gs, i);
        cost[t] := cost[t] + lens[t][syms[i]];
      }
    }
    costs := cost[..];
  }

  lemma CostNone(lens: seq<seq<int>>, n: nat, a: nat)
    requires Rows(lens, n, a)
    ensures forall t {:trigger lens[t]} :: 0 <= t < n ==> |lens[t]| == a && Cost(lens[t], []) == 0
  {
  }

  /** len_pack: two lengths to a word. */
  ghost predicate PackOf(pack: seq<int>, lo: seq<int>, hi: seq<int>) {
    |pack| == |lo| == |hi| && forall v :: 0 <= v < |pack| ==> pack[v] == hi[v] * 0x1_0000 + lo[v]
  }

  method Pack(lo: seq<int>, hi: seq<int>) returns (pack: seq<int>)
    requires |lo| == |hi| && forall v :: 0 <= v < |lo| ==> 0 <= lo[v] <= LONGEST
    ensures PackOf(pack, lo, hi)
  {
    var a := new int[|lo|];
    for v := 0 to |lo|
      invariant forall u :: 0 <= u < v ==> a[u] == hi[u] * 0x1_0000 + lo[u]
    {
      assert lo[v] < 0x1_0000;  // the source's OR is this sum
      a[v] := hi[v] * 0x1_0000 + lo[v];
    }
    pack := a[..];
  }

  lemma {:induction false} PackCost(pack: seq<int>, lo: seq<int>, hi: seq<int>, syms: seq<int>)
    requires PackOf(pack, lo, hi) && Inside(syms, |pack|)
    ensures Cost(pack, syms) == Cost(hi, syms) * 0x1_0000 + Cost(lo, syms)
  {
    if syms != [] { PackCost(pack, lo, hi, syms[..|syms| - 1]); }
  }

  /** The halves of a packed sum are the two costs: fifty lengths cannot carry into the upper half. */
  lemma UnpackCost(pack: seq<int>, lo: seq<int>, hi: seq<int>, syms: seq<int>)
    requires PackOf(pack, lo, hi) && |pack| == |lo| == |hi| && Inside(syms, |pack|) && |syms| == GROUP_SIZE
    requires forall v :: 0 <= v < |lo| ==> 0 <= lo[v] <= LONGEST && 0 <= hi[v] <= LONGEST
    ensures Cost(pack, syms) % 0x1_0000 == Cost(lo, syms) && Cost(pack, syms) / 0x1_0000 == Cost(hi, syms)
    ensures 0 <= Cost(pack, syms) < 0x1_0000_0000
  {
    hide *;
    PackSides(pack, lo, hi);
    PackCost(pack, lo, hi, syms);
    Fifty();
    CostRange(lo, syms);
    CostRange(hi, syms);
    HalvesOf(Cost(pack, syms), Cost(lo, syms), Cost(hi, syms));
  }

  lemma PackSides(pack: seq<int>, lo: seq<int>, hi: seq<int>)
    requires PackOf(pack, lo, hi)
    ensures |pack| == |lo| == |hi|
  {
  }

  lemma Fifty()
    ensures GROUP_SIZE == 50 && LONGEST == 20
  {
  }

  lemma HalvesOf(c: int, lo: int, hi: int)
    requires c == hi * 0x1_0000 + lo && 0 <= lo <= 1000 && 0 <= hi <= 1000
    ensures c % 0x1_0000 == lo && c / 0x1_0000 == hi && 0 <= c < 0x1_0000_0000
  {
  }

  /** The fast version for six tables and a full group: three packed sums. */
  method FastCosts(lens: seq<seq<int>>, pack0: seq<int>, pack1: seq<int>, pack2: seq<int>, syms: seq<int>, gs: nat, ge: nat, a: nat)
    returns (costs: seq<int>)
    requires Rows(lens, 6, a) && Inside(syms, a) && gs <= ge < |syms| && ge - gs + 1 == GROUP_SIZE
    requires PackOf(pack0, lens[0], lens[1]) && PackOf(pack1, lens[2], lens[3]) && PackOf(pack2, lens[4], lens[5])
    ensures Inside(syms[gs..ge + 1], a) && CostsOf(lens, syms[gs..ge + 1], a, costs)
  {
    hide Cost, PackOf, Rows;
    PackSize(lens, pack0, pack1, pack2, a);
    ghost var none := syms[gs..gs];
    CostEmpty(pack0, pack1, pack2, none);
    var cost01, cost23, cost45 := 0, 0, 0;
    for i := gs to ge + 1
      invariant Inside(syms[gs..i], a)
      invariant cost01 == Cost(pack0, syms[gs..i]) && cost23 == Cost(pack1, syms[gs..i]) && cost45 == Cost(pack2, syms[gs..i])
    {
      CostStep(pack0, syms, gs, i);
      CostStep(pack1, syms, gs, i);
      CostStep(pack2, syms, gs, i);
      var icv := syms[i];
      cost01 := cost01 + pack0[icv];
      cost23 := cost23 + pack1[icv];
      cost45 := cost45 + pack2[icv];
    }
    costs := [cost01 % 0x1_0000, cost01 / 0x1_0000, cost23 % 0x1_0000, cost23 / 0x1_0000, cost45 % 0x1_0000, cost45 / 0x1_0000];
    SixCosts(lens, pack0, pack1, pack2, syms[gs..ge + 1], a, costs);
  }

  lemma PackSize(lens: seq<seq<int>>, pack0: seq<int>, pack1: seq<int>, pack2: seq<int>, a: nat)
    requires Rows(lens, 6, a)
    requires PackOf(pack0, lens[0], lens[1]) && PackOf(pack1, lens[2], lens[3]) && PackOf(pack2, lens[4], lens[5])
    ensures |lens| == 6 && |pack0| == |pack1| == |pack2| == a
  {
  }

  lemma CostEmpty(pack0: seq<int>, pack1: seq<int>, pack2: seq<int>, none: seq<int>)
    requires none == []
    ensures Cost(pack0, none) == Cost(pack1, none) == Cost(pack2, none) == 0
  {
  }

  lemma SixCosts(lens: seq<seq<int>>, pack0: seq<int>, pack1: seq<int>, pack2: seq<int>, group: seq<int>, a: nat, costs: seq<int>)
    requires Rows(lens, 6, a) && Inside(group, a) && |group| == GROUP_SIZE && |pack0| == |pack1| == |pack2| == a
    requires PackOf(pack0, lens[0], lens[1]) && PackOf(pack1, lens[2], lens[3]) && PackOf(pack2, lens[4], lens[5])
    requires costs == [Cost(pack0, group) % 0x1_0000, Cost(pack0, group) / 0x1_0000, Cost(pack1, group) % 0x1_0000, Cost(pack1, group) / 0x1_0000,
                       Cost(pack2, group) % 0x1_0000, Cost(pack2, group) / 0x1_0000]
    ensures CostsOf(lens, group, a, costs)
  {
    hide Cost, PackOf;
    var l0, l1, l2, l3, l4, l5 := lens[0], lens[1], lens[2], lens[3], lens[4], lens[5];
    UnpackCost(pack0, l0, l1, group);
    UnpackCost(pack1, l2, l3, group);
    UnpackCost(pack2, l4, l5, group);
  }

  /** bt is the first of the cheapest tables. */
  ghost predicate Cheapest(costs: seq<int>, bt: int) {
    && 0 <= bt < |costs| && (forall t :: 0 <= t < |costs| ==> costs[bt] <= costs[t]) && (forall t :: 0 <= t < bt ==> costs[bt] < costs[t])
  }

  method Best(costs: seq<int>) returns (bt: int)
    requires 0 < |costs| && forall t :: 0 <= t < |costs| ==> costs[t] < 999999999
    ensures Cheapest(costs, bt)
  {
    var bc := 999999999;
    bt := -1;
    for t := 0 to |costs|
      invariant if t == 0 then bt == -1 && bc == 999999999 else 0 <= bt < t && bc == costs[bt]
      invariant forall u :: 0 <= u < t ==> bc <= costs[u]
      invariant forall u :: 0 <= u < bt ==> bc < costs[u]
    {
      if costs[t] < bc { bc, bt := costs[t], t; }
    }
  }

  // ---------- one round ----------

  ghost function Groups(n: nat): nat { (n + GROUP_SIZE - 1) / GROUP_SIZE }

  ghost function Group(syms: seq<int>, g: nat): seq<int>
    requires GROUP_SIZE * g <= |syms|
  {
    if GROUP_SIZE * g + GROUP_SIZE <= |syms| then syms[GROUP_SIZE * g..GROUP_SIZE * g + GROUP_SIZE] else syms[GROUP_SIZE * g..]
  }

  ghost predicate BestFor(lens: seq<seq<int>>, a: nat, group: seq<int>, sel: int) {
    && Inside(group, a) && 0 <= sel < |lens| && (forall t :: 0 <= t < |lens| ==> |lens[t]| == a)
    && (forall t {:trigger lens[t]} :: 0 <= t < |lens| ==> Cost(lens[sel], group) <= Cost(lens[t], group))
    && (forall t {:trigger lens[t]} :: 0 <= t < sel ==> Cost(lens[sel], group) < Cost(lens[t], group))
  }

  /** Every group has its cheapest table, the first one of several. */
  ghost predicate Chosen(lens: seq<seq<int>>, a: nat, syms: seq<int>, sels: seq<int>) {
    |sels| <= Groups(|syms|) && forall g {:trigger sels[g]} :: 0 <= g < |sels| ==> BestFor(lens, a, Group(syms, g), sels[g])
  }

  /** How often table t is used for symbol v among the first k symbols. */
  ghost function Uses(sels: seq<int>, syms: seq<int>, t: int, v: int, k: nat): nat
    requires k <= |syms| && k <= GROUP_SIZE * |sels|
  {
    if k == 0 then 0 else Uses(sels, syms, t, v, k - 1) + if sels[(k - 1) / GROUP_SIZE] == t && syms[k - 1] == v then 1 else 0
  }

  ghost predicate Tallied(rfreq: seq<seq<int>>, sels: seq<int>, syms: seq<int>, k: nat, a: nat) {
    && k <= |syms| && k <= GROUP_SIZE * |sels|
    && forall t {:trigger rfreq[t]} :: 0 <= t < |rfreq| ==> TalliedRow(rfreq[t], sels, syms, t, k, a)
  }

  ghost predicate TalliedRow(f: seq<int>, sels: seq<int>, syms: seq<int>, t: int, k: nat, a: nat) {
    k <= |syms| && k <= GROUP_SIZE * |sels| && |f| == a && forall v :: 0 <= v < a ==> f[v] == Uses(sels, syms, t, v, k)
  }

  lemma {:induction false} UsesMore(sels: seq<int>, bt: int, syms: seq<int>, t: int, v: int, k: nat)
    requires k <= |syms| && k <= GROUP_SIZE * |sels|
    ensures Uses(sels + [bt], syms, t, v, k) == Uses(sels, syms, t, v, k)
  {
    if k > 0 { UsesMore(sels, bt, syms, t, v, k - 1); }
  }

  lemma TalliedMore(rfreq: seq<seq<int>>, sels: seq<int>, bt: int, syms: seq<int>, k: nat, a: nat)
    requires Tallied(rfreq, sels, syms, k, a)
    ensures Tallied(rfreq, sels + [bt], syms, k, a)
  {
    forall t {:trigger rfreq[t]} | 0 <= t < |rfreq| ensures TalliedRow(rfreq[t], sels + [bt], syms, t, k, a) {
      assert TalliedRow(rfreq[t], sels, syms, t, k, a);
      forall v | 0 <= v < a ensures rfreq[t][v] == Uses(sels + [bt], syms, t, v, k) { UsesMore(sels, bt, syms, t, v, k); }
    }
  }

  lemma TalliedStep(rfreq: seq<seq<int>>, sels: seq<int>, syms: seq<int>, k: nat, a: nat, bt: int)
    requires Tallied(rfreq, sels, syms, k, a) && k < |syms| && k / GROUP_SIZE < |sels| && sels[k / GROUP_SIZE] == bt
    requires 0 <= bt < |rfreq| && 0 <= syms[k] < a
    ensures |rfreq[bt]| == a
    ensures Tallied(rfreq[bt := rfreq[bt][syms[k] := rfreq[bt][syms[k]] + 1]], sels, syms, k + 1, a)
  {
    assert TalliedRow(rfreq[bt], sels, syms, bt, k, a);
    var r := rfreq[bt := rfreq[bt][syms[k] := rfreq[bt][syms[k]] + 1]];
    forall t {:trigger r[t]} | 0 <= t < |r| ensures TalliedRow(r[t], sels, syms, t, k + 1, a) {
      assert TalliedRow(rfreq[t], sels, syms, t, k, a);
    }
  }

  lemma ChosenMore(lens: seq<seq<int>>, a: nat, syms: seq<int>, sels: seq<int>, bt: int)
    requires Chosen(lens, a, syms, sels) && |sels| < Groups(|syms|) && BestFor(lens, a, Group(syms, |sels|), bt)
    ensures Chosen(lens, a, syms, sels + [bt])
  {
    hide BestFor, Group;
  }

  lemma BestIs(lens: seq<seq<int>>, a: nat, group: seq<int>, costs: seq<int>, bt: int)
    requires Inside(group, a) && CostsOf(lens, group, a, costs) && Cheapest(costs, bt)
    ensures BestFor(lens, a, group, bt)
  {
    hide Cost;
    forall t {:trigger lens[t]} | 0 <= t < |lens| ensures |lens[t]| == a && Cost(lens[bt], group) <= Cost(lens[t], group) {
      assert costs[bt] == Cost(lens[bt], group) && costs[t] == Cost(lens[t], group);
    }
    forall t {:trigger lens[t]} | 0 <= t < bt ensures Cost(lens[bt], group) < Cost(lens[t], group) {
      assert costs[bt] == Cost(lens[bt], group) && costs[t] == Cost(lens[t], group);
    }
  }

  lemma CostsSmall(lens: seq<seq<int>>, a: nat, group: seq<int>, costs: seq<int>)
    requires Inside(group, a) && |group| <= GROUP_SIZE && Rows(lens, |lens|, a) && CostsOf(lens, group, a, costs)
    ensures forall t :: 0 <= t < |costs| ==> 0 <= costs[t] <= 1000  // so the source's 16-bit sums do not wrap
  {
    forall t | 0 <= t < |costs| ensures 0 <= costs[t] <= 1000 {
      assert costs[t] == Cost(lens[t], group);
      CostRange(lens[t], group);
    }
  }

  /** Costs one group with every table and picks the best. */
  method PickTable(lens: seq<seq<int>>, pack0: seq<int>, pack1: seq<int>, pack2: seq<int>, syms: seq<int>, gs: nat, ge: nat, a: nat)
    returns (bt: int)
    requires 0 < |lens| && Rows(lens, |lens|, a) && Inside(syms, a) && gs <= ge < |syms| && ge - gs < GROUP_SIZE
    requires |lens| == 6 ==> PackOf(pack0, lens[0], lens[1]) && PackOf(pack1, lens[2], lens[3]) && PackOf(pack2, lens[4], lens[5])
    ensures BestFor(lens, a, syms[gs..ge + 1], bt)
  {
    hide PackOf, Cost, CostsOf, Cheapest, BestFor;
    var costs;
    if |lens| == 6 && GROUP_SIZE == ge - gs + 1 {
      costs := FastCosts(lens, pack0, pack1, pack2, syms, gs, ge, a);
    } else {
      costs := SlowCosts(lens, syms, gs, ge, a);
    }
    CostsSmall(lens, a, syms[gs..ge + 1], costs);
    assert |costs| == |lens| by { CostsSize(lens, syms[gs..ge + 1], a, costs); }
    bt := Best(costs);
    BestIs(lens, a, syms[gs..ge + 1], costs, bt);
  }

  lemma CostsSize(lens: seq<seq<int>>, group: seq<int>, a: nat, costs: seq<int>)
    requires Inside(group, a) && CostsOf(lens, group, a, costs)
    ensures |costs| == |lens|
  {
  }

  /** Counts the symbols of one group for their table. */
  method Tally(rfreq0: seq<seq<int>>, bt: int, syms: seq<int>, gs: nat, ge: nat, a: nat, ghost sels: seq<int>) returns (rfreq: seq<seq<int>>)
    requires Tallied(rfreq0, sels, syms, gs, a) && Inside(syms, a) && gs <= ge < |syms| && 0 <= bt < |rfreq0|
    requires forall i {:trigger syms[i]} :: gs <= i <= ge ==> i / GROUP_SIZE < |sels| && sels[i / GROUP_SIZE] == bt
    ensures Tallied(rfreq, sels, syms, ge + 1, a) && |rfreq| == |rfreq0|
  {
    rfreq := rfreq0;
    hide Tallied;
    for i := gs to ge + 1
      invariant Tallied(rfreq, sels, syms, i, a) && |rfreq| == |rfreq0|
    {
      var v := syms[i];
      TalliedStep(rfreq, sels, syms, i, a, bt);
      rfreq := rfreq[bt := rfreq[bt][v := rfreq[bt][v] + 1]];
    }
  }

  lemma GroupIs(syms: seq<int>, g: nat, ge: nat)
    requires GROUP_SIZE * g < |syms| && ge == (if GROUP_SIZE * g + GROUP_SIZE - 1 >= |syms| then |syms| - 1 else GROUP_SIZE * g + GROUP_SIZE - 1)
    ensures syms[GROUP_SIZE * g..ge + 1] == Group(syms, g) && g < Groups(|syms|)
    ensures forall i {:trigger syms[i]} :: GROUP_SIZE * g <= i <= ge ==> i / GROUP_SIZE == g
    ensures ge + 1 == |syms| ==> Groups(|syms|) == g + 1
    ensures ge + 1 < |syms| ==> ge + 1 == GROUP_SIZE * (g + 1)
  {
  }

  method PackLengths(lens: seq<seq<int>>, ghost a: nat) returns (pack0: seq<int>, pack1: seq<int>, pack2: seq<int>)
    requires Rows(lens, |lens|, a)
    ensures |lens| == 6 ==> PackOf(pack0, lens[0], lens[1]) && PackOf(pack1, lens[2], lens[3]) && PackOf(pack2, lens[4], lens[5])
  {
    pack0, pack1, pack2 := [], [], [];
    if |lens| == 6 {
      hide PackOf;
      var l0, l1, l2, l3, l4, l5 := lens[0], lens[1], lens[2], lens[3], lens[4], lens[5];
      pack0 := Pack(l0, l1);
      pack1 := Pack(l2, l3);
      pack2 := Pack(l4, l5);
    }
  }

  /** One round: selectors for all groups and the use counts of every table. */
  method Choose(lens: seq<seq<int>>, syms: seq<int>, a: nat, selector: array<int>) returns (nSelectors: nat, rfreq: seq<seq<int>>)
    requires 0 < |lens| && Rows(lens, |lens|, a) && Inside(syms, a) && 0 < |syms| && Groups(|syms|) <= selector.Length
    modifies selector
    ensures nSelectors == Groups(|syms|) && Chosen(lens, a, syms, selector[..nSelectors])
    ensures Tallied(rfreq, selector[..nSelectors], syms, |syms|, a) && |rfreq| == |lens|
  {
    hide BestFor, PackOf, Rows;
    var pack0, pack1, pack2 := PackLengths(lens, a);
    rfreq := seq(|lens|, _ => Copies(0, a));
    nSelectors := 0;
    var gs := 0;
    NothingYet(lens, a, syms, rfreq);
    assert selector[..0] == [];
    hide Tallied, Chosen, Groups, Group, Inside;
    while gs < |syms|
      invariant gs <= |syms| && (if gs < |syms| then gs == GROUP_SIZE * nSelectors else nSelectors == Groups(|syms|))
      invariant nSelectors <= Groups(|syms|) && |rfreq| == |lens|
      invariant Chosen(lens, a, syms, selector[..nSelectors])
      invariant Tallied(rfreq, selector[..nSelectors], syms, gs, a)
      decreases |syms| - gs
    {
      ghost var sels := selector[..nSelectors];
      var ge := gs + GROUP_SIZE - 1;
      if ge >= |syms| { ge := |syms| - 1; }
      GroupIs(syms, nSelectors, ge);
      var bt := PickTable(lens, pack0, pack1, pack2, syms, gs, ge, a);
      BestInside(lens, a, syms[gs..ge + 1], bt);
      selector[nSelectors] := bt;
      assert selector[..nSelectors + 1] == sels + [bt];
      ChosenMore(lens, a, syms, sels, bt);
      TalliedMore(rfreq, sels, bt, syms, gs, a);
      rfreq := Tally(rfreq, bt, syms, gs, ge, a, sels + [bt]);
      nSelectors := nSelectors + 1;
      gs := ge + 1;
    }
  }

  lemma BestInside(lens: seq<seq<int>>, a: nat, group: seq<int>, bt: int)
    requires BestFor(lens, a, group, bt)
    ensures 0 <= bt < |lens|
  {
  }

  lemma NothingYet(lens: seq<seq<int>>, a: nat, syms: seq<int>, rfreq: seq<seq<int>>)
    requires |rfreq| == |lens| && forall t :: 0 <= t < |rfreq| ==> rfreq[t] == Copies(0, a)
    ensures Chosen(lens, a, syms, []) && Tallied(rfreq, [], syms, 0, a)
  {
  }

  // ---------- the tables for the next round ----------

  lemma {:induction false} SumUpdate(f: seq<int>, v: nat, k: nat)
    requires v < |f| && k <= |f|
    ensures Sum(f[v := f[v] + 1], k) == Sum(f, k) + if v < k then 1 else 0
  {
    if k > 0 { SumUpdate(f, v, k - 1); }
  }

  lemma {:induction false} SumZero(f: seq<int>, k: nat)
    requires k <= |f| && forall v :: 0 <= v < |f| ==> f[v] == 0
    ensures Sum(f, k) == 0
  {
    if k > 0 { SumZero(f, k - 1); }
  }

  /** A table's use counts add up to at most the number of symbols. */
  lemma {:induction false} TallySum(f: seq<int>, sels: seq<int>, syms: seq<int>, t: int, k: nat, a: nat)
    requires TalliedRow(f, sels, syms, t, k, a) && Inside(syms, a)
    ensures 0 <= Sum(f, a) <= k && forall v :: 0 <= v < a ==> f[v] >= 0
    decreases k
  {
    if k == 0 {
      SumZero(f, a);
    } else {
      var g := seq(a, v requires 0 <= v < a => Uses(sels, syms, t, v, k - 1) as int);
      TallySum(g, sels, syms, t, k - 1, a);
      var s := syms[k - 1];
      if sels[(k - 1) / GROUP_SIZE] == t {
        SumUpdate(g, s, a);
        assert f == g[s := g[s] + 1];
      } else {
        assert f == g;
      }
    }
  }

  lemma {:induction false} FreqSumBound(f: seq<int>, k: nat)
    requires k <= |f| && forall v :: 0 <= v < |f| ==> f[v] >= 0
    ensures FreqSum(f, k) <= Sum(f, k) + k
  {
    if k > 0 { FreqSumBound(f, k - 1); }
  }

  /** Code lengths for one table's use counts. */
  method RowLengths(f: seq<int>, a: nat) returns (len: seq<int>)
    requires 2 <= a <= MAX_ALPHA_SIZE && |f| == a && (forall v :: 0 <= v < a ==> f[v] >= 0) && Sum(f, a) <= BLOCK_MAX + 1
    ensures Codable(len, a) && forall v :: 0 <= v < a ==> len[v] <= MAX_LEN
    ensures BestLengths(Weights(f), len, MAX_LEN)
  {
    hide FreqSum, Sum, Past, Pow2, BestLengths, Optimal, Weights;
    FreqSumBound(f, a);
    var row, freq := new int[a], new int[a](v requires 0 <= v < a => f[v]);
    assert freq[..] == freq[..a] == f;
    MakeCodeLengths(row, freq, a, MAX_LEN);
    assert row[..a] == row[..];
    len := row[..];
  }

  /** The lengths are the best ones for how often the selectors use table t for each symbol. */
  ghost predicate TunedTo(len: seq<int>, sels: seq<int>, syms: seq<int>, t: int, a: nat) {
    exists f: seq<int> :: TalliedRow(f, sels, syms, t, |syms|, a) && BestLengths(Weights(f), len, MAX_LEN)
  }

  ghost predicate Tuned(lens: seq<seq<int>>, sels: seq<int>, syms: seq<int>, a: nat) {
    forall t {:trigger lens[t]} :: 0 <= t < |lens| ==> TunedTo(lens[t], sels, syms, t, a)
  }

  method RebuildTables(rfreq: seq<seq<int>>, a: nat, ghost sels: seq<int>, ghost syms: seq<int>) returns (lens: seq<seq<int>>)
    requires 2 <= a <= MAX_ALPHA_SIZE && Tallied(rfreq, sels, syms, |syms|, a) && Inside(syms, a) && |syms| <= BLOCK_MAX + 1
    ensures |lens| == |rfreq| && Short(lens, a) && Tuned(lens, sels, syms, a)
  {
    hide Codable, TalliedRow, Sum, BestLengths, Weights;
    lens := [];
    for t := 0 to |rfreq|
      invariant |lens| == t && Short(lens, a) && Tuned(lens, sels, syms, a)
    {
      assert TalliedRow(rfreq[t], sels, syms, t, |syms|, a);
      TallySum(rfreq[t], sels, syms, t, |syms|, a);
      RowSize(rfreq[t], sels, syms, t, |syms|, a);
      var len := RowLengths(rfreq[t], a);
      assert TunedTo(len, sels, syms, t, a);
      lens := lens + [len];
    }
  }

  lemma RowSize(f: seq<int>, sels: seq<int>, syms: seq<int>, t: int, k: nat, a: nat)
    requires TalliedRow(f, sels, syms, t, k, a)
    ensures |f| == a
  {
  }

  /** Codable tables with no code longer than 17 bits. */
  ghost predicate Short(lens: seq<seq<int>>, a: nat) {
    forall t {:trigger lens[t]} :: 0 <= t < |lens| ==> Codable(lens[t], a) && forall v :: 0 <= v < a ==> lens[t][v] <= MAX_LEN
  }

  lemma ShortRows(lens: seq<seq<int>>, a: nat)
    requires Short(lens, a)
    ensures Rows(lens, |lens|, a) && AllCodable(lens, a)
  {
    hide Kraft;
  }

  function GroupCount(nMTF: nat): nat {
    if nMTF < 200 then 2 else if nMTF < 600 then 3 else if nMTF < 1200 then 4 else if nMTF < 2400 then 5 else 6
  }

  /** The tables and selectors to send.  The selectors were chosen for the tables of the last round
      but one: cheapest for them, and valid for the final ones, which are the best for what the selectors
      use them for. */
  method ChooseTables(syms: seq<int>, mtfFreq: seq<int>, a: nat, selector: array<int>)
    returns (lens: seq<seq<int>>, nSelectors: nat, ghost prev: seq<seq<int>>)
    requires 2 <= a <= MAX_ALPHA_SIZE && Inside(syms, a) && 0 < |syms| <= BLOCK_MAX + 1
    requires Counted(mtfFreq, syms) && a <= |mtfFreq| && selector.Length == MAX_SELECTORS
    modifies selector
    ensures |lens| == GroupCount(|syms|) && Short(lens, a) && |prev| == |lens|
    ensures nSelectors == Groups(|syms|) <= MAX_SELECTORS && Chosen(prev, a, syms, selector[..nSelectors])
    ensures Tuned(lens, selector[..nSelectors], syms, a)
  {
    var nGroups := GroupCount(|syms|);
    CountedSum(mtfFreq, syms, a);
    AllKeys(syms, a);
    OccBelowAll(syms, a, |syms|);
    hide Codable, Chosen, Tallied, Rows, Sum, Counted, Short, Tuned;
    CountsNatural(mtfFreq, syms);
    ghost var cuts: seq<nat>;
    lens, cuts := InitialTables(mtfFreq, a, |syms|, nGroups);
    nSelectors := 0;
    prev := lens;
    for iter := 0 to ITERATIONS
      invariant |lens| == |prev| == nGroups && Rows(lens, nGroups, a)
      invariant iter > 0 ==> Short(lens, a) && nSelectors == Groups(|syms|) && Chosen(prev, a, syms, selector[..nSelectors])
      invariant iter > 0 ==> Tuned(lens, selector[..nSelectors], syms, a)
    {
      var rfreq;
      nSelectors, rfreq := Choose(lens, syms, a, selector);
      prev := lens;
      lens := RebuildTables(rfreq, a, selector[..nSelectors], syms);
      ShortRows(lens, a);
    }
  }

  lemma AllKeys(syms: seq<int>, a: nat)
    requires Inside(syms, a)
    ensures Keys(syms, a)
  {
  }

  lemma CountsNatural(f: seq<int>, syms: seq<int>)
    requires Counted(f, syms)
    ensures forall v :: 0 <= v < |f| ==> f[v] >= 0
  {
  }

  /** What was chosen may be sent. */
  lemma ChosenSendable(lens: seq<seq<int>>, prev: seq<seq<int>>, a: nat, syms: seq<int>, sels: seq<int>)
    requires Short(lens, a) && |prev| == |lens| && |lens| == GroupCount(|syms|) && Chosen(prev, a, syms, sels) && |sels| == Groups(|syms|)
    requires Inside(syms, a) && 0 < |syms| <= BLOCK_MAX + 1
    ensures Choice(lens, sels, a, syms)
  {
    ShortRows(lens, a);
    hide Codable, Group;
    forall i | 0 <= i < |sels| ensures 0 <= sels[i] < |lens| { BestInside(prev, a, Group(syms, i), sels[i]); }
  }
}

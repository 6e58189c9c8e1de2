/** How the compressor settles on its coding tables: an initial split of the alphabet, then passes that give
    every group of fifty symbols its cheapest table and rebuild the tables from what they were used for. */
module TableChoice {
  import opened Bits
  import opened Counting
  import opened Canonical
  import opened CodeLengths
  import opened BlockFormat

  const LESSER_ICOST := 0
  const GREATER_ICOST := 15
  const N_ITERS := 4

  /** Group g of the symbols. */
  function Group(syms: seq<int>, g: nat): seq<int>
    requires GROUP_SIZE * g <= |syms|
  {
    if GROUP_SIZE * (g + 1) <= |syms| then syms[GROUP_SIZE * g..GROUP_SIZE * (g + 1)] else syms[GROUP_SIZE * g..]
  }

  function Groups(n: nat): nat {
    (n + GROUP_SIZE - 1) / GROUP_SIZE
  }

  /** What symbols cost under a set of lengths. */
  function Cost(len: seq<int>, syms: seq<int>): int
    requires forall i :: 0 <= i < |syms| ==> 0 <= syms[i] < |len|
  {
    if syms == [] then 0 else Cost(len, syms[..|syms|-1]) + len[syms[|syms|-1]]
  }

  predicate InAlphabet(syms: seq<int>, alphaSize: nat) {
    forall i :: 0 <= i < |syms| ==> 0 <= syms[i] < alphaSize
  }

  ghost predicate Shape(lens: seq<seq<int>>, nGroups: nat, alphaSize: nat) {
    |lens| == nGroups && forall t :: 0 <= t < nGroups ==> |lens[t]| == alphaSize
  }

  /** Usable for writing: complete codes of at most seventeen bits. */
  ghost predicate Complete(lens: seq<seq<int>>, alphaSize: nat) {
    && Shape(lens, |lens|, alphaSize)
    && forall t :: 0 <= t < |lens| ==> CompleteCode(lens[t])
  }

  ghost predicate CompleteCode(len: seq<int>) {
    (forall i :: 0 <= i < |len| ==> 1 <= len[i] <= 17) && Kraft(len, 17) == Pow2(17)
  }

  /** The number of tables grows with the number of symbols. */
  function TableCount(nMTF: nat): (n: nat)
    ensures 2 <= n <= MAX_GROUPS
  {
    if nMTF < 200 then 2 else if nMTF < 600 then 3 else if nMTF < 1200 then 4 else if nMTF < 2400 then 5 else 6
  }

  /** Splits the alphabet into stretches of about equal weight, one for every table. */
  method InitialTables(mtfFreq: array<int>, alphaSize: nat, nMTF: nat, nGroups: nat) returns (lens: seq<seq<int>>)
    requires alphaSize <= mtfFreq.Length && nGroups >= 1
    ensures Shape(lens, nGroups, alphaSize)
    ensures forall t, v :: 0 <= t < nGroups && 0 <= v < alphaSize ==>
        lens[t][v] == LESSER_ICOST || lens[t][v] == GREATER_ICOST
  {
    lens := seq(nGroups, t => seq(alphaSize, v => GREATER_ICOST));
    var nPart, remF, gs := nGroups, nMTF, 0;
    while nPart > 0
      invariant 0 <= nPart <= nGroups && 0 <= gs <= alphaSize && Shape(lens, nGroups, alphaSize)
      invariant forall t, v :: 0 <= t < nGroups && 0 <= v < alphaSize ==>
          lens[t][v] == LESSER_ICOST || lens[t][v] == GREATER_ICOST
    {
      var tFreq := if remF >= 0 then remF / nPart else -((-remF) / nPart);
      var ge, aFreq := gs - 1, 0;
      while aFreq < tFreq && ge < alphaSize - 1
        invariant gs - 1 <= ge < alphaSize
        decreases alphaSize - ge
      {
        ge := ge + 1;
        aFreq := aFreq + mtfFreq[ge];
      }
      if ge > gs && nPart != nGroups && nPart != 1 && (nGroups - nPart) % 2 == 1 {
        aFreq := aFreq - mtfFreq[ge];
        ge := ge - 1;
      }
      lens := lens[nPart - 1 := seq(alphaSize, v => if gs <= v <= ge then LESSER_ICOST else GREATER_ICOST)];
      nPart := nPart - 1;
      gs := ge + 1;
      remF := remF - aFreq;
    }
  }

  /** The cost of one group under every table. */
  method GroupCosts(lens: seq<seq<int>>, syms: seq<int>, nGroups: nat, alphaSize: nat, gs: nat, ge: int)
    returns (cost: seq<int>)
    requires Shape(lens, nGroups, alphaSize) && InAlphabet(syms, alphaSize) && gs <= ge + 1 <= |syms|
    ensures |cost| == nGroups && InAlphabet(syms[gs..ge + 1], alphaSize)
    ensures forall t :: 0 <= t < nGroups ==> cost[t] == Cost(lens[t], syms[gs..ge + 1])
  {
    cost := seq(nGroups, t => 0);
    var i := gs;
    while i <= ge
      invariant gs <= i <= ge + 1 && |cost| == nGroups
      invariant forall t :: 0 <= t < nGroups ==> cost[t] == Cost(lens[t], syms[gs..i])
    {
      var icv := syms[i];
      assert syms[gs..i + 1][..i - gs] == syms[gs..i];
      cost := seq(nGroups, t requires 0 <= t < nGroups => cost[t] + lens[t][icv]);
      i := i + 1;
    }
  }

  /** The first of the cheapest. */
  method Cheapest(cost: seq<int>) returns (bt: int, bc: int)
    requires 0 < |cost| && forall t :: 0 <= t < |cost| ==> cost[t] < 999999999
    ensures 0 <= bt < |cost| && bc == cost[bt]
    ensures forall t :: 0 <= t < |cost| ==> bc <= cost[t] && (t < bt ==> bc < cost[t])
  {
    bc, bt := 999999999, -1;
    var t := 0;
    while t < |cost|
      invariant 0 <= t <= |cost| && (t > 0 ==> 0 <= bt < t && bc == cost[bt]) && (t == 0 ==> bc == 999999999)
      invariant forall u :: 0 <= u < t ==> bc <= cost[u] && (u < bt ==> bc < cost[u])
    {
      if cost[t] < bc {
        bc, bt := cost[t], t;
      }
      t := t + 1;
    }
  }

  /** Every length is at most 20. */
  ghost predicate Moderate(lens: seq<seq<int>>, alphaSize: nat) {
    Shape(lens, |lens|, alphaSize) && forall t, v :: 0 <= t < |lens| && 0 <= v < alphaSize ==> 0 <= lens[t][v] <= 20
  }

  lemma {:induction false} CostBound(len: seq<int>, syms: seq<int>)
    requires InAlphabet(syms, |len|) && forall v :: 0 <= v < |len| ==> 0 <= len[v] <= 20
    ensures 0 <= Cost(len, syms) <= 20 * |syms|
  {
    if syms != [] {
      CostBound(len, syms[..|syms|-1]);
    }
  }

  /** No table codes the group in fewer bits than table t. */
  ghost predicate CheapestFor(lens: seq<seq<int>>, alphaSize: nat, group: seq<int>, t: int) {
    && Shape(lens, |lens|, alphaSize) && InAlphabet(group, alphaSize) && 0 <= t < |lens|
    && forall u :: 0 <= u < |lens| ==> Cost(lens[t], group) <= Cost(lens[u], group)
  }

  /** Every group has a table that costs it least. */
  ghost predicate Best(lens: seq<seq<int>>, alphaSize: nat, sel: seq<int>, syms: seq<int>) {
    |sel| <= Groups(|syms|) && forall g :: 0 <= g < |sel| ==> CheapestFor(lens, alphaSize, Group(syms, g), sel[g])
  }

  /** How often the groups that chose table t use symbol v. */
  ghost function Uses(sel: seq<int>, syms: seq<int>, t: int, v: int): int
    requires |sel| <= Groups(|syms|)
  {
    if sel == [] then 0
    else Uses(sel[..|sel|-1], syms, t, v) + (if sel[|sel|-1] == t then Count(Group(syms, |sel| - 1), v) else 0)
  }

  /** Frequencies of n symbols in all. */
  ghost predicate Frequencies(freq: seq<int>, alphaSize: nat, n: nat) {
    && |freq| == alphaSize && (forall v :: 0 <= v < alphaSize ==> 0 <= freq[v])
    && InitialSum(freq) <= alphaSize + n
  }

  lemma {:induction false} OneMoreUse(freq: seq<int>, v: nat)
    requires v < |freq| && 0 <= freq[v]
    ensures InitialSum(freq[v := freq[v] + 1]) <= InitialSum(freq) + 1
  {
    var g := freq[v := freq[v] + 1];
    if v < |freq| - 1 {
      OneMoreUse(freq[..|freq|-1], v);
      assert g[..|freq|-1] == freq[..|freq|-1][v := freq[v] + 1];
    } else {
      assert g[..|freq|-1] == freq[..|freq|-1];
    }
  }

  lemma {:induction false} NoUses(n: nat)
    ensures InitialSum(seq(n, v => 0)) == n
  {
    if n > 0 {
      NoUses(n - 1);
      assert seq(n, v => 0)[..n-1] == seq(n - 1, v => 0);
    }
  }

  /** Counts the symbols of one group. */
  method CountGroup(freq0: seq<int>, syms: seq<int>, alphaSize: nat, gs: nat, ge: int, ghost n: nat)
    returns (freq: seq<int>)
    requires Frequencies(freq0, alphaSize, n) && InAlphabet(syms, alphaSize) && gs <= ge + 1 <= |syms|
    ensures |freq| == alphaSize == |freq0| && Frequencies(freq, alphaSize, n + (ge + 1 - gs))
    ensures forall v :: 0 <= v < alphaSize ==> freq[v] == freq0[v] + Count(syms[gs..ge + 1], v)
  {
    hide InitialSum, Count;
    freq := freq0;
    var i := gs;
    CountNothing(syms, gs);
    while i <= ge
      invariant gs <= i <= ge + 1 && Frequencies(freq, alphaSize, n + (i - gs))
      invariant forall v :: 0 <= v < alphaSize ==> freq[v] == freq0[v] + Count(syms[gs..i], v)
    {
      OneMoreUse(freq, syms[i]);
      CountNext(syms, gs, i);
      freq := freq[syms[i] := freq[syms[i]] + 1];
      i := i + 1;
    }
  }

  lemma CountNothing(syms: seq<int>, gs: nat)
    requires gs <= |syms|
    ensures forall v :: Count(syms[gs..gs], v) == 0
  {
  }

  lemma CountNext(syms: seq<int>, gs: nat, i: nat)
    requires gs <= i < |syms|
    ensures forall v :: Count(syms[gs..i + 1], v) == Count(syms[gs..i], v) + (if v == syms[i] then 1 else 0)
  {
    assert syms[gs..i + 1][..i - gs] == syms[gs..i];
  }

  /** One pass over the symbols: a selector for every group, and what every table came to be used for. */
  method OnePass(lens: seq<seq<int>>, syms: seq<int>, alphaSize: nat) returns (sel: seq<int>, rfreq: seq<seq<int>>)
    requires Moderate(lens, alphaSize) && InAlphabet(syms, alphaSize) && 0 < |lens|
    ensures |sel| == Groups(|syms|) && Best(lens, alphaSize, sel, syms)
    ensures |rfreq| == |lens| && forall t :: 0 <= t < |rfreq| ==> Frequencies(rfreq[t], alphaSize, |syms|)
    ensures forall t :: 0 <= t < |rfreq| ==> Tallied(rfreq[t], sel, syms, t, alphaSize)
  {
    hide Cost, Uses, Frequencies, CheapestFor, Tallied;
    var nGroups := |lens|;
    Unused(alphaSize);
    rfreq := seq(nGroups, t => seq(alphaSize, v => 0));
    NothingTallied(rfreq[0], syms, alphaSize);
    sel := [];
    var gs := 0;
    while gs < |syms|
      invariant 0 <= gs <= |syms| && |sel| == Groups(gs) && (gs < |syms| ==> gs == GROUP_SIZE * |sel|)
      invariant |rfreq| == nGroups && forall t :: 0 <= t < nGroups ==> Frequencies(rfreq[t], alphaSize, gs)
      invariant Best(lens, alphaSize, sel, syms)
      invariant forall t :: 0 <= t < nGroups ==> Tallied(rfreq[t], sel, syms, t, alphaSize)
    {
      var ge := gs + GROUP_SIZE - 1;
      if ge >= |syms| {
        ge := |syms| - 1;
      }
      assert Group(syms, |sel|) == syms[gs..ge + 1];
      var bt := ChooseOne(lens, syms, alphaSize, gs, ge);
      var row := CountGroup(rfreq[bt], syms, alphaSize, gs, ge, gs);
      var next := rfreq[bt := row];
      forall t | 0 <= t < nGroups
        ensures Frequencies(next[t], alphaSize, ge + 1)
        ensures Tallied(next[t], sel + [bt], syms, t, alphaSize)
      {
        MoreSymbols(rfreq[t], alphaSize, gs, ge + 1);
        TallyNext(rfreq[t], row, sel, bt, syms, t, alphaSize);
      }
      sel := sel + [bt];
      rfreq := next;
      gs := ge + 1;
    }
  }

  ghost predicate Tallied(freq: seq<int>, sel: seq<int>, syms: seq<int>, t: int, alphaSize: nat) {
    |sel| <= Groups(|syms|) && |freq| == alphaSize && forall v :: 0 <= v < alphaSize ==>
        freq[v] == Uses(sel, syms, t, v)
  }

  lemma Unused(alphaSize: nat)
    ensures Frequencies(seq(alphaSize, v => 0), alphaSize, 0)
  {
    NoUses(alphaSize);
  }

  lemma NothingTallied(freq: seq<int>, syms: seq<int>, alphaSize: nat)
    requires freq == seq(alphaSize, v => 0)
    ensures forall t :: Tallied(freq, [], syms, t, alphaSize)
  {
  }

  lemma MoreSymbols(freq: seq<int>, alphaSize: nat, n: nat, m: nat)
    requires Frequencies(freq, alphaSize, n) && n <= m
    ensures Frequencies(freq, alphaSize, m)
  {
  }

  lemma TallyNext(freq: seq<int>, row: seq<int>, sel: seq<int>, bt: int, syms: seq<int>, t: int, alphaSize: nat)
    requires Tallied(freq, sel, syms, t, alphaSize) && |sel| < Groups(|syms|) && |row| == alphaSize
    requires t == bt ==> forall v :: 0 <= v < alphaSize ==> row[v] == freq[v] + Count(Group(syms, |sel|), v)
    ensures Tallied(if t == bt then row else freq, sel + [bt], syms, t, alphaSize)
  {
    assert (sel + [bt])[..|sel|] == sel;
  }

  /** A cheapest table for the symbols gs..ge. */
  method ChooseOne(lens: seq<seq<int>>, syms: seq<int>, alphaSize: nat, gs: nat, ge: int) returns (bt: int)
    requires Moderate(lens, alphaSize) && InAlphabet(syms, alphaSize) && 0 < |lens|
    requires gs <= ge < |syms| && ge < gs + GROUP_SIZE
    ensures CheapestFor(lens, alphaSize, syms[gs..ge + 1], bt)
  {
    var cost := GroupCosts(lens, syms, |lens|, alphaSize, gs, ge);
    forall t | 0 <= t < |lens|
      ensures 0 <= cost[t] <= 1000
    {
      CostBound(lens[t], syms[gs..ge + 1]);
    }
    var bc;
    bt, bc := Cheapest(cost);
  }

  /** A complete code of at most seventeen bits for the given frequencies. */
  method Rebuild(freq: seq<int>, alphaSize: nat, ghost n: nat) returns (len: seq<int>)
    requires 2 <= alphaSize <= MAX_ALPHA_SIZE && Frequencies(freq, alphaSize, n) && n < 0x40_0000
    ensures |len| == alphaSize && CompleteCode(len)
  {
    hide InitialSum, Kraft, Pow2;
    var rfreq := new int[alphaSize](i requires 0 <= i < alphaSize => freq[i]);
    assert rfreq[..alphaSize] == freq;
    var length := new int[alphaSize];
    MakeCodeLengths(length, rfreq, alphaSize, 17);
    len := length[..];
    assert length[..alphaSize] == len;
  }

  lemma CompleteIsModerate(lens: seq<seq<int>>, alphaSize: nat)
    requires Complete(lens, alphaSize)
    ensures Moderate(lens, alphaSize)
  {
    forall t, v | 0 <= t < |lens| && 0 <= v < alphaSize
      ensures 0 <= lens[t][v] <= 20
    {
      assert CompleteCode(lens[t]);
    }
  }

  /** The whole choice. Between two and six complete codes come out of it and a selector for every group. */
  method ChooseTables(mtfFreq: array<int>, syms: seq<int>, alphaSize: nat) returns (lens: seq<seq<int>>, sel: seq<int>)
    requires 2 <= alphaSize <= MAX_ALPHA_SIZE && alphaSize <= mtfFreq.Length
    requires InAlphabet(syms, alphaSize) && 0 < |syms| < 0x40_0000
    ensures |lens| == TableCount(|syms|) && Complete(lens, alphaSize)
    ensures |sel| == Groups(|syms|) && forall g :: 0 <= g < |sel| ==> 0 <= sel[g] < |lens|
  {
    hide CompleteCode, Frequencies, CheapestFor, Tallied;
    var nGroups := TableCount(|syms|);
    lens := InitialTables(mtfFreq, alphaSize, |syms|, nGroups);
    sel := [];
    var iter := 0;
    while iter < N_ITERS
      invariant 0 <= iter <= N_ITERS && |lens| == nGroups && Moderate(lens, alphaSize)
      invariant iter > 0 ==> Complete(lens, alphaSize)
      invariant iter > 0 ==> |sel| == Groups(|syms|) && forall g :: 0 <= g < |sel| ==> 0 <= sel[g] < nGroups
    {
      var rfreq;
      ghost var before := lens;
      sel, rfreq := OnePass(lens, syms, alphaSize);
      ChoicesInRange(before, alphaSize, sel, syms);
      var t := 0;
      while t < nGroups
        invariant 0 <= t <= nGroups && Shape(lens, nGroups, alphaSize)
        invariant forall u :: 0 <= u < t ==> CompleteCode(lens[u])
      {
        var len := Rebuild(rfreq[t], alphaSize, |syms|);
        lens := lens[t := len];
        t := t + 1;
      }
      CompleteIsModerate(lens, alphaSize);
      iter := iter + 1;
    }
  }

  lemma ChoicesInRange(lens: seq<seq<int>>, alphaSize: nat, sel: seq<int>, syms: seq<int>)
    requires Best(lens, alphaSize, sel, syms)
    ensures forall g :: 0 <= g < |sel| ==> 0 <= sel[g] < |lens|
  {
    forall g | 0 <= g < |sel|
      ensures 0 <= sel[g] < |lens|
    {
      assert CheapestFor(lens, alphaSize, Group(syms, g), sel[g]);
    }
  }
}

/** scan_tree and send_tree: the same runs, first counted and then sent. */
module TreeTransmission {
  import opened Bits
  import opened SortedCodes
  import opened DeflateCodes
  import opened InflateTable
  import opened CodeLengthCode
  import opened ZBits

  // ---------- counting ----------

  function Occurrences(items: seq<Item>, sym: int): (r: nat)
    ensures r <= |items|
  {
    if items == [] then 0 else (if SymOf(items[0]) == sym then 1 else 0) + Occurrences(items[1..], sym)
  }

  lemma {:induction false} OccurConcat(a: seq<Item>, b: seq<Item>, sym: int)
    ensures Occurrences(a + b, sym) == Occurrences(a, sym) + Occurrences(b, sym)
    decreases |a|
  {
    if a == [] {
      assert a + b == b;
    } else {
      assert (a + b)[0] == a[0] && (a + b)[1..] == a[1..] + b;
      OccurConcat(a[1..], b, sym);
    }
  }

  lemma {:induction false} OccurOnes(cur: int, count: nat, sym: int)
    ensures Occurrences(Ones(cur, count), sym) == if cur == sym then count else 0
    decreases count
  {
    if count > 0 {
      assert Ones(cur, count)[1..] == Ones(cur, count - 1);
      OccurOnes(cur, count - 1, sym);
    }
  }

  lemma OccurSingle(a: Item, b: Item, sym: int)
    ensures Occurrences([a], sym) == if SymOf(a) == sym then 1 else 0
    ensures Occurrences([a, b], sym) == (if SymOf(a) == sym then 1 else 0) + (if SymOf(b) == sym then 1 else 0)
  {
    assert [a][1..] == [] && [a, b][1..] == [b];
    OccurConcat([a], [b], sym);
    assert [a] + [b] == [a, b];
    assert [b][1..] == [];
  }

  /** What one run adds to the frequencies of the bit length code. */
  method CountRun(freq: array<int>, cur: int, count: nat, minCount: nat, prev: int)
    requires freq.Length >= BL_CODES && 0 <= cur <= MAXBITS && count >= 1
    modifies freq
    ensures forall n :: 0 <= n < freq.Length ==>
        freq[n] == old(freq[n]) + Occurrences(Run(cur, count, minCount, prev), n)
  {
    forall n
      ensures Occurrences(Run(cur, count, minCount, prev), n) ==
        if count < minCount then (if cur == n then count else 0)
        else if cur != 0 then (if cur != prev && cur == n then 1 else 0) + (if n == REP_3_6 then 1 else 0)
        else if count <= 10 then (if n == REPZ_3_10 then 1 else 0) else (if n == REPZ_11_138 then 1 else 0)
    {
      RunOccurs(cur, count, minCount, prev, n);
    }
    if count < minCount {
      freq[cur] := freq[cur] + count;
    } else if cur != 0 {
      if cur != prev {
        freq[cur] := freq[cur] + 1;
      }
      freq[REP_3_6] := freq[REP_3_6] + 1;
    } else if count <= 10 {
      freq[REPZ_3_10] := freq[REPZ_3_10] + 1;
    } else {
      freq[REPZ_11_138] := freq[REPZ_11_138] + 1;
    }
  }

  lemma RunOccurs(cur: int, count: nat, minCount: nat, prev: int, n: int)
    requires 0 <= cur <= MAXBITS && count >= 1
    ensures Occurrences(Run(cur, count, minCount, prev), n) ==
      if count < minCount then (if cur == n then count else 0)
      else if cur != 0 then (if cur != prev && cur == n then 1 else 0) + (if n == REP_3_6 then 1 else 0)
      else if count <= 10 then (if n == REPZ_3_10 then 1 else 0) else (if n == REPZ_11_138 then 1 else 0)
  {
    hide Occurrences;
    OccurOnes(cur, count, n);
    OccurSingle(One(cur), Again(count - 1), n);
    OccurSingle(Again(count), Again(count), n);
    OccurSingle(Zeros(count), Again(count), n);
    OccurSingle(ManyZeros(count), Again(count), n);
  }

  /** The items sent before position n, when count lengths still wait, and those from there on make up the tree's. */
  ghost predicate Between(lens: seq<int>, done: seq<Item>, n: nat, prev: int, count: nat) {
    n <= |lens| && TreeItems(lens) == done + Items(lens, n, prev, count)
  }

  lemma BetweenStep(lens: seq<int>, done: seq<Item>, n: nat, prev: int, count: nat)
    requires Between(lens, done, n, prev, count) && n < |lens|
    ensures count + 1 < MaxCount(lens[n], prev) && lens[n] == NextLen(lens, n) ==>
        Between(lens, done, n + 1, prev, count + 1)
    ensures !(count + 1 < MaxCount(lens[n], prev) && lens[n] == NextLen(lens, n)) ==>
      Between(lens, done + Run(lens[n], count + 1, MinCount(lens[n], prev), prev), n + 1, lens[n], 0)
  {
    hide Items, Run;
    ItemsStep(lens, n, prev, count);
    var run, rest := Run(lens[n], count + 1, MinCount(lens[n], prev), prev), Items(lens, n + 1, lens[n], 0);
    assert done + (run + rest) == (done + run) + rest;
  }

  lemma BetweenStart(lens: seq<int>)
    ensures Between(lens, [], 0, -1, 0)
  {
    assert [] + Items(lens, 0, -1, 0) == Items(lens, 0, -1, 0);
  }

  lemma BetweenEnd(lens: seq<int>, done: seq<Item>, prev: int, count: nat)
    requires Between(lens, done, |lens|, prev, count)
    ensures done == TreeItems(lens)
  {
    NoItems(lens, prev, count);
  }

  /** The limits for the next run, as they are set when a run has ended. */
  lemma Limits(cur: int, next: int)
    ensures MaxCount(next, cur) == if next == 0 then 138 else if cur == next then 6 else 7
    ensures MinCount(next, cur) == if next == 0 then 3 else if cur == next then 3 else 4
  {
  }

  lemma Guarded(dl: array<int>, lens: seq<int>, maxCode: nat, n: nat)
    requires maxCode + 1 < dl.Length && lens == dl[..maxCode + 1] && dl[maxCode + 1] == 0xffff && n <= maxCode
    ensures lens[n] == dl[n] && NextLen(lens, n) == dl[n + 1]
  {
  }

  /** Adds up how often the bit length code's symbols will be needed for this tree. */
  method ScanTree(freq: array<int>, dl: array<int>, maxCode: nat)
    requires freq != dl && freq.Length >= BL_CODES && maxCode + 1 < dl.Length && IsLens(dl[..maxCode + 1])
    modifies freq, dl
    ensures dl[maxCode + 1] == 0xffff && forall n :: 0 <= n < dl.Length && n != maxCode + 1 ==> dl[n] == old(dl[n])
    ensures forall n :: 0 <= n < freq.Length ==> freq[n] == old(freq[n]) + Occurrences(TreeItems(dl[..maxCode + 1]), n)
  {
    hide Occurrences, Run, MaxCount, MinCount, NextLen, Between, TreeItems;
    ghost var lens: seq<int> := dl[..maxCode + 1];
    ghost var done: seq<Item> := [];
    var prevLen, nextLen, count, maxCount, minCount := -1, dl[0], 0, 7, 4;
    if nextLen == 0 {
      maxCount, minCount := 138, 3;
    }
    dl[maxCode + 1] := 0xffff;
    assert lens == dl[..maxCode + 1];
    Limits(-1, nextLen);
    BetweenStart(lens);
    NothingOccurs();
    var n := 0;
    while n <= maxCode
      invariant 0 <= n <= maxCode + 1 && 0 <= count && Between(lens, done, n, prevLen, count)
      invariant n <= maxCode ==>
          nextLen == lens[n] && maxCount == MaxCount(lens[n], prevLen) && minCount == MinCount(lens[n], prevLen)
      invariant forall n :: 0 <= n < freq.Length ==> freq[n] == old(freq[n]) + Occurrences(done, n)
      modifies freq
    {
      var curLen := nextLen;
      nextLen := dl[n + 1];
      Guarded(dl, lens, maxCode, n);
      BetweenStep(lens, done, n, prevLen, count);
      LensIn(lens, n);
      count := count + 1;
      n := n + 1;
      if count < maxCount && curLen == nextLen {
        SameLimits(lens, n - 1);
        continue;
      }
      CountRun(freq, curLen, count, minCount, prevLen);
      ghost var run := Run(curLen, count, minCount, prevLen);
      forall k
        ensures Occurrences(done + run, k) == Occurrences(done, k) + Occurrences(run, k)
      {
        OccurConcat(done, run, k);
      }
      done := done + run;
      count, prevLen := 0, curLen;
      Limits(curLen, nextLen);
      if nextLen == 0 {
        maxCount, minCount := 138, 3;
      } else if curLen == nextLen {
        maxCount, minCount := 6, 3;
      } else {
        maxCount, minCount := 7, 4;
      }
      LastOrNext(lens, n - 1);
    }
    assert dl[..maxCode + 1] == lens;
    BetweenEnd(lens, done, prevLen, count);
  }

  lemma NothingOccurs()
    ensures forall n :: Occurrences([], n) == 0
  {
  }

  lemma LensIn(lens: seq<int>, n: nat)
    requires IsLens(lens) && n < |lens|
    ensures 0 <= lens[n] <= MAXBITS
  {
  }

  /** The guard ends every run, so a run that goes on does so at a real length. */
  lemma SameLimits(lens: seq<int>, n: nat)
    requires IsLens(lens) && n < |lens| && lens[n] == NextLen(lens, n)
    ensures n + 1 < |lens| && lens[n + 1] == lens[n]
  {
  }

  lemma LastOrNext(lens: seq<int>, n: nat)
    requires n < |lens|
    ensures n + 1 < |lens| ==> NextLen(lens, n) == lens[n + 1]
  {
  }

  // ---------- sending ----------

  /** Every used symbol's code is its codeword, held backwards. */
  ghost predicate CodesFor(code: seq<int>, len: seq<int>, lens: seq<int>) {
    && |lens| <= |code| && |lens| <= |len| && IsLens(lens) && (forall n :: 0 <= n < |lens| ==> len[n] == lens[n])
    && forall n :: Uses(lens, n) ==> code[n] == Value(Codeword(lens, n))
  }

  /** send_code. */
  method SendCode(sink: BitSink, sym: nat, code: array<int>, len: array<int>, ghost lens: seq<int>)
    requires sink.Valid() && CodesFor(code[..], len[..], lens) && Uses(lens, sym)
    modifies sink`pending, sink`biBuf, sink`biValid
    ensures sink.Valid() && sink.Written() == old(sink.Written()) + Codeword(lens, sym)
  {
    hide Codeword, Value, Pow2;
    assert code[..][sym] == code[sym] && len[..][sym] == len[sym];
    ValueBound(Codeword(lens, sym));
    ValueBits(Codeword(lens, sym));
    sink.SendBits(code[sym], len[sym]);
  }

  lemma AppendBits(a: seq<bool>, b: seq<bool>, c: seq<bool>)
    ensures a + b + c == a + (b + c)
  {
  }

  /** One item: code and extra bits. */
  method SendItem(sink: BitSink, it: Item, code: array<int>, len: array<int>, ghost bl: seq<int>)
    requires sink.Valid() && CodesFor(code[..], len[..], bl) && LegalItem(it) && Uses(bl, SymOf(it))
    modifies sink`pending, sink`biBuf, sink`biValid
    ensures sink.Valid() && ExtraValue(it) >= 0 && sink.Written() == old(sink.Written()) + ItemBits(bl, it)
  {
    hide Codeword, Value, Pow2, BitsOf, CodesFor;
    ExtraFits(it);
    ghost var before := sink.Written();
    SendCode(sink, SymOf(it), code, len, bl);
    var extra := ExtraBits(SymOf(it));
    if extra > 0 {
      sink.SendBits(ExtraValue(it), extra);
    } else {
      NoExtra();
      assert before + Codeword(bl, SymOf(it)) == before + Codeword(bl, SymOf(it)) + [];
    }
    AppendBits(before, Codeword(bl, SymOf(it)), BitsOf(ExtraValue(it), extra));
  }

  lemma SingleBits(bl: seq<int>, it: Item)
    requires LegalItem(it) && Uses(bl, SymOf(it))
    ensures ExtraValue(it) >= 0 && ItemsBits(bl, [it]) == ItemBits(bl, it)
  {
    hide Codeword, BitsOf;
    assert [it][1..] == [];
    assert ItemsBits(bl, []) == [];
  }

  lemma OnesBits(bl: seq<int>, cur: int, count: nat)
    requires count >= 1 && Sendable(bl, Ones(cur, count))
    ensures LegalItem(One(cur)) && Uses(bl, cur)
    ensures Sendable(bl, Ones(cur, count - 1))
    ensures ItemsBits(bl, Ones(cur, count)) == ItemBits(bl, One(cur)) + ItemsBits(bl, Ones(cur, count - 1))
  {
    hide Codeword, BitsOf;
    assert Ones(cur, count)[0] == One(cur);
    assert Ones(cur, count)[1..] == Ones(cur, count - 1);
  }

  method SendOnes(sink: BitSink, cur: int, count0: nat, code: array<int>, len: array<int>, ghost bl: seq<int>)
    requires sink.Valid() && CodesFor(code[..], len[..], bl) && count0 >= 1 && Sendable(bl, Ones(cur, count0))
    modifies sink`pending, sink`biBuf, sink`biValid
    ensures sink.Valid() && sink.Written() == old(sink.Written()) + ItemsBits(bl, Ones(cur, count0))
  {
    hide CodesFor, ItemBits, ItemsBits;
    var count := count0;
    ghost var done: seq<bool> := [];
    assert old(sink.Written()) + [] == sink.Written();
    while count != 0
      invariant 0 <= count <= count0 && sink.Valid() && Sendable(bl, Ones(cur, count))
      invariant sink.Written() == old(sink.Written()) + done
      invariant done + ItemsBits(bl, Ones(cur, count)) == ItemsBits(bl, Ones(cur, count0))
      modifies sink`pending, sink`biBuf, sink`biValid
    {
      OnesBits(bl, cur, count);
      SendItem(sink, One(cur), code, len, bl);
      AppendBits(old(sink.Written()), done, ItemBits(bl, One(cur)));
      AppendBits(done, ItemBits(bl, One(cur)), ItemsBits(bl, Ones(cur, count - 1)));
      done := done + ItemBits(bl, One(cur));
      count := count - 1;
    }
    NothingSent(bl, cur);
    assert done + [] == done;
  }

  lemma NothingSent(bl: seq<int>, cur: int)
    ensures Ones(cur, 0) == [] && ItemsBits(bl, []) == []
  {
  }

  /** What one run sends. */
  method SendRun(sink: BitSink, cur: int, count: nat, minCount: nat, prev: int, code: array<int>, len: array<int>,
                 ghost bl: seq<int>)
    requires sink.Valid() && CodesFor(code[..], len[..], bl) && 0 <= cur <= MAXBITS && count >= 1
    requires Sendable(bl, Run(cur, count, minCount, prev))
    modifies sink`pending, sink`biBuf, sink`biValid
    ensures sink.Valid() && sink.Written() == old(sink.Written()) + ItemsBits(bl, Run(cur, count, minCount, prev))
  {
    hide CodesFor, ItemBits, ItemsBits, LegalItem, Sendable;
    if count < minCount {
      SendOnes(sink, cur, count, code, len, bl);
    } else if cur != 0 {
      if cur != prev {
        TwoItems(bl, One(cur), Again(count - 1));
        SendItem(sink, One(cur), code, len, bl);
        SendItem(sink, Again(count - 1), code, len, bl);
        AppendBits(old(sink.Written()), ItemBits(bl, One(cur)), ItemBits(bl, Again(count - 1)));
      } else {
        OneItem(bl, Again(count));
        SendItem(sink, Again(count), code, len, bl);
      }
    } else if count <= 10 {
      OneItem(bl, Zeros(count));
      SendItem(sink, Zeros(count), code, len, bl);
    } else {
      OneItem(bl, ManyZeros(count));
      SendItem(sink, ManyZeros(count), code, len, bl);
    }
  }

  lemma OneItem(bl: seq<int>, it: Item)
    requires Sendable(bl, [it])
    ensures LegalItem(it) && Uses(bl, SymOf(it)) && ExtraValue(it) >= 0 && ItemsBits(bl, [it]) == ItemBits(bl, it)
  {
    hide ItemBits, ItemsBits;
    assert LegalItem([it][0]) && Uses(bl, SymOf([it][0]));
    SingleBits(bl, it);
  }

  lemma TwoItems(bl: seq<int>, a: Item, b: Item)
    requires Sendable(bl, [a, b])
    ensures LegalItem(a) && Uses(bl, SymOf(a)) && LegalItem(b) && Uses(bl, SymOf(b)) && ExtraValue(a) >= 0
    ensures ExtraValue(b) >= 0
    ensures ItemsBits(bl, [a, b]) == ItemBits(bl, a) + ItemBits(bl, b)
  {
    hide ItemBits, ItemsBits;
    assert LegalItem([a, b][0]) && Uses(bl, SymOf([a, b][0])) && LegalItem([a, b][1]) && Uses(bl, SymOf([a, b][1]));
    SingleBits(bl, a);
    SingleBits(bl, b);
    ItemsBitsConcat(bl, [a], [b]);
    assert [a] + [b] == [a, b];
  }

  /** Whatever of the tree's items has been sent, the rest can be sent too. */
  lemma RunSendable(bl: seq<int>, all: seq<Item>, done: seq<Item>, run: seq<Item>, rest: seq<Item>)
    requires Sendable(bl, all) && all == done + run + rest
    ensures Sendable(bl, done) && Sendable(bl, run) && Sendable(bl, done + run)
    ensures ItemsBits(bl, done + run) == ItemsBits(bl, done) + ItemsBits(bl, run)
  {
    hide LegalItem, ItemsBits, SymOf;
    forall i | 0 <= i < |run|
      ensures LegalItem(run[i]) && Uses(bl, SymOf(run[i]))
    {
      assert run[i] == all[|done| + i];
    }
    forall i | 0 <= i < |done|
      ensures LegalItem(done[i]) && Uses(bl, SymOf(done[i]))
    {
      assert done[i] == all[i];
    }
    ItemsBitsConcat(bl, done, run);
  }

  lemma RunPart(bl: seq<int>, lens: seq<int>, done: seq<Item>, run: seq<Item>, n: nat, prev: int)
    requires Between(lens, done + run, n, prev, 0) && Sendable(bl, TreeItems(lens))
    ensures Sendable(bl, done) && Sendable(bl, run) && Sendable(bl, done + run)
    ensures ItemsBits(bl, done + run) == ItemsBits(bl, done) + ItemsBits(bl, run)
  {
    hide Sendable, ItemsBits, Items;
    RunSendable(bl, TreeItems(lens), done, run, Items(lens, n, prev, 0));
  }

  /** Sends a tree's lengths. The guard behind them has been set while scanning. */
  method SendTree(sink: BitSink, dl: array<int>, maxCode: nat, code: array<int>, len: array<int>, ghost bl: seq<int>)
    requires sink.Valid() && maxCode + 1 < dl.Length && IsLens(dl[..maxCode + 1]) && dl[maxCode + 1] == 0xffff
    requires CodesFor(code[..], len[..], bl) && Sendable(bl, TreeItems(dl[..maxCode + 1]))
    modifies sink`pending, sink`biBuf, sink`biValid
    ensures sink.Valid() && sink.Written() == old(sink.Written()) + ItemsBits(bl, TreeItems(dl[..maxCode + 1]))
  {
    hide Run, MaxCount, MinCount, NextLen, Between, TreeItems, CodesFor, Sendable, ItemsBits;
    ghost var lens: seq<int> := dl[..maxCode + 1];
    ghost var done: seq<Item> := [];
    var prevLen, nextLen, count, maxCount, minCount := -1, dl[0], 0, 7, 4;
    if nextLen == 0 {
      maxCount, minCount := 138, 3;
    }
    Limits(-1, nextLen);
    BetweenStart(lens);
    NothingSendable(bl);
    assert sink.Written() + [] == sink.Written();
    var n := 0;
    while n <= maxCode
      invariant 0 <= n <= maxCode + 1 && 0 <= count && Between(lens, done, n, prevLen, count) && sink.Valid()
      invariant Sendable(bl, done)
      invariant n <= maxCode ==>
          nextLen == lens[n] && maxCount == MaxCount(lens[n], prevLen) && minCount == MinCount(lens[n], prevLen)
      invariant sink.Written() == old(sink.Written()) + ItemsBits(bl, done)
      modifies sink`pending, sink`biBuf, sink`biValid
    {
      var curLen := nextLen;
      nextLen := dl[n + 1];
      Guarded(dl, lens, maxCode, n);
      BetweenStep(lens, done, n, prevLen, count);
      LensIn(lens, n);
      count := count + 1;
      n := n + 1;
      if count < maxCount && curLen == nextLen {
        SameLimits(lens, n - 1);
        continue;
      }
      ghost var run := Run(curLen, count, minCount, prevLen);
      RunPart(bl, lens, done, run, n, curLen);
      SendRun(sink, curLen, count, minCount, prevLen, code, len, bl);
      AppendBits(old(sink.Written()), ItemsBits(bl, done), ItemsBits(bl, run));
      done := done + run;
      count, prevLen := 0, curLen;
      Limits(curLen, nextLen);
      if nextLen == 0 {
        maxCount, minCount := 138, 3;
      } else if curLen == nextLen {
        maxCount, minCount := 6, 3;
      } else {
        maxCount, minCount := 7, 4;
      }
      LastOrNext(lens, n - 1);
    }
    BetweenEnd(lens, done, prevLen, count);
  }

  lemma NothingSendable(bl: seq<int>)
    ensures Sendable(bl, []) && ItemsBits(bl, []) == []
  {
  }
}

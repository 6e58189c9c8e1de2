/** How code lengths are transmitted: runs of equal lengths become repeat codes, which the decoder expands again
    (section 3.2.7 of RFC 1951). */
module CodeLengthCode {
  import opened Bits
  import opened DeflateCodes
  import opened EntryCode
  import opened InflateTable
  import opened SortedCodes
  import opened TableBuilder
  import opened ZBits

  // ---------- items ----------

  /** A single length, the previous length again, or a short or a long run of zeros. */
  datatype Item = One(len: int) | Again(count: int) | Zeros(count: int) | ManyZeros(count: int)

  const REP_3_6 := 16
  const REPZ_3_10 := 17
  const REPZ_11_138 := 18
  const BL_CODES := 19

  /** Repeat counts are in the ranges their extra bits can hold. */
  predicate LegalItem(it: Item) {
    match it
    case One(l) => 0 <= l <= MAXBITS
    case Again(n) => 3 <= n <= 6
    case Zeros(n) => 3 <= n <= 10
    case ManyZeros(n) => 11 <= n <= 138
  }

  function SymOf(it: Item): int {
    match it
    case One(l) => l
    case Again(_) => REP_3_6
    case Zeros(_) => REPZ_3_10
    case ManyZeros(_) => REPZ_11_138
  }

  /** Extra bits by symbol. */
  function ExtraBits(sym: int): nat {
    if sym == REP_3_6 then 2 else if sym == REPZ_3_10 then 3 else if sym == REPZ_11_138 then 7 else 0
  }

  function ExtraValue(it: Item): int {
    match it
    case One(_) => 0
    case Again(n) => n - 3
    case Zeros(n) => n - 3
    case ManyZeros(n) => n - 11
  }

  /** How a run of count times cur is sent when prev was sent before it. */
  function Run(cur: int, count: nat, minCount: nat, prev: int): seq<Item> {
    if count < minCount then Ones(cur, count)
    else if cur != 0 then
      if cur != prev then [One(cur), Again(count - 1)] else [Again(count)]
    else if count <= 10 then [Zeros(count)]
    else [ManyZeros(count)]
  }

  function Ones(cur: int, count: nat): (r: seq<Item>)
    ensures |r| == count
  {
    seq(count, i => One(cur))
  }

  /** The longest run that is sent in one piece, and the shortest that is worth a repeat code, for a run of cur
      behind prev. */
  function MaxCount(cur: int, prev: int): nat {
    if cur == 0 then 138 else if cur == prev then 6 else 7
  }

  function MinCount(cur: int, prev: int): nat {
    if cur == 0 then 3 else if cur == prev then 3 else 4
  }

  /** The length behind position n; behind the last one stands a guard that equals no length. */
  function NextLen(lens: seq<int>, n: nat): int
    requires n < |lens|
  {
    if n + 1 < |lens| then lens[n + 1] else 0xffff
  }

  /** The items for the lengths from position n on, of which the count before n still wait to be sent. */
  function Items(lens: seq<int>, n: nat, prev: int, count: nat): seq<Item>
    requires n <= |lens|
    decreases |lens| - n
  {
    if n == |lens| then []
    else if count + 1 < MaxCount(lens[n], prev) && lens[n] == NextLen(lens, n) then Items(lens, n + 1, prev, count + 1)
    else Run(lens[n], count + 1, MinCount(lens[n], prev), prev) + Items(lens, n + 1, lens[n], 0)
  }

  /** The items for one tree. */
  function TreeItems(lens: seq<int>): seq<Item> {
    Items(lens, 0, -1, 0)
  }

  // ---------- expanding ----------

  function Copies(v: int, n: nat): (s: seq<int>)
    ensures |s| == n
  {
    seq(n, i => v)
  }

  /** The lengths after one more item. A repeat needs something to repeat. */
  function Take(have: seq<int>, it: Item): seq<int> {
    match it
    case One(l) => have + [l]
    case Again(n) => if have == [] || n < 0 then have else have + Copies(have[|have|-1], n)
    case Zeros(n) => if n < 0 then have else have + Copies(0, n)
    case ManyZeros(n) => if n < 0 then have else have + Copies(0, n)
  }

  function TakeAll(have: seq<int>, items: seq<Item>): seq<int>
    decreases |items|
  {
    if items == [] then have else TakeAll(Take(have, items[0]), items[1..])
  }

  /** No repeat code comes before anything that it could repeat. */
  predicate Fits(have: seq<int>, items: seq<Item>)
    decreases |items|
  {
    items == [] || ((items[0].Again? ==> have != []) && Fits(Take(have, items[0]), items[1..]))
  }

  lemma {:induction false} FitsConcat(have: seq<int>, a: seq<Item>, b: seq<Item>)
    requires Fits(have, a) && Fits(TakeAll(have, a), b)
    ensures Fits(have, a + b)
    decreases |a|
  {
    if a == [] {
      assert a + b == b;
    } else {
      assert (a + b)[0] == a[0] && (a + b)[1..] == a[1..] + b;
      FitsConcat(Take(have, a[0]), a[1..], b);
    }
  }

  lemma {:induction false} TakeConcat(have: seq<int>, a: seq<Item>, b: seq<Item>)
    ensures TakeAll(have, a + b) == TakeAll(TakeAll(have, a), b)
    decreases |a|
  {
    if a == [] {
      assert a + b == b;
    } else {
      assert (a + b)[0] == a[0] && (a + b)[1..] == a[1..] + b;
      TakeConcat(Take(have, a[0]), a[1..], b);
    }
  }

  lemma {:induction false} TakeOnes(have: seq<int>, cur: int, count: nat)
    ensures TakeAll(have, Ones(cur, count)) == have + Copies(cur, count) && Fits(have, Ones(cur, count))
    decreases count
  {
    if count == 0 {
      assert have + Copies(cur, 0) == have;
    } else {
      assert Ones(cur, count)[1..] == Ones(cur, count - 1);
      TakeOnes(have + [cur], cur, count - 1);
      assert have + [cur] + Copies(cur, count - 1) == have + Copies(cur, count);
    }
  }

  lemma TakeOneOrTwo(have: seq<int>, a: Item, b: Item)
    ensures TakeAll(have, [a]) == Take(have, a) && TakeAll(have, [a, b]) == Take(Take(have, a), b)
    ensures Fits(have, [a]) == (a.Again? ==> have != [])
    ensures (a.Again? ==> have != []) && (b.Again? ==> Take(have, a) != []) ==> Fits(have, [a, b])
  {
    assert [a][1..] == [] && [a, b][1..] == [b] && [b][1..] == [];
    assert TakeAll(Take(have, a), [b]) == TakeAll(Take(Take(have, a), b), []);
  }

  /** A run comes back whole. prev is what stands before it, or nothing. */
  lemma TakeRun(have: seq<int>, cur: int, count: nat, prev: int)
    requires 1 <= count <= MaxCount(cur, prev) && 0 <= cur <= MAXBITS
    requires prev != -1 ==> have != [] && have[|have|-1] == prev
    ensures TakeAll(have, Run(cur, count, MinCount(cur, prev), prev)) == have + Copies(cur, count)
    ensures Fits(have, Run(cur, count, MinCount(cur, prev), prev))
    ensures forall i :: 0 <= i < |Run(cur, count, MinCount(cur, prev), prev)| ==>
        LegalItem(Run(cur, count, MinCount(cur, prev), prev)[i])
  {
    hide TakeAll, Fits;
    if count < MinCount(cur, prev) {
      TakeOnes(have, cur, count);
    } else if cur != 0 && cur != prev {
      TakeOneOrTwo(have, One(cur), Again(count - 1));
      assert have + [cur] + Copies(cur, count - 1) == have + Copies(cur, count);
    } else if cur != 0 {
      TakeOneOrTwo(have, Again(count), Again(count));
    } else if count <= 10 {
      TakeOneOrTwo(have, Zeros(count), Again(count));
    } else {
      TakeOneOrTwo(have, ManyZeros(count), Again(count));
    }
  }

  lemma NothingTaken(have: seq<int>)
    ensures TakeAll(have, []) == have && Fits(have, [])
  {
  }

  lemma ItemsStep(lens: seq<int>, n: nat, prev: int, count: nat)
    requires n < |lens|
    ensures Items(lens, n, prev, count) ==
      if count + 1 < MaxCount(lens[n], prev) && lens[n] == NextLen(lens, n) then Items(lens, n + 1, prev, count + 1)
      else Run(lens[n], count + 1, MinCount(lens[n], prev), prev) + Items(lens, n + 1, lens[n], 0)
  {
  }

  ghost predicate LegalItems(items: seq<Item>) {
    forall i :: 0 <= i < |items| ==> LegalItem(items[i])
  }

  lemma RunThenRest(have: seq<int>, run: seq<Item>, rest: seq<Item>, piece: seq<int>, tail: seq<int>)
    requires TakeAll(have, run) == have + piece && Fits(have, run) && LegalItems(run)
    requires TakeAll(have + piece, rest) == have + piece + tail && Fits(have + piece, rest) && LegalItems(rest)
    ensures TakeAll(have, run + rest) == have + (piece + tail) && Fits(have, run + rest) && LegalItems(run + rest)
  {
    hide TakeAll, Fits, LegalItem;
    TakeConcat(have, run, rest);
    FitsConcat(have, run, rest);
    assert have + piece + tail == have + (piece + tail);
  }

  /** The lengths from n - count on come back behind what has been sent. */
  lemma {:induction false} TakeItems(have: seq<int>, lens: seq<int>, n: nat, prev: int, count: nat)
    requires count <= n <= |lens| && forall i :: 0 <= i < |lens| ==> 0 <= lens[i] <= MAXBITS
    requires prev != -1 ==> have != [] && have[|have|-1] == prev
    requires count > 0 ==> n < |lens| && count < MaxCount(lens[n], prev)
    requires forall i :: n - count <= i < n ==> lens[i] == lens[n]
    ensures TakeAll(have, Items(lens, n, prev, count)) == have + lens[n - count..]
    ensures LegalItems(Items(lens, n, prev, count))
    ensures Fits(have, Items(lens, n, prev, count))
    decreases |lens| - n
  {
    hide Take, TakeAll, Run, MinCount, LegalItems, LegalItem, Items, Fits;
    if n == |lens| {
      NothingTaken(have);
      NoItems(lens, prev, count);
      assert lens[n - count..] == [];
    } else {
      ItemsStep(lens, n, prev, count);
      if count + 1 < MaxCount(lens[n], prev) && lens[n] == NextLen(lens, n) {
        TakeItems(have, lens, n + 1, prev, count + 1);
      } else {
        SendRun(have, lens, n, prev, count);
        TakeItems(have + Copies(lens[n], count + 1), lens, n + 1, lens[n], 0);
        RunThenRest(have, Run(lens[n], count + 1, MinCount(lens[n], prev), prev), Items(lens, n + 1, lens[n], 0),
                    Copies(lens[n], count + 1), lens[n + 1..]);
        assert lens[n - count..n + 1] + lens[n + 1..] == lens[n - count..];
      }
    }
  }

  lemma NoItems(lens: seq<int>, prev: int, count: nat)
    ensures Items(lens, |lens|, prev, count) == [] && LegalItems([])
  {
  }

  lemma SendRun(have: seq<int>, lens: seq<int>, n: nat, prev: int, count: nat)
    requires count <= n < |lens| && 0 <= lens[n] <= MAXBITS && count < MaxCount(lens[n], prev)
    requires prev != -1 ==> have != [] && have[|have|-1] == prev
    requires forall i :: n - count <= i < n ==> lens[i] == lens[n]
    ensures TakeAll(have, Run(lens[n], count + 1, MinCount(lens[n], prev), prev)) == have + Copies(lens[n], count + 1)
    ensures Fits(have, Run(lens[n], count + 1, MinCount(lens[n], prev), prev))
    ensures LegalItems(Run(lens[n], count + 1, MinCount(lens[n], prev), prev))
    ensures Copies(lens[n], count + 1) == lens[n - count..n + 1]
  {
    hide Take, TakeAll, Run, MinCount, LegalItem, Fits;
    TakeRun(have, lens[n], count + 1, prev);
  }

  /** The items of a tree expand to its lengths, behind whatever was sent before. */
  lemma TreeRoundTrip(have: seq<int>, lens: seq<int>)
    requires IsLens(lens)
    ensures TakeAll(have, TreeItems(lens)) == have + lens && LegalItems(TreeItems(lens)) && Fits(have, TreeItems(lens))
  {
    TakeItems(have, lens, 0, -1, 0);
  }

  // ---------- bits ----------

  /** An item as it is sent: its codeword in the bit length code, then its extra bits. */
  function ItemBits(bl: seq<int>, it: Item): seq<bool>
    requires 0 <= SymOf(it) < |bl| && 0 <= bl[SymOf(it)] && ExtraValue(it) >= 0
  {
    Codeword(bl, SymOf(it)) + BitsOf(ExtraValue(it), ExtraBits(SymOf(it)))
  }

  ghost predicate Sendable(bl: seq<int>, items: seq<Item>) {
    forall i :: 0 <= i < |items| ==> LegalItem(items[i]) && Uses(bl, SymOf(items[i]))
  }

  ghost function ItemsBits(bl: seq<int>, items: seq<Item>): seq<bool>
    requires Sendable(bl, items)
    decreases |items|
  {
    if items == [] then [] else ItemBits(bl, items[0]) + ItemsBits(bl, items[1..])
  }

  lemma {:induction false} ItemsBitsConcat(bl: seq<int>, a: seq<Item>, b: seq<Item>)
    requires Sendable(bl, a) && Sendable(bl, b)
    ensures Sendable(bl, a + b) && ItemsBits(bl, a + b) == ItemsBits(bl, a) + ItemsBits(bl, b)
    decreases |a|
  {
    hide LegalItem, SymOf;
    if a == [] {
      assert a + b == b;
    } else {
      assert (a + b)[0] == a[0] && (a + b)[1..] == a[1..] + b;
      ItemsBitsConcat(bl, a[1..], b);
    }
  }

  /** One item by the bit length code, and what it makes of the lengths read so far; total lengths are wanted. Only
      the value of an entry counts: without any codes every bit reads as a length of zero. */
  ghost function ReadItem(bl: seq<int>, bits: seq<bool>, have: seq<int>, total: nat): (r: Read<seq<int>>)
    requires |bl| <= BL_CODES
    ensures r.Val? && |have| < total ==> |have| < |r.value| <= total
  {
    match EntryRead(bl, CODES, bits)
    case Short => Short
    case Bad => Bad
    case Val(e, rest) =>
      var sym := e.val;
      if sym < 16 then Val(have + [sym], rest)
      else
        match TakeLow(rest, if sym == 16 then 2 else if sym == 17 then 3 else 7)
        case Short => Short
        case Bad => Bad
        case Val(v, after) =>
          var it := if sym == 16 then Again(3 + v) else if sym == 17 then Zeros(3 + v) else ManyZeros(11 + v);
          if (sym == 16 && have == []) || |have| + it.count > total then Bad else Val(Take(have, it), after)
  }

  /** CODELENS: lengths until there are as many as wanted. */
  ghost function ReadLens(bl: seq<int>, bits: seq<bool>, have: seq<int>, total: nat): Read<seq<int>>
    requires |bl| <= BL_CODES
    decreases total - |have|
  {
    if |have| >= total then Val(have, bits)
    else
      match ReadItem(bl, bits, have, total)
      case Short => Short
      case Bad => Bad
      case Val(now, rest) => ReadLens(bl, rest, now, total)
  }

  lemma TakeGrows(have: seq<int>, it: Item)
    requires LegalItem(it) && (it.Again? ==> have != [])
    ensures |Take(have, it)| > |have|
  {
  }

  lemma {:induction false} TakeAllGrows(have: seq<int>, items: seq<Item>)
    requires LegalItems(items) && Fits(have, items)
    ensures |TakeAll(have, items)| >= |have| + |items|
    decreases |items|
  {
    hide Take, LegalItem;
    if items != [] {
      assert LegalItem(items[0]);
      TakeGrows(have, items[0]);
      forall i | 0 <= i < |items| - 1
        ensures LegalItem(items[1..][i])
      {
        assert LegalItem(items[i + 1]);
      }
      TakeAllGrows(Take(have, items[0]), items[1..]);
    }
  }

  /** A sent item is read back. */
  lemma ItemSent(bl: seq<int>, it: Item, have: seq<int>, total: nat, rest: seq<bool>)
    requires Readable(bl, CODES) && LegalItem(it) && Uses(bl, SymOf(it))
    requires (it.Again? ==> have != []) && |Take(have, it)| <= total
    ensures ReadItem(bl, ItemBits(bl, it) + rest, have, total) == Val(Take(have, it), rest)
  {
    hide EntryRead, Codeword, UsedKraft, Pow2, TakeLow, BitsOf;
    var sym, extra := SymOf(it), BitsOf(ExtraValue(it), ExtraBits(SymOf(it)));
    EntrySent(bl, CODES, sym, extra + rest);
    assert ItemBits(bl, it) + rest == Codeword(bl, sym) + (extra + rest);
    ExtraFits(it);
    if sym < 16 {
      NoExtra();
      assert extra + rest == rest;
    } else {
      TakeSent(ExtraValue(it), ExtraBits(sym), rest);
    }
  }

  lemma NoExtra()
    ensures BitsOf(0, 0) == []
  {
  }

  lemma ExtraFits(it: Item)
    requires LegalItem(it)
    ensures 0 <= ExtraValue(it) < Pow2(ExtraBits(SymOf(it)))
  {
    assert Pow2(2) == 4 && Pow2(3) == 8;
    assert Pow2(5) == 32 && Pow2(7) == 128;
  }

  /** Sent items are read back to the lengths they stand for, and nothing behind them is touched. */
  lemma {:induction false} ItemsSent(bl: seq<int>, items: seq<Item>, have: seq<int>, rest: seq<bool>)
    requires Readable(bl, CODES) && Sendable(bl, items) && LegalItems(items) && Fits(have, items)
    ensures ReadLens(bl, ItemsBits(bl, items) + rest, have, |TakeAll(have, items)|) == Val(TakeAll(have, items), rest)
    decreases |items|
  {
    hide ReadItem, Take, LegalItem, UsedKraft, Pow2, ItemBits, SymOf;
    if items == [] {
      assert ItemsBits(bl, items) + rest == rest;
    } else {
      var it := items[0];
      var now, total := Take(have, it), |TakeAll(have, items)|;
      assert LegalItem(it) && Uses(bl, SymOf(it));
      ExtraFits(it);
      Tail(bl, items);
      TakeGrows(have, it);
      TakeAllGrows(now, items[1..]);
      assert ItemsBits(bl, items) + rest == ItemBits(bl, it) + (ItemsBits(bl, items[1..]) + rest);
      ItemSent(bl, it, have, total, ItemsBits(bl, items[1..]) + rest);
      ItemsSent(bl, items[1..], now, rest);
    }
  }

  lemma Tail(bl: seq<int>, items: seq<Item>)
    requires Sendable(bl, items) && items != []
    ensures Sendable(bl, items[1..]) && LegalItems(items[1..]) && LegalItems(items)
  {
    hide LegalItem, SymOf;
  }

  /** The two trees' lengths, sent one after the other, come back as one array. */
  lemma LengthsRoundTrip(bl: seq<int>, l: seq<int>, d: seq<int>, rest: seq<bool>)
    requires Readable(bl, CODES) && IsLens(l) && IsLens(d)
    requires Sendable(bl, TreeItems(l)) && Sendable(bl, TreeItems(d))
    ensures ReadLens(bl, ItemsBits(bl, TreeItems(l)) + ItemsBits(bl, TreeItems(d)) + rest, [], |l| + |d|) ==
        Val(l + d, rest)
  {
    hide UsedKraft, Pow2, LegalItem, SymOf, TreeItems, Fits, TakeAll, ReadLens, ItemsBits;
    TreeRoundTrip([], l);
    assert [] + l == l;
    TreeRoundTrip(l, d);
    var items := TreeItems(l) + TreeItems(d);
    TakeConcat([], TreeItems(l), TreeItems(d));
    FitsConcat([], TreeItems(l), TreeItems(d));
    ItemsBitsConcat(bl, TreeItems(l), TreeItems(d));
    ItemsSent(bl, items, [], rest);
  }
}

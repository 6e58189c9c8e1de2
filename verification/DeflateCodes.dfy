/** The Huffman codes of RFC 1951, section 3.2.2: code numbers from code lengths, a length of zero meaning that
    the symbol does not occur. */
module DeflateCodes {
  import opened Counting
  import opened Bits
  import opened BitIO
  import opened Canonical
  import opened SortedCodes

  ghost predicate IsLens(lens: seq<int>) {
    forall i :: 0 <= i < |lens| ==> 0 <= lens[i] <= MAXBITS
  }

  /** The smallest code number of length n; unused symbols do not count. */
  function NextCode(lens: seq<int>, n: nat): nat {
    if n == 0 then 0 else 2 * (NextCode(lens, n - 1) + (if n == 1 then 0 else Count(lens, n - 1)))
  }

  /** Symbols of one length have consecutive numbers. */
  function DeflateCode(lens: seq<int>, s: nat): nat
    requires s < |lens| && 0 <= lens[s]
  {
    NextCode(lens, lens[s]) + Count(lens[..s], lens[s])
  }

  /** The codeword of symbol s, most significant bit first as it is transmitted. */
  function Codeword(lens: seq<int>, s: nat): (c: seq<bool>)
    requires s < |lens| && 0 <= lens[s]
    ensures |c| == lens[s]
  {
    ToBits(DeflateCode(lens, s), lens[s])
  }

  /** What the used symbols' codewords of length at most n take up of all strings of length n. */
  function UsedKraft(lens: seq<int>, n: nat): nat {
    if lens == [] then 0
    else
      var last := lens[|lens|-1];
      UsedKraft(lens[..|lens|-1], n) + (if 0 < last <= n then Pow2(n - last) else 0)
  }

  lemma {:induction false} UsedKraftStep(lens: seq<int>, n: nat)
    ensures UsedKraft(lens, n + 1) == 2 * UsedKraft(lens, n) + Count(lens, n + 1)
    ensures UsedKraft(lens, 0) == 0
  {
    if lens != [] {
      UsedKraftStep(lens[..|lens|-1], n);
    }
  }

  // ---------- the used symbols in the order of their codewords ----------

  /** Used symbols by length, equal lengths by symbol. */
  ghost function Order(lens: seq<int>): (w: seq<int>)
    ensures |w| == |lens| - Count(lens, 0)
  {
    Listing(lens)[Count(lens, 0)..]
  }

  /** The lengths in that order. */
  ghost function Along(lens: seq<int>): (l: seq<int>)
    ensures |l| == |lens| - Count(lens, 0) == |Order(lens)|
  {
    Permuted(lens, Listing(lens))[Count(lens, 0)..]
  }

  /** Symbol and place of the k-th used symbol. */
  lemma OrderAt(lens: seq<int>, k: nat)
    requires IsLens(lens) && k < |Order(lens)|
    ensures 0 <= Order(lens)[k] < |lens| && Along(lens)[k] == lens[Order(lens)[k]]
    ensures Place(lens, Order(lens)[k]) == Count(lens, 0) + k
  {
    hide Count, Place, Unplaces, Listing;
    UnplacesInverse(lens, Listing(lens), Count(lens, 0) + k);
  }

  /** Before the used symbols stand the unused ones, and no others. */
  lemma UsedPlaces(lens: seq<int>, s: nat)
    requires IsLens(lens) && s < |lens|
    ensures lens[s] == 0 <==> Place(lens, s) < Count(lens, 0)
  {
    BelowNone(lens, 0);
    if lens[s] == 0 {
      CountWhole(lens, 0, s);
    } else {
      BelowStep(lens, 0);
      BelowMonotone(lens, 1, lens[s]);
    }
  }

  /** Every used symbol stands in the order. */
  lemma OrderReaches(lens: seq<int>, s: nat) returns (k: nat)
    requires IsLens(lens) && s < |lens| && lens[s] > 0
    ensures k < |Order(lens)| && Order(lens)[k] == s && k == Place(lens, s) - Count(lens, 0)
  {
    hide Count, Listing;
    UsedPlaces(lens, s);
    PlaceAt(lens, s);
    k := Place(lens, s) - Count(lens, 0);
  }

  lemma AlongRises(lens: seq<int>)
    requires IsLens(lens)
    ensures Rising(Along(lens))
  {
    hide Count, Place, Order, Along;
    var l := Along(lens);
    forall i | 0 <= i < |l|
      ensures 1 <= l[i] <= MAXBITS
    {
      OrderAt(lens, i);
      UsedPlaces(lens, Order(lens)[i]);
    }
    forall i, j | 0 <= i <= j < |l|
      ensures l[i] <= l[j]
    {
      OrderAt(lens, i);
      OrderAt(lens, j);
      if l[j] < l[i] {
        PlaceOrder(lens, Order(lens)[j], Order(lens)[i]);
      }
    }
  }

  // ---------- counts ----------

  lemma {:induction false} CountConcat(a: seq<int>, b: seq<int>, c: int)
    ensures Count(a + b, c) == Count(a, c) + Count(b, c)
    decreases |b|
  {
    if b == [] {
      assert a + b == a;
    } else {
      CountConcat(a, b[..|b|-1], c);
      assert (a + b)[..|a + b|-1] == a + b[..|b|-1];
    }
  }

  /** The order leaves out nothing that has a length. */
  lemma AlongCounts(lens: seq<int>, c: int)
    requires IsLens(lens) && c >= 1
    ensures Count(Along(lens), c) == Count(lens, c)
  {
    hide Place, Unplaces, Listing;
    var g, z := Permuted(lens, Listing(lens)), Count(lens, 0);
    CountPermuted(lens, Listing(lens), c);
    assert g == g[..z] + g[z..];
    CountConcat(g[..z], g[z..], c);
    forall j | 0 <= j < z
      ensures g[j] == 0
    {
      UnplacesInverse(lens, Listing(lens), j);
      UsedPlaces(lens, Listing(lens)[j]);
    }
    NoCount(g[..z], c);
  }

  /** The Kraft sum depends on the counts alone. */
  lemma {:induction false} AlongKraft(lens: seq<int>, n: nat)
    requires IsLens(lens)
    ensures UsedKraft(lens, n) == Kraft(Along(lens), n)
  {
    hide Along, Count, Kraft, UsedKraft;
    AlongRises(lens);
    if n == 0 {
      KraftZero(Along(lens));
      UsedKraftStep(lens, 0);
    } else {
      AlongKraft(lens, n - 1);
      KraftStep(Along(lens), n - 1);
      UsedKraftStep(lens, n - 1);
      AlongCounts(lens, n);
    }
  }

  lemma {:induction false} BelowSum(a: seq<int>, b: seq<int>, n: nat)
    requires forall i :: 0 <= i < |a| ==> a[i] >= 1
    requires forall i :: 0 <= i < |b| ==> b[i] >= 0
    requires forall c :: 1 <= c < n ==> Count(a, c) == Count(b, c)
    ensures n >= 1 ==> Below(a, n) == Below(b, n) - Count(b, 0)
    decreases n
  {
    hide Count, Below;
    if n == 1 {
      BelowNone(a, 1);
      BelowNone(b, 0);
      BelowStep(b, 0);
    } else if n > 1 {
      BelowSum(a, b, n - 1);
      BelowStep(a, n - 1);
      BelowStep(b, n - 1);
    }
  }

  /** Counts of a prefix of rising lengths. */
  lemma RisingPrefix(l: seq<int>, k: nat, c: int)
    requires Rising(l) && k < |l|
    ensures c < l[k] ==> Count(l[..k], c) == Count(l, c)
    ensures Count(l[..k], l[k]) == k - Below(l, l[k])
  {
    hide Count, Below;
    assert l == l[..k] + l[k..];
    if c < l[k] {
      CountConcat(l[..k], l[k..], c);
      NoCount(l[k..], c);
    }
    BelowAll(l[..k], l[k] + 1);
    BelowStep(l[..k], l[k]);
    BelowConcat(l[..k], l[k..], l[k]);
    BelowNone(l[k..], l[k]);
  }

  lemma {:induction false} BelowConcat(a: seq<int>, b: seq<int>, c: int)
    ensures Below(a + b, c) == Below(a, c) + Below(b, c)
    decreases |b|
  {
    if b == [] {
      assert a + b == a;
    } else {
      BelowConcat(a, b[..|b|-1], c);
      assert (a + b)[..|a + b|-1] == a + b[..|b|-1];
    }
  }

  /** Among the codewords before the k-th, as many of each length as the code numbers count. */
  lemma PrefixCounts(lens: seq<int>, k: nat, c: int)
    requires IsLens(lens) && k < |Along(lens)| && 1 <= c
    ensures c < Along(lens)[k] ==> Count(Along(lens)[..k], c) == Count(lens, c)
    ensures 0 <= Order(lens)[k] < |lens| && Along(lens)[k] == lens[Order(lens)[k]]
    ensures Count(Along(lens)[..k], Along(lens)[k]) == Count(lens[..Order(lens)[k]], Along(lens)[k])
  {
    hide Along, Order, Count, Below;
    var l := Along(lens);
    AlongRises(lens);
    RisingPrefix(l, k, c);
    AlongCounts(lens, c);
    OrderAt(lens, k);
    forall c | 1 <= c < l[k]
      ensures Count(l, c) == Count(lens, c)
    {
      AlongCounts(lens, c);
    }
    BelowSum(l, lens, l[k]);
    assert Place(lens, Order(lens)[k]) == Below(lens, l[k]) + Count(lens[..Order(lens)[k]], l[k]);
  }

  lemma {:induction false} FirstIsNext(a: seq<int>, lens: seq<int>, n: nat)
    requires forall i :: 0 <= i < |a| ==> a[i] >= 1
    requires forall c :: 1 <= c < n ==> Count(a, c) == Count(lens, c)
    ensures First(a, n) == NextCode(lens, n)
    decreases n
  {
    hide Count;
    if n > 0 {
      FirstIsNext(a, lens, n - 1);
      KraftZero(a);
    }
  }

  /** What the codewords before the k-th use up is the code number of its symbol. */
  lemma NumberIsCode(lens: seq<int>, k: nat)
    requires IsLens(lens) && k < |Along(lens)|
    ensures 0 <= Order(lens)[k] < |lens| && 0 <= lens[Order(lens)[k]] == Along(lens)[k]
    ensures Number(Along(lens), k) == DeflateCode(lens, Order(lens)[k])
  {
    hide Along, Order, Count, Kraft, First, NextCode;
    var l := Along(lens);
    AlongRises(lens);
    PrefixCounts(lens, k, 1);
    FirstIsKraft(l[..k], l[k]);
    forall c | 1 <= c < l[k]
      ensures Count(l[..k], c) == Count(lens, c)
    {
      PrefixCounts(lens, k, c);
    }
    FirstIsNext(l[..k], lens, l[k]);
  }

  lemma WordIsCodeword(lens: seq<int>, k: nat)
    requires IsLens(lens) && k < |Along(lens)|
    ensures 0 <= Order(lens)[k] < |lens| && 0 <= lens[Order(lens)[k]] == Along(lens)[k]
    ensures Word(Along(lens), k) == Codeword(lens, Order(lens)[k])
  {
    hide Along, Order, Number, DeflateCode, ToBits;
    NumberIsCode(lens, k);
  }

  // ---------- complete codes ----------

  /** Whether the lengths use exactly all strings. */
  ghost predicate Complete(lens: seq<int>) {
    UsedKraft(lens, MAXBITS) == Pow2(MAXBITS)
  }

  lemma {:induction false} FindWord(l: seq<int>, v: nat, n: nat) returns (k: nat)
    requires n <= |l| && v < Kraft(l[..n], MAXBITS)
    ensures k < n && Kraft(l[..k], MAXBITS) <= v < Kraft(l[..k + 1], MAXBITS)
  {
    hide Kraft;
    if n == 0 {
      NoKraft(l);
    } else if v < Kraft(l[..n - 1], MAXBITS) {
      k := FindWord(l, v, n - 1);
    } else {
      k := n - 1;
    }
  }

  lemma NoKraft(l: seq<int>)
    ensures Kraft(l[..0], MAXBITS) == 0
  {
  }

  /** Every bit string begins with a codeword of a complete code. */
  lemma WordCovers(l: seq<int>, x: seq<bool>) returns (k: nat)
    requires Rising(l) && Kraft(l, MAXBITS) == Pow2(MAXBITS) && |x| == MAXBITS
    ensures k < |l| && Word(l, k) <= x
  {
    hide Kraft, Pow2, Number, ToBits, FromBits;
    var v := FromBits(x);
    FromBitsBound(x);
    assert l[..|l|] == l;
    k := FindWord(l, v, |l|);
    var p := Pow2(MAXBITS - l[k]);
    KraftAppend(l, k, MAXBITS);
    KraftExact(l[..k], l[k], MAXBITS);
    NumberIs(l, k);
    NumberRoundTrip(x);
    ToBitsPrefix(v, MAXBITS, l[k]);
    MulSwap(Number(l, k), p);
    DivUnique(v, p, Number(l, k), v - Number(l, k) * p);
    NumberRoundTrip(x[..l[k]]);
  }

  lemma NotBothBegin(a: seq<bool>, b: seq<bool>, x: seq<bool>)
    requires |a| <= |b| && b[..|a|] != a
    ensures !(a <= x && b <= x)
  {
    if b <= x {
      assert b[..|a|] == x[..|a|];
    }
  }

  /** In a complete code every string of MAXBITS bits begins with the codeword of exactly one used symbol. */
  lemma CompleteCovers(lens: seq<int>, x: seq<bool>) returns (s: nat)
    requires IsLens(lens) && Complete(lens) && |x| == MAXBITS
    ensures s < |lens| && lens[s] > 0 && Codeword(lens, s) <= x
    ensures forall u :: 0 <= u < |lens| && lens[u] > 0 && u != s ==> !(Codeword(lens, u) <= x)
  {
    hide Kraft, Pow2, Word, Codeword, Along, Order, UsedKraft;
    AlongKraft(lens, MAXBITS);
    AlongRises(lens);
    var l := Along(lens);
    var k := WordCovers(l, x);
    WordIsCodeword(lens, k);
    s := Order(lens)[k];
    forall u | 0 <= u < |lens| && lens[u] > 0 && u != s
      ensures !(Codeword(lens, u) <= x)
    {
      var j := OrderReaches(lens, u);
      WordIsCodeword(lens, j);
      if j < k {
        WordsApart(l, j, k);
        NotBothBegin(Word(l, j), Word(l, k), x);
      } else {
        WordsApart(l, k, j);
        NotBothBegin(Word(l, k), Word(l, j), x);
      }
    }
  }

  /** No used symbol's codeword begins another one's. */
  lemma CodewordsApart(lens: seq<int>, s: nat, u: nat)
    requires IsLens(lens) && UsedKraft(lens, MAXBITS) <= Pow2(MAXBITS)
    requires s < |lens| && u < |lens| && s != u && lens[s] > 0 && lens[u] > 0
    ensures !(Codeword(lens, s) <= Codeword(lens, u))
  {
    hide Kraft, Pow2, Word, Codeword, Along, Order, UsedKraft;
    AlongKraft(lens, MAXBITS);
    AlongRises(lens);
    var l := Along(lens);
    var i := OrderReaches(lens, s);
    var j := OrderReaches(lens, u);
    WordIsCodeword(lens, i);
    WordIsCodeword(lens, j);
    if i < j {
      WordsApart(l, i, j);
    } else {
      WordsApart(l, j, i);
      NotBothBegin(Word(l, j), Word(l, i), Word(l, j));
    }
  }
}

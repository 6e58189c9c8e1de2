/** inflate_table around its main loop: counting and checking the lengths, sorting the symbols, and what the
    finished table means for decoding. */
module InflateTable {
  import opened Counting
  import opened Bits
  import opened BitIO
  import opened Canonical
  import opened SortedCodes
  import opened HuffStep
  import opened TableSlots
  import opened TableSpace
  import opened DeflateCodes
  import opened TableBuilder

  /** The mark of a code that does not occur. */
  const INVALID := Entry(64, 1, 0)

  ghost predicate Uses(lens: seq<int>, s: int) {
    0 <= s < |lens| && lens[s] > 0
  }

  /** Lengths that are turned down: more codewords than strings, or fewer, unless the only length is 1. No
      codewords at all are accepted. */
  ghost predicate Rejected(kind: Kind, lens: seq<int>) {
    && (exists s :: Uses(lens, s))
    && (UsedKraft(lens, MAXBITS) > Pow2(MAXBITS)
        || (UsedKraft(lens, MAXBITS) < Pow2(MAXBITS) && (kind == CODES || exists s :: Uses(lens, s) && lens[s] != 1)))
  }

  /** The requested index bits, forced between the shortest and the longest length. */
  ghost predicate IsRoot(lens: seq<int>, bits: nat, root: nat) {
    if forall s :: !Uses(lens, s) then root == 1
    else
      && (root <= bits || forall s :: Uses(lens, s) ==> root <= lens[s])
      && (root >= bits || forall s :: Uses(lens, s) ==> lens[s] <= root)
      && (exists s :: Uses(lens, s) && root <= lens[s])
      && exists s :: Uses(lens, s) && lens[s] <= root
  }

  /** Space for every table that can be built. */
  function Space(kind: Kind, bits: nat): nat {
    match kind
    case CODES => if bits == 0 then 2 else Pow2(bits)
    case LENS => ENOUGH_LENS
    case DISTS => ENOUGH_DISTS
  }

  /** The entries that the tables of a code take. */
  ghost function Needed(lens: seq<int>, root: nat): nat
    requires IsLens(lens)
  {
    Pow2(root) + Entries(Along(lens), root, |Along(lens)|)
  }

  /** The sizes that inflate asks for. */
  predicate Usual(kind: Kind, symbols: nat, bits: nat) {
    match kind
    case CODES => true
    case LENS => symbols <= 286 && bits == 9
    case DISTS => symbols <= 30 && bits == 6
  }

  ghost predicate Tabled(t: seq<Entry>, tbl: nat, root: nat, lens: seq<int>, kind: Kind) {
    && IsLens(lens) && |lens| <= Symbols(kind) && tbl + Pow2(root) <= |t|
    && (forall s :: Uses(lens, s) ==>
          Reaches(t, tbl, root, Codeword(lens, s), Meaning(kind, s).op, Meaning(kind, s).val))
    && ((forall s :: !Uses(lens, s)) ==> root == 1 && t[tbl] == t[tbl + 1] == INVALID)
    && ((exists s :: Uses(lens, s)) && !Complete(lens) ==>
          root == 1 && t[tbl + 1] == INVALID && exists s :: Uses(lens, s) && Codeword(lens, s) == [false])
  }

  // ---------- counting and checking ----------

  method CountLens(lens: seq<int>) returns (count: array<int>)
    requires IsLens(lens)
    ensures fresh(count) && count.Length == MAXBITS + 1
    ensures forall c :: 0 <= c <= MAXBITS ==> count[c] == Count(lens, c)
  {
    count := new int[MAXBITS + 1](i => 0);
    var sym := 0;
    while sym < |lens|
      invariant 0 <= sym <= |lens|
      invariant forall c :: 0 <= c <= MAXBITS ==> count[c] == Count(lens[..sym], c)
    {
      forall c | 0 <= c <= MAXBITS
        ensures Count(lens[..sym + 1], c) == Count(lens[..sym], c) + (if lens[sym] == c then 1 else 0)
      {
        CountAppend(lens, sym, c);
      }
      count[lens[sym]] := count[lens[sym]] + 1;
      sym := sym + 1;
    }
    assert lens[..sym] == lens;
  }

  lemma CountedUse(lens: seq<int>, c: int)
    requires c > 0
    ensures Count(lens, c) != 0 <==> exists s :: Uses(lens, s) && lens[s] == c
  {
    if forall s :: 0 <= s < |lens| ==> lens[s] != c {
      NoCount(lens, c);
    } else {
      var s :| 0 <= s < |lens| && lens[s] == c;
      CountWhole(lens, c, s);
      assert Uses(lens, s);
    }
  }

  /** The longest length in use, zero if there is none. */
  method Longest(count: array<int>, ghost lens: seq<int>) returns (max: nat)
    requires IsLens(lens) && count.Length == MAXBITS + 1 && forall c :: 0 <= c <= MAXBITS ==> count[c] == Count(lens, c)
    ensures max <= MAXBITS && forall s :: Uses(lens, s) ==> lens[s] <= max
    ensures max > 0 ==> count[max] != 0
  {
    hide Count;
    max := MAXBITS;
    while max >= 1
      invariant 0 <= max <= MAXBITS && forall s :: Uses(lens, s) ==> lens[s] <= max
    {
      CountedUse(lens, max);
      if count[max] != 0 {
        break;
      }
      max := max - 1;
    }
  }

  method Shortest(count: array<int>, max: nat, ghost lens: seq<int>) returns (min: nat)
    requires IsLens(lens) && count.Length == MAXBITS + 1 && forall c :: 0 <= c <= MAXBITS ==> count[c] == Count(lens, c)
    requires 1 <= max <= MAXBITS && count[max] != 0
    ensures 1 <= min <= max && count[min] != 0 && forall s :: Uses(lens, s) ==> min <= lens[s]
  {
    hide Count;
    min := 1;
    while min < max
      invariant 1 <= min <= max && forall s :: Uses(lens, s) ==> min <= lens[s]
    {
      CountedUse(lens, min);
      if count[min] != 0 {
        break;
      }
      min := min + 1;
    }
  }

  lemma UsedKraftLevel(lens: seq<int>, n: nat)
    requires IsLens(lens) && n <= MAXBITS && UsedKraft(lens, MAXBITS) <= Pow2(MAXBITS)
    ensures UsedKraft(lens, n) <= Pow2(n)
  {
    hide Kraft, UsedKraft, Pow2;
    AlongKraft(lens, n);
    AlongKraft(lens, MAXBITS);
    KraftLevel(Along(lens), n, MAXBITS);
  }

  /** How many strings of MAXBITS bits the code leaves over; negative when the lengths want too many. */
  method StringsLeft(count: array<int>, ghost lens: seq<int>) returns (left: int)
    requires IsLens(lens) && count.Length == MAXBITS + 1 && forall c :: 0 <= c <= MAXBITS ==> count[c] == Count(lens, c)
    ensures left < 0 <==> UsedKraft(lens, MAXBITS) > Pow2(MAXBITS)
    ensures left >= 0 ==> left == Pow2(MAXBITS) - UsedKraft(lens, MAXBITS)
  {
    hide Count, UsedKraft, Pow2;
    left := 1;
    var len := 1;
    UsedKraftStep(lens, 0);
    Pow2Step(0);
    while len <= MAXBITS
      invariant 1 <= len <= MAXBITS + 1 && 0 <= left == Pow2(len - 1) - UsedKraft(lens, len - 1)
    {
      UsedKraftStep(lens, len - 1);
      Pow2Step(len - 1);
      left := left * 2;
      left := left - count[len];
      if left < 0 {
        if UsedKraft(lens, MAXBITS) <= Pow2(MAXBITS) {
          UsedKraftLevel(lens, len);
        }
        return;
      }
      len := len + 1;
    }
  }

  // ---------- sorting the symbols ----------

  ghost predicate Offsets(offs: seq<int>, lens: seq<int>, sym: nat) {
    |offs| == MAXBITS + 1 && sym <= |lens|
    && forall c :: 1 <= c <= MAXBITS ==> offs[c] == Below(lens, c) - Count(lens, 0) + Count(lens[..sym], c)
  }

  ghost predicate Entered(work: seq<int>, lens: seq<int>, sym: nat) {
    forall s :: 0 <= s < sym <= |lens| && lens[s] > 0 ==>
      Count(lens, 0) <= Place(lens, s) < Count(lens, 0) + |work| && work[Place(lens, s) - Count(lens, 0)] == s
  }

  lemma OffsetsNext(offs: seq<int>, lens: seq<int>, sym: nat)
    requires IsLens(lens) && Offsets(offs, lens, sym) && sym < |lens|
    ensures lens[sym] == 0 ==> Offsets(offs, lens, sym + 1)
    ensures lens[sym] > 0 ==> Offsets(offs[lens[sym] := offs[lens[sym]] + 1], lens, sym + 1)
  {
    hide Below, Count;
    forall c | 1 <= c <= MAXBITS
      ensures Count(lens[..sym + 1], c) == Count(lens[..sym], c) + (if lens[sym] == c then 1 else 0)
    {
      CountAppend(lens, sym, c);
    }
  }

  lemma EnteredNext(work: seq<int>, lens: seq<int>, sym: nat)
    requires IsLens(lens) && sym < |lens| <= |work| && Entered(work, lens, sym)
    ensures lens[sym] == 0 ==> Entered(work, lens, sym + 1)
    ensures lens[sym] > 0 ==> 0 <= Place(lens, sym) - Count(lens, 0) < |work|
    ensures lens[sym] > 0 ==> Entered(work[Place(lens, sym) - Count(lens, 0) := sym], lens, sym + 1)
  {
    hide Count, Place;
    UsedPlaces(lens, sym);
    PlaceAt(lens, sym);
    PlacesApart(lens, sym);
  }

  lemma AllEntered(work: seq<int>, lens: seq<int>)
    requires IsLens(lens) && Entered(work, lens, |lens|) && |lens| <= |work|
    ensures |Order(lens)| <= |work| && work[..|Order(lens)|] == Order(lens)
  {
    hide Count, Place, Order;
    forall k | 0 <= k < |Order(lens)|
      ensures work[k] == Order(lens)[k]
    {
      OrderAt(lens, k);
      UsedPlaces(lens, Order(lens)[k]);
    }
  }

  /** Counting sort of the used symbols by length. */
  method SortSymbols(lens: seq<int>, count: array<int>, work: array<int>)
    requires IsLens(lens) && count.Length == MAXBITS + 1 && forall c :: 0 <= c <= MAXBITS ==> count[c] == Count(lens, c)
    requires |lens| <= work.Length && work != count
    modifies work
    ensures |Order(lens)| <= work.Length && work[..|Order(lens)|] == Order(lens)
  {
    hide Count, Below, Place, Order;
    var offs := new int[MAXBITS + 1](i => 0);
    BelowNone(lens, 0);
    BelowStep(lens, 0);
    var len := 1;
    while len < MAXBITS
      invariant 1 <= len <= MAXBITS && forall c :: 1 <= c <= len ==> offs[c] == Below(lens, c) - Count(lens, 0)
      modifies offs
    {
      BelowStep(lens, len);
      offs[len + 1] := offs[len] + count[len];
      len := len + 1;
    }
    forall c | 1 <= c <= MAXBITS
      ensures Count(lens[..0], c) == 0
    {
      CountNone(lens, c);
    }
    var sym := 0;
    while sym < |lens|
      invariant 0 <= sym <= |lens| && Offsets(offs[..], lens, sym) && Entered(work[..], lens, sym)
      modifies offs, work
    {
      ghost var o: seq<int> := offs[..];
      ghost var w: seq<int> := work[..];
      OffsetsNext(o, lens, sym);
      EnteredNext(w, lens, sym);
      PlaceAt(lens, sym);
      if lens[sym] != 0 {
        work[offs[lens[sym]]] := sym;
        offs[lens[sym]] := offs[lens[sym]] + 1;
        assert work[..] == w[Place(lens, sym) - Count(lens, 0) := sym];
        assert offs[..] == o[lens[sym] := o[lens[sym]] + 1];
      }
      sym := sym + 1;
    }
    AllEntered(work[..], lens);
  }

  // ---------- the whole function ----------

  lemma AlongUses(lens: seq<int>)
    requires IsLens(lens)
    ensures forall k :: 0 <= k < |Along(lens)| ==> Uses(lens, Order(lens)[k]) && lens[Order(lens)[k]] == Along(lens)[k]
    ensures forall s :: Uses(lens, s) ==> exists k :: 0 <= k < |Along(lens)| && Order(lens)[k] == s
    ensures Along(lens) == [] <==> forall s :: !Uses(lens, s)
  {
    hide Along, Order, Count, Place;
    AlongRises(lens);
    forall k | 0 <= k < |Along(lens)|
      ensures Uses(lens, Order(lens)[k]) && lens[Order(lens)[k]] == Along(lens)[k]
    {
      OrderAt(lens, k);
    }
    forall s | Uses(lens, s)
      ensures exists k :: 0 <= k < |Along(lens)| && Order(lens)[k] == s
    {
      var k := OrderReaches(lens, s);
    }
    if Along(lens) != [] {
      assert Uses(lens, Order(lens)[0]);
    }
  }

  /** The last of the rising lengths is the longest, the first the shortest. */
  lemma AlongEnds(lens: seq<int>, min: nat, max: nat)
    requires IsLens(lens) && 1 <= min <= max && Count(lens, max) != 0 && Count(lens, min) != 0
    requires forall s :: Uses(lens, s) ==> min <= lens[s] <= max
    ensures Along(lens) != [] && Along(lens)[|Along(lens)| - 1] == max && Along(lens)[0] == min
  {
    hide Along, Order, Count;
    AlongRises(lens);
    AlongUses(lens);
    CountedUse(lens, max);
    CountedUse(lens, min);
    var l := Along(lens);
    var s :| Uses(lens, s) && lens[s] == max;
    var k :| 0 <= k < |l| && Order(lens)[k] == s;
    assert l[k] <= l[|l| - 1];
    var u :| Uses(lens, u) && lens[u] == min;
    var j :| 0 <= j < |l| && Order(lens)[j] == u;
    assert l[0] <= l[j];
  }

  /** Placed along the order means placed for every used symbol. */
  lemma AllPlaced(t: seq<Entry>, tbl: nat, root: nat, lens: seq<int>, kind: Kind)
    requires IsLens(lens) && |lens| <= Symbols(kind) && tbl + Pow2(root) <= |t|
    requires Placed(t, tbl, root, Along(lens), Order(lens), kind, |Along(lens)|)
    ensures forall s :: Uses(lens, s) ==>
        Reaches(t, tbl, root, Codeword(lens, s), Meaning(kind, s).op, Meaning(kind, s).val)
  {
    hide Along, Order, Count, Reaches, Meaning, Codeword, Word, Pow2;
    forall s | Uses(lens, s)
      ensures Reaches(t, tbl, root, Codeword(lens, s), Meaning(kind, s).op, Meaning(kind, s).val)
    {
      var k := OrderReaches(lens, s);
      WordIsCodeword(lens, k);
      assert ReachesSym(t, tbl, root, Along(lens), Order(lens), kind, k);
    }
  }

  lemma {:induction false} KraftOnes(l: seq<int>)
    requires forall k :: 0 <= k < |l| ==> l[k] == 1
    ensures Kraft(l, 1) == |l|
  {
    if l != [] {
      KraftOnes(l[..|l|-1]);
    }
  }

  /** An accepted code that leaves strings over has the single codeword 0. */
  lemma OneCodeword(l: seq<int>)
    requires Subscribed(l) && l != [] && l[|l|-1] == 1 && Kraft(l, MAXBITS) < Pow2(MAXBITS)
    ensures |l| == 1 && Word(l, 0) == [false]
  {
    hide Kraft, Pow2, ToBits, FromBits;
    assert forall k :: 0 <= k < |l| ==> l[k] <= l[|l| - 1];
    LastWord(l);
    var k := |l| - 1;
    NumberFits(l, k);
    KraftOnes(l[..k]);
    Pow2Step(0);
    BitsRoundTrip(Number(l, k), 1);
    SuccNumber(Word(l, k));
    FalseNumber();
  }

  lemma FalseNumber()
    ensures ToBits(0, 1) == [false] && ToBits(1, 1) == [true] && AllTrue([true]) && Succ([false]) == [true]
    ensures Value([true]) == 1
  {
    assert [false][..0] == [];
    assert [true][1..] == [];
    assert ToBits(0, 0) == [];
  }

  /** The backwards successor is zero exactly behind the last codeword of a complete code. */
  lemma LeftOver(l: seq<int>)
    requires Subscribed(l) && l != []
    ensures Value(Succ(Word(l, |l| - 1))) == 0 <==> Kraft(l, MAXBITS) == Pow2(MAXBITS)
  {
    hide Kraft, Pow2, Word, Value, Succ, AllTrue, FromBits;
    var w := Word(l, |l| - 1);
    LastWord(l);
    ValueZeros(|w|);
    assert Zeros(|w|) == seq(|w|, i => false);
    if AllTrue(w) {
      SuccOnes(w);
    } else {
      SuccNumber(w);
      NoNumber(|w|);
      if Value(Succ(w)) == 0 {
        ValueInjective(Succ(w), Zeros(|w|));
      }
    }
  }

  /** Marking the one slot that the single codeword 0 leaves over. */
  lemma MarkKeeps(t: seq<Entry>, tbl: nat, l: seq<int>, work: seq<int>, kind: Kind, used: nat)
    requires Placed(t, tbl, 1, l, work, kind, |l|) && |l| == 1 && l[0] == 1 && Word(l, 0) == [false] && used >= Pow2(1)
    ensures tbl + 1 < |t| && Placed(t[tbl + 1 := INVALID], tbl, 1, l, work, kind, |l|)
    ensures Inside(t[tbl + 1 := INVALID], tbl, 1, l, |l|, used)
  {
    hide Word, Meaning;
    var t' := t[tbl + 1 := INVALID];
    assert ReachesSym(t, tbl, 1, l, work, kind, 0);
    assert Pow2(1) == 2;
    TrueBegins();
    assert Reaches(t', tbl, 1, Word(l, 0), Meaning(kind, work[0]).op, Meaning(kind, work[0]).val);
  }

  lemma TrueBegins()
    ensures !Begins(1, 1, [false])
  {
    assert BitsOf(1, 1) == [true];
  }

  /** Builds the decoding table for the code with the given lengths at table[tbl..]. */
  method Build(kind: Kind, lens: seq<int>, table: array<Entry>, tbl: nat, bits: nat, work: array<int>)
    returns (ret: int, used: nat, root: nat)
    requires IsLens(lens) && |lens| <= Symbols(kind) && |lens| <= work.Length
    requires kind == CODES ==> forall i :: 0 <= i < |lens| ==> lens[i] <= bits
    requires tbl + Space(kind, bits) <= table.Length
    modifies table, work
    ensures ret == -1 <==> Rejected(kind, lens)
    ensures ret == -1 || ret == 0 || (ret == 1 && kind != CODES)
    ensures ret == 1 ==> (exists s :: Uses(lens, s) && lens[s] > root) || Pow2(root) > Space(kind, bits)
    ensures Usual(kind, |lens|, bits) ==> ret != 1
    ensures IsRoot(lens, bits, root)
    ensures ret == 0 ==> used <= Space(kind, bits) && Tabled(table[..tbl + used], tbl, root, lens, kind)
    ensures table[..tbl] == old(table[..tbl])
  {
    hide Along, Order, Count, Place, Pow2, UsedKraft, Reaches, Meaning, Codeword, Word, Value, Kraft, Rejected, Tabled,
         IsRoot, Placed, Succ;
    var count := CountLens(lens);
    root := bits;
    used := 0;
    var max := Longest(count, lens);
    if root > max {
      root := max;
    }
    if max == 0 {
      EmptyTable(table, tbl, lens, kind, bits);
      NoneTabled(table[..tbl + 2], tbl, lens, kind);
      return 0, 2, 1;
    }
    var min := Shortest(count, max, lens);
    if root < min {
      root := min;
    }
    RootBetween(lens, bits, min, max, root);
    var left := StringsLeft(count, lens);
    RejectedIs(kind, lens, max, left);
    if left < 0 {
      return -1, 0, root;
    }
    if left > 0 && (kind == CODES || max != 1) {
      return -1, 0, root;
    }
    SortSymbols(lens, count, work);
    CountedUse(lens, max);
    ret, used := MakeTable(kind, lens, table, tbl, bits, root, min, max, count, work);
    if ret == 1 && Usual(kind, |lens|, bits) {
      SpaceSuffices(kind, lens, bits, root);
    }
  }

  // ---------- the space that is needed ----------

  lemma {:induction false} LongOnes(l: seq<int>, root: nat, k: nat)
    requires root <= MAXBITS && k <= |l| && forall i :: 0 <= i < |l| ==> root <= l[i] <= MAXBITS
    ensures Kraft(l[..k], MAXBITS) <= k * Pow2(MAXBITS - root)
  {
    hide Kraft, Pow2;
    if k > 0 {
      LongOnes(l, root, k - 1);
      KraftAppend(l, k - 1, MAXBITS);
      Pow2Monotone(MAXBITS - l[k - 1], MAXBITS - root);
      Spread(k - 1, 1, Pow2(MAXBITS - root));
    } else {
      NothingUsed(MAXBITS);
    }
  }

  /** Few symbols cannot fill a code if all their lengths exceed the requested index bits. */
  lemma NotAllLong(l: seq<int>, bits: nat, root: nat)
    requires Filling(l) && bits < root <= MAXBITS && |l| * Pow2(MAXBITS - bits - 1) < Pow2(MAXBITS)
    ensures exists i :: 0 <= i < |l| && l[i] < root
  {
    hide Kraft, Pow2;
    if forall i :: 0 <= i < |l| ==> root <= l[i] {
      LongOnes(l, root, |l|);
      assert l[..|l|] == l;
      Pow2Monotone(MAXBITS - root, MAXBITS - bits - 1);
      MulMono(Pow2(MAXBITS - root), Pow2(MAXBITS - bits - 1), |l|);
      MulSwap(|l|, Pow2(MAXBITS - root));
      MulSwap(|l|, Pow2(MAXBITS - bits - 1));
    }
  }

  /** 852 and 592 entries are enough for every complete code of 286 or 30 symbols. */
  lemma SpaceSuffices(kind: Kind, lens: seq<int>, bits: nat, root: nat)
    requires IsLens(lens) && Complete(lens) && IsRoot(lens, bits, root) && kind != CODES && Usual(kind, |lens|, bits)
    ensures Needed(lens, root) <= Space(kind, bits)
  {
    hide Along, Order, Kraft, Entries, UsedKraft, Pow2, Count;
    var l := Along(lens);
    AlongRises(lens);
    AlongUses(lens);
    AlongKraft(lens, MAXBITS);
    SmallPowers();
    NotEmpty(l);
    OrderSize(lens);
    if root > bits {
      NotAllLong(l, bits, root);
    } else if root == bits {
      if kind == LENS {
        LensEntries(l);
      } else {
        DistsEntries(l);
      }
    } else {
      AllShort(l, root, |l|);
      Pow2Monotone(root, bits);
    }
  }

  lemma NotEmpty(l: seq<int>)
    requires Kraft(l, MAXBITS) == Pow2(MAXBITS)
    ensures l != []
  {
  }

  lemma OrderSize(lens: seq<int>)
    requires IsLens(lens)
    ensures |Along(lens)| <= |lens|
  {
  }

  lemma RootBetween(lens: seq<int>, bits: nat, min: nat, max: nat, root: nat)
    requires 1 <= min <= max && Count(lens, max) != 0 && Count(lens, min) != 0
    requires forall s :: Uses(lens, s) ==> min <= lens[s] <= max
    requires root == if bits < min then min else if bits > max then max else bits
    ensures IsRoot(lens, bits, root)
  {
    hide Count;
    CountedUse(lens, max);
    CountedUse(lens, min);
  }

  lemma RejectedIs(kind: Kind, lens: seq<int>, max: nat, left: int)
    requires IsLens(lens) && max >= 1 && Count(lens, max) != 0 && forall s :: Uses(lens, s) ==> lens[s] <= max
    requires left < 0 <==> UsedKraft(lens, MAXBITS) > Pow2(MAXBITS)
    requires left >= 0 ==> left == Pow2(MAXBITS) - UsedKraft(lens, MAXBITS)
    ensures Rejected(kind, lens) <==> left < 0 || (left > 0 && (kind == CODES || max != 1))
  {
    hide Count, UsedKraft, Pow2;
    CountedUse(lens, max);
  }

  /** No codewords: two entries that report an invalid code. */
  method EmptyTable(table: array<Entry>, tbl: nat, lens: seq<int>, kind: Kind, bits: nat)
    requires IsLens(lens) && |lens| <= Symbols(kind) && (forall s :: !Uses(lens, s))
    requires tbl + Space(kind, bits) <= table.Length
    modifies table
    ensures 2 <= Space(kind, bits) && IsRoot(lens, bits, 1) && table[tbl] == table[tbl + 1] == INVALID
    ensures !Rejected(kind, lens)
    ensures table[..tbl] == old(table[..tbl])
  {
    hide Codeword, UsedKraft, Reaches, Meaning;
    assert Pow2(1) == 2;
    table[tbl] := INVALID;
    table[tbl + 1] := INVALID;
  }

  lemma NoneTabled(t: seq<Entry>, tbl: nat, lens: seq<int>, kind: Kind)
    requires IsLens(lens) && |lens| <= Symbols(kind) && (forall s :: !Uses(lens, s))
    requires tbl + 2 <= |t| && t[tbl] == t[tbl + 1] == INVALID
    ensures Tabled(t, tbl, 1, lens, kind)
  {
    hide Codeword, UsedKraft, Reaches, Meaning;
    assert Pow2(1) == 2;
  }

  /** Nothing of a table lies beyond the space that it uses. */
  lemma TabledWithin(t: seq<Entry>, tbl: nat, root: nat, lens: seq<int>, kind: Kind, used: nat)
    requires Tabled(t, tbl, root, lens, kind) && tbl + used <= |t| && Pow2(root) <= used && 1 <= root
    requires Inside(t, tbl, root, Along(lens), |Along(lens)|, used)
    ensures Tabled(t[..tbl + used], tbl, root, lens, kind)
  {
    hide Codeword, UsedKraft, Meaning, Reaches, Along, Order, Pow2, Word, Within;
    var t' := t[..tbl + used];
    TwoSlots(root);
    forall s | Uses(lens, s)
      ensures Reaches(t', tbl, root, Codeword(lens, s), Meaning(kind, s).op, Meaning(kind, s).val)
    {
      var k := OrderReaches(lens, s);
      WordIsCodeword(lens, k);
      assert Within(t, tbl, root, Word(Along(lens), k), used);
      ReachesWithin(t, tbl, root, Codeword(lens, s), Meaning(kind, s).op, Meaning(kind, s).val, used);
    }
  }

  lemma InsideSize(t: seq<Entry>, tbl: nat, root: nat, l: seq<int>, used: nat)
    requires Inside(t, tbl, root, l, |l|, used)
    ensures Pow2(root) <= used
  {
  }

  lemma TwoSlots(root: nat)
    requires 1 <= root
    ensures Pow2(root) >= 2
  {
  }

  lemma ReachesWithin(t: seq<Entry>, tbl: nat, root: nat, c: seq<bool>, op: int, val: int, used: nat)
    requires Reaches(t, tbl, root, c, op, val) && tbl + used <= |t| && Pow2(root) <= used
    requires Within(t, tbl, root, c, used)
    ensures Reaches(t[..tbl + used], tbl, root, c, op, val)
  {
    hide Begins, RootIndex, Pow2;
  }

  /** What stands behind a table does not matter. */
  lemma TabledMore(t: seq<Entry>, u: seq<Entry>, tbl: nat, root: nat, lens: seq<int>, kind: Kind)
    requires Tabled(t, tbl, root, lens, kind) && t <= u && 1 <= root
    ensures Tabled(u, tbl, root, lens, kind)
  {
    hide Codeword, UsedKraft, Meaning, Reaches, Pow2;
    TwoSlots(root);
    forall s | Uses(lens, s)
      ensures Reaches(u, tbl, root, Codeword(lens, s), Meaning(kind, s).op, Meaning(kind, s).val)
    {
      ReachesMore(t, u, tbl, root, Codeword(lens, s), Meaning(kind, s).op, Meaning(kind, s).val);
    }
  }

  lemma ReachesMore(t: seq<Entry>, u: seq<Entry>, tbl: nat, root: nat, c: seq<bool>, op: int, val: int)
    requires Reaches(t, tbl, root, c, op, val) && t <= u
    ensures Reaches(u, tbl, root, c, op, val)
  {
    hide Begins, RootIndex, Pow2;
  }

  /** Fills the table and marks what an incomplete code leaves over. */
  method MakeTable(kind: Kind, lens: seq<int>, table: array<Entry>, tbl: nat, bits: nat, root: nat, min: nat, max: nat,
                   count: array<int>, work: array<int>) returns (ret: int, used: nat)
    requires IsLens(lens) && |lens| <= Symbols(kind) && count.Length == MAXBITS + 1 && work != count
    requires kind == CODES ==> forall i :: 0 <= i < |lens| ==> lens[i] <= bits
    requires tbl + Space(kind, bits) <= table.Length
    requires forall c :: 0 <= c <= MAXBITS ==> count[c] == Count(lens, c)
    requires 1 <= min <= max <= MAXBITS && count[max] != 0 && count[min] != 0
    requires forall s :: Uses(lens, s) ==> min <= lens[s] <= max
    requires root == if bits < min then min else if bits > max then max else bits
    requires UsedKraft(lens, MAXBITS) <= Pow2(MAXBITS) && (UsedKraft(lens, MAXBITS) < Pow2(MAXBITS) ==> max == 1)
    requires |Order(lens)| <= work.Length && work[..|Order(lens)|] == Order(lens)
    modifies table, count
    ensures ret == 0 || (ret == 1 && kind != CODES && Complete(lens) && Needed(lens, root) > Space(kind, bits))
    ensures ret == 1 ==> max > root || Pow2(root) > Space(kind, bits)
    ensures ret == 0 ==> used <= Space(kind, bits) && Tabled(table[..tbl + used], tbl, root, lens, kind)
    ensures table[..tbl] == old(table[..tbl])
  {
    hide Along, Order, Count, Place, Pow2, UsedKraft, Reaches, Meaning, Codeword, Word, Value, Kraft, Tabled, Placed,
         Succ, Inside;
    ghost var l := Along(lens);
    used := Pow2(root);
    SmallPowers();
    if (kind == LENS && used > ENOUGH_LENS) || (kind == DISTS && used > ENOUGH_DISTS) {
      return 1, used;
    }
    AlongKraft(lens, MAXBITS);
    StartCode(lens, kind, bits, root, max);
    var b := StartBuilder(kind, lens, table, tbl, root, min, max, count, work[..|lens| - count[0]]);
    ret := b.FillTables();
    used := b.used;
    if ret != 0 {
      return;
    }
    LeftOver(l);
    InsideSize(table[..], tbl, root, l, used);
    if b.huff != 0 {
      OneCodeword(l);
      FalseNumber();
      MarkKeeps(table[..], tbl, l, b.work, kind, used);
      ghost var t: seq<Entry> := table[..];
      table[tbl + b.next + b.huff] := Entry(64, b.len - b.drop, 0);
      assert table[..] == t[tbl + 1 := INVALID];
    }
    TableDone(table[..], tbl, root, lens, kind, max);
    TabledWithin(table[..], tbl, root, lens, kind, used);
    assert table[..][..tbl + used] == table[..tbl + used];
  }

  /** The state before the first codeword. */
  method StartBuilder(kind: Kind, lens: seq<int>, table: array<Entry>, tbl: nat, root: nat, min: nat, max: nat,
                      count: array<int>, work: seq<int>) returns (b: Builder)
    requires IsLens(lens) && |lens| <= Symbols(kind) && count.Length == MAXBITS + 1
    requires forall c :: 0 <= c <= MAXBITS ==> count[c] == Count(lens, c)
    requires 1 <= min <= root <= max <= MAXBITS && count[max] != 0 && count[min] != 0
    requires forall s :: Uses(lens, s) ==> min <= lens[s] <= max
    requires kind == CODES ==> max == root
    requires tbl + Enough(kind, root) <= table.Length && Pow2(root) <= Enough(kind, root)
    requires UsedKraft(lens, MAXBITS) <= Pow2(MAXBITS) && work == Order(lens)
    ensures fresh(b) && b.table == table && b.tbl == tbl && b.kind == kind && b.root == root && b.max == max
    ensures b.work == work && b.count == count && b.l == Along(lens) && b.At(0, 0) && b.drop == 0
  {
    hide Along, Order, Count, Place, Pow2, UsedKraft, Meaning, Word, Value, Kraft, Placed, Enough, Symbols;
    ghost var l := Along(lens);
    AlongRises(lens);
    AlongKraft(lens, MAXBITS);
    AlongEnds(lens, min, max);
    AlongUses(lens);
    StartCounts(count[..], lens);
    b := new Builder(table, tbl, kind, root, min, max, lens, work, count, l);
    RootFits(root, kind, table.Length, tbl);
    StartTable(table[..], tbl, root, l, work, kind);
    FirstWord(l);
  }

  lemma RootFits(root: nat, kind: Kind, size: nat, tbl: nat)
    requires tbl + Enough(kind, root) <= size && Pow2(root) <= Enough(kind, root)
    ensures tbl + Pow2(root) <= size
  {
  }

  /** The first codeword is all zeros. */
  lemma FirstWord(l: seq<int>)
    requires Subscribed(l) && l != []
    ensures Value(Word(l, 0)) == 0
  {
    hide Value, Pow2, ToBits;
    assert l[..0] == [];
    ZerosAre(l[0]);
    ValueZeros(l[0]);
    assert Zeros(l[0]) == seq(l[0], i => false);
  }

  lemma {:induction false} ZerosAre(n: nat)
    ensures ToBits(0, n) == Zeros(n)
  {
    if n > 0 {
      ZerosAre(n - 1);
      assert Zeros(n - 1) + [false] == Zeros(n);
    }
  }

  lemma StartCode(lens: seq<int>, kind: Kind, bits: nat, root: nat, max: nat)
    requires kind == CODES ==> forall i :: 0 <= i < |lens| ==> lens[i] <= bits
    requires max >= 1 && Count(lens, max) != 0
    requires root <= bits || root <= max
    ensures kind == CODES ==> max <= bits
    ensures kind == CODES && root <= max ==> Enough(kind, root) <= Space(kind, bits)
    ensures kind != CODES ==> Enough(kind, root) == Space(kind, bits)
  {
    hide Count;
    CountedUse(lens, max);
    if kind == CODES && root <= max {
      Pow2Monotone(root, bits);
    }
  }

  lemma StartCounts(count: seq<int>, lens: seq<int>)
    requires IsLens(lens) && |count| == MAXBITS + 1 && forall c :: 0 <= c <= MAXBITS ==> count[c] == Count(lens, c)
    ensures Counts(count, Along(lens)[0..])
  {
    hide Count, Along;
    assert Along(lens)[0..] == Along(lens);
    forall c | 1 <= c <= MAXBITS
      ensures Count(Along(lens), c) == Count(lens, c)
    {
      AlongCounts(lens, c);
    }
  }

  lemma StartTable(t: seq<Entry>, tbl: nat, root: nat, l: seq<int>, work: seq<int>, kind: Kind)
    requires Rising(l) && |l| == |work| && InKind(work, kind) && tbl + Pow2(root) <= |t|
    ensures Placed(t, tbl, root, l, work, kind, 0)
  {
  }

  lemma TableDone(t: seq<Entry>, tbl: nat, root: nat, lens: seq<int>, kind: Kind, max: nat)
    requires IsLens(lens) && |lens| <= Symbols(kind) && Along(lens) != []
    requires Placed(t, tbl, root, Along(lens), Order(lens), kind, |Along(lens)|)
    requires UsedKraft(lens, MAXBITS) != Pow2(MAXBITS) ==>
      root == 1 && tbl + 1 < |t| && t[tbl + 1] == INVALID && Word(Along(lens), 0) == [false]
    ensures Tabled(t, tbl, root, lens, kind)
  {
    hide Along, Order, Count, Reaches, Meaning, Codeword, Word, Pow2, UsedKraft;
    AllPlaced(t, tbl, root, lens, kind);
    AlongUses(lens);
    WordIsCodeword(lens, 0);
  }

  // ---------- decoding with the table ----------

  /** The root entry for the bits x is final, or it leads to a sub-table that lies in the table whole. */
  predicate Followed(t: seq<Entry>, tbl: nat, root: nat, x: seq<bool>) {
    && root <= |x| && tbl + Pow2(root) <= |t|
    && var e := t[tbl + RootIndex(x, root)];
       IsLink(e) ==> e.bits == root && root + e.op <= |x| && 0 <= e.val && tbl + e.val + Pow2(e.op) <= |t|
  }

  /** One step of the decoder: the root entry for the next root bits, or through it the entry of a sub-table; with
      the bits used up altogether. */
  function Lookup(t: seq<Entry>, tbl: nat, root: nat, x: seq<bool>): Entry
    requires Followed(t, tbl, root, x)
  {
    var e := t[tbl + RootIndex(x, root)];
    if IsLink(e) then
      var f := t[tbl + e.val + RootIndex(x[e.bits..], e.op)];
      Entry(f.op, e.bits + f.bits, f.val)
    else e
  }

  /** What RFC 1951 makes of the next bits: the symbol whose codeword they begin with, or an invalid code. */
  ghost function Expected(lens: seq<int>, kind: Kind, x: seq<bool>): Entry
    requires |lens| <= Symbols(kind)
  {
    if s :| Uses(lens, s) && Codeword(lens, s) <= x then Meaning(kind, s).(bits := lens[s]) else INVALID
  }

  lemma BeginsIndex(c: seq<bool>, n: nat, x: seq<bool>)
    requires c <= x && |c| <= n <= |x|
    ensures Begins(RootIndex(x, n), n, c)
  {
    hide Value, Pow2, BitsOf;
    ValueBits(x[..n]);
    assert x[..n][..|c|] == c;
  }

  /** A codeword that is reached is found whenever the input begins with it. */
  lemma ReachedIsFound(t: seq<Entry>, tbl: nat, root: nat, c: seq<bool>, op: int, val: int, x: seq<bool>)
    requires Reaches(t, tbl, root, c, op, val) && c <= x && root <= MAXBITS <= |x| && !(0 < op < 16)
    ensures Followed(t, tbl, root, x)
    ensures Lookup(t, tbl, root, x) == Entry(op, |c|, val)
    ensures IsLink(t[tbl + RootIndex(x, root)]) ==> |c| > root
  {
    hide Value, Pow2, BitsOf, Begins, RootIndex;
    if |c| <= root {
      BeginsIndex(c, root, x);
    } else {
      SamePrefixIndex(c, x, root);
      var e := t[tbl + RootIndex(c, root)];
      BeginsIndex(c[root..], e.op, x[root..]);
    }
  }

  lemma SamePrefixIndex(c: seq<bool>, x: seq<bool>, root: nat)
    requires c <= x && root <= |c|
    ensures RootIndex(c, root) == RootIndex(x, root) && c[root..] <= x[root..]
  {
    assert c[..root] == x[..root];
  }

  lemma CompleteHas(lens: seq<int>, x: seq<bool>)
    requires IsLens(lens) && Complete(lens) && |x| >= MAXBITS
    ensures exists s :: Uses(lens, s) && Codeword(lens, s) <= x
  {
    hide Codeword, UsedKraft;
    var s := CompleteCovers(lens, x[..MAXBITS]);
    assert Uses(lens, s) && Codeword(lens, s) <= x;
  }

  /** Bits that start no codeword fall into the slots marked invalid. */
  lemma InvalidIsFound(t: seq<Entry>, tbl: nat, root: nat, lens: seq<int>, kind: Kind, x: seq<bool>)
    requires Tabled(t, tbl, root, lens, kind) && |x| >= MAXBITS
    requires forall s :: Uses(lens, s) ==> !(Codeword(lens, s) <= x)
    ensures root == 1 && t[tbl + RootIndex(x, root)] == INVALID
  {
    hide Codeword, UsedKraft, Reaches, Meaning;
    if Complete(lens) {
      CompleteHas(lens, x);
    }
    ValueOf(x);
    if s :| Uses(lens, s) && Codeword(lens, s) == [false] {
      assert x[0];
    }
  }

  lemma ValueOf(x: seq<bool>)
    requires x != []
    ensures RootIndex(x, 1) == if x[0] then 1 else 0
  {
    assert x[..1] == [x[0]];
    assert [x[0]][1..] == [];
  }

  /** Decoding through the table is decoding the canonical code: from any input it finds the symbol whose codeword
      the input begins with and uses up exactly that codeword, and otherwise reports an invalid code. */
  lemma LookupDecodes(t: seq<Entry>, tbl: nat, root: nat, lens: seq<int>, kind: Kind, x: seq<bool>)
    requires Tabled(t, tbl, root, lens, kind) && !Rejected(kind, lens) && root <= MAXBITS <= |x|
    ensures Followed(t, tbl, root, x)
    ensures IsLink(t[tbl + RootIndex(x, root)]) ==> Lookup(t, tbl, root, x).bits > root
    ensures Lookup(t, tbl, root, x) == Expected(lens, kind, x)
    ensures forall s :: Uses(lens, s) && Codeword(lens, s) <= x ==>
      Lookup(t, tbl, root, x) == Meaning(kind, s).(bits := lens[s])
  {
    hide Codeword, UsedKraft, Reaches, Meaning, RootIndex, Lookup;
    forall s | Uses(lens, s) && Codeword(lens, s) <= x
      ensures var e := t[tbl + RootIndex(x, root)];
        Followed(t, tbl, root, x)
        && (IsLink(e) ==> lens[s] > root)
        && Lookup(t, tbl, root, x) == Meaning(kind, s).(bits := lens[s])
    {
      MeaningIs(kind, s);
      ReachedIsFound(t, tbl, root, Codeword(lens, s), Meaning(kind, s).op, Meaning(kind, s).val, x);
    }
    if forall s :: Uses(lens, s) ==> !(Codeword(lens, s) <= x) {
      InvalidIsFound(t, tbl, root, lens, kind, x);
      NoLink(t, tbl, root, x);
    }
  }

  lemma MeaningIs(kind: Kind, s: nat)
    requires s < Symbols(kind)
    ensures !(0 < Meaning(kind, s).op < 16)
  {
  }

  lemma NoLink(t: seq<Entry>, tbl: nat, root: nat, x: seq<bool>)
    requires root <= |x| && tbl + Pow2(root) <= |t| && t[tbl + RootIndex(x, root)] == INVALID
    ensures Lookup(t, tbl, root, x) == INVALID
  {
  }
}

/** inflate_table: the two-level decoding table for a canonical code. */
module TableBuilder {
  import opened Counting
  import opened Bits
  import opened BitIO
  import opened Canonical
  import opened SortedCodes
  import opened HuffStep
  import opened TableSlots
  import opened TableSpace

  // ---------- how wide a sub-table must be ----------

  lemma {:induction false} KraftConcat(a: seq<int>, b: seq<int>, n: nat)
    ensures Kraft(a + b, n) == Kraft(a, n) + Kraft(b, n)
    decreases |b|
  {
    if b == [] {
      assert a + b == a;
    } else {
      KraftConcat(a, b[..|b|-1], n);
      assert (a + b)[..|a + b|-1] == a + b[..|b|-1];
    }
  }

  lemma {:induction false} KraftNone(l: seq<int>, n: nat)
    requires forall i :: 0 <= i < |l| ==> l[i] > n
    ensures Kraft(l, n) == 0
  {
    if l != [] {
      KraftNone(l[..|l|-1], n);
    }
  }

  /** Codewords too long for the sub-table lie behind all those that fit, so far that their root bits differ. */
  lemma TooLongIsElsewhere(l: seq<int>, k: nat, m: nat, root: nat, curr: nat)
    requires Subscribed(l) && k <= m < |l| && root <= l[k] <= root + curr < l[m]
    requires Kraft(l[k..], root + curr) >= Pow2(curr)
    ensures Word(l, m)[..root] != Word(l, k)[..root]
  {
    hide Kraft, Pow2, Number, ToBits, FromBits, Word;
    var n := root + curr;
    KraftScales(l[..m], n, l[m]);
    KraftNone(l[m..], n);
    KraftConcat(l[..m], l[m..], n);
    assert l[..m] + l[m..] == l == l[..k] + l[k..];
    KraftConcat(l[..k], l[k..], n);
    KraftExact(l[..k], l[k], n);
    NumberIs(l, k);
    NumberIs(l, m);
    var q := Number(l, k) / Pow2(l[k] - root);
    DivMod(Number(l, k), Pow2(l[k] - root));
    Pow2Sum(l[k] - root, n - l[k]);
    assert l[k] - root + (n - l[k]) == curr;
    Pow2Sum(curr, l[m] - n);
    assert curr + (l[m] - n) == l[m] - root;
    Behind(Number(l, k), Number(l, m), q, Pow2(l[k] - root), Pow2(n - l[k]), Pow2(curr), Pow2(l[m] - n),
        Kraft(l[..m], n));
    WordPrefix(l, k, root);
    WordPrefix(l, m, root);
    QuotAtLeast(Number(l, m), Pow2(l[m] - root), q + 1);
  }

  lemma Behind(x: nat, y: nat, q: nat, a: nat, b: nat, c: nat, d: nat, w: nat)
    requires x >= a * q && c == a * b && w >= x * b + c && w * d <= y
    ensures (q + 1) * (c * d) <= y
  {
    MulMono(a * q, x, b);
    MulSwap(a, q);
    MulAssoc(q, a, b);
    Spread(q, 1, c);
    MulMono((q + 1) * c, w, d);
    MulAssoc(q + 1, c, d);
  }

  /** count[] holds what is left of every length. */
  ghost predicate Counts(count: seq<int>, rest: seq<int>) {
    |count| == MAXBITS + 1 && forall c :: 1 <= c <= MAXBITS ==> count[c] == Count(rest, c)
  }

  /** Finds the number of index bits of the next sub-table: enough for every codeword that shares its root
      bits with the first one. */
  method SubTableBits(count: array<int>, len: nat, drop: nat, max: nat, ghost l: seq<int>, ghost k: nat)
    returns (curr: nat)
    requires Subscribed(l) && k < |l| && len == l[k] && drop < len && max == l[|l|-1] && Counts(count[..], l[k..])
    ensures len <= drop + curr <= max
    ensures forall m :: k <= m < |l| && Word(l, m)[..drop] == Word(l, k)[..drop] ==> l[m] <= drop + curr
    ensures drop + curr == len || Kraft(l[k..], drop + curr - 1) < Pow2(curr - 1)
  {
    hide Kraft, Pow2, Number, ToBits, Word, Count;
    curr := len - drop;
    var left := Pow2(curr);
    ghost var rest := l[k..];
    KraftNone(rest, len - 1);
    while curr + drop < max
      invariant len <= curr + drop <= max
      invariant left == Pow2(curr) - 2 * Kraft(rest, curr + drop - 1)
      invariant drop + curr == len || Kraft(rest, drop + curr - 1) < Pow2(curr - 1)
      decreases max - curr
    {
      KraftStep(rest, curr + drop - 1);
      left := left - count[curr + drop];
      if left <= 0 {
        break;
      }
      Pow2Step(curr);
      curr := curr + 1;
      left := left * 2;
    }
    forall m | k <= m < |l| && Word(l, m)[..drop] == Word(l, k)[..drop]
      ensures l[m] <= drop + curr
    {
      if l[m] > drop + curr {
        TooLongIsElsewhere(l, k, m, drop, curr);
      }
    }
  }

  /** The new table is paid for when it closes, as those before it were. */
  lemma Pledge(l: seq<int>, root: nat, last: nat, curr: nat, used: nat)
    requires Filling(l) && last + 1 < |l| && root < l[last + 1] <= root + curr
    requires root < l[last] ==> Word(l, last)[..root] != Word(l, last + 1)[..root]
    requires used <= Pow2(root) + (if root < l[last] then Entries(l, root, End(l, root, last)) else 0)
    requires root + curr == l[last + 1] || Kraft(l[last + 1..], root + curr - 1) < Pow2(curr - 1)
    ensures used + Pow2(curr) <= Pow2(root) + Entries(l, root, End(l, root, last + 1))
    ensures Entries(l, root, End(l, root, last + 1)) <= Entries(l, root, |l|)
  {
    hide Kraft, Pow2, Number, Word, Closes, Entries, End;
    NewTable(l, root, last);
    PaidFor(l, root, last + 1, curr);
    EndNext(l, root, last);
    EntriesRise(l, root, End(l, root, last + 1), |l|);
  }

  // ---------- entries ----------

  datatype Kind = CODES | LENS | DISTS

  const ENOUGH_LENS := 852
  const ENOUGH_DISTS := 592

  /** Length codes 257 to 285: the base value, by the code's number less 257. */
  function LBase(i: nat): int
    requires i < 31
  {
    if i <= 0 then 3 else if i <= 1 then 4 else if i <= 2 then 5 else if i <= 3 then 6 else if i <= 4 then 7
    else if i <= 5 then 8 else if i <= 6 then 9 else if i <= 7 then 10 else if i <= 8 then 11 else if i <= 9 then 13
    else if i <= 10 then 15 else if i <= 11 then 17 else if i <= 12 then 19 else if i <= 13 then 23
    else if i <= 14 then 27 else if i <= 15 then 31 else if i <= 16 then 35 else if i <= 17 then 43
    else if i <= 18 then 51 else if i <= 19 then 59 else if i <= 20 then 67 else if i <= 21 then 83
    else if i <= 22 then 99 else if i <= 23 then 115 else if i <= 24 then 131 else if i <= 25 then 163
    else if i <= 26 then 195 else if i <= 27 then 227 else if i <= 28 then 258 else 0
  }

  /** Length codes 257 to 285: operation with the number of extra bits. */
  function LExt(i: nat): int
    requires i < 31
  {
    if i <= 7 then 16 else if i <= 11 then 17 else if i <= 15 then 18 else if i <= 19 then 19 else if i <= 23 then 20
    else if i <= 27 then 21 else if i <= 28 then 16 else if i <= 29 then 72 else 78
  }

  /** Distance codes 0 to 29: the base value. */
  function DBase(i: nat): int
    requires i < 32
  {
    if i <= 0 then 1 else if i <= 1 then 2 else if i <= 2 then 3 else if i <= 3 then 4 else if i <= 4 then 5
    else if i <= 5 then 7 else if i <= 6 then 9 else if i <= 7 then 13 else if i <= 8 then 17 else if i <= 9 then 25
    else if i <= 10 then 33 else if i <= 11 then 49 else if i <= 12 then 65 else if i <= 13 then 97
    else if i <= 14 then 129 else if i <= 15 then 193 else if i <= 16 then 257 else if i <= 17 then 385
    else if i <= 18 then 513 else if i <= 19 then 769 else if i <= 20 then 1025 else if i <= 21 then 1537
    else if i <= 22 then 2049 else if i <= 23 then 3073 else if i <= 24 then 4097 else if i <= 25 then 6145
    else if i <= 26 then 8193 else if i <= 27 then 12289 else if i <= 28 then 16385 else if i <= 29 then 24577 else 0
  }

  /** Distance codes 0 to 29: operation with the number of extra bits. */
  function DExt(i: nat): int
    requires i < 32
  {
    if i <= 3 then 16 else if i <= 5 then 17 else if i <= 7 then 18 else if i <= 9 then 19 else if i <= 11 then 20
    else if i <= 13 then 21 else if i <= 15 then 22 else if i <= 17 then 23 else if i <= 19 then 24
    else if i <= 21 then 25 else if i <= 23 then 26 else if i <= 25 then 27 else if i <= 27 then 28
    else if i <= 29 then 29 else 64
  }

  /** How many symbols a kind of code can have. */
  function Symbols(kind: Kind): nat {
    match kind
    case CODES => 19
    case LENS => 288
    case DISTS => 32
  }

  /** What the table says about a symbol: a value to use as it is, a base with extra bits, or a special mark.
      No operation looks like a link to a sub-table. */
  function Meaning(kind: Kind, sym: nat): (e: Entry)
    requires sym < Symbols(kind)
    ensures !IsLink(e)
  {
    match kind
    case CODES => Entry(0, 0, sym)
    case LENS =>
      if sym < 256 then Entry(0, 0, sym)
      else if sym > 256 then Entry(LExt(sym - 257), 0, LBase(sym - 257))
      else Entry(32 + 64, 0, 0)
    case DISTS => Entry(DExt(sym), 0, DBase(sym))
  }

  // ---------- what the table holds while it is built ----------

  ghost predicate InKind(work: seq<int>, kind: Kind) {
    forall k :: 0 <= k < |work| ==> 0 <= work[k] < Symbols(kind)
  }

  ghost predicate ReachesSym(t: seq<Entry>, tbl: nat, root: nat, l: seq<int>, work: seq<int>, kind: Kind, k: nat)
    requires k < |l| == |work| && InKind(work, kind) && Rising(l)
  {
    Reaches(t, tbl, root, Word(l, k), Meaning(kind, work[k]).op, Meaning(kind, work[k]).val)
  }

  /** The first n codewords reach their symbols. */
  ghost predicate Placed(t: seq<Entry>, tbl: nat, root: nat, l: seq<int>, work: seq<int>, kind: Kind, n: nat) {
    && n <= |l| == |work| && InKind(work, kind) && Rising(l) && tbl + Pow2(root) <= |t|
    && forall k :: 0 <= k < n ==> ReachesSym(t, tbl, root, l, work, kind, k)
  }

  /** The sub-tables of the first n codewords lie before the current one or are it. */
  ghost predicate Aside(t: seq<Entry>, tbl: nat, root: nat, l: seq<int>, n: nat, next: nat, curr: nat,
                        prefix: seq<bool>) {
    && n <= |l| && Rising(l) && tbl + Pow2(root) <= |t|
    && forall k :: 0 <= k < n ==> Beside(t, tbl, root, Word(l, k), next, curr, prefix)
  }

  /** All tables that the first n codewords lead to lie within the space that is used. */
  ghost predicate Inside(t: seq<Entry>, tbl: nat, root: nat, l: seq<int>, n: nat, used: nat) {
    && n <= |l| && Rising(l) && Pow2(root) <= used && tbl + Pow2(root) <= |t|
    && forall k :: 0 <= k < n ==> Within(t, tbl, root, Word(l, k), used)
  }

  ghost predicate Within(t: seq<Entry>, tbl: nat, root: nat, c: seq<bool>, used: nat)
    requires tbl + Pow2(root) <= |t|
  {
    |c| > root ==> var e := t[tbl + RootIndex(c, root)]; 0 <= e.op && e.val + Pow2(e.op) <= used
  }

  lemma WordsAreApart(l: seq<int>, j: nat, k: nat)
    requires Subscribed(l) && j < k < |l|
    ensures Apart(Word(l, k), Word(l, j))
  {
    hide Kraft, Pow2, Number, ToBits;
    WordsApart(l, j, k);
    if Word(l, k) <= Word(l, j) {
      WholePrefix(Word(l, k), Word(l, j));
    }
  }

  lemma WholePrefix(c: seq<bool>, d: seq<bool>)
    requires c <= d && |d| <= |c|
    ensures c[..|d|] == d
  {
  }

  /** A codeword placed in the root table. */
  lemma PlacedInRoot(t0: seq<Entry>, t: seq<Entry>, tbl: nat, root: nat, l: seq<int>, work: seq<int>, kind: Kind,
                     k: nat)
    requires Subscribed(l) && k < |l| && l[k] <= root && Placed(t0, tbl, root, l, work, kind, k)
    requires Filled(t0, t, tbl, root, Meaning(kind, work[k]).(bits := l[k]), Word(l, k), 0)
    ensures Placed(t, tbl, root, l, work, kind, k + 1)
  {
    hide Kraft, Pow2, Word, Filled, Reaches, Meaning, Apart;
    var e := Meaning(kind, work[k]);
    FilledSize(t0, t, tbl, root, e.(bits := l[k]), Word(l, k));
    forall j | 0 <= j < k
      ensures ReachesSym(t, tbl, root, l, work, kind, j)
    {
      assert ReachesSym(t0, tbl, root, l, work, kind, j);
      WordsAreApart(l, j, k);
      RootFillKeeps(t0, t, tbl, root, e.(bits := l[k]), Word(l, k), Word(l, j), Meaning(kind, work[j]).op,
          Meaning(kind, work[j]).val);
    }
    RootFillReaches(t0, t, tbl, root, Word(l, k), e.op, e.val);
  }

  /** A codeword placed in the current sub-table. */
  lemma PlacedInSub(t0: seq<Entry>, t: seq<Entry>, tbl: nat, root: nat, l: seq<int>, work: seq<int>, kind: Kind, k: nat,
                    next: nat, curr: nat)
    requires Subscribed(l) && k < |l| && root < l[k] <= root + curr <= MAXBITS && Pow2(root) <= next
    requires Placed(t0, tbl, root, l, work, kind, k) && Aside(t0, tbl, root, l, k, next, curr, Word(l, k)[..root])
    requires t0[tbl + RootIndex(Word(l, k), root)] == Entry(curr, root, next)
    requires Filled(t0, t, tbl + next, curr, Meaning(kind, work[k]).(bits := l[k] - root), Word(l, k)[root..], 0)
    ensures Placed(t, tbl, root, l, work, kind, k + 1) && Aside(t, tbl, root, l, k + 1, next, curr, Word(l, k)[..root])
    ensures t[tbl + RootIndex(Word(l, k), root)] == Entry(curr, root, next)
  {
    hide Kraft, Pow2, Word, Filled, Reaches, Meaning, Apart, Beside, RootIndex;
    var e := Meaning(kind, work[k]);
    var here := e.(bits := l[k] - root);
    FilledSize(t0, t, tbl + next, curr, here, Word(l, k)[root..]);
    forall j | 0 <= j < k
      ensures ReachesSym(t, tbl, root, l, work, kind, j)
      ensures Beside(t, tbl, root, Word(l, j), next, curr, Word(l, k)[..root])
    {
      assert ReachesSym(t0, tbl, root, l, work, kind, j);
      WordsAreApart(l, j, k);
      SubFillKeeps(t0, t, tbl, root, next, curr, here, Word(l, k), Word(l, j), Meaning(kind, work[j]).op,
          Meaning(kind, work[j]).val);
    }
    SubFillReaches(t0, t, tbl, root, next, curr, Word(l, k), e.op, e.val);
  }

  /** Opening a new sub-table behind the current one for a prefix not met before. */
  lemma Opened(t: seq<Entry>, tbl: nat, root: nat, l: seq<int>, work: seq<int>, kind: Kind, k: nat, next: nat,
               curr: nat, prefix: seq<bool>, next': nat, curr': nat)
    requires Subscribed(l) && k < |l| && root < l[k] && next' == next + Pow2(curr)
    requires Placed(t, tbl, root, l, work, kind, k) && Aside(t, tbl, root, l, k, next, curr, prefix)
    requires forall j :: 0 <= j < k && l[j] > root ==> Word(l, j)[..root] != Word(l, k)[..root]
    ensures Placed(t[tbl + RootIndex(Word(l, k), root) := Entry(curr', root, next')], tbl, root, l, work, kind, k)
    ensures Aside(t[tbl + RootIndex(Word(l, k), root) := Entry(curr', root, next')], tbl, root, l, k, next', curr',
        Word(l, k)[..root])
  {
    hide Kraft, Pow2, Word, Reaches, Meaning, Apart, RootIndex;
    var r := tbl + RootIndex(Word(l, k), root);
    var t' := t[r := Entry(curr', root, next')];
    forall j | 0 <= j < k
      ensures ReachesSym(t', tbl, root, l, work, kind, j)
      ensures Beside(t', tbl, root, Word(l, j), next', curr', Word(l, k)[..root])
    {
      assert ReachesSym(t, tbl, root, l, work, kind, j);
      assert Beside(t, tbl, root, Word(l, j), next, curr, prefix);
      WordsAreApart(l, j, k);
      LinkKeeps(t, tbl, root, next, Word(l, k), Entry(curr', root, next'), Word(l, j), Meaning(kind, work[j]).op,
          Meaning(kind, work[j]).val);
    }
  }

  /** Root bits that differ from those of the codeword before have not been met at all. */
  lemma NewPrefix(l: seq<int>, k: nat, root: nat)
    requires Subscribed(l) && 0 < k < |l| && root < l[k]
    requires l[k - 1] > root ==> Word(l, k - 1)[..root] != Word(l, k)[..root]
    ensures forall j :: 0 <= j < k && l[j] > root ==> Word(l, j)[..root] != Word(l, k)[..root]
  {
    hide Kraft, Pow2, Word, FromBits;
    forall j | 0 <= j < k && l[j] > root
      ensures Word(l, j)[..root] != Word(l, k)[..root]
    {
      PrefixRises(l, j, k - 1, root);
      PrefixRises(l, k - 1, k, root);
      if Word(l, j)[..root] == Word(l, k)[..root] {
        SameNumber(Word(l, k - 1)[..root], Word(l, k)[..root]);
      }
    }
  }

  lemma SameNumber(c: seq<bool>, d: seq<bool>)
    requires |c| == |d| && FromBits(c) == FromBits(d)
    ensures c == d
  {
    NumberRoundTrip(c);
    NumberRoundTrip(d);
  }

  // ---------- counting down ----------

  lemma {:induction false} CountPrepend(x: int, s: seq<int>, c: int)
    ensures Count([x] + s, c) == (if x == c then 1 else 0) + Count(s, c)
    decreases |s|
  {
    if s == [] {
      assert [x] + s == [x];
      assert [x][..0] == [];
    } else {
      var n := |s| - 1;
      CountPrepend(x, s[..n], c);
      assert ([x] + s)[..|s|] == [x] + s[..n];
    }
  }

  lemma CountsNext(count: seq<int>, l: seq<int>, k: nat)
    requires Rising(l) && k < |l| && Counts(count, l[k..])
    ensures count[l[k]] >= 1 && Counts(count[l[k] := count[l[k]] - 1], l[k + 1..])
  {
    hide Count;
    assert l[k..] == [l[k]] + l[k + 1..];
    forall c | 1 <= c <= MAXBITS
      ensures Count(l[k..], c) == (if l[k] == c then 1 else 0) + Count(l[k + 1..], c)
    {
      CountPrepend(l[k], l[k + 1..], c);
    }
  }

  /** Whether any more codewords of this length come, and whether any come at all, shows in the count. */
  lemma LengthNext(l: seq<int>, k: nat)
    requires Rising(l) && k < |l|
    ensures Count(l[k + 1..], l[k]) == 0 ==> (l[k] == l[|l|-1] <==> k + 1 == |l|)
    ensures Count(l[k + 1..], l[k]) > 0 ==> k + 1 < |l| && l[k + 1] == l[k]
  {
    var rest := l[k + 1..];
    if Count(rest, l[k]) == 0 {
      if k + 1 < |l| {
        CountWhole(rest, l[|l|-1], |rest| - 1);
      }
    } else if forall i :: 0 <= i < |rest| ==> rest[i] != l[k] {
      NoCount(rest, l[k]);
    } else {
      var i :| 0 <= i < |rest| && rest[i] == l[k];
      assert l[k + 1 + i] == l[k];
    }
  }

  // ---------- the builder ----------

  function Enough(kind: Kind, root: nat): nat {
    match kind
    case CODES => Pow2(root)
    case LENS => ENOUGH_LENS
    case DISTS => ENOUGH_DISTS
  }

  class Builder {
    const table: array<Entry>
    const tbl: nat
    const kind: Kind
    const root: nat
    const max: nat
    const lens: seq<int>
    const work: seq<int>
    const count: array<int>
    ghost const l: seq<int>
    var len: nat
    var huff: nat
    var next: nat
    var curr: nat
    var drop: nat
    var low: int
    var used: nat

    ghost predicate Fixed() {
      && Subscribed(l) && l != [] && InKind(work, kind) && |work| == |l|
      && (forall k :: 0 <= k < |l| ==> 0 <= work[k] < |lens| && lens[work[k]] == l[k])
      && 1 <= root <= max == l[|l|-1] && count.Length == MAXBITS + 1
      && tbl + Enough(kind, root) <= table.Length && (kind == CODES ==> max == root)
    }

    /** The table being filled: the root table, or a sub-table wide enough for everything that goes through it. */
    ghost predicate Mode(k: nat, n: nat)
      requires Fixed() && k < |l| && n <= |l| && tbl + Pow2(root) <= table.Length
      reads `drop, `next, `curr, `used, `low, table
    {
      if drop == 0 then l[k] <= root && next == 0 && curr == root && used == Pow2(root) && low == -1
      else
        && drop == root < l[k] <= root + curr <= MAXBITS && Pow2(root) <= next && used == next + Pow2(curr)
        && low == RootIndex(Word(l, k), root) && table[tbl + low] == Entry(curr, root, next)
        && (forall m :: k <= m < |l| && Word(l, m)[..root] == Word(l, k)[..root] ==> l[m] <= root + curr)
        && Aside(table[..], tbl, root, l, n, next, curr, Word(l, k)[..root])
    }

    /** The sub-tables so far are paid for by the time the table of symbol k closes. */
    ghost predicate Pledged(k: nat)
      requires k < |l|
      reads `drop, `used
    {
      Filling(l) && drop != 0 ==> used <= Pow2(root) + Entries(l, root, End(l, root, k))
    }

    /** More entries are needed than there may be. */
    ghost predicate Overrun() {
      Filling(l) ==> Pow2(root) + Entries(l, root, |l|) > Enough(kind, root)
    }

    /** Symbol k comes next, n codewords have been placed. */
    ghost predicate At(k: nat, n: nat)
      reads this, table, count
    {
      && Fixed() && k < |l| && n <= |l| && len == l[k] && huff == Value(Word(l, k))
      && Counts(count[..], l[k..]) && Placed(table[..], tbl, root, l, work, kind, n)
      && used <= Enough(kind, root) && Mode(k, n)
    }

    constructor (table: array<Entry>, tbl: nat, kind: Kind, root: nat, min: nat, max: nat, lens: seq<int>,
                 work: seq<int>, count: array<int>, ghost l: seq<int>)
      requires 1 <= root
      ensures this.table == table && this.tbl == tbl && this.kind == kind && this.root == root && this.max == max
      ensures this.lens == lens && this.work == work && this.count == count && this.l == l
      ensures huff == 0 && len == min && next == 0 && curr == root && drop == 0 && low == -1 && used == Pow2(root)
    {
      this.table := table;
      this.tbl := tbl;
      this.kind := kind;
      this.root := root;
      this.max := max;
      this.lens := lens;
      this.work := work;
      this.count := count;
      this.l := l;
      huff := 0;
      len := min;
      next := 0;
      curr := root;
      drop := 0;
      low := -1;
      used := Pow2(root);
    }

    /** Writes the entries of symbol k. */
    method PlaceSymbol(sym: nat)
      requires At(sym, sym)
      modifies table
      ensures At(sym, sym + 1) && table[..tbl] == old(table[..tbl])
    {
      hide Word, Value, Pow2, Meaning, Kraft, Placed, Aside, RootIndex, Filled, Enough, Count;
      ghost var t0: seq<Entry> := table[..];
      ghost var c := Word(l, sym);
      var here := Meaning(kind, work[sym]).(bits := len - drop);
      ValueCut(c, drop);
      InTable(sym, sym);
      FillSlots(table, tbl + next, curr, len - drop, huff / Pow2(drop), here, c[drop..]);
      if drop == 0 {
        assert c[0..] == c && tbl + 0 == tbl;
        PlacedInRoot(t0, table[..], tbl, root, l, work, kind, sym);
      } else {
        assert t0[tbl + RootIndex(c, root)] == Entry(curr, root, next);
        PlacedInSub(t0, table[..], tbl, root, l, work, kind, sym, next, curr);
        assert table[..][tbl + RootIndex(c, root)] == table[tbl + low];
      }
    }

    /** The table being filled lies within the space there is. */
    lemma InTable(k: nat, n: nat)
      requires At(k, n)
      ensures tbl + next + Pow2(curr) <= table.Length && drop <= len && len - drop <= curr
      ensures 0 <= work[k] < Symbols(kind)
      ensures tbl + Pow2(root) <= table.Length
    {
      hide Word, Value, Meaning, Kraft, Placed, Aside, RootIndex, Enough, Count, Pow2;
    }

    /** Steps to the next codeword. */
    method NextCode(sym: nat) returns (done: bool)
      requires At(sym, sym + 1)
      modifies `huff, `len, count
      ensures Fixed() && Placed(table[..], tbl, root, l, work, kind, sym + 1)
      ensures huff == Value(Succ(Word(l, sym)))
      ensures (done <==> sym + 1 == |l|) && (done ==> len == max)
      ensures !done ==> len == l[sym + 1] && huff == Value(Word(l, sym + 1)) && Counts(count[..], l[sym + 1..])
    {
      hide Word, Value, Pow2, Meaning, Kraft, Placed, Aside, RootIndex, Enough, Count, Succ, Number;
      InTable(sym, sym + 1);
      huff := Increment(huff, len, Word(l, sym));
      CountsNext(count[..], l, sym);
      LengthNext(l, sym);
      ghost var c0: seq<int> := count[..];
      count[len] := count[len] - 1;
      assert count[..] == c0[l[sym] := c0[l[sym]] - 1];
      if count[len] == 0 {
        if len == max {
          done := true;
          return;
        }
        len := lens[work[sym + 1]];
      }
      done := false;
      ValueNext(l, sym);
    }

    /** Points the root entry of the next codeword to the sub-table. */
    method LinkSubTable(sym: nat, ghost next0: nat, ghost curr0: nat, ghost prefix: seq<bool>)
      requires Fixed() && sym < |l| && len == l[sym] && huff == Value(Word(l, sym)) && len > root && drop == root
      requires Counts(count[..], l[sym..]) && Placed(table[..], tbl, root, l, work, kind, sym)
      requires Pow2(root) <= next == next0 + Pow2(curr0) && len <= root + curr <= max
      requires used == next + Pow2(curr) && used <= Enough(kind, root)
      requires Aside(table[..], tbl, root, l, sym, next0, curr0, prefix)
      requires forall j :: 0 <= j < sym && l[j] > root ==> Word(l, j)[..root] != Word(l, sym)[..root]
      requires forall m :: sym <= m < |l| && Word(l, m)[..root] == Word(l, sym)[..root] ==> l[m] <= root + curr
      modifies `low, table
      ensures At(sym, sym) && table[..tbl] == old(table[..tbl])
    {
      hide Word, Value, Pow2, Meaning, Kraft, Placed, Aside, RootIndex, Enough, Count, Counts, Succ, Number, Beside;
      ghost var t: seq<Entry> := table[..];
      RoomForLink(sym);
      ValueCut(Word(l, sym), root);
      RootIs(Word(l, sym), root);
      low := huff % Pow2(root);
      table[tbl + low] := Entry(curr, root, next);
      assert table[..] == t[tbl + RootIndex(Word(l, sym), root) := Entry(curr, root, next)];
      Opened(t, tbl, root, l, work, kind, sym, next0, curr0, prefix, next, curr);
    }

    lemma RoomForLink(sym: nat)
      requires Placed(table[..], tbl, root, l, work, kind, sym)
      ensures tbl + Pow2(root) <= table.Length
    {
      hide Word, Value, Pow2;
    }

    /** Sets room aside for the sub-table of the next codeword. */
    method SetAside(sym: nat, ghost last: nat)
      requires Fixed() && sym == last + 1 < |l| && len == l[sym] > root && tbl + Pow2(root) <= table.Length
      requires Counts(count[..], l[sym..]) && (drop == 0 || drop == root) && Pledged(last)
      requires used == next + Pow2(curr) && (drop == 0 ==> used == Pow2(root)) && (drop == 0 <==> l[last] <= root)
      requires forall j :: 0 <= j < sym && l[j] > root ==> Word(l, j)[..root] != Word(l, sym)[..root]
      modifies `drop, `next, `curr, `used
      ensures drop == root && next == old(used) && used == next + Pow2(curr) && len <= root + curr <= max
      ensures forall m :: sym <= m < |l| && Word(l, m)[..root] == Word(l, sym)[..root] ==> l[m] <= root + curr
      ensures Pledged(sym) && (used > Enough(kind, root) ==> Overrun())
    {
      hide Word, Pow2, Kraft, Count, Number, Entries, End, Filling, Enough, Counts;
      drop := root;
      next := next + Pow2(curr);
      curr := SubTableBits(count, len, drop, max, l, sym);
      if Filling(l) {
        Pledge(l, root, last, curr, used);
      }
      used := used + Pow2(curr);
    }

    /** Opens a sub-table for the codewords that share the root bits of the next one. */
    method OpenSubTable(sym: nat, ghost last: nat) returns (ret: int)
      requires Fixed() && last < |l| && sym == last + 1 < |l| && len == l[sym] && huff == Value(Word(l, sym))
      requires len > root
      requires Counts(count[..], l[sym..]) && Placed(table[..], tbl, root, l, work, kind, sym)
      requires used <= Enough(kind, root) && Mode(last, sym) && low != RootIndex(Word(l, sym), root) && Pledged(last)
      modifies `drop, `next, `curr, `used, `low, table
      ensures ret == 0 || (ret == 1 && kind != CODES && Overrun())
      ensures ret == 0 ==> At(sym, sym) && Pledged(sym)
      ensures table[..tbl] == old(table[..tbl])
    {
      hide Word, Value, Pow2, Meaning, Kraft, Placed, Aside, RootIndex, Count, Counts, Succ, Number, Beside, Entries,
           End, Filling, Overrun;
      RoomFor(sym, last);
      ghost var next0, curr0 := next, curr;
      ghost var prefix := if drop == 0 then [] else Word(l, last)[..root];
      FreshPrefix(sym, last);
      if drop == 0 {
        NothingAside(table[..], tbl, root, l, sym, prefix);
      }
      SetAside(sym, last);
      if (kind == LENS && used > ENOUGH_LENS) || (kind == DISTS && used > ENOUGH_DISTS) {
        ret := 1;
        return;
      }
      LinkSubTable(sym, next0, curr0, prefix);
      ret := 0;
    }

    /** Makes the entries of all symbols. */
    method FillTables() returns (ret: int)
      requires At(0, 0) && drop == 0
      modifies this, table, count
      ensures ret == 0 || (ret == 1 && kind != CODES && Overrun())
      ensures ret == 0 ==> Placed(table[..], tbl, root, l, work, kind, |l|)
      ensures ret == 0 ==> used <= Enough(kind, root) && huff == Value(Succ(Word(l, |l| - 1)))
      ensures ret == 0 ==> Inside(table[..], tbl, root, l, |l|, used)
      ensures ret == 0 && max <= root ==> next == 0 && drop == 0 && len == max
      ensures ret == 1 ==> max > root
      ensures table[..tbl] == old(table[..tbl])
    {
      hide Word, Value, Pow2, Meaning, Kraft, Placed, Aside, RootIndex, Enough, Count, Succ, Number, Inside, Overrun,
           Entries, End;
      var sym := 0;
      while true
        invariant At(sym, sym) && Pledged(sym) && table[..tbl] == old(table[..tbl])
        decreases |l| - sym
      {
        PlaceSymbol(sym);
        AllInside(sym);
        var done := NextCode(sym);
        sym := sym + 1;
        if done {
          break;
        }
        if len > root && huff % Pow2(root) != low {
          RootOf(sym);
          ret := OpenSubTable(sym, sym - 1);
          if ret != 0 {
            return;
          }
        } else {
          KeepTable(sym);
          StillPledged(sym);
        }
      }
      ret := 0;
    }

    lemma StillPledged(sym: nat)
      requires 0 < sym < |l| && Pledged(sym - 1)
      ensures Pledged(sym)
    {
      hide Pow2, Closes, Entries, End, Filling;
      EndNext(l, root, sym - 1);
      EntriesRise(l, root, End(l, root, sym - 1), End(l, root, sym));
    }

    lemma AllInside(sym: nat)
      requires At(sym, sym + 1)
      ensures Inside(table[..], tbl, root, l, sym + 1, used)
    {
      hide Word, Value, Meaning, Kraft, Placed, RootIndex, Enough, Count, Pow2;
      InTable(sym, sym + 1);
      forall k | 0 <= k < sym + 1
        ensures Within(table[..], tbl, root, Word(l, k), used)
      {
        if drop != 0 {
          assert Beside(table[..], tbl, root, Word(l, k), next, curr, Word(l, sym)[..root]);
        }
      }
    }

    lemma RootOf(sym: nat)
      requires sym < |l| && Rising(l) && root < l[sym] && huff == Value(Word(l, sym))
      ensures huff % Pow2(root) == RootIndex(Word(l, sym), root)
    {
      hide Word, Value, Pow2, Kraft;
      ValueCut(Word(l, sym), root);
    }

    /** The current table serves the next codeword too. */
    lemma KeepTable(sym: nat)
      requires Fixed() && 0 < sym < |l| && huff == Value(Word(l, sym)) && tbl + Pow2(root) <= table.Length
      requires Mode(sym - 1, sym) && (l[sym] > root ==> huff % Pow2(root) == low)
      ensures Mode(sym, sym)
    {
      hide Word, Value, Pow2, Kraft, Aside, RootIndex, Enough;
      if l[sym] > root {
        RootOf(sym);
        if drop != 0 {
          SameRoot(Word(l, sym - 1), Word(l, sym), root);
        }
      }
    }

    lemma RoomFor(sym: nat, last: nat)
      requires Fixed() && last < sym < |l| && l[sym] > root && Placed(table[..], tbl, root, l, work, kind, sym)
      requires Mode(last, sym)
      ensures kind != CODES && tbl + Pow2(root) <= table.Length && (drop == 0 || drop == root)
      ensures drop == 0 ==>
          next == 0 && curr == root && used == Pow2(root) && forall k :: 0 <= k < sym ==> l[k] <= l[sym - 1]
    {
      hide Word, Value, Pow2, Meaning, Kraft, Aside, RootIndex, Enough;
    }

    /** A prefix that differs from the last one is new. */
    lemma FreshPrefix(sym: nat, last: nat)
      requires Fixed() && sym == last + 1 < |l| && l[sym] > root && tbl + Pow2(root) <= table.Length && Mode(last, sym)
      requires low != RootIndex(Word(l, sym), root)
      ensures forall j :: 0 <= j < sym && l[j] > root ==> Word(l, j)[..root] != Word(l, sym)[..root]
    {
      hide Word, Value, Pow2, Kraft, Aside, RootIndex, Enough;
      if l[last] > root {
        SameRoot(Word(l, last), Word(l, sym), root);
      }
      NewPrefix(l, sym, root);
    }

    /** Nothing has been placed behind the root table yet. */
    lemma NothingAside(t: seq<Entry>, tbl: nat, root: nat, l: seq<int>, n: nat, prefix: seq<bool>)
      requires n <= |l| && Rising(l) && tbl + Pow2(root) <= |t| && forall k :: 0 <= k < n ==> l[k] <= root
      ensures Aside(t, tbl, root, l, n, 0, root, prefix)
    {
      hide Word, Pow2;
    }
  }

  lemma SameRoot(c: seq<bool>, d: seq<bool>, root: nat)
    requires root <= |c| && root <= |d|
    ensures c[..root] == d[..root] <==> RootIndex(c, root) == RootIndex(d, root)
  {
    if RootIndex(c, root) == RootIndex(d, root) {
      ValueInjective(c[..root], d[..root]);
    }
  }

  lemma RootIs(c: seq<bool>, root: nat)
    requires root <= |c|
    ensures RootIndex(c, root) == Value(c[..root])
  {
  }
}

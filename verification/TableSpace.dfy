/** How many entries the sub-tables of a complete code need: one closes with every codeword behind which the root
    bits move on, and it is as wide as that codeword is long. */
module TableSpace {
  import opened Bits
  import opened BitIO
  import opened Canonical
  import opened SortedCodes

  /** The strings, as long as codeword k, that the codewords up to it begin. */
  ghost function Taken(l: seq<int>, k: nat): nat
    requires k < |l| && 0 <= l[k]
  {
    Kraft(l[..k + 1], l[k])
  }

  /** Behind codeword k the root bits move on. */
  ghost predicate Closes(l: seq<int>, root: nat, k: nat)
    requires k < |l|
  {
    l[k] > root && Taken(l, k) % Pow2(l[k] - root) == 0
  }

  /** The entries of the sub-tables that the first k codewords close. */
  ghost function Entries(l: seq<int>, root: nat, k: nat): nat
    requires k <= |l|
  {
    if k == 0 then 0 else Entries(l, root, k - 1) + (if Closes(l, root, k - 1) then Pow2(l[k - 1] - root) else 0)
  }

  ghost function Tables(l: seq<int>, root: nat, k: nat): nat
    requires k <= |l|
  {
    if k == 0 then 0 else Tables(l, root, k - 1) + (if Closes(l, root, k - 1) then 1 else 0)
  }

  /** The codewords among the first k that do not fit the root table. */
  ghost function Leaves(l: seq<int>, root: nat, k: nat): (n: nat)
    requires k <= |l|
    ensures n <= k
  {
    if k == 0 then 0 else Leaves(l, root, k - 1) + (if l[k - 1] > root then 1 else 0)
  }

  /** Behind the codeword that closes the table of codeword k. */
  ghost function End(l: seq<int>, root: nat, k: nat): (e: nat)
    requires k <= |l|
    ensures k <= e <= |l|
    decreases |l| - k
  {
    if k == |l| then k else if Closes(l, root, k) then k + 1 else End(l, root, k + 1)
  }

  // ---------- what the codewords so far use up ----------

  lemma {:induction false} AllShort(l: seq<int>, root: nat, k: nat)
    requires k <= |l| && forall i :: 0 <= i < k ==> l[i] <= root
    ensures Entries(l, root, k) == Tables(l, root, k) == Leaves(l, root, k) == 0
  {
    if k > 0 {
      AllShort(l, root, k - 1);
    }
  }

  lemma {:induction false} PowAbove(d: nat, t: nat)
    ensures Pow2(d + t) - Pow2(d) >= t
  {
    if t > 0 {
      PowAbove(d, t - 1);
      Pow2Step(d + t - 1);
    }
  }

  lemma TakenNext(l: seq<int>, k: nat)
    requires k < |l| && 0 <= l[k]
    ensures Taken(l, k) == Number(l, k) + 1
  {
    hide Kraft, Pow2;
    KraftAppend(l, k, l[k]);
    Pow2Step(0);
  }

  /** Extending by zeros keeps the root bits. */
  lemma ScaleParts(q: nat, v: nat, p: nat, s: nat, x: nat)
    requires x == q * p + v && v < p && s >= 1
    ensures x * s == q * (p * s) + v * s && v * s + s <= p * s && v * s >= v
    ensures p * s - v * s >= p - v + (s - 1)
  {
    Spread(q * p, v, s);
    MulAssoc(q, p, s);
    MulMono(v + 1, p, s);
    Spread(v, 1, s);
    MulMono(1, s, v);
    MulSwap(v, s);
    var r: nat := p - v - 1;
    MulMono(1, s, r);
    MulSwap(r, s);
    Spread(v + 1, r, s);
  }

  /** Before codeword k: the root bits and the place within its table. What the tables so far need is paid for by
      their leaves, except for the places that are still free. */
  lemma {:induction false} Before(l: seq<int>, root: nat, k: nat) returns (q: nat, v: nat)
    requires Rising(l) && k < |l| && root < l[k]
    ensures Number(l, k) == q * Pow2(l[k] - root) + v && v < Pow2(l[k] - root)
    ensures q == Kraft(l[..k], root) + Tables(l, root, k)
    ensures Entries(l, root, k) + 1 + v + (l[k] - root) <= Leaves(l, root, k) + Pow2(l[k] - root)
    ensures 2 * Tables(l, root, k) + (if v > 0 then 1 else 0) <= Leaves(l, root, k)
    decreases k, 0
  {
    hide Kraft, Pow2, Entries, Tables, Leaves, Closes, Number, Taken;
    if k == 0 || l[k - 1] <= root {
      AllShort(l, root, k);
      NumberIs(l, k);
      KraftExact(l[..k], root, l[k]);
      PowAbove(0, l[k] - root);
      Pow2Step(0);
      q, v := Kraft(l[..k], root), 0;
    } else {
      var p, s := Pow2(l[k - 1] - root), Pow2(l[k] - l[k - 1]);
      q, v := After(l, root, k - 1);
      TakenNext(l, k - 1);
      NumberNext(l, k - 1);
      Pow2Sum(l[k - 1] - root, l[k] - l[k - 1]);
      assert l[k - 1] - root + (l[k] - l[k - 1]) == l[k] - root;
      ScaleParts(q, v, p, s, Taken(l, k - 1));
      PowAbove(0, l[k] - l[k - 1]);
      Pow2Step(0);
      v := v * s;
    }
  }

  lemma {:induction false} After(l: seq<int>, root: nat, k: nat) returns (q: nat, v: nat)
    requires Rising(l) && k < |l| && root < l[k]
    ensures Taken(l, k) == q * Pow2(l[k] - root) + v && v < Pow2(l[k] - root)
    ensures v == 0 <==> Closes(l, root, k)
    ensures q == Kraft(l[..k + 1], root) + Tables(l, root, k + 1)
    ensures Entries(l, root, k + 1) + 1 + v + (l[k] - root) <= Leaves(l, root, k + 1) + Pow2(l[k] - root)
    ensures 2 * Tables(l, root, k + 1) + (if v > 0 then 1 else 0) <= Leaves(l, root, k + 1)
    decreases k, 1
  {
    hide Kraft, Pow2, Number, Taken;
    q, v := Before(l, root, k);
    TakenNext(l, k);
    KraftAppend(l, k, root);
    var p := Pow2(l[k] - root);
    Pow2Monotone(1, l[k] - root);
    Pow2Step(0);
    v := v + 1;
    if v == p {
      Spread(q, 1, p);
      q, v := q + 1, 0;
    }
    DivUnique(Taken(l, k), p, q, v);
  }

  // ---------- the whole code ----------

  ghost predicate Filling(l: seq<int>) {
    Rising(l) && l != [] && Kraft(l, MAXBITS) == Pow2(MAXBITS)
  }

  lemma LastTaken(l: seq<int>)
    requires Filling(l)
    ensures Taken(l, |l| - 1) == Pow2(l[|l| - 1])
  {
    hide Kraft, Pow2;
    var n := l[|l| - 1];
    assert l[..|l| - 1 + 1] == l;
    KraftExact(l, n, MAXBITS);
    Pow2Sum(n, MAXBITS - n);
    assert n + (MAXBITS - n) == MAXBITS;
    var s := Pow2(MAXBITS - n);
    if Kraft(l, n) < Pow2(n) {
      MulMono(Kraft(l, n) + 1, Pow2(n), s);
      Spread(Kraft(l, n), 1, s);
    } else if Kraft(l, n) > Pow2(n) {
      MulMono(Pow2(n) + 1, Kraft(l, n), s);
      Spread(Pow2(n), 1, s);
    }
  }

  lemma OnlyQuotient(q: nat, v: nat, p: nat, r: nat)
    requires r * p == q * p + v && v < p
    ensures q == r && v == 0
  {
    Spread(q, 1, p);
    Spread(r, 1, p);
    if q < r {
      MulMono(q + 1, r, p);
    } else if r < q {
      MulMono(r + 1, q, p);
    }
  }

  /** The sub-tables of a complete code: one for every string of root bits that begins no short codeword, each with
      two leaves at least; and all of them together need little more room than they have leaves. */
  lemma AllTables(l: seq<int>, root: nat)
    requires Filling(l) && root < l[|l| - 1]
    ensures Closes(l, root, |l| - 1)
    ensures Kraft(l, root) + Tables(l, root, |l|) == Pow2(root) && 2 * Tables(l, root, |l|) <= Leaves(l, root, |l|)
    ensures Entries(l, root, |l|) + 1 + (MAXBITS - root) <= Leaves(l, root, |l|) + Pow2(MAXBITS - root)
  {
    hide Kraft, Pow2, Entries, Tables, Leaves, Closes, Taken;
    var n := l[|l| - 1];
    var q, v := After(l, root, |l| - 1);
    assert l[..|l| - 1 + 1] == l;
    LastTaken(l);
    Pow2Sum(root, n - root);
    assert root + (n - root) == n;
    OnlyQuotient(q, v, Pow2(n - root), Pow2(root));
    PowAbove(n - root, MAXBITS - n);
    assert n - root + (MAXBITS - n) == MAXBITS - root;
  }

  lemma {:induction false} EvenEntries(l: seq<int>, root: nat, k: nat)
    requires k <= |l|
    ensures Entries(l, root, k) % 2 == 0
  {
    hide Pow2, Closes;
    if k > 0 {
      EvenEntries(l, root, k - 1);
      if Closes(l, root, k - 1) {
        EvenPow(l, root, k - 1);
      }
    }
  }

  lemma EvenPow(l: seq<int>, root: nat, k: nat)
    requires k < |l| && Closes(l, root, k)
    ensures Pow2(l[k] - root) % 2 == 0
  {
    hide Taken;
  }

  /** The short codewords take half of the root table each, at the most. */
  lemma {:induction false} ShortOnes(l: seq<int>, root: nat, k: nat)
    requires Rising(l) && 1 <= root && k <= |l|
    ensures Kraft(l[..k], root) <= (k - Leaves(l, root, k)) * Pow2(root - 1)
  {
    hide Kraft, Pow2;
    if k > 0 {
      ShortOnes(l, root, k - 1);
      KraftAppend(l, k - 1, root);
      if l[k - 1] <= root {
        Pow2Monotone(root - l[k - 1], root - 1);
        Spread(k - 1 - Leaves(l, root, k - 1), 1, Pow2(root - 1));
      }
    } else {
      NothingUsed(root);
    }
  }

  lemma NothingUsed(root: nat)
    ensures Kraft([], root) == 0
  {
  }

  lemma {:induction false} EntriesRise(l: seq<int>, root: nat, j: nat, k: nat)
    requires j <= k <= |l|
    ensures Entries(l, root, j) <= Entries(l, root, k)
    ensures Tables(l, root, j) <= Tables(l, root, k)
    decreases k
  {
    hide Closes;
    if j < k {
      EntriesRise(l, root, j, k - 1);
    }
  }

  lemma {:induction false} NoTables(l: seq<int>, root: nat, k: nat)
    requires k <= |l| && Tables(l, root, k) == 0
    ensures Entries(l, root, k) == 0
  {
    hide Closes;
    if k > 0 {
      NoTables(l, root, k - 1);
    }
  }

  /** 284 leaves at the most are left for the sub-tables of a literal and length code, so 340 entries. */
  lemma LensEntries(l: seq<int>)
    requires Filling(l) && |l| <= 286
    ensures Entries(l, 9, |l|) <= 340
  {
    hide Kraft, Pow2, Entries, Tables, Leaves, Closes;
    SmallPowers();
    if l[|l| - 1] <= 9 {
      AllShort(l, 9, |l|);
    } else {
      AllTables(l, 9);
      EvenEntries(l, 9, |l|);
      ShortOnes(l, 9, |l|);
      assert l[..|l|] == l;
    }
  }

  /** 27 leaves at the most are left for the sub-tables of a distance code, so 528 entries. */
  lemma DistsEntries(l: seq<int>)
    requires Filling(l) && |l| <= 30
    ensures Entries(l, 6, |l|) <= 528
  {
    hide Kraft, Pow2, Entries, Tables, Leaves, Closes;
    SmallPowers();
    if l[|l| - 1] <= 6 {
      AllShort(l, 6, |l|);
    } else {
      AllTables(l, 6);
      EvenEntries(l, 6, |l|);
      ShortOnes(l, 6, |l|);
      assert l[..|l|] == l;
      if Tables(l, 6, |l|) == 0 {
        NoTables(l, 6, |l|);
      } else if |l| - Leaves(l, 6, |l|) == 2 {
        TwoShort(l);
      }
    }
  }

  /** Two short codewords fill the root table of a distance code, or leave a quarter of it. */
  lemma TwoShort(l: seq<int>)
    requires Rising(l) && |l| - Leaves(l, 6, |l|) == 2
    ensures Kraft(l, 6) == 64 || Kraft(l, 6) <= 48
  {
    hide Pow2, Closes;
    SmallPowers();
    ShortFirst(l, 6, |l|);
    assert l[0] <= 6 && l[1] <= 6 && forall i :: 2 <= i < |l| ==> l[i] > 6;
    OnlyTwo(l, |l|);
    assert l[..|l|] == l;
    if l[1] >= 2 {
      Pow2Monotone(6 - l[1], 4);
      Pow2Monotone(6 - l[0], 5);
    }
  }

  lemma {:induction false} OnlyTwo(l: seq<int>, k: nat)
    requires Rising(l) && 2 <= k <= |l| && l[0] <= 6 && l[1] <= 6 && forall i :: 2 <= i < |l| ==> l[i] > 6
    ensures Kraft(l[..k], 6) == Pow2(6 - l[0]) + Pow2(6 - l[1])
  {
    hide Kraft, Pow2;
    if k == 2 {
      KraftAppend(l, 0, 6);
      KraftAppend(l, 1, 6);
      NothingUsed(6);
      assert l[..0] == [];
    } else {
      OnlyTwo(l, k - 1);
      KraftAppend(l, k - 1, 6);
    }
  }

  /** The short codewords come first. */
  lemma {:induction false} ShortFirst(l: seq<int>, root: nat, k: nat)
    requires Rising(l) && k <= |l|
    ensures forall i :: 0 <= i < k ==> (l[i] <= root <==> i < k - Leaves(l, root, k))
  {
    if k > 0 {
      ShortFirst(l, root, k - 1);
    }
  }

  // ---------- how wide a sub-table is ----------

  lemma {:induction false} EndCloses(l: seq<int>, root: nat, k: nat)
    requires k < |l| && Closes(l, root, |l| - 1)
    ensures k < End(l, root, k) && Closes(l, root, End(l, root, k) - 1)
    decreases |l| - k
  {
    hide Closes;
    if !Closes(l, root, k) {
      EndCloses(l, root, k + 1);
    }
  }

  lemma EndNext(l: seq<int>, root: nat, k: nat)
    requires k < |l|
    ensures End(l, root, k) <= End(l, root, k + 1)
    ensures Closes(l, root, k) ==> End(l, root, k) == k + 1
  {
    hide Closes;
  }

  lemma {:induction false} KraftSplit(l: seq<int>, j: nat, k: nat, n: nat)
    requires j <= k <= |l|
    ensures Kraft(l[..k], n) == Kraft(l[..j], n) + Kraft(l[j..k], n)
    decreases k
  {
    hide Kraft;
    if j == k {
      assert l[j..k] == [];
      NothingUsed(n);
    } else {
      KraftSplit(l, j, k - 1, n);
      KraftAppend(l, k - 1, n);
      KraftAppend(l[j..], k - 1 - j, n);
      assert l[j..][..k - 1 - j] == l[j..k - 1] && l[j..][..k - j] == l[j..k];
    }
  }

  /** From the first codeword of a table on, those up to the closing one fill it. */
  lemma TableFilled(l: seq<int>, root: nat, j: nat, c: nat, n: nat)
    requires Rising(l) && j <= c < |l| && root < l[j] && Number(l, j) % Pow2(l[j] - root) == 0 && Closes(l, root, c)
    requires l[c] <= n
    ensures Kraft(l[j..], n) >= Pow2(n - root)
  {
    hide Kraft, Pow2;
    var p := Pow2(l[c] - root);
    KraftSplit(l, j, c + 1, l[c]);
    KraftExact(l[..j], l[j], l[c]);
    var a, b := Number(l, j) / Pow2(l[j] - root), Taken(l, c) / p;
    DivMod(Number(l, j), Pow2(l[j] - root));
    DivMod(Taken(l, c), p);
    Pow2Sum(l[j] - root, l[c] - l[j]);
    assert l[j] - root + (l[c] - l[j]) == l[c] - root;
    MulSwap(Pow2(l[j] - root), a);
    MulAssoc(a, Pow2(l[j] - root), Pow2(l[c] - l[j]));
    var x := Kraft(l[j..c + 1], l[c]);
    assert x >= 1 by {
      KraftAppend(l[j..c + 1], c - j, l[c]);
      Pow2Step(0);
      assert l[j..c + 1][..c - j + 1] == l[j..c + 1];
    }
    MulSwap(p, b);
    Multiple(a, b, p, x);
    KraftExact(l[j..c + 1], l[c], n);
    MulMono(p, x, Pow2(n - l[c]));
    Pow2Sum(l[c] - root, n - l[c]);
    assert l[c] - root + (n - l[c]) == n - root;
    assert l[j..c + 1] == l[j..][..c + 1 - j];
    KraftPrefix(l[j..], c + 1 - j, n);
  }

  lemma Multiple(a: nat, b: nat, p: nat, x: nat)
    requires b * p == a * p + x && x >= 1
    ensures x >= p
  {
    if b <= a {
      MulMono(b, a, p);
    } else {
      MulMono(a + 1, b, p);
      Spread(a, 1, p);
    }
  }

  /** A table no wider than its codewords ask for is paid for when it closes. */
  lemma PaidFor(l: seq<int>, root: nat, j: nat, curr: nat)
    requires Filling(l) && j < |l| && root < l[j] && Number(l, j) % Pow2(l[j] - root) == 0 && l[j] <= root + curr
    requires root + curr == l[j] || Kraft(l[j..], root + curr - 1) < Pow2(curr - 1)
    ensures Entries(l, root, j) + Pow2(curr) <= Entries(l, root, End(l, root, j))
  {
    hide Kraft, Pow2, Closes, Number, Tables;
    AllTables(l, root);
    EndCloses(l, root, j);
    var c := End(l, root, j) - 1;
    EntriesRise(l, root, j, c);
    ClosesLong(l, root, c);
    if l[c] < root + curr {
      TableFilled(l, root, j, c, root + curr - 1);
    } else {
      Pow2Monotone(curr, l[c] - root);
    }
  }

  lemma ClosesLong(l: seq<int>, root: nat, c: nat)
    requires c < |l| && Closes(l, root, c)
    ensures l[c] > root && Entries(l, root, c + 1) == Entries(l, root, c) + Pow2(l[c] - root)
  {
    hide Pow2, Taken;
  }

  /** Within a table the next codeword has the same root bits; behind it the next table begins. */
  lemma RootBitsNext(l: seq<int>, root: nat, k: nat)
    requires Subscribed(l) && k + 1 < |l| && root < l[k]
    ensures Closes(l, root, k) ==> Number(l, k + 1) % Pow2(l[k + 1] - root) == 0
    ensures !Closes(l, root, k) ==> Number(l, k) / Pow2(l[k] - root) == Number(l, k + 1) / Pow2(l[k + 1] - root)
  {
    hide Kraft, Pow2, Number, Taken, Closes, Entries, Tables, Leaves;
    var p, s := Pow2(l[k] - root), Pow2(l[k + 1] - l[k]);
    var q, v := After(l, root, k);
    TakenNext(l, k);
    NumberNext(l, k);
    Pow2Sum(l[k] - root, l[k + 1] - l[k]);
    assert l[k] - root + (l[k + 1] - l[k]) == l[k + 1] - root;
    ScaleParts(q, v, p, s, Taken(l, k));
    DivUnique(Number(l, k + 1), p * s, q, v * s);
    if v > 0 {
      DivUnique(Number(l, k), p, q, v - 1);
    } else {
      assert 0 * s == 0;
    }
  }

  /** Where the root bits are new the codeword is the first of its table, and the one before it closes its own. */
  lemma NewTable(l: seq<int>, root: nat, k: nat)
    requires Subscribed(l) && k + 1 < |l| && root < l[k + 1]
    requires root < l[k] ==> Word(l, k)[..root] != Word(l, k + 1)[..root]
    ensures Number(l, k + 1) % Pow2(l[k + 1] - root) == 0
    ensures root < l[k] ==> Closes(l, root, k)
  {
    hide Kraft, Pow2, Word, Number, Closes, FromBits, ToBits;
    if l[k] <= root {
      NumberIs(l, k + 1);
      KraftExact(l[..k + 1], root, l[k + 1]);
      DivUnique(Number(l, k + 1), Pow2(l[k + 1] - root), Kraft(l[..k + 1], root), 0);
    } else {
      RootBitsNext(l, root, k);
      if !Closes(l, root, k) {
        WordPrefix(l, k, root);
        WordPrefix(l, k + 1, root);
        NumberRoundTrip(Word(l, k)[..root]);
        NumberRoundTrip(Word(l, k + 1)[..root]);
      }
    }
  }
}

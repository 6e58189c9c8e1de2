/** Slots of a decoding table: which index strings begin with a codeword, filling them, and what the filled
    slots mean for decoding. */
module TableSlots {
  import opened Bits
  import opened SortedCodes

  /** A table entry: operation, bits used up, value. */
  datatype Entry = Entry(op: int, bits: int, val: int)

  /** The n index bits i, lowest first, begin with c. */
  predicate Begins(i: nat, n: nat, c: seq<bool>) {
    |c| <= n && i < Pow2(n) && BitsOf(i, n)[..|c|] == c
  }

  lemma BeginsIs(i: nat, n: nat, c: seq<bool>)
    requires |c| <= n && i < Pow2(n)
    ensures Begins(i, n, c) <==> i % Pow2(|c|) == Value(c)
  {
    hide Value, Pow2, BitsOf;
    var b := BitsOf(i, n);
    BitsOfValue(i, n);
    assert b == b[..|c|] + b[|c|..];
    ValueConcat(b[..|c|], b[|c|..]);
    ValueBound(b[..|c|]);
    DivUnique(i, Pow2(|c|), Value(b[|c|..]), Value(b[..|c|]));
    if Value(b[..|c|]) == Value(c) {
      ValueInjective(b[..|c|], c);
    }
  }

  /** Among d-bit steps the only index with remainder h is the first plus h. */
  lemma OneSlot(i: nat, fill: nat, p: nat, q: nat, h: nat)
    requires p >= 1 && fill == p * q && h < p && fill <= i < fill + p
    ensures i % p == h <==> i == fill + h
  {
    DivUnique(i, p, q, i - fill);
  }

  lemma PowSplit(n: nat, d: nat)
    requires d <= n
    ensures Pow2(n) == Pow2(d) * Pow2(n - d)
  {
    hide Pow2;
    Pow2Sum(d, n - d);
    assert d + (n - d) == n;
  }

  /** Of the 2^curr slots at `at`, those from fill up hold the entry where their index begins with c; nothing else
      has changed. */
  ghost predicate Filled(t0: seq<Entry>, t: seq<Entry>, at: nat, curr: nat, here: Entry, c: seq<bool>, fill: nat) {
    && |t| == |t0| && at + Pow2(curr) <= |t|
    && (forall x :: at + fill <= x < at + Pow2(curr) ==> t[x] == if Begins(x - at, curr, c) then here else t0[x])
    && (forall x :: 0 <= x < |t| && !(at + fill <= x < at + Pow2(curr)) ==> t[x] == t0[x])
  }

  lemma FilledStart(t0: seq<Entry>, at: nat, curr: nat, here: Entry, c: seq<bool>)
    requires at + Pow2(curr) <= |t0|
    ensures Filled(t0, t0, at, curr, here, c, Pow2(curr))
  {
  }

  /** One more step of incr slots contains exactly one that begins with c. */
  lemma FilledNext(t0: seq<Entry>, t: seq<Entry>, at: nat, curr: nat, here: Entry, c: seq<bool>, fill: nat, q: nat)
    requires |c| <= curr && fill == Pow2(|c|) * q && fill + Pow2(|c|) <= Pow2(curr)
    requires Filled(t0, t, at, curr, here, c, fill + Pow2(|c|))
    ensures Value(c) < Pow2(|c|) && at + Value(c) + fill < |t|
    ensures Filled(t0, t[at + Value(c) + fill := here], at, curr, here, c, fill)
  {
    hide Value, Pow2, BitsOf, Begins;
    ValueBound(c);
    var t' := t[at + Value(c) + fill := here];
    forall x | at + fill <= x < at + Pow2(curr)
      ensures t'[x] == if Begins(x - at, curr, c) then here else t0[x]
    {
      if x < at + fill + Pow2(|c|) {
        BeginsIs(x - at, curr, c);
        OneSlot(x - at, fill, Pow2(|c|), q, Value(c));
      }
    }
  }

  /** Replicates an entry over all indices that begin with c, from the top down. */
  method FillSlots(table: array<Entry>, at: nat, curr: nat, len: nat, huffDropped: nat, here: Entry, ghost c: seq<bool>)
    requires |c| == len <= curr && huffDropped == Value(c) && at + Pow2(curr) <= table.Length
    modifies table
    ensures Filled(old(table[..]), table[..], at, curr, here, c, 0)
    ensures table[..at] == old(table[..at])
  {
    hide Value, Pow2, BitsOf, Begins, Filled;
    var incr := Pow2(len);
    var fill := Pow2(curr);
    ghost var q := Pow2(curr - |c|);
    PowSplit(curr, |c|);
    ghost var t0: seq<Entry> := table[..];
    FilledStart(t0, at, curr, here, c);
    while fill != 0
      invariant 0 <= q && fill == incr * q && fill <= Pow2(curr)
      invariant table.Length == |t0| && Filled(t0, table[..], at, curr, here, c, fill) && table[..at] == t0[..at]
      decreases fill
    {
      FillStep(fill, incr, q);
      fill := fill - incr;
      q := q - 1;
      ghost var t: seq<Entry> := table[..];
      FilledNext(t0, t, at, curr, here, c, fill, q);
      table[at + huffDropped + fill] := here;
      assert table[..] == t[at + huffDropped + fill := here];
    }
  }

  lemma FillStep(fill: nat, incr: nat, q: nat)
    requires fill == incr * q && fill != 0 && incr >= 1
    ensures q >= 1 && fill >= incr && fill - incr == incr * (q - 1)
  {
    NoSteps(incr);
    assert incr * q == incr * (q - 1) + incr;
    assert incr * (q - 1) >= 0;
  }

  lemma NoSteps(incr: nat)
    ensures incr * 0 == 0
  {
  }

  // ---------- what filled slots mean ----------

  /** A table entry that refers to a sub-table. */
  predicate IsLink(e: Entry) {
    0 < e.op < 16
  }

  /** Codeword c is decoded to (op, val): directly in the root table, or through its root entry in a sub-table. */
  ghost predicate Reaches(t: seq<Entry>, tbl: nat, root: nat, c: seq<bool>, op: int, val: int) {
    && tbl + Pow2(root) <= |t|
    && if |c| <= root then InSlots(t, tbl, root, c, Entry(op, |c|, val))
       else
         var e := t[tbl + RootIndex(c, root)];
         && IsLink(e) && e.bits == root && |c| - root <= e.op && root + e.op <= MAXBITS && Pow2(root) <= e.val &&
            tbl + e.val + Pow2(e.op) <= |t|
         && InSlots(t, tbl + e.val, e.op, c[root..], Entry(op, |c| - root, val))
  }

  /** The slot of the root table that a long codeword goes through. */
  function RootIndex(c: seq<bool>, root: nat): (r: nat)
    requires root <= |c|
    ensures r < Pow2(root)
  {
    ValueBound(c[..root]);
    Value(c[..root])
  }

  ghost predicate InSlots(t: seq<Entry>, at: nat, n: nat, c: seq<bool>, e: Entry)
    requires at + Pow2(n) <= |t|
  {
    forall x :: at <= x < at + Pow2(n) && Begins(x - at, n, c) ==> t[x] == e
  }

  /** Neither is the beginning of the other. */
  predicate Apart(c: seq<bool>, d: seq<bool>) {
    !(c <= d) && !(d <= c)
  }

  /** Two strings that begin the same index begin one another. */
  lemma BeginBoth(i: nat, n: nat, c: seq<bool>, d: seq<bool>)
    requires Begins(i, n, c) && Begins(i, n, d) && |c| <= |d|
    ensures c <= d
  {
    hide Value, Pow2, BitsOf;
    var b := BitsOf(i, n);
    assert b[..|d|][..|c|] == b[..|c|];
  }

  lemma NotBoth(i: nat, n: nat, c: seq<bool>, d: seq<bool>)
    requires Apart(c, d)
    ensures !(Begins(i, n, c) && Begins(i, n, d))
  {
    hide Value, Pow2, BitsOf, Begins;
    if Begins(i, n, c) && Begins(i, n, d) {
      if |c| <= |d| {
        BeginBoth(i, n, c, d);
      } else {
        BeginBoth(i, n, d, c);
      }
    }
  }

  /** Filling for one codeword leaves the slots of another one alone. */
  lemma FillApart(t0: seq<Entry>, t: seq<Entry>, at: nat, n: nat, here: Entry, c: seq<bool>, d: seq<bool>, e: Entry)
    requires Filled(t0, t, at, n, here, c, 0) && Apart(c, d) && InSlots(t0, at, n, d, e)
    ensures InSlots(t, at, n, d, e)
  {
    hide Value, Pow2, BitsOf, Begins, Apart;
    forall x | at <= x < at + Pow2(n) && Begins(x - at, n, d)
      ensures t[x] == e
    {
      NotBoth(x - at, n, c, d);
    }
  }

  /** Slots outside the filled table are left alone. */
  lemma FillElsewhere(t0: seq<Entry>, t: seq<Entry>, at: nat, n: nat, here: Entry, c: seq<bool>, at2: nat, n2: nat,
                      d: seq<bool>, e: Entry)
    requires Filled(t0, t, at, n, here, c, 0) && at2 + Pow2(n2) <= |t0| && InSlots(t0, at2, n2, d, e)
    requires at2 + Pow2(n2) <= at || at + Pow2(n) <= at2
    ensures InSlots(t, at2, n2, d, e)
  {
    hide Value, Pow2, BitsOf, Begins;
  }

  lemma FillReached(t0: seq<Entry>, t: seq<Entry>, at: nat, n: nat, here: Entry, c: seq<bool>)
    requires Filled(t0, t, at, n, here, c, 0)
    ensures at + Pow2(n) <= |t| && InSlots(t, at, n, c, here)
  {
    hide Value, Pow2, BitsOf, Begins;
  }

  /** Filling the root table keeps what shorter or equally long codewords reach. */
  lemma RootFillKeeps(t0: seq<Entry>, t: seq<Entry>, tbl: nat, root: nat, here: Entry, c: seq<bool>, d: seq<bool>,
                      op: int, val: int)
    requires Filled(t0, t, tbl, root, here, c, 0) && |c| <= root && |d| <= root && Apart(c, d)
    requires Reaches(t0, tbl, root, d, op, val)
    ensures Reaches(t, tbl, root, d, op, val)
  {
    hide Value, Pow2, BitsOf, Begins, Filled, InSlots, Apart;
    FillApart(t0, t, tbl, root, here, c, d, Entry(op, |d|, val));
    FillReached(t0, t, tbl, root, here, c);
  }

  lemma RootFillReaches(t0: seq<Entry>, t: seq<Entry>, tbl: nat, root: nat, c: seq<bool>, op: int, val: int)
    requires |c| <= root && Filled(t0, t, tbl, root, Entry(op, |c|, val), c, 0)
    ensures Reaches(t, tbl, root, c, op, val)
  {
    hide Value, Pow2, BitsOf, Begins, Filled, InSlots;
    FillReached(t0, t, tbl, root, Entry(op, |c|, val), c);
  }

  /** Where the sub-table of a long codeword lies against the current one: before it, or it is the same one. */
  ghost predicate Beside(t: seq<Entry>, tbl: nat, root: nat, d: seq<bool>, next: nat, curr: nat, prefix: seq<bool>)
    requires tbl + Pow2(root) <= |t|
  {
    |d| > root ==>
      var e := t[tbl + RootIndex(d, root)];
      (0 <= e.op && e.val + Pow2(e.op) <= next) || (e.val == next && e.op == curr && d[..root] == prefix)
  }

  lemma JoinPrefix(c: seq<bool>, d: seq<bool>, root: nat)
    requires root <= |c| && root <= |d| && c[..root] == d[..root] && c[root..] <= d[root..]
    ensures c <= d
  {
    assert c == c[..root] + c[root..] && d == d[..root] + d[root..];
  }

  /** The part behind the root bits keeps two codewords of one sub-table apart. */
  lemma TailsApart(c: seq<bool>, d: seq<bool>, root: nat)
    requires Apart(c, d) && root <= |c| && root <= |d| && c[..root] == d[..root]
    ensures Apart(c[root..], d[root..])
  {
    if c[root..] <= d[root..] {
      JoinPrefix(c, d, root);
    } else if d[root..] <= c[root..] {
      JoinPrefix(d, c, root);
    }
  }

  lemma FilledSize(t0: seq<Entry>, t: seq<Entry>, at: nat, n: nat, here: Entry, c: seq<bool>)
    requires Filled(t0, t, at, n, here, c, 0)
    ensures |t| == |t0| && at + Pow2(n) <= |t|
    ensures forall x :: 0 <= x < at && x < |t| ==> t[x] == t0[x]
  {
    hide Value, Pow2, BitsOf, Begins;
  }

  /** Filling a sub-table keeps what other codewords reach. */
  lemma SubFillKeeps(t0: seq<Entry>, t: seq<Entry>, tbl: nat, root: nat, next: nat, curr: nat, here: Entry,
                     c: seq<bool>, d: seq<bool>, op: int, val: int)
    requires root < |c| && Pow2(root) <= next && Filled(t0, t, tbl + next, curr, here, c[root..], 0)
    requires Apart(c, d) && Reaches(t0, tbl, root, d, op, val) && Beside(t0, tbl, root, d, next, curr, c[..root])
    ensures Reaches(t, tbl, root, d, op, val) && Beside(t, tbl, root, d, next, curr, c[..root])
  {
    hide Value, Pow2, BitsOf, Begins, Filled, InSlots, Apart, RootIndex;
    FilledSize(t0, t, tbl + next, curr, here, c[root..]);
    if |d| <= root {
      FillElsewhere(t0, t, tbl + next, curr, here, c[root..], tbl, root, d, Entry(op, |d|, val));
    } else {
      var e := t0[tbl + RootIndex(d, root)];
      assert t[tbl + RootIndex(d, root)] == e;
      var f := Entry(op, |d| - root, val);
      if e.val + Pow2(e.op) <= next {
        FillElsewhere(t0, t, tbl + next, curr, here, c[root..], tbl + e.val, e.op, d[root..], f);
      } else {
        TailsApart(c, d, root);
        FillApart(t0, t, tbl + next, curr, here, c[root..], d[root..], f);
      }
    }
  }

  lemma SubFillReaches(t0: seq<Entry>, t: seq<Entry>, tbl: nat, root: nat, next: nat, curr: nat, c: seq<bool>, op: int,
                       val: int)
    requires root < |c| <= root + curr <= MAXBITS && Pow2(root) <= next
    requires Filled(t0, t, tbl + next, curr, Entry(op, |c| - root, val), c[root..], 0)
    requires t0[tbl + RootIndex(c, root)] == Entry(curr, root, next)
    ensures Reaches(t, tbl, root, c, op, val) && Beside(t, tbl, root, c, next, curr, c[..root])
  {
    hide Value, Pow2, BitsOf, Begins, Filled, InSlots, RootIndex;
    FilledSize(t0, t, tbl + next, curr, Entry(op, |c| - root, val), c[root..]);
    FillReached(t0, t, tbl + next, curr, Entry(op, |c| - root, val), c[root..]);
  }

  /** Writing the link of a new prefix keeps what the earlier codewords reach. */
  lemma LinkKeeps(t: seq<Entry>, tbl: nat, root: nat, next: nat, c: seq<bool>, link: Entry, d: seq<bool>, op: int,
                  val: int)
    requires root < |c| && tbl + Pow2(root) <= |t| && Apart(c, d)
    requires |d| > root ==> c[..root] != d[..root]
    requires Reaches(t, tbl, root, d, op, val)
    ensures Reaches(t[tbl + RootIndex(c, root) := link], tbl, root, d, op, val)
    ensures |d| > root ==>
      t[tbl + RootIndex(c, root) := link][tbl + RootIndex(d, root)] == t[tbl + RootIndex(d, root)]
  {
    hide Pow2, BitsOf, Begins, Apart;
    var r := tbl + RootIndex(c, root);
    var t' := t[r := link];
    if |d| <= root {
      forall x | tbl <= x < tbl + Pow2(root) && Begins(x - tbl, root, d)
        ensures t'[x] == Entry(op, |d|, val)
      {
        if x == r {
          RootBegins(c, root, d);
        }
      }
    } else {
      if RootIndex(c, root) == RootIndex(d, root) {
        ValueInjective(c[..root], d[..root]);
      }
    }
  }

  lemma RootPrefix(c: seq<bool>, root: nat, d: seq<bool>)
    requires root < |c| && |d| <= root && Begins(RootIndex(c, root), root, d)
    ensures d <= c
  {
    hide Value, Pow2, BitsOf;
    ValueBits(c[..root]);
    assert d == c[..root][..|d|] == c[..|d|];
  }

  /** No short codeword begins the root bits of a long one. */
  lemma RootBegins(c: seq<bool>, root: nat, d: seq<bool>)
    requires root < |c| && |d| <= root && Apart(c, d)
    ensures !Begins(RootIndex(c, root), root, d)
  {
    hide Value, Pow2, BitsOf, Begins, RootIndex;
    if Begins(RootIndex(c, root), root, d) {
      RootPrefix(c, root, d);
    }
  }
}

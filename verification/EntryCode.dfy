/** Decoding one symbol: what the bits ahead say by the code alone, and why the table says the same even when only
    part of its index bits has arrived. */
module EntryCode {
  import opened Bits
  import opened DeflateCodes
  import opened HuffStep
  import opened InflateTable
  import opened SortedCodes
  import opened TableBuilder
  import opened TableSlots
  import opened ZBits
  import BitIO
  import DepthClamp

  /** The entry for the next symbol: that of the symbol whose codeword the bits begin with. Bits that begin no
      codeword, which a complete code does not leave room for, give an invalid entry that uses up one bit. */
  ghost function EntryRead(lens: seq<int>, kind: Kind, bits: seq<bool>): Read<Entry>
    requires |lens| <= Symbols(kind)
  {
    if s :| Uses(lens, s) && Codeword(lens, s) <= bits then Val(Meaning(kind, s).(bits := lens[s]), bits[lens[s]..])
    else if Complete(lens) || bits == [] then Short
    else Val(INVALID, bits[1..])
  }

  /** A code as the decoder accepts it. */
  ghost predicate Readable(lens: seq<int>, kind: Kind) {
    IsLens(lens) && |lens| <= Symbols(kind) && UsedKraft(lens, MAXBITS) <= Pow2(MAXBITS)
  }

  lemma Comparable(a: seq<bool>, b: seq<bool>, x: seq<bool>)
    requires a <= x && b <= x
    ensures a <= b || b <= a
  {
    if |a| <= |b| {
      assert b[..|a|] == x[..|a|];
    } else {
      assert a[..|b|] == x[..|b|];
    }
  }

  /** Bits begin with at most one codeword. */
  lemma OneCodeword(lens: seq<int>, kind: Kind, bits: seq<bool>, s: int, u: int)
    requires Readable(lens, kind) && Uses(lens, s) && Uses(lens, u) && Codeword(lens, s) <= bits
    requires Codeword(lens, u) <= bits
    ensures s == u
  {
    hide Codeword, UsedKraft, Pow2;
    if s != u {
      CodewordsApart(lens, s, u);
      CodewordsApart(lens, u, s);
      Comparable(Codeword(lens, s), Codeword(lens, u), bits);
    }
  }

  lemma EntryIs(lens: seq<int>, kind: Kind, bits: seq<bool>, s: nat)
    requires Readable(lens, kind) && Uses(lens, s) && Codeword(lens, s) <= bits
    ensures EntryRead(lens, kind, bits) == Val(Meaning(kind, s).(bits := lens[s]), bits[lens[s]..])
  {
    hide Codeword, UsedKraft, Pow2, Meaning, Readable, Symbols;
    ReadableSize(lens, kind);
    var u :| Uses(lens, u) && Codeword(lens, u) <= bits &&
        EntryRead(lens, kind, bits) == Val(Meaning(kind, u).(bits := lens[u]), bits[lens[u]..]);
    OneCodeword(lens, kind, bits, s, u);
  }

  lemma ReadableSize(lens: seq<int>, kind: Kind)
    requires Readable(lens, kind)
    ensures |lens| <= Symbols(kind) && IsLens(lens)
  {
  }

  /** A sent codeword is read back as its symbol's entry. */
  lemma EntrySent(lens: seq<int>, kind: Kind, s: nat, rest: seq<bool>)
    requires Readable(lens, kind) && Uses(lens, s)
    ensures EntryRead(lens, kind, Codeword(lens, s) + rest) == Val(Meaning(kind, s).(bits := lens[s]), rest)
  {
    hide Codeword, UsedKraft, Pow2, Meaning, Readable;
    ReadableSize(lens, kind);
    EntryIs(lens, kind, Codeword(lens, s) + rest, s);
    assert (Codeword(lens, s) + rest)[lens[s]..] == rest;
  }

  lemma EntryShrinks(lens: seq<int>, kind: Kind, bits: seq<bool>)
    requires |lens| <= Symbols(kind)
    ensures EntryRead(lens, kind, bits).Val? ==> |EntryRead(lens, kind, bits).rest| < |bits|
  {
    hide Codeword, Meaning, UsedKraft;
  }

  // ---------- through the table ----------

  /** A table fit for decoding: it belongs to the code, and the code is accepted. */
  ghost predicate Decodes(t: seq<Entry>, tbl: nat, root: nat, lens: seq<int>, kind: Kind) {
    Tabled(t, tbl, root, lens, kind) && !Rejected(kind, lens) && 1 <= root <= MAXBITS
  }

  lemma DecodesParts(t: seq<Entry>, tbl: nat, root: nat, lens: seq<int>, kind: Kind)
    requires Decodes(t, tbl, root, lens, kind)
    ensures tbl + Pow2(root) <= |t| && Readable(lens, kind)
  {
    hide Codeword, Pow2, Reaches;
    if forall s :: !Uses(lens, s) {
      NotUsed(lens);
      DepthClamp.NothingUsed(lens, MAXBITS);
    }
  }

  lemma NotUsed(lens: seq<int>)
    requires IsLens(lens) && forall s :: !Uses(lens, s)
    ensures forall s :: 0 <= s < |lens| ==> lens[s] == 0
  {
    forall s | 0 <= s < |lens|
      ensures lens[s] == 0
    {
      assert !Uses(lens, s);
    }
  }

  /** The bits in the accumulator, filled up with zeros. */
  function Padded(b: seq<bool>): (x: seq<bool>)
    ensures |x| == |b| + 2 * MAXBITS
  {
    b + HuffStep.Zeros(2 * MAXBITS)
  }

  /** An entry that uses up no more bits than have arrived is the right one, whatever bits come next. */
  lemma PaddedIsRight(t: seq<Entry>, tbl: nat, root: nat, lens: seq<int>, kind: Kind, b: seq<bool>, more: seq<bool>)
    requires Decodes(t, tbl, root, lens, kind)
    ensures |lens| <= Symbols(kind) && Followed(t, tbl, root, Padded(b))
    ensures 1 <= Lookup(t, tbl, root, Padded(b)).bits <= MAXBITS
    ensures IsLink(t[tbl + RootIndex(Padded(b), root)]) ==> Lookup(t, tbl, root, Padded(b)).bits > root
    ensures var f := Lookup(t, tbl, root, Padded(b));
      if f.bits <= |b| then EntryRead(lens, kind, b + more) == Val(f, (b + more)[f.bits..])
      else EntryRead(lens, kind, b).Short?
  {
    hide Codeword, UsedKraft, Pow2, Meaning, Lookup, RootIndex, Tabled, Reaches;
    var x := Padded(b);
    DecodesParts(t, tbl, root, lens, kind);
    ReadableSize(lens, kind);
    LookupDecodes(t, tbl, root, lens, kind, x);
    var f := Lookup(t, tbl, root, x);
    if s :| Uses(lens, s) && Codeword(lens, s) <= x {
      MeaningBits(kind, s, lens[s]);
      if f.bits <= |b| {
        assert Codeword(lens, s) == x[..lens[s]] == (b + more)[..lens[s]];
        EntryIs(lens, kind, b + more, s);
      } else {
        TooShort(t, tbl, root, lens, kind, b, x, s);
      }
    } else if b != [] {
      NoneBegins(t, tbl, root, lens, kind, x, b + more);
    } else {
      NothingYet(lens, kind);
    }
  }

  /** Where no length exceeds the root bits there are no sub-tables. */
  lemma NoLinks(t: seq<Entry>, tbl: nat, root: nat, lens: seq<int>, kind: Kind, b: seq<bool>)
    requires Decodes(t, tbl, root, lens, kind) && forall s :: Uses(lens, s) ==> lens[s] <= root
    ensures |lens| <= Symbols(kind) && tbl + RootIndex(Padded(b), root) < |t|
    ensures !IsLink(t[tbl + RootIndex(Padded(b), root)])
  {
    hide Codeword, UsedKraft, Pow2, Meaning, Lookup, RootIndex, Tabled, Reaches;
    var x := Padded(b);
    DecodesParts(t, tbl, root, lens, kind);
    ReadableSize(lens, kind);
    IndexFits(x, root);
    LookupDecodes(t, tbl, root, lens, kind, x);
    if s :| Uses(lens, s) && Codeword(lens, s) <= x {
      MeaningBits(kind, s, lens[s]);
    }
  }

  lemma IndexFits(x: seq<bool>, root: nat)
    requires root <= |x|
    ensures RootIndex(x, root) < Pow2(root)
  {
  }

  lemma NothingYet(lens: seq<int>, kind: Kind)
    requires |lens| <= Symbols(kind) && IsLens(lens)
    ensures EntryRead(lens, kind, []).Short?
  {
    hide Meaning, UsedKraft;
    assert forall s :: Uses(lens, s) ==> |Codeword(lens, s)| >= 1;
  }

  /** As long as the codeword ahead may be longer than what has arrived, no symbol can be told. */
  lemma TooShort(t: seq<Entry>, tbl: nat, root: nat, lens: seq<int>, kind: Kind, b: seq<bool>, x: seq<bool>, s: int)
    requires Decodes(t, tbl, root, lens, kind) && b <= x && Uses(lens, s) && Codeword(lens, s) <= x && lens[s] > |b|
    ensures |lens| <= Symbols(kind) && EntryRead(lens, kind, b).Short?
  {
    hide Codeword, UsedKraft, Pow2, Meaning, Reaches;
    DecodesParts(t, tbl, root, lens, kind);
    forall u | Uses(lens, u)
      ensures !(Codeword(lens, u) <= b)
    {
      if Codeword(lens, u) <= b {
        OneCodeword(lens, kind, x, s, u);
      }
    }
    if !Complete(lens) {
      RootOne(lens, kind);
    }
  }

  lemma MeaningBits(kind: Kind, s: nat, n: int)
    requires s < Symbols(kind)
    ensures Meaning(kind, s).(bits := n).bits == n
  {
  }

  /** Bits that begin no codeword differ from every codeword in their first bit. */
  lemma NoneBegins(t: seq<Entry>, tbl: nat, root: nat, lens: seq<int>, kind: Kind, x: seq<bool>, y: seq<bool>)
    requires Decodes(t, tbl, root, lens, kind) && |x| >= MAXBITS && y != [] && y[0] == x[0]
    requires forall s :: Uses(lens, s) ==> !(Codeword(lens, s) <= x)
    ensures |lens| <= Symbols(kind) && EntryRead(lens, kind, y) == Val(INVALID, y[1..])
  {
    hide Codeword, UsedKraft, Pow2, Meaning, Reaches;
    if Complete(lens) {
      CompleteHas(lens, x);
    }
    if exists s :: Uses(lens, s) {
      var s :| Uses(lens, s) && Codeword(lens, s) == [false];
      assert x[0];
      forall u | Uses(lens, u)
        ensures !(Codeword(lens, u) <= y)
      {
        OnlyOne(t, tbl, root, lens, kind, s, u);
      }
    }
  }

  /** The single codeword of an incomplete code. */
  lemma OnlyOne(t: seq<Entry>, tbl: nat, root: nat, lens: seq<int>, kind: Kind, s: int, u: int)
    requires Decodes(t, tbl, root, lens, kind) && !Complete(lens) && Uses(lens, s) && Uses(lens, u)
    requires Codeword(lens, s) == [false]
    ensures Codeword(lens, u) == [false]
  {
    hide Codeword, UsedKraft, Pow2, Meaning, Tabled, Reaches;
    DecodesParts(t, tbl, root, lens, kind);
    RootOne(lens, kind);
    if u != s {
      CodewordsApart(lens, s, u);
      CodewordsApart(lens, u, s);
      TwoBits(lens, s, u);
    }
  }

  lemma RootOne(lens: seq<int>, kind: Kind)
    requires !Rejected(kind, lens) && !Complete(lens) && exists s :: Uses(lens, s)
    ensures forall s :: Uses(lens, s) ==> lens[s] == 1
    ensures UsedKraft(lens, MAXBITS) < Pow2(MAXBITS)
  {
    hide UsedKraft, Pow2;
  }

  lemma TwoBits(lens: seq<int>, s: int, u: int)
    requires IsLens(lens) && Uses(lens, s) && Uses(lens, u) && s != u && lens[s] == 1 && lens[u] == 1
    ensures UsedKraft(lens, MAXBITS) >= Pow2(MAXBITS)
  {
    hide Pow2;
    UsedTwice(lens, if s < u then s else u, if s < u then u else s);
    BitIO.Pow2Step(MAXBITS - 1);
  }

  lemma {:induction false} UsedTwice(lens: seq<int>, s: nat, u: nat)
    requires s < u < |lens| && lens[s] == 1 && lens[u] == 1
    ensures UsedKraft(lens, MAXBITS) >= 2 * Pow2(MAXBITS - 1)
    decreases |lens|
  {
    hide Pow2;
    var k := |lens| - 1;
    if u < k {
      UsedTwice(lens[..k], s, u);
    } else {
      UsedOnce(lens[..k], s);
    }
  }

  lemma {:induction false} UsedOnce(lens: seq<int>, s: nat)
    requires s < |lens| && lens[s] == 1
    ensures UsedKraft(lens, MAXBITS) >= Pow2(MAXBITS - 1)
    decreases |lens|
  {
    hide Pow2;
    var k := |lens| - 1;
    if s < k {
      UsedOnce(lens[..k], s);
    }
  }

  // ---------- how many bits a symbol leaves over ----------

  /** Bits that were pulled only as far as the next symbol needed them, up to the last byte. */
  ghost predicate Settled(lens: seq<int>, kind: Kind, a: seq<bool>)
    requires |lens| <= Symbols(kind)
  {
    |a| < 8 || exists n :: 0 <= n <= |a| <= n + 8 && EntryRead(lens, kind, a[..n]).Short?
  }

  /** What cannot be told from the first bits uses up more than those. */
  lemma ShortThenLonger(lens: seq<int>, kind: Kind, b: seq<bool>, more: seq<bool>)
    requires |lens| <= Symbols(kind) && EntryRead(lens, kind, b).Short? && EntryRead(lens, kind, b + more).Val?
    ensures |EntryRead(lens, kind, b + more).rest| < |more|
  {
    hide Codeword, Meaning, UsedKraft, Pow2;
    var x := b + more;
    if exists s :: Uses(lens, s) && Codeword(lens, s) <= x {
      var s :| Uses(lens, s) && Codeword(lens, s) <= x &&
          EntryRead(lens, kind, x) == Val(Meaning(kind, s).(bits := lens[s]), x[lens[s]..]);
      PrefixWithin(Codeword(lens, s), b, more);
    }
  }

  lemma PrefixWithin(c: seq<bool>, b: seq<bool>, more: seq<bool>)
    requires c <= b + more
    ensures |c| <= |b| ==> c <= b
  {
    if |c| <= |b| {
      assert c == (b + more)[..|c|] == b[..|c|];
    }
  }

  /** So less than a byte is left over. */
  lemma SettledLeaves(lens: seq<int>, kind: Kind, a: seq<bool>, more: seq<bool>)
    requires |lens| <= Symbols(kind) && Settled(lens, kind, a) && EntryRead(lens, kind, a + more).Val?
    ensures |EntryRead(lens, kind, a + more).rest| < |more| + 8
  {
    hide EntryRead;
    if |a| < 8 {
      EntryShrinks(lens, kind, a + more);
    } else {
      var n :| 0 <= n <= |a| <= n + 8 && EntryRead(lens, kind, a[..n]).Short?;
      assert a + more == a[..n] + (a[n..] + more);
      ShortThenLonger(lens, kind, a[..n], a[n..] + more);
    }
  }

  /** One more byte keeps bits settled that do not yet tell the symbol. */
  lemma SettledGrows(lens: seq<int>, kind: Kind, a: seq<bool>, b: seq<bool>)
    requires |lens| <= Symbols(kind) && EntryRead(lens, kind, a).Short? && a <= b && |b| <= |a| + 8
    ensures Settled(lens, kind, b)
  {
    hide EntryRead;
    assert b[..|a|] == a;
  }

  // ---------- what entries look like ----------

  /** What a decoder can meet: a value, the end of the block, an invalid mark, or a base with few extra bits. */
  predicate Shape(kind: Kind, e: Entry) {
    match kind
    case CODES => (e.op == 64 && e.val == 0) || (e.op == 0 && 0 <= e.val < 19)
    case LENS =>
      (e.op == 0 && 0 <= e.val < 256) || e.op == 96 || e.op == 64 || e.op == 72 || e.op == 78
      || (16 <= e.op <= 21 && 3 <= e.val && e.val + Pow2(e.op - 16) <= 259)
    case DISTS => e.op == 64 || (16 <= e.op <= 29 && 1 <= e.val && e.val + Pow2(e.op - 16) <= 32769)
  }

  lemma LenShape(i: nat)
    requires i < 31
    ensures Shape(LENS, Entry(LExt(i), 0, LBase(i)))
  {
    hide Pow2;
    SmallPowers();
  }

  lemma DistShape(i: nat)
    requires i < 32
    ensures Shape(DISTS, Entry(DExt(i), 0, DBase(i)))
  {
    hide Pow2;
    SmallPowers();
  }

  lemma MeaningShape(kind: Kind, s: nat)
    requires s < Symbols(kind)
    ensures Shape(kind, Meaning(kind, s))
  {
    hide Pow2, LExt, LBase, DExt, DBase;
    match kind
    case CODES =>
    case LENS =>
      if s > 256 {
        LenShape(s - 257);
      }
    case DISTS =>
      DistShape(s);
  }

  lemma EntryShape(lens: seq<int>, kind: Kind, bits: seq<bool>)
    requires |lens| <= Symbols(kind) && EntryRead(lens, kind, bits).Val?
    ensures Shape(kind, EntryRead(lens, kind, bits).value)
  {
    hide Codeword, Meaning, UsedKraft, Pow2;
    if exists s :: Uses(lens, s) && Codeword(lens, s) <= bits {
      var s :| Uses(lens, s) && Codeword(lens, s) <= bits &&
          EntryRead(lens, kind, bits).value == Meaning(kind, s).(bits := lens[s]);
      MeaningShape(kind, s);
    }
  }
}

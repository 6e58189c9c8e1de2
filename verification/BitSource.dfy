/** inflate's input side: bytes go into an accumulator from the top, bits leave it at the bottom, and symbols are
    looked up with as few bits as they need. */
module BitSource {
  import opened Bits
  import opened BitIO
  import opened Bytes
  import opened DeflateCodes
  import opened EntryCode
  import opened HuffStep
  import opened InflateSpec
  import opened InflateTable
  import opened SortedCodes
  import opened TableBuilder
  import opened TableSlots
  import opened ZBits

  lemma ZeroValue(b: seq<bool>)
    ensures Value(Padded(b)) == Value(b)
  {
    hide Value;
    ValueExtended(b, 2 * MAXBITS);
  }

  /** What the decoder masks out of the accumulator is an index of the bits that have arrived, zeros behind them. */
  lemma MaskedIndex(b: seq<bool>, n: nat)
    requires n <= |b| + 2 * MAXBITS
    ensures Rem(Value(b), Pow2(n)) == RootIndex(Padded(b), n)
  {
    hide Value, Pow2, Padded, Rem;
    ZeroValue(b);
    CutBits(Padded(b), n);
  }

  lemma ShiftedIndex(b: seq<bool>, m: nat, n: nat)
    requires m + n <= |b| + 2 * MAXBITS
    ensures Quot(Rem(Value(b), Pow2(m + n)), Pow2(m)) == RootIndex(Padded(b)[m..], n)
  {
    hide Value, Pow2, Padded, Rem, Quot;
    var x := Padded(b);
    ZeroValue(b);
    CutBits(x, m + n);
    CutBits(x[..m + n], m);
    assert x[..m + n][m..] == x[m..][..n];
  }

  /** Masking and shifting is shifting and masking. */
  lemma ShiftMask(h: nat, r: nat, o: nat)
    ensures Quot(Rem(h, Pow2(r + o)), Pow2(r)) == Rem(Quot(h, Pow2(r)), Pow2(o))
  {
    hide Pow2, Quot, Rem;
    Pow2Sum(r, o);
    QuotRem(h, Pow2(r + o));
    var q, x := Quot(h, Pow2(r + o)), Rem(h, Pow2(r + o));
    QuotRem(x, Pow2(r));
    var y, z := Quot(x, Pow2(r)), Rem(x, Pow2(r));
    QuotBelow(x, Pow2(r), Pow2(o), y, z);
    ShiftArith(Pow2(r), Pow2(o), q, y);
    QuotIs(h, Pow2(r), Pow2(o) * q + y, z);
    QuotIs(Pow2(o) * q + y, Pow2(o), q, y);
  }

  lemma ShiftArith(p: nat, o: nat, q: nat, y: nat)
    ensures p * o * q + p * y == p * (o * q + y)
  {
  }

  lemma QuotBelow(x: nat, p: nat, o: nat, y: nat, z: nat)
    requires x < p * o && x == p * y + z && z < p
    ensures y < o
  {
  }

  /** The end of a bit string. */
  ghost predicate Suffix(a: seq<bool>, b: seq<bool>) {
    |a| <= |b| && b[|b| - |a|..] == a
  }

  lemma SuffixDrop(a: seq<bool>, b: seq<bool>, n: nat)
    requires Suffix(a, b) && n <= |a|
    ensures Suffix(a[n..], b)
  {
    assert b[|b| - |a|..][n..] == b[|b| - |a| + n..];
  }

  lemma SuffixOf(a: seq<bool>, b: seq<bool>, c: seq<bool>)
    requires Suffix(a, b) && Suffix(b, c)
    ensures Suffix(a, c) && |a| <= |b| <= |c|
  {
    assert c[|c| - |b|..][|b| - |a|..] == c[|c| - |a|..];
  }

  /** Suffixes of one length are the same. */
  lemma SuffixIs(a: seq<bool>, b: seq<bool>, p: seq<bool>, c: seq<bool>)
    requires Suffix(a, p + b) && |a| == |c| <= |b| && Suffix(c, b)
    ensures a == c
  {
    assert (p + b)[|p + b| - |a|..] == b[|b| - |a|..];
  }

  lemma {:induction false} LowBitsDrop(s: seq<int>, i: nat)
    requires IsBytes(s) && i <= |s|
    ensures Suffix(LowBits(s[i..]), LowBits(s))
    decreases i
  {
    hide LowBits;
    if i == 0 {
      assert s[0..] == s;
    } else {
      LowBitsDrop(s[1..], i - 1);
      assert s[1..][i - 1..] == s[i..] && s == [s[0]] + s[1..];
      LowBitsPrepend(s[0], s[1..]);
    }
  }

  lemma {:induction false} LowBitsConcat(s: seq<int>, t: seq<int>)
    requires IsBytes(s) && IsBytes(t)
    ensures IsBytes(s + t) && LowBits(s + t) == LowBits(s) + LowBits(t)
    decreases |s|
  {
    hide BitsOf, LowBits;
    if s == [] {
      assert s + t == t;
      NoLowBits();
    } else {
      LowBitsConcat(s[1..], t);
      assert s == [s[0]] + s[1..] && s + t == [s[0]] + (s[1..] + t);
      LowBitsPrepend(s[0], s[1..]);
      LowBitsPrepend(s[0], s[1..] + t);
      assert BitsOf(s[0], 8) + LowBits(s[1..]) + LowBits(t) == BitsOf(s[0], 8) + (LowBits(s[1..]) + LowBits(t));
    }
  }

  lemma NoLowBits()
    ensures LowBits([]) == []
  {
  }

  lemma SuffixMore(a: seq<bool>, b: seq<bool>, more: seq<bool>)
    requires Suffix(a, b)
    ensures Suffix(a + more, b + more)
  {
    assert (b + more)[|b| - |a|..] == b[|b| - |a|..] + more;
  }

  /** The last len bytes before next are those that the end of the accumulator holds. */
  lemma GivenBack(acc: seq<bool>, inp: seq<int>, start: nat, next: nat, len: nat, a: seq<bool>, later: seq<bool>)
    requires IsBytes(inp) && start + len <= next <= |inp| && 8 * len <= |acc|
    requires Suffix(acc + (LowBits(inp[next..]) + later), a + (LowBits(inp[start..]) + later))
    ensures acc[..|acc| - 8 * len] + (LowBits(inp[next - len..]) + later) == acc + (LowBits(inp[next..]) + later)
  {
    hide LowBits, Suffix;
    var m, b := |acc| - 8 * len, acc + (LowBits(inp[next..]) + later);
    SuffixDrop(b, a + (LowBits(inp[start..]) + later), m);
    LowBitsDrop(inp[start..], next - len - start);
    assert inp[start..][next - len - start..] == inp[next - len..];
    SuffixMore(LowBits(inp[next - len..]), LowBits(inp[start..]), later);
    SuffixIs(b[m..], LowBits(inp[start..]) + later, a, LowBits(inp[next - len..]) + later);
    assert b == acc[..m] + b[m..];
  }

  class Source {
    var inp: seq<int>
    var next: nat
    var hold: nat
    var bits: nat
    /** What is still to come in later calls. */
    ghost var later: seq<bool>

    ghost predicate Valid()
      reads this
    {
      IsBytes(inp) && next <= |inp| && hold < Pow2(bits) && bits <= 32
    }

    /** The bits in the accumulator. */
    ghost function Acc(): (b: seq<bool>)
      reads `hold, `bits
      ensures |b| == bits
    {
      BitsOf(hold, bits)
    }

    /** All bits that have not been used. */
    ghost function Ahead(): (b: seq<bool>)
      requires Valid()
      reads this
      ensures |b| >= bits
    {
      Acc() + (LowBits(inp[next..]) + later)
    }

    constructor (data: seq<int>, ghost later: seq<bool>)
      requires IsBytes(data)
      ensures Valid() && Ahead() == LowBits(data) + later && bits == 0 && inp == data && next == 0
      ensures this.later == later
    {
      inp, next, hold, bits := data, 0, 0, 0;
      this.later := later;
      new;
      assert inp[0..] == data;
      assert Acc() == [];
    }

    /** The next call's input: what has not been read yet, and more. */
    method Feed(more: seq<int>, ghost after: seq<bool>)
      requires Valid() && IsBytes(more) && later == LowBits(more) + after
      modifies `inp, `next, `later
      ensures Valid() && Ahead() == old(Ahead()) && later == after
      ensures inp == old(inp[next..]) + more && next == 0
    {
      hide LowBits, BitsOf, Pow2;
      LowBitsConcat(inp[next..], more);
      inp, next, later := inp[next..] + more, 0, after;
      assert inp[0..] == inp;
    }

    /** PULLBYTE, when there is a byte. */
    method PullByte()
      requires Valid() && next < |inp| && bits <= 24
      modifies `next, `hold, `bits
      ensures Valid() && Ahead() == old(Ahead()) && next == old(next) + 1 && bits == old(bits) + 8
      ensures old(Acc()) <= Acc()
    {
      hide Pow2, BitsOf, LowBits, OnTop;
      ghost var c, a, l := inp[next], Acc(), inp[next + 1..];
      Pow16();
      PutOnTop(hold, bits, inp[next], 8);
      assert inp[next..] == [c] + l;
      LowBitsPrepend(c, l);
      hold := OnTop(hold, bits, inp[next]);
      bits := bits + 8;
      next := next + 1;
      assert Acc() == a + BitsOf(c, 8);
      assert a + (BitsOf(c, 8) + LowBits(l) + later) == a + BitsOf(c, 8) + (LowBits(l) + later);
    }

    /** DROPBITS. */
    method DropBits(n: nat)
      requires Valid() && n <= bits
      modifies `hold, `bits
      ensures Valid() && bits == old(bits) - n && Ahead() == old(Ahead())[n..] && Acc() == old(Acc())[n..]
      ensures hold == Quot(old(hold), Pow2(n))
    {
      hide Pow2, BitsOf, LowBits, Quot, Rem;
      BitsOfValue(hold, bits);
      CutBits(Acc(), n);
      hold := Quot(hold, Pow2(n));
      bits := bits - n;
    }

    /** BITS: the low n bits, which have arrived. */
    function Low(n: nat): nat
      reads `hold
    {
      Rem(hold, Pow2(n))
    }

    lemma LowIs(n: nat)
      requires Valid() && n <= bits
      ensures TakeLow(Ahead(), n) == Val(Low(n), Ahead()[n..])
    {
      hide Pow2, BitsOf, LowBits, Quot, Rem, Value;
      BitsOfValue(hold, bits);
      CutBits(Acc(), n);
      assert Ahead()[..n] == Acc()[..n];
    }

    /** NEEDBITS: pulls bytes until n bits have arrived; false if the input ends before. */
    method NeedBits(n: nat) returns (ok: bool)
      requires Valid() && (n <= 25 || (n <= 32 && bits % 8 == 0))
      modifies `next, `hold, `bits
      ensures Valid() && Ahead() == old(Ahead()) && bits % 8 == old(bits) % 8
      ensures if ok then bits >= n && (bits == old(bits) || bits < n + 8) else bits < n && next == |inp|
    {
      hide Pow2, BitsOf, LowBits, Acc, Ahead;
      ghost var k := 0;
      while bits < n
        invariant Valid() && Ahead() == old(Ahead()) && (bits == old(bits) || bits < n + 8)
        invariant 0 <= k && bits == old(bits) + 8 * k
        decreases |inp| - next
        modifies `next, `hold, `bits
      {
        if next == |inp| {
          return false;
        }
        PullByte();
        k := k + 1;
      }
      ok := true;
    }

    /** The entry that the bits so far lead to, through a sub-table if need be. */
    ghost function Looked(t: seq<Entry>, tbl: nat, root: nat, lens: seq<int>, kind: Kind): Entry
      requires Decodes(t, tbl, root, lens, kind)
      reads `hold, `bits
    {
      PaddedIsRight(t, tbl, root, lens, kind, Acc(), []);
      Lookup(t, tbl, root, Padded(Acc()))
    }

    /** What a lookup tells: an entry that fits into the bits so far is the next one, otherwise it cannot be told. */
    lemma LookedIs(t: seq<Entry>, tbl: nat, root: nat, lens: seq<int>, kind: Kind)
      requires Decodes(t, tbl, root, lens, kind) && Valid()
      ensures |lens| <= Symbols(kind) && 1 <= Looked(t, tbl, root, lens, kind).bits <= MAXBITS
      ensures var f := Looked(t, tbl, root, lens, kind);
        if f.bits <= bits then EntryRead(lens, kind, Ahead()) == Val(f, Ahead()[f.bits..])
        else EntryRead(lens, kind, Acc()).Short?
    {
      hide Codeword, Pow2, BitsOf, LowBits, Lookup, Tabled, Padded, EntryRead, Symbols;
      PaddedIsRight(t, tbl, root, lens, kind, Acc(), LowBits(inp[next..]) + later);
    }

    /** The root entry the bits so far lead to. */
    lemma RootEntry(t: seq<Entry>, tbl: nat, root: nat, lens: seq<int>, kind: Kind)
      requires Decodes(t, tbl, root, lens, kind) && Valid()
      ensures tbl + Low(root) < |t|
      ensures var e := t[tbl + Low(root)];
        if !IsLink(e) then e == Looked(t, tbl, root, lens, kind)
        else
          e.bits == root && Looked(t, tbl, root, lens, kind).bits > root
          && 0 <= e.val && tbl + e.val + Quot(Low(e.bits + e.op), Pow2(e.bits)) < |t|
          && var f := t[tbl + e.val + Quot(Low(e.bits + e.op), Pow2(e.bits))];
             Looked(t, tbl, root, lens, kind) == Entry(f.op, root + f.bits, f.val)
    {
      hide Codeword, Pow2, BitsOf, LowBits, Tabled, Padded, EntryRead, Value, RootIndex, Quot, Rem;
      PaddedIsRight(t, tbl, root, lens, kind, Acc(), []);
      BitsOfValue(hold, bits);
      MaskedIndex(Acc(), root);
      var e := t[tbl + RootIndex(Padded(Acc()), root)];
      if IsLink(e) {
        ShiftedIndex(Acc(), root, e.op);
      }
    }

    // ---------- the next symbol, byte by byte ----------

    lemma LowOf(n: nat)
      requires Valid() && n <= bits
      ensures Low(n) == Value(Acc()[..n])
    {
      hide Pow2, BitsOf, Quot, Rem, Value;
      BitsOfValue(hold, bits);
      CutBits(Acc(), n);
    }

    /** The entry that the bits so far lead to does not fit into them. */
    lemma Waits(t: seq<Entry>, tbl: nat, root: nat, lens: seq<int>, kind: Kind)
      requires Decodes(t, tbl, root, lens, kind) && Valid() && Looked(t, tbl, root, lens, kind).bits > bits
      ensures |lens| <= Symbols(kind) && EntryRead(lens, kind, Acc()).Short? && bits < MAXBITS
    {
      hide Codeword, Pow2, BitsOf, LowBits, Looked, Padded, EntryRead, Decodes, Symbols;
      LookedIs(t, tbl, root, lens, kind);
    }

    lemma RootWaits(t: seq<Entry>, tbl: nat, root: nat, lens: seq<int>, kind: Kind)
      requires Decodes(t, tbl, root, lens, kind) && Valid() && tbl + Low(root) < |t| && t[tbl + Low(root)].bits > bits
      ensures |lens| <= Symbols(kind) && EntryRead(lens, kind, Acc()).Short? && bits < MAXBITS
    {
      hide Codeword, Pow2, BitsOf, LowBits, EntryRead, Rem, Quot, Ahead, Acc, Low, Symbols, Decodes, Looked;
      RootEntry(t, tbl, root, lens, kind);
      Waits(t, tbl, root, lens, kind);
    }

    method PullSettled(ghost lens: seq<int>, ghost kind: Kind)
      requires Valid() && next < |inp| && bits <= 24 && |lens| <= Symbols(kind) && EntryRead(lens, kind, Acc()).Short?
      modifies `next, `hold, `bits
      ensures Valid() && Ahead() == old(Ahead()) && next == old(next) + 1
      ensures Settled(lens, kind, Acc()) && old(Acc()) <= Acc()
    {
      hide Codeword, Pow2, BitsOf, LowBits, EntryRead, Symbols, Settled;
      PullByte();
      SettledGrows(lens, kind, old(Acc()), Acc());
    }

    /** Pulls bytes until the root entry needs no more bits than have arrived. */
    method RootLoop(t: seq<Entry>, tbl: nat, root: nat, ghost lens: seq<int>, ghost kind: Kind)
      returns (ok: bool, here: Entry)
      requires Decodes(t, tbl, root, lens, kind) && |lens| <= Symbols(kind) && Valid() && Settled(lens, kind, Acc())
      modifies `next, `hold, `bits
      ensures Valid() && Ahead() == old(Ahead()) && Settled(lens, kind, Acc())
      ensures if ok then tbl + Low(root) < |t| && here == t[tbl + Low(root)] && here.bits <= bits
        else next == |inp| && EntryRead(lens, kind, Acc()).Short?
    {
      hide Codeword, Pow2, BitsOf, LowBits, Decodes, Looked, EntryRead, Rem, Quot, Ahead, Acc, Low, Symbols, Settled;
      while true
        invariant Valid() && Ahead() == old(Ahead()) && Settled(lens, kind, Acc())
        decreases |inp| - next
        modifies `next, `hold, `bits
      {
        RootEntry(t, tbl, root, lens, kind);
        here := t[tbl + Low(root)];
        if here.bits <= bits {
          return true, here;
        }
        RootWaits(t, tbl, root, lens, kind);
        if next == |inp| {
          return false, here;
        }
        PullSettled(lens, kind);
      }
    }

    /** Pulls bytes until the entry of the sub-table needs no more bits than have arrived, either. */
    method SubLoop(t: seq<Entry>, tbl: nat, root: nat, ghost lens: seq<int>, ghost kind: Kind, last: Entry)
      returns (ok: bool, here: Entry)
      requires Decodes(t, tbl, root, lens, kind) && |lens| <= Symbols(kind) && Valid() && Settled(lens, kind, Acc())
      requires tbl + Low(root) < |t| && last == t[tbl + Low(root)] && IsLink(last) && last.bits == root <= bits
      modifies `next, `hold, `bits
      ensures Valid() && Ahead() == old(Ahead()) && Settled(lens, kind, Acc())
      ensures if ok then Looked(t, tbl, root, lens, kind) == Entry(here.op, root + here.bits, here.val) &&
          root < root + here.bits <= bits
        else next == |inp| && EntryRead(lens, kind, Acc()).Short?
    {
      hide Codeword, Pow2, BitsOf, LowBits, Decodes, Looked, EntryRead, Rem, Quot, Ahead, Acc, Low, Symbols, Settled,
           Value;
      LowOf(root);
      while true
        invariant Valid() && Ahead() == old(Ahead()) && Settled(lens, kind, Acc()) && root <= bits
        invariant Low(root) == old(Low(root)) == Value(Acc()[..root])
        decreases |inp| - next
        modifies `next, `hold, `bits
      {
        RootEntry(t, tbl, root, lens, kind);
        here := t[tbl + last.val + Quot(Low(last.bits + last.op), Pow2(last.bits))];
        if last.bits + here.bits <= bits {
          return true, here;
        }
        Waits(t, tbl, root, lens, kind);
        if next == |inp| {
          return false, here;
        }
        ghost var a := Acc();
        PullSettled(lens, kind);
        assert Acc()[..root] == a[..root];
        LowOf(root);
      }
    }

    /** A symbol's entry that fits into the settled bits leaves less than a byte of them. */
    lemma LeavesLittle(t: seq<Entry>, tbl: nat, root: nat, lens: seq<int>, kind: Kind)
      requires Decodes(t, tbl, root, lens, kind) && |lens| <= Symbols(kind) && Valid() && Settled(lens, kind, Acc())
      requires Looked(t, tbl, root, lens, kind).bits <= bits
      ensures 1 <= Looked(t, tbl, root, lens, kind).bits <= |Ahead()|
      ensures bits < Looked(t, tbl, root, lens, kind).bits + 8
      ensures var f := Looked(t, tbl, root, lens, kind); EntryRead(lens, kind, Ahead()) == Val(f, Ahead()[f.bits..])
      ensures Shape(kind, Looked(t, tbl, root, lens, kind))
    {
      hide Codeword, Pow2, BitsOf, LowBits, Decodes, Looked, EntryRead, Acc, Symbols, Settled, Shape;
      LookedIs(t, tbl, root, lens, kind);
      SettledLeaves(lens, kind, Acc(), LowBits(inp[next..]) + later);
      EntryShape(lens, kind, Ahead());
    }

    /** A root entry that fits is a link or says what the symbol means. */
    lemma LinkOrShape(t: seq<Entry>, tbl: nat, root: nat, lens: seq<int>, kind: Kind)
      requires Decodes(t, tbl, root, lens, kind) && |lens| <= Symbols(kind) && Valid() && Settled(lens, kind, Acc())
      requires tbl + Low(root) < |t| && t[tbl + Low(root)].bits <= bits
      ensures !IsLink(t[tbl + Low(root)]) ==> Shape(kind, t[tbl + Low(root)])
    {
      hide Codeword, Pow2, BitsOf, LowBits, Decodes, Looked, EntryRead, Acc, Low, Symbols, Settled, Shape;
      RootEntry(t, tbl, root, lens, kind);
      if !IsLink(t[tbl + Low(root)]) {
        LeavesLittle(t, tbl, root, lens, kind);
      }
    }

    lemma HighNibble(kind: Kind, e: Entry)
      requires kind != CODES && (IsLink(e) || Shape(kind, e))
      ensures IsLink(e) <==> (kind == DISTS || e.op != 0) && e.op / 16 % 16 == 0
    {
      hide Pow2;
    }

    /** Decodes one symbol; false if the input ends before it can be told. No byte is pulled that the symbol does not
        reach into. */
    method NextEntry(t: seq<Entry>, tbl: nat, root: nat, ghost lens: seq<int>, kind: Kind)
      returns (ok: bool, here: Entry, ghost e: Entry)
      requires Decodes(t, tbl, root, lens, kind) && |lens| <= Symbols(kind) && Valid() && Settled(lens, kind, Acc())
      requires kind != CODES
      modifies `next, `hold, `bits
      ensures Valid()
      ensures ok ==> EntryRead(lens, kind, old(Ahead())) == Val(e, Ahead()) && bits < 8
      ensures ok ==> e.op == here.op && e.val == here.val && Shape(kind, e)
      ensures !ok ==> Ahead() == old(Ahead()) && next == |inp|
      ensures !ok ==> Settled(lens, kind, Acc()) && EntryRead(lens, kind, Acc()).Short?
    {
      hide Codeword, Pow2, BitsOf, LowBits, Decodes, Looked, EntryRead, Rem, Quot, Ahead, Acc, Low, Symbols, Settled,
           Shape;
      ok, here := RootLoop(t, tbl, root, lens, kind);
      e := here;
      if !ok {
        return;
      }
      RootEntry(t, tbl, root, lens, kind);
      LinkOrShape(t, tbl, root, lens, kind);
      HighNibble(kind, here);
      if (kind == DISTS || here.op != 0) && here.op / 16 % 16 == 0 {
        var last := here;
        ok, here := SubLoop(t, tbl, root, lens, kind, last);
        if !ok {
          return;
        }
        e := Entry(here.op, root + here.bits, here.val);
        LeavesLittle(t, tbl, root, lens, kind);
        ghost var a := Ahead();
        DropBits(last.bits);
        DropBits(here.bits);
        assert a[root..][here.bits..] == a[root + here.bits..];
      } else {
        LeavesLittle(t, tbl, root, lens, kind);
        DropBits(here.bits);
      }
    }

    /** The next symbol of the bit length code, whose table has no sub-tables; it stays in the accumulator. */
    method PeekCode(t: seq<Entry>, tbl: nat, root: nat, ghost lens: seq<int>) returns (ok: bool, here: Entry)
      requires Decodes(t, tbl, root, lens, CODES) && |lens| <= Symbols(CODES) && Valid() && Settled(lens, CODES, Acc())
      requires forall s :: Uses(lens, s) ==> lens[s] <= root
      modifies `next, `hold, `bits
      ensures Valid() && Ahead() == old(Ahead())
      ensures if ok then
          1 <= here.bits <= MAXBITS && here.bits <= bits < here.bits + 8 && Shape(CODES, here)
          && EntryRead(lens, CODES, Ahead()) == Val(here, Ahead()[here.bits..])
        else next == |inp| && EntryRead(lens, CODES, Acc()).Short?
    {
      hide Codeword, Pow2, BitsOf, LowBits, Decodes, Looked, EntryRead, Rem, Quot, Ahead, Acc, Low, Symbols, Settled,
           Shape;
      ok, here := RootLoop(t, tbl, root, lens, CODES);
      if ok {
        RootEntry(t, tbl, root, lens, CODES);
        NotLinked(t, tbl, root, lens);
        LeavesLittle(t, tbl, root, lens, CODES);
        LookedIs(t, tbl, root, lens, CODES);
      }
    }

    lemma NotLinked(t: seq<Entry>, tbl: nat, root: nat, lens: seq<int>)
      requires Decodes(t, tbl, root, lens, CODES) && Valid() && forall s :: Uses(lens, s) ==> lens[s] <= root
      ensures tbl + Low(root) < |t| && !IsLink(t[tbl + Low(root)])
    {
      hide Codeword, Pow2, BitsOf, LowBits, Tabled, Padded, EntryRead, Value, RootIndex, Quot, Rem;
      NoLinks(t, tbl, root, lens, CODES, Acc());
      BitsOfValue(hold, bits);
      MaskedIndex(Acc(), root);
    }

    /** BYTEBITS: drops what is left of a byte. */
    method ByteBits()
      requires Valid()
      modifies `hold, `bits
      ensures Valid() && bits == old(bits) - old(bits) % 8 && Ahead() == old(Ahead())[old(bits) % 8..]
    {
      hide Ahead, Acc;
      DropBits(bits % 8);
    }

    /** With an empty accumulator bytes are taken from the input as they are. */
    method TakeByte() returns (b: int)
      requires Valid() && bits == 0 && next < |inp|
      modifies `next
      ensures Valid() && 8 <= |old(Ahead())| && Ahead() == old(Ahead())[8..] && b == Value(old(Ahead())[..8])
      ensures 0 <= b < 256
      ensures next == old(next) + 1
    {
      hide BitsOf, LowBits, Value, Pow2;
      ghost var l := inp[next + 1..];
      b := inp[next];
      assert inp[next..] == [b] + l;
      LowBitsPrepend(b, l);
      Pow16();
      BitsOfValue(b, 8);
      assert Ahead() == BitsOf(b, 8) + (LowBits(l) + later);
      next := next + 1;
    }

    // ---------- the next symbol, without checks for input ----------

    /** How many bits this call can still use. */
    function Supply(): int
      reads `inp, `next, `bits
    {
      8 * (|inp| - next) + bits
    }

    lemma AheadSize()
      requires Valid()
      ensures |Ahead()| == Supply() + |later|
    {
    }

    lemma NothingElse()
      requires Valid() && next == |inp| && later == []
      ensures Ahead() == Acc()
    {
      hide BitsOf;
    }

    /** Bits enough for any code: two bytes on top when fewer than 15 are there. */
    method Refill()
      requires Valid() && Supply() >= 28
      modifies `next, `hold, `bits
      ensures Valid() && Ahead() == old(Ahead()) && Supply() == old(Supply()) && bits >= MAXBITS
    {
      hide Pow2, BitsOf, LowBits, Acc, Ahead;
      if bits < MAXBITS {
        PullByte();
        PullByte();
      }
    }

    /** Decodes one symbol when the bits for any code are there for the taking. A second-level entry is never a link
        again, so going back to handle it happens at most once. */
    method FastEntry(t: seq<Entry>, tbl: nat, root: nat, ghost lens: seq<int>, ghost kind: Kind)
      returns (here: Entry, ghost e: Entry)
      requires Decodes(t, tbl, root, lens, kind) && |lens| <= Symbols(kind) && Valid() && Supply() >= 28
      requires kind != CODES
      modifies `next, `hold, `bits
      ensures Valid() && EntryRead(lens, kind, old(Ahead())) == Val(e, Ahead()) && Suffix(Ahead(), old(Ahead()))
      ensures e.op == here.op && e.val == here.val && Shape(kind, e)
      ensures old(Supply()) - MAXBITS <= Supply() < old(Supply())
    {
      hide Codeword, Pow2, BitsOf, LowBits, Decodes, Looked, EntryRead, Rem, Quot, Ahead, Acc, Symbols, Shape, Flag;
      Refill();
      RootEntry(t, tbl, root, lens, kind);
      ReadWhole(t, tbl, root, lens, kind);
      here := t[tbl + Low(root)];
      ghost var a := Ahead();
      e := Looked(t, tbl, root, lens, kind);
      SecondLevel(kind, e, here);
      if IsLink(here) {
        ShiftMask(hold, root, here.op);
      }
      DropBits(here.bits);
      if here.op != 0 && !Flag(here.op, 16) && !Flag(here.op, 64) {
        here := t[tbl + here.val + Low(here.op)];
        DropBits(here.bits);
        assert a[root..][here.bits..] == a[root + here.bits..];
      }
    }

    /** With 15 bits there every symbol can be read. */
    lemma ReadWhole(t: seq<Entry>, tbl: nat, root: nat, lens: seq<int>, kind: Kind)
      requires Decodes(t, tbl, root, lens, kind) && |lens| <= Symbols(kind) && Valid() && bits >= MAXBITS
      ensures 1 <= Looked(t, tbl, root, lens, kind).bits <= MAXBITS <= |Ahead()|
      ensures var f := Looked(t, tbl, root, lens, kind);
        EntryRead(lens, kind, Ahead()) == Val(f, Ahead()[f.bits..]) && Suffix(Ahead()[f.bits..], Ahead())
      ensures Shape(kind, Looked(t, tbl, root, lens, kind))
    {
      hide Codeword, Pow2, BitsOf, LowBits, Decodes, Looked, EntryRead, Acc, Symbols, Shape;
      LookedIs(t, tbl, root, lens, kind);
      EntryShape(lens, kind, Ahead());
    }

    lemma SecondLevel(kind: Kind, e: Entry, here: Entry)
      requires kind != CODES && Shape(kind, e) && (IsLink(here) || here == e)
      ensures IsLink(here) <==> here.op != 0 && !Flag(here.op, 16) && !Flag(here.op, 64)
    {
      hide Pow2;
    }

    /** Extra bits: up to two more bytes. */
    method FastExtra(n: nat) returns (v: nat)
      requires Valid() && n <= 13 && Supply() >= n
      modifies `next, `hold, `bits
      ensures Valid() && TakeLow(old(Ahead()), n) == Val(v, Ahead()) && Suffix(Ahead(), old(Ahead()))
      ensures v < Pow2(n) && Supply() == old(Supply()) - n
    {
      hide Pow2, BitsOf, LowBits, Acc, Ahead, Low, TakeLow;
      if bits < n {
        PullByte();
        if bits < n {
          PullByte();
        }
      }
      LowIs(n);
      LowBelow(n);
      v := Low(n);
      DropBits(n);
    }

    lemma LowBelow(n: nat)
      ensures Low(n) < Pow2(n)
    {
      hide Pow2, Rem;
      QuotRem(hold, Pow2(n));
    }

    /** Gives the whole bytes left in the accumulator back, which came from this call's input. */
    method GiveBack(ghost a: seq<bool>, ghost start: nat)
      requires Valid() && start <= next - bits / 8 && Suffix(Ahead(), a + (LowBits(inp[start..]) + later))
      modifies `next, `hold, `bits
      ensures Valid() && Ahead() == old(Ahead()) && Supply() == old(Supply()) && bits < 8
    {
      hide Pow2, BitsOf, LowBits, Rem, Suffix;
      var len := bits / 8;
      BitsOfValue(hold, bits);
      GivenBack(Acc(), inp, start, next, len, a, later);
      CutBits(Acc(), bits - 8 * len);
      next := next - len;
      bits := bits - 8 * len;
      hold := Rem(hold, Pow2(bits));
    }
  }
}

/** A block's bits mean one thing only: whatever tables the decoder makes for the lengths, the same column comes out. */
module BlockMeaning {
  import opened Bits
  import opened BitIO
  import opened BlockCodec
  import opened BlockData
  import opened BlockFormat
  import opened ByteMap
  import opened Canonical
  import opened Counting
  import opened Mtf
  import opened RunLength
  import opened SymbolFetch

  /** Two tables for the same lengths agree wherever a code can be accepted. */
  lemma {:induction false} SameFetch(t: CodeTable, u: CodeTable, len: seq<int>, maxLen: int, bits: seq<bool>, pos: nat,
                                     zn: nat, zvec: nat)
    requires TableFor(t, len, maxLen) && TableFor(u, len, maxLen) && t.minLen <= zn && u.minLen <= zn
    ensures FetchFrom(t, bits, pos, zn, zvec) == FetchFrom(u, bits, pos, zn, zvec)
    decreases 21 - zn
  {
    hide First, Count, Below, Unplaces;
    if zn <= 20 {
      if zn <= maxLen && zvec <= t.limit[zn] {
        AcceptedPlace(t, len, maxLen, zn, zvec);
        SamePerm(t, u, len, maxLen, zvec - t.base[zn]);
      }
      if zvec > t.limit[zn] && pos < |bits| {
        SameFetch(t, u, len, maxLen, bits, pos + 1, zn + 1, 2 * zvec + Bit(bits[pos]));
      }
    }
  }

  /** An accepted number belongs to a place within the alphabet, if to any. */
  lemma AcceptedPlace(t: CodeTable, len: seq<int>, maxLen: int, zn: nat, zvec: nat)
    requires TableFor(t, len, maxLen) && t.minLen <= zn <= maxLen && zvec <= t.limit[zn]
    ensures zvec - t.base[zn] < |len|
  {
    hide First, Unplaces;
    BelowStep(len, zn);
    BelowAtMost(len, zn + 1);
  }

  lemma {:induction false} BelowAtMost(len: seq<int>, c: int)
    ensures Below(len, c) <= |len|
  {
    if len != [] {
      BelowAtMost(len[..|len|-1], c);
    }
  }

  lemma SamePerm(t: CodeTable, u: CodeTable, len: seq<int>, maxLen: int, k: int)
    requires TableFor(t, len, maxLen) && TableFor(u, len, maxLen) && k < |len|
    ensures k >= 0 ==> t.perm[k] == u.perm[k]
  {
    hide First, Count, Below;
    if k >= 0 {
      UnplacesUnique(len, t.perm[..|len|], u.perm[..|len|]);
      assert t.perm[..|len|][k] == u.perm[..|len|][k];
    }
  }

  lemma SameSym(t: CodeTable, u: CodeTable, len: seq<int>, bits: seq<bool>, pos: nat)
    requires TableOf(t, len) && TableOf(u, len)
    ensures FetchSym(t, bits, pos) == FetchSym(u, bits, pos)
  {
    hide FetchFrom, FromBits, Tables;
    if pos + t.minLen <= |bits| {
      SameFetch(t, u, len, MaxLength(len), bits, pos + t.minLen, t.minLen, FromBits(bits[pos..pos + t.minLen]));
    }
  }

  lemma {:induction false} SameUnpack(c: Coding, d: Coding, bits: seq<bool>, pos: nat, k: nat, yy: seq<int>,
                                      col: seq<int>, run: nat, n: nat)
    requires Ready(c) && Ready(d) && d == c.(ts := d.ts) && Made(c.ts, c.lens) && Made(d.ts, d.lens)
    requires 1 <= |yy| == c.alphaSize - 2 && pos <= |bits|
    ensures Unpack(c, bits, pos, k, yy, col, run, n) == Unpack(d, bits, pos, k, yy, col, run, n)
    decreases |bits| - pos
  {
    hide FetchSym, TableOf, TableFor, MoveFront, Rep;
    SymInRange(c, bits, pos, k);
    if k / GROUP_SIZE < |c.sel| {
      var g := c.sel[k / GROUP_SIZE];
      SameSym(c.ts[g], d.ts[g], c.lens[g], bits, pos);
    }
    match NthSym(c, bits, pos, k)
    case Short =>
    case Bad =>
    case Sym(s, p) =>
      if s <= RUNB {
        if n < RUN_LIMIT {
          SameUnpack(c, d, bits, p, k + 1, yy, col, run + (s + 1) * n, 2 * n);
        }
      } else if s <= |yy| {
        SameUnpack(c, d, bits, p, k + 1, MoveFront(yy, s - 1), col + Rep(yy[0], run) + [yy[s - 1]], 0, 1);
      }
  }

  /** The block that the bits spell does not depend on the tables made for it. */
  lemma SameBlock(bits: seq<bool>, pos: nat, max: nat, ts: seq<CodeTable>, us: seq<CodeTable>)
    requires MadeFor(ts, bits, pos, max) && MadeFor(us, bits, pos, max)
    ensures ParseBlock(bits, pos, max, ts) == ParseBlock(bits, pos, max, us)
  {
    hide ParseFront, Unpack, TableOf, TableFor, Used, UnrankedColumn;
    match ParseFront(bits, pos, max)
    case Starved =>
    case Corrupt =>
    case Overrun =>
    case Got(h, p) =>
      var used := Used(h.inUse);
      var c := Coding(ts, h.tabled.lens, h.tabled.sel, |used| + 2, max);
      var d := c.(ts := us);
      SameReady(c, d);
      if Ready(c) && used != [] && p <= |bits| {
        SameUnpack(c, d, bits, p, 0, Identity(|used|), [], 0, 1);
      }
  }

  lemma SameReady(c: Coding, d: Coding)
    requires d == c.(ts := d.ts) && Made(c.ts, c.lens) && Made(d.ts, d.lens)
    ensures Ready(c) <==> Ready(d)
  {
    hide TableFor;
    forall t | 0 <= t < |c.ts|
      ensures TableFor(c.ts[t], c.lens[t], MaxLength(c.lens[t])) && TableFor(d.ts[t], d.lens[t], MaxLength(d.lens[t]))
    {
      assert TableOf(c.ts[t], c.lens[t]) && TableOf(d.ts[t], d.lens[t]);
    }
  }
}

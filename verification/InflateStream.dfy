/** inflate from block to block: what a whole deflate stream stands for, and how inflate finds it out. */
module InflateStream {
  import opened BitIO
  import opened BitSource
  import opened Bits
  import opened BlockCost
  import opened Bytes
  import opened CodeLengthCode
  import opened DeflateCodes
  import opened DynamicHeader
  import opened EntryCode
  import opened InflateHeader
  import opened InflateLoop
  import opened InflateSpec
  import opened InflateTable
  import opened Lz77
  import opened SlidingWindow
  import opened StaticTrees
  import opened TableBuilder
  import opened TableSlots
  import opened ZBits

  // ---------- nothing is read twice ----------

  lemma {:induction false} OrderShorter(bits: seq<bool>, lens: seq<int>, r: nat, n: nat)
    requires |lens| == BL_CODES && r <= n <= BL_CODES
    ensures ReadOrder(bits, lens, r, n).Val? ==> |ReadOrder(bits, lens, r, n).rest| <= |bits|
    decreases n - r
  {
    hide BlOrder, Value;
    if r < n && TakeLow(bits, 3).Val? {
      OrderShorter(TakeLow(bits, 3).rest, lens[BlOrder(r) := TakeLow(bits, 3).value], r + 1, n);
    }
  }

  lemma ItemShorter(bl: seq<int>, bits: seq<bool>, have: seq<int>, total: nat)
    requires |bl| <= BL_CODES
    ensures ReadItem(bl, bits, have, total).Val? ==> |ReadItem(bl, bits, have, total).rest| <= |bits|
  {
    hide EntryRead;
    EntryShrinks(bl, CODES, bits);
  }

  lemma {:induction false} LensShorter(bl: seq<int>, bits: seq<bool>, have: seq<int>, total: nat)
    requires |bl| <= BL_CODES
    ensures ReadLens(bl, bits, have, total).Val? ==> |ReadLens(bl, bits, have, total).rest| <= |bits|
    decreases total - |have|
  {
    hide ReadItem;
    if |have| < total && ReadItem(bl, bits, have, total).Val? {
      ItemShorter(bl, bits, have, total);
      LensShorter(bl, ReadItem(bl, bits, have, total).rest, ReadItem(bl, bits, have, total).value, total);
    }
  }

  lemma HeaderShorter(bits: seq<bool>)
    ensures ReadHeader(bits).Val? ==> |ReadHeader(bits).rest| <= |bits|
    ensures ReadHeader(bits).Val? ==> Usable(ReadHeader(bits).value)
  {
    hide ReadOrder, ReadLens, Rejected, Value;
    if ReadCounts(bits).Val? {
      var k, rest := ReadCounts(bits).value, ReadCounts(bits).rest;
      OrderShorter(rest, NoLens(), 0, k.ncode);
      var order := ReadOrder(rest, NoLens(), 0, k.ncode);
      if order.Val? {
        LensShorter(order.value, order.rest, [], k.nlen + k.ndist);
      }
    }
  }

  lemma {:induction false} LenShorter(c: Coding, bits: seq<bool>, out: seq<int>)
    requires |c.ll| <= Symbols(LENS) && |c.dl| <= Symbols(DISTS)
    ensures AtLen(c, bits, out).Ended? ==> |AtLen(c, bits, out).rest| <= |bits|
    decreases |bits|, 4
  {
    hide EntryRead, Repeat, Flag, Value;
    EntryShrinks(c.ll, LENS, bits);
    match EntryRead(c.ll, LENS, bits)
    case Short =>
    case Bad =>
    case Val(e, rest) =>
      assert AtLen(c, bits, out) == AfterLen(c, e, rest, out);
      if e.op == 0 {
        LitShorter(c, e.val, rest, out);
      } else if !Flag(e.op, 32) && !Flag(e.op, 64) {
        ExtShorter(c, e.val, e.op % 16, rest, out);
      }
  }

  lemma LitShorter(c: Coding, b: int, bits: seq<bool>, out: seq<int>)
    requires |c.ll| <= Symbols(LENS) && |c.dl| <= Symbols(DISTS)
    ensures AtLit(c, b, bits, out).Ended? ==> |AtLit(c, b, bits, out).rest| <= |bits|
    decreases |bits|, 5
  {
    if |out| < c.cap {
      LenShorter(c, bits, out + [b]);
    }
  }

  lemma ExtShorter(c: Coding, len: int, extra: nat, bits: seq<bool>, out: seq<int>)
    requires |c.ll| <= Symbols(LENS) && |c.dl| <= Symbols(DISTS)
    ensures AtLenExt(c, len, extra, bits, out).Ended? ==> |AtLenExt(c, len, extra, bits, out).rest| <= |bits|
    decreases |bits|, 9
  {
    hide EntryRead, Repeat, Flag, Value;
    match TakeLow(bits, extra)
    case Short =>
    case Bad =>
    case Val(v, rest) =>
      DistShorter(c, len + v, rest, out);
  }

  lemma DistShorter(c: Coding, len: int, bits: seq<bool>, out: seq<int>)
    requires |c.ll| <= Symbols(LENS) && |c.dl| <= Symbols(DISTS)
    ensures AtDist(c, len, bits, out).Ended? ==> |AtDist(c, len, bits, out).rest| <= |bits|
    decreases |bits|, 8
  {
    hide EntryRead, Repeat, Flag, Value;
    EntryShrinks(c.dl, DISTS, bits);
    match EntryRead(c.dl, DISTS, bits)
    case Short =>
    case Bad =>
    case Val(e, rest) =>
      assert AtDist(c, len, bits, out) == AfterDist(c, len, e, rest, out);
      if !Flag(e.op, 64) {
        DistExtShorter(c, len, e.val, e.op % 16, rest, out);
      }
  }

  lemma DistExtShorter(c: Coding, len: int, dist: int, extra: nat, bits: seq<bool>, out: seq<int>)
    requires |c.ll| <= Symbols(LENS) && |c.dl| <= Symbols(DISTS)
    ensures AtDistExt(c, len, dist, extra, bits, out).Ended? ==>
        |AtDistExt(c, len, dist, extra, bits, out).rest| <= |bits|
    decreases |bits|, 6
  {
    hide EntryRead, Flag, Value;
    match TakeLow(bits, extra)
    case Short =>
    case Bad =>
    case Val(v, rest) =>
      if |out| < c.cap && dist + v >= 1 && len >= 0 && |out| - (dist + v) >= c.lost && |out| + len <= c.cap
         && dist + v <= c.far {
        LenShorter(c, rest, Repeat(out, dist + v, len));
      }
  }

  // ---------- what a stream stands for ----------

  /** How a block ends: with more to come or not, for lack of bits or room, or at something no compressor writes. */
  datatype BlockEnd = Next(last: bool, rest: seq<bool>, out: seq<int>) | CutOff | Wrong

  /** The bytes of a stored block. */
  function BytesIn(bits: seq<bool>, n: nat): (s: seq<int>)
    requires 8 * n <= |bits|
    ensures |s| == n
  {
    if n == 0 then [] else [Value(bits[..8])] + BytesIn(bits[8..], n - 1)
  }

  /** A stored block: behind a byte boundary its length, the same in one's complement, and the bytes. */
  function ReadStored(bits: seq<bool>): (r: Read<seq<int>>)
    ensures r.Val? ==> |r.rest| <= |bits|
  {
    var b := bits[|bits| % 8..];
    if |b| < 32 then Short
    else
      var len, nlen := Value(b[..16]), Value(b[16..][..16]);
      if len != 0xffff - nlen then Bad
      else if |b| < 32 + 8 * len then Short
      else Val(BytesIn(b[32..], len), b[32 + 8 * len..])
  }

  function FixedCoding(cap: nat): Coding {
    Coding(StaticLits(), FixedDists(), 0, cap, MAX_DIST)
  }

  /** A block with codes, behind everything that tells the codes. */
  ghost function ReadCoded(c: Coding, last: bool, bits: seq<bool>, out: seq<int>): BlockEnd
    requires |c.ll| <= Symbols(LENS) && |c.dl| <= Symbols(DISTS)
  {
    match AtLen(c, bits, out)
    case Ended(rest, all) => Next(last, rest, all)
    case Broken(_, _) => Wrong
    case Paused(_, _, _, _, _, _) => CutOff
    case Strayed => Wrong
  }

  /** A block behind its type. */
  ghost function ReadTyped(t: nat, last: bool, bits: seq<bool>, out: seq<int>, cap: nat): (r: BlockEnd)
    ensures r.Next? ==> |r.rest| <= |bits|
  {
    if t == 0 then
      match ReadStored(bits)
      case Short => CutOff
      case Bad => Wrong
      case Val(bytes, rest) => if |out| + |bytes| <= cap then Next(last, rest, out + bytes) else CutOff
    else if t == 1 then
      LenShorter(FixedCoding(cap), bits, out);
      ReadCoded(FixedCoding(cap), last, bits, out)
    else if t == 2 then
      HeaderShorter(bits);
      match ReadHeader(bits)
      case Short => CutOff
      case Bad => Wrong
      case Val(c, rest) =>
        LenShorter(Coding(c.ll, c.dl, 0, cap, MAX_DIST), rest, out);
        ReadCoded(Coding(c.ll, c.dl, 0, cap, MAX_DIST), last, rest, out)
    else Wrong
  }

  ghost function ReadBlock(bits: seq<bool>, out: seq<int>, cap: nat): (r: BlockEnd)
    ensures r.Next? ==> |r.rest| < |bits|
  {
    if |bits| < 3 then CutOff
    else ReadTyped(Value(bits[1..3]), bits[0], bits[3..], out, cap)
  }

  /** All blocks up to the final one. */
  ghost function ReadBlocks(bits: seq<bool>, out: seq<int>, cap: nat): BlockEnd
    decreases |bits|
  {
    match ReadBlock(bits, out, cap)
    case Next(last, rest, all) => if last then Next(last, rest, all) else ReadBlocks(rest, all, cap)
    case CutOff => CutOff
    case Wrong => Wrong
  }

  // ---------- STORED and COPY ----------

  lemma {:induction false} BytesInNext(bits: seq<bool>, n: nat)
    requires 8 * n + 8 <= |bits|
    ensures BytesIn(bits, n + 1) == BytesIn(bits, n) + [Value(bits[8 * n..][..8])]
    decreases n
  {
    hide Value;
    if n > 0 {
      BytesInNext(bits[8..], n - 1);
      assert bits[8..][8 * (n - 1)..] == bits[8 * n..];
    }
  }

  lemma Drop8(bits: seq<bool>, n: nat)
    requires 8 * n + 8 <= |bits|
    ensures bits[8 * n..][8..] == bits[8 * (n + 1)..]
  {
  }

  /** COPY: bytes from the input to the output, as many as both allow. */
  method CopyStored(src: Source, sink: Sink, len: nat) returns (ok: bool)
    requires src.Valid() && src.later == [] && src.bits == 0 && sink.Valid() && sink.hist == []
    modifies src`next, sink`put, sink.out
    ensures src.Valid() && src.later == [] && src.bits == 0 && sink.Valid()
    ensures ok <==> 8 * len <= |old(src.Ahead())| && |old(sink.Full())| + len <= sink.out.Length
    ensures ok ==>
        src.Ahead() == old(src.Ahead())[8 * len..] && sink.Full() == old(sink.Full()) + BytesIn(old(src.Ahead()), len)
  {
    hide Value, Holds, Source.Acc, Source.Ahead;
    ghost var bits, out := src.Ahead(), sink.Full();
    var n := 0;
    src.AheadSize();
    assert bits[8 * 0..] == bits && out + BytesIn(bits, 0) == out;
    while n < len && src.next < |src.inp| && sink.put < sink.out.Length
      invariant 0 <= n <= len && src.Valid() && src.later == [] && src.bits == 0 && sink.Valid()
      invariant 8 * n <= |bits| && src.Ahead() == bits[8 * n..] && sink.Full() == out + BytesIn(bits, n)
      invariant sink.put == old(sink.put) + n && |bits| == 8 * (|src.inp| - src.next) + 8 * n
      modifies src`next, sink`put, sink.out
    {
      src.AheadSize();
      BytesInNext(bits, n);
      Drop8(bits, n);
      var b := src.TakeByte();
      sink.PutByte(b);
      n := n + 1;
    }
    ok := n == len;
  }

  /** The two halves of a stored block's head. */
  lemma StoredIs(bits: seq<bool>, b: seq<bool>, len: nat, b1: seq<bool>, nlen: nat, b2: seq<bool>)
    requires b == bits[|bits| % 8..] && |b| >= 32
    requires TakeLow(b, 16) == ZBits.Val(len, b1) && TakeLow(b1, 16) == ZBits.Val(nlen, b2)
    ensures ReadStored(bits) ==
      if len != 0xffff - nlen then Bad
      else if |b2| < 8 * len then Short
      else ZBits.Val(BytesIn(b2, len), b2[8 * len..])
  {
    hide Value;
    assert b[16..][..16] == b1[..16];
    assert b2 == b[32..];
    if len == 0xffff - nlen && |b2| >= 8 * len {
      assert b[32..][8 * len..] == b[32 + 8 * len..];
    }
  }

  lemma StoredShort(bits: seq<bool>)
    requires |bits[|bits| % 8..]| < 32
    ensures ReadStored(bits).Short?
  {
    hide Value;
  }

  lemma Remainder(n: nat, b: nat)
    requires b < 8
    ensures (8 * n + b) % 8 == b
  {
  }

  method ToBoundary(src: Source)
    requires src.Valid() && src.later == [] && src.bits < 8
    modifies src`hold, src`bits
    ensures src.Valid() && src.bits == 0 && src.Ahead() == old(src.Ahead())[|old(src.Ahead())| % 8..]
  {
    hide Source.Acc, Source.Ahead;
    src.AheadSize();
    Remainder(|src.inp| - src.next, src.bits);
    src.ByteBits();
  }

  method NeedWord(src: Source) returns (ok: bool)
    requires src.Valid() && src.later == [] && src.bits == 0
    modifies src`next, src`hold, src`bits
    ensures src.Valid() && src.Ahead() == old(src.Ahead())
    ensures if ok then src.bits == 32 && |src.Ahead()| >= 32 else |src.Ahead()| < 32
  {
    hide Source.Acc, Source.Ahead;
    ok := src.NeedBits(32);
    src.AheadSize();
  }

  /** STORED: the head of a stored block. */
  method ReadStoredHead(src: Source) returns (st: Status, len: nat)
    requires src.Valid() && src.later == [] && src.bits < 8
    modifies src`next, src`hold, src`bits
    ensures src.Valid() && src.later == []
    ensures match st
      case Done => src.bits == 0
        && ReadStored(old(src.Ahead())) ==
           (if |src.Ahead()| < 8 * len then Short else ZBits.Val(BytesIn(src.Ahead(), len), src.Ahead()[8 * len..]))
      case NeedInput => ReadStored(old(src.Ahead())).Short?
      case Invalid => ReadStored(old(src.Ahead())).Bad?
  {
    hide Value, Source.Acc, Source.Ahead, ReadStored, TakeLow;
    ghost var bits := src.Ahead();
    ToBoundary(src);
    ghost var b := src.Ahead();
    len := 0;
    var ok := NeedWord(src);
    if !ok {
      StoredShort(bits);
      return NeedInput, len;
    }
    Pow16();
    len := TakeKnown(src, 16);
    ghost var b1 := src.Ahead();
    var nlen := TakeKnown(src, 16);
    StoredIs(bits, b, len, b1, nlen, src.Ahead());
    st := if len != 0xffff - nlen then Invalid else Done;
  }

  /** STORED and COPY: a stored block. */
  method ReadStoredBlock(src: Source, sink: Sink) returns (st: Status)
    requires src.Valid() && src.later == [] && src.bits < 8 && sink.Valid() && sink.hist == []
    modifies src`next, src`hold, src`bits, sink`put, sink.out
    ensures src.Valid() && src.later == [] && sink.Valid()
    ensures var r := ReadStored(old(src.Ahead()));
      match st
      case Done => r.Val? && src.Ahead() == r.rest && sink.Full() == old(sink.Full()) + r.value && src.bits == 0
      case NeedInput => r.Short? || (r.Val? && |old(sink.Full())| + |r.value| > sink.out.Length)
      case Invalid => r.Bad?
  {
    hide Value, Holds, Source.Acc, Source.Ahead, ReadStored, BytesIn;
    var len;
    st, len := ReadStoredHead(src);
    if st == Done {
      var ok := CopyStored(src, sink, len);
      if !ok {
        st := NeedInput;
      }
    }
  }

  // ---------- a block with codes ----------

  /** LEN to LIT: a whole block, if there is enough input and room. */
  method ReadCodedBlock(src: Source, sink: Sink, tables: Tables, ghost c: Coding) returns (st: Status)
    requires src.Valid() && src.later == [] && src.bits < 8 && sink.Valid() && sink.hist == [] && sink.whave == 0
    requires Serve(tables, c) && c.lost == 0 && c.cap == sink.out.Length && c.far == MAX_DIST
    modifies src`next, src`hold, src`bits, sink`put, sink.out
    ensures src.Valid() && src.later == [] && sink.Valid() && |c.ll| <= Symbols(LENS) && |c.dl| <= Symbols(DISTS)
    ensures var r := AtLen(c, old(src.Ahead()), old(sink.Full()));
      match st
      case Done => r == Ended(src.Ahead(), sink.Full()) && src.bits < 8
      case NeedInput => r.Paused?
      case Invalid => r.Broken?
  {
    hide AtLen, Holds, Source.Acc, Source.Ahead, Settled, Decodes, Readable;
    CodingSizes(c);
    var f := new Inflater(src, sink, tables, c);
    NeverStrays(c, src.Ahead(), sink.Full());
    f.Run();
    f.StuckIsGoal();
    f.Parts();
    match f.mode {
      case TYPE => st := Done;
      case BAD => st := Invalid;
      case _ => st := NeedInput;
    }
  }

  // ---------- block by block ----------

  lemma FixedServed(t: Tables, cap: nat)
    requires Decodes(t.codes, t.lenCode, t.lenBits, StaticLits(), LENS)
    requires Decodes(t.codes, t.distCode, t.distBits, FixedDists(), DISTS)
    ensures Serve(t, FixedCoding(cap))
  {
    hide Decodes, StaticLits, FixedDists;
    ServedBy(t, FixedCoding(cap));
  }

  lemma ServedBy(t: Tables, c: Coding)
    requires Decodes(t.codes, t.lenCode, t.lenBits, c.ll, LENS) && Decodes(t.codes, t.distCode, t.distBits, c.dl, DISTS)
    ensures Serve(t, c)
  {
    hide Decodes;
    DecodesParts(t.codes, t.lenCode, t.lenBits, c.ll, LENS);
    DecodesParts(t.codes, t.distCode, t.distBits, c.dl, DISTS);
  }

  /** The static codes' roots are as wide as their longest codewords, which leaves no sub-tables. */
  lemma FixedRoots(lens: seq<int>, v: nat, root: nat)
    requires IsRoot(lens, v, root)
    requires (lens == StaticLits() && v == 9) || (lens == FixedDists() && v == 5)
    ensures root == v && (forall s :: Uses(lens, s) ==> lens[s] <= root) && Pow2(root) <= 512
  {
    hide Pow2;
    SmallPowers();
    if v == 9 {
      assert Uses(lens, 0) && Uses(lens, 144) && Uses(lens, 256);
    } else {
      assert Uses(lens, 0);
    }
  }

  lemma FixedAccepted()
    ensures IsLens(StaticLits()) && IsLens(FixedDists()) && !Rejected(LENS, StaticLits())
    ensures !Rejected(DISTS, FixedDists())
  {
    hide StaticLits, FixedDists, UsedKraft, Pow2;
    StaticLitsComplete();
    FixedDistsComplete();
  }

  /** fixedtables: the tables of the static codes fit, since no code is longer than the root. */
  method FixedTables(codes: array<Entry>, work: array<int>) returns (t: Tables)
    requires codes.Length == ENOUGH && work.Length >= 288
    modifies codes, work
    ensures forall cap: nat :: Serve(t, FixedCoding(cap))
  {
    hide Tabled, Rejected, IsRoot, Decodes, StaticLits, FixedDists, Complete;
    FixedAccepted();
    var ret, used, root := Build(LENS, StaticLits(), codes, 0, 9, work);
    FixedRoots(StaticLits(), 9, root);
    var lenBits, distCode := root, used;
    ghost var u: seq<Entry> := codes[..0 + used];
    ret, used, root := Build(DISTS, FixedDists(), codes, distCode, 5, work);
    FixedRoots(FixedDists(), 5, root);
    assert u == codes[..distCode] && u <= codes[..] && codes[..distCode + used] <= codes[..];
    BuiltDecodes(u, codes[..], 0, lenBits, StaticLits(), LENS, 9);
    BuiltDecodes(codes[..distCode + used], codes[..], distCode, root, FixedDists(), DISTS, 5);
    t := Tables(codes[..], 0, lenBits, distCode, root);
    forall cap: nat
      ensures Serve(t, FixedCoding(cap))
    {
      FixedServed(t, cap);
    }
  }

  lemma BlockIs(bits: seq<bool>, out: seq<int>, cap: nat, l: nat, b1: seq<bool>, t: nat, b2: seq<bool>)
    requires TakeLow(bits, 1) == ZBits.Val(l, b1) && TakeLow(b1, 2) == ZBits.Val(t, b2)
    ensures ReadBlock(bits, out, cap) == ReadTyped(t, l == 1, b2, out, cap)
  {
    hide ReadTyped;
    assert b2 == bits[3..];
    assert b1[..2] == bits[1..3];
    OneBit(bits[..1]);
  }

  lemma OneBit(b: seq<bool>)
    requires |b| == 1
    ensures Value(b) == if b[0] then 1 else 0
  {
    assert b[1..] == [];
  }

  lemma BlockShort(bits: seq<bool>, out: seq<int>, cap: nat)
    requires |bits| < 3
    ensures ReadBlock(bits, out, cap) == CutOff
  {
  }

  /** How a method's result stands for the end of a block. */
  ghost predicate Tells(st: Status, r: BlockEnd, last: bool, bits: seq<bool>, out: seq<int>) {
    match st
    case Done => r == Next(last, bits, out)
    case NeedInput => r == CutOff
    case Invalid => r == Wrong
  }

  /** The tables and the other work space of inflate. */
  class Workspace {
    const codes: array<Entry>
    const work: array<int>
    const lens: array<int>

    ghost predicate Valid() {
      codes.Length == ENOUGH && work.Length >= 288 && lens.Length >= 320 && work != lens
    }

    constructor ()
      ensures Valid() && fresh(codes) && fresh(work) && fresh(lens)
    {
      codes := new Entry[ENOUGH](i => INVALID);
      work := new int[288](i => 0);
      lens := new int[320](i => 0);
    }
  }

  /** A block with the static codes. */
  method ReadFixedBlock(src: Source, sink: Sink, w: Workspace, last: bool) returns (st: Status)
    requires src.Valid() && src.later == [] && src.bits < 8 && sink.Valid() && sink.hist == [] && sink.whave == 0
    requires w.Valid()
    requires w.work != sink.out && w.lens != sink.out && w.work != sink.window && w.lens != sink.window
    modifies src`next, src`hold, src`bits, sink`put, sink.out, w.codes, w.work, w.lens
    ensures src.Valid() && src.later == [] && sink.Valid() && (st == Done ==> src.bits < 8)
    ensures Tells(st, ReadTyped(1, last, old(src.Ahead()), old(sink.Full()), sink.out.Length), last, src.Ahead(),
        sink.Full())
  {
    hide AtLen, Holds, Source.Acc, Source.Ahead, Serve, FixedCoding, Sink.Full;
    var t := FixedTables(w.codes, w.work);
    FixedParts(sink.out.Length);
    st := ReadCodedBlock(src, sink, t, FixedCoding(sink.out.Length));
  }

  lemma FixedParts(cap: nat)
    ensures FixedCoding(cap).lost == 0 && FixedCoding(cap).cap == cap && FixedCoding(cap).far == MAX_DIST
  {
  }

  /** A block with its own codes. */
  method ReadDynamicBlock(src: Source, sink: Sink, w: Workspace, last: bool) returns (st: Status)
    requires src.Valid() && src.later == [] && src.bits < 8 && sink.Valid() && sink.hist == [] && sink.whave == 0
    requires w.Valid()
    requires w.work != sink.out && w.lens != sink.out && w.work != sink.window && w.lens != sink.window
    modifies src`next, src`hold, src`bits, sink`put, sink.out, w.codes, w.work, w.lens
    ensures src.Valid() && src.later == [] && sink.Valid() && (st == Done ==> src.bits < 8)
    ensures Tells(st, ReadTyped(2, last, old(src.Ahead()), old(sink.Full()), sink.out.Length), last, src.Ahead(),
        sink.Full())
  {
    hide AtLen, Holds, Source.Acc, Source.Ahead, ReadHeader, Usable, Decodes, Sink.Full;
    var h;
    st, h := ReadDynamic(src, w.codes, w.work, w.lens);
    if st == Done {
      var t := Tables(w.codes[..], 0, h.lenBits, h.distCode, h.distBits);
      ghost var c := Coding(h.codes.ll, h.codes.dl, 0, sink.out.Length, MAX_DIST);
      ServedBy(t, c);
      st := ReadCodedBlock(src, sink, t, c);
    }
  }

  /** TYPEDO and the block behind it. */
  method ReadOneBlock(src: Source, sink: Sink, w: Workspace) returns (st: Status, last: bool)
    requires src.Valid() && src.later == [] && src.bits < 8 && sink.Valid() && sink.hist == [] && sink.whave == 0
    requires w.Valid()
    requires w.work != sink.out && w.lens != sink.out && w.work != sink.window && w.lens != sink.window
    modifies src`next, src`hold, src`bits, sink`put, sink.out, w.codes, w.work, w.lens
    ensures src.Valid() && src.later == [] && sink.Valid() && (st == Done ==> src.bits < 8)
    ensures Tells(st, ReadBlock(old(src.Ahead()), old(sink.Full()), sink.out.Length), last, src.Ahead(), sink.Full())
  {
    hide AtLen, Holds, Source.Acc, Source.Ahead, Sink.Full, TakeLow, ReadBlock, ReadStored, ReadHeader, ReadCoded;
    ghost var bits, out := src.Ahead(), sink.Full();
    last := false;
    var ok := src.NeedBits(3);
    if !ok {
      src.AheadSize();
      BlockShort(bits, out, sink.out.Length);
      return NeedInput, last;
    }
    var l := TakeKnown(src, 1);
    ghost var b1 := src.Ahead();
    var t := TakeKnown(src, 2);
    BlockIs(bits, out, sink.out.Length, l, b1, t, src.Ahead());
    last := l == 1;
    if t == 0 {
      st := ReadStoredBlock(src, sink);
    } else if t == 1 {
      st := ReadFixedBlock(src, sink, w, last);
    } else if t == 2 {
      st := ReadDynamicBlock(src, sink, w, last);
    } else {
      st := Invalid;
    }
  }

  lemma BlocksStep(bits: seq<bool>, out: seq<int>, cap: nat)
    ensures var r := ReadBlock(bits, out, cap);
      ReadBlocks(bits, out, cap) == if r.Next? && !r.last then ReadBlocks(r.rest, r.out, cap) else r
  {
    hide ReadBlock;
  }

  /** Block by block, up to the final one. */
  method ReadAll(src: Source, sink: Sink, w: Workspace) returns (st: Status)
    requires src.Valid() && src.later == [] && src.bits < 8 && sink.Valid() && sink.hist == [] && sink.whave == 0
    requires w.Valid()
    requires w.work != sink.out && w.lens != sink.out && w.work != sink.window && w.lens != sink.window
    modifies src`next, src`hold, src`bits, sink`put, sink.out, w.codes, w.work, w.lens
    ensures src.Valid() && src.later == [] && sink.Valid() && (st == Done ==> src.bits < 8)
    ensures Tells(st, ReadBlocks(old(src.Ahead()), old(sink.Full()), sink.out.Length), true, src.Ahead(), sink.Full())
  {
    hide Holds, Source.Acc, Source.Ahead, Sink.Full, ReadBlock, LowBits;
    ghost var bits, out, cap := src.Ahead(), sink.Full(), sink.out.Length;
    while true
      invariant src.Valid() && src.later == [] && src.bits < 8 && sink.Valid()
      invariant ReadBlocks(bits, out, cap) == ReadBlocks(src.Ahead(), sink.Full(), cap)
      decreases |src.Ahead()|
    {
      BlocksStep(src.Ahead(), sink.Full(), cap);
      var last;
      st, last := ReadOneBlock(src, sink, w);
      if st != Done || last {
        return;
      }
    }
  }

  /** inflate on a whole stream in one call, with room for so many bytes: exactly what the blocks stand for. */
  method Inflate(data: seq<int>, room: nat) returns (st: Status, out: seq<int>, unused: nat)
    requires IsBytes(data)
    ensures match st
      case Done => var r := ReadBlocks(LowBits(data), [], room); r.Next? && r.out == out && |r.rest| / 8 == unused
      case NeedInput => ReadBlocks(LowBits(data), [], room) == CutOff
      case Invalid => ReadBlocks(LowBits(data), [], room) == Wrong
  {
    hide Holds, Source.Acc, Source.Ahead, ReadBlocks, LowBits;
    var src := new Source(data, []);
    var window, buffer := new int[0], new int[room];
    var sink := new Sink(window, buffer);
    var w := new Workspace();
    assert LowBits(data) + [] == LowBits(data);
    st := ReadAll(src, sink, w);
    src.AheadSize();
    assert sink.Full() == sink.out[..sink.put];
    out, unused := sink.out[..sink.put], |src.inp| - src.next;
  }
}

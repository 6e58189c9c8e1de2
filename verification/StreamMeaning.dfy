/** What a compressed stream means, whatever the memory mode: the outcome and the output as functions of its bits. */
module StreamMeaning {
  import opened Bytes
  import opened Bits
  import opened BitIO
  import opened SymbolFetch
  import opened BlockCrc
  import opened BlockHeader
  import opened BlockCodec
  import opened BlockCompressor
  import opened BlockMeaning
  import opened Output
  import opened RunLength
  import opened StreamCompressor
  import opened StreamDecompressor
  import opened ParseProgress
  import RunEncoder

  // ---------- marks ----------

  /** A mark that is accepted stands there. */
  lemma {:induction false} MarkAccepted(bits: seq<bool>, pos: nat, s: seq<int>, i: nat)
    requires IsBytes(s) && i <= |s| && pos <= |bits| && ParseMark(bits, pos, s, i).Got?
    ensures Has(bits, pos, MarkBits(s, i)) && ParseMark(bits, pos, s, i).pos == pos + 8 * (|s| - i)
    decreases |s| - i
  {
    hide ToBits, FromBits;
    if i < |s| {
      NumberRoundTrip(bits[pos..pos + 8]);
      MarkAccepted(bits, pos + 8, s, i + 1);
      assert bits[pos..pos + 8 + 8 * (|s| - i - 1)] == bits[pos..pos + 8] + bits[pos + 8..pos + 8 + 8 * (|s| - i - 1)];
    }
  }

  // ---------- one block ----------

  /** res is what some proper tables make of the bits. */
  ghost predicate Reads(res: Got<Parsed>, ts: seq<CodeTable>, bits: seq<bool>, pos: nat, max: nat) {
    MadeFor(ts, bits, pos, max) && res == ParseBlock(bits, pos, max, ts) && (res.Got? ==> Readable(res.value))
  }

  /** The block at pos. The tables that are made for it do not matter. */
  ghost function BlockAt(bits: seq<bool>, pos: nat, max: nat): (res: Got<Parsed>)
    ensures res.Got? ==> Readable(res.value)
    ensures res.Got? && pos <= |bits| ==> pos <= res.pos <= |bits|
  {
    if exists res, ts :: Reads(res, ts, bits, pos, max) then
      var res, ts :| Reads(res, ts, bits, pos, max);
      StaysInside(res, ts, bits, pos, max);
      res
    else Starved
  }

  lemma StaysInside(res: Got<Parsed>, ts: seq<CodeTable>, bits: seq<bool>, pos: nat, max: nat)
    requires Reads(res, ts, bits, pos, max)
    ensures res.Got? && pos <= |bits| ==> pos <= res.pos <= |bits|
  {
    hide MadeFor, ParseBlock, Readable;
    if pos <= |bits| {
      BlockOnward(bits, pos, max, ts);
    }
  }

  /** There is one block at most. */
  lemma BlockIs(res: Got<Parsed>, ts: seq<CodeTable>, bits: seq<bool>, pos: nat, max: nat)
    requires Reads(res, ts, bits, pos, max)
    ensures res == BlockAt(bits, pos, max)
  {
    hide MadeFor, ParseBlock, Readable;
    var other, us :| Reads(other, us, bits, pos, max) && other == BlockAt(bits, pos, max);
    assert Reads(other, us, bits, pos, max);
    SameBlock(bits, pos, max, ts, us);
  }

  // ---------- one turn ----------

  /** The outcome of a turn, the output that counts in both modes, that of corrupt runs, and where reading goes on. */
  datatype Turned = Turned(res: Result, piece: seq<int>, tail: seq<int>, pos: nat)

  /** The end of the stream behind the first byte of its mark: the stored CRC must be the combined one. */
  ghost function EndAt(bits: seq<bool>, pos: nat, combined: bv32): (res: Result)
    ensures res == StreamEnd || res == NeedInput || res == BadData
  {
    match ParseMark(bits, pos, EndMark(), 1)
    case Starved => NeedInput
    case Corrupt => BadData
    case Overrun => BadData
    case Got(_, p) =>
      if Take(bits, p, 32).Got? then
        if Take(bits, p, 32).value == CrcNumber(combined) then StreamEnd else BadData
      else NeedInput
  }

  /** A block, or the end of the stream, or what is wrong at pos. */
  ghost function TurnAt(bits: seq<bool>, pos: nat, max: nat, table: seq<bv32>, combined: bv32): (t: Turned)
    requires |table| == 256 && pos <= |bits|
    ensures t.res == BlockOk ==> pos < t.pos <= |bits| && IsBytes(t.piece) && t.tail == []
    ensures t.res == StreamEnd ==> t.piece == t.tail == []
  {
    match Take(bits, pos, 8)
    case Starved => Turned(NeedInput, [], [], pos)
    case Corrupt => Turned(BadData, [], [], pos)
    case Overrun => Turned(BadData, [], [], pos)
    case Got(uc, p) =>
      if uc == 0x17 then Turned(EndAt(bits, p, combined), [], [], pos)
      else if uc != 0x31 then Turned(BadData, [], [], pos)
      else match ParseMark(bits, p, BlockMark(), 1)
        case Starved => Turned(NeedInput, [], [], pos)
        case Corrupt => Turned(BadData, [], [], pos)
        case Overrun => Turned(BadData, [], [], pos)
        case Got(_, q) =>
          MarkAccepted(bits, p, BlockMark(), 1);
          BlockTurn(BlockAt(bits, q, max), table, pos)
  }

  /** What becomes of a block that was read. */
  ghost function BlockTurn(b: Got<Parsed>, table: seq<bv32>, pos: nat): (t: Turned)
    requires |table| == 256 && (b.Got? ==> Readable(b.value))
    ensures t.res == BlockOk ==> b.Got? && t.pos == b.pos && t.piece == Shown(b.value).out && IsBytes(t.piece)
    ensures t.res == BlockOk ==> t.tail == []
  {
    var res, d := Verdict(table, b), Written(b);
    if d.corrupt then Turned(res, [], d.out, pos) else Turned(res, d.out, [], if b.Got? then b.pos else pos)
  }

  // ---------- the whole stream ----------

  /** The combined CRC once a piece of output is checked in. */
  ghost function CheckedIn(table: seq<bv32>, combined: bv32, piece: seq<int>): bv32
    requires |table| == 256 && IsBytes(piece)
  {
    Combine(combined, Finalise(CrcBytes(table, RunEncoder.START_CRC, piece)))
  }

  /** How decompression ends: the outcome, the output that counts in both modes, that of the corrupt runs it stopped
      at, and how many blocks were accepted. */
  datatype Ending = Ending(res: Result, out: seq<int>, tail: seq<int>, blocks: nat)

  /** From a mark on: how decompression ends, and what it writes. */
  ghost function Unzip(bits: seq<bool>, pos: nat, max: nat, table: seq<bv32>, combined: bv32): Ending
    requires |table| == 256 && pos <= |bits|
    decreases |bits| - pos
  {
    var t := TurnAt(bits, pos, max, table, combined);
    if t.res == BlockOk then
      var rest := Unzip(bits, t.pos, max, table, CheckedIn(table, combined, t.piece));
      Ending(rest.res, t.piece + rest.out, rest.tail, rest.blocks + 1)
    else Ending(t.res, t.piece, t.tail, 0)
  }

  /** What the caller sees of all output. */
  ghost function SeenAll(e: Ending, small: bool, room: (nat, nat) -> Space): seq<int> {
    e.out + Seen(Decoded(e.tail, true), small, room, e.blocks)
  }

  /** The stream header: "BZh" and a digit from 1 to 9. */
  ghost function HeaderAt(bits: seq<bool>): (h: (Result, nat))
    ensures h.0 == BlockOk ==> 1 <= h.1 <= 9 && 32 <= |bits|
    ensures h.0 == BlockOk || h.0 == NeedInput || h.0 == BadMagic
  {
    match ParseMark(bits, 0, [0x42, 0x5a, 0x68], 0)
    case Starved => (NeedInput, 0)
    case Corrupt => (BadMagic, 0)
    case Overrun => (BadMagic, 0)
    case Got(_, p) =>
      MarkAccepted(bits, 0, [0x42, 0x5a, 0x68], 0);
      var uc := Take(bits, p, 8);
      if !uc.Got? then (NeedInput, 0)
      else if uc.value < 0x30 + 1 || uc.value > 0x30 + 9 then (BadMagic, 0)
      else (BlockOk, uc.value - 0x30)
  }

  /** What decompressing the data ends with and gives. */
  ghost function Unzipped(data: seq<int>, table: seq<bv32>): Ending
    requires IsBytes(data) && |table| == 256
  {
    var h := HeaderAt(BytesToBits(data));
    if h.0 == BlockOk then Unzip(BytesToBits(data), 32, 100000 * h.1, table, 0) else Ending(h.0, [], [], 0)
  }

  /** After `out` from n blocks the rest from pos on makes the whole. */
  ghost predicate Underway(whole: Ending, bits: seq<bool>, pos: nat, max: nat, table: seq<bv32>, combined: bv32,
                           out: seq<int>, n: nat) {
    && |table| == 256 && pos <= |bits|
    && var rest := Unzip(bits, pos, max, table, combined);
       whole == Ending(rest.res, out + rest.out, rest.tail, n + rest.blocks)
  }

  lemma UnderwayTurn(whole: Ending, bits: seq<bool>, pos: nat, max: nat, table: seq<bv32>, combined: bv32,
                     out: seq<int>, n: nat, t: Turned)
    requires Underway(whole, bits, pos, max, table, combined, out, n) && t == TurnAt(bits, pos, max, table, combined)
    ensures t.res == BlockOk ==>
        Underway(whole, bits, t.pos, max, table, CheckedIn(table, combined, t.piece), out + t.piece, n + 1)
    ensures t.res != BlockOk ==> whole == Ending(t.res, out + t.piece, t.tail, n)
  {
    hide TurnAt, CheckedIn;
    if t.res == BlockOk {
      var rest := Unzip(bits, t.pos, max, table, CheckedIn(table, combined, t.piece));
      assert out + (t.piece + rest.out) == (out + t.piece) + rest.out;
    }
  }

  /** There is a tail exactly where the runs of a block turn out to be corrupt. */
  lemma CorruptTail(b: Got<Parsed>, table: seq<bv32>, pos: nat)
    requires |table| == 256 && (b.Got? ==> Readable(b.value))
    ensures BlockTurn(b, table, pos).tail != [] <==> Written(b).corrupt
    ensures Written(b).corrupt ==> BlockTurn(b, table, pos) == Turned(BadData, [], Written(b).out, pos)
  {
    hide Expand, CrcBytes, Stream;
    if Written(b).corrupt {
      CorruptIsLong(Stream(b.value.column, b.value.numbers.origPtr), |b.value.column|, 0);
    }
  }

  lemma BlockAtOverrun(bits: seq<bool>, pos: nat, max: nat)
    requires BlockAt(bits, pos, max) == Overrun
    ensures exists q: nat :: TooMany(bits, q)
  {
    hide MadeFor, ParseBlock, Readable, TooMany;
    var res, ts :| Reads(res, ts, bits, pos, max) && res == BlockAt(bits, pos, max);
    BlockOverrun(bits, pos, max, ts);
  }

  lemma TurnOverrun(bits: seq<bool>, pos: nat, max: nat, table: seq<bv32>, combined: bv32)
    requires |table| == 256 && pos <= |bits| && TurnAt(bits, pos, max, table, combined).res == ArrayOverrun
    ensures exists q: nat :: TooMany(bits, q)
  {
    hide ParseMark, BlockAt, FromBits, Shown, CrcBytes, TooMany, EndMark, BlockMark;
    MarkAccepted(bits, pos + 8, BlockMark(), 1);
    BlockAtOverrun(bits, pos + 48, max);
  }

  /** Without such a block there is no overrun. */
  lemma {:induction false} UnzipOverrun(bits: seq<bool>, pos: nat, max: nat, table: seq<bv32>, combined: bv32)
    requires |table| == 256 && pos <= |bits| && Unzip(bits, pos, max, table, combined).res == ArrayOverrun
    ensures exists q: nat :: TooMany(bits, q)
    decreases |bits| - pos
  {
    hide TurnAt, CheckedIn, TooMany;
    var t := TurnAt(bits, pos, max, table, combined);
    if t.res == BlockOk {
      UnzipOverrun(bits, t.pos, max, table, CheckedIn(table, combined, t.piece));
    } else {
      TurnOverrun(bits, pos, max, table, combined);
    }
  }

  /** Both modes show the same, for whatever slices of output space, if and only if decompression does not stop at
      corrupt runs. */
  lemma SeenAllAlike(e: Ending, room: (nat, nat) -> Space, room': (nat, nat) -> Space)
    ensures SeenAll(e, false, room) == SeenAll(e, true, room') <==> e.tail == []
    ensures SeenAll(e, false, room) <= SeenAll(e, true, room')
  {
    var f, s := Seen(Decoded(e.tail, true), false, room, e.blocks), Seen(Decoded(e.tail, true), true, room', e.blocks);
    assert |SeenAll(e, false, room)| == |e.out| + |f| && |SeenAll(e, true, room')| == |e.out| + |s|;
  }
}

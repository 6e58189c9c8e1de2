/** The library from end to end: what is compressed, in however many pieces and with whatever flushes, comes
    back when the stream is decompressed, in either memory mode and into buffers of any size. */
module Bzip2 {
  import opened Bytes
  import opened Bits
  import opened BitIO
  import opened SymbolFetch
  import opened RunLength
  import opened InverseBwt
  import opened Bwt
  import opened BlockCrc
  import opened Output
  import opened ParseProgress
  import opened BlockReader
  import opened BlockHeader
  import opened BlockCodec
  import opened BlockCompressor
  import opened StreamCompressor
  import opened StreamDecompressor
  import opened StreamMeaning
  import RunEncoder

  // ---------- what the output says about the input ----------

  function Concat(outs: seq<seq<int>>): seq<int> {
    if outs == [] then [] else Concat(outs[..|outs|-1]) + outs[|outs|-1]
  }

  ghost predicate AllBytes(outs: seq<seq<int>>) {
    forall i :: 0 <= i < |outs| ==> IsBytes(outs[i])
  }

  /** The finished CRCs of a list of outputs. */
  ghost function OutputCrcs(table: seq<bv32>, outs: seq<seq<int>>): (crcs: seq<bv32>)
    requires |table| == 256 && AllBytes(outs)
    ensures |crcs| == |outs|
  {
    seq(|outs|, i requires 0 <= i < |outs| => Finalise(CrcBytes(table, RunEncoder.START_CRC, outs[i])))
  }

  lemma OutputNext(table: seq<bv32>, outs: seq<seq<int>>, out: seq<int>)
    requires |table| == 256 && AllBytes(outs) && IsBytes(out)
    ensures AllBytes(outs + [out]) && Concat(outs + [out]) == Concat(outs) + out
    ensures Combined(OutputCrcs(table, outs + [out])) ==
            Combine(Combined(OutputCrcs(table, outs)), Finalise(CrcBytes(table, RunEncoder.START_CRC, out)))
  {
    hide Combine, Finalise, CrcBytes;
    assert (outs + [out])[..|outs|] == outs;
    assert OutputCrcs(table, outs + [out])[..|outs|] == OutputCrcs(table, outs);
  }

  lemma NoOutput(table: seq<bv32>)
    requires |table| == 256
    ensures AllBytes([]) && Concat([]) == [] && Combined(OutputCrcs(table, [])) == 0
  {
  }

  /** The input holds an end mark followed by the combined CRC of the outputs. */
  ghost predicate Vouched(data: seq<int>, table: seq<bv32>, outs: seq<seq<int>>) {
    && IsBytes(data) && |table| == 256 && AllBytes(outs)
    && exists p: nat ::
         Has(BytesToBits(data), p, MarkBits(EndMark(), 0) + ToBits(CrcNumber(Combined(OutputCrcs(table, outs))), 32))
  }

  // ---------- marks ----------

  lemma MarkStart(s: seq<int>)
    requires IsBytes(s) && s != []
    ensures MarkBits(s, 0) == ToBits(s[0], 8) + MarkBits(s, 1)
  {
  }

  /** The first byte of a mark and the rest of it, where the mark stands. */
  lemma MarkThere(bits: seq<bool>, pos: nat, s: seq<int>, rest: seq<bool>)
    requires IsBytes(s) && s != [] && Has(bits, pos, MarkBits(s, 0) + rest)
    ensures Take(bits, pos, 8) == Got(s[0], pos + 8)
    ensures ParseMark(bits, pos + 8, s, 1) == Got(0, pos + 8 * |s|) && Has(bits, pos + 8 * |s|, rest)
  {
    hide ToBits, MarkBits, Pow2, FromBits, ParseMark;
    MarkStart(s);
    Powers();
    HasSplit(bits, pos, MarkBits(s, 0), rest);
    HasSplit(bits, pos, ToBits(s[0], 8), MarkBits(s, 1));
    TakeWritten(bits, pos, s[0], 8);
    MarkRoundTrip(bits, pos + 8, s, 1);
  }

  // ---------- decompression ----------

  /** The stream these runs were compressed to. */
  ghost predicate Compressed(data: seq<int>, k: nat, chs: seq<Choice>, blocks: seq<Block>, done: seq<seq<Run>>,
                             table: seq<bv32>) {
    && IsStream(data, k, chs, blocks) && |done| == |blocks|
    && forall i :: 0 <= i < |done| ==> RunEncoder.BlockOf(blocks[i], done[i], table, 100000 * k - 19)
  }

  /** Where the decompressor stands in such a stream. */
  ghost predicate Midway(bits: seq<bool>, pos: nat, chs: seq<Choice>, blocks: seq<Block>, done: seq<seq<Run>>, i: nat,
                         out: seq<int>, combined: bv32) {
    && AllFit(chs, blocks) && i <= |blocks| == |done|
    && Has(bits, pos, TailBits(chs, blocks, i))
    && out == Plain(RunEncoder.Joined(done[..i])) && combined == Combined(BlockCrcs(blocks[..i]))
  }

  lemma MidwayStart(data: seq<int>, k: nat, chs: seq<Choice>, blocks: seq<Block>, done: seq<seq<Run>>, table: seq<bv32>)
    requires Compressed(data, k, chs, blocks, done, table)
    ensures ParseMark(BytesToBits(data), 0, StreamMark(k), 0) == Got(0, 32)
    ensures Midway(BytesToBits(data), 32, chs, blocks, done, 0, [], 0)
  {
    hide TailBits, BytesToBits, MarkBits, CrcNumber, Fits, CodeBits;
    HasSplit(BytesToBits(data), 0, MarkBits(StreamMark(k), 0), TailBits(chs, blocks, 0));
    MarkRoundTrip(BytesToBits(data), 0, StreamMark(k), 0);
    NothingCombined(blocks);
    assert done[..0] == [];
  }

  /** What is read for block i of the stream. */
  ghost function Expected(ch: Choice, b: Block): Parsed
    requires Sorts(ch, b)
  {
    SortedIsPerm(b.bytes, ch.f);
    Parsed(Numbers(CrcNumber(Finalise(b.crc)), 0, ch.o), LastColumn(b.bytes, ch.f))
  }

  /** In the middle of the stream another block can be read. */
  lemma MidwayRead(bits: seq<bool>, pos: nat, chs: seq<Choice>, blocks: seq<Block>, i: nat, max: nat,
                   ts: seq<CodeTable>)
    requires AllFit(chs, blocks) && i < |blocks| && Has(bits, pos, TailBits(chs, blocks, i))
    requires |blocks[i].bytes| <= max <= 900000 && MadeFor(ts, bits, pos + 48, max)
    ensures Sorts(chs[i], blocks[i])
    ensures var parsed := ParseBlock(bits, pos + 48, max, ts);
            parsed.Got? && parsed.value == Expected(chs[i], blocks[i]) &&
                Has(bits, parsed.pos, TailBits(chs, blocks, i + 1))
  {
    hide MarkBits, CodeBits, TailBits, ParseBlock, MadeFor, CrcNumber, Finalise, Fits, LastColumn;
    var ch, b := chs[i], blocks[i];
    assert Fits(ch, b);
    FitsSorts(ch, b);
    TailStep(chs, blocks, i);
    MarkThere(bits, pos, BlockMark(), CodeBits(ch, b) + TailBits(chs, blocks, i + 1));
    HasSplit(bits, pos + 48, CodeBits(ch, b), TailBits(chs, blocks, i + 1));
    BlockRoundTrip(bits, pos + 48, max, ts, ch, b);
  }

  /** It shows what its runs stand for, and its CRC is right. */
  lemma BlockVerdict(ch: Choice, b: Block, ps: seq<Run>, table: seq<bv32>, max: nat, e: nat)
    requires Sorts(ch, b) && RunEncoder.BlockOf(b, ps, table, max)
    ensures Readable(Expected(ch, b)) && Verdict(table, Got(Expected(ch, b), e)) == BlockOk
    ensures Shown(Expected(ch, b)) == Decoded(Plain(ps), false)
  {
    hide Expand, Stream, CrcBytes, Finalise, CrcNumber, Plain, LastColumn, Maximal, Flatten, SortedRotations;
    SortedIsPerm(b.bytes, ch.f);
    BlockShown(ch, b, ps, table, max);
  }

  lemma MidwayNext(bits: seq<bool>, pos: nat, chs: seq<Choice>, blocks: seq<Block>, done: seq<seq<Run>>, i: nat,
                   out: seq<int>, combined: bv32, next: nat)
    requires Midway(bits, pos, chs, blocks, done, i, out, combined) && i < |blocks|
    requires Has(bits, next, TailBits(chs, blocks, i + 1))
    ensures Midway(bits, next, chs, blocks, done, i + 1, out + Plain(done[i]),
                   Combine(combined, Finalise(blocks[i].crc)))
  {
    hide TailBits, Combine, Finalise, Combined, BlockCrcs, Fits, Plain, Has;
    CombineNext(blocks, i);
    assert done[..i + 1] == done[..i] + [done[i]];
    RunEncoder.JoinedAppend(done[..i], done[i]);
    RunEncoder.PlainConcat(RunEncoder.Joined(done[..i]), done[i]);
  }

  /** A block that was read, shows plain and passes its CRC check. */
  ghost predicate Accepted(table: seq<bv32>, parsed: Got<Parsed>, plain: seq<int>) {
    && |table| == 256 && parsed.Got? && Readable(parsed.value)
    && Verdict(table, parsed) == BlockOk && Shown(parsed.value) == Decoded(plain, false)
  }

  /** In the middle of the stream another block follows, is written out and accepted. */
  lemma MidwayBlock(bits: seq<bool>, pos: nat, chs: seq<Choice>, blocks: seq<Block>, done: seq<seq<Run>>, i: nat,
                    out: seq<int>, combined: bv32, table: seq<bv32>, max: nat, ts: seq<CodeTable>)
    requires Midway(bits, pos, chs, blocks, done, i, out, combined) && i < |blocks|
    requires 19 <= max <= 900000 && RunEncoder.BlockOf(blocks[i], done[i], table, max - 19)
    requires MadeFor(ts, bits, pos + 48, max)
    ensures Accepted(table, ParseBlock(bits, pos + 48, max, ts), Plain(done[i]))
    ensures Midway(bits, ParseBlock(bits, pos + 48, max, ts).pos, chs, blocks, done, i + 1, out + Plain(done[i]),
                   Combine(combined, Finalise(blocks[i].crc)))
  {
    hide TailBits, ParseBlock, MadeFor, Readable, Shown, Verdict, CrcBytes, Combine, Finalise, Combined, BlockCrcs,
         Plain, Maximal, Flatten, Has, Expected;
    MidwayRead(bits, pos, chs, blocks, i, max, ts);
    BlockVerdict(chs[i], blocks[i], done[i], table, max - 19, ParseBlock(bits, pos + 48, max, ts).pos);
    MidwayNext(bits, pos, chs, blocks, done, i, out, combined, ParseBlock(bits, pos + 48, max, ts).pos);
  }

  /** What the next byte says. */
  lemma MidwayByte(bits: seq<bool>, pos: nat, chs: seq<Choice>, blocks: seq<Block>, done: seq<seq<Run>>, i: nat,
                   out: seq<int>, combined: bv32)
    requires Midway(bits, pos, chs, blocks, done, i, out, combined)
    ensures i < |blocks| ==>
        Take(bits, pos, 8) == Got(0x31, pos + 8) && ParseMark(bits, pos + 8, BlockMark(), 1) == Got(0, pos + 48)
    ensures i == |blocks| ==> Take(bits, pos, 8) == Got(0x17, pos + 8) && EndAt(bits, pos + 8, combined) == StreamEnd
    ensures i == |blocks| ==> out == Plain(RunEncoder.Joined(done))
  {
    hide MarkBits, CodeBits, TailBits, CrcNumber, Combined, BlockCrcs, Fits, Plain, ToBits, FromBits, Pow2, ParseMark;
    if i < |blocks| {
      TailStep(chs, blocks, i);
      MarkThere(bits, pos, BlockMark(), CodeBits(chs[i], blocks[i]) + TailBits(chs, blocks, i + 1));
    } else {
      TailEnd(chs, blocks);
      assert blocks[..i] == blocks && done[..i] == done;
      MarkThere(bits, pos, EndMark(), ToBits(CrcNumber(combined), 32));
      Powers();
      TakeWritten(bits, pos + 48, CrcNumber(combined), 32);
    }
  }

  /** Reads the stream header: "BZh" and a digit from 1 to 9. */
  method ReadStreamMark(r: BitReader) returns (res: Result, blockSize100k: nat)
    requires r.Valid() && r.Pos() == 0
    modifies r
    ensures r.Valid() && (res, blockSize100k) == HeaderAt(r.Bits())
    ensures res == BlockOk ==> 1 <= blockSize100k <= 9 && r.Pos() == 32 <= |r.Bits()|
  {
    hide FromBits, Pow2, ToBits;
    blockSize100k := 0;
    var st := ReadMark(r, [0x42, 0x5a, 0x68], 0);
    if !st.Ok? {
      res := if st.Starving? then NeedInput else BadMagic;
      return;
    }
    MarkAccepted(r.Bits(), 0, [0x42, 0x5a, 0x68], 0);
    var uc := r.GetBits(8);
    if !uc.Got? {
      res := NeedInput;
      return;
    }
    if uc.value < 0x30 + 1 || uc.value > 0x30 + 9 {
      res := BadMagic;
      return;
    }
    blockSize100k := uc.value - 0x30;
    res := BlockOk;
  }

  /** The header is its three letters and its digit. */
  lemma SameLetters(bits: seq<bool>, k: nat)
    requires 1 <= k <= 9 && ParseMark(bits, 0, StreamMark(k), 0).Got?
    ensures HeaderAt(bits) == (BlockOk, k)
  {
    hide FromBits, ToBits;
    FourLetters(bits, StreamMark(k), [0x42, 0x5a, 0x68]);
  }

  lemma FourLetters(bits: seq<bool>, s: seq<int>, t: seq<int>)
    requires |s| == 4 && t == s[..3] && IsBytes(s) && ParseMark(bits, 0, s, 0).Got?
    ensures ParseMark(bits, 0, t, 0) == Got(0, 24) && Take(bits, 24, 8) == Got(s[3], 32)
  {
    hide FromBits;
    assert ParseMark(bits, 0, s, 0) == ParseMark(bits, 8, s, 1);
    assert ParseMark(bits, 8, s, 1) == ParseMark(bits, 16, s, 2);
    assert ParseMark(bits, 16, s, 2) == ParseMark(bits, 24, s, 3);
    assert ParseMark(bits, 0, t, 0) == ParseMark(bits, 8, t, 1);
    assert ParseMark(bits, 8, t, 1) == ParseMark(bits, 16, t, 2);
    assert ParseMark(bits, 16, t, 2) == ParseMark(bits, 24, t, 3);
  }

  /** Compressor's blocks that a stream of block size max may hold. */
  ghost predicate Suitable(blocks: seq<Block>, done: seq<seq<Run>>, table: seq<bv32>, max: nat) {
    && 19 <= max <= 900000 && |done| == |blocks|
    && forall i :: 0 <= i < |done| ==> RunEncoder.BlockOf(blocks[i], done[i], table, max - 19)
  }

  /** The end of the stream behind the first byte of its mark: the stored CRC must be the one computed. */
  method ReadEnd(r: BitReader, combinedCRC: bv32) returns (res: Result)
    requires r.Valid()
    modifies r
    ensures r.Valid() && res == EndAt(r.Bits(), old(r.Pos()), combinedCRC)
  {
    hide ToBits, FromBits, Pow2, CrcNumber, ParseMark;
    var st := ReadMark(r, EndMark(), 1);
    if !st.Ok? {
      res := if st.Starving? then NeedInput else BadData;
      return;
    }
    var storedCombinedCRC;
    st, storedCombinedCRC := ReadBig(r, 4);
    if !st.Ok? {
      res := NeedInput;
      return;
    }
    res := if storedCombinedCRC != CrcNumber(combinedCRC) then BadData else StreamEnd;
  }

  /** The end is accepted only where its mark stands, followed by the combined CRC. */
  lemma EndStands(bits: seq<bool>, pos: nat, max: nat, table: seq<bv32>, combined: bv32)
    requires |table| == 256 && pos <= |bits| && TurnAt(bits, pos, max, table, combined).res == StreamEnd
    ensures Has(bits, pos, MarkBits(EndMark(), 0) + ToBits(CrcNumber(combined), 32))
  {
    hide ToBits, FromBits, CrcNumber, MarkBits, ParseMark, BlockAt, Verdict, Shown;
    MarkAccepted(bits, pos + 8, EndMark(), 1);
    EndThere(bits, pos, combined);
  }

  lemma EndThere(bits: seq<bool>, pos: nat, combined: bv32)
    requires Take(bits, pos, 8) == Got(0x17, pos + 8) && Has(bits, pos + 8, MarkBits(EndMark(), 1))
    requires Take(bits, pos + 48, 32) == Got(CrcNumber(combined), pos + 80)
    ensures Has(bits, pos, MarkBits(EndMark(), 0) + ToBits(CrcNumber(combined), 32))
  {
    hide ToBits, FromBits, CrcNumber, MarkBits;
    MarkStart(EndMark());
    NumberRoundTrip(bits[pos..pos + 8]);
    NumberRoundTrip(bits[pos + 48..pos + 80]);
    assert bits[pos..pos + 80] == bits[pos..pos + 8] + bits[pos + 8..pos + 48] + bits[pos + 48..pos + 80];
  }

  /** A block's mark stands at pos. */
  ghost predicate MarkedAt(bits: seq<bool>, pos: nat) {
    Take(bits, pos, 8) == Got(0x31, pos + 8) && ParseMark(bits, pos + 8, BlockMark(), 1) == Got(0, pos + 48)
  }

  /** What the caller sees of a turn's output. */
  ghost function SeenTurn(t: Turned, small: bool, room: (nat, nat) -> Space, j: nat): seq<int> {
    t.piece + Seen(Decoded(t.tail, true), small, room, j)
  }

  /** The output up to a turn and the turn's are all of it. */
  lemma SeenLast(whole: Ending, out: seq<int>, t: Turned, small: bool, room: (nat, nat) -> Space, i: nat)
    requires whole == Ending(t.res, out + t.piece, t.tail, i)
    ensures SeenAll(whole, small, room) == out + SeenTurn(t, small, room, i)
  {
    hide Seen;
  }

  lemma NothingTurned(small: bool, room: (nat, nat) -> Space, j: nat)
    ensures forall res, pos :: SeenTurn(Turned(res, [], [], pos), small, room, j) == []
  {
  }

  /** What the caller sees of a block is what is seen of its turn. */
  lemma BlockSeen(b: Got<Parsed>, table: seq<bv32>, pos: nat, small: bool, room: (nat, nat) -> Space, j: nat)
    requires |table| == 256 && (b.Got? ==> Readable(b.value))
    ensures var t := BlockTurn(b, table, pos);
      && t.res == Verdict(table, b) && SeenTurn(t, small, room, j) == Seen(Written(b), small, room, j)
      && (t.res == BlockOk ==> b.Got? && t.pos == b.pos && t.piece == Shown(b.value).out)
  {
    hide Shown, Verdict, Readable, Kept;
    var d := Written(b);
    assert d == Decoded(d.out, d.corrupt);
  }

  /** One turn of the decompressor: a block or the end of the stream. */
  method Step(r: BitReader, max: nat, small: bool, tt: array<int>, ll4: array<int>, crcTable: seq<bv32>,
              combinedCRC: bv32, room: (nat, nat) -> Space, j: nat)
    returns (res: Result, piece: seq<int>, crc: bv32, ghost ts: seq<CodeTable>)
    requires r.Valid() && max <= tt.Length && max <= 900000 && |crcTable| == 256 && r.Pos() <= |r.Bits()|
    requires small ==> tt != ll4 && LinkShape(tt[..], ll4[..])
    modifies r, tt, ll4
    ensures r.Valid() && (small && res == BlockOk ==> LinkShape(tt[..], ll4[..]))
    ensures
      var t := TurnAt(r.Bits(), old(r.Pos()), max, crcTable, combinedCRC);
      res == t.res && piece == SeenTurn(t, small, room, j) && (res == BlockOk ==> r.Pos() == t.pos && piece == t.piece)
    ensures res == StreamEnd ==> piece == []
    ensures res == BlockOk ==> IsBytes(piece) && crc == Finalise(CrcBytes(crcTable, RunEncoder.START_CRC, piece))
    ensures MarkedAt(r.Bits(), old(r.Pos())) ==> MadeFor(ts, r.Bits(), old(r.Pos()) + 48, max)
  {
    hide ToBits, FromBits, Pow2, CrcNumber, Finalise, CrcBytes, MarkBits, LinkShape, ParseMark, ParseBlock, MadeFor,
         Readable, Shown, Verdict, EndAt, BlockAt, BlockTurn, Written, Seen, SeenTurn;
    ghost var bits, p := r.Bits(), r.Pos();
    piece, crc, ts := [], 0, [];
    NothingTurned(small, room, j);
    var uc := r.GetBits(8);
    if !uc.Got? {
      res := NeedInput;
      return;
    }
    if uc.value == 0x17 {
      res := ReadEnd(r, combinedCRC);
      return;
    }
    if uc.value != 0x31 {
      res := BadData;
      return;
    }
    var st := ReadMark(r, BlockMark(), 1);
    if !st.Ok? {
      res := if st.Starving? then NeedInput else BadData;
      return;
    }
    MarkAccepted(bits, p + 8, BlockMark(), 1);
    ghost var parsed;
    res, piece, crc, parsed, ts := DecodeBlock(r, max, small, tt, ll4, crcTable, room, j);
    BlockIs(parsed, ts, bits, p + 48, max);
    BlockSeen(parsed, crcTable, p, small, room, j);
  }

  /** What a turn does to a stream that was compressed. */
  lemma MidwayTurn(bits: seq<bool>, pos: nat, chs: seq<Choice>, blocks: seq<Block>, done: seq<seq<Run>>, i: nat,
                   out: seq<int>, combined: bv32, table: seq<bv32>, max: nat, ts: seq<CodeTable>)
    requires Suitable(blocks, done, table, max) && Midway(bits, pos, chs, blocks, done, i, out, combined)
    requires |table| == 256 && pos <= |bits| && (MarkedAt(bits, pos) ==> MadeFor(ts, bits, pos + 48, max))
    ensures i <= |blocks|
    ensures i == |blocks| ==>
        TurnAt(bits, pos, max, table, combined).res == StreamEnd && out == Plain(RunEncoder.Joined(done))
    ensures i < |blocks| ==> TurnAt(bits, pos, max, table, combined).res == BlockOk
    ensures i < |blocks| ==>
              var t := TurnAt(bits, pos, max, table, combined);
              Midway(bits, t.pos, chs, blocks, done, i + 1, out + t.piece, CheckedIn(table, combined, t.piece))
  {
    hide ToBits, FromBits, Pow2, CrcNumber, Finalise, CrcBytes, Combine, TailBits, Midway, ParseMark, ParseBlock,
         MadeFor, Readable, Shown, Verdict, Plain, Has, EndAt, BlockAt;
    MidwayByte(bits, pos, chs, blocks, done, i, out, combined);
    MidwayCount(bits, pos, chs, blocks, done, i, out, combined);
    if i < |blocks| {
      MidwayBlock(bits, pos, chs, blocks, done, i, out, combined, table, max, ts);
      SameCrc(table, ParseBlock(bits, pos + 48, max, ts), Plain(done[i]), blocks[i], done[i], max - 19);
      AcceptedTurn(bits, pos, table, max, ts, Plain(done[i]), combined);
    }
  }

  /** An accepted block makes a turn. */
  lemma AcceptedTurn(bits: seq<bool>, pos: nat, table: seq<bv32>, max: nat, ts: seq<CodeTable>, plain: seq<int>,
                     combined: bv32)
    requires pos <= |bits| && MarkedAt(bits, pos) && MadeFor(ts, bits, pos + 48, max)
    requires Accepted(table, ParseBlock(bits, pos + 48, max, ts), plain)
    ensures TurnAt(bits, pos, max, table, combined) ==
            Turned(BlockOk, plain, [], ParseBlock(bits, pos + 48, max, ts).pos)
  {
    hide ParseBlock, MadeFor, ParseMark, FromBits, Verdict, Shown, Readable, BlockAt, EndAt;
    BlockIs(ParseBlock(bits, pos + 48, max, ts), ts, bits, pos + 48, max);
  }

  lemma MidwayCount(bits: seq<bool>, pos: nat, chs: seq<Choice>, blocks: seq<Block>, done: seq<seq<Run>>, i: nat,
                    out: seq<int>, combined: bv32)
    requires Midway(bits, pos, chs, blocks, done, i, out, combined)
    ensures i <= |blocks| == |done|
  {
  }

  lemma InputEnd(r: BitReader)
    requires r.Valid()
    ensures r.Pos() <= |r.Bits()|
  {
  }

  lemma SameCrc(table: seq<bv32>, parsed: Got<Parsed>, plain: seq<int>, b: Block, ps: seq<Run>, max: nat)
    requires Accepted(table, parsed, plain) && RunEncoder.BlockOf(b, ps, table, max) && plain == Plain(ps)
    ensures parsed.Got? && Readable(parsed.value) && Shown(parsed.value).out == plain
    ensures Verdict(table, parsed) == BlockOk
    ensures b.crc == CrcBytes(table, RunEncoder.START_CRC, plain)
  {
    hide Verdict, Shown, Readable, CrcBytes, Plain, Maximal, Flatten;
  }

  lemma Fresh(max: nat, ll16: seq<int>, ll4: seq<int>)
    requires |ll16| == max && |ll4| == (1 + max) / 2 && forall i :: 0 <= i < |ll4| ==> ll4[i] == 0
    ensures LinkShape(ll16, ll4)
  {
  }

  lemma VouchedBy(data: seq<int>, table: seq<bv32>, outs: seq<seq<int>>, p: nat)
    requires IsBytes(data) && |table| == 256 && AllBytes(outs)
    requires Has(BytesToBits(data), p,
                 MarkBits(EndMark(), 0) + ToBits(CrcNumber(Combined(OutputCrcs(table, outs))), 32))
    ensures Vouched(data, table, outs)
  {
  }

  lemma CompressedSuits(data: seq<int>, k: nat, chs: seq<Choice>, blocks: seq<Block>, done: seq<seq<Run>>,
                        table: seq<bv32>)
    requires Compressed(data, k, chs, blocks, done, table)
    ensures Suitable(blocks, done, table, 100000 * k)
    ensures IsBytes(data) && HeaderAt(BytesToBits(data)) == (BlockOk, k)
  {
    hide StreamBits, ParseMark;
    MidwayStart(data, k, chs, blocks, done, table);
    SameLetters(BytesToBits(data), k);
  }

  /** BZ2_bzDecompress called until it has nothing more to say, all input being there: the pieces written come one after
      another, room(j, i) being the space that the i-th call of block j offers. The outcome depends on the data alone,
      not on the memory mode or the space, and so does the output, except for that of corrupt runs. Success is reported
      only for a stream whose end mark is followed by the combined CRC of what was written; and whatever runs a stream
      was made from, they are what comes out. */
  method Decompress(data: seq<int>, small: bool, room: (nat, nat) -> Space, crcTable: seq<bv32>,
                    ghost k: nat, ghost chs: seq<Choice>, ghost blocks: seq<Block>, ghost done: seq<seq<Run>>)
    returns (res: Result, out: seq<int>, ghost outs: seq<seq<int>>)
    requires IsBytes(data) && |crcTable| == 256
    ensures res != BlockOk && res == Unzipped(data, crcTable).res
    ensures out == SeenAll(Unzipped(data, crcTable), small, room)
    ensures res == StreamEnd ==> Vouched(data, crcTable, outs) && out == Concat(outs)
    ensures Compressed(data, k, chs, blocks, done, crcTable) ==>
        res == StreamEnd && out == Plain(RunEncoder.Joined(done))
  {
    hide Compressed, Suitable, Midway, Vouched, LinkShape, ParseMark, MarkBits, ToBits, CrcNumber, Combined, OutputCrcs,
         Combine, Finalise, CrcBytes, BytesToBits, Plain, Has, Pow2, HeaderAt, TurnAt, MarkedAt, MadeFor, Underway,
         SeenTurn, SeenAll;
    out, outs := [], [];
    ghost var good := Compressed(data, k, chs, blocks, done, crcTable);
    if good {
      CompressedSuits(data, k, chs, blocks, done, crcTable);
      MidwayStart(data, k, chs, blocks, done, crcTable);
    }
    NoOutput(crcTable);
    var r := new BitReader(data);
    var blockSize100k;
    res, blockSize100k := ReadStreamMark(r);
    if res != BlockOk {
      SeenNone(data, small, room, crcTable);
      return;
    }
    var max := 100000 * blockSize100k;
    var tt := new int[max];
    var ll4 := new int[(1 + max) / 2](_ => 0);
    Fresh(max, tt[..], ll4[..]);
    var combinedCRC := 0;
    ghost var whole := Unzipped(data, crcTable);
    var i := 0;
    UnderwayStart(data, crcTable, max);
    while res == BlockOk
      invariant r.Valid() && (res == BlockOk ==> LinkShape(tt[..], ll4[..]) || !small)
      invariant AllBytes(outs) && combinedCRC == Combined(OutputCrcs(crcTable, outs))
      invariant res == BlockOk || res == StreamEnd ==> out == Concat(outs)
      invariant res == BlockOk ==> Underway(whole, r.Bits(), r.Pos(), max, crcTable, combinedCRC, out, i)
      invariant res != BlockOk ==> whole.res == res && out == SeenAll(whole, small, room)
      invariant good && res == BlockOk ==> Midway(r.Bits(), r.Pos(), chs, blocks, done, i, out, combinedCRC)
      invariant good && res != BlockOk ==> res == StreamEnd && out == Plain(RunEncoder.Joined(done))
      invariant res == StreamEnd ==> Vouched(data, crcTable, outs)
      decreases if res == BlockOk then 1 + |r.Bits()| - r.Pos() else 0
    {
      InputEnd(r);
      ghost var bits, p := r.Bits(), r.Pos();
      var piece, crc;
      ghost var ts;
      res, piece, crc, ts := Step(r, max, small, tt, ll4, crcTable, combinedCRC, room, i);
      UnderwayTurn(whole, bits, p, max, crcTable, combinedCRC, out, i, TurnAt(bits, p, max, crcTable, combinedCRC));
      if good {
        MidwayTurn(bits, p, chs, blocks, done, i, out, combinedCRC, crcTable, max, ts);
      }
      if res != BlockOk {
        SeenLast(whole, out, TurnAt(bits, p, max, crcTable, combinedCRC), small, room, i);
      }
      out := out + piece;
      if res == BlockOk {
        OutputNext(crcTable, outs, piece);
        combinedCRC := Combine(combinedCRC, crc);
        outs, i := outs + [piece], i + 1;
      } else if res == StreamEnd {
        EndStands(bits, p, max, crcTable, combinedCRC);
        VouchedBy(data, crcTable, outs, p);
      }
    }
  }

  lemma SeenNone(data: seq<int>, small: bool, room: (nat, nat) -> Space, table: seq<bv32>)
    requires IsBytes(data) && |table| == 256 && HeaderAt(BytesToBits(data)).0 != BlockOk
    ensures SeenAll(Unzipped(data, table), small, room) == []
  {
    hide HeaderAt, BytesToBits, Unzip;
  }

  lemma UnderwayStart(data: seq<int>, table: seq<bv32>, max: nat)
    requires IsBytes(data) && |table| == 256
    requires HeaderAt(BytesToBits(data)).0 == BlockOk && max == 100000 * HeaderAt(BytesToBits(data)).1
    ensures Underway(Unzipped(data, table), BytesToBits(data), 32, max, table, 0, [], 0)
  {
    hide HeaderAt, BytesToBits, Unzip;
    var rest := Unzip(BytesToBits(data), 32, max, table, 0);
    assert [] + rest.out == rest.out;
  }

  /** For all data, damaged or not, and all slices of output space the two memory modes report the same, up to the
      store that one as well as the other makes past the end of an array. What they show is the same too, if and only
      if decompression does not stop at a block whose runs are corrupt; there fast mode shows less. */
  method SameInBothModes(data: seq<int>, room: (nat, nat) -> Space, room': (nat, nat) -> Space, crcTable: seq<bv32>)
    returns (fast: (Result, seq<int>), small: (Result, seq<int>))
    requires IsBytes(data) && |crcTable| == 256
    ensures fast.0 == small.0 == Unzipped(data, crcTable).res
    ensures fast.1 <= small.1
    ensures fast.1 == small.1 <==> Unzipped(data, crcTable).tail == []
    ensures fast.0 == ArrayOverrun ==> exists q: nat :: TooMany(BytesToBits(data), q)
  {
    hide Unzip, Compressed, Vouched, Plain, RunEncoder.Joined, Seen, BytesToBits, HeaderAt, TooMany;
    var res, out;
    ghost var outs;
    res, out, outs := Decompress(data, false, room, crcTable, 0, [], [], []);
    fast := (res, out);
    res, out, outs := Decompress(data, true, room', crcTable, 0, [], [], []);
    small := (res, out);
    SeenAllAlike(Unzipped(data, crcTable), room, room');
    if fast.0 == ArrayOverrun {
      UnzipOverrun(BytesToBits(data), 32, 100000 * HeaderAt(BytesToBits(data)).1, crcTable, 0);
    }
  }

  // ---------- compression and the round trip ----------

  /** The input of a list of calls, in order. */
  function Input(calls: seq<(RunEncoder.Action, seq<int>)>): seq<int> {
    if calls == [] then [] else Input(calls[..|calls|-1]) + calls[|calls|-1].1
  }

  /** The run coder fed with all input, then told to finish. */
  method TakeAll(calls: seq<(RunEncoder.Action, seq<int>)>, last: seq<int>, k: nat, crcTable: seq<bv32>)
    returns (blocks: seq<Block>, ghost done: seq<seq<Run>>)
    requires 1 <= k <= 9 && |crcTable| == 256 && IsBytes(last)
    requires forall i :: 0 <= i < |calls| ==> calls[i].0 != RunEncoder.Finish && IsBytes(calls[i].1)
    ensures |done| == |blocks|
    ensures forall i :: 0 <= i < |done| ==> RunEncoder.BlockOf(blocks[i], done[i], crcTable, 100000 * k - 19)
    ensures Plain(RunEncoder.Joined(done)) == Input(calls) + last
  {
    hide Plain, RunEncoder.Joined, CrcBytes, Flatten, Maximal, RunEncoder.BlockOf;
    var s := new RunEncoder.EState(k, crcTable);
    var i := 0;
    assert calls[..0] == [];
    while i < |calls|
      invariant 0 <= i <= |calls| && s.Valid() && s.nblock < s.nblockMAX && s.mode == RunEncoder.Running
      invariant s.Taken() == Input(calls[..i])
      invariant fresh(s) && fresh(s.block) && fresh(s.inUse)
      modifies s, s.block, s.inUse
    {
      assert calls[..i + 1][..i] == calls[..i];
      var _ := s.Compress(calls[i].0, calls[i].1);
      i := i + 1;
    }
    assert calls[..i] == calls;
    var _ := s.Compress(RunEncoder.Finish, last);
    blocks, done := s.blocks, s.done;
    AllTaken(s);
  }

  /** BZ2_bzCompress called with any inputs and flushes in between, then to the end. */
  method Compress(calls: seq<(RunEncoder.Action, seq<int>)>, last: seq<int>, k: nat, crcTable: seq<bv32>)
    returns (z: seq<int>, ghost chs: seq<Choice>, ghost blocks: seq<Block>, ghost done: seq<seq<Run>>)
    requires 1 <= k <= 9 && |crcTable| == 256 && IsBytes(last)
    requires forall i :: 0 <= i < |calls| ==> calls[i].0 != RunEncoder.Finish && IsBytes(calls[i].1)
    ensures IsBytes(z) && Compressed(z, k, chs, blocks, done, crcTable)
    ensures Plain(RunEncoder.Joined(done)) == Input(calls) + last
  {
    hide IsStream, Plain, RunEncoder.Joined, RunEncoder.BlockOf, Codes, Input;
    var taken;
    taken, done := TakeAll(calls, last, k, crcTable);
    blocks := taken;
    AllCodes(blocks, done, crcTable, 100000 * k - 19);
    z, chs := WriteStream(taken, k);
    StreamIsBytes(z, k, chs, blocks);
  }

  lemma StreamIsBytes(z: seq<int>, k: nat, chs: seq<Choice>, blocks: seq<Block>)
    requires IsStream(z, k, chs, blocks)
    ensures IsBytes(z)
  {
    hide StreamBits;
  }

  lemma AllCodes(blocks: seq<Block>, done: seq<seq<Run>>, table: seq<bv32>, max: nat)
    requires |done| == |blocks| && max <= 899981
    requires forall i :: 0 <= i < |done| ==> RunEncoder.BlockOf(blocks[i], done[i], table, max)
    ensures forall i :: 0 <= i < |blocks| ==> Codes(blocks[i])
  {
    hide RunEncoder.BlockOf, Codes;
    forall i | 0 <= i < |blocks|
      ensures Codes(blocks[i])
    {
      BlockCodes(blocks[i], done[i], table, max);
    }
  }

  lemma BlockCodes(b: Block, ps: seq<Run>, table: seq<bv32>, max: nat)
    requires RunEncoder.BlockOf(b, ps, table, max) && max <= 899981
    ensures Codes(b)
  {
    hide Maximal, CrcBytes, Plain;
  }

  /** When the run coder has finished, its blocks hold everything. */
  lemma AllTaken(s: RunEncoder.EState)
    requires s.Valid() && s.stateInCh == RunEncoder.NONE && s.nblock == 0
    ensures s.Taken() == Plain(RunEncoder.Joined(s.done))
  {
    RunEncoder.EmptyRuns(s.runs);
    assert Plain(RunEncoder.Joined(s.done)) + [] + [] == Plain(RunEncoder.Joined(s.done));
  }

  /** What goes in comes out. */
  method RoundTrip(calls: seq<(RunEncoder.Action, seq<int>)>, last: seq<int>, k: nat, small: bool,
                   room: (nat, nat) -> Space, crcTable: seq<bv32>)
    returns (res: Result, out: seq<int>)
    requires 1 <= k <= 9 && |crcTable| == 256 && IsBytes(last)
    requires forall i :: 0 <= i < |calls| ==> calls[i].0 != RunEncoder.Finish && IsBytes(calls[i].1)
    ensures res == StreamEnd && out == Input(calls) + last
  {
    hide Compressed, Plain, RunEncoder.Joined;
    var z;
    ghost var chs, blocks, done, outs;
    z, chs, blocks, done := Compress(calls, last, k, crcTable);
    res, out, outs := Decompress(z, small, room, crcTable, k, chs, blocks, done);
  }
}

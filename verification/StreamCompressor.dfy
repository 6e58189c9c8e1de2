/** The compressed stream: header, blocks, end mark and combined CRC. */
module StreamCompressor {
  import opened Bytes
  import opened Bits
  import opened BitIO
  import opened BlockHeader
  import opened BlockCodec
  import opened BlockCompressor

  /** "BZh" and the block size digit. */
  function StreamMark(blockSize100k: nat): (s: seq<int>)
    requires 1 <= blockSize100k <= 9
    ensures IsBytes(s) && |s| == 4
  {
    [0x42, 0x5a, 0x68, 0x30 + blockSize100k]
  }

  function EndMark(): (s: seq<int>)
    ensures IsBytes(s) && |s| == 6
  {
    [0x17, 0x72, 0x45, 0x38, 0x50, 0x90]
  }

  /** The CRC over the first n block CRCs. */
  function Combined(crcs: seq<bv32>): bv32 {
    if crcs == [] then 0 else Combine(Combined(crcs[..|crcs|-1]), crcs[|crcs|-1])
  }

  /** The finished CRCs of a list of blocks. */
  function BlockCrcs(blocks: seq<Block>): (crcs: seq<bv32>)
    ensures |crcs| == |blocks|
  {
    seq(|blocks|, i requires 0 <= i < |blocks| => Finalise(blocks[i].crc))
  }

  ghost predicate AllFit(chs: seq<Choice>, blocks: seq<Block>) {
    |chs| == |blocks| && forall i :: 0 <= i < |blocks| ==> Fits(chs[i], blocks[i])
  }

  /** The blocks from i on, and the end of the stream. */
  ghost function TailBits(chs: seq<Choice>, blocks: seq<Block>, i: nat): seq<bool>
    requires AllFit(chs, blocks) && i <= |blocks|
    decreases |blocks| - i
  {
    if i == |blocks| then MarkBits(EndMark(), 0) + ToBits(CrcNumber(Combined(BlockCrcs(blocks))), 32)
    else MarkBits(BlockMark(), 0) + (CodeBits(chs[i], blocks[i]) + TailBits(chs, blocks, i + 1))
  }

  ghost function StreamBits(blockSize100k: nat, chs: seq<Choice>, blocks: seq<Block>): seq<bool>
    requires 1 <= blockSize100k <= 9 && AllFit(chs, blocks)
  {
    MarkBits(StreamMark(blockSize100k), 0) + TailBits(chs, blocks, 0)
  }

  /** z is a stream for these blocks, padded to whole bytes. */
  ghost predicate IsStream(z: seq<int>, blockSize100k: nat, chs: seq<Choice>, blocks: seq<Block>) {
    && 1 <= blockSize100k <= 9 && AllFit(chs, blocks) && IsBytes(z)
    && Has(BytesToBits(z), 0, StreamBits(blockSize100k, chs, blocks))
    && 8 * |z| < |StreamBits(blockSize100k, chs, blocks)| + 8
  }

  lemma TailStep(chs: seq<Choice>, blocks: seq<Block>, i: nat)
    requires AllFit(chs, blocks) && i < |blocks|
    ensures TailBits(chs, blocks, i) ==
        MarkBits(BlockMark(), 0) + (CodeBits(chs[i], blocks[i]) + TailBits(chs, blocks, i + 1))
  {
  }

  lemma TailEnd(chs: seq<Choice>, blocks: seq<Block>)
    requires AllFit(chs, blocks)
    ensures TailBits(chs, blocks, |blocks|) ==
        MarkBits(EndMark(), 0) + ToBits(CrcNumber(Combined(BlockCrcs(blocks))), 32)
  {
  }

  lemma CombineNext(blocks: seq<Block>, i: nat)
    requires i < |blocks|
    ensures Combined(BlockCrcs(blocks[..i + 1])) == Combine(Combined(BlockCrcs(blocks[..i])), Finalise(blocks[i].crc))
  {
    assert BlockCrcs(blocks[..i + 1])[..i] == BlockCrcs(blocks[..i]);
  }

  /** What has been written when the first i blocks are out. */
  ghost function HeadBits(start: seq<bool>, chs: seq<Choice>, blocks: seq<Block>): seq<bool>
    requires |chs| <= |blocks| && AllFit(chs, blocks[..|chs|])
  {
    if chs == [] then start
    else
      var n := |chs| - 1;
      ShorterFit(chs, blocks);
      HeadBits(start, chs[..n], blocks) + MarkBits(BlockMark(), 0) + CodeBits(chs[n], blocks[n])
  }

  lemma ShorterFit(chs: seq<Choice>, blocks: seq<Block>)
    requires 0 < |chs| <= |blocks| && AllFit(chs, blocks[..|chs|])
    ensures AllFit(chs[..|chs|-1], blocks[..|chs|-1]) && Fits(chs[|chs|-1], blocks[|chs|-1])
  {
    hide Fits;
    assert blocks[..|chs|][|chs|-1] == blocks[|chs|-1];
    var fewer, shorter := chs[..|chs|-1], blocks[..|chs|-1];
    forall i | 0 <= i < |fewer|
      ensures Fits(fewer[i], shorter[i])
    {
      assert blocks[..|chs|][i] == blocks[i];
    }
  }

  lemma HeadNext(start: seq<bool>, chs: seq<Choice>, ch: Choice, blocks: seq<Block>)
    requires |chs| < |blocks| && AllFit(chs, blocks[..|chs|]) && Fits(ch, blocks[|chs|])
    ensures AllFit(chs + [ch], blocks[..|chs| + 1])
    ensures HeadBits(start, chs + [ch], blocks) ==
            HeadBits(start, chs, blocks) + MarkBits(BlockMark(), 0) + CodeBits(ch, blocks[|chs|])
  {
    hide Fits, CodeBits, MarkBits;
    var all := chs + [ch];
    forall i | 0 <= i < |all|
      ensures Fits(all[i], blocks[..|all|][i])
    {
      if i < |chs| {
        assert blocks[..|chs|][i] == blocks[i];
      }
    }
    assert all[..|chs|] == chs;
  }

  /** Head and tail make up the whole. */
  lemma {:induction false} HeadTail(start: seq<bool>, chs: seq<Choice>, blocks: seq<Block>, i: nat)
    requires AllFit(chs, blocks) && i <= |blocks|
    ensures AllFit(chs[..i], blocks[..i])
    ensures HeadBits(start, chs[..i], blocks) + TailBits(chs, blocks, i) == start + TailBits(chs, blocks, 0)
    decreases i
  {
    hide Fits, CodeBits, MarkBits, TailBits;
    if i > 0 {
      HeadTail(start, chs, blocks, i - 1);
      TailStep(chs, blocks, i - 1);
      HeadNext(start, chs[..i-1], chs[i-1], blocks);
      assert chs[..i-1] + [chs[i-1]] == chs[..i];
      Pieces(HeadBits(start, chs[..i-1], blocks), MarkBits(BlockMark(), 0), CodeBits(chs[i-1], blocks[i-1]),
          TailBits(chs, blocks, i));
    }
  }

  lemma Pieces(s: seq<bool>, a: seq<bool>, b: seq<bool>, c: seq<bool>)
    ensures s + a + b + c == s + (a + (b + c))
  {
  }

  /** Writes the blocks handed over during a run, as BZ2_compressBlock does one by one: the header in front of
      the first, the trailer and the padding behind the last. */
  method WriteStream(blocks: seq<Block>, blockSize100k: nat) returns (z: seq<int>, ghost chs: seq<Choice>)
    requires 1 <= blockSize100k <= 9 && forall i :: 0 <= i < |blocks| ==> Codes(blocks[i])
    ensures IsStream(z, blockSize100k, chs, blocks)
  {
    hide Fits, CodeBits, MarkBits, Codes, Combined, BlockCrcs, ToBits, Combine, Finalise, CrcNumber, TailBits, Pow2;
    var w := new BitWriter();
    WriteMark(w, StreamMark(blockSize100k));
    ghost var start := MarkBits(StreamMark(blockSize100k), 0);
    assert w.Written() == start by {
      assert [] + start == start;
    }
    chs := [];
    var combinedCRC := 0;
    NothingCombined(blocks);
    var i := 0;
    while i < |blocks|
      invariant 0 <= i <= |blocks| && |chs| == i && w.Valid() && AllFit(chs, blocks[..i])
      invariant w.Written() == HeadBits(start, chs, blocks)
      invariant combinedCRC == Combined(BlockCrcs(blocks[..i]))
    {
      CombineNext(blocks, i);
      combinedCRC := Combine(combinedCRC, Finalise(blocks[i].crc));
      ghost var ch := CompressBlock(w, blocks[i]);
      HeadNext(start, chs, ch, blocks);
      chs := chs + [ch];
      i := i + 1;
    }
    assert blocks[..i] == blocks;
    WriteMark(w, EndMark());
    PutUInt32(w, CrcNumber(combinedCRC));
    HeadTail(start, chs, blocks, i);
    assert chs[..i] == chs;
    TailEnd(chs, blocks);
    Together(HeadBits(start, chs, blocks), MarkBits(EndMark(), 0), ToBits(CrcNumber(combinedCRC), 32));
    w.Finish();
    z := w.zbits;
    Whole(BytesToBits(z), StreamBits(blockSize100k, chs, blocks));
  }

  lemma NothingCombined(blocks: seq<Block>)
    ensures Combined(BlockCrcs(blocks[..0])) == 0
  {
  }

  lemma Together(s: seq<bool>, a: seq<bool>, b: seq<bool>)
    ensures s + a + b == s + (a + b)
  {
  }

  lemma Whole(bits: seq<bool>, s: seq<bool>)
    requires s <= bits
    ensures Has(bits, 0, s)
  {
  }
}

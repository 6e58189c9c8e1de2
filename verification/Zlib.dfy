/** zlib from end to end: what deflate writes, for any input in any pieces with any flushes, inflate reads back. */
module Zlib {
  import opened Bits
  import opened BlockCoder
  import opened BlockTiming
  import opened Bytes
  import opened Deflate
  import opened DeflateBlock
  import opened DeflateEncoder
  import opened DeflateStream
  import opened HashChain
  import opened InflateHeader
  import opened InflateStream
  import opened Lz77
  import opened PlanReading
  import opened ZBits

  lemma {:induction false} BlocksPrefix(events: seq<Event>, i: nat)
    requires i <= |events|
    ensures BlocksOf(events[..i]) <= BlocksOf(events)
    decreases |events|
  {
    if i == |events| {
      assert events[..i] == events;
    } else {
      var n := |events| - 1;
      BlocksPrefix(events[..n], i);
      assert events[..n][..i] == events[..i];
    }
  }

  /** The i-th event within all of them. */
  lemma NextEvent(events: seq<Event>, i: nat)
    requires i < |events|
    ensures var k := |BlocksOf(events[..i])|;
      var blocks := BlocksOf(events);
      k <= |blocks| && BlocksOf(events[..i]) == blocks[..k]
      && if events[i].Emit? then
           k < |blocks| && events[i].block == blocks[k] && BlocksOf(events[..i + 1]) == blocks[..k + 1]
         else BlocksOf(events[..i + 1]) == blocks[..k]
  {
    BlocksPrefix(events, i);
    BlocksPrefix(events, i + 1);
    assert events[..i + 1][..i] == events[..i];
  }

  /** Everything but the final block, as long as tokens are read in time. */
  method EncodeAll(c: Coder, events: seq<Event>, ghost m: int) returns (inTime: bool, ghost pieces: seq<Piece>)
    requires c.Shape() && c.Static() && c.Tallied() && c.tokens == [] && c.sink.Written() == []
    requires events != [] && events[|events| - 1].Emit?
    requires
      var blocks := BlocksOf(events);
      blocks != [] && Upcoming(c, blocks, |blocks| - 1, m) && NoneLast(blocks[..|blocks| - 1])
    modifies c`tokens, c`lastLit, c.sink, c.overlay, c.trees, c.trees.heap, c.trees.depth, c.trees.blCount
    modifies c.lfc, c.ldl, c.dfc, c.ddl, c.bfc, c.bdl
    ensures inTime ==> c.Static() && c.Tallied() && c.tokens == []
    ensures
      var blocks := BlocksOf(events);
      && (inTime ==> Underway(c.sink.Written(), pieces, Expand(TokensOf(blocks[..|blocks| - 1]))))
      && Cut(pieces, blocks, c.fixed) && (inTime <==> AllInTime(pieces, c.litBufsize))
      && (AllSafe(blocks, c.litBufsize, c.fixed) ==> inTime)
  {
    hide Coder.Tallied, Coder.Static, Coder.Shape, Underway, Expand, AllLegal, AllTexts, BlocksOf, AllInTime, AllMade,
         IsPlan, StreamSound, StreamOut, Safe;
    var blocks := BlocksOf(events);
    inTime, pieces := true, [];
    EncodeStart(blocks, c.litBufsize, c.fixed);
    assert events[..0] == [] && blocks[..0] == [];
    c.SinkValid();
    var i, k := 0, 0;
    while inTime && i < |events| - 1
      invariant 0 <= i <= |events| - 1 && 0 <= k <= |blocks| && BlocksOf(events[..i]) == blocks[..k]
      invariant inTime ==> c.Static() && c.Tallied() && c.tokens == [] && c.sink.Valid()
      invariant inTime ==> Underway(c.sink.Written(), pieces, Expand(TokensOf(blocks[..k])))
      invariant Chained(pieces, Expand(TokensOf(blocks[..k]))) && AllMade(pieces, blocks, c.fixed)
      invariant inTime <==> AllInTime(pieces, c.litBufsize)
      invariant AllSafe(blocks, c.litBufsize, c.fixed) ==> inTime
      decreases |events| - i
      modifies c`tokens, c`lastLit, c.sink, c.overlay, c.trees, c.trees.heap, c.trees.depth, c.trees.blCount, c.lfc,
               c.ldl, c.dfc, c.ddl, c.bfc, c.bdl
    {
      NextEvent(events, i);
      match events[i] {
        case Emit(b) =>
          NotYetLast(events, i);
          inTime, pieces := EncodeBlock(c, blocks, k, pieces, m);
          k := k + 1;
        case Mark(r) =>
          pieces := EncodeMark(c, r, pieces, Expand(TokensOf(blocks[..k])), blocks);
          c.SinkValid();
          IsChained(c.sink.Written(), pieces, Expand(TokensOf(blocks[..k])));
      }
      if inTime {
        c.SinkValid();
      }
      i := i + 1;
    }
    LastEvent(events);
    PrefixOut(blocks, k);
    assert Chained(pieces, Expand(TokensOf(blocks[..k])));
  }

  /** The pieces are what a beginning of the blocks becomes. */
  ghost predicate Cut(pieces: seq<Piece>, blocks: seq<Block>, fixed: bool) {
    && AllMade(pieces, blocks, fixed)
    && exists out :: Chained(pieces, out) && out <= Expand(TokensOf(blocks))
  }

  lemma EncodeStart(blocks: seq<Block>, n: nat, fixed: bool)
    ensures Underway([], [], []) && Chained([], []) && AllMade([], blocks, fixed) && AllInTime([], n)
    ensures BlocksOf([]) == [] && Expand(TokensOf([])) == []
  {
  }

  lemma IsChained(written: seq<bool>, pieces: seq<Piece>, out: seq<int>)
    requires Underway(written, pieces, out)
    ensures Chained(pieces, out)
  {
    hide Chained;
  }

  /** What the first blocks stand for comes first. */
  lemma PrefixOut(blocks: seq<Block>, k: nat)
    requires k <= |blocks|
    ensures Expand(TokensOf(blocks[..k])) <= Expand(TokensOf(blocks))
  {
    hide Expand, TokensOf;
    var more := TokensTo(blocks, k);
    ExpandPrefix(TokensOf(blocks[..k]), more);
  }

  /** Before the last event there are blocks, but not all of them. */
  lemma NotYetLast(events: seq<Event>, i: nat)
    requires i < |events| - 1 && events[i].Emit? && events[|events| - 1].Emit?
    ensures |BlocksOf(events[..i])| + 1 < |BlocksOf(events)|
  {
    var n := |events| - 1;
    BlocksPrefix(events[..n], i + 1);
    assert events[..n][..i + 1] == events[..i + 1];
    assert events[..i + 1][..i] == events[..i];
  }

  lemma LastEvent(events: seq<Event>)
    requires events != [] && events[|events| - 1].Emit?
    ensures |BlocksOf(events[..|events| - 1])| == |BlocksOf(events)| - 1
  {
  }

  // ---------- when everything is sent right ----------

  /** What a caller can see beforehand: only literals, so little input that the output stays short, or the strategy
      Z_FIXED with the smallest window. */
  predicate Harmless(strategy: Strategy, w: nat, n: nat, size: nat) {
    strategy == HuffmanOnly || 31 * size + 16 <= 8 * n || (strategy == Fixed && w == 512)
  }

  lemma {:induction false} LegalDists(a: seq<Token>, b: seq<Token>, m: int)
    requires AllLegal(a + b, m)
    ensures forall i :: 0 <= i < |b| && b[i].Match? ==> b[i].dist <= m
    decreases |b|
  {
    hide Expand;
    if b != [] {
      var u, t := b[..|b|-1], b[|b|-1];
      assert a + b == (a + u) + [t];
      ExpandAppend(a + u, t);
      LegalDists(a, u, m);
    }
  }

  /** No block has more tokens than all of them stand for bytes. */
  lemma FewTokens(blocks: seq<Block>, k: nat, m: int)
    requires k < |blocks| && AllLegal(TokensOf(blocks), m)
    ensures |blocks[k].tokens| <= |Expand(TokensOf(blocks))|
    ensures forall i :: 0 <= i < |blocks[k].tokens| && blocks[k].tokens[i].Match? ==> blocks[k].tokens[i].dist <= m
  {
    hide Expand, AllLegal, TokensOf;
    var more := TokensTo(blocks, k + 1);
    LegalPrefix(TokensOf(blocks[..k + 1]), more, m);
    assert blocks[..k + 1] == blocks[..k] + [blocks[k]];
    TokensAppend(blocks[..k], blocks[k]);
    OneEach(TokensOf(blocks[..k]), blocks[k].tokens, m);
    LegalDists(TokensOf(blocks[..k]), blocks[k].tokens, m);
    PrefixOut(blocks, k + 1);
  }

  lemma HarmlessIsSafe(blocks: seq<Block>, strategy: Strategy, w: nat, n: nat)
    requires AllTexts(blocks, n) && AllLegal(TokensOf(blocks), w - MIN_LOOKAHEAD)
    requires strategy == HuffmanOnly ==> LitBlocks(blocks)
    requires Harmless(strategy, w, n, |Expand(TokensOf(blocks))|)
    ensures AllSafe(blocks, n, strategy == Fixed)
  {
    hide Expand, AllLegal, TokensOf, AllTexts;
    forall k | 0 <= k < |blocks|
      ensures Safe(blocks[k].tokens, n, strategy == Fixed)
    {
      FewTokens(blocks, k, w - MIN_LOOKAHEAD);
      ShortBlock(blocks, k, n);
    }
  }

  // ---------- from end to end ----------

  /** deflate: the stream for some input. It consists of the blocks of the input in their best forms, and it is what
      inflate reads back, if and only if in none of them the output reaches a token before it is read. */
  method Compress(d: Dims, level: nat, strategy: Strategy, litBufsize: nat, chunks: seq<Chunk>)
    returns (inTime: bool, data: seq<int>, ghost blocks: seq<Block>, ghost pieces: seq<Piece>)
    requires IsDims(d) && 1 <= level <= 9 && 3 <= litBufsize <= 0x8000
    requires forall i :: 0 <= i < |chunks| ==> AreBytes(chunks[i].bytes)
    ensures Expand(TokensOf(blocks)) == Joined(chunks) && AllLegal(TokensOf(blocks), d.w - MIN_LOOKAHEAD)
    ensures Cut(pieces, blocks, strategy == Fixed) && (inTime <==> AllInTime(pieces, litBufsize))
    ensures Harmless(strategy, d.w, litBufsize, |Joined(chunks)|) ==> inTime
    ensures inTime ==> IsBytes(data) && Inflates(LowBits(data), Joined(chunks))
  {
    hide Coder.Tallied, Coder.Static, Coder.Shape, Underway, Expand, AllLegal, AllTexts, BlocksOf, LowBits, ReadBlocks,
         AllInTime, AllMade, Safe, Harmless, Inflates, Joined, LitBlocks;
    var events := Tokenize(d, level, strategy, litBufsize, chunks);
    ghost var m := d.w - MIN_LOOKAHEAD;
    var sink := new BitSink();
    var c := new Coder(sink, strategy == Fixed, litBufsize);
    var inBlocks := BlocksOf(events);
    blocks := inBlocks;
    if Harmless(strategy, d.w, litBufsize, |Joined(chunks)|) {
      HarmlessIsSafe(blocks, strategy, d.w, litBufsize);
    }
    data := [];
    inTime, pieces := EncodeAll(c, events, m);
    if !inTime {
      return;
    }
    inTime, pieces := EncodeLast(c, inBlocks, pieces, m);
    if inTime {
      Aligned(sink);
    }
    data := sink.pending;
  }

  /** Compressing and decompressing gives the input back, for every level from 1 to 9, every cutting of the input and
      every flush, and leaves nothing over, if no token is written over before it is read: for every strategy on little
      input, always for Z_HUFFMAN_ONLY, and for Z_FIXED with the smallest window. */
  method RoundTrip(d: Dims, level: nat, strategy: Strategy, litBufsize: nat, chunks: seq<Chunk>, room: nat)
    returns (inTime: bool, st: Status, out: seq<int>, unused: nat, ghost blocks: seq<Block>, ghost pieces: seq<Piece>)
    requires IsDims(d) && 1 <= level <= 9 && 3 <= litBufsize <= 0x8000
    requires forall i :: 0 <= i < |chunks| ==> AreBytes(chunks[i].bytes)
    requires room >= |Joined(chunks)|
    ensures Expand(TokensOf(blocks)) == Joined(chunks) && Cut(pieces, blocks, strategy == Fixed)
    ensures inTime <==> AllInTime(pieces, litBufsize)
    ensures Harmless(strategy, d.w, litBufsize, |Joined(chunks)|) ==> inTime
    ensures inTime ==> st == Done && out == Joined(chunks) && unused == 0
  {
    hide LowBits, ReadBlocks, Joined, AllInTime, AllMade, Chained, Harmless, Expand, TokensOf;
    var data;
    inTime, data, blocks, pieces := Compress(d, level, strategy, litBufsize, chunks);
    st, out, unused := Done, [], 0;
    if inTime {
      st, out, unused := Inflate(data, room);
      assert ReadBlocks(LowBits(data), [], room).Next?;
    }
  }
}

/** deflate as its callers see it: input in pieces of any size, with flushes of any kind in between, becomes blocks of
    tokens that stand for exactly that input. */
module DeflateStream {
  import opened Deflate
  import opened HashChain
  import opened Lz77

  datatype Strategy = Default | Filtered | HuffmanOnly | Rle | Fixed

  /** The compression function of a level above zero. */
  datatype Matching = Greedy | Lazy

  /** configuration_table for the levels 1 to 9. */
  function ConfigOf(level: nat): Config
    requires 1 <= level <= 9
  {
    match level
    case 1 => Config(4, 4, 8, 4)
    case 2 => Config(4, 5, 16, 8)
    case 3 => Config(4, 6, 32, 32)
    case 4 => Config(4, 4, 16, 16)
    case 5 => Config(8, 16, 32, 32)
    case 6 => Config(8, 16, 128, 128)
    case 7 => Config(8, 32, 128, 256)
    case 8 => Config(32, 128, 258, 1024)
    case _ => Config(32, 258, 258, 4096)
  }

  function MatchingOf(level: nat): Matching {
    if level <= 3 then Greedy else Lazy
  }

  /** What holds between two calls, depending on which compression function is in use. */
  ghost predicate Resting(s: Deflater, level: nat, strategy: Strategy)
    reads s, s.window, s.head, s.prev, s.dBuf, s.lBuf
  {
    if strategy == HuffmanOnly then s.Between(s.base + s.strstart) && s.Literals()
    else if strategy == Rle then s.Between(s.base + s.strstart)
    else if MatchingOf(level) == Greedy then s.Greedy()
    else s.Lazy()
  }

  /** The central part of deflate(): the compression function that level and strategy select. */
  method Call(s: Deflater, level: nat, strategy: Strategy, flush: Flush) returns (st: BlockState)
    requires 1 <= level <= 9 && Resting(s, level, strategy)
    modifies s, s.window, s.head, s.prev, s.dBuf, s.lBuf
    ensures s.input + s.availIn == old(s.input + s.availIn)
    ensures st == FinishDone || st == FinishStarted ==> flush == Finish && s.availIn == [] && s.Finished()
    ensures strategy == HuffmanOnly ==> LitBlocks(s.flushed)
    ensures st == NeedMore || st == BlockDone ==> Resting(s, level, strategy)
    ensures st == NeedMore && flush == Finish ==> s.lookahead + |s.availIn| < old(s.lookahead + |s.availIn|)
    ensures st == BlockDone ==> flush == OtherFlush && s.lookahead == 0 && s.availIn == [] && s.lastLit == 0
    ensures old(s.flushed) <= s.flushed
    ensures st == BlockDone && strategy != HuffmanOnly && strategy != Rle && MatchingOf(level) == Lazy ==>
        !s.matchAvailable
  {
    if strategy == HuffmanOnly {
      st := s.DeflateHuff(flush);
    } else if strategy == Rle {
      st := s.DeflateRle(flush);
    } else if MatchingOf(level) == Greedy {
      st := s.DeflateFast(flush);
    } else {
      st := s.DeflateSlow(flush);
    }
  }

  // ---------- calls ----------

  /** What a caller asks for beyond compressing: nothing, Z_BLOCK, Z_PARTIAL_FLUSH, Z_SYNC_FLUSH or Z_FULL_FLUSH. */
  datatype Request = Continue | EndBlock | Partial | Sync | Full

  function FlushOf(r: Request): Flush {
    if r == Continue then NoFlush else OtherFlush
  }

  /** One call of a caller: more input, and how it is to be flushed. */
  datatype Chunk = Chunk(bytes: seq<int>, request: Request)

  function Joined(chunks: seq<Chunk>): seq<int> {
    if chunks == [] then [] else Joined(chunks[..|chunks|-1]) + chunks[|chunks|-1].bytes
  }

  lemma JoinedNext(chunks: seq<Chunk>, i: nat)
    requires i < |chunks|
    ensures Joined(chunks[..i + 1]) == Joined(chunks[..i]) + chunks[i].bytes
  {
    assert chunks[..i + 1][..i] == chunks[..i];
  }

  /** More input; bytes not taken before are offered again in front of it. */
  method Offer(s: Deflater, level: nat, strategy: Strategy, bytes: seq<int>)
    requires Resting(s, level, strategy) && AreBytes(bytes)
    modifies s`availIn
    ensures Resting(s, level, strategy) && s.availIn == old(s.availIn) + bytes
  {
    hide Deflater.Window, Deflater.Dictionary, Deflater.Tallied, Deflater.Ready;
    s.availIn := s.availIn + bytes;
  }

  /** What a full flush does to the matcher: its history is forgotten. */
  method Forget(s: Deflater, level: nat, strategy: Strategy)
    requires Resting(s, level, strategy) && s.lookahead == 0 && s.lastLit == 0
    requires strategy != HuffmanOnly && strategy != Rle && MatchingOf(level) == Lazy ==> !s.matchAvailable
    modifies s`ins, s`base, s`strstart, s`blockStart, s`insert, s.head
    ensures Resting(s, level, strategy)
  {
    hide Deflater.Window, Deflater.Dictionary, Deflater.Tallied, Deflater.Ready;
    s.ForgetHistory();
  }

  /** One call that does not finish the stream. */
  method Step(s: Deflater, level: nat, strategy: Strategy, chunk: Chunk) returns (st: BlockState)
    requires 1 <= level <= 9 && Resting(s, level, strategy) && AreBytes(chunk.bytes)
    modifies s, s.window, s.head, s.prev, s.dBuf, s.lBuf
    ensures Resting(s, level, strategy) && s.input + s.availIn == old(s.input + s.availIn) + chunk.bytes
    ensures (st == NeedMore || st == BlockDone) && (st == BlockDone ==> chunk.request != Continue)
    ensures old(s.flushed) <= s.flushed
  {
    hide Resting;
    ghost var taken, left := s.input, s.availIn;
    Offer(s, level, strategy, chunk.bytes);
    assert s.input + s.availIn == (taken + left) + chunk.bytes;
    st := Call(s, level, strategy, FlushOf(chunk.request));
    if st == BlockDone && chunk.request == Full {
      Forget(s, level, strategy);
    }
  }

  // ---------- what goes to the trees ----------

  /** A block to be sent, or the mark that a flush puts behind the blocks so far. */
  datatype Event = Emit(block: Block) | Mark(request: Request)

  function BlocksOf(events: seq<Event>): seq<Block> {
    if events == [] then []
    else
      var e := events[|events|-1];
      BlocksOf(events[..|events|-1]) + (if e.Emit? then [e.block] else [])
  }

  function Emitted(blocks: seq<Block>): (e: seq<Event>)
    ensures |e| == |blocks|
  {
    seq(|blocks|, i requires 0 <= i < |blocks| => Emit(blocks[i]))
  }

  lemma {:induction false} EmittedBlocks(events: seq<Event>, blocks: seq<Block>)
    ensures BlocksOf(events + Emitted(blocks)) == BlocksOf(events) + blocks
    decreases |blocks|
  {
    if blocks == [] {
      assert events + Emitted(blocks) == events;
    } else {
      var n := |blocks| - 1;
      EmittedBlocks(events, blocks[..n]);
      var all := events + Emitted(blocks);
      assert all[..|all| - 1] == events + Emitted(blocks[..n]);
      assert blocks == blocks[..n] + [blocks[n]];
    }
  }

  lemma MarkedBlocks(events: seq<Event>, r: Request)
    ensures BlocksOf(events + [Mark(r)]) == BlocksOf(events)
  {
    assert (events + [Mark(r)])[..|events|] == events;
  }

  /** Any number of calls with any pieces of input and any flushes, then finishing: the blocks that come out stand for
      exactly the bytes that went in, every match within reach, and only the final block, which comes last, is marked
      last. */
  method Tokenize(d: Dims, level: nat, strategy: Strategy, litBufsize: nat, chunks: seq<Chunk>)
    returns (events: seq<Event>)
    requires IsDims(d) && 1 <= level <= 9 && 3 <= litBufsize <= 0x8000
    requires forall i :: 0 <= i < |chunks| ==> AreBytes(chunks[i].bytes)
    ensures var blocks := BlocksOf(events);
      && Expand(TokensOf(blocks)) == Joined(chunks) && AllLegal(TokensOf(blocks), d.w - MIN_LOOKAHEAD)
      && blocks != [] && blocks[|blocks| - 1].last && NoneLast(blocks[..|blocks| - 1])
      && AllTexts(blocks, litBufsize)
    ensures events != [] && events[|events| - 1].Emit?
    ensures strategy == HuffmanOnly ==> LitBlocks(BlocksOf(events))
  {
    hide Resting, AllLegal, Expand, AllTexts, BlocksOf, Emitted;
    var s := new Deflater(d, ConfigOf(level), strategy == Filtered, litBufsize);
    StartsResting(s, level, strategy);
    events := [];
    NoBlocks();
    var i := 0;
    while i < |chunks|
      invariant 0 <= i <= |chunks| && Resting(s, level, strategy) && s.input + s.availIn == Joined(chunks[..i])
      invariant fresh(s) && fresh(s.window) && fresh(s.head) && fresh(s.prev) && fresh(s.dBuf) && fresh(s.lBuf)
      invariant s.d == d && s.dBuf.Length == litBufsize
      invariant BlocksOf(events) == s.flushed
    {
      JoinedNext(chunks, i);
      ghost var was := s.flushed;
      var done := |s.flushed|;
      var st := Step(s, level, strategy, chunks[i]);
      EmittedBlocks(events, s.flushed[done..]);
      assert was + s.flushed[done..] == s.flushed;
      events := events + Emitted(s.flushed[done..]);
      if st == BlockDone {
        MarkedBlocks(events, chunks[i].request);
        events := events + [Mark(chunks[i].request)];
      }
      i := i + 1;
    }
    assert chunks[..i] == chunks;
    events := Complete(s, level, strategy, events);
  }

  lemma NoBlocks()
    ensures BlocksOf([]) == []
  {
  }

  /** Calls with Z_FINISH until the stream is complete. */
  method Complete(s: Deflater, level: nat, strategy: Strategy, before: seq<Event>) returns (events: seq<Event>)
    requires 1 <= level <= 9 && Resting(s, level, strategy) && BlocksOf(before) == s.flushed
    modifies s, s.window, s.head, s.prev, s.dBuf, s.lBuf
    ensures BlocksOf(events) == s.flushed && s.Finished() && s.input == old(s.input + s.availIn)
    ensures strategy == HuffmanOnly ==> LitBlocks(s.flushed)
    ensures events != [] && events[|events| - 1].Emit?
  {
    hide Resting, AllLegal, Expand, AllTexts, BlocksOf;
    var done := |s.flushed|;
    NoneLastYet(s, level, strategy);
    ghost var was := s.flushed;
    while true
      invariant Resting(s, level, strategy) && s.input + s.availIn == old(s.input + s.availIn)
      invariant old(s.flushed) <= s.flushed
      decreases s.lookahead + |s.availIn|
    {
      var st := Call(s, level, strategy, Finish);
      if st != NeedMore {
        break;
      }
    }
    assert s.input + [] == s.input;
    assert was <= s.flushed && |s.flushed| > done;
    EmittedBlocks(before, s.flushed[done..]);
    events := before + Emitted(s.flushed[done..]);
  }

  lemma NoneLastYet(s: Deflater, level: nat, strategy: Strategy)
    requires Resting(s, level, strategy)
    ensures NoneLast(s.flushed)
  {
    hide Deflater.Window, Deflater.Dictionary, Deflater.Ready, Expand, AllLegal, AllTexts;
  }

  lemma StartsResting(s: Deflater, level: nat, strategy: Strategy)
    requires s.Shape() && s.Window() && s.Dictionary() && s.Tallied(0) && s.Ready() && s.lastLit == 0 && s.strstart == 0
    requires s.base == 0 && s.flushed == []
    requires s.matchLength == s.prevLength == MIN_MATCH - 1 && !s.matchAvailable && s.availIn == [] && s.blockStart == 0
    ensures Resting(s, level, strategy)
  {
    hide Deflater.Window, Deflater.Dictionary, Deflater.Tallied, Deflater.Ready;
  }
}

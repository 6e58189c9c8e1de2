/** The second half of deflate: tallied blocks and the marks of flushes become the bits of a stream. */
module DeflateEncoder {
  import opened Bits
  import opened BlockCoder
  import opened BlockCost
  import opened BlockTiming
  import opened Bytes
  import opened Deflate
  import opened DeflateBlock
  import opened DeflateStream
  import opened InflateSpec
  import opened InflateStream
  import opened Lz77
  import opened PlanReading
  import opened SyncSearch
  import opened TokenCode
  import opened TreeTransmission
  import Overlay

  // ---------- what deflate's tokens can be ----------

  lemma {:induction false} InReachAppend(out: seq<int>, tokens: seq<Token>, t: Token)
    requires InReach(out, tokens, 0)
    requires t.Match? ==> 1 <= t.dist <= |ExpandOnto(out, tokens)| && t.len >= 0
    ensures InReach(out, tokens + [t], 0)
    decreases |tokens|
  {
    hide Grow;
    if tokens == [] {
      assert ([] + [t])[1..] == [];
    } else {
      assert (tokens + [t])[0] == tokens[0] && (tokens + [t])[1..] == tokens[1..] + [t];
      InReachAppend(Grow(out, tokens[0]), tokens[1..], t);
    }
  }

  lemma ExpandSplit(a: seq<Token>, b: seq<Token>)
    ensures Expand(a + b) == ExpandOnto(Expand(a), b)
  {
    OntoIsExpand(a + b);
    OntoIsExpand(a);
    OntoConcat([], a, b);
  }

  /** Legal tokens reach only over what is there, and can be coded. */
  lemma {:induction false} LegalInReach(a: seq<Token>, b: seq<Token>, m: int)
    requires AllLegal(a + b, m) && m <= 32768
    ensures InReach(Expand(a), b, 0) && AllCodable(b)
    decreases |b|
  {
    hide Expand;
    if b != [] {
      var u, t := b[..|b|-1], b[|b|-1];
      assert a + b == (a + u) + [t] && b == u + [t];
      ExpandAppend(a + u, t);
      LegalInReach(a, u, m);
      ExpandSplit(a, u);
      InReachAppend(Expand(a), u, t);
    }
  }

  lemma {:induction false} LegalPrefix(a: seq<Token>, b: seq<Token>, m: int)
    requires AllLegal(a + b, m)
    ensures AllLegal(a, m)
    decreases |b|
  {
    if b == [] {
      assert a + b == a;
    } else {
      var u, t := b[..|b|-1], b[|b|-1];
      assert a + b == (a + u) + [t];
      ExpandAppend(a + u, t);
      LegalPrefix(a, u, m);
    }
  }

  // ---------- streams grow block by block ----------

  lemma {:induction false} StreamBitsAppend(pieces: seq<Piece>, p: Piece, at: nat)
    requires IsPlan(p.plan) && forall i :: 0 <= i < |pieces| ==> IsPlan(pieces[i].plan)
    ensures forall i :: 0 <= i < |pieces + [p]| ==> IsPlan((pieces + [p])[i].plan)
    ensures StreamBits(pieces + [p], at) ==
        StreamBits(pieces, at) + PlanBits(p.plan, p.last, at + |StreamBits(pieces, at)|)
    decreases |pieces|
  {
    hide IsPlan, PlanBits;
    if pieces == [] {
      assert ([] + [p])[1..] == [];
      assert StreamBits([p], at) == PlanBits(p.plan, p.last, at) + StreamBits([], at + |PlanBits(p.plan, p.last, at)|);
    } else {
      var b := PlanBits(pieces[0].plan, pieces[0].last, at);
      assert (pieces + [p])[0] == pieces[0] && (pieces + [p])[1..] == pieces[1..] + [p];
      StreamBitsAppend(pieces[1..], p, at + |b|);
      var x := StreamBits(pieces[1..], at + |b|);
      var y := PlanBits(p.plan, p.last, at + |b| + |x|);
      assert b + (x + y) == b + x + y;
    }
  }

  lemma {:induction false} StreamAppend(pieces: seq<Piece>, p: Piece, out: seq<int>)
    requires StreamSound(pieces, out) && Sound(p.plan, StreamOut(pieces, out))
    ensures StreamSound(pieces + [p], out) && StreamOut(pieces + [p], out) == After(p.plan, StreamOut(pieces, out))
    decreases |pieces|
  {
    hide After, Sound;
    if pieces == [] {
      assert ([] + [p])[1..] == [];
    } else {
      assert (pieces + [p])[0] == pieces[0] && (pieces + [p])[1..] == pieces[1..] + [p];
      StreamAppend(pieces[1..], p, After(pieces[0].plan, out));
    }
  }

  /** Sound blocks that stand for out. */
  ghost predicate Chained(pieces: seq<Piece>, out: seq<int>) {
    && StreamSound(pieces, []) && (forall i :: 0 <= i < |pieces| ==> IsPlan(pieces[i].plan))
    && StreamOut(pieces, []) == out
  }

  /** What has been written so far is a stream of sound blocks, none of them final, that stands for out. */
  ghost predicate Underway(written: seq<bool>, pieces: seq<Piece>, out: seq<int>) {
    && Chained(pieces, out) && (forall i :: 0 <= i < |pieces| ==> !pieces[i].last)
    && written == StreamBits(pieces, 0)
  }

  lemma UnderwayNext(written: seq<bool>, pieces: seq<Piece>, out: seq<int>, p: Plan)
    requires Underway(written, pieces, out) && Sound(p, out)
    ensures IsPlan(p) && Underway(written + PlanBits(p, false, |written|), pieces + [Piece(p, false)], After(p, out))
  {
    hide After, StreamSound, StreamBits, StreamOut, IsPlan, InReach, PlanBits;
    StreamBitsAppend(pieces, Piece(p, false), 0);
    StreamAppend(pieces, Piece(p, false), []);
  }

  /** One more block, final or not. */
  lemma ChainedNext(pieces: seq<Piece>, out: seq<int>, p: Piece)
    requires Chained(pieces, out) && Sound(p.plan, out)
    ensures Chained(pieces + [p], After(p.plan, out))
  {
    hide After, StreamSound, StreamBits, StreamOut, IsPlan, InReach, PlanBits;
    StreamBitsAppend(pieces, p, 0);
    StreamAppend(pieces, p, []);
  }

  // ---------- in time ----------

  /** The i-th block does not reach its tokens before they are read, where the stream has got to by then. */
  ghost predicate PieceInTime(pieces: seq<Piece>, n: nat, i: nat)
    requires i < |pieces| && forall k :: 0 <= k < |pieces| ==> IsPlan(pieces[k].plan)
  {
    PlanInTime(pieces[i].plan, n, |StreamBits(pieces[..i], 0)| % 8)
  }

  ghost predicate AllInTime(pieces: seq<Piece>, n: nat)
    requires forall k :: 0 <= k < |pieces| ==> IsPlan(pieces[k].plan)
  {
    forall i :: 0 <= i < |pieces| ==> PieceInTime(pieces, n, i)
  }

  lemma InTimeNext(pieces: seq<Piece>, p: Piece, n: nat)
    requires IsPlan(p.plan) && forall k :: 0 <= k < |pieces| ==> IsPlan(pieces[k].plan)
    ensures forall k :: 0 <= k < |pieces + [p]| ==> IsPlan((pieces + [p])[k].plan)
    ensures AllInTime(pieces + [p], n) <==>
            AllInTime(pieces, n) && PlanInTime(p.plan, n, |StreamBits(pieces, 0)| % 8)
  {
    hide IsPlan, PlanInTime, StreamBits;
    var all := pieces + [p];
    forall i | 0 <= i < |pieces|
      ensures PieceInTime(all, n, i) <==> PieceInTime(pieces, n, i)
    {
      assert all[..i] == pieces[..i];
    }
    assert all[..|pieces|] == pieces;
    assert PieceInTime(all, n, |pieces|) <==> PlanInTime(p.plan, n, |StreamBits(pieces, 0)| % 8);
  }

  /** The blocks of a stream are those of the input in their best forms, and the marks of flushes. */
  ghost predicate Made(p: Piece, blocks: seq<Block>, fixed: bool) {
    || p == Piece(StaticPlan([]), false) || p == Piece(StoredPlan([]), false)
    || exists k, dynamic, optLen, staticLen :: BestOf(p, blocks, k, fixed, dynamic, optLen, staticLen)
  }

  ghost predicate BestOf(p: Piece, blocks: seq<Block>, k: nat, fixed: bool, dynamic: Plan, optLen: int, staticLen: int)
  {
    && k < |blocks| && p.last == blocks[k].last
    && Best(p.plan, dynamic, blocks[k].tokens, blocks[k].text, fixed, p.last, optLen, staticLen)
  }

  ghost predicate AllMade(pieces: seq<Piece>, blocks: seq<Block>, fixed: bool) {
    forall i :: 0 <= i < |pieces| ==> Made(pieces[i], blocks, fixed)
  }

  /** Every block is short, or has literals only, or only short distances. */
  predicate AllSafe(blocks: seq<Block>, n: nat, fixed: bool) {
    forall i :: 0 <= i < |blocks| ==> Safe(blocks[i].tokens, n, fixed)
  }

  /** A stream is complete with its final block and zeros up to a byte boundary: inflate gives exactly its output. */
  lemma UnderwayEnd(written: seq<bool>, pieces: seq<Piece>, out: seq<int>, p: Plan, room: nat)
    requires Underway(written, pieces, out) && Sound(p, out) && |After(p, out)| <= room
    ensures IsPlan(p)
    ensures var all := written + PlanBits(p, true, |written|);
      ReadBlocks(all + Pad(|all|), [], room) == Next(true, Pad(|all|), After(p, out))
  {
    hide After, StreamSound, StreamBits, StreamOut, IsPlan, InReach, PlanBits, ReadBlocks;
    var last := Piece(p, true);
    StreamBitsAppend(pieces, last, 0);
    StreamAppend(pieces, last, []);
    var all := written + PlanBits(p, true, |written|);
    assert 0 + |written| == |written|;
    assert all == StreamBits(pieces + [last], 0);
    StreamSent(pieces + [last], 0, Pad(|all|), [], room);
  }

  // ---------- encoding ----------

  /** The token buffer is filled from a block. */
  method TallyAll(c: Coder, tokens: seq<Token>)
    requires c.Shape() && c.Static() && c.Tallied() && c.tokens == [] && AllCodable(tokens)
    requires |tokens| < c.litBufsize
    modifies c`tokens, c`lastLit, c.overlay, c.lfc, c.dfc
    ensures c.Static() && c.Tallied() && c.tokens == tokens
  {
    hide Coder.Tallied, Coder.Static, Coder.Shape, Codable;
    c.SinkValid();
    var i := 0;
    while i < |tokens|
      invariant 0 <= i <= |tokens| && c.Tallied() && c.Static() && c.tokens == tokens[..i] && c.lastLit == i
      modifies c`tokens, c`lastLit, c.overlay, c.lfc, c.dfc
    {
      TallyOne(c, tokens[i]);
      assert tokens[..i + 1] == tokens[..i] + [tokens[i]];
      i := i + 1;
    }
    assert tokens[..i] == tokens;
  }

  method TallyOne(c: Coder, t: Token)
    requires c.Shape() && c.Static() && c.Tallied() && Codable(t) && c.lastLit + 1 < c.litBufsize
    modifies c`tokens, c`lastLit, c.overlay, c.lfc, c.dfc
    ensures c.Static() && c.Tallied() && c.tokens == old(c.tokens) + [t] && c.lastLit == |c.tokens|
  {
    hide Coder.Tallied, Codable, CodesFor;
    c.Tally(t);
    c.SinkValid();
  }

  /** The plan that was chosen for a block adds what the block stands for. */
  lemma PlanIsSound(p: Plan, dynamic: Plan, blocks: seq<Block>, i: nat, fixed: bool, optLen: int, staticLen: int,
                    m: int, cap: nat)
    requires i < |blocks| && AllTexts(blocks, cap) && AllLegal(TokensOf(blocks), m) && m <= 32768
    requires Best(p, dynamic, blocks[i].tokens, blocks[i].text, fixed, blocks[i].last, optLen, staticLen)
    ensures Sound(p, Expand(TokensOf(blocks[..i])))
    ensures After(p, Expand(TokensOf(blocks[..i]))) == Expand(TokensOf(blocks[..i + 1]))
  {
    hide IsPlan, Expand, AllLegal, InReach, PlanBits;
    BlockInReach(blocks, i, m);
    ExpandSplit(TokensOf(blocks[..i]), blocks[i].tokens);
    assert TextFits(blocks, i, cap);
  }

  lemma {:induction false} TokensTo(blocks: seq<Block>, i: nat) returns (more: seq<Token>)
    requires i <= |blocks|
    ensures TokensOf(blocks) == TokensOf(blocks[..i]) + more
    decreases |blocks|
  {
    if i == |blocks| {
      assert blocks[..i] == blocks;
      more := [];
    } else {
      var n := |blocks| - 1;
      var rest := TokensTo(blocks[..n], i);
      assert blocks[..n][..i] == blocks[..i];
      more := rest + blocks[n].tokens;
    }
  }

  lemma BlockInReach(blocks: seq<Block>, i: nat, m: int)
    requires i < |blocks| && AllLegal(TokensOf(blocks), m) && m <= 32768
    ensures InReach(Expand(TokensOf(blocks[..i])), blocks[i].tokens, 0) && AllCodable(blocks[i].tokens)
    ensures TokensOf(blocks[..i + 1]) == TokensOf(blocks[..i]) + blocks[i].tokens
  {
    hide Expand, AllLegal, InReach, Codable;
    var more := TokensTo(blocks, i + 1);
    LegalPrefix(TokensOf(blocks[..i + 1]), more, m);
    assert blocks[..i + 1] == blocks[..i] + [blocks[i]];
    TokensAppend(blocks[..i], blocks[i]);
    LegalInReach(TokensOf(blocks[..i]), blocks[i].tokens, m);
  }

  /** What is known of a block from the tokens before it. */
  ghost predicate Upcoming(c: Coder, blocks: seq<Block>, i: nat, m: int) {
    i < |blocks| && AllTexts(blocks, c.litBufsize) && AllLegal(TokensOf(blocks), m) && m <= 32768
  }

  /** The i-th block in its best form; false if a token is not read in time. */
  method EncodeOne(c: Coder, blocks: seq<Block>, i: nat, ghost pieces: seq<Piece>, ghost m: int)
    returns (inTime: bool, ghost p: Plan)
    requires c.Shape() && c.Static() && c.Tallied() && c.tokens == [] && Upcoming(c, blocks, i, m)
    requires Underway(c.sink.Written(), pieces, Expand(TokensOf(blocks[..i])))
    modifies c`tokens, c`lastLit, c.sink, c.overlay, c.trees, c.trees.heap, c.trees.depth, c.trees.blCount
    modifies c.lfc, c.ldl, c.dfc, c.ddl, c.bfc, c.bdl
    ensures Sound(p, Expand(TokensOf(blocks[..i])))
    ensures After(p, Expand(TokensOf(blocks[..i]))) == Expand(TokensOf(blocks[..i + 1]))
    ensures Made(Piece(p, blocks[i].last), blocks, c.fixed)
    ensures IsPlan(p) && (inTime <==> PlanInTime(p, c.litBufsize, |old(c.sink.Written())| % 8))
    ensures Safe(blocks[i].tokens, c.litBufsize, c.fixed) ==> inTime
    ensures inTime ==> c.Static() && c.Tallied() && c.tokens == []
    ensures inTime ==> c.sink.Written() == Coder.Closed(
          old(c.sink.Written()) + PlanBits(p, blocks[i].last, |old(c.sink.Written())|), blocks[i].last)
    ensures inTime && blocks[i].last ==> c.sink.biValid == 0
  {
    hide Coder.Tallied, Coder.Static, Coder.Shape, Underway, Expand, AllLegal, AllTexts, Best, PlanBits, IsPlan, Sound,
         After, AllCodable, PlanInTime, Safe;
    c.SinkValid();
    BlockInReach(blocks, i, m);
    ShortBlock(blocks, i, c.litBufsize);
    TallyAll(c, blocks[i].tokens);
    ghost var dynamic;
    var optLen, staticLen;
    inTime, p, dynamic, optLen, staticLen := c.FlushBlock(blocks[i].text, blocks[i].last);
    PlanIsSound(p, dynamic, blocks, i, c.fixed, optLen, staticLen, m, c.litBufsize);
    assert BestOf(Piece(p, blocks[i].last), blocks, i, c.fixed, dynamic, optLen, staticLen);
  }

  /** One block, which is not the final one. */
  method EncodeBlock(c: Coder, blocks: seq<Block>, i: nat, ghost pieces: seq<Piece>, ghost m: int)
    returns (inTime: bool, ghost now: seq<Piece>)
    requires c.Shape() && c.Static() && c.Tallied() && c.tokens == [] && Upcoming(c, blocks, i, m) && !blocks[i].last
    requires Underway(c.sink.Written(), pieces, Expand(TokensOf(blocks[..i])))
    requires AllInTime(pieces, c.litBufsize) && AllMade(pieces, blocks, c.fixed)
    modifies c`tokens, c`lastLit, c.sink, c.overlay, c.trees, c.trees.heap, c.trees.depth, c.trees.blCount
    modifies c.lfc, c.ldl, c.dfc, c.ddl, c.bfc, c.bdl
    ensures inTime ==> c.Static() && c.Tallied() && c.tokens == []
    ensures Chained(now, Expand(TokensOf(blocks[..i + 1]))) && AllMade(now, blocks, c.fixed)
    ensures inTime ==> Underway(c.sink.Written(), now, Expand(TokensOf(blocks[..i + 1])))
    ensures inTime <==> AllInTime(now, c.litBufsize)
    ensures Safe(blocks[i].tokens, c.litBufsize, c.fixed) ==> inTime
  {
    hide Coder.Tallied, Coder.Static, Coder.Shape, Expand, AllLegal, AllTexts, Best, PlanBits, IsPlan, Sound, After,
         AllCodable, PlanInTime, Safe, Made, StreamSound, StreamBits, StreamOut, AllInTime;
    c.SinkValid();
    ghost var w := c.sink.Written();
    ghost var out := Expand(TokensOf(blocks[..i]));
    ghost var p;
    inTime, p := EncodeOne(c, blocks, i, pieces, m);
    UnderwayNext(w, pieces, out, p);
    InTimeNext(pieces, Piece(p, false), c.litBufsize);
    now := pieces + [Piece(p, false)];
  }

  lemma ShortBlock(blocks: seq<Block>, i: nat, cap: nat)
    requires AllTexts(blocks, cap) && i < |blocks|
    ensures |blocks[i].tokens| < cap
    ensures blocks[i].text.Kept? ==> IsBytes(blocks[i].text.bytes) && |blocks[i].text.bytes| < 0x1_0000
  {
    hide Expand, TokensOf;
    assert TextFits(blocks, i, cap);
  }

  /** The final block: the stream is complete, and inflate gives what the blocks stand for. */
  method EncodeLast(c: Coder, blocks: seq<Block>, ghost pieces: seq<Piece>, ghost m: int)
    returns (inTime: bool, ghost now: seq<Piece>)
    requires c.Shape() && c.Static() && c.Tallied() && c.tokens == []
    requires blocks != [] && Upcoming(c, blocks, |blocks| - 1, m) && blocks[|blocks| - 1].last
    requires Underway(c.sink.Written(), pieces, Expand(TokensOf(blocks[..|blocks| - 1])))
    requires AllInTime(pieces, c.litBufsize) && AllMade(pieces, blocks, c.fixed)
    modifies c`tokens, c`lastLit, c.sink, c.overlay, c.trees, c.trees.heap, c.trees.depth, c.trees.blCount
    modifies c.lfc, c.ldl, c.dfc, c.ddl, c.bfc, c.bdl
    ensures Chained(now, Expand(TokensOf(blocks))) && AllMade(now, blocks, c.fixed)
    ensures inTime <==> AllInTime(now, c.litBufsize)
    ensures Safe(blocks[|blocks| - 1].tokens, c.litBufsize, c.fixed) ==> inTime
    ensures inTime ==> c.sink.Valid() && c.sink.biValid == 0
    ensures inTime ==> Inflates(c.sink.Written(), Expand(TokensOf(blocks)))
  {
    hide Coder.Tallied, Coder.Static, Coder.Shape, Expand, AllLegal, AllTexts, Best, PlanBits, IsPlan, Sound, After,
         AllCodable, PlanInTime, Safe, Made, StreamSound, StreamBits, StreamOut, AllInTime, Upcoming, ReadBlocks;
    var i := |blocks| - 1;
    c.SinkValid();
    ghost var w := c.sink.Written();
    ghost var out := Expand(TokensOf(blocks[..i]));
    ghost var p;
    inTime, p := EncodeOne(c, blocks, i, pieces, m);
    assert blocks[..i + 1] == blocks;
    ChainedNext(pieces, out, Piece(p, true));
    InTimeNext(pieces, Piece(p, true), c.litBufsize);
    now := pieces + [Piece(p, true)];
    if inTime {
      c.SinkValid();
      EndInflates(w, pieces, out, p);
    }
  }

  /** inflate reads the bits up to the final block, gives out, and leaves less than a byte. */
  ghost predicate Inflates(bits: seq<bool>, out: seq<int>) {
    forall room: nat :: room >= |out| ==>
      var r := ReadBlocks(bits, [], room); r.Next? && r.out == out && |r.rest| < 8
  }

  lemma EndInflates(written: seq<bool>, pieces: seq<Piece>, out: seq<int>, p: Plan)
    requires Underway(written, pieces, out) && Sound(p, out)
    ensures IsPlan(p) && Inflates(Coder.Closed(written + PlanBits(p, true, |written|), true), After(p, out))
  {
    hide Underway, PlanBits, IsPlan, Sound, After, ReadBlocks;
    UnderwayEnd(written, pieces, out, p, |After(p, out)|);
    var bits := Coder.Closed(written + PlanBits(p, true, |written|), true);
    forall room: nat | room >= |After(p, out)|
      ensures var r := ReadBlocks(bits, [], room); r.Next? && r.out == After(p, out) && |r.rest| < 8
    {
      UnderwayEnd(written, pieces, out, p, room);
    }
  }

  // ---------- flushes ----------

  lemma EmptySound(out: seq<int>)
    ensures Sound(StoredPlan([]), out) && After(StoredPlan([]), out) == out
    ensures Sound(StaticPlan([]), out) && After(StaticPlan([]), out) == out
  {
    hide StaticLits, StaticDists;
  }

  /** What a flush puts behind a block: an empty static block for Z_PARTIAL_FLUSH, an empty stored block for
      Z_SYNC_FLUSH and Z_FULL_FLUSH. */
  function MarkOf(r: Request): (p: Plan)
    ensures p == StaticPlan([]) || p == StoredPlan([])
  {
    if r == Partial then StaticPlan([]) else StoredPlan([])
  }

  method SendMark(c: Coder, r: Request)
    requires c.Shape() && c.Static() && c.Tallied() && c.tokens == [] && (r == Partial || r == Sync || r == Full)
    modifies c.sink, c.overlay
    ensures c.Static() && c.Tallied() && c.tokens == [] && IsPlan(MarkOf(r))
    ensures c.sink.Written() == old(c.sink.Written()) + PlanBits(MarkOf(r), false, |old(c.sink.Written())|)
    ensures r == Sync || r == Full ==> Border(c.sink.pending) == |MARK|
  {
    hide PlanBits, CodesFor, LitFreqs, DistFreqs, ItemFreqs, IsPlan, LowBits, Border, Overlay.Entry;
    if r == Partial {
      SendEmpty(c);
    } else {
      NoneLate(StoredPlan([]), c.litBufsize, 0);
      StoredBlock(c.sink, [], false);
      MarkFound(c.sink.pending);
      c.sink.FlushPending();
    }
  }

  method SendEmpty(c: Coder)
    requires c.Shape() && c.Static() && c.Tallied() && c.tokens == []
    modifies c.sink, c.overlay
    ensures c.Static() && c.Tallied() && c.tokens == [] && IsPlan(StaticPlan([]))
    ensures c.sink.Written() == old(c.sink.Written()) + PlanBits(StaticPlan([]), false, |old(c.sink.Written())|)
  {
    hide PlanBits, CodesFor, LitFreqs, DistFreqs, ItemFreqs, PlanInTime, IsPlan, AllCoded, StaticLits, StaticDists,
         LowBits, Overlay.Entry;
    NoTokens();
    NoneLate(StaticPlan([]), c.litBufsize, |c.sink.Written()| % 8);
    var _ := c.SendStatic(false);
    c.sink.FlushPending();
  }

  method EncodeMark(c: Coder, r: Request, ghost pieces: seq<Piece>, ghost out: seq<int>, ghost blocks: seq<Block>)
    returns (ghost now: seq<Piece>)
    requires c.Shape() && c.Static() && c.Tallied() && c.tokens == [] && Underway(c.sink.Written(), pieces, out)
    requires AllInTime(pieces, c.litBufsize) && AllMade(pieces, blocks, c.fixed)
    modifies c.sink, c.overlay
    ensures c.Static() && c.Tallied() && c.tokens == [] && Underway(c.sink.Written(), now, out)
    ensures AllInTime(now, c.litBufsize) && AllMade(now, blocks, c.fixed)
    ensures r == Sync || r == Full ==> Border(c.sink.pending) == |MARK|
  {
    hide Coder.Tallied, Coder.Static, Coder.Shape, PlanBits, IsPlan, PlanInTime, Sound, After, StreamSound, StreamBits,
         StreamOut, AllInTime, BestOf;
    c.SinkValid();
    ghost var w := c.sink.Written();
    now := pieces;
    if r == Partial || r == Sync || r == Full {
      SendMark(c, r);
      EmptySound(out);
      UnderwayNext(w, pieces, out, MarkOf(r));
      NoneLate(MarkOf(r), c.litBufsize, |w| % 8);
      InTimeNext(pieces, Piece(MarkOf(r), false), c.litBufsize);
      now := pieces + [Piece(MarkOf(r), false)];
    }
  }

  /** Without tokens nothing can be late. */
  lemma NoneLate(p: Plan, n: nat, at: nat)
    requires p == StoredPlan([]) || p == StaticPlan([])
    ensures IsPlan(p) && PlanInTime(p, n, at)
  {
    hide StaticLits, StaticDists;
    NoTokens();
  }

  /** An empty stored block ends in the bytes that inflateSync looks for. */
  lemma MarkFound(s: seq<int>)
    requires EndsIn(s, LengthBytes(0) + [])
    ensures Border(s) == |MARK|
  {
    assert LengthBytes(0) + [] == MARK;
  }

  lemma NoTokens()
    ensures AllCoded(StaticLits(), StaticDists(), [])
  {
    hide StaticLits, StaticDists;
  }
}

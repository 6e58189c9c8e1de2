/** Blocks as deflate writes them: tallied symbol frequencies become trees, and of the three forms a block can have the
    shortest is sent. */
module DeflateBlock {
  import opened Bits
  import opened BlockCost
  import opened Bytes
  import opened CodeLengthCode
  import opened DeflateCodes
  import opened DynamicHeader
  import opened InflateTable
  import opened LengthCodes
  import opened Lz77
  import opened Overlay
  import opened SortedCodes
  import opened TableBuilder
  import opened TokenCode
  import opened TreeLengths
  import opened TreeTransmission
  import opened Trees
  import opened ZBits
  import HuffStep

  // ---------- codes from trees ----------

  /** A complete code is never turned down. */
  lemma CompleteAccepted(kind: Kind, lens: seq<int>)
    requires IsLens(lens) && Complete(lens)
    ensures !Rejected(kind, lens)
  {
  }

  /** A tree's code as it is used for sending: up to the last symbol in use, or with the unused ones behind it. inflate
      accepts either. */
  lemma CodeFromTree(freq: seq<int>, code: seq<int>, dl: seq<int>, desc: StaticDesc, maxCode: int, n: nat, kind: Kind)
    requires HasCode(freq, code, dl, desc, maxCode) && maxCode < n <= desc.elems
    ensures n <= |dl| && IsLens(dl[..n]) && Complete(dl[..n]) && !Rejected(kind, dl[..n])
    ensures forall s :: 0 <= s < desc.elems && freq[s] > 0 ==> Uses(dl[..n], s)
    ensures forall s :: 0 <= s < n && dl[s] > 0 ==> code[s] == Value(Codeword(dl[..n], s))
  {
    hide UsedKraft, Pow2, Value, Codeword;
    var lens := dl[..desc.elems];
    TrailingKraft(lens, n, MAXBITS);
    assert lens[..n] == dl[..n];
    CompleteAccepted(kind, dl[..n]);
    forall s | 0 <= s < n && dl[s] > 0
      ensures code[s] == Value(Codeword(dl[..n], s))
    {
      assert lens[s] == dl[s];
      TrailingCodeword(lens, n, s);
    }
  }

  // ---------- compress_block ----------

  /** A code and its extra bits. */
  method SendWithExtra(sink: BitSink, sym: nat, value: nat, extra: nat, code: array<int>, len: array<int>,
                       ghost lens: seq<int>)
    requires sink.Valid() && CodesFor(code[..], len[..], lens) && Uses(lens, sym) && value < Pow2(extra) && extra <= 13
    modifies sink`pending, sink`biBuf, sink`biValid
    ensures sink.Valid() && sink.Written() == old(sink.Written()) + (Codeword(lens, sym) + BitsOf(value, extra))
  {
    hide Codeword, Value, Pow2, BitsOf, CodesFor;
    ghost var before := sink.Written();
    SendCode(sink, sym, code, len, lens);
    if extra != 0 {
      sink.SendBits(value, extra);
    } else {
      NoBitsOf(value);
      assert before + Codeword(lens, sym) == before + (Codeword(lens, sym) + []);
    }
    AppendBits(before, Codeword(lens, sym), BitsOf(value, extra));
  }

  lemma ExtraAtMost(lc: nat, d: nat)
    requires lc < 256 && d < 32768
    ensures ExtraL(LengthCode(lc)) <= 13 && ExtraD(DistCode(d)) <= 13
  {
    hide LengthCode, DistCode;
  }

  /** One token. */
  method SendToken(sink: BitSink, t: Token, lcode: array<int>, llen: array<int>, dcode: array<int>, dlen: array<int>,
                   ghost ll: seq<int>, ghost dl: seq<int>)
    requires sink.Valid() && CodesFor(lcode[..], llen[..], ll) && CodesFor(dcode[..], dlen[..], dl) && Coded(ll, dl, t)
    modifies sink`pending, sink`biBuf, sink`biValid
    ensures sink.Valid() && sink.Written() == old(sink.Written()) + TokenBits(ll, dl, t)
  {
    hide Codeword, Value, Pow2, BitsOf, CodesFor, LengthCode, DistCode, LenExtra, DistExtra, ExtraL, ExtraD;
    match t
    case Lit(c) =>
      SendCode(sink, c, lcode, llen, ll);
    case Match(dist, len) =>
      ghost var before := sink.Written();
      var lc, d := len - MIN_MATCH, dist - 1;
      ExtraAtMost(lc, d);
      var code := LengthCode(lc);
      SendWithExtra(sink, code + LITERALS + 1, LenExtra(lc), ExtraL(code), lcode, llen, ll);
      code := DistCode(d);
      SendWithExtra(sink, code, DistExtra(d), ExtraD(code), dcode, dlen, dl);
      AppendBits(before, LenBits(ll, lc), DistBits(dl, d));
  }

  lemma TokensFrom(ll: seq<int>, dl: seq<int>, tokens: seq<Token>, lx: nat)
    requires AllCoded(ll, dl, tokens) && lx < |tokens|
    ensures AllCoded(ll, dl, tokens[lx..]) && AllCoded(ll, dl, tokens[lx + 1..]) && Coded(ll, dl, tokens[lx])
    ensures TokensBits(ll, dl, tokens[lx..]) == TokenBits(ll, dl, tokens[lx]) + TokensBits(ll, dl, tokens[lx + 1..])
  {
    hide Coded, TokenBits, Codeword;
    assert tokens[lx..][0] == tokens[lx] && tokens[lx..][1..] == tokens[lx + 1..];
  }

  /** Stores the bytes put since the last look where put_byte puts them, at the start of the shared buffer. */
  method Store(sink: BitSink, buf: array<int>, from: nat, to: nat)
    requires sink.Valid() && from <= to <= buf.Length && sink.start + to <= |sink.pending|
    modifies buf
    ensures buf[from..to] == sink.pending[sink.start + from..sink.start + to]
    ensures forall k :: 0 <= k < buf.Length && !(from <= k < to) ==> buf[k] == old(buf[k])
  {
    var k := from;
    while k < to
      invariant from <= k <= to
      invariant forall i :: from <= i < k ==> buf[i] == sink.pending[sink.start + i]
      invariant forall i :: 0 <= i < buf.Length && !(from <= i < k) ==> buf[i] == old(buf[i])
      modifies buf
    {
      buf[k] := sink.pending[sink.start + k];
      k := k + 1;
    }
  }

  /** The next token, which the output has not reached. */
  method ReadToken(sink: BitSink, buf: array<int>, n: nat, lx: nat, stored: nat, pending: nat,
                   ghost tokens: seq<Token>)
    returns (t: Token)
    requires sink.Valid() && stored <= pending <= n + 2 * lx && sink.start + pending <= |sink.pending|
    requires lx < |tokens| && Laid(buf[..], n, tokens, lx)
    modifies buf
    ensures t == tokens[lx] && Laid(buf[..], n, tokens, lx)
  {
    hide Entry, TokenOf;
    ghost var b: seq<int> := buf[..];
    Store(sink, buf, stored, pending);
    LaidKept(b, buf[..], n, tokens, lx, pending);
    EntryRead(buf[..], n, lx, tokens[lx]);
    t := TokenOf(buf[n + 2 * lx] + 256 * buf[n + 2 * lx + 1], buf[3 * n + lx]);
  }

  /** The tokens of the block, read from the buffer that they share with the output, and the block's end. False if the
      output reaches a token that has not been read. */
  method CompressBlock(sink: BitSink, buf: array<int>, n: nat, lastLit: nat, lcode: array<int>, llen: array<int>,
                       dcode: array<int>, dlen: array<int>, ghost ll: seq<int>, ghost dl: seq<int>,
                       ghost tokens: seq<Token>)
    returns (inTime: bool)
    requires sink.Valid() && sink.shorts && lastLit == |tokens| && Laid(buf[..], n, tokens, 0)
    requires CodesFor(lcode[..], llen[..], ll) && CodesFor(dcode[..], dlen[..], dl) && AllCoded(ll, dl, tokens)
    requires buf != lcode && buf != llen && buf != dcode && buf != dlen
    modifies sink`pending, sink`biBuf, sink`biValid, buf
    ensures sink.Valid() && |old(sink.Written())| >= 8 * sink.start
    ensures inTime <==> InTime(n, ll, dl, tokens, |old(sink.Written())| - 8 * sink.start)
    ensures inTime ==> sink.Written() == old(sink.Written()) + TokensBits(ll, dl, tokens)
  {
    hide Codeword, CodesFor, Coded, TokenBits, TokensBits, Entry, SentBits, Put, BitSink.Written;
    ghost var done: seq<bool> := [];
    ghost var at := sink.start;
    PutIs(sink);
    at := |sink.Written()| - 8 * sink.start;
    var lx, stored: nat := 0, 0;
    assert sink.Written() + [] == sink.Written() && tokens[0..] == tokens;
    NoneSent(ll, dl, tokens);
    while lx < lastLit
      invariant 0 <= lx <= |tokens| && sink.Valid() && sink.Written() == old(sink.Written()) + done
      invariant AllCoded(ll, dl, tokens[lx..]) && |done| == SentBits(ll, dl, tokens, lx)
      invariant TokensBits(ll, dl, tokens) == done + TokensBits(ll, dl, tokens[lx..])
      invariant stored <= |sink.pending| - sink.start && Laid(buf[..], n, tokens, lx)
      invariant forall i :: 0 <= i < lx ==> Spared(n, ll, dl, tokens, at, i)
      modifies sink`pending, sink`biBuf, sink`biValid, buf
    {
      PutIs(sink);
      var pending: nat := |sink.pending| - sink.start;
      if pending > n + 2 * lx {
        assert !Spared(n, ll, dl, tokens, at, lx);
        return false;
      }
      var t := ReadToken(sink, buf, n, lx, stored, pending, tokens);
      stored := pending;
      TokensFrom(ll, dl, tokens, lx);
      SendToken(sink, t, lcode, llen, dcode, dlen, ll, dl);
      OneSent(ll, dl, tokens, lx);
      AppendBits(old(sink.Written()), done, TokenBits(ll, dl, tokens[lx]));
      AppendBits(done, TokenBits(ll, dl, tokens[lx]), TokensBits(ll, dl, tokens[lx + 1..]));
      done := done + TokenBits(ll, dl, tokens[lx]);
      lx := lx + 1;
    }
    SendCode(sink, END_BLOCK, lcode, llen, ll);
    assert tokens[lx..] == [];
    EndBits(ll, dl);
    AppendBits(old(sink.Written()), done, Codeword(ll, END_BLOCK));
    inTime := true;
  }

  lemma NoneSent(ll: seq<int>, dl: seq<int>, tokens: seq<Token>)
    requires AllCoded(ll, dl, tokens)
    ensures SentBits(ll, dl, tokens, 0) == 0
  {
  }

  lemma OneSent(ll: seq<int>, dl: seq<int>, tokens: seq<Token>, lx: nat)
    requires AllCoded(ll, dl, tokens) && lx < |tokens|
    ensures SentBits(ll, dl, tokens, lx + 1) == SentBits(ll, dl, tokens, lx) + |TokenBits(ll, dl, tokens[lx])|
  {
    hide Coded, TokenBits;
  }

  lemma EndBits(ll: seq<int>, dl: seq<int>)
    requires Uses(ll, END_BLOCK)
    ensures TokensBits(ll, dl, []) == Codeword(ll, END_BLOCK)
  {
    hide Codeword;
  }

  // ---------- send_all_trees ----------

  /** The lengths of the bit length code, in order. */
  method SendOrder(sink: BitSink, blcodes: nat, len: array<int>, ghost bl: seq<int>)
    requires sink.Valid() && IsBl(bl, blcodes) && len.Length >= BL_CODES && len[..BL_CODES] == bl
    modifies sink`pending, sink`biBuf, sink`biValid
    ensures sink.Valid() && sink.Written() == old(sink.Written()) + OrderBits(bl, blcodes)
  {
    hide BitsOf, Pow2, BlOrder;
    var rank := 0;
    assert sink.Written() + [] == sink.Written();
    while rank < blcodes
      invariant 0 <= rank <= blcodes && sink.Valid() && sink.Written() == old(sink.Written()) + OrderBits(bl, rank)
      modifies sink`pending, sink`biBuf, sink`biValid
    {
      assert bl[BlOrder(rank)] == len[BlOrder(rank)];
      ThreeBits(bl[BlOrder(rank)]);
      sink.SendBits(len[BlOrder(rank)], 3);
      AppendBits(old(sink.Written()), OrderBits(bl, rank), BitsOf(bl[BlOrder(rank)], 3));
      rank := rank + 1;
    }
  }

  /** The counts. */
  method SendCounts(sink: BitSink, lcodes: nat, dcodes: nat, blcodes: nat)
    requires sink.Valid() && 257 <= lcodes <= L_CODES && 1 <= dcodes <= D_CODES && 4 <= blcodes <= BL_CODES
    modifies sink`pending, sink`biBuf, sink`biValid
    ensures sink.Valid() && sink.Written() == old(sink.Written()) + CountBits(lcodes, dcodes, blcodes)
  {
    hide BitsOf;
    assert Pow2(5) == 32 && Pow2(4) == 16;
    ghost var w := sink.Written();
    sink.SendBits(lcodes - 257, 5);
    sink.SendBits(dcodes - 1, 5);
    sink.SendBits(blcodes - 4, 4);
    AppendBits(w + BitsOf(lcodes - 257, 5), BitsOf(dcodes - 1, 5), BitsOf(blcodes - 4, 4));
    AppendBits(w, BitsOf(lcodes - 257, 5), BitsOf(dcodes - 1, 5));
    AppendBits(w, BitsOf(lcodes - 257, 5) + BitsOf(dcodes - 1, 5), BitsOf(blcodes - 4, 4));
  }

  /** A tree whose lengths wait to be sent, with the guard that scanning has set behind them. */
  ghost predicate Scanned(dl: seq<int>, lens: seq<int>) {
    |lens| >= 1 && |lens| < |dl| && dl[..|lens|] == lens && dl[|lens|] == 0xffff && IsLens(lens)
  }

  /** Counts, bit length code, and both trees. */
  method SendAllTrees(sink: BitSink, ldl: array<int>, ddl: array<int>, bcode: array<int>, bdl: array<int>, blcodes: nat,
                      ghost c: Codes, ghost bl: seq<int>, lcodes: nat, dcodes: nat)
    requires sink.Valid() && Usable(c) && IsBl(bl, blcodes) && Sendable(bl, TreeItems(c.ll) + TreeItems(c.dl))
    requires lcodes == |c.ll| && dcodes == |c.dl| && Scanned(ldl[..], c.ll) && Scanned(ddl[..], c.dl)
    requires CodesFor(bcode[..], bdl[..], bl)
    modifies sink`pending, sink`biBuf, sink`biValid
    ensures sink.Valid() && sink.Written() == old(sink.Written()) + HeaderBits(c, bl, blcodes)
  {
    hide CodesFor, Usable, IsBl, CountBits, OrderBits, ItemsBits, TreeItems, LegalItem, IsLens;
    UsableParts(c);
    BlParts(bl, blcodes, bcode[..], bdl[..]);
    ghost var w := sink.Written();
    SendCounts(sink, lcodes, dcodes, blcodes);
    SendOrder(sink, blcodes, bdl, bl);
    BothSendable(bl, TreeItems(c.ll), TreeItems(c.dl));
    assert ldl[..lcodes - 1 + 1] == c.ll && ddl[..dcodes - 1 + 1] == c.dl;
    SendTree(sink, ldl, lcodes - 1, bcode, bdl, bl);
    SendTree(sink, ddl, dcodes - 1, bcode, bdl, bl);
    Gather(w, CountBits(lcodes, dcodes, blcodes), OrderBits(bl, blcodes), ItemsBits(bl, TreeItems(c.ll)),
        ItemsBits(bl, TreeItems(c.dl)));
  }

  lemma Gather(w: seq<bool>, a: seq<bool>, b: seq<bool>, c: seq<bool>, d: seq<bool>)
    ensures w + a + b + c + d == w + (a + b + (c + d))
  {
  }

  lemma BlParts(bl: seq<int>, n: nat, code: seq<int>, len: seq<int>)
    requires IsBl(bl, n) && CodesFor(code, len, bl)
    ensures |bl| == BL_CODES <= |len| && len[..BL_CODES] == bl && 4 <= n <= BL_CODES
    ensures forall s :: 0 <= s < BL_CODES ==> 0 <= bl[s]
  {
  }

  lemma BothSendable(bl: seq<int>, a: seq<Item>, b: seq<Item>)
    requires Sendable(bl, a + b)
    ensures Sendable(bl, a) && Sendable(bl, b) && ItemsBits(bl, a + b) == ItemsBits(bl, a) + ItemsBits(bl, b)
  {
    hide LegalItem, ItemsBits, SymOf;
    assert a + b == a + b + [];
    RunSendable(bl, a + b, a, b, []);
  }

  // ---------- building the trees ----------

  /** A finished and scanned tree: a complete code for every symbol that occurs, with the lengths lens. */
  ghost predicate TreeOf(freq: seq<int>, fc: seq<int>, dl: seq<int>, lens: seq<int>, elems: nat) {
    |lens| <= elems <= |freq| && Scanned(dl, lens) && Complete(lens) && CodesFor(fc, dl, lens)
    && forall s :: 0 <= s < elems && freq[s] > 0 ==> Uses(lens, s)
  }

  /** Setting the guard behind a tree. */
  lemma TreeScanned(freq: seq<int>, fc: seq<int>, dl0: seq<int>, dl: seq<int>, desc: StaticDesc, maxCode: nat)
    requires HasCode(freq, fc, dl0, desc, maxCode) && desc.elems < |dl0| && dl == dl0[maxCode + 1 := 0xffff]
    ensures maxCode + 1 <= |dl0| && TreeOf(freq, fc, dl, dl0[..maxCode + 1], desc.elems)
  {
    hide UsedKraft, Pow2, Value, Codeword;
    var lens := dl0[..maxCode + 1];
    CodeFromTree(freq, fc, dl0, desc, maxCode, maxCode + 1, LENS);
    assert dl[..|lens|] == lens;
    forall n | Uses(lens, n)
      ensures fc[n] == Value(Codeword(lens, n))
    {
      assert dl0[n] == lens[n];
    }
  }

  lemma HasCodeSize(freq: seq<int>, fc: seq<int>, dl: seq<int>, desc: StaticDesc, maxCode: int)
    requires HasCode(freq, fc, dl, desc, maxCode)
    ensures desc.elems <= |freq| == |fc| == |dl| && 1 <= maxCode < desc.elems && IsLens(dl[..maxCode + 1])
  {
    hide UsedKraft, Pow2, Value, Codeword;
  }

  /** scan_tree on a finished tree. */
  method ScanFinished(bfc: array<int>, fc: array<int>, dl: array<int>, maxCode: nat, ghost freq: seq<int>,
                      ghost desc: StaticDesc)
    requires bfc != dl && bfc != fc && fc != dl && bfc.Length >= BL_CODES && desc.elems < dl.Length
    requires HasCode(freq, fc[..], dl[..], desc, maxCode)
    modifies bfc, dl
    ensures maxCode + 1 <= dl.Length && TreeOf(freq, fc[..], dl[..], old(dl[..maxCode + 1]), desc.elems)
    ensures forall n :: 0 <= n < bfc.Length ==>
        bfc[n] == old(bfc[n]) + Occurrences(TreeItems(old(dl[..maxCode + 1])), n)
  {
    hide HasCode, Occurrences, TreeItems, TreeOf;
    ghost var d: seq<int> := dl[..];
    HasCodeSize(freq, fc[..], d, desc, maxCode);
    assert dl[..maxCode + 1] == d[..maxCode + 1];
    ScanTree(bfc, dl, maxCode);
    assert dl[..maxCode + 1] == d[..maxCode + 1];
    assert dl[..] == d[maxCode + 1 := 0xffff];
    TreeScanned(freq, fc[..], d, dl[..], desc, maxCode);
  }

  lemma NotBefore(s: nat)
    requires s < 16
    ensures BlRank(s) >= 3
  {
  }

  lemma {:induction false} NothingButZeros(have: seq<int>, items: seq<Item>)
    requires (forall k :: 0 <= k < |have| ==> have[k] == 0) && forall i :: 0 <= i < |items| ==> !items[i].One?
    ensures forall k :: 0 <= k < |TakeAll(have, items)| ==> TakeAll(have, items)[k] == 0
    decreases |items|
  {
    if items != [] {
      NothingButZeros(Take(have, items[0]), items[1..]);
    }
  }

  /** A length other than zero needs a symbol that stands for a length. */
  lemma SomeOne(items: seq<Item>, lens: seq<int>, n: nat) returns (i: nat)
    requires TakeAll([], items) == lens && n < |lens| && lens[n] != 0
    ensures i < |items| && items[i].One?
  {
    if forall i :: 0 <= i < |items| ==> !items[i].One? {
      NothingButZeros([], items);
    }
    i :| 0 <= i < |items| && items[i].One?;
  }

  /** The last bit length code that has to be sent. */
  method MaxBlindex(bdl: array<int>, ghost bl: seq<int>, ghost s: nat) returns (max: nat)
    requires s < 16 && bdl.Length >= BL_CODES && bl == bdl[..BL_CODES] && bl[s] > 0
    requires bdl.Length >= BL_CODES && bl == bdl[..BL_CODES] && forall s :: 0 <= s < BL_CODES ==> 0 <= bl[s] <= 7
    ensures 3 <= max < BL_CODES && IsBl(bl, max + 1)
  {
    hide BlOrder;
    max := BL_CODES - 1;
    while max >= 3
      invariant 2 <= max < BL_CODES && forall r :: max + 1 <= r < BL_CODES ==> bl[BlOrder(r)] == 0
    {
      assert bl[BlOrder(max)] == bdl[BlOrder(max)];
      if bdl[BlOrder(max)] != 0 {
        break;
      }
      max := max - 1;
    }
    NotBefore(s);
    assert bl[BlOrder(BlRank(s))] == bl[s];
  }

  // ---------- the three forms of a block ----------

  const STORED_BLOCK := 0
  const STATIC_TREES := 1
  const DYN_TREES := 2

  /** A block in one of its forms. */
  datatype Plan =
    | StoredPlan(bytes: seq<int>)
    | StaticPlan(tokens: seq<Token>)
    | DynamicPlan(tokens: seq<Token>, codes: Codes, bl: seq<int>, n: nat)

  ghost predicate IsPlan(p: Plan) {
    match p
    case StoredPlan(bytes) => IsBytes(bytes) && |bytes| < 0x1_0000
    case StaticPlan(tokens) => AllCoded(StaticLits(), StaticDists(), tokens)
    case DynamicPlan(tokens, c, bl, n) =>
      Usable(c) && IsBl(bl, n) && Complete(bl) && Sendable(bl, TreeItems(c.ll) + TreeItems(c.dl)) &&
          AllCoded(c.ll, c.dl, tokens)
  }

  /** Zeros up to the next byte boundary. */
  function Pad(at: nat): (b: seq<bool>)
    ensures (at + |b|) % 8 == 0 && |b| < 8
  {
    HuffStep.Zeros(ToByte(at))
  }

  function TypeBits(t: nat, last: bool): (b: seq<bool>)
    ensures |b| == 3
  {
    BitsOf(2 * t + (if last then 1 else 0), 3)
  }

  /** What follows the type of a stored block that starts after at bits: up to a byte boundary, the length, the length
      once more in one's complement, the bytes. */
  function StoredBits(bytes: seq<int>, at: nat): seq<bool>
    requires IsBytes(bytes) && |bytes| < 0x1_0000
  {
    Pad(at) + (BitsOf(|bytes|, 16) + (BitsOf(0xffff - |bytes|, 16) + LowBits(bytes)))
  }

  /** A block that starts after at bits. */
  ghost function PlanBits(p: Plan, last: bool, at: nat): seq<bool>
    requires IsPlan(p)
  {
    match p
    case StoredPlan(bytes) => TypeBits(STORED_BLOCK, last) + StoredBits(bytes, at + 3)
    case StaticPlan(tokens) => TypeBits(STATIC_TREES, last) + TokensBits(StaticLits(), StaticDists(), tokens)
    case DynamicPlan(tokens, c, bl, n) =>
      TypeBits(DYN_TREES, last) + (HeaderBits(c, bl, n) + TokensBits(c.ll, c.dl, tokens))
  }

  /** Whether all tokens of a block are read in time when n of them can be buffered and at bits wait in the bit
      buffer. */
  ghost predicate PlanInTime(p: Plan, n: nat, at: nat)
    requires IsPlan(p)
  {
    match p
    case StoredPlan(_) => true
    case StaticPlan(tokens) => InTime(n, StaticLits(), StaticDists(), tokens, at + 3)
    case DynamicPlan(tokens, c, bl, m) => InTime(n, c.ll, c.dl, tokens, at + 3 + |HeaderBits(c, bl, m)|)
  }

  method SendType(sink: BitSink, t: nat, last: bool)
    requires sink.Valid() && t <= 2
    modifies sink`pending, sink`biBuf, sink`biValid
    ensures sink.Valid() && sink.Written() == old(sink.Written()) + TypeBits(t, last)
  {
    hide BitsOf;
    assert Pow2(3) == 8;
    sink.SendBits(2 * t + (if last then 1 else 0), 3);
  }

  /** bi_windup. */
  method Align(sink: BitSink)
    requires sink.Valid()
    modifies sink`pending, sink`biBuf, sink`biValid, sink`shorts
    ensures sink.Valid() && sink.biValid == 0 && sink.Written() == old(sink.Written()) + Pad(|old(sink.Written())|)
    ensures !sink.shorts
  {
    hide BitsOf, LowBits, Pow2, HuffStep.Zeros, Pad;
    PadIs(sink);
    sink.Windup();
  }

  lemma PadIs(sink: BitSink)
    requires sink.Valid()
    ensures Pad(|sink.Written()|) == HuffStep.Zeros(ToByte(sink.biValid))
  {
    hide BitsOf, LowBits, Pow2, HuffStep.Zeros;
    SameRest(|sink.pending|, sink.biValid);
  }

  lemma SameRest(a: nat, v: nat)
    ensures (8 * a + v) % 8 == v % 8
  {
  }

  lemma Aligned(sink: BitSink)
    requires sink.Valid() && sink.biValid == 0
    ensures sink.Written() == LowBits(sink.pending)
  {
    hide LowBits;
  }

  /** The length of a stored block and its complement, as they stand in front of the bytes. */
  function LengthBytes(n: nat): seq<int>
    requires n < 0x1_0000
  {
    [n % 256, n / 256, (0xffff - n) % 256, (0xffff - n) / 256]
  }

  ghost predicate EndsIn(s: seq<int>, t: seq<int>) {
    |t| <= |s| && s[|s| - |t|..] == t
  }

  /** copy_block with its header. */
  method CopyBlock(sink: BitSink, bytes: seq<int>)
    requires sink.Valid() && IsBytes(bytes) && |bytes| < 0x1_0000
    modifies sink`pending, sink`biBuf, sink`biValid, sink`shorts
    ensures sink.Valid() && sink.biValid == 0
    ensures sink.Written() == old(sink.Written()) + StoredBits(bytes, |old(sink.Written())|)
    ensures EndsIn(sink.pending, LengthBytes(|bytes|) + bytes)
  {
    hide BitsOf, LowBits, Pow2, Pad;
    Pow16();
    ghost var w, len := sink.Written(), |bytes|;
    Align(sink);
    Aligned(sink);
    sink.PutShort(|bytes|);
    sink.PutShort(0xffff - |bytes|);
    NoneCopied();
    ghost var head := sink.pending[..|sink.pending| - 4];
    var i := 0;
    assert sink.pending == head + LengthBytes(len) + bytes[..0];
    assert bytes[..0] == [] && LowBits(sink.pending) == LowBits(sink.pending) + [];
    while i < |bytes|
      invariant 0 <= i <= |bytes| && sink.Valid() && sink.biValid == 0
      invariant LowBits(sink.pending) == w + Pad(|w|) + BitsOf(len, 16) + BitsOf(0xffff - len, 16) + LowBits(bytes[..i])
      invariant sink.pending == head + LengthBytes(len) + bytes[..i]
      modifies sink`pending, sink`biBuf, sink`biValid, sink`shorts
    {
      assert bytes[..i + 1] == bytes[..i] + [bytes[i]];
      LowBitsAppend(bytes[..i], bytes[i]);
      AppendBits(w + Pad(|w|) + BitsOf(len, 16) + BitsOf(0xffff - len, 16), LowBits(bytes[..i]), BitsOf(bytes[i], 8));
      sink.PutByte(bytes[i]);
      i := i + 1;
    }
    assert bytes[..i] == bytes;
    Aligned(sink);
    FourParts(w, Pad(|w|), BitsOf(len, 16), BitsOf(0xffff - len, 16), LowBits(bytes));
    assert sink.pending == head + (LengthBytes(len) + bytes);
  }

  lemma NoneCopied()
    ensures LowBits([]) == []
  {
  }

  lemma FourParts(w: seq<bool>, a: seq<bool>, b: seq<bool>, c: seq<bool>, d: seq<bool>)
    ensures w + a + b + c + d == w + (a + (b + (c + d)))
  {
  }

  /** _tr_stored_block. */
  method StoredBlock(sink: BitSink, bytes: seq<int>, last: bool)
    requires sink.Valid() && IsBytes(bytes) && |bytes| < 0x1_0000
    modifies sink`pending, sink`biBuf, sink`biValid, sink`shorts
    ensures sink.Valid() && sink.biValid == 0
    ensures sink.Written() == old(sink.Written()) + PlanBits(StoredPlan(bytes), last, |old(sink.Written())|)
    ensures EndsIn(sink.pending, LengthBytes(|bytes|) + bytes)
  {
    hide StoredBits, TypeBits, BitsOf, LowBits;
    ghost var w := sink.Written();
    SendType(sink, STORED_BLOCK, last);
    CopyBlock(sink, bytes);
    AppendBits(w, TypeBits(STORED_BLOCK, last), StoredBits(bytes, |w| + 3));
  }
}

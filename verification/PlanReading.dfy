/** Blocks in the form in which deflate sends them, read by inflate: each gives back what it stands for. */
module PlanReading {
  import opened Bits
  import opened BlockCost
  import opened Bytes
  import opened CodeLengthCode
  import opened DeflateBlock
  import opened DeflateCodes
  import opened DynamicHeader
  import opened EntryCode
  import opened InflateSpec
  import opened InflateStream
  import opened InflateTable
  import opened LengthCodes
  import opened Lz77
  import opened SortedCodes
  import opened StaticTrees
  import opened TableBuilder
  import opened TokenCode
  import opened ZBits
  import DepthClamp

  // ---------- the two static distance codes ----------

  lemma SameDist(d: nat)
    requires d < 32768
    ensures DistCoded(StaticDists(), d) && DistCoded(FixedDists(), d)
    ensures DistBits(StaticDists(), d) == DistBits(FixedDists(), d)
  {
    hide Codeword, BitsOf, DistCode;
    SameDistWord(DistCode(d));
  }

  lemma {:induction false} SameTokens(tokens: seq<Token>)
    requires AllCoded(StaticLits(), StaticDists(), tokens)
    ensures AllCoded(StaticLits(), FixedDists(), tokens)
    ensures TokensBits(StaticLits(), StaticDists(), tokens) == TokensBits(StaticLits(), FixedDists(), tokens)
    decreases |tokens|
  {
    hide Codeword, DistCoded, LenCoded, LenBits, DistBits, StaticLits, StaticDists, FixedDists;
    forall i | 0 <= i < |tokens|
      ensures Coded(StaticLits(), FixedDists(), tokens[i])
    {
      if tokens[i].Match? {
        SameDist(tokens[i].dist - 1);
      }
    }
    if tokens != [] {
      if tokens[0].Match? {
        SameDist(tokens[0].dist - 1);
      }
      SameTokens(tokens[1..]);
    }
  }

  // ---------- one block ----------

  /** The output after a block. */
  function After(p: Plan, out: seq<int>): seq<int> {
    match p
    case StoredPlan(bytes) => out + bytes
    case StaticPlan(tokens) => ExpandOnto(out, tokens)
    case DynamicPlan(tokens, _, _, _) => ExpandOnto(out, tokens)
  }

  /** A block that can be sent, and whose matches reach over bytes that are there. */
  ghost predicate Sound(p: Plan, out: seq<int>) {
    IsPlan(p) && (!p.StoredPlan? ==> InReach(out, p.tokens, 0))
  }

  lemma CompleteReadable(lens: seq<int>, kind: Kind)
    requires IsLens(lens) && Complete(lens) && |lens| <= Symbols(kind)
    ensures Readable(lens, kind)
  {
    hide UsedKraft, Pow2;
  }

  lemma AcceptedReadable(lens: seq<int>, kind: Kind, s: int)
    requires IsLens(lens) && !Rejected(kind, lens) && |lens| <= Symbols(kind) && Uses(lens, s)
    ensures Readable(lens, kind)
  {
    hide UsedKraft, Pow2;
  }

  lemma StaticSent(tokens: seq<Token>, last: bool, rest: seq<bool>, out: seq<int>, cap: nat)
    requires AllCoded(StaticLits(), StaticDists(), tokens) && InReach(out, tokens, 0)
    requires |ExpandOnto(out, tokens)| <= cap
    ensures ReadTyped(1, last, TokensBits(StaticLits(), StaticDists(), tokens) + rest, out, cap) ==
        Next(last, rest, ExpandOnto(out, tokens))
  {
    hide Codeword, AllCoded, TokensBits, StaticLits, StaticDists, FixedDists, AtLen, Complete;
    SameTokens(tokens);
    StaticLitsComplete();
    FixedDistsComplete();
    CompleteReadable(StaticLits(), LENS);
    CompleteReadable(FixedDists(), DISTS);
    CodedNear(StaticLits(), StaticDists(), tokens);
    BlockSent(FixedCoding(cap), tokens, rest, out);
  }

  lemma UsableReadable(c: Codes, cap: nat)
    requires Usable(c)
    ensures IsCoding(Coding(c.ll, c.dl, 0, cap, MAX_DIST))
  {
    hide UsedKraft, Pow2;
    AcceptedReadable(c.ll, LENS, 256);
    if s :| Uses(c.dl, s) {
      AcceptedReadable(c.dl, DISTS, s);
    } else {
      NotUsed(c.dl);
      DepthClamp.NothingUsed(c.dl, MAXBITS);
    }
  }

  lemma DynamicSent(tokens: seq<Token>, c: Codes, bl: seq<int>, n: nat, last: bool, rest: seq<bool>, out: seq<int>,
                    cap: nat)
    requires IsPlan(DynamicPlan(tokens, c, bl, n)) && InReach(out, tokens, 0) && |ExpandOnto(out, tokens)| <= cap
    ensures ReadTyped(2, last, HeaderBits(c, bl, n) + TokensBits(c.ll, c.dl, tokens) + rest, out, cap) ==
        Next(last, rest, ExpandOnto(out, tokens))
  {
    hide Codeword, AllCoded, TokensBits, AtLen, Complete, ReadHeader, HeaderBits, Usable, IsBl, Sendable, TreeItems;
    UsableParts(c);
    var x, y := HeaderBits(c, bl, n), TokensBits(c.ll, c.dl, tokens);
    assert x + y + rest == x + (y + rest);
    HeaderSent(c, bl, n, y + rest);
    UsableReadable(c, cap);
    CodedNear(c.ll, c.dl, tokens);
    BlockSent(Coding(c.ll, c.dl, 0, cap, MAX_DIST), tokens, rest, out);
  }

  // ---------- a stored block ----------

  lemma {:induction false} BytesBack(s: seq<int>, rest: seq<bool>)
    requires IsBytes(s)
    ensures BytesIn(LowBits(s) + rest, |s|) == s
    decreases |s|
  {
    hide Value, BitsOf, LowBits;
    if s != [] {
      LowBitsPrepend(s[0], s[1..]);
      assert s == [s[0]] + s[1..];
      var more := LowBits(s[1..]) + rest;
      assert LowBits(s) + rest == BitsOf(s[0], 8) + more;
      Pow16();
      BitsOfValue(s[0], 8);
      assert (BitsOf(s[0], 8) + more)[..8] == BitsOf(s[0], 8) && (BitsOf(s[0], 8) + more)[8..] == more;
      BytesBack(s[1..], rest);
    }
  }

  /** Where a stored block's head ends, and what it says. */
  lemma StoredSent(bytes: seq<int>, at: nat, rest: seq<bool>)
    requires IsBytes(bytes) && |bytes| < 0x1_0000 && (at + |StoredBits(bytes, at) + rest|) % 8 == 0
    ensures ReadStored(StoredBits(bytes, at) + rest) == ZBits.Val(bytes, rest)
  {
    hide Value, BitsOf, LowBits, BytesIn, Pad, Pow2;
    var len := |bytes|;
    var body := BitsOf(len, 16) + (BitsOf(0xffff - len, 16) + (LowBits(bytes) + rest));
    var bits := StoredBits(bytes, at) + rest;
    assert bits == Pad(at) + body;
    PadIs(at, |bits|);
    assert bits[|Pad(at)|..] == body;
    Pow16();
    BitsOfValue(len, 16);
    BitsOfValue(0xffff - len, 16);
    assert body[..16] == BitsOf(len, 16) && body[16..][..16] == BitsOf(0xffff - len, 16);
    assert body[32..] == LowBits(bytes) + rest;
    assert body[32 + 8 * len..] == rest;
    BytesBack(bytes, rest);
  }

  lemma PadIs(at: nat, n: nat)
    requires (at + n) % 8 == 0
    ensures n % 8 == |Pad(at)|
  {
  }

  // ---------- any block ----------

  lemma TypeRead(t: nat, last: bool, body: seq<bool>, out: seq<int>, cap: nat)
    requires t <= 2
    ensures ReadBlock(TypeBits(t, last) + body, out, cap) == ReadTyped(t, last, body, out, cap)
  {
    hide ReadTyped, BitsOf;
    var v := 2 * t + if last then 1 else 0;
    var bits := TypeBits(t, last) + body;
    TypeIs(t, last);
    assert bits[..1] == TypeBits(t, last)[..1] && bits[1..3] == TypeBits(t, last)[1..];
    assert bits[3..] == body;
  }

  lemma TypeIs(t: nat, last: bool)
    requires t <= 2
    ensures TypeBits(t, last)[0] == last && Value(TypeBits(t, last)[1..]) == t
  {
    var v := 2 * t + if last then 1 else 0;
    assert BitsOf(v, 3) == [last] + BitsOf(t, 2);
    assert Pow2(2) == 4;
    BitsOfValue(t, 2);
    assert ([last] + BitsOf(t, 2))[1..] == BitsOf(t, 2);
  }

  /** A block that was sent is read back, whatever its form, and nothing behind it is touched. */
  lemma PlanSent(p: Plan, last: bool, at: nat, rest: seq<bool>, out: seq<int>, cap: nat)
    requires Sound(p, out) && |After(p, out)| <= cap && (at + |PlanBits(p, last, at) + rest|) % 8 == 0
    ensures ReadBlock(PlanBits(p, last, at) + rest, out, cap) == Next(last, rest, After(p, out))
  {
    hide ReadTyped, ReadBlock, TypeBits, StoredBits, TokensBits, HeaderBits, InReach, ExpandOnto, AllCoded, StaticLits,
         StaticDists, Complete;
    match p
    case StoredPlan(bytes) =>
      var x := StoredBits(bytes, at + 3);
      assert PlanBits(p, last, at) + rest == TypeBits(STORED_BLOCK, last) + (x + rest);
      TypeRead(STORED_BLOCK, last, x + rest, out, cap);
      StoredSent(bytes, at + 3, rest);
      StoredTyped(bytes, last, x + rest, rest, out, cap);
    case StaticPlan(tokens) =>
      var x := TokensBits(StaticLits(), StaticDists(), tokens);
      assert PlanBits(p, last, at) + rest == TypeBits(STATIC_TREES, last) + (x + rest);
      TypeRead(STATIC_TREES, last, x + rest, out, cap);
      StaticSent(tokens, last, rest, out, cap);
    case DynamicPlan(tokens, c, bl, n) =>
      var x := HeaderBits(c, bl, n) + TokensBits(c.ll, c.dl, tokens);
      assert PlanBits(p, last, at) + rest == TypeBits(DYN_TREES, last) + (x + rest);
      TypeRead(DYN_TREES, last, x + rest, out, cap);
      DynamicSent(tokens, c, bl, n, last, rest, out, cap);
  }

  lemma StoredTyped(bytes: seq<int>, last: bool, bits: seq<bool>, rest: seq<bool>, out: seq<int>, cap: nat)
    requires ReadStored(bits) == ZBits.Val(bytes, rest) && |out + bytes| <= cap
    ensures ReadTyped(0, last, bits, out, cap) == Next(last, rest, out + bytes)
  {
    hide ReadStored, ReadHeader, AtLen;
  }

  // ---------- whole streams ----------

  /** A block and whether it is the final one. */
  datatype Piece = Piece(plan: Plan, last: bool)

  ghost function StreamBits(pieces: seq<Piece>, at: nat): seq<bool>
    requires forall i :: 0 <= i < |pieces| ==> IsPlan(pieces[i].plan)
    decreases |pieces|
  {
    if pieces == [] then []
    else
      var b := PlanBits(pieces[0].plan, pieces[0].last, at);
      b + StreamBits(pieces[1..], at + |b|)
  }

  function StreamOut(pieces: seq<Piece>, out: seq<int>): seq<int>
    decreases |pieces|
  {
    if pieces == [] then out else StreamOut(pieces[1..], After(pieces[0].plan, out))
  }

  ghost predicate StreamSound(pieces: seq<Piece>, out: seq<int>)
    decreases |pieces|
  {
    pieces == [] || (Sound(pieces[0].plan, out) && StreamSound(pieces[1..], After(pieces[0].plan, out)))
  }

  lemma AfterGrows(p: Plan, out: seq<int>)
    ensures |After(p, out)| >= |out|
  {
    hide ExpandOnto;
    match p
    case StoredPlan(_) =>
    case StaticPlan(tokens) => OntoGrows(out, tokens);
    case DynamicPlan(tokens, _, _, _) => OntoGrows(out, tokens);
  }

  lemma {:induction false} OutGrows(pieces: seq<Piece>, out: seq<int>)
    ensures |StreamOut(pieces, out)| >= |out|
    decreases |pieces|
  {
    hide After;
    if pieces != [] {
      AfterGrows(pieces[0].plan, out);
      OutGrows(pieces[1..], After(pieces[0].plan, out));
    }
  }

  /** inflate on a stream of blocks: up to the final one, and exactly their output. */
  lemma {:induction false} StreamSent(pieces: seq<Piece>, at: nat, rest: seq<bool>, out: seq<int>, cap: nat)
    requires pieces != [] && StreamSound(pieces, out) && forall i :: 0 <= i < |pieces| ==> IsPlan(pieces[i].plan)
    requires forall i :: 0 <= i < |pieces| ==> (pieces[i].last <==> i == |pieces| - 1)
    requires |StreamOut(pieces, out)| <= cap && (at + |StreamBits(pieces, at) + rest|) % 8 == 0
    ensures ReadBlocks(StreamBits(pieces, at) + rest, out, cap) == Next(true, rest, StreamOut(pieces, out))
    decreases |pieces|
  {
    hide After, ReadBlock, PlanBits, IsPlan, Sound;
    var p := pieces[0];
    var b := PlanBits(p.plan, p.last, at);
    var now := After(p.plan, out);
    var more := StreamBits(pieces[1..], at + |b|);
    assert StreamBits(pieces, at) + rest == b + (more + rest);
    OutGrows(pieces[1..], now);
    PlanSent(p.plan, p.last, at, more + rest, out, cap);
    BlocksStep(StreamBits(pieces, at) + rest, out, cap);
    if |pieces| > 1 {
      StreamSent(pieces[1..], at + |b|, rest, now, cap);
    } else {
      assert pieces[1..] == [];
      assert more + rest == rest;
    }
  }
}

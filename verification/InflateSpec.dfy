/** What the bits of a compressed block stand for, given the two codes and the output so far: the common meaning of
    inflate's states and of its fast loop. */
module InflateSpec {
  import opened Bits
  import opened DeflateCodes
  import opened EntryCode
  import opened InflateTable
  import opened LengthCodes
  import opened Lz77
  import opened TableBuilder
  import opened TableSlots
  import opened TokenCode
  import opened ZBits

  const MAX_DIST := 32768

  /** A block's two codes, how many bytes of the output are out of reach for copying, how long the output can get for
      lack of room, and how far back it is promised to reach at the most. */
  datatype Coding = Coding(ll: seq<int>, dl: seq<int>, lost: nat, cap: nat, far: nat)

  ghost predicate IsCoding(c: Coding) {
    Readable(c.ll, LENS) && Readable(c.dl, DISTS)
  }

  /** inflate's modes inside a block with codes, and those before and after it. */
  datatype Mode = TYPE | LEN | LENEXT | DIST | DISTEXT | MATCH | LIT | BAD

  /** How decoding ends: behind the end-of-block code, at a code or distance that cannot be, in the middle for lack of
      bits or of room, or where a distance breaks the promise. */
  datatype Outcome =
    | Ended(rest: seq<bool>, out: seq<int>)
    | Broken(rest: seq<bool>, out: seq<int>)
    | Paused(mode: Mode, length: int, offset: int, extra: nat, rest: seq<bool>, out: seq<int>)
    | Strayed

  predicate Flag(op: int, f: nat)
    requires f > 0
  {
    op / f % 2 == 1
  }

  /** From LEN on: the next literal/length code. */
  ghost function AtLen(c: Coding, bits: seq<bool>, out: seq<int>): Outcome
    requires |c.ll| <= Symbols(LENS) && |c.dl| <= Symbols(DISTS)
    decreases |bits|, 4
  {
    EntryShrinks(c.ll, LENS, bits);
    match EntryRead(c.ll, LENS, bits)
    case Val(e, rest) => AfterLen(c, e, rest, out)
    case _ => Paused(LEN, 0, 0, 0, bits, out)
  }

  /** A literal, the end of the block, an invalid code, or a length with extra bits to come. */
  ghost function AfterLen(c: Coding, e: Entry, bits: seq<bool>, out: seq<int>): Outcome
    requires |c.ll| <= Symbols(LENS) && |c.dl| <= Symbols(DISTS)
    decreases |bits|, 10
  {
    if e.op == 0 then AtLit(c, e.val, bits, out)
    else if Flag(e.op, 32) then Ended(bits, out)
    else if Flag(e.op, 64) then Broken(bits, out)
    else AtLenExt(c, e.val, e.op % 16, bits, out)
  }

  /** Writing a literal, if there is room. */
  ghost function AtLit(c: Coding, b: int, bits: seq<bool>, out: seq<int>): Outcome
    requires |c.ll| <= Symbols(LENS) && |c.dl| <= Symbols(DISTS)
    decreases |bits|, 5
  {
    if |out| >= c.cap then Paused(LIT, b, 0, 0, bits, out) else AtLen(c, bits, out + [b])
  }

  ghost function AtLenExt(c: Coding, len: int, extra: nat, bits: seq<bool>, out: seq<int>): Outcome
    requires |c.ll| <= Symbols(LENS) && |c.dl| <= Symbols(DISTS)
    decreases |bits|, 9
  {
    match TakeLow(bits, extra)
    case Val(v, rest) => AtDist(c, len + v, rest, out)
    case _ => Paused(LENEXT, len, 0, extra, bits, out)
  }

  ghost function AtDist(c: Coding, len: int, bits: seq<bool>, out: seq<int>): Outcome
    requires |c.ll| <= Symbols(LENS) && |c.dl| <= Symbols(DISTS)
    decreases |bits|, 8
  {
    EntryShrinks(c.dl, DISTS, bits);
    match EntryRead(c.dl, DISTS, bits)
    case Val(e, rest) => AfterDist(c, len, e, rest, out)
    case _ => Paused(DIST, len, 0, 0, bits, out)
  }

  ghost function AfterDist(c: Coding, len: int, e: Entry, bits: seq<bool>, out: seq<int>): Outcome
    requires |c.ll| <= Symbols(LENS) && |c.dl| <= Symbols(DISTS)
    decreases |bits|, 7
  {
    if Flag(e.op, 64) then Broken(bits, out) else AtDistExt(c, len, e.val, e.op % 16, bits, out)
  }

  ghost function AtDistExt(c: Coding, len: int, dist: int, extra: nat, bits: seq<bool>, out: seq<int>): Outcome
    requires |c.ll| <= Symbols(LENS) && |c.dl| <= Symbols(DISTS)
    decreases |bits|, 6
  {
    match TakeLow(bits, extra)
    case Val(v, rest) => AtMatch(c, len, dist + v, rest, out)
    case _ => Paused(DISTEXT, len, dist, extra, bits, out)
  }

  /** Copying as far as there is room, if the distance does not reach too far back. */
  ghost function AtMatch(c: Coding, len: int, dist: int, bits: seq<bool>, out: seq<int>): Outcome
    requires |c.ll| <= Symbols(LENS) && |c.dl| <= Symbols(DISTS)
    decreases |bits|, 5
  {
    if |out| >= c.cap then Paused(MATCH, len, dist, 0, bits, out)
    else if dist > c.far then Strayed
    else if dist < 1 || len < 0 || |out| - dist < c.lost then Broken(bits, out)
    else if |out| + len <= c.cap then AtLen(c, bits, Repeat(out, dist, len))
    else Paused(MATCH, len - (c.cap - |out|), dist, 0, bits, Repeat(out, dist, c.cap - |out|))
  }

  /** What the rest of the bits leads to from a mode on. */
  ghost function Meant(c: Coding, mode: Mode, length: int, offset: int, extra: nat, bits: seq<bool>,
                       out: seq<int>): Outcome
    requires |c.ll| <= Symbols(LENS) && |c.dl| <= Symbols(DISTS)
  {
    match mode
    case TYPE => Ended(bits, out)
    case LEN => AtLen(c, bits, out)
    case LENEXT => AtLenExt(c, length, extra, bits, out)
    case DIST => AtDist(c, length, bits, out)
    case DISTEXT => AtDistExt(c, length, offset, extra, bits, out)
    case MATCH => AtMatch(c, length, offset, bits, out)
    case LIT => AtLit(c, length, bits, out)
    case BAD => Broken(bits, out)
  }

  // ---------- what deflate sent ----------

  /** The output after some tokens. */
  function ExpandOnto(out: seq<int>, tokens: seq<Token>): seq<int>
    decreases |tokens|
  {
    if tokens == [] then out else ExpandOnto(Grow(out, tokens[0]), tokens[1..])
  }

  /** Every match reaches only over bytes that can be reached. */
  predicate InReach(out: seq<int>, tokens: seq<Token>, lost: nat)
    decreases |tokens|
  {
    tokens == [] ||
    ((tokens[0].Match? ==> 1 <= tokens[0].dist && tokens[0].len >= 0 && |out| - tokens[0].dist >= lost)
      && InReach(Grow(out, tokens[0]), tokens[1..], lost))
  }

  /** No match reaches back further than far. */
  predicate AllNear(tokens: seq<Token>, far: nat) {
    forall i :: 0 <= i < |tokens| && tokens[i].Match? ==> tokens[i].dist <= far
  }

  /** Whatever has a code is near enough for the largest window. */
  lemma CodedNear(ll: seq<int>, dl: seq<int>, tokens: seq<Token>)
    requires AllCoded(ll, dl, tokens)
    ensures AllNear(tokens, MAX_DIST)
  {
    hide LenCoded, DistCoded;
    forall i | 0 <= i < |tokens| && tokens[i].Match?
      ensures tokens[i].dist <= MAX_DIST
    {
      assert Coded(ll, dl, tokens[i]);
    }
  }

  lemma {:induction false} OntoGrows(out: seq<int>, tokens: seq<Token>)
    ensures |ExpandOnto(out, tokens)| >= |out|
    decreases |tokens|
  {
    if tokens != [] {
      OntoGrows(Grow(out, tokens[0]), tokens[1..]);
    }
  }

  lemma TakeExtra(v: nat, n: nat, rest: seq<bool>)
    requires v < Pow2(n)
    ensures TakeLow(BitsOf(v, n) + rest, n) == Val(v, rest)
  {
    TakeSent(v, n, rest);
  }

  /** Decoding a literal that was sent. */
  lemma LitSent(c: Coding, b: int, rest: seq<bool>, out: seq<int>)
    requires IsCoding(c) && 0 <= b < 256 && Uses(c.ll, b) && |out| < c.cap
    ensures |c.ll| <= Symbols(LENS) && |c.dl| <= Symbols(DISTS)
    ensures AtLen(c, Codeword(c.ll, b) + rest, out) == AtLen(c, rest, out + [b])
  {
    hide Codeword, EntryRead, Readable;
    ReadableSize(c.ll, LENS);
    ReadableSize(c.dl, DISTS);
    EntrySent(c.ll, LENS, b, rest);
    var e := Meaning(LENS, b).(bits := c.ll[b]);
    assert AtLen(c, Codeword(c.ll, b) + rest, out) == AfterLen(c, e, rest, out) == AtLit(c, b, rest, out);
  }

  /** Decoding the end of a block that was sent. */
  lemma EndSent(c: Coding, rest: seq<bool>, out: seq<int>)
    requires IsCoding(c) && Uses(c.ll, END_BLOCK)
    ensures |c.ll| <= Symbols(LENS) && |c.dl| <= Symbols(DISTS)
    ensures AtLen(c, Codeword(c.ll, END_BLOCK) + rest, out) == Ended(rest, out)
  {
    hide Codeword, EntryRead, Readable;
    ReadableSize(c.ll, LENS);
    ReadableSize(c.dl, DISTS);
    EntrySent(c.ll, LENS, END_BLOCK, rest);
  }

  /** The operation of a length or distance code with extra bits. */
  lemma BaseOp(extra: nat)
    requires extra < 14
    ensures 16 + extra != 0 && !Flag(16 + extra, 32) && !Flag(16 + extra, 64) && (16 + extra) % 16 == extra
  {
  }

  lemma ExtraSmall(c: nat)
    ensures c < LENGTH_CODES ==> ExtraL(c) < 14
    ensures c < D_CODES ==> ExtraD(c) < 14
  {
  }

  lemma LenMeaning(lc: nat)
    requires lc < 256
    ensures Meaning(LENS, LengthCode(lc) + LITERALS + 1) == Entry(16 + ExtraL(LengthCode(lc)), 0, LBase(LengthCode(lc)))
    ensures LBase(LengthCode(lc)) + LenExtra(lc) == lc + 3
  {
    hide ExtraL, LBase, LExt, LengthCode, BaseLength, Pow2;
    if lc < 255 {
      LengthBack(lc);
    } else {
      GreatestLength();
    }
  }

  lemma DistMeaning(d: nat)
    requires d < 32768
    ensures Meaning(DISTS, DistCode(d)) == Entry(16 + ExtraD(DistCode(d)), 0, DBase(DistCode(d)))
    ensures DBase(DistCode(d)) + DistExtra(d) == d + 1
  {
    hide ExtraD, DBase, DExt, DistCode, BaseDist, Pow2;
    DistBack(d);
  }

  /** Decoding a length that was sent. */
  lemma LenSent(c: Coding, lc: nat, rest: seq<bool>, out: seq<int>)
    requires IsCoding(c) && lc < 256 && LenCoded(c.ll, lc)
    ensures |c.ll| <= Symbols(LENS) && |c.dl| <= Symbols(DISTS)
    ensures AtLen(c, LenBits(c.ll, lc) + rest, out) == AtDist(c, lc + 3, rest, out)
  {
    hide Codeword, EntryRead, Readable, Meaning, TakeLow, BitsOf, Pow2, LengthCode, LenExtra, ExtraL, LBase, AtDist,
         Flag;
    ReadableSize(c.ll, LENS);
    ReadableSize(c.dl, DISTS);
    var k, extra := LengthCode(lc), BitsOf(LenExtra(lc), ExtraL(LengthCode(lc)));
    LenMeaning(lc);
    ExtraSmall(k);
    BaseOp(ExtraL(k));
    assert LenBits(c.ll, lc) + rest == Codeword(c.ll, k + LITERALS + 1) + (extra + rest);
    EntrySent(c.ll, LENS, k + LITERALS + 1, extra + rest);
    TakeExtra(LenExtra(lc), ExtraL(k), rest);
    var e := Entry(16 + ExtraL(k), c.ll[k + LITERALS + 1], LBase(k));
    assert AtLen(c, LenBits(c.ll, lc) + rest, out) == AfterLen(c, e, extra + rest, out);
    assert AfterLen(c, e, extra + rest, out) == AtLenExt(c, LBase(k), ExtraL(k), extra + rest, out);
  }

  /** Decoding a distance that was sent. */
  lemma DistSent(c: Coding, len: int, d: nat, rest: seq<bool>, out: seq<int>)
    requires IsCoding(c) && d < 32768 && DistCoded(c.dl, d)
    ensures |c.ll| <= Symbols(LENS) && |c.dl| <= Symbols(DISTS)
    ensures AtDist(c, len, DistBits(c.dl, d) + rest, out) == AtMatch(c, len, d + 1, rest, out)
  {
    hide Codeword, EntryRead, Readable, Meaning, TakeLow, BitsOf, Pow2, DistCode, DistExtra, ExtraD, DBase, AtMatch,
         Flag;
    ReadableSize(c.ll, LENS);
    ReadableSize(c.dl, DISTS);
    var k, extra := DistCode(d), BitsOf(DistExtra(d), ExtraD(DistCode(d)));
    DistMeaning(d);
    ExtraSmall(k);
    BaseOp(ExtraD(k));
    assert DistBits(c.dl, d) + rest == Codeword(c.dl, k) + (extra + rest);
    EntrySent(c.dl, DISTS, k, extra + rest);
    TakeExtra(DistExtra(d), ExtraD(k), rest);
    var e := Entry(16 + ExtraD(k), c.dl[k], DBase(k));
    assert AtDist(c, len, DistBits(c.dl, d) + rest, out) == AfterDist(c, len, e, extra + rest, out);
    assert AfterDist(c, len, e, extra + rest, out) == AtDistExt(c, len, DBase(k), ExtraD(k), extra + rest, out);
  }

  /** Decoding a token that was sent appends what it stands for. */
  lemma TokenSent(c: Coding, t: Token, rest: seq<bool>, out: seq<int>)
    requires IsCoding(c) && Coded(c.ll, c.dl, t) && |Grow(out, t)| <= c.cap
    requires t.Match? ==> |out| - t.dist >= c.lost && t.dist <= c.far
    ensures |c.ll| <= Symbols(LENS) && |c.dl| <= Symbols(DISTS)
    ensures AtLen(c, TokenBits(c.ll, c.dl, t) + rest, out) == AtLen(c, rest, Grow(out, t))
  {
    hide Codeword, Readable, AtLen, AtDist, LenBits, DistBits, LenCoded, DistCoded;
    match t
    case Lit(b) =>
      LitSent(c, b, rest, out);
    case Match(dist, len) =>
      var db := DistBits(c.dl, dist - 1);
      assert TokenBits(c.ll, c.dl, t) + rest == LenBits(c.ll, len - MIN_MATCH) + (db + rest);
      LenSent(c, len - MIN_MATCH, db + rest, out);
      DistSent(c, len, dist - 1, rest, out);
  }

  /** Decoding a block that was sent gives the bytes its tokens stand for, and stops right behind it. */
  lemma {:induction false} BlockSent(c: Coding, tokens: seq<Token>, rest: seq<bool>, out: seq<int>)
    requires IsCoding(c) && AllCoded(c.ll, c.dl, tokens) && InReach(out, tokens, c.lost)
    requires |ExpandOnto(out, tokens)| <= c.cap && AllNear(tokens, c.far)
    ensures |c.ll| <= Symbols(LENS) && |c.dl| <= Symbols(DISTS)
    ensures AtLen(c, TokensBits(c.ll, c.dl, tokens) + rest, out) == Ended(rest, ExpandOnto(out, tokens))
    decreases |tokens|
  {
    hide Codeword, Readable, Coded, TokenBits, Grow, AtLen;
    if tokens == [] {
      EndSent(c, rest, out);
    } else {
      var more := TokensBits(c.ll, c.dl, tokens[1..]);
      assert TokensBits(c.ll, c.dl, tokens) + rest == TokenBits(c.ll, c.dl, tokens[0]) + (more + rest);
      OntoGrows(Grow(out, tokens[0]), tokens[1..]);
      TokenSent(c, tokens[0], more + rest, out);
      BlockSent(c, tokens[1..], rest, Grow(out, tokens[0]));
    }
  }

  // ---------- expanding block by block ----------

  lemma {:induction false} OntoConcat(out: seq<int>, a: seq<Token>, b: seq<Token>)
    ensures ExpandOnto(out, a + b) == ExpandOnto(ExpandOnto(out, a), b)
    decreases |a|
  {
    if a == [] {
      assert a + b == b;
    } else {
      assert (a + b)[0] == a[0] && (a + b)[1..] == a[1..] + b;
      OntoConcat(Grow(out, a[0]), a[1..], b);
    }
  }

  lemma {:induction false} OntoIsExpand(tokens: seq<Token>)
    ensures ExpandOnto([], tokens) == Expand(tokens)
    decreases |tokens|
  {
    if tokens != [] {
      var n := |tokens| - 1;
      OntoIsExpand(tokens[..n]);
      assert tokens == tokens[..n] + [tokens[n]];
      OntoConcat([], tokens[..n], [tokens[n]]);
      assert [tokens[n]][1..] == [];
    }
  }
}

/** In which form a block is sent, and when its output stays behind the tokens it is made from, although they share
    memory. */
module BlockTiming {
  import opened Bits
  import opened BlockCost
  import opened Deflate
  import opened DeflateBlock
  import opened DeflateCodes
  import opened DynamicHeader
  import opened LengthCodes
  import opened Lz77
  import opened Overlay
  import opened TokenCode
  import BitIO

  // ---------- the form of a block ----------

  /** A block of n bits behind its type, in whole bytes. */
  function InBytes(n: int): int {
    (n + 3 + 7) / 8
  }

  /** Of its three forms the shortest, a stored block only if the input is still there. */
  ghost predicate Chosen(p: Plan, dynamic: Plan, text: Text, fixed: bool, optLen: int, staticLen: int) {
    && (p.DynamicPlan? ==> p == dynamic && !fixed && InBytes(optLen) < InBytes(staticLen))
    && (p.StaticPlan? ==> fixed || InBytes(staticLen) <= InBytes(optLen))
    && (p.StoredPlan? <==>
          text.Kept? && |text.bytes| + 4 <= InBytes(staticLen) && |text.bytes| + 4 <= InBytes(optLen))
    && (p.StoredPlan? ==> text == Kept(p.bytes))
  }

  /** The sizes that the frequencies have led to are those of the block in its two forms with trees, and the plan is the
      best one. */
  ghost predicate Best(p: Plan, dynamic: Plan, tokens: seq<Token>, text: Text, fixed: bool, last: bool, optLen: int,
                       staticLen: int) {
    && IsPlan(p) && (!p.StoredPlan? ==> p.tokens == tokens) && Chosen(p, dynamic, text, fixed, optLen, staticLen)
    && dynamic.DynamicPlan? && dynamic.tokens == tokens && IsPlan(dynamic) && |PlanBits(dynamic, last, 0)| == optLen + 3
    && IsPlan(StaticPlan(tokens)) && |PlanBits(StaticPlan(tokens), last, 0)| == staticLen + 3
  }

  // ---------- how long tokens are ----------

  /** The bits of a token, by the lengths of its codes. */
  lemma TokenLength(ll: seq<int>, dl: seq<int>, t: Token)
    requires Coded(ll, dl, t)
    ensures |TokenBits(ll, dl, t)| == SizeOf(ll, dl, t)
  {
    hide Codeword, BitsOf, LengthCode, DistCode;
  }

  ghost function SizeOf(ll: seq<int>, dl: seq<int>, t: Token): int
    requires Coded(ll, dl, t)
  {
    match t
    case Lit(c) => ll[c]
    case Match(dist, len) =>
      var c, d := LengthCode(len - MIN_MATCH), DistCode(dist - 1);
      ll[c + LITERALS + 1] + ExtraL(c) + dl[d] + ExtraD(d)
  }

  /** Distances up to 256 have six extra bits at the most, others thirteen. */
  lemma ExtraOfDist(d: nat)
    requires d < 32768
    ensures ExtraD(DistCode(d)) <= 13 && (d < 256 ==> ExtraD(DistCode(d)) <= 6)
  {
    hide FirstOf, CodeIn;
    Ends();
    CodeCovers(Distances, d);
    if d < 256 && DistCode(d) >= 16 {
      FirstRises(Distances, 16, DistCode(d));
    }
  }

  /** The most bits that tokens take in a static block: literals only, distances up to 256, any. */
  predicate AtMost(t: Token, most: nat) {
    match t
    case Lit(_) => most >= 9
    case Match(dist, _) => most >= 31 || (most >= 24 && dist <= 256)
  }

  predicate AllAtMost(tokens: seq<Token>, most: nat) {
    forall i :: 0 <= i < |tokens| ==> AtMost(tokens[i], most)
  }

  lemma StaticSize(t: Token, most: nat)
    requires Coded(StaticLits(), StaticDists(), t) && AtMost(t, most)
    ensures |TokenBits(StaticLits(), StaticDists(), t)| <= most
  {
    hide LengthCode, DistCode, TokenBits;
    TokenLength(StaticLits(), StaticDists(), t);
    if t.Match? {
      ExtraOfDist(t.dist - 1);
    }
  }

  lemma {:induction false} StaticSent(tokens: seq<Token>, i: nat, most: nat)
    requires AllCoded(StaticLits(), StaticDists(), tokens) && i <= |tokens| && AllAtMost(tokens, most)
    ensures SentBits(StaticLits(), StaticDists(), tokens, i) <= most * i
  {
    hide Coded, TokenBits, StaticLits, StaticDists, AtMost;
    if i > 0 {
      StaticSent(tokens, i - 1, most);
      assert AtMost(tokens[i - 1], most);
      StaticSize(tokens[i - 1], most);
    }
  }

  lemma {:induction false} SentRises(ll: seq<int>, dl: seq<int>, tokens: seq<Token>, i: nat)
    requires AllCoded(ll, dl, tokens) && i <= |tokens|
    ensures SentBits(ll, dl, tokens, i) + (|tokens| - i) <= SentBits(ll, dl, tokens, |tokens|)
    decreases |tokens| - i
  {
    hide TokenBits;
    if i < |tokens| {
      SentRises(ll, dl, tokens, i + 1);
      SomeBits(ll, dl, tokens[i]);
    }
  }

  lemma SomeBits(ll: seq<int>, dl: seq<int>, t: Token)
    requires Coded(ll, dl, t)
    ensures |TokenBits(ll, dl, t)| >= 1
  {
    hide LengthCode, DistCode;
    TokenLength(ll, dl, t);
  }

  /** All bits of the tokens, and the end of the block. */
  lemma {:induction false} AllSent(ll: seq<int>, dl: seq<int>, tokens: seq<Token>, i: nat)
    requires AllCoded(ll, dl, tokens) && i <= |tokens|
    ensures AllCoded(ll, dl, tokens[i..])
    ensures SentBits(ll, dl, tokens, i) + |TokensBits(ll, dl, tokens[i..])| ==
            SentBits(ll, dl, tokens, |tokens|) + ll[END_BLOCK]
    decreases |tokens| - i
  {
    hide Coded, TokenBits, Codeword, TokensBits;
    if i == |tokens| {
      assert tokens[i..] == [];
      EndBits(ll, dl);
    } else {
      AllSent(ll, dl, tokens, i + 1);
      TokensFrom(ll, dl, tokens, i);
      OneSent(ll, dl, tokens, i);
    }
  }

  // ---------- blocks that are always sent right ----------

  /** What can be seen of a block before it is sent: short blocks, literals only, or short distances with the strategy
      Z_FIXED. */
  predicate Safe(tokens: seq<Token>, n: nat, fixed: bool) {
    && |tokens| < n
    && (31 * |tokens| + 16 <= 8 * n || AllAtMost(tokens, 9) || (fixed && AllAtMost(tokens, 24)))
  }

  /** With so few bits sent the output has not got far. */
  lemma PutSmall(bits: nat, k: nat)
    requires bits <= 8 * k
    ensures Put(bits) <= k
  {
  }

  /** Tokens of 24 bits use up two bytes of d_buf each, and the third one is made up for by the n bytes ahead. */
  lemma PutSlowly(at: nat, n: nat, i: nat)
    requires at <= 10 + 24 * i && i + 1 < n
    ensures Put(at) <= n + 2 * i
  {
  }

  lemma StaticInTime(tokens: seq<Token>, n: nat, at: nat, most: nat)
    requires AllCoded(StaticLits(), StaticDists(), tokens) && at <= 10 && AllAtMost(tokens, most) && |tokens| < n
    requires most <= 24 || (most <= 31 && 31 * |tokens| + 16 <= 8 * n)
    ensures InTime(n, StaticLits(), StaticDists(), tokens, at)
  {
    hide Coded, SentBits, Put, AllAtMost;
    forall i | 0 <= i < |tokens|
      ensures Spared(n, StaticLits(), StaticDists(), tokens, at, i)
    {
      StaticSent(tokens, i, most);
      var bits := at + SentBits(StaticLits(), StaticDists(), tokens, i);
      if most <= 24 {
        BitIO.MulMono(most, 24, i);
        PutSlowly(bits, n, i);
      } else {
        BitIO.MulMono(most, 31, i);
        PutSmall(bits, n + 2 * i);
      }
    }
  }

  /** A dynamic block that is shorter than the static one. */
  lemma DynamicInTime(tokens: seq<Token>, c: Codes, n: nat, at: nat, header: nat, most: nat)
    requires AllCoded(StaticLits(), StaticDists(), tokens) && AllCoded(c.ll, c.dl, tokens)
    requires header + |TokensBits(c.ll, c.dl, tokens)| < |TokensBits(StaticLits(), StaticDists(), tokens)|
    requires at < 8 && AllAtMost(tokens, most) && |tokens| < n
    requires most <= 9 || (most <= 31 && 31 * |tokens| + 16 <= 8 * n)
    ensures InTime(n, c.ll, c.dl, tokens, at + 3 + header)
  {
    hide Coded, SentBits, Put, TokensBits, StaticDists, AllAtMost;
    var k := |tokens|;
    StaticSent(tokens, k, most);
    AllSent(StaticLits(), StaticDists(), tokens, 0);
    AllSent(c.ll, c.dl, tokens, 0);
    NoneSent(StaticLits(), StaticDists(), tokens);
    NoneSent(c.ll, c.dl, tokens);
    assert tokens[0..] == tokens;
    var before := at + 3 + header;
    forall i | 0 <= i < |tokens|
      ensures Spared(n, c.ll, c.dl, tokens, before, i)
    {
      SentRises(c.ll, c.dl, tokens, i);
      var bits := before + SentBits(c.ll, c.dl, tokens, i);
      if most <= 9 {
        BitIO.MulMono(most, 9, k);
        assert bits <= 8 * n + 7 + i;
        PutAhead(bits, n, i);
      } else {
        BitIO.MulMono(most, 31, k);
        PutSmall(bits, n + 2 * i);
      }
    }
  }

  lemma PutAhead(bits: nat, n: nat, i: nat)
    requires bits <= 8 * n + 7 + i
    ensures Put(bits) <= n + 2 * i
  {
  }

  /** In whichever form it is sent, a safe block is sent right. */
  lemma SafeInTime(p: Plan, dynamic: Plan, tokens: seq<Token>, text: Text, fixed: bool, last: bool, optLen: int,
                   staticLen: int, n: nat, at: nat)
    requires Best(p, dynamic, tokens, text, fixed, last, optLen, staticLen) && Safe(tokens, n, fixed) && at < 8
    ensures PlanInTime(p, n, at)
  {
    hide InTime, TokensBits, AllCoded, HeaderBits, StaticLits, StaticDists, PlanBits, Complete, Coded, AllAtMost,
         Chosen;
    var most := if AllAtMost(tokens, 9) then 9 else if fixed && AllAtMost(tokens, 24) then 24 else 31;
    AnyAtMost(tokens);
    if p.DynamicPlan? {
      Shorter(p, dynamic, tokens, text, fixed, last, optLen, staticLen);
      DynamicInTime(tokens, p.codes, n, at, |HeaderBits(p.codes, p.bl, p.n)|, most);
    } else if p.StaticPlan? {
      StaticInTime(tokens, n, at + 3, most);
    }
  }

  /** The dynamic form is chosen where it is the shorter one. */
  lemma Shorter(p: Plan, dynamic: Plan, tokens: seq<Token>, text: Text, fixed: bool, last: bool, optLen: int,
                staticLen: int)
    requires Best(p, dynamic, tokens, text, fixed, last, optLen, staticLen) && p.DynamicPlan?
    ensures !fixed && AllCoded(StaticLits(), StaticDists(), tokens)
    ensures |HeaderBits(p.codes, p.bl, p.n)| + |TokensBits(p.codes.ll, p.codes.dl, tokens)| <
            |TokensBits(StaticLits(), StaticDists(), tokens)|
  {
    hide TokensBits, AllCoded, HeaderBits, StaticLits, StaticDists, TypeBits, Complete, Coded;
  }

  lemma AnyAtMost(tokens: seq<Token>)
    ensures AllAtMost(tokens, 31)
  {
  }
}

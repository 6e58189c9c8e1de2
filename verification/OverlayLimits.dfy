/** With the static trees the output overtakes the tokens, if distances may exceed 256: then a token is read that the
    output has written over. */
module OverlayLimits {
  import opened Bits
  import opened BlockCost
  import opened BlockTiming
  import opened Bytes
  import opened Counting
  import opened DeflateBlock
  import opened DeflateCodes
  import opened InflateTable
  import opened LengthCodes
  import opened Lz77
  import opened Overlay
  import opened StaticTrees
  import opened TokenCode

  // ---------- the same match again and again ----------

  /** A block of equal tokens. */
  function Equal(t: Token, k: nat): (tokens: seq<Token>)
    ensures |tokens| == k && forall i :: 0 <= i < k ==> tokens[i] == t
  {
    seq(k, i => t)
  }

  /** The static trees have a code for everything. */
  lemma StaticCodes(t: Token)
    requires Codable(t)
    ensures Coded(StaticLits(), StaticDists(), t) && Uses(StaticLits(), END_BLOCK)
  {
    hide LengthCode, DistCode;
  }

  lemma AllStatic(tokens: seq<Token>)
    requires forall i :: 0 <= i < |tokens| ==> Codable(tokens[i])
    ensures AllCoded(StaticLits(), StaticDists(), tokens)
  {
    hide Coded, StaticLits, StaticDists, Codable;
    forall i | 0 <= i < |tokens|
      ensures Coded(StaticLits(), StaticDists(), tokens[i])
    {
      StaticCodes(tokens[i]);
    }
    EndCoded();
  }

  lemma EndCoded()
    ensures Uses(StaticLits(), END_BLOCK)
  {
    StaticCodes(Lit(0));
  }

  lemma {:induction false} EqualSent(t: Token, k: nat, i: nat)
    requires Codable(t) && i <= k
    ensures AllCoded(StaticLits(), StaticDists(), Equal(t, k)) && Coded(StaticLits(), StaticDists(), t)
    ensures SentBits(StaticLits(), StaticDists(), Equal(t, k), i) == i * |TokenBits(StaticLits(), StaticDists(), t)|
  {
    hide Coded, TokenBits, StaticLits, StaticDists, Codable, AllCoded;
    AllStatic(Equal(t, k));
    StaticCodes(t);
    if i > 0 {
      EqualSent(t, k, i - 1);
      OneSent(StaticLits(), StaticDists(), Equal(t, k), i - 1);
      OneMore(i - 1, |TokenBits(StaticLits(), StaticDists(), t)|);
    } else {
      NoneSent(StaticLits(), StaticDists(), Equal(t, k));
    }
  }

  // ---------- which distances are safe ----------

  /** A block that can be tallied, with distances up to m. */
  ghost predicate Within(tokens: seq<Token>, n: nat, m: nat) {
    && |tokens| < n
    && forall i :: 0 <= i < |tokens| ==> Codable(tokens[i]) && (tokens[i].Match? ==> tokens[i].dist <= m)
  }

  /** The codes of length 131 and of distance 257 are those with five and seven extra bits. */
  lemma JustTooFar()
    ensures Coded(StaticLits(), StaticDists(), Match(257, 131))
    ensures |TokenBits(StaticLits(), StaticDists(), Match(257, 131))| == 25
  {
    hide FirstOf, LengthCode, DistCode, TokenBits;
    StaticCodes(Match(257, 131));
    TokenLength(StaticLits(), StaticDists(), Match(257, 131));
    CodeOf(Lengths, 24, 128);
    CodeOf(Distances, 16, 256);
  }

  /** The code c of a value, by the decoder's bases. */
  lemma CodeOf(f: Family, c: nat, v: nat)
    requires c < Codes(f) && FirstIs(f, c) <= v < FirstIs(f, c + 1) && v < Limit(f)
    ensures CodeIn(f, v) == c
    ensures f == Lengths && v < 255 ==> LengthCode(v) == c && BaseLength(c) == FirstIs(f, c)
    ensures f == Distances ==> DistCode(v) == c && BaseDist(c) == FirstIs(f, c)
  {
    hide FirstOf, CodeIn;
    Firsts(f, c);
    Firsts(f, c + 1);
    CodeCovers(f, v);
    CodeUnique(f, v, c, CodeIn(f, v));
  }

  lemma Overtaken(n: nat, at: nat)
    requires n >= 128 && at >= 3
    ensures Put(at + 25 * (n - 2)) > n + 2 * (n - 2)
  {
  }

  /** For a full block of such matches it is too late. */
  lemma TooLate(n: nat, at: nat)
    requires n >= 128 && at >= 3
    ensures var tokens := Equal(Match(257, 131), n - 1);
      Within(tokens, n, 257) && AllCoded(StaticLits(), StaticDists(), tokens)
      && !InTime(n, StaticLits(), StaticDists(), tokens, at)
  {
    hide TokenBits, SentBits, Put, StaticLits, StaticDists, Coded;
    var t := Match(257, 131);
    var tokens := Equal(t, n - 1);
    JustTooFar();
    EqualSent(t, n - 1, n - 2);
    Overtaken(n, at);
    assert (n - 2) * 25 == 25 * (n - 2);
    assert !Spared(n, StaticLits(), StaticDists(), tokens, at, n - 2);
  }

  /** Every static block is sent right if and only if no distance exceeds 256. */
  lemma StaticLimit(n: nat, m: nat, at: nat)
    requires n >= 128 && 3 <= at <= 10
    ensures (forall tokens :: Within(tokens, n, m) ==>
               AllCoded(StaticLits(), StaticDists(), tokens) && InTime(n, StaticLits(), StaticDists(), tokens, at))
            <==> m <= 256
  {
    hide InTime, StaticLits, StaticDists, AllCoded;
    if m <= 256 {
      forall tokens | Within(tokens, n, m)
        ensures AllCoded(StaticLits(), StaticDists(), tokens) && InTime(n, StaticLits(), StaticDists(), tokens, at)
      {
        AllStatic(tokens);
        StaticInTime(tokens, n, at, 24);
      }
    } else {
      TooLate(n, at);
      assert Within(Equal(Match(257, 131), n - 1), n, m);
    }
  }

  /** Which windows that allows: the smallest one only. */
  lemma SmallestWindow(w: nat, n: nat, at: nat)
    requires exists k: nat :: 9 <= k <= 15 && w == Pow2(k)
    requires n >= 128 && 3 <= at <= 10
    ensures w >= 512
    ensures (forall tokens :: Within(tokens, n, w - 262) ==>
               AllCoded(StaticLits(), StaticDists(), tokens) && InTime(n, StaticLits(), StaticDists(), tokens, at))
            <==> w == 512
  {
    hide InTime, StaticLits, StaticDists, AllCoded, Pow2;
    SmallPowers();
    var k: nat :| 9 <= k <= 15 && w == Pow2(k);
    Pow2Monotone(9, k);
    if k >= 10 {
      Pow2Monotone(10, k);
    }
    StaticLimit(n, w - 262, at);
  }

  // ---------- a distance that is read wrong ----------

  /** 200 bytes from 20000 bytes back. */
  const FAR := Match(20000, 200)

  lemma {:induction false} CountRun(l: seq<int>, a: nat, b: nat, v: int, c: int)
    requires a <= b <= |l| && forall i :: a <= i < b ==> l[i] == v
    ensures Count(l[..b], c) == Count(l[..a], c) + (if v == c then b - a else 0)
    decreases b
  {
    if a < b {
      CountRun(l, a, b - 1, v, c);
      assert l[..b][..b - 1] == l[..b - 1];
    }
  }

  lemma StaticCounts(c: int)
    ensures var l := StaticLits();
      Count(l, c) == (if c == 8 then 152 else if c == 9 then 112 else if c == 7 then 24 else 0)
      && Count(l[..283], 8) == 147
  {
    hide Count, StaticLits;
    var l := StaticLits();
    NothingCounted(l, c);
    NothingCounted(l, 8);
    CountRun(l, 0, 144, 8, c);
    CountRun(l, 144, 256, 9, c);
    CountRun(l, 256, 280, 7, c);
    CountRun(l, 280, 288, 8, c);
    CountRun(l, 0, 144, 8, 8);
    CountRun(l, 144, 256, 9, 8);
    CountRun(l, 256, 280, 7, 8);
    CountRun(l, 280, 283, 8, 8);
    assert l[..288] == l;
  }

  lemma NothingCounted(l: seq<int>, c: int)
    ensures Count(l[..0], c) == 0
  {
  }

  lemma {:induction false} NoneBelowSeven(k: nat)
    requires k <= 7
    ensures NextCode(StaticLits(), k) == 0
  {
    hide Count, StaticLits;
    if k > 0 {
      NoneBelowSeven(k - 1);
      StaticCounts(k - 1);
    }
  }

  /** The static code of the lengths from 195 to 226. */
  lemma FarCode()
    ensures Codeword(StaticLits(), 283) == [true, true, false, false, false, false, true, true]
  {
    hide Count, StaticLits, ToBits;
    NoneBelowSeven(7);
    StaticCounts(7);
    assert NextCode(StaticLits(), 8) == 48;
    assert DeflateCode(StaticLits(), 283) == 195;
    EightBits();
  }

  lemma EightBits()
    ensures ToBits(195, 8) == [true, true, false, false, false, false, true, true]
  {
    assert ToBits(12, 4) == [true, true, false, false];
    assert ToBits(195, 8) == ToBits(12, 4) + [false, false, true, true];
  }

  lemma FarSize()
    ensures Coded(StaticLits(), StaticDists(), FAR) && |TokenBits(StaticLits(), StaticDists(), FAR)| == 31
    ensures LengthCode(197) == 26 && BaseLength(26) == 192
  {
    hide FirstOf, LengthCode, DistCode, TokenBits, Codeword, BaseLength;
    StaticCodes(FAR);
    TokenLength(StaticLits(), StaticDists(), FAR);
    CodeOf(Lengths, 26, 197);
    CodeOf(Distances, 28, 19999);
  }

  /** The first bits of the far match: its length is the fifth of 32 that share a code. */
  lemma FarBits()
    ensures Coded(StaticLits(), StaticDists(), FAR) && |TokenBits(StaticLits(), StaticDists(), FAR)| == 31
    ensures TokenBits(StaticLits(), StaticDists(), FAR)[2..10] ==
            [false, false, false, false, true, true, true, false]
  {
    hide FirstOf, LengthCode, DistCode, StaticLits, StaticDists, Codeword, BaseLength, BaseDist, BitsOf, DistBits,
         Coded;
    FarSize();
    FarCode();
    FiveBits();
    var b := TokenBits(StaticLits(), StaticDists(), FAR);
    assert b[..8] == Codeword(StaticLits(), 283);
    assert b[8..13] == BitsOf(5, 5);
    assert b[2..10] == b[..8][2..] + b[8..13][..2];
  }

  lemma FiveBits()
    ensures BitsOf(5, 5)[..2] == [true, false]
  {
  }

  /** Where the i-th of many far matches stands. */
  lemma {:induction false} FarBitsAt(k: nat, i: nat)
    requires i < k && AllCoded(StaticLits(), StaticDists(), Equal(FAR, k)) && Coded(StaticLits(), StaticDists(), FAR)
    ensures
      var all := TokensBits(StaticLits(), StaticDists(), Equal(FAR, k));
      |all| >= 31 * i + 31 && all[31 * i..31 * i + 31] == TokenBits(StaticLits(), StaticDists(), FAR)
    decreases k
  {
    hide Coded, TokenBits, StaticLits, StaticDists, Codable, AllCoded, Codeword, TokensBits;
    FarBits();
    TokensFrom(StaticLits(), StaticDists(), Equal(FAR, k), 0);
    var all := TokensBits(StaticLits(), StaticDists(), Equal(FAR, k));
    assert Equal(FAR, k)[0..] == Equal(FAR, k) && Equal(FAR, k)[0 + 1..] == Equal(FAR, k - 1);
    if i > 0 {
      FarBitsAt(k - 1, i - 1);
      var rest := TokensBits(StaticLits(), StaticDists(), Equal(FAR, k - 1));
      Beyond(TokenBits(StaticLits(), StaticDists(), FAR), rest, all, 31 * i - 31, 31 * i);
    }
  }

  lemma Beyond(b: seq<bool>, rest: seq<bool>, all: seq<bool>, lo: nat, hi: nat)
    requires all == b + rest && lo <= hi <= |rest|
    ensures all[|b| + lo..|b| + hi] == rest[lo..hi]
  {
  }

  /** With Z_FIXED and the smallest buffer, of 128 tokens: the block begins a stream. */
  function FarBlock(): (tokens: seq<Token>)
    ensures |tokens| == 127
  {
    Equal(FAR, 127)
  }

  /** In such a block the first 70 matches are read in time, and the next one is not. Its distance is held in the bytes
      268 and 269; by then the output is 270 bytes long, and its byte 268 is 112 where the distance had 32. */
  lemma FarBlockFails(out: seq<int>, last: bool)
    requires |out| == 270 && IsBytes(out) && AllCoded(StaticLits(), StaticDists(), FarBlock())
    requires LowBits(out) <= TypeBits(STATIC_TREES, last) + TokensBits(StaticLits(), StaticDists(), FarBlock())
    ensures Within(FarBlock(), 128, 20000)
    ensures forall i :: 0 <= i < 70 ==> Spared(128, StaticLits(), StaticDists(), FarBlock(), 3, i)
    ensures Put(3 + SentBits(StaticLits(), StaticDists(), FarBlock(), 70)) == 270
    ensures out[128 + 2 * 70] == 112 && DistOf(FAR) % 256 == 32
    ensures TokenOf(out[128 + 2 * 70] + 256 * out[128 + 2 * 70 + 1], LcOf(FAR)) != FAR
  {
    hide TokenBits, SentBits, StaticLits, StaticDists, Coded, LowBits, TypeBits, TokensBits, AllCoded, BitsOf;
    FarBits();
    FarSpared();
    FarSent(last);
    ByteOf(out, TypeBits(STATIC_TREES, last) + TokensBits(StaticLits(), StaticDists(), FarBlock()), 268);
    TheByte();
  }

  /** A byte of the output is the value of its bits. */
  lemma ByteOf(out: seq<int>, sent: seq<bool>, k: nat)
    requires IsBytes(out) && LowBits(out) <= sent && k < |out|
    ensures 8 * k + 8 <= |sent| && Value(sent[8 * k..8 * k + 8]) == out[k]
  {
    hide LowBits, BitsOf, Value;
    ByteAt(out, k);
    assert LowBits(out)[8 * k..8 * k + 8] == sent[8 * k..8 * k + 8];
    TheByte();
    BitsOfValue(out[k], 8);
  }

  lemma FarSpared()
    ensures AllCoded(StaticLits(), StaticDists(), FarBlock())
    ensures forall i :: 0 <= i < 70 ==> Spared(128, StaticLits(), StaticDists(), FarBlock(), 3, i)
    ensures Put(3 + SentBits(StaticLits(), StaticDists(), FarBlock(), 70)) == 270
  {
    hide TokenBits, SentBits, StaticLits, StaticDists, Coded, AllCoded;
    FarBits();
    EqualSent(FAR, 127, 70);
    forall i | 0 <= i < 70
      ensures Spared(128, StaticLits(), StaticDists(), FarBlock(), 3, i)
    {
      EqualSent(FAR, 127, i);
    }
  }

  /** The byte 268 of the output holds the third to tenth bits of the seventieth match. */
  lemma FarSent(last: bool)
    requires AllCoded(StaticLits(), StaticDists(), FarBlock())
    ensures
      var sent := TypeBits(STATIC_TREES, last) + TokensBits(StaticLits(), StaticDists(), FarBlock());
      |sent| >= 2152 && sent[2144..2152] == [false, false, false, false, true, true, true, false]
  {
    hide TokenBits, StaticLits, StaticDists, Coded, TypeBits, TokensBits, AllCoded;
    FarBits();
    FarBitsAt(127, 69);
    var b := TokenBits(StaticLits(), StaticDists(), FAR);
    var all := TokensBits(StaticLits(), StaticDists(), FarBlock());
    assert all[2139..2170] == b;
    Beyond(TypeBits(STATIC_TREES, last), all, TypeBits(STATIC_TREES, last) + all, 2141, 2149);
    assert all[2141..2149] == all[2139..2170][2..10];
  }

  lemma TheByte()
    ensures Value([false, false, false, false, true, true, true, false]) == 112 && Pow2(8) == 256
  {
    SmallPowers();
    var s := [false, false, false, false, true, true, true, false];
    assert s[1..] == [false, false, false, true, true, true, false];
    assert s[1..][1..] == [false, false, true, true, true, false];
    assert s[1..][1..][1..] == [false, true, true, true, false];
    assert s[1..][1..][1..][1..] == [true, true, true, false];
    assert Value([true, true, true, false]) == 7 by {
      assert [true, true, true, false][1..] == [true, true, false];
      assert [true, true, false][1..] == [true, false];
      assert [true, false][1..] == [false];
      assert [false][1..] == [];
    }
  }

  /** The bits of one byte of many. */
  lemma {:induction false} ByteAt(s: seq<int>, k: nat)
    requires IsBytes(s) && k < |s|
    ensures LowBits(s)[8 * k..8 * k + 8] == BitsOf(s[k], 8)
    decreases |s|
  {
    hide BitsOf;
    var n := |s| - 1;
    assert LowBits(s) == LowBits(s[..n]) + BitsOf(s[n], 8);
    if k < n {
      ByteAt(s[..n], k);
      assert LowBits(s)[8 * k..8 * k + 8] == LowBits(s[..n])[8 * k..8 * k + 8];
    }
  }
}

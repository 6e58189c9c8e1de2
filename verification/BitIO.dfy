/** The bit buffers of compressor and decompressor: 32-bit words filled from the top while writing and from
    the bottom while reading. */
module BitIO {
  import opened Bytes
  import opened Bits

  const WORD := 0x1_0000_0000

  // ---------- splitting numbers ----------

  function Quot(v: nat, p: nat): nat
    requires p >= 1
  {
    v / p
  }

  function Rem(v: nat, p: nat): nat
    requires p >= 1
  {
    v % p
  }

  lemma QuotRem(v: nat, p: nat)
    requires p >= 1
    ensures v == p * Quot(v, p) + Rem(v, p) && Rem(v, p) < p
  {
    DivMod(v, p);
  }

  lemma QuotIs(v: nat, p: nat, q: nat, r: nat)
    requires p >= 1 && v == p * q + r && r < p
    ensures Quot(v, p) == q && Rem(v, p) == r
  {
    DivUnique(v, p, q, r);
  }

  lemma ToBitsStep(v: nat, n: nat)
    ensures ToBits(v, n + 1) == ToBits(v / 2, n) + [v % 2 == 1]
    ensures ToBits(v, 0) == []
  {
  }

  lemma Pow2Step(n: nat)
    ensures Pow2(n + 1) == 2 * Pow2(n) && Pow2(0) == 1
  {
  }

  /** A number cut in two. */
  lemma {:induction false} ToBitsSplit(v: nat, a: nat, b: nat)
    ensures ToBits(v, a + b) == ToBits(Quot(v, Pow2(b)), a) + ToBits(Rem(v, Pow2(b)), b)
    decreases b
  {
    hide ToBits, Pow2, Quot, Rem;
    if b > 0 {
      Pow2Step(b - 1);
      var p, d := Pow2(b - 1), Pow2(b);
      ToBitsSplit(v / 2, a, b - 1);
      QuotRem(v, d);
      HalfParts(v, p, d);
      ToBitsStep(v, a + b - 1);
      ToBitsStep(Rem(v, d), b - 1);
      assert a + (b - 1) == a + b - 1;
    } else {
      Pow2Step(0);
      QuotIs(v, 1, v, 0);
      ToBitsStep(0, 0);
    }
  }

  lemma HalfParts(v: nat, p: nat, d: nat)
    requires p >= 1 && d == 2 * p
    ensures Quot(v / 2, p) == Quot(v, d) && Rem(v / 2, p) == Rem(v, d) / 2 && Rem(v, d) % 2 == v % 2
  {
    hide Quot, Rem;
    QuotRem(v, d);
    var q, r := Quot(v, d), Rem(v, d);
    Doubled(d, p, q);
    Half(v, p * q, r);
    QuotIs(v / 2, p, q, r / 2);
  }

  lemma Half(v: nat, x: nat, r: nat)
    requires v == 2 * x + r
    ensures v / 2 == x + r / 2 && v % 2 == r % 2
  {
  }

  lemma Doubled(d: nat, p: nat, q: nat)
    requires d == 2 * p
    ensures d * q == 2 * (p * q)
  {
  }

  /** Numbers joined end to end. */
  lemma ToBitsJoin(u: nat, v: nat, a: nat, b: nat)
    requires v < Pow2(b)
    ensures ToBits(u * Pow2(b) + v, a + b) == ToBits(u, a) + ToBits(v, b)
  {
    hide ToBits, Pow2, Quot, Rem;
    ToBitsSplit(u * Pow2(b) + v, a, b);
    QuotIs(u * Pow2(b) + v, Pow2(b), u, v);
  }

  /** Bits above the n lowest do not show. */
  lemma ToBitsLow(v: nat, n: nat)
    ensures ToBits(v, n) == ToBits(Rem(v, Pow2(n)), n)
  {
    hide ToBits, Pow2, Quot, Rem;
    ToBitsSplit(v, 0, n);
    ToBitsStep(Quot(v, Pow2(n)), 0);
    assert 0 + n == n;
  }

  lemma Powers()
    ensures Pow2(8) == 256 && Pow2(24) == 0x100_0000 && Pow2(32) == WORD
  {
    hide Pow2;
    Pow2Step(0);
    Pow2Step(1);
    Pow2Step(2);
    Pow2Step(3);
    Pow2Sum(4, 4);
    Pow2Sum(8, 8);
    Pow2Sum(16, 8);
    Pow2Sum(16, 16);
  }

  lemma MulMono(a: nat, b: nat, p: nat)
    requires a <= b
    ensures a * p <= b * p
  {
  }

  lemma MulSwap(a: nat, b: nat)
    ensures a * b == b * a
  {
  }

  lemma MulAssoc(a: nat, b: nat, c: nat)
    ensures a * (b * c) == a * b * c
  {
  }

  lemma Spread(a: nat, b: nat, c: nat)
    ensures (a + b) * c == a * c + b * c
  {
  }

  // ---------- writing ----------

  /** A word whose top live bits are in use, the rest being zero. */
  ghost predicate TopWord(w: nat, live: nat) {
    live <= 32 && w < WORD && w == Quot(w, Pow2(32 - live)) * Pow2(32 - live)
  }

  ghost function TopBits(w: nat, live: nat): (s: seq<bool>)
    requires TopWord(w, live)
    ensures |s| == live
  {
    ToBits(Quot(w, Pow2(32 - live)), live)
  }

  lemma TopWordOf(u: nat, live: nat)
    requires live <= 32 && u < Pow2(live)
    ensures TopWord(u * Pow2(32 - live), live) && TopBits(u * Pow2(32 - live), live) == ToBits(u, live)
  {
    hide ToBits, Pow2, Quot;
    var p := Pow2(32 - live);
    Pow2Sum(live, 32 - live);
    assert live + (32 - live) == 32;
    Powers();
    QuotIs(u * p, p, u, 0);
    MulSwap(p, u);
    MulSwap(p, Pow2(live));
    MulGap(p, u, Pow2(live));
  }

  lemma TopWordIs(w: nat, live: nat) returns (u: nat)
    requires TopWord(w, live)
    ensures live <= 32 && u < Pow2(live) && w == u * Pow2(32 - live) && TopBits(w, live) == ToBits(u, live)
  {
    hide ToBits, Pow2, Quot;
    u := Quot(w, Pow2(32 - live));
    Pow2Sum(live, 32 - live);
    assert live + (32 - live) == 32;
    Powers();
    if u >= Pow2(live) {
      MulMono(Pow2(live), u, Pow2(32 - live));
    }
  }

  lemma ByteParts(w: nat, live: nat, u: nat, q: nat, r: nat)
    requires 8 <= live <= 32 && u < Pow2(live) && w == u * Pow2(32 - live)
    requires u == Pow2(live - 8) * q + r && r < Pow2(live - 8)
    ensures q < 256 && w / 0x100_0000 == q && w * 256 % WORD == r * Pow2(32 - (live - 8))
  {
    hide Pow2;
    var m := live - 8;
    var pm, pl := Pow2(m), Pow2(32 - live);
    Powers();
    Pow2Sum(8, m);
    Pow2Sum(m, 32 - live);
    Pow2Sum(32 - live, 8);
    assert m + (32 - live) == 24 && 32 - m == 32 - live + 8 && 8 + m == live;
    if q >= 256 {
      MulMono(256, q, pm);
      MulSwap(pm, q);
    }
    ByteOfWord(w, q, r, pm, pl);
    MulAssoc(r, pl, 256);
  }

  lemma ByteOfWord(w: nat, q: nat, r: nat, pm: nat, pl: nat)
    requires pm * pl == 0x100_0000 && w == (pm * q + r) * pl && r < pm && q < 256
    ensures w / 0x100_0000 == q && w * 256 % WORD == r * pl * 256
  {
    Spread(pm * q, r, pl);
    MulSwap(pm, q);
    MulAssoc(q, pm, pl);
    MulSwap(pl, r);
    MulSwap(pl, pm);
    MulGap(pl, r, pm);
    ShiftedWord(w, q, r * pl);
  }

  lemma ShiftedWord(w: nat, q: nat, x: nat)
    requires w == 0x100_0000 * q + x && x < 0x100_0000
    ensures w / 0x100_0000 == q && w * 256 % WORD == x * 256
  {
  }

  /** Taking a byte off the top. */
  lemma TopByte(w: nat, live: nat)
    requires TopWord(w, live) && 8 <= live
    ensures w / 0x100_0000 < 256 && TopWord(w * 256 % WORD, live - 8)
    ensures TopBits(w, live) == ToBits(w / 0x100_0000, 8) + TopBits(w * 256 % WORD, live - 8)
  {
    hide ToBits, Pow2, TopBits, TopWord, Quot, Rem;
    var u := TopWordIs(w, live);
    var p := Pow2(live - 8);
    QuotRem(u, p);
    ByteParts(w, live, u, Quot(u, p), Rem(u, p));
    ToBitsSplit(u, 8, live - 8);
    TopWordOf(Rem(u, p), live - 8);
  }

  /** Adding n bits below the live ones. */
  lemma TopPut(w: nat, live: nat, n: nat, v: nat)
    requires TopWord(w, live) && live + n <= 32 && v < Pow2(n)
    ensures v * Pow2(32 - live - n) < Pow2(32 - live)
    ensures TopWord(w + v * Pow2(32 - live - n), live + n)
    ensures TopBits(w + v * Pow2(32 - live - n), live + n) == TopBits(w, live) + ToBits(v, n)
  {
    hide ToBits, Pow2, TopBits, TopWord;
    var u := TopWordIs(w, live);
    var p, pn := Pow2(32 - live - n), Pow2(n);
    Pow2Sum(n, 32 - live - n);
    assert n + (32 - live - n) == 32 - live && 32 - (live + n) == 32 - live - n;
    MulSwap(p, v);
    MulSwap(p, pn);
    MulGap(p, v, pn);
    ToBitsJoin(u, v, live, n);
    Pow2Sum(live, n);
    MulSwap(pn, u);
    MulSwap(pn, Pow2(live));
    MulGap(pn, u, Pow2(live));
    Spread(u * pn, v, p);
    MulAssoc(u, pn, p);
    TopWordOf(u * pn + v, live + n);
  }

  class BitWriter {
    var bsBuff: nat
    var bsLive: int
    var zbits: seq<int>

    ghost predicate Valid()
      reads this
    {
      0 <= bsLive && TopWord(bsBuff, bsLive) && IsBytes(zbits)
    }

    /** Everything written so far. */
    ghost function Written(): (s: seq<bool>)
      requires Valid()
      reads this
    {
      BytesToBits(zbits) + TopBits(bsBuff, bsLive)
    }

    /** BZ2_bsInitWrite. */
    constructor ()
      ensures Valid() && Written() == []
    {
      bsLive := 0;
      bsBuff := 0;
      zbits := [];
      new;
      Powers();
    }

    /** Moves a byte from the word to the output; a partly filled one is followed by zeros. */
    method PutByte()
      requires Valid() && 8 <= bsLive
      modifies this
      ensures Valid() && Written() == old(Written()) && bsLive == old(bsLive) - 8 && |zbits| == old(|zbits|) + 1
    {
      hide TopBits, TopWord, Pow2, ToBits;
      TopByte(bsBuff, bsLive);
      ghost var z := zbits;
      zbits := zbits + [bsBuff / 0x100_0000];
      assert zbits[..|z|] == z;
      bsBuff := bsBuff * 256 % WORD;
      bsLive := bsLive - 8;
    }

    /** bsNEEDW: keeps fewer than eight bits in the word. */
    method NeedW()
      requires Valid()
      modifies this
      ensures Valid() && Written() == old(Written()) && bsLive < 8 && |zbits| >= old(|zbits|)
    {
      hide TopBits, TopWord;
      while bsLive >= 8
        invariant Valid() && Written() == old(Written()) && |zbits| >= old(|zbits|)
        decreases bsLive
      {
        PutByte();
      }
    }

    /** bsW: appends the n low bits of v. The word has room below its live bits, so that the program's
        bitwise or is an addition here. */
    method Put(n: nat, v: nat)
      requires Valid() && 1 <= n <= 24 && v < Pow2(n)
      modifies this
      ensures Valid() && Written() == old(Written()) + ToBits(v, n)
    {
      hide TopBits, TopWord, ToBits, Pow2;
      NeedW();
      TopPut(bsBuff, bsLive, n, v);
      ghost var b := TopBits(bsBuff, bsLive);
      assert BytesToBits(zbits) + (b + ToBits(v, n)) == BytesToBits(zbits) + b + ToBits(v, n);
      bsBuff := bsBuff + v * Pow2(32 - bsLive - n);
      bsLive := bsLive + n;
    }

    /** bsFinishWrite: what was written, padded with zeros to a whole number of bytes. */
    method Finish()
      requires Valid()
      modifies this
      ensures IsBytes(zbits) && old(Written()) <= BytesToBits(zbits) && 8 * |zbits| < |old(Written())| + 8
      ensures forall i :: |old(Written())| <= i < 8 * |zbits| ==> !BytesToBits(zbits)[i]
    {
      hide TopBits, TopWord, ToBits;
      ghost var all := Written();
      NeedW();
      if bsLive > 0 {
        PadWord(bsBuff, bsLive);
        ghost var n := 8 - bsLive;
        assert BytesToBits(zbits) + (TopBits(bsBuff, bsLive) + ToBits(0, n)) == all + ToBits(0, n);
        TopByte(bsBuff, 8);
        NoBits(bsBuff * 256 % WORD);
        ghost var z := zbits;
        zbits := zbits + [bsBuff / 0x100_0000];
        assert zbits[..|z|] == z;
        bsBuff := bsBuff * 256 % WORD;
        bsLive := bsLive - 8;
        assert BytesToBits(zbits) == all + ToBits(0, n);
        ZeroBits(n);
      } else {
        NoBits(bsBuff);
        assert BytesToBits(zbits) == all;
      }
    }
  }

  lemma NoBits(w: nat)
    requires TopWord(w, 0)
    ensures TopBits(w, 0) == []
  {
  }

  lemma PadWord(w: nat, live: nat)
    requires TopWord(w, live) && live <= 8
    ensures TopWord(w, 8) && TopBits(w, 8) == TopBits(w, live) + ToBits(0, 8 - live)
  {
    hide TopBits, TopWord, ToBits, Pow2;
    TopPut(w, live, 8 - live, 0);
  }

  lemma {:induction false} ZeroBits(n: nat)
    ensures forall i :: 0 <= i < n ==> !ToBits(0, n)[i]
  {
    if n > 0 {
      ZeroBits(n - 1);
    }
  }

  // ---------- reading ----------

  /** The outcome of reading something: a value and the position behind it, a need for more input, data no compressor
      writes, or data on which a store would go past the end of an array. */
  datatype Got<T> = Got(value: T, pos: nat) | Starved | Corrupt | Overrun

  /** n bits at pos. */
  function Take(bits: seq<bool>, pos: nat, n: nat): Got<int> {
    if pos + n <= |bits| then Got(FromBits(bits[pos..pos + n]), pos + n) else Starved
  }

  /** s stands in bits at pos. */
  ghost predicate Has(bits: seq<bool>, pos: nat, s: seq<bool>) {
    pos + |s| <= |bits| && bits[pos..pos + |s|] == s
  }

  lemma HasSplit(bits: seq<bool>, pos: nat, s: seq<bool>, t: seq<bool>)
    requires Has(bits, pos, s + t)
    ensures Has(bits, pos, s) && Has(bits, pos + |s|, t)
  {
    assert bits[pos..pos + |s|] == bits[pos..pos + |s + t|][..|s|];
    assert bits[pos + |s|..pos + |s| + |t|] == bits[pos..pos + |s + t|][|s|..];
  }

  /** Written numbers are read back. */
  lemma TakeWritten(bits: seq<bool>, pos: nat, v: nat, n: nat)
    requires Has(bits, pos, ToBits(v, n)) && v < Pow2(n)
    ensures Take(bits, pos, n) == Got(v, pos + n)
  {
    BitsRoundTrip(v, n);
  }

  lemma TakeBit(bits: seq<bool>, pos: nat)
    ensures pos < |bits| ==> Take(bits, pos, 1) == Got(Bit(bits[pos]), pos + 1)
    ensures pos >= |bits| ==> Take(bits, pos, 1) == Starved
  {
    if pos < |bits| {
      var s := bits[pos..pos + 1];
      assert s[..0] == [] && FromBits(s[..0]) == 0;
    }
  }

  lemma {:induction false} BytesToBitsPrefix(s: seq<int>, k: nat)
    requires IsBytes(s) && k <= |s|
    ensures BytesToBits(s[..k]) == BytesToBits(s)[..8 * k]
    decreases |s|
  {
    if k == |s| {
      assert s[..k] == s;
    } else {
      BytesToBitsPrefix(s[..|s|-1], k);
      assert s[..|s|-1][..k] == s[..k];
    }
  }

  lemma ByteBits(s: seq<int>, k: nat)
    requires IsBytes(s) && k < |s|
    ensures BytesToBits(s)[8 * k..8 * k + 8] == ToBits(s[k], 8)
  {
    BytesToBitsPrefix(s, k);
    BytesToBitsPrefix(s, k + 1);
    assert s[..k + 1][..k] == s[..k];
    assert BytesToBits(s)[8 * k..8 * k + 8] == BytesToBits(s)[..8 * (k + 1)][8 * k..];
  }

  lemma SplitAt(b: seq<bool>, p: nat, q: nat, s: seq<bool>, t: seq<bool>)
    requires p <= q <= |b| && b[p..q] == s + t
    ensures b[p..p + |s|] == s && b[p + |s|..q] == t
  {
    assert b[p..p + |s|] == b[p..q][..|s|];
    assert b[p + |s|..q] == b[p..q][|s|..];
  }

  class BitReader {
    const input: seq<int>
    var next: nat
    var bsBuff: nat
    var bsLive: nat

    ghost predicate Valid()
      reads this
    {
      && IsBytes(input) && next <= |input| && bsLive <= 31 && bsLive <= 8 * next && bsBuff < WORD
      && ToBits(bsBuff, bsLive) == Bits()[Pos()..8 * next]
    }

    ghost function Bits(): (b: seq<bool>)
      requires IsBytes(input)
      ensures |b| == 8 * |input|
    {
      BytesToBits(input)
    }

    /** The first bit not yet delivered. */
    function Pos(): nat
      requires bsLive <= 8 * next
      reads this
    {
      8 * next - bsLive
    }

    constructor (data: seq<int>)
      requires IsBytes(data)
      ensures Valid() && Pos() == 0 && input == data
    {
      input := data;
      next := 0;
      bsBuff := 0;
      bsLive := 0;
    }

    /** Moves one byte of input into the word; what is shifted out at the top has been delivered before. */
    method FeedByte()
      requires Valid() && next < |input| && bsLive < 24
      modifies this
      ensures Valid() && Pos() == old(Pos()) && bsLive == old(bsLive) + 8 && next == old(next) + 1
    {
      hide ToBits, Pow2;
      ByteBits(input, next);
      FedWord(bsBuff, bsLive, input[next]);
      ghost var b := Bits();
      assert b[Pos()..8 * next] + b[8 * next..8 * next + 8] == b[Pos()..8 * next + 8];
      bsBuff := (bsBuff * 256 % WORD) + input[next];
      bsLive := bsLive + 8;
      next := next + 1;
    }

    /** GET_BITS: n bits once they are there; otherwise all input has been taken in and nothing delivered. */
    method GetBits(n: nat) returns (res: Got<int>)
      requires Valid() && 1 <= n <= 24
      modifies this
      ensures Valid() && res == Take(Bits(), old(Pos()), n)
      ensures Pos() == if res.Got? then res.pos else old(Pos())
      ensures res.Got? ==> 0 <= res.value < Pow2(n)
    {
      hide ToBits, Pow2, FromBits, Quot, Rem;
      while bsLive < n
        invariant Valid() && Pos() == old(Pos())
        decreases |input| - next
      {
        if next == |input| {
          return Starved;
        }
        FeedByte();
      }
      ghost var b, p := Bits(), Pos();
      ToBitsSplit(bsBuff, n, bsLive - n);
      ghost var w := Quot(bsBuff, Pow2(bsLive - n));
      SplitAt(b, p, 8 * next, ToBits(w, n), ToBits(Rem(bsBuff, Pow2(bsLive - n)), bsLive - n));
      ToBitsLow(bsBuff, bsLive - n);
      assert ToBits(bsBuff, bsLive - n) == b[p + n..8 * next];
      ToBitsLow(w, n);
      QuotRem(w, Pow2(n));
      BitsRoundTrip(Rem(w, Pow2(n)), n);
      var v := Rem(Quot(bsBuff, Pow2(bsLive - n)), Pow2(n));
      bsLive := bsLive - n;
      res := Got(v, Pos());
    }

    method GetBit() returns (res: Got<int>)
      requires Valid()
      modifies this
      ensures Valid() && Pos() == if res.Got? then res.pos else old(Pos())
      ensures res == if old(Pos()) < |Bits()| then Got(Bit(Bits()[old(Pos())]), old(Pos()) + 1) else Starved
    {
      TakeBit(Bits(), Pos());
      res := GetBits(1);
    }
  }

  lemma FedWord(w: nat, live: nat, c: nat)
    requires live <= 24 && c < 256
    ensures w * 256 % WORD + c < WORD
    ensures ToBits(w * 256 % WORD + c, live + 8) == ToBits(w, live) + ToBits(c, 8)
  {
    hide ToBits, Pow2, Quot, Rem;
    Powers();
    var q, r := w / 0x100_0000, w % 0x100_0000;
    ShiftedWord(w, q, r);
    ToBitsJoin(r, c, live, 8);
    LowerBits(w, r, q, live);
  }

  lemma LowerBits(w: nat, r: nat, q: nat, live: nat)
    requires live <= 24 && w == 0x100_0000 * q + r
    ensures ToBits(w, live) == ToBits(r, live)
  {
    hide ToBits, Pow2, Quot, Rem;
    var p, t := Pow2(live), Pow2(24 - live);
    Pow2Sum(live, 24 - live);
    assert live + (24 - live) == 24;
    Powers();
    ToBitsLow(w, live);
    ToBitsLow(r, live);
    QuotRem(r, p);
    MulAssoc(p, t, q);
    MulSwap(p, t * q);
    MulSwap(p, Quot(r, p));
    Spread(t * q, Quot(r, p), p);
    MulSwap(p, t * q + Quot(r, p));
    QuotIs(w, p, t * q + Quot(r, p), Rem(r, p));
  }
}

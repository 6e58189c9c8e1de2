/** The bit buffers of deflate and inflate: 16 bits filled from the bottom while writing, an accumulator filled from
    the top and emptied from the bottom while reading. */
module ZBits {
  import opened Bits
  import opened BitIO
  import opened Bytes
  import opened HuffStep

  const BUF_SIZE := 16

  lemma Pow16()
    ensures Pow2(16) == 0x1_0000 && Pow2(8) == 256
  {
    hide Pow2;
    Powers();
    Pow2Sum(8, 8);
  }

  /** value << valid put on top of the buffer. */
  function OnTop(buf: nat, valid: nat, value: nat): nat {
    buf + Pow2(valid) * value
  }

  /** What the buffer holds after value has been put on top of it. */
  lemma PutOnTop(buf: nat, valid: nat, value: nat, length: nat)
    requires buf < Pow2(valid) && value < Pow2(length)
    ensures BitsOf(OnTop(buf, valid, value), valid + length) == BitsOf(buf, valid) + BitsOf(value, length)
    ensures OnTop(buf, valid, value) < Pow2(valid + length)
  {
    hide Value, Pow2, BitsOf;
    var s := BitsOf(buf, valid) + BitsOf(value, length);
    ValueConcat(BitsOf(buf, valid), BitsOf(value, length));
    BitsOfValue(buf, valid);
    BitsOfValue(value, length);
    ValueBits(s);
    ValueBound(s);
  }

  lemma CutBits(c: seq<bool>, n: nat)
    requires n <= |c|
    ensures Quot(Value(c), Pow2(n)) == Value(c[n..]) && Rem(Value(c), Pow2(n)) == Value(c[..n])
    ensures BitsOf(Value(c[n..]), |c| - n) == c[n..] && BitsOf(Value(c[..n]), n) == c[..n]
    ensures Value(c[n..]) < Pow2(|c| - n) && Value(c[..n]) < Pow2(n)
  {
    hide Value, Pow2, BitsOf;
    ValueCut(c, n);
    ValueBits(c[n..]);
    ValueBits(c[..n]);
    ValueBound(c[n..]);
    ValueBound(c[..n]);
  }

  /** A full buffer leaves; what did not fit is the top of value. */
  lemma Overflow(buf: nat, valid: nat, value: nat, length: nat)
    requires buf < Pow2(valid) && value < Pow2(length) && valid <= 16 < valid + length
    ensures Quot(value, Pow2(16 - valid)) < Pow2(valid + length - 16)
    ensures Rem(OnTop(buf, valid, value), Pow2(16)) < Pow2(16)
    ensures BitsOf(Rem(OnTop(buf, valid, value), Pow2(16)), 16) +
        BitsOf(Quot(value, Pow2(16 - valid)), valid + length - 16)
      == BitsOf(buf, valid) + BitsOf(value, length)
  {
    hide Value, Pow2, BitsOf, OnTop, Quot, Rem;
    var c := BitsOf(value, length);
    var s := BitsOf(buf, valid) + c;
    PutOnTop(buf, valid, value, length);
    BitsOfValue(OnTop(buf, valid, value), valid + length);
    BitsOfValue(value, length);
    CutBits(s, 16);
    CutBits(c, 16 - valid);
    assert s[16..] == c[16 - valid..] && s == s[..16] + s[16..];
  }

  /** A 16-bit value as two bytes, low byte first. */
  lemma TwoBytes(w: nat)
    requires w < Pow2(16)
    ensures w / 256 < 256 && BitsOf(w, 16) == BitsOf(w % 256, 8) + BitsOf(w / 256, 8)
  {
    hide Value, Pow2, BitsOf;
    Pow16();
    var s := BitsOf(w, 16);
    BitsOfValue(w, 16);
    ValueCut(s, 8);
    ValueBits(s[..8]);
    ValueBits(s[8..]);
    ValueBound(s[8..]);
    assert s == s[..8] + s[8..];
  }

  /** How many bits are missing up to a byte boundary. */
  function ToByte(n: nat): nat {
    (8 - n % 8) % 8
  }

  lemma PadSize(n: nat)
    requires n <= 16
    ensures ToByte(n) == if n > 8 then 16 - n else if n > 0 then 8 - n else 0
  {
  }

  class BitSink {
    /** All bytes put so far; those from start on are still in pending_buf. */
    var pending: seq<int>
    var start: nat
    var biBuf: nat
    var biValid: nat
    /** Only shorts have been put since start, each with bits behind it. */
    ghost var shorts: bool

    ghost predicate Valid()
      reads this
    {
      && IsBytes(pending) && biValid <= 16 && biBuf < Pow2(biValid) && start <= |pending|
      && (shorts ==> (|pending| - start) % 2 == 0 && (|pending| > start ==> biValid >= 1))
    }

    /** All bits sent so far. */
    ghost function Written(): (s: seq<bool>)
      requires Valid()
      reads this
      ensures |s| == 8 * |pending| + biValid
    {
      LowBits(pending) + BitsOf(biBuf, biValid)
    }

    constructor ()
      ensures Valid() && Written() == [] && Resting()
    {
      pending, start, biBuf, biValid, shorts := [], 0, 0, 0, true;
    }

    /** Nothing waits in pending_buf, and less than a byte in the bit buffer. */
    ghost predicate Resting()
      reads this
    {
      Valid() && shorts && start == |pending| && biValid < 8
    }

    method PutByte(c: nat)
      requires IsBytes(pending) && c < 256
      modifies `pending
      ensures IsBytes(pending) && pending == old(pending) + [c]
      ensures LowBits(pending) == LowBits(old(pending)) + BitsOf(c, 8)
    {
      LowBitsAppend(pending, c);
      pending := pending + [c];
    }

    method PutShort(w: nat)
      requires IsBytes(pending) && w < Pow2(16)
      modifies `pending
      ensures IsBytes(pending) && LowBits(pending) == LowBits(old(pending)) + BitsOf(w, 16)
      ensures pending == old(pending) + [w % 256, w / 256]
    {
      hide Pow2, BitsOf, LowBits;
      TwoBytes(w);
      ghost var before := LowBits(pending);
      PutByte(w % 256);
      PutByte(w / 256);
      assert before + BitsOf(w % 256, 8) + BitsOf(w / 256, 8) == before + (BitsOf(w % 256, 8) + BitsOf(w / 256, 8));
    }

    /** send_bits: the low length bits of value, lowest first. */
    method SendBits(value: nat, length: nat)
      requires Valid() && 1 <= length <= 16 && value < Pow2(length)
      modifies `pending, `biBuf, `biValid
      ensures Valid() && Written() == old(Written()) + BitsOf(value, length)
    {
      hide Pow2, BitsOf, LowBits, OnTop, Quot, Rem;
      ghost var p, b, n := LowBits(pending), biBuf, biValid;
      if biValid > BUF_SIZE - length {
        Overflow(biBuf, biValid, value, length);
        PutShort(Rem(OnTop(biBuf, biValid, value), Pow2(BUF_SIZE)));
        biBuf := Quot(value, Pow2(BUF_SIZE - biValid));
        biValid := biValid + length - BUF_SIZE;
        Regroup(p, BitsOf(Rem(OnTop(b, n, value), Pow2(16)), 16), BitsOf(biBuf, biValid), BitsOf(b, n),
            BitsOf(value, length));
      } else {
        PutOnTop(biBuf, biValid, value, length);
        biBuf := OnTop(biBuf, biValid, value);
        biValid := biValid + length;
        Regroup(p, BitsOf(biBuf, biValid), [], BitsOf(b, n), BitsOf(value, length));
        assert p + BitsOf(biBuf, biValid) + [] == p + BitsOf(biBuf, biValid);
      }
    }

    lemma Regroup(p: seq<bool>, x: seq<bool>, y: seq<bool>, u: seq<bool>, v: seq<bool>)
      requires x + y == u + v
      ensures p + x + y == p + u + v
    {
      assert p + x + y == p + (x + y);
      assert p + u + v == p + (u + v);
    }

    /** bi_flush: whole bytes leave the buffer. */
    method Flush()
      requires Valid()
      modifies `pending, `biBuf, `biValid, `shorts
      ensures Valid() && biValid < 8 && Written() == old(Written()) && old(pending) <= pending
      ensures old(biValid) == 0 ==> pending == old(pending)
    {
      hide Pow2, BitsOf, LowBits, Quot, Rem;
      shorts := false;
      ghost var p, b, n := LowBits(pending), biBuf, biValid;
      if biValid == 16 {
        PutShort(biBuf);
        NoBitsOf(0);
        biBuf := 0;
        biValid := 0;
        assert LowBits(pending) + [] == LowBits(pending);
      } else if biValid >= 8 {
        FirstByte(biBuf, biValid);
        PutByte(Rem(biBuf, Pow2(8)));
        biBuf := Quot(biBuf, Pow2(8));
        biValid := biValid - 8;
        assert p + BitsOf(Rem(b, Pow2(8)), 8) + BitsOf(biBuf, biValid) ==
            p + (BitsOf(Rem(b, Pow2(8)), 8) + BitsOf(biBuf, biValid));
      }
    }

    /** flush_pending, when the caller has room: all whole bytes leave. */
    method FlushPending()
      requires Valid()
      modifies this
      ensures Resting() && Written() == old(Written()) && old(pending) <= pending
      ensures old(biValid) == 0 ==> pending == old(pending) && biValid == 0
    {
      hide Pow2, BitsOf, LowBits;
      Flush();
      start := |pending|;
      shorts := true;
    }

    /** bi_windup: fills up the last byte with zeros. */
    method Windup()
      requires Valid()
      modifies `pending, `biBuf, `biValid, `shorts
      ensures Valid() && biValid == 0 && Written() == old(Written()) + Zeros(ToByte(old(biValid))) && !shorts
    {
      hide Pow2, BitsOf, LowBits, ToByte;
      shorts := false;
      ghost var p, b, n := LowBits(pending), biBuf, biValid;
      PadSize(n);
      if biValid > 8 {
        PadZeros(b, n, 16);
        PutShort(biBuf);
      } else if biValid > 0 {
        PadZeros(b, n, 8);
        Pow16();
        PutByte(biBuf);
      } else {
        NoBitsOf(b);
      }
      biBuf := 0;
      biValid := 0;
      NoBitsOf(0);
      assert Written() == p + (BitsOf(b, n) + Zeros(ToByte(n)));
    }
  }

  lemma FirstByte(b: nat, n: nat)
    requires 8 <= n && b < Pow2(n)
    ensures Rem(b, Pow2(8)) < 256 && Quot(b, Pow2(8)) < Pow2(n - 8)
    ensures BitsOf(b, n) == BitsOf(Rem(b, Pow2(8)), 8) + BitsOf(Quot(b, Pow2(8)), n - 8)
  {
    hide Value, Pow2, BitsOf, Quot, Rem;
    Pow16();
    BitsOfValue(b, n);
    var c := BitsOf(b, n);
    CutBits(c, 8);
    assert c == c[..8] + c[8..];
  }

  lemma NoBitsOf(b: nat)
    ensures BitsOf(b, 0) == [] && Zeros(0) == [] && 0 < Pow2(0)
  {
  }

  lemma PadZeros(b: nat, n: nat, m: nat)
    requires n <= m && b < Pow2(n)
    ensures b < Pow2(m) && BitsOf(b, m) == BitsOf(b, n) + Zeros(m - n)
  {
    hide Value, Pow2, BitsOf;
    ValueExtended(BitsOf(b, n), m - n);
    BitsOfValue(b, n);
    ValueBits(BitsOf(b, n) + Zeros(m - n));
    ValueBound(BitsOf(b, n) + Zeros(m - n));
  }

  // ---------- reading ----------

  /** The outcome of reading: a value and what follows it, a need for more input, or data no compressor writes. */
  datatype Read<T> = Val(value: T, rest: seq<bool>) | Short | Bad

  function TakeLow(bits: seq<bool>, n: nat): Read<nat> {
    if n <= |bits| then Val(Value(bits[..n]), bits[n..]) else Short
  }

  lemma TakeSent(value: nat, n: nat, rest: seq<bool>)
    requires value < Pow2(n)
    ensures TakeLow(BitsOf(value, n) + rest, n) == Val(value, rest)
  {
    hide Value, Pow2, BitsOf;
    var b := BitsOf(value, n) + rest;
    assert b[..n] == BitsOf(value, n) && b[n..] == rest;
    BitsOfValue(value, n);
  }
}

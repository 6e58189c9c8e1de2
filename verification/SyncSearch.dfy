/** inflateSync: the search for the mark behind which decoding can start again. */
module SyncSearch {
  import opened Bits
  import opened BitIO
  import opened Bytes

  /** The end of the empty stored block that a flush leaves: no bytes, and the complement of that. */
  const MARK: seq<int> := [0, 0, 0xff, 0xff]

  ghost predicate EndsWith(s: seq<int>, k: nat) {
    k <= |s| && k <= |MARK| && s[|s| - k..] == MARK[..k]
  }

  /** How much of the mark the bytes end with. */
  ghost function Border(s: seq<int>): (k: nat)
    ensures k <= |MARK| && EndsWith(s, k)
    ensures forall j :: k < j <= |MARK| ==> !EndsWith(s, j)
  {
    if EndsWith(s, 4) then 4
    else if EndsWith(s, 3) then 3
    else if EndsWith(s, 2) then 2
    else if EndsWith(s, 1) then 1
    else 0
  }

  lemma EndsNext(s: seq<int>, b: int, k: nat)
    requires 1 <= k <= |MARK|
    ensures EndsWith(s + [b], k) <==> EndsWith(s, k - 1) && b == MARK[k - 1]
  {
    var t := s + [b];
    if k <= |t| {
      assert t[|t| - k..] == s[|s| - (k - 1)..] + [b];
      assert MARK[..k] == MARK[..k - 1] + [MARK[k - 1]];
    }
  }

  /** Of the beginnings of the mark only the two zeros end with another one. */
  lemma Shorter(s: seq<int>)
    ensures EndsWith(s, 0)
    ensures EndsWith(s, 2) ==> EndsWith(s, 1)
    ensures EndsWith(s, 3) ==> !EndsWith(s, 2) && !EndsWith(s, 1)
  {
    assert MARK[..3][2] == 0xff && MARK[..2][1] == 0 && MARK[..1][0] == 0;
    if EndsWith(s, 3) {
      assert s[|s| - 3..][2] == s[|s| - 1];
    }
    if EndsWith(s, 2) {
      assert s[|s| - 2..][1] == s[|s| - 1];
    }
    if EndsWith(s, 1) {
      assert s[|s| - 1..][0] == s[|s| - 1];
    }
  }

  /** One more byte: with the next byte of the mark one further; a zero where 0xff was expected leaves two zeros or
      one. */
  lemma BorderNext(s: seq<int>, b: int)
    requires Border(s) < |MARK|
    ensures Border(s + [b]) ==
            if b == (if Border(s) < 2 then 0 else 0xff) then Border(s) + 1 else if b != 0 then 0 else 4 - Border(s)
  {
    hide EndsWith;
    EndsNext(s, b, 1);
    EndsNext(s, b, 2);
    EndsNext(s, b, 3);
    EndsNext(s, b, 4);
    Shorter(s);
  }

  /** syncsearch, called for one stretch of bytes after the other: it stops behind the first mark. */
  method SyncSearch(have0: nat, buf: seq<int>, ghost past: seq<int>) returns (have: nat, next: nat)
    requires have0 == Border(past)
    ensures next <= |buf| && have == Border(past + buf[..next])
    ensures have < |MARK| ==> next == |buf|
    ensures forall j :: 0 <= j < next ==> Border(past + buf[..j]) < |MARK|
  {
    hide Border;
    have, next := have0, 0;
    assert past + buf[..0] == past;
    while next < |buf| && have < 4
      invariant 0 <= next <= |buf| && have == Border(past + buf[..next])
      invariant forall j :: 0 <= j < next ==> Border(past + buf[..j]) < |MARK|
    {
      assert past + buf[..next + 1] == past + buf[..next] + [buf[next]];
      BorderNext(past + buf[..next], buf[next]);
      if buf[next] == (if have < 2 then 0 else 0xff) {
        have := have + 1;
      } else if buf[next] != 0 {
        have := 0;
      } else {
        have := 4 - have;
      }
      next := next + 1;
    }
  }

  // ---------- the bytes held in the accumulator ----------

  /** The q low bytes of v, lowest first. */
  function LowBytes(v: nat, q: nat): (b: seq<int>)
    ensures IsBytes(b) && |b| == q
  {
    if q == 0 then [] else [v % 256] + LowBytes(v / 256, q - 1)
  }

  /** What inflateSync searches before any input: shifted up to a byte boundary, the accumulator is taken apart byte
      by byte. */
  function Held(hold: nat, bits: nat): (b: seq<int>)
    ensures IsBytes(b)
  {
    LowBytes(hold * Pow2(bits % 8), bits / 8)
  }

  method HeldBytes(hold0: nat, bits0: nat) returns (buf: seq<int>)
    requires bits0 <= 32 && hold0 < Pow2(bits0)
    ensures buf == Held(hold0, bits0)
  {
    hide Pow2, LowBytes;
    var hold: nat := hold0 * Pow2(bits0 % 8);
    var bits := bits0 - bits0 % 8;
    buf := [];
    ghost var v, q: nat := hold, bits0 / 8;
    assert buf + LowBytes(v, q) == LowBytes(v, q);
    while bits >= 8
      invariant bits == 8 * q && buf + LowBytes(hold, q) == LowBytes(v, bits0 / 8)
    {
      BytesOut(buf, hold, q);
      buf := buf + [hold % 256];
      hold := hold / 256;
      bits := bits - 8;
      q := q - 1;
    }
    BytesEnd(buf, hold);
  }

  lemma BytesEnd(buf: seq<int>, v: nat)
    ensures buf + LowBytes(v, 0) == buf
  {
  }

  lemma BytesOut(buf: seq<int>, v: nat, q: nat)
    requires q >= 1
    ensures buf + LowBytes(v, q) == buf + [v % 256] + LowBytes(v / 256, q - 1)
  {
  }

  lemma {:induction false} LowBytesBits(v: nat, q: nat)
    ensures LowBits(LowBytes(v, q)) == BitsOf(v, 8 * q)
  {
    hide LowBits, BitsOf;
    if q == 0 {
      NoLowBits(v);
    } else {
      LowBytesBits(v / 256, q - 1);
      LowBitsPrepend(v % 256, LowBytes(v / 256, q - 1));
      ByteSplit(v, 8 * (q - 1));
    }
  }

  lemma NoLowBits(v: nat)
    ensures LowBits([]) == [] == BitsOf(v, 0)
  {
  }

  lemma ByteSplit(v: nat, n: nat)
    ensures BitsOf(v, 8 + n) == BitsOf(v % 256, 8) + BitsOf(v / 256, n)
  {
    hide BitsOf, Dropped;
    SmallPowers();
    BitsSplit(v, 8, n);
    BitsAbove(v % 256, v / 256, 8);
    DroppedByte(v);
  }

  /** Without the n lowest bits. */
  function Dropped(v: nat, n: nat): nat {
    if n == 0 then v else Dropped(v / 2, n - 1)
  }

  lemma DroppedByte(v: nat)
    ensures Dropped(v, 8) == v / 256
  {
    DroppedFour(v, 8);
    DroppedFour(v / 16, 4);
  }

  lemma DroppedFour(v: nat, n: nat)
    requires n >= 4
    ensures Dropped(v, n) == Dropped(v / 16, n - 4)
    ensures Dropped(v, 0) == v
  {
    assert Dropped(v, n) == Dropped(v / 2, n - 1);
    assert Dropped(v / 2, n - 1) == Dropped(v / 4, n - 2);
    assert Dropped(v / 4, n - 2) == Dropped(v / 8, n - 3);
    assert Dropped(v / 8, n - 3) == Dropped(v / 16, n - 4);
  }

  lemma {:induction false} DroppedPow(n: nat)
    ensures Dropped(Pow2(n), n) == 1
  {
    if n > 0 {
      DroppedPow(n - 1);
    }
  }

  lemma {:induction false} BitsSplit(v: nat, a: nat, b: nat)
    ensures BitsOf(v, a + b) == BitsOf(v, a) + BitsOf(Dropped(v, a), b)
    decreases a
  {
    if a > 0 {
      BitsSplit(v / 2, a - 1, b);
      assert a + b - 1 == a - 1 + b;
    }
  }

  lemma {:induction false} BitsAbove(v: nat, w: nat, n: nat)
    ensures BitsOf(v + Pow2(n) * w, n) == BitsOf(v, n)
  {
    if n > 0 {
      var m := Pow2(n - 1) * w;
      MulAssoc(2, Pow2(n - 1), w);
      assert Pow2(n) * w == 2 * m;
      BitsAbove(v / 2, w, n - 1);
    }
  }

  /** The bytes held are searched as they stand in the stream, for whatever they are, only when the accumulator holds
      whole bytes or no whole byte: shifting up instead of down puts zeros in front of them. */
  lemma HeldInOrder(bits: nat)
    ensures (forall hold: nat :: hold < Pow2(bits) ==> LowBits(Held(hold, bits)) == BitsOf(hold, bits)[bits % 8..]) <==>
            (bits % 8 == 0 || bits < 8)
  {
    hide Pow2, BitsOf, LowBits, Held;
    if bits % 8 == 0 || bits < 8 {
      forall hold: nat | hold < Pow2(bits)
        ensures LowBits(Held(hold, bits)) == BitsOf(hold, bits)[bits % 8..]
      {
        HeldWhole(hold, bits);
      }
    } else {
      HeldShifted(bits);
      Pow2Monotone(bits % 8 + 1, bits);
      Pow2Step(bits % 8);
    }
  }

  lemma HeldWhole(hold: nat, bits: nat)
    requires bits % 8 == 0 || bits < 8
    ensures LowBits(Held(hold, bits)) == BitsOf(hold, bits)[bits % 8..]
  {
    hide BitsOf, LowBits;
    LowBytesBits(hold * Pow2(bits % 8), bits / 8);
    if bits % 8 == 0 {
      assert hold * Pow2(0) == hold && 8 * (bits / 8) == bits;
    } else {
      NoLowBits(hold * Pow2(bits % 8));
    }
  }

  /** The single bit behind the byte boundary gets lost. */
  lemma HeldShifted(bits: nat)
    requires bits % 8 > 0 && bits >= 8
    ensures LowBits(Held(Pow2(bits % 8), bits)) != BitsOf(Pow2(bits % 8), bits)[bits % 8..]
  {
    hide Pow2, LowBits;
    var s, p := bits % 8, Pow2(bits % 8);
    LowBytesBits(p * p, bits / 8);
    BitsSplit(p, s, bits - s);
    DroppedPow(s);
    assert s + (bits - s) == bits;
    Pow2Step(s - 1);
    EvenSquare(p, Pow2(s - 1));
    assert !BitsOf(p * p, 8 * (bits / 8))[0];
  }

  lemma EvenSquare(p: nat, h: nat)
    requires p == 2 * h
    ensures p * p % 2 == 0
  {
    assert p * p == 2 * (h * p);
  }

  // ---------- what that does to the search ----------

  /** The whole bytes of the accumulator as they stand in the stream. */
  function InOrder(hold: nat, bits: nat): (b: seq<int>)
    ensures IsBytes(b) && |b| == bits / 8
  {
    LowBytes(Quot(hold, Pow2(bits % 8)), bits / 8)
  }

  lemma {:induction false} DroppedIs(v: nat, n: nat)
    ensures Dropped(v, n) == Quot(v, Pow2(n))
  {
    hide Quot, Rem;
    if n == 0 {
      QuotIs(v, 1, v, 0);
    } else {
      var p, q, r := Pow2(n - 1), Quot(v / 2, Pow2(n - 1)), Rem(v / 2, Pow2(n - 1));
      DroppedIs(v / 2, n - 1);
      QuotRem(v / 2, p);
      MulAssoc(2, p, q);
      QuotIs(v, 2 * p, q, 2 * r + v % 2);
    }
  }

  /** These are the bytes whose bits are still to be read. */
  lemma InOrderBits(hold: nat, bits: nat)
    ensures LowBits(InOrder(hold, bits)) == BitsOf(hold, bits)[bits % 8..]
  {
    hide LowBits, BitsOf, Pow2, LowBytes, Dropped;
    DroppedIs(hold, bits % 8);
    LowBytesBits(Quot(hold, Pow2(bits % 8)), bits / 8);
    BitsSplit(hold, bits % 8, 8 * (bits / 8));
    assert bits % 8 + 8 * (bits / 8) == bits;
  }

  /** The search finds a mark in the bytes. */
  ghost predicate Found(s: seq<int>) {
    exists j :: 0 <= j <= |s| && Border(s[..j]) == |MARK|
  }

  /** Among the first four bytes only the mark itself is one. */
  lemma WholeMark(s: seq<int>)
    requires |s| <= 4
    ensures Border(s) == |MARK| <==> s == MARK
  {
    if |s| == 4 {
      assert s[0..] == s && MARK[..4] == MARK;
    }
  }

  lemma FoundInFour(s: seq<int>)
    requires |s| <= 4
    ensures Found(s) <==> s == MARK
  {
    hide Border;
    forall j | 0 <= j <= |s|
      ensures Border(s[..j]) == |MARK| <==> s[..j] == MARK
    {
      WholeMark(s[..j]);
    }
    assert s[..|s|] == s;
    if s != MARK {
      forall j | 0 <= j <= |s|
        ensures s[..j] != MARK
      {
        assert |s[..j]| == j;
      }
    }
  }

  /** With two whole bytes and half a byte in the accumulator and two more bytes to come, a mark that stands in the
      stream is missed, and one is found where none stands. */
  lemma MissedAndInvented()
    ensures Found(InOrder(0xf, 20) + [0xff, 0xff]) && !Found(Held(0xf, 20) + [0xff, 0xff])
    ensures !Found(InOrder(0xf000, 20) + [0xff, 0xff]) && Found(Held(0xf000, 20) + [0xff, 0xff])
  {
    hide Found;
    SmallPowers();
    TwoHeld(0xf);
    TwoHeld(0xf000);
    Differ(0, 0);
    Differ(0xf0, 0);
    Differ(0, 0xf);
    assert InOrder(0xf, 20) + [0xff, 0xff] == [0, 0, 0xff, 0xff] == Held(0xf000, 20) + [0xff, 0xff];
    assert Held(0xf, 20) + [0xff, 0xff] == [0xf0, 0, 0xff, 0xff];
    assert InOrder(0xf000, 20) + [0xff, 0xff] == [0, 0xf, 0xff, 0xff];
  }

  lemma Differ(a: int, b: int)
    ensures Found([a, b, 0xff, 0xff]) <==> a == b == 0
  {
    hide Found;
    var s := [a, b, 0xff, 0xff];
    FoundInFour(s);
    assert s == MARK <==> s[0] == MARK[0] && s[1] == MARK[1];
  }

  lemma TwoHeld(hold: nat)
    ensures InOrder(hold, 20) == [hold / 16 % 256, hold / 16 / 256 % 256]
    ensures Held(hold, 20) == [hold * 16 % 256, hold * 16 / 256 % 256]
  {
    SmallPowers();
    TwoLow(hold / 16);
    TwoLow(hold * 16);
  }

  lemma TwoLow(v: nat)
    ensures LowBytes(v, 2) == [v % 256, v / 256 % 256]
  {
    assert LowBytes(v / 256, 1) == [v / 256 % 256] + LowBytes(v / 256 / 256, 0);
  }
}

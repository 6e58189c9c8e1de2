/** CRC-32: the shift register, the tables that take in a byte or a word at a time, and the matrices that combine
    the checksums of two strings. */
module Crc32 {
  import opened Bytes
  import opened Bits
  import opened Word32

  /** The polynomial without its leading term, lowest power in the highest bit. */
  function Poly(): Word {
    BitsOf(0xedb88320, 32)
  }

  // ---------- the shift register ----------

  /** One zero bit enters: the register is multiplied by x modulo the polynomial. */
  function Step(c: Word): Word {
    if Odd(c) then Xor(Poly(), Half(c)) else Half(c)
  }

  /** n zero bits. */
  function Steps(n: nat, c: Word): Word {
    if n == 0 then c else Steps(n - 1, Step(c))
  }

  /** Any bit enters: a one adds x^32. */
  function Enter(c: Word, bit: bool): Word {
    if bit then Xor(Step(c), Poly()) else Step(c)
  }

  /** Bits from the i-th on. */
  function EnterBits(c: Word, s: seq<bool>, i: nat): Word
    requires i <= |s|
    decreases |s| - i
  {
    if i == |s| then c else EnterBits(Enter(c, s[i]), s, i + 1)
  }

  /** The register after a message, bit by bit, the lowest bit of every byte first. */
  function Register(c: Word, s: seq<int>): Word
    requires IsBytes(s)
  {
    if s == [] then c else EnterBits(Register(c, s[..|s|-1]), BitsOf(s[|s|-1], 8), 0)
  }

  /** The CRC of section 8 of RFC 1952, continued from the CRC of what came before. */
  function Crc(crc: Word, s: seq<int>): Word
    requires IsBytes(s)
  {
    Not(Register(Not(crc), s))
  }

  // ---------- linearity ----------

  lemma StepLinear(a: Word, b: Word)
    ensures Step(Xor(a, b)) == Xor(Step(a), Step(b))
  {
    hide Xor, Half, Odd, Poly, Twice;
    var p, x, y := Poly(), Half(a), Half(b);
    ShiftXor(a, b);
    XorSwap(p, x, p, y);
    XorZero(p);
    XorZero(Xor(x, y));
    XorAssoc(p, x, y);
    XorAssoc(x, p, y);
    XorComm(x, p);
  }

  lemma {:induction false} StepsLinear(n: nat, a: Word, b: Word)
    ensures Steps(n, Xor(a, b)) == Xor(Steps(n, a), Steps(n, b))
  {
    hide Step, Xor;
    if n > 0 {
      StepLinear(a, b);
      StepsLinear(n - 1, Step(a), Step(b));
    }
  }

  lemma {:induction false} StepsAdd(m: nat, n: nat, c: Word)
    ensures Steps(m + n, c) == Steps(n, Steps(m, c))
    decreases m
  {
    hide Step;
    if m > 0 {
      StepsAdd(m - 1, n, Step(c));
    }
  }

  /** A register whose low n bits are clear only shifts. */
  lemma {:induction false} QuietSteps(n: nat, c: Word)
    requires n <= 32 && forall i :: 0 <= i < n ==> !c[i]
    ensures Steps(n, c) == Down(c, n)
  {
    hide Xor, Poly;
    if n > 0 {
      QuietSteps(n - 1, Half(c));
      assert Down(Half(c), n - 1) == Down(c, n);
    } else {
      assert Down(c, 0) == c;
    }
  }

  /** Taking the low byte apart from the rest. */
  lemma ByteOff(n: nat, c: Word)
    ensures Steps(n + 8, c) == Xor(Steps(n + 8, Low8(c)), Steps(n, Down(c, 8)))
  {
    hide Steps, Xor, Low8;
    var high := Up(Down(c, 8), 8);
    LowByteSplit(c);
    StepsLinear(n + 8, Low8(c), high);
    StepsAdd(8, n, high);
    assert 8 + n == n + 8;
    QuietSteps(8, high);
  }

  // ---------- bytes ----------

  /** A byte enters at once. */
  function EnterByte(c: Word, b: int): Word
    requires 0 <= b < 256
  {
    Steps(8, Xor(c, OfByte(b)))
  }

  lemma EnterOne(c: Word, bit: bool, rest: Word)
    requires Odd(rest) == bit
    ensures Step(Xor(c, rest)) == Xor(Enter(c, bit), Half(rest))
  {
    hide Xor, Half, Odd, Poly, Twice;
    StepLinear(c, rest);
    XorAssoc(Step(c), Poly(), Half(rest));
  }

  /** Bits entering one after another are bits mixed in beforehand. */
  lemma {:induction false} EnterAll(c: Word, s: seq<bool>, i: nat, w: Word)
    requires i <= |s| <= 32 && w == Padded(s, i)
    ensures Steps(|s| - i, Xor(c, w)) == EnterBits(c, s, i)
    decreases |s| - i
  {
    hide Step, Xor, Enter, Half, Odd, Padded;
    PaddedNext(s, i);
    if i < |s| {
      EnterOne(c, s[i], w);
      EnterAll(Enter(c, s[i]), s, i + 1, Half(w));
    } else {
      XorZero(c);
    }
  }

  /** The bits from i on as a word. */
  function Padded(s: seq<bool>, i: nat): Word
    requires i <= |s| <= 32
  {
    seq(32, k requires 0 <= k < 32 => i + k < |s| && s[i + k])
  }

  lemma PaddedNext(s: seq<bool>, i: nat)
    requires i <= |s| <= 32
    ensures i < |s| ==> Odd(Padded(s, i)) == s[i] && Half(Padded(s, i)) == Padded(s, i + 1)
    ensures i == |s| ==> Padded(s, i) == Zero()
  {
  }

  /** Bit by bit or all at once: a byte has the same effect. */
  lemma EnterByteIsBits(c: Word, b: int)
    requires 0 <= b < 256
    ensures EnterByte(c, b) == EnterBits(c, BitsOf(b, 8), 0)
  {
    hide Steps, Xor, EnterBits;
    assert OfByte(b) == Padded(BitsOf(b, 8), 0);
    EnterAll(c, BitsOf(b, 8), 0, OfByte(b));
  }

  lemma RegisterNext(c: Word, s: seq<int>, b: int)
    requires IsBytes(s) && 0 <= b < 256
    ensures IsBytes(s + [b]) && Register(c, s + [b]) == EnterByte(Register(c, s), b)
  {
    hide EnterBits, EnterByte, BitsOf;
    assert (s + [b])[..|s|] == s;
    EnterByteIsBits(Register(c, s), b);
  }

  lemma RegisterNone(c: Word)
    ensures Register(c, []) == c
  {
  }

  lemma {:induction false} RegisterConcat(c: Word, s: seq<int>, t: seq<int>)
    requires IsBytes(s) && IsBytes(t)
    ensures IsBytes(s + t) && Register(c, s + t) == Register(Register(c, s), t)
    decreases |t|
  {
    hide Register, EnterByte;
    if t == [] {
      assert s + t == s;
      RegisterNone(Register(c, s));
    } else {
      var u, b := t[..|t|-1], t[|t|-1];
      RegisterConcat(c, s, u);
      RegisterNext(c, s + u, b);
      RegisterNext(Register(c, s), u, b);
      assert s + t == s + u + [b] && t == u + [b];
    }
  }

  /** A CRC can be continued. */
  lemma CrcConcat(crc: Word, s: seq<int>, t: seq<int>)
    requires IsBytes(s) && IsBytes(t)
    ensures IsBytes(s + t) && Crc(crc, s + t) == Crc(Crc(crc, s), t)
  {
    hide Register, Not;
    RegisterConcat(Not(crc), s, t);
    NotXor(Register(Not(crc), s), Zero());
  }

  // ---------- tables ----------

  /** Table k holds every byte value followed by k zero bytes. */
  ghost predicate IsTable(t: seq<Word>, k: nat) {
    |t| == 256 && forall n :: 0 <= n < 256 ==> t[n] == Steps(8 * (k + 1), OfByte(n))
  }

  lemma LookUp(t: seq<Word>, k: nat, c: Word)
    requires IsTable(t, k)
    ensures t[Index(c)] == Steps(8 * (k + 1), Low8(c))
  {
    hide Steps, Index, OfByte;
    IndexOfByte(c);
  }

  /** DO1: one look-up takes in one byte. */
  lemma ByteUpdate(t: seq<Word>, c: Word, b: int)
    requires IsTable(t, 0) && 0 <= b < 256
    ensures Xor(t[Index(Xor(c, OfByte(b)))], Down(c, 8)) == EnterByte(c, b)
  {
    hide Steps, Xor, Index, IsTable, OfByte;
    var x := Xor(c, OfByte(b));
    LookUp(t, 0, x);
    ByteOff(0, x);
    NoSteps(Down(x, 8));
    ByteGone(c, b);
  }

  lemma NoSteps(c: Word)
    ensures Steps(0, c) == c
  {
  }

  lemma ByteGone(c: Word, b: int)
    requires 0 <= b < 256
    ensures Down(Xor(c, OfByte(b)), 8) == Down(c, 8)
  {
  }

  /** The exclusive-or pattern from the exponents of the polynomial. */
  method MakePoly() returns (poly: Word)
    ensures poly == Poly()
  {
    var p := [0, 1, 2, 4, 5, 7, 8, 10, 11, 12, 16, 22, 23, 26];
    poly := Zero();
    var n := 0;
    while n < |p|
      invariant 0 <= n <= |p|
      invariant forall i :: 0 <= i < 32 ==> poly[i] == ((31 - i) in p[..n])
    {
      assert p[..n + 1] == p[..n] + [p[n]];
      poly := poly[31 - p[n] := true];
      n := n + 1;
    }
    assert p[..n] == p;
    PolyTerms(p);
  }

  lemma LowHalf()
    ensures BitsOf(0xedb88320, 32) ==
            [false, false, false, false, false, true, false, false] +
            [true, true, false, false, false, false, false, true] + BitsOf(0xedb8, 16)
  {
    hide BitsOf;
    Nibble(0xedb88320, 32);
    Nibble(0xedb8832, 28);
    Nibble(0xedb883, 24);
    Nibble(0xedb88, 20);
    var a, b, c, d := [false, false, false, false], [false, true, false, false], [true, true, false, false],
        [false, false, false, true];
    assert a + (b + (c + (d + BitsOf(0xedb8, 16)))) == a + b + c + d + BitsOf(0xedb8, 16);
  }

  lemma HighHalf()
    ensures BitsOf(0xedb8, 16) ==
            [false, false, false, true, true, true, false, true, true, false, true, true, false, true, true, true]
  {
    hide BitsOf;
    Nibble(0xedb8, 16);
    Nibble(0xedb, 12);
    Nibble(0xed, 8);
    Nibble(0xe, 4);
    assert BitsOf(0, 0) == [];
  }

  lemma PolyTerms(p: seq<int>)
    requires p == [0, 1, 2, 4, 5, 7, 8, 10, 11, 12, 16, 22, 23, 26]
    ensures forall i :: 0 <= i < 32 ==> Poly()[i] == ((31 - i) in p)
  {
    hide BitsOf;
    LowHalf();
    HighHalf();
  }

  lemma Nibble(v: nat, n: nat)
    requires n >= 4
    ensures BitsOf(v, n) == [v % 2 == 1, v / 2 % 2 == 1, v / 4 % 2 == 1, v / 8 % 2 == 1] + BitsOf(v / 16, n - 4)
  {
    assert v / 2 / 2 == v / 4 && v / 4 / 2 == v / 8 && v / 8 / 2 == v / 16;
    assert BitsOf(v, n) == [v % 2 == 1] + BitsOf(v / 2, n - 1);
    assert BitsOf(v / 2, n - 1) == [v / 2 % 2 == 1] + BitsOf(v / 4, n - 2);
    assert BitsOf(v / 4, n - 2) == [v / 4 % 2 == 1] + BitsOf(v / 8, n - 3);
  }

  /** The table of single bytes, by shifting every one of them through the register. */
  method MakeFirst(t: array<Word>, poly: Word)
    requires t.Length == 256 && poly == Poly()
    modifies t
    ensures IsTable(t[..], 0)
  {
    hide Steps, Step, Poly, OfByte;
    var n := 0;
    while n < 256
      invariant 0 <= n <= 256 && forall m :: 0 <= m < n ==> t[m] == Steps(8, OfByte(m))
    {
      var c := OfByte(n);
      var k := 0;
      ghost var c0 := c;
      NoSteps(c0);
      while k < 8
        invariant 0 <= k <= 8 && Steps(k, c0) == c
        modifies {}
      {
        StepsAdd(k, 1, c0);
        OneStep(c);
        c := if Odd(c) then Xor(poly, Half(c)) else Half(c);
        k := k + 1;
      }
      t[n] := c;
      n := n + 1;
    }
  }

  lemma OneStep(c: Word)
    ensures Steps(1, c) == (if Odd(c) then Xor(Poly(), Half(c)) else Half(c))
  {
    hide Xor, Half, Odd, Poly;
    assert Steps(1, c) == Steps(0, Step(c));
  }

  /** The table of bytes followed by k zero bytes, from the one for k - 1. */
  method MakeNext(t: array<Word>, first: array<Word>, prev: array<Word>, k: nat)
    requires t != first && t != prev && t.Length == 256 && 1 <= k && IsTable(first[..], 0) && IsTable(prev[..], k - 1)
    modifies t
    ensures IsTable(t[..], k)
  {
    hide Steps, OfByte, Xor, Down, Index;
    var n := 0;
    while n < 256
      invariant 0 <= n <= 256 && forall m :: 0 <= m < n ==> t[m] == Steps(8 * (k + 1), OfByte(m))
    {
      var c := prev[n];
      LookUp(first[..], 0, c);
      ByteOff(0, c);
      NoSteps(Down(c, 8));
      StepsAdd(8 * k, 8, OfByte(n));
      t[n] := Xor(first[Index(c)], Down(c, 8));
      n := n + 1;
    }
  }

  /** make_crc_table: the four tables. */
  method MakeCrcTable() returns (t0: array<Word>, t1: array<Word>, t2: array<Word>, t3: array<Word>)
    ensures fresh(t0) && fresh(t1) && fresh(t2) && fresh(t3)
    ensures IsTable(t0[..], 0) && IsTable(t1[..], 1) && IsTable(t2[..], 2) && IsTable(t3[..], 3)
  {
    hide IsTable, Poly, BitsOf, Steps, OfByte;
    t0 := new Word[256](_ => Zero());
    t1 := new Word[256](_ => Zero());
    t2 := new Word[256](_ => Zero());
    t3 := new Word[256](_ => Zero());
    var poly := MakePoly();
    MakeFirst(t0, poly);
    MakeNext(t1, t0, t0, 1);
    MakeNext(t2, t0, t1, 2);
    MakeNext(t3, t0, t2, 3);
  }

  // ---------- whole strings ----------

  /** The four tables of a little-endian machine. */
  datatype Tables = Tables(t0: seq<Word>, t1: seq<Word>, t2: seq<Word>, t3: seq<Word>)

  ghost predicate Built(t: Tables) {
    IsTable(t.t0, 0) && IsTable(t.t1, 1) && IsTable(t.t2, 2) && IsTable(t.t3, 3)
  }

  /** Four bytes as they lie in a little-endian word. */
  function WordAt(s: seq<int>, i: nat): Word
    requires IsBytes(s) && i + 4 <= |s|
  {
    Xor(Xor(Xor(OfByte(s[i]), Up(OfByte(s[i+1]), 8)), Up(OfByte(s[i+2]), 16)), Up(OfByte(s[i+3]), 24))
  }

  /** DOLIT4: four look-ups make thirty-two steps. */
  lemma FourLookUps(t: Tables, x: Word)
    requires Built(t)
    ensures Xor(Xor(Xor(t.t3[Index(x)], t.t2[Index(Down(x, 8))]), t.t1[Index(Down(x, 16))]),
        t.t0[Index(Down(x, 24))]) == Steps(32, x)
  {
    hide Steps, Xor, Index, Down, Low8, IsTable;
    LookUp(t.t3, 3, x);
    LookUp(t.t2, 2, Down(x, 8));
    LookUp(t.t1, 1, Down(x, 16));
    LookUp(t.t0, 0, Down(x, 24));
    ByteOff(24, x);
    DownDown(x, 8, 8);
    ByteOff(16, Down(x, 8));
    DownDown(x, 16, 8);
    ByteOff(8, Down(x, 16));
    DownDown(x, 24, 8);
    ByteOff(0, Down(x, 24));
    NoSteps(Down(x, 32));
    AllDown(x);
    var a, b, c, d := Steps(32, Low8(x)), Steps(24, Low8(Down(x, 8))), Steps(16, Low8(Down(x, 16))),
        Steps(8, Low8(Down(x, 24)));
    XorZero(d);
    XorAssoc(b, c, d);
    XorAssoc(a, Xor(b, c), d);
    XorAssoc(a, b, c);
  }

  lemma AllDown(x: Word)
    ensures Down(x, 32) == Zero()
  {
  }

  /** A byte mixed in high enough waits for its turn. */
  lemma ByteWaits(n: nat, c: Word, b: int)
    requires n <= 24 && 0 <= b < 256
    ensures Steps(n, Xor(c, Up(OfByte(b), n))) == Xor(Steps(n, c), OfByte(b))
  {
    hide Steps, Xor;
    StepsLinear(n, c, Up(OfByte(b), n));
    QuietSteps(n, Up(OfByte(b), n));
    assert Down(Up(OfByte(b), n), n) == OfByte(b);
  }

  /** Four bytes at once have the effect of four bytes one by one. */
  lemma WordIsBytes(c: Word, s: seq<int>, i: nat)
    requires IsBytes(s) && i + 4 <= |s|
    ensures Steps(32, Xor(c, WordAt(s, i))) ==
        EnterByte(EnterByte(EnterByte(EnterByte(c, s[i]), s[i+1]), s[i+2]), s[i+3])
  {
    hide Steps, Xor, Up, OfByte;
    var b0, b1, b2, b3 := OfByte(s[i]), Up(OfByte(s[i+1]), 8), Up(OfByte(s[i+2]), 16), Up(OfByte(s[i+3]), 24);
    var x1 := Xor(c, b0);
    var x2 := Xor(x1, b1);
    var x3 := Xor(x2, b2);
    XorAssoc(c, Xor(Xor(b0, b1), b2), b3);
    XorAssoc(c, Xor(b0, b1), b2);
    XorAssoc(c, b0, b1);
    StepsAdd(24, 8, Xor(x3, b3));
    ByteWaits(24, x3, s[i+3]);
    StepsAdd(16, 8, x3);
    ByteWaits(16, x2, s[i+2]);
    StepsAdd(8, 8, x2);
    ByteWaits(8, x1, s[i+1]);
  }

  lemma RegisterMore(c: Word, s: seq<int>, i: nat)
    requires IsBytes(s) && i < |s|
    ensures IsBytes(s[..i]) && IsBytes(s[..i + 1])
    ensures Register(c, s[..i + 1]) == EnterByte(Register(c, s[..i]), s[i])
  {
    hide Register, EnterByte;
    assert s[..i + 1] == s[..i] + [s[i]];
    RegisterNext(c, s[..i], s[i]);
  }

  lemma RegisterFour(c: Word, s: seq<int>, i: nat)
    requires IsBytes(s) && i + 4 <= |s|
    ensures IsBytes(s[..i]) && IsBytes(s[..i + 4])
    ensures Register(c, s[..i + 4]) == Steps(32, Xor(Register(c, s[..i]), WordAt(s, i)))
  {
    hide Register, EnterByte, Steps, Xor, WordAt;
    RegisterMore(c, s, i);
    RegisterMore(c, s, i + 1);
    RegisterMore(c, s, i + 2);
    RegisterMore(c, s, i + 3);
    WordIsBytes(Register(c, s[..i]), s, i);
  }

  /** crc32, one byte at a time. */
  method Crc32Bytes(t: Tables, crc: Word, buf: seq<int>) returns (r: Word)
    requires Built(t) && IsBytes(buf)
    ensures r == Crc(crc, buf)
  {
    hide Register, EnterByte, IsTable, Xor, Index, Down, Not, OfByte;
    var c := Not(crc);
    ghost var c0 := c;
    var i := 0;
    RegisterNone(c0);
    assert buf[..0] == [];
    while i < |buf|
      invariant 0 <= i <= |buf| && IsBytes(buf[..i]) && c == Register(c0, buf[..i])
    {
      RegisterMore(c0, buf, i);
      ByteUpdate(t.t0, c, buf[i]);
      TableSize(t.t0, 0);
      c := Xor(t.t0[Index(Xor(c, OfByte(buf[i])))], Down(c, 8));
      i := i + 1;
    }
    assert buf[..i] == buf;
    r := Not(c);
  }

  lemma TableSize(t: seq<Word>, k: nat)
    requires IsTable(t, k)
    ensures |t| == 256
  {
  }

  /** crc32_little: bytes up to the next word boundary, whole words, and the bytes left over. */
  method Crc32Little(t: Tables, crc: Word, buf: seq<int>, misalignment: nat) returns (r: Word)
    requires Built(t) && IsBytes(buf) && misalignment < 4
    ensures r == Crc(crc, buf)
  {
    hide Register, EnterByte, IsTable, Xor, Index, Down, Not, OfByte, Steps, WordAt;
    var c := Not(crc);
    ghost var c0 := c;
    var i := 0;
    RegisterNone(c0);
    assert buf[..0] == [];
    TableSize(t.t0, 0);
    TableSize(t.t1, 1);
    TableSize(t.t2, 2);
    TableSize(t.t3, 3);
    while i < |buf| && (misalignment + i) % 4 != 0
      invariant 0 <= i <= |buf| && IsBytes(buf[..i]) && c == Register(c0, buf[..i])
    {
      RegisterMore(c0, buf, i);
      ByteUpdate(t.t0, c, buf[i]);
      c := Xor(t.t0[Index(Xor(c, OfByte(buf[i])))], Down(c, 8));
      i := i + 1;
    }
    while |buf| - i >= 4
      invariant 0 <= i <= |buf| && IsBytes(buf[..i]) && c == Register(c0, buf[..i])
    {
      RegisterFour(c0, buf, i);
      var x := Xor(c, WordAt(buf, i));
      FourLookUps(t, x);
      c := Xor(Xor(Xor(t.t3[Index(x)], t.t2[Index(Down(x, 8))]), t.t1[Index(Down(x, 16))]), t.t0[Index(Down(x, 24))]);
      i := i + 4;
    }
    while i < |buf|
      invariant 0 <= i <= |buf| && IsBytes(buf[..i]) && c == Register(c0, buf[..i])
    {
      RegisterMore(c0, buf, i);
      ByteUpdate(t.t0, c, buf[i]);
      c := Xor(t.t0[Index(Xor(c, OfByte(buf[i])))], Down(c, 8));
      i := i + 1;
    }
    assert buf[..i] == buf;
    r := Not(c);
  }
}

/** 32-bit words as vectors over GF(2): bit i of a word is its i-th element. */
module Word32 {
  import opened Bits

  type Word = w: seq<bool> | |w| == 32 witness seq(32, i => false)

  function Xor(a: Word, b: Word): Word {
    seq(32, i requires 0 <= i < 32 => a[i] != b[i])
  }

  function Zero(): Word {
    seq(32, i => false)
  }

  function One(): Word {
    seq(32, i => i == 0)
  }

  function Not(a: Word): Word {
    seq(32, i requires 0 <= i < 32 => !a[i])
  }

  /** a >> 1. */
  function Half(a: Word): Word {
    seq(32, i requires 0 <= i < 32 => i + 1 < 32 && a[i + 1])
  }

  /** a << 1. */
  function Twice(a: Word): Word {
    seq(32, i requires 0 <= i < 32 => 1 <= i && a[i - 1])
  }

  /** a & 1. */
  predicate Odd(a: Word) {
    a[0]
  }

  /** a >> n. */
  function Down(a: Word, n: nat): Word {
    seq(32, i requires 0 <= i < 32 => i + n < 32 && a[i + n])
  }

  /** a << n. */
  function Up(a: Word, n: nat): Word {
    seq(32, i requires 0 <= i < 32 => n <= i && a[i - n])
  }

  /** a & 0xff. */
  function Low8(a: Word): Word {
    seq(32, i requires 0 <= i < 32 => i < 8 && a[i])
  }

  // ---------- indices ----------

  /** An index of eight bits is below 256. */
  function Index(a: Word): (i: nat)
    ensures i < 256
  {
    var s := a[..8];
    ValueStep(s);
    ValueStep(s[1..]);
    ValueStep(s[1..][1..]);
    ValueStep(s[1..][1..][1..]);
    ValueStep(s[1..][1..][1..][1..]);
    ValueStep(s[1..][1..][1..][1..][1..]);
    ValueStep(s[1..][1..][1..][1..][1..][1..]);
    ValueStep(s[1..][1..][1..][1..][1..][1..][1..]);
    Value(s)
  }

  lemma ValueStep(s: seq<bool>)
    requires s != []
    ensures Value(s) <= 1 + 2 * Value(s[1..])
  {
  }

  /** A byte value as a word. */
  function OfByte(n: nat): Word
    requires n < 256
  {
    BitsOf(n, 8) + seq(24, i => false)
  }

  lemma IndexOfByte(a: Word)
    ensures OfByte(Index(a)) == Low8(a)
  {
    ValueBits(a[..8]);
    assert forall i :: 0 <= i < 8 ==> a[..8][i] == a[i];
  }

  // ---------- rules ----------

  lemma XorComm(a: Word, b: Word)
    ensures Xor(a, b) == Xor(b, a)
  {
  }

  lemma XorAssoc(a: Word, b: Word, c: Word)
    ensures Xor(a, Xor(b, c)) == Xor(Xor(a, b), c)
  {
  }

  lemma XorZero(a: Word)
    ensures Xor(a, a) == Zero() && Xor(a, Zero()) == a && Xor(Zero(), a) == a
  {
  }

  lemma XorSwap(a: Word, b: Word, c: Word, d: Word)
    ensures Xor(Xor(a, b), Xor(c, d)) == Xor(Xor(a, c), Xor(b, d))
  {
  }

  lemma NotXor(a: Word, b: Word)
    ensures Not(Not(a)) == a && Xor(Not(a), b) == Not(Xor(a, b)) && Xor(a, Not(b)) == Not(Xor(a, b))
  {
  }

  lemma ShiftXor(a: Word, b: Word)
    ensures Half(Xor(a, b)) == Xor(Half(a), Half(b)) && Twice(Xor(a, b)) == Xor(Twice(a), Twice(b))
    ensures Odd(Xor(a, b)) == (Odd(a) != Odd(b))
  {
  }

  /** A word is its low byte and the rest. */
  lemma LowByteSplit(a: Word)
    ensures a == Xor(Low8(a), Up(Down(a, 8), 8)) && Down(Up(Down(a, 8), 8), 8) == Down(a, 8)
  {
  }

  lemma DownDown(a: Word, m: nat, n: nat)
    ensures Down(Down(a, m), n) == Down(a, m + n)
    ensures Half(Down(a, m)) == Down(a, m + 1) && Down(a, 0) == a
  {
  }
}

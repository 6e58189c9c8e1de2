/** Adler-32: the deferred modulo, the division-free reductions, and the checksum of two strings together. */
module Adler32 {
  import opened Bytes

  const BASE := 65521
  const NMAX := 5552

  // ---------- definition ----------

  /** The two component sums. */
  datatype Sums = Sums(a: nat, b: nat)

  predicate Reduced(s: Sums) {
    s.a < BASE && s.b < BASE
  }

  /** One more byte. */
  function Next(t: Sums, x: nat): (r: Sums)
    requires Reduced(t)
    ensures Reduced(r)
  {
    var a := (t.a + x) % BASE;
    Sums(a, (t.b + a) % BASE)
  }

  /** Section 8.2 of RFC 1950: both sums modulo BASE after every byte. */
  function Update(s: Sums, buf: seq<int>): (r: Sums)
    requires IsBytes(buf) && Reduced(s)
    ensures Reduced(r)
  {
    if buf == [] then s else Next(Update(s, buf[..|buf|-1]), buf[|buf|-1])
  }

  /** The 32-bit value. */
  function Joined(s: Sums): nat {
    s.a + s.b * 65536
  }

  function Split(adler: nat): Sums {
    Sums(adler % 65536, adler / 65536 % 65536)
  }

  lemma SplitJoined(s: Sums)
    requires Reduced(s)
    ensures Split(Joined(s)) == s && Joined(s) < 0x1_0000_0000
  {
  }

  // ---------- reduction without division ----------

  /** CHOP: 65536 is 15 modulo BASE. */
  method Chop(a0: nat) returns (a: nat)
    ensures a % BASE == a0 % BASE && a == a0 % 65536 + 15 * (a0 / 65536)
  {
    var tmp := a0 / 65536;
    a := a0 % 65536;
    a := a + (tmp * 16 - tmp);
    Fold16(a0);
  }

  lemma Fold16(a: nat)
    ensures (a % 65536 + 15 * (a / 65536)) % BASE == a % BASE
  {
    var q, r := a / 65536, a % 65536;
    assert a == (r + 15 * q) + BASE * q;
    Shed(r + 15 * q, q);
  }

  lemma Fold32(a: nat)
    ensures (a % 0x1_0000_0000 + 225 * (a / 0x1_0000_0000)) % BASE == a % BASE
  {
    var q, r := a / 0x1_0000_0000, a % 0x1_0000_0000;
    assert 0x1_0000_0000 == 225 + BASE * 65551;
    assert a == (r + 225 * q) + BASE * (65551 * q);
    Shed(r + 225 * q, 65551 * q);
  }

  /** Multiples of BASE do not show. */
  lemma {:induction false} Shed(x: nat, k: nat)
    ensures (x + BASE * k) % BASE == x % BASE
  {
    if k > 0 {
      Shed(x, k - 1);
      OneOff(x + BASE * (k - 1));
    }
  }

  lemma OneOff(x: int)
    ensures (x + BASE) % BASE == x % BASE
  {
  }

  method Mod28(a0: nat) returns (a: nat)
    requires a0 < 0x1000_0000
    ensures a == a0 % BASE
  {
    a := Chop(a0);
    if a >= BASE {
      a := a - BASE;
    }
  }

  method Mod(a0: nat) returns (a: nat)
    requires a0 < 0x1_0000_0000
    ensures a == a0 % BASE
  {
    a := Chop(a0);
    a := Mod28(a);
  }

  method Mod63(a0: nat) returns (a: nat)
    requires a0 < 0x8000_0000_0000_0000
    ensures a == a0 % BASE
  {
    Fold32(a0);
    var tmp := a0 / 0x1_0000_0000;
    a := a0 % 0x1_0000_0000;
    a := a + (tmp * 256 - tmp * 32 + tmp);
    Fold16(a);
    tmp := a / 65536;
    a := a % 65536;
    a := a + (tmp * 16 - tmp);
    Fold16(a);
    tmp := a / 65536;
    a := a % 65536;
    a := a + (tmp * 16 - tmp);
    if a >= BASE {
      a := a - BASE;
    }
  }

  // ---------- deferred reduction ----------

  /** Sums not yet reduced stand for the reduced ones. */
  ghost predicate StandsFor(a: nat, b: nat, s: Sums) {
    Reduced(s) && a % BASE == s.a && b % BASE == s.b
  }

  lemma UpdateStep(s: Sums, buf: seq<int>, i: nat)
    requires IsBytes(buf) && Reduced(s) && i < |buf|
    ensures Update(s, buf[..i + 1]) == Next(Update(s, buf[..i]), buf[i])
  {
    hide Next;
    assert buf[..i + 1][..i] == buf[..i];
  }

  lemma NextStands(t: Sums, x: nat, a: nat, b: nat)
    requires StandsFor(a, b, t)
    ensures StandsFor(a + x, b + (a + x), Next(t, x))
  {
    ModAdd(a, x);
    ModAdd2(b, a + x);
  }

  lemma UpdateNext(s: Sums, buf: seq<int>, i: nat, a: nat, b: nat)
    requires IsBytes(buf) && Reduced(s) && i < |buf| && StandsFor(a, b, Update(s, buf[..i]))
    ensures StandsFor(a + buf[i], b + (a + buf[i]), Update(s, buf[..i + 1]))
  {
    hide Update, Next, StandsFor;
    UpdateStep(s, buf, i);
    NextStands(Update(s, buf[..i]), buf[i], a, b);
  }

  lemma ModAdd(x: nat, y: nat)
    ensures (x + y) % BASE == (x % BASE + y) % BASE
  {
  }

  lemma ModAdd2(x: nat, y: nat)
    ensures (x + y) % BASE == (x % BASE + y % BASE) % BASE
  {
  }

  /** How large the sums can have grown n bytes after a reduction. */
  ghost predicate Bounded(a: nat, b: nat, n: nat) {
    a <= BASE - 1 + 255 * n && 2 * b <= 2 * (n + 1) * (BASE - 1) + 255 * (n * (n + 1))
  }

  lemma BoundNext(a: nat, b: nat, n: nat, x: nat)
    requires Bounded(a, b, n) && x < 256
    ensures Bounded(a + x, b + (a + x), n + 1)
  {
    assert (n + 1) * (n + 2) == n * (n + 1) + 2 * (n + 1);
  }

  /** NMAX bytes cannot overflow 32 bits, sixteen not even 28. */
  lemma NoOverflow(a: nat, b: nat, n: nat)
    requires Bounded(a, b, n)
    ensures n <= NMAX ==> a < 0x1_0000_0000 && b < 0x1_0000_0000
    ensures n < 16 ==> a < 2 * BASE && b < 0x1000_0000
  {
    if n <= NMAX {
      SquareGrows(n, NMAX);
    }
    if n < 16 {
      SquareGrows(n, 15);
    }
  }

  lemma SquareGrows(n: nat, m: nat)
    requires n <= m
    ensures n * (n + 1) <= m * (m + 1) && (n + 1) * (BASE - 1) <= (m + 1) * (BASE - 1)
  {
  }

  /** NMAX is the largest number of bytes for which that holds. */
  lemma NmaxIsLargest()
    ensures 255 * NMAX * (NMAX + 1) / 2 + (NMAX + 1) * (BASE - 1) <= 0xffff_ffff
    ensures 255 * (NMAX + 1) * (NMAX + 2) / 2 + (NMAX + 2) * (BASE - 1) > 0xffff_ffff
  {
  }

  /** n bytes summed up without reduction. */
  method SumBytes(buf: seq<int>, i: nat, n: nat, a0: nat, b0: nat, ghost s: Sums) returns (a: nat, b: nat)
    requires IsBytes(buf) && i + n <= |buf| && n <= NMAX && a0 < BASE && b0 < BASE
    requires Reduced(s) && StandsFor(a0, b0, Update(s, buf[..i]))
    ensures StandsFor(a, b, Update(s, buf[..i + n])) && Bounded(a, b, n)
  {
    hide Update;
    a, b := a0, b0;
    var k := 0;
    while k < n
      invariant 0 <= k <= n && StandsFor(a, b, Update(s, buf[..i + k])) && Bounded(a, b, k)
    {
      UpdateNext(s, buf, i + k, a, b);
      BoundNext(a, b, k, buf[i + k]);
      a := a + buf[i + k];
      b := b + a;
      k := k + 1;
    }
  }

  lemma StandsReduced(a: nat, b: nat, s: Sums)
    requires StandsFor(a, b, s)
    ensures StandsFor(a % BASE, b % BASE, s) && s == Sums(a % BASE, b % BASE)
  {
  }

  lemma StandsStart(s: Sums)
    requires Reduced(s)
    ensures StandsFor(s.a, s.b, s)
  {
  }

  method OneByteSums(a0: nat, b0: nat, x: int) returns (a: nat, b: nat)
    requires a0 < BASE && b0 < BASE && 0 <= x < 256
    ensures Sums(a, b) == Next(Sums(a0, b0), x)
  {
    a := a0 + x;
    if a >= BASE {
      a := a - BASE;
    }
    b := b0 + a;
    if b >= BASE {
      b := b - BASE;
    }
  }

  /** adler32: one byte at once, up to fifteen with one subtraction, otherwise NMAX bytes at a time with one
      reduction each. */
  method Adler32(adler: nat, buf: seq<int>) returns (r: nat)
    requires adler < 0x1_0000_0000 && Reduced(Split(adler)) && IsBytes(buf)
    ensures r == Joined(Update(Split(adler), buf)) && r < 0x1_0000_0000
  {
    hide Update, Bounded, StandsFor, Next;
    ghost var s := Split(adler);
    var sum2: nat := adler / 65536 % 65536;
    var a: nat := adler % 65536;
    var len := |buf|;
    UpdateNone(s);
    StandsStart(s);
    assert buf[..0] == [] && buf[..len] == buf;
    if len == 1 {
      UpdateStep(s, buf, 0);
      a, sum2 := OneByteSums(a, sum2, buf[0]);
      return a + sum2 * 65536;
    }
    if len < 16 {
      a, sum2 := SumBytes(buf, 0, len, a, sum2, s);
      NoOverflow(a, sum2, len);
      StandsReduced(a, sum2, Update(s, buf));
      if a >= BASE {
        a := a - BASE;
      }
      sum2 := Mod28(sum2);
      return a + sum2 * 65536;
    }
    a, sum2 := LongSums(buf, a, sum2, s);
    StandsReduced(a, sum2, Update(s, buf));
    r := a + sum2 * 65536;
  }

  method LongSums(buf: seq<int>, a0: nat, b0: nat, ghost s: Sums) returns (a: nat, sum2: nat)
    requires IsBytes(buf) && a0 < BASE && b0 < BASE && Reduced(s) && StandsFor(a0, b0, Update(s, buf[..0]))
    ensures a < BASE && sum2 < BASE && StandsFor(a, sum2, Update(s, buf))
  {
    hide Update, Bounded, StandsFor, Next;
    a, sum2 := a0, b0;
    var len, i := |buf|, 0;
    assert buf[..len] == buf;
    while len - i >= NMAX
      invariant 0 <= i <= len && a < BASE && sum2 < BASE && StandsFor(a, sum2, Update(s, buf[..i]))
    {
      a, sum2 := SumBytes(buf, i, NMAX, a, sum2, s);
      NoOverflow(a, sum2, NMAX);
      i := i + NMAX;
      StandsReduced(a, sum2, Update(s, buf[..i]));
      a := Mod(a);
      sum2 := Mod(sum2);
    }
    if i < len {
      a, sum2 := SumBytes(buf, i, len - i, a, sum2, s);
      NoOverflow(a, sum2, len - i);
      StandsReduced(a, sum2, Update(s, buf));
      a := Mod(a);
      sum2 := Mod(sum2);
    }
  }

  lemma UpdateNone(s: Sums)
    requires Reduced(s)
    ensures Update(s, []) == s
  {
  }

  // ---------- two strings together ----------

  /** What the second string adds, counted from the start value (1, 0). */
  lemma {:induction false} UpdateAffine(s: Sums, buf: seq<int>)
    requires IsBytes(buf) && Reduced(s)
    ensures Update(s, buf).a == (Update(Sums(1, 0), buf).a + s.a + (BASE - 1)) % BASE
    ensures Update(s, buf).b == (Update(Sums(1, 0), buf).b + s.b + |buf| * (s.a + (BASE - 1))) % BASE
    decreases |buf|
  {
    hide Update, Next;
    UpdateNone(s);
    UpdateNone(Sums(1, 0));
    if buf == [] {
      AffineStart(s);
    } else {
      var n, x := |buf| - 1, buf[|buf|-1];
      var u := buf[..n];
      UpdateAffine(s, u);
      assert buf[..n + 1] == buf;
      UpdateStep(s, buf, n);
      UpdateStep(Sums(1, 0), buf, n);
      AffineNext(Update(s, u), Update(Sums(1, 0), u), s, n, x);
    }
  }

  lemma AffineStart(s: Sums)
    requires Reduced(s)
    ensures (1 + s.a + (BASE - 1)) % BASE == s.a && (0 + s.b + 0 * (s.a + (BASE - 1))) % BASE == s.b
  {
  }

  lemma AffineNext(t: Sums, u: Sums, s: Sums, n: nat, x: nat)
    requires Reduced(t) && Reduced(u) && Reduced(s)
    requires t.a == (u.a + s.a + (BASE - 1)) % BASE
    requires t.b == (u.b + s.b + n * (s.a + (BASE - 1))) % BASE
    ensures Next(t, x).a == (Next(u, x).a + s.a + (BASE - 1)) % BASE
    ensures Next(t, x).b == (Next(u, x).b + s.b + (n + 1) * (s.a + (BASE - 1))) % BASE
  {
    var d := s.a + (BASE - 1);
    var y := n * d;
    assert (n + 1) * d == y + d;
    SumsFirst(t.a, u.a, d, x);
    SumsSecond(t.b, u.b, s.b + y, Next(t, x).a, Next(u, x).a, d);
  }

  lemma SumsFirst(t: nat, u: nat, d: nat, x: nat)
    requires t == (u + d) % BASE
    ensures (t + x) % BASE == ((u + x) % BASE + d) % BASE
  {
    ModAdd(u + d, x);
    ModAdd(u + x, d);
  }

  lemma SumsSecond(t: nat, u: nat, y: nat, a: nat, b: nat, d: nat)
    requires t == (u + y) % BASE && a == (b + d) % BASE
    ensures (t + a) % BASE == ((u + b) % BASE + y + d) % BASE
  {
    ModAdd2(u + y, b + d);
    ModAdd(u + b, y + d);
  }

  /** The last reductions, by subtraction. */
  method FoldSums(x: nat, y: nat) returns (sum1: nat, sum2: nat)
    requires x < 3 * BASE && y < 4 * BASE
    ensures sum1 == x % BASE && sum2 == y % BASE
  {
    sum1, sum2 := x, y;
    if sum1 >= BASE {
      sum1 := sum1 - BASE;
    }
    if sum1 >= BASE {
      sum1 := sum1 - BASE;
    }
    if sum2 >= 2 * BASE {
      sum2 := sum2 - 2 * BASE;
    }
    if sum2 >= BASE {
      sum2 := sum2 - BASE;
    }
  }

  /** adler32_combine_ on the component sums. */
  method CombineSums(s: Sums, t: Sums, len2: nat) returns (r: Sums)
    requires Reduced(s) && Reduced(t) && len2 < 0x8000_0000_0000_0000
    ensures r == Sums((t.a + s.a + (BASE - 1)) % BASE, (t.b + s.b + len2 * (s.a + (BASE - 1))) % BASE)
  {
    var rem := Mod63(len2);
    var sum2 := rem * s.a;
    ProductBound(rem, s.a);
    sum2 := Mod(sum2);
    Combined(s, t, len2, rem);
    var a, b := FoldSums(s.a + (t.a + BASE - 1), sum2 + (s.b + t.b + BASE - rem));
    r := Sums(a, b);
  }

  /** adler32_combine_. */
  method Combine(adler1: nat, adler2: nat, len2: int) returns (r: nat)
    requires adler1 < 0x1_0000_0000 && adler2 < 0x1_0000_0000 && Reduced(Split(adler1)) && Reduced(Split(adler2))
    requires len2 < 0x8000_0000_0000_0000
    ensures len2 < 0 ==> r == 0xffff_ffff
    ensures len2 >= 0 ==> forall t: seq<int> :: IsBytes(t) && |t| == len2 && adler2 == Joined(Update(Sums(1, 0), t)) ==>
      r == Joined(Update(Split(adler1), t))
  {
    hide Update;
    if len2 < 0 {
      return 0xffff_ffff;
    }
    var sums := CombineSums(Split(adler1), Split(adler2), len2);
    r := Joined(sums);
    forall t: seq<int> | IsBytes(t) && |t| == len2 && adler2 == Joined(Update(Sums(1, 0), t))
      ensures r == Joined(Update(Split(adler1), t))
    {
      SplitJoined(Update(Sums(1, 0), t));
      UpdateAffine(Split(adler1), t);
    }
  }

  lemma ProductBound(rem: nat, sum1: nat)
    requires rem < BASE && sum1 < BASE
    ensures rem * sum1 <= (BASE - 1) * (BASE - 1)
  {
    MulLe(rem, BASE - 1, sum1);
  }

  lemma {:induction false} MulLe(a: nat, b: nat, c: nat)
    requires a <= b
    ensures a * c <= b * c
    decreases c
  {
    if c > 0 {
      MulLe(a, b, c - 1);
    }
  }

  lemma Products(q: nat, rem: nat, d: nat, a: nat)
    requires d == a + (BASE - 1)
    ensures (BASE * q + rem) * d == BASE * (q * d + rem) + rem * a - rem
  {
    Distribute(BASE * q, rem, d);
    Regroup(q, d);
    Distribute2(rem, a);
  }

  lemma Distribute(x: nat, y: nat, d: nat)
    ensures (x + y) * d == x * d + y * d
  {
  }

  lemma Regroup(q: nat, d: nat)
    ensures BASE * q * d == BASE * (q * d)
  {
  }

  lemma Distribute2(rem: nat, a: nat)
    ensures rem * (a + (BASE - 1)) == rem * a + BASE * rem - rem
  {
  }

  /** With k multiples of BASE set aside the two second sums agree. */
  lemma SameSecond(b: nat, p: nat, rem: nat, k: nat, l: nat)
    requires rem <= p + BASE && l == BASE * k + p - rem && rem <= BASE
    ensures (p % BASE + (b + BASE - rem)) % BASE == (b + l) % BASE
  {
    ModAdd(p, b + BASE - rem);
    OneOff(b + l);
    Shed(b + p + BASE - rem, k);
  }

  /** The sums the method forms are those of the concatenation. */
  lemma Combined(s: Sums, t: Sums, len2: nat, rem: nat)
    requires Reduced(s) && Reduced(t) && rem == len2 % BASE
    ensures (s.a + (t.a + BASE - 1)) % BASE == (t.a + s.a + (BASE - 1)) % BASE
    ensures ((rem * s.a) % BASE + (s.b + t.b + BASE - rem)) % BASE == (t.b + s.b + len2 * (s.a + (BASE - 1))) % BASE
  {
    var q, d, p := len2 / BASE, s.a + (BASE - 1), rem * s.a;
    Products(q, rem, d, s.a);
    SameSecond(s.b + t.b, p, rem, q * d + rem, len2 * d);
  }

  /** Going on from a first string is the checksum of both. */
  lemma {:induction false} UpdateConcat(s: Sums, u: seq<int>, t: seq<int>)
    requires IsBytes(u) && IsBytes(t) && Reduced(s)
    ensures IsBytes(u + t) && Update(Update(s, u), t) == Update(s, u + t)
    decreases |t|
  {
    hide Update, Next;
    if t == [] {
      assert u + t == u;
      UpdateNone(Update(s, u));
    } else {
      var n := |t| - 1;
      UpdateConcat(s, u, t[..n]);
      UpdateStep(Update(s, u), t, n);
      UpdateStep(s, u + t, |u| + n);
      assert t[..n + 1] == t && (u + t)[..|u| + n] == u + t[..n] && (u + t)[..|u| + n + 1] == u + t;
    }
  }
}

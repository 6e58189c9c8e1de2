/** Fixed-width fields: byte strings that mark a block or the end, big-endian numbers, CRCs. */
module BlockHeader {
  import opened Bytes
  import opened Bits
  import opened BitIO
  import opened BlockReader

  // ---------- numbers of several bytes ----------

  /** bsPutUInt32: four bytes, most significant first, are the 32 bits of the number. */
  method PutUInt32(w: BitWriter, u: nat)
    requires w.Valid() && u < WORD
    modifies w
    ensures w.Valid() && w.Written() == old(w.Written()) + ToBits(u, 32)
  {
    hide ToBits, Pow2;
    FourBytes(u);
    ghost var before := w.Written();
    w.Put(8, u / 0x100_0000 % 256);
    w.Put(8, u / 0x1_0000 % 256);
    w.Put(8, u / 0x100 % 256);
    w.Put(8, u % 256);
    FourJoined(before, ToBits(u / 0x100_0000 % 256, 8), ToBits(u / 0x1_0000 % 256, 8), ToBits(u / 0x100 % 256, 8),
        ToBits(u % 256, 8));
  }

  lemma FourJoined(s: seq<bool>, a: seq<bool>, b: seq<bool>, c: seq<bool>, d: seq<bool>)
    ensures s + a + b + c + d == s + (a + b + c + d)
  {
  }

  lemma BytePowers()
    ensures Pow2(8) == 256 && Pow2(16) == 0x1_0000 && Pow2(24) == 0x100_0000 && Pow2(32) == WORD
  {
    hide Pow2;
    Powers();
    Pow2Sum(8, 8);
  }

  lemma FourBytes(u: nat)
    requires u < WORD
    ensures Pow2(8) == 256
    ensures ToBits(u, 32) ==
            ToBits(u / 0x100_0000 % 256, 8) + ToBits(u / 0x1_0000 % 256, 8) + ToBits(u / 0x100 % 256, 8) +
                ToBits(u % 256, 8)
  {
    hide ToBits, Pow2;
    BytePowers();
    var u1, u2, u3 := u / 0x100, u / 0x1_0000, u / 0x100_0000;
    ToBitsSplit(u, 24, 8);
    ToBitsSplit(u1, 16, 8);
    ToBitsSplit(u2, 8, 8);
    assert u1 / 256 == u2 && u2 / 256 == u3 && u3 % 256 == u3;
    assert Quot(u, 256) == u1 && Rem(u, 256) == u % 256;
    assert Quot(u1, 256) == u2 && Rem(u1, 256) == u1 % 256;
    assert Quot(u2, 256) == u3 && Rem(u2, 256) == u2 % 256;
    assert 24 + 8 == 32 && 16 + 8 == 24 && 8 + 8 == 16;
  }

  /** n bytes as one number, most significant first. */
  method ReadBig(r: BitReader, n: nat) returns (st: Status, v: nat)
    requires r.Valid()
    modifies r
    ensures r.Valid() && Reports(st, Take(r.Bits(), old(r.Pos()), 8 * n))
    ensures st.Ok? ==> Take(r.Bits(), old(r.Pos()), 8 * n) == Got(v, r.Pos())
  {
    hide ToBits, Pow2, FromBits;
    BytePowers();
    ghost var bits, p := r.Bits(), r.Pos();
    v := 0;
    EmptyNumber();
    assert bits[p..p + 0] == [];
    var i := 0;
    while i < n
      invariant 0 <= i <= n && r.Valid() && r.Pos() == p + 8 * i <= |bits|
      invariant v == FromBits(bits[p..p + 8 * i])
    {
      var uc := r.GetBits(8);
      if !uc.Got? {
        st := Starving;
        return;
      }
      FromBitsConcat(bits[p..p + 8 * i], bits[p + 8 * i..p + 8 * i + 8]);
      assert bits[p..p + 8 * i] + bits[p + 8 * i..p + 8 * i + 8] == bits[p..p + 8 * (i + 1)];
      v := v * 256 + uc.value;
      i := i + 1;
    }
    st := Ok;
  }

  lemma EmptyNumber()
    ensures FromBits([]) == 0
  {
  }

  // ---------- marks ----------

  /** The bytes of s one after another. */
  function MarkBits(s: seq<int>, i: nat): (b: seq<bool>)
    requires IsBytes(s) && i <= |s|
    ensures |b| == 8 * (|s| - i)
    decreases |s| - i
  {
    if i == |s| then [] else ToBits(s[i], 8) + MarkBits(s, i + 1)
  }

  /** Bytes compared one by one: the first that differs decides. */
  function ParseMark(bits: seq<bool>, pos: nat, s: seq<int>, i: nat): Got<int>
    requires i <= |s|
    decreases |s| - i
  {
    if i == |s| then Got(0, pos)
    else match Take(bits, pos, 8)
      case Got(uc, p) => if uc != s[i] then Corrupt else ParseMark(bits, p, s, i + 1)
      case Starved => Starved
      case Corrupt => Corrupt
      case Overrun => Overrun
  }

  method WriteMark(w: BitWriter, s: seq<int>)
    requires w.Valid() && IsBytes(s)
    modifies w
    ensures w.Valid() && w.Written() == old(w.Written()) + MarkBits(s, 0)
  {
    hide ToBits, Pow2;
    BytePowers();
    ghost var all := w.Written() + MarkBits(s, 0);
    var i := 0;
    while i < |s|
      invariant 0 <= i <= |s| && w.Valid() && w.Written() + MarkBits(s, i) == all
    {
      ghost var done := w.Written();
      w.Put(8, s[i]);
      assert done + (ToBits(s[i], 8) + MarkBits(s, i + 1)) == done + ToBits(s[i], 8) + MarkBits(s, i + 1);
      i := i + 1;
    }
    assert w.Written() + [] == w.Written();
  }

  method ReadMark(r: BitReader, s: seq<int>, from: nat) returns (st: Status)
    requires r.Valid() && from <= |s|
    modifies r
    ensures r.Valid() && Reports(st, ParseMark(r.Bits(), old(r.Pos()), s, from))
    ensures st.Ok? ==> ParseMark(r.Bits(), old(r.Pos()), s, from) == Got(0, r.Pos())
  {
    hide Pow2, FromBits;
    ghost var bits, p := r.Bits(), r.Pos();
    var i := from;
    while i < |s|
      invariant from <= i <= |s| && r.Valid()
      invariant ParseMark(bits, p, s, from) == ParseMark(bits, r.Pos(), s, i)
    {
      var uc := r.GetBits(8);
      if !uc.Got? {
        st := Starving;
        return;
      }
      if uc.value != s[i] {
        st := DataError;
        return;
      }
      i := i + 1;
    }
    st := Ok;
  }

  lemma {:induction false} MarkRoundTrip(bits: seq<bool>, pos: nat, s: seq<int>, i: nat)
    requires IsBytes(s) && i <= |s| && Has(bits, pos, MarkBits(s, i))
    ensures ParseMark(bits, pos, s, i) == Got(0, pos + 8 * (|s| - i))
    decreases |s| - i
  {
    hide ToBits;
    if i < |s| {
      HasSplit(bits, pos, ToBits(s[i], 8), MarkBits(s, i + 1));
      Powers();
      TakeWritten(bits, pos, s[i], 8);
      MarkRoundTrip(bits, pos + 8, s, i + 1);
    }
  }

  // ---------- CRCs ----------

  function CrcNumber(c: bv32): (u: nat)
    ensures u < WORD
  {
    c as nat
  }

  /** BZ_FINALISE_CRC. */
  function Finalise(c: bv32): bv32 {
    !c
  }

  /** The CRC over the block CRCs: rotated left by one, then the new one mixed in. */
  function Combine(c: bv32, blockCRC: bv32): bv32 {
    ((c << 1) | (c >> 31)) ^ blockCRC
  }
}

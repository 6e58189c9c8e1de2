/** The dictionary of deflate: hash keys of three bytes, and chains of earlier positions with the same key. */
module HashChain {
  import opened Bits
  import opened BitIO

  /** Bit i of a byte; nothing above the eighth bit. */
  function ByteBit(c: int, i: int): bool {
    0 <= c && 0 <= i < 8 && BitsOf(c, 8)[i]
  }

  /** UPDATE_HASH: the key shifted up and the byte mixed in, cut to the size of the key. */
  function UpdateHash(h: seq<bool>, shift: nat, c: int): (r: seq<bool>)
    ensures |r| == |h|
  {
    seq(|h|, i requires 0 <= i < |h| => (i >= shift && h[i - shift]) != ByteBit(c, i))
  }

  /** The key of three consecutive bytes. */
  function Key3(bits: nat, shift: nat, a: int, b: int, c: int): (r: seq<bool>)
    ensures |r| == bits
  {
    seq(bits, i => (ByteBit(a, i - 2 * shift) != ByteBit(b, i - shift)) != ByteBit(c, i))
  }

  /** The key has taken in a and b; whatever came before them only shows in bits that the next shift drops. */
  ghost predicate Rolled(h: seq<bool>, bits: nat, shift: nat, a: int, b: int) {
    |h| == bits && forall i :: 0 <= i < bits && i < 2 * shift ==> h[i] == (ByteBit(a, i - shift) != ByteBit(b, i))
  }

  /** After three bytes the oldest byte no longer takes part. */
  lemma RolledUpdate(h: seq<bool>, bits: nat, shift: nat, a: int, b: int, c: int)
    requires Rolled(h, bits, shift, a, b) && bits <= 3 * shift
    ensures UpdateHash(h, shift, c) == Key3(bits, shift, a, b, c)
    ensures Rolled(UpdateHash(h, shift, c), bits, shift, b, c)
  {
    hide ByteBit;
    NoByteBit(a);
    NoByteBit(b);
    var r := UpdateHash(h, shift, c);
    forall i | 0 <= i < bits
      ensures r[i] == Key3(bits, shift, a, b, c)[i]
      ensures i < 2 * shift ==> r[i] == (ByteBit(b, i - shift) != ByteBit(c, i))
    {
      if i >= shift {
        var j := i - shift;
        assert h[j] == (ByteBit(a, j - shift) != ByteBit(b, j));
      }
    }
  }

  lemma NoByteBit(c: int)
    ensures forall i :: i < 0 ==> !ByteBit(c, i)
  {
  }

  /** Starting afresh from two bytes. */
  lemma RolledStart(h: seq<bool>, bits: nat, shift: nat, a: int, b: int)
    requires |h| == bits && forall i :: 0 <= i < bits ==> h[i] == ByteBit(a, i)
    ensures Rolled(UpdateHash(h, shift, b), bits, shift, a, b)
  {
    hide ByteBit;
    NoByteBit(a);
  }

  lemma SameBits(c: int, d: int)
    requires 0 <= c < 256 && 0 <= d < 256 && forall i :: 0 <= i < 8 ==> ByteBit(c, i) == ByteBit(d, i)
    ensures c == d
  {
    hide Value;
    assert forall i :: 0 <= i < 8 ==> BitsOf(c, 8)[i] == ByteBit(c, i);
    assert forall i :: 0 <= i < 8 ==> BitsOf(d, 8)[i] == ByteBit(d, i);
    assert BitsOf(c, 8) == BitsOf(d, 8);
    Powers();
    BitsOfValue(c, 8);
    BitsOfValue(d, 8);
  }

  /** With equal keys of at least eight bits, two equal bytes are followed by a third equal one. */
  lemma ThirdByte(bits: nat, shift: nat, a: int, b: int, c: int, d: int)
    requires bits >= 8 && 0 <= c < 256 && 0 <= d < 256 && Key3(bits, shift, a, b, c) == Key3(bits, shift, a, b, d)
    ensures c == d
  {
    hide ByteBit;
    forall i | 0 <= i < 8
      ensures ByteBit(c, i) == ByteBit(d, i)
    {
      assert Key3(bits, shift, a, b, c)[i] == Key3(bits, shift, a, b, d)[i];
    }
    SameBits(c, d);
  }

  // ---------- chains ----------

  /** Size of the dictionary: window size, key bits, shift per byte. */
  datatype Dims = Dims(w: nat, bits: nat, shift: nat)

  const MIN_LOOKAHEAD := 262

  ghost predicate IsDims(d: Dims) {
    512 <= d.w <= 0x8000 && 8 <= d.bits <= 3 * d.shift
  }

  /** The index of the key of the three bytes at p. */
  ghost function KeyAt(d: Dims, input: seq<int>, p: int): (k: nat)
    requires 0 <= p && p + 2 < |input|
    ensures k < Pow2(d.bits)
  {
    var key := Key3(d.bits, d.shift, input[p], input[p + 1], input[p + 2]);
    ValueBound(key);
    Value(key)
  }

  /** An entry of a chain: none, or an earlier position in the dictionary with that key. */
  ghost predicate Links(d: Dims, input: seq<int>, base: nat, ins: set<int>, q: int, key: int) {
    q == 0 || (q > 0 && base + q in ins && base + q + 2 < |input| && KeyAt(d, input, base + q) == key)
  }

  /** ins are the positions in the dictionary, all before pos; positions count from the start of the input, entries
      from the start of the window at base. Only links of the last w positions are still in place. */
  ghost predicate Chains(d: Dims, head: seq<int>, prev: seq<int>, input: seq<int>, base: nat, pos: int, ins: set<int>) {
    && IsDims(d) && |head| == Pow2(d.bits) && |prev| == d.w
    && (forall p :: p in ins ==> 0 <= p < pos && p + 2 < |input|)
    && (forall k :: 0 <= k < |head| ==> Links(d, input, base, ins, head[k], k))
    && (forall p :: p in ins && base < p && pos - d.w <= p ==> LinkedOn(d, prev, input, base, ins, p))
  }

  ghost predicate LinkedOn(d: Dims, prev: seq<int>, input: seq<int>, base: nat, ins: set<int>, p: int)
    requires IsDims(d)
  {
    |prev| == d.w && 0 <= p && p + 2 < |input| && Links(d, input, base, ins, prev[(p - base) % d.w], KeyAt(d, input, p))
  }

  lemma Residues(w: nat, p: int, q: int)
    requires w >= 1 && p < q < p + w
    ensures p % w != q % w
  {
    if p % w == q % w {
      var a, b := p / w, q / w;
      assert p == w * a + p % w && q == w * b + q % w;
      Spaced(w, a, b);
    }
  }

  lemma Spaced(w: nat, a: int, b: int)
    ensures a < b ==> w * b - w * a >= w
    ensures b <= a ==> w * b - w * a <= 0
  {
    if a < b {
      MulGap(w, a, b);
    } else if b < a {
      MulGap(w, b, a);
    }
  }

  /** INSERT_STRING at p, seen from a bound that leaves p's slot to it alone. */
  lemma InsertKeeps(d: Dims, head: seq<int>, prev: seq<int>, input: seq<int>, base: nat, pos: int, ins: set<int>,
                    p: int, pos': int)
    requires Chains(d, head, prev, input, base, pos, ins) && base <= p < pos' && pos' - d.w <= p && pos <= pos'
    requires p + 2 < |input|
    ensures var k := KeyAt(d, input, p);
      Chains(d, head[k := p - base], prev[(p - base) % d.w := head[k]], input, base, pos',
             if p == base then ins else ins + {p})
  {
    hide KeyAt;
    var k := KeyAt(d, input, p);
    var head', prev' := head[k := p - base], prev[(p - base) % d.w := head[k]];
    var ins' := if p == base then ins else ins + {p};
    forall j | 0 <= j < |head|
      ensures Links(d, input, base, ins', head'[j], j)
    {
      assert Links(d, input, base, ins, head[j], j);
    }
    forall r | r in ins' && base < r && pos' - d.w <= r
      ensures LinkedOn(d, prev', input, base, ins', r)
    {
      if r == p {
        assert Links(d, input, base, ins, head[k], k);
      } else {
        assert LinkedOn(d, prev, input, base, ins, r);
        if r < p {
          Residues(d.w, r - base, p - base);
        } else {
          Residues(d.w, p - base, r - base);
        }
      }
    }
  }

  /** More input, or a later bound, changes nothing. */
  lemma ChainsLater(d: Dims, head: seq<int>, prev: seq<int>, input: seq<int>, more: seq<int>, base: nat, pos: int,
                    ins: set<int>, pos': int)
    requires Chains(d, head, prev, input, base, pos, ins) && pos <= pos'
    ensures Chains(d, head, prev, input + more, base, pos', ins)
  {
    hide Key3;
    forall p | 0 <= p && p + 2 < |input|
      ensures KeyAt(d, input + more, p) == KeyAt(d, input, p)
    {
    }
    forall k | 0 <= k < |head|
      ensures Links(d, input + more, base, ins, head[k], k)
    {
      assert Links(d, input, base, ins, head[k], k);
    }
    forall p | p in ins && base < p && pos' - d.w <= p
      ensures LinkedOn(d, prev, input + more, base, ins, p)
    {
      assert LinkedOn(d, prev, input, base, ins, p);
    }
  }

  /** One entry when the window moves by w. */
  function Slid(w: nat, m: int): int {
    if m >= w then m - w else 0
  }

  lemma SlideKeeps(d: Dims, head: seq<int>, prev: seq<int>, head': seq<int>, prev': seq<int>, input: seq<int>,
                   base: nat, pos: int, ins: set<int>)
    requires Chains(d, head, prev, input, base, pos, ins) && |head'| == |head| && |prev'| == |prev|
    requires forall k :: 0 <= k < |head| ==> head'[k] == Slid(d.w, head[k])
    requires forall k :: 0 <= k < |prev| ==> prev'[k] == Slid(d.w, prev[k])
    ensures Chains(d, head', prev', input, base + d.w, pos, ins)
  {
    hide KeyAt;
    forall k | 0 <= k < |head|
      ensures Links(d, input, base + d.w, ins, head'[k], k)
    {
      assert Links(d, input, base, ins, head[k], k);
    }
    forall p | p in ins && base + d.w < p && pos - d.w <= p
      ensures LinkedOn(d, prev', input, base + d.w, ins, p)
    {
      assert LinkedOn(d, prev, input, base, ins, p);
      SlotStays(p - base, d.w);
    }
  }

  /** Moving the window does not change slots. */
  lemma SlotStays(q: int, w: nat)
    requires w >= 1 && q >= w
    ensures (q - w) % w == q % w
  {
    DivMod(q, w);
    assert q - w == w * (q / w - 1) + q % w by {
      assert w * (q / w - 1) == w * (q / w) - w;
    }
    NotLess(q, w);
    DivUnique(q - w, w, q / w - 1, q % w);
  }

  lemma NotLess(q: int, w: nat)
    requires w >= 1 && q >= w
    ensures q / w >= 1
  {
  }

  lemma HeadLinks(d: Dims, head: seq<int>, prev: seq<int>, input: seq<int>, base: nat, pos: int, ins: set<int>, k: nat)
    requires Chains(d, head, prev, input, base, pos, ins) && k < Pow2(d.bits)
    ensures k < |head| && |prev| == d.w >= 1 && Links(d, input, base, ins, head[k], k)
  {
  }

  /** What a search at pos relies on once pos itself has been inserted: the links between the positions before it. */
  ghost predicate Searchable(d: Dims, prev: seq<int>, input: seq<int>, base: nat, pos: int, ins: set<int>) {
    && IsDims(d) && |prev| == d.w
    && (forall p :: p in ins ==> 0 <= p < pos && p + 2 < |input|)
    && (forall p :: p in ins && base < p && pos + 1 - d.w <= p ==> LinkedOn(d, prev, input, base, ins, p))
  }

  lemma SearchAfterInsert(d: Dims, head: seq<int>, prev: seq<int>, input: seq<int>, base: nat, pos: int, ins: set<int>,
                          x: int)
    requires Chains(d, head, prev, input, base, pos, ins) && 0 <= pos
    ensures Searchable(d, prev[(pos - base) % d.w := x], input, base, pos, ins)
  {
    hide KeyAt;
    forall p | p in ins && base < p && pos + 1 - d.w <= p
      ensures LinkedOn(d, prev[(pos - base) % d.w := x], input, base, ins, p)
    {
      assert LinkedOn(d, prev, input, base, ins, p);
      Residues(d.w, p - base, pos - base);
    }
  }
}

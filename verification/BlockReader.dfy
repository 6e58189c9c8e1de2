/** The decompressor's reading of a block, field by field, as far as the decoding tables. */
module BlockReader {
  import opened Bits
  import opened BitIO
  import opened Canonical
  import opened SymbolFetch
  import opened Mtf
  import opened BlockFormat
  import opened BlockData

  datatype Status = Ok | Starving | DataError | Overrunning

  /** The status that goes with an outcome. */
  ghost predicate Reports<T>(st: Status, res: Got<T>) {
    && (st.Ok? <==> res.Got?) && (st.Starving? <==> res.Starved?) && (st.DataError? <==> res.Corrupt?)
    && (st.Overrunning? <==> res.Overrun?)
  }

  // ---------- the byte map ----------

  /** flags with the entries from `from` on replaced by row. */
  function Patched(flags: seq<bool>, from: nat, row: seq<bool>): (f: seq<bool>)
    requires from + |row| <= |flags|
    ensures |f| == |flags|
  {
    flags[..from] + row + flags[from + |row|..]
  }

  lemma PatchNext(flags: seq<bool>, from: nat, bits: seq<bool>, p: nat, j: nat)
    requires from + j < |flags| && p + j < |bits|
    ensures Patched(flags, from, bits[p..p + j])[from + j := bits[p + j]] == Patched(flags, from, bits[p..p + (j + 1)])
    ensures Patched(flags, from, bits[p..p]) == flags
  {
    assert bits[p..p + (j + 1)] == bits[p..p + j] + [bits[p + j]];
  }

  /** One bit, as a boolean. */
  method ReadFlag(r: BitReader, flags: array<bool>, i: nat) returns (st: Status)
    requires r.Valid() && i < flags.Length
    modifies r, flags
    ensures r.Valid() && (st.Ok? || st.Starving?) && (st.Ok? <==> old(r.Pos()) < |r.Bits()|)
    ensures st.Ok? ==> r.Pos() == old(r.Pos()) + 1 && flags[..] == old(flags[..])[i := r.Bits()[old(r.Pos())]]
  {
    hide ToBits;
    st := Starving;
    var uc := r.GetBit();
    if uc.Got? {
      flags[i] := uc.value == 1;
      st := Ok;
    }
  }

  /** n single bits. */
  method ReadFlags(r: BitReader, flags: array<bool>, from: nat, n: nat) returns (st: Status)
    requires r.Valid() && from + n <= flags.Length && n > 0
    modifies r, flags
    ensures r.Valid() && (st.Ok? || st.Starving?)
    ensures st.Ok? <==> old(r.Pos()) + n <= |r.Bits()|
    ensures st.Ok? ==> r.Pos() == old(r.Pos()) + n
    ensures st.Ok? ==>
      flags[..] == Patched(old(flags[..]), from, r.Bits()[old(r.Pos())..old(r.Pos()) + n])
  {
    hide Patched, ToBits;
    ghost var p, before, bits := r.Pos(), flags[..], r.Bits();
    st := Ok;
    var j := 0;
    while j < n
      invariant 0 <= j <= n && st.Ok? && r.Valid() && r.Pos() == p + j <= |bits|
      invariant j > 0 ==> flags[..] == Patched(before, from, bits[p..p + j])
      invariant j == 0 ==> flags[..] == before
    {
      st := ReadFlag(r, flags, from + j);
      if !st.Ok? {
        return;
      }
      PatchNext(before, from, bits, p, j);
      j := j + 1;
    }
  }

  method ClearFlags(flags: array<bool>)
    modifies flags
    ensures forall k :: 0 <= k < flags.Length ==> !flags[k]
  {
    var i := 0;
    while i < flags.Length
      invariant 0 <= i <= flags.Length && forall k :: 0 <= k < i ==> !flags[k]
    {
      flags[i] := false;
      i := i + 1;
    }
  }

  method ReadMap(r: BitReader, inUse: array<bool>) returns (st: Status)
    requires r.Valid() && inUse.Length == 256
    modifies r, inUse
    ensures r.Valid() && Reports(st, ParseMap(r.Bits(), old(r.Pos())))
    ensures st.Ok? ==> ParseMap(r.Bits(), old(r.Pos())) == Got(inUse[..], r.Pos())
  {
    ghost var bits, p := r.Bits(), r.Pos();
    var inUse16 := new bool[16];
    ghost var blank := inUse16[..];
    st := ReadFlags(r, inUse16, 0, 16);
    if !st.Ok? {
      return;
    }
    assert Patched(blank, 0, bits[p..p + 16]) == bits[p..p + 16];
    st := ReadMapRows(r, inUse16, inUse);
  }

  method ReadMapRows(r: BitReader, inUse16: array<bool>, inUse: array<bool>) returns (st: Status)
    requires r.Valid() && inUse16.Length == 16 && inUse.Length == 256 && inUse != inUse16
    modifies r, inUse
    ensures r.Valid() && Reports(st, ParseRows(r.Bits(), old(r.Pos()), inUse16[..], [], 0))
    ensures st.Ok? ==> ParseRows(r.Bits(), old(r.Pos()), inUse16[..], [], 0) == Got(inUse[..], r.Pos())
  {
    hide EmptyRow;
    ghost var bits, p, head := r.Bits(), r.Pos(), inUse16[..];
    ClearFlags(inUse);
    var i := 0;
    while i < 16
      invariant 0 <= i <= 16 && r.Valid() && inUse16[..] == head
      invariant ParseRows(bits, p, head, [], 0) == ParseRows(bits, r.Pos(), head, inUse[..16 * i], i)
      invariant forall k :: 16 * i <= k < 256 ==> !inUse[k]
    {
      ghost var q, before := r.Pos(), inUse[..];
      if inUse16[i] {
        st := ReadFlags(r, inUse, 16 * i, 16);
        if !st.Ok? {
          return;
        }
        RowRead(before, inUse[..], bits[q..q + 16], i);
      } else {
        UnusedRow(inUse[16 * i..16 * i + 16]);
        assert inUse[..16 * (i + 1)] == inUse[..16 * i] + inUse[16 * i..16 * i + 16];
      }
      i := i + 1;
    }
    assert inUse[..256] == inUse[..];
    st := Ok;
  }

  lemma RowRead(before: seq<bool>, after: seq<bool>, row: seq<bool>, i: nat)
    requires |before| == 256 && i < 16 && |row| == 16
    requires after == Patched(before, 16 * i, row)
    ensures |after| == 256 && after[..16 * (i + 1)] == before[..16 * i] + row
    ensures forall k :: 16 * (i + 1) <= k < 256 ==> after[k] == before[k]
  {
  }

  // ---------- selectors ----------

  method ReadUnary(r: BitReader, nGroups: nat) returns (st: Status, j: nat)
    requires r.Valid()
    modifies r
    ensures r.Valid() && Reports(st, ParseUnary(r.Bits(), old(r.Pos()), 0, nGroups))
    ensures st.Ok? ==> ParseUnary(r.Bits(), old(r.Pos()), 0, nGroups) == Got(j, r.Pos())
  {
    ghost var bits, p := r.Bits(), r.Pos();
    j := 0;
    while true
      invariant r.Valid() && ParseUnary(bits, p, 0, nGroups) == ParseUnary(bits, r.Pos(), j, nGroups)
      decreases |bits| - r.Pos()
    {
      var uc := r.GetBit();
      if !uc.Got? {
        st := Starving;
        return;
      }
      if uc.value == 0 {
        break;
      }
      j := j + 1;
      if j >= nGroups {
        st := DataError;
        return;
      }
    }
    st := Ok;
  }

  /** Reads the places into selectorMtf. That the array is long enough is not checked by the library: a store past its
      end is reported here as an overrun. */
  method ReadPlaces(r: BitReader, selectorMtf: array<int>, nGroups: nat, nSelectors: nat) returns (st: Status)
    requires r.Valid() && 1 <= nGroups && selectorMtf.Length == MAX_SELECTORS
    modifies r, selectorMtf
    ensures r.Valid() && Reports(st, ParsePlaces(r.Bits(), old(r.Pos()), nGroups, nSelectors, []))
    ensures st.Ok? ==>
      nSelectors <= MAX_SELECTORS &&
      ParsePlaces(r.Bits(), old(r.Pos()), nGroups, nSelectors, []) == Got(selectorMtf[..nSelectors], r.Pos())
    ensures st.Ok? ==> AllPlaces(selectorMtf[..nSelectors], 0, nGroups)
  {
    hide ParseUnary;
    ghost var bits, p := r.Bits(), r.Pos();
    st := Ok;
    var i := 0;
    while i < nSelectors
      invariant 0 <= i <= nSelectors && i <= MAX_SELECTORS && r.Valid() && st.Ok?
      invariant AllPlaces(selectorMtf[..i], 0, nGroups)
      invariant ParsePlaces(bits, p, nGroups, nSelectors, []) ==
                ParsePlaces(bits, r.Pos(), nGroups, nSelectors, selectorMtf[..i])
    {
      ParsedUnary(bits, r.Pos(), 0, nGroups);
      var j;
      st, j := ReadUnary(r, nGroups);
      if !st.Ok? {
        return;
      }
      if i >= selectorMtf.Length {
        st := Overrunning;
        return;
      }
      ghost var before := selectorMtf[..i];
      selectorMtf[i] := j;
      assert selectorMtf[..i + 1] == before + [j];
      i := i + 1;
    }
  }

  method ReadSelectors(r: BitReader, selectorMtf: array<int>) returns (st: Status, nGroups: nat, nSelectors: nat)
    requires r.Valid() && selectorMtf.Length == MAX_SELECTORS
    modifies r, selectorMtf
    ensures r.Valid() && Reports(st, ParseSelectors(r.Bits(), old(r.Pos())))
    ensures st.Ok? ==> 2 <= nGroups <= MAX_GROUPS && 1 <= nSelectors <= MAX_SELECTORS
    ensures st.Ok? ==> ParseSelectors(r.Bits(), old(r.Pos())) == Got((nGroups, selectorMtf[..nSelectors]), r.Pos())
    ensures st.Ok? ==> AllPlaces(selectorMtf[..nSelectors], 0, nGroups)
  {
    hide ParsePlaces, Pow2;
    nGroups, nSelectors, st := 0, 0, Starving;
    var g := r.GetBits(3);
    if !g.Got? {
      return;
    }
    if g.value < 2 || g.value > 6 {
      st := DataError;
      return;
    }
    nGroups := g.value;
    var n := r.GetBits(15);
    if !n.Got? {
      return;
    }
    nSelectors := n.value;
    if nSelectors < 1 {
      st := DataError;
      return;
    }
    st := ReadPlaces(r, selectorMtf, nGroups, nSelectors);
  }

  /** Undoes the move-to-front coding of the selectors, from selectorMtf into selector. */
  method UndoSelectors(selectorMtf: array<int>, selector: array<int>, nGroups: nat, nSelectors: nat)
    requires selector != selectorMtf && nSelectors <= selector.Length == selectorMtf.Length
    requires 1 <= nGroups <= MAX_GROUPS && AllPlaces(selectorMtf[..nSelectors], 0, nGroups)
    modifies selector
    ensures selector[..nSelectors] == PlacedSelectors(Identity(nGroups), selectorMtf[..nSelectors], 0)
    ensures forall i :: 0 <= i < nSelectors ==> 0 <= selector[i] < nGroups
  {
    hide MoveFront;
    var pos := new int[MAX_GROUPS](v => v);
    assert pos[..nGroups] == Identity(nGroups);
    ghost var m := selectorMtf[..nSelectors];
    ghost var whole := PlacedSelectors(Identity(nGroups), m, 0);
    assert selector[..0] == [];
    var i := 0;
    while i < nSelectors
      invariant 0 <= i <= nSelectors && selectorMtf[..nSelectors] == m
      invariant selector[..i] + PlacedSelectors(pos[..nGroups], m, i) == whole
      modifies selector, pos
    {
      ghost var list, done := pos[..nGroups], selector[..i];
      var tmp := ShiftDown(pos, nGroups, selectorMtf[i]);
      selector[i] := tmp;
      assert selector[..i + 1] == done + [tmp];
      assert done + ([tmp] + PlacedSelectors(pos[..nGroups], m, i + 1)) ==
          done + [tmp] + PlacedSelectors(pos[..nGroups], m, i + 1);
      i := i + 1;
    }
    assert selector[..nSelectors] == whole;
    forall k | 0 <= k < nSelectors
      ensures 0 <= selector[k] < nGroups
    {
      assert whole[k] in Identity(nGroups);
    }
  }

  /** Moves entry v of the list to the front, those before it one back. */
  method ShiftDown(pos: array<int>, k: nat, v0: nat) returns (tmp: int)
    requires v0 < k <= pos.Length
    modifies pos
    ensures tmp == old(pos[v0]) && pos[..k] == MoveFront(old(pos[..k]), v0)
  {
    ghost var list := pos[..k];
    var v := v0;
    tmp := pos[v];
    while v > 0
      invariant 0 <= v <= v0
      invariant forall q :: 0 <= q <= v ==> pos[q] == list[q]
      invariant forall q :: v < q <= v0 ==> pos[q] == list[q - 1]
      invariant forall q :: v0 < q < k ==> pos[q] == list[q]
    {
      pos[v] := pos[v - 1];
      v := v - 1;
    }
    pos[0] := tmp;
  }

  // ---------- coding tables ----------

  method ReadLength(r: BitReader, curr0: int) returns (st: Status, curr: int)
    requires r.Valid()
    modifies r
    ensures r.Valid() && Reports(st, ParseLength(r.Bits(), old(r.Pos()), curr0))
    ensures st.Ok? ==> ParseLength(r.Bits(), old(r.Pos()), curr0) == Got(curr, r.Pos()) && 1 <= curr <= 20
  {
    ghost var bits, p := r.Bits(), r.Pos();
    curr := curr0;
    while true
      invariant r.Valid() && ParseLength(bits, p, curr0) == ParseLength(bits, r.Pos(), curr)
      decreases |bits| - r.Pos()
    {
      if curr < 1 || curr > 20 {
        st := DataError;
        return;
      }
      var uc := r.GetBit();
      if !uc.Got? {
        st := Starving;
        return;
      }
      if uc.value == 0 {
        break;
      }
      uc := r.GetBit();
      if !uc.Got? {
        st := Starving;
        return;
      }
      if uc.value == 0 {
        curr := curr + 1;
      } else {
        curr := curr - 1;
      }
    }
    st := Ok;
  }

  method ReadTable(r: BitReader, alphaSize: nat) returns (st: Status, len: seq<int>)
    requires r.Valid() && 0 < alphaSize <= MAX_ALPHA_SIZE
    modifies r
    ensures r.Valid() && Reports(st, ParseTable(r.Bits(), old(r.Pos()), alphaSize))
    ensures st.Ok? ==> ParseTable(r.Bits(), old(r.Pos()), alphaSize) == Got(len, r.Pos())
    ensures st.Ok? ==> |len| == alphaSize && IsLengths(len)
  {
    hide ParseLength, Pow2;
    len, st := [], Starving;
    var c := r.GetBits(5);
    if !c.Got? {
      return;
    }
    ghost var bits, p := r.Bits(), r.Pos();
    var curr := c.value;
    st := Ok;
    var i := 0;
    while i < alphaSize
      invariant 0 <= i <= alphaSize && |len| == i && r.Valid() && st.Ok?
      invariant forall k :: 0 <= k < i ==> 1 <= len[k] <= 20
      invariant ParseLengths(bits, p, alphaSize, c.value, []) == ParseLengths(bits, r.Pos(), alphaSize, curr, len)
    {
      st, curr := ReadLength(r, curr);
      if !st.Ok? {
        return;
      }
      len := len + [curr];
      i := i + 1;
    }
  }

  method ReadTables(r: BitReader, alphaSize: nat, nGroups: nat) returns (st: Status, lens: seq<seq<int>>)
    requires r.Valid() && 0 < alphaSize <= MAX_ALPHA_SIZE
    modifies r
    ensures r.Valid() && Reports(st, ParseTables(r.Bits(), old(r.Pos()), alphaSize, nGroups, []))
    ensures st.Ok? ==> ParseTables(r.Bits(), old(r.Pos()), alphaSize, nGroups, []) == Got(lens, r.Pos())
    ensures st.Ok? ==> |lens| == nGroups && AllLengths(lens, alphaSize)
  {
    hide ParseTable, IsLengths;
    ghost var bits, p := r.Bits(), r.Pos();
    lens := [];
    st := Ok;
    var t := 0;
    while t < nGroups
      invariant 0 <= t <= nGroups && |lens| == t && r.Valid() && st.Ok? && AllLengths(lens, alphaSize)
      invariant ParseTables(bits, p, alphaSize, nGroups, []) == ParseTables(bits, r.Pos(), alphaSize, nGroups, lens)
    {
      var len;
      st, len := ReadTable(r, alphaSize);
      if !st.Ok? {
        return;
      }
      lens := lens + [len];
      t := t + 1;
    }
  }

  /** Decoding tables for one set of lengths. */
  method MakeTable(len: seq<int>) returns (t: CodeTable)
    requires IsLengths(len)
    ensures TableFor(t, len, MaxLength(len)) && t.minLen == MinLength(len)
  {
    hide Tables, MinLength, MaxLength;
    var minLen, maxLen := LengthRange(len);
    assert len[0] in len;
    var length := new int[|len|](i requires 0 <= i < |len| => len[i]);
    assert length[..|len|] == len;
    var limit := new int[MAX_ALPHA_SIZE];
    var base := new int[MAX_ALPHA_SIZE];
    var perm := new int[MAX_ALPHA_SIZE];
    CreateDecodeTables(limit, base, perm, length, minLen, maxLen, |len|);
    t := CodeTable(minLen, limit[..], base[..], perm[..]);
  }

  method MakeTables(lens: seq<seq<int>>, alphaSize: nat) returns (ts: seq<CodeTable>)
    requires AllLengths(lens, alphaSize)
    ensures |ts| == |lens|
    ensures forall t :: 0 <= t < |ts| ==>
        TableFor(ts[t], lens[t], MaxLength(lens[t])) && ts[t].minLen == MinLength(lens[t])
  {
    hide TableFor, IsLengths;
    ts := [];
    var t := 0;
    while t < |lens|
      invariant 0 <= t <= |lens| && |ts| == t
      invariant forall u :: 0 <= u < t ==>
          TableFor(ts[u], lens[u], MaxLength(lens[u])) && ts[u].minLen == MinLength(lens[u])
    {
      var table := MakeTable(lens[t]);
      ts := ts + [table];
      t := t + 1;
    }
  }

  // ---------- symbols ----------

  /** GET_MTF_VAL behind the choice of the table. */
  method ReadSymbol(r: BitReader, t: CodeTable) returns (st: Status, s: int)
    requires r.Valid() && TableShape(t)
    modifies r
    ensures r.Valid()
    ensures match FetchSym(t, r.Bits(), old(r.Pos()))
            case Sym(v, p) => st.Ok? && s == v && r.Pos() == p
            case Short => st.Starving?
            case Bad => st.DataError?
  {
    hide Pow2, ToBits, FromBits;
    s := 0;
    ghost var bits, p := r.Bits(), r.Pos();
    var zn := t.minLen;
    var first := r.GetBits(zn);
    if !first.Got? {
      st := Starving;
      return;
    }
    var zvec: nat := first.value;
    while true
      invariant r.Valid() && t.minLen <= zn
      invariant FetchSym(t, bits, p) == FetchFrom(t, bits, r.Pos(), zn, zvec)
      decreases 21 - zn
    {
      if zn > 20 {
        st := DataError;
        return;
      }
      if zvec <= t.limit[zn] {
        break;
      }
      zn := zn + 1;
      var zj := r.GetBit();
      if !zj.Got? {
        st := Starving;
        return;
      }
      zvec := zvec * 2 + zj.value;
    }
    if zvec - t.base[zn] < 0 || zvec - t.base[zn] >= MAX_ALPHA_SIZE {
      st := DataError;
      return;
    }
    st, s := Ok, t.perm[zvec - t.base[zn]];
  }
}

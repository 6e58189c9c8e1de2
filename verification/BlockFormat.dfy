/** The bits of a compressed block in front of its data: byte map, selectors and coding tables, as they are
    written and as they are read. */
module BlockFormat {
  import opened Bits
  import opened BitIO
  import opened Mtf
  import opened Canonical

  const GROUP_SIZE := 50
  const MAX_GROUPS := 6

  // ---------- the byte map ----------

  function Row(inUse: seq<bool>, i: nat): (r: seq<bool>)
    requires |inUse| == 256 && i < 16
    ensures |r| == 16
  {
    inUse[16 * i..16 * i + 16]
  }

  /** One bit for every row of sixteen from row i on: is anything in it used? */
  function MapHead(inUse: seq<bool>, i: nat): (h: seq<bool>)
    requires |inUse| == 256 && i <= 16
    ensures |h| == 16 - i && forall k :: i <= k < 16 ==> h[k - i] == (true in Row(inUse, k))
    decreases 16 - i
  {
    if i == 16 then [] else [true in Row(inUse, i)] + MapHead(inUse, i + 1)
  }

  /** The rows with anything in them. */
  function MapRows(inUse: seq<bool>, i: nat): seq<bool>
    requires |inUse| == 256 && i <= 16
    decreases 16 - i
  {
    if i == 16 then []
    else (if true in Row(inUse, i) then Row(inUse, i) else []) + MapRows(inUse, i + 1)
  }

  lemma MapStep(inUse: seq<bool>, i: nat)
    requires |inUse| == 256 && i < 16
    ensures MapHead(inUse, i) == [true in Row(inUse, i)] + MapHead(inUse, i + 1)
    ensures MapRows(inUse, i) == (if true in Row(inUse, i) then Row(inUse, i) else []) + MapRows(inUse, i + 1)
  {
  }

  lemma MapEnd(inUse: seq<bool>)
    requires |inUse| == 256
    ensures MapHead(inUse, 16) == [] && MapRows(inUse, 16) == []
  {
  }

  function MapBits(inUse: seq<bool>): seq<bool>
    requires |inUse| == 256
  {
    MapHead(inUse, 0) + MapRows(inUse, 0)
  }

  function EmptyRow(): (r: seq<bool>)
    ensures |r| == 16 && true !in r
  {
    seq(16, i => false)
  }

  /** Rows i.. of the map whose head is given, behind the rows already read. */
  function ParseRows(bits: seq<bool>, pos: nat, head: seq<bool>, done: seq<bool>, i: nat): Got<seq<bool>>
    requires |head| == 16 && i <= 16
    decreases 16 - i
  {
    if i == 16 then Got(done, pos)
    else if !head[i] then ParseRows(bits, pos, head, done + EmptyRow(), i + 1)
    else if pos + 16 > |bits| then Starved
    else ParseRows(bits, pos + 16, head, done + bits[pos..pos + 16], i + 1)
  }

  function ParseMap(bits: seq<bool>, pos: nat): Got<seq<bool>> {
    if pos + 16 > |bits| then Starved else ParseRows(bits, pos + 16, bits[pos..pos + 16], [], 0)
  }

  lemma UnusedRow(row: seq<bool>)
    requires |row| == 16 && true !in row
    ensures row == EmptyRow()
  {
    forall k | 0 <= k < 16
      ensures row[k] == EmptyRow()[k]
    {
      assert row[k] in row;
    }
  }

  lemma HeadAt(inUse: seq<bool>, i: nat)
    requires |inUse| == 256 && i < 16
    ensures MapHead(inUse, 0)[i] == (true in Row(inUse, i))
  {
    hide MapHead, Row;
    assert MapHead(inUse, 0)[i - 0] == (true in Row(inUse, i));
  }

  lemma RowNext(inUse: seq<bool>, i: nat)
    requires |inUse| == 256 && i < 16
    ensures inUse[..16 * i] + Row(inUse, i) == inUse[..16 * (i + 1)]
  {
  }

  lemma {:induction false} RowsRoundTrip(bits: seq<bool>, pos: nat, inUse: seq<bool>, i: nat)
    requires |inUse| == 256 && i <= 16 && Has(bits, pos, MapRows(inUse, i))
    ensures ParseRows(bits, pos, MapHead(inUse, 0), inUse[..16 * i], i) == Got(inUse, pos + |MapRows(inUse, i)|)
    decreases 16 - i
  {
    hide MapHead, Row, EmptyRow;
    if i == 16 {
      assert inUse[..256] == inUse;
    } else {
      var row := Row(inUse, i);
      var piece := if true in row then row else [];
      HeadAt(inUse, i);
      RowNext(inUse, i);
      HasSplit(bits, pos, piece, MapRows(inUse, i + 1));
      RowsRoundTrip(bits, pos + |piece|, inUse, i + 1);
      if true !in row {
        UnusedRow(row);
      }
    }
  }

  /** The byte map is read back as it was written. */
  lemma MapRoundTrip(bits: seq<bool>, pos: nat, inUse: seq<bool>)
    requires |inUse| == 256 && Has(bits, pos, MapBits(inUse))
    ensures ParseMap(bits, pos) == Got(inUse, pos + |MapBits(inUse)|)
  {
    hide MapHead, MapRows, ParseRows;
    HasSplit(bits, pos, MapHead(inUse, 0), MapRows(inUse, 0));
    RowsRoundTrip(bits, pos + 16, inUse, 0);
    assert inUse[..0] == [];
  }

  // ---------- selectors ----------

  predicate AllIn(sel: seq<int>, i: nat, list: seq<int>) {
    forall k :: i <= k < |sel| ==> sel[k] in list
  }

  predicate AllPlaces(m: seq<int>, i: nat, n: nat) {
    forall k :: i <= k < |m| ==> 0 <= m[k] < n
  }

  /** Selectors from i on as places in a move-to-front list. */
  function SelectorPlaces(list: seq<int>, sel: seq<int>, i: nat): (m: seq<int>)
    requires i <= |sel| && AllIn(sel, i, list)
    ensures |m| == |sel| - i && AllPlaces(m, 0, |list|)
    decreases |sel| - i
  {
    if i == |sel| then []
    else
      var j := IndexOf(list, sel[i]);
      [j] + SelectorPlaces(MoveFront(list, j), sel, i + 1)
  }

  /** SelectorPlaces from i on looked up in a move-to-front list. */
  function PlacedSelectors(list: seq<int>, m: seq<int>, i: nat): (sel: seq<int>)
    requires i <= |m| && AllPlaces(m, i, |list|)
    ensures |sel| == |m| - i && AllIn(sel, 0, list)
    decreases |m| - i
  {
    if i == |m| then []
    else
      MoveFrontIn(list, m[i]);
      [list[m[i]]] + PlacedSelectors(MoveFront(list, m[i]), m, i + 1)
  }

  lemma MoveFrontIn(list: seq<int>, j: nat)
    requires j < |list|
    ensures forall c :: c in MoveFront(list, j) ==> c in list
  {
  }

  lemma {:induction false} PlacesRoundTrip(list: seq<int>, sel: seq<int>, i: nat)
    requires i <= |sel| && AllIn(sel, i, list)
    ensures PlacedSelectors(list, SelectorPlaces(list, sel, i), 0) == sel[i..]
    decreases |sel| - i
  {
    hide MoveFront, IndexOf;
    if i < |sel| {
      var j := IndexOf(list, sel[i]);
      var rest := SelectorPlaces(MoveFront(list, j), sel, i + 1);
      var m := SelectorPlaces(list, sel, i);
      assert m == [j] + rest && m[1..] == rest;
      PlacesRoundTrip(MoveFront(list, j), sel, i + 1);
      PlacedFrom(MoveFront(list, j), m, 1);
      assert sel[i..] == [sel[i]] + sel[i + 1..];
    }
  }

  lemma {:induction false} PlacedFrom(list: seq<int>, m: seq<int>, i: nat)
    requires i <= |m| && AllPlaces(m, i, |list|)
    ensures PlacedSelectors(list, m, i) == PlacedSelectors(list, m[i..], 0)
    decreases |m| - i
  {
    if i < |m| {
      var next := MoveFront(list, m[i]);
      PlacedFrom(next, m, i + 1);
      PlacedFrom(next, m[i..], 1);
      assert m[i..][1..] == m[i + 1..];
    }
  }

  function Ones(j: nat): (s: seq<bool>)
    ensures |s| == j
  {
    seq(j, i => true)
  }

  function Unary(j: nat): seq<bool> {
    Ones(j) + [false]
  }

  function UnaryBits(m: seq<int>, i: nat): seq<bool>
    requires i <= |m| && forall k :: 0 <= k < |m| ==> 0 <= m[k]
    decreases |m| - i
  {
    if i == |m| then [] else Unary(m[i]) + UnaryBits(m, i + 1)
  }

  /** j ones have been read. */
  function ParseUnary(bits: seq<bool>, pos: nat, j: nat, nGroups: nat): Got<int>
    decreases |bits| - pos
  {
    if pos >= |bits| then Starved
    else if !bits[pos] then Got(j, pos + 1)
    else if j + 1 >= nGroups then Corrupt
    else ParseUnary(bits, pos + 1, j + 1, nGroups)
  }

  lemma {:induction false} ParsedUnary(bits: seq<bool>, pos: nat, j: nat, nGroups: nat)
    requires j < nGroups
    ensures var r := ParseUnary(bits, pos, j, nGroups); r.Got? ==> j <= r.value < nGroups && pos < r.pos <= |bits|
    decreases |bits| - pos
  {
    if pos < |bits| && bits[pos] && j + 1 < nGroups {
      ParsedUnary(bits, pos + 1, j + 1, nGroups);
    }
  }

  /** BZ_MAX_SELECTORS, the length of the arrays for selectors. */
  const MAX_SELECTORS := 2 + 900000 / GROUP_SIZE

  /** n places, of which the arrays hold the first 18002. */
  function ParsePlaces(bits: seq<bool>, pos: nat, nGroups: nat, n: nat, done: seq<int>): Got<seq<int>>
    decreases n - |done|
  {
    if |done| >= n then Got(done, pos)
    else match ParseUnary(bits, pos, 0, nGroups)
      case Got(j, p) =>
        if |done| >= MAX_SELECTORS then Overrun else ParsePlaces(bits, p, nGroups, n, done + [j])
      case Starved => Starved
      case Corrupt => Corrupt
      case Overrun => Overrun
  }

  lemma {:induction false} UnaryRoundTrip(bits: seq<bool>, pos: nat, k: nat, j: nat, nGroups: nat)
    requires k <= j < nGroups && Has(bits, pos, Ones(j - k) + [false])
    ensures ParseUnary(bits, pos, k, nGroups) == Got(j, pos + (j - k) + 1)
    decreases j - k
  {
    if k == j {
      assert bits[pos..pos + 1][0] == false;
    } else {
      assert Ones(j - k) + [false] == [true] + (Ones(j - k - 1) + [false]);
      HasSplit(bits, pos, [true], Ones(j - k - 1) + [false]);
      assert bits[pos..pos + 1][0] == true;
      UnaryRoundTrip(bits, pos + 1, k + 1, j, nGroups);
    }
  }

  lemma {:induction false} SelectorsRoundTrip(bits: seq<bool>, pos: nat, nGroups: nat, m: seq<int>, i: nat)
    requires i <= |m| <= MAX_SELECTORS && forall k :: 0 <= k < |m| ==> 0 <= m[k] < nGroups
    requires Has(bits, pos, UnaryBits(m, i))
    ensures ParsePlaces(bits, pos, nGroups, |m|, m[..i]) == Got(m, pos + |UnaryBits(m, i)|)
    decreases |m| - i
  {
    if i == |m| {
      assert m[..i] == m;
    } else {
      HasSplit(bits, pos, Unary(m[i]), UnaryBits(m, i + 1));
      UnaryRoundTrip(bits, pos, 0, m[i], nGroups);
      assert m[..i] + [m[i]] == m[..i + 1];
      SelectorsRoundTrip(bits, pos + m[i] + 1, nGroups, m, i + 1);
    }
  }

  /** Number of tables, number of selectors, and the selectors in unary. */
  ghost function SelectorBits(nGroups: nat, m: seq<int>): seq<bool>
    requires AllPlaces(m, 0, nGroups)
  {
    ToBits(nGroups, 3) + (ToBits(|m|, 15) + UnaryBits(m, 0))
  }

  /** The selectors as they stand in the block. */
  function ParseSelectors(bits: seq<bool>, pos: nat): Got<(int, seq<int>)> {
    match Take(bits, pos, 3)
    case Starved => Starved
    case Corrupt => Corrupt
    case Overrun => Overrun
    case Got(nGroups, p) =>
      if nGroups < 2 || nGroups > 6 then Corrupt
      else
        match Take(bits, p, 15)
        case Starved => Starved
        case Corrupt => Corrupt
        case Overrun => Overrun
        case Got(nSelectors, q) =>
          if nSelectors < 1 then Corrupt
          else
            match ParsePlaces(bits, q, nGroups, nSelectors, [])
            case Got(m, e) => Got((nGroups, m), e)
            case Starved => Starved
            case Corrupt => Corrupt
            case Overrun => Overrun
  }

  /** The selectors are read back as they were written. */
  lemma SelectorListRoundTrip(bits: seq<bool>, pos: nat, nGroups: nat, m: seq<int>)
    requires 2 <= nGroups <= MAX_GROUPS && 1 <= |m| <= MAX_SELECTORS && AllPlaces(m, 0, nGroups)
    requires Has(bits, pos, SelectorBits(nGroups, m))
    ensures ParseSelectors(bits, pos) == Got((nGroups, m), pos + |SelectorBits(nGroups, m)|)
  {
    hide ToBits, UnaryBits, ParsePlaces;
    SmallPowers();
    HasSplit(bits, pos, ToBits(nGroups, 3), ToBits(|m|, 15) + UnaryBits(m, 0));
    HasSplit(bits, pos + 3, ToBits(|m|, 15), UnaryBits(m, 0));
    TakeWritten(bits, pos, nGroups, 3);
    TakeWritten(bits, pos + 3, |m|, 15);
    SelectorsRoundTrip(bits, pos + 18, nGroups, m, 0);
    assert m[..0] == [];
  }

  // ---------- more selectors than the arrays hold ----------

  lemma {:induction false} PlacesFit(bits: seq<bool>, pos: nat, nGroups: nat, n: nat, done: seq<int>)
    requires n <= MAX_SELECTORS
    ensures ParsePlaces(bits, pos, nGroups, n, done) != Overrun
    decreases n - |done|
  {
    hide ParseUnary;
    NeverOverrun(bits, pos, 0, nGroups);
    if |done| < n {
      match ParseUnary(bits, pos, 0, nGroups)
      case Starved =>
      case Corrupt =>
      case Overrun =>
      case Got(j, p) => PlacesFit(bits, p, nGroups, n, done + [j]);
    }
  }

  lemma {:induction false} NeverOverrun(bits: seq<bool>, pos: nat, j: nat, nGroups: nat)
    ensures ParseUnary(bits, pos, j, nGroups) != Overrun
    decreases |bits| - pos
  {
    if pos < |bits| && bits[pos] && j + 1 < nGroups {
      NeverOverrun(bits, pos + 1, j + 1, nGroups);
    }
  }

  /** So many zeros are so many places at the front. */
  lemma {:induction false} ZerosOverrun(bits: seq<bool>, pos: nat, nGroups: nat, n: nat, done: seq<int>)
    requires |done| <= MAX_SELECTORS < n && pos + (MAX_SELECTORS + 1 - |done|) <= |bits|
    requires forall k :: pos <= k < |bits| ==> !bits[k]
    ensures ParsePlaces(bits, pos, nGroups, n, done) == Overrun
    decreases n - |done|
  {
    if |done| < MAX_SELECTORS {
      ZerosOverrun(bits, pos + 1, nGroups, n, done + [0]);
    }
  }

  /** A block with so many selectors, all of the first table. */
  function Selectors(n: nat): seq<bool> {
    ToBits(2, 3) + (ToBits(n, 15) + seq(MAX_SELECTORS + 1, k => false))
  }

  /** The code accepts every number of selectors from 1 to 32767. Whatever follows, all stores are within the arrays, if
      and only if it is 18002 at the most; with 18003 and more, zeros can follow. */
  lemma SelectorLimit(n: nat)
    requires 1 <= n < 32768
    ensures (forall bits, pos, nGroups :: ParsePlaces(bits, pos, nGroups, n, []) != Overrun) <==> n <= MAX_SELECTORS
    ensures n > MAX_SELECTORS ==> ParseSelectors(Selectors(n), 0) == Overrun
  {
    hide ParsePlaces, ToBits;
    if n <= MAX_SELECTORS {
      forall bits, pos, nGroups
        ensures ParsePlaces(bits, pos, nGroups, n, []) != Overrun
      {
        PlacesFit(bits, pos, nGroups, n, []);
      }
    } else {
      var s := Selectors(n);
      SmallPowers();
      assert Has(s, 0, ToBits(2, 3)) && Has(s, 3, ToBits(n, 15));
      TakeWritten(s, 0, 2, 3);
      TakeWritten(s, 3, n, 15);
      ZerosOverrun(s, 18, 2, n, []);
    }
  }

  /** An overrun comes from too large a number of selectors. */
  lemma OverrunCount(bits: seq<bool>, pos: nat)
    requires ParseSelectors(bits, pos) == Overrun
    ensures pos + 18 <= |bits| && FromBits(bits[pos + 3..pos + 18]) > MAX_SELECTORS
  {
    hide ParsePlaces, FromBits;
    var n := FromBits(bits[pos + 3..pos + 18]);
    if 1 <= n <= MAX_SELECTORS {
      PlacesFit(bits, pos + 18, FromBits(bits[pos..pos + 3]), n, []);
    }
  }

  // ---------- coding tables ----------

  /** One length against the previous one: two bits for every step, then a zero. */
  function DeltaBits(curr: int, target: int): seq<bool>
    decreases if curr < target then target - curr else curr - target
  {
    if curr < target then [true, false] + DeltaBits(curr + 1, target)
    else if curr > target then [true, true] + DeltaBits(curr - 1, target)
    else [false]
  }

  function LengthBits(len: seq<int>, curr: int, i: nat): seq<bool>
    requires i <= |len|
    decreases |len| - i
  {
    if i == |len| then [] else DeltaBits(curr, len[i]) + LengthBits(len, len[i], i + 1)
  }

  function TableBits(len: seq<int>): seq<bool>
    requires 0 < |len| && 0 <= len[0]
  {
    ToBits(len[0], 5) + LengthBits(len, len[0], 0)
  }

  ghost predicate AllLengths(lens: seq<seq<int>>, alphaSize: nat) {
    0 < alphaSize <= MAX_ALPHA_SIZE && forall t :: 0 <= t < |lens| ==> |lens[t]| == alphaSize && IsLengths(lens[t])
  }

  function TablesBits(lens: seq<seq<int>>, t: nat): seq<bool>
    requires t <= |lens| && forall k :: t <= k < |lens| ==> 0 < |lens[k]| && 0 <= lens[k][0]
    decreases |lens| - t
  {
    if t == |lens| then [] else TableBits(lens[t]) + TablesBits(lens, t + 1)
  }

  function ParseLength(bits: seq<bool>, pos: nat, curr: int): Got<int>
    decreases |bits| - pos
  {
    if curr < 1 || curr > 20 then Corrupt
    else if pos >= |bits| then Starved
    else if !bits[pos] then Got(curr, pos + 1)
    else if pos + 1 >= |bits| then Starved
    else ParseLength(bits, pos + 2, if bits[pos + 1] then curr - 1 else curr + 1)
  }

  function ParseLengths(bits: seq<bool>, pos: nat, alphaSize: nat, curr: int, done: seq<int>): Got<seq<int>>
    decreases alphaSize - |done|
  {
    if |done| >= alphaSize then Got(done, pos)
    else match ParseLength(bits, pos, curr)
      case Got(l, p) => ParseLengths(bits, p, alphaSize, l, done + [l])
      case Starved => Starved
      case Corrupt => Corrupt
      case Overrun => Overrun
  }

  function ParseTable(bits: seq<bool>, pos: nat, alphaSize: nat): Got<seq<int>> {
    match Take(bits, pos, 5)
    case Got(curr, p) => ParseLengths(bits, p, alphaSize, curr, [])
    case Starved => Starved
    case Corrupt => Corrupt
    case Overrun => Overrun
  }

  function ParseTables(bits: seq<bool>, pos: nat, alphaSize: nat, nGroups: nat, done: seq<seq<int>>): Got<seq<seq<int>>>
    decreases nGroups - |done|
  {
    if |done| >= nGroups then Got(done, pos)
    else match ParseTable(bits, pos, alphaSize)
      case Got(len, p) => ParseTables(bits, p, alphaSize, nGroups, done + [len])
      case Starved => Starved
      case Corrupt => Corrupt
      case Overrun => Overrun
  }

  lemma DeltaStep(curr: int, target: int)
    ensures curr < target ==> DeltaBits(curr, target) == [true, curr > target] + DeltaBits(curr + 1, target)
    ensures curr > target ==> DeltaBits(curr, target) == [true, curr > target] + DeltaBits(curr - 1, target)
    ensures curr == target ==> DeltaBits(curr, target) == [false]
  {
  }

  lemma {:induction false} LengthRoundTrip(bits: seq<bool>, pos: nat, curr: int, target: int)
    requires 1 <= curr <= 20 && 1 <= target <= 20 && Has(bits, pos, DeltaBits(curr, target))
    ensures ParseLength(bits, pos, curr) == Got(target, pos + |DeltaBits(curr, target)|)
    decreases if curr < target then target - curr else curr - target
  {
    if curr == target {
      assert bits[pos..pos + 1][0] == false;
    } else {
      var next := if curr < target then curr + 1 else curr - 1;
      var step := [true, curr > target];
      DeltaStep(curr, target);
      HasSplit(bits, pos, step, DeltaBits(next, target));
      assert bits[pos..pos + 2][0] == true && bits[pos..pos + 2][1] == (curr > target);
      LengthRoundTrip(bits, pos + 2, next, target);
    }
  }

  lemma {:induction false} LengthsRoundTrip(bits: seq<bool>, pos: nat, len: seq<int>, curr: int, i: nat)
    requires i <= |len| && 1 <= curr <= 20 && forall k :: 0 <= k < |len| ==> 1 <= len[k] <= 20
    requires Has(bits, pos, LengthBits(len, curr, i))
    ensures ParseLengths(bits, pos, |len|, curr, len[..i]) == Got(len, pos + |LengthBits(len, curr, i)|)
    decreases |len| - i
  {
    hide DeltaBits, ParseLength;
    if i == |len| {
      assert len[..i] == len;
    } else {
      HasSplit(bits, pos, DeltaBits(curr, len[i]), LengthBits(len, len[i], i + 1));
      LengthRoundTrip(bits, pos, curr, len[i]);
      assert len[..i] + [len[i]] == len[..i + 1];
      LengthsRoundTrip(bits, pos + |DeltaBits(curr, len[i])|, len, len[i], i + 1);
    }
  }

  lemma TableRoundTrip(bits: seq<bool>, pos: nat, len: seq<int>)
    requires IsLengths(len) && Has(bits, pos, TableBits(len))
    ensures ParseTable(bits, pos, |len|) == Got(len, pos + |TableBits(len)|)
  {
    hide LengthBits, ParseLengths, ToBits;
    HasSplit(bits, pos, ToBits(len[0], 5), LengthBits(len, len[0], 0));
    assert Pow2(4) == 16 && Pow2(5) == 32;
    TakeWritten(bits, pos, len[0], 5);
    LengthsRoundTrip(bits, pos + 5, len, len[0], 0);
    assert len[..0] == [];
  }

  /** The coding tables are read back as they were written. */
  lemma {:induction false} TablesRoundTrip(bits: seq<bool>, pos: nat, lens: seq<seq<int>>, alphaSize: nat, t: nat)
    requires t <= |lens| && AllLengths(lens, alphaSize) && Has(bits, pos, TablesBits(lens, t))
    ensures ParseTables(bits, pos, alphaSize, |lens|, lens[..t]) == Got(lens, pos + |TablesBits(lens, t)|)
    decreases |lens| - t
  {
    hide TableBits, ParseTable;
    if t == |lens| {
      assert lens[..t] == lens;
    } else {
      HasSplit(bits, pos, TableBits(lens[t]), TablesBits(lens, t + 1));
      TableRoundTrip(bits, pos, lens[t]);
      assert lens[..t] + [lens[t]] == lens[..t + 1];
      TablesRoundTrip(bits, pos + |TableBits(lens[t])|, lens, alphaSize, t + 1);
    }
  }
}

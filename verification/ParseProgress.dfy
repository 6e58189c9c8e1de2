/** Reading never goes backwards, nor past the end of the input. */
module ParseProgress {
  import opened Bits
  import opened BitIO
  import opened RunLength
  import opened Mtf
  import opened SymbolFetch
  import opened ByteMap
  import opened BlockFormat
  import opened BlockData
  import opened BlockCodec

  /** res, when something was read from pos on, ends within the input and not before pos. */
  ghost predicate Onward<T>(bits: seq<bool>, pos: nat, res: Got<T>) {
    res.Got? ==> pos <= res.pos <= |bits|
  }

  lemma {:induction false} RowsOnward(bits: seq<bool>, pos: nat, head: seq<bool>, done: seq<bool>, i: nat)
    requires |head| == 16 && i <= 16 && pos <= |bits|
    ensures Onward(bits, pos, ParseRows(bits, pos, head, done, i))
    decreases 16 - i
  {
    hide EmptyRow;
    if i < 16 {
      if !head[i] {
        RowsOnward(bits, pos, head, done + EmptyRow(), i + 1);
      } else if pos + 16 <= |bits| {
        RowsOnward(bits, pos + 16, head, done + bits[pos..pos + 16], i + 1);
      }
    }
  }

  lemma {:induction false} PlacesOnward(bits: seq<bool>, pos: nat, nGroups: nat, n: nat, done: seq<int>)
    requires 1 <= nGroups && pos <= |bits|
    ensures Onward(bits, pos, ParsePlaces(bits, pos, nGroups, n, done))
    decreases n - |done|
  {
    hide ParseUnary;
    if |done| < n {
      ParsedUnary(bits, pos, 0, nGroups);
      match ParseUnary(bits, pos, 0, nGroups)
      case Starved =>
      case Corrupt =>
      case Overrun =>
      case Got(j, p) => PlacesOnward(bits, p, nGroups, n, done + [j]);
    }
  }

  lemma SelectorsOnward(bits: seq<bool>, pos: nat)
    requires pos <= |bits|
    ensures Onward(bits, pos, ParseSelectors(bits, pos))
  {
    hide ParsePlaces, FromBits;
    match Take(bits, pos, 3)
    case Starved =>
    case Corrupt =>
    case Overrun =>
    case Got(nGroups, p) =>
      if 2 <= nGroups <= 6 {
        match Take(bits, p, 15)
        case Starved =>
        case Corrupt =>
        case Overrun =>
        case Got(n, q) =>
          if n >= 1 {
            PlacesOnward(bits, q, nGroups, n, []);
          }
      }
  }

  lemma {:induction false} LengthOnward(bits: seq<bool>, pos: nat, curr: int)
    requires pos <= |bits|
    ensures Onward(bits, pos, ParseLength(bits, pos, curr))
    decreases |bits| - pos
  {
    if 1 <= curr <= 20 && pos + 1 < |bits| && bits[pos] {
      LengthOnward(bits, pos + 2, if bits[pos + 1] then curr - 1 else curr + 1);
    }
  }

  lemma {:induction false} LengthsOnward(bits: seq<bool>, pos: nat, alphaSize: nat, curr: int, done: seq<int>)
    requires pos <= |bits|
    ensures Onward(bits, pos, ParseLengths(bits, pos, alphaSize, curr, done))
    decreases alphaSize - |done|
  {
    hide ParseLength;
    if |done| < alphaSize {
      LengthOnward(bits, pos, curr);
      match ParseLength(bits, pos, curr)
      case Starved =>
      case Corrupt =>
      case Overrun =>
      case Got(l, p) => LengthsOnward(bits, p, alphaSize, l, done + [l]);
    }
  }

  lemma {:induction false} TablesOnward(bits: seq<bool>, pos: nat, alphaSize: nat, nGroups: nat, done: seq<seq<int>>)
    requires pos <= |bits|
    ensures Onward(bits, pos, ParseTables(bits, pos, alphaSize, nGroups, done))
    decreases nGroups - |done|
  {
    hide ParseLengths, FromBits;
    if |done| < nGroups {
      match Take(bits, pos, 5)
      case Starved =>
      case Corrupt =>
      case Overrun =>
      case Got(curr, p) =>
        LengthsOnward(bits, p, alphaSize, curr, []);
        match ParseLengths(bits, p, alphaSize, curr, [])
        case Starved =>
        case Corrupt =>
        case Overrun =>
        case Got(len, q) => TablesOnward(bits, q, alphaSize, nGroups, done + [len]);
    }
  }

  lemma {:induction false} UnpackOnward(c: Coding, bits: seq<bool>, pos: nat, k: nat, yy: seq<int>, col: seq<int>,
                                        run: nat, n: nat)
    requires Ready(c) && 1 <= |yy| == c.alphaSize - 2 && pos <= |bits|
    ensures Onward(bits, pos, Unpack(c, bits, pos, k, yy, col, run, n))
    decreases |bits| - pos
  {
    hide Ready, NthSym, MoveFront, Rep;
    SymInRange(c, bits, pos, k);
    match NthSym(c, bits, pos, k)
    case Short =>
    case Bad =>
    case Sym(s, p) =>
      if s <= RUNB {
        UnpackOnward(c, bits, p, k + 1, yy, col, run + (s + 1) * n, 2 * n);
      } else if s <= |yy| {
        UnpackOnward(c, bits, p, k + 1, MoveFront(yy, s - 1), col + Rep(yy[0], run) + [yy[s - 1]], 0, 1);
      }
  }

  lemma FrontOnward(bits: seq<bool>, pos: nat, max: nat)
    requires pos <= |bits|
    ensures Onward(bits, pos, ParseFront(bits, pos, max))
  {
    hide FromBits, ParseRows, ParseSelectors, ParseTables, Used, PlacedSelectors;
    match ParseNumbers(bits, pos, max)
    case Starved =>
    case Corrupt =>
    case Overrun =>
    case Got(n, p) =>
      MapOnward(bits, p);
      match ParseMap(bits, p)
      case Starved =>
      case Corrupt =>
      case Overrun =>
      case Got(inUse, q) => CodingOnward(bits, q, |Used(inUse)| + 2);
  }

  lemma MapOnward(bits: seq<bool>, pos: nat)
    requires pos <= |bits|
    ensures Onward(bits, pos, ParseMap(bits, pos))
  {
    hide ParseRows;
    if pos + 16 <= |bits| {
      RowsOnward(bits, pos + 16, bits[pos..pos + 16], [], 0);
    }
  }

  lemma CodingOnward(bits: seq<bool>, pos: nat, alphaSize: nat)
    requires pos <= |bits|
    ensures Onward(bits, pos, ParseCoding(bits, pos, alphaSize))
  {
    hide ParseSelectors, ParseTables, PlacedSelectors;
    SelectorsOnward(bits, pos);
    ParsedPlaces(bits, pos);
    match ParseSelectors(bits, pos)
    case Starved =>
    case Corrupt =>
    case Overrun =>
    case Got(s, p) => TablesOnward(bits, p, alphaSize, s.0, []);
  }

  lemma BlockOnward(bits: seq<bool>, pos: nat, max: nat, ts: seq<CodeTable>)
    requires pos <= |bits|
    ensures Onward(bits, pos, ParseBlock(bits, pos, max, ts))
  {
    hide ParseFront, Unpack, Ready, UnrankedColumn, Used;
    FrontOnward(bits, pos, max);
    match ParseFront(bits, pos, max)
    case Starved =>
    case Corrupt =>
    case Overrun =>
    case Got(h, p) =>
      var used := Used(h.inUse);
      var c := Coding(ts, h.tabled.lens, h.tabled.sel, |used| + 2, max);
      if Ready(c) && used != [] {
        UnpackOnward(c, bits, p, 0, Identity(|used|), [], 0, 1);
      }
  }

  // ---------- only the selectors can be too many ----------

  lemma {:induction false} RowsFit(bits: seq<bool>, pos: nat, head: seq<bool>, done: seq<bool>, i: nat)
    requires |head| == 16 && i <= 16
    ensures ParseRows(bits, pos, head, done, i) != Overrun
    decreases 16 - i
  {
    hide EmptyRow;
    if i < 16 {
      if !head[i] {
        RowsFit(bits, pos, head, done + EmptyRow(), i + 1);
      } else if pos + 16 <= |bits| {
        RowsFit(bits, pos + 16, head, done + bits[pos..pos + 16], i + 1);
      }
    }
  }

  lemma {:induction false} LengthFits(bits: seq<bool>, pos: nat, curr: int)
    ensures ParseLength(bits, pos, curr) != Overrun
    decreases |bits| - pos
  {
    if 1 <= curr <= 20 && pos + 1 < |bits| && bits[pos] {
      LengthFits(bits, pos + 2, if bits[pos + 1] then curr - 1 else curr + 1);
    }
  }

  lemma {:induction false} LengthsFit(bits: seq<bool>, pos: nat, alphaSize: nat, curr: int, done: seq<int>)
    ensures ParseLengths(bits, pos, alphaSize, curr, done) != Overrun
    decreases alphaSize - |done|
  {
    hide ParseLength;
    if |done| < alphaSize {
      LengthFits(bits, pos, curr);
      var l := ParseLength(bits, pos, curr);
      if l.Got? {
        LengthsFit(bits, l.pos, alphaSize, l.value, done + [l.value]);
      }
    }
  }

  lemma {:induction false} TablesFit(bits: seq<bool>, pos: nat, alphaSize: nat, nGroups: nat, done: seq<seq<int>>)
    ensures ParseTables(bits, pos, alphaSize, nGroups, done) != Overrun
    decreases nGroups - |done|
  {
    hide ParseLengths, FromBits;
    var curr := Take(bits, pos, 5);
    if |done| < nGroups && curr.Got? {
      LengthsFit(bits, curr.pos, alphaSize, curr.value, []);
      var len := ParseLengths(bits, curr.pos, alphaSize, curr.value, []);
      if len.Got? {
        TablesFit(bits, len.pos, alphaSize, nGroups, done + [len.value]);
      }
    }
  }

  lemma {:induction false} UnpackFits(c: Coding, bits: seq<bool>, pos: nat, k: nat, yy: seq<int>, col: seq<int>,
                                      run: nat, n: nat)
    requires Ready(c) && 1 <= |yy| == c.alphaSize - 2 && pos <= |bits|
    ensures Unpack(c, bits, pos, k, yy, col, run, n) != Overrun
    decreases |bits| - pos
  {
    hide Ready, NthSym, MoveFront, Rep;
    SymInRange(c, bits, pos, k);
    match NthSym(c, bits, pos, k)
    case Short =>
    case Bad =>
    case Sym(s, p) =>
      if s <= RUNB {
        UnpackFits(c, bits, p, k + 1, yy, col, run + (s + 1) * n, 2 * n);
      } else if s <= |yy| {
        UnpackFits(c, bits, p, k + 1, MoveFront(yy, s - 1), col + Rep(yy[0], run) + [yy[s - 1]], 0, 1);
      }
  }

  /** At q the selectors of a block begin, and there are more of them than the arrays hold. */
  ghost predicate TooMany(bits: seq<bool>, q: nat) {
    q + 18 <= |bits| && FromBits(bits[q + 3..q + 18]) > MAX_SELECTORS && ParseSelectors(bits, q) == Overrun
  }

  /** The field of a block that an overrun comes from is the number of its selectors. */
  lemma FrontOverrun(bits: seq<bool>, pos: nat, max: nat)
    requires ParseFront(bits, pos, max) == Overrun
    ensures exists q: nat :: q > pos && TooMany(bits, q)
  {
    hide FromBits, ParseRows, ParseSelectors, ParseTables, Used, PlacedSelectors;
    var n := ParseNumbers(bits, pos, max);
    assert n.Got? && n.pos > pos;
    if n.pos + 16 <= |bits| {
      RowsFit(bits, n.pos + 16, bits[n.pos..n.pos + 16], [], 0);
    }
    var inUse := ParseMap(bits, n.pos);
    MapOnward(bits, n.pos);
    assert inUse.Got?;
    CodingOverrun(bits, inUse.pos, |Used(inUse.value)| + 2);
    assert TooMany(bits, inUse.pos);
  }

  lemma CodingOverrun(bits: seq<bool>, q: nat, alphaSize: nat)
    requires ParseCoding(bits, q, alphaSize) == Overrun
    ensures TooMany(bits, q)
  {
    hide ParseSelectors, ParseTables, PlacedSelectors, FromBits;
    ParsedPlaces(bits, q);
    var s := ParseSelectors(bits, q);
    if s.Got? {
      TablesFit(bits, s.pos, alphaSize, s.value.0, []);
    } else {
      OverrunCount(bits, q);
    }
  }

  lemma BlockOverrun(bits: seq<bool>, pos: nat, max: nat, ts: seq<CodeTable>)
    requires ParseBlock(bits, pos, max, ts) == Overrun
    ensures exists q: nat :: q > pos && TooMany(bits, q)
  {
    hide ParseFront, Unpack, Ready, UnrankedColumn, Used, TooMany;
    var f := ParseFront(bits, pos, max);
    if f.Got? {
      var h, p := f.value, f.pos;
      var used := Used(h.inUse);
      var c := Coding(ts, h.tabled.lens, h.tabled.sel, |used| + 2, max);
      if Ready(c) && used != [] && p <= |bits| {
        UnpackFits(c, bits, p, 0, Identity(|used|), [], 0, 1);
      }
    } else {
      FrontOverrun(bits, pos, max);
    }
  }
}

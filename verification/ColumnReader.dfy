/** The decompressor's main loop: symbols fetched group by group become the sorted column, through the
    sliding move-to-front table and the run digits, with a tally of every byte. */
module ColumnReader {
  import opened BitIO
  import opened Bytes
  import opened Counting
  import opened SymbolFetch
  import opened RunLength
  import opened ByteMap
  import opened Mtf
  import opened MtfTable
  import opened BlockFormat
  import opened BlockData
  import opened BlockReader

  /** k symbols have been fetched, the last groupPos of group groupNo still to come. */
  ghost predicate InGroup(c: Coding, k: nat, groupNo: int, groupPos: int) {
    && -1 <= groupNo && 0 <= groupPos < GROUP_SIZE && k == GROUP_SIZE * (groupNo + 1) - groupPos
    && groupNo < |c.sel|
  }

  /** Every entry is a rank below n. */
  ghost predicate AllBelow(s: seq<int>, n: nat) {
    forall i :: 0 <= i < |s| ==> 0 <= s[i] < n
  }

  /** The column so far, as bytes, and how often each occurs in it. */
  ghost predicate Holding(tt: seq<int>, unzftab: seq<int>, s: seq<int>) {
    && |s| <= |tt| && tt[..|s|] == s && |unzftab| == 256
    && forall v :: 0 <= v < 256 ==> unzftab[v] == Count(s, v)
  }

  lemma {:induction false} CountRep(s: seq<int>, c: int, n: nat, v: int)
    ensures Count(s + Rep(c, n), v) == Count(s, v) + (if v == c then n else 0)
    decreases n
  {
    if n == 0 {
      assert s + Rep(c, 0) == s;
    } else {
      CountRep(s, c, n - 1, v);
      assert (s + Rep(c, n))[..|s| + n - 1] == s + Rep(c, n - 1);
    }
  }

  lemma HoldRun(tt: seq<int>, tt': seq<int>, unzftab: seq<int>, s: seq<int>, c: int, n: nat)
    requires Holding(tt, unzftab, s) && 0 <= c < 256
    requires |s| + n <= |tt'| && tt'[..|s| + n] == s + Rep(c, n)
    ensures Holding(tt', unzftab[c := unzftab[c] + n], s + Rep(c, n))
  {
    hide Count, Rep;
    forall v | 0 <= v < 256
      ensures Count(s + Rep(c, n), v) == Count(s, v) + (if v == c then n else 0)
    {
      CountRep(s, c, n, v);
    }
  }

  lemma UnranksJoin(used: seq<int>, a: seq<int>, b: seq<int>)
    requires AllBelow(a, |used|) && AllBelow(b, |used|)
    ensures AllBelow(a + b, |used|) && Unranks(used, a + b) == Unranks(used, a) + Unranks(used, b)
  {
  }

  lemma UnranksRep(used: seq<int>, u: nat, n: nat)
    requires u < |used|
    ensures AllBelow(Rep(u, n), |used|) && Unranks(used, Rep(u, n)) == Rep(used[u], n)
  {
  }

  /** Only the entries in front matter when one of them moves. */
  lemma MoveFrontPart(list: seq<int>, n: nat, j: nat)
    requires j < n <= |list| && AllBelow(list[..n], n)
    ensures MoveFront(list, j)[..n] == MoveFront(list[..n], j) && AllBelow(MoveFront(list[..n], j), n)
  {
  }

  /** Copies written at once stand before the rest of the symbols. */
  lemma Flushed(c: Coding, bits: seq<bool>, pos: nat, s: nat, k: nat, yy: seq<int>, col: seq<int>, run: nat, n: nat)
    requires Ready(c) && 1 <= |yy| == c.alphaSize - 2 && pos <= |bits| && RUNB < s < c.alphaSize
    ensures |col| + run > c.max ==> UnpackWith(c, bits, pos, s, k, yy, col, run, n) == Corrupt
    ensures |col| + run <= c.max ==>
      UnpackWith(c, bits, pos, s, k, yy, col, run, n) == UnpackWith(c, bits, pos, s, k, yy, col + Rep(yy[0], run), 0, 1)
  {
    var done := col + Rep(yy[0], run);
    assert done + Rep(yy[0], 0) == done;
  }

  class Unpacker {
    const r: BitReader
    const c: Coding
    const used: seq<int>
    const table: Table
    const tt: array<int>
    const unzftab: array<int>
    var groupNo: int
    var groupPos: int
    var nblock: nat
    ghost var k: nat
    ghost var col: seq<int>

    ghost predicate Fixed() {
      && Ready(c) && c.alphaSize == |used| + 2 && 1 <= |used| <= 256 && IsBytes(used)
      && c.max <= tt.Length && unzftab.Length == 256
      && tt != unzftab && tt != table.mtfa && tt != table.mtfbase && unzftab != table.mtfa && unzftab != table.mtfbase
    }

    ghost predicate ListReady()
      reads table, table.mtfa, table.mtfbase
    {
      table.Valid() && |table.list| == 256 && |used| <= 256 && AllBelow(table.list[..|used|], |used|)
    }

    ghost predicate ColumnReady()
      reads `nblock, `col, tt, unzftab
    {
      && nblock == |col| <= c.max && AllBelow(col, |used|)
      && Holding(tt[..], unzftab[..], Unranks(used, col))
    }

    ghost predicate Valid()
      reads this, r, table, table.mtfa, table.mtfbase, tt, unzftab
    {
      Fixed() && r.Valid() && r.Pos() <= |r.Bits()| && ListReady() && ColumnReady() && InGroup(c, k, groupNo, groupPos)
    }

    /** The used part of the move-to-front list. */
    ghost function Front(): (yy: seq<int>)
      requires |table.list| == 256 && |used| <= 256
      reads table
      ensures |yy| == |used|
    {
      table.list[..|used|]
    }

    /** What the specification makes of the rest, symbol s being the next one. */
    ghost function Rest(s: nat, run: nat, n: nat): Got<seq<int>>
      requires Valid() && s < c.alphaSize
      reads this, r, table, table.mtfa, table.mtfbase, tt, unzftab
    {
      UnpackWith(c, r.Bits(), r.Pos(), s, k, Front(), col, run, n)
    }

    lemma Shape()
      requires Valid()
      ensures Ready(c) && c.alphaSize == |used| + 2 && 1 <= |used| <= 256
      ensures |table.list| == 256 && nblock == |col| <= c.max <= tt.Length && r.Valid() && r.Pos() <= |r.Bits()|
    {
    }

    constructor (r: BitReader, c: Coding, used: seq<int>, tt: array<int>)
      requires r.Valid() && Ready(c) && c.alphaSize == |used| + 2 && 1 <= |used| <= 256 && IsBytes(used)
      requires c.max <= tt.Length
      ensures Valid() && this.r == r && this.c == c && this.used == used && this.tt == tt
      ensures k == 0 && col == [] && Front() == Identity(|used|)
      ensures fresh(table) && fresh(table.mtfa) && fresh(table.mtfbase) && fresh(unzftab)
    {
      hide Ready;
      this.r, this.c, this.used, this.tt := r, c, used, tt;
      unzftab := new int[256](_ => 0);
      table := new Table();
      groupNo, groupPos, nblock := -1, 0, 0;
      k, col := 0, [];
    }

    /** GET_MTF_VAL: the next symbol, from the table of its group. */
    method NextSymbol(ghost run: nat, ghost n: nat) returns (st: Status, s: nat)
      requires Valid()
      modifies `groupNo, `groupPos, `k, r
      ensures r.Valid() && (st.Ok? ==> Valid() && s < c.alphaSize && r.Pos() > old(r.Pos()))
      ensures st.Ok? ==> Rest(s, run, n) == Unpack(c, r.Bits(), old(r.Pos()), old(k), Front(), col, run, n)
      ensures !st.Ok? ==> Reports(st, Unpack(c, r.Bits(), old(r.Pos()), old(k), old(Front()), col, run, n))
    {
      hide Ready, ListReady, ColumnReady, UnpackWith, FetchSym;
      s := 0;
      GroupIndex(c, k, groupNo, groupPos);
      if groupPos == 0 {
        groupNo := groupNo + 1;
        if groupNo >= |c.sel| {
          st := DataError;
          return;
        }
        groupPos := GROUP_SIZE;
      }
      groupPos := groupPos - 1;
      var gSel := c.sel[groupNo];
      assert TableFor(c.ts[gSel], c.lens[gSel], MaxLength(c.lens[gSel])) by {
        TableOfGroup(c, groupNo);
      }
      SymInRange(c, r.Bits(), r.Pos(), k);
      var v;
      st, v := ReadSymbol(r, c.ts[gSel]);
      if st.Ok? {
        k := k + 1;
        s := v;
      }
    }

    /** Run digits up to the first other symbol. */
    method ReadRun(s0: nat) returns (st: Status, s: nat, es: int, ghost n: nat)
      requires Valid() && s0 <= RUNB
      modifies `groupNo, `groupPos, `k, r
      ensures r.Valid()
      ensures st.Ok? ==> Valid() && RUNB < s < c.alphaSize && r.Pos() > old(r.Pos()) && 0 <= es && 1 <= n
      ensures st.Ok? ==> Rest(s, es, n) == old(Rest(s0, 0, 1))
      ensures !st.Ok? ==> Reports(st, old(Rest(s0, 0, 1)))
    {
      hide Ready, Fixed, ListReady, ColumnReady, Unpack, InGroup;
      Shape();
      ghost var res := Rest(s0, 0, 1);
      s, es, n, st := s0, -1, 1, Ok;
      var weight := 1;
      while true
        invariant Valid() && s <= RUNB < c.alphaSize && 0 <= es + 1 && 1 <= weight && r.Pos() >= old(r.Pos())
        invariant Rest(s, es + 1, weight) == res
        decreases |r.Bits()| - r.Pos()
      {
        if weight >= RUN_LIMIT {
          st := DataError;
          return;
        }
        Shape();
        OneDigit(c, r.Bits(), r.Pos(), s, k, Front(), col, es + 1, weight);
        if s == RUNA {
          es := es + (0 + 1) * weight;
        } else {
          es := es + (1 + 1) * weight;
        }
        weight := weight * 2;
        st, s := NextSymbol(es + 1, weight);
        if !st.Ok? {
          return;
        }
        if s > RUNB {
          break;
        }
      }
      es, n := es + 1, weight;
    }

    /** Appends es copies of the byte at the front of the list. */
    method FlushRun(es0: nat) returns (st: Status)
      requires Valid()
      modifies `nblock, `col, tt, unzftab
      ensures st == if old(nblock) + es0 <= c.max then Ok else DataError
      ensures st.Ok? ==> Valid() && col == old(col) + Rep(Front()[0], es0)
    {
      hide Ready, InGroup, Holding, Unranks, Rep, UnpackWith;
      ghost var yy, before, s := Front(), tt[..], Unranks(used, col);
      assert 0 <= yy[0] < |used|;
      var u := table.Front();
      var uc := used[u];
      HoldingPrefix(before, unzftab[..], s);
      ghost var z := unzftab[..];
      unzftab[uc] := unzftab[uc] + es0;
      assert unzftab[..] == z[uc := z[uc] + es0];
      var es := es0;
      while es > 0
        invariant 0 <= es <= es0 && nblock == |col| + (es0 - es) && nblock <= c.max
        invariant tt[..nblock] == s + Rep(uc, es0 - es)
        modifies `nblock, tt
      {
        if nblock >= c.max {
          st := DataError;
          return;
        }
        RepNext(uc, es0 - es);
        tt[nblock] := uc;
        nblock := nblock + 1;
        es := es - 1;
        assert tt[..nblock] == tt[..nblock - 1] + [uc];
        assert s + Rep(uc, es0 - es - 1) + [uc] == s + (Rep(uc, es0 - es - 1) + [uc]);
      }
      RepNone(uc, s);
      assert unzftab[..] == z[uc := z[uc] + es0];
      HoldRun(before, tt[..], z, s, uc, es0);
      UnranksRep(used, u, es0);
      UnranksJoin(used, col, Rep(u, es0));
      col := col + Rep(u, es0);
      st := Ok;
    }

    /** Appends the byte at place s-1 of the list and moves it to the front. */
    method PutLiteral(s: nat)
      requires Valid() && RUNB < s <= |used| && nblock < c.max
      modifies `nblock, `col, tt, unzftab, table, table.mtfa, table.mtfbase
      ensures Valid() && col == old(col) + [old(Front())[s - 1]] && Front() == MoveFront(old(Front()), s - 1)
    {
      hide Ready, InGroup, Holding, Unranks, Rep, UnpackWith, MoveFront;
      ghost var yy, before, t, z := Front(), tt[..], Unranks(used, col), unzftab[..];
      MoveFrontPart(table.list, |used|, s - 1);
      assert 0 <= yy[s - 1] < |used|;
      var u := table.MoveToFront(s - 1);
      var uc := used[u];
      HoldingPrefix(before, z, t);
      unzftab[uc] := unzftab[uc] + 1;
      tt[nblock] := uc;
      nblock := nblock + 1;
      assert unzftab[..] == z[uc := z[uc] + 1];
      assert tt[..nblock] == t + [uc];
      RepOne(uc);
      RepOne(u);
      HoldRun(before, tt[..], z, t, uc, 1);
      UnranksRep(used, u, 1);
      UnranksJoin(used, col, Rep(u, 1));
      col := col + [u];
    }

    /** Reads the block data to its end mark. */
    method ReadColumn() returns (st: Status)
      requires Valid() && k == 0 && col == [] && Front() == Identity(|used|)
      modifies this, r, tt, unzftab, table, table.mtfa, table.mtfbase
      ensures r.Valid() && Reports(st, Unpack(c, r.Bits(), old(r.Pos()), 0, Identity(|used|), [], 0, 1))
      ensures st.Ok? ==>
          Valid() && Unpack(c, r.Bits(), old(r.Pos()), 0, Identity(|used|), [], 0, 1) == Got(col, r.Pos())
    {
      hide Ready, ListReady, ColumnReady, Unpack, InGroup, Fixed;
      Shape();
      ghost var res := Unpack(c, r.Bits(), r.Pos(), 0, Identity(|used|), [], 0, 1);
      var EOB := |used| + 1;
      var s: nat;
      st, s := NextSymbol(0, 1);
      if !st.Ok? {
        return;
      }
      while true
        invariant st.Ok? && Valid() && s < c.alphaSize && Rest(s, 0, 1) == res
        decreases |r.Bits()| - r.Pos()
      {
        if s == EOB {
          break;
        }
        st, s := Turn(s, res);
        if !st.Ok? {
          return;
        }
      }
      Shape();
      LastSymbol(c, r.Bits(), r.Pos(), s, k, Front(), col);
    }

    /** One turn of the main loop: a run or a single byte, and the symbol behind it. */
    method Turn(s0: nat, ghost res: Got<seq<int>>) returns (st: Status, s: nat)
      requires Valid() && s0 <= |used| && s0 < c.alphaSize && Rest(s0, 0, 1) == res
      modifies this, r, tt, unzftab, table, table.mtfa, table.mtfbase
      ensures r.Valid()
      ensures st.Ok? ==> Valid() && s < c.alphaSize && r.Pos() > old(r.Pos()) && Rest(s, 0, 1) == res
      ensures !st.Ok? ==> Reports(st, res)
    {
      hide Ready, ListReady, ColumnReady, Unpack, UnpackWith, InGroup, Fixed;
      s := s0;
      Shape();
      if s0 == RUNA || s0 == RUNB {
        var es;
        ghost var n;
        st, s, es, n := ReadRun(s0);
        if !st.Ok? {
          return;
        }
        Shape();
        Flushed(c, r.Bits(), r.Pos(), s, k, Front(), col, es, n);
        st := FlushRun(es);
      } else {
        Literal(c, r.Bits(), r.Pos(), s, k, Front(), col);
        if nblock >= c.max {
          st := DataError;
          return;
        }
        PutLiteral(s0);
        st, s := NextSymbol(0, 1);
      }
    }
  }

  lemma OneDigit(c: Coding, bits: seq<bool>, pos: nat, s: nat, k: nat, yy: seq<int>, col: seq<int>, run: nat, n: nat)
    requires Ready(c) && 1 <= |yy| == c.alphaSize - 2 && pos <= |bits| && s <= RUNB && n < RUN_LIMIT
    ensures UnpackWith(c, bits, pos, s, k, yy, col, run, n) ==
        Unpack(c, bits, pos, k, yy, col, run + (s + 1) * n, 2 * n)
  {
  }

  lemma Literal(c: Coding, bits: seq<bool>, pos: nat, s: nat, k: nat, yy: seq<int>, col: seq<int>)
    requires Ready(c) && 1 <= |yy| == c.alphaSize - 2 && pos <= |bits| && RUNB < s <= |yy| && |col| <= c.max
    ensures |col| >= c.max ==> UnpackWith(c, bits, pos, s, k, yy, col, 0, 1) == Corrupt
    ensures |col| < c.max ==> UnpackWith(c, bits, pos, s, k, yy, col, 0, 1) ==
                              Unpack(c, bits, pos, k, MoveFront(yy, s - 1), col + [yy[s - 1]], 0, 1)
  {
    assert col + Rep(yy[0], 0) == col;
  }

  lemma LastSymbol(c: Coding, bits: seq<bool>, pos: nat, s: nat, k: nat, yy: seq<int>, col: seq<int>)
    requires Ready(c) && 1 <= |yy| == c.alphaSize - 2 && pos <= |bits| && s == |yy| + 1 && |col| <= c.max
    ensures UnpackWith(c, bits, pos, s, k, yy, col, 0, 1) == Got(col, pos)
  {
    assert col + Rep(yy[0], 0) == col;
  }

  lemma HoldingPrefix(tt: seq<int>, unzftab: seq<int>, s: seq<int>)
    requires Holding(tt, unzftab, s)
    ensures |s| <= |tt| && tt[..|s|] == s && |unzftab| == 256
  {
  }

  lemma RepNext(c: int, n: nat)
    ensures Rep(c, n) + [c] == Rep(c, n + 1)
  {
  }

  lemma RepNone(c: int, s: seq<int>)
    ensures s + Rep(c, 0) == s
  {
  }

  lemma RepOne(c: int)
    ensures Rep(c, 1) == [c]
  {
  }

  lemma GroupIndex(c: Coding, k: nat, groupNo: int, groupPos: int)
    requires InGroup(c, k, groupNo, groupPos)
    ensures groupPos == 0 ==> k / GROUP_SIZE == groupNo + 1
    ensures groupPos > 0 ==> 0 <= groupNo && k / GROUP_SIZE == groupNo
  {
  }

  lemma TableOfGroup(c: Coding, g: nat)
    requires Ready(c) && g < |c.sel|
    ensures 0 <= c.sel[g] < |c.ts| == |c.lens|
    ensures TableFor(c.ts[c.sel[g]], c.lens[c.sel[g]], MaxLength(c.lens[c.sel[g]]))
  {
  }
}

/** The encoder's move-to-front stage: from the sorted order of a block to its symbols. */
module MtfEncoder {
  import opened Permutations
  import opened Counting
  import opened Rotations
  import opened Bwt
  import opened Bytes
  import opened ByteMap
  import opened Mtf
  import opened Canonical

  /** The symbols written so far and how often each occurs. */
  class SymbolWriter {
    const mtfv: array<int>
    const mtfFreq: array<int>
    var wr: nat

    ghost predicate Valid()
      reads this, mtfv, mtfFreq
    {
      && wr <= mtfv.Length && mtfFreq.Length == MAX_ALPHA_SIZE && mtfv != mtfFreq
      && forall v :: 0 <= v < MAX_ALPHA_SIZE ==> mtfFreq[v] == Count(mtfv[..wr], v)
    }

    ghost function Written(): seq<int>
      requires Valid()
      reads this, mtfv, mtfFreq
    {
      mtfv[..wr]
    }

    constructor (capacity: nat)
      ensures Valid() && Written() == [] && mtfv.Length == capacity && fresh(mtfv) && fresh(mtfFreq)
    {
      mtfv := new int[capacity];
      mtfFreq := new int[MAX_ALPHA_SIZE](_ => 0);
      wr := 0;
    }

    method Put(v: int)
      requires Valid() && 0 <= v < MAX_ALPHA_SIZE && wr < mtfv.Length
      modifies this, mtfv, mtfFreq
      ensures Valid() && Written() == old(Written()) + [v] && wr == old(wr) + 1
    {
      ghost var before := mtfv[..wr];
      mtfv[wr] := v;
      wr := wr + 1;
      mtfFreq[v] := mtfFreq[v] + 1;
      assert mtfv[..wr] == before + [v];
      assert (before + [v])[..|before|] == before;
    }

    /** The digits of a pending run, least significant first. */
    method PutRun(pend: nat)
      requires Valid() && pend > 0 && wr + pend <= mtfv.Length
      modifies this, mtfv, mtfFreq
      ensures Valid() && Written() == old(Written()) + RunDigits(pend) && wr <= old(wr) + pend
    {
      hide RunDigits, Count;
      var zPend: nat := pend - 1;
      ghost var all := old(Written()) + RunDigits(pend);
      while true
        invariant Valid() && Written() + RunDigits(zPend + 1) == all && wr + zPend + 1 <= old(wr) + pend
        decreases zPend
      {
        DigitOff(Written(), zPend);
        if zPend % 2 == 1 {
          Put(RUNB);
        } else {
          Put(RUNA);
        }
        if zPend < 2 {
          break;
        }
        zPend := (zPend - 2) / 2;
      }
    }
  }

  lemma DigitOff(done: seq<int>, z: nat)
    ensures done + RunDigits(z + 1) == done + [z % 2] + RunDigits(z / 2)
    ensures z < 2 ==> done + RunDigits(z + 1) == done + [z % 2]
  {
    assert RunDigits(z + 1) == [z % 2] + RunDigits(z / 2);
  }

  /** Brings c to the front of the first k entries, shifting those before it up by one. */
  method MoveToFront(yy: array<int>, k: nat, c: int) returns (j: nat)
    requires 2 <= k <= yy.Length && c in yy[..k] && yy[0] != c
    modifies yy
    ensures j == IndexOf(old(yy[..k]), c) && yy[..k] == MoveFront(old(yy[..k]), j)
  {
    ghost var y0 := yy[..k];
    ghost var at := IndexOf(y0, c);
    var rtmp := yy[1];
    yy[1] := yy[0];
    j := 1;
    while c != rtmp
      invariant 1 <= j <= at && rtmp == y0[j]
      invariant forall q :: 1 <= q <= j ==> yy[q] == y0[q - 1]
      invariant forall q :: j < q < k ==> yy[q] == y0[q]
      decreases at - j
    {
      j := j + 1;
      var rtmp2 := rtmp;
      rtmp := yy[j];
      yy[j] := rtmp2;
    }
    NotBefore(y0, c, j);
    yy[0] := rtmp;
  }

  lemma NotBefore(yy: seq<int>, c: int, j: nat)
    requires c in yy && j <= IndexOf(yy, c) && yy[j] == c
    ensures j == IndexOf(yy, c)
  {
  }

  /** The column the encoder codes: last characters of the sorted rotations, in ranks. */
  ghost function RankedColumn(b: seq<int>, f: seq<int>, inUse: seq<bool>): (r: seq<int>)
    requires IsPerm(f, |b|) && IsBytes(b) && |inUse| == 256
    ensures |r| == |b|
  {
    Ranks(inUse, LastColumn(b, f))
  }

  lemma RankedInRange(b: seq<int>, f: seq<int>, inUse: seq<bool>)
    requires IsPerm(f, |b|) && IsBytes(b) && |inUse| == 256
    requires forall i :: 0 <= i < |b| ==> inUse[b[i]]
    ensures Covers(Identity(|Used(inUse)|), RankedColumn(b, f, inUse))
    ensures forall i :: 0 <= i < |b| ==> RankedColumn(b, f, inUse)[i] == Rank(inUse, b[Prev(|b|, f[i])])
  {
    var l := LastColumn(b, f);
    forall i | 0 <= i < |b|
      ensures RankedColumn(b, f, inUse)[i] in Identity(|Used(inUse)|)
    {
      RankFinds(inUse, l[i], |inUse|);
      assert Identity(|Used(inUse)|)[Rank(inUse, l[i])] == Rank(inUse, l[i]);
    }
  }

  /** Where the stage stands: written symbols and those still to come make up the whole coding. */
  ghost predicate Underway(all: seq<int>, written: seq<int>, yy: seq<int>, rest: seq<int>, pend: nat) {
    yy != [] && Covers(yy, rest) && all == written + Encode(yy, rest, pend)
  }

  lemma UnderwayRun(all: seq<int>, written: seq<int>, yy: seq<int>, rest: seq<int>, pend: nat)
    requires Underway(all, written, yy, rest, pend) && rest != [] && yy[0] == rest[0]
    ensures Underway(all, written, yy, rest[1..], pend + 1)
  {
  }

  lemma UnderwayMove(all: seq<int>, written: seq<int>, yy: seq<int>, rest: seq<int>, pend: nat)
    requires Underway(all, written, yy, rest, pend) && rest != [] && yy[0] != rest[0]
    ensures rest[0] in yy && 2 <= |yy| && IndexOf(yy, rest[0]) < |yy|
    ensures Underway(all, written + RunDigits(pend) + [IndexOf(yy, rest[0]) + 1],
                     MoveFront(yy, IndexOf(yy, rest[0])), rest[1..], 0)
  {
    hide RunDigits, MoveFront, IndexOf;
    var j := IndexOf(yy, rest[0]);
    assert rest[0] in yy;
    var more := Encode(MoveFront(yy, j), rest[1..], 0);
    Regroup(written, RunDigits(pend), [j + 1], more);
  }

  lemma Regroup(a: seq<int>, b: seq<int>, c: seq<int>, d: seq<int>)
    ensures a + (b + (c + d)) == a + b + c + d
  {
  }

  /** Codes one more byte of the column, given as its rank ll. */
  method CodeOne(w: SymbolWriter, yy: array<int>, nInUse: nat, ll: int, zPend0: nat, ghost all: seq<int>,
                 ghost rest: seq<int>)
    returns (zPend: nat)
    requires w.Valid() && yy != w.mtfv && yy != w.mtfFreq && nInUse <= yy.Length == 256
    requires Underway(all, w.Written(), yy[..nInUse], rest, zPend0) && rest != [] && ll == rest[0]
    requires w.wr + zPend0 < w.mtfv.Length
    modifies w, w.mtfv, w.mtfFreq, yy
    ensures w.Valid() && w.wr + zPend <= old(w.wr) + zPend0 + 1
    ensures Underway(all, w.Written(), yy[..nInUse], rest[1..], zPend)
  {
    hide Underway, Encode, Covers, MoveFront, IndexOf, RunDigits, Count;
    UnderwayFront(all, w.Written(), yy[..nInUse], rest, zPend0);
    zPend := zPend0;
    if yy[0] == ll {
      UnderwayRun(all, w.Written(), yy[..nInUse], rest, zPend);
      zPend := zPend + 1;
    } else {
      UnderwayMove(all, w.Written(), yy[..nInUse], rest, zPend);
      RunDigitsNone();
      if zPend > 0 {
        w.PutRun(zPend);
        zPend := 0;
      }
      var k := MoveToFront(yy, nInUse, ll);
      w.Put(k + 1);
    }
  }

  lemma UnderwayFront(all: seq<int>, written: seq<int>, yy: seq<int>, rest: seq<int>, pend: nat)
    requires Underway(all, written, yy, rest, pend)
    ensures |yy| >= 1
  {
  }

  lemma RunDigitsNone()
    ensures forall s: seq<int> :: s + RunDigits(0) == s
  {
  }

  /** Writes the symbols of the block: runs of the front entry as digits, everything else by its place in
      the list, and the end mark behind them. */
  method GenerateMTFValues(ptr: array<int>, block: array<int>, inUse: array<bool>, nblock: nat)
    returns (w: SymbolWriter, nInUse: nat)
    requires nblock == ptr.Length <= block.Length && 0 < nblock && inUse.Length == 256
    requires IsPerm(ptr[..], nblock) && IsBytes(block[..nblock])
    requires forall i :: 0 <= i < nblock ==> inUse[block[i]]
    ensures fresh(w) && fresh(w.mtfv) && fresh(w.mtfFreq) && w.Valid() && nInUse == |Used(inUse[..])|
    ensures Covers(Identity(nInUse), RankedColumn(block[..nblock], ptr[..], inUse[..]))
    ensures w.Written() == Encode(Identity(nInUse), RankedColumn(block[..nblock], ptr[..], inUse[..]), 0) + [nInUse + 1]
    ensures w.wr <= nblock + 1
  {
    hide Underway, Encode, Covers, RunDigits, Count, RankedColumn, UsedUpTo;
    ghost var col := RankedColumn(block[..nblock], ptr[..], inUse[..]);
    RankedInRange(block[..nblock], ptr[..], inUse[..]);
    RankFinds(inUse[..], block[..nblock][0], 256);
    var unseqToSeq;
    nInUse, unseqToSeq := MakeMapsEncode(inUse);
    w := new SymbolWriter(nblock + 1);
    var yy := new int[256](i => i);
    assert yy[..nInUse] == Identity(nInUse);
    ghost var all := Encode(Identity(nInUse), col, 0);
    UnderwayStart(yy[..nInUse], col);
    var zPend: nat := 0;
    var i := 0;
    while i < nblock
      invariant 0 <= i <= nblock && w.Valid() && w.mtfv.Length == nblock + 1 && w.wr + zPend <= i
      invariant Underway(all, w.Written(), yy[..nInUse], col[i..], zPend)
      modifies w, w.mtfv, w.mtfFreq, yy
    {
      var j := ptr[i] - 1;
      if j < 0 {
        j := j + nblock;
      }
      assert j == Prev(nblock, ptr[..][i]) && block[..nblock][j] == block[j];
      assert col[i..][1..] == col[i+1..];
      zPend := CodeOne(w, yy, nInUse, unseqToSeq[block[j]], zPend, all, col[i..]);
      i := i + 1;
    }
    assert col[nblock..] == [];
    UnderwayEnd(all, w.Written(), yy[..nInUse], zPend);
    if zPend > 0 {
      w.PutRun(zPend);
    }
    w.Put(nInUse + 1);
  }

  lemma UnderwayStart(yy: seq<int>, col: seq<int>)
    requires yy != [] && Covers(yy, col)
    ensures Underway(Encode(yy, col, 0), [], yy, col[0..], 0)
  {
    assert col[0..] == col;
  }

  lemma UnderwayEnd(all: seq<int>, written: seq<int>, yy: seq<int>, pend: nat)
    requires Underway(all, written, yy, [], pend)
    ensures all == written + RunDigits(pend) && (pend == 0 ==> all == written)
  {
  }
}

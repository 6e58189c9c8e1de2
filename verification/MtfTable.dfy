/** The decoder's move-to-front list: sixteen segments of sixteen entries sliding down a larger array. */
module MtfTable {
  import opened Mtf

  const MTFA_SIZE := 4096
  const MTFL_SIZE := 16

  /** Entry j of segment i. */
  function Cell(a: seq<int>, base: seq<int>, i: int, j: int): int {
    if 0 <= i < |base| && 0 <= base[i] + j < |a| then a[base[i] + j] else 0
  }

  /** Segments follow one another without overlap, from position low on. */
  ghost predicate Spaced(a: seq<int>, base: seq<int>, low: int) {
    && |a| == MTFA_SIZE && |base| == 16
    && low <= base[0] && base[15] + 16 <= MTFA_SIZE
    && forall i, k :: 0 <= i < k < 16 ==> base[i] + 16 * (k - i) <= base[k]
  }

  /** Segment i holds its part of the list. */
  ghost predicate Segment(a: seq<int>, base: seq<int>, l: seq<int>, i: int)
    requires |l| == 256 && 0 <= i < 16
  {
    forall j :: 0 <= j < 16 ==> Cell(a, base, i, j) == l[16 * i + j]
  }

  /** The table stands for the list l. */
  ghost predicate Holds(a: seq<int>, base: seq<int>, l: seq<int>) {
    Spaced(a, base, 1) && |l| == 256 && forall i :: 0 <= i < 16 ==> Segment(a, base, l, i)
  }

  // ---------- the general move ----------

  /** Part-way through a move: segments above q hold the new list l', those below still the old list l, and
      segment q lacks only its first entry, for which the cell below it is free. */
  ghost predicate Rippling(a: seq<int>, base: seq<int>, l: seq<int>, l': seq<int>, q: int) {
    && |l| == |l'| == 256 && 0 <= q < 16
    && |a| == MTFA_SIZE && |base| == 16 && 1 <= base[0] && base[15] + 16 <= MTFA_SIZE + (if q == 15 then 1 else 0)
    && (forall i, k :: 0 <= i < k < 16 ==> base[i] + 16 * (k - i) <= base[k] + (if i <= q < k then 1 else 0))
    && (forall i :: q < i < 16 ==> Segment(a, base, l', i))
    && (forall i :: 0 <= i < q ==> Segment(a, base, l, i))
    && (forall j :: 0 <= j < 15 ==> Cell(a, base, q, j) == l'[16 * q + j + 1])
  }

  lemma RippleStep(a: seq<int>, base: seq<int>, l: seq<int>, l': seq<int>, q: int)
    requires Rippling(a, base, l, l', q) && q > 0
    requires l'[16 * q] == l[16 * q - 1]
    requires forall k :: 16 * (q - 1) < k < 16 * q ==> l'[k] == l[k - 1]
    ensures 0 <= base[q] - 1 < |a| && 0 <= base[q-1] + 15 < |a|
    ensures Rippling(a[base[q] - 1 := a[base[q-1] + 15]], base[q := base[q] - 1], l, l', q - 1)
  {
    var w, v := base[q] - 1, a[base[q-1] + 15];
    assert Cell(a, base, q - 1, 15) == l[16 * (q - 1) + 15] by {
      assert Segment(a, base, l, q - 1);
    }
    assert w == base[q-1] + 15 || w > base[q-1] + 15;
    var a', base' := a[w := v], base[q := w];
    forall i, j | 0 <= i < 16 && 0 <= j < 16 && i != q
      ensures Cell(a', base', i, j) == Cell(a, base, i, j)
    {
    }
    forall j | 1 <= j < 16
      ensures Cell(a', base', q, j) == l'[16 * q + j]
    {
      assert Cell(a', base', q, j) == Cell(a, base, q, j - 1);
    }
    assert Segment(a', base', l', q);
    forall i | q < i < 16
      ensures Segment(a', base', l', i)
    {
      assert Segment(a, base, l', i);
    }
    forall i | 0 <= i < q - 1
      ensures Segment(a', base', l, i)
    {
      assert Segment(a, base, l, i);
    }
    var p := q - 1;
    assert Segment(a, base, l, p);
    forall j | 0 <= j < 15
      ensures Cell(a', base', p, j) == l'[16 * p + j + 1]
    {
      assert Cell(a, base, p, j) == l[16 * p + j];
    }
  }

  lemma RippleEnd(a: seq<int>, base: seq<int>, l: seq<int>, l': seq<int>)
    requires Rippling(a, base, l, l', 0)
    ensures 0 <= base[0] - 1 < |a|
    ensures var base' := base[0 := base[0] - 1];
            var a' := a[base[0] - 1 := l'[0]];
            Spaced(a', base', 0) && forall i :: 0 <= i < 16 ==> Segment(a', base', l', i)
  {
    var a', base' := a[base[0] - 1 := l'[0]], base[0 := base[0] - 1];
    forall j | 1 <= j < 16
      ensures Cell(a', base', 0, j) == l'[j]
    {
      assert Cell(a', base', 0, j) == Cell(a, base, 0, j - 1);
    }
    forall i | 0 < i < 16
      ensures Segment(a', base', l', i)
    {
      assert Segment(a, base, l', i);
      assert base[0] + 16 * (i - 0) <= base[i] + 1;
      forall j | 0 <= j < 16
        ensures Cell(a', base', i, j) == Cell(a, base, i, j)
      {
      }
    }
  }

  /** Shifting the front of segment q up by one, over its entry at off, opens the move. */
  ghost predicate Shifted(a: seq<int>, a': seq<int>, p: int, off: int) {
    && |a'| == |a| && 0 <= p && 0 <= off && p + off < |a|
    && (forall k :: p < k <= p + off ==> a'[k] == a[k - 1])
    && (forall k :: 0 <= k < |a| && (k < p || p + off < k) ==> a'[k] == a[k])
  }

  lemma RippleStart(a: seq<int>, base: seq<int>, l: seq<int>, q: int, off: int, a': seq<int>)
    requires Holds(a, base, l) && 0 < q < 16 && 0 <= off < 16
    requires Shifted(a, a', base[q], off)
    ensures |base| == 16 && Rippling(a', base[q := base[q] + 1], l, MoveFront(l, 16 * q + off), q)
  {
    var l', base' := MoveFront(l, 16 * q + off), base[q := base[q] + 1];
    forall i, j | 0 <= i < 16 && 0 <= j < 16 && i != q
      ensures Cell(a', base', i, j) == Cell(a, base, i, j)
    {
    }
    forall i | q < i < 16
      ensures Segment(a', base', l', i)
    {
      assert Segment(a, base, l, i);
    }
    forall i | 0 <= i < q
      ensures Segment(a', base', l, i)
    {
      assert Segment(a, base, l, i);
    }
    assert Segment(a, base, l, q);
    forall j | 0 <= j < 15
      ensures Cell(a', base', q, j) == l'[16 * q + j + 1]
    {
      assert Cell(a', base', q, j) == if j < off then Cell(a, base, q, j) else Cell(a, base, q, j + 1);
    }
  }

  /** The fast case: the entry stays in the first segment. */
  lemma ShiftFirst(a: seq<int>, base: seq<int>, l: seq<int>, off: int, a': seq<int>)
    requires Holds(a, base, l) && 0 <= off < 16
    requires Shifted(a, a', base[0], off) && a'[base[0]] == a[base[0] + off]
    ensures Holds(a', base, MoveFront(l, off))
  {
    var l' := MoveFront(l, off);
    assert Segment(a, base, l, 0);
    assert Cell(a, base, 0, off) == l[off];
    forall j | 0 <= j < 16
      ensures Cell(a', base, 0, j) == l'[j]
    {
      assert Cell(a', base, 0, j) == if j == 0 then Cell(a, base, 0, off)
        else if j <= off then Cell(a, base, 0, j - 1) else Cell(a, base, 0, j);
    }
    forall i | 0 < i < 16
      ensures Segment(a', base, l', i)
    {
      assert Segment(a, base, l, i);
      forall j | 0 <= j < 16
        ensures Cell(a', base, i, j) == Cell(a, base, i, j)
      {
      }
    }
  }

  // ---------- moving the table back up ----------

  /** Part-way through the re-base: segments above ii have moved to the top of the array. */
  ghost predicate Rebasing(a: seq<int>, base: seq<int>, l: seq<int>, ii: int) {
    && |l| == 256 && -1 <= ii < 16
    && |a| == MTFA_SIZE && |base| == 16
    && (forall i, k :: 0 <= i < k <= ii ==> base[i] + 16 * (k - i) <= base[k])
    && (forall i :: 0 <= i <= ii ==> 0 <= base[i] <= 3840 + 16 * i)
    && (forall i :: ii < i < 16 ==> base[i] == 3840 + 16 * i)
    && (forall i :: 0 <= i < 16 ==> Segment(a, base, l, i))
  }

  /** Sixteen entries copied from one place to another at or above it. */
  ghost predicate Copied(a: seq<int>, a': seq<int>, from: int, to: int) {
    && |a'| == |a| && 0 <= from <= to && to + 16 <= |a|
    && (forall k :: to <= k < to + 16 ==> a'[k] == a[k - to + from])
    && (forall k :: 0 <= k < |a| && (k < to || to + 16 <= k) ==> a'[k] == a[k])
  }

  lemma RebaseStart(a: seq<int>, base: seq<int>, l: seq<int>)
    requires Spaced(a, base, 0) && |l| == 256 && forall i :: 0 <= i < 16 ==> Segment(a, base, l, i)
    ensures Rebasing(a, base, l, 15)
  {
    forall i | 0 <= i < 15
      ensures base[i] + 16 * (15 - i) <= base[15]
    {
    }
  }

  lemma RebaseStep(a: seq<int>, base: seq<int>, l: seq<int>, ii: int, a': seq<int>)
    requires Rebasing(a, base, l, ii) && ii >= 0
    requires Copied(a, a', base[ii], 3840 + 16 * ii)
    ensures |base| == 16 && Rebasing(a', base[ii := 3840 + 16 * ii], l, ii - 1)
  {
    var base' := base[ii := 3840 + 16 * ii];
    forall i | 0 <= i < 16
      ensures Segment(a', base', l, i)
    {
      assert Segment(a, base, l, i);
      forall j | 0 <= j < 16
        ensures Cell(a', base', i, j) == Cell(a, base, i, j)
      {
      }
    }
  }

  lemma RebaseEnd(a: seq<int>, base: seq<int>, l: seq<int>)
    requires Rebasing(a, base, l, -1)
    ensures Holds(a, base, l)
  {
  }

  class Table {
    const mtfa: array<int>
    const mtfbase: array<int>
    ghost var list: seq<int>

    /** The arrays hold the list. */
    ghost predicate Valid()
      reads this, mtfa, mtfbase
    {
      mtfa != mtfbase && Holds(mtfa[..], mtfbase[..], list)
    }

    constructor ()
      ensures Valid() && |list| == 256 && forall k :: 0 <= k < 256 ==> list[k] == k
      ensures fresh(mtfa) && fresh(mtfbase)
    {
      mtfa := new int[MTFA_SIZE];
      mtfbase := new int[16];
      new;
      var kk := MTFA_SIZE - 1;
      var ii := 256 / MTFL_SIZE - 1;
      while ii >= 0
        invariant -1 <= ii < 16 && kk == 3840 + 16 * ii + 15
        invariant forall k :: kk < k < MTFA_SIZE ==> mtfa[k] == k - 3840
        invariant forall i :: ii < i < 16 ==> mtfbase[i] == 3840 + 16 * i
      {
        var jj := MTFL_SIZE - 1;
        while jj >= 0
          invariant -1 <= jj < 16 && kk == 3840 + 16 * ii + jj
          invariant forall k :: kk < k < MTFA_SIZE ==> mtfa[k] == k - 3840
          invariant forall i :: ii < i < 16 ==> mtfbase[i] == 3840 + 16 * i
        {
          mtfa[kk] := ii * MTFL_SIZE + jj;
          kk := kk - 1;
          jj := jj - 1;
        }
        mtfbase[ii] := kk + 1;
        ii := ii - 1;
      }
      list := seq(256, k => k);
      forall i | 0 <= i < 16
        ensures Segment(mtfa[..], mtfbase[..], list, i)
      {
      }
    }

    /** Shifts the entries of a segment in front of its entry at off up by one. */
    method Shift(p: nat, off: nat)
      requires mtfa.Length == MTFA_SIZE && p + off < MTFA_SIZE
      modifies mtfa
      ensures Shifted(old(mtfa[..]), mtfa[..], p, off)
    {
      var z := p + off;
      while z > p
        invariant p <= z <= p + off
        invariant forall k :: z < k <= p + off ==> mtfa[k] == old(mtfa[..])[k - 1]
        invariant forall k :: 0 <= k < MTFA_SIZE && (k <= z || p + off < k) ==> mtfa[k] == old(mtfa[..])[k]
      {
        mtfa[z] := mtfa[z - 1];
        z := z - 1;
      }
    }

    /** Copies one segment up, last entry first. */
    method CopySegment(from: nat, to: nat)
      requires mtfa.Length == MTFA_SIZE && from <= to && to + 16 <= MTFA_SIZE
      modifies mtfa
      ensures Copied(old(mtfa[..]), mtfa[..], from, to)
    {
      var jj := MTFL_SIZE - 1;
      while jj >= 0
        invariant -1 <= jj < 16
        invariant forall k :: to + jj < k < to + 16 ==> mtfa[k] == old(mtfa[..])[k - to + from]
        invariant forall k :: 0 <= k < MTFA_SIZE && (k <= to + jj || to + 16 <= k) ==> mtfa[k] == old(mtfa[..])[k]
      {
        mtfa[to + jj] := mtfa[from + jj];
        jj := jj - 1;
      }
    }

    method Rebase()
      requires mtfa != mtfbase && Spaced(mtfa[..], mtfbase[..], 0)
      requires |list| == 256 && forall i :: 0 <= i < 16 ==> Segment(mtfa[..], mtfbase[..], list, i)
      modifies mtfa, mtfbase
      ensures Valid()
    {
      RebaseStart(mtfa[..], mtfbase[..], list);
      var ii := 256 / MTFL_SIZE - 1;
      while ii >= 0
        invariant -1 <= ii < 16 && Rebasing(mtfa[..], mtfbase[..], list, ii)
      {
        ghost var a, base := mtfa[..], mtfbase[..];
        CopySegment(mtfbase[ii], 3840 + 16 * ii);
        RebaseStep(a, base, list, ii, mtfa[..]);
        mtfbase[ii] := 3840 + 16 * ii;
        assert mtfbase[..] == base[ii := 3840 + 16 * ii];
        ii := ii - 1;
      }
      RebaseEnd(mtfa[..], mtfbase[..], list);
    }

    /** Opens the gap: the entry sought is out, those before it in its segment one up. */
    method OpenGap(lno: nat, off: nat) returns (uc: int)
      requires Valid() && 0 < lno < 16 && off < 16
      modifies mtfa, mtfbase
      ensures uc == list[16 * lno + off] && mtfa != mtfbase
      ensures Rippling(mtfa[..], mtfbase[..], list, MoveFront(list, 16 * lno + off), lno)
    {
      ghost var a, base := mtfa[..], mtfbase[..];
      assert Segment(a, base, list, lno);
      assert Cell(a, base, lno, off) == list[16 * lno + off];
      var pp := mtfbase[lno] + off;
      uc := mtfa[pp];
      Shift(mtfbase[lno], off);
      RippleStart(a, base, list, lno, off, mtfa[..]);
      mtfbase[lno] := mtfbase[lno] + 1;
      assert mtfbase[..] == base[lno := base[lno] + 1];
    }

    /** Passes the last entry of each segment down to the next, closing the gap at the front. */
    method CloseGap(lno0: nat, uc: int, ghost l': seq<int>)
      requires mtfa != mtfbase && 0 < lno0 < 16 && |list| == |l'| == 256 && uc == l'[0]
      requires forall k :: 1 <= k <= 16 * lno0 ==> l'[k] == list[k - 1]
      requires Rippling(mtfa[..], mtfbase[..], list, l', lno0)
      modifies mtfa, mtfbase
      ensures Spaced(mtfa[..], mtfbase[..], 0) && forall i :: 0 <= i < 16 ==> Segment(mtfa[..], mtfbase[..], l', i)
    {
      hide Rippling, Segment, Spaced;
      var lno := lno0;
      while lno > 0
        invariant 0 <= lno <= lno0 && Rippling(mtfa[..], mtfbase[..], list, l', lno)
      {
        ghost var a: seq<int>, base: seq<int> := mtfa[..], mtfbase[..];
        RippleShape(a, base, list, l', lno);
        RippleStep(a, base, list, l', lno);
        mtfbase[lno] := mtfbase[lno] - 1;
        mtfa[mtfbase[lno]] := mtfa[mtfbase[lno - 1] + MTFL_SIZE - 1];
        assert mtfbase[..] == base[lno := base[lno] - 1];
        assert mtfa[..] == a[base[lno] - 1 := a[base[lno-1] + 15]];
        lno := lno - 1;
      }
      ghost var a: seq<int>, base: seq<int> := mtfa[..], mtfbase[..];
      RippleShape(a, base, list, l', 0);
      RippleEnd(a, base, list, l');
      mtfbase[0] := mtfbase[0] - 1;
      mtfa[mtfbase[0]] := uc;
      assert mtfbase[..] == base[0 := base[0] - 1];
      assert mtfa[..] == a[base[0] - 1 := l'[0]];
    }

    /** Fetches entry nn and moves it to the front of the list. */
    method MoveToFront(nn: nat) returns (uc: int)
      requires Valid() && nn < |list| == 256
      modifies this, mtfa, mtfbase
      ensures Valid() && uc == old(list)[nn] && list == MoveFront(old(list), nn)
    {
      ghost var l' := MoveFront(list, nn);
      if nn < MTFL_SIZE {
        uc := MoveInFirst(nn);
        list := l';
      } else {
        var lno, off := nn / MTFL_SIZE, nn % MTFL_SIZE;
        uc := OpenGap(lno, off);
        CloseGap(lno, uc, l');
        list := l';
        if mtfbase[0] == 0 {
          Rebase();
        } else {
          Respaced(mtfa[..], mtfbase[..], list);
        }
      }
    }

    method MoveInFirst(nn: nat) returns (uc: int)
      requires Valid() && nn < 16
      modifies mtfa
      ensures uc == list[nn] && Holds(mtfa[..], mtfbase[..], MoveFront(list, nn))
    {
      ghost var a, base := mtfa[..], mtfbase[..];
      assert Segment(a, base, list, 0);
      assert Cell(a, base, 0, nn) == list[nn];
      var pp := mtfbase[0];
      uc := mtfa[pp + nn];
      Shift(pp, nn);
      ghost var a1: seq<int> := mtfa[..];
      mtfa[pp] := uc;
      assert mtfa[..] == a1[pp := uc];
      ShiftFirst(a, base, list, nn, mtfa[..]);
    }

    /** The entry at the front. */
    method Front() returns (uc: int)
      requires Valid() && |list| == 256
      ensures uc == list[0]
    {
      assert Segment(mtfa[..], mtfbase[..], list, 0);
      assert Cell(mtfa[..], mtfbase[..], 0, 0) == list[0];
      uc := mtfa[mtfbase[0]];
    }
  }

  lemma RippleShape(a: seq<int>, base: seq<int>, l: seq<int>, l': seq<int>, q: int)
    requires Rippling(a, base, l, l', q)
    ensures |a| == MTFA_SIZE && |base| == 16 && |l| == |l'| == 256 && 0 <= q < 16
  {
  }

  lemma Respaced(a: seq<int>, base: seq<int>, l: seq<int>)
    requires Spaced(a, base, 0) && base[0] != 0
    requires |l| == 256 && forall i :: 0 <= i < 16 ==> Segment(a, base, l, i)
    ensures Holds(a, base, l)
  {
  }
}

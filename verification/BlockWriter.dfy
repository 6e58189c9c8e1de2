/** The compressor's writing of a block behind its header: byte map, selectors, coding tables and data. */
module BlockWriter {
  import opened Bits
  import opened BitIO
  import opened Canonical
  import opened Mtf
  import opened BlockFormat
  import opened BlockData
  import opened TableChoice

  // ---------- the byte map ----------

  method PutFlag(w: BitWriter, b: bool)
    requires w.Valid()
    modifies w
    ensures w.Valid() && w.Written() == old(w.Written()) + [b]
  {
    FlagIs(b);
    if b {
      w.Put(1, 1);
    } else {
      w.Put(1, 0);
    }
  }

  lemma FlagIs(b: bool)
    ensures ToBits(if b then 1 else 0, 1) == [b] && Pow2(1) == 2
  {
    assert ToBits(0, 0) == [];
  }

  /** Is anything used in row i? */
  method AnyInRow(inUse: array<bool>, i: nat) returns (any: bool)
    requires inUse.Length == 256 && i < 16
    ensures any == (true in Row(inUse[..], i))
  {
    ghost var row := Row(inUse[..], i);
    any := false;
    var j := 0;
    while j < 16
      invariant 0 <= j <= 16 && any == (true in row[..j])
    {
      assert row[..j + 1] == row[..j] + [row[j]];
      if inUse[i * 16 + j] {
        any := true;
      }
      j := j + 1;
    }
    assert row[..16] == row;
  }

  method PutRow(w: BitWriter, inUse: array<bool>, i: nat)
    requires w.Valid() && inUse.Length == 256 && i < 16
    modifies w
    ensures w.Valid() && w.Written() == old(w.Written()) + Row(inUse[..], i)
  {
    hide ToBits;
    ghost var row, before := Row(inUse[..], i), w.Written();
    var j := 0;
    while j < 16
      invariant 0 <= j <= 16 && w.Valid() && w.Written() == before + row[..j]
    {
      PutFlag(w, inUse[i * 16 + j]);
      assert before + row[..j] + [row[j]] == before + (row[..j] + [row[j]]);
      assert row[..j + 1] == row[..j] + [row[j]];
      j := j + 1;
    }
    assert row[..16] == row;
  }

  lemma Rejoin(done: seq<bool>, a: seq<bool>, b: seq<bool>)
    ensures done + (a + b) == done + a + b
  {
  }

  lemma NothingLeft(done: seq<bool>)
    ensures done + [] == done
  {
  }

  method WriteMap(w: BitWriter, inUse: array<bool>)
    requires w.Valid() && inUse.Length == 256
    modifies w
    ensures w.Valid() && w.Written() == old(w.Written()) + MapBits(inUse[..])
  {
    hide MapHead, MapRows, Row;
    ghost var before, flags := w.Written(), inUse[..];
    var inUse16 := FlagRows(inUse);
    WriteHead(w, inUse16, flags);
    WriteRows(w, inUse, inUse16);
    Rejoin(before, MapHead(flags, 0), MapRows(flags, 0));
  }

  method FlagRows(inUse: array<bool>) returns (inUse16: array<bool>)
    requires inUse.Length == 256
    ensures fresh(inUse16) && inUse16.Length == 16
    ensures forall k :: 0 <= k < 16 ==> inUse16[k] == (true in Row(inUse[..], k))
  {
    hide Row;
    inUse16 := new bool[16];
    var i := 0;
    while i < 16
      invariant 0 <= i <= 16 && forall k :: 0 <= k < i ==> inUse16[k] == (true in Row(inUse[..], k))
    {
      inUse16[i] := AnyInRow(inUse, i);
      i := i + 1;
    }
  }

  method WriteHead(w: BitWriter, inUse16: array<bool>, ghost flags: seq<bool>)
    requires w.Valid() && |flags| == 256 && inUse16.Length == 16
    requires forall k :: 0 <= k < 16 ==> inUse16[k] == (true in Row(flags, k))
    modifies w
    ensures w.Valid() && w.Written() == old(w.Written()) + MapHead(flags, 0)
  {
    hide MapHead, MapRows, Row;
    ghost var all := w.Written() + MapHead(flags, 0);
    var i := 0;
    while i < 16
      invariant 0 <= i <= 16 && w.Valid() && w.Written() + MapHead(flags, i) == all
    {
      MapStep(flags, i);
      Rejoin(w.Written(), [inUse16[i]], MapHead(flags, i + 1));
      PutFlag(w, inUse16[i]);
      i := i + 1;
    }
    MapEnd(flags);
    NothingLeft(w.Written());
  }

  method WriteRows(w: BitWriter, inUse: array<bool>, inUse16: array<bool>)
    requires w.Valid() && inUse.Length == 256 && inUse16.Length == 16
    requires forall k :: 0 <= k < 16 ==> inUse16[k] == (true in Row(inUse[..], k))
    modifies w
    ensures w.Valid() && w.Written() == old(w.Written()) + MapRows(inUse[..], 0)
  {
    hide MapHead, MapRows, Row;
    ghost var flags := inUse[..];
    ghost var all := w.Written() + MapRows(flags, 0);
    var i := 0;
    while i < 16
      invariant 0 <= i <= 16 && w.Valid() && w.Written() + MapRows(flags, i) == all
    {
      MapStep(flags, i);
      ghost var row := Row(flags, i);
      Rejoin(w.Written(), row, MapRows(flags, i + 1));
      Rejoin(w.Written(), [], MapRows(flags, i + 1));
      NothingLeft(w.Written());
      if inUse16[i] {
        PutRow(w, inUse, i);
      }
      i := i + 1;
    }
    MapEnd(flags);
    NothingLeft(w.Written());
  }

  // ---------- selectors ----------

  /** Replaces every selector by its place in a move-to-front list. */
  method MoveSelectors(sel: seq<int>, nGroups: nat) returns (m: seq<int>)
    requires 1 <= nGroups <= MAX_GROUPS && forall i :: 0 <= i < |sel| ==> 0 <= sel[i] < nGroups
    ensures AllIn(sel, 0, Identity(nGroups)) && m == SelectorPlaces(Identity(nGroups), sel, 0)
  {
    hide MoveFront, IndexOf;
    InIdentity(sel, nGroups);
    var pos := new int[MAX_GROUPS](v => v);
    assert pos[..nGroups] == Identity(nGroups);
    m := [];
    var i := 0;
    while i < |sel|
      invariant 0 <= i <= |sel| && AllIn(sel, i, pos[..nGroups])
      invariant m + SelectorPlaces(pos[..nGroups], sel, i) == SelectorPlaces(Identity(nGroups), sel, 0)
    {
      ghost var list := pos[..nGroups];
      var j := BringToFront(pos, nGroups, sel[i]);
      assert m + ([j] + SelectorPlaces(pos[..nGroups], sel, i + 1)) ==
          m + [j] + SelectorPlaces(pos[..nGroups], sel, i + 1);
      m := m + [j];
      i := i + 1;
    }
    assert m + [] == m;
  }

  lemma InIdentity(sel: seq<int>, n: nat)
    requires forall i :: 0 <= i < |sel| ==> 0 <= sel[i] < n
    ensures AllIn(sel, 0, Identity(n))
  {
    forall k | 0 <= k < |sel|
      ensures sel[k] in Identity(n)
    {
      assert Identity(n)[sel[k]] == sel[k];
    }
  }

  /** Finds c, shifting everything in front of it back by one, and puts it first. */
  method BringToFront(pos: array<int>, k: nat, c: int) returns (j: nat)
    requires 1 <= k <= pos.Length && c in pos[..k]
    modifies pos
    ensures j == IndexOf(old(pos[..k]), c) && pos[..k] == MoveFront(old(pos[..k]), j)
  {
    ghost var list := pos[..k];
    ghost var at := IndexOf(list, c);
    j := 0;
    var tmp := pos[j];
    while c != tmp
      invariant 0 <= j <= at && tmp == list[j]
      invariant forall q :: 1 <= q <= j ==> pos[q] == list[q - 1]
      invariant forall q :: j < q < k ==> pos[q] == list[q]
      decreases at - j
    {
      j := j + 1;
      var tmp2 := tmp;
      tmp := pos[j];
      pos[j] := tmp2;
    }
    FirstPlace(list, c, j);
    pos[0] := tmp;
  }

  lemma FirstPlace(list: seq<int>, c: int, j: nat)
    requires c in list && j <= IndexOf(list, c) && list[j] == c
    ensures j == IndexOf(list, c)
  {
  }

  method WriteUnary(w: BitWriter, n: nat)
    requires w.Valid()
    modifies w
    ensures w.Valid() && w.Written() == old(w.Written()) + Unary(n)
  {
    hide ToBits;
    ghost var before := w.Written();
    var j := 0;
    assert before + Ones(0) == before;
    while j < n
      invariant 0 <= j <= n && w.Valid() && w.Written() == before + Ones(j)
    {
      PutFlag(w, true);
      assert before + Ones(j) + [true] == before + Ones(j + 1);
      j := j + 1;
    }
    PutFlag(w, false);
    assert before + Ones(n) + [false] == before + (Ones(n) + [false]);
  }

  method WriteSelectors(w: BitWriter, nGroups: nat, m: seq<int>)
    requires w.Valid() && nGroups <= MAX_GROUPS && |m| < 32768 && AllPlaces(m, 0, nGroups)
    modifies w
    ensures w.Valid() && w.Written() == old(w.Written()) + SelectorBits(nGroups, m)
  {
    hide ToBits, Unary;
    ghost var before := w.Written();
    SmallPowers();
    w.Put(3, nGroups);
    w.Put(15, |m|);
    ghost var mid := w.Written();
    var i := 0;
    while i < |m|
      invariant 0 <= i <= |m| && w.Valid()
      invariant w.Written() + UnaryBits(m, i) == mid + UnaryBits(m, 0)
    {
      ghost var done := w.Written();
      WriteUnary(w, m[i]);
      Rejoin(done, Unary(m[i]), UnaryBits(m, i + 1));
      i := i + 1;
    }
    NothingLeft(w.Written());
    Rejoin(before + ToBits(nGroups, 3), ToBits(|m|, 15), UnaryBits(m, 0));
    Rejoin(before, ToBits(nGroups, 3), ToBits(|m|, 15) + UnaryBits(m, 0));
  }

  // ---------- coding tables ----------

  method WriteLength(w: BitWriter, curr0: int, target: int) returns (curr: int)
    requires w.Valid()
    modifies w
    ensures w.Valid() && w.Written() == old(w.Written()) + DeltaBits(curr0, target) && curr == target
  {
    hide ToBits, DeltaBits;
    ghost var before := w.Written();
    curr := curr0;
    StepBits();
    while curr < target
      invariant w.Valid() && (curr0 <= target ==> curr <= target) && (curr0 > target ==> curr == curr0)
      invariant w.Written() + DeltaBits(curr, target) == before + DeltaBits(curr0, target)
    {
      DeltaStep(curr, target);
      Rejoin(w.Written(), [true, false], DeltaBits(curr + 1, target));
      w.Put(2, 2);
      curr := curr + 1;
    }
    while curr > target
      invariant w.Valid() && curr >= target
      invariant w.Written() + DeltaBits(curr, target) == before + DeltaBits(curr0, target)
    {
      DeltaStep(curr, target);
      Rejoin(w.Written(), [true, true], DeltaBits(curr - 1, target));
      w.Put(2, 3);
      curr := curr - 1;
    }
    DeltaStep(curr, target);
    PutFlag(w, false);
  }

  lemma StepBits()
    ensures ToBits(2, 2) == [true, false] && ToBits(3, 2) == [true, true] && Pow2(2) == 4
  {
    assert ToBits(0, 0) == [] && ToBits(1, 1) == [true];
  }

  method WriteTable(w: BitWriter, len: seq<int>)
    requires w.Valid() && IsLengths(len)
    modifies w
    ensures w.Valid() && w.Written() == old(w.Written()) + TableBits(len)
  {
    hide ToBits, DeltaBits;
    ghost var before := w.Written();
    SmallPowers();
    var curr := len[0];
    w.Put(5, curr);
    ghost var mid := w.Written();
    var i := 0;
    while i < |len|
      invariant 0 <= i <= |len| && w.Valid()
      invariant w.Written() + LengthBits(len, curr, i) == mid + LengthBits(len, len[0], 0)
    {
      ghost var done := w.Written();
      ghost var last := curr;
      curr := WriteLength(w, curr, len[i]);
      Rejoin(done, DeltaBits(last, len[i]), LengthBits(len, len[i], i + 1));
      i := i + 1;
    }
    NothingLeft(w.Written());
    Rejoin(before, ToBits(len[0], 5), LengthBits(len, len[0], 0));
  }

  method WriteTables(w: BitWriter, lens: seq<seq<int>>, alphaSize: nat)
    requires w.Valid() && AllLengths(lens, alphaSize)
    modifies w
    ensures w.Valid() && w.Written() == old(w.Written()) + TablesBits(lens, 0)
  {
    hide TableBits;
    ghost var before := w.Written();
    var t := 0;
    while t < |lens|
      invariant 0 <= t <= |lens| && w.Valid()
      invariant w.Written() + TablesBits(lens, t) == before + TablesBits(lens, 0)
    {
      ghost var done := w.Written();
      WriteTable(w, lens[t]);
      Rejoin(done, TableBits(lens[t]), TablesBits(lens, t + 1));
      t := t + 1;
    }
    NothingLeft(w.Written());
  }

  // ---------- codes and data ----------

  ghost predicate CodesFor(codes: seq<int>, len: seq<int>) {
    && |codes| == |len| && IsLengths(len)
    && forall i :: 0 <= i < |len| ==> codes[i] == Code(len, i)
  }

  /** The codes of one table. The two assertions on the longest and shortest length hold. */
  method MakeCodes(len: seq<int>) returns (codes: seq<int>)
    requires IsLengths(len)
    ensures CodesFor(codes, len)
  {
    hide Code;
    var minLen, maxLen := LengthRange(len);
    assert len[0] in len;
    assert maxLen <= 20 && minLen >= 1;
    var length := new int[|len|](i requires 0 <= i < |len| => len[i]);
    assert length[..|len|] == len;
    var code := new int[|len|];
    AssignCodes(code, length, minLen, maxLen, |len|);
    codes := code[..];
  }

  method MakeAllCodes(lens: seq<seq<int>>, alphaSize: nat) returns (codes: seq<seq<int>>)
    requires AllLengths(lens, alphaSize)
    ensures |codes| == |lens| && forall t :: 0 <= t < |lens| ==> CodesFor(codes[t], lens[t])
  {
    hide CodesFor, IsLengths;
    codes := [];
    var t := 0;
    while t < |lens|
      invariant 0 <= t <= |lens| && |codes| == t && forall u :: 0 <= u < t ==> CodesFor(codes[u], lens[u])
    {
      var c := MakeCodes(lens[t]);
      codes := codes + [c];
      t := t + 1;
    }
  }

  /** Writes one symbol with the table of its group. */
  method PutSymbol(w: BitWriter, lens: seq<seq<int>>, codes: seq<seq<int>>, sel: seq<int>, syms: seq<int>,
                   alphaSize: nat, selCtr: nat, i: nat)
    requires w.Valid() && Codable(lens, sel, syms, alphaSize) && i < |syms| && selCtr == i / GROUP_SIZE
    requires |codes| == |lens|
    requires forall t :: 0 <= t < |lens| ==> CodesFor(codes[t], lens[t]) && Kraft(lens[t], 20) <= Pow2(20)
    modifies w
    ensures w.Valid() && w.Written() == old(w.Written()) + SymBits(lens, sel, syms, alphaSize, i)
  {
    hide ToBits, Code, Kraft, Pow2;
    var t := sel[selCtr];
    CodeFits(lens[t], syms[i]);
    w.Put(lens[t][syms[i]], codes[t][syms[i]]);
  }

  /** The block data: group by group, symbol by symbol. All selectors are used up at the end. */
  method WriteData(w: BitWriter, lens: seq<seq<int>>, codes: seq<seq<int>>, sel: seq<int>, syms: seq<int>,
                   alphaSize: nat)
    requires w.Valid() && Codable(lens, sel, syms, alphaSize) && |sel| == Groups(|syms|)
    requires |codes| == |lens|
    requires forall t :: 0 <= t < |lens| ==> CodesFor(codes[t], lens[t]) && Kraft(lens[t], 20) <= Pow2(20)
    modifies w
    ensures w.Valid() && w.Written() == old(w.Written()) + DataBits(lens, sel, syms, alphaSize, 0)
  {
    hide ToBits, Code, Kraft, Pow2, CodesFor, Codable, SymBits;
    ghost var all := w.Written() + DataBits(lens, sel, syms, alphaSize, 0);
    var selCtr, gs := 0, 0;
    while gs < |syms|
      invariant 0 <= gs <= |syms| && selCtr == Groups(gs) && (gs < |syms| ==> gs == GROUP_SIZE * selCtr)
      invariant w.Valid() && w.Written() + DataBits(lens, sel, syms, alphaSize, gs) == all
    {
      var ge := gs + GROUP_SIZE - 1;
      if ge >= |syms| {
        ge := |syms| - 1;
      }
      var i := gs;
      while i <= ge
        invariant gs <= i <= ge + 1
        invariant w.Valid() && w.Written() + DataBits(lens, sel, syms, alphaSize, i) == all
      {
        ghost var done := w.Written();
        PutSymbol(w, lens, codes, sel, syms, alphaSize, selCtr, i);
        Rejoin(done, SymBits(lens, sel, syms, alphaSize, i), DataBits(lens, sel, syms, alphaSize, i + 1));
        i := i + 1;
      }
      gs := ge + 1;
      selCtr := selCtr + 1;
    }
    assert selCtr == |sel|;
    NothingLeft(w.Written());
  }
}

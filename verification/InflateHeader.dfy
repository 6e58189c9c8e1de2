/** inflate's states TABLE, LENLENS and CODELENS: reading a block's two codes and building their tables. */
module InflateHeader {
  import opened Bits
  import opened BitIO
  import opened BitSource
  import opened CodeLengthCode
  import opened DeflateCodes
  import opened DynamicHeader
  import opened EntryCode
  import opened InflateTable
  import opened LengthCodes
  import opened SortedCodes
  import opened TableBuilder
  import opened TableSlots
  import opened ZBits

  /** How reading a part ends: well, for lack of input, or at something that no compressor writes. */
  datatype Status = Done | NeedInput | Invalid

  /** The next n bits as a number. */
  method ReadBits(src: Source, n: nat) returns (ok: bool, v: nat)
    requires src.Valid() && src.later == [] && n <= 24
    modifies src`next, src`hold, src`bits
    ensures src.Valid() && src.later == []
    ensures if ok then TakeLow(old(src.Ahead()), n) == ZBits.Val(v, src.Ahead()) && v < Pow2(n)
        && (src.bits == old(src.bits) - n || src.bits < 8)
      else TakeLow(old(src.Ahead()), n).Short?
  {
    hide Pow2, TakeLow;
    ok := src.NeedBits(n);
    if !ok {
      src.AheadSize();
      TooFew(src.Ahead(), n);
      return false, 0;
    }
    src.LowIs(n);
    src.LowBelow(n);
    v := src.Low(n);
    src.DropBits(n);
  }

  lemma TooFew(bits: seq<bool>, n: nat)
    requires |bits| < n
    ensures TakeLow(bits, n).Short?
  {
  }

  // ---------- TABLE ----------

  lemma CountsAre(bits: seq<bool>, a: nat, b1: seq<bool>, b: nat, b2: seq<bool>, c: nat, b3: seq<bool>)
    requires TakeLow(bits, 5) == ZBits.Val(a, b1) && TakeLow(b1, 5) == ZBits.Val(b, b2)
    requires TakeLow(b2, 4) == ZBits.Val(c, b3)
    ensures ReadCounts(bits) == if a + 257 > L_CODES || b + 1 > D_CODES then Bad
        else ZBits.Val(Counts(a + 257, b + 1, c + 4), b3)
  {
    hide TakeLow;
  }

  lemma CountsShort(bits: seq<bool>)
    requires |bits| < 14
    ensures ReadCounts(bits).Short?
  {
  }

  method ReadTable(src: Source) returns (st: Status, k: Counts)
    requires src.Valid() && src.later == [] && src.bits < 8
    modifies src`next, src`hold, src`bits
    ensures src.Valid() && src.later == [] && src.bits < 14
    ensures match st
      case Done => ReadCounts(old(src.Ahead())) == ZBits.Val(k, src.Ahead()) && src.bits < 8
        && 257 <= k.nlen <= L_CODES && 1 <= k.ndist <= D_CODES && 4 <= k.ncode <= BL_CODES
      case NeedInput => ReadCounts(old(src.Ahead())).Short?
      case Invalid => ReadCounts(old(src.Ahead())).Bad?
  {
    hide TakeLow, ReadCounts;
    ghost var bits := src.Ahead();
    k := Counts(0, 0, 0);
    var ok := src.NeedBits(14);
    if !ok {
      src.AheadSize();
      CountsShort(bits);
      return NeedInput, k;
    }
    var a := TakeKnown(src, 5);
    ghost var b1 := src.Ahead();
    var b := TakeKnown(src, 5);
    ghost var b2 := src.Ahead();
    var c := TakeKnown(src, 4);
    CountsAre(bits, a, b1, b, b2, c, src.Ahead());
    assert Pow2(4) == 16;
    if a + 257 > L_CODES || b + 1 > D_CODES {
      return Invalid, k;
    }
    return Done, Counts(a + 257, b + 1, c + 4);
  }

  /** Bits that are known to be there. */
  method TakeKnown(src: Source, n: nat) returns (v: nat)
    requires src.Valid() && n <= src.bits
    modifies src`hold, src`bits
    ensures src.Valid() && TakeLow(old(src.Ahead()), n) == ZBits.Val(v, src.Ahead()) && v < Pow2(n)
    ensures src.bits == old(src.bits) - n
  {
    hide Pow2, TakeLow;
    src.LowIs(n);
    src.LowBelow(n);
    v := src.Low(n);
    src.DropBits(n);
  }

  // ---------- LENLENS ----------

  /** The lengths read so far, and zeros for the rest of the order. */
  ghost predicate Partly(cur: seq<int>, lens: seq<int>, r: nat) {
    |cur| == BL_CODES <= |lens| && r <= BL_CODES
    && (forall s :: 0 <= s < BL_CODES ==> 0 <= cur[s] <= 7)
    && forall i :: 0 <= i < BL_CODES ==> if i < r then cur[BlOrder(i)] == lens[BlOrder(i)] else cur[BlOrder(i)] == 0
  }

  lemma PartlyNext(cur: seq<int>, lens: seq<int>, r: nat, v: nat)
    requires Partly(cur, lens, r) && r < BL_CODES && v <= 7
    ensures Partly(cur[BlOrder(r) := v], lens[BlOrder(r) := v], r + 1)
  {
    hide BlOrder;
    forall i | 0 <= i < BL_CODES
      ensures BlOrder(i) == BlOrder(r) <==> i == r
    {
      OrderApart(i, r);
    }
  }

  lemma PartlyRest(cur: seq<int>, lens: seq<int>, r: nat)
    requires Partly(cur, lens, r) && r < BL_CODES
    ensures Partly(cur, lens[BlOrder(r) := 0], r + 1)
  {
    hide BlOrder;
    forall i | 0 <= i < BL_CODES
      ensures BlOrder(i) == BlOrder(r) <==> i == r
    {
      OrderApart(i, r);
    }
  }

  lemma PartlyAll(cur: seq<int>, lens: seq<int>)
    requires Partly(cur, lens, BL_CODES)
    ensures lens[..BL_CODES] == cur
  {
    forall s | 0 <= s < BL_CODES
      ensures lens[s] == cur[s]
    {
      assert s == BlOrder(BlRank(s));
    }
  }

  lemma OrderNext(bits: seq<bool>, cur: seq<int>, r: nat, n: nat, v: nat, rest: seq<bool>)
    requires |cur| == BL_CODES && r < n <= BL_CODES && TakeLow(bits, 3) == ZBits.Val(v, rest)
    ensures ReadOrder(bits, cur, r, n) == ReadOrder(rest, cur[BlOrder(r) := v], r + 1, n)
  {
    hide BlOrder, TakeLow;
  }

  method ReadLenLens(src: Source, lens: array<int>, ncode: nat) returns (ok: bool)
    requires src.Valid() && src.later == [] && src.bits < 8 && lens.Length >= BL_CODES && 4 <= ncode <= BL_CODES
    modifies src`next, src`hold, src`bits, lens
    ensures src.Valid() && src.later == []
    ensures if ok then ReadOrder(old(src.Ahead()), NoLens(), 0, ncode) == ZBits.Val(lens[..BL_CODES], src.Ahead()) &&
        src.bits < 8
        && forall s :: 0 <= s < BL_CODES ==> 0 <= lens[s] <= 7
      else ReadOrder(old(src.Ahead()), NoLens(), 0, ncode).Short?
  {
    hide TakeLow, ReadOrder, BlOrder, Partly;
    ghost var bits := src.Ahead();
    ghost var cur;
    ok, cur := ReadSent(src, lens, ncode);
    if !ok {
      return;
    }
    var have := ncode;
    while have < BL_CODES
      invariant ncode <= have <= BL_CODES && Partly(cur, lens[..], have)
      modifies lens
    {
      ghost var l: seq<int> := lens[..];
      PartlyRest(cur, l, have);
      lens[BlOrder(have)] := 0;
      assert lens[..] == l[BlOrder(have) := 0];
      have := have + 1;
    }
    PartlyAll(cur, lens[..]);
    PartlySmall(cur, lens[..], have);
    assert lens[..][..BL_CODES] == lens[..BL_CODES];
    assert forall s :: 0 <= s < BL_CODES ==> lens[..BL_CODES][s] == lens[s];
  }

  /** The lengths that were sent. */
  method ReadSent(src: Source, lens: array<int>, ncode: nat) returns (ok: bool, ghost cur: seq<int>)
    requires src.Valid() && src.later == [] && src.bits < 8 && lens.Length >= BL_CODES && 4 <= ncode <= BL_CODES
    modifies src`next, src`hold, src`bits, lens
    ensures src.Valid() && src.later == [] && |cur| == BL_CODES
    ensures if ok then ReadOrder(old(src.Ahead()), NoLens(), 0, ncode) == ZBits.Val(cur, src.Ahead()) && src.bits < 8
        && Partly(cur, lens[..], ncode)
      else ReadOrder(old(src.Ahead()), NoLens(), 0, ncode).Short?
  {
    hide TakeLow, ReadOrder, BlOrder, Partly, Source.Ahead, Source.Acc;
    ghost var bits := src.Ahead();
    cur := NoLens();
    NonePartly(cur, lens[..]);
    assert Pow2(3) == 8;
    var have := 0;
    while have < ncode
      invariant 0 <= have <= ncode && src.Valid() && src.later == [] && src.bits < 8 && |cur| == BL_CODES
      invariant Partly(cur, lens[..], have)
      invariant ReadOrder(bits, NoLens(), 0, ncode) == ReadOrder(src.Ahead(), cur, have, ncode)
      modifies src`next, src`hold, src`bits, lens
    {
      ghost var before := src.Ahead();
      var v;
      ok, v := ReadBits(src, 3);
      if !ok {
        OrderStops(before, cur, have, ncode);
        return;
      }
      OrderNext(before, cur, have, ncode, v, src.Ahead());
      ghost var l: seq<int> := lens[..];
      PartlyNext(cur, l, have, v);
      lens[BlOrder(have)] := v;
      assert lens[..] == l[BlOrder(have) := v];
      cur := cur[BlOrder(have) := v];
      have := have + 1;
    }
    OrderDone(src.Ahead(), cur, ncode);
    ok := true;
  }

  lemma NonePartly(cur: seq<int>, lens: seq<int>)
    requires cur == NoLens() && |lens| >= BL_CODES
    ensures Partly(cur, lens, 0)
  {
  }

  lemma PartlySmall(cur: seq<int>, lens: seq<int>, r: nat)
    requires Partly(cur, lens, r)
    ensures |cur| == BL_CODES && forall s :: 0 <= s < BL_CODES ==> 0 <= cur[s] <= 7
  {
  }

  lemma OrderStops(bits: seq<bool>, cur: seq<int>, r: nat, n: nat)
    requires |cur| == BL_CODES && r < n <= BL_CODES && TakeLow(bits, 3).Short?
    ensures ReadOrder(bits, cur, r, n).Short?
  {
  }

  lemma OrderDone(bits: seq<bool>, cur: seq<int>, n: nat)
    requires |cur| == BL_CODES && n <= BL_CODES
    ensures ReadOrder(bits, cur, n, n) == ZBits.Val(cur, bits)
  {
  }

  // ---------- CODELENS ----------

  lemma LensNext(bl: seq<int>, bits: seq<bool>, have: seq<int>, total: nat)
    requires |bl| <= BL_CODES && |have| < total
    ensures ReadItem(bl, bits, have, total).Val? ==>
      ReadLens(bl, bits, have, total) ==
          ReadLens(bl, ReadItem(bl, bits, have, total).rest, ReadItem(bl, bits, have, total).value, total)
    ensures ReadItem(bl, bits, have, total).Short? ==> ReadLens(bl, bits, have, total).Short?
    ensures ReadItem(bl, bits, have, total).Bad? ==> ReadLens(bl, bits, have, total).Bad?
  {
    hide ReadItem;
  }

  lemma LensDone(bl: seq<int>, bits: seq<bool>, have: seq<int>, total: nat)
    requires |bl| <= BL_CODES && |have| == total
    ensures ReadLens(bl, bits, have, total) == ZBits.Val(have, bits)
  {
  }

  lemma ItemIsShort(bl: seq<int>, bits: seq<bool>, have: seq<int>, total: nat)
    requires |bl| <= BL_CODES && EntryRead(bl, CODES, bits).Short?
    ensures ReadItem(bl, bits, have, total).Short?
  {
    hide EntryRead;
  }

  lemma ItemIsOne(bl: seq<int>, bits: seq<bool>, have: seq<int>, total: nat, e: Entry, rest: seq<bool>)
    requires |bl| <= BL_CODES && EntryRead(bl, CODES, bits) == ZBits.Val(e, rest) && e.val < 16
    ensures ReadItem(bl, bits, have, total) == ZBits.Val(have + [e.val], rest)
  {
    hide EntryRead;
  }

  /** Extra bits and least count of a repeat symbol. */
  function Extra(sym: int): nat {
    if sym == 16 then 2 else if sym == 17 then 3 else 7
  }

  function Least(sym: int): nat {
    if sym == 18 then 11 else 3
  }

  lemma ItemIsRepeat(bl: seq<int>, bits: seq<bool>, have: seq<int>, total: nat, e: Entry, rest: seq<bool>)
    requires |bl| <= BL_CODES && EntryRead(bl, CODES, bits) == ZBits.Val(e, rest) && 16 <= e.val <= 18
    ensures TakeLow(rest, Extra(e.val)).Short? ==> ReadItem(bl, bits, have, total).Short?
    ensures TakeLow(rest, Extra(e.val)).Val? ==>
      var n := Least(e.val) + TakeLow(rest, Extra(e.val)).value;
      ReadItem(bl, bits, have, total) ==
        if (e.val == 16 && have == []) || |have| + n > total then Bad
        else ZBits.Val(have + Copies(if e.val == 16 then have[|have|-1] else 0, n), TakeLow(rest, Extra(e.val)).rest)
  {
    hide EntryRead, TakeLow;
  }

  /** Makes sure of the extra bits, and uses up the symbol itself. */
  method NeedExtra(src: Source, here: nat, extra: nat) returns (ok: bool)
    requires src.Valid() && src.later == [] && 1 <= here <= 15 && extra <= 7 && here <= src.bits < here + 8
    modifies src`next, src`hold, src`bits
    ensures src.Valid() && src.later == [] && here <= |old(src.Ahead())|
    ensures if ok then src.Ahead() == old(src.Ahead())[here..] && extra <= src.bits < extra + 8
      else TakeLow(old(src.Ahead())[here..], extra).Short?
  {
    hide TakeLow, Source.Acc;
    ghost var bits := src.Ahead();
    ok := src.NeedBits(here + extra);
    if !ok {
      src.AheadSize();
      TooFew(bits[here..], extra);
      return;
    }
    src.DropBits(here);
  }

  /** A repeat symbol: the extra bits, and the lengths they stand for. */
  method ReadRepeat(src: Source, here: Entry, lens: array<int>, have: nat, total: nat, ghost bl: seq<int>)
    returns (st: Status, n: nat)
    requires src.Valid() && src.later == [] && |bl| <= BL_CODES && have < total <= lens.Length && 16 <= here.val <= 18
    requires 1 <= here.bits <= 15 && here.bits <= src.bits < here.bits + 8
    requires EntryRead(bl, CODES, src.Ahead()) == ZBits.Val(here, src.Ahead()[here.bits..])
    modifies src`next, src`hold, src`bits, lens
    ensures src.Valid() && src.later == []
    ensures match st
      case Done => src.bits < 8 && have < n <= total && lens[..have] == old(lens[..have])
        && ReadItem(bl, old(src.Ahead()), old(lens[..have]), total) == ZBits.Val(lens[..n], src.Ahead())
        && forall i :: have <= i < n ==> lens[i] == 0 || (have > 0 && lens[i] == lens[have - 1])
      case NeedInput => ReadItem(bl, old(src.Ahead()), old(lens[..have]), total).Short?
      case _ => ReadItem(bl, old(src.Ahead()), old(lens[..have]), total).Bad?
  {
    hide EntryRead, TakeLow, ReadItem, Source.Ahead, Source.Acc, Copies;
    ghost var bits, got: seq<int> := src.Ahead(), lens[..have];
    n := have;
    ItemIsRepeat(bl, bits, got, total, here, bits[here.bits..]);
    var ok := NeedExtra(src, here.bits, Extra(here.val));
    if !ok {
      return NeedInput, have;
    }
    if here.val == 16 && have == 0 {
      MoreThere(src.Ahead(), Extra(here.val));
      return Invalid, have;
    }
    var len := if here.val == 16 then lens[have - 1] else 0;
    var copy := TakeKnown(src, Extra(here.val));
    copy := Least(here.val) + copy;
    if have + copy > total {
      return Invalid, have;
    }
    Repeated(lens, have, copy, len);
    n := have + copy;
    st := Done;
  }

  lemma MoreThere(bits: seq<bool>, n: nat)
    requires |bits| >= n
    ensures TakeLow(bits, n).Val?
  {
  }

  method Repeated(lens: array<int>, have: nat, copy: nat, len: int)
    requires have + copy <= lens.Length
    modifies lens
    ensures lens[..have + copy] == old(lens[..have]) + Copies(len, copy)
    ensures lens[..have] == old(lens[..have]) && forall i :: have <= i < have + copy ==> lens[i] == len
  {
    var i := 0;
    while i < copy
      invariant 0 <= i <= copy && lens[..have] == old(lens[..have])
      invariant forall k :: have <= k < have + i ==> lens[k] == len
      modifies lens
    {
      lens[have + i] := len;
      i := i + 1;
    }
  }

  /** The lengths of both codes, symbol by symbol. */
  method ReadCodeLens(src: Source, t: seq<Entry>, root: nat, lens: array<int>, total: nat, ghost bl: seq<int>)
    returns (st: Status)
    requires src.Valid() && src.later == [] && src.bits < 8 && total <= lens.Length && |bl| <= BL_CODES
    requires Decodes(t, 0, root, bl, CODES) && forall s :: Uses(bl, s) ==> bl[s] <= root
    modifies src`next, src`hold, src`bits, lens
    ensures src.Valid() && src.later == []
    ensures match st
      case Done => ReadLens(bl, old(src.Ahead()), [], total) == ZBits.Val(lens[..total], src.Ahead()) && src.bits < 8
        && IsLens(lens[..total])
      case NeedInput => ReadLens(bl, old(src.Ahead()), [], total).Short?
      case Invalid => ReadLens(bl, old(src.Ahead()), [], total).Bad?
  {
    hide EntryRead, ReadItem, ReadLens, Decodes, Settled, Shape, Source.Ahead, Source.Acc, Copies;
    ghost var bits := src.Ahead();
    var have := 0;
    assert lens[..0] == [];
    while have < total
      invariant 0 <= have <= total && src.Valid() && src.later == [] && src.bits < 8 && IsLens(lens[..have])
      invariant ReadLens(bl, bits, [], total) == ReadLens(bl, src.Ahead(), lens[..have], total)
      modifies src`next, src`hold, src`bits, lens
    {
      ghost var before, got: seq<int> := src.Ahead(), lens[..have];
      LensNext(bl, before, got, total);
      FewSettled(bl, src);
      var ok, here := src.PeekCode(t, 0, root, bl);
      if !ok {
        src.NothingElse();
        ItemIsShort(bl, before, got, total);
        return NeedInput;
      }
      CodeShape(here);
      if here.val < 16 {
        ItemIsOne(bl, before, got, total, here, before[here.bits..]);
        src.DropBits(here.bits);
        lens[have] := here.val;
        have := have + 1;
        assert lens[..have] == got + [here.val];
      } else {
        var n;
        st, n := ReadRepeat(src, here, lens, have, total, bl);
        if st != Done {
          return;
        }
        StillLens(got, lens[..n], have);
        have := n;
      }
    }
    LensDone(bl, src.Ahead(), lens[..have], total);
    st := Done;
  }

  lemma FewSettled(bl: seq<int>, src: Source)
    requires src.Valid() && src.bits < 8 && |bl| <= BL_CODES
    ensures Settled(bl, CODES, src.Acc())
  {
    hide EntryRead, BitsOf;
  }

  lemma CodeShape(e: Entry)
    requires Shape(CODES, e)
    ensures 0 <= e.val <= 18
  {
  }

  lemma StillLens(got: seq<int>, now: seq<int>, have: nat)
    requires IsLens(got) && |got| == have <= |now| && now[..have] == got
    requires forall i :: have <= i < |now| ==> now[i] == 0 || (have > 0 && now[i] == now[have - 1])
    ensures IsLens(now)
  {
    forall i | 0 <= i < |now|
      ensures 0 <= now[i] <= MAXBITS
    {
      if i < have {
        assert now[i] == got[i];
      } else if have > 0 {
        assert now[have - 1] == got[have - 1];
      }
    }
  }

  // ---------- tables ----------

  const ENOUGH := ENOUGH_LENS + ENOUGH_DISTS

  lemma RootRange(lens: seq<int>, bits: nat, root: nat)
    requires IsLens(lens) && IsRoot(lens, bits, root)
    ensures 1 <= root <= MAXBITS
  {
  }

  lemma SmallRoot(bl: seq<int>, root: nat)
    requires IsRoot(bl, 7, root) && forall s :: 0 <= s < |bl| ==> 0 <= bl[s] <= 7
    ensures forall s :: Uses(bl, s) ==> bl[s] <= root
  {
  }

  /** A table that has been built decodes its code, and goes on doing so whatever is put behind it. */
  lemma BuiltDecodes(t: seq<Entry>, u: seq<Entry>, tbl: nat, root: nat, lens: seq<int>, kind: Kind, bits: nat)
    requires Tabled(t, tbl, root, lens, kind) && !Rejected(kind, lens) && IsRoot(lens, bits, root) && IsLens(lens)
    requires t <= u
    ensures Decodes(u, tbl, root, lens, kind)
  {
    hide Tabled, Rejected, IsRoot;
    RootRange(lens, bits, root);
    TabledMore(t, u, tbl, root, lens, kind);
  }

  /** The tables of both codes, one behind the other. */
  method BuildBoth(lens: seq<int>, nlen: nat, ndist: nat, codes: array<Entry>, work: array<int>)
    returns (st: Status, lenBits: nat, distCode: nat, distBits: nat)
    requires IsLens(lens) && |lens| == nlen + ndist && 257 <= nlen <= L_CODES && 1 <= ndist <= D_CODES && lens[256] != 0
    requires codes.Length == ENOUGH && work.Length >= 288
    modifies codes, work
    ensures st != NeedInput
    ensures st == Done ==> Usable(Codes(lens[..nlen], lens[nlen..]))
    ensures st == Done ==> Decodes(codes[..], 0, lenBits, lens[..nlen], LENS)
    ensures st == Done ==> Decodes(codes[..], distCode, distBits, lens[nlen..], DISTS)
    ensures st == Invalid ==> !Usable(Codes(lens[..nlen], lens[nlen..]))
  {
    hide Tabled, Rejected, IsRoot, Decodes, UsedKraft;
    var ret, used, root := Build(LENS, lens[..nlen], codes, 0, 9, work);
    lenBits, distCode, distBits := root, 0, 0;
    if ret != 0 {
      return Invalid, lenBits, distCode, distBits;
    }
    ghost var t: seq<Entry> := codes[..0 + used];
    distCode := used;
    ret, used, root := Build(DISTS, lens[nlen..], codes, distCode, 6, work);
    distBits := root;
    if ret != 0 {
      return Invalid, lenBits, distCode, distBits;
    }
    assert t == codes[..distCode] && t <= codes[..] && codes[..distCode + used] <= codes[..];
    BuiltDecodes(t, codes[..], 0, lenBits, lens[..nlen], LENS, 9);
    BuiltDecodes(codes[..distCode + used], codes[..], distCode, distBits, lens[nlen..], DISTS, 6);
    st := Done;
  }

  // ---------- the whole header ----------

  lemma HeaderIs(bits: seq<bool>)
    ensures ReadCounts(bits).Short? ==> ReadHeader(bits).Short?
    ensures ReadCounts(bits).Bad? ==> ReadHeader(bits).Bad?
    ensures ReadCounts(bits).Val? ==>
      var k := ReadCounts(bits).value;
      var order := ReadOrder(ReadCounts(bits).rest, NoLens(), 0, k.ncode);
      (order.Short? ==> ReadHeader(bits).Short?)
      && (order.Val? ==> ReadHeader(bits) == ReadCodes(order.value, order.rest, k.nlen, k.ndist))
  {
    hide ReadCounts, ReadOrder, ReadCodes;
  }

  lemma CodesAre(bl: seq<int>, bits: seq<bool>, nlen: nat, ndist: nat)
    requires |bl| == BL_CODES
    ensures Rejected(CODES, bl) ==> ReadCodes(bl, bits, nlen, ndist).Bad?
    ensures !Rejected(CODES, bl) ==>
      var all := ReadLens(bl, bits, [], nlen + ndist);
      (all.Short? ==> ReadCodes(bl, bits, nlen, ndist).Short?) && (all.Bad? ==> ReadCodes(bl, bits, nlen, ndist).Bad?)
      && (all.Val? && |all.value| == nlen + ndist ==>
            ReadCodes(bl, bits, nlen, ndist) ==
              if Usable(Codes(all.value[..nlen], all.value[nlen..]))
              then ZBits.Val(Codes(all.value[..nlen], all.value[nlen..]), all.rest)
              else Bad)
  {
    hide Rejected, ReadLens, Usable;
  }

  /** What a block's codes are, and the tables for them. */
  datatype Header = Header(codes: Codes, lenBits: nat, distCode: nat, distBits: nat)

  /** CODELENS and the tables, when the bit length code is known. */
  method ReadBothCodes(src: Source, bl: seq<int>, nlen: nat, ndist: nat, codes: array<Entry>, work: array<int>,
                       lens: array<int>)
    returns (st: Status, h: Header)
    requires src.Valid() && src.later == [] && src.bits < 8 && codes.Length == ENOUGH && work.Length >= 288
    requires lens.Length >= 320
    requires work != lens && |bl| == BL_CODES && (forall s :: 0 <= s < BL_CODES ==> 0 <= bl[s] <= 7)
    requires 257 <= nlen <= L_CODES && 1 <= ndist <= D_CODES
    modifies src`next, src`hold, src`bits, codes, work, lens
    ensures src.Valid() && src.later == []
    ensures match st
      case Done => ReadCodes(bl, old(src.Ahead()), nlen, ndist) == ZBits.Val(h.codes, src.Ahead())
        && Usable(h.codes) && src.bits < 8
        && Decodes(codes[..], 0, h.lenBits, h.codes.ll, LENS) &&
           Decodes(codes[..], h.distCode, h.distBits, h.codes.dl, DISTS)
      case NeedInput => ReadCodes(bl, old(src.Ahead()), nlen, ndist).Short?
      case Invalid => ReadCodes(bl, old(src.Ahead()), nlen, ndist).Bad?
  {
    hide ReadLens, ReadCodes, Tabled, Rejected, IsRoot, Decodes, Usable, UsedKraft, Source.Ahead, Source.Acc;
    ghost var bits := src.Ahead();
    h := Header(Codes([], []), 0, 0, 0);
    CodesAre(bl, bits, nlen, ndist);
    BlSpace();
    var ret, used, root := Build(CODES, bl, codes, 0, 7, work);
    if ret != 0 {
      return Invalid, h;
    }
    assert codes[..0 + used] <= codes[..];
    BuiltDecodes(codes[..0 + used], codes[..], 0, root, bl, CODES, 7);
    SmallRoot(bl, root);
    st := ReadCodeLens(src, codes[..], root, lens, nlen + ndist, bl);
    if st != Done {
      return;
    }
    var all: seq<int> := lens[..nlen + ndist];
    if all[256] == 0 {
      NoEnd(all, nlen);
      return Invalid, h;
    }
    var lenBits, distCode, distBits;
    st, lenBits, distCode, distBits := BuildBoth(all, nlen, ndist, codes, work);
    h := Header(Codes(all[..nlen], all[nlen..]), lenBits, distCode, distBits);
  }

  lemma BlSpace()
    ensures Space(CODES, 7) == 128
  {
    assert Pow2(7) == 128 by {
      assert Pow2(4) == 16;
    }
  }

  lemma NoEnd(all: seq<int>, nlen: nat)
    requires 257 <= nlen <= |all| && all[256] == 0
    ensures !Usable(Codes(all[..nlen], all[nlen..]))
  {
  }

  /** TABLE to CODELENS: inflate reads the header that the bits spell, and has tables for its codes. */
  method ReadDynamic(src: Source, codes: array<Entry>, work: array<int>, lens: array<int>)
    returns (st: Status, h: Header)
    requires src.Valid() && src.later == [] && src.bits < 8 && codes.Length == ENOUGH && work.Length >= 288
    requires lens.Length >= 320
    requires work != lens
    modifies src`next, src`hold, src`bits, codes, work, lens
    ensures src.Valid() && src.later == []
    ensures match st
      case Done => ReadHeader(old(src.Ahead())) == ZBits.Val(h.codes, src.Ahead()) && Usable(h.codes) && src.bits < 8
        && Decodes(codes[..], 0, h.lenBits, h.codes.ll, LENS) &&
           Decodes(codes[..], h.distCode, h.distBits, h.codes.dl, DISTS)
      case NeedInput => ReadHeader(old(src.Ahead())).Short?
      case Invalid => ReadHeader(old(src.Ahead())).Bad?
  {
    hide ReadCounts, ReadOrder, ReadHeader, ReadCodes, Decodes, Usable, Source.Ahead, Source.Acc;
    HeaderIs(src.Ahead());
    h := Header(Codes([], []), 0, 0, 0);
    var k;
    st, k := ReadTable(src);
    if st != Done {
      return;
    }
    var ok := ReadLenLens(src, lens, k.ncode);
    if !ok {
      return NeedInput, h;
    }
    st, h := ReadBothCodes(src, lens[..BL_CODES], k.nlen, k.ndist, codes, work, lens);
  }
}

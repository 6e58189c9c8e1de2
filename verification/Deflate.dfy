/** deflate's matcher: the sliding window, its dictionary, and the compression functions that turn input bytes into
    literals and matches. */
module Deflate {
  import opened Bits
  import opened BitIO
  import opened HashChain
  import opened Lz77

  const TOO_FAR := 4096

  datatype Flush = NoFlush | OtherFlush | Finish

  /** How a turn of a compression function's loop ends: with another turn, with a return, or by leaving the loop. */
  datatype Turn = Again | Leave | Stop

  datatype BlockState = NeedMore | BlockDone | FinishStarted | FinishDone

  /** The tuning of a compression level. */
  datatype Config = Config(good: nat, lazy: nat, nice: nat, chain: nat)

  function MaxDist(d: Dims): int {
    d.w - MIN_LOOKAHEAD
  }

  predicate IsByte(c: int) { 0 <= c < 256 }

  predicate AreBytes(s: seq<int>) {
    forall i :: 0 <= i < |s| ==> IsByte(s[i])
  }

  /** The len bytes at pos repeat those at from. */
  ghost predicate MatchAt(input: seq<int>, pos: int, from: int, len: int) {
    && 0 <= from < pos && 0 <= len && pos + len <= |input|
    && forall i :: pos <= i < pos + len ==> input[i] == input[i - (pos - from)]
  }

  /** A buffered pair: a distance with a length, or no distance with a byte. */
  function TokenOf(dist: int, lc: int): Token {
    if dist == 0 then Lit(lc) else Match(dist, lc + MIN_MATCH)
  }

  function Buffered(dists: seq<int>, lcs: seq<int>, n: nat): (r: seq<Token>)
    requires n <= |dists| && n <= |lcs|
    ensures |r| == n
  {
    seq(n, i requires 0 <= i < n => TokenOf(dists[i], lcs[i]))
  }

  /** A block as it goes to the trees. */
  datatype Block = Block(tokens: seq<Token>, last: bool, text: Text)

  function TokensOf(blocks: seq<Block>): seq<Token> {
    if blocks == [] then [] else TokensOf(blocks[..|blocks|-1]) + blocks[|blocks|-1].tokens
  }

  predicate NoneLast(blocks: seq<Block>) {
    forall i :: 0 <= i < |blocks| ==> !blocks[i].last
  }

  /** The text that comes with a block, if any, is what the block adds; it is short enough for a stored block. */
  ghost predicate TextFits(blocks: seq<Block>, i: nat, cap: nat)
    requires i < |blocks|
  {
    && |blocks[i].tokens| < cap
    && (blocks[i].text.Kept? ==>
          AreBytes(blocks[i].text.bytes) && |blocks[i].text.bytes| < 0x1_0000
          && Expand(TokensOf(blocks[..i + 1])) == Expand(TokensOf(blocks[..i])) + blocks[i].text.bytes)
  }

  ghost predicate AllTexts(blocks: seq<Block>, cap: nat) {
    forall i :: 0 <= i < |blocks| ==> TextFits(blocks, i, cap)
  }

  predicate AllLits(tokens: seq<Token>) {
    forall i :: 0 <= i < |tokens| ==> tokens[i].Lit?
  }

  predicate LitBlocks(blocks: seq<Block>) {
    forall i :: 0 <= i < |blocks| ==> AllLits(blocks[i].tokens)
  }

  /** Tokens that add one byte each are literals; they never add less. */
  lemma {:induction false} OneEach(a: seq<Token>, b: seq<Token>, m: int)
    requires AllLegal(a + b, m)
    ensures |Expand(a + b)| >= |Expand(a)| + |b|
    ensures |Expand(a + b)| == |Expand(a)| + |b| ==> AllLits(b)
    decreases |b|
  {
    hide Expand;
    if b == [] {
      assert a + b == a;
    } else {
      var u, t := b[..|b|-1], b[|b|-1];
      assert a + b == (a + u) + [t];
      ExpandAppend(a + u, t);
      OneEach(a, u, m);
    }
  }

  lemma TextsAppend(blocks: seq<Block>, b: Block, cap: nat)
    requires AllTexts(blocks, cap) && |b.tokens| < cap
    requires b.text.Kept? ==> AreBytes(b.text.bytes) && |b.text.bytes| < 0x1_0000
    requires b.text.Kept? ==> Expand(TokensOf(blocks) + b.tokens) == Expand(TokensOf(blocks)) + b.text.bytes
    ensures AllTexts(blocks + [b], cap)
  {
    hide Expand, TokensOf, AreBytes;
    var all := blocks + [b];
    forall i | 0 <= i < |all|
      ensures TextFits(all, i, cap)
    {
      if i < |blocks| {
        assert TextFits(blocks, i, cap);
        assert all[..i + 1] == blocks[..i + 1] && all[..i] == blocks[..i];
      } else {
        TokensAppend(blocks, b);
        assert all[..i + 1] == all && all[..i] == blocks;
      }
    }
  }

  lemma TokensAppend(blocks: seq<Block>, b: Block)
    ensures TokensOf(blocks + [b]) == TokensOf(blocks) + b.tokens
  {
    assert (blocks + [b])[..|blocks|] == blocks;
  }

  lemma BufferedNext(dists: seq<int>, lcs: seq<int>, n: nat, dist: int, lc: int)
    requires n < |dists| && n < |lcs|
    ensures Buffered(dists[n := dist], lcs[n := lc], n + 1) == Buffered(dists, lcs, n) + [TokenOf(dist, lc)]
  {
  }

  lemma MatchLater(input: seq<int>, later: seq<int>, pos: int, from: int, len: int)
    requires MatchAt(input, pos, from, len) && input <= later
    ensures MatchAt(later, pos, from, len)
  {
  }

  /** The window holds the input from base on. */
  ghost predicate Holds(window: seq<int>, input: seq<int>, base: nat, n: nat) {
    && n <= |window| && base + n == |input|
    && (forall i :: 0 <= i < n ==> window[i] == input[base + i]) && AreBytes(input)
  }

  ghost predicate Same(s: seq<int>, a: int, b: int, len: int) {
    0 <= a && 0 <= b && 0 <= len && a + len <= |s| && b + len <= |s| && s[a..a + len] == s[b..b + len]
  }

  lemma SameOneMore(s: seq<int>, a: int, b: int, len: int)
    requires Same(s, a, b, len) && a + len < |s| && b + len < |s| && s[a + len] == s[b + len]
    ensures Same(s, a, b, len + 1)
  {
    assert s[a..a + len + 1] == s[a..a + len] + [s[a + len]];
    assert s[b..b + len + 1] == s[b..b + len] + [s[b + len]];
  }

  lemma SameLess(s: seq<int>, a: int, b: int, len: int, n: int)
    requires Same(s, a, b, len) && 0 <= n <= len
    ensures Same(s, a, b, n)
  {
    assert s[a..a + n] == s[a..a + len][..n];
    assert s[b..b + n] == s[b..b + len][..n];
  }

  lemma SameThree(s: seq<int>, a: int, b: int)
    requires 0 <= a && 0 <= b && a + 2 < |s| && b + 2 < |s| && s[a] == s[b] && s[a + 1] == s[b + 1]
    requires s[a + 2] == s[b + 2]
    ensures Same(s, a, b, 3)
  {
  }

  class Deflater {
    const d: Dims
    const config: Config
    const filtered: bool
    const window: array<int>
    const prev: array<int>
    const head: array<int>
    const dBuf: array<int>
    const lBuf: array<int>
    var insH: seq<bool>
    var strstart: nat
    var lookahead: nat
    var blockStart: int
    var matchLength: nat
    var matchStart: int
    var prevLength: nat
    var prevMatch: int
    var matchAvailable: bool
    var insert: nat
    var lastLit: nat
    var availIn: seq<int>
    ghost var input: seq<int>
    ghost var base: nat
    ghost var ins: set<int>
    var flushed: seq<Block>

    ghost predicate Shape() {
      && IsDims(d) && config.chain >= 4
      && window.Length == 2 * d.w && prev.Length == d.w && head.Length == Pow2(d.bits)
      && window != prev && window != head && prev != head
      && 3 <= dBuf.Length == lBuf.Length <= 0x8000 && dBuf != lBuf
      && {dBuf, lBuf} !! {window, prev, head}
    }

    /** The window holds what has been read, up to the end of the lookahead. */
    ghost predicate Window()
      reads `strstart, `lookahead, `input, `base, window
    {
      strstart + lookahead <= window.Length && Holds(window[..], input, base, strstart + lookahead)
    }

    ghost predicate Dictionary()
      reads `strstart, `input, `base, `ins, `insert, head, prev
    {
      Chains(d, head[..], prev[..], input, base, base + strstart, ins) && insert <= strstart && insert < MIN_MATCH
    }

    /** If there are three bytes ahead, the running key is that of the next two. */
    ghost predicate Ready()
      reads `strstart, `lookahead, `insH, window
    {
      lookahead >= MIN_MATCH ==> KeyReady(strstart)
    }

    /** lm_init: nothing read, an empty dictionary. */
    constructor (d: Dims, config: Config, filtered: bool, litBufsize: nat)
      requires IsDims(d) && config.chain >= 4 && 3 <= litBufsize <= 0x8000
      ensures Shape() && Window() && Dictionary() && Tallied(0) && Ready() && lastLit == 0 && strstart == 0 && base == 0
      ensures dBuf.Length == litBufsize && flushed == []
      ensures matchLength == prevLength == MIN_MATCH - 1 && !matchAvailable && blockStart == 0
      ensures fresh(window) && fresh(prev) && fresh(head) && fresh(dBuf) && fresh(lBuf)
      ensures input == [] && availIn == [] && this.d == d && lookahead == 0 && flushed == []
    {
      hide Pow2, Window, Dictionary, Tallied, Ready, MatchAt;
      this.d := d;
      this.config := config;
      this.filtered := filtered;
      window := new int[2 * d.w](i => 0);
      prev := new int[d.w](i => 0);
      head := new int[Pow2(d.bits)](i => 0);
      dBuf := new int[litBufsize](i => 0);
      lBuf := new int[litBufsize](i => 0);
      insH := ByteKey(d.bits, 0);
      strstart, lookahead, blockStart, insert := 0, 0, 0, 0;
      matchLength, prevLength, matchAvailable := MIN_MATCH - 1, MIN_MATCH - 1, false;
      matchStart, prevMatch := 0, 0;
      lastLit, availIn, flushed := 0, [], [];
      input, base, ins := [], 0, {};
      new;
      Fresh();
    }

    /** The parts of the initial state. */
    lemma Fresh()
      requires Shape() && input == [] && base == 0 && strstart == 0 && lookahead == 0 && insert == 0 && flushed == []
      requires lastLit == 0
      requires blockStart == 0
      requires ins == {} && (forall k :: 0 <= k < head.Length ==> head[k] == 0)
      ensures Window() && Dictionary() && Tallied(0) && Ready()
    {
      hide KeyAt, Pow2;
    }

    // ---------- searching ----------

    /** How many bytes at the two window positions are equal, given that the first three are. */
    method Compare(scan: nat, cand: nat) returns (len: nat)
      requires cand < scan && scan + MAX_MATCH < window.Length
      requires Same(window[..], cand, scan, 3)
      ensures 3 <= len <= MAX_MATCH && Same(window[..], cand, scan, len)
      ensures len < MAX_MATCH ==> window[cand + len] != window[scan + len]
    {
      len := 3;
      while len < MAX_MATCH && window[cand + len] == window[scan + len]
        invariant 3 <= len <= MAX_MATCH && Same(window[..], cand, scan, len)
      {
        SameOneMore(window[..], cand, scan, len);
        len := len + 1;
      }
    }

    /** A position that may be searched: in the dictionary, with the key of the current string, not too far back. */
    ghost predicate Candidate(cur: int, known: set<int>)
      reads `strstart, `input, `base
    {
      && 0 < cur < strstart && strstart - cur <= MaxDist(d) && base + cur in known
      && base + strstart + 2 < |input| && KeyAt(d, input, base + cur) == KeyAt(d, input, base + strstart)
    }

    /** Length of the match at a candidate; zero if it cannot be longer than bestLen. */
    method Probe(cur: int, bestLen: nat, scanEnd1: int, scanEnd: int, ghost known: set<int>) returns (len: nat)
      requires Shape() && Window() && strstart + MIN_LOOKAHEAD <= window.Length && lookahead >= MIN_MATCH
      requires Candidate(cur, known) && 1 <= bestLen <= MAX_MATCH
      ensures len <= MAX_MATCH && (len > 0 ==> Same(window[..], cur, strstart, len))
    {
      hide KeyAt, Pow2, AreBytes, Candidate, Window, Same;
      InWindow(cur, known);
      if window[cur + bestLen] != scanEnd || window[cur + bestLen - 1] != scanEnd1
          || window[cur] != window[strstart] || window[cur + 1] != window[strstart + 1] {
        return 0;
      }
      ThirdEqual(cur, known);
      SameThree(window[..], cur, strstart);
      len := Compare(strstart, cur);
    }

    /** Follows the chain; a match longer than bestLen0 is left in matchStart. */
    method Search(curMatch: int, chainLength0: nat, niceMatch: nat, bestLen0: nat, ghost known: set<int>)
      returns (bestLen: nat)
      requires Shape() && Window() && strstart + MIN_LOOKAHEAD <= window.Length && lookahead >= MIN_MATCH
      requires Searchable(d, prev[..], input, base, base + strstart, known)
      requires 2 <= bestLen0 <= MAX_MATCH && Candidate(curMatch, known) && chainLength0 >= 1
      modifies `matchStart
      ensures bestLen0 <= bestLen <= MAX_MATCH
      ensures bestLen > bestLen0 ==>
        0 < matchStart < strstart && strstart - matchStart <= MaxDist(d) &&
            Same(window[..], matchStart, strstart, bestLen)
    {
      hide Searchable, KeyAt, Pow2, AreBytes, Candidate, Window, Same;
      InWindow(curMatch, known);
      var chainLength := chainLength0;
      var cur := curMatch;
      bestLen := bestLen0;
      var limit := if strstart > MaxDist(d) then strstart - MaxDist(d) else 0;
      var scanEnd1 := window[strstart + bestLen - 1];
      var scanEnd := window[strstart + bestLen];
      while true
        invariant chainLength >= 1 && Candidate(cur, known) && 0 < cur < strstart && strstart - cur <= MaxDist(d)
        invariant bestLen0 <= bestLen <= MAX_MATCH
        invariant bestLen > bestLen0 ==>
          0 < matchStart < strstart && strstart - matchStart <= MaxDist(d) &&
              Same(window[..], matchStart, strstart, bestLen)
        decreases chainLength
        modifies `matchStart
      {
        var len := Probe(cur, bestLen, scanEnd1, scanEnd, known);
        if len > bestLen {
          matchStart := cur;
          bestLen := len;
          if len >= niceMatch {
            break;
          }
          scanEnd1 := window[strstart + bestLen - 1];
          scanEnd := window[strstart + bestLen];
        }
        NextCandidate(cur, known);
        cur := prev[cur % d.w];
        chainLength := chainLength - 1;
        if cur <= limit || chainLength == 0 {
          break;
        }
      }
    }

    /** The longest match for the current string that beats prevLength; its position goes to matchStart. */
    method LongestMatch(curMatch: int, ghost known: set<int>) returns (r: nat)
      requires Shape() && Window() && strstart + MIN_LOOKAHEAD <= window.Length && lookahead >= MIN_MATCH
      requires Searchable(d, prev[..], input, base, base + strstart, known)
      requires 2 <= prevLength <= MAX_MATCH && Candidate(curMatch, known)
      modifies `matchStart
      ensures 2 <= r <= lookahead && r <= MAX_MATCH
      ensures r > prevLength ==>
        MatchAt(input, base + strstart, base + matchStart, r) && 0 < matchStart < strstart &&
            strstart - matchStart <= MaxDist(d)
    {
      hide Searchable, Candidate, Window, Same, MatchAt;
      var chainLength := config.chain;
      var niceMatch := config.nice;
      if prevLength >= config.good {
        chainLength := chainLength / 4;
      }
      if niceMatch > lookahead {
        niceMatch := lookahead;
      }
      var bestLen := Search(curMatch, chainLength, niceMatch, prevLength, known);
      r := if bestLen <= lookahead then bestLen else lookahead;
      if bestLen > prevLength {
        SameLess(window[..], matchStart, strstart, bestLen, r);
        MatchInInput(matchStart, r);
      }
    }

    lemma ThirdEqual(cur: int, known: set<int>)
      requires Shape() && Window() && lookahead >= MIN_MATCH && Candidate(cur, known)
      requires window[cur] == window[strstart] && window[cur + 1] == window[strstart + 1]
      ensures window[cur + 2] == window[strstart + 2]
    {
      hide Key3;
      var p, q := base + cur, base + strstart;
      assert input[p] == input[q] && input[p + 1] == input[q + 1];
      var x, y := Key3(d.bits, d.shift, input[p], input[p + 1], input[p + 2]),
          Key3(d.bits, d.shift, input[q], input[q + 1], input[q + 2]);
      ValueInjective(x, y);
      assert IsByte(input[p + 2]) && IsByte(input[q + 2]);
      ThirdByte(d.bits, d.shift, input[p], input[p + 1], input[p + 2], input[q + 2]);
    }

    /** The chain goes on to another candidate, or ends. */
    lemma NextCandidate(cur: int, known: set<int>)
      requires Shape() && Candidate(cur, known) && Searchable(d, prev[..], input, base, base + strstart, known)
      ensures 0 <= cur % d.w < prev.Length
      ensures var q := prev[cur % d.w];
        q > (if strstart > MaxDist(d) then strstart - MaxDist(d) else 0) ==>
          Candidate(q, known) && 0 < q < strstart && strstart - q <= MaxDist(d)
    {
      hide KeyAt;
      assert LinkedOn(d, prev[..], input, base, known, base + cur);
    }

    lemma InWindow(cur: int, known: set<int>)
      requires Candidate(cur, known)
      ensures 0 < cur < strstart && strstart - cur <= MaxDist(d)
    {
    }

    /** What is equal in the window is equal in the input. */
    lemma MatchInInput(from: int, len: nat)
      requires Window() && 0 <= from < strstart && len <= lookahead && strstart + len <= window.Length
      requires Same(window[..], from, strstart, len)
      ensures MatchAt(input, base + strstart, base + from, len)
    {
      forall i | base + strstart <= i < base + strstart + len
        ensures input[i] == input[i - (strstart - from)]
      {
        var k := i - base - strstart;
        assert window[..][from..from + len][k] == window[..][strstart..strstart + len][k];
      }
    }

    // ---------- the dictionary ----------

    /** The running key is that of the two bytes at str. */
    ghost predicate KeyReady(str: nat)
      reads `insH, window
    {
      str + 1 < window.Length && Rolled(insH, d.bits, d.shift, window[str], window[str + 1])
    }

    /** INSERT_STRING: enters position str and returns the position that had its key before. */
    method InsertString(str: nat, ghost n: nat, ghost pos: int, ghost pos': int) returns (matchHead: int)
      requires Shape() && Holds(window[..], input, base, n) && str + 2 < n && KeyReady(str)
      requires Chains(d, head[..], prev[..], input, base, pos, ins) && base + str < pos' && pos' - d.w <= base + str
      requires pos <= pos'
      modifies `insH, `ins, head, prev
      ensures Chains(d, head[..], prev[..], input, base, pos', ins) && KeyReady(str + 1)
      ensures base + str + 2 < |input| && Links(d, input, base, old(ins), matchHead, KeyAt(d, input, base + str))
      ensures pos == base + str ==> Searchable(d, prev[..], input, base, pos, old(ins))
    {
      hide Chains, KeyAt, Pow2, UpdateHash, Rolled, Searchable, Links, Value;
      ghost var h: seq<int>, p: seq<int> := head[..], prev[..];
      KeyOfString(str, n);
      insH := UpdateHash(insH, d.shift, window[str + 2]);
      var k := Value(insH);
      HeadLinks(d, h, p, input, base, pos, ins, k);
      InsertKeeps(d, h, p, input, base, pos, ins, base + str, pos');
      if pos == base + str {
        SearchAfterInsert(d, h, p, input, base, pos, ins, h[k]);
      }
      matchHead := head[k];
      prev[str % d.w] := matchHead;
      head[k] := str;
      assert prev[..] == p[str % d.w := h[k]];
      assert head[..] == h[k := str];
      if str > 0 {
        ins := ins + {base + str};
      }
    }

    lemma KeyOfString(str: nat, n: nat)
      requires Shape() && Holds(window[..], input, base, n) && str + 2 < n && KeyReady(str)
      ensures base + str + 2 < |input|
      ensures Value(UpdateHash(insH, d.shift, window[str + 2])) == KeyAt(d, input, base + str)
      ensures Rolled(UpdateHash(insH, d.shift, window[str + 2]), d.bits, d.shift, window[str + 1], window[str + 2])
      ensures KeyAt(d, input, base + str) < Pow2(d.bits)
    {
      hide UpdateHash, Key3, Pow2;
      RolledUpdate(insH, d.bits, d.shift, window[str], window[str + 1], window[str + 2]);
      assert window[..][str] == input[base + str] && window[..][str + 1] == input[base + str + 1] &&
          window[..][str + 2] == input[base + str + 2];
    }

    /** UPDATE_HASH from scratch: the key of the two bytes at str. */
    method StartKey(str: nat)
      requires Shape() && str + 1 < window.Length
      modifies `insH
      ensures KeyReady(str)
    {
      hide UpdateHash, Rolled, ByteBit;
      insH := ByteKey(d.bits, window[str]);
      RolledStart(insH, d.bits, d.shift, window[str], window[str + 1]);
      insH := UpdateHash(insH, d.shift, window[str + 1]);
    }

    /** Enters the strings that could not be entered for lack of bytes when the input ended last time. */
    method CatchUp()
      requires Shape() && Window() && insert <= strstart && lookahead + insert >= MIN_MATCH && insert < MIN_MATCH
      requires Chains(d, head[..], prev[..], input, base, base + strstart, ins)
      modifies `insH, `ins, `insert, head, prev
      ensures Dictionary() && Ready()
    {
      hide Chains, KeyAt, Pow2, UpdateHash, Rolled, Searchable, Links, Holds;
      var str := strstart - insert;
      WindowSize();
      StartKey(str);
      while insert > 0
        invariant str == strstart - insert && 0 <= insert <= old(insert) && lookahead + insert >= MIN_MATCH
        invariant KeyReady(str)
        invariant Chains(d, head[..], prev[..], input, base, base + strstart, ins)
        decreases insert
        modifies `insH, `ins, `insert, head, prev
      {
        var _ := InsertString(str, strstart + lookahead, base + strstart, base + strstart);
        str := str + 1;
        insert := insert - 1;
        if lookahead + insert < MIN_MATCH {
          break;
        }
      }
    }

    lemma WindowSize()
      requires Window()
      ensures strstart + lookahead <= window.Length && base + strstart + lookahead == |input|
    {
    }

    // ---------- filling the window ----------

    method SlideTable(a: array<int>)
      requires a != window
      modifies a
      ensures forall k :: 0 <= k < a.Length ==> a[k] == Slid(d.w, old(a[k]))
    {
      var n := a.Length;
      while n > 0
        invariant 0 <= n <= a.Length
        invariant forall k :: n <= k < a.Length ==> a[k] == Slid(d.w, old(a[k]))
        invariant forall k :: 0 <= k < n ==> a[k] == old(a[k])
      {
        n := n - 1;
        var m := a[n];
        a[n] := if m >= d.w then m - d.w else 0;
      }
    }

    method CopyDown()
      requires Shape()
      modifies window
      ensures forall i :: 0 <= i < d.w ==> window[i] == old(window[i + d.w])
    {
      var i := 0;
      while i < d.w
        invariant 0 <= i <= d.w
        invariant forall j :: 0 <= j < i ==> window[j] == old(window[j + d.w])
        invariant forall j :: d.w <= j < window.Length ==> window[j] == old(window[j])
      {
        window[i] := window[i + d.w];
        i := i + 1;
      }
    }

    /** Moves the upper half of the window to the lower one. */
    method Slide()
      requires Shape() && Window() && Dictionary() && strstart >= d.w + MaxDist(d)
      modifies `strstart, `matchStart, `blockStart, `base, window, head, prev
      ensures Window() && Dictionary() && (old(Ready()) ==> Ready()) && base == old(base) + d.w
      ensures strstart == old(strstart) - d.w
      ensures matchStart == old(matchStart) - d.w && blockStart == old(blockStart) - d.w
    {
      hide Chains, Pow2, Rolled, Slid;
      ghost var w0: seq<int>, h: seq<int>, p: seq<int> := window[..], head[..], prev[..];
      CopyDown();
      matchStart := matchStart - d.w;
      strstart := strstart - d.w;
      blockStart := blockStart - d.w;
      base := base + d.w;
      SlideTable(head);
      SlideTable(prev);
      SlideKeeps(d, h, p, head[..], prev[..], input, base - d.w, base + strstart, ins);
      SlidHolds(w0, window[..], input, base, strstart + lookahead);
      if lookahead >= MIN_MATCH {
        assert window[strstart] == w0[strstart + d.w] && window[strstart + 1] == w0[strstart + 1 + d.w];
      }
    }

    lemma SlidHolds(w0: seq<int>, w1: seq<int>, input: seq<int>, base: nat, n: nat)
      requires IsDims(d) && base >= d.w && Holds(w0, input, base - d.w, n + d.w) && |w0| == |w1| == 2 * d.w
      requires forall i :: 0 <= i < d.w ==> w1[i] == w0[i + d.w]
      ensures Holds(w1, input, base, n)
    {
      forall i | 0 <= i < n
        ensures w1[i] == input[base + i]
      {
        var j := i + d.w;
        assert w0[j] == input[base - d.w + j];
      }
    }

    /** Reads what there is, up to size bytes, behind the lookahead. */
    method ReadBuf(size: nat) returns (len: nat)
      requires Shape() && Window() && strstart + lookahead + size <= window.Length && AreBytes(availIn)
      modifies `availIn, `lookahead, `input, window
      ensures Window() && AreBytes(availIn) && len == (if |old(availIn)| < size then |old(availIn)| else size)
      ensures lookahead == old(lookahead) + len && availIn == old(availIn)[len..]
      ensures input == old(input) + old(availIn)[..len]
      ensures forall i :: 0 <= i < strstart + old(lookahead) ==> window[i] == old(window[i])
    {
      hide AreBytes;
      len := if |availIn| < size then |availIn| else size;
      var at := strstart + lookahead;
      var i := 0;
      while i < len
        invariant 0 <= i <= len
        invariant forall j :: 0 <= j < at ==> window[j] == old(window[j])
        invariant forall j :: 0 <= j < i ==> window[at + j] == availIn[j]
        modifies window
      {
        window[at + i] := availIn[i];
        i := i + 1;
      }
      ReadHolds(old(window[..]), window[..], input, base, at, availIn, len);
      input := input + availIn[..len];
      availIn := availIn[len..];
      lookahead := lookahead + len;
    }

    /** Refills the lookahead, moving the window when it is almost full. */
    method FillWindow()
      requires Shape() && Window() && Dictionary() && AreBytes(availIn) && lookahead < MIN_LOOKAHEAD
      modifies `strstart, `matchStart, `blockStart, `base, `availIn, `lookahead, `input, `insH, `ins, `insert, window,
               head, prev
      ensures Window() && Dictionary() && AreBytes(availIn) && strstart + MIN_LOOKAHEAD <= window.Length
      ensures (old(Ready()) ==> Ready()) && (strstart == old(strstart) || strstart >= MaxDist(d))
      ensures lookahead >= MIN_LOOKAHEAD || availIn == []
      ensures input + availIn == old(input + availIn) && old(input) <= input
      ensures lookahead + |availIn| == old(lookahead + |availIn|)
      ensures base + strstart == old(base + strstart) && base + matchStart == old(base + matchStart)
      ensures base + blockStart == old(base + blockStart)
      ensures lookahead >= old(lookahead)
    {
      hide Window, Dictionary, AreBytes, Ready;
      while true
        invariant Window() && Dictionary() && AreBytes(availIn) && lookahead < MIN_LOOKAHEAD
        invariant input + availIn == old(input + availIn) && old(input) <= input
        invariant lookahead + |availIn| == old(lookahead + |availIn|)
        invariant base + strstart == old(base + strstart) && base + matchStart == old(base + matchStart)
        invariant base + blockStart == old(base + blockStart)
        invariant lookahead >= old(lookahead) && (old(Ready()) ==> Ready())
        invariant (strstart == old(strstart) || strstart >= MaxDist(d))
        decreases |availIn|
      {
        WindowSize();
        var more := window.Length - lookahead - strstart;
        if strstart >= d.w + MaxDist(d) {
          Slide();
          more := more + d.w;
        }
        if |availIn| == 0 {
          break;
        }
        ghost var read, left := input, availIn;
        Refill(more);
        assert input + availIn == read + left;
        if lookahead >= MIN_LOOKAHEAD || |availIn| == 0 {
          break;
        }
      }
    }

    /** One read, after which the dictionary catches up. */
    method Refill(more: nat)
      requires Shape() && Window() && Dictionary() && AreBytes(availIn) && strstart + lookahead + more <= window.Length
      requires more >= 1 && availIn != []
      modifies `availIn, `lookahead, `input, `insH, `ins, `insert, window, head, prev
      ensures Window() && Dictionary() && AreBytes(availIn) && |availIn| < |old(availIn)| && (old(Ready()) ==> Ready())
      ensures exists n ::
        && 0 < n <= |old(availIn)| && input == old(input) + old(availIn)[..n]
        && availIn == old(availIn)[n..] && lookahead == old(lookahead) + n
    {
      hide Window, AreBytes, Chains, Rolled;
      ghost var read: seq<int>, left := input, availIn;
      var n := ReadBuf(more);
      ChainsLater(d, head[..], prev[..], read, left[..n], base, base + strstart, ins, base + strstart);
      if lookahead + insert >= MIN_MATCH {
        CatchUp();
      }
      assert input == read + left[..n] && availIn == left[n..];
    }

    lemma ReadHolds(w0: seq<int>, w1: seq<int>, input: seq<int>, base: nat, n: nat, more: seq<int>, len: nat)
      requires Holds(w0, input, base, n) && |w0| == |w1| && n + len <= |w1| && len <= |more| && AreBytes(more)
      requires forall j :: 0 <= j < n ==> w1[j] == w0[j]
      requires forall j :: 0 <= j < len ==> w1[n + j] == more[j]
      ensures Holds(w1, input + more[..len], base, n + len) && AreBytes(more[len..])
    {
      forall i | 0 <= i < n + len
        ensures w1[i] == (input + more[..len])[base + i]
      {
        if i >= n {
          var j := i - n;
          assert w1[n + j] == more[j];
        }
      }
    }

    // ---------- tallying ----------

    /** Everything tallied so far, in earlier blocks and in the buffers of this one. */
    ghost function Tokens(): seq<Token>
      requires lastLit <= dBuf.Length && lastLit <= lBuf.Length
      reads `flushed, `lastLit, dBuf, lBuf
    {
      TokensOf(flushed) + Buffered(dBuf[..], lBuf[..], lastLit)
    }

    /** The tokens stand for exactly the first n bytes of the input, and a decoder understands them. */
    ghost predicate Tallied(n: int)
      reads `flushed, `lastLit, `input, `base, `blockStart, dBuf, lBuf
    {
      && lastLit < dBuf.Length == lBuf.Length && 0 <= n <= |input| && NoneLast(flushed)
      && Expand(Tokens()) == input[..n] && AllLegal(Tokens(), d.w - MIN_LOOKAHEAD)
      && base + blockStart == |Expand(TokensOf(flushed))| && AllTexts(flushed, dBuf.Length)
    }

    /** The stream is complete: its blocks, of which only the final one is marked last, stand for the whole input. */
    ghost predicate Finished()
      reads `flushed, `input
    {
      && flushed != [] && flushed[|flushed| - 1].last && NoneLast(flushed[..|flushed| - 1])
      && Expand(TokensOf(flushed)) == input && AllLegal(TokensOf(flushed), d.w - MIN_LOOKAHEAD)
      && AllTexts(flushed, dBuf.Length)
    }

    method Tally(dist: int, lc: int) returns (bflush: bool)
      requires lastLit + 1 < dBuf.Length == lBuf.Length && dBuf != lBuf
      modifies `lastLit, dBuf, lBuf
      ensures lastLit == old(lastLit) + 1 && bflush == (lastLit == dBuf.Length - 1)
      ensures Tokens() == old(Tokens()) + [TokenOf(dist, lc)]
    {
      ghost var x: seq<int>, y: seq<int> := dBuf[..], lBuf[..];
      BufferedNext(x, y, lastLit, dist, lc);
      dBuf[lastLit] := dist;
      lBuf[lastLit] := lc;
      lastLit := lastLit + 1;
      assert dBuf[..] == x[lastLit - 1 := dist] && lBuf[..] == y[lastLit - 1 := lc];
      bflush := lastLit == dBuf.Length - 1;
    }

    method TallyLit(c: int, ghost n: nat) returns (bflush: bool)
      requires IsDims(d) && dBuf != lBuf && lastLit + 1 < dBuf.Length && Tallied(n) && n < |input| && c == input[n]
      requires IsByte(c)
      modifies `lastLit, dBuf, lBuf
      ensures Tallied(n + 1) && bflush == (lastLit == dBuf.Length - 1) && lastLit == old(lastLit) + 1
    {
      hide Expand, AllLegal;
      TokenExtends(Tokens(), input, n, Lit(c), d.w - MIN_LOOKAHEAD);
      bflush := Tally(0, c);
    }

    method TallyDist(dist: int, len: int, ghost n: nat) returns (bflush: bool)
      requires IsDims(d) && dBuf != lBuf && lastLit + 1 < dBuf.Length && Tallied(n)
      requires 1 <= dist <= MaxDist(d) && MatchAt(input, n, n - dist, len) && MIN_MATCH <= len <= MAX_MATCH
      modifies `lastLit, dBuf, lBuf
      ensures Tallied(n + len) && bflush == (lastLit == dBuf.Length - 1) && lastLit == old(lastLit) + 1
    {
      hide Expand, AllLegal;
      TokenExtends(Tokens(), input, n, Match(dist, len), d.w - MIN_LOOKAHEAD);
      bflush := Tally(dist, len - MIN_MATCH);
    }

    /** A block that is still in the window as a whole is not too long for a stored block. */
    predicate TextShort()
      reads `blockStart, `strstart
    {
      blockStart >= 0 ==> strstart - blockStart < 0x1_0000
    }

    /** Every token so far is a literal: the block has as many tokens as bytes. */
    ghost predicate Literals()
      reads `blockStart, `strstart, `lastLit, `flushed
    {
      strstart - blockStart == lastLit && LitBlocks(flushed)
    }

    /** A block with as many tokens as bytes has literals only. */
    lemma StillLits(b: Block)
      requires Shape() && Window() && Tallied(base + strstart) && b.tokens == Buffered(dBuf[..], lBuf[..], lastLit)
      requires Literals() && Expand(TokensOf(flushed + [b])) == input[..base + strstart]
      requires AllLegal(TokensOf(flushed + [b]), d.w - MIN_LOOKAHEAD)
      ensures LitBlocks(flushed + [b])
    {
      hide Expand, TokensOf, AllLegal, Holds, AllTexts;
      TokensAppend(flushed, b);
      OneEach(TokensOf(flushed), b.tokens, d.w - MIN_LOOKAHEAD);
    }

    /** Where the block starts lies before the current position; its bytes are those that its tokens add. */
    lemma BlockText(b: Block)
      requires Shape() && Window() && Tallied(base + strstart) && b.tokens == Buffered(dBuf[..], lBuf[..], lastLit)
      requires blockStart >= 0 && blockStart <= strstart <= window.Length ==>
          b.text == Kept(window[blockStart..strstart])
      requires blockStart < 0 ==> b.text == TooOld
      requires b.text.Kept? ==> |b.text.bytes| < 0x1_0000
      ensures blockStart <= strstart <= window.Length && AllTexts(flushed + [b], dBuf.Length)
      ensures Expand(TokensOf(flushed + [b])) == input[..base + strstart]
      ensures AllLegal(TokensOf(flushed + [b]), d.w - MIN_LOOKAHEAD)
    {
      hide Expand, TokensOf, AllLegal;
      ExpandPrefix(TokensOf(flushed), b.tokens);
      TokensAppend(flushed, b);
      if blockStart >= 0 {
        var bytes := window[blockStart..strstart];
        assert bytes == input[base + blockStart..base + strstart];
        assert input[..base + strstart] == input[..base + blockStart] + bytes;
      }
      TextsAppend(flushed, b, dBuf.Length);
    }

    /** The input that the block stands for, if all of it is still in the window. */
    method TextOfBlock() returns (text: Text)
      requires Window() && Tallied(base + strstart) && TextShort()
      ensures blockStart <= strstart
      ensures if blockStart >= 0 then text == Kept(window[blockStart..strstart]) else text == TooOld
      ensures text.Kept? ==> |text.bytes| < 0x1_0000
    {
      hide Expand, AllLegal;
      ExpandPrefix(TokensOf(flushed), Buffered(dBuf[..], lBuf[..], lastLit));
      text := if blockStart >= 0 then Kept(window[blockStart..strstart]) else TooOld;
    }

    /** With empty buffers the blocks tell everything. */
    lemma OnlyBlocks(n: int)
      requires lastLit == 0 < dBuf.Length == lBuf.Length && 0 <= n <= |input| && NoneLast(flushed)
      requires AllTexts(flushed, dBuf.Length)
      requires Expand(TokensOf(flushed)) == input[..n] && AllLegal(TokensOf(flushed), d.w - MIN_LOOKAHEAD)
      requires base + blockStart == n
      ensures Tallied(n)
    {
      hide Expand, AllLegal, AllTexts, TokensOf;
      assert Tokens() == TokensOf(flushed);
    }

    lemma TalliedParts(n: int)
      requires Tallied(n)
      ensures lastLit < dBuf.Length == lBuf.Length && 0 <= n <= |input| && NoneLast(flushed)
      ensures AllTexts(flushed, dBuf.Length)
    {
    }

    /** Hands the block to the trees. The caller learns whether the output is full. */
    method FlushBlock(ghost n: int) returns (full: bool)
      requires Shape() && Window() && Tallied(n) && n == base + strstart && TextShort()
      modifies `flushed, `lastLit, `blockStart
      ensures Tallied(n) && lastLit == 0 && blockStart == strstart
      ensures old(flushed) <= flushed && (old(Literals()) ==> Literals())
    {
      hide Expand, AllLegal, AllTexts, Window, Tallied, TokensOf, LitBlocks;
      TalliedParts(n);
      var text := TextOfBlock();
      var b := Block(Buffered(dBuf[..], lBuf[..], lastLit), false, text);
      BlockText(b);
      if Literals() {
        StillLits(b);
      }
      flushed := flushed + [b];
      lastLit := 0;
      blockStart := strstart;
      OnlyBlocks(n);
      full := *;
    }

    lemma FinalBlock(blocks: seq<Block>, b: Block)
      ensures (blocks + [b])[..|blocks + [b]| - 1] == blocks && (blocks + [b])[|blocks + [b]| - 1] == b
    {
    }

    /** Hands over the final block. */
    method FlushLast() returns (full: bool)
      requires Shape() && Window() && Tallied(|input|) && |input| == base + strstart && TextShort()
      modifies `flushed, `lastLit, `blockStart
      ensures Finished() && lastLit == 0 && blockStart == strstart
      ensures old(flushed) <= flushed && (old(Literals()) ==> Literals())
    {
      hide Expand, AllLegal, AllTexts, Window, Tallied, TokensOf, LitBlocks;
      TalliedParts(|input|);
      var text := TextOfBlock();
      var b := Block(Buffered(dBuf[..], lBuf[..], lastLit), true, text);
      BlockText(b);
      if Literals() {
        StillLits(b);
      }
      assert input[..|input|] == input;
      FinalBlock(flushed, b);
      flushed := flushed + [b];
      lastLit := 0;
      blockStart := strstart;
      full := *;
    }

    lemma TalliedLater(n: int, was: seq<int>)
      requires was <= input && 0 <= n <= |was| && lastLit < dBuf.Length == lBuf.Length && NoneLast(flushed)
      requires Expand(Tokens()) == was[..n] && AllLegal(Tokens(), d.w - MIN_LOOKAHEAD)
      requires base + blockStart == |Expand(TokensOf(flushed))| && AllTexts(flushed, dBuf.Length)
      ensures Tallied(n)
    {
    }

    // ---------- the compression functions ----------

    /** Between two tokens. */
    ghost predicate Between(n: int)
      reads this, window, head, prev, dBuf, lBuf
    {
      Shape() && Window() && Dictionary() && AreBytes(availIn) && Tallied(n) && lastLit + 1 < dBuf.Length
    }

    /** What stays as it is when the window is filled. */
    twostate predicate Refilled()
      reads this
    {
      && input + availIn == old(input + availIn) && old(input) <= input &&
         lookahead + |availIn| == old(lookahead + |availIn|)
      && base + strstart == old(base + strstart) && base + matchStart == old(base + matchStart) &&
         base + blockStart == old(base + blockStart)
      && lookahead >= old(lookahead) && (strstart == old(strstart) || strstart >= MaxDist(d))
    }

    twostate lemma RefilledParts()
      requires Refilled()
      ensures input + availIn == old(input + availIn) && old(input) <= input
      ensures lookahead + |availIn| == old(lookahead + |availIn|)
      ensures base + strstart == old(base + strstart) && lookahead >= old(lookahead)
      ensures strstart - blockStart == old(strstart - blockStart)
    {
    }

    method Fill(ghost n: int)
      requires Between(n) && lookahead < MIN_LOOKAHEAD
      modifies `strstart, `matchStart, `blockStart, `base, `availIn, `lookahead, `input, `insH, `ins, `insert, window,
               head, prev
      ensures Between(n) && Refilled() && strstart + MIN_LOOKAHEAD <= window.Length
      ensures (lookahead >= MIN_LOOKAHEAD || availIn == [])
      ensures old(Ready()) ==> Ready()
    {
      hide Window, Dictionary, AreBytes, Ready, Expand, AllLegal;
      ghost var was := input;
      FillWindow();
      TalliedLater(n, was);
    }

    /** Enters the strings inside a match, whose first string is entered already. */
    method InsertMatched(ghost n: nat)
      requires Shape() && Holds(window[..], input, base, n) && KeyReady(strstart + 1) && matchLength >= 2
      requires Chains(d, head[..], prev[..], input, base, base + strstart + 1, ins) && strstart + matchLength + 2 < n
      modifies `strstart, `matchLength, `insH, `ins, head, prev
      ensures strstart == old(strstart + matchLength) && matchLength == 0
      ensures Chains(d, head[..], prev[..], input, base, base + strstart, ins) && KeyReady(strstart)
    {
      hide Chains, Holds, KeyReady;
      matchLength := matchLength - 1;
      while true
        invariant matchLength >= 1 && strstart + matchLength + 1 == old(strstart + matchLength)
        invariant KeyReady(strstart + 1)
        invariant Chains(d, head[..], prev[..], input, base, base + strstart + 1, ins)
        decreases matchLength
        modifies `strstart, `matchLength, `insH, `ins, head, prev
      {
        strstart := strstart + 1;
        var _ := InsertString(strstart, n, base + strstart, base + strstart + 1);
        matchLength := matchLength - 1;
        if matchLength == 0 {
          break;
        }
      }
      strstart := strstart + 1;
    }

    /** Enters the current string and looks for a match; the dictionary is then one position ahead. */
    method FindMatch(search: bool) returns (found: bool)
      requires Shape() && Window() && Dictionary() && Ready() && strstart + MIN_LOOKAHEAD <= window.Length
      requires 2 <= prevLength <= MAX_MATCH
      modifies `insH, `ins, `matchLength, `matchStart, head, prev
      ensures Chains(d, head[..], prev[..], input, base, base + strstart + 1, ins)
      ensures (lookahead >= MIN_MATCH ==> KeyReady(strstart + 1))
      ensures insert <= strstart && insert < MIN_MATCH
      ensures !found ==> matchLength == old(matchLength) && matchStart == old(matchStart)
      ensures found ==> 2 <= matchLength <= MAX_MATCH && matchLength <= lookahead && lookahead >= MIN_MATCH
      ensures found && matchLength > prevLength ==> MatchAt(input, base + strstart, base + matchStart, matchLength)
      ensures found && matchLength > prevLength ==> 0 < matchStart < strstart && strstart - matchStart <= MaxDist(d)
    {
      hide Chains, Window, KeyReady, Searchable, Links, KeyAt, Candidate, MatchAt;
      var hashHead := 0;
      ghost var known := ins;
      found := false;
      if lookahead >= MIN_MATCH {
        WindowParts();
        hashHead := InsertString(strstart, strstart + lookahead, base + strstart, base + strstart + 1);
        HeadIsCandidate(hashHead, known);
      } else {
        BoundLater();
      }
      assert insert <= strstart && insert < MIN_MATCH;
      if hashHead != 0 && search && strstart - hashHead <= MaxDist(d) {
        matchLength := LongestMatch(hashHead, known);
        found := true;
      }
    }

    lemma WindowParts()
      requires Window()
      ensures Holds(window[..], input, base, strstart + lookahead) && strstart + lookahead <= window.Length
      ensures base + strstart + lookahead == |input|
    {
    }

    lemma BoundLater()
      requires Dictionary()
      ensures Chains(d, head[..], prev[..], input, base, base + strstart + 1, ins)
    {
      hide Chains;
      ChainsLater(d, head[..], prev[..], input, [], base, base + strstart, ins, base + strstart + 1);
      assert input + [] == input;
    }

    lemma HeadIsCandidate(hashHead: int, known: set<int>)
      requires base + strstart + 2 < |input| && Links(d, input, base, known, hashHead, KeyAt(d, input, base + strstart))
      requires Searchable(d, prev[..], input, base, base + strstart, known)
      ensures hashHead >= 0 && (hashHead != 0 && strstart - hashHead <= MaxDist(d) ==> Candidate(hashHead, known))
    {
      hide KeyAt;
    }

    /** Ends a compression function: what is left in the buffers is handed over. */
    method EndBlock(flush: Flush, ghost n: int) returns (st: BlockState)
      requires Shape() && Window() && Dictionary() && AreBytes(availIn) && Tallied(n) && flush != NoFlush
      requires n == |input|
      requires n == base + strstart && TextShort()
      modifies `flushed, `lastLit, `blockStart
      ensures if st == FinishDone || st == FinishStarted then flush == Finish && Finished()
          else flush != Finish && Between(n)
      ensures lastLit == 0 && (old(Literals()) ==> Literals())
      ensures old(flushed) <= flushed
    {
      hide Window, Dictionary, AreBytes, Tallied, Finished;
      if flush == Finish {
        var full := FlushLast();
        return if full then FinishStarted else FinishDone;
      }
      TalliedSize(n);
      if lastLit != 0 {
        var full := FlushBlock(n);
        if full {
          return NeedMore;
        }
      }
      st := BlockDone;
    }

    /** Passes over k bytes without entering them. */
    method Advance(k: nat)
      requires Shape() && Window() && Dictionary() && k <= lookahead
      modifies `strstart, `lookahead
      ensures Window() && Dictionary() && strstart == old(strstart) + k && lookahead == old(lookahead) - k
    {
      hide Chains, Holds;
      ChainsLater(d, head[..], prev[..], input, [], base, base + strstart, ins, base + strstart + k);
      assert input + [] == input;
      lookahead := lookahead - k;
      strstart := strstart + k;
    }

    /** One turn of deflate_huff: only literals. */
    method HuffTurn(flush: Flush) returns (turn: Turn)
      requires Between(base + strstart) && Literals()
      modifies this, window, head, prev, dBuf, lBuf
      ensures Between(base + strstart) && Literals() && input + availIn == old(input + availIn)
      ensures turn == Again || (turn == Leave && flush != NoFlush) ==>
          lookahead + |availIn| < old(lookahead + |availIn|)
      ensures turn == Stop ==>
          flush != NoFlush && lookahead == 0 && availIn == [] && strstart + MIN_LOOKAHEAD <= window.Length
      ensures old(flushed) <= flushed
    {
      hide Window, Dictionary, AreBytes, Tallied, Refilled;
      if lookahead == 0 {
        Fill(base + strstart);
        RefilledParts();
        if lookahead == 0 {
          return if flush == NoFlush then Leave else Stop;
        }
      }
      matchLength := 0;
      turn := EmitLiteral();
    }

    /** Tallies the current byte and goes on to the next one. */
    method EmitLiteral() returns (turn: Turn)
      requires Between(base + strstart) && lookahead > 0 && (strstart + 1 < window.Length || Literals())
      modifies `strstart, `lookahead, `lastLit, `flushed, `blockStart, dBuf, lBuf
      ensures Between(base + strstart) && lookahead == old(lookahead) - 1 && strstart == old(strstart) + 1
      ensures turn != Stop
      ensures old(Literals()) ==> Literals()
      ensures old(flushed) <= flushed
    {
      hide Window, Dictionary, AreBytes, Tallied;
      CurrentByte(strstart);
      var bflush := TallyLit(window[strstart], base + strstart);
      Advance(1);
      turn := FlushIf(bflush);
    }

    method FlushIf(bflush: bool) returns (turn: Turn)
      requires Shape() && Window() && Dictionary() && AreBytes(availIn) && Tallied(base + strstart)
      requires bflush == (lastLit == dBuf.Length - 1) && TextShort()
      modifies `lastLit, `flushed, `blockStart
      ensures Between(base + strstart) && turn != Stop && (old(Literals()) ==> Literals())
      ensures old(flushed) <= flushed
    {
      hide Window, Dictionary, AreBytes, Tallied;
      TalliedSize(base + strstart);
      turn := Again;
      if bflush {
        var full := FlushBlock(base + strstart);
        if full {
          turn := Leave;
        }
      }
    }

    lemma TalliedSize(n: int)
      requires Tallied(n)
      ensures lastLit < dBuf.Length && 0 <= n <= |input|
    {
    }

    method SetInsert(k: nat)
      requires Dictionary() && k <= strstart && k < MIN_MATCH
      modifies `insert
      ensures Dictionary()
    {
      insert := k;
    }

    method DeflateHuff(flush: Flush) returns (st: BlockState)
      requires Between(base + strstart) && Literals()
      modifies this, window, head, prev, dBuf, lBuf
      ensures Completed(st, flush) && (st == NeedMore || st == BlockDone ==> Between(base + strstart)) && Literals()
    {
      hide Window, Dictionary, AreBytes, Tallied;
      while true
        invariant Between(base + strstart) && Literals() && input + availIn == old(input + availIn)
        invariant lookahead + |availIn| <= old(lookahead + |availIn|) && old(flushed) <= flushed
        decreases lookahead + |availIn|
      {
        var turn := HuffTurn(flush);
        match turn
        case Again =>
        case Leave => return NeedMore;
        case Stop => break;
      }
      SetInsert(0);
      WindowSize();
      st := EndBlock(flush, base + strstart);
    }

    /** Whether the stream is finished; if it should be and is not, at least some input has been dealt with. */
    twostate predicate Completed(st: BlockState, flush: Flush)
      reads this
    {
      && input + availIn == old(input + availIn)
      && (st == FinishDone || st == FinishStarted ==> flush == Finish && availIn == [] && Finished())
      && (st != NeedMore ==> lookahead == 0 && availIn == [] && lastLit == 0)
      && (st == NeedMore && flush == Finish ==> lookahead + |availIn| < old(lookahead + |availIn|))
      && (st == BlockDone ==> flush == OtherFlush) && old(flushed) <= flushed
    }

    /** How often the previous byte repeats at the current position, up to the longest match. */
    method RunLength() returns (len: nat)
      requires Shape() && Window() && strstart > 0 && lookahead >= MIN_MATCH && strstart + MAX_MATCH < window.Length
      ensures len <= lookahead && len <= MAX_MATCH && (len == 0 || len >= MIN_MATCH)
      ensures len > 0 ==> MatchAt(input, base + strstart, base + strstart - 1, len)
    {
      hide Window, Same, MatchAt;
      var scan := strstart - 1;
      if window[scan] != window[strstart] || window[scan] != window[strstart + 1]
        || window[scan] != window[strstart + 2] {
        return 0;
      }
      SameThree(window[..], scan, strstart);
      len := Compare(strstart, scan);
      if len > lookahead {
        len := lookahead;
      }
      SameLen(len, scan);
    }

    lemma SameLen(len: nat, scan: nat)
      requires Window() && scan < strstart && len <= lookahead
      requires exists n :: n >= len && Same(window[..], scan, strstart, n)
      ensures MatchAt(input, base + strstart, base + scan, len)
    {
      hide Same, Window;
      var n :| n >= len && Same(window[..], scan, strstart, n);
      SameLess(window[..], scan, strstart, n, len);
      WindowSize();
      MatchInInput(scan, len);
    }

    /** Tallies a match at the current position and passes over it. */
    method EmitRun(len: nat) returns (turn: Turn)
      requires Between(base + strstart) && MIN_MATCH <= len <= lookahead && len <= MAX_MATCH
      requires MatchAt(input, base + strstart, base + strstart - 1, len) && strstart + MAX_MATCH < window.Length
      modifies `strstart, `lookahead, `lastLit, `flushed, `blockStart, dBuf, lBuf
      ensures Between(base + strstart) && lookahead == old(lookahead) - len && turn != Stop
      ensures old(flushed) <= flushed
    {
      hide Window, Dictionary, AreBytes, Tallied, MatchAt;
      var bflush := TallyDist(1, len, base + strstart);
      Advance(len);
      turn := FlushIf(bflush);
    }

    /** Lookahead for the longest run, except at the end of the input. */
    method EnsureRun(flush: Flush, ghost n: int) returns (turn: Turn)
      requires Between(n)
      modifies `strstart, `matchStart, `blockStart, `base, `availIn, `lookahead, `input, `insH, `ins, `insert, window,
               head, prev
      ensures Between(n) && Refilled()
      ensures turn == Again ==> lookahead > 0 && strstart + MAX_MATCH < window.Length
      ensures turn == Leave ==> flush == NoFlush
      ensures turn == Stop ==>
          flush != NoFlush && lookahead == 0 && availIn == [] && strstart + MIN_LOOKAHEAD <= window.Length
    {
      hide Window, Dictionary, AreBytes, Tallied;
      WindowSize();
      turn := Again;
      if lookahead <= MAX_MATCH {
        Fill(n);
        if lookahead <= MAX_MATCH && flush == NoFlush {
          return Leave;
        }
        if lookahead == 0 {
          return Stop;
        }
      }
    }

    /** One turn of deflate_rle: matches of distance one only. */
    method RleTurn(flush: Flush) returns (turn: Turn)
      requires Between(base + strstart)
      modifies this, window, head, prev, dBuf, lBuf
      ensures Between(base + strstart) && input + availIn == old(input + availIn)
      ensures turn == Again || (turn == Leave && flush != NoFlush) ==>
          lookahead + |availIn| < old(lookahead + |availIn|)
      ensures turn == Stop ==>
          flush != NoFlush && lookahead == 0 && availIn == [] && strstart + MIN_LOOKAHEAD <= window.Length
      ensures old(flushed) <= flushed
    {
      hide Window, Dictionary, AreBytes, Tallied, Refilled, MatchAt;
      turn := EnsureRun(flush, base + strstart);
      RefilledParts();
      if turn != Again {
        return;
      }
      matchLength := 0;
      if lookahead >= MIN_MATCH && strstart > 0 {
        matchLength := RunLength();
      }
      if matchLength >= MIN_MATCH {
        turn := EmitRun(matchLength);
        matchLength := 0;
      } else {
        turn := EmitLiteral();
      }
    }

    method DeflateRle(flush: Flush) returns (st: BlockState)
      requires Between(base + strstart)
      modifies this, window, head, prev, dBuf, lBuf
      ensures Completed(st, flush) && (st == NeedMore || st == BlockDone ==> Between(base + strstart))
    {
      hide Window, Dictionary, AreBytes, Tallied;
      while true
        invariant Between(base + strstart) && input + availIn == old(input + availIn)
        invariant lookahead + |availIn| <= old(lookahead + |availIn|) && old(flushed) <= flushed
        decreases lookahead + |availIn|
      {
        var turn := RleTurn(flush);
        match turn
        case Again =>
        case Leave => return NeedMore;
        case Stop => break;
      }
      SetInsert(0);
      WindowSize();
      st := EndBlock(flush, base + strstart);
    }

    // ---------- greedy matching ----------

    /** Between two turns of deflate_fast. */
    ghost predicate Greedy()
      reads this, window, head, prev, dBuf, lBuf
    {
      Between(base + strstart) && Ready() && matchLength < MIN_MATCH && prevLength == MIN_MATCH - 1
    }

    /** Passes over a match, entering its strings if it is short enough. */
    method PassMatch()
      requires Shape() && Window() && MIN_MATCH <= matchLength <= lookahead && matchLength <= MAX_MATCH
      requires strstart + MIN_LOOKAHEAD <= window.Length && KeyReady(strstart + 1) && insert <= strstart
      requires insert < MIN_MATCH
      requires Chains(d, head[..], prev[..], input, base, base + strstart + 1, ins)
      modifies `strstart, `lookahead, `matchLength, `insH, `ins, head, prev
      ensures Window() && Dictionary() && Ready() && matchLength == 0
      ensures strstart == old(strstart + matchLength) && lookahead == old(lookahead - matchLength)
    {
      hide Chains, KeyReady, Holds;
      lookahead := lookahead - matchLength;
      if matchLength <= config.lazy && lookahead >= MIN_MATCH {
        InsertMatched(strstart + matchLength + lookahead);
      } else {
        ChainsLater(d, head[..], prev[..], input, [], base, base + strstart + 1, ins, base + strstart + matchLength);
        assert input + [] == input;
        strstart := strstart + matchLength;
        matchLength := 0;
        StartKey(strstart);
      }
    }

    /** Makes sure that there is enough lookahead, except at the end of the input. */
    method EnsureLookahead(flush: Flush, ghost n: int) returns (turn: Turn)
      requires Between(n)
      modifies `strstart, `matchStart, `blockStart, `base, `availIn, `lookahead, `input, `insH, `ins, `insert, window,
               head, prev
      ensures Between(n) && Refilled() && (old(Ready()) ==> Ready())
      ensures turn == Again ==> lookahead > 0 && strstart + MIN_LOOKAHEAD <= window.Length
      ensures turn == Leave ==> flush == NoFlush
      ensures turn == Stop ==>
          flush != NoFlush && lookahead == 0 && availIn == [] && strstart + MIN_LOOKAHEAD <= window.Length
    {
      hide Window, Dictionary, AreBytes, Tallied, Ready;
      WindowSize();
      turn := Again;
      if lookahead < MIN_LOOKAHEAD {
        Fill(n);
        if lookahead < MIN_LOOKAHEAD && flush == NoFlush {
          return Leave;
        }
        if lookahead == 0 {
          return Stop;
        }
      }
    }

    /** Tallies the match that starts at the current position and passes over it. */
    method EmitMatch() returns (turn: Turn)
      requires Shape() && Window() && AreBytes(availIn) && Tallied(base + strstart) && lastLit + 1 < dBuf.Length
      requires Chains(d, head[..], prev[..], input, base, base + strstart + 1, ins) && insert <= strstart
      requires insert < MIN_MATCH
      requires MIN_MATCH <= matchLength <= lookahead && matchLength <= MAX_MATCH
      requires strstart + MIN_LOOKAHEAD <= window.Length && KeyReady(strstart + 1)
      requires MatchAt(input, base + strstart, base + matchStart, matchLength) && matchStart < strstart
      requires strstart - matchStart <= MaxDist(d)
      modifies `strstart, `lookahead, `matchLength, `insH, `ins, `lastLit, `flushed, `blockStart, head, prev, dBuf, lBuf
      ensures Between(base + strstart) && Ready() && matchLength == 0 && turn != Stop && lookahead < old(lookahead)
      ensures old(flushed) <= flushed
    {
      hide Window, Dictionary, AreBytes, Tallied, MatchAt, Chains, KeyReady, Ready;
      var bflush := TallyDist(strstart - matchStart, matchLength, base + strstart);
      PassMatch();
      turn := FlushIf(bflush);
    }

    /** Tallies the current byte, which has been entered if there were bytes enough, and passes over it. */
    method EmitUnmatched() returns (turn: Turn)
      requires Shape() && Window() && AreBytes(availIn) && Tallied(base + strstart) && lastLit + 1 < dBuf.Length
      requires Chains(d, head[..], prev[..], input, base, base + strstart + 1, ins) && insert <= strstart
      requires insert < MIN_MATCH
      requires lookahead > 0 && (lookahead >= MIN_MATCH ==> KeyReady(strstart + 1))
      requires strstart + MIN_LOOKAHEAD <= window.Length
      modifies `strstart, `lookahead, `lastLit, `flushed, `blockStart, dBuf, lBuf
      ensures Between(base + strstart) && Ready() && turn != Stop && lookahead < old(lookahead)
      ensures old(flushed) <= flushed
    {
      hide Window, Dictionary, AreBytes, Tallied, Chains, KeyReady, Ready;
      CurrentByte(strstart);
      var bflush := TallyLit(window[strstart], base + strstart);
      PassByte();
      turn := FlushIf(bflush);
    }

    /** One turn of deflate_fast: the longest match at every position is taken. */
    method FastTurn(flush: Flush) returns (turn: Turn)
      requires Greedy()
      modifies this, window, head, prev, dBuf, lBuf
      ensures Greedy() && input + availIn == old(input + availIn)
      ensures turn == Again || (turn == Leave && flush != NoFlush) ==>
          lookahead + |availIn| < old(lookahead + |availIn|)
      ensures turn == Stop ==>
          flush != NoFlush && lookahead == 0 && availIn == [] && strstart + MIN_LOOKAHEAD <= window.Length
      ensures old(flushed) <= flushed
    {
      hide Window, Dictionary, AreBytes, Tallied, MatchAt, Chains, KeyReady, Ready, Refilled;
      turn := EnsureLookahead(flush, base + strstart);
      RefilledParts();
      if turn != Again {
        return;
      }
      var found := FindMatch(true);
      if matchLength >= MIN_MATCH {
        turn := EmitMatch();
      } else {
        turn := EmitUnmatched();
      }
    }

    /** Passes over a byte that has been entered if there were bytes enough. */
    method PassByte()
      requires Shape() && Window() && lookahead > 0 && (lookahead >= MIN_MATCH ==> KeyReady(strstart + 1))
      requires insert <= strstart && insert < MIN_MATCH
      requires Chains(d, head[..], prev[..], input, base, base + strstart + 1, ins)
      modifies `strstart, `lookahead
      ensures Window() && Dictionary() && Ready() && strstart == old(strstart) + 1 && lookahead == old(lookahead) - 1
    {
      hide Chains, KeyReady, Holds;
      lookahead := lookahead - 1;
      strstart := strstart + 1;
    }

    method DeflateFast(flush: Flush) returns (st: BlockState)
      requires Greedy()
      modifies this, window, head, prev, dBuf, lBuf
      ensures Completed(st, flush) && (st == NeedMore || st == BlockDone ==> Greedy())
    {
      hide Window, Dictionary, AreBytes, Tallied, Ready;
      while true
        invariant Greedy() && input + availIn == old(input + availIn)
        invariant lookahead + |availIn| <= old(lookahead + |availIn|) && old(flushed) <= flushed
        decreases lookahead + |availIn|
      {
        var turn := FastTurn(flush);
        match turn
        case Again =>
        case Leave => return NeedMore;
        case Stop => break;
      }
      SetInsert(if strstart < MIN_MATCH - 1 then strstart else MIN_MATCH - 1);
      WindowSize();
      st := EndBlock(flush, base + strstart);
    }

    // ---------- lazy matching ----------

    /** How many bytes have been passed over but not tallied. */
    function Held(): nat
      reads `matchAvailable
    {
      if matchAvailable then 1 else 0
    }

    /** A match found at the byte that is held back. */
    ghost predicate Pending(from: int, len: nat)
      reads `strstart, `lookahead, `input, `base
    {
      && len <= lookahead + 1 && strstart >= 1 && 1 <= strstart - 1 - from <= MaxDist(d)
      && MatchAt(input, base + strstart - 1, base + from, len)
    }

    /** Between two turns of deflate_slow. */
    ghost predicate Lazy()
      reads this, window, head, prev, dBuf, lBuf
    {
      && Held() <= strstart && Between(base + strstart - Held()) && Ready() && MIN_MATCH - 1 <= matchLength <= MAX_MATCH
      && (matchLength >= MIN_MATCH ==> matchAvailable && Pending(matchStart, matchLength))
    }

    /** Enters the strings from the next position up to maxInsert, as far as the match goes. */
    method InsertPrevious(maxInsert: int, ghost n: nat)
      requires Shape() && Holds(window[..], input, base, n) && maxInsert + MIN_MATCH == n && prevLength >= 1
      requires strstart <= maxInsert ==> KeyReady(strstart + 1)
      requires Chains(d, head[..], prev[..], input, base, base + strstart + 1, ins)
      modifies `strstart, `prevLength, `insH, `ins, head, prev
      ensures strstart == old(strstart + prevLength) && prevLength == 0
      ensures (strstart <= maxInsert ==> KeyReady(strstart + 1))
      ensures Chains(d, head[..], prev[..], input, base, base + strstart + 1, ins)
    {
      hide Chains, KeyReady, Holds;
      while true
        invariant prevLength >= 1 && strstart + prevLength == old(strstart + prevLength)
        invariant Chains(d, head[..], prev[..], input, base, base + strstart + 1, ins)
        invariant (strstart <= maxInsert ==> KeyReady(strstart + 1))
        decreases prevLength
        modifies `strstart, `prevLength, `insH, `ins, head, prev
      {
        strstart := strstart + 1;
        InsertIf(maxInsert, n);
        prevLength := prevLength - 1;
        if prevLength == 0 {
          break;
        }
      }
    }

    method InsertIf(maxInsert: int, ghost n: nat)
      requires Shape() && Holds(window[..], input, base, n) && maxInsert + MIN_MATCH == n
      requires (strstart <= maxInsert ==> KeyReady(strstart))
      requires Chains(d, head[..], prev[..], input, base, base + strstart, ins)
      modifies `insH, `ins, head, prev
      ensures strstart <= maxInsert ==> KeyReady(strstart + 1)
      ensures Chains(d, head[..], prev[..], input, base, base + strstart + 1, ins)
    {
      hide Chains, KeyReady, Holds;
      if strstart <= maxInsert {
        var _ := InsertString(strstart, n, base + strstart, base + strstart + 1);
      } else {
        ChainsLater(d, head[..], prev[..], input, [], base, base + strstart, ins, base + strstart + 1);
        assert input + [] == input;
      }
    }

    /** Passes over the match at the byte held back, entering its strings as far as there are bytes for them. */
    method PassPrevious()
      requires Shape() && Window() && MIN_MATCH <= prevLength <= MAX_MATCH && prevLength <= lookahead + 1
      requires strstart + MIN_LOOKAHEAD <= window.Length && (lookahead >= MIN_MATCH ==> KeyReady(strstart + 1))
      requires Chains(d, head[..], prev[..], input, base, base + strstart + 1, ins) && insert <= strstart
      requires insert < MIN_MATCH
      modifies `strstart, `lookahead, `prevLength, `matchAvailable, `matchLength, `insH, `ins, head, prev
      ensures Window() && Dictionary() && Ready() && matchLength == MIN_MATCH - 1 && !matchAvailable
      ensures strstart == old(strstart + prevLength) - 1 && lookahead == old(lookahead - prevLength) + 1
    {
      hide Chains, KeyReady, Holds;
      ghost var n := strstart + lookahead;
      var maxInsert := strstart + lookahead - MIN_MATCH;
      lookahead := lookahead - (prevLength - 1);
      prevLength := prevLength - 2;
      InsertPrevious(maxInsert, n);
      matchAvailable := false;
      matchLength := MIN_MATCH - 1;
      strstart := strstart + 1;
    }

    /** The match at the byte held back is taken: none better has been found. */
    method EmitPrevious() returns (turn: Turn)
      requires Shape() && Window() && AreBytes(availIn) && strstart >= 1 && Tallied(base + strstart - 1)
      requires lastLit + 1 < dBuf.Length
      requires Chains(d, head[..], prev[..], input, base, base + strstart + 1, ins) && insert <= strstart
      requires insert < MIN_MATCH
      requires MIN_MATCH <= prevLength <= MAX_MATCH && Pending(prevMatch, prevLength)
      requires strstart + MIN_LOOKAHEAD <= window.Length && (lookahead >= MIN_MATCH ==> KeyReady(strstart + 1))
      modifies `strstart, `lookahead, `prevLength, `matchAvailable, `matchLength, `insH, `ins, `lastLit, `flushed,
               `blockStart,
        head, prev, dBuf, lBuf
      ensures Lazy() && turn != Stop && lookahead < old(lookahead)
      ensures old(flushed) <= flushed
    {
      hide Window, Dictionary, AreBytes, Tallied, MatchAt, Chains, KeyReady, Ready;
      var bflush := TallyDist(strstart - 1 - prevMatch, prevLength, base + strstart - 1);
      PassPrevious();
      turn := FlushIf(bflush);
    }

    /** The byte held back becomes a literal, and the current one is held back in its place. */
    method EmitHeld() returns (turn: Turn)
      requires Shape() && Window() && AreBytes(availIn) && strstart >= 1 && Tallied(base + strstart - 1)
      requires lastLit + 1 < dBuf.Length
      requires Chains(d, head[..], prev[..], input, base, base + strstart + 1, ins) && insert <= strstart
      requires insert < MIN_MATCH
      requires lookahead > 0 && (lookahead >= MIN_MATCH ==> KeyReady(strstart + 1))
      requires strstart + MIN_LOOKAHEAD <= window.Length
      modifies `strstart, `lookahead, `lastLit, `flushed, `blockStart, dBuf, lBuf
      ensures Between(base + strstart - 1) && Ready() && turn != Stop
      ensures lookahead == old(lookahead) - 1 && strstart == old(strstart) + 1
      ensures old(flushed) <= flushed
    {
      hide Window, Dictionary, AreBytes, Tallied, Chains, KeyReady, Ready;
      CurrentByte(strstart - 1);
      var bflush := TallyLit(window[strstart - 1], base + strstart - 1);
      TalliedSize(base + strstart);
      if bflush {
        var _ := FlushBlock(base + strstart);
      }
      PassByte();
      var full: bool := *;
      turn := if full then Leave else Again;
    }

    /** The lengths that are not worth a match. */
    method WorthIt()
      requires matchLength <= MAX_MATCH
      modifies `matchLength
      ensures matchLength == old(matchLength) || matchLength == MIN_MATCH - 1
    {
      if matchLength <= 5 && (filtered || (matchLength == MIN_MATCH && strstart - matchStart > TOO_FAR)) {
        matchLength := MIN_MATCH - 1;
      }
    }

    /** The search at the current position, with the match so far put aside. */
    method FindBetter()
      requires Lazy() && lookahead > 0 && strstart + MIN_LOOKAHEAD <= window.Length
      modifies `insH, `ins, `matchLength, `matchStart, `prevLength, `prevMatch, head, prev
      ensures Window() && Chains(d, head[..], prev[..], input, base, base + strstart + 1, ins) && insert <= strstart
      ensures insert < MIN_MATCH
      ensures lookahead >= MIN_MATCH ==> KeyReady(strstart + 1)
      ensures MIN_MATCH - 1 <= prevLength <= MAX_MATCH
      ensures (prevLength >= MIN_MATCH ==> matchAvailable && Pending(prevMatch, prevLength))
      ensures MIN_MATCH - 1 <= matchLength <= MAX_MATCH
      ensures matchLength > prevLength ==> MatchAt(input, base + strstart, base + matchStart, matchLength)
      ensures matchLength > prevLength ==>
          matchLength <= lookahead && 0 < matchStart < strstart && strstart - matchStart <= MaxDist(d)
    {
      hide Window, Dictionary, AreBytes, Tallied, MatchAt, Chains, KeyReady, Ready;
      prevLength, prevMatch := matchLength, matchStart;
      matchLength := MIN_MATCH - 1;
      var found := FindMatch(prevLength < config.lazy);
      if found {
        WorthIt();
      }
    }

    /** The decision at the current position. */
    method SlowStep() returns (turn: Turn)
      requires Lazy() && lookahead > 0 && strstart + MIN_LOOKAHEAD <= window.Length
      modifies `strstart, `lookahead, `insH, `ins, `matchLength, `matchStart, `prevLength, `prevMatch, `matchAvailable,
        `lastLit, `flushed, `blockStart, head, prev, dBuf, lBuf
      ensures Lazy() && turn != Stop && lookahead < old(lookahead)
      ensures old(flushed) <= flushed
    {
      hide Window, Dictionary, AreBytes, Tallied, MatchAt, Chains, KeyReady, Ready;
      FindBetter();
      if prevLength >= MIN_MATCH && matchLength <= prevLength {
        turn := EmitPrevious();
      } else if matchAvailable {
        turn := EmitHeld();
      } else {
        matchAvailable := true;
        PassByte();
        turn := Again;
      }
    }

    /** One turn of deflate_slow: a match is taken only if there is no better one at the next byte. */
    method SlowTurn(flush: Flush) returns (turn: Turn)
      requires Lazy()
      modifies this, window, head, prev, dBuf, lBuf
      ensures Lazy() && input + availIn == old(input + availIn)
      ensures turn == Again || (turn == Leave && flush != NoFlush) ==>
          lookahead + |availIn| < old(lookahead + |availIn|)
      ensures turn == Stop ==>
          flush != NoFlush && lookahead == 0 && availIn == [] && strstart + MIN_LOOKAHEAD <= window.Length
      ensures old(flushed) <= flushed
    {
      hide Window, Dictionary, AreBytes, Tallied, MatchAt, Chains, KeyReady, Ready, Refilled;
      ghost var was := input;
      turn := EnsureLookahead(flush, base + strstart - Held());
      RefilledParts();
      StillPending(was);
      if turn != Again {
        return;
      }
      turn := SlowStep();
    }

    /** Filling the window does not touch a pending match. */
    twostate lemma StillPending(was: seq<int>)
      requires was == old(input) && Refilled() && old(Lazy()) && Between(base + strstart - Held())
      requires matchLength == old(matchLength) && matchAvailable == old(matchAvailable)
      ensures Held() <= strstart && (matchLength >= MIN_MATCH ==> matchAvailable && Pending(matchStart, matchLength))
    {
      if matchLength >= MIN_MATCH {
        MatchLater(was, input, base + strstart - 1, base + matchStart, matchLength);
      }
    }

    method DeflateSlow(flush: Flush) returns (st: BlockState)
      requires Lazy()
      modifies this, window, head, prev, dBuf, lBuf
      ensures Completed(st, flush) && (st == NeedMore || st == BlockDone ==> Lazy())
      ensures (st == BlockDone ==> !matchAvailable)
    {
      hide Window, Dictionary, AreBytes, Tallied, Ready, MatchAt;
      while true
        invariant Lazy() && input + availIn == old(input + availIn)
        invariant lookahead + |availIn| <= old(lookahead + |availIn|) && old(flushed) <= flushed
        decreases lookahead + |availIn|
      {
        var turn := SlowTurn(flush);
        match turn
        case Again =>
        case Leave => return NeedMore;
        case Stop => break;
      }
      st := EndSlow(flush);
    }

    /** The last byte may still be held back. */
    method EndSlow(flush: Flush) returns (st: BlockState)
      requires Lazy() && lookahead == 0 && availIn == [] && flush != NoFlush
      requires strstart + MIN_LOOKAHEAD <= window.Length
      modifies `lastLit, `matchAvailable, `insert, `flushed, `blockStart, dBuf, lBuf
      ensures if st == FinishDone || st == FinishStarted then flush == Finish && Finished()
          else flush != Finish && Lazy()
      ensures lastLit == 0 && !matchAvailable
      ensures old(flushed) <= flushed
    {
      hide Window, Dictionary, AreBytes, Tallied, Ready, MatchAt;
      if matchAvailable {
        CurrentByte(strstart - 1);
        var _ := TallyLit(window[strstart - 1], base + strstart - 1);
        matchAvailable := false;
      }
      SetInsert(if strstart < MIN_MATCH - 1 then strstart else MIN_MATCH - 1);
      WindowSize();
      st := EndBlock(flush, base + strstart);
    }

    // ---------- Z_FULL_FLUSH ----------

    /** CLEAR_HASH. */
    method ClearHash()
      requires Shape() && Window() && Dictionary()
      modifies `ins, head
      ensures Dictionary() && ins == {}
    {
      hide KeyAt, Pow2;
      var k := 0;
      while k < head.Length
        invariant 0 <= k <= head.Length && forall i :: 0 <= i < k ==> head[i] == 0
        modifies head
      {
        head[k] := 0;
        k := k + 1;
      }
      ins := {};
    }

    /** What follows the empty block of a full flush: matches reach back no further than here, and the window starts
        afresh. */
    method ForgetHistory()
      requires Between(base + strstart) && lookahead == 0 && lastLit == 0
      modifies `ins, `base, `strstart, `blockStart, `insert, head
      ensures Between(base + strstart) && Ready() && strstart == blockStart == 0 && base == old(base + strstart)
      ensures ins == {}
    {
      hide AreBytes, Expand, AllLegal, AllTexts, TokensOf;
      ClearHash();
      if lookahead == 0 {
        base := base + strstart;
        strstart, blockStart, insert := 0, 0, 0;
        EmptyDictionary();
        assert Tokens() == TokensOf(flushed);
      }
    }

    lemma EmptyDictionary()
      requires Shape() && ins == {} && insert <= strstart && insert < MIN_MATCH
      requires forall k :: 0 <= k < head.Length ==> head[k] == 0
      ensures Dictionary()
    {
      hide KeyAt, Pow2;
    }

    lemma CurrentByte(pos: nat)
      requires Window() && pos < strstart + lookahead
      ensures pos < window.Length && base + pos < |input| && window[pos] == input[base + pos] && IsByte(window[pos])
    {
      assert window[..][pos] == input[base + pos];
    }
  }

  function ByteKey(bits: nat, c: int): (h: seq<bool>)
    ensures |h| == bits
  {
    seq(bits, i => ByteBit(c, i))
  }
}

/** Literals and matches, and the bytes they stand for. */
module Lz77 {

  const MIN_MATCH := 3
  const MAX_MATCH := 258

  /** A byte as it is, or len bytes copied from dist bytes back. */
  datatype Token = Lit(c: int) | Match(dist: int, len: int)

  /** The input that a block stands for, unless it has left the window already. */
  datatype Text = TooOld | Kept(bytes: seq<int>)

  /** Copying may overlap: bytes just written are copied again. */
  function Repeat(out: seq<int>, dist: nat, len: nat): (r: seq<int>)
    requires 1 <= dist <= |out|
    ensures |r| == |out| + len && r[..|out|] == out
    decreases len
  {
    if len == 0 then out else Repeat(out + [out[|out| - dist]], dist, len - 1)
  }

  /** Every copied byte is the one dist bytes before it. */
  lemma {:induction false} RepeatAt(out: seq<int>, dist: nat, len: nat, k: nat)
    requires 1 <= dist <= |out| <= k < |out| + len
    ensures Repeat(out, dist, len)[k] == Repeat(out, dist, len)[k - dist]
    decreases len
  {
    var next := out + [out[|out| - dist]];
    var all := Repeat(out, dist, len);
    assert all == Repeat(next, dist, len - 1) && all[..|next|] == next;
    if k > |out| {
      RepeatAt(next, dist, len - 1, k);
    } else {
      assert all[k] == next[k] && all[k - dist] == next[k - dist];
    }
  }

  /** A token that a decoder with that much output and that large a window understands. */
  predicate Legal(t: Token, have: nat, maxDist: int) {
    match t
    case Lit(c) => 0 <= c < 256
    case Match(dist, len) => 1 <= dist <= have && dist <= maxDist && MIN_MATCH <= len <= MAX_MATCH
  }

  /** Output after one more token. */
  function Grow(out: seq<int>, t: Token): seq<int> {
    match t
    case Lit(c) => out + [c]
    case Match(dist, len) => if 1 <= dist <= |out| && 0 <= len then Repeat(out, dist, len) else out
  }

  /** What a token sequence stands for. */
  function Expand(tokens: seq<Token>): seq<int> {
    if tokens == [] then [] else Grow(Expand(tokens[..|tokens|-1]), tokens[|tokens|-1])
  }

  /** Every token reaches back only over what has been written, and no further than maxDist. */
  predicate AllLegal(tokens: seq<Token>, maxDist: int) {
    tokens == [] ||
    (AllLegal(tokens[..|tokens|-1], maxDist) && Legal(tokens[|tokens|-1], |Expand(tokens[..|tokens|-1])|, maxDist))
  }

  /** Later tokens only add to what earlier ones stand for. */
  lemma {:induction false} ExpandPrefix(a: seq<Token>, b: seq<Token>)
    ensures Expand(a) <= Expand(a + b)
    decreases |b|
  {
    if b == [] {
      assert a + b == a;
    } else {
      var u := b[..|b|-1];
      ExpandPrefix(a, u);
      assert a + b == (a + u) + [b[|b|-1]];
      ExpandAppend(a + u, b[|b|-1]);
    }
  }

  lemma ExpandAppend(tokens: seq<Token>, t: Token)
    ensures Expand(tokens + [t]) == Grow(Expand(tokens), t)
    ensures forall m: int :: AllLegal(tokens + [t], m) <==> AllLegal(tokens, m) && Legal(t, |Expand(tokens)|, m)
  {
    assert (tokens + [t])[..|tokens|] == tokens;
  }

  /** Where the input repeats what stands dist bytes before, a match reproduces it. */
  lemma {:induction false} RepeatIsInput(input: seq<int>, pos: nat, dist: nat, len: nat)
    requires pos + len <= |input| && 1 <= dist <= pos
    requires forall i :: pos <= i < pos + len ==> input[i] == input[i - dist]
    ensures Repeat(input[..pos], dist, len) == input[..pos + len]
    decreases len
  {
    if len > 0 {
      assert input[..pos] + [input[pos]] == input[..pos + 1];
      assert input[..pos][pos - dist] == input[pos];
      RepeatIsInput(input, pos + 1, dist, len - 1);
    }
  }

  /** A literal or match taken from the input at its end extends what the tokens stand for. */
  lemma TokenExtends(tokens: seq<Token>, input: seq<int>, pos: nat, t: Token, maxDist: int)
    requires pos <= |input| && Expand(tokens) == input[..pos] && AllLegal(tokens, maxDist)
    requires match t
      case Lit(c) => pos < |input| && c == input[pos] && 0 <= c < 256
      case Match(dist, len) =>
        1 <= dist <= pos && dist <= maxDist && MIN_MATCH <= len <= MAX_MATCH && pos + len <= |input|
        && forall i :: pos <= i < pos + len ==> input[i] == input[i - dist]
    ensures var len := match t case Lit(_) => 1 case Match(_, l) => l;
      pos + len <= |input| && Expand(tokens + [t]) == input[..pos + len]
    ensures AllLegal(tokens + [t], maxDist)
  {
    ExpandAppend(tokens, t);
    match t
    case Lit(c) =>
      assert input[..pos] + [c] == input[..pos + 1];
    case Match(dist, len) =>
      RepeatIsInput(input, pos, dist, len);
  }
}

/** Literals and matches as bits: a literal/length code and a distance code with their extra bits, and back. */
module TokenCode {
  import opened Bits
  import opened DeflateCodes
  import opened InflateTable
  import opened LengthCodes
  import opened Lz77

  const END_BLOCK := 256

  /** A token that the codes can express. */
  predicate Codable(t: Token) {
    match t
    case Lit(c) => 0 <= c < 256
    case Match(dist, len) => 1 <= dist <= 32768 && MIN_MATCH <= len <= MAX_MATCH
  }

  /** The literal/length symbol of a token. */
  function LitSym(t: Token): (s: nat)
    requires Codable(t)
    ensures s < L_CODES && s != END_BLOCK
  {
    match t
    case Lit(c) => c
    case Match(_, len) => LengthCode(len - MIN_MATCH) + LITERALS + 1
  }

  function DistSym(t: Token): (s: nat)
    requires Codable(t) && t.Match?
    ensures s < D_CODES
  {
    DistCode(t.dist - 1)
  }

  /** Both trees have codes for a token. */
  ghost predicate Coded(ll: seq<int>, dl: seq<int>, t: Token) {
    Codable(t) &&
    match t
    case Lit(c) => Uses(ll, c)
    case Match(dist, len) => LenCoded(ll, len - MIN_MATCH) && DistCoded(dl, dist - 1)
  }

  ghost predicate LenCoded(ll: seq<int>, lc: nat)
    requires lc < 256
  {
    Uses(ll, LengthCode(lc) + LITERALS + 1)
  }

  ghost predicate DistCoded(dl: seq<int>, d: nat)
    requires d < 32768
  {
    Uses(dl, DistCode(d))
  }

  /** What a length's extra bits say; nothing if it has none. */
  function LenExtra(lc: nat): (v: nat)
    requires lc < 256
    ensures v < Pow2(ExtraL(LengthCode(lc)))
  {
    if lc < 255 then LengthBack(lc); lc - BaseLength(LengthCode(lc)) else 0
  }

  function DistExtra(d: nat): (v: nat)
    requires d < 32768
    ensures v < Pow2(ExtraD(DistCode(d)))
  {
    DistBack(d);
    d - BaseDist(DistCode(d))
  }

  ghost function LenBits(ll: seq<int>, lc: nat): seq<bool>
    requires lc < 256 && LenCoded(ll, lc)
  {
    Codeword(ll, LengthCode(lc) + LITERALS + 1) + BitsOf(LenExtra(lc), ExtraL(LengthCode(lc)))
  }

  ghost function DistBits(dl: seq<int>, d: nat): seq<bool>
    requires d < 32768 && DistCoded(dl, d)
  {
    Codeword(dl, DistCode(d)) + BitsOf(DistExtra(d), ExtraD(DistCode(d)))
  }

  ghost function TokenBits(ll: seq<int>, dl: seq<int>, t: Token): seq<bool>
    requires Coded(ll, dl, t)
  {
    match t
    case Lit(c) => Codeword(ll, c)
    case Match(dist, len) => LenBits(ll, len - MIN_MATCH) + DistBits(dl, dist - 1)
  }

  ghost predicate AllCoded(ll: seq<int>, dl: seq<int>, tokens: seq<Token>) {
    Uses(ll, END_BLOCK) && forall i :: 0 <= i < |tokens| ==> Coded(ll, dl, tokens[i])
  }

  /** The tokens of a block, and the end-of-block code. */
  ghost function TokensBits(ll: seq<int>, dl: seq<int>, tokens: seq<Token>): seq<bool>
    requires AllCoded(ll, dl, tokens)
    decreases |tokens|
  {
    if tokens == [] then Codeword(ll, END_BLOCK) else TokenBits(ll, dl, tokens[0]) + TokensBits(ll, dl, tokens[1..])
  }
}

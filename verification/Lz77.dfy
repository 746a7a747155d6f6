/**
  The meaning of the symbols that the matcher hands to the Huffman coder: the
  (distance, literal-or-length) pairs kept in d_buf and l_buf, expanded as
  section 3.2.3 of RFC 1951 prescribes.
 */
module Lz77 {

  type Byte = b: int | 0 <= b < 256

  const MIN_MATCH := 3
  const MAX_MATCH := 258
  const MAX_DISTANCE := 32768

  datatype Option<+T> = None | Some(value: T)

  /** One entry of the symbol buffer, d_buf[k] and l_buf[k]: a zero distance marks a literal
      byte, otherwise `lc` is the match length less MIN_MATCH. */
  datatype Symbol = Literal(c: Byte) | Match(dist: nat, lc: nat)

  /** A finished block as passed to the Huffman coder: the symbols, and the raw bytes
      (when they are still in the window) from which a stored block could be written. */
  datatype Block = Block(syms: seq<Symbol>, raw: Option<seq<Byte>>, rawLen: int, last: bool)

  /** The symbol that _tr_tally_dist stores, with its narrowing casts to 16 and 8 bits. */
  function MatchSymbol(distance: nat, length: nat): Symbol
    requires length >= MIN_MATCH
  {
    Match(distance % 0x1_0000, (length - MIN_MATCH) % 0x100)
  }

  /** Copies `len` bytes, one at a time, from `dist` bytes back: source and destination may overlap. */
  function CopyBack(out: seq<Byte>, len: nat, dist: nat): seq<Byte>
    requires 1 <= dist <= |out|
    decreases len
  {
    if len == 0 then out else CopyBack(out + [out[|out| - dist]], len - 1, dist)
  }

  function ExpandOne(out: seq<Byte>, s: Symbol): Option<seq<Byte>> {
    match s
    case Literal(c) => Some(out + [c])
    case Match(dist, lc) =>
      if dist == 0 || dist > |out| || dist > MAX_DISTANCE || lc > MAX_MATCH - MIN_MATCH then None
      else Some(CopyBack(out, lc + MIN_MATCH, dist))
  }

  /** Expands a symbol sequence after the bytes already produced. */
  function Expand(out: seq<Byte>, syms: seq<Symbol>): Option<seq<Byte>> {
    if syms == [] then Some(out)
    else
      match Expand(out, syms[..|syms| - 1])
      case None => None
      case Some(o) => ExpandOne(o, syms[|syms| - 1])
  }

  /** Expands a sequence of blocks; each block's raw length and raw bytes, when present, must describe
      exactly the bytes its symbols expand to, so the coder may choose either form. */
  function ExpandBlocks(blocks: seq<Block>): Option<seq<Byte>> {
    if blocks == [] then Some([])
    else
      match ExpandBlocks(blocks[..|blocks| - 1])
      case None => None
      case Some(o) => ExpandBlock(o, blocks[|blocks| - 1])
  }

  function ExpandBlock(out: seq<Byte>, b: Block): Option<seq<Byte>> {
    match Expand(out, b.syms)
    case None => None
    case Some(o) =>
      if |o| - |out| != b.rawLen then None
      else if b.raw.Some? && out + b.raw.value != o then None
      else Some(o)
  }

  /** The `len` bytes of `hist` at `pos` also occur `pos - from` bytes earlier. */
  ghost predicate Genuine(hist: seq<Byte>, pos: int, from: int, len: nat) {
    && 0 <= from < pos
    && pos + len <= |hist|
    && hist[pos..pos + len] == hist[from..from + len]
  }

  lemma {:induction false} CopyBackReproduces(hist: seq<Byte>, pos: nat, dist: nat, len: nat)
    requires 1 <= dist <= pos
    requires Genuine(hist, pos, pos - dist, len)
    ensures CopyBack(hist[..pos], len, dist) == hist[..pos + len]
    decreases len
  {
    if len > 0 {
      assert hist[pos] == hist[pos..pos + len][0] == hist[pos - dist..pos - dist + len][0];
      assert hist[..pos] + [hist[..pos][pos - dist]] == hist[..pos + 1];
      assert hist[pos + 1..pos + len] == hist[pos..pos + len][1..];
      assert hist[pos + 1 - dist..pos - dist + len] == hist[pos - dist..pos - dist + len][1..];
      CopyBackReproduces(hist, pos + 1, dist, len - 1);
    }
  }

  lemma MatchExpands(hist: seq<Byte>, start: nat, syms: seq<Symbol>, pos: nat, dist: nat, len: nat)
    requires start <= pos && 1 <= dist <= pos && dist <= MAX_DISTANCE
    requires MIN_MATCH <= len <= MAX_MATCH
    requires Genuine(hist, pos, pos - dist, len)
    requires Expand(hist[..start], syms) == Some(hist[..pos])
    ensures Expand(hist[..start], syms + [MatchSymbol(dist, len)]) == Some(hist[..pos + len])
  {
    var all := syms + [MatchSymbol(dist, len)];
    assert all[..|all| - 1] == syms;
    CopyBackReproduces(hist, pos, dist, len);
  }

  lemma LiteralExpands(hist: seq<Byte>, start: nat, syms: seq<Symbol>, pos: nat)
    requires start <= pos < |hist|
    requires Expand(hist[..start], syms) == Some(hist[..pos])
    ensures Expand(hist[..start], syms + [Literal(hist[pos])]) == Some(hist[..pos + 1])
  {
    var all := syms + [Literal(hist[pos])];
    assert all[..|all| - 1] == syms;
    assert hist[..pos] + [hist[pos]] == hist[..pos + 1];
  }

  lemma BlockExpands(hist: seq<Byte>, blocks: seq<Block>, b: Block, start: nat, end: nat)
    requires start <= end <= |hist|
    requires ExpandBlocks(blocks) == Some(hist[..start])
    requires Expand(hist[..start], b.syms) == Some(hist[..end])
    requires b.rawLen == end - start
    requires b.raw.Some? ==> b.raw.value == hist[start..end]
    ensures ExpandBlocks(blocks + [b]) == Some(hist[..end])
  {
    var all := blocks + [b];
    assert all[..|all| - 1] == blocks;
    assert hist[..start] + hist[start..end] == hist[..end];
  }
}

/**
  The symbols of a block as bits, and back: compress_block of zlib/trees.c, and the decoder of section 3.2.3 of
  RFC 1951.
 */
module SymbolCoder {
  import opened BitArith
  import opened BitStream
  import opened Lz77
  import opened HuffmanCodes
  import opened DeflateTables

  const END_BLOCK: nat := 256

  /** A tree with its codes; decoders know the lengths only. */
  datatype Tree = Tree(codes: seq<nat>, lens: Lengths) {
    ghost predicate Ok() {
      Codable(lens) && HasCodes(lens, codes, |lens|)
    }

    predicate Uses(n: nat) {
      n < |lens| && lens[n] > 0
    }
  }

  datatype Tables = Tables(lengthCode: seq<nat>, baseLength: seq<nat>, distCode: seq<nat>, baseDist: seq<nat>) {
    ghost predicate Ok() {
      && |lengthCode| == 256 && |baseLength| == LENGTH_CODES && |distCode| == 512 && |baseDist| == D_CODES
      && (forall lc :: 0 <= lc < 256 ==> CodesLength(lengthCode[lc], lc))
      && (forall c :: 0 <= c < 28 ==> baseLength[c] == BaseL(c))
      && (forall d :: 0 <= d < 32768 ==> CodesDistance(DCode(distCode, d), d))
      && (forall c :: 0 <= c < D_CODES ==> baseDist[c] == BaseD(c))
    }
  }

  /** A symbol within the bounds of the format. */
  predicate Legal(s: Symbol) {
    s.Match? ==> 1 <= s.dist <= 32768 && s.lc < 256
  }

  function LCode(t: Tables, lc: nat): nat
    requires lc < |t.lengthCode|
  {
    t.lengthCode[lc]
  }

  /** The trees have codes for everything that a symbol needs. */
  predicate Sendable(t: Tables, l: Lengths, d: Lengths, s: Symbol)
    requires |t.lengthCode| == 256 && |t.distCode| == 512
  {
    && Legal(s)
    && match s
       case Literal(c) => c < |l| && l[c] > 0
       case Match(dist, lc) =>
         && LCode(t, lc) + 257 < |l| && l[LCode(t, lc) + 257] > 0
         && DCode(t.distCode, dist - 1) < |d| && d[DCode(t.distCode, dist - 1)] > 0
  }

  /** The extra bits of a length; the longest has none. */
  function LengthBits(c: nat, lc: nat): Bits
    requires CodesLength(c, lc)
  {
    if c == 28 then [] else BitsOf(lc - BaseL(c), ExtraL(c))
  }

  function DistanceBits(c: nat, d: nat): Bits
    requires CodesDistance(c, d)
  {
    BitsOf(d - BaseD(c), ExtraD(c))
  }

  /** The bits of a symbol. */
  ghost function SymbolBits(t: Tables, l: Lengths, d: Lengths, s: Symbol): Bits
    requires t.Ok() && Sendable(t, l, d, s)
  {
    match s
    case Literal(c) => CodeBits(l, c)
    case Match(dist, lc) =>
      var c, dc := LCode(t, lc), DCode(t.distCode, dist - 1);
      CodeBits(l, c + 257) + LengthBits(c, lc) + (CodeBits(d, dc) + DistanceBits(dc, dist - 1))
  }

  ghost predicate AllSendable(t: Tables, l: Lengths, d: Lengths, syms: seq<Symbol>)
    requires |t.lengthCode| == 256 && |t.distCode| == 512
  {
    forall s <- syms :: Sendable(t, l, d, s)
  }

  ghost function SymbolsBits(t: Tables, l: Lengths, d: Lengths, syms: seq<Symbol>): Bits
    requires t.Ok() && AllSendable(t, l, d, syms)
  {
    if syms == [] then []
    else SymbolsBits(t, l, d, syms[..|syms| - 1]) + SymbolBits(t, l, d, syms[|syms| - 1])
  }

  // ----- the decoder -----

  /** The length that a code and its extra bits stand for. */
  function DecodeLength(c: nat, bits: Bits): (r: Option<Decoded<nat>>)
    ensures r.Some? ==> |r.value.rest| <= |bits|
  {
    if c == 28 then Some(Decoded(255, bits))
    else if c > 28 || |bits| < ExtraL(c) then None
    else Some(Decoded(BaseL(c) + Value(bits[..ExtraL(c)]), bits[ExtraL(c)..]))
  }

  function DecodeDistance(c: nat, bits: Bits): (r: Option<Decoded<nat>>)
    ensures r.Some? ==> |r.value.rest| <= |bits|
  {
    if c >= D_CODES || |bits| < ExtraD(c) then None
    else Some(Decoded(BaseD(c) + Value(bits[..ExtraD(c)]), bits[ExtraD(c)..]))
  }

  datatype Item = End | Sym(s: Symbol)

  /** A length and the distance after it. */
  function DecodeMatch(c: nat, d: Lengths, bits: Bits): (r: Option<Decoded<Item>>)
    ensures r.Some? ==> |r.value.rest| <= |bits|
  {
    match DecodeLength(c, bits)
    case None => None
    case Some(len) =>
      match DecodeSymbol(d, len.rest)
      case None => None
      case Some(dc) =>
        match DecodeDistance(dc.value, dc.rest)
        case None => None
        case Some(dist) => Some(Decoded(Sym(Match(dist.value + 1, len.value)), dist.rest))
  }

  function DecodeItem(l: Lengths, d: Lengths, bits: Bits): (r: Option<Decoded<Item>>)
    ensures r.Some? ==> |r.value.rest| < |bits|
  {
    match DecodeSymbol(l, bits)
    case None => None
    case Some(n) =>
      if n.value < 256 then Some(Decoded(Sym(Literal(n.value)), n.rest))
      else if n.value == 256 then Some(Decoded(End, n.rest))
      else DecodeMatch(n.value - 257, d, n.rest)
  }

  /** The symbols up to the end of the block. */
  function DecodeSymbols(l: Lengths, d: Lengths, bits: Bits): Option<Decoded<seq<Symbol>>>
    decreases |bits|
  {
    match DecodeItem(l, d, bits)
    case None => None
    case Some(i) =>
      if i.value.End? then Some(Decoded([], i.rest))
      else
        match DecodeSymbols(l, d, i.rest)
        case None => None
        case Some(more) => Some(Decoded([i.value.s] + more.value, more.rest))
  }

  // ----- what is sent is what is decoded -----

  lemma DecodeExtra(v: nat, n: nat, rest: Bits)
    requires v < Pow2(n)
    ensures |BitsOf(v, n) + rest| >= n && Value((BitsOf(v, n) + rest)[..n]) == v && (BitsOf(v, n) + rest)[n..] == rest
  {
    ValueOfBits(v, n);
    assert (BitsOf(v, n) + rest)[..n] == BitsOf(v, n);
  }

  lemma DecodeLengthOf(c: nat, lc: nat, rest: Bits)
    requires CodesLength(c, lc)
    ensures DecodeLength(c, LengthBits(c, lc) + rest) == Some(Decoded(lc, rest))
  {
    hide BaseL;
    if c == 28 {
      assert [] + rest == rest;
    } else {
      DecodeExtra(lc - BaseL(c), ExtraL(c), rest);
    }
  }

  lemma DecodeDistanceOf(c: nat, d: nat, rest: Bits)
    requires CodesDistance(c, d)
    ensures DecodeDistance(c, DistanceBits(c, d) + rest) == Some(Decoded(d, rest))
  {
    hide BaseD;
    DecodeExtra(d - BaseD(c), ExtraD(c), rest);
  }

  lemma DecodeMatchOf(c: nat, lc: nat, d: Lengths, dc: nat, dist: nat, rest: Bits)
    requires CodesLength(c, lc) && CodesDistance(dc, dist) && Codable(d) && dc < |d| && d[dc] > 0
    ensures DecodeMatch(c, d, LengthBits(c, lc) + (CodeBits(d, dc) + (DistanceBits(dc, dist) + rest)))
         == Some(Decoded(Sym(Match(dist + 1, lc)), rest))
  {
    hide DecodeLength, DecodeSymbol, DecodeDistance, LengthBits, CodeBits, DistanceBits, Codable, CodesLength,
      CodesDistance;
    var far := DistanceBits(dc, dist) + rest;
    DecodeLengthOf(c, lc, CodeBits(d, dc) + far);
    DecodeCode(d, dc, far);
    DecodeDistanceOf(dc, dist, rest);
  }

  lemma DecodeItemOf(t: Tables, l: Lengths, d: Lengths, s: Symbol, rest: Bits)
    requires t.Ok() && Sendable(t, l, d, s) && Codable(l) && Codable(d)
    ensures DecodeItem(l, d, SymbolBits(t, l, d, s) + rest) == Some(Decoded(Sym(s), rest))
  {
    hide DecodeMatch, DecodeSymbol, LengthBits, CodeBits, DistanceBits, Codable, CodesLength, CodesDistance, DCode;
    match s
    case Literal(c) =>
      DecodeCode(l, c, rest);
    case Match(dist, lc) =>
      var c, dc := LCode(t, lc), DCode(t.distCode, dist - 1);
      var far := DistanceBits(dc, dist - 1) + rest;
      var more := LengthBits(c, lc) + (CodeBits(d, dc) + far);
      assert SymbolBits(t, l, d, s) + rest == CodeBits(l, c + 257) + more;
      DecodeCode(l, c + 257, more);
      DecodeMatchOf(c, lc, d, dc, dist - 1, rest);
  }

  lemma {:induction false} DecodeSymbolsOf(t: Tables, l: Lengths, d: Lengths, syms: seq<Symbol>, i: nat, rest: Bits,
                                           tail: seq<Symbol>, end: Bits)
    requires t.Ok() && AllSendable(t, l, d, syms) && Codable(l) && Codable(d) && i <= |syms|
    requires DecodeSymbols(l, d, rest) == Some(Decoded(tail, end))
    ensures AllSendable(t, l, d, syms[..i])
    ensures DecodeSymbols(l, d, SymbolsBits(t, l, d, syms[..i]) + rest) == Some(Decoded(syms[..i] + tail, end))
    decreases i
  {
    hide DecodeItem, SymbolBits, Sendable, Codable;
    if i == 0 {
      assert SymbolsBits(t, l, d, syms[..i]) + rest == rest && syms[..i] + tail == tail;
    } else {
      var before, s := syms[..i - 1], syms[i - 1];
      assert syms[..i][..i - 1] == before && syms[..i][i - 1] == s;
      var b := SymbolBits(t, l, d, s);
      DecodeItemOf(t, l, d, s, rest);
      assert DecodeSymbols(l, d, b + rest) == Some(Decoded([s] + tail, end));
      DecodeSymbolsOf(t, l, d, syms, i - 1, b + rest, [s] + tail, end);
      assert SymbolsBits(t, l, d, syms[..i]) + rest == SymbolsBits(t, l, d, before) + (b + rest);
      assert before + ([s] + tail) == syms[..i] + tail;
    }
  }

  /** The symbols of a block and the end of block symbol decode to the symbols, whatever follows. */
  lemma RoundTrip(t: Tables, l: Lengths, d: Lengths, syms: seq<Symbol>, rest: Bits)
    requires t.Ok() && AllSendable(t, l, d, syms) && Codable(l) && Codable(d) && END_BLOCK < |l| && l[END_BLOCK] > 0
    ensures DecodeSymbols(l, d, SymbolsBits(t, l, d, syms) + CodeBits(l, END_BLOCK) + rest) == Some(Decoded(syms, rest))
  {
    hide DecodeItem, SymbolBits, Sendable, Codable, AllSendable, SymbolsBits, CodeBits;
    var e := CodeBits(l, END_BLOCK) + rest;
    EndItem(l, d, rest);
    assert DecodeSymbols(l, d, e) == Some(Decoded([], rest));
    DecodeSymbolsOf(t, l, d, syms, |syms|, e, [], rest);
    assert syms[..|syms|] == syms && syms + [] == syms;
    assert SymbolsBits(t, l, d, syms) + CodeBits(l, END_BLOCK) + rest == SymbolsBits(t, l, d, syms) + e;
  }

  lemma EndItem(l: Lengths, d: Lengths, rest: Bits)
    requires Codable(l) && END_BLOCK < |l| && l[END_BLOCK] > 0
    ensures DecodeItem(l, d, CodeBits(l, END_BLOCK) + rest) == Some(Decoded(End, rest))
  {
    hide Codable, CodeBits, DecodeSymbol;
    DecodeCode(l, END_BLOCK, rest);
  }

  // ----- compress_block -----

  /** send_code. */
  method SendCode(w: BitWriter, tree: Tree, c: nat)
    requires w.Valid() && tree.Ok() && tree.Uses(c)
    modifies w
    ensures w.Valid() && w.Sent() == old(w.Sent()) + CodeBits(tree.lens, c)
  {
    hide CodeBits, BitsOf, Pow2, BytesBits, Kraft;
    w.SendBits(tree.codes[c], tree.lens[c]);
  }

  /** The code of a length and its extra bits. */
  method SendLength(w: BitWriter, t: Tables, ltree: Tree, lc: nat)
    requires w.Valid() && t.Ok() && ltree.Ok() && lc < 256 && ltree.Uses(LCode(t, lc) + 257)
    modifies w
    ensures w.Valid()
    ensures w.Sent() == old(w.Sent()) + (CodeBits(ltree.lens, LCode(t, lc) + 257) + LengthBits(LCode(t, lc), lc))
  {
    hide CodeBits, BitsOf, Pow2, BitWriter.Sent, BitWriter.Valid, Tree.Ok, BaseL;
    var code := t.lengthCode[lc];
    SendCode(w, ltree, code + 257);
    var extra := ExtraL(code);
    if extra != 0 {
      w.SendBits(lc - t.baseLength[code], extra);
    } else {
      NoBits(if code == 28 then 0 else lc - BaseL(code));
    }
    ghost var a, b := CodeBits(ltree.lens, code + 257), LengthBits(code, lc);
    assert old(w.Sent()) + a + b == old(w.Sent()) + (a + b);
  }

  /** The code of a distance and its extra bits. */
  method SendDistance(w: BitWriter, t: Tables, dtree: Tree, dist: nat)
    requires w.Valid() && t.Ok() && dtree.Ok() && dist < 32768 && dtree.Uses(DCode(t.distCode, dist))
    modifies w
    ensures w.Valid()
    ensures var c := DCode(t.distCode, dist);
      w.Sent() == old(w.Sent()) + (CodeBits(dtree.lens, c) + DistanceBits(c, dist))
  {
    hide CodeBits, BitsOf, Pow2, BitWriter.Sent, BitWriter.Valid, Tree.Ok, BaseD, DCode;
    var code := DCode(t.distCode, dist);
    SendCode(w, dtree, code);
    var extra := ExtraD(code);
    if extra != 0 {
      w.SendBits(dist - t.baseDist[code], extra);
    } else {
      NoBits(dist - BaseD(code));
    }
    ghost var a, b := CodeBits(dtree.lens, code), DistanceBits(code, dist);
    assert old(w.Sent()) + a + b == old(w.Sent()) + (a + b);
  }

  /** One symbol. */
  method SendSymbol(w: BitWriter, t: Tables, ltree: Tree, dtree: Tree, s: Symbol)
    requires w.Valid() && t.Ok() && ltree.Ok() && dtree.Ok() && Sendable(t, ltree.lens, dtree.lens, s)
    modifies w
    ensures w.Valid() && w.Sent() == old(w.Sent()) + SymbolBits(t, ltree.lens, dtree.lens, s)
  {
    hide CodeBits, BitWriter.Sent, BitWriter.Valid, Tree.Ok, LengthBits, DistanceBits;
    hide CodesLength, CodesDistance, DCode;
    match s
    case Literal(lc) =>
      SendCode(w, ltree, lc);
    case Match(dist, lc) =>
      SendLength(w, t, ltree, lc);
      SendDistance(w, t, dtree, dist - 1);
      ghost var c, dc := LCode(t, lc), DCode(t.distCode, dist - 1);
      ghost var a := CodeBits(ltree.lens, c + 257) + LengthBits(c, lc);
      ghost var b := CodeBits(dtree.lens, dc) + DistanceBits(dc, dist - 1);
      assert old(w.Sent()) + a + b == old(w.Sent()) + (a + b);
  }

  /** compress_block: all symbols and the end of the block. */
  method CompressBlock(w: BitWriter, t: Tables, syms: seq<Symbol>, ltree: Tree, dtree: Tree)
    requires w.Valid() && t.Ok() && ltree.Ok() && dtree.Ok() && AllSendable(t, ltree.lens, dtree.lens, syms)
    requires ltree.Uses(END_BLOCK)
    modifies w
    ensures w.Valid()
    ensures w.Sent() == old(w.Sent())
      + (SymbolsBits(t, ltree.lens, dtree.lens, syms) + CodeBits(ltree.lens, END_BLOCK))
  {
    hide CodeBits, BitWriter.Sent, BitWriter.Valid, Tree.Ok, SymbolBits, Sendable, CodesLength, CodesDistance;
    ghost var start, l, d := w.Sent(), ltree.lens, dtree.lens;
    var lx := 0;
    assert syms[..0] == [] && start + [] == start;
    while lx < |syms|
      invariant 0 <= lx <= |syms| && w.Valid() && w.Sent() == start + SymbolsBits(t, l, d, syms[..lx])
    {
      var s := syms[lx];
      assert Sendable(t, l, d, s);
      SendSymbol(w, t, ltree, dtree, s);
      lx := lx + 1;
      assert syms[..lx][..lx - 1] == syms[..lx - 1];
      ghost var a, b := SymbolsBits(t, l, d, syms[..lx - 1]), SymbolBits(t, l, d, s);
      assert start + a + b == start + (a + b);
    }
    assert syms[..|syms|] == syms;
    SendCode(w, ltree, END_BLOCK);
    ghost var a, b := SymbolsBits(t, l, d, syms), CodeBits(l, END_BLOCK);
    assert start + a + b == start + (a + b);
  }

  lemma NoBits(v: nat)
    ensures BitsOf(v, 0) == []
  {}
}

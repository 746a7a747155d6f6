/**
  Whole blocks as bits, and back: _tr_flush_block, _tr_stored_block and _tr_align of zlib/trees.c, and the decoder of
  section 3.2.3 of RFC 1951, down to the bytes of the stream.
 */
module BlockCoder {
  import opened BitArith
  import opened BitStream
  import opened Lz77
  import opened HuffmanCodes
  import opened HuffmanTree
  import opened DeflateTables
  import opened SymbolCoder
  import opened TreeCoder
  import opened BlockLengths
  import opened HeaderCoder
  import opened Prices
  import PrefixCodes

  // ----- the decoder -----

  function BytesOf(bits: Bits): seq<Byte>
    requires |bits| % 8 == 0
  {
    if bits == [] then []
    else
      ByteFits(bits[..8]);
      [Value(bits[..8])] + BytesOf(bits[8..])
  }

  lemma ByteFits(b: Bits)
    requires |b| == 8
    ensures Value(b) < 256
  {
    BitsOfValue(b);
    Pow2Of8();
  }

  /** What a block holds: bytes, or symbols to be expanded. */
  datatype Piece = Raw(data: seq<Byte>) | Coded(syms: seq<Symbol>)

  datatype Read = Read(piece: Piece, last: bool)

  /** A block without compression, from the first whole byte on; the stream ends with a whole byte. */
  function ReadStored(bits: Bits): (r: Option<Decoded<Piece>>)
    ensures r.Some? ==> |r.value.rest| <= |bits|
  {
    var b := bits[|bits| % 8..];
    if |b| < 32 then None
    else
      var len, nlen := Value(b[..16]), Value(b[16..32]);
      if nlen + len != 0xffff || |b| < 32 + 8 * len then None
      else Some(Decoded(Raw(BytesOf(b[32..32 + 8 * len])), b[32 + 8 * len..]))
  }

  function ReadCoded(l: Lengths, d: Lengths, bits: Bits): Option<Decoded<Piece>> {
    match DecodeSymbols(l, d, bits)
    case None => None
    case Some(s) => Some(Decoded(Coded(s.value), s.rest))
  }

  /** A block: three bits, and what they announce. */
  function ReadBlock(bits: Bits): Option<Decoded<Read>> {
    if |bits| < 3 then None
    else
      var kind, b := Value(bits[1..3]), bits[3..];
      var piece :=
        if kind == 0 then ReadStored(b)
        else if kind == 1 then ReadCoded(StaticL(), StaticD(), b)
        else if kind == 2 then
          match ReadHeader(b)
          case None => None
          case Some(h) => ReadCoded(h.value.l, h.value.d, h.rest)
        else None;
      match piece
      case None => None
      case Some(p) => Some(Decoded(Read(p.value, bits[0]), p.rest))
  }

  /** The output after a piece. */
  function Output(out: seq<Byte>, p: Piece): Option<seq<Byte>> {
    match p
    case Raw(data) => Some(out + data)
    case Coded(syms) => Expand(out, syms)
  }

  /** The decoder: blocks up to the last. */
  function Inflate(bits: Bits, out: seq<Byte>): Option<seq<Byte>>
    decreases |bits|
  {
    match ReadBlock(bits)
    case None => None
    case Some(b) =>
      match Output(out, b.value.piece)
      case None => None
      case Some(more) =>
        if b.value.last then Some(more)
        else if |b.rest| >= |bits| then None
        else Inflate(b.rest, more)
  }

  // ----- what blocks are sent as -----

  /** These bits, sent from bit `pos` of the stream on, are read as this block, whatever follows. */
  ghost predicate Encodes(bits: Bits, pos: nat, piece: Piece, last: bool) {
    && bits != []
    && forall rest: Bits :: (pos + |bits| + |rest|) % 8 == 0 ==>
         ReadBlock(bits + rest) == Some(Decoded(Read(piece, last), rest))
  }

  /** The type of a block and whether it is the last. */
  ghost function KindBits(kind: nat, last: bool): Bits {
    BitsOf(2 * kind + (if last then 1 else 0), 3)
  }

  lemma KindBack(kind: nat, last: bool, rest: Bits)
    requires kind < 3
    ensures var bits := KindBits(kind, last) + rest;
      |bits| >= 3 && bits[0] == last && Value(bits[1..3]) == kind && bits[3..] == rest
  {
    var v := 2 * kind + (if last then 1 else 0);
    var bits := KindBits(kind, last) + rest;
    assert v / 2 == kind && v % 2 == (if last then 1 else 0);
    assert BitsOf(v, 3) == [v % 2 == 1] + BitsOf(v / 2, 2);
    assert bits[1..3] == BitsOf(kind, 2);
    SmallPowers();
    ValueOfBits(kind, 2);
  }

  ghost function StoredBits(pos: nat, last: bool, data: seq<Byte>): Bits
    requires |data| <= 0xffff
  {
    KindBits(0, last)
      + (BitStream.Zeros(Padding(pos + 3)) + (BitsOf(|data|, 16) + (BitsOf(0xffff - |data|, 16) + BytesBits(data))))
  }

  lemma {:induction false} BytesBitsFirst(x: Byte, bytes: seq<Byte>)
    ensures BytesBits([x] + bytes) == BitsOf(x, 8) + BytesBits(bytes)
    decreases |bytes|
  {
    hide BitsOf;
    var all := [x] + bytes;
    if bytes == [] {
      assert all[..0] == [] && all == [x];
      assert BytesBits(all) == BytesBits(all[..0]) + BitsOf(x, 8);
      assert [] + BitsOf(x, 8) == BitsOf(x, 8) + [];
    } else {
      var n, y := |bytes| - 1, bytes[|bytes| - 1];
      BytesBitsFirst(x, bytes[..n]);
      assert all[..n + 1] == [x] + bytes[..n] && all[n + 1] == y;
      Assoc(BitsOf(x, 8), BytesBits(bytes[..n]), BitsOf(y, 8));
    }
  }

  lemma {:induction false} BytesBack(bytes: seq<Byte>)
    ensures BytesOf(BytesBits(bytes)) == bytes
  {
    if bytes != [] {
      var x, rest := bytes[0], bytes[1..];
      assert bytes == [x] + rest;
      BytesBitsFirst(x, rest);
      BytesBack(rest);
      var b := BytesBits(bytes);
      assert b[..8] == BitsOf(x, 8) && b[8..] == BytesBits(rest);
      Pow2Of8();
      ValueOfBits(x, 8);
    }
  }

  lemma ReadStoredOf(pad: nat, data: seq<Byte>, rest: Bits)
    requires |data| <= 0xffff && pad < 8 && |rest| % 8 == 0
    ensures var body := BitsOf(|data|, 16) + (BitsOf(0xffff - |data|, 16) + BytesBits(data));
      ReadStored(BitStream.Zeros(pad) + body + rest) == Some(Decoded(Raw(data), rest))
  {
    hide *;
    var len, z := |data|, BitStream.Zeros(pad);
    var x, y, d := BitsOf(len, 16), BitsOf(0xffff - len, 16), BytesBits(data);
    Pow16();
    ValueOfBits(len, 16);
    ValueOfBits(0xffff - len, 16);
    BytesBack(data);
    assert |z| == pad by { ZerosSize(pad); }
    StoredParts(z, x, y, d, rest, data);
  }

  lemma ZerosSize(n: nat)
    ensures |BitStream.Zeros(n)| == n
  {}

  lemma StoredParts(z: Bits, x: Bits, y: Bits, d: Bits, rest: Bits, data: seq<Byte>)
    requires |z| < 8 && |x| == |y| == 16 && |d| == 8 * |data| && |rest| % 8 == 0 && |data| <= 0xffff
    requires Value(x) == |data| && Value(y) == 0xffff - |data| && BytesOf(d) == data
    ensures ReadStored(z + (x + (y + d)) + rest) == Some(Decoded(Raw(data), rest))
  {
    hide *;
    var bits := z + (x + (y + d)) + rest;
    var b := FourParts(bits, z, x, y, d, rest);
    ReadStoredIs(bits, b, x, y, d, rest, data);
  }

  lemma ReadStoredIs(bits: Bits, b: Bits, x: Bits, y: Bits, d: Bits, rest: Bits, data: seq<Byte>)
    requires b == bits[|bits| % 8..] && |d| == 8 * |data| && |b| == 32 + |d| + |rest|
    requires b[..16] == x && b[16..32] == y && b[32..32 + |d|] == d && b[32 + |d|..] == rest
    requires Value(x) == |data| && Value(y) == 0xffff - |data| && BytesOf(d) == data
    ensures ReadStored(bits) == Some(Decoded(Raw(data), rest))
  {
    hide Value, BytesOf;
  }

  /** The parts of a stored block are where the decoder looks for them. */
  lemma FourParts(bits: Bits, z: Bits, x: Bits, y: Bits, d: Bits, rest: Bits) returns (b: Bits)
    requires bits == z + (x + (y + d)) + rest
    requires |z| < 8 && |x| == |y| == 16 && |d| % 8 == 0 && |rest| % 8 == 0
    ensures b == bits[|bits| % 8..] && |b| == 32 + |d| + |rest|
    ensures b[..16] == x && b[16..32] == y && b[32..32 + |d|] == d && b[32 + |d|..] == rest
  {
    assert |bits| == |z| + 32 + |d| + |rest|;
    assert |bits| % 8 == |z|;
    b := bits[|z|..];
    assert b == x + y + d + rest;
  }

  lemma Pow16()
    ensures Pow2(16) == 0x1_0000
  {
    assert Pow2(8) == 256;
    assert Pow2(12) == 4096;
  }

  /** A block of each kind. */
  lemma ReadKind(kind: nat, last: bool, b: Bits, p: Piece, rest: Bits)
    requires
      || (kind == 0 && ReadStored(b) == Some(Decoded(p, rest)))
      || (kind == 1 && ReadCoded(StaticL(), StaticD(), b) == Some(Decoded(p, rest)))
      || (kind == 2 && ReadHeader(b).Some? && var h := ReadHeader(b).value;
            ReadCoded(h.value.l, h.value.d, h.rest) == Some(Decoded(p, rest)))
    ensures ReadBlock(KindBits(kind, last) + b) == Some(Decoded(Read(p, last), rest))
  {
    hide KindBits, ReadStored, ReadCoded, ReadHeader, StaticL, StaticD, Value;
    KindBack(kind, last, b);
  }

  lemma StoredEncodes(pos: nat, last: bool, data: seq<Byte>)
    requires |data| <= 0xffff
    ensures Encodes(StoredBits(pos, last, data), pos, Raw(data), last)
  {
    hide BitsOf, BytesBits, ReadBlock, ReadStored;
    var bits, pad := StoredBits(pos, last, data), Padding(pos + 3);
    var body := BitsOf(|data|, 16) + (BitsOf(0xffff - |data|, 16) + BytesBits(data));
    var z := BitStream.Zeros(pad);
    forall rest: Bits | (pos + |bits| + |rest|) % 8 == 0
      ensures ReadBlock(bits + rest) == Some(Decoded(Read(Raw(data), last), rest))
    {
      assert |bits| == 3 + pad + 32 + 8 * |data|;
      Aligned(pos, pad, |data|, |rest|);
      ReadStoredOf(pad, data, rest);
      ReadKind(0, last, z + body + rest, Raw(data), rest);
      Assoc(KindBits(0, last), z + body, rest);
    }
  }

  lemma Aligned(pos: nat, pad: nat, len: nat, rest: nat)
    requires pad == Padding(pos + 3) && (pos + (3 + pad + 32 + 8 * len) + rest) % 8 == 0
    ensures rest % 8 == 0
  {}

  lemma StaticEnd()
    ensures |StaticL()| == 288 && |StaticD()| == D_CODES && StaticL()[END_BLOCK] > 0
  {}

  /** A block with the fixed codes. */
  lemma StaticEncodes(t: Tables, pos: nat, last: bool, syms: seq<Symbol>)
    requires t.Ok() && AllSendable(t, StaticL(), StaticD(), syms) && Codable(StaticL()) && Codable(StaticD())
    ensures |StaticL()| > END_BLOCK && StaticL()[END_BLOCK] > 0
    ensures Encodes(KindBits(1, last) + (SymbolsBits(t, StaticL(), StaticD(), syms) + CodeBits(StaticL(), END_BLOCK)),
              pos, Coded(syms), last)
  {
    StaticEnd();
    hide ReadBlock, StaticL, StaticD, SymbolsBits, CodeBits, DecodeSymbols, AllSendable, Codable, Tables.Ok;
    var body := SymbolsBits(t, StaticL(), StaticD(), syms) + CodeBits(StaticL(), END_BLOCK);
    var bits := KindBits(1, last) + body;
    forall rest: Bits ensures ReadBlock(bits + rest) == Some(Decoded(Read(Coded(syms), last), rest)) {
      RoundTrip(t, StaticL(), StaticD(), syms, rest);
      ReadKind(1, last, body + rest, Coded(syms), rest);
      Assoc(KindBits(1, last), body, rest);
    }
  }

  /** A block with codes of its own. */
  lemma DynamicEncodes(t: Tables, pos: nat, last: bool, syms: seq<Symbol>, l: Lengths, d: Lengths, bl: Lengths, n: nat)
    requires t.Ok() && AllSendable(t, l, d, syms) && Codable(l) && Codable(d) && HeaderOk(l, d, bl, n)
    requires l[END_BLOCK] > 0
    ensures
      Encodes(KindBits(2, last) + (HeaderBits(l, d, bl, n) + (SymbolsBits(t, l, d, syms) + CodeBits(l, END_BLOCK))),
              pos, Coded(syms), last)
  {
    assert |l| > END_BLOCK;
    hide ReadBlock, ReadHeader, HeaderBits, HeaderOk, SymbolsBits, CodeBits, DecodeSymbols, AllSendable, Codable;
    hide Tables.Ok;
    var h, body := HeaderBits(l, d, bl, n), SymbolsBits(t, l, d, syms) + CodeBits(l, END_BLOCK);
    var bits := KindBits(2, last) + (h + body);
    forall rest: Bits ensures ReadBlock(bits + rest) == Some(Decoded(Read(Coded(syms), last), rest)) {
      HeaderBack(l, d, bl, n, body + rest);
      RoundTrip(t, l, d, syms, rest);
      ReadKind(2, last, h + (body + rest), Coded(syms), rest);
      Assoc(KindBits(2, last), h + body, rest);
      Assoc(h, body, rest);
    }
  }

  // ----- the coder -----

  lemma {:induction false} BytesBitsConcat(a: seq<Byte>, b: seq<Byte>)
    ensures BytesBits(a + b) == BytesBits(a) + BytesBits(b)
    decreases |b|
  {
    hide BitsOf;
    if b == [] {
      assert a + b == a && BytesBits(a) + [] == BytesBits(a);
    } else {
      var n, y := |b| - 1, b[|b| - 1];
      BytesBitsConcat(a, b[..n]);
      assert (a + b)[..|a| + n] == a + b[..n];
      Assoc(BytesBits(a), BytesBits(b[..n]), BitsOf(y, 8));
    }
  }

  /** _tr_stored_block. */
  method TrStoredBlock(w: BitWriter, data: seq<Byte>, last: bool)
    requires w.Valid() && |data| <= 0xffff
    modifies w
    ensures w.Valid() && w.biValid == 0
    ensures w.Sent() == old(w.Sent()) + StoredBits(|old(w.Sent())|, last, data)
  {
    hide BitsOf, BytesBits, Pow2, BitStream.Zeros;
    ghost var start := w.Sent();
    SmallPowers();
    Pow16();
    w.SendBits(if last then 1 else 0, 3);
    ghost var k := BitsOf(if last then 1 else 0, 3);
    w.BiWindup();
    ghost var z := BitStream.Zeros(Padding(|start| + 3));
    assert |k| == 3 && |start + k| == |start| + 3;
    AllInBytes(w);
    w.PutShort(|data|);
    w.PutShort(0xffff - |data|);
    BytesBitsConcat(w.pending, data);
    w.pending := w.pending + data;
    AllInBytes(w);
    FiveParts(start, k, z, BitsOf(|data|, 16), BitsOf(0xffff - |data|, 16), BytesBits(data));
  }

  /** With no bits in the buffer all is in the bytes. */
  lemma AllInBytes(w: BitWriter)
    requires w.biValid == 0
    ensures w.Sent() == BytesBits(w.pending)
  {
    assert BitsOf(w.biBuf, 0) == [] && BytesBits(w.pending) + [] == BytesBits(w.pending);
  }

  lemma FiveParts(s: Bits, a: Bits, b: Bits, c: Bits, d: Bits, e: Bits)
    ensures s + a + b + c + d + e == s + (a + (b + (c + (d + e))))
  {
    assert s + a + b + c + d + e == s + (a + b + c + d + e);
  }

  /** The fixed trees as the coder has them. */
  ghost predicate StaticTrees(sl: Tree, sd: Tree) {
    sl.Ok() && sd.Ok() && sl.lens == StaticL() && sd.lens == StaticD()
  }

  /** Every legal symbol has fixed codes. */
  lemma StaticSendable(t: Tables, syms: seq<Symbol>)
    requires t.Ok() && AllLegal(syms)
    ensures AllSendable(t, StaticL(), StaticD(), syms)
  {
    forall s | s in syms ensures Sendable(t, StaticL(), StaticD(), s) {
      if s.Match? {
        assert CodesLength(t.lengthCode[s.lc], s.lc) && CodesDistance(DCode(t.distCode, s.dist - 1), s.dist - 1);
      }
    }
  }

  /** A block with the fixed codes. */
  ghost function StaticBlock(t: Tables, last: bool, syms: seq<Symbol>): Bits
    requires t.Ok() && AllLegal(syms)
  {
    StaticSendable(t, syms);
    KindBits(1, last) + (SymbolsBits(t, StaticL(), StaticD(), syms) + CodeBits(StaticL(), END_BLOCK))
  }

  method SendStatic(w: BitWriter, t: Tables, sl: Tree, sd: Tree, syms: seq<Symbol>, last: bool)
      returns (ghost bits: Bits)
    requires w.Valid() && t.Ok() && StaticTrees(sl, sd) && AllLegal(syms)
    modifies w
    ensures w.Valid() && w.Sent() == old(w.Sent()) + bits && Encodes(bits, |old(w.Sent())|, Coded(syms), last)
    ensures bits == StaticBlock(t, last, syms)
  {
    StaticSendable(t, syms);
    StaticEnd();
    hide BitsOf, Pow2, StaticL, StaticD, AllSendable, SymbolsBits, CodeBits, Encodes, BitWriter.Sent, BitWriter.Valid;
    hide Codable, HasCodes, Tables.Ok;
    ghost var start := w.Sent();
    SmallPowers();
    w.SendBits(if last then 3 else 2, 3);
    CompressBlock(w, t, syms, sl, sd);
    ghost var body := SymbolsBits(t, StaticL(), StaticD(), syms) + CodeBits(StaticL(), END_BLOCK);
    bits := KindBits(1, last) + body;
    Assoc(start, KindBits(1, last), body);
    StaticEncodes(t, |start|, last, syms);
  }

  /** _tr_align: an empty block with the fixed codes. */
  method TrAlign(w: BitWriter, t: Tables, sl: Tree, sd: Tree) returns (ghost bits: Bits)
    requires w.Valid() && t.Ok() && StaticTrees(sl, sd)
    modifies w
    ensures w.Valid() && w.Sent() == old(w.Sent()) + bits && Encodes(bits, |old(w.Sent())|, Coded([]), false)
    ensures bits == StaticBlock(t, false, []) && w.biValid < 8
  {
    hide Encodes, BitWriter.Sent, BitWriter.Valid, StaticTrees, Tables.Ok, StaticBlock;
    bits := SendStatic(w, t, sl, sd, [], false);
    w.BiFlush();
  }

  /** The frequencies of the codes, as _tr_tally counts them. */
  method Frequencies(t: Tables, syms: seq<Symbol>) returns (lfreq: seq<nat>, dfreq: seq<nat>)
    requires t.Ok() && |syms| < MAX_SYMBOLS && AllLegal(syms)
    ensures lfreq == LCounts(t, syms) && dfreq == DCounts(t, syms)
  {
    hide Tables.Ok, LCounts, DCounts;
    lfreq, dfreq := seq(HEAP_SIZE, _ => 0), seq(61, _ => 0);
    lfreq := lfreq[END_BLOCK := 1];
    NoneCounted(t, syms);
    for i := 0 to |syms|
      invariant AllLegal(syms[..i]) && lfreq == LCounts(t, syms[..i]) && dfreq == DCounts(t, syms[..i])
    {
      assert Legal(syms[i]) && syms[..i + 1] == syms[..i] + [syms[i]];
      lfreq, dfreq := TrTally(t, lfreq, dfreq, syms[i], syms[..i]);
    }
    assert syms[..|syms|] == syms;
  }

  /** No block has more symbols than the buffer of the coder. */
  const MAX_SYMBOLS: nat := 0x8000

  lemma NoneCounted(t: Tables, syms: seq<Symbol>)
    requires t.Ok()
    ensures AllLegal(syms[..0]) && DCounts(t, syms[..0]) == seq(61, _ => 0)
    ensures LCounts(t, syms[..0]) == seq(HEAP_SIZE, _ => 0)[END_BLOCK := 1]
  {
    hide Tables.Ok;
    assert syms[..0] == [];
  }

  /** One more of a code; counts have 16 bits. */
  function Incremented(freq: seq<nat>, x: nat): seq<nat>
    requires x < |freq|
  {
    freq[x := (freq[x] + 1) % 0x1_0000]
  }

  /** _tr_tally. */
  method TrTally(t: Tables, l: seq<nat>, d: seq<nat>, s: Symbol, ghost before: seq<Symbol>)
      returns (l': seq<nat>, d': seq<nat>)
    requires t.Ok() && Legal(s) && AllLegal(before) && |before| < MAX_SYMBOLS
    requires l == LCounts(t, before) && d == DCounts(t, before)
    ensures AllLegal(before + [s]) && l' == LCounts(t, before + [s]) && d' == DCounts(t, before + [s])
  {
    CodesFit(t, s);
    Tallied(t, before, s);
    hide Tables.Ok, LCounts, DCounts, DCode;
    d' := d;
    match s {
      case Literal(c) =>
        l' := Incremented(l, c);
      case Match(dist, lc) =>
        l' := Incremented(l, t.lengthCode[lc] + 257);
        d' := Incremented(d, DCode(t.distCode, dist - 1));
    }
  }

  lemma CodesFit(t: Tables, s: Symbol)
    requires t.Ok() && Legal(s)
    ensures |t.lengthCode| == 256 && |t.distCode| == 512
    ensures s.Match? ==> LCode(t, s.lc) < 29 && DCode(t.distCode, s.dist - 1) < 30
  {
    if s.Match? {
      assert CodesLength(t.lengthCode[s.lc], s.lc) && CodesDistance(DCode(t.distCode, s.dist - 1), s.dist - 1);
    }
  }

  lemma OnceCounted(t: Tables, before: seq<Symbol>, s: Symbol)
    requires t.Ok() && AllLegal(before) && Legal(s)
    ensures AllLegal(before + [s])
    ensures var l := LCounts(t, before); LCounts(t, before + [s]) == l[LNumber(t, s) := l[LNumber(t, s)] + 1]
    ensures var d := DCounts(t, before);
      DCounts(t, before + [s]) == if s.Match? then d[DNumber(t, s.dist) := d[DNumber(t, s.dist)] + 1] else d
  {
    hide Tables.Ok, LNumber, DNumber;
    assert (before + [s])[..|before|] == before;
  }

  /** One symbol more. */
  lemma Tallied(t: Tables, before: seq<Symbol>, s: Symbol)
    requires t.Ok() && AllLegal(before) && Legal(s) && |before| < MAX_SYMBOLS
    ensures AllLegal(before + [s])
    ensures LCounts(t, before + [s]) == Incremented(LCounts(t, before), LNumber(t, s))
    ensures DCounts(t, before + [s])
         == if s.Match? then Incremented(DCounts(t, before), DNumber(t, s.dist)) else DCounts(t, before)
  {
    hide Tables.Ok, LNumber, DNumber, LCounts, DCounts, Incremented, AllLegal;
    OnceCounted(t, before, s);
    AtMostAll(t, before, LNumber(t, s));
    NoWrap(LCounts(t, before), LNumber(t, s));
    if s.Match? {
      AtMostAll(t, before, DNumber(t, s.dist));
      NoWrap(DCounts(t, before), DNumber(t, s.dist));
    }
  }

  lemma NoWrap(freq: seq<nat>, x: nat)
    requires x < |freq| && freq[x] < 0xffff
    ensures Incremented(freq, x) == freq[x := freq[x] + 1]
  {}

  /** No count is more than the number of symbols and the end. */
  lemma {:induction false} AtMostAll(t: Tables, syms: seq<Symbol>, x: nat)
    requires t.Ok() && AllLegal(syms)
    ensures x < 573 ==> LCounts(t, syms)[x] <= |syms| + 1
    ensures x < 61 ==> DCounts(t, syms)[x] <= |syms| + 1
    decreases |syms|
  {
    hide Tables.Ok, LNumber, DNumber;
    if syms != [] {
      AtMostAll(t, syms[..|syms| - 1], x);
    }
  }

  /** All counts together. */
  lemma {:induction false} AllCounted(t: Tables, syms: seq<Symbol>)
    requires t.Ok() && AllLegal(syms)
    ensures HuffmanLengths.Total(LCounts(t, syms), L_CODES) == |syms| + 1
    ensures HuffmanLengths.Total(DCounts(t, syms), D_CODES) <= |syms|
    decreases |syms|
  {
    hide Tables.Ok, LNumber, DNumber, HuffmanLengths.Total;
    if syms == [] {
      var none: seq<nat> := seq(573, _ => 0);
      TotalNone(none, L_CODES);
      TotalNone(seq(61, _ => 0), D_CODES);
      TotalOnce(none, END_BLOCK, L_CODES);
    } else {
      var n := |syms| - 1;
      AllCounted(t, syms[..n]);
      assert Legal(syms[n]);
      TotalOnce(LCounts(t, syms[..n]), LNumber(t, syms[n]), L_CODES);
      if syms[n].Match? {
        TotalOnce(DCounts(t, syms[..n]), DNumber(t, syms[n].dist), D_CODES);
      }
    }
  }

  lemma {:induction false} TotalNone(freq: seq<nat>, n: nat)
    requires n <= |freq| && forall x :: 0 <= x < n ==> freq[x] == 0
    ensures HuffmanLengths.Total(freq, n) == 0
    decreases n
  {
    if n > 0 {
      TotalNone(freq, n - 1);
    }
  }

  lemma {:induction false} TotalOnce(freq: seq<nat>, x: nat, n: nat)
    requires n <= |freq| && x < |freq|
    ensures HuffmanLengths.Total(freq[x := freq[x] + 1], n) == HuffmanLengths.Total(freq, n) + if x < n then 1 else 0
    decreases n
  {
    if n > 0 {
      TotalOnce(freq, x, n - 1);
    }
  }

  /** Forced symbols add at most one each. */
  lemma {:induction false} TotalForced(freq: seq<nat>, counts: seq<nat>, n: nat)
    requires n <= |freq| && n <= |counts| && forall x :: 0 <= x < n ==> counts[x] <= freq[x] + 1
    ensures HuffmanLengths.Total(counts, n) <= HuffmanLengths.Total(freq, n) + n
    decreases n
  {
    if n > 0 {
      TotalForced(freq, counts, n - 1);
    }
  }

  /** The codes of every symbol have been counted, and that of the end. */
  lemma {:induction false} CountedIn(t: Tables, syms: seq<Symbol>, s: Symbol)
    requires t.Ok() && AllLegal(syms)
    ensures LCounts(t, syms)[END_BLOCK] > 0
    ensures s in syms ==> LCounts(t, syms)[LNumber(t, s)] > 0
    ensures s in syms && s.Match? ==> DCounts(t, syms)[DNumber(t, s.dist)] > 0
    decreases |syms|
  {
    hide Tables.Ok, LNumber, DNumber;
    if syms != [] {
      var n := |syms| - 1;
      assert syms[n] in syms && forall x <- syms[..n] :: x in syms;
      assert s in syms ==> s in syms[..n] || s == syms[n];
      CountedIn(t, syms[..n], s);
    }
  }

  /** The trees built from the frequencies have codes for all symbols. */
  lemma DynamicSendable(t: Tables, syms: seq<Symbol>, ldl: seq<nat>, lmax: nat, ddl: seq<nat>, dmax: nat)
    requires t.Ok() && AllLegal(syms) && lmax < |ldl| && dmax < |ddl|
    requires forall x :: 0 <= x < 286 && LCounts(t, syms)[x] != 0 ==> x <= lmax && ldl[x] > 0
    requires forall x :: 0 <= x < 30 && DCounts(t, syms)[x] != 0 ==> x <= dmax && ddl[x] > 0
    ensures |t.lengthCode| == 256 && |t.distCode| == 512
    ensures AllSendable(t, ldl[..lmax + 1], ddl[..dmax + 1], syms) && lmax >= END_BLOCK && ldl[END_BLOCK] > 0
  {
    hide Tables.Ok, DCode, LCounts, DCounts;
    CodesFit(t, Literal(0));
    CountedIn(t, syms, Literal(0));
    forall s | s in syms ensures Sendable(t, ldl[..lmax + 1], ddl[..dmax + 1], s) {
      CountedIn(t, syms, s);
      CodesFit(t, s);
    }
  }

  /** The trees of a block, and what it takes with them. */
  datatype Trees = Trees(l: Tree, d: Tree, bl: Tree, blcodes: nat, opt: int, stat: int)

  ghost predicate TreesOk(t: Tables, syms: seq<Symbol>, r: Trees) {
    && t.Ok() && AllLegal(syms) && r.l.Ok() && r.d.Ok() && r.bl.Ok() && AllSendable(t, r.l.lens, r.d.lens, syms)
    && HeaderOk(r.l.lens, r.d.lens, r.bl.lens, r.blcodes) && |r.l.lens| > END_BLOCK && r.l.lens[END_BLOCK] > 0
  }

  /** A block with codes of its own. */
  ghost function DynamicBlock(t: Tables, last: bool, syms: seq<Symbol>, r: Trees): Bits
    requires TreesOk(t, syms, r)
  {
    KindBits(2, last) + (HeaderBits(r.l.lens, r.d.lens, r.bl.lens, r.blcodes)
      + (SymbolsBits(t, r.l.lens, r.d.lens, syms) + CodeBits(r.l.lens, END_BLOCK)))
  }

  /** Lengths of `n` symbols, of which those at the end are not used. */
  function Full(lens: Lengths, n: nat): seq<nat>
    requires |lens| <= n
  {
    lens + seq(n - |lens|, _ => 0)
  }

  /**
    The trees of a block: opt_len and static_len are exactly the numbers of bits that it takes, but for the three that
    say its kind. No prefix code for either alphabet takes fewer bits if and only if that is so of some code that stays
    within 15 bits.
   */
  method BuildTrees(t: Tables, syms: seq<Symbol>, depth0: seq<nat>, heap0: seq<nat>)
      returns (r: Trees, ghost lcounts: seq<nat>, ghost dcounts: seq<nat>)
    requires t.Ok() && |syms| < MAX_SYMBOLS && AllLegal(syms) && |depth0| == |heap0| == HEAP_SIZE
    ensures TreesOk(t, syms, r) && r.opt + 3 == |DynamicBlock(t, false, syms, r)|
    ensures r.stat + 3 == |StaticBlock(t, false, syms)|
    ensures Counts(LCounts(t, syms), lcounts, L_CODES) && Counts(DCounts(t, syms), dcounts, D_CODES)
    ensures |r.l.lens| <= L_CODES && |r.d.lens| <= D_CODES
    ensures PrefixCodes.Best(lcounts, Full(r.l.lens, L_CODES)) <==> PrefixCodes.BestWithin(lcounts, MAX_BITS)
    ensures PrefixCodes.Best(dcounts, Full(r.d.lens, D_CODES)) <==> PrefixCodes.BestWithin(dcounts, MAX_BITS)
  {
    hide Pow2, AllSendable, SymbolsBits, CodeBits, HeaderBits, Tables.Ok, HeaderOk, Codable, HasCodes, LCounts, DCounts;
    hide PriceSum, StaticSum, Counts, PrefixCodes.Best, PrefixCodes.BestWithin, LDesc, DDesc, HuffmanLengths.Total;
    hide StaticBlock, Complete, Desc.Extra;
    var lfreq, dfreq := Frequencies(t, syms);
    Roomy();
    DescsFit();
    var lcodes, ldl, lmax, lopt, lstat, dcodes, ddl, dmax, dopt, dstat, blopt;
    lcodes, ldl, lmax, lopt, lstat, lcounts := BuildTree(lfreq, LDesc(), lfreq, depth0, heap0, 286, 15);
    dcodes, ddl, dmax, dopt, dstat, dcounts := BuildTree(dfreq, DDesc(), dfreq, depth0[..61], heap0, 30, 15);
    DynamicSendable(t, syms, ldl, lmax, ddl, dmax);
    var ltree, dtree := Tree(lcodes, ldl[..lmax + 1]), Tree(dcodes, ddl[..dmax + 1]);
    CompleteIs(ltree.lens, 15);
    CompleteIs(dtree.lens, 15);
    var bltree, blcodes;
    bltree, blcodes, blopt := BuildBlTree(ltree.lens, dtree.lens, depth0[..39], heap0);
    r := Trees(ltree, dtree, bltree, blcodes, lopt + dopt + blopt, lstat + dstat);
    SymbolsLength(t, ltree.lens, dtree.lens, ldl, ddl, syms);
    StaticPrice(t, syms);
    Fitting(t, syms, lcounts, dcounts);
    assert ldl[..L_CODES] == Full(ltree.lens, L_CODES) && ddl[..D_CODES] == Full(dtree.lens, D_CODES);
  }

  lemma StaticPrice(t: Tables, syms: seq<Symbol>)
    requires t.Ok() && AllLegal(syms)
    ensures StaticSum(LCounts(t, syms), LDesc(), L_CODES) + StaticSum(DCounts(t, syms), DDesc(), D_CODES) + 3
         == |StaticBlock(t, false, syms)|
  {
    StaticSendable(t, syms);
    hide SymbolsBits, CodeBits, LCounts, DCounts, Tables.Ok, AllSendable, PriceSum, StaticSum;
    SymbolsLength(t, StaticL(), StaticD(), StaticL(), StaticD(), syms);
    StaticIsPrice(LCounts(t, syms), LDesc(), L_CODES);
    StaticIsPrice(DCounts(t, syms), DDesc(), D_CODES);
  }

  /** The frequencies of a block fit 16 bits. */
  lemma Fitting(t: Tables, syms: seq<Symbol>, lcounts: seq<nat>, dcounts: seq<nat>)
    requires t.Ok() && AllLegal(syms) && |syms| < MAX_SYMBOLS
    requires Counts(LCounts(t, syms), lcounts, L_CODES) && Counts(DCounts(t, syms), dcounts, D_CODES)
    ensures |lcounts| == L_CODES && HuffmanLengths.Total(lcounts, L_CODES) < 0x1_0000
    ensures |dcounts| == D_CODES && HuffmanLengths.Total(dcounts, D_CODES) < 0x1_0000
  {
    hide LCounts, DCounts, HuffmanLengths.Total, Tables.Ok;
    AllCounted(t, syms);
    TotalForced(LCounts(t, syms), lcounts, L_CODES);
    TotalForced(DCounts(t, syms), dcounts, D_CODES);
  }

  /** A block with codes of its own: the lengths of its trees, and the symbols. */
  method SendDynamic(w: BitWriter, t: Tables, syms: seq<Symbol>, last: bool, r: Trees)
    requires w.Valid() && TreesOk(t, syms, r)
    modifies w
    ensures w.Valid() && w.Sent() == old(w.Sent()) + DynamicBlock(t, last, syms, r)
    ensures Encodes(DynamicBlock(t, last, syms, r), |old(w.Sent())|, Coded(syms), last)
  {
    hide BitsOf, Pow2, AllSendable, SymbolsBits, CodeBits, Encodes, BitWriter.Sent, BitWriter.Valid, HeaderBits;
    hide Tables.Ok, HeaderOk, Codable, HasCodes;
    ghost var start := w.Sent();
    SmallPowers();
    w.SendBits(if last then 5 else 4, 3);
    SendAllTrees(w, r.l.lens, r.d.lens, r.bl, r.blcodes);
    CompressBlock(w, t, syms, r.l, r.d);
    ghost var h := HeaderBits(r.l.lens, r.d.lens, r.bl.lens, r.blcodes);
    ghost var body := SymbolsBits(t, r.l.lens, r.d.lens, syms) + CodeBits(r.l.lens, END_BLOCK);
    FourSums(start, KindBits(2, last), h, body);
    DynamicEncodes(t, |start|, last, syms, r.l.lens, r.d.lens, r.bl.lens, r.blcodes);
  }

  lemma FourSums(s: Bits, a: Bits, b: Bits, c: Bits)
    ensures s + a + b + c == s + (a + (b + c))
  {
    assert s + a + b + c == s + (a + b + c);
  }

  lemma Roomy()
    ensures 286 <= Pow2(15)
  {
    assert Pow2(10) == 1024;
  }

  lemma CompleteIs(lens: Lengths, max: nat)
    requires Complete(lens, max)
    ensures Codable(lens) && Limited(lens)
  {}

  /** How a block is sent: the coder compares lengths. */
  datatype Form = AsStored | AsStatic | AsDynamic

  /** In whole bytes. */
  function InBytes(bits: nat): nat {
    (bits + 7) / 8
  }

  /**
    _tr_flush_block: the block is stored, if its bytes are still in the window, exactly if they and four more are no
    more than it takes with either kind of codes; otherwise it has the fixed codes exactly if it takes no more with them
    than with codes of its own, or if the strategy is Z_FIXED.
   */
  method TrFlushBlock(w: BitWriter, t: Tables, sl: Tree, sd: Tree, b: Block, fixed: bool, depth0: seq<nat>,
                      heap0: seq<nat>) returns (form: Form, r: Trees, ghost bits: Bits)
    requires w.Valid() && t.Ok() && StaticTrees(sl, sd) && |b.syms| < MAX_SYMBOLS && AllLegal(b.syms)
    requires (b.raw.Some? ==> |b.raw.value| <= 0xffff) && |depth0| == |heap0| == HEAP_SIZE
    modifies w
    ensures w.Valid() && (b.last ==> w.biValid == 0) && TreesOk(t, b.syms, r)
    ensures var fixedBytes, ownBytes :=
        InBytes(|StaticBlock(t, b.last, b.syms)|), InBytes(|DynamicBlock(t, b.last, b.syms, r)|);
      && (form.AsStored? <==> b.raw.Some? && |b.raw.value| + 4 <= fixedBytes && |b.raw.value| + 4 <= ownBytes)
      && (form.AsStatic? <==> !form.AsStored? && (fixed || fixedBytes <= ownBytes))
    ensures bits == match form
      case AsStored => StoredBits(|old(w.Sent())|, b.last, b.raw.value)
      case AsStatic => StaticBlock(t, b.last, b.syms)
      case AsDynamic => DynamicBlock(t, b.last, b.syms, r)
    ensures Encodes(bits, |old(w.Sent())|, if form.AsStored? then Raw(b.raw.value) else Coded(b.syms), b.last)
    ensures w.Sent() == old(w.Sent()) + bits
      + BitStream.Zeros(if b.last then Padding(|old(w.Sent())| + |bits|) else 0)
  {
    hide Encodes, StaticTrees, Tables.Ok, BitWriter.Sent, BitWriter.Valid, StoredBits, StaticBlock, DynamicBlock;
    hide TreesOk, Counts, LCounts, DCounts, PrefixCodes.Best, PrefixCodes.BestWithin;
    ghost var start := w.Sent();
    ghost var lcounts, dcounts;
    r, lcounts, dcounts := BuildTrees(t, b.syms, depth0, heap0);
    SameLength(t, b.last, b.syms, r);
    var optLenb, staticLenb := (r.opt + 3 + 7) / 8, (r.stat + 3 + 7) / 8;
    if staticLenb <= optLenb {
      optLenb := staticLenb;
    }
    if b.raw.Some? && |b.raw.value| + 4 <= optLenb {
      form := AsStored;
      TrStoredBlock(w, b.raw.value, b.last);
      bits := StoredBits(|start|, b.last, b.raw.value);
      StoredEncodes(|start|, b.last, b.raw.value);
    } else if fixed || staticLenb == optLenb {
      form := AsStatic;
      bits := SendStatic(w, t, sl, sd, b.syms, b.last);
    } else {
      form := AsDynamic;
      SendDynamic(w, t, b.syms, b.last, r);
      bits := DynamicBlock(t, b.last, b.syms, r);
    }
    assert start + bits + BitStream.Zeros(0) == start + bits;
    if b.last {
      w.BiWindup();
    }
  }

  /** The last block is as long as another. */
  lemma SameLength(t: Tables, last: bool, syms: seq<Symbol>, r: Trees)
    requires TreesOk(t, syms, r)
    ensures |StaticBlock(t, last, syms)| == |StaticBlock(t, false, syms)|
    ensures |DynamicBlock(t, last, syms, r)| == |DynamicBlock(t, false, syms, r)|
  {
    StaticSendable(t, syms);
    hide SymbolsBits, CodeBits, HeaderBits, AllSendable, HeaderOk, BitsOf, Tables.Ok;
  }
}

/** Why opt_len and static_len of zlib/trees.c are the numbers of bits that a block takes: frequencies times lengths. */
module BlockLengths {
  import opened BitStream
  import opened Lz77
  import opened HuffmanCodes
  import opened DeflateTables
  import opened Prices
  import opened SymbolCoder
  import opened TreeCoder

  const L_CODES: nat := 286

  /** static_l_desc. */
  function LDesc(): Desc {
    Desc(true, StaticL(), seq(LENGTH_CODES, c requires 0 <= c < LENGTH_CODES => ExtraL(c)), END_BLOCK + 1)
  }

  /** static_d_desc. */
  function DDesc(): Desc {
    Desc(true, StaticD(), seq(D_CODES, c requires 0 <= c < D_CODES => ExtraD(c)), 0)
  }

  /** static_bl_desc, which has no static tree. */
  function BlDesc(): Desc {
    Desc(false, [], [0, 0, 0, 0, 0, 0, 0, 0, 0, 0, 0, 0, 0, 0, 0, 0, 2, 3, 7], 0)
  }

  lemma DescsFit()
    ensures LDesc().Fits(L_CODES) && DDesc().Fits(D_CODES) && BlDesc().Fits(19)
    ensures forall x :: 0 <= x < 3 ==> LDesc().Extra(x) == 0 && DDesc().Extra(x) == 0 && BlDesc().Extra(x) == 0
  {}

  // ----- symbols -----

  ghost predicate AllLegal(syms: seq<Symbol>) {
    forall s <- syms :: Legal(s)
  }

  /** The number of the literal or length code of a symbol. */
  ghost function LNumber(t: Tables, s: Symbol): (x: nat)
    requires t.Ok() && Legal(s)
    ensures x < L_CODES
  {
    match s
    case Literal(c) => c
    case Match(_, lc) =>
      assert CodesLength(t.lengthCode[lc], lc);
      LCode(t, lc) + 257
  }

  ghost function DNumber(t: Tables, dist: nat): (x: nat)
    requires t.Ok() && 1 <= dist <= 32768
    ensures x < D_CODES
  {
    assert CodesDistance(DCode(t.distCode, dist - 1), dist - 1);
    DCode(t.distCode, dist - 1)
  }

  /** How often each literal or length code occurs in a block: its end once. */
  ghost function LCounts(t: Tables, syms: seq<Symbol>): (freq: seq<nat>)
    requires t.Ok() && AllLegal(syms)
    ensures |freq| == 573
  {
    if syms == [] then seq(573, _ => 0)[END_BLOCK := 1]
    else
      var n := |syms| - 1;
      var before, x := LCounts(t, syms[..n]), LNumber(t, syms[n]);
      before[x := before[x] + 1]
  }

  ghost function DCounts(t: Tables, syms: seq<Symbol>): (freq: seq<nat>)
    requires t.Ok() && AllLegal(syms)
    ensures |freq| == 61
  {
    if syms == [] then seq(61, _ => 0)
    else
      var n := |syms| - 1;
      var before := DCounts(t, syms[..n]);
      assert Legal(syms[n]);
      match syms[n]
      case Literal(_) => before
      case Match(dist, _) =>
        var x := DNumber(t, dist);
        before[x := before[x] + 1]
  }

  /** Lengths of at least `n` symbols, of which the first ones have codes. */
  ghost predicate Extends(lens: Lengths, more: seq<nat>, n: nat) {
    |more| >= n && |lens| <= n && forall x :: 0 <= x < |lens| ==> more[x] == lens[x]
  }

  lemma CodeLength(lens: Lengths, x: nat)
    requires x < |lens|
    ensures |CodeBits(lens, x)| == lens[x]
  {}

  /** The bits of one symbol: its codes and their extra bits. */
  lemma SymbolLength(t: Tables, l: Lengths, d: Lengths, s: Symbol)
    requires t.Ok() && Sendable(t, l, d, s)
    ensures LNumber(t, s) < |l| && (s.Match? ==> DNumber(t, s.dist) < |d|)
    ensures |SymbolBits(t, l, d, s)| == l[LNumber(t, s)] + LDesc().Extra(LNumber(t, s))
      + if s.Match? then d[DNumber(t, s.dist)] + DDesc().Extra(DNumber(t, s.dist)) else 0
  {
    hide CodeBits, BitsOf, DCode, BaseL, BaseD;
    match s
    case Literal(c) => CodeLength(l, c);
    case Match(dist, lc) =>
      CodeLength(l, LNumber(t, s));
      CodeLength(d, DNumber(t, dist));
  }

  /** The bits of all symbols and the end of a block. */
  lemma {:induction false} SymbolsLength(t: Tables, l: Lengths, d: Lengths, l': seq<nat>, d': seq<nat>,
                                         syms: seq<Symbol>)
    requires t.Ok() && AllSendable(t, l, d, syms) && AllLegal(syms) && |l| > END_BLOCK
    requires Extends(l, l', |l'|) && |l'| >= L_CODES && Extends(d, d', |d'|) && |d'| >= D_CODES
    ensures |SymbolsBits(t, l, d, syms)| + |CodeBits(l, END_BLOCK)|
         == PriceSum(LCounts(t, syms), LDesc(), l', L_CODES) + PriceSum(DCounts(t, syms), DDesc(), d', D_CODES)
    decreases |syms|
  {
    hide PriceSum, CodeBits, SymbolBits, LNumber, DNumber, Tables.Ok, LDesc, DDesc, Sendable;
    if syms == [] {
      EmptyLength(l, l', d');
    } else {
      var n := |syms| - 1;
      var s := syms[n];
      SymbolsLength(t, l, d, l', d', syms[..n]);
      SymbolLength(t, l, d, s);
      OncePrice(LCounts(t, syms[..n]), LDesc(), l', LNumber(t, s), L_CODES);
      if s.Match? {
        OncePrice(DCounts(t, syms[..n]), DDesc(), d', DNumber(t, s.dist), D_CODES);
      }
    }
  }

  lemma EmptyLength(l: Lengths, l': seq<nat>, d': seq<nat>)
    requires |l| > END_BLOCK && Extends(l, l', |l'|) && |l'| >= L_CODES && |d'| >= D_CODES
    ensures PriceSum(seq(573, _ => 0)[END_BLOCK := 1], LDesc(), l', L_CODES) == |CodeBits(l, END_BLOCK)|
    ensures PriceSum(seq(61, _ => 0), DDesc(), d', D_CODES) == 0
  {
    hide PriceSum, CodeBits, LDesc, DDesc;
    var none: seq<nat> := seq(573, _ => 0);
    CodeLength(l, END_BLOCK);
    NoPrice(none, LDesc(), l', L_CODES);
    NoPrice(seq(61, _ => 0), DDesc(), d', D_CODES);
    OncePrice(none, LDesc(), l', END_BLOCK, L_CODES);
    NoExtraAtEnd();
  }

  lemma NoExtraAtEnd()
    ensures LDesc().Extra(END_BLOCK) == 0
  {}

  // ----- the symbols of the header -----

  lemma OpLength(bl: Lengths, op: Op)
    requires op.Ok() && |bl| == 19
    ensures |OpBits(bl, op)| == bl[op.Number()] + BlDesc().Extra(op.Number())
  {
    hide CodeBits, BitsOf;
    CodeLength(bl, op.Number());
  }

  lemma {:induction false} OpsLength(bl: Lengths, freq: seq<nat>, ops: seq<Op>)
    requires OpsSendable(bl, ops) && |freq| >= 19 && Numbered(ops)
    ensures PriceSum(Tally(freq, ops), BlDesc(), bl, 19) == PriceSum(freq, BlDesc(), bl, 19) + |OpsBits(bl, ops)|
    decreases |ops|
  {
    hide PriceSum, OpBits, BlDesc;
    if ops != [] {
      var n := |ops| - 1;
      var before, op := ops[..n], ops[n];
      assert ops == before + [op];
      OpsLength(bl, freq, before);
      OpsBitsConcat(bl, before, [op]);
      OpsBitsOne(bl, op);
      OpLength(bl, op);
      OncePrice(Tally(freq, before), BlDesc(), bl, op.Number(), 19);
    }
  }
}

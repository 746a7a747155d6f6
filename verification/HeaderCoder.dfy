/**
  The header of a block with trees of its own, as bits and back: build_bl_tree and send_all_trees of zlib/trees.c, and
  the decoder of section 3.2.7 of RFC 1951.
 */
module HeaderCoder {
  import opened BitArith
  import opened BitStream
  import opened Lz77
  import opened HuffmanCodes
  import opened HuffmanTree
  import PrefixCodes
  import opened Prices
  import opened SymbolCoder
  import opened TreeCoder
  import opened BlockLengths

  const BL_CODES: nat := 19

  const BL_ORDER: seq<nat> := [16, 17, 18, 0, 8, 7, 9, 6, 10, 5, 11, 4, 12, 3, 13, 2, 14, 1, 15]

  /** The symbol whose length is sent at position `i`. */
  function Ranked(i: nat): (x: nat)
    requires i < BL_CODES
    ensures x < BL_CODES
  {
    BL_ORDER[i]
  }

  // ----- codes of a longer list of lengths -----

  /** Unused symbols at the end change nothing. */
  lemma {:induction false} PaddedSums(lens: Lengths, more: Lengths, l: nat, n: nat)
    requires Limited(lens) && n <= |lens| && |more| >= |lens| && more[..|lens|] == lens && Limited(more)
    ensures Shorter(more, l, n) == Shorter(lens, l, n) && Same(more, l, n) == Same(lens, l, n)
    decreases n
  {
    if n > 0 {
      PaddedSums(lens, more, l, n - 1);
      assert more[n - 1] == more[..|lens|][n - 1];
    }
  }

  lemma {:induction false} PaddedEnd(more: Lengths, l: nat, n: nat, m: nat)
    requires Limited(more) && n <= m <= |more| && l > 0 && forall i :: n <= i < m ==> more[i] == 0
    ensures Shorter(more, l, m) == Shorter(more, l, n) && Same(more, l, m) == Same(more, l, n)
    decreases m
  {
    if n < m {
      PaddedEnd(more, l, n, m - 1);
    }
  }

  ghost predicate Padded(lens: Lengths, more: Lengths) {
    |more| >= |lens| && more[..|lens|] == lens && forall i :: |lens| <= i < |more| ==> more[i] == 0
  }

  lemma {:induction false} PaddedFirst(lens: Lengths, more: Lengths, l: nat)
    requires Limited(lens) && Limited(more) && Padded(lens, more)
    ensures First(more, l) == First(lens, l)
    decreases l
  {
    if l > 0 {
      PaddedFirst(lens, more, l - 1);
      if l > 1 {
        PaddedSums(lens, more, l - 1, |lens|);
        PaddedEnd(more, l - 1, |lens|, |more|);
      }
    }
  }

  lemma PaddedCodes(lens: Lengths, more: Lengths, codes: seq<nat>)
    requires Codable(lens) && HasCodes(lens, codes, |lens|) && Padded(lens, more) && |codes| >= |more|
    ensures Codable(more) && HasCodes(more, codes, |more|)
  {
    hide First, Shorter, Same, BitsOf, Pow2;
    forall i | 0 <= i < |more| ensures more[i] <= MAX_BITS {
      assert i < |lens| ==> more[i] == lens[i];
    }
    PaddedSums(lens, more, MAX_BITS + 1, |lens|);
    PaddedEnd(more, MAX_BITS + 1, |lens|, |more|);
    forall m | 0 <= m < |more| && more[m] > 0
      ensures codes[m] < Pow2(more[m]) && BitsOf(codes[m], more[m]) == CodeBits(more, m)
    {
      assert m < |lens| && more[m] == lens[m];
      PaddedFirst(lens, more, lens[m]);
      PaddedSums(lens, more, lens[m], m);
    }
  }

  // ----- the header as bits -----

  /** The lengths of the code length codes, three bits each, in their own order, from rank `i` to rank `n`. */
  ghost function OrderBits(bl: Lengths, i: nat, n: nat): Bits
    requires |bl| == BL_CODES && i <= n <= BL_CODES
    decreases n - i
  {
    if i == n then [] else BitsOf(bl[Ranked(i)], 3) + OrderBits(bl, i + 1, n)
  }

  /** Reads the lengths of ranks `i` to `n`; the others stay. */
  function ReadOrder(bits: Bits, i: nat, n: nat, bl: Lengths): (r: Option<Decoded<Lengths>>)
    requires i <= n <= BL_CODES && |bl| == BL_CODES
    ensures r.Some? ==> |r.value.value| == BL_CODES && |r.value.rest| <= |bits|
    decreases n - i
  {
    if i == n then Some(Decoded(bl, bits))
    else if |bits| < 3 then None
    else ReadOrder(bits[3..], i + 1, n, bl[Ranked(i) := Value(bits[..3])])
  }

  /** The lengths of the first `n` ranks are there, and the others are 0. */
  ghost predicate ReadSoFar(bl: Lengths, got: Lengths, n: nat) {
    && |bl| == |got| == BL_CODES && n <= BL_CODES
    && (forall i :: 0 <= i < n ==> got[Ranked(i)] == bl[Ranked(i)])
    && (forall i :: n <= i < BL_CODES ==> got[Ranked(i)] == 0)
  }

  lemma RankedOnce(i: nat, j: nat)
    requires i < BL_CODES && j < BL_CODES && i != j
    ensures Ranked(i) != Ranked(j)
  {}

  /** Every symbol has a rank. */
  lemma RankOf(x: nat) returns (i: nat)
    requires x < BL_CODES
    ensures i < BL_CODES && Ranked(i) == x
  {
    i := if x == 0 then 3 else if x == 16 then 0 else if x == 17 then 1 else if x == 18 then 2
         else if x == 8 then 4 else if x < 8 then 2 * (8 - x) + 3 else 2 * (x - 8) + 4;
  }

  ghost predicate Small(bl: Lengths) {
    forall i :: 0 <= i < |bl| ==> bl[i] <= 7
  }

  lemma {:induction false} ReadOrderOf(bl: Lengths, got: Lengths, i: nat, n: nat, rest: Bits)
    requires i <= n <= BL_CODES && |bl| == |got| == BL_CODES && ReadSoFar(bl, got, i) && Small(bl)
    ensures var r := ReadOrder(OrderBits(bl, i, n) + rest, i, n, got);
      r.Some? && r.value.rest == rest && ReadSoFar(bl, r.value.value, n)
    decreases n - i
  {
    hide ReadSoFar, BitsOf, Ranked, Value;
    if i == n {
      assert OrderBits(bl, i, n) + rest == rest;
    } else {
      var x, more := bl[Ranked(i)], OrderBits(bl, i + 1, n) + rest;
      assert OrderBits(bl, i, n) + rest == BitsOf(x, 3) + more;
      SmallPowers();
      DecodeExtra(x, 3, more);
      OneRankMore(bl, got, i);
      ReadOrderOf(bl, got[Ranked(i) := x], i + 1, n, rest);
    }
  }

  lemma OneRankMore(bl: Lengths, got: Lengths, i: nat)
    requires i < BL_CODES && ReadSoFar(bl, got, i)
    ensures ReadSoFar(bl, got[Ranked(i) := bl[Ranked(i)]], i + 1)
  {
    hide Ranked;
    forall j | 0 <= j < BL_CODES && j != i ensures Ranked(j) != Ranked(i) {
      RankedOnce(i, j);
    }
  }

  lemma ReadAll(bl: Lengths, got: Lengths, n: nat)
    requires ReadSoFar(bl, got, n) && forall i :: n <= i < BL_CODES ==> bl[Ranked(i)] == 0
    ensures got == bl
  {
    hide Ranked;
    forall x | 0 <= x < BL_CODES ensures got[x] == bl[x] {
      var i := RankOf(x);
    }
  }

  lemma NothingRead(bl: Lengths)
    requires |bl| == BL_CODES
    ensures ReadSoFar(bl, Repeat(0, BL_CODES), 0)
  {}

  /** The header: three numbers, the code length codes, and the lengths of both trees. */
  ghost function HeaderBits(l: Lengths, d: Lengths, bl: Lengths, blcodes: nat): Bits
    requires HeaderOk(l, d, bl, blcodes)
  {
    BitsOf(|l| - 257, 5) + (BitsOf(|d| - 1, 5) + (BitsOf(blcodes - 4, 4)
      + (OrderBits(bl, 0, blcodes) + (OpsBits(bl, OpsOf(l)) + OpsBits(bl, OpsOf(d))))))
  }

  /** A header that can be sent. */
  ghost predicate HeaderOk(l: Lengths, d: Lengths, bl: Lengths, blcodes: nat) {
    && 257 <= |l| <= 286 && 1 <= |d| <= 30 && |bl| == BL_CODES && 4 <= blcodes <= BL_CODES
    && Limited(l) && Limited(d) && Codable(bl) && Small(bl)
    && (forall i :: blcodes <= i < BL_CODES ==> bl[Ranked(i)] == 0)
    && OpsSendable(bl, OpsOf(l)) && OpsSendable(bl, OpsOf(d))
  }

  /** The lengths of both trees. */
  datatype Header = Header(l: Lengths, d: Lengths)

  /** The decoder of the header. */
  function ReadHeader(bits: Bits): (r: Option<Decoded<Header>>)
    ensures r.Some? ==> |r.value.rest| <= |bits|
  {
    match Number(bits, 5)
    case None => None
    case Some(hlit) =>
      match Number(hlit.rest, 5)
      case None => None
      case Some(hdist) =>
        match Number(hdist.rest, 4)
        case None => None
        case Some(hclen) =>
          if hclen.value + 4 > BL_CODES then None
          else
            match ReadOrder(hclen.rest, 0, hclen.value + 4, Repeat(0, BL_CODES))
            case None => None
            case Some(bl) =>
              var total := hlit.value + 257 + (hdist.value + 1);
              match DecodeLens(bl.value, total, [], bl.rest)
              case None => None
              case Some(lens) =>
                Some(Decoded(Header(lens.value[..hlit.value + 257], lens.value[hlit.value + 257..]), lens.rest))
  }

  lemma NumberOf(v: nat, n: nat, rest: Bits)
    requires v < Pow2(n)
    ensures Number(BitsOf(v, n) + rest, n) == Some(Decoded(v, rest))
  {
    DecodeExtra(v, n, rest);
  }

  /** The lengths of both trees come back. */
  lemma LensBack(l: Lengths, d: Lengths, bl: Lengths, rest: Bits)
    requires Limited(l) && Limited(d) && Codable(bl) && OpsSendable(bl, OpsOf(l)) && OpsSendable(bl, OpsOf(d))
    ensures DecodeLens(bl, |l| + |d|, [], OpsBits(bl, OpsOf(l)) + OpsBits(bl, OpsOf(d)) + rest)
         == Some(Decoded(l + d, rest))
  {
    hide OpsOf, OpsBits, OpsSendable, Codable, DecodeOp;
    OpsOfExpand([], l);
    OpsOfExpand(l, d);
    assert [] + l == l;
    var a, b := OpsBits(bl, OpsOf(l)), OpsBits(bl, OpsOf(d));
    assert a + b + rest == a + (b + rest);
    DecodeLensOf(bl, |l| + |d|, [], OpsOf(l), l, b + rest);
    DecodeLensOf(bl, |l| + |d|, l, OpsOf(d), l + d, rest);
  }

  /** What is sent of a header is read back, whatever follows. */
  lemma HeaderBack(l: Lengths, d: Lengths, bl: Lengths, blcodes: nat, rest: Bits)
    requires HeaderOk(l, d, bl, blcodes)
    ensures ReadHeader(HeaderBits(l, d, bl, blcodes) + rest) == Some(Decoded(Header(l, d), rest))
  {
    hide BitsOf, OpsBits, OpsOf, OrderBits, ReadOrder, DecodeLens, Number, Ranked, OpsSendable, Codable, Pow2;
    var both := OpsBits(bl, OpsOf(l)) + OpsBits(bl, OpsOf(d));
    var x5 := both + rest;
    var x4 := OrderBits(bl, 0, blcodes) + x5;
    var x3 := BitsOf(blcodes - 4, 4) + x4;
    var x2 := BitsOf(|d| - 1, 5) + x3;
    var x1 := BitsOf(|l| - 257, 5) + x2;
    assert HeaderBits(l, d, bl, blcodes) + rest == x1;
    SmallPowers();
    NumberOf(|l| - 257, 5, x2);
    NumberOf(|d| - 1, 5, x3);
    NumberOf(blcodes - 4, 4, x4);
    NothingRead(bl);
    ReadOrderOf(bl, Repeat(0, BL_CODES), 0, blcodes, x5);
    ReadAll(bl, ReadOrder(x4, 0, blcodes, Repeat(0, BL_CODES)).value.value, blcodes);
    LensBack(l, d, bl, rest);
    assert (l + d)[..|l|] == l && (l + d)[|l|..] == d;
  }

  // ----- build_bl_tree and send_all_trees -----

  /** Without a length that is not 0 all lengths are 0. */
  lemma {:induction false} OnlyZeros(acc: seq<nat>, ops: seq<Op>)
    requires (forall i :: 0 <= i < |acc| ==> acc[i] == 0) && ApplyAll(acc, ops).Some?
    requires forall op <- ops :: op.Len? ==> op.l == 0
    ensures forall i :: 0 <= i < |ApplyAll(acc, ops).value| ==> ApplyAll(acc, ops).value[i] == 0
    decreases |ops|
  {
    if ops != [] {
      assert ops[0] in ops;
      OnlyZeros(Apply(acc, ops[0]).value, ops[1..]);
    }
  }

  lemma SomeLength(l: Lengths, n: nat) returns (op: Op)
    requires Limited(l) && n < |l| && l[n] > 0
    ensures op in OpsOf(l) && op.Len? && op.l > 0
  {
    hide OpsOf, ApplyAll;
    OpsOfExpand([], l);
    assert [] + l == l;
    if forall o <- OpsOf(l) :: o.Len? ==> o.l == 0 {
      OnlyZeros([], OpsOf(l));
      assert false;
    }
    op :| op in OpsOf(l) && op.Len? && op.l > 0;
  }

  /** build_bl_tree: a tree for the symbols that the lengths of both trees give, and how many of its lengths to send. */
  method BuildBlTree(l: Lengths, d: Lengths, depth0: seq<nat>, heap0: seq<nat>)
      returns (bltree: Tree, blcodes: nat, opt: int)
    requires 257 <= |l| <= 286 && 1 <= |d| <= 30 && Limited(l) && Limited(d) && l[END_BLOCK] > 0
    requires |depth0| == 2 * BL_CODES + 1 && |heap0| == HEAP_SIZE
    ensures bltree.Ok() && HeaderOk(l, d, bltree.lens, blcodes)
    ensures opt == |HeaderBits(l, d, bltree.lens, blcodes)|
  {
    hide OpsOf, Codable, HasCodes, Complete, Tally, Pow2, PriceSum, BlDesc, Counts, OpsSendable;
    hide PrefixCodes.Best, PrefixCodes.BestWithin;
    var freq: seq<nat> := seq(2 * BL_CODES + 1, _ => 0);
    ghost var freq1;
    freq := ScanTree(l, freq);
    freq1 := freq;
    freq := ScanTree(d, freq);
    SmallPowers();
    DescsFit();
    var codes, dl, maxCode, stat; ghost var counts;
    codes, dl, maxCode, opt, stat, counts := BuildTree(freq, BlDesc(), freq, depth0, heap0, BL_CODES, 7);
    var bl := dl[..BL_CODES];
    AllOps(l, d, freq1, freq, dl);
    SmallCode(dl, codes, maxCode, bl);
    ghost var rank := UsedRank(l, bl);
    var last := BL_CODES - 1;
    while last >= 3 && bl[Ranked(last)] == 0
      invariant rank <= last < BL_CODES && forall i :: last < i < BL_CODES ==> bl[Ranked(i)] == 0
      decreases last
    {
      last := last - 1;
    }
    bltree, blcodes := Tree(codes, bl), last + 1;
    opt := opt + 3 * (last + 1) + 5 + 5 + 4;
    HeaderLength(l, d, bl, blcodes, freq1, freq, dl);
  }

  /** Some length of the code length codes that comes after the first four is not 0. */
  lemma UsedRank(l: Lengths, bl: Lengths) returns (rank: nat)
    requires Limited(l) && |l| > END_BLOCK && l[END_BLOCK] > 0 && OpsSendable(bl, OpsOf(l))
    ensures 4 <= rank < BL_CODES == |bl| && bl[Ranked(rank)] > 0
  {
    hide OpsOf;
    var op := SomeLength(l, END_BLOCK);
    assert op.Ok();
    rank := RankOf(op.l);
    RankFromThree(rank);
  }

  /** opt_len counts the bits of the header. */
  lemma HeaderLength(l: Lengths, d: Lengths, bl: Lengths, blcodes: nat, freq1: seq<nat>, freq: seq<nat>, dl: seq<nat>)
    requires HeaderOk(l, d, bl, blcodes) && |dl| >= BL_CODES && bl == dl[..BL_CODES]
    requires Numbered(OpsOf(l)) && Numbered(OpsOf(d)) && |freq1| == |freq| >= BL_CODES
    requires freq1 == Tally(seq(|freq1|, _ => 0), OpsOf(l)) && freq == Tally(freq1, OpsOf(d))
    ensures |HeaderBits(l, d, bl, blcodes)| == PriceSum(freq, BlDesc(), dl, BL_CODES) + 3 * blcodes + 14
  {
    hide BitsOf, OpsBits, OpsOf, OrderBits, OpsSendable, Codable, Tally, PriceSum, BlDesc;
    var none: seq<nat> := seq(|freq1|, _ => 0);
    NoPrice(none, BlDesc(), bl, BL_CODES);
    OpsLength(bl, none, OpsOf(l));
    OpsLength(bl, freq1, OpsOf(d));
    PriceFrame(freq, freq, BlDesc(), dl, bl, BL_CODES);
    OrderLength(bl, 0, blcodes);
  }

  lemma {:induction false} OrderLength(bl: Lengths, i: nat, n: nat)
    requires |bl| == BL_CODES && i <= n <= BL_CODES
    ensures |OrderBits(bl, i, n)| == 3 * (n - i)
    decreases n - i
  {
    hide BitsOf, Ranked;
    if i < n {
      OrderLength(bl, i + 1, n);
    }
  }

  lemma RankFromThree(i: nat)
    requires i < BL_CODES && 0 < Ranked(i) < 16
    ensures i >= 4
  {}

  /** All symbols that are to be sent have codes. */
  lemma AllOps(l: Lengths, d: Lengths, freq1: seq<nat>, freq: seq<nat>, dl: seq<nat>)
    requires Limited(l) && Limited(d) && |freq1| >= 19 && Numbered(OpsOf(l)) && Numbered(OpsOf(d))
    requires freq1 == Tally(seq(|freq1|, _ => 0), OpsOf(l)) && freq == Tally(freq1, OpsOf(d)) && |dl| >= 19
    requires forall x :: 0 <= x < 19 && freq[x] != 0 ==> dl[x] > 0
    ensures OpsSendable(dl[..19], OpsOf(l)) && OpsSendable(dl[..19], OpsOf(d))
  {
    hide OpsOf, Tally;
    OpsOfExpand([], l);
    OpsOfExpand([], d);
    forall op | op in OpsOf(l) ensures op.Number() < 19 && dl[op.Number()] > 0 {
      TallyUsed(seq(|freq1|, _ => 0), OpsOf(l), op);
      TallyGrows(freq1, OpsOf(d), op.Number());
    }
    forall op | op in OpsOf(d) ensures op.Number() < 19 && dl[op.Number()] > 0 {
      TallyUsed(freq1, OpsOf(d), op);
    }
  }

  lemma SmallCode(dl: seq<nat>, codes: seq<nat>, maxCode: nat, bl: Lengths)
    requires maxCode < BL_CODES <= |dl| == |codes| && bl == dl[..BL_CODES]
    requires Complete(dl[..maxCode + 1], 7) && HasCodes(dl[..maxCode + 1], codes, maxCode + 1)
    requires forall x :: maxCode < x < BL_CODES ==> dl[x] == 0
    ensures Codable(bl) && HasCodes(bl, codes, BL_CODES) && Small(bl)
  {
    hide Codable, HasCodes;
    var lens := dl[..maxCode + 1];
    assert bl[..|lens|] == lens;
    forall i | 0 <= i < |bl| ensures bl[i] <= 7 {
      assert i <= maxCode ==> bl[i] == lens[i];
    }
    PaddedCodes(lens, bl, codes);
  }

  /** send_all_trees. */
  method SendAllTrees(w: BitWriter, l: Lengths, d: Lengths, bltree: Tree, blcodes: nat)
    requires w.Valid() && bltree.Ok() && HeaderOk(l, d, bltree.lens, blcodes)
    modifies w
    ensures w.Valid() && w.Sent() == old(w.Sent()) + HeaderBits(l, d, bltree.lens, blcodes)
  {
    hide BitsOf, OpsBits, OpsOf, OrderBits, OpsSendable, Codable, Pow2, BitWriter.Sent, BitWriter.Valid, Tree.Ok;
    ghost var start := w.Sent();
    var bl := bltree.lens;
    SmallPowers();
    w.SendBits(|l| - 257, 5);
    w.SendBits(|d| - 1, 5);
    w.SendBits(blcodes - 4, 4);
    SendOrder(w, bl, blcodes);
    SendTree(w, l, bltree);
    SendTree(w, d, bltree);
    SixParts(start, BitsOf(|l| - 257, 5), BitsOf(|d| - 1, 5), BitsOf(blcodes - 4, 4), OrderBits(bl, 0, blcodes),
      OpsBits(bl, OpsOf(l)), OpsBits(bl, OpsOf(d)));
  }

  lemma SixParts(s: Bits, a: Bits, b: Bits, c: Bits, d: Bits, e: Bits, f: Bits)
    ensures s + a + b + c + d + e + f == s + (a + (b + (c + (d + (e + f)))))
  {
    assert s + a + b + c + d + e + f == s + (a + b + c + d + e + f);
  }

  /** The lengths of the code length codes. */
  method SendOrder(w: BitWriter, bl: Lengths, blcodes: nat)
    requires w.Valid() && |bl| == BL_CODES && Small(bl) && blcodes <= BL_CODES
    modifies w
    ensures w.Valid() && w.Sent() == old(w.Sent()) + OrderBits(bl, 0, blcodes)
  {
    hide BitsOf, BitWriter.Sent, BitWriter.Valid, Ranked, Pow2, OrderBits;
    ghost var start, done: Bits := w.Sent(), [];
    SmallPowers();
    assert start + [] == start && [] + OrderBits(bl, 0, blcodes) == OrderBits(bl, 0, blcodes);
    for rank := 0 to blcodes
      invariant w.Valid() && w.Sent() == start + done
      invariant done + OrderBits(bl, rank, blcodes) == OrderBits(bl, 0, blcodes)
    {
      OrderStep(bl, rank, blcodes);
      ghost var b, more := BitsOf(bl[Ranked(rank)], 3), OrderBits(bl, rank + 1, blcodes);
      w.SendBits(bl[Ranked(rank)], 3);
      Assoc(start, done, b);
      Assoc(done, b, more);
      done := done + b;
    }
    OrderEnd(bl, blcodes);
    assert done + [] == done;
  }

  lemma OrderStep(bl: Lengths, i: nat, n: nat)
    requires |bl| == BL_CODES && i < n <= BL_CODES
    ensures OrderBits(bl, i, n) == BitsOf(bl[Ranked(i)], 3) + OrderBits(bl, i + 1, n)
  {}

  lemma OrderEnd(bl: Lengths, n: nat)
    requires |bl| == BL_CODES && n <= BL_CODES
    ensures OrderBits(bl, n, n) == []
  {}
}

/**
  Code lengths as bits, and back: scan_tree and send_tree of zlib/trees.c, and the decoder of section 3.2.7 of RFC 1951.
 */
module TreeCoder {
  import opened BitArith
  import opened BitStream
  import opened Lz77
  import opened HuffmanCodes
  import opened SymbolCoder

  /** One symbol of the code length alphabet: a length, the length before 3 to 6 times more, or 3 to 138 zeros. */
  datatype Op = Len(l: nat) | Rep(k: nat) | FewZeros(k: nat) | ManyZeros(k: nat) {
    predicate Ok() {
      match this
      case Len(l) => l <= MAX_BITS
      case Rep(k) => 3 <= k <= 6
      case FewZeros(k) => 3 <= k <= 10
      case ManyZeros(k) => 11 <= k <= 138
    }

    /** Its number in the alphabet. */
    function Number(): nat {
      match this
      case Len(l) => l
      case Rep(_) => 16
      case FewZeros(_) => 17
      case ManyZeros(_) => 18
    }

    /** Its extra bits. */
    function Extra(): Bits
      requires Ok()
    {
      match this
      case Len(_) => []
      case Rep(k) => BitsOf(k - 3, 2)
      case FewZeros(k) => BitsOf(k - 3, 3)
      case ManyZeros(k) => BitsOf(k - 11, 7)
    }
  }

  function Repeat(x: nat, k: nat): (r: seq<nat>)
    ensures |r| == k && forall i :: 0 <= i < k ==> r[i] == x
  {
    seq(k, _ => x)
  }

  /** What a symbol adds to the lengths before it. */
  function Apply(acc: seq<nat>, op: Op): Option<seq<nat>> {
    match op
    case Len(l) => Some(acc + [l])
    case Rep(k) => if acc == [] then None else Some(acc + Repeat(acc[|acc| - 1], k))
    case FewZeros(k) => Some(acc + Repeat(0, k))
    case ManyZeros(k) => Some(acc + Repeat(0, k))
  }

  function ApplyAll(acc: seq<nat>, ops: seq<Op>): Option<seq<nat>>
    decreases |ops|
  {
    if ops == [] then Some(acc)
    else
      match Apply(acc, ops[0])
      case None => None
      case Some(more) => ApplyAll(more, ops[1..])
  }

  lemma {:induction false} ApplyConcat(acc: seq<nat>, a: seq<Op>, b: seq<Op>, mid: seq<nat>)
    requires ApplyAll(acc, a) == Some(mid)
    ensures ApplyAll(acc, a + b) == ApplyAll(mid, b)
    decreases |a|
  {
    if a == [] {
      assert a + b == b;
    } else {
      assert (a + b)[1..] == a[1..] + b;
      ApplyConcat(Apply(acc, a[0]).value, a[1..], b, mid);
    }
  }

  // ----- the runs -----

  /** The largest and the smallest count for which a run gets a symbol of its own. */
  function MaxCount(prev: int, cur: nat): nat {
    if cur == 0 then 138 else if cur == prev then 6 else 7
  }

  function MinCount(prev: int, cur: nat): nat {
    if cur == 0 then 3 else if cur == prev then 3 else 4
  }

  /** The symbols for a run of `count` lengths `cur` after `prev`. */
  function RunOps(prev: int, cur: nat, count: nat): seq<Op>
    requires count > 0
  {
    if count < MinCount(prev, cur) then seq(count, _ => Len(cur))
    else if cur != 0 then
      if cur != prev then [Len(cur), Rep(count - 1)] else [Rep(count)]
    else if count <= 10 then [FewZeros(count)]
    else [ManyZeros(count)]
  }

  /** The length after position `n`; behind the last one there is a guard. */
  function NextLen(lens: Lengths, n: nat): nat {
    if n + 1 < |lens| then lens[n + 1] else 0xffff
  }

  /** The symbols for the lengths from position `n` on, of which `count` more belong to the run that `n` is in. */
  function OpsFrom(lens: Lengths, n: nat, count: nat, prev: int): seq<Op>
    requires n <= |lens|
    decreases |lens| - n
  {
    if n == |lens| then []
    else
      var cur := lens[n];
      if count + 1 < MaxCount(prev, cur) && cur == NextLen(lens, n) then OpsFrom(lens, n + 1, count + 1, prev)
      else RunOps(prev, cur, count + 1) + OpsFrom(lens, n + 1, 0, cur)
  }

  /** The state of the loop: `count` lengths before `n` are like the one at `n`, and `prev` comes before them. */
  ghost predicate InRun(lens: Lengths, n: nat, count: nat, prev: int) {
    && count <= n <= |lens| && (n == |lens| ==> count == 0)
    && (n < |lens| ==> count < MaxCount(prev, lens[n]))
    && (forall i :: n - count <= i < n ==> lens[i] == lens[n])
    && (if n == count then prev == -1 else prev == lens[n - count - 1])
  }

  /** A run gives symbols that the format allows, and they stand for the run. */
  lemma RunExpands(acc: seq<nat>, prev: int, cur: nat, count: nat)
    requires 0 < count <= MaxCount(prev, cur) && cur <= MAX_BITS
    requires cur == prev ==> acc != [] && acc[|acc| - 1] == prev
    ensures forall op <- RunOps(prev, cur, count) :: op.Ok()
    ensures ApplyAll(acc, RunOps(prev, cur, count)) == Some(acc + Repeat(cur, count))
  {
    var ops := RunOps(prev, cur, count);
    if count < MinCount(prev, cur) {
      SingleLens(acc, cur, count);
    } else if cur != 0 && cur != prev {
      var a := acc + [cur];
      assert ops[1..] == [Rep(count - 1)] && ops[1..][1..] == [];
      assert a + Repeat(cur, count - 1) == acc + Repeat(cur, count);
      assert ApplyAll(a, ops[1..]) == Some(a + Repeat(cur, count - 1));
    } else {
      assert ops[1..] == [];
    }
  }

  lemma {:induction false} SingleLens(acc: seq<nat>, cur: nat, count: nat)
    ensures ApplyAll(acc, seq(count, _ => Len(cur))) == Some(acc + Repeat(cur, count))
    decreases count
  {
    var ops := seq(count, _ => Len(cur));
    if count == 0 {
      assert acc + Repeat(cur, 0) == acc;
    } else {
      assert ops[1..] == seq(count - 1, _ => Len(cur));
      SingleLens(acc + [cur], cur, count - 1);
      assert acc + [cur] + Repeat(cur, count - 1) == acc + Repeat(cur, count);
    }
  }

  ghost predicate AllOk(ops: seq<Op>) {
    forall op <- ops :: op.Ok()
  }

  /** The symbols expand to the lengths, after any lengths before them. */
  lemma {:induction false} OpsExpand(pre: seq<nat>, lens: Lengths, n: nat, count: nat, prev: int)
    requires Limited(lens) && InRun(lens, n, count, prev)
    ensures AllOk(OpsFrom(lens, n, count, prev))
    ensures ApplyAll(pre + lens[..n - count], OpsFrom(lens, n, count, prev)) == Some(pre + lens)
    decreases |lens| - n
  {
    hide RunOps, MaxCount, MinCount;
    if n == |lens| {
      assert lens[..n] == lens;
    } else {
      var cur := lens[n];
      if count + 1 < MaxCount(prev, cur) && cur == NextLen(lens, n) {
        OpsExpand(pre, lens, n + 1, count + 1, prev);
        assert n + 1 - (count + 1) == n - count;
      } else {
        RunDone(pre, lens, n, count, prev);
        CountPositive(cur, lens, n + 1);
        OpsExpand(pre, lens, n + 1, 0, cur);
        ApplyConcat(pre + lens[..n - count], RunOps(prev, cur, count + 1), OpsFrom(lens, n + 1, 0, cur),
          pre + lens[..n + 1]);
      }
    }
  }

  lemma RunDone(pre: seq<nat>, lens: Lengths, n: nat, count: nat, prev: int)
    requires Limited(lens) && InRun(lens, n, count, prev) && n < |lens|
    ensures AllOk(RunOps(prev, lens[n], count + 1))
    ensures ApplyAll(pre + lens[..n - count], RunOps(prev, lens[n], count + 1)) == Some(pre + lens[..n + 1])
  {
    hide RunOps, MaxCount, MinCount, ApplyAll;
    var acc := pre + lens[..n - count];
    assert n > count ==> acc[|acc| - 1] == lens[n - count - 1];
    RunExpands(acc, prev, lens[n], count + 1);
    assert acc + Repeat(lens[n], count + 1) == pre + lens[..n + 1];
  }

  lemma CountPositive(prev: int, lens: Lengths, n: nat)
    ensures n < |lens| ==> 0 < MaxCount(prev, lens[n])
  {}

  /** The symbols for all lengths. */
  function OpsOf(lens: Lengths): seq<Op> {
    OpsFrom(lens, 0, 0, -1)
  }

  lemma OpsOfExpand(pre: seq<nat>, lens: Lengths)
    requires Limited(lens)
    ensures AllOk(OpsOf(lens)) && ApplyAll(pre, OpsOf(lens)) == Some(pre + lens)
  {
    OpsExpand(pre, lens, 0, 0, -1);
    assert pre + lens[..0] == pre;
  }

  // ----- as bits -----

  ghost predicate OpsSendable(bl: Lengths, ops: seq<Op>) {
    AllOk(ops) && |bl| == 19 && forall op <- ops :: bl[op.Number()] > 0
  }

  ghost function OpBits(bl: Lengths, op: Op): Bits
    requires op.Ok() && |bl| == 19
  {
    CodeBits(bl, op.Number()) + op.Extra()
  }

  ghost function OpsBits(bl: Lengths, ops: seq<Op>): Bits
    requires OpsSendable(bl, ops)
  {
    if ops == [] then [] else OpBits(bl, ops[0]) + OpsBits(bl, ops[1..])
  }

  /** The number that `n` extra bits give. */
  function Number(bits: Bits, n: nat): Option<Decoded<nat>> {
    if |bits| < n then None else Some(Decoded(Value(bits[..n]), bits[n..]))
  }

  /** One symbol of the code length alphabet. */
  function DecodeOp(bl: Lengths, bits: Bits): (r: Option<Decoded<Op>>)
    ensures r.Some? ==> |r.value.rest| < |bits|
  {
    match DecodeSymbol(bl, bits)
    case None => None
    case Some(s) =>
      if s.value <= 15 then Some(Decoded(Len(s.value), s.rest))
      else if s.value == 16 then
        match Number(s.rest, 2) case None => None case Some(k) => Some(Decoded(Rep(k.value + 3), k.rest))
      else if s.value == 17 then
        match Number(s.rest, 3) case None => None case Some(k) => Some(Decoded(FewZeros(k.value + 3), k.rest))
      else if s.value == 18 then
        match Number(s.rest, 7) case None => None case Some(k) => Some(Decoded(ManyZeros(k.value + 11), k.rest))
      else None
  }

  /** Lengths until there are `total`. */
  function DecodeLens(bl: Lengths, total: nat, acc: seq<nat>, bits: Bits): (r: Option<Decoded<seq<nat>>>)
    ensures r.Some? ==> |r.value.value| == total && |r.value.rest| <= |bits|
    decreases |bits|
  {
    if |acc| == total then Some(Decoded(acc, bits))
    else if |acc| > total then None
    else
      match DecodeOp(bl, bits)
      case None => None
      case Some(op) =>
        match Apply(acc, op.value)
        case None => None
        case Some(more) => DecodeLens(bl, total, more, op.rest)
  }

  lemma DecodeOpOf(bl: Lengths, op: Op, rest: Bits)
    requires Codable(bl) && |bl| == 19 && op.Ok() && bl[op.Number()] > 0
    ensures DecodeOp(bl, OpBits(bl, op) + rest) == Some(Decoded(op, rest))
  {
    hide Codable, CodeBits, DecodeSymbol, BitsOf, Value;
    var more := op.Extra() + rest;
    assert OpBits(bl, op) + rest == CodeBits(bl, op.Number()) + more;
    DecodeCode(bl, op.Number(), more);
    SmallPowers();
    match op
    case Len(_) => assert [] + rest == rest;
    case Rep(k) => DecodeExtra(k - 3, 2, rest);
    case FewZeros(k) => DecodeExtra(k - 3, 3, rest);
    case ManyZeros(k) => DecodeExtra(k - 11, 7, rest);
  }

  lemma SmallPowers()
    ensures Pow2(2) == 4 && Pow2(3) == 8 && Pow2(4) == 16 && Pow2(5) == 32 && Pow2(7) == 128
  {}

  /** Symbols only make the lengths more. */
  lemma {:induction false} ApplyGrows(acc: seq<nat>, ops: seq<Op>)
    requires AllOk(ops) && ApplyAll(acc, ops).Some?
    ensures |ApplyAll(acc, ops).value| >= |acc| + |ops|
    decreases |ops|
  {
    if ops != [] {
      assert ops[0].Ok();
      ApplyGrows(Apply(acc, ops[0]).value, ops[1..]);
    }
  }

  /** The bits of the symbols decode to what they stand for. */
  lemma {:induction false} DecodeLensOf(bl: Lengths, total: nat, acc: seq<nat>, ops: seq<Op>, all: seq<nat>, rest: Bits)
    requires Codable(bl) && OpsSendable(bl, ops) && ApplyAll(acc, ops) == Some(all)
    ensures DecodeLens(bl, total, acc, OpsBits(bl, ops) + rest) == DecodeLens(bl, total, all, rest) || |all| > total
    decreases |ops|
  {
    hide Codable, OpBits, DecodeOp;
    ApplyGrows(acc, ops);
    if ops == [] {
      assert OpsBits(bl, ops) + rest == rest;
    } else if |all| <= total {
      var op, more := ops[0], OpsBits(bl, ops[1..]) + rest;
      assert op.Ok() && bl[op.Number()] > 0;
      assert OpsBits(bl, ops) + rest == OpBits(bl, op) + more;
      DecodeOpOf(bl, op, more);
      DecodeLensOf(bl, total, Apply(acc, op).value, ops[1..], all, rest);
    }
  }

  // ----- scan_tree and send_tree -----

  /** The frequencies after these symbols. */
  function Tally(freq: seq<nat>, ops: seq<Op>): (r: seq<nat>)
    requires |freq| >= 19 && forall op <- ops :: op.Number() < 19
    ensures |r| == |freq|
  {
    if ops == [] then freq
    else
      var before := Tally(freq, ops[..|ops| - 1]);
      var x := ops[|ops| - 1].Number();
      before[x := before[x] + 1]
  }

  lemma TallyOne(freq: seq<nat>, ops: seq<Op>, op: Op)
    requires |freq| >= 19 && (forall o <- ops :: o.Number() < 19) && op.Number() < 19
    ensures forall o <- ops + [op] :: o.Number() < 19
    ensures Tally(freq, ops + [op]) == Tally(freq, ops)[op.Number() := Tally(freq, ops)[op.Number()] + 1]
  {
    assert (ops + [op])[..|ops|] == ops;
  }

  lemma {:induction false} TallyUsed(freq: seq<nat>, ops: seq<Op>, op: Op)
    requires |freq| >= 19 && (forall o <- ops :: o.Number() < 19) && op in ops
    ensures Tally(freq, ops)[op.Number()] > 0
    decreases |ops|
  {
    var n := |ops| - 1;
    if ops[n] != op {
      assert op in ops[..n];
      TallyUsed(freq, ops[..n], op);
    }
  }

  lemma {:induction false} TallyGrows(freq: seq<nat>, ops: seq<Op>, x: nat)
    requires |freq| >= 19 && (forall o <- ops :: o.Number() < 19) && x < |freq|
    ensures Tally(freq, ops)[x] >= freq[x]
    decreases |ops|
  {
    if ops != [] {
      TallyGrows(freq, ops[..|ops| - 1], x);
    }
  }

  ghost predicate Numbered(ops: seq<Op>) {
    forall op <- ops :: op.Number() < 19
  }

  lemma OkNumbered(ops: seq<Op>)
    requires AllOk(ops)
    ensures Numbered(ops)
  {
    forall op | op in ops ensures op.Number() < 19 {
      assert op.Ok();
    }
  }

  /** The symbols done and those to come. */
  ghost predicate OnTheWay(lens: Lengths, done: seq<Op>, n: nat, count: nat, prev: int) {
    n <= |lens| && done + OpsFrom(lens, n, count, prev) == OpsOf(lens)
  }

  /** The run goes on. */
  lemma GoesOn(lens: Lengths, done: seq<Op>, n: nat, count: nat, prev: int)
    requires OnTheWay(lens, done, n, count, prev) && n < |lens|
    requires count + 1 < MaxCount(prev, lens[n]) && lens[n] == NextLen(lens, n)
    ensures OnTheWay(lens, done, n + 1, count + 1, prev)
  {}

  /** The run ends. */
  lemma RunEnds(lens: Lengths, done: seq<Op>, n: nat, count: nat, prev: int)
    requires OnTheWay(lens, done, n, count, prev) && n < |lens|
    requires !(count + 1 < MaxCount(prev, lens[n]) && lens[n] == NextLen(lens, n))
    ensures OnTheWay(lens, done + RunOps(prev, lens[n], count + 1), n + 1, 0, lens[n])
  {
    var ops, rest := RunOps(prev, lens[n], count + 1), OpsFrom(lens, n + 1, 0, lens[n]);
    assert done + ops + rest == done + (ops + rest);
  }

  lemma WayNumbered(lens: Lengths, done: seq<Op>, n: nat, count: nat, prev: int)
    requires Limited(lens) && OnTheWay(lens, done, n, count, prev)
    ensures AllOk(done) && Numbered(done)
  {
    OpsOfExpand([], lens);
    forall op | op in done ensures op.Ok() {
      assert op in OpsOf(lens);
    }
    OkNumbered(done);
  }

  lemma Arrived(lens: Lengths, done: seq<Op>)
    requires OnTheWay(lens, done, |lens|, 0, if lens == [] then -1 else lens[|lens| - 1])
    ensures done == OpsOf(lens)
  {
    assert done + [] == done;
  }

  /** scan_tree: the frequencies of the symbols that send_tree will send. */
  method ScanTree(lens: Lengths, freq0: seq<nat>) returns (freq: seq<nat>)
    requires Limited(lens) && lens != [] && |freq0| >= 19
    ensures Numbered(OpsOf(lens)) && freq == Tally(freq0, OpsOf(lens))
  {
    hide OpsFrom, OnTheWay, Tally, Limited;
    freq := freq0;
    var prevlen: int, nextlen: nat, count: nat, maxCount: nat, minCount: nat := -1, lens[0], 0, 7, 4;
    if nextlen == 0 {
      maxCount, minCount := 138, 3;
    }
    ghost var done: seq<Op> := [];
    Setout(lens, freq0);
    for n := 0 to |lens|
      invariant count >= 0 && |freq| == |freq0| && OnTheWay(lens, done, n, count, prevlen)
      invariant Numbered(done) && freq == Tally(freq0, done)
      invariant n < |lens| ==> nextlen == lens[n]
      invariant n < |lens| ==> maxCount == MaxCount(prevlen, nextlen) && minCount == MinCount(prevlen, nextlen)
      invariant n == |lens| ==> count == 0 && prevlen == lens[n - 1]
    {
      var curlen := nextlen;
      nextlen := if n + 1 < |lens| then lens[n + 1] else 0xffff;
      LensFit(lens, n);
      count := count + 1;
      if count < maxCount && curlen == nextlen {
        GoesOn(lens, done, n, count - 1, prevlen);
        continue;
      }
      RunEnds(lens, done, n, count - 1, prevlen);
      ghost var ops := RunOps(prevlen, curlen, count);
      WayNumbered(lens, done + ops, n + 1, 0, curlen);
      freq := ScanRun(freq0, done, freq, prevlen, curlen, count, minCount);
      done := done + ops;
      count, prevlen := 0, curlen;
      if nextlen == 0 {
        maxCount, minCount := 138, 3;
      } else if curlen == nextlen {
        maxCount, minCount := 6, 3;
      } else {
        maxCount, minCount := 7, 4;
      }
    }
    Arrived(lens, done);
  }

  lemma Setout(lens: Lengths, freq: seq<nat>)
    requires |freq| >= 19
    ensures OnTheWay(lens, [], 0, 0, -1) && Numbered([]) && Tally(freq, []) == freq
  {
    assert [] + OpsFrom(lens, 0, 0, -1) == OpsOf(lens);
  }

  lemma LensFit(lens: Lengths, n: nat)
    requires Limited(lens) && n < |lens|
    ensures lens[n] <= MAX_BITS && (n + 1 < |lens| ==> lens[n + 1] <= MAX_BITS)
  {}

  /** The frequencies of one run. */
  method ScanRun(ghost freq0: seq<nat>, ghost done: seq<Op>, freq: seq<nat>, prevlen: int, curlen: nat, count: nat,
                 minCount: nat) returns (r: seq<nat>)
    requires |freq0| >= 19 && Numbered(done) && freq == Tally(freq0, done) && count > 0 && curlen <= MAX_BITS
    requires minCount == MinCount(prevlen, curlen) && Numbered(done + RunOps(prevlen, curlen, count))
    ensures r == Tally(freq0, done + RunOps(prevlen, curlen, count))
  {
    hide Tally;
    r := freq;
    if count < minCount {
      r := r[curlen := r[curlen] + count];
      TallySingles(freq0, done, curlen, count);
    } else if curlen != 0 {
      if curlen != prevlen {
        TallyOne(freq0, done, Len(curlen));
        r := r[curlen := r[curlen] + 1];
        TallyOne(freq0, done + [Len(curlen)], Rep(count - 1));
        assert done + [Len(curlen)] + [Rep(count - 1)] == done + [Len(curlen), Rep(count - 1)];
      } else {
        TallyOne(freq0, done, Rep(count));
      }
      r := r[16 := r[16] + 1];
    } else if count <= 10 {
      TallyOne(freq0, done, FewZeros(count));
      r := r[17 := r[17] + 1];
    } else {
      TallyOne(freq0, done, ManyZeros(count));
      r := r[18 := r[18] + 1];
    }
  }

  lemma {:induction false} TallySingles(freq: seq<nat>, done: seq<Op>, cur: nat, count: nat)
    requires |freq| >= 19 && Numbered(done) && cur <= MAX_BITS
    ensures Numbered(done + seq(count, _ => Len(cur)))
    ensures Tally(freq, done + seq(count, _ => Len(cur))) == Tally(freq, done)[cur := Tally(freq, done)[cur] + count]
    decreases count
  {
    var ops := done + seq(count, _ => Len(cur));
    if count == 0 {
      assert ops == done;
    } else {
      var fewer := done + seq(count - 1, _ => Len(cur));
      assert ops == fewer + [Len(cur)];
      TallySingles(freq, done, cur, count - 1);
      TallyOne(freq, fewer, Len(cur));
    }
  }

  lemma {:induction false} OpsBitsConcat(bl: Lengths, a: seq<Op>, b: seq<Op>)
    requires OpsSendable(bl, a) && OpsSendable(bl, b)
    ensures OpsSendable(bl, a + b) && OpsBits(bl, a + b) == OpsBits(bl, a) + OpsBits(bl, b)
    decreases |a|
  {
    hide OpBits;
    if a == [] {
      assert a + b == b && [] + OpsBits(bl, b) == OpsBits(bl, b);
    } else {
      assert (a + b)[1..] == a[1..] + b;
      OpsBitsConcat(bl, a[1..], b);
      var x, y, z := OpBits(bl, a[0]), OpsBits(bl, a[1..]), OpsBits(bl, b);
      assert x + (y + z) == (x + y) + z;
    }
  }

  lemma OpsBitsOne(bl: Lengths, op: Op)
    requires OpsSendable(bl, [op])
    ensures op.Ok() && bl[op.Number()] > 0 && OpsBits(bl, [op]) == OpBits(bl, op)
  {
    assert op in [op];
    assert [op][1..] == [] && OpBits(bl, op) + [] == OpBits(bl, op);
  }

  /** One symbol with its extra bits. */
  method SendOp(w: BitWriter, bltree: Tree, op: Op)
    requires w.Valid() && bltree.Ok() && OpsSendable(bltree.lens, [op])
    modifies w
    ensures w.Valid() && w.Sent() == old(w.Sent()) + OpsBits(bltree.lens, [op])
  {
    hide CodeBits, BitsOf, Tree.Ok, BitWriter.Sent, BitWriter.Valid, OpsBits, Pow2;
    OpsBitsOne(bltree.lens, op);
    SmallPowers();
    SendCode(w, bltree, op.Number());
    ghost var a, b := CodeBits(bltree.lens, op.Number()), op.Extra();
    assert old(w.Sent()) + a + b == old(w.Sent()) + (a + b);
    match op {
      case Len(_) => assert old(w.Sent()) + a + [] == old(w.Sent()) + a;
      case Rep(k) => w.SendBits(k - 3, 2);
      case FewZeros(k) => w.SendBits(k - 3, 3);
      case ManyZeros(k) => w.SendBits(k - 11, 7);
    }
  }

  /** The symbols of one run. */
  method SendRun(w: BitWriter, bltree: Tree, prevlen: int, curlen: nat, count0: nat, minCount: nat)
    requires w.Valid() && bltree.Ok() && count0 > 0 && minCount == MinCount(prevlen, curlen)
    requires OpsSendable(bltree.lens, RunOps(prevlen, curlen, count0))
    modifies w
    ensures w.Valid() && w.Sent() == old(w.Sent()) + OpsBits(bltree.lens, RunOps(prevlen, curlen, count0))
  {
    hide OpsBits, Tree.Ok, BitWriter.Sent, BitWriter.Valid;
    ghost var start, ops := w.Sent(), RunOps(prevlen, curlen, count0);
    var count := count0;
    if count < minCount {
      SendSingles(w, bltree, curlen, count);
    } else if curlen != 0 {
      if curlen != prevlen {
        assert ops == [Len(curlen)] + [Rep(count - 1)];
        assert Len(curlen) in ops && Rep(count - 1) in ops;
        SendOp(w, bltree, Len(curlen));
        count := count - 1;
        OpsBitsConcat(bltree.lens, [Len(curlen)], [Rep(count)]);
        ghost var a, b := OpsBits(bltree.lens, [Len(curlen)]), OpsBits(bltree.lens, [Rep(count)]);
        assert start + a + b == start + (a + b);
      }
      SendOp(w, bltree, Rep(count));
    } else if count <= 10 {
      SendOp(w, bltree, FewZeros(count));
    } else {
      SendOp(w, bltree, ManyZeros(count));
    }
  }

  /** A run that is too short is sent length by length. */
  method SendSingles(w: BitWriter, bltree: Tree, curlen: nat, count0: nat)
    requires w.Valid() && bltree.Ok() && count0 > 0 && OpsSendable(bltree.lens, seq(count0, _ => Len(curlen)))
    modifies w
    ensures w.Valid() && w.Sent() == old(w.Sent()) + OpsBits(bltree.lens, seq(count0, _ => Len(curlen)))
  {
    hide OpsBits, Tree.Ok, BitWriter.Sent, BitWriter.Valid;
    ghost var start, ops, bl := w.Sent(), seq(count0, _ => Len(curlen)), bltree.lens;
    assert ops[0] in ops;
    var count: nat := count0;
    NoOps(bl);
    assert start + [] == start && ops[..0] == [];
    while count != 0
      invariant count <= count0 && w.Valid()
      invariant OpsSendable(bl, ops[..count0 - count]) && w.Sent() == start + OpsBits(bl, ops[..count0 - count])
    {
      ghost var sent := ops[..count0 - count];
      SendOp(w, bltree, Len(curlen));
      OpsBitsConcat(bl, sent, [Len(curlen)]);
      ghost var a, b := OpsBits(bl, sent), OpsBits(bl, [Len(curlen)]);
      assert start + a + b == start + (a + b);
      count := count - 1;
      assert ops[..count0 - count] == sent + [Len(curlen)];
    }
    assert ops[..count0] == ops;
  }

  lemma NoOps(bl: Lengths)
    requires |bl| == 19
    ensures OpsSendable(bl, []) && OpsBits(bl, []) == []
  {}

  /** send_tree: the lengths as symbols of the code length alphabet. */
  method SendTree(w: BitWriter, lens: Lengths, bltree: Tree)
    requires w.Valid() && Limited(lens) && lens != [] && bltree.Ok() && OpsSendable(bltree.lens, OpsOf(lens))
    modifies w
    ensures w.Valid() && w.Sent() == old(w.Sent()) + OpsBits(bltree.lens, OpsOf(lens))
  {
    hide OpsFrom, OnTheWay, Limited, OpsBits, OpsSendable, Tree.Ok, BitWriter.Sent, BitWriter.Valid;
    var prevlen: int, nextlen: nat, count: nat, maxCount: nat, minCount: nat := -1, lens[0], 0, 7, 4;
    if nextlen == 0 {
      maxCount, minCount := 138, 3;
    }
    ghost var done: seq<Op>, start, bl := [], w.Sent(), bltree.lens;
    SendableSize(bl, OpsOf(lens));
    NoOps(bl);
    Setout(lens, bl);
    assert start + [] == start;
    for n := 0 to |lens|
      invariant OnTheWay(lens, done, n, count, prevlen)
      invariant w.Valid() && OpsSendable(bl, done) && w.Sent() == start + OpsBits(bl, done)
      invariant n < |lens| ==> nextlen == lens[n]
      invariant n < |lens| ==> maxCount == MaxCount(prevlen, nextlen) && minCount == MinCount(prevlen, nextlen)
      invariant n == |lens| ==> count == 0 && prevlen == lens[n - 1]
    {
      var curlen := nextlen;
      nextlen := if n + 1 < |lens| then lens[n + 1] else 0xffff;
      LensFit(lens, n);
      count := count + 1;
      if count < maxCount && curlen == nextlen {
        GoesOn(lens, done, n, count - 1, prevlen);
        continue;
      }
      RunEnds(lens, done, n, count - 1, prevlen);
      ghost var ops := RunOps(prevlen, curlen, count);
      PartsSendable(bl, lens, done, ops, n + 1, curlen);
      SendRun(w, bltree, prevlen, curlen, count, minCount);
      OpsBitsConcat(bl, done, ops);
      assert start + OpsBits(bl, done) + OpsBits(bl, ops) == start + (OpsBits(bl, done) + OpsBits(bl, ops));
      done := done + ops;
      count, prevlen := 0, curlen;
      if nextlen == 0 {
        maxCount, minCount := 138, 3;
      } else if curlen == nextlen {
        maxCount, minCount := 6, 3;
      } else {
        maxCount, minCount := 7, 4;
      }
    }
    Arrived(lens, done);
  }

  lemma SendableSize(bl: Lengths, ops: seq<Op>)
    requires OpsSendable(bl, ops)
    ensures |bl| == 19
  {}

  lemma PartsSendable(bl: Lengths, lens: Lengths, done: seq<Op>, ops: seq<Op>, n: nat, prev: int)
    requires OpsSendable(bl, OpsOf(lens)) && OnTheWay(lens, done + ops, n, 0, prev)
    ensures OpsSendable(bl, done) && OpsSendable(bl, ops)
  {
    hide OpsOf;
    forall op | op in done || op in ops ensures op.Ok() && bl[op.Number()] > 0 {
      assert op in OpsOf(lens);
    }
  }
}

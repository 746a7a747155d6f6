/**
  Code lengths from a Huffman tree, as gen_bitlen of zlib/trees.c finds them: depths, cut to a limit, and then leaves
  moved until the lengths are those of a complete code again.
 */
module HuffmanLengths {
  import opened BitArith
  import opened HuffmanCodes
  import opened IntrusiveList
  import opened Prices

  /** A node's father and then its length are kept in the same field. */
  type Links = seq<nat>

  /**
    The nodes of a tree from the root down: two after the other have the same father, and fathers are the inner nodes
    from the last to the first. Leaves are below `elems`.
   */
  ghost predicate TopDown(dad: Links, elems: nat, top: seq<nat>) {
    && |top| >= 3 && |top| % 2 == 1 && top[0] == Root(elems, top) < |dad| && NoRepeats(top)
    && (forall i :: 1 <= i < |top| ==> top[i] < |dad| && dad[top[i]] == Father(elems, top, i) > top[i])
    && (forall x :: elems <= x <= Root(elems, top) ==> x in top)
  }

  function Root(elems: nat, top: seq<nat>): nat
    requires |top| >= 2
  {
    elems + |top| / 2 - 1
  }

  function Father(elems: nat, top: seq<nat>, i: nat): nat
    requires i < |top|
  {
    elems + (|top| - 1 - i) / 2
  }

  function Min(a: nat, b: nat): nat {
    if a <= b then a else b
  }

  /** Lengths of the first `n` nodes: one more than the father's, but at most `max`. */
  ghost predicate Deepen(dad: Links, lens: Links, top: seq<nat>, max: nat, n: nat) {
    && |lens| == |dad| && 0 < n <= |top| && Inside(top, |dad|)
    && lens[top[0]] == 0
    && forall i :: 1 <= i < n ==>
         dad[top[i]] < |dad| && lens[top[i]] == Min(lens[dad[top[i]]] + 1, max)
  }

  // ----- sums over nodes -----

  /** What a length counts for: its share of all bit strings, or one for a given length, or one, or itself. */
  datatype Table = Share | Exactly(l: nat) | Each | Itself {
    function Of(len: nat): nat {
      match this
      case Share => if len <= MAX_BITS then Weight(len) else 0
      case Exactly(l) => if len == l then 1 else 0
      case Each => 1
      case Itself => len
    }
  }

  predicate Inside(top: seq<nat>, size: nat) {
    forall j :: 0 <= j < |top| ==> top[j] < size
  }

  predicate Dadful(dad: Links, top: seq<nat>) {
    forall j :: 1 <= j < |top| ==> top[j] < |dad| && dad[top[j]] < |dad|
  }

  /** Over the nodes after the root and before position `i` that are from `lo` to `hi`. */
  function SumIn(f: Table, lens: Links, top: seq<nat>, lo: nat, hi: nat, i: nat): nat
    requires i <= |top| && Inside(top, |lens|)
  {
    if i <= 1 then 0
    else SumIn(f, lens, top, lo, hi, i - 1) + if lo <= top[i - 1] < hi then f.Of(lens[top[i - 1]]) else 0
  }

  /** Over the fathers of the same nodes. */
  function SumDads(f: Table, dad: Links, lens: Links, top: seq<nat>, i: nat): nat
    requires i <= |top| && |lens| == |dad| && Dadful(dad, top)
  {
    if i <= 1 then 0 else SumDads(f, dad, lens, top, i - 1) + f.Of(lens[dad[top[i - 1]]])
  }

  /** Over all nodes from `lo` to `hi`. */
  function SumRange(f: Table, lens: Links, lo: nat, hi: nat): nat
    requires hi <= |lens|
    decreases hi
  {
    if hi <= lo then 0 else SumRange(f, lens, lo, hi - 1) + f.Of(lens[hi - 1])
  }

  lemma {:induction false} SumSplit(f: Table, lens: Links, top: seq<nat>, lo: nat, mid: nat, hi: nat, i: nat)
    requires i <= |top| && Inside(top, |lens|) && lo <= mid <= hi
    ensures SumIn(f, lens, top, lo, hi, i) == SumIn(f, lens, top, lo, mid, i) + SumIn(f, lens, top, mid, hi, i)
    decreases i
  {
    if i > 1 {
      SumSplit(f, lens, top, lo, mid, hi, i - 1);
    }
  }

  lemma {:induction false} SumOne(f: Table, lens: Links, top: seq<nat>, x: nat, i: nat)
    requires i <= |top| && Inside(top, |lens|) && NoRepeats(top) && x < |lens|
    ensures SumIn(f, lens, top, x, x + 1, i) == if i > 1 && x in top[1..i] then f.Of(lens[x]) else 0
    decreases i
  {
    if i > 1 {
      SumOne(f, lens, top, x, i - 1);
      assert i > 2 ==> top[1..i] == top[1..i - 1] + [top[i - 1]];
      assert i == 2 ==> top[1..i] == [top[1]];
      if top[i - 1] == x && i > 2 {
        assert forall j :: 1 <= j < i - 1 ==> top[j] != top[i - 1];
      }
    }
  }

  lemma {:induction false} SumNone(f: Table, lens: Links, top: seq<nat>, lo: nat, hi: nat, i: nat)
    requires i <= |top| && Inside(top, |lens|) && hi <= lo
    ensures SumIn(f, lens, top, lo, hi, i) == 0
    decreases i
  {
    if i > 1 {
      SumNone(f, lens, top, lo, hi, i - 1);
    }
  }

  /** Numbers from `lo` to `hi` that all are among the nodes after the root. */
  lemma {:induction false} SumAllIn(f: Table, lens: Links, top: seq<nat>, lo: nat, hi: nat)
    requires |top| > 1 && Inside(top, |lens|) && NoRepeats(top) && hi <= |lens|
    requires forall x :: lo <= x < hi ==> x in top[1..]
    ensures SumIn(f, lens, top, lo, hi, |top|) == SumRange(f, lens, lo, hi)
    decreases hi
  {
    if hi <= lo {
      SumNone(f, lens, top, lo, hi, |top|);
    } else {
      SumAllIn(f, lens, top, lo, hi - 1);
      SumSplit(f, lens, top, lo, hi - 1, hi, |top|);
      SumOne(f, lens, top, hi - 1, |top|);
      assert top[1..|top|] == top[1..];
    }
  }

  /** The fathers are the inner nodes from the last on, each of them twice. */
  lemma {:induction false} DadsTwice(f: Table, dad: Links, lens: Links, elems: nat, top: seq<nat>, t: nat)
    requires TopDown(dad, elems, top) && |lens| == |dad| && 2 * t + 1 <= |top|
    ensures Root(elems, top) + 1 - t >= 0 && Dadful(dad, top)
    ensures SumDads(f, dad, lens, top, 2 * t + 1)
         == 2 * SumRange(f, lens, Root(elems, top) + 1 - t, Root(elems, top) + 1)
    decreases t
  {
    DadsFit(dad, elems, top);
    var r := Root(elems, top);
    if t > 0 {
      DadsTwice(f, dad, lens, elems, top, t - 1);
      var x := r + 1 - t;
      assert Father(elems, top, 2 * t) == x && Father(elems, top, 2 * t - 1) == x;
      RangeFirst(f, lens, x, r + 1);
    }
  }

  lemma DadsFit(dad: Links, elems: nat, top: seq<nat>)
    requires TopDown(dad, elems, top)
    ensures |top| >= 3 && Dadful(dad, top) && Inside(top, |dad|)
  {
    forall j | 1 <= j < |top| ensures dad[top[j]] < |dad| {
      assert Father(elems, top, j) <= Root(elems, top);
    }
  }

  lemma {:induction false} RangeFirst(f: Table, lens: Links, lo: nat, hi: nat)
    requires lo < hi <= |lens|
    ensures SumRange(f, lens, lo, hi) == f.Of(lens[lo]) + SumRange(f, lens, lo + 1, hi)
    decreases hi
  {
    if lo < hi - 1 {
      RangeFirst(f, lens, lo, hi - 1);
    }
  }

  // ----- what the depths amount to -----

  /** A son has half the share of his father, unless both are cut to the limit. */
  lemma Halves(max: nat, d: nat)
    requires 0 < max <= MAX_BITS && d <= max
    ensures var l := Min(d + 1, max);
      2 * Share.Of(l) == Share.Of(d) + Exactly(max).Of(d) * Weight(max) && Exactly(max).Of(d) <= Exactly(max).Of(l)
  {
    if d < max {
      assert Weight(d) == 2 * Weight(d + 1);
    }
  }

  lemma {:induction false} HalvesAll(dad: Links, lens: Links, elems: nat, top: seq<nat>, max: nat, i: nat)
    requires TopDown(dad, elems, top) && Deepen(dad, lens, top, max, |top|) && 0 < max <= MAX_BITS && i <= |top|
    ensures Dadful(dad, top)
    ensures var all := Root(elems, top) + 1;
      && 2 * SumIn(Share, lens, top, 0, all, i)
           == SumDads(Share, dad, lens, top, i) + SumDads(Exactly(max), dad, lens, top, i) * Weight(max)
      && SumIn(Exactly(max), lens, top, 0, all, i) >= SumDads(Exactly(max), dad, lens, top, i)
    decreases i
  {
    DadsFit(dad, elems, top);
    if i > 1 {
      HalvesAll(dad, lens, elems, top, max, i - 1);
      var x, d := top[i - 1], dad[top[i - 1]];
      assert x <= Root(elems, top) by { assert Father(elems, top, i - 1) <= Root(elems, top); }
      DadLimited(dad, lens, elems, top, max, i - 1);
      Halves(max, lens[d]);
      assert lens[x] == Min(lens[d] + 1, max);
      hide TopDown, Deepen, Table.Of, Weight, Min;
      Add(SumDads(Exactly(max), dad, lens, top, i - 1), Exactly(max).Of(lens[d]), Weight(max));
    }
  }

  lemma Add(a: int, b: int, w: int)
    ensures (a + b) * w == a * w + b * w
  {}

  /** No length passes the limit. */
  lemma DadLimited(dad: Links, lens: Links, elems: nat, top: seq<nat>, max: nat, i: nat)
    requires TopDown(dad, elems, top) && Deepen(dad, lens, top, max, |top|) && 1 <= i < |top|
    ensures dad[top[i]] < |lens| && lens[dad[top[i]]] <= max
  {
    var d := dad[top[i]];
    assert elems <= d <= Root(elems, top);
    assert d in top;
    var p :| 0 <= p < |top| && top[p] == d;
  }

  /**
    The shares of the leaves, with the lengths cut to the limit, are more than the whole by half the number of nodes
    below the limit; and so many leaves at least are at the limit.
   */
  lemma LeafShares(dad: Links, lens: Links, elems: nat, top: seq<nat>, max: nat)
    requires TopDown(dad, elems, top) && Deepen(dad, lens, top, max, |top|) && 0 < max <= MAX_BITS
    ensures Dadful(dad, top)
    ensures var over := SumDads(Exactly(max), dad, lens, top, |top|);
      && over % 2 == 0
      && SumIn(Share, lens, top, 0, elems, |top|) == Pow2(MAX_BITS) + over / 2 * Weight(max)
      && SumIn(Exactly(max), lens, top, 0, elems, |top|) >= over / 2
  {
    var r := Root(elems, top);
    assert lens[r] == 0 && Share.Of(0) == Pow2(MAX_BITS) && Exactly(max).Of(0) == 0;
    HalvesAll(dad, lens, elems, top, max, |top|);
    LeavesAndInner(Share, dad, lens, elems, top);
    LeavesAndInner(Exactly(max), dad, lens, elems, top);
    hide TopDown, Deepen, SumIn, SumDads, SumRange, Weight, Pow2, Table.Of, Root;
    Twice(SumRange(Exactly(max), lens, elems, r), Weight(max));
  }

  lemma Twice(x: nat, w: nat)
    ensures (2 * x) * w == 2 * (x * w) && 2 * x / 2 == x
  {}

  lemma LeavesAndInner(f: Table, dad: Links, lens: Links, elems: nat, top: seq<nat>)
    requires TopDown(dad, elems, top) && |lens| == |dad|
    ensures Dadful(dad, top) && Inside(top, |lens|)
    ensures var r := Root(elems, top);
      var inner := SumRange(f, lens, elems, r);
      && SumIn(f, lens, top, 0, r + 1, |top|) == SumIn(f, lens, top, 0, elems, |top|) + inner
      && SumDads(f, dad, lens, top, |top|) == 2 * (inner + f.Of(lens[r]))
  {
    var r := Root(elems, top);
    DadsFit(dad, elems, top);
    SumSplit(f, lens, top, 0, elems, r + 1, |top|);
    SumSplit(f, lens, top, elems, r, r + 1, |top|);
    forall x | elems <= x < r ensures x in top[1..] {
      assert x in top;
      var p :| 0 <= p < |top| && top[p] == x;
      assert top[1..][p - 1] == x;
    }
    SumAllIn(f, lens, top, elems, r);
    SumOne(f, lens, top, r, |top|);
    RootOnce(elems, top);
    DadsTwice(f, dad, lens, elems, top, |top| / 2);
  }

  lemma RootOnce(elems: nat, top: seq<nat>)
    requires |top| > 1 && NoRepeats(top) && top[0] == Root(elems, top)
    ensures Root(elems, top) !in top[1..|top|]
  {
    forall j | 0 <= j < |top[1..|top|]| ensures top[1..|top|][j] != top[0] {
      assert top[1..|top|][j] == top[j + 1];
    }
  }

  // ----- counts -----

  /** The shares of `c[l]` codes of each length `l` below `n`. */
  function Counted(c: seq<nat>, n: nat): nat
    requires n <= |c| && n <= MAX_BITS + 1
  {
    if n == 0 then 0 else Counted(c, n - 1) + c[n - 1] * Weight(n - 1)
  }

  function Total(c: seq<nat>, n: nat): nat
    requires n <= |c|
  {
    if n == 0 then 0 else Total(c, n - 1) + c[n - 1]
  }

  lemma {:induction false} CountedSet(c: seq<nat>, l: nat, v: nat, n: nat)
    requires l < |c| && n <= |c| && n <= MAX_BITS + 1
    ensures Total(c[l := v], n) == Total(c, n) + if l < n then v - c[l] else 0
    ensures Counted(c[l := v], n) == Counted(c, n) + if l < n then v * Weight(l) - c[l] * Weight(l) else 0
    decreases n
  {
    if n > 0 {
      CountedSet(c, l, v, n - 1);
    }
  }

  lemma CountedMore(c: seq<nat>, l: nat)
    requires l <= MAX_BITS < |c|
    ensures Total(c[l := c[l] + 1], MAX_BITS + 1) == Total(c, MAX_BITS + 1) + 1
    ensures Counted(c[l := c[l] + 1], MAX_BITS + 1) == Counted(c, MAX_BITS + 1) + Weight(l)
  {
    CountedSet(c, l, c[l] + 1, MAX_BITS + 1);
    OneMoreTime(c[l], Weight(l));
  }

  lemma {:induction false} NoneCounted(c: seq<nat>, n: nat)
    requires n <= |c| && n <= MAX_BITS + 1 && forall l :: 0 <= l < n ==> c[l] == 0
    ensures Counted(c, n) == 0 && Total(c, n) == 0
    decreases n
  {
    if n > 0 {
      NoneCounted(c, n - 1);
    }
  }

  /** The counts of the leaves before position `i`. */
  ghost predicate Tally(c: seq<nat>, lens: Links, top: seq<nat>, elems: nat, i: nat)
    requires i <= |top| && Inside(top, |lens|)
  {
    && |c| == MAX_BITS + 1 && c[0] == 0
    && (forall l :: 1 <= l <= MAX_BITS ==> c[l] == SumIn(Exactly(l), lens, top, 0, elems, i))
    && Counted(c, MAX_BITS + 1) == SumIn(Share, lens, top, 0, elems, i)
    && Total(c, MAX_BITS + 1) == SumIn(Each, lens, top, 0, elems, i)
  }

  lemma {:induction false} SumFrame(f: Table, lens: Links, lens': Links, top: seq<nat>, lo: nat, hi: nat, i: nat)
    requires i <= |top| && |lens| == |lens'| && Inside(top, |lens|)
    requires forall j :: 1 <= j < i ==> lens[top[j]] == lens'[top[j]]
    ensures SumIn(f, lens, top, lo, hi, i) == SumIn(f, lens', top, lo, hi, i)
    decreases i
  {
    if i > 1 {
      SumFrame(f, lens, lens', top, lo, hi, i - 1);
    }
  }

  lemma {:induction false} DadFrame(f: Table, dad: Links, lens: Links, lens': Links, top: seq<nat>, i: nat)
    requires i <= |top| && |lens| == |lens'| == |dad| && Dadful(dad, top)
    requires forall j :: 1 <= j < i ==> lens[dad[top[j]]] == lens'[dad[top[j]]]
    ensures SumDads(f, dad, lens, top, i) == SumDads(f, dad, lens', top, i)
    decreases i
  {
    if i > 1 {
      DadFrame(f, dad, lens, lens', top, i - 1);
    }
  }

  /** A leaf more, or an inner node more. */
  lemma TallyMore(c: seq<nat>, lens: Links, lens': Links, top: seq<nat>, elems: nat, i: nat)
    requires 1 <= i < |top| && |lens| == |lens'| && Inside(top, |lens|)
    requires Tally(c, lens, top, elems, i) && forall j :: 1 <= j < i ==> lens[top[j]] == lens'[top[j]]
    requires top[i] < elems ==> 1 <= lens'[top[i]] <= MAX_BITS
    ensures var l := lens'[top[i]];
      Tally(if top[i] < elems then c[l := c[l] + 1] else c, lens', top, elems, i + 1)
  {
    hide Counted, Total;
    var l := lens'[top[i]];
    forall f: Table ensures SumIn(f, lens', top, 0, elems, i) == SumIn(f, lens, top, 0, elems, i) {
      SumFrame(f, lens, lens', top, 0, elems, i);
    }
    if top[i] < elems {
      CountedMore(c, l);
    }
  }

  /** The father of a node comes before it. */
  lemma FatherBefore(dad: Links, elems: nat, top: seq<nat>, i: nat) returns (p: nat)
    requires TopDown(dad, elems, top) && 1 <= i < |top|
    ensures p < i && top[p] == dad[top[i]]
  {
    var d := dad[top[i]];
    assert elems <= d <= Root(elems, top);
    assert d in top;
    p :| 0 <= p < |top| && top[p] == d;
  }

  // ----- what the lengths cost -----

  /** The bits for all occurrences of each symbol. */
  function Bills(fc: seq<nat>, desc: Desc, lens: Links): (p: seq<nat>)
    requires |fc| == |lens|
    ensures |p| == |fc| && forall x :: 0 <= x < |fc| ==> p[x] == fc[x] * (lens[x] + desc.Extra(x))
  {
    seq(|fc|, x requires 0 <= x < |fc| => fc[x] * (lens[x] + desc.Extra(x)))
  }

  function StaticBills(fc: seq<nat>, desc: Desc): (p: seq<nat>)
    ensures |p| == |fc| && forall x :: 0 <= x < |fc| ==> p[x] == fc[x] * desc.StaticBits(x)
  {
    seq(|fc|, x requires 0 <= x < |fc| => fc[x] * desc.StaticBits(x))
  }

  /** What the leaves before position `i` add to opt_len and static_len. */
  ghost predicate Spent(opt: nat, stat: nat, fc: seq<nat>, desc: Desc, lens: Links, top: seq<nat>, elems: nat, i: nat) {
    && |fc| == |lens| && i <= |top| && Inside(top, |lens|)
    && opt == SumIn(Itself, Bills(fc, desc, lens), top, 0, elems, i)
    && stat == SumIn(Itself, StaticBills(fc, desc), top, 0, elems, i)
  }

  lemma SpentNothing(fc: seq<nat>, desc: Desc, lens: Links, top: seq<nat>, elems: nat)
    requires |fc| == |lens| && |top| > 0 && Inside(top, |lens|)
    ensures Spent(0, 0, fc, desc, lens, top, elems, 1)
  {}

  lemma SpentMore(opt: nat, stat: nat, fc: seq<nat>, desc: Desc, lens: Links, lens': Links, top: seq<nat>, elems: nat,
                  i: nat)
    requires 1 <= i < |top| && Spent(opt, stat, fc, desc, lens, top, elems, i) && |lens'| == |lens|
    requires forall j :: 1 <= j < i ==> lens[top[j]] == lens'[top[j]]
    ensures var n := top[i];
      if n < elems then
        Spent(opt + fc[n] * (lens'[n] + desc.Extra(n)), stat + fc[n] * desc.StaticBits(n), fc, desc, lens', top, elems,
          i + 1)
      else
        Spent(opt, stat, fc, desc, lens', top, elems, i + 1)
  {
    hide Bills, StaticBills, Desc.Extra, Desc.StaticBits;
    SumFrame(Itself, Bills(fc, desc, lens), Bills(fc, desc, lens'), top, 0, elems, i);
  }

  /** Another length for a leaf. */
  lemma SpentAgain(opt: nat, stat: nat, fc: seq<nat>, desc: Desc, lens: Links, top: seq<nat>, elems: nat, h: nat,
                   bits: nat)
    requires 1 <= h < |top| && Spent(opt, stat, fc, desc, lens, top, elems, |top|) && NoRepeats(top) && top[h] < elems
    ensures var m := top[h];
      && opt + fc[m] * bits - fc[m] * lens[m] >= 0
      && Spent(opt + fc[m] * bits - fc[m] * lens[m], stat, fc, desc, lens[m := bits], top, elems, |top|)
  {
    hide Bills, StaticBills, Desc.Extra, Desc.StaticBits, SumIn, NoRepeats;
    var m := top[h];
    var p, p' := Bills(fc, desc, lens), Bills(fc, desc, lens[m := bits]);
    SumChanged(p, p', top, elems, h, |top|);
    Product(fc[m], bits, desc.Extra(m));
    Product(fc[m], lens[m], desc.Extra(m));
  }

  lemma Product(f: nat, a: nat, b: nat)
    ensures f * (a + b) == f * a + f * b
  {}

  lemma {:induction false} SumChanged(p: Links, p': Links, top: seq<nat>, elems: nat, h: nat, i: nat)
    requires 1 <= h < |top| && i <= |top| && Inside(top, |p|) && |p| == |p'| && NoRepeats(top) && top[h] < elems
    requires forall x :: 0 <= x < |p| && x != top[h] ==> p'[x] == p[x]
    ensures var before, after := SumIn(Itself, p, top, 0, elems, i), SumIn(Itself, p', top, 0, elems, i);
      if h < i then after + p[top[h]] == before + p'[top[h]] else after == before
    decreases i
  {
    if i > 1 {
      SumChanged(p, p', top, elems, h, i - 1);
      assert i - 1 != h ==> top[i - 1] != top[h];
    }
  }

  // ----- gen_bitlen -----

  /** Nothing but the tree has changed. */
  ghost predicate KeptOutside(dl: Links, dl': Links, top: seq<nat>) {
    |dl| == |dl'| && forall x :: 0 <= x < |dl| && x !in top ==> dl'[x] == dl[x]
  }

  /** The lengths of the leaves are from 1 to the limit. */
  ghost predicate LeavesIn(lens: Links, top: seq<nat>, elems: nat, max: nat)
    requires Inside(top, |lens|)
  {
    forall j :: 0 <= j < |top| && top[j] < elems ==> 1 <= lens[top[j]] <= max
  }

  lemma TallyNone(c: seq<nat>, lens: Links, top: seq<nat>, elems: nat)
    requires c == seq(MAX_BITS + 1, _ => 0) && |top| > 0 && Inside(top, |lens|)
    ensures Tally(c, lens, top, elems, 1)
  {
    NoneCounted(c, MAX_BITS + 1);
  }

  lemma DadsNone(max: nat, dad: Links, lens: Links, top: seq<nat>)
    requires Dadful(dad, top) && |lens| == |dad| && |top| > 0
    ensures SumDads(Exactly(max), dad, lens, top, 1) == 0
  {}

  lemma TallySize(c: seq<nat>, lens: Links, top: seq<nat>, elems: nat, i: nat)
    requires i <= |top| && Inside(top, |lens|) && Tally(c, lens, top, elems, i)
    ensures |c| == MAX_BITS + 1
  {}

  /** The length of one node more: those before it are as they were. */
  lemma Later(dad: Links, lens: Links, lens': Links, elems: nat, top: seq<nat>, i: nat, max: nat)
    requires TopDown(dad, elems, top) && 1 <= i < |top| && Deepen(dad, lens, top, max, i) && Dadful(dad, top)
    requires lens' == lens[top[i] := Min(lens[dad[top[i]]] + 1, max)]
    ensures Deepen(dad, lens', top, max, i + 1) && lens'[dad[top[i]]] == lens[dad[top[i]]]
    ensures forall j :: 0 <= j < |top| && j != i ==> lens'[top[j]] == lens[top[j]]
    ensures SumDads(Exactly(max), dad, lens', top, i + 1)
         == SumDads(Exactly(max), dad, lens, top, i) + if lens[dad[top[i]]] == max then 1 else 0
  {
    forall j | 0 <= j < |top| && j != i ensures lens'[top[j]] == lens[top[j]] {
      assert top[j] != top[i];
    }
    forall j | 1 <= j <= i ensures lens'[dad[top[j]]] == lens[dad[top[j]]] {
      var p := FatherBefore(dad, elems, top, j);
    }
    DadFrame(Exactly(max), dad, lens, lens', top, i);
  }

  /** The first pass: fathers are replaced by lengths from the root down, and nodes beyond the limit are counted. */
  method FirstPass(fc: seq<nat>, desc: Desc, dad: Links, elems: nat, maxCode: nat, top: seq<nat>, max: nat)
      returns (dl: Links, blCount: seq<nat>, overflow: nat, opt: nat, stat: nat)
    requires TopDown(dad, elems, top) && 0 < max <= MAX_BITS && maxCode < elems && |fc| == |dad| && desc.Fits(elems)
    requires forall i :: 0 <= i < |top| ==> top[i] < elems ==> top[i] <= maxCode
    ensures Deepen(dad, dl, top, max, |top|) && KeptOutside(dad, dl, top) && LeavesIn(dl, top, elems, max)
    ensures Dadful(dad, top) && overflow == SumDads(Exactly(max), dad, dl, top, |top|)
    ensures Tally(blCount, dl, top, elems, |top|) && Spent(opt, stat, fc, desc, dl, top, elems, |top|)
  {
    DadsFit(dad, elems, top);
    Begun(dad, elems, top, max);
    hide SumIn, SumDads, Tally, TopDown, Passed, LeavesIn, Deepen, KeptOutside, Dadful, NoRepeats, Spent;
    hide Desc.Fits, SameBefore;
    dl := dad[top[0] := 0];
    blCount, overflow, opt, stat := seq(MAX_BITS + 1, _ => 0), 0, 0, 0;
    SpentNothing(fc, desc, dl, top, elems);
    TallyNone(blCount, dl, top, elems);
    DadsNone(max, dad, dl, top);
    for i := 1 to |top|
      invariant |dl| == |dad| && Passed(dad, dl, elems, top, max, i)
      invariant overflow == SumDads(Exactly(max), dad, dl, top, i) && Tally(blCount, dl, top, elems, i)
      invariant Spent(opt, stat, fc, desc, dl, top, elems, i)
    {
      ghost var before := dl;
      dl, blCount, overflow := PassNode(dad, dl, elems, maxCode, top, max, i, blCount, overflow);
      opt, stat := PassPrice(fc, desc, before, dl, elems, maxCode, top, i, opt, stat);
    }
    PassedAll(dad, dl, elems, top, max);
  }

  ghost predicate SameBefore(dl: Links, dl': Links, top: seq<nat>, i: nat)
    requires i <= |top| && Inside(top, |dl|) && |dl| == |dl'|
  {
    forall j :: 1 <= j < i ==> dl[top[j]] == dl'[top[j]]
  }

  /** One node of the first pass. */
  method PassNode(ghost dad: Links, dl0: Links, elems: nat, maxCode: nat, top: seq<nat>, max: nat, i: nat,
                  blCount0: seq<nat>, overflow0: nat) returns (dl: Links, blCount: seq<nat>, overflow: nat)
    requires TopDown(dad, elems, top) && 0 < max <= MAX_BITS && maxCode < elems && 1 <= i < |top|
    requires top[i] < elems ==> top[i] <= maxCode
    requires |dl0| == |dad| && Inside(top, |dad|) && Dadful(dad, top) && Passed(dad, dl0, elems, top, max, i)
    requires overflow0 == SumDads(Exactly(max), dad, dl0, top, i) && Tally(blCount0, dl0, top, elems, i)
    ensures |dl| == |dad| && Passed(dad, dl, elems, top, max, i + 1)
    ensures SameBefore(dl0, dl, top, i)
    ensures overflow == SumDads(Exactly(max), dad, dl, top, i + 1) && Tally(blCount, dl, top, elems, i + 1)
  {
    hide SumIn, SumDads, Tally, TopDown, Passed, Dadful;
    blCount, overflow := blCount0, overflow0;
    var n := top[i];
    FatherLimited(dad, dl0, elems, top, max, i);
    var bits := dl0[dl0[n]] + 1;
    if bits > max {
      bits := max;
      overflow := overflow + 1;
    }
    dl := dl0[n := bits];
    PassedMore(dad, dl0, dl, elems, top, i, max);
    TallyMore(blCount, dl0, dl, top, elems, i);
    TallySize(blCount, dl0, top, elems, i);
    if n <= maxCode {
      blCount := blCount[bits := blCount[bits] + 1];
    }
  }

  /** What one node adds to opt_len and static_len. */
  method PassPrice(fc: seq<nat>, desc: Desc, ghost dl0: Links, dl: Links, elems: nat, maxCode: nat, top: seq<nat>,
                   i: nat, opt0: nat, stat0: nat) returns (opt: nat, stat: nat)
    requires 1 <= i < |top| && maxCode < elems && desc.Fits(elems) && (top[i] < elems ==> top[i] <= maxCode)
    requires |dl| == |dl0| == |fc| && Inside(top, |fc|) && SameBefore(dl0, dl, top, i)
    requires Spent(opt0, stat0, fc, desc, dl0, top, elems, i)
    ensures Spent(opt, stat, fc, desc, dl, top, elems, i + 1)
  {
    hide Spent;
    opt, stat := opt0, stat0;
    var n := top[i];
    SpentMore(opt, stat, fc, desc, dl0, dl, top, elems, i);
    if n <= maxCode {
      var xbits := 0;
      if n >= desc.base {
        xbits := desc.extraBits[n - desc.base];
      }
      opt := opt + fc[n] * (dl[n] + xbits);
      if desc.hasStatic {
        stat := stat + fc[n] * (desc.staticLens[n] + xbits);
      }
    }
  }

  /** The lengths of the nodes before position `i` are there, and the fathers of the others. */
  ghost predicate Passed(dad: Links, dl: Links, elems: nat, top: seq<nat>, max: nat, i: nat) {
    && |dl| == |dad| && Deepen(dad, dl, top, max, i) && KeptOutside(dad, dl, top)
    && (forall j :: i <= j < |top| ==> dl[top[j]] == dad[top[j]])
    && (forall j :: 1 <= j < i ==> 1 <= dl[top[j]] <= max)
  }

  lemma Begun(dad: Links, elems: nat, top: seq<nat>, max: nat)
    requires TopDown(dad, elems, top) && Dadful(dad, top)
    ensures Passed(dad, dad[top[0] := 0], elems, top, max, 1)
  {
    forall j | 1 <= j < |top| ensures dad[top[0] := 0][top[j]] == dad[top[j]] {
      assert top[j] != top[0];
    }
  }

  lemma FatherLimited(dad: Links, dl: Links, elems: nat, top: seq<nat>, max: nat, i: nat)
    requires TopDown(dad, elems, top) && Passed(dad, dl, elems, top, max, i) && 1 <= i < |top|
    ensures dl[top[i]] == dad[top[i]] < |dl| == |dad| && dl[dl[top[i]]] <= max
  {
    var p := FatherBefore(dad, elems, top, i);
  }

  lemma PassedMore(dad: Links, dl: Links, dl': Links, elems: nat, top: seq<nat>, i: nat, max: nat)
    requires TopDown(dad, elems, top) && Passed(dad, dl, elems, top, max, i) && 1 <= i < |top| && Dadful(dad, top)
    requires max > 0 && dl' == dl[top[i] := Min(dl[dad[top[i]]] + 1, max)]
    ensures Passed(dad, dl', elems, top, max, i + 1) && 1 <= dl'[top[i]] <= max
    ensures forall j :: 1 <= j < i ==> dl[top[j]] == dl'[top[j]]
    ensures SumDads(Exactly(max), dad, dl', top, i + 1)
         == SumDads(Exactly(max), dad, dl, top, i) + if dl[dad[top[i]]] == max then 1 else 0
  {
    Later(dad, dl, dl', elems, top, i, max);
  }

  lemma PassedAll(dad: Links, dl: Links, elems: nat, top: seq<nat>, max: nat)
    requires TopDown(dad, elems, top) && Passed(dad, dl, elems, top, max, |top|)
    ensures Deepen(dad, dl, top, max, |top|) && KeptOutside(dad, dl, top) && LeavesIn(dl, top, elems, max)
  {}

  /** Counts of lengths from 1 to the limit. */
  ghost predicate CountsTo(c: seq<nat>, max: nat) {
    |c| == MAX_BITS + 1 && c[0] == 0 && forall l :: max < l <= MAX_BITS ==> c[l] == 0
  }

  /** Not all leaves are at the limit if their shares are more than the whole. */
  lemma SomeShorter(c: seq<nat>, max: nat, excess: nat)
    requires CountsTo(c, max) && 0 < max <= MAX_BITS && excess > 0
    requires Counted(c, MAX_BITS + 1) == Pow2(MAX_BITS) + excess * Weight(max) && Total(c, MAX_BITS + 1) <= Pow2(max)
    ensures exists l :: 1 <= l < max && c[l] > 0
  {
    if forall l :: 1 <= l < max ==> c[l] == 0 {
      NoneCounted(c, max);
      OnlyUpTo(c, max + 1, MAX_BITS + 1);
      WholeIs(max);
      AtMost(c[max], Pow2(max), excess, Weight(max));
    }
  }

  lemma AtMost(a: nat, p: nat, excess: nat, w: nat)
    requires a <= p && excess > 0 && w > 0
    ensures a * w != p * w + excess * w
  {
    assert a * w <= p * w && excess * w >= 1 * w;
  }

  lemma {:induction false} OnlyUpTo(c: seq<nat>, n: nat, n': nat)
    requires n <= n' <= |c| && n' <= MAX_BITS + 1 && forall l :: n <= l < n' ==> c[l] == 0
    ensures Counted(c, n') == Counted(c, n) && Total(c, n') == Total(c, n)
    decreases n'
  {
    if n < n' {
      OnlyUpTo(c, n, n' - 1);
    }
  }

  /** A leaf moves one step down and an overflow item comes up beside it. */
  function Moved(c: seq<nat>, bits: nat, max: nat): seq<nat>
    requires 1 <= bits < max < |c| && c[bits] > 0 && c[max] > 0
  {
    var c1 := c[bits := c[bits] - 1];
    var c2 := c1[bits + 1 := c1[bits + 1] + 2];
    c2[max := c2[max] - 1]
  }

  lemma MovedCounts(c: seq<nat>, bits: nat, max: nat)
    requires CountsTo(c, max) && 1 <= bits < max <= MAX_BITS && c[bits] > 0 && c[max] > 0
    ensures var c' := Moved(c, bits, max);
      && CountsTo(c', max) && Total(c', MAX_BITS + 1) == Total(c, MAX_BITS + 1) && c'[max] >= c[max] - 1
      && Counted(c', MAX_BITS + 1) == Counted(c, MAX_BITS + 1) - Weight(max)
  {
    hide Counted, Total;
    var c1 := c[bits := c[bits] - 1];
    var c2 := c1[bits + 1 := c1[bits + 1] + 2];
    CountedBy(c, bits, -1);
    CountedBy(c1, bits + 1, 2);
    CountedBy(c2, max, -1);
    assert Weight(bits) == 2 * Weight(bits + 1);
  }

  lemma CountedBy(c: seq<nat>, l: nat, d: int)
    requires l <= MAX_BITS < |c| && c[l] + d >= 0
    ensures Total(c[l := c[l] + d], MAX_BITS + 1) == Total(c, MAX_BITS + 1) + d
    ensures Counted(c[l := c[l] + d], MAX_BITS + 1) == Counted(c, MAX_BITS + 1) + d * Weight(l)
  {
    CountedSet(c, l, c[l] + d, MAX_BITS + 1);
    hide Counted, Total, Weight;
    Add(c[l], d, Weight(l));
  }

  /** The repair of the counts: afterwards they are those of a complete code. */
  method FixCounts(c0: seq<nat>, overflow0: nat, max: nat) returns (c: seq<nat>)
    requires CountsTo(c0, max) && 0 < max <= MAX_BITS && overflow0 % 2 == 0 && c0[max] >= overflow0 / 2
    requires Counted(c0, MAX_BITS + 1) == Pow2(MAX_BITS) + overflow0 / 2 * Weight(max)
    requires Total(c0, MAX_BITS + 1) <= Pow2(max)
    ensures CountsTo(c, max) && Total(c, MAX_BITS + 1) == Total(c0, MAX_BITS + 1)
    ensures Counted(c, MAX_BITS + 1) == Pow2(MAX_BITS)
  {
    hide Counted, Total, Weight, Pow2;
    c := c0;
    var overflow: int := overflow0;
    while overflow > 0
      invariant CountsTo(c, max) && overflow >= 0 && overflow % 2 == 0 && c[max] >= overflow / 2
      invariant Total(c, MAX_BITS + 1) == Total(c0, MAX_BITS + 1)
      invariant Counted(c, MAX_BITS + 1) == Pow2(MAX_BITS) + overflow / 2 * Weight(max)
    {
      SomeShorter(c, max, overflow / 2);
      var bits := max - 1;
      while c[bits] == 0
        invariant 1 <= bits < max && exists l :: 1 <= l <= bits && c[l] > 0
        decreases bits
      {
        bits := bits - 1;
      }
      MovedCounts(c, bits, max);
      OneMoreTime(overflow / 2 - 1, Weight(max));
      c := c[bits := c[bits] - 1];
      c := c[bits + 1 := c[bits + 1] + 2];
      c := c[max := c[max] - 1];
      overflow := overflow - 2;
    }
    assert 0 * Weight(max) == 0;
  }

  /** Over the nodes from position `h` on. */
  function SumTail(f: Table, lens: Links, top: seq<nat>, hi: nat, h: nat): nat
    requires h <= |top| && Inside(top, |lens|)
    decreases |top| - h
  {
    if h == |top| then 0
    else SumTail(f, lens, top, hi, h + 1) + if top[h] < hi then f.Of(lens[top[h]]) else 0
  }

  lemma {:induction false} HeadAndTail(f: Table, lens: Links, top: seq<nat>, hi: nat, h: nat)
    requires 1 <= h <= |top| && Inside(top, |lens|)
    ensures SumIn(f, lens, top, 0, hi, h) + SumTail(f, lens, top, hi, h) == SumIn(f, lens, top, 0, hi, |top|)
    decreases |top| - h
  {
    if h < |top| {
      HeadAndTail(f, lens, top, hi, h + 1);
    }
  }

  lemma {:induction false} TailFrame(f: Table, lens: Links, lens': Links, top: seq<nat>, hi: nat, h: nat)
    requires h <= |top| && Inside(top, |lens|) && |lens| == |lens'|
    requires forall j :: h <= j < |top| ==> lens[top[j]] == lens'[top[j]]
    ensures SumTail(f, lens, top, hi, h) == SumTail(f, lens', top, hi, h)
    decreases |top| - h
  {
    if h < |top| {
      TailFrame(f, lens, lens', top, hi, h + 1);
    }
  }

  /** How many leaves are left before position `h`. */
  lemma {:induction false} EachFrame(lens: Links, lens': Links, top: seq<nat>, hi: nat, h: nat)
    requires h <= |top| && Inside(top, |lens|) && |lens| == |lens'|
    ensures SumIn(Each, lens, top, 0, hi, h) == SumIn(Each, lens', top, 0, hi, h)
    decreases h
  {
    if h > 1 {
      EachFrame(lens, lens', top, hi, h - 1);
    }
  }

  lemma {:induction false} NoLeafLeft(f: Table, lens: Links, top: seq<nat>, hi: nat, h: nat)
    requires h <= |top| && Inside(top, |lens|) && SumIn(Each, lens, top, 0, hi, h) == 0
    ensures SumIn(f, lens, top, 0, hi, h) == 0 && forall j :: 1 <= j < h ==> top[j] >= hi
    decreases h
  {
    if h > 1 {
      NoLeafLeft(f, lens, top, hi, h - 1);
    }
  }

  /**
    The leaves from position `h` on have got their lengths: all that are longer than `bits`, and all but `n` of those
    that have `bits`.
   */
  ghost predicate Given(c: seq<nat>, lens: Links, top: seq<nat>, elems: nat, max: nat, h: nat, bits: nat, n: nat)
    requires 1 <= h <= |top| && Inside(top, |lens|) && |c| == MAX_BITS + 1 && bits <= MAX_BITS && n <= c[bits]
  {
    && (forall j :: h <= j < |top| && top[j] < elems ==> 1 <= lens[top[j]] <= max)
    && (forall l :: 1 <= l <= MAX_BITS ==>
          SumTail(Exactly(l), lens, top, elems, h) == if l > bits then c[l] else if l == bits then c[l] - n else 0)
    && SumIn(Each, lens, top, 0, elems, h) == Total(c, bits) + n
  }

  lemma GivenNone(c: seq<nat>, lens: Links, top: seq<nat>, elems: nat, max: nat)
    requires |top| >= 1 && Inside(top, |lens|) && CountsTo(c, max) && 0 < max <= MAX_BITS
    requires Total(c, MAX_BITS + 1) == SumIn(Each, lens, top, 0, elems, |top|)
    ensures Given(c, lens, top, elems, max, |top|, max, c[max])
  {
    OnlyUpTo(c, max + 1, MAX_BITS + 1);
  }

  lemma GivenNext(c: seq<nat>, lens: Links, top: seq<nat>, elems: nat, max: nat, h: nat, bits: nat)
    requires 1 <= h <= |top| && Inside(top, |lens|) && |c| == MAX_BITS + 1 && 1 <= bits <= MAX_BITS
    requires Given(c, lens, top, elems, max, h, bits, 0)
    ensures Given(c, lens, top, elems, max, h, bits - 1, c[bits - 1])
  {
    hide SumTail, SumIn;
  }

  lemma GivenInner(c: seq<nat>, lens: Links, top: seq<nat>, elems: nat, max: nat, h: nat, bits: nat, n: nat)
    requires 1 < h <= |top| && Inside(top, |lens|) && |c| == MAX_BITS + 1 && bits <= MAX_BITS && n <= c[bits]
    requires Given(c, lens, top, elems, max, h, bits, n) && top[h - 1] >= elems
    ensures Given(c, lens, top, elems, max, h - 1, bits, n)
  {}

  lemma GivenLeaf(c: seq<nat>, lens: Links, lens': Links, top: seq<nat>, elems: nat, max: nat, h: nat, bits: nat,
                  n: nat)
    requires 1 < h <= |top| && Inside(top, |lens|) && |c| == MAX_BITS + 1 && 1 <= bits <= max <= MAX_BITS
    requires 0 < n <= c[bits] && NoRepeats(top)
    requires Given(c, lens, top, elems, max, h, bits, n) && top[h - 1] < elems && lens' == lens[top[h - 1] := bits]
    ensures Given(c, lens', top, elems, max, h - 1, bits, n - 1)
  {
    forall j | h <= j < |top| ensures lens'[top[j]] == lens[top[j]] {
      assert top[j] != top[h - 1];
    }
    forall l | 1 <= l <= MAX_BITS
      ensures SumTail(Exactly(l), lens', top, elems, h - 1)
           == if l > bits then c[l] else if l == bits then c[l] - (n - 1) else 0
    {
      TailFrame(Exactly(l), lens, lens', top, elems, h);
    }
    EachFrame(lens, lens', top, elems, h);
  }

  /** While lengths are to be given there are leaves left. */
  lemma LeafLeft(c: seq<nat>, lens: Links, top: seq<nat>, elems: nat, max: nat, h: nat, bits: nat, n: nat)
    requires 1 <= h <= |top| && Inside(top, |lens|) && |c| == MAX_BITS + 1 && bits <= MAX_BITS && n <= c[bits]
    requires Given(c, lens, top, elems, max, h, bits, n) && n > 0
    ensures h > 1
  {}

  lemma GivenAll(c: seq<nat>, lens: Links, top: seq<nat>, elems: nat, max: nat, h: nat)
    requires 1 <= h <= |top| && Inside(top, |lens|) && |c| == MAX_BITS + 1 && c[0] == 0 && top[0] >= elems
    requires Given(c, lens, top, elems, max, h, 0, 0)
    ensures LeavesIn(lens, top, elems, max)
    ensures forall l :: 1 <= l <= MAX_BITS ==> SumIn(Exactly(l), lens, top, 0, elems, |top|) == c[l]
  {
    NoLeafLeft(Each, lens, top, elems, h);
    forall l | 1 <= l <= MAX_BITS ensures SumIn(Exactly(l), lens, top, 0, elems, |top|) == c[l] {
      NoLeafLeft(Exactly(l), lens, top, elems, h);
      HeadAndTail(Exactly(l), lens, top, elems, h);
    }
  }

  lemma KeptSet(dl0: Links, dl: Links, top: seq<nat>, h: nat, bits: nat)
    requires KeptOutside(dl0, dl, top) && h < |top| && top[h] < |dl|
    ensures KeptOutside(dl0, dl[top[h] := bits], top)
  {}

  lemma KeptFirst(dl: Links, top: seq<nat>)
    ensures KeptOutside(dl, dl, top)
  {}

  /** A leaf gets another length. */
  method GiveLength(fc: seq<nat>, ghost desc: Desc, dl0: Links, top: seq<nat>, elems: nat, h: nat, bits: nat, opt0: nat,
                    ghost stat: nat) returns (dl: Links, opt: nat)
    requires 1 <= h < |top| && Spent(opt0, stat, fc, desc, dl0, top, elems, |top|) && NoRepeats(top) && top[h] < elems
    requires Inside(top, |dl0|)
    ensures dl == dl0[top[h] := bits] && Spent(opt, stat, fc, desc, dl, top, elems, |top|)
  {
    var m := top[h];
    dl, opt := dl0, opt0;
    SpentAgain(opt, stat, fc, desc, dl, top, elems, h, bits);
    hide Spent, NoRepeats;
    if dl[m] != bits {
      opt := opt + fc[m] * bits - fc[m] * dl[m];
      dl := dl[m := bits];
    } else {
      assert dl[m := bits] == dl;
    }
  }

  /** The last loop: the longest lengths go to the last leaves, the least frequent ones. */
  method Reassign(fc: seq<nat>, ghost desc: Desc, dl0: Links, top: seq<nat>, elems: nat, maxCode: nat, c: seq<nat>,
                  max: nat, opt0: nat, ghost stat: nat) returns (dl: Links, opt: nat)
    requires Spent(opt0, stat, fc, desc, dl0, top, elems, |top|)
    requires |top| >= 1 && Inside(top, |dl0|) && NoRepeats(top) && top[0] >= elems > maxCode
    requires forall i :: 0 <= i < |top| ==> top[i] < elems ==> top[i] <= maxCode
    requires CountsTo(c, max) && 0 < max <= MAX_BITS
    requires Total(c, MAX_BITS + 1) == SumIn(Each, dl0, top, 0, elems, |top|)
    ensures |dl| == |dl0| && KeptOutside(dl0, dl, top) && LeavesIn(dl, top, elems, max)
    ensures Spent(opt, stat, fc, desc, dl, top, elems, |top|)
    ensures forall l :: 1 <= l <= MAX_BITS ==> SumIn(Exactly(l), dl, top, 0, elems, |top|) == c[l]
  {
    KeptFirst(dl0, top);
    hide SumIn, Given, NoRepeats, LeavesIn, Spent, KeptOutside;
    dl, opt := dl0, opt0;
    var h, bits := |top|, max;
    GivenNone(c, dl, top, elems, max);
    while bits != 0
      invariant 1 <= h <= |top| && bits <= max && |dl| == |dl0| && KeptOutside(dl0, dl, top)
      invariant Given(c, dl, top, elems, max, h, bits, c[bits]) && Spent(opt, stat, fc, desc, dl, top, elems, |top|)
    {
      var n := c[bits];
      while n != 0
        invariant 1 <= h <= |top| && n <= c[bits] && |dl| == |dl0| && KeptOutside(dl0, dl, top)
        invariant Given(c, dl, top, elems, max, h, bits, n) && Spent(opt, stat, fc, desc, dl, top, elems, |top|)
        decreases h
      {
        LeafLeft(c, dl, top, elems, max, h, bits, n);
        h := h - 1;
        var m := top[h];
        if m > maxCode {
          GivenInner(c, dl, top, elems, max, h + 1, bits, n);
          continue;
        }
        GivenLeaf(c, dl, dl[m := bits], top, elems, max, h + 1, bits, n);
        KeptSet(dl0, dl, top, h, bits);
        dl, opt := GiveLength(fc, desc, dl, top, elems, h, bits, opt, stat);
        n := n - 1;
      }
      GivenNext(c, dl, top, elems, max, h, bits);
      bits := bits - 1;
    }
    GivenAll(c, dl, top, elems, max, h);
  }

  /** One bit more than the father. */
  ghost predicate Deeper(dad: Links, lens: Links, top: seq<nat>) {
    && |lens| == |dad| && |top| > 0 && Inside(top, |dad|) && Dadful(dad, top) && lens[top[0]] == 0
    && forall i :: 1 <= i < |top| ==> lens[top[i]] == lens[dad[top[i]]] + 1
  }

  /** If no node is beyond the limit the lengths are the depths. */
  lemma NoneBeyond(dad: Links, lens: Links, elems: nat, top: seq<nat>, max: nat)
    requires TopDown(dad, elems, top) && Deepen(dad, lens, top, max, |top|) && Dadful(dad, top)
    requires SumDads(Exactly(max), dad, lens, top, |top|) == 0
    ensures Deeper(dad, lens, top)
  {
    hide SumDads, TopDown;
    forall i | 1 <= i < |top| ensures lens[top[i]] == lens[dad[top[i]]] + 1 {
      NoDadAtLimit(dad, lens, top, max, i, |top|);
      DadLimited(dad, lens, elems, top, max, i);
    }
  }

  /** A tree of two leaves. */
  lemma OnlyRoot(dad: Links, lens: Links, elems: nat, top: seq<nat>, max: nat)
    requires TopDown(dad, elems, top) && Deepen(dad, lens, top, max, |top|) && Dadful(dad, top)
    requires |top| == 3 && max > 0
    ensures SumDads(Exactly(max), dad, lens, top, |top|) == 0
  {
    assert Father(elems, top, 1) == Father(elems, top, 2) == top[0];
    assert SumDads(Exactly(max), dad, lens, top, 1) == 0 && SumDads(Exactly(max), dad, lens, top, 2) == 0;
  }

  /** A father is higher than his sons. */
  ghost predicate Heights(dad: Links, hs: seq<nat>, top: seq<nat>) {
    && |hs| == |dad| && |top| > 0 && Inside(top, |dad|) && Dadful(dad, top)
    && forall i :: 1 <= i < |top| ==> hs[top[i]] < hs[dad[top[i]]]
  }

  lemma HeightsSize(dad: Links, hs: seq<nat>, top: seq<nat>)
    ensures Heights(dad, hs, top) ==> |hs| == |dad| && |top| > 0 && top[0] < |hs|
  {}

  lemma {:induction false} DepthAndHeight(dad: Links, lens: Links, elems: nat, top: seq<nat>, max: nat, hs: seq<nat>,
                                          i: nat)
    requires TopDown(dad, elems, top) && Deepen(dad, lens, top, max, |top|) && Heights(dad, hs, top) && i < |top|
    ensures lens[top[i]] + hs[top[i]] <= hs[top[0]]
    decreases i
  {
    if i > 0 {
      var p := FatherBefore(dad, elems, top, i);
      DepthAndHeight(dad, lens, elems, top, max, hs, p);
    }
  }

  /** In a tree that is not higher than the limit no node is beyond it. */
  lemma LowTree(dad: Links, lens: Links, elems: nat, top: seq<nat>, max: nat, hs: seq<nat>)
    requires TopDown(dad, elems, top) && Deepen(dad, lens, top, max, |top|) && Dadful(dad, top)
    requires Heights(dad, hs, top) && hs[top[0]] <= max
    ensures SumDads(Exactly(max), dad, lens, top, |top|) == 0
  {
    forall i | 1 <= i < |top| ensures lens[dad[top[i]]] < max {
      var p := FatherBefore(dad, elems, top, i);
      DepthAndHeight(dad, lens, elems, top, max, hs, p);
    }
    hide TopDown, Deepen, Heights;
    NoDads(dad, lens, top, max, |top|);
  }

  lemma {:induction false} NoDads(dad: Links, lens: Links, top: seq<nat>, max: nat, i: nat)
    requires i <= |top| && |lens| == |dad| && Dadful(dad, top)
    requires forall j :: 1 <= j < |top| ==> lens[dad[top[j]]] < max
    ensures SumDads(Exactly(max), dad, lens, top, i) == 0
    decreases i
  {
    if i > 1 {
      NoDads(dad, lens, top, max, i - 1);
    }
  }

  lemma {:induction false} NoDadAtLimit(dad: Links, lens: Links, top: seq<nat>, max: nat, j: nat, i: nat)
    requires i <= |top| && |lens| == |dad| && Dadful(dad, top) && 1 <= j < i
    requires SumDads(Exactly(max), dad, lens, top, i) == 0
    ensures lens[dad[top[j]]] != max
    decreases i
  {
    if j < i - 1 {
      NoDadAtLimit(dad, lens, top, max, j, i - 1);
    }
  }

  /**
    gen_bitlen: the lengths of the leaves, at most `max`, and their counts are those of a complete code; what all
    symbols take with these lengths, and what with the static ones. If no depth is `cut` the lengths are the depths; no
    depth is cut if the tree is not higher than `max`.
   */
  method GenBitlen(fc: seq<nat>, desc: Desc, dad: Links, elems: nat, maxCode: nat, top: seq<nat>, max: nat,
                   ghost hs: seq<nat>)
      returns (dl: Links, blCount: seq<nat>, opt: nat, stat: nat, cut: bool)
    requires TopDown(dad, elems, top) && 0 < max <= MAX_BITS && maxCode < elems && |top| <= 2 * Pow2(max)
    requires |fc| == |dad| && desc.Fits(elems)
    requires forall i :: 0 <= i < |top| ==> top[i] < elems ==> top[i] <= maxCode
    ensures |dl| == |dad| && Inside(top, |dl|) && KeptOutside(dad, dl, top) && LeavesIn(dl, top, elems, max)
    ensures CountsTo(blCount, max) && Counted(blCount, MAX_BITS + 1) == Pow2(MAX_BITS)
    ensures forall l :: 1 <= l <= MAX_BITS ==> SumIn(Exactly(l), dl, top, 0, elems, |top|) == blCount[l]
    ensures Spent(opt, stat, fc, desc, dl, top, elems, |top|)
    ensures (!cut ==> Deeper(dad, dl, top)) && (|top| == 3 ==> !cut)
    ensures Heights(dad, hs, top) && hs[top[0]] <= max ==> !cut
  {
    hide SumIn, SumDads, LeavesIn, Deepen, Spent, Deeper, Heights;
    HeightsSize(dad, hs, top);
    var overflow;
    DadsFit(dad, elems, top);
    dl, blCount, overflow, opt, stat := FirstPass(fc, desc, dad, elems, maxCode, top, max);
    LeafShares(dad, dl, elems, top, max);
    TallyCounts(blCount, dl, top, elems, max);
    LeafCount(dad, dl, elems, top);
    cut := overflow != 0;
    if |top| == 3 {
      OnlyRoot(dad, dl, elems, top, max);
    }
    if Heights(dad, hs, top) && hs[top[0]] <= max {
      LowTree(dad, dl, elems, top, max, hs);
    }
    if overflow == 0 {
      NoneBeyond(dad, dl, elems, top, max);
      return;
    }
    blCount := FixCounts(blCount, overflow, max);
    dl, opt := Reassign(fc, desc, dl, top, elems, maxCode, blCount, max, opt, stat);
  }

  lemma TallyCounts(c: seq<nat>, lens: Links, top: seq<nat>, elems: nat, max: nat)
    requires |top| >= 1 && Inside(top, |lens|) && Tally(c, lens, top, elems, |top|) && LeavesIn(lens, top, elems, max)
    ensures CountsTo(c, max)
  {
    forall l | max < l <= MAX_BITS ensures c[l] == 0 {
      NoneSo(l, lens, top, elems, |top|);
    }
  }

  lemma {:induction false} NoneSo(l: nat, lens: Links, top: seq<nat>, elems: nat, i: nat)
    requires i <= |top| && Inside(top, |lens|) && forall j :: 0 <= j < |top| && top[j] < elems ==> lens[top[j]] < l
    ensures SumIn(Exactly(l), lens, top, 0, elems, i) == 0
    decreases i
  {
    if i > 1 {
      NoneSo(l, lens, top, elems, i - 1);
    }
  }

  /** There is one leaf more than inner nodes. */
  lemma LeafCount(dad: Links, lens: Links, elems: nat, top: seq<nat>)
    requires TopDown(dad, elems, top) && |lens| == |dad|
    ensures Inside(top, |lens|) && SumIn(Each, lens, top, 0, elems, |top|) == |top| / 2 + 1
  {
    LeavesAndInner(Each, dad, lens, elems, top);
    AllCounted(lens, top, Root(elems, top) + 1, |top|);
    RangeCount(lens, elems, Root(elems, top));
  }

  lemma {:induction false} AllCounted(lens: Links, top: seq<nat>, hi: nat, i: nat)
    requires 1 <= i <= |top| && Inside(top, |lens|) && forall j :: 1 <= j < |top| ==> top[j] < hi
    ensures SumIn(Each, lens, top, 0, hi, i) == i - 1
    decreases i
  {
    if i > 1 {
      AllCounted(lens, top, hi, i - 1);
    }
  }

  lemma {:induction false} RangeCount(lens: Links, lo: nat, hi: nat)
    requires lo <= hi <= |lens|
    ensures SumRange(Each, lens, lo, hi) == hi - lo
    decreases hi
  {
    if lo < hi {
      RangeCount(lens, lo, hi - 1);
    }
  }
}

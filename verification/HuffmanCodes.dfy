/**
  Codes from code lengths, as section 3.2.2 of RFC 1951 and gen_codes of zlib/trees.c assign them: shorter codes before
  longer ones, codes of one length in the order of their symbols. Length 0 means that a symbol is not used.
 */
module HuffmanCodes {
  import opened BitArith
  import opened BitStream
  import opened Lz77

  const MAX_BITS: nat := 15

  type Lengths = seq<nat>

  predicate Limited(lens: Lengths) {
    forall i :: 0 <= i < |lens| ==> lens[i] <= MAX_BITS
  }

  /** The share of all bit strings, in parts of 2^15, that begin with a code of length `l`. */
  function Weight(l: nat): (w: nat)
    requires l <= MAX_BITS
    ensures w > 0
  {
    Pow2(MAX_BITS - l)
  }

  /** The shares of the used symbols before `n` whose codes are shorter than `l`. */
  function Shorter(lens: Lengths, l: nat, n: nat): nat
    requires Limited(lens) && n <= |lens|
  {
    if n == 0 then 0
    else Shorter(lens, l, n - 1) + if 0 < lens[n - 1] < l then Weight(lens[n - 1]) else 0
  }

  /** How many symbols before `n` have codes of length `l`. */
  function Same(lens: Lengths, l: nat, n: nat): nat
    requires n <= |lens|
  {
    if n == 0 then 0 else Same(lens, l, n - 1) + if lens[n - 1] == l then 1 else 0
  }

  /** The shares of all symbols. */
  function Kraft(lens: Lengths): nat
    requires Limited(lens)
  {
    Shorter(lens, MAX_BITS + 1, |lens|)
  }

  /** Lengths for which there are codes. */
  predicate Codable(lens: Lengths) {
    Limited(lens) && Kraft(lens) <= Pow2(MAX_BITS)
  }

  // ----- the codes -----

  /** The first code of length `l`. */
  function First(lens: Lengths, l: nat): nat {
    if l == 0 then 0 else 2 * (First(lens, l - 1) + if l == 1 then 0 else Same(lens, l - 1, |lens|))
  }

  function Code(lens: Lengths, n: nat): nat
    requires n < |lens|
  {
    First(lens, lens[n]) + Same(lens, lens[n], n)
  }

  /** The `l` low bits of a number, highest first, as codes are sent. */
  function Msb(c: nat, l: nat): (b: Bits)
    ensures |b| == l
    decreases l
  {
    if l == 0 then [] else Msb(c / 2, l - 1) + [c % 2 == 1]
  }

  function CodeBits(lens: Lengths, n: nat): Bits
    requires n < |lens|
  {
    Msb(Code(lens, n), lens[n])
  }

  // ----- they take up disjoint shares -----

  lemma {:induction false} OneLonger(lens: Lengths, l: nat, n: nat)
    requires Limited(lens) && n <= |lens| && 0 < l <= MAX_BITS
    ensures Shorter(lens, l + 1, n) == Shorter(lens, l, n) + Same(lens, l, n) * Weight(l)
    decreases n
  {
    if n > 0 {
      OneLonger(lens, l, n - 1);
      if lens[n - 1] == l {
        OneMoreTime(Same(lens, l, n - 1), Weight(l));
      }
    }
  }

  lemma OneMoreTime(a: nat, w: nat)
    ensures (a + 1) * w == a * w + w
  {}

  lemma {:induction false} ShorterGrows(lens: Lengths, l: nat, l': nat, n: nat)
    requires Limited(lens) && n <= |lens| && l <= l'
    ensures Shorter(lens, l, n) <= Shorter(lens, l', n)
    decreases n
  {
    if n > 0 {
      ShorterGrows(lens, l, l', n - 1);
    }
  }

  lemma {:induction false} SameGrows(lens: Lengths, l: nat, m: nat, n: nat)
    requires m < n <= |lens|
    ensures Same(lens, l, m) + (if lens[m] == l then 1 else 0) <= Same(lens, l, n)
    decreases n
  {
    if m < n - 1 {
      SameGrows(lens, l, m, n - 1);
    }
  }

  /** The first code of a length comes after the shares of all shorter ones. */
  lemma {:induction false} FirstIs(lens: Lengths, l: nat)
    requires Limited(lens) && 0 < l <= MAX_BITS
    ensures First(lens, l) * Weight(l) == Shorter(lens, l, |lens|)
    decreases l
  {
    if l == 1 {
      NothingShorter(lens, |lens|);
    } else {
      FirstIs(lens, l - 1);
      OneLonger(lens, l - 1, |lens|);
      var f, s, w := First(lens, l - 1), Same(lens, l - 1, |lens|), Weight(l);
      assert Weight(l - 1) == 2 * w;
      Doubled(f, s, w);
    }
  }

  lemma Doubled(f: nat, s: nat, w: nat)
    ensures 2 * (f + s) * w == f * (2 * w) + s * (2 * w)
  {}

  lemma {:induction false} NothingShorter(lens: Lengths, n: nat)
    requires Limited(lens) && n <= |lens|
    ensures Shorter(lens, 1, n) == 0
    decreases n
  {
    if n > 0 {
      NothingShorter(lens, n - 1);
    }
  }

  /** The share of a symbol, from its code on, ends before those of all longer codes. */
  lemma CodeShare(lens: Lengths, n: nat)
    requires Limited(lens) && n < |lens| && lens[n] > 0
    ensures Shorter(lens, lens[n], |lens|) <= Code(lens, n) * Weight(lens[n])
    ensures (Code(lens, n) + 1) * Weight(lens[n]) <= Shorter(lens, lens[n] + 1, |lens|)
  {
    var l := lens[n];
    var s, a, w := Same(lens, l, n), Same(lens, l, |lens|), Weight(l);
    FirstIs(lens, l);
    OneLonger(lens, l, |lens|);
    SameGrows(lens, l, n, |lens|);
    Products(First(lens, l), s, a, w);
  }

  lemma Products(f: nat, s: nat, a: nat, w: nat)
    requires s + 1 <= a
    ensures f * w <= (f + s) * w && (f + s + 1) * w <= f * w + a * w
  {
    assert (f + s) * w == f * w + s * w;
    assert (f + s + 1) * w == f * w + (s + 1) * w;
    assert (s + 1) * w <= a * w;
  }

  /** A code fits its length. */
  lemma CodeFits(lens: Lengths, n: nat)
    requires Codable(lens) && n < |lens| && lens[n] > 0
    ensures Code(lens, n) < Pow2(lens[n])
  {
    hide Code, Shorter, Weight, Pow2;
    var l := lens[n];
    CodeShare(lens, n);
    ShorterGrows(lens, l + 1, MAX_BITS + 1, |lens|);
    WholeIs(l);
    if Code(lens, n) >= Pow2(l) {
      Larger(Code(lens, n) + 1, Pow2(l) + 1, Weight(l));
    }
  }

  lemma {:induction false} WholeIs(l: nat)
    requires l <= MAX_BITS
    ensures Pow2(l) * Weight(l) == Pow2(MAX_BITS)
  {
    if l > 0 {
      WholeIs(l - 1);
      assert Weight(l - 1) == 2 * Weight(l);
      Halved(Pow2(l - 1), Weight(l));
    } else {
      assert Pow2(0) == 1;
    }
  }

  lemma Halved(p: nat, w: nat)
    ensures (2 * p) * w == p * (2 * w)
  {}

  lemma Larger(a: nat, b: nat, w: nat)
    requires a >= b && w > 0
    ensures a * w >= b * w && b * w == (b - 1) * w + w
  {}

  /** Which of two symbols has its code first. */
  predicate Before(lens: Lengths, m: nat, n: nat)
    requires m < |lens| && n < |lens|
  {
    lens[m] < lens[n] || (lens[m] == lens[n] && m < n)
  }

  lemma Apart(lens: Lengths, m: nat, n: nat)
    requires Limited(lens) && m < |lens| && n < |lens| && lens[m] > 0 && lens[n] > 0 && Before(lens, m, n)
    ensures (Code(lens, m) + 1) * Weight(lens[m]) <= Code(lens, n) * Weight(lens[n])
  {
    if lens[m] < lens[n] {
      CodeShare(lens, m);
      CodeShare(lens, n);
      ShorterGrows(lens, lens[m] + 1, lens[n], |lens|);
    } else {
      SameGrows(lens, lens[m], m, n);
      Larger(Code(lens, n), Code(lens, m) + 1, Weight(lens[n]));
    }
  }

  /** The share of a bit string lies within those of its prefixes. */
  lemma {:induction false} PrefixShare(c: nat, l: nat, c': nat, l': nat)
    requires l <= l' <= MAX_BITS && c < Pow2(l) && c' < Pow2(l') && Msb(c, l) <= Msb(c', l')
    ensures c * Weight(l) <= c' * Weight(l') && (c' + 1) * Weight(l') <= (c + 1) * Weight(l)
    decreases l'
  {
    if l == l' {
      MsbSame(c, c', l);
    } else {
      var q, w := c' / 2, Weight(l');
      assert Weight(l' - 1) == 2 * w;
      assert Msb(q, l' - 1) == Msb(c', l')[..l' - 1];
      assert q < Pow2(l' - 1);
      hide Msb, Pow2, Weight;
      PrefixShare(c, l, q, l' - 1);
      HalfShare(c', w);
    }
  }

  lemma HalfShare(c: nat, w: nat)
    ensures (c / 2) * (2 * w) <= c * w && (c + 1) * w <= (c / 2 + 1) * (2 * w)
  {
    var q, r := c / 2, c % 2;
    assert c * w == (2 * q + r) * w == 2 * (q * w) + r * w;
    assert (c + 1) * w == c * w + w;
    assert q * (2 * w) == 2 * (q * w) && (q + 1) * (2 * w) == 2 * (q * w) + 2 * w;
    assert r * w <= w;
  }

  lemma {:induction false} MsbSame(c: nat, c': nat, l: nat)
    requires c < Pow2(l) && c' < Pow2(l) && Msb(c, l) == Msb(c', l)
    ensures c == c'
    decreases l
  {
    if l > 0 {
      assert Msb(c, l)[..l - 1] == Msb(c / 2, l - 1) && Msb(c', l)[..l - 1] == Msb(c' / 2, l - 1);
      assert Msb(c, l)[l - 1] == Msb(c', l)[l - 1];
      MsbSame(c / 2, c' / 2, l - 1);
    }
  }

  /** No code is the beginning of another. */
  lemma PrefixFree(lens: Lengths, m: nat, n: nat)
    requires Codable(lens) && m < |lens| && n < |lens| && m != n && lens[m] > 0 && lens[n] > 0
    ensures !(CodeBits(lens, m) <= CodeBits(lens, n))
  {
    hide Code, Weight, Shorter, Pow2, Msb;
    if CodeBits(lens, m) <= CodeBits(lens, n) {
      CodeFits(lens, m);
      CodeFits(lens, n);
      OneMoreTime(Code(lens, m), Weight(lens[m]));
      OneMoreTime(Code(lens, n), Weight(lens[n]));
      PrefixShare(Code(lens, m), lens[m], Code(lens, n), lens[n]);
      if Before(lens, m, n) {
        Apart(lens, m, n);
      } else {
        Apart(lens, n, m);
      }
    }
  }

  // ----- decoding -----

  /** The first symbol from `n` on whose code begins the bits. */
  function Find(lens: Lengths, bits: Bits, n: nat): (r: Option<nat>)
    requires n <= |lens|
    ensures r.Some? ==> n <= r.value < |lens| && lens[r.value] > 0 && CodeBits(lens, r.value) <= bits
    ensures r.None? ==> forall m :: n <= m < |lens| && lens[m] > 0 ==> !(CodeBits(lens, m) <= bits)
    decreases |lens| - n
  {
    if n == |lens| then None
    else if lens[n] > 0 && CodeBits(lens, n) <= bits then Some(n)
    else Find(lens, bits, n + 1)
  }

  /** A symbol and what follows it. */
  datatype Decoded<+T> = Decoded(value: T, rest: Bits)

  function DecodeSymbol(lens: Lengths, bits: Bits): (r: Option<Decoded<nat>>)
    ensures r.Some? ==> r.value.value < |lens| && |r.value.rest| < |bits|
  {
    match Find(lens, bits, 0)
    case None => None
    case Some(n) => Some(Decoded(n, bits[lens[n]..]))
  }

  lemma Comparable(a: Bits, b: Bits, bits: Bits)
    requires a <= bits && b <= bits
    ensures a <= b || b <= a
  {
    assert a == bits[..|a|] && b == bits[..|b|];
    if |a| <= |b| {
      assert b[..|a|] == bits[..|a|];
    } else {
      assert a[..|b|] == bits[..|b|];
    }
  }

  /** A code is decoded to its symbol, whatever follows it. */
  lemma DecodeCode(lens: Lengths, n: nat, rest: Bits)
    requires Codable(lens) && n < |lens| && lens[n] > 0
    ensures DecodeSymbol(lens, CodeBits(lens, n) + rest) == Some(Decoded(n, rest))
  {
    hide Code, Kraft;
    var b := CodeBits(lens, n);
    var bits := b + rest;
    assert b <= bits;
    var r := Find(lens, bits, 0);
    if r.None? {
      assert false;
    }
    var m := r.value;
    if m != n {
      Comparable(CodeBits(lens, m), b, bits);
      PrefixFree(lens, m, n);
      PrefixFree(lens, n, m);
    }
    assert bits[lens[n]..] == rest;
  }

  // ----- gen_codes -----

  function Reversed(b: Bits): (r: Bits)
    ensures |r| == |b|
  {
    if b == [] then [] else Reversed(b[1..]) + [b[0]]
  }

  lemma {:induction false} ReversedMore(b: Bits, x: bool)
    ensures Reversed(b + [x]) == [x] + Reversed(b)
  {
    if b != [] {
      ReversedMore(b[1..], x);
      assert (b + [x])[1..] == b[1..] + [x];
    }
  }

  /** One order of the bits is the other one reversed. */
  lemma {:induction false} BitsReversed(v: nat, n: nat)
    ensures Reversed(Msb(v, n)) == BitsOf(v, n) && Reversed(BitsOf(v, n)) == Msb(v, n)
    decreases n
  {
    if n > 0 {
      BitsReversed(v / 2, n - 1);
      ReversedMore(Msb(v / 2, n - 1), v % 2 == 1);
      assert BitsOf(v, n)[1..] == BitsOf(v / 2, n - 1);
    }
  }

  lemma BitsMore(v: nat, i: nat)
    ensures BitsOf(v, i + 1) == BitsOf(v, i) + [Shr(v, i) % 2 == 1]
  {
    BitsSplit(v, i, 1);
    assert BitsOf(Shr(v, i), 1) == [Shr(v, i) % 2 == 1] + BitsOf(Shr(v, i) / 2, 0);
  }

  lemma {:induction false} ShrMore(v: nat, i: nat)
    ensures Shr(v, i + 1) == Shr(v, i) / 2
    decreases i
  {
    if i > 0 {
      ShrMore(v / 2, i - 1);
    }
  }

  lemma OrBit(bit: nat, half: nat)
    requires bit < 2
    ensures Or(bit, 2 * half) == bit + 2 * half
  {
    OrApart(bit, half, 1);
    assert Shl(half, 1) == 2 * Shl(half, 0);
  }

  lemma MsbMore(v: nat, bit: nat, i: nat)
    requires bit < 2
    ensures Msb(bit + 2 * v, i + 1) == Msb(v, i) + [bit == 1] && (v < Pow2(i) ==> bit + 2 * v < Pow2(i + 1))
  {
    var w := bit + 2 * v;
    assert w / 2 == v && w % 2 == bit;
  }

  lemma Start(v: nat)
    ensures Msb(0, 0) == BitsOf(v, 0) && Shr(v, 0) == v && Pow2(0) == 1
  {}

  /** bi_reverse. */
  method BiReverse(code: nat, len: nat) returns (res: nat)
    requires len > 0
    ensures res < Pow2(len) && BitsOf(res, len) == Msb(code, len)
  {
    hide BitsOf, Msb, Shr, Or, Pow2;
    Start(code);
    var c: nat, r: nat, l: nat := code, 0, len;
    ghost var half: nat, i: nat := 0, 0;
    while l > 0
      invariant i + l == len && r == 2 * half && c == Shr(code, i) && half < Pow2(i)
      invariant Msb(half, i) == BitsOf(code, i)
    {
      OrBit(c % 2, half);
      r := Or(c % 2, r);
      BitsMore(code, i);
      ShrMore(code, i);
      MsbMore(half, c % 2, i);
      half := r;
      c, r := c / 2, 2 * r;
      i, l := i + 1, l - 1;
    }
    res := r / 2;
    BitsReversed(res, len);
    BitsReversed(code, len);
  }

  /** The codes are set for all used symbols. */
  ghost predicate HasCodes(lens: Lengths, codes: seq<nat>, n: nat) {
    && n <= |lens| <= |codes|
    && forall m :: 0 <= m < n && lens[m] > 0 ==>
         codes[m] < Pow2(lens[m]) && BitsOf(codes[m], lens[m]) == CodeBits(lens, m)
  }

  /** gen_codes: codes of 16 bits, ready to be sent lowest bit first. */
  method GenCodes(lens: Lengths, fc: seq<nat>, blCount: seq<nat>) returns (codes: seq<nat>)
    requires Codable(lens) && |fc| >= |lens| && |blCount| == MAX_BITS + 1 && blCount[0] == 0
    requires forall l :: 1 <= l <= MAX_BITS ==> blCount[l] == Same(lens, l, |lens|)
    ensures |codes| == |fc| && HasCodes(lens, codes, |lens|)
    ensures forall m :: |lens| <= m < |fc| ==> codes[m] == fc[m]
  {
    hide First, CodeBits, Pow2, Kraft, BitsOf, HasCodes;
    NoCodesYet(lens, fc);
    var nextCode := FirstCodes(lens, blCount);
    codes := fc;
    for n := 0 to |lens|
      invariant |codes| == |fc| && HasCodes(lens, codes, n) && |nextCode| == MAX_BITS + 1
      invariant forall l :: 1 <= l <= MAX_BITS ==> nextCode[l] == First(lens, l) + Same(lens, l, n)
      invariant forall m :: |lens| <= m < |fc| ==> codes[m] == fc[m]
    {
      var len := lens[n];
      if len != 0 {
        CodeFits(lens, n);
        CodeBitsIs(lens, n);
        var r := BiReverse(nextCode[len], len);
        Short(r, len);
        OneCodeMore(lens, codes, n, r);
        codes := codes[n := r % 0x1_0000];
        nextCode := nextCode[len := nextCode[len] + 1];
      } else {
        NoCodeMore(lens, codes, n);
      }
    }
  }

  lemma NoCodesYet(lens: Lengths, codes: seq<nat>)
    requires |codes| >= |lens|
    ensures HasCodes(lens, codes, 0)
  {}

  lemma OneCodeMore(lens: Lengths, codes: seq<nat>, n: nat, r: nat)
    requires HasCodes(lens, codes, n) && n < |lens| && r < Pow2(lens[n]) && BitsOf(r, lens[n]) == CodeBits(lens, n)
    ensures HasCodes(lens, codes[n := r], n + 1)
  {}

  lemma NoCodeMore(lens: Lengths, codes: seq<nat>, n: nat)
    requires HasCodes(lens, codes, n) && n < |lens| && lens[n] == 0
    ensures HasCodes(lens, codes, n + 1)
  {}

  lemma CodeBitsIs(lens: Lengths, n: nat)
    requires n < |lens|
    ensures CodeBits(lens, n) == Msb(First(lens, lens[n]) + Same(lens, lens[n], n), lens[n])
  {}

  lemma Short(r: nat, len: nat)
    requires len <= MAX_BITS && r < Pow2(len)
    ensures r % 0x1_0000 == r
  {
    hide Pow2, Weight;
    WholeIs(len);
    NotLess(Pow2(len), Weight(len));
    Whole();
  }

  lemma NotLess(a: nat, w: nat)
    requires w > 0
    ensures a <= a * w
  {}

  lemma Whole()
    ensures Pow2(MAX_BITS) == 0x8000
  {
    assert Pow2(5) == 32;
    assert Pow2(10) == 1024;
  }

  /** The first loop of gen_codes; no code overflows 16 bits. */
  method FirstCodes(lens: Lengths, blCount: seq<nat>) returns (nextCode: seq<nat>)
    requires Codable(lens) && |blCount| == MAX_BITS + 1 && blCount[0] == 0
    requires forall l :: 1 <= l <= MAX_BITS ==> blCount[l] == Same(lens, l, |lens|)
    ensures |nextCode| == MAX_BITS + 1 && forall l :: 1 <= l <= MAX_BITS ==> nextCode[l] == First(lens, l)
  {
    hide Same, Codable, First;
    FirstZero(lens);
    nextCode := seq(MAX_BITS + 1, _ => 0);
    var code := 0;
    for bits := 1 to MAX_BITS + 1
      invariant |nextCode| == MAX_BITS + 1 && code == First(lens, bits - 1)
      invariant forall l :: 1 <= l < bits ==> nextCode[l] == First(lens, l)
    {
      FirstNext(lens, bits);
      FirstFits(lens, bits);
      code := 2 * (code + blCount[bits - 1]);
      nextCode := nextCode[bits := code % 0x1_0000];
    }
  }

  lemma FirstZero(lens: Lengths)
    ensures First(lens, 0) == 0
  {}

  lemma FirstNext(lens: Lengths, l: nat)
    requires 0 < l
    ensures First(lens, l) == 2 * (First(lens, l - 1) + if l == 1 then 0 else Same(lens, l - 1, |lens|))
  {}

  lemma FirstFits(lens: Lengths, l: nat)
    requires Codable(lens) && 0 < l <= MAX_BITS
    ensures First(lens, l) <= 0x8000
  {
    hide First, Shorter, Weight, Pow2;
    FirstIs(lens, l);
    ShorterGrows(lens, l, MAX_BITS + 1, |lens|);
    Whole();
    NotLess(First(lens, l), Weight(l));
  }
}

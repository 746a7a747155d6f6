/**
  Adler-32 of zlib/adler32.c: the delayed-modulo loops against the per-byte definition of section 9 of RFC 1950,
  and the combination of the checksums of two halves.
 */
module Adler32 {

  const BASE: nat := 65521
  const NMAX: nat := 5552

  type Byte = x: int | 0 <= x < 256
  /** Every intermediate sum has to fit an unsigned 32-bit variable. */
  type Unsigned = x: int | 0 <= x < 0x1_0000_0000

  // ----- the definition -----

  /** The low sum: one plus all the bytes, reduced after every byte. */
  function Sum1(a: nat, data: seq<Byte>): (r: nat)
    ensures r < BASE
  {
    if data == [] then a % BASE else (Sum1(a, data[..|data| - 1]) + data[|data| - 1]) % BASE
  }

  /** The high sum: the sum of all the values of the low sum, reduced after every byte. */
  function Sum2(a: nat, b: nat, data: seq<Byte>): (r: nat)
    ensures r < BASE
  {
    if data == [] then b % BASE else (Sum2(a, b, data[..|data| - 1]) + Sum1(a, data)) % BASE
  }

  function Low(adler: nat): (r: nat)
    ensures r < 0x10000
  {
    adler % 0x10000
  }

  function High(adler: nat): (r: nat)
    ensures r < 0x10000
  {
    (adler / 0x10000) % 0x10000
  }

  /** `low | (high << 16)`, for halves of 16 bits. */
  function Pack(low: nat, high: nat): (r: Unsigned)
    requires low < 0x10000 && high < 0x10000
    ensures Low(r) == low && High(r) == high
  {
    high * 0x10000 + low
  }

  /** The checksum `adler` continued over `data`. */
  function Adler(adler: nat, data: seq<Byte>): (r: Unsigned) {
    Pack(Sum1(Low(adler), data), Sum2(Low(adler), High(adler), data))
  }

  // ----- modulo arithmetic -----

  predicate Same(x: int, y: int) {
    x % BASE == y % BASE
  }

  lemma SameAdd(x: int, y: int, d: int, e: int)
    requires Same(x, y) && Same(d, e)
    ensures Same(x + d, y + e)
  {}

  lemma SameMod(x: int)
    ensures Same(x % BASE, x)
  {}

  // ----- reduction without division: CHOP, MOD, MOD28, MOD63 -----

  /** CHOP: 65536 is 15 modulo 65521. */
  function Chop(a: nat): (r: nat)
    ensures Same(r, a) && r <= 0xffff + 15 * (a / 0x10000)
  {
    a % 0x10000 + ((a / 0x10000) * 16 - a / 0x10000)
  }

  method Mod28(a: Unsigned) returns (r: Unsigned)
    requires a < 0x1000_0000
    ensures r == a % BASE
  {
    r := Chop(a);
    if r >= BASE {
      r := r - BASE;
    }
  }

  method Mod(a: Unsigned) returns (r: Unsigned)
    ensures r == a % BASE
  {
    var chopped := Chop(a);
    r := Mod28(chopped);
  }

  /** MOD63's first step: 2^32 is 225 modulo 65521. */
  function Fold(a: nat): (r: nat)
    ensures Same(r, a) && r < 0x1_0000_0000 + 225 * (a / 0x1_0000_0000)
  {
    var tmp := a / 0x1_0000_0000;
    var r := a % 0x1_0000_0000 + (tmp * 256 - tmp * 32 + tmp);
    SameShift(r, tmp * 65551);
    r
  }

  lemma SameShift(x: int, k: int)
    ensures Same(x + k * BASE, x)
  {}

  method Mod63(a: nat) returns (r: nat)
    requires a < 0x8000_0000_0000_0000
    ensures r == a % BASE
  {
    hide Fold, Chop;
    r := Chop(Chop(Fold(a)));
    SubtractOnce(r);
    if r >= BASE {
      r := r - BASE;
    }
  }

  // ----- unreduced sums -----

  /** 1 + 2 + ... + k. */
  function Triangle(k: nat): nat {
    if k == 0 then 0 else Triangle(k - 1) + k
  }

  lemma {:induction false} TriangleUpTo(k: nat, n: nat)
    requires k <= n
    ensures Triangle(k) <= Triangle(n)
    decreases n
  {
    if k < n {
      TriangleUpTo(k, n - 1);
    }
  }

  lemma {:induction false} TriangleIs(n: nat)
    ensures 2 * Triangle(n) == n * (n + 1)
  {
    if n > 0 {
      TriangleIs(n - 1);
      assert n * (n + 1) == (n - 1) * n + 2 * n;
    }
  }

  /** Sums that have not been reduced for the last `k` bytes: congruent to the definition, and bounded. */
  ghost predicate Pending(a: int, b: int, adler: nat, data: seq<Byte>, k: nat) {
    && Same(a, Sum1(Low(adler), data)) && Same(b, Sum2(Low(adler), High(adler), data))
    && 0 <= a <= 0xffff + 255 * k && 0 <= b <= 0xffff * (k + 1) + 255 * Triangle(k)
  }

  /** NMAX is small enough: the sums of a whole block fit 32 bits. */
  lemma PendingFits(a: int, b: int, adler: nat, data: seq<Byte>, k: nat)
    requires k <= NMAX && Pending(a, b, adler, data, k)
    ensures a < 0x1_0000_0000 && b < 0x1_0000_0000
  {
    TriangleUpTo(k, NMAX);
    TriangleIs(NMAX);
  }

  /** NMAX is the largest number of bytes after which the sums are sure to fit, as its comment claims. */
  lemma NmaxIsLargest(n: nat)
    ensures 255 * Triangle(n) + (n + 1) * (BASE - 1) <= 0xffff_ffff <==> n <= NMAX
  {
    if n <= NMAX {
      TriangleUpTo(n, NMAX);
    } else {
      TriangleUpTo(NMAX + 1, n);
    }
    TriangleIs(NMAX);
    TriangleIs(NMAX + 1);
  }

  lemma PendingStart(adler: nat, buf: seq<Byte>)
    ensures Pending(Low(adler), High(adler), adler, buf[..0], 0)
  {
    SameMod(Low(adler));
    SameMod(High(adler));
  }

  /** DO1. */
  lemma PendingStep(a: int, b: int, adler: nat, buf: seq<Byte>, i: nat, k: nat)
    requires i < |buf| && Pending(a, b, adler, buf[..i], k)
    ensures Pending(a + buf[i], b + (a + buf[i]), adler, buf[..i + 1], k + 1)
  {
    hide Same;
    assert buf[..i + 1][..i] == buf[..i];
    var s1, s2 := Sum1(Low(adler), buf[..i]), Sum2(Low(adler), High(adler), buf[..i]);
    var x: int := buf[i];
    SameRefl(x);
    SameAdd(a, s1, x, x);
    SameReduce(a + x, s1 + x);
    SameAdd(b, s2, a + x, (s1 + x) % BASE);
    SameReduce(b + (a + x), s2 + (s1 + x) % BASE);
  }

  lemma SameRefl(x: int)
    ensures Same(x, x)
  {}

  lemma SameReduce(x: int, y: int)
    requires Same(x, y)
    ensures Same(x, y % BASE)
  {}

  lemma SameReduced(x: int, y: nat)
    requires Same(x, y) && y < BASE
    ensures x % BASE == y
  {}

  lemma PendingReduced(a: int, b: int, adler: nat, data: seq<Byte>, k: nat)
    requires Pending(a, b, adler, data, k)
    ensures a % BASE == Sum1(Low(adler), data) && b % BASE == Sum2(Low(adler), High(adler), data)
    ensures Pending(a % BASE, b % BASE, adler, data, 0)
  {
    hide Triangle;
    SameReduced(a, Sum1(Low(adler), data));
    SameReduced(b, Sum2(Low(adler), High(adler), data));
    SameMod(a);
    SameMod(b);
    TriangleIs(0);
  }

  // ----- adler32_z -----

  /** The byte loop: `count` bytes onto unreduced sums, none of which overflows. */
  method AddBytes(a0: Unsigned, b0: Unsigned, ghost adler: nat, buf: seq<Byte>, i: nat, ghost k: nat, count: nat)
    returns (a: Unsigned, b: Unsigned)
    requires i + count <= |buf| && k + count <= NMAX && Pending(a0, b0, adler, buf[..i], k)
    ensures Pending(a, b, adler, buf[..i + count], k + count)
  {
    hide Pending;
    a, b := a0, b0;
    for j := 0 to count
      invariant Pending(a, b, adler, buf[..i + j], k + j)
    {
      PendingStep(a, b, adler, buf, i + j, k + j);
      PendingFits(a + buf[i + j], b + (a + buf[i + j]), adler, buf[..i + j + 1], k + j + 1);
      PendingNonNegative(a + buf[i + j], b + (a + buf[i + j]), adler, buf[..i + j + 1], k + j + 1);
      a := a + buf[i + j];
      b := b + a;
    }
  }

  lemma PendingNonNegative(a: int, b: int, adler: nat, data: seq<Byte>, k: nat)
    requires Pending(a, b, adler, data, k)
    ensures a >= 0 && b >= 0
  {}

  /** One block of NMAX bytes, sixteen at a time, then one modulo for each sum. */
  method AddBlock(a0: Unsigned, b0: Unsigned, ghost adler: nat, buf: seq<Byte>, i: nat)
      returns (a: Unsigned, b: Unsigned)
    requires i + NMAX <= |buf| && Pending(a0, b0, adler, buf[..i], 0)
    ensures Pending(a, b, adler, buf[..i + NMAX], 0) && a < BASE && b < BASE
  {
    hide Pending;
    a, b := a0, b0;
    for n := 0 to NMAX / 16
      invariant Pending(a, b, adler, buf[..i + 16 * n], 16 * n)
    {
      a, b := AddBytes(a, b, adler, buf, i + 16 * n, 16 * n, 16);
    }
    PendingReduced(a, b, adler, buf[..i + NMAX], NMAX);
    a := a % BASE;
    b := b % BASE;
  }

  /** What is left after the blocks: fewer than NMAX bytes, sixteen at a time and then singly. */
  method AddRest(a0: Unsigned, b0: Unsigned, ghost adler: nat, buf: seq<Byte>, i0: nat)
      returns (a: Unsigned, b: Unsigned)
    requires i0 < |buf| < i0 + NMAX && Pending(a0, b0, adler, buf[..i0], 0)
    ensures a == Sum1(Low(adler), buf) && b == Sum2(Low(adler), High(adler), buf)
  {
    hide Pending;
    a, b := a0, b0;
    var i := i0;
    while |buf| - i >= 16
      invariant i0 <= i <= |buf| && Pending(a, b, adler, buf[..i], i - i0)
    {
      a, b := AddBytes(a, b, adler, buf, i, i - i0, 16);
      i := i + 16;
    }
    a, b := AddBytes(a, b, adler, buf, i, i - i0, |buf| - i);
    assert buf[..|buf|] == buf;
    PendingReduced(a, b, adler, buf, |buf| - i0);
    a := a % BASE;
    b := b % BASE;
  }

  /** A high half that one subtraction of BASE does not reduce. */
  predicate Unreduced(adler: nat, data: seq<Byte>) {
    |data| == 1 && High(adler) + (Low(adler) + data[0]) % BASE >= 2 * BASE
  }

  /** The exception is real: one zero byte on the halves 65507 and 65535, which are not both those of a checksum. */
  lemma UnreducedExists()
    ensures Unreduced(Pack(65507, 65535), [0])
  {
    hide Pack, Low, High;
  }

  lemma SingleByte(adler: nat, data: seq<Byte>)
    requires |data| == 1
    ensures Sum1(Low(adler), data) == (Low(adler) + data[0]) % BASE
    ensures Sum2(Low(adler), High(adler), data) == (High(adler) + (Low(adler) + data[0]) % BASE) % BASE
  {
    assert data[..|data| - 1] == [];
    var a, b := Low(adler), High(adler);
    ReduceTwice(a, data[0]);
    ReduceTwice(b, Sum1(a, data));
  }

  lemma ReduceTwice(a: nat, x: int)
    ensures (a % BASE + x) % BASE == (a + x) % BASE
  {}

  datatype Buffer = Null | Buffer(data: seq<Byte>)

  /**
    adler32_z over a buffer, for every starting value, valid or not: the result is the per-byte checksum except
    where a single byte meets an invalid high half, and there it is not. A missing buffer gives the initial value.
   */
  method AdlerZ(adler: nat, buf: Buffer) returns (r: Unsigned)
    ensures buf.Null? ==> r == 1
    ensures buf.Buffer? ==> (r == Adler(adler, buf.data) <==> !Unreduced(adler, buf.data))
    ensures buf.Buffer? ==>
      Same(Low(r), Sum1(Low(adler), buf.data)) && Same(High(r), Sum2(Low(adler), High(adler), buf.data))
  {
    hide Pending, Adler;
    if buf.Null? {
      return 1;
    }
    var data := buf.data;
    if |data| == 1 {
      r := AddOne(adler, data);
    } else if |data| < 16 {
      r := AddFew(adler, data);
      AdlerIs(adler, data, r);
    } else {
      r := AddMany(adler, data);
      AdlerIs(adler, data, r);
    }
  }

  lemma AdlerIs(adler: nat, data: seq<Byte>, r: Unsigned)
    requires r == Adler(adler, data)
    ensures Low(r) == Sum1(Low(adler), data) && High(r) == Sum2(Low(adler), High(adler), data)
  {}

  /** One conditional subtraction reduces exactly the values below 2 * BASE. */
  lemma SubtractOnce(x: nat)
    requires x < 3 * BASE
    ensures var y := if x >= BASE then x - BASE else x; Same(y, x % BASE) && (y == x % BASE <==> x < 2 * BASE)
  {}

  /** One byte: subtractions in place of the modulo. */
  method AddOne(adler: nat, data: seq<Byte>) returns (r: Unsigned)
    requires |data| == 1
    ensures r == Adler(adler, data) <==> !Unreduced(adler, data)
    ensures Same(Low(r), Sum1(Low(adler), data)) && Same(High(r), Sum2(Low(adler), High(adler), data))
  {
    hide Pack, Sum1, Sum2, Low, High, Same;
    SingleByte(adler, data);
    var a: Unsigned, b: Unsigned := Low(adler), High(adler);
    a := a + data[0];
    SubtractOnce(a);
    if a >= BASE {
      a := a - BASE;
    }
    b := b + a;
    SubtractOnce(b);
    if b >= BASE {
      b := b - BASE;
    }
    r := Pack(a, b);
  }

  /** Fewer than sixteen bytes. */
  method AddFew(adler: nat, data: seq<Byte>) returns (r: Unsigned)
    requires |data| < 16
    ensures r == Adler(adler, data)
  {
    hide Triangle, Sum1, Sum2;
    PendingStart(adler, data);
    var a, b := AddBytes(Low(adler), High(adler), adler, data, 0, 0, |data|);
    assert data[..|data|] == data;
    PendingReduced(a, b, adler, data, |data|);
    if a >= BASE {
      a := a - BASE;
    }
    b := b % BASE;
    r := Pack(a, b);
  }

  method AddMany(adler: nat, data: seq<Byte>) returns (r: Unsigned)
    requires |data| >= 16
    ensures r == Adler(adler, data)
  {
    hide Pending, Sum1, Sum2, Low, High, Pack;
    var a: Unsigned, b: Unsigned := Low(adler), High(adler);
    var i := 0;
    PendingStart(adler, data);
    while |data| - i >= NMAX
      invariant 0 <= i <= |data| && Pending(a, b, adler, data[..i], 0) && (i > 0 ==> a < BASE && b < BASE)
    {
      a, b := AddBlock(a, b, adler, data, i);
      i := i + NMAX;
    }
    if i < |data| {
      a, b := AddRest(a, b, adler, data, i);
    } else {
      assert data[..i] == data;
      PendingReduced(a, b, adler, data, 0);
    }
    r := Pack(a, b);
  }

  /** A checksum whose halves are reduced, as every checksum of some data is. */
  predicate Valid(adler: nat) {
    Low(adler) < BASE && High(adler) < BASE
  }

  /** On valid checksums the result is always the per-byte one, and is valid again. */
  lemma ValidIsReduced(adler: nat, data: seq<Byte>)
    requires Valid(adler)
    ensures !Unreduced(adler, data) && Valid(Adler(adler, data))
  {}

  // ----- concatenation -----

  lemma {:induction false} Sum1Concat(a: nat, x: seq<Byte>, y: seq<Byte>)
    ensures Sum1(a, x + y) == Sum1(Sum1(a, x), y)
    decreases |y|
  {
    if y == [] {
      assert x + y == x;
      Reduced(Sum1(a, x));
    } else {
      var n := |y| - 1;
      assert (x + y)[..|x + y| - 1] == x + y[..n];
      Sum1Concat(a, x, y[..n]);
    }
  }

  lemma Reduced(s: nat)
    requires s < BASE
    ensures s % BASE == s
  {}

  lemma {:induction false} Sum2Concat(a: nat, b: nat, x: seq<Byte>, y: seq<Byte>)
    ensures Sum2(a, b, x + y) == Sum2(Sum1(a, x), Sum2(a, b, x), y)
    decreases |y|
  {
    hide Sum1;
    if y == [] {
      assert x + y == x;
      Reduced(Sum2(a, b, x));
    } else {
      var n := |y| - 1;
      assert (x + y)[..|x + y| - 1] == x + y[..n];
      Sum2Concat(a, b, x, y[..n]);
      Sum1Concat(a, x, y);
    }
  }

  lemma SumsConcat(a: nat, b: nat, x: seq<Byte>, y: seq<Byte>)
    ensures Sum1(a, x + y) == Sum1(Sum1(a, x), y)
    ensures Sum2(a, b, x + y) == Sum2(Sum1(a, x), Sum2(a, b, x), y)
  {
    hide Sum1, Sum2;
    Sum1Concat(a, x, y);
    Sum2Concat(a, b, x, y);
  }

  /** Feeding A and then B is feeding A ++ B. */
  lemma AdlerConcat(adler: nat, x: seq<Byte>, y: seq<Byte>)
    ensures Adler(Adler(adler, x), y) == Adler(adler, x + y)
  {
    SumsConcat(Low(adler), High(adler), x, y);
  }

  /** How the low sum depends on the value it starts from. */
  lemma {:induction false} Sum1From(a: nat, y: seq<Byte>)
    ensures Same(Sum1(a, y), a - 1 + Sum1(1, y))
    decreases |y|
  {
    hide Same;
    if y == [] {
      SameMod(a);
    } else {
      Sum1From(a, y[..|y| - 1]);
      SameStep(Sum1(a, y[..|y| - 1]), a - 1, Sum1(1, y[..|y| - 1]), y[|y| - 1], 0, y[|y| - 1]);
    }
  }

  /** How the high sum depends on the values both start from. */
  lemma {:induction false} Sum2From(a: nat, b: nat, y: seq<Byte>)
    ensures Same(Sum2(a, b, y), b + Times(|y|, a - 1) + Sum2(1, 0, y))
    decreases |y|
  {
    hide Same, Times, Sum1;
    TimesLaws(|y|, a - 1);
    if y == [] {
      SameMod(b);
    } else {
      var n := |y| - 1;
      Sum2From(a, b, y[..n]);
      Sum1From(a, y);
      SameStep(Sum2(a, b, y[..n]), b + Times(n, a - 1), Sum2(1, 0, y[..n]), Sum1(a, y), a - 1, Sum1(1, y));
    }
  }

  lemma SameStep(u: int, h: int, v: int, s: int, c: int, t: int)
    requires Same(u, h + v) && (Same(s, c + t) || s == c + t)
    ensures Same((u + s) % BASE, h + c + (v + t) % BASE)
  {
    hide Same;
    SameRefl(s);
    SameAdd(u, h + v, s, c + t);
    SameMod(u + s);
    SameMod(v + t);
    SameRefl(h + c);
    SameAdd((v + t) % BASE, v + t, h + c, h + c);
    SameTrans((u + s) % BASE, u + s, h + c + (v + t));
    SameTrans((u + s) % BASE, h + c + (v + t), h + c + (v + t) % BASE);
  }

  lemma SameTrans(x: int, y: int, z: int)
    requires Same(x, y) && (Same(y, z) || Same(z, y))
    ensures Same(x, z)
  {}

  function Times(n: nat, x: int): int {
    n * x
  }

  lemma TimesLaws(n: nat, x: int)
    ensures Times(0, x) == 0 && (n > 0 ==> Times(n, x) == Times(n - 1, x) + x)
  {
    assert n > 0 ==> n * x == (n - 1) * x + x;
  }

  /** The sums of adler32_combine_ before they are reduced. */
  function RawLow(adler1: nat, adler2: nat): nat {
    Low(adler1) + Low(adler2) + BASE - 1
  }

  function RawHigh(adler1: nat, adler2: nat, len2: nat): nat {
    Times(len2 % BASE, Low(adler1)) % BASE + High(adler1) + High(adler2) + BASE - len2 % BASE
  }

  /** The subtractions reduce both sums. */
  predicate Combines(adler1: nat, adler2: nat, len2: nat) {
    RawLow(adler1, adler2) < 3 * BASE && RawHigh(adler1, adler2, len2) < 4 * BASE
  }

  /** `low | (high << 16)`, also for a low half of 17 bits. */
  function Or(low: nat, high: nat): (r: nat)
    requires low < 0x2_0000
    ensures low < 0x10000 && high < 0x10000 ==> r == Pack(low, high)
    ensures Low(r) == low % 0x10000 && (low < 0x10000 ==> High(r) == high % 0x10000)
  {
    if low < 0x10000 then high * 0x10000 + low else (high + 1 - high % 2) * 0x10000 + (low - 0x10000)
  }

  /** The halves that the definition gives for the concatenation. */
  predicate Right(r: nat, adler1: nat, adler2: nat, len2: nat) {
    && Low(r) == (Low(adler1) - 1 + Low(adler2)) % BASE
    && High(r) == (High(adler1) + High(adler2) + Times(len2, Low(adler1) - 1)) % BASE
  }

  /**
    adler32_combine_, on any values: right if and only if the subtractions reduce both sums, as they do for all
    checksums.
   */
  method Combine(adler1: nat, adler2: nat, len2: int) returns (r: nat)
    ensures len2 < 0 ==> r == 0xffff_ffff
    ensures len2 >= 0 ==> (Right(r, adler1, adler2, len2) <==> Combines(adler1, adler2, len2))
    ensures len2 >= 0 && Combines(adler1, adler2, len2) ==> r < 0x1_0000_0000
  {
    hide Times, Low, High, Or, Right;
    if len2 < 0 {
      return 0xffff_ffff;
    }
    var rem: Unsigned := len2 % BASE;
    var sum1: Unsigned := Low(adler1);
    ProductFits(rem, sum1);
    var sum2: Unsigned := Times(rem, sum1);
    sum2 := sum2 % BASE;
    sum1 := sum1 + Low(adler2) + BASE - 1;
    sum2 := sum2 + High(adler1) + High(adler2) + BASE - rem;
    ghost var raw1, raw2 := sum1, sum2;
    if sum1 >= BASE { sum1 := sum1 - BASE; }
    if sum1 >= BASE { sum1 := sum1 - BASE; }
    if sum2 >= 2 * BASE { sum2 := sum2 - 2 * BASE; }
    if sum2 >= BASE { sum2 := sum2 - BASE; }
    r := Or(sum1, sum2);
    Reduces(raw1, sum1, raw2, sum2);
    ProductReduced(len2, Low(adler1), High(adler1) + High(adler2), raw2);
    RightIs(r, adler1, adler2, len2, raw1, raw2);
    PackFits(sum1, sum2);
  }

  lemma PackFits(low: nat, high: nat)
    ensures low < 0x10000 && high < 0x10000 ==> Or(low, high) < 0x1_0000_0000
  {}

  /** What the subtractions make of the raw sums, and what the packed halves then are. */
  lemma Reduces(raw1: nat, sum1: nat, raw2: nat, sum2: nat)
    requires raw1 <= 3 * 0xffff - 15 && raw2 <= 4 * 0xffff - 29
    requires sum1 == if raw1 >= 2 * BASE then raw1 - 2 * BASE else if raw1 >= BASE then raw1 - BASE else raw1
    requires sum2 == if raw2 >= 3 * BASE then raw2 - 3 * BASE else if raw2 >= 2 * BASE then raw2 - 2 * BASE
                     else if raw2 >= BASE then raw2 - BASE else raw2
    ensures sum1 < 0x2_0000 && (raw1 < 3 * BASE && raw2 < 4 * BASE ==> sum1 < 0x10000 && sum2 < 0x10000)
    ensures var r := Or(sum1, sum2);
      (Low(r) == raw1 % BASE && High(r) == raw2 % BASE) <==> raw1 < 3 * BASE && raw2 < 4 * BASE
  {
    hide Or, Low, High;
  }

  lemma RightIs(r: nat, adler1: nat, adler2: nat, len2: nat, raw1: nat, raw2: nat)
    requires raw1 == RawLow(adler1, adler2)
    requires Same(raw2, High(adler1) + High(adler2) + Times(len2, Low(adler1) - 1))
    ensures Right(r, adler1, adler2, len2) <==> Low(r) == raw1 % BASE && High(r) == raw2 % BASE
  {
    hide Times, Low, High;
    SameShift(Low(adler1) - 1 + Low(adler2), 1);
  }

  lemma ProductFits(x: nat, y: nat)
    requires x < BASE && y < 0x10000
    ensures 0 <= Times(x, y) < 0x1_0000_0000
  {
    TimesMonotone(x, y, 65520, 65535);
  }

  lemma TimesMonotone(x: nat, y: nat, x': nat, y': nat)
    requires x <= x' && y <= y'
    ensures 0 <= Times(x, y) <= Times(x', y')
  {
    assert x * y <= x' * y <= x' * y';
  }

  lemma ProductReduced(len: nat, a: nat, h: nat, sum2: nat)
    requires sum2 == Times(len % BASE, a) % BASE + h + BASE - len % BASE
    ensures Same(sum2, h + Times(len, a - 1))
  {
    var q, rem := len / BASE, len % BASE;
    var p, m := Times(rem, a), q * (a - 1);
    Split(len, a);
    hide Times;
    assert h + Times(len, a - 1) == (h + p - rem) + m * BASE;
    assert sum2 == (h + p - rem) + (1 - p / BASE) * BASE;
    SameShift(h + p - rem, m);
    SameShift(h + p - rem, 1 - p / BASE);
  }

  lemma Split(len: nat, a: nat)
    ensures Times(len, a - 1) == Times(len % BASE, a) - len % BASE + (len / BASE * (a - 1)) * BASE
  {
    var q, rem := len / BASE, len % BASE;
    assert len == q * BASE + rem;
    calc {
      (q * BASE + rem) * (a - 1);
      (q * BASE) * (a - 1) + rem * (a - 1);
      { MulSwap(q, BASE, a - 1); }
      (q * (a - 1)) * BASE + rem * (a - 1);
      (q * (a - 1)) * BASE + rem * a - rem;
    }
  }

  lemma MulSwap(x: int, y: int, z: int)
    ensures (x * y) * z == (x * z) * y
  {}

  /** Checksums always combine. */
  lemma ValidCombines(adler1: nat, adler2: nat, len2: nat)
    requires Valid(adler1) && Valid(adler2)
    ensures Combines(adler1, adler2, len2)
  {
    hide Low, High, Times;
    TimesZero(Low(adler1));
  }

  lemma TimesZero(x: int)
    ensures Times(0, x) == 0
  {}

  /** Other values need not: the low halves 65535 and 65508 add up to one too much. */
  lemma CombineFails()
    ensures !Combines(Pack(65535, 0), Pack(65508, 0), 0)
  {
    hide Pack, Low, High;
  }

  /** adler32_combine_ of the checksums of two parts is the checksum of the whole. */
  method CombineParts(x: seq<Byte>, y: seq<Byte>) returns (r: nat)
    ensures r == Adler(1, x + y)
  {
    hide Times, Same, Sum1, Sum2, Pack, Combines;
    ValidCombines(Adler(1, x), Adler(1, y), |y|);
    r := Combine(Adler(1, x), Adler(1, y), |y|);
    var a, b := Sum1(1, x), Sum2(1, 0, x);
    SumsConcat(1, 0, x, y);
    Sum1From(a, y);
    Sum2From(a, b, y);
    SameReduced(a - 1 + Sum1(1, y), Sum1(a, y)) by { SameFlip(Sum1(a, y), a - 1 + Sum1(1, y)); }
    var z := b + Times(|y|, a - 1) + Sum2(1, 0, y);
    SameReduced(z, Sum2(a, b, y)) by { SameFlip(Sum2(a, b, y), z); }
    HalvesDetermine(r, Adler(1, x + y));
  }

  lemma SameFlip(x: int, y: int)
    requires Same(x, y)
    ensures Same(y, x)
  {}

  lemma HalvesDetermine(r: nat, s: Unsigned)
    requires Low(r) == Low(s) && High(r) == High(s) && r < 0x1_0000_0000
    ensures r == s
  {}
}

/** crc32_combine_: the zero-bytes operator as a matrix over GF(2), applied by repeated squaring. */
module Crc32Combine {
  import opened Crc32

  const GF2_DIM := 32

  function Double(x: Word): Word {
    x << 1
  }

  /** `w` shifted left by `i` bits. */
  function Shl(w: Word, i: nat): Word {
    if i == 0 then w else Double(Shl(w, i - 1))
  }

  function One(): Word {
    1
  }

  /** The vector whose only one bit is bit `i`. */
  function Unit(i: nat): Word {
    Shl(One(), i)
  }

  function Parity(w: Word): Word {
    if Odd(w) then One() else Zero()
  }

  lemma Split(w: Word)
    ensures w == Xor(Parity(w), Double(Half(w)))
  {}

  lemma DoubleLinear(a: Word, b: Word)
    ensures Double(Xor(a, b)) == Xor(Double(a), Double(b)) && Double(Zero()) == Zero()
  {}

  lemma {:induction false} ShlLinear(a: Word, b: Word, i: nat)
    ensures Shl(Xor(a, b), i) == Xor(Shl(a, i), Shl(b, i)) && Shl(Zero(), i) == Zero()
  {
    hide Double, Xor, Zero;
    if i > 0 {
      ShlLinear(a, b, i - 1);
      DoubleLinear(Shl(a, i - 1), Shl(b, i - 1));
    }
  }

  lemma {:induction false} ShlDouble(x: Word, i: nat)
    ensures Shl(Double(x), i) == Shl(x, i + 1)
  {
    hide Double;
    if i > 0 {
      ShlDouble(x, i - 1);
    }
  }

  /** `w` has no one bit at or above position `k`. */
  predicate Fits(w: Word, k: nat) {
    if k == 0 then w == Zero() else Fits(Half(w), k - 1)
  }

  lemma FitsByte(w: Word, k: nat)
    requires Fits(w >> 8, k)
    ensures Fits(w, k + 8)
  {
    hide Half;
    var w1 := Half(w);
    var w2 := Half(w1);
    var w3 := Half(w2);
    var w4 := Half(w3);
    var w5 := Half(w4);
    var w6 := Half(w5);
    var w7 := Half(w6);
    EightHalves(w);
    assert Fits(Half(w7), k);
    assert Fits(w7, k + 1);
    assert Fits(w6, k + 2);
    assert Fits(w5, k + 3);
    assert Fits(w4, k + 4);
    assert Fits(w3, k + 5);
    assert Fits(w2, k + 6);
    assert Fits(w1, k + 7);
  }

  lemma EightHalves(w: Word)
    ensures Half(Half(Half(Half(Half(Half(Half(Half(w)))))))) == w >> 8
  {}

  lemma FitsAlways(w: Word)
    ensures Fits(w, GF2_DIM)
  {
    hide Half, Zero;
    FourBytes(w);
    assert Fits((((w >> 8) >> 8) >> 8) >> 8, 0);
    FitsByte(((w >> 8) >> 8) >> 8, 0);
    FitsByte((w >> 8) >> 8, 8);
    FitsByte(w >> 8, 16);
    FitsByte(w, 24);
  }

  lemma FourBytes(w: Word)
    ensures (((w >> 8) >> 8) >> 8) >> 8 == Zero()
  {}

  /** The product of a matrix, given by its columns, and a vector. */
  function Product(mat: seq<Word>, v: Word): Word
    decreases v
  {
    if v == Zero() || mat == [] then Zero()
    else Xor(if Odd(v) then mat[0] else Zero(), Product(mat[1..], Half(v)))
  }

  /** `mat` is the operator that runs `n` zero bits through the register. */
  ghost predicate IsZeros(mat: seq<Word>, n: nat) {
    |mat| == GF2_DIM && forall i :: 0 <= i < GF2_DIM ==> mat[i] == ZeroBits(Unit(i), n)
  }

  lemma {:induction false} ProductFrom(mat: seq<Word>, n: nat, i: nat, w: Word)
    requires IsZeros(mat, n) && i <= GF2_DIM && Fits(w, GF2_DIM - i)
    ensures Product(mat[i..], w) == ZeroBits(Shl(w, i), n)
    decreases GF2_DIM - i
  {
    hide Xor, Half, Odd, Zero, Double, ZeroBits, One, Shl;
    if w == Zero() {
      ShlLinear(w, w, i);
      ZeroBitsOfZero(n);
    } else {
      var h, p := Half(w), Parity(w);
      assert mat[i..][1..] == mat[i + 1..];
      ProductFrom(mat, n, i + 1, h);
      Split(w);
      ShlLinear(p, Double(h), i);
      ShlDouble(h, i);
      ZeroBitsLinear(Shl(p, i), Shl(h, i + 1), n);
      ShlLinear(p, p, i);
      ZeroBitsOfZero(n);
    }
  }

  /** Multiplying by the matrix is running zero bits through the register. */
  lemma ProductIsZeros(mat: seq<Word>, n: nat, v: Word)
    requires IsZeros(mat, n)
    ensures Product(mat, v) == ZeroBits(v, n)
  {
    hide Product, ZeroBits, Fits;
    FitsAlways(v);
    ProductFrom(mat, n, 0, v);
    assert mat[0..] == mat;
  }

  /** gf2_matrix_times. */
  method MatrixTimes(mat: seq<Word>, vec: Word) returns (sum: Word)
    requires |mat| == GF2_DIM
    ensures sum == Product(mat, vec)
  {
    hide Xor, Half, Odd, Zero;
    sum := Zero();
    var v, i := vec, 0;
    XorZero(Product(mat, vec));
    FitsAlways(vec);
    assert mat[0..] == mat;
    while v != Zero()
      invariant 0 <= i <= GF2_DIM && Fits(v, GF2_DIM - i)
      invariant Product(mat, vec) == Xor(sum, Product(mat[i..], v))
      decreases GF2_DIM - i
    {
      ghost var rest := Product(mat[i + 1..], Half(v));
      assert mat[i..][1..] == mat[i + 1..];
      XorAssoc(sum, if Odd(v) then mat[i] else Zero(), rest);
      XorZero(sum);
      if Odd(v) {
        sum := Xor(sum, mat[i]);
      }
      v := Half(v);
      i := i + 1;
    }
    XorZero(sum);
  }

  /** gf2_matrix_square. */
  method MatrixSquare(mat: seq<Word>, ghost n: nat) returns (square: seq<Word>)
    requires IsZeros(mat, n)
    ensures IsZeros(square, 2 * n)
  {
    hide Xor, Half, Odd, Zero, Shl, ZeroBits, Product;
    square := [];
    for i := 0 to GF2_DIM
      invariant |square| == i
      invariant forall j :: 0 <= j < i ==> square[j] == ZeroBits(Unit(j), 2 * n)
    {
      var column := MatrixTimes(mat, mat[i]);
      ProductIsZeros(mat, n, mat[i]);
      ZeroBitsAdd(Unit(i), n, n);
      square := square + [column];
    }
  }

  function Power(i: nat): Word
    requires i < GF2_DIM
  {
    match i
    case 0 => 0x1
    case 1 => 0x2
    case 2 => 0x4
    case 3 => 0x8
    case 4 => 0x10
    case 5 => 0x20
    case 6 => 0x40
    case 7 => 0x80
    case 8 => 0x100
    case 9 => 0x200
    case 10 => 0x400
    case 11 => 0x800
    case 12 => 0x1000
    case 13 => 0x2000
    case 14 => 0x4000
    case 15 => 0x8000
    case 16 => 0x10000
    case 17 => 0x20000
    case 18 => 0x40000
    case 19 => 0x80000
    case 20 => 0x100000
    case 21 => 0x200000
    case 22 => 0x400000
    case 23 => 0x800000
    case 24 => 0x1000000
    case 25 => 0x2000000
    case 26 => 0x4000000
    case 27 => 0x8000000
    case 28 => 0x10000000
    case 29 => 0x20000000
    case 30 => 0x40000000
    case _ => 0x80000000
  }

  lemma {:induction false} UnitIsPower(i: nat)
    requires i < GF2_DIM
    ensures Unit(i) == Power(i)
  {
    if i > 0 {
      UnitIsPower(i - 1);
      DoublePower(i);
    }
  }

  lemma DoublePower(i: nat)
    requires 0 < i < GF2_DIM
    ensures Double(Power(i - 1)) == Power(i)
  {
    hide Double, Power;
    if i < 16 {
      DoublePowerLow(i);
    } else {
      DoublePowerHigh(i);
    }
  }

  lemma DoublePowerLow(i: nat)
    requires 0 < i < 16
    ensures Double(Power(i - 1)) == Power(i)
  {}

  lemma DoublePowerHigh(i: nat)
    requires 16 <= i < GF2_DIM
    ensures Double(Power(i - 1)) == Power(i)
  {}

  /** One zero bit moves every one bit down a place, and the lowest turns into the polynomial. */
  lemma OneZeroBit(i: nat)
    requires i < GF2_DIM
    ensures ZeroBits(Unit(i), 1) == if i == 0 then Poly() else Unit(i - 1)
  {
    assert ZeroBits(Unit(i), 1) == ZeroBit(ZeroBits(Unit(i), 0));
    UnitIsPower(i);
    PowerDown(i);
    if i > 0 {
      UnitIsPower(i - 1);
    }
  }

  lemma PowerDown(i: nat)
    requires i < GF2_DIM
    ensures ZeroBit(Power(i)) == if i == 0 then Poly() else Power(i - 1)
  {}

  /** The operator for one zero bit. */
  method OneZeroMatrix() returns (odd: seq<Word>)
    ensures IsZeros(odd, 1)
  {
    hide ZeroBits;
    odd := [Poly()];
    var row := One();
    OneZeroBit(0);
    for n := 1 to GF2_DIM
      invariant |odd| == n && row == Unit(n - 1)
      invariant forall i :: 0 <= i < n ==> odd[i] == ZeroBits(Unit(i), 1)
    {
      OneZeroBit(n);
      odd := odd + [row];
      row := Double(row);
    }
  }

  /** crc32_combine_: applies len2 zero bytes to crc1, one squaring for each bit of len2. */
  method Combine(crc1: Word, crc2: Word, len2: int) returns (crc: Word)
    ensures crc == if len2 <= 0 then crc1 else Xor(ZeroBits(crc1, 8 * len2), crc2)
  {
    hide ZeroBits, Xor, Product, IsZeros;
    if len2 <= 0 {
      return crc1;
    }
    var odd := OneZeroMatrix();
    var even := MatrixSquare(odd, 1);
    odd := MatrixSquare(even, 2);
    var len := len2;
    crc := crc1;
    // `weight` is the value of the low bit of len; `done` zero bytes have been applied
    ghost var done, weight := 0, 1;
    NoZeroBits(crc1);
    while true
      invariant len > 0 && done >= 0 && weight > 0 && done + weight * len == len2
      invariant IsZeros(odd, 4 * weight)
      invariant crc == ZeroBits(crc1, 8 * done)
      decreases len
    {
      even := MatrixSquare(odd, 4 * weight);
      crc, done := ApplyBit(even, crc1, crc, len, done, weight);
      HalveLength(len, weight);
      len, weight := len / 2, 2 * weight;
      if len == 0 {
        break;
      }
      odd := MatrixSquare(even, 4 * weight);
      crc, done := ApplyBit(odd, crc1, crc, len, done, weight);
      HalveLength(len, weight);
      len, weight := len / 2, 2 * weight;
      if len == 0 {
        break;
      }
    }
    crc := Xor(crc, crc2);
  }

  /** Applies the operator for the low bit of `len` if that bit is set. */
  method ApplyBit(mat: seq<Word>, ghost crc1: Word, crc: Word, len: int, ghost done: nat, ghost weight: nat)
      returns (r: Word, ghost d: nat)
    requires IsZeros(mat, 8 * weight) && len >= 0 && crc == ZeroBits(crc1, 8 * done)
    ensures d == done + (if len % 2 == 1 then weight else 0)
    ensures r == ZeroBits(crc1, 8 * d)
  {
    hide ZeroBits, Product;
    r, d := crc, done;
    if len % 2 == 1 {
      r := MatrixTimes(mat, crc);
      ProductIsZeros(mat, 8 * weight, crc);
      ZeroBitsAdd(crc1, 8 * done, 8 * weight);
      d := done + weight;
    }
  }

  lemma HalveLength(len: int, weight: int)
    requires len >= 0
    ensures weight * len == (2 * weight) * (len / 2) + (if len % 2 == 1 then weight else 0)
  {
    var h := len / 2;
    if len % 2 == 1 {
      assert len == 2 * h + 1;
    } else {
      assert len == 2 * h;
    }
  }

  lemma NoZeroBits(c: Word)
    ensures ZeroBits(c, 0) == c
  {}

  /** Combining the checksums of two byte strings gives the checksum of their concatenation. */
  method CombineParts(a: seq<Byte>, b: seq<Byte>) returns (crc: Word)
    ensures crc == Crc(Zero(), a + b)
  {
    hide Register, ZeroBits, Xor;
    crc := Combine(Crc(Zero(), a), Crc(Zero(), b), |b|);
    CrcOfConcat(a, b);
    if b == [] {
      assert a + b == a;
    }
  }
}

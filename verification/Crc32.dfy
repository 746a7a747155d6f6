/**
  CRC-32 of zlib/crc32.c: the bit-serial definition, and the algebra over GF(2) on which the fast loops and the
  combination of checksums rest (section 8 of RFC 1952).
 */
module Crc32 {

  type Word = bv32
  type Byte = bv8

  /** Addition of polynomials over GF(2). */
  function Xor(a: Word, b: Word): Word {
    a ^ b
  }

  function Ones(): Word {
    0xffffffff
  }

  function Not(a: Word): Word {
    Xor(a, Ones())
  }

  function Half(c: Word): Word {
    c >> 1
  }

  predicate Odd(c: Word) {
    c & 1 == 1
  }

  function Zero(): Word {
    0
  }

  function Wide(b: Byte): Word {
    b as Word
  }

  /** The CRC polynomial without its x^32 term, lowest power in the most significant bit. */
  function Poly(): Word {
    0xedb88320
  }

  /** One step of the shift register: multiplication by x modulo the CRC polynomial. */
  function ZeroBit(c: Word): Word {
    if Odd(c) then Xor(Poly(), Half(c)) else Half(c)
  }

  /** `n` zero bits run through the register. */
  function ZeroBits(c: Word, n: nat): Word {
    if n == 0 then c else ZeroBit(ZeroBits(c, n - 1))
  }

  /** The register after the bytes of `data`, bit by bit. */
  function Register(c: Word, data: seq<Byte>): Word {
    if data == [] then c
    else ZeroBits(Xor(Register(c, data[..|data| - 1]), Wide(data[|data| - 1])), 8)
  }

  /** The checksum: the register is inverted before and after. */
  function Crc(crc: Word, data: seq<Byte>): Word {
    Not(Register(Not(crc), data))
  }

  // ----- laws of exclusive-or -----

  lemma XorAssoc(a: Word, b: Word, c: Word)
    ensures Xor(Xor(a, b), c) == Xor(a, Xor(b, c))
  {}

  lemma XorComm(a: Word, b: Word)
    ensures Xor(a, b) == Xor(b, a)
  {}

  lemma XorZero(a: Word)
    ensures Xor(a, Zero()) == a == Xor(Zero(), a) && Xor(a, a) == Zero()
  {}

  lemma XorSwap(a: Word, b: Word, c: Word)
    ensures Xor(Xor(a, b), c) == Xor(Xor(a, c), b)
  {
    hide Xor;
    XorAssoc(a, b, c);
    XorComm(b, c);
    XorAssoc(a, c, b);
  }

  lemma NotNot(a: Word)
    ensures Not(Not(a)) == a
  {
    hide Xor, Zero;
    XorAssoc(a, Ones(), Ones());
    XorZero(Ones());
    XorZero(a);
  }

  lemma NotXor(a: Word, b: Word)
    ensures Not(Xor(a, b)) == Xor(Not(a), b)
  {
    hide Xor;
    XorSwap(a, b, Ones());
  }

  // ----- linearity of the register -----

  lemma HalfLinear(a: Word, b: Word)
    ensures Half(Xor(a, b)) == Xor(Half(a), Half(b))
  {}

  lemma OddXor(a: Word, b: Word)
    ensures Odd(Xor(a, b)) == (Odd(a) != Odd(b))
  {}

  /** The register step is linear. */
  lemma ZeroBitLinear(a: Word, b: Word)
    ensures ZeroBit(Xor(a, b)) == Xor(ZeroBit(a), ZeroBit(b))
  {
    hide Xor, Half, Odd, Poly, Zero;
    var p, x, y := Poly(), Half(a), Half(b);
    HalfLinear(a, b);
    OddXor(a, b);
    XorAssoc(p, x, y);
    XorComm(p, y);
    XorAssoc(x, y, p);
    XorComm(Xor(x, y), p);
    if Odd(a) && Odd(b) {
      // (p + x) + (p + y) == x + y
      XorComm(p, x);
      XorAssoc(x, p, Xor(p, y));
      XorAssoc(p, p, y);
      XorZero(p);
      XorZero(y);
    }
  }

  lemma {:induction false} ZeroBitsLinear(a: Word, b: Word, n: nat)
    ensures ZeroBits(Xor(a, b), n) == Xor(ZeroBits(a, n), ZeroBits(b, n))
  {
    hide ZeroBit, Xor;
    if n > 0 {
      ZeroBitsLinear(a, b, n - 1);
      ZeroBitLinear(ZeroBits(a, n - 1), ZeroBits(b, n - 1));
    }
  }

  lemma {:induction false} ZeroBitsAdd(c: Word, m: nat, n: nat)
    ensures ZeroBits(ZeroBits(c, m), n) == ZeroBits(c, m + n)
  {
    hide ZeroBit;
    if n > 0 {
      ZeroBitsAdd(c, m, n - 1);
    }
  }

  lemma {:induction false} ZeroBitsOfZero(n: nat)
    ensures ZeroBits(Zero(), n) == Zero()
  {
    hide ZeroBit;
    if n > 0 {
      ZeroBitsOfZero(n - 1);
      ZeroBitOfZero();
    }
  }

  lemma ZeroBitOfZero()
    ensures ZeroBit(Zero()) == Zero()
  {}

  /** A change of the starting register shows up in the result as that change run through |data| zero bytes. */
  lemma {:induction false} RegisterLinear(c: Word, d: Word, data: seq<Byte>)
    ensures Register(Xor(c, d), data) == Xor(Register(c, data), ZeroBits(d, 8 * |data|))
    decreases |data|
  {
    hide ZeroBit, Xor, Wide;
    if data != [] {
      var n := |data| - 1;
      var r, z, b := Register(c, data[..n]), ZeroBits(d, 8 * n), Wide(data[n]);
      RegisterLinear(c, d, data[..n]);
      XorSwap(r, z, b);
      ZeroBitsLinear(Xor(r, b), z, 8);
      ZeroBitsAdd(d, 8 * n, 8);
    }
  }

  lemma {:induction false} RegisterConcat(c: Word, a: seq<Byte>, b: seq<Byte>)
    ensures Register(c, a + b) == Register(Register(c, a), b)
    decreases |b|
  {
    hide ZeroBits, Xor, Wide;
    if b == [] {
      assert a + b == a;
    } else {
      var n := |b| - 1;
      assert (a + b)[..|a + b| - 1] == a + b[..n];
      RegisterConcat(c, a, b[..n]);
    }
  }

  /** Feeding A and then B is feeding A ++ B. */
  lemma CrcConcat(crc: Word, a: seq<Byte>, b: seq<Byte>)
    ensures Crc(Crc(crc, a), b) == Crc(crc, a + b)
  {
    hide Register, Not;
    RegisterConcat(Not(crc), a, b);
    NotNot(Register(Not(crc), a));
  }

  /** The checksum of a concatenation from the checksums of its parts. */
  lemma CrcOfConcat(a: seq<Byte>, b: seq<Byte>)
    ensures Crc(Zero(), a + b) == Xor(ZeroBits(Crc(Zero(), a), 8 * |b|), Crc(Zero(), b))
  {
    hide Register, ZeroBits, Not, Xor, Zero;
    var x, ones := Crc(Zero(), a), Not(Zero());
    CrcConcat(Zero(), a, b);
    NotXor(Zero(), x);
    XorZero(x);
    assert Not(x) == Xor(ones, x);
    RegisterLinear(ones, x, b);
    var r, z := Register(ones, b), ZeroBits(x, 8 * |b|);
    NotXor(r, z);
    XorComm(Not(r), z);
  }
}

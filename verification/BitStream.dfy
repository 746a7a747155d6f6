/** Sequences of bits, and the bit buffer of zlib/trees.c that packs them into bytes. */
module BitStream {
  import opened BitArith
  import opened Lz77

  type Bits = seq<bool>

  /** The low `n` bits of a number, lowest first. */
  function BitsOf(v: nat, n: nat): (b: Bits)
    ensures |b| == n
    decreases n
  {
    if n == 0 then [] else [v % 2 == 1] + BitsOf(v / 2, n - 1)
  }

  /** The number with these bits, lowest first. */
  function Value(b: Bits): nat {
    if b == [] then 0 else (if b[0] then 1 else 0) + 2 * Value(b[1..])
  }

  lemma {:induction false} ValueOfBits(v: nat, n: nat)
    requires v < Pow2(n)
    ensures Value(BitsOf(v, n)) == v
    decreases n
  {
    if n > 0 {
      ValueOfBits(v / 2, n - 1);
      assert BitsOf(v, n)[1..] == BitsOf(v / 2, n - 1);
    }
  }

  lemma {:induction false} BitsOfValue(b: Bits)
    ensures Value(b) < Pow2(|b|) && BitsOf(Value(b), |b|) == b
  {
    if b != [] {
      BitsOfValue(b[1..]);
      assert Value(b) / 2 == Value(b[1..]);
      assert b == [b[0]] + b[1..];
    }
  }

  /** Two numbers side by side. */
  lemma {:induction false} BitsJoin(a: nat, b: nat, k: nat, n: nat)
    requires a < Pow2(k)
    ensures BitsOf(a + Shl(b, k), k + n) == BitsOf(a, k) + BitsOf(b, n) && (b < Pow2(n) ==> a + Shl(b, k) < Pow2(k + n))
    decreases k
  {
    if k == 0 {
      assert BitsOf(a, k) + BitsOf(b, n) == BitsOf(b, n);
    } else {
      BitsJoin(a / 2, b, k - 1, n);
      var v, d := a + Shl(b, k), [a % 2 == 1];
      assert v % 2 == a % 2 && v / 2 == a / 2 + Shl(b, k - 1);
      assert BitsOf(v, k + n) == d + BitsOf(v / 2, k - 1 + n);
      Assoc(d, BitsOf(a / 2, k - 1), BitsOf(b, n));
    }
  }

  /** `v` shifted right by `k` bits. */
  function Shr(v: nat, k: nat): nat
    decreases k
  {
    if k == 0 then v else Shr(v / 2, k - 1)
  }

  lemma {:induction false} BitsSplit(v: nat, k: nat, n: nat)
    ensures BitsOf(v, k + n) == BitsOf(v, k) + BitsOf(Shr(v, k), n) && (v < Pow2(k + n) ==> Shr(v, k) < Pow2(n))
    decreases k
  {
    if k == 0 {
      assert BitsOf(v, k) + BitsOf(v, n) == BitsOf(v, n);
    } else {
      BitsSplit(v / 2, k - 1, n);
      var d := [v % 2 == 1];
      assert BitsOf(v, k + n) == d + BitsOf(v / 2, k - 1 + n);
      Assoc(d, BitsOf(v / 2, k - 1), BitsOf(Shr(v, k), n));
    }
  }

  lemma {:induction false} BitsLow(v: nat, k: nat)
    ensures BitsOf(Low(v, k), k) == BitsOf(v, k)
    decreases k
  {
    if k > 0 {
      BitsLow(v / 2, k - 1);
      LowParts(v, k);
    }
  }

  /** The bitwise or. */
  function Or(a: nat, b: nat): nat
    decreases a
  {
    if a == 0 then b else (if a % 2 == 1 || b % 2 == 1 then 1 else 0) + 2 * Or(a / 2, b / 2)
  }

  /** Of numbers without a bit in common it is the sum. */
  lemma {:induction false} OrApart(a: nat, b: nat, k: nat)
    requires a < Pow2(k)
    ensures Or(a, Shl(b, k)) == a + Shl(b, k)
    decreases k
  {
    if a > 0 {
      OrApart(a / 2, b, k - 1);
      assert Shl(b, k) % 2 == 0 && Shl(b, k) / 2 == Shl(b, k - 1);
    }
  }

  lemma Assoc(a: Bits, b: Bits, c: Bits)
    ensures a + b + c == a + (b + c)
  {}

  /** The bits of some bytes. */
  function BytesBits(bytes: seq<Byte>): (b: Bits)
    ensures |b| == 8 * |bytes|
  {
    if bytes == [] then [] else BytesBits(bytes[..|bytes| - 1]) + BitsOf(bytes[|bytes| - 1], 8)
  }

  lemma BytesBitsMore(bytes: seq<Byte>, x: Byte)
    ensures BytesBits(bytes + [x]) == BytesBits(bytes) + BitsOf(x, 8)
  {
    assert (bytes + [x])[..|bytes|] == bytes;
  }

  lemma BytesBitsShort(bytes: seq<Byte>, w: nat)
    requires w < Pow2(16)
    ensures Low(w, 8) < 256 && Shr(w, 8) < 256
    ensures BytesBits(bytes + [Low(w, 8), Shr(w, 8)]) == BytesBits(bytes) + BitsOf(w, 16)
  {
    hide BitsOf, BytesBits;
    Pow2Of8();
    LowBound(w, 8);
    BitsSplit(w, 8, 8);
    BitsLow(w, 8);
    var lo: Byte, hi: Byte := Low(w, 8), Shr(w, 8);
    BytesBitsMore(bytes, lo);
    BytesBitsMore(bytes + [lo], hi);
    assert bytes + [lo, hi] == bytes + [lo] + [hi];
    var a, b := BitsOf(w, 8), BitsOf(hi, 8);
    Assoc(BytesBits(bytes), a, b);
  }

  lemma Pow2Of8()
    ensures Pow2(8) == 256
  {
    assert Pow2(4) == 16;
  }

  /** A value across the end of the buffer: its low bits fill the buffer, the others start the next. */
  lemma Across(buf: nat, valid: nat, v: nat, n: nat)
    requires valid <= 16 && buf < Pow2(valid) && v < Pow2(n) && 16 - valid < n <= 16
    ensures var w, hi := Low(Or(buf, Shl(v, valid)), 16), Shr(v, 16 - valid);
      && w < Pow2(16) && hi < Pow2(valid + n - 16)
      && BitsOf(w, 16) + BitsOf(hi, valid + n - 16) == BitsOf(buf, valid) + BitsOf(v, n)
  {
    hide BitsOf, Shr, Shl, Or, Low, Pow2;
    var k, x := 16 - valid, buf + Shl(v, valid);
    OrApart(buf, v, valid);
    LowBound(x, 16);
    BitsLow(x, 16);
    BitsJoin(buf, v, valid, n);
    BitsSplit(x, 16, n - k);
    BitsSplit(v, k, n - k);
    assert BitsOf(x, 16) == BitsOf(x, valid + n)[..16];
    assert BitsOf(buf, valid) + (BitsOf(v, k) + BitsOf(Shr(v, k), n - k))
        == (BitsOf(buf, valid) + BitsOf(v, k)) + BitsOf(Shr(v, k), n - k);
    assert BitsOf(x, 16) == BitsOf(buf, valid) + BitsOf(v, k);
  }

  /** The fields of deflate_state that hold output: complete bytes, and up to 16 bits in bi_buf. */
  class BitWriter {
    var pending: seq<Byte>
    var biBuf: nat
    var biValid: nat

    ghost predicate Valid()
      reads this
    {
      biValid <= 16 && biBuf < Pow2(biValid)
    }

    /** Everything sent. */
    ghost function Sent(): Bits
      reads this
    {
      BytesBits(pending) + BitsOf(biBuf, biValid)
    }

    constructor ()
      ensures Valid() && Sent() == []
    {
      pending, biBuf, biValid := [], 0, 0;
    }

    /** put_short. */
    method PutShort(w: nat)
      requires w < Pow2(16)
      modifies this`pending
      ensures BytesBits(pending) == BytesBits(old(pending)) + BitsOf(w, 16)
    {
      hide BitsOf, BytesBits, Low, Shr, Pow2;
      BytesBitsShort(pending, w);
      pending := pending + [Low(w, 8), Shr(w, 8)];
    }

    /** send_bits: the low bits of the value, lowest first, after everything sent before. */
    method SendBits(value: nat, length: nat)
      requires Valid() && length <= 16 && value < Pow2(length)
      modifies this
      ensures Valid() && Sent() == old(Sent()) + BitsOf(value, length)
    {
      hide BitsOf, BytesBits, Or, Shl, Shr, Low, Pow2;
      ghost var a, b, c := BytesBits(pending), BitsOf(biBuf, biValid), BitsOf(value, length);
      Assoc(a, b, c);
      if biValid > 16 - length {
        Across(biBuf, biValid, value, length);
        var w := Low(Or(biBuf, Shl(value, biValid)), 16);
        PutShort(w);
        biBuf := Shr(value, 16 - biValid);
        biValid := biValid + length - 16;
        ghost var d, e := BitsOf(w, 16), BitsOf(biBuf, biValid);
        Assoc(a, d, e);
      } else {
        OrApart(biBuf, value, biValid);
        BitsJoin(biBuf, value, biValid, length);
        biBuf := Or(biBuf, Shl(value, biValid));
        biValid := biValid + length;
      }
    }

    /** bi_flush: complete bytes leave the buffer; nothing is added. */
    method BiFlush()
      requires Valid()
      modifies this
      ensures Valid() && Sent() == old(Sent()) && biValid == old(biValid) % 8
    {
      hide BytesBits, BitsOf, Shr, Low, Pow2;
      ghost var a := BytesBits(pending);
      if biValid == 16 {
        PutShort(biBuf);
        biBuf, biValid := 0, 0;
        Nothing();
      } else if biValid >= 8 {
        BitsSplit(biBuf, 8, biValid - 8);
        LowByte(pending, biBuf);
        pending := pending + [Low(biBuf, 8)];
        biBuf, biValid := Shr(biBuf, 8), biValid - 8;
        ghost var d, e := BitsOf(old(biBuf), 8), BitsOf(biBuf, biValid);
        Assoc(a, d, e);
      }
    }

    /** bi_windup: zeros up to the next byte. */
    method BiWindup()
      requires Valid()
      modifies this
      ensures Valid() && biValid == 0
      ensures Sent() == old(Sent()) + Zeros(Padding(|old(Sent())|))
    {
      hide BytesBits, BitsOf, Low, Pow2;
      ghost var n := if biValid > 8 then 16 - biValid else if biValid > 0 then 8 - biValid else 0;
      ghost var a, b, z := BytesBits(pending), BitsOf(biBuf, biValid), Zeros(n);
      assert n == Padding(|Sent()|);
      PadBits(biBuf, biValid, n);
      Assoc(a, b, z);
      if biValid > 8 {
        PutShort(biBuf);
      } else if biValid > 0 {
        LowByte(pending, biBuf);
        BitsLow(biBuf, 8);
        pending := pending + [Low(biBuf, 8)];
      }
      biBuf, biValid := 0, 0;
      Nothing();
    }
  }

  /** Bits up to the next byte. */
  function Padding(n: nat): (p: nat)
    ensures p < 8 && (n + p) % 8 == 0
  {
    (8 - n % 8) % 8
  }

  lemma Nothing()
    ensures Pow2(0) == 1 && BitsOf(0, 0) == []
  {}

  lemma LowByte(bytes: seq<Byte>, v: nat)
    ensures Low(v, 8) < 256 && BytesBits(bytes + [Low(v, 8)]) == BytesBits(bytes) + BitsOf(v, 8)
  {
    hide BitsOf, BytesBits;
    Pow2Of8();
    LowBound(v, 8);
    BitsLow(v, 8);
    BytesBitsMore(bytes, Low(v, 8));
  }

  lemma PadBits(v: nat, k: nat, n: nat)
    requires v < Pow2(k)
    ensures BitsOf(v, k + n) == BitsOf(v, k) + Zeros(n) && v < Pow2(k + n)
  {
    BitsJoin(v, 0, k, n);
    ZeroBits(n);
    ShlZero(k);
  }

  lemma {:induction false} ShlZero(k: nat)
    ensures Shl(0, k) == 0
  {
    if k > 0 {
      ShlZero(k - 1);
    }
  }

  function Zeros(n: nat): Bits {
    seq(n, _ => false)
  }

  lemma {:induction false} ZeroBits(n: nat)
    ensures BitsOf(0, n) == Zeros(n)
  {
    if n > 0 {
      ZeroBits(n - 1);
    }
  }
}

/** The checksum loops of crc32.c: byte at a time, and four bytes at a time on machines of either byte order. */
module Crc32Loops {
  import opened Crc32
  import opened Crc32Tables

  lemma RegisterNext(c: Word, buf: seq<Byte>, i: nat)
    requires i < |buf|
    ensures Register(c, buf[..i + 1]) == ZeroBits(Xor(Register(c, buf[..i]), Wide(buf[i])), 8)
  {
    hide ZeroBits, Xor, Wide;
    assert buf[..i + 1][..i] == buf[..i];
  }

  lemma RegisterNextWord(c: Word, buf: seq<Byte>, i: nat)
    requires i + 4 <= |buf|
    ensures Register(c, buf[..i + 4])
         == ZeroBits(Xor(Register(c, buf[..i]), Little(buf[i], buf[i + 1], buf[i + 2], buf[i + 3])), 32)
  {
    hide Register, ZeroBits, Xor, Wide, Shl8;
    assert buf[..i + 4] == buf[..i] + [buf[i], buf[i + 1], buf[i + 2], buf[i + 3]];
    RegisterConcat(c, buf[..i], [buf[i], buf[i + 1], buf[i + 2], buf[i + 3]]);
    RegisterWord(Register(c, buf[..i]), buf[i], buf[i + 1], buf[i + 2], buf[i + 3]);
  }

  // ----- one byte -----

  /** DO1: one byte, on a register kept in ordinary byte order. */
  method StepByte(t: Tables, c: Word, b: Byte) returns (r: Word)
    requires t.Valid()
    ensures r == ZeroBits(Xor(c, Wide(b)), 8)
  {
    hide ZeroBits, Wide, Xor, Shr8, Byte0, Lookup, IsTable, IsSwappedTable;
    var x := Xor(c, Wide(b));
    LookupIs(t.t0, 0, Byte0(x));
    TableSizes(t);
    ZeroByteByTable(x);
    ShiftDropsByte(c, b);
    r := Xor(Lookup(t.t0, Byte0(x)), Shr8(c));
  }

  lemma TableSizes(t: Tables)
    requires t.Valid()
    ensures |t.t0| == |t.t1| == |t.t2| == |t.t3| == 256 && |t.s0| == |t.s1| == |t.s2| == |t.s3| == 256
  {}

  lemma ShiftDropsByte(c: Word, b: Byte)
    ensures Shr8(Xor(c, Wide(b))) == Shr8(c)
  {}

  /** The plain loops of crc32_z: eight bytes a round, then the rest. */
  method CrcPlain(t: Tables, crc: Word, buf: seq<Byte>) returns (r: Word)
    requires t.Valid()
    ensures r == Crc(crc, buf)
  {
    hide Register, ZeroBits, Wide, Xor, Not, IsTable, IsSwappedTable;
    var c := Not(crc);
    var i := 0;
    RegisterOfNothing(c, buf);
    while |buf| - i >= 8
      invariant 0 <= i <= |buf| && c == Register(Not(crc), buf[..i])
      decreases |buf| - i
    {
      ghost var start := i;
      for k := 0 to 8
        invariant i == start + k && start + 8 <= |buf| && c == Register(Not(crc), buf[..i])
      {
        RegisterNext(Not(crc), buf, i);
        c := StepByte(t, c, buf[i]);
        i := i + 1;
      }
    }
    c, i := FinishBytes(t, crc, buf, c, i, |buf|);
    r := Not(c);
    assert buf[..|buf|] == buf;
  }

  lemma RegisterOfNothing(c: Word, buf: seq<Byte>)
    ensures Register(c, buf[..0]) == c
  {}

  /** The byte loop that runs up to position `end`. */
  method FinishBytes(t: Tables, ghost crc: Word, buf: seq<Byte>, c0: Word, i0: nat, end: nat) returns (c: Word, i: nat)
    requires t.Valid() && i0 <= end <= |buf| && c0 == Register(Not(crc), buf[..i0])
    ensures i == end && c == Register(Not(crc), buf[..end])
  {
    hide Register, ZeroBits, Wide, Xor, Not, IsTable, IsSwappedTable;
    c, i := c0, i0;
    while i < end
      invariant i0 <= i <= end && c == Register(Not(crc), buf[..i])
    {
      RegisterNext(Not(crc), buf, i);
      c := StepByte(t, c, buf[i]);
      i := i + 1;
    }
  }

  // ----- four bytes, little-endian -----

  /** DOLIT4. */
  method StepLittle(t: Tables, c: Word, word: Word) returns (r: Word)
    requires t.Valid()
    ensures r == ZeroBits(Xor(c, word), 32)
  {
    hide ZeroBits, Wide, Xor, Byte0, Byte1, Byte2, Byte3, Lookup, IsTable, IsSwappedTable;
    var x := Xor(c, word);
    TableSizes(t);
    LookupIs(t.t3, 3, Byte0(x));
    LookupIs(t.t2, 2, Byte1(x));
    LookupIs(t.t1, 1, Byte2(x));
    LookupIs(t.t0, 0, Byte3(x));
    ZeroWordByTables(x);
    r := Xor(Xor(Xor(Lookup(t.t3, Byte0(x)), Lookup(t.t2, Byte1(x))), Lookup(t.t1, Byte2(x))), Lookup(t.t0, Byte3(x)));
  }

  /** How many bytes come before the first word boundary of a buffer at an address that is `address` modulo 4. */
  function Unaligned(address: nat, len: nat): (n: nat)
    requires address < 4
    ensures n <= len && (n < len ==> (address + n) % 4 == 0)
  {
    var n := (4 - address) % 4;
    if n <= len then n else len
  }

  /** crc32_little: bytes up to a word boundary, words by 32 bytes and by four, and the remaining bytes. */
  method CrcLittle(t: Tables, crc: Word, buf: seq<Byte>, address: nat) returns (r: Word)
    requires t.Valid() && address < 4
    ensures r == Crc(crc, buf)
  {
    hide Register, ZeroBits, Wide, Xor, Not, Little, IsTable, IsSwappedTable;
    RegisterOfNothing(Not(crc), buf);
    var c, i := FinishBytes(t, crc, buf, Not(crc), 0, Unaligned(address, |buf|));
    while |buf| - i >= 32
      invariant 0 <= i <= |buf| && c == Register(Not(crc), buf[..i])
      decreases |buf| - i
    {
      ghost var start := i;
      for k := 0 to 8
        invariant i == start + 4 * k && start + 32 <= |buf| && c == Register(Not(crc), buf[..i])
      {
        RegisterNextWord(Not(crc), buf, i);
        c := StepLittle(t, c, Little(buf[i], buf[i + 1], buf[i + 2], buf[i + 3]));
        i := i + 4;
      }
    }
    while |buf| - i >= 4
      invariant 0 <= i <= |buf| && c == Register(Not(crc), buf[..i])
    {
      RegisterNextWord(Not(crc), buf, i);
      c := StepLittle(t, c, Little(buf[i], buf[i + 1], buf[i + 2], buf[i + 3]));
      i := i + 4;
    }
    c, i := FinishBytes(t, crc, buf, c, i, |buf|);
    r := Not(c);
    assert buf[..|buf|] == buf;
  }

  // ----- four bytes, big-endian: the register is kept byte-swapped -----

  lemma SwapLinear(a: Word, b: Word)
    ensures Swap(Xor(a, b)) == Xor(Swap(a), Swap(b))
  {}

  lemma SwapTwice(a: Word)
    ensures Swap(Swap(a)) == a
  {}

  lemma SwapNot(a: Word)
    ensures Swap(Not(a)) == Not(Swap(a))
  {}

  lemma SwapBytes(a: Word)
    ensures Byte0(Swap(a)) == Byte3(a) && Byte1(Swap(a)) == Byte2(a)
    ensures Byte2(Swap(a)) == Byte1(a) && Byte3(Swap(a)) == Byte0(a)
  {}

  lemma SwapLittle(a: Byte, b: Byte, c: Byte, d: Byte)
    ensures Swap(Little(a, b, c, d)) == Little(d, c, b, a)
  {
    hide Swap, Little, Byte0, Byte1, Byte2, Byte3;
    BytesOfLittle(a, b, c, d);
    SwapBytes(Little(a, b, c, d));
    LittleOfBytes(Swap(Little(a, b, c, d)));
  }

  lemma BytesOfLittle(a: Byte, b: Byte, c: Byte, d: Byte)
    ensures var w := Little(a, b, c, d); Byte0(w) == a && Byte1(w) == b && Byte2(w) == c && Byte3(w) == d
  {}

  lemma ShiftLittle(a: Byte, b: Byte, c: Byte, d: Byte)
    ensures Shr8(Little(a, b, c, d)) == Little(b, c, d, 0) && Shl8(Little(a, b, c, d)) == Little(0, a, b, c)
  {}

  lemma SwapShift(w: Word)
    ensures Shl8(Swap(w)) == Swap(Shr8(w))
  {
    hide Swap, Little, Shl8, Shr8, Byte0, Byte1, Byte2, Byte3;
    var a, b, c, d := Byte0(w), Byte1(w), Byte2(w), Byte3(w);
    LittleOfBytes(w);
    SwapLittle(a, b, c, d);
    ShiftLittle(a, b, c, d);
    SwapLittle(b, c, d, 0);
    ShiftLittle(d, c, b, a);
  }

  /** The word at a big-endian address. */
  function Big(a: Byte, b: Byte, c: Byte, d: Byte): Word {
    Little(d, c, b, a)
  }

  lemma BigIsSwapped(a: Byte, b: Byte, c: Byte, d: Byte)
    ensures Big(a, b, c, d) == Swap(Little(a, b, c, d))
  {
    hide Swap, Little;
    SwapLittle(a, b, c, d);
  }

  /** DOBIG4. */
  method StepBig(t: Tables, c: Word, word: Word, ghost c': Word, ghost word': Word) returns (r: Word)
    requires t.Valid() && c == Swap(c') && word == Swap(word')
    ensures r == Swap(ZeroBits(Xor(c', word'), 32))
  {
    hide ZeroBits, Wide, Xor, Swap, Byte0, Byte1, Byte2, Byte3, Lookup, IsTable, IsSwappedTable;
    var x := Xor(c, word);
    ghost var y := Xor(c', word');
    SwapLinear(c', word');
    SwapBytes(y);
    TableSizes(t);
    SwappedLookupIs(t.s0, 0, Byte0(x));
    SwappedLookupIs(t.s1, 1, Byte1(x));
    SwappedLookupIs(t.s2, 2, Byte2(x));
    SwappedLookupIs(t.s3, 3, Byte3(x));
    ZeroWordByTables(y);
    SwapOfFour(ZeroBits(Wide(Byte0(y)), 32), ZeroBits(Wide(Byte1(y)), 24), ZeroBits(Wide(Byte2(y)), 16),
      ZeroBits(Wide(Byte3(y)), 8));
    r := Xor(Xor(Xor(Lookup(t.s0, Byte0(x)), Lookup(t.s1, Byte1(x))), Lookup(t.s2, Byte2(x))), Lookup(t.s3, Byte3(x)));
  }

  lemma SwapOfFour(a: Word, b: Word, c: Word, d: Word)
    ensures Swap(Xor(Xor(Xor(a, b), c), d)) == Xor(Xor(Xor(Swap(d), Swap(c)), Swap(b)), Swap(a))
  {
    hide Swap, Xor;
    SwapLinear(Xor(Xor(a, b), c), d);
    SwapLinear(Xor(a, b), c);
    SwapLinear(a, b);
    ReverseFour(Swap(a), Swap(b), Swap(c), Swap(d));
  }

  lemma ReverseFour(a: Word, b: Word, c: Word, d: Word)
    ensures Xor(Xor(Xor(a, b), c), d) == Xor(Xor(Xor(d, c), b), a)
  {
    hide Xor;
    XorComm(Xor(Xor(a, b), c), d);
    XorComm(Xor(a, b), c);
    XorAssoc(d, c, Xor(a, b));
    XorComm(a, b);
    XorAssoc(Xor(d, c), b, a);
  }

  /** One byte on a swapped register. */
  method StepByteBig(t: Tables, c: Word, b: Byte, ghost c': Word) returns (r: Word)
    requires t.Valid() && c == Swap(c')
    ensures r == Swap(ZeroBits(Xor(c', Wide(b)), 8))
  {
    hide ZeroBits, Wide, Xor, Swap, Shr8, Shl8, Byte0, Byte3, Lookup, IsTable, IsSwappedTable;
    ghost var y := Xor(c', Wide(b));
    TableSizes(t);
    SwapBytes(c');
    LowByteXor(c', b);
    SwappedLookupIs(t.s0, 0, XorByte(Byte3(c), b));
    ZeroByteByTable(y);
    ShiftDropsByte(c', b);
    SwapShift(c');
    SwapLinear(ZeroBits(Wide(Byte0(y)), 8), Shr8(c'));
    r := Xor(Lookup(t.s0, XorByte(Byte3(c), b)), Shl8(c));
  }

  function XorByte(a: Byte, b: Byte): Byte {
    a ^ b
  }

  lemma LowByteXor(c: Word, b: Byte)
    ensures Byte0(Xor(c, Wide(b))) == XorByte(Byte0(c), b)
  {}

  method FinishBytesBig(t: Tables, ghost crc: Word, buf: seq<Byte>, c0: Word, i0: nat, end: nat)
      returns (c: Word, i: nat)
    requires t.Valid() && i0 <= end <= |buf| && c0 == Swap(Register(Not(crc), buf[..i0]))
    ensures i == end && c == Swap(Register(Not(crc), buf[..end]))
  {
    hide Register, ZeroBits, Wide, Xor, Swap, Not, IsTable, IsSwappedTable;
    c, i := c0, i0;
    while i < end
      invariant i0 <= i <= end && c == Swap(Register(Not(crc), buf[..i]))
    {
      RegisterNext(Not(crc), buf, i);
      c := StepByteBig(t, c, buf[i], Register(Not(crc), buf[..i]));
      i := i + 1;
    }
  }

  /** One word on a swapped register. */
  method NextBig(t: Tables, ghost crc: Word, buf: seq<Byte>, c: Word, i: nat) returns (r: Word)
    requires t.Valid() && i + 4 <= |buf| && c == Swap(Register(Not(crc), buf[..i]))
    ensures r == Swap(Register(Not(crc), buf[..i + 4]))
  {
    hide Register, ZeroBits, Wide, Xor, Swap, Not, Little, Big, IsTable, IsSwappedTable;
    RegisterNextWord(Not(crc), buf, i);
    BigIsSwapped(buf[i], buf[i + 1], buf[i + 2], buf[i + 3]);
    r := StepBig(t, c, Big(buf[i], buf[i + 1], buf[i + 2], buf[i + 3]), Register(Not(crc), buf[..i]),
                 Little(buf[i], buf[i + 1], buf[i + 2], buf[i + 3]));
  }

  /** crc32_big: as crc32_little, with the register and the tables byte-swapped. */
  method CrcBig(t: Tables, crc: Word, buf: seq<Byte>, address: nat) returns (r: Word)
    requires t.Valid() && address < 4
    ensures r == Crc(crc, buf)
  {
    hide Register, ZeroBits, Xor, Swap, Not, IsTable, IsSwappedTable;
    RegisterOfNothing(Not(crc), buf);
    SwapNot(crc);
    var c, i := FinishBytesBig(t, crc, buf, Not(Swap(crc)), 0, Unaligned(address, |buf|));
    while |buf| - i >= 32
      invariant 0 <= i <= |buf| && c == Swap(Register(Not(crc), buf[..i]))
      decreases |buf| - i
    {
      ghost var start := i;
      for k := 0 to 8
        invariant i == start + 4 * k && start + 32 <= |buf| && c == Swap(Register(Not(crc), buf[..i]))
      {
        c := NextBig(t, crc, buf, c, i);
        i := i + 4;
      }
    }
    while |buf| - i >= 4
      invariant 0 <= i <= |buf| && c == Swap(Register(Not(crc), buf[..i]))
    {
      c := NextBig(t, crc, buf, c, i);
      i := i + 4;
    }
    c, i := FinishBytesBig(t, crc, buf, c, i, |buf|);
    assert buf[..|buf|] == buf;
    SwapNot(c);
    SwapTwice(Register(Not(crc), buf));
    r := Swap(Not(c));
  }

  /** The kinds of machine crc32_z distinguishes, and a missing buffer. */
  datatype Machine = NoWords | LittleEndian | BigEndian

  datatype Buffer = Null | Buffer(data: seq<Byte>, address: nat)

  /** crc32_z: the same checksum on every machine. */
  method CrcZ(t: Tables, machine: Machine, crc: Word, buf: Buffer) returns (r: Word)
    requires t.Valid() && (buf.Buffer? ==> buf.address < 4)
    ensures r == if buf.Null? then 0 else Crc(crc, buf.data)
  {
    hide Crc, IsTable, IsSwappedTable;
    if buf.Null? {
      return 0;
    }
    match machine
    case NoWords => r := CrcPlain(t, crc, buf.data);
    case LittleEndian => r := CrcLittle(t, crc, buf.data, buf.address);
    case BigEndian => r := CrcBig(t, crc, buf.data, buf.address);
  }
}

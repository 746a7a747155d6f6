/** make_crc_table and the table-driven loops of crc32_z, crc32_little and crc32_big. */
module Crc32Tables {
  import opened Crc32

  // ----- bytes of a word -----

  function Byte0(c: Word): Byte {
    (c & 0xff) as Byte
  }

  function Byte1(c: Word): Byte {
    ((c >> 8) & 0xff) as Byte
  }

  function Byte2(c: Word): Byte {
    ((c >> 16) & 0xff) as Byte
  }

  function Byte3(c: Word): Byte {
    (c >> 24) as Byte
  }

  function Shr8(c: Word): Word {
    c >> 8
  }

  function Shl8(c: Word): Word {
    c << 8
  }

  /** The most significant byte is zero. */
  predicate TopClear(x: Word) {
    x & 0xff000000 == 0
  }

  /** The word at a little-endian address. */
  function Little(a: Byte, b: Byte, c: Byte, d: Byte): Word {
    Xor(Wide(a), Xor(Shl8(Wide(b)), Xor(Shl8(Shl8(Wide(c))), Shl8(Shl8(Shl8(Wide(d)))))))
  }

  /** ZSWAP32. */
  function Swap(q: Word): Word {
    ((q >> 24) & 0xff) + ((q >> 8) & 0xff00) + ((q & 0xff00) << 8) + ((q & 0xff) << 24)
  }

  lemma LittleOfBytes(c: Word)
    ensures c == Little(Byte0(c), Byte1(c), Byte2(c), Byte3(c))
  {}

  lemma Bytes(c: Word)
    ensures c == Xor(Wide(Byte0(c)), Shl8(Shr8(c)))
  {}

  lemma EightClearBits(x: Word)
    ensures var y := Shl8(x);
      !Odd(y) && !Odd(Half(y)) && !Odd(Half(Half(y))) && !Odd(Half(Half(Half(y)))) &&
      !Odd(Half(Half(Half(Half(y))))) && !Odd(Half(Half(Half(Half(Half(y)))))) &&
      !Odd(Half(Half(Half(Half(Half(Half(y))))))) && !Odd(Half(Half(Half(Half(Half(Half(Half(y))))))))
  {}

  lemma EightHalves(x: Word)
    requires TopClear(x)
    ensures Half(Half(Half(Half(Half(Half(Half(Half(Shl8(x))))))))) == x
  {}

  /** Eight zero bits after a byte-aligned shift merely undo the shift. */
  lemma ZeroByteOfShifted(x: Word)
    requires TopClear(x)
    ensures ZeroBits(Shl8(x), 8) == x
  {
    var y := Shl8(x);
    EightClearBits(x);
    EightHalves(x);
    hide Odd, Half, Shl8, Xor;
    assert ZeroBits(y, 0) == y;
    assert ZeroBits(y, 1) == Half(y);
    assert ZeroBits(y, 2) == Half(Half(y));
    assert ZeroBits(y, 3) == Half(Half(Half(y)));
    assert ZeroBits(y, 4) == Half(Half(Half(Half(y))));
    assert ZeroBits(y, 5) == Half(Half(Half(Half(Half(y)))));
    assert ZeroBits(y, 6) == Half(Half(Half(Half(Half(Half(y))))));
    assert ZeroBits(y, 7) == Half(Half(Half(Half(Half(Half(Half(y)))))));
  }

  lemma Shr8Small(c: Word)
    ensures TopClear(Shr8(c))
  {}

  /** The byte-at-a-time step: one table lookup and one shift run eight zero bits. */
  lemma ZeroByteByTable(c: Word)
    ensures ZeroBits(c, 8) == Xor(ZeroBits(Wide(Byte0(c)), 8), Shr8(c))
  {
    hide ZeroBits, Xor, Wide, Byte0, Shl8;
    Bytes(c);
    ZeroBitsLinear(Wide(Byte0(c)), Shl8(Shr8(c)), 8);
    Shr8Small(c);
    ZeroByteOfShifted(Shr8(c));
  }

  // ----- four bytes at a time -----

  lemma SmallBytes(b: Byte)
    ensures TopClear(Wide(b)) && TopClear(Shl8(Wide(b))) && TopClear(Shl8(Shl8(Wide(b))))
  {}

  lemma ShiftedByte(x: Word, n: nat)
    requires TopClear(x)
    ensures ZeroBits(Shl8(x), 8 + n) == ZeroBits(x, n)
  {
    hide ZeroBits, Shl8, TopClear;
    ZeroByteOfShifted(x);
    ZeroBitsAdd(Shl8(x), 8, n);
  }

  /** Slicing by four: one lookup per byte of the word runs 32 zero bits. */
  lemma ZeroWordByTables(c: Word)
    ensures ZeroBits(c, 32) == Xor(Xor(Xor(ZeroBits(Wide(Byte0(c)), 32), ZeroBits(Wide(Byte1(c)), 24)),
                                       ZeroBits(Wide(Byte2(c)), 16)), ZeroBits(Wide(Byte3(c)), 8))
  {
    hide ZeroBits, Xor, Wide, Shl8, Byte0, Byte1, Byte2, Byte3;
    var b0, b1, b2, b3 := Byte0(c), Byte1(c), Byte2(c), Byte3(c);
    LittleOfBytes(c);
    ZeroWordOfBytes(b0, b1, b2, b3);
    var z0, z1, z2, z3 := ZeroBits(Wide(b0), 32), ZeroBits(Wide(b1), 24), ZeroBits(Wide(b2), 16), ZeroBits(Wide(b3), 8);
    XorAssoc(z0, z1, Xor(z2, z3));
    XorAssoc(Xor(z0, z1), z2, z3);
  }

  lemma ZeroWordOfBytes(b0: Byte, b1: Byte, b2: Byte, b3: Byte)
    ensures ZeroBits(Little(b0, b1, b2, b3), 32)
         == Xor(ZeroBits(Wide(b0), 32), Xor(ZeroBits(Wide(b1), 24), Xor(ZeroBits(Wide(b2), 16), ZeroBits(Wide(b3), 8))))
  {
    hide ZeroBits, Xor, Wide, Shl8, TopClear;
    var w0, w1, w2, w3 := Wide(b0), Shl8(Wide(b1)), Shl8(Shl8(Wide(b2))), Shl8(Shl8(Shl8(Wide(b3))));
    ZeroBitsLinear(w0, Xor(w1, Xor(w2, w3)), 32);
    ZeroBitsLinear(w1, Xor(w2, w3), 32);
    ZeroBitsLinear(w2, w3, 32);
    SmallBytes(b1);
    ShiftedByte(Wide(b1), 24);
    SmallBytes(b2);
    ShiftedByte(Shl8(Wide(b2)), 24);
    ShiftedByte(Wide(b2), 16);
    SmallBytes(b3);
    ShiftedByte(Shl8(Shl8(Wide(b3))), 24);
    ShiftedByte(Shl8(Wide(b3)), 16);
    ShiftedByte(Wide(b3), 8);
  }

  /** Four bytes through the register are their word through 32 zero bits. */
  lemma RegisterWord(c: Word, b0: Byte, b1: Byte, b2: Byte, b3: Byte)
    ensures Register(c, [b0, b1, b2, b3]) == ZeroBits(Xor(c, Little(b0, b1, b2, b3)), 32)
  {
    hide ZeroBits, Xor, Wide, Shl8, Zero;
    var word := [b0, b1, b2, b3];
    RegisterLinear(Zero(), c, word);
    XorZero(c);
    XorComm(Register(Zero(), word), ZeroBits(c, 32));
    ZeroBitsLinear(c, Little(b0, b1, b2, b3), 32);
    RegisterFromZero(b0, b1, b2, b3);
  }

  lemma RegisterFromZero(b0: Byte, b1: Byte, b2: Byte, b3: Byte)
    ensures Register(Zero(), [b0, b1, b2, b3]) == ZeroBits(Little(b0, b1, b2, b3), 32)
  {
    hide ZeroBits, Xor, Wide, Shl8, Zero;
    var y0, y1, y2 := ZeroBits(Wide(b0), 24), ZeroBits(Wide(b1), 16), ZeroBits(Wide(b2), 8);
    var z0, z1, z2, z3 := ZeroBits(Wide(b0), 32), ZeroBits(Wide(b1), 24), ZeroBits(Wide(b2), 16), ZeroBits(Wide(b3), 8);
    assert [b0, b1, b2, b3][..3] == [b0, b1, b2];
    RegisterThree(b0, b1, b2);
    ZeroBitsLinear(Xor(Xor(y0, y1), y2), Wide(b3), 8);
    ZeroBitsLinear(Xor(y0, y1), y2, 8);
    ZeroBitsLinear(y0, y1, 8);
    ZeroBitsAdd(Wide(b0), 24, 8);
    ZeroBitsAdd(Wide(b1), 16, 8);
    ZeroBitsAdd(Wide(b2), 8, 8);
    ZeroWordOfBytes(b0, b1, b2, b3);
    XorAssoc(z0, z1, Xor(z2, z3));
    XorAssoc(Xor(z0, z1), z2, z3);
  }

  lemma RegisterThree(b0: Byte, b1: Byte, b2: Byte)
    ensures Register(Zero(), [b0, b1, b2])
         == Xor(Xor(ZeroBits(Wide(b0), 24), ZeroBits(Wide(b1), 16)), ZeroBits(Wide(b2), 8))
  {
    hide ZeroBits, Xor, Wide, Zero;
    var y0, y1 := ZeroBits(Wide(b0), 16), ZeroBits(Wide(b1), 8);
    assert [b0, b1, b2][..2] == [b0, b1];
    RegisterTwo(b0, b1);
    ZeroBitsLinear(Xor(y0, y1), Wide(b2), 8);
    ZeroBitsLinear(y0, y1, 8);
    ZeroBitsAdd(Wide(b0), 16, 8);
    ZeroBitsAdd(Wide(b1), 8, 8);
  }

  lemma RegisterTwo(b0: Byte, b1: Byte)
    ensures Register(Zero(), [b0, b1]) == Xor(ZeroBits(Wide(b0), 16), ZeroBits(Wide(b1), 8))
  {
    hide ZeroBits, Xor, Wide, Zero;
    assert [b0, b1][..1] == [b0] && [b0][..0] == [];
    XorZero(Wide(b0));
    assert Register(Zero(), [b0]) == ZeroBits(Wide(b0), 8);
    ZeroBitsLinear(ZeroBits(Wide(b0), 8), Wide(b1), 8);
    ZeroBitsAdd(Wide(b0), 8, 8);
  }

  // ----- make_crc_table -----

  /** The exponents of the CRC polynomial, without 32. */
  function Terms(): seq<nat> {
    [0, 1, 2, 4, 5, 7, 8, 10, 11, 12, 16, 22, 23, 26]
  }

  /** The polynomial after the first `n` terms. */
  function Partial(n: nat): Word {
    match n
    case 0 => 0x0
    case 1 => 0x80000000
    case 2 => 0xc0000000
    case 3 => 0xe0000000
    case 4 => 0xe8000000
    case 5 => 0xec000000
    case 6 => 0xed000000
    case 7 => 0xed800000
    case 8 => 0xeda00000
    case 9 => 0xedb00000
    case 10 => 0xedb80000
    case 11 => 0xedb88000
    case 12 => 0xedb88200
    case 13 => 0xedb88300
    case _ => 0xedb88320
  }

  lemma PartialStep(n: nat)
    requires n < |Terms()|
    ensures Terms()[n] <= 31 && WithTerm(Partial(n), Terms()[n]) == Partial(n + 1)
  {
    hide WithTerm, Partial;
    if n < 5 {
      PartialStepLow(n);
    } else if n < 10 {
      PartialStepMiddle(n);
    } else {
      PartialStepHigh(n);
    }
  }

  lemma PartialStepLow(n: nat)
    requires n < 5
    ensures WithTerm(Partial(n), Terms()[n]) == Partial(n + 1)
  {}

  lemma PartialStepMiddle(n: nat)
    requires 5 <= n < 10
    ensures WithTerm(Partial(n), Terms()[n]) == Partial(n + 1)
  {}

  lemma PartialStepHigh(n: nat)
    requires 10 <= n < 14
    ensures WithTerm(Partial(n), Terms()[n]) == Partial(n + 1)
  {}

  function WithTerm(poly: Word, t: nat): Word
    requires t <= 31
  {
    poly | (1 << (31 - t))
  }

  /** The exclusive-or pattern is computed from the exponents. */
  method MakePoly() returns (poly: Word)
    ensures poly == Poly()
  {
    hide WithTerm;
    poly := 0;
    for n := 0 to |Terms()|
      invariant poly == Partial(n)
    {
      PartialStep(n);
      poly := WithTerm(poly, Terms()[n]);
    }
  }

  /** Eight steps of the bit-serial register. */
  method EightBits(n: Word, poly: Word) returns (c: Word)
    requires poly == Poly()
    ensures c == ZeroBits(n, 8)
  {
    hide Odd, Half, Xor;
    c := n;
    for k := 0 to 8
      invariant c == ZeroBits(n, k)
    {
      c := if Odd(c) then Xor(poly, Half(c)) else Half(c);
    }
  }

  function FromInt(n: nat): Byte
    requires n < 256
  {
    n as Byte
  }

  function Index(b: Byte): (n: nat)
    ensures n < 256
  {
    b as int
  }

  lemma FromIndex(b: Byte)
    ensures FromInt(Index(b)) == b
  {}

  /** Entry `n` of a table. */
  function Lookup(table: seq<Word>, b: Byte): Word
    requires |table| == 256
  {
    table[Index(b)]
  }

  /** Entry b of the k-th table is the register after byte b and k zero bytes. */
  ghost predicate IsTable(table: seq<Word>, k: nat) {
    |table| == 256 && forall n: nat :: n < 256 ==> table[n] == ZeroBits(Wide(FromInt(n)), 8 * (k + 1))
  }

  ghost predicate IsSwappedTable(table: seq<Word>, k: nat) {
    |table| == 256 && forall n: nat :: n < 256 ==> table[n] == Swap(ZeroBits(Wide(FromInt(n)), 8 * (k + 1)))
  }

  lemma LookupIs(table: seq<Word>, k: nat, b: Byte)
    requires IsTable(table, k)
    ensures Lookup(table, b) == ZeroBits(Wide(b), 8 * (k + 1))
  {
    hide ZeroBits, Wide, FromInt, Index;
    FromIndex(b);
  }

  lemma SwappedLookupIs(table: seq<Word>, k: nat, b: Byte)
    requires IsSwappedTable(table, k)
    ensures Lookup(table, b) == Swap(ZeroBits(Wide(b), 8 * (k + 1)))
  {
    hide ZeroBits, Wide, FromInt, Index, Swap;
    FromIndex(b);
  }

  /** crc_table[0]: the register after every single byte. */
  method MakeFirstTable() returns (table: seq<Word>)
    ensures IsTable(table, 0)
  {
    hide ZeroBits, Wide, FromInt;
    var poly := MakePoly();
    table := [];
    for n := 0 to 256
      invariant |table| == n
      invariant forall i: nat :: i < n ==> table[i] == ZeroBits(Wide(FromInt(i)), 8)
    {
      var c := EightBits(Wide(FromInt(n)), poly);
      table := table + [c];
    }
  }

  /** The next table: every entry is run through one more zero byte, by lookup in the first. */
  method MakeNextTable(first: seq<Word>, table: seq<Word>, ghost k: nat) returns (next: seq<Word>)
    requires IsTable(first, 0) && IsTable(table, k)
    ensures IsTable(next, k + 1)
  {
    hide ZeroBits, Wide, FromInt, Xor, Shr8, Byte0;
    next := [];
    for n := 0 to 256
      invariant |next| == n
      invariant forall i: nat :: i < n ==> next[i] == ZeroBits(Wide(FromInt(i)), 8 * (k + 2))
    {
      var c := table[n];
      LookupIs(first, 0, Byte0(c));
      ZeroByteByTable(c);
      ZeroBitsAdd(Wide(FromInt(n)), 8 * (k + 1), 8);
      next := next + [Xor(Lookup(first, Byte0(c)), Shr8(c))];
    }
  }

  method SwapTable(table: seq<Word>, ghost k: nat) returns (swapped: seq<Word>)
    requires IsTable(table, k)
    ensures IsSwappedTable(swapped, k)
  {
    hide ZeroBits, Wide, FromInt, Swap;
    swapped := [];
    for n := 0 to 256
      invariant |swapped| == n
      invariant forall i: nat :: i < n ==> swapped[i] == Swap(table[i])
    {
      swapped := swapped + [Swap(table[n])];
    }
  }

  /** The eight tables of make_crc_table: four plain ones and their byte-swapped copies. */
  datatype Tables = Tables(t0: seq<Word>, t1: seq<Word>, t2: seq<Word>, t3: seq<Word>,
                           s0: seq<Word>, s1: seq<Word>, s2: seq<Word>, s3: seq<Word>)
  {
    ghost predicate Valid() {
      && IsTable(t0, 0) && IsTable(t1, 1) && IsTable(t2, 2) && IsTable(t3, 3)
      && IsSwappedTable(s0, 0) && IsSwappedTable(s1, 1) && IsSwappedTable(s2, 2) && IsSwappedTable(s3, 3)
    }
  }

  method MakeTables() returns (t: Tables)
    ensures t.Valid()
  {
    hide IsTable, IsSwappedTable;
    var t0 := MakeFirstTable();
    var t1 := MakeNextTable(t0, t0, 0);
    var t2 := MakeNextTable(t0, t1, 1);
    var t3 := MakeNextTable(t0, t2, 2);
    var s0 := SwapTable(t0, 0);
    var s1 := SwapTable(t1, 1);
    var s2 := SwapTable(t2, 2);
    var s3 := SwapTable(t3, 3);
    t := Tables(t0, t1, t2, t3, s0, s1, s2, s3);
  }
}

/**
  The rolling hash of the deflate dictionary.  A key covers exactly the last three
  bytes because three shifts push the oldest byte out of the mask.
 */
module DeflateHash {
  import opened Lz77
  import opened BitArith

  /** hash_bits is memLevel + 7 for memLevel 1..9. */
  predicate ValidBits(bits: nat) {
    8 <= bits <= 16
  }

  function HashShift(bits: nat): nat {
    (bits + MIN_MATCH - 1) / MIN_MATCH
  }

  /** UPDATE_HASH: shift by hash_shift, exclusive-or with the next byte, mask to hash_bits. */
  function Update(bits: nat, h: nat, c: Byte): nat {
    Low(Xor(Shl(h, HashShift(bits)), c), bits)
  }

  lemma UpdateThenShift(bits: nat, h: nat, c: Byte, t: nat)
    ensures Low(Shl(Update(bits, h, c), t), bits)
         == Xor(Low(Shl(h, HashShift(bits) + t), bits), Low(Shl(c, t), bits))
  {
    var s := HashShift(bits);
    var x := Xor(Shl(h, s), c);
    LowIdempotent(x, bits);
    LowThenShl(Low(x, bits), x, t, bits);
    ShlXor(Shl(h, s), c, t);
    ShlAdd(h, s, t);
    LowXor(Shl(h, s + t), Shl(c, t), bits);
  }

  /** Any two running keys that agree after one shift give the same next key. */
  lemma UpdateAgrees(bits: nat, h: nat, g: nat, c: Byte)
    requires Low(Shl(h, HashShift(bits)), bits) == Low(Shl(g, HashShift(bits)), bits)
    ensures Update(bits, h, c) == Update(bits, g, c)
  {
    LowXor(Shl(h, HashShift(bits)), c, bits);
    LowXor(Shl(g, HashShift(bits)), c, bits);
  }

  lemma HashForgetsOldestByte(bits: nat, a: Byte, b: Byte, c: Byte, d: Byte)
    requires ValidBits(bits)
    ensures Update(bits, Update(bits, Update(bits, a, b), c), d) == Update(bits, Update(bits, b, c), d)
  {
    var s := HashShift(bits);
    var u := Update(bits, a, b);
    UpdateThenShift(bits, u, c, s);
    UpdateThenShift(bits, b, c, s);
    UpdateThenShift(bits, a, b, s + s);
    ShlOut(a, s + (s + s), bits);
    UpdateAgrees(bits, Update(bits, u, c), Update(bits, b, c), d);
  }

  /** The third byte need not be compared: equal keys and two equal bytes force it, as hash_bits >= 8. */
  lemma UpdateInjective(bits: nat, h: nat, c: Byte, d: Byte)
    requires ValidBits(bits)
    requires Update(bits, h, c) == Update(bits, h, d)
    ensures c == d
  {
    var x := Low(Shl(h, HashShift(bits)), bits);
    LowXor(Shl(h, HashShift(bits)), c, bits);
    LowXor(Shl(h, HashShift(bits)), d, bits);
    Pow2AtLeast256(bits);
    LowSmall(c, bits);
    LowSmall(d, bits);
    XorCancels(x, c);
    XorCancels(x, d);
  }

  lemma {:induction false} Pow2AtLeast256(bits: nat)
    requires bits >= 8
    ensures Pow2(bits) >= 256
  {
    if bits == 8 {
      assert Pow2(4) == 16;
    } else {
      Pow2AtLeast256(bits - 1);
    }
  }

  /** The hash function as a table: row h gives the keys that follow running key h, by next byte. */
  type Table = seq<seq<nat>>

  function Row(next: Table, h: nat): seq<nat> {
    if h < |next| then next[h] else []
  }

  function Next(next: Table, h: nat, c: Byte): nat {
    if c < |Row(next, h)| then Row(next, h)[c] else 0
  }

  /** The dictionary key of a three-byte string: ins_h starts as the first byte. */
  function Key(next: Table, a: Byte, b: Byte, c: Byte): nat {
    Next(next, Next(next, a, b), c)
  }

  /** A running key `k` is as good as one computed from the two bytes a, b alone. */
  ghost predicate Primed(next: Table, k: nat, a: Byte, b: Byte) {
    k < |next| && Row(next, k) == Row(next, Next(next, a, b))
  }

  ghost predicate IsTable(bits: nat, next: Table) {
    && |next| == Pow2(bits)
    && forall k: nat, c: Byte :: k < |next| ==> Next(next, k, c) == Update(bits, k, c)
  }

  /** What the matcher needs of its hash: keys index the head table, the oldest byte is forgotten, and the newest
      byte is determined by the key and its predecessor. */
  ghost predicate Sound(next: Table) {
    && |next| >= 256
    && (forall k: nat, c: Byte :: Next(next, k, c) < |next|)
    && (forall a: Byte, b: Byte, c: Byte :: Primed(next, Key(next, a, b, c), b, c))
    && (forall k: nat, c: Byte, d: Byte :: k < |next| && Next(next, k, c) == Next(next, k, d) ==> c == d)
  }

  ghost function HashTable(bits: nat): Table {
    seq(Pow2(bits), k requires 0 <= k => seq(256, c requires 0 <= c < 256 => Update(bits, k, c)))
  }

  /** zlib's hash function is sound for every memory level. */
  lemma HashTableSound(bits: nat)
    requires ValidBits(bits)
    ensures IsTable(bits, HashTable(bits)) && Sound(HashTable(bits))
  {
    var next := HashTable(bits);
    Pow2AtLeast256(bits);
    forall k: nat, c: Byte
      ensures Next(next, k, c) < |next|
    {
      LowBound(Xor(Shl(k, HashShift(bits)), c), bits);
    }
    forall a: Byte, b: Byte, c: Byte
      ensures Primed(next, Key(next, a, b, c), b, c)
    {
      RowsAgree(bits, a, b, c);
    }
    forall k: nat, c: Byte, d: Byte | k < |next| && Next(next, k, c) == Next(next, k, d)
      ensures c == d
    {
      UpdateInjective(bits, k, c, d);
    }
  }

  lemma RowsAgree(bits: nat, a: Byte, b: Byte, c: Byte)
    requires ValidBits(bits)
    ensures Primed(HashTable(bits), Key(HashTable(bits), a, b, c), b, c)
  {
    var next := HashTable(bits);
    Pow2AtLeast256(bits);
    LowBound(Xor(Shl(a, HashShift(bits)), b), bits);
    LowBound(Xor(Shl(b, HashShift(bits)), c), bits);
    LowBound(Xor(Shl(Update(bits, a, b), HashShift(bits)), c), bits);
    var k, g := Key(next, a, b, c), Next(next, b, c);
    assert k == Update(bits, Update(bits, a, b), c) && g == Update(bits, b, c);
    forall d | 0 <= d < 256
      ensures Row(next, k)[d] == Row(next, g)[d]
    {
      HashForgetsOldestByte(bits, a, b, c, d);
    }
  }

  /** One UPDATE_HASH with a primed register gives the key and primes it for the next string. */
  lemma HashStep(next: Table, k: nat, a: Byte, b: Byte, c: Byte)
    requires Sound(next) && Primed(next, k, a, b)
    ensures Next(next, k, c) == Key(next, a, b, c) < |next|
    ensures Primed(next, Key(next, a, b, c), b, c)
  {}

  lemma KeyBound(next: Table, a: Byte, b: Byte, c: Byte)
    requires Sound(next)
    ensures Key(next, a, b, c) < |next|
  {}

  /** The third byte need not be compared when the keys and the first two bytes agree. */
  lemma ThirdByte(next: Table, a: Byte, b: Byte, c: Byte, d: Byte)
    requires Sound(next) && Key(next, a, b, c) == Key(next, a, b, d)
    ensures c == d
  {}
}

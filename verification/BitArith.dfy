/** Exclusive-or, left shift and low-bit masks of natural numbers, defined bit by bit. */
module BitArith {

  function Pow2(n: nat): (p: nat)
    ensures p > 0
  {
    if n == 0 then 1 else 2 * Pow2(n - 1)
  }

  function Bit(a: nat): nat {
    a % 2
  }

  function Half(a: nat): nat {
    a / 2
  }

  function Xor(a: nat, b: nat): nat
    decreases a
  {
    if a == 0 then b
    else if Bit(a) == Bit(b) then 2 * Xor(Half(a), Half(b))
    else 1 + 2 * Xor(Half(a), Half(b))
  }

  /** The low `k` bits of `a`. */
  function Low(a: nat, k: nat): nat
    decreases k
  {
    if k == 0 then 0 else Bit(a) + 2 * Low(Half(a), k - 1)
  }

  /** `a` shifted left by `s` bits. */
  function Shl(a: nat, s: nat): nat
    decreases s
  {
    if s == 0 then a else 2 * Shl(a, s - 1)
  }

  lemma {:induction false} Join(d: nat, h: nat)
    requires d < 2
    ensures Bit(d + 2 * h) == d && Half(d + 2 * h) == h
  {}

  lemma {:induction false} Split(a: nat)
    ensures a == Bit(a) + 2 * Half(a) && Bit(a) < 2
  {}

  lemma {:induction false} SameParts(x: nat, y: nat)
    requires Bit(x) == Bit(y) && Half(x) == Half(y)
    ensures x == y
  {
    Split(x);
    Split(y);
  }

  lemma {:induction false} XorParts(a: nat, b: nat)
    ensures Bit(Xor(a, b)) == if Bit(a) == Bit(b) then 0 else 1
    ensures Half(Xor(a, b)) == Xor(Half(a), Half(b))
  {
    if a == 0 {
      Join(0, 0);
      Split(b);
    } else {
      Join(0, Xor(Half(a), Half(b)));
      Join(1, Xor(Half(a), Half(b)));
    }
  }

  lemma {:induction false} LowParts(a: nat, k: nat)
    requires k > 0
    ensures Bit(Low(a, k)) == Bit(a)
    ensures Half(Low(a, k)) == Low(Half(a), k - 1)
  {
    Join(Bit(a), Low(Half(a), k - 1));
  }

  lemma {:induction false} LowBound(a: nat, k: nat)
    ensures Low(a, k) < Pow2(k)
    decreases k
  {
    if k > 0 {
      LowBound(Half(a), k - 1);
    }
  }

  lemma {:induction false} LowSmall(a: nat, k: nat)
    requires a < Pow2(k)
    ensures Low(a, k) == a
    decreases k
  {
    if k > 0 {
      Split(a);
      LowSmall(Half(a), k - 1);
    }
  }

  lemma {:induction false} LowIdempotent(a: nat, k: nat)
    ensures Low(Low(a, k), k) == Low(a, k)
    decreases k
  {
    if k > 0 {
      LowParts(a, k);
      LowIdempotent(Half(a), k - 1);
    }
  }

  lemma {:induction false} LowShorter(a: nat, b: nat, k: nat)
    requires k > 0 && Low(a, k) == Low(b, k)
    ensures Low(a, k - 1) == Low(b, k - 1)
    decreases k
  {
    if k > 1 {
      LowParts(a, k);
      LowParts(b, k);
      LowShorter(Half(a), Half(b), k - 1);
    }
  }

  lemma {:induction false} XorCancels(x: nat, c: nat)
    ensures Xor(x, Xor(x, c)) == c
    decreases x
  {
    if x > 0 {
      var y := Xor(x, c);
      XorParts(x, c);
      XorParts(x, y);
      XorCancels(Half(x), Half(c));
      SameParts(Xor(x, y), c);
    }
  }

  lemma {:induction false} LowXor(a: nat, b: nat, k: nat)
    ensures Low(Xor(a, b), k) == Xor(Low(a, k), Low(b, k))
    decreases k
  {
    if k > 0 {
      var x, a', b' := Xor(a, b), Low(a, k), Low(b, k);
      XorParts(a, b);
      LowParts(x, k);
      LowParts(a, k);
      LowParts(b, k);
      XorParts(a', b');
      LowXor(Half(a), Half(b), k - 1);
      SameParts(Low(x, k), Xor(a', b'));
    }
  }

  lemma {:induction false} ShlXor(a: nat, b: nat, s: nat)
    ensures Shl(Xor(a, b), s) == Xor(Shl(a, s), Shl(b, s))
    decreases s
  {
    if s > 0 {
      ShlXor(a, b, s - 1);
      var x, y := Shl(a, s - 1), Shl(b, s - 1);
      Join(0, x);
      Join(0, y);
      Join(0, Xor(x, y));
      XorParts(2 * x, 2 * y);
      SameParts(2 * Xor(x, y), Xor(2 * x, 2 * y));
    }
  }

  lemma {:induction false} ShlAdd(a: nat, s: nat, t: nat)
    ensures Shl(Shl(a, s), t) == Shl(a, s + t)
    decreases t
  {
    if t > 0 {
      ShlAdd(a, s, t - 1);
    }
  }

  /** A shift by at least the width of the mask leaves nothing under the mask. */
  lemma {:induction false} ShlOut(a: nat, s: nat, k: nat)
    requires k <= s
    ensures Low(Shl(a, s), k) == 0
    decreases k
  {
    if k > 0 {
      ShlOut(a, s - 1, k - 1);
      Join(0, Shl(a, s - 1));
    }
  }

  /** Bits that a mask drops cannot come back through a left shift. */
  lemma {:induction false} LowThenShl(a: nat, b: nat, s: nat, k: nat)
    requires Low(a, k) == Low(b, k)
    ensures Low(Shl(a, s), k) == Low(Shl(b, s), k)
    decreases s
  {
    if s > 0 && k > 0 {
      LowThenShl(a, b, s - 1, k);
      var x, y := Shl(a, s - 1), Shl(b, s - 1);
      LowShorter(x, y, k);
      Join(0, x);
      Join(0, y);
    }
  }
}

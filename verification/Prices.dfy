/** The numbers of bits that build_tree and gen_bitlen of zlib/trees.c add to opt_len and static_len. */
module Prices {

  /** The parts of static_tree_desc: the static tree, if any, and the extra bits of the symbols from `base` on. */
  datatype Desc = Desc(hasStatic: bool, staticLens: seq<nat>, extraBits: seq<nat>, base: nat) {
    predicate Fits(elems: nat) {
      base + |extraBits| >= elems && (hasStatic ==> |staticLens| >= elems)
    }

    function Extra(n: nat): nat {
      if base <= n < base + |extraBits| then extraBits[n - base] else 0
    }

    /** The bits of a symbol with the static tree. */
    function StaticBits(n: nat): nat {
      if hasStatic && n < |staticLens| then staticLens[n] + Extra(n) else 0
    }
  }

  /** The bits for all occurrences of the first `n` symbols, with codes of these lengths. */
  function PriceSum(freq: seq<nat>, desc: Desc, lens: seq<nat>, n: nat): nat
    requires n <= |freq| && n <= |lens|
  {
    if n == 0 then 0 else PriceSum(freq, desc, lens, n - 1) + freq[n - 1] * (lens[n - 1] + desc.Extra(n - 1))
  }

  /** The same with the static tree. */
  function StaticSum(freq: seq<nat>, desc: Desc, n: nat): nat
    requires n <= |freq|
  {
    if n == 0 then 0 else StaticSum(freq, desc, n - 1) + freq[n - 1] * desc.StaticBits(n - 1)
  }

  lemma TimesOneMore(a: nat, b: nat)
    ensures (a + 1) * b == a * b + b
  {}

  /** A symbol occurs once more. */
  lemma {:induction false} OncePrice(freq: seq<nat>, desc: Desc, lens: seq<nat>, x: nat, n: nat)
    requires x < |freq| && n <= |freq| && n <= |lens|
    ensures PriceSum(freq[x := freq[x] + 1], desc, lens, n)
         == PriceSum(freq, desc, lens, n) + if x < n then lens[x] + desc.Extra(x) else 0
    ensures StaticSum(freq[x := freq[x] + 1], desc, n)
         == StaticSum(freq, desc, n) + if x < n then desc.StaticBits(x) else 0
    decreases n
  {
    hide Desc.Extra, Desc.StaticBits;
    if n > 0 {
      OncePrice(freq, desc, lens, x, n - 1);
      if x == n - 1 {
        TimesOneMore(freq[x], lens[x] + desc.Extra(x));
        TimesOneMore(freq[x], desc.StaticBits(x));
      }
    }
  }

  lemma {:induction false} NoPrice(freq: seq<nat>, desc: Desc, lens: seq<nat>, n: nat)
    requires n <= |freq| && n <= |lens| && forall x :: 0 <= x < n ==> freq[x] == 0
    ensures PriceSum(freq, desc, lens, n) == 0
    decreases n
  {
    if n > 0 {
      NoPrice(freq, desc, lens, n - 1);
    }
  }

  /** Only the first `n` symbols count. */
  lemma {:induction false} PriceFrame(freq: seq<nat>, freq': seq<nat>, desc: Desc, lens: seq<nat>, lens': seq<nat>,
                                      n: nat)
    requires n <= |freq| && n <= |freq'| && n <= |lens| && n <= |lens'|
    requires forall x :: 0 <= x < n ==> freq'[x] == freq[x] && lens'[x] == lens[x]
    ensures PriceSum(freq', desc, lens', n) == PriceSum(freq, desc, lens, n)
    ensures StaticSum(freq', desc, n) == StaticSum(freq, desc, n)
    decreases n
  {
    hide Desc.Extra, Desc.StaticBits;
    if n > 0 {
      PriceFrame(freq, freq', desc, lens, lens', n - 1);
    }
  }

  /** The static tree is a tree like others. */
  lemma {:induction false} StaticIsPrice(freq: seq<nat>, desc: Desc, n: nat)
    requires n <= |freq| && desc.hasStatic && n <= |desc.staticLens|
    ensures StaticSum(freq, desc, n) == PriceSum(freq, desc, desc.staticLens, n)
    decreases n
  {
    if n > 0 {
      StaticIsPrice(freq, desc, n - 1);
    }
  }
}

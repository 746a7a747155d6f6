/**
  Length and distance codes of section 3.2.5 of RFC 1951, and the tables that tr_static_init of zlib/trees.c builds for
  them. Lengths are less 3 and distances less 1, as in the source.
 */
module DeflateTables {
  import opened BitArith
  import opened HuffmanCodes

  const LENGTH_CODES: nat := 29
  const D_CODES: nat := 30

  /** extra_lbits. */
  function ExtraL(c: nat): nat {
    if c < 8 || c >= 28 then 0 else c / 4 - 1
  }

  /** extra_dbits. */
  function ExtraD(c: nat): nat {
    if c < 2 then 0 else c / 2 - 1
  }

  /** The first length of a code: each code has as many lengths as its extra bits can tell apart. */
  function BaseL(c: nat): nat {
    if c == 0 then 0 else BaseL(c - 1) + Pow2(ExtraL(c - 1))
  }

  function BaseD(c: nat): nat {
    if c == 0 then 0 else BaseD(c - 1) + Pow2(ExtraD(c - 1))
  }

  /** The tables of the standard in closed form: 4 to 7 times a power of two for lengths. */
  lemma {:induction false} BaseLIs(k: nat)
    requires 1 <= k <= 7
    ensures BaseL(4 * k) == 4 * Pow2(k - 1)
    ensures k < 7 ==> BaseL(4 * k + 1) == 5 * Pow2(k - 1) && BaseL(4 * k + 2) == 6 * Pow2(k - 1)
    ensures k < 7 ==> BaseL(4 * k + 3) == 7 * Pow2(k - 1)
    decreases k
  {
    if k == 1 {
      assert BaseL(1) == 1 && BaseL(2) == 2 && BaseL(3) == 3 && BaseL(4) == 4 && Pow2(0) == 1;
    } else {
      BaseLIs(k - 1);
      assert ExtraL(4 * k - 1) == k - 2;
    }
    if k < 7 {
      assert ExtraL(4 * k) == ExtraL(4 * k + 1) == ExtraL(4 * k + 2) == k - 1;
    }
  }

  /** And 2 or 3 times a power of two for distances. */
  lemma {:induction false} BaseDIs(k: nat)
    requires 1 <= k
    ensures BaseD(2 * k) == 2 * Pow2(k - 1) && BaseD(2 * k + 1) == 3 * Pow2(k - 1)
    decreases k
  {
    if k == 1 {
      assert BaseD(1) == 1 && BaseD(2) == 2 && Pow2(0) == 1;
    } else {
      BaseDIs(k - 1);
      assert ExtraD(2 * k - 1) == k - 2;
    }
    assert ExtraD(2 * k) == k - 1;
  }

  lemma {:induction false} BaseLGrows(c: nat, c': nat)
    requires c <= c'
    ensures BaseL(c) <= BaseL(c')
    decreases c'
  {
    if c < c' {
      BaseLGrows(c, c' - 1);
    }
  }

  lemma {:induction false} BaseDGrows(c: nat, c': nat)
    requires c <= c'
    ensures BaseD(c) <= BaseD(c')
    decreases c'
  {
    if c < c' {
      BaseDGrows(c, c' - 1);
    }
  }

  /** The code `c` stands for the length `lc`: together with its extra bits, or alone for the longest. */
  predicate CodesLength(c: nat, lc: nat) {
    if lc == 255 then c == 28 else c < 28 && BaseL(c) <= lc < BaseL(c) + Pow2(ExtraL(c))
  }

  predicate CodesDistance(c: nat, d: nat) {
    c < D_CODES && BaseD(c) <= d < BaseD(c) + Pow2(ExtraD(c))
  }

  /** The tables for lengths: every length gets a code that stands for it. */
  method LengthTables() returns (lengthCode: seq<nat>, baseLength: seq<nat>)
    ensures |lengthCode| == 256 && |baseLength| == LENGTH_CODES
    ensures forall lc :: 0 <= lc < 256 ==> CodesLength(lengthCode[lc], lc)
    ensures forall c :: 0 <= c < 28 ==> baseLength[c] == BaseL(c)
  {
    hide BaseL, Within, CodesLength, Pow2;
    lengthCode, baseLength := seq(256, _ => 0), seq(LENGTH_CODES, _ => 0);
    var length := 0;
    FirstBases();
    for code := 0 to 28
      invariant |lengthCode| == 256 && |baseLength| == LENGTH_CODES && length == BaseL(code) <= 256
      invariant forall lc :: 0 <= lc < length ==> Within(lengthCode[lc], lc)
      invariant forall c :: 0 <= c < code ==> baseLength[c] == BaseL(c)
    {
      NextL(code);
      baseLength := baseLength[code := length];
      for n := 0 to Pow2(ExtraL(code))
        invariant |lengthCode| == 256 && length == BaseL(code) + n <= 256
        invariant forall lc :: 0 <= lc < length ==> Within(lengthCode[lc], lc)
      {
        WithinNext(code, n);
        assert length < 256;
        lengthCode := lengthCode[length := code];
        length := length + 1;
      }
    }
    ghost var before := lengthCode;
    lengthCode := lengthCode[length - 1 := 28];
    forall lc | 0 <= lc < 256 ensures CodesLength(lengthCode[lc], lc) {
      WithinIs(before[lc], lc);
    }
  }

  lemma WithinNext(c: nat, n: nat)
    requires c < 28 && n < Pow2(ExtraL(c))
    ensures Within(c, BaseL(c) + n)
  {}

  lemma WithinIs(c: nat, lc: nat)
    requires Within(c, lc)
    ensures lc < 255 ==> CodesLength(c, lc)
    ensures CodesLength(28, 255)
  {}

  predicate Within(c: nat, lc: nat) {
    c < 28 && BaseL(c) <= lc < BaseL(c) + Pow2(ExtraL(c))
  }

  lemma FirstBases()
    ensures BaseL(0) == 0 && BaseD(0) == 0 && BaseL(28) == 256 && BaseD(16) == 256 && BaseD(30) == 32768
  {
    assert BaseL(0) == 0 && BaseD(0) == 0;
    hide *;
    BaseLIs(7);
    BaseDIs(8);
    BaseDIs(15);
    SomePowers();
  }

  lemma SomePowers()
    ensures Pow2(6) == 64 && Pow2(7) == 128 && Pow2(14) == 16384
  {}

  lemma NextL(c: nat)
    requires c < 28
    ensures BaseL(c + 1) == BaseL(c) + Pow2(ExtraL(c)) <= 256
  {
    BaseLGrows(c + 1, 28);
    hide BaseL;
    FirstBases();
  }

  lemma NextD(c: nat, c': nat)
    requires c < c'
    ensures BaseD(c + 1) == BaseD(c) + Pow2(ExtraD(c)) <= BaseD(c')
  {
    BaseDGrows(c + 1, c');
  }

  /** The entry of a distance in the table: one for each up to 256, and then one for 128 of them. */
  function DCode(distCode: seq<nat>, d: nat): nat
    requires |distCode| == 512 && d < 32768
  {
    if d < 256 then distCode[d] else distCode[256 + d / 128]
  }

  /** The tables for distances. */
  method DistanceTables() returns (distCode: seq<nat>, baseDist: seq<nat>)
    ensures |distCode| == 512 && |baseDist| == D_CODES
    ensures forall d :: 0 <= d < 32768 ==> CodesDistance(DCode(distCode, d), d)
    ensures forall c :: 0 <= c < D_CODES ==> baseDist[c] == BaseD(c)
  {
    hide BaseD, CodesDistance, CodesAll, Pow2, ExtraD;
    distCode, baseDist := seq(512, _ => 0), seq(D_CODES, _ => 0);
    var dist := 0;
    FirstBases();
    for code := 0 to 16
      invariant |distCode| == 512 && |baseDist| == D_CODES && dist == BaseD(code) <= 256
      invariant forall d :: 0 <= d < dist ==> CodesDistance(distCode[d], d)
      invariant forall c :: 0 <= c < code ==> baseDist[c] == BaseD(c)
    {
      NextD(code, 16);
      baseDist := baseDist[code := dist];
      for n := 0 to Pow2(ExtraD(code))
        invariant |distCode| == 512 && dist == BaseD(code) + n <= 256
        invariant forall d :: 0 <= d < dist ==> CodesDistance(distCode[d], d)
      {
        DistanceNext(code, n);
        distCode := distCode[dist := code];
        dist := dist + 1;
      }
    }
    distCode, baseDist := FarDistances(distCode, baseDist, dist / 128);
    forall d | 0 <= d < 32768 ensures CodesDistance(DCode(distCode, d), d) {
      if d >= 256 {
        assert CodesAll(distCode[256 + d / 128], 256 + d / 128 - 256);
        OneOfAll(distCode[256 + d / 128], d);
      }
    }
  }

  /** The second half of the table, in steps of 128. */
  method FarDistances(distCode0: seq<nat>, baseDist0: seq<nat>, dist0: nat)
      returns (distCode: seq<nat>, baseDist: seq<nat>)
    requires |distCode0| == 512 && |baseDist0| == D_CODES && dist0 == 2
    requires forall d :: 0 <= d < 256 ==> CodesDistance(distCode0[d], d)
    requires forall c :: 0 <= c < 16 ==> baseDist0[c] == BaseD(c)
    ensures |distCode| == 512 && |baseDist| == D_CODES
    ensures forall d :: 0 <= d < 256 ==> CodesDistance(distCode[d], d)
    ensures forall p :: 258 <= p < 512 ==> CodesAll(distCode[p], p - 256)
    ensures forall c :: 0 <= c < D_CODES ==> baseDist[c] == BaseD(c)
  {
    hide BaseD, CodesDistance, CodesAll, Pow2, ExtraD;
    distCode, baseDist := distCode0, baseDist0;
    var dist := dist0;
    FirstBases();
    for code := 16 to D_CODES
      invariant |distCode| == 512 && |baseDist| == D_CODES && 2 <= dist <= 256 && 128 * dist == BaseD(code)
      invariant forall d :: 0 <= d < 256 ==> CodesDistance(distCode[d], d)
      invariant forall p :: 258 <= p < 256 + dist ==> CodesAll(distCode[p], p - 256)
      invariant forall c :: 0 <= c < code ==> baseDist[c] == BaseD(c)
    {
      NextD(code, 30);
      Hundreds(code);
      baseDist := baseDist[code := 128 * dist];
      for n := 0 to Pow2(ExtraD(code) - 7)
        invariant |distCode| == 512 && 128 * dist == BaseD(code) + 128 * n && 2 <= dist <= 256
        invariant forall d :: 0 <= d < 256 ==> CodesDistance(distCode[d], d)
        invariant forall p :: 258 <= p < 256 + dist ==> CodesAll(distCode[p], p - 256)
      {
        AllNext(code, n, dist);
        distCode := distCode[256 + dist := code];
        dist := dist + 1;
      }
    }
  }

  lemma DistanceNext(c: nat, n: nat)
    requires c < 16 && n < Pow2(ExtraD(c))
    ensures CodesDistance(c, BaseD(c) + n)
  {}

  lemma AllNext(c: nat, n: nat, dist: nat)
    requires 16 <= c < D_CODES && n < Pow2(ExtraD(c) - 7) && 128 * dist == BaseD(c) + 128 * n
    requires Pow2(ExtraD(c)) == 128 * Pow2(ExtraD(c) - 7)
    ensures CodesAll(c, dist)
  {}

  lemma OneOfAll(c: nat, d: nat)
    requires CodesAll(c, d / 128)
    ensures CodesDistance(c, d)
  {}

  /** The code stands for all distances with these upper bits. */
  predicate CodesAll(c: nat, q: nat) {
    c < D_CODES && BaseD(c) <= 128 * q && 128 * q + 127 < BaseD(c) + Pow2(ExtraD(c))
  }

  lemma Hundreds(c: nat)
    requires 16 <= c < 30
    ensures ExtraD(c) >= 7 && Pow2(ExtraD(c)) == 128 * Pow2(ExtraD(c) - 7)
  {
    var e := ExtraD(c) - 7;
    assert Pow2(e + 7) == 2 * Pow2(e + 6);
    assert Pow2(e + 6) == 2 * Pow2(e + 5) && Pow2(e + 5) == 2 * Pow2(e + 4) && Pow2(e + 4) == 2 * Pow2(e + 3);
    assert Pow2(e + 3) == 2 * Pow2(e + 2) && Pow2(e + 2) == 2 * Pow2(e + 1) && Pow2(e + 1) == 2 * Pow2(e);
  }

  // ----- the static trees -----

  /** The lengths of the static literal tree. */
  function StaticLength(n: nat): nat {
    if n <= 143 then 8 else if n <= 255 then 9 else if n <= 279 then 7 else 8
  }

  /** The fixed lengths of section 3.2.6 of RFC 1951. */
  function StaticL(): Lengths {
    seq(288, i requires 0 <= i < 288 => StaticLength(i))
  }

  function StaticD(): Lengths {
    seq(D_CODES, _ => 5)
  }

  /** A stretch of symbols with one length. */
  lemma {:induction false} Stretch(lens: Lengths, l: nat, n: nat, m: nat)
    requires Limited(lens) && n <= m <= |lens| && 0 < l <= MAX_BITS && forall i :: n <= i < m ==> lens[i] == l
    ensures Shorter(lens, MAX_BITS + 1, m) == Shorter(lens, MAX_BITS + 1, n) + (m - n) * Weight(l)
    ensures forall k :: Same(lens, k, m) == Same(lens, k, n) + if k == l then m - n else 0
    decreases m
  {
    if n < m {
      Stretch(lens, l, n, m - 1);
      OneMoreTime(m - 1 - n, Weight(l));
    }
  }

  lemma StaticShares(lens: Lengths)
    requires |lens| == 288 && forall i :: 0 <= i < 288 ==> lens[i] == StaticLength(i)
    ensures Limited(lens) && Kraft(lens) == Pow2(MAX_BITS)
    ensures Same(lens, 7, 288) == 24 && Same(lens, 8, 288) == 152 && Same(lens, 9, 288) == 112
    ensures forall k :: k != 7 && k != 8 && k != 9 ==> Same(lens, k, 288) == 0
  {
    hide Pow2;
    Stretch(lens, 8, 0, 144);
    Stretch(lens, 9, 144, 256);
    Stretch(lens, 7, 256, 280);
    Stretch(lens, 8, 280, 288);
    SharesAre();
  }

  lemma SharesAre()
    ensures Weight(7) == 256 && Weight(8) == 128 && Weight(9) == 64 && Weight(5) == 1024 && Pow2(MAX_BITS) == 32768
  {
    assert Pow2(5) == 32;
    assert Pow2(10) == 1024;
  }

  /** The static literal tree of tr_static_init. */
  method StaticTree() returns (codes: seq<nat>, lens: Lengths)
    ensures |lens| == 288 && Codable(lens) && Kraft(lens) == Pow2(MAX_BITS) && HasCodes(lens, codes, 288)
    ensures forall i :: 0 <= i < 288 ==> lens[i] == StaticLength(i)
  {
    var count;
    lens, count := StaticLengths();
    StaticShares(lens);
    hide Same, Kraft, HasCodes;
    codes := GenCodes(lens, lens, count);
    assert HasCodes(lens, codes, |lens|);
  }

  /** Its lengths, and how many codes have each. */
  method StaticLengths() returns (lens: Lengths, count: seq<nat>)
    ensures |lens| == 288 && forall i :: 0 <= i < 288 ==> lens[i] == StaticLength(i)
    ensures |count| == 16 && count[8] == 152 && count[9] == 112 && count[7] == 24
    ensures forall k :: 0 <= k < 16 && k != 7 && k != 8 && k != 9 ==> count[k] == 0
  {
    count := seq(MAX_BITS + 1, _ => 0);
    lens := seq(288, _ => 0);
    var n := 0;
    while n <= 143
      invariant 0 <= n <= 144 && |lens| == 288 && forall i :: 0 <= i < n ==> lens[i] == StaticLength(i)
      invariant |count| == 16 && count[8] == n && count[7] == count[9] == 0
      invariant forall k :: 0 <= k < 16 && k != 8 ==> count[k] == 0
    {
      lens, count, n := lens[n := 8], count[8 := count[8] + 1], n + 1;
    }
    while n <= 255
      invariant 144 <= n <= 256 && |lens| == 288 && forall i :: 0 <= i < n ==> lens[i] == StaticLength(i)
      invariant |count| == 16 && count[8] == 144 && count[9] == n - 144
      invariant forall k :: 0 <= k < 16 && k != 8 && k != 9 ==> count[k] == 0
    {
      lens, count, n := lens[n := 9], count[9 := count[9] + 1], n + 1;
    }
    while n <= 279
      invariant 256 <= n <= 280 && |lens| == 288 && forall i :: 0 <= i < n ==> lens[i] == StaticLength(i)
      invariant |count| == 16 && count[8] == 144 && count[9] == 112 && count[7] == n - 256
      invariant forall k :: 0 <= k < 16 && k != 7 && k != 8 && k != 9 ==> count[k] == 0
    {
      lens, count, n := lens[n := 7], count[7 := count[7] + 1], n + 1;
    }
    while n <= 287
      invariant 280 <= n <= 288 && |lens| == 288 && forall i :: 0 <= i < n ==> lens[i] == StaticLength(i)
      invariant |count| == 16 && count[8] == n - 136 && count[9] == 112 && count[7] == 24
      invariant forall k :: 0 <= k < 16 && k != 7 && k != 8 && k != 9 ==> count[k] == 0
    {
      lens, count, n := lens[n := 8], count[8 := count[8] + 1], n + 1;
    }
  }

  /** The static distance tree: five bits each. */
  method StaticDistances() returns (codes: seq<nat>, lens: Lengths)
    ensures |lens| == D_CODES && Codable(lens) && HasCodes(lens, codes, D_CODES)
    ensures forall i :: 0 <= i < D_CODES ==> lens[i] == 5
  {
    lens := seq(D_CODES, _ => 5);
    FiveBits(lens);
    hide *;
    codes := seq(D_CODES, _ => 0);
    NoCodesYet(lens, codes);
    for n := 0 to D_CODES
      invariant |codes| == D_CODES && HasCodes(lens, codes, n)
    {
      OwnNumber(lens, n);
      var r := BiReverse(n, 5);
      OneCodeMore(lens, codes, n, r);
      codes := codes[n := r];
    }
  }

  lemma FiveBits(lens: Lengths)
    requires |lens| == D_CODES && forall i :: 0 <= i < D_CODES ==> lens[i] == 5
    ensures Codable(lens)
  {
    hide Pow2;
    Stretch(lens, 5, 0, 30);
    SharesAre();
  }

  /** The code of a symbol is its own number. */
  lemma OwnNumber(lens: Lengths, n: nat)
    requires |lens| == D_CODES && n < D_CODES && forall i :: 0 <= i < D_CODES ==> lens[i] == 5
    ensures CodeBits(lens, n) == Msb(n, 5)
  {
    Stretch(lens, 5, 0, 30);
    Stretch(lens, 5, 0, n);
    assert Same(lens, 1, 30) == 0 && Same(lens, 2, 30) == 0 && Same(lens, 3, 30) == 0 && Same(lens, 4, 30) == 0;
    assert Same(lens, 5, 0) == 0;
    hide Same, First, Msb;
    FirstZero(lens);
    FirstNext(lens, 1);
    FirstNext(lens, 2);
    FirstNext(lens, 3);
    FirstNext(lens, 4);
    FirstNext(lens, 5);
  }
}

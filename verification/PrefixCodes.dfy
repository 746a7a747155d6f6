/** Prefix codes for symbols, and when a best one has no code beyond a limit. */
module PrefixCodes {
  import opened BitArith
  import opened HuffmanOptimal

  type Code = seq<bool>

  predicate Apart(c: Code, d: Code) {
    !(c <= d) && !(d <= c)
  }

  /** No code is the beginning of another. */
  predicate NoPrefix(cs: seq<Code>) {
    cs == [] || (NoPrefix(cs[1..]) && forall c :: c in cs[1..] ==> Apart(cs[0], c))
  }

  predicate UpTo(cs: seq<Code>, k: nat) {
    forall i :: 0 <= i < |cs| ==> |cs[i]| <= k
  }

  function CodeShares(cs: seq<Code>, k: nat): nat
    requires UpTo(cs, k)
  {
    if cs == [] then 0 else CodeShares(cs[1..], k) + Pow2(k - |cs[0]|)
  }

  /** What comes after the bit `b` in the codes that begin with it. */
  function After(cs: seq<Code>, b: bool): seq<Code>
    requires [] !in cs
  {
    if cs == [] then []
    else
      assert cs[0] in cs;
      (if cs[0][0] == b then [cs[0][1..]] else []) + After(cs[1..], b)
  }

  lemma {:induction false} AfterIn(cs: seq<Code>, b: bool, c: Code)
    requires [] !in cs && c in After(cs, b)
    ensures [b] + c in cs
  {
    if c !in After(cs[1..], b) {
      assert cs[0] in cs;
      assert c == cs[0][1..] && cs[0] == [b] + c;
    } else {
      AfterIn(cs[1..], b, c);
    }
  }

  lemma {:induction false} AfterNoPrefix(cs: seq<Code>, b: bool)
    requires [] !in cs && NoPrefix(cs)
    ensures NoPrefix(After(cs, b))
  {
    if cs != [] {
      AfterNoPrefix(cs[1..], b);
      assert cs[0] in cs;
      var s, rest := After(cs, b), After(cs[1..], b);
      if cs[0][0] == b {
        assert s[1..] == rest && cs[0] == [b] + s[0];
        forall c | c in rest ensures Apart(s[0], c) {
          AfterIn(cs[1..], b, c);
          Behind(b, s[0], c);
          Behind(b, c, s[0]);
        }
      } else {
        assert s == rest;
      }
    }
  }

  lemma Behind(b: bool, c: Code, d: Code)
    ensures c <= d <==> [b] + c <= [b] + d
  {
    if c <= d {
      assert [b] + d == [b] + c + d[|c|..];
    }
    if [b] + c <= [b] + d {
      assert forall i :: 0 <= i < |c| ==> ([b] + c)[i + 1] == c[i] && ([b] + d)[i + 1] == d[i];
    }
  }

  lemma OneCodeMore(c: Code, cs: seq<Code>, k: nat)
    requires UpTo(cs, k) && |c| <= k
    ensures UpTo([c] + cs, k) && CodeShares([c] + cs, k) == CodeShares(cs, k) + Pow2(k - |c|)
  {
    assert ([c] + cs)[1..] == cs;
  }

  lemma {:induction false} SharesAfter(cs: seq<Code>, k: nat)
    requires [] !in cs && UpTo(cs, k) && k > 0
    ensures UpTo(After(cs, false), k - 1) && UpTo(After(cs, true), k - 1)
    ensures CodeShares(cs, k) == CodeShares(After(cs, false), k - 1) + CodeShares(After(cs, true), k - 1)
  {
    if cs != [] {
      assert cs[0] in cs && cs == [cs[0]] + cs[1..];
      SharesAfter(cs[1..], k);
      var b, c := cs[0][0], cs[0][1..];
      assert After(cs, b) == [c] + After(cs[1..], b);
      assert After(cs, !b) == After(cs[1..], !b);
      hide CodeShares, Pow2, After;
      OneCodeMore(cs[0], cs[1..], k);
      OneCodeMore(c, After(cs[1..], b), k - 1);
    }
  }

  /** The inequality of Kraft: the shares of a prefix code are no more than the whole. */
  lemma {:induction false} KraftHolds(cs: seq<Code>, k: nat)
    requires NoPrefix(cs) && UpTo(cs, k)
    ensures CodeShares(cs, k) <= Pow2(k)
    decreases k
  {
    hide After;
    if |cs| <= 1 {
      if cs != [] {
        assert cs[1..] == [];
        hide Pow2;
        Pow2Sum(k - |cs[0]|, |cs[0]|);
        Times(1, Pow2(|cs[0]|), Pow2(k - |cs[0]|));
      }
    } else {
      NoneEmpty(cs);
      hide CodeShares, NoPrefix;
      SharesAfter(cs, k);
      AfterNoPrefix(cs, false);
      AfterNoPrefix(cs, true);
      KraftHolds(After(cs, false), k - 1);
      KraftHolds(After(cs, true), k - 1);
    }
  }

  lemma NoneEmpty(cs: seq<Code>)
    requires NoPrefix(cs) && |cs| >= 2
    ensures [] !in cs && cs[0] != []
  {
    assert Apart(cs[0], cs[1]);
    forall c | c in cs ensures c != [] {
      if c != cs[0] {
        assert c in cs[1..] && Apart(cs[0], c);
      }
    }
  }

  // ----- symbols -----

  /** The number of bits for symbols that occur so many times each. */
  function TotalBits(counts: seq<nat>, lens: seq<nat>, n: nat): nat
    requires n <= |counts| && n <= |lens|
  {
    if n == 0 then 0 else TotalBits(counts, lens, n - 1) + counts[n - 1] * lens[n - 1]
  }

  /** No code of a symbol that occurs is the beginning of that of another one. */
  ghost predicate PrefixCode(counts: seq<nat>, codes: seq<Code>) {
    && |codes| == |counts|
    && forall x, y :: 0 <= x < |counts| && 0 <= y < |counts| && x != y && counts[x] != 0 && counts[y] != 0 ==>
         !(codes[x] <= codes[y])
  }

  function LengthsOf(codes: seq<Code>): (lens: seq<nat>)
    ensures |lens| == |codes| && forall x :: 0 <= x < |codes| ==> lens[x] == |codes[x]|
  {
    seq(|codes|, x requires 0 <= x < |codes| => |codes[x]|)
  }

  /** The symbols that occur among the first `n`, the last one first. */
  function Leaves(counts: seq<nat>, lens: seq<nat>, n: nat): seq<Leaf>
    requires n <= |counts| && n <= |lens|
  {
    if n == 0 then []
    else (if counts[n - 1] != 0 then [Leaf(Node(counts[n - 1], 0), lens[n - 1])] else []) + Leaves(counts, lens, n - 1)
  }

  /** Their codes. */
  function Coded(counts: seq<nat>, codes: seq<Code>, n: nat): seq<Code>
    requires n <= |counts| && n <= |codes|
  {
    if n == 0 then [] else (if counts[n - 1] != 0 then [codes[n - 1]] else []) + Coded(counts, codes, n - 1)
  }

  lemma {:induction false} CodedIn(counts: seq<nat>, codes: seq<Code>, n: nat, c: Code)
    requires n <= |counts| && n <= |codes| && c in Coded(counts, codes, n)
    ensures exists x :: 0 <= x < n && counts[x] != 0 && codes[x] == c
    decreases n
  {
    if c in Coded(counts, codes, n - 1) {
      CodedIn(counts, codes, n - 1, c);
    }
  }

  lemma {:induction false} CodedNoPrefix(counts: seq<nat>, codes: seq<Code>, n: nat)
    requires n <= |counts| && PrefixCode(counts, codes)
    ensures NoPrefix(Coded(counts, codes, n))
    decreases n
  {
    if n > 0 {
      CodedNoPrefix(counts, codes, n - 1);
      var cs, rest := Coded(counts, codes, n), Coded(counts, codes, n - 1);
      if counts[n - 1] != 0 {
        assert cs[1..] == rest && cs[0] == codes[n - 1];
        forall c | c in rest ensures Apart(cs[0], c) {
          CodedIn(counts, codes, n - 1, c);
        }
      } else {
        assert cs == rest;
      }
    }
  }

  lemma {:induction false} LeavesCost(counts: seq<nat>, lens: seq<nat>, n: nat)
    requires n <= |counts| && n <= |lens|
    ensures Cost(Leaves(counts, lens, n)) == TotalBits(counts, lens, n)
    decreases n
  {
    if n > 0 {
      LeavesCost(counts, lens, n - 1);
      var s, rest := Leaves(counts, lens, n), Leaves(counts, lens, n - 1);
      if counts[n - 1] != 0 {
        assert s[1..] == rest;
      } else {
        assert s == rest;
      }
    }
  }

  lemma {:induction false} LeavesShares(counts: seq<nat>, codes: seq<Code>, n: nat, k: nat)
    requires n <= |counts| && n <= |codes| && UpTo(codes, k)
    ensures Within(Leaves(counts, LengthsOf(codes), n), k) && UpTo(Coded(counts, codes, n), k)
    ensures Shares(Leaves(counts, LengthsOf(codes), n), k) == CodeShares(Coded(counts, codes, n), k)
    decreases n
  {
    if n > 0 {
      var lens := LengthsOf(codes);
      LastLeaf(counts, lens, n);
      LastCoded(counts, codes, n);
      assert lens[n - 1] == |codes[n - 1]| <= k;
      hide *;
      LeavesShares(counts, codes, n - 1, k);
      if counts[n - 1] != 0 {
        InFront(Leaf(Node(counts[n - 1], 0), lens[n - 1]), Leaves(counts, lens, n - 1), k);
        OneCodeMore(codes[n - 1], Coded(counts, codes, n - 1), k);
      }
    }
  }

  lemma LastCoded(counts: seq<nat>, codes: seq<Code>, n: nat)
    requires 0 < n <= |counts| && n <= |codes|
    ensures var rest := Coded(counts, codes, n - 1);
      Coded(counts, codes, n) == if counts[n - 1] != 0 then [codes[n - 1]] + rest else rest
  {}

  lemma LastLeaf(counts: seq<nat>, lens: seq<nat>, n: nat)
    requires 0 < n <= |counts| && n <= |lens|
    ensures var rest := Leaves(counts, lens, n - 1);
      Leaves(counts, lens, n) == if counts[n - 1] != 0 then [Leaf(Node(counts[n - 1], 0), lens[n - 1])] + rest else rest
  {}

  lemma {:induction false} LeavesWeights(counts: seq<nat>, lens: seq<nat>, lens': seq<nat>, n: nat)
    requires n <= |counts| && n <= |lens| && n <= |lens'|
    ensures Weights(Leaves(counts, lens, n)) == Weights(Leaves(counts, lens', n))
    decreases n
  {
    hide Weights;
    if n > 0 {
      LastLeaf(counts, lens, n);
      LastLeaf(counts, lens', n);
      hide Leaves;
      LeavesWeights(counts, lens, lens', n - 1);
      if counts[n - 1] != 0 {
        WeightInFront(Leaf(Node(counts[n - 1], 0), lens[n - 1]), Leaves(counts, lens, n - 1));
        WeightInFront(Leaf(Node(counts[n - 1], 0), lens'[n - 1]), Leaves(counts, lens', n - 1));
      }
    }
  }

  lemma {:induction false} SomeLimit(codes: seq<Code>) returns (k: nat)
    ensures UpTo(codes, k)
  {
    k := 0;
    if codes != [] {
      var k' := SomeLimit(codes[1..]);
      k := if k' >= |codes[0]| then k' else |codes[0]|;
      forall i | 0 <= i < |codes| ensures |codes[i]| <= k {
        assert i > 0 ==> codes[i] == codes[1..][i - 1];
      }
    }
  }

  /** The nodes of the symbols that occur. */
  ghost function Symbols(counts: seq<nat>): multiset<Node> {
    Weights(Leaves(counts, counts, |counts|))
  }

  /** No prefix code for these counts has fewer bits. */
  ghost predicate Best(counts: seq<nat>, lens: seq<nat>) {
    |lens| == |counts| && forall codes :: PrefixCode(counts, codes) ==>
      TotalBits(counts, lens, |counts|) <= TotalBits(counts, LengthsOf(codes), |counts|)
  }

  /** No symbol that occurs has a code of more than `max` bits. */
  predicate UpToLimit(counts: seq<nat>, lens: seq<nat>, max: nat) {
    |lens| == |counts| && forall x :: 0 <= x < |counts| && counts[x] != 0 ==> lens[x] <= max
  }

  /** Some best prefix code has no code of more than `max` bits. */
  ghost predicate BestWithin(counts: seq<nat>, max: nat) {
    exists codes ::
      PrefixCode(counts, codes) && Best(counts, LengthsOf(codes)) && UpToLimit(counts, LengthsOf(codes), max)
  }

  lemma CodesFor(counts: seq<nat>, codes: seq<Code>)
    requires PrefixCode(counts, codes)
    ensures |codes| == |counts| == |LengthsOf(codes)|
  {}

  lemma {:induction false} LeavesUnder(counts: seq<nat>, lens: seq<nat>, max: nat, n: nat)
    requires n <= |counts| && UpToLimit(counts, lens, max)
    ensures Under(Leaves(counts, lens, n), max)
    decreases n
  {
    if n > 0 {
      LeavesUnder(counts, lens, max, n - 1);
    }
  }

  lemma {:induction false} UnderLeaves(counts: seq<nat>, lens: seq<nat>, max: nat, n: nat)
    requires n <= |counts| && n <= |lens| && Under(Leaves(counts, lens, n), max)
    ensures forall x :: 0 <= x < n && counts[x] != 0 ==> lens[x] <= max
    decreases n
  {
    if n > 0 {
      var s := Leaves(counts, lens, n);
      LastLeaf(counts, lens, n);
      if counts[n - 1] != 0 {
        assert s[0] == Leaf(Node(counts[n - 1], 0), lens[n - 1]) && s[1..] == Leaves(counts, lens, n - 1);
      }
      UnderLeaves(counts, lens, max, n - 1);
    }
  }

  /** Lengths with shares of no more than the whole cost no less than the fathers weigh, and as much only if high. */
  lemma Bound(counts: seq<nat>, lens: seq<nat>, k: nat, max: nat)
    requires |lens| == |counts| && Fits(Leaves(counts, lens, |counts|), k) && |Symbols(counts)| > 0
    ensures TotalBits(counts, lens, |counts|) >= FatherWeights(Symbols(counts))
    ensures UpToLimit(counts, lens, max) && TotalBits(counts, lens, |counts|) == FatherWeights(Symbols(counts)) ==>
      FinalHeight(Symbols(counts)) <= max
  {
    hide TotalBits, FatherWeights, FinalHeight, Weights, Leaves, Shares, Cost, Fits, Under, UpToLimit;
    var n := |counts|;
    var s := Leaves(counts, lens, n);
    LeavesWeights(counts, lens, counts, n);
    LeavesCost(counts, lens, n);
    WeightsSize(s);
    var h := AnyHeight(s);
    if UpToLimit(counts, lens, max) {
      LeavesUnder(counts, lens, max, n);
      h := max;
    }
    Optimal(s, k, h);
  }

  /** So do prefix codes. */
  lemma CodesBound(counts: seq<nat>, codes: seq<Code>, max: nat)
    requires PrefixCode(counts, codes) && |Symbols(counts)| > 0
    ensures |LengthsOf(codes)| == |counts|
    ensures TotalBits(counts, LengthsOf(codes), |counts|) >= FatherWeights(Symbols(counts))
    ensures var lens := LengthsOf(codes);
      UpToLimit(counts, lens, max) && TotalBits(counts, lens, |counts|) == FatherWeights(Symbols(counts)) ==>
        FinalHeight(Symbols(counts)) <= max
  {
    hide TotalBits, FatherWeights, FinalHeight, Symbols, Leaves, Shares, Coded, CodeShares, NoPrefix, LengthsOf;
    hide UpToLimit;
    var n := |counts|;
    var k := SomeLimit(codes);
    CodesFor(counts, codes);
    CodedNoPrefix(counts, codes, n);
    LeavesShares(counts, codes, n, k);
    KraftHolds(Coded(counts, codes, n), k);
    Bound(counts, LengthsOf(codes), k, max);
  }

  // ----- a best code -----

  /** The nodes with the lengths of these codes. */
  function Coding(s: seq<Leaf>, cs: seq<Code>): (r: seq<Leaf>)
    requires |s| == |cs|
    ensures |r| == |s| && forall i :: 0 <= i < |s| ==> r[i] == Leaf(s[i].n, |cs[i]|)
  {
    seq(|s|, i requires 0 <= i < |s| => Leaf(s[i].n, |cs[i]|))
  }

  ghost predicate Pairwise(cs: seq<Code>) {
    forall i, j :: 0 <= i < |cs| && 0 <= j < |cs| && i != j ==> !(cs[i] <= cs[j])
  }

  /** Where a node comes after two others have got a father, who is first. */
  function Moved(x: nat, p: nat, q': nat): int {
    var x' := if x < p then x else x - 1;
    1 + if x' < q' then x' else x' - 1
  }

  ghost predicate Pair(n: nat, p: nat, q: nat, q': nat) {
    n >= 2 && p < n && q < n && p != q && q == if q' < p then q' else q' + 1
  }

  /** The sons' codes are that of the father and one bit more. */
  ghost function Split(n: nat, cs: seq<Code>, p: nat, q: nat, q': nat): (r: seq<Code>)
    requires Pair(n, p, q, q') && |cs| == n - 1
    ensures |r| == n && r[p] == cs[0] + [false] && r[q] == cs[0] + [true]
    ensures forall x :: 0 <= x < n && x != p && x != q ==> 1 <= Moved(x, p, q') < |cs| && r[x] == cs[Moved(x, p, q')]
  {
    seq(n, x requires 0 <= x < n =>
      if x == p then cs[0] + [false] else if x == q then cs[0] + [true] else cs[Moved(x, p, q')])
  }

  lemma SplitPairwise(n: nat, cs: seq<Code>, p: nat, q: nat, q': nat)
    requires Pair(n, p, q, q') && |cs| == n - 1 && Pairwise(cs)
    ensures Pairwise(Split(n, cs, p, q, q'))
  {
    var r := Split(n, cs, p, q, q');
    hide Split;
    forall i, j | 0 <= i < |r| && 0 <= j < |r| && i != j ensures !(r[i] <= r[j]) {
      var i' := if i == p || i == q then 0 else Moved(i, p, q');
      var j' := if j == p || j == q then 0 else Moved(j, p, q');
      if i' == 0 && j' == 0 {
        assert r[i][|cs[0]|] != r[j][|cs[0]|];
      } else {
        assert i' != j';
        OneBitMore(cs[i'], cs[j'], r[i], r[j]);
      }
    }
  }

  lemma OneBitMore(c: Code, d: Code, c': Code, d': Code)
    requires !(c <= d) && !(d <= c) && (c' == c || c' == c + [false] || c' == c + [true])
    requires d' == d || d' == d + [false] || d' == d + [true]
    ensures !(c' <= d')
  {
    var n := if |c| <= |d| then |c| else |d|;
    assert c[..n] != d[..n];
    var i :| 0 <= i < n && c[i] != d[i];
    assert c'[i] == c[i] && d'[i] == d[i];
  }

  /** The nodes after two of them have got a father. */
  function Joined(s: seq<Leaf>, p: nat, q: nat, q': nat, l: nat): seq<Leaf>
    requires p < |s| && q < |s| && q' < |s| - 1
  {
    [Leaf(FatherNode(s[p].n, s[q].n), l)] + Without(Without(s, p), q')
  }

  lemma JoinedAt(s: seq<Leaf>, p: nat, q: nat, q': nat, l: nat, x: nat)
    requires Pair(|s|, p, q, q') && x < |s| && x != p && x != q
    ensures 1 <= Moved(x, p, q') < |Joined(s, p, q, q', l)| && Joined(s, p, q, q', l)[Moved(x, p, q')] == s[x]
  {}

  lemma JoinedFirst(s: seq<Leaf>, p: nat, q: nat, q': nat, l: nat)
    requires Pair(|s|, p, q, q')
    ensures |Joined(s, p, q, q', l)| == |s| - 1 && Joined(s, p, q, q', l)[0] == Leaf(FatherNode(s[p].n, s[q].n), l)
  {}

  /** Where a node has been. */
  lemma MovedFrom(n: nat, p: nat, q: nat, q': nat, i: nat) returns (x: nat)
    requires Pair(n, p, q, q') && 1 <= i < n - 1
    ensures x < n && x != p && x != q && Moved(x, p, q') == i
  {
    var i' := if i - 1 < q' then i - 1 else i;
    x := if i' < p then i' else i' + 1;
  }

  /** The construction gives a code that costs what the fathers weigh, and that is as high as it says. */
  lemma {:induction false} Attained(s: seq<Leaf>) returns (cs: seq<Code>)
    requires s != []
    ensures |cs| == |s| && Pairwise(cs) && |Weights(s)| == |s|
    ensures Cost(Coding(s, cs)) == FatherWeights(Weights(s)) && Under(Coding(s, cs), FinalHeight(Weights(s)))
    decreases |s|
  {
    hide Cost, Weights, FatherWeights, FinalHeight, Merged, Joint, Split, Without, Coding, Pairwise, Under, Least, Rest;
    WeightsSize(s);
    if |s| == 1 {
      cs := [[]];
      NoBits(s);
    } else {
      var p, q, q' := Lightest(s);
      MergedWeights(s, p, q, q', 0);
      OneRound(Weights(s));
      JointIs(Weights(s));
      var cs' := Attained(Joined(s, p, q, q', 0));
      cs := Split(|s|, cs', p, q, q');
      SplitPairwise(|s|, cs', p, q, q');
      SplitCost(s, cs', p, q, q');
      SplitUnder(s, cs', p, q, q', FinalHeight(Weights(s)));
    }
  }

  lemma JointIs(m: multiset<Node>)
    requires |m| >= 2
    ensures Joint(m).w == Least(m).w + Least(Rest(m)).w
  {}

  lemma NoBits(s: seq<Leaf>)
    requires |s| == 1
    ensures |Weights(s)| == 1 && Cost(Coding(s, [[]])) == FatherWeights(Weights(s)) && Pairwise([[]])
    ensures Under(Coding(s, [[]]), FinalHeight(Weights(s)))
  {
    assert s[1..] == [] && Weights(s) == multiset{s[0].n};
    assert Coding(s, [[]]) == [Leaf(s[0].n, 0)];
  }

  lemma SplitCoding(s: seq<Leaf>, cs: seq<Code>, p: nat, q: nat, q': nat)
    requires Pair(|s|, p, q, q') && |cs| == |s| - 1 == |Joined(s, p, q, q', 0)|
    ensures Coding(Joined(s, p, q, q', 0), cs) == Joined(Coding(s, Split(|s|, cs, p, q, q')), p, q, q', |cs[0]|)
  {
    hide Split, Coding, Without, Joined;
    var t := Coding(s, Split(|s|, cs, p, q, q'));
    var a, b := Coding(Joined(s, p, q, q', 0), cs), Joined(t, p, q, q', |cs[0]|);
    JoinedFirst(s, p, q, q', 0);
    JoinedFirst(t, p, q, q', |cs[0]|);
    forall i | 1 <= i < |a| ensures a[i] == b[i] {
      var x := MovedFrom(|s|, p, q, q', i);
      JoinedAt(s, p, q, q', 0, x);
      JoinedAt(t, p, q, q', |cs[0]|, x);
    }
  }

  lemma SplitCost(s: seq<Leaf>, cs: seq<Code>, p: nat, q: nat, q': nat)
    requires Pair(|s|, p, q, q') && |cs| == |s| - 1
    ensures Cost(Coding(s, Split(|s|, cs, p, q, q')))
         == Cost(Coding(Joined(s, p, q, q', 0), cs)) + s[p].n.w + s[q].n.w
  {
    hide Cost, Split, Coding, Without, Within, Shares;
    var t := Coding(s, Split(|s|, cs, p, q, q'));
    var k := LongestIs(t);
    SplitCoding(s, cs, p, q, q');
    MergedCost(t, p, q, q', k);
  }

  lemma LongestIs(s: seq<Leaf>) returns (k: nat)
    requires s != []
    ensures Within(s, k)
  {
    var i := LongestCode(s);
    k := s[i].l;
  }

  lemma SplitUnder(s: seq<Leaf>, cs: seq<Code>, p: nat, q: nat, q': nat, h: nat)
    requires Pair(|s|, p, q, q') && |cs| == |s| - 1 == |Joined(s, p, q, q', 0)|
    requires Under(Coding(Joined(s, p, q, q', 0), cs), h)
    ensures Under(Coding(s, Split(|s|, cs, p, q, q')), h)
  {
    hide Split, Coding, Joined, Under;
    var t := Coding(s, Split(|s|, cs, p, q, q'));
    forall x | 0 <= x < |t| ensures t[x].l + t[x].n.h <= h {
      SplitUnderAt(s, cs, p, q, q', h, x);
    }
    IsUnder(t, h);
  }

  lemma IsUnder(s: seq<Leaf>, h: nat)
    requires forall i :: 0 <= i < |s| ==> s[i].l + s[i].n.h <= h
    ensures Under(s, h)
  {}

  lemma UnderAt(s: seq<Leaf>, h: nat, i: nat)
    requires Under(s, h) && i < |s|
    ensures s[i].l + s[i].n.h <= h
  {}

  lemma SplitUnderAt(s: seq<Leaf>, cs: seq<Code>, p: nat, q: nat, q': nat, h: nat, x: nat)
    requires Pair(|s|, p, q, q') && |cs| == |s| - 1 == |Joined(s, p, q, q', 0)| && x < |s|
    requires Under(Coding(Joined(s, p, q, q', 0), cs), h)
    ensures |Split(|s|, cs, p, q, q')[x]| + s[x].n.h <= h
  {
    hide Split, Coding, Joined, Under;
    var r := Coding(Joined(s, p, q, q', 0), cs);
    if x == p || x == q {
      JoinedFirst(s, p, q, q', 0);
      UnderAt(r, h, 0);
    } else {
      JoinedAt(s, p, q, q', 0, x);
      UnderAt(r, h, Moved(x, p, q'));
    }
  }

  // ----- for symbols -----

  /** Codes for the symbols that occur, the last one first, as codes for all symbols. */
  function Spread(counts: seq<nat>, cs: seq<Code>, n: nat): (codes: seq<Code>)
    requires n <= |counts| && |cs| == |Leaves(counts, counts, n)|
    ensures |codes| == n
    decreases n
  {
    if n == 0 then []
    else if counts[n - 1] != 0 then Spread(counts, cs[1..], n - 1) + [cs[0]]
    else Spread(counts, cs, n - 1) + [[]]
  }

  /** The codes of the symbols before the last. */
  function Later(counts: seq<nat>, cs: seq<Code>, n: nat): seq<Code>
    requires 0 < n <= |counts| && |cs| == |Leaves(counts, counts, n)|
  {
    if counts[n - 1] != 0 then cs[1..] else cs
  }

  lemma SpreadStep(counts: seq<nat>, cs: seq<Code>, n: nat)
    requires 0 < n <= |counts| && |cs| == |Leaves(counts, counts, n)|
    ensures var rest, codes := Later(counts, cs, n), Spread(counts, cs, n);
      && |rest| == |Leaves(counts, counts, n - 1)| && (counts[n - 1] != 0 ==> cs == [cs[0]] + rest)
      && (forall x :: 0 <= x < n - 1 ==> Spread(counts, rest, n - 1)[x] == codes[x])
      && (counts[n - 1] != 0 ==> codes[n - 1] == cs[0])
      && (counts[n - 1] == 0 ==> rest == cs)
  {}

  lemma {:induction false} SpreadCoded(counts: seq<nat>, cs: seq<Code>, n: nat)
    requires n <= |counts| && |cs| == |Leaves(counts, counts, n)|
    ensures Coded(counts, Spread(counts, cs, n), n) == cs
    decreases n
  {
    if n > 0 {
      var codes := Spread(counts, cs, n);
      SpreadStep(counts, cs, n);
      LastCoded(counts, codes, n);
      hide *;
      var rest := Later(counts, cs, n);
      SpreadCoded(counts, rest, n - 1);
      CodedFrame(counts, Spread(counts, rest, n - 1), codes, n - 1);
    }
  }

  lemma {:induction false} SpreadLeaves(counts: seq<nat>, cs: seq<Code>, n: nat)
    requires n <= |counts| && |cs| == |Leaves(counts, counts, n)|
    ensures Leaves(counts, LengthsOf(Spread(counts, cs, n)), n) == Coding(Leaves(counts, counts, n), cs)
    decreases n
  {
    hide Coding, LengthsOf, Coded;
    if n > 0 {
      var codes, rest := Spread(counts, cs, n), Later(counts, cs, n);
      var lens := LengthsOf(codes);
      LastLeaf(counts, lens, n);
      LastLeaf(counts, counts, n);
      SpreadStep(counts, cs, n);
      assert lens[n - 1] == |codes[n - 1]|;
      hide *;
      SpreadLeaves(counts, rest, n - 1);
      CodedFrame(counts, Spread(counts, rest, n - 1), codes, n - 1);
      if counts[n - 1] != 0 {
        CodingInFront(Leaf(Node(counts[n - 1], 0), counts[n - 1]), Leaves(counts, counts, n - 1), cs[0], rest);
      }
    }
  }

  lemma CodingInFront(x: Leaf, u: seq<Leaf>, c: Code, cs: seq<Code>)
    requires |u| == |cs|
    ensures Coding([x] + u, [c] + cs) == [Leaf(x.n, |c|)] + Coding(u, cs)
  {}

  lemma {:induction false} CodedFrame(counts: seq<nat>, codes: seq<Code>, codes': seq<Code>, n: nat)
    requires n <= |counts| && n <= |codes| && n <= |codes'| && forall x :: 0 <= x < n ==> codes[x] == codes'[x]
    ensures Coded(counts, codes, n) == Coded(counts, codes', n)
    ensures Leaves(counts, LengthsOf(codes), n) == Leaves(counts, LengthsOf(codes'), n)
    decreases n
  {
    hide LengthsOf;
    if n > 0 {
      CodedFrame(counts, codes, codes', n - 1);
    }
  }

  lemma {:induction false} PairwiseNoPrefix(cs: seq<Code>)
    requires Pairwise(cs)
    ensures NoPrefix(cs)
  {
    if cs != [] {
      var rest := cs[1..];
      forall i, j | 0 <= i < |rest| && 0 <= j < |rest| && i != j ensures !(rest[i] <= rest[j]) {
        assert rest[i] == cs[i + 1] && rest[j] == cs[j + 1];
      }
      PairwiseNoPrefix(rest);
      forall c | c in rest ensures Apart(cs[0], c) {
        var j :| 0 <= j < |rest| && rest[j] == c;
        assert c == cs[j + 1];
      }
    }
  }

  lemma {:induction false} InCoded(counts: seq<nat>, codes: seq<Code>, n: nat, x: nat)
    requires n <= |counts| && n <= |codes| && x < n && counts[x] != 0
    ensures codes[x] in Coded(counts, codes, n)
    decreases n
  {
    if x < n - 1 {
      InCoded(counts, codes, n - 1, x);
    }
  }

  lemma {:induction false} NoPrefixCode(counts: seq<nat>, codes: seq<Code>, n: nat)
    requires n <= |counts| && n <= |codes| && NoPrefix(Coded(counts, codes, n))
    ensures forall x, y :: 0 <= x < n && 0 <= y < n && x != y && counts[x] != 0 && counts[y] != 0 ==>
      !(codes[x] <= codes[y])
    decreases n
  {
    if n > 0 {
      var cs, rest := Coded(counts, codes, n), Coded(counts, codes, n - 1);
      if counts[n - 1] != 0 {
        assert cs[0] == codes[n - 1] && cs[1..] == rest;
        forall x | 0 <= x < n - 1 && counts[x] != 0 ensures Apart(codes[n - 1], codes[x]) {
          InCoded(counts, codes, n - 1, x);
        }
      } else {
        assert cs == rest;
      }
      NoPrefixCode(counts, codes, n - 1);
    }
  }

  /** There is a prefix code that costs what the fathers weigh, and that is as high as the construction says. */
  lemma SomeBest(counts: seq<nat>) returns (codes: seq<Code>)
    requires |Symbols(counts)| > 0
    ensures PrefixCode(counts, codes) && TotalBits(counts, LengthsOf(codes), |counts|) == FatherWeights(Symbols(counts))
    ensures UpToLimit(counts, LengthsOf(codes), FinalHeight(Symbols(counts)))
  {
    hide TotalBits, FatherWeights, FinalHeight, Weights, Leaves, Cost, Coded, NoPrefix, Under, Coding, Spread;
    var n, s := |counts|, Leaves(counts, counts, |counts|);
    WeightsSize(s);
    var cs := Attained(s);
    codes := Spread(counts, cs, n);
    SpreadCoded(counts, cs, n);
    SpreadLeaves(counts, cs, n);
    PairwiseNoPrefix(cs);
    NoPrefixCode(counts, codes, n);
    LeavesCost(counts, LengthsOf(codes), n);
    UnderLeaves(counts, LengthsOf(codes), FinalHeight(Symbols(counts)), n);
  }

  /** Lengths with shares of no more than the whole are best exactly if they cost what the fathers weigh. */
  lemma BestIs(counts: seq<nat>, lens: seq<nat>, k: nat)
    requires |lens| == |counts| && Fits(Leaves(counts, lens, |counts|), k) && |Symbols(counts)| > 0
    ensures Best(counts, lens) <==> TotalBits(counts, lens, |counts|) == FatherWeights(Symbols(counts))
  {
    hide TotalBits, FatherWeights, Symbols, PrefixCode, LengthsOf, Fits, Leaves;
    Bound(counts, lens, k, 0);
    var codes := SomeBest(counts);
    forall other | PrefixCode(counts, other)
      ensures |LengthsOf(other)| == |counts|
      ensures TotalBits(counts, LengthsOf(other), |counts|) >= FatherWeights(Symbols(counts))
    {
      CodesBound(counts, other, 0);
    }
  }

  /** A best prefix code within the limit exists exactly if the construction stays within it. */
  lemma BestWithinIs(counts: seq<nat>, max: nat)
    requires |Symbols(counts)| > 0
    ensures BestWithin(counts, max) <==> FinalHeight(Symbols(counts)) <= max
  {
    hide TotalBits, FatherWeights, FinalHeight, Symbols, PrefixCode, LengthsOf;
    var best := SomeBest(counts);
    forall other | PrefixCode(counts, other)
      ensures |LengthsOf(other)| == |counts|
      ensures TotalBits(counts, LengthsOf(other), |counts|) >= FatherWeights(Symbols(counts))
    {
      CodesBound(counts, other, max);
    }
    if BestWithin(counts, max) {
      var codes :|
        PrefixCode(counts, codes) && Best(counts, LengthsOf(codes)) && UpToLimit(counts, LengthsOf(codes), max);
      CodesBound(counts, codes, max);
    }
    if FinalHeight(Symbols(counts)) <= max {
      CodesFor(counts, best);
      assert Best(counts, LengthsOf(best)) && UpToLimit(counts, LengthsOf(best), max);
    }
  }

  /** Best lengths within the limit are a reason for the construction to stay within it. */
  lemma BestLimited(counts: seq<nat>, lens: seq<nat>, k: nat, max: nat)
    requires |lens| == |counts| && Fits(Leaves(counts, lens, |counts|), k) && |Symbols(counts)| > 0
    requires Best(counts, lens) && UpToLimit(counts, lens, max)
    ensures FinalHeight(Symbols(counts)) <= max
  {
    hide TotalBits, FatherWeights, FinalHeight, Symbols, PrefixCode, LengthsOf, Fits, Leaves, Best, UpToLimit;
    BestIs(counts, lens, k);
    Bound(counts, lens, k, max);
  }

  /** Four symbols, for which two bits each are more than a longer code takes. */
  lemma TooDeep()
    ensures !BestWithin([1, 1, 2, 4], 2)
  {
    var counts: seq<nat> := [1, 1, 2, 4];
    var long: seq<Code> := [[false, false, false], [false, false, true], [false, true], [true]];
    forall x, y | 0 <= x < 4 && 0 <= y < 4 && x != y ensures !(long[x] <= long[y]) {
      var i := if x == 3 || y == 3 then 0 else if x == 2 || y == 2 then 1 else 2;
      assert long[x][i] != long[y][i];
    }
    FourBits(counts, LengthsOf(long));
    hide PrefixCode, LengthsOf, TotalBits;
    forall codes | PrefixCode(counts, codes) && UpToLimit(counts, LengthsOf(codes), 2)
      ensures !Best(counts, LengthsOf(codes))
    {
      CodesFor(counts, codes);
      FourBits(counts, LengthsOf(codes));
      TwoBitsEach(counts, codes);
    }
  }

  lemma FourBits(counts: seq<nat>, lens: seq<nat>)
    requires |counts| == |lens| == 4
    ensures TotalBits(counts, lens, 4)
         == counts[0] * lens[0] + counts[1] * lens[1] + counts[2] * lens[2] + counts[3] * lens[3]
  {
    assert TotalBits(counts, lens, 0) == 0;
    assert TotalBits(counts, lens, 1) == counts[0] * lens[0];
    assert TotalBits(counts, lens, 2) == counts[0] * lens[0] + counts[1] * lens[1];
  }

  /** Four codes within two bits have two bits each. */
  lemma TwoBitsEach(counts: seq<nat>, codes: seq<Code>)
    requires |counts| == 4 && PrefixCode(counts, codes) && |codes| == 4
    requires forall x :: 0 <= x < 4 ==> counts[x] != 0 && |codes[x]| <= 2
    ensures forall x :: 0 <= x < 4 ==> |codes[x]| == 2
  {
    assert Coded(counts, codes, 0) == [];
    assert Coded(counts, codes, 1) == [codes[0]] + [];
    assert Coded(counts, codes, 2) == [codes[1]] + ([codes[0]] + []);
    assert Coded(counts, codes, 3) == [codes[2]] + ([codes[1]] + ([codes[0]] + []));
    CodedNoPrefix(counts, codes, 4);
    hide PrefixCode, NoPrefix, CodeShares, Pow2;
    OneCodeMore(codes[0], [], 2);
    OneCodeMore(codes[1], Coded(counts, codes, 1), 2);
    OneCodeMore(codes[2], Coded(counts, codes, 2), 2);
    OneCodeMore(codes[3], Coded(counts, codes, 3), 2);
    KraftHolds(Coded(counts, codes, 4), 2);
    Quarters();
  }

  lemma Quarters()
    ensures Pow2(0) == 1 && Pow2(1) == 2 && Pow2(2) == 4 && CodeShares([], 2) == 0
  {}
}

/**
  Why Huffman's construction is optimal: the total weight of the inner nodes that it makes is no more than what any
  prefix code costs.
 */
module HuffmanOptimal {
  import opened BitArith

  // ----- the construction on weights -----

  /** What is known of a node: its weight and how high the tree below it is. */
  datatype Node = Node(w: nat, h: nat)

  /** Lighter, or as light and not higher. */
  predicate Precedes(a: Node, b: Node) {
    a.w < b.w || (a.w == b.w && a.h <= b.h)
  }

  /** The first node. */
  ghost function Least(m: multiset<Node>): (x: Node)
    requires |m| > 0
    ensures x in m && forall y :: y in m ==> Precedes(x, y)
  {
    var some :| some in m;
    LeastExists(m, some);
    var x :| x in m && forall y :: y in m ==> Precedes(x, y);
    x
  }

  lemma {:induction false} LeastExists(m: multiset<Node>, some: Node)
    requires some in m
    ensures exists x :: x in m && forall y :: y in m ==> Precedes(x, y)
    decreases some.w, some.h
  {
    if y :| y in m && !Precedes(some, y) {
      LeastExists(m, y);
    }
  }

  lemma LeastIs(m: multiset<Node>, x: Node)
    requires |m| > 0 && x in m && forall y :: y in m ==> Precedes(x, y)
    ensures Least(m) == x
  {
    assert Precedes(x, Least(m)) && Precedes(Least(m), x);
  }

  /** The nodes without the first. */
  ghost function Rest(m: multiset<Node>): (r: multiset<Node>)
    requires |m| > 0
    ensures m == r + multiset{Least(m)} && |r| == |m| - 1
  {
    m - multiset{Least(m)}
  }

  function FatherNode(a: Node, b: Node): Node {
    Node(a.w + b.w, (if a.h >= b.h then a.h else b.h) + 1)
  }

  /** The father of the two first. */
  ghost function Joint(m: multiset<Node>): Node
    requires |m| >= 2
  {
    FatherNode(Least(m), Least(Rest(m)))
  }

  /** The nodes after the two first have got a father. */
  ghost function Merged(m: multiset<Node>): (r: multiset<Node>)
    requires |m| >= 2
    ensures |r| == |m| - 1
  {
    Rest(Rest(m)) + multiset{Joint(m)}
  }

  /** The weight of all fathers. */
  ghost function FatherWeights(m: multiset<Node>): nat
    decreases |m|
  {
    if |m| <= 1 then 0 else Joint(m).w + FatherWeights(Merged(m))
  }

  /** How high the whole tree is. */
  ghost function FinalHeight(m: multiset<Node>): nat
    requires |m| > 0
    decreases |m|
  {
    if |m| == 1 then Least(m).h else FinalHeight(Merged(m))
  }

  // ----- codes -----

  /** A node with the length of its code. */
  datatype Leaf = Leaf(n: Node, l: nat)

  function Cost(s: seq<Leaf>): nat {
    if s == [] then 0 else Cost(s[1..]) + s[0].n.w * s[0].l
  }

  /** The shares of all codes, in parts of 2^k. */
  function Shares(s: seq<Leaf>, k: nat): nat
    requires Within(s, k)
  {
    if s == [] then 0 else Shares(s[1..], k) + Pow2(k - s[0].l)
  }

  predicate Within(s: seq<Leaf>, k: nat) {
    forall i :: 0 <= i < |s| ==> s[i].l <= k
  }

  /** Lengths for which there is a prefix code. */
  predicate Fits(s: seq<Leaf>, k: nat) {
    Within(s, k) && Shares(s, k) <= Pow2(k)
  }

  ghost function Weights(s: seq<Leaf>): multiset<Node> {
    if s == [] then multiset{} else Weights(s[1..]) + multiset{s[0].n}
  }

  /** No node is lower than `h` in the whole tree. */
  predicate Under(s: seq<Leaf>, h: nat) {
    forall i :: 0 <= i < |s| ==> s[i].l + s[i].n.h <= h
  }

  /** Cheaper, or as cheap and not lower than `h`, if that is so of the other. */
  predicate NoWorse(r: seq<Leaf>, s: seq<Leaf>, h: nat) {
    Cost(r) < Cost(s) || (Cost(r) == Cost(s) && (Under(s, h) ==> Under(r, h)))
  }

  function Bits(s: seq<Leaf>): nat {
    if s == [] then 0 else Bits(s[1..]) + s[0].l
  }

  lemma {:induction false} WeightsSize(s: seq<Leaf>)
    ensures |Weights(s)| == |s|
  {
    if s != [] {
      WeightsSize(s[1..]);
    }
  }

  /** One symbol more. */
  lemma InFront(x: Leaf, u: seq<Leaf>, k: nat)
    requires Within(u, k) && x.l <= k
    ensures var r := [x] + u;
      && Within(r, k) && Cost(r) == Cost(u) + x.n.w * x.l && Shares(r, k) == Shares(u, k) + Pow2(k - x.l)
      && Bits(r) == Bits(u) + x.l
  {
    assert ([x] + u)[1..] == u;
  }

  lemma WeightInFront(x: Leaf, u: seq<Leaf>)
    ensures Weights([x] + u) == Weights(u) + multiset{x.n}
  {
    assert ([x] + u)[1..] == u;
  }

  function Without(s: seq<Leaf>, i: nat): (r: seq<Leaf>)
    requires i < |s|
    ensures |r| == |s| - 1 && forall j :: 0 <= j < |r| ==> r[j] == s[if j < i then j else j + 1]
  {
    s[..i] + s[i + 1..]
  }

  lemma WithoutLater(s: seq<Leaf>, i: nat)
    requires 0 < i < |s|
    ensures Without(s, i) == [s[0]] + Without(s[1..], i - 1)
  {}

  lemma Tail(s: seq<Leaf>, k: nat)
    requires s != [] && Within(s, k)
    ensures s == [s[0]] + s[1..] && Within(s[1..], k) && s[0].l <= k
  {}

  /** Taking one symbol out. */
  lemma {:induction false} TakeOut(s: seq<Leaf>, i: nat, k: nat)
    requires i < |s| && Within(s, k)
    ensures var r := Without(s, i);
      && Within(r, k) && Cost(s) == Cost(r) + s[i].n.w * s[i].l && Shares(s, k) == Shares(r, k) + Pow2(k - s[i].l)
      && Bits(s) == Bits(r) + s[i].l
    decreases i
  {
    hide Cost, Shares, Bits, Pow2, Without, Within;
    var u := s[1..];
    Tail(s, k);
    InFront(s[0], u, k);
    if i == 0 {
      assert Without(s, i) == u;
    } else {
      TakeOut(u, i - 1, k);
      assert u[i - 1] == s[i];
      WithoutLater(s, i);
      InFront(s[0], Without(u, i - 1), k);
    }
  }

  lemma {:induction false} TakeWeight(s: seq<Leaf>, i: nat)
    requires i < |s|
    ensures Weights(s) == Weights(Without(s, i)) + multiset{s[i].n}
    decreases i
  {
    hide Weights, Without;
    var u := s[1..];
    assert s == [s[0]] + u;
    WeightInFront(s[0], u);
    if i == 0 {
      assert Without(s, i) == u;
    } else {
      TakeWeight(u, i - 1);
      WithoutLater(s, i);
      WeightInFront(s[0], Without(u, i - 1));
    }
  }

  /** Another length for one symbol. */
  lemma NewLength(s: seq<Leaf>, i: nat, l: nat, k: nat)
    requires i < |s| && Within(s, k) && l <= k
    ensures var r := s[i := Leaf(s[i].n, l)];
      && Within(r, k) && Cost(r) == Cost(s) - s[i].n.w * s[i].l + s[i].n.w * l
      && Shares(r, k) == Shares(s, k) - Pow2(k - s[i].l) + Pow2(k - l) && Bits(r) == Bits(s) - s[i].l + l
  {
    hide Cost, Shares, Bits, Pow2;
    var r := s[i := Leaf(s[i].n, l)];
    TakeOut(s, i, k);
    TakeOut(r, i, k);
    assert Without(r, i) == Without(s, i);
  }

  lemma SameWeights(s: seq<Leaf>, i: nat, l: nat)
    requires i < |s|
    ensures Weights(s[i := Leaf(s[i].n, l)]) == Weights(s)
  {
    hide Weights;
    var r := s[i := Leaf(s[i].n, l)];
    TakeWeight(s, i);
    TakeWeight(r, i);
    assert Without(r, i) == Without(s, i);
  }

  lemma {:induction false} WeightIn(s: seq<Leaf>, i: nat)
    requires i < |s|
    ensures s[i].n in Weights(s)
    decreases i
  {
    if i > 0 {
      WeightIn(s[1..], i - 1);
    }
  }

  lemma {:induction false} IndexOfWeight(s: seq<Leaf>, x: Node) returns (i: nat)
    requires x in Weights(s)
    ensures i < |s| && s[i].n == x
  {
    if s[0].n == x {
      i := 0;
    } else {
      i := IndexOfWeight(s[1..], x);
      i := i + 1;
    }
  }

  // ----- the exchange -----

  /** Two nodes exchange their lengths, the lighter one getting the longer: that is no worse. */
  lemma Exchange(s: seq<Leaf>, i: nat, j: nat, k: nat, h: nat) returns (r: seq<Leaf>)
    requires i < |s| && j < |s| && Within(s, k) && Precedes(s[i].n, s[j].n) && s[i].l < s[j].l
    ensures r == s[i := Leaf(s[i].n, s[j].l)][j := Leaf(s[j].n, s[i].l)]
    ensures |r| == |s| && Within(r, k) && NoWorse(r, s, h) && Shares(r, k) == Shares(s, k)
    ensures Weights(r) == Weights(s)
    ensures forall x :: 0 <= x < |s| ==> r[x].n == s[x].n
  {
    hide Cost, Shares, Weights, Bits, Pow2, Within;
    var t := s[i := Leaf(s[i].n, s[j].l)];
    r := t[j := Leaf(s[j].n, s[i].l)];
    LengthsWithin(s, i, j, k);
    NewLength(s, i, s[j].l, k);
    NewLength(t, j, s[i].l, k);
    SameWeights(s, i, s[j].l);
    SameWeights(t, j, s[i].l);
    Rearranged(s[i].n.w, s[j].n.w, s[i].l, s[j].l);
    if s[i].n.w == s[j].n.w && Under(s, h) {
      forall x | 0 <= x < |r| ensures r[x].l + r[x].n.h <= h {
        assert x != i && x != j ==> r[x] == s[x];
        assert s[j].l + s[j].n.h <= h;
      }
    }
  }

  lemma LengthsWithin(s: seq<Leaf>, i: nat, j: nat, k: nat)
    requires i < |s| && j < |s| && Within(s, k)
    ensures s[i].l <= k && s[j].l <= k
  {}

  lemma Rearranged(a: nat, b: nat, l: nat, m: nat)
    requires a <= b && l < m
    ensures if a == b then a * m + b * l == a * l + b * m else a * m + b * l < a * l + b * m
  {
    Factors(b - a, m - l);
    assert (b - a) * (m - l) == b * m - b * l - a * m + a * l;
  }

  lemma Factors(a: nat, b: nat)
    requires b > 0
    ensures if a == 0 then a * b == 0 else a * b > 0
  {}

  /** A longest code. */
  lemma {:induction false} LongestCode(s: seq<Leaf>) returns (i: nat)
    requires s != []
    ensures i < |s| && forall j :: 0 <= j < |s| ==> s[j].l <= s[i].l
  {
    if |s| == 1 {
      i := 0;
    } else {
      var t := s[1..];
      var j := LongestCode(t);
      i := if s[0].l >= t[j].l then 0 else j + 1;
      forall x | 0 <= x < |s| ensures s[x].l <= s[i].l {
        assert x > 0 ==> s[x] == t[x - 1];
      }
    }
  }

  lemma {:induction false} Pow2Sum(a: nat, b: nat)
    ensures Pow2(a + b) == Pow2(a) * Pow2(b)
    decreases a
  {
    if a > 0 {
      Pow2Sum(a - 1, b);
      Double(Pow2(a - 1), Pow2(b));
    }
  }

  lemma Double(a: nat, b: nat)
    ensures 2 * (a * b) == (2 * a) * b
  {}

  /** Codes of at most `l` bits take up a whole number of shares of that size. */
  lemma {:induction false} WholeShares(s: seq<Leaf>, k: nat, l: nat) returns (m: nat)
    requires l <= k && Within(s, k) && forall i :: 0 <= i < |s| ==> s[i].l <= l
    ensures Shares(s, k) == m * Pow2(k - l)
  {
    if s == [] {
      m := 0;
    } else {
      var n := WholeShares(s[1..], k, l);
      var d := l - s[0].l;
      Pow2Sum(d, k - l);
      m := n + Pow2(d);
      Distribute(n, Pow2(d), Pow2(k - l));
    }
  }

  lemma Distribute(a: nat, b: nat, c: nat)
    ensures (a + b) * c == a * c + b * c
  {}

  /** A single longest code can be one bit shorter. */
  lemma Shorten(s: seq<Leaf>, i: nat, k: nat, h: nat)
    requires i < |s| && Fits(s, k) && s[i].l > 0 && forall j :: 0 <= j < |s| && j != i ==> s[j].l < s[i].l
    ensures var r := s[i := Leaf(s[i].n, s[i].l - 1)];
      Fits(r, k) && NoWorse(r, s, h) && Weights(r) == Weights(s) && Bits(r) < Bits(s)
  {
    hide Cost, Weights, Bits, Shares, Pow2, Within;
    var l, r := s[i].l, Without(s, i);
    LengthsWithin(s, i, i, k);
    NewLength(s, i, l - 1, k);
    SameWeights(s, i, l - 1);
    TakeOut(s, i, k);
    var m := WholeShares(r, k, l - 1);
    Pow2Sum(l - 1, k - (l - 1));
    HalfShare(k, l);
    OneBitLess(s[i].n.w, l);
    OneMoreFits(m, Pow2(k - l), Pow2(l - 1));
  }

  lemma OneBitLess(w: nat, l: nat)
    requires l > 0
    ensures w * (l - 1) <= w * l
  {}

  lemma OneMoreFits(m: nat, u: nat, p: nat)
    requires u > 0 && m * (2 * u) + u <= p * (2 * u)
    ensures m * (2 * u) + 2 * u <= p * (2 * u)
  {
    var v := 2 * u;
    if m >= p {
      Times(p, m, v);
    } else {
      Times(m + 1, p, v);
      Distribute(m, 1, v);
    }
  }

  lemma Times(a: nat, b: nat, v: nat)
    requires a <= b
    ensures a * v <= b * v
  {}

  /** Of two codes not both are empty. */
  lemma SomeBits(s: seq<Leaf>, k: nat)
    requires |s| >= 2 && Fits(s, k)
    ensures s[0].l > 0 || s[1].l > 0
  {
    assert Shares(s, k) == Shares(s[1..][1..], k) + Pow2(k - s[1].l) + Pow2(k - s[0].l);
  }

  /** The two lightest nodes. */
  lemma Lightest(s: seq<Leaf>) returns (p: nat, q: nat, q': nat)
    requires |s| >= 2
    ensures p < |s| && q < |s| && p != q && q == (if q' < p then q' else q' + 1)
    ensures |Weights(s)| == |s| && s[p].n == Least(Weights(s)) && s[q].n == Least(Rest(Weights(s)))
    ensures forall x :: 0 <= x < |s| ==> Precedes(s[p].n, s[x].n)
    ensures forall x :: 0 <= x < |s| && x != p ==> Precedes(s[q].n, s[x].n)
  {
    hide Weights;
    WeightsSize(s);
    p := IndexOfWeight(s, Least(Weights(s)));
    var r := Without(s, p);
    WithoutLeast(s, p);
    q' := IndexOfWeight(r, Least(Rest(Weights(s))));
    q := if q' < p then q' else q' + 1;
    forall x | 0 <= x < |s| ensures Precedes(s[p].n, s[x].n) {
      WeightIn(s, x);
    }
    forall x | 0 <= x < |s| && x != p ensures Precedes(s[q].n, s[x].n) {
      var x' := if x < p then x else x - 1;
      assert r[x'] == s[x];
      WeightIn(r, x');
    }
  }

  lemma WithoutLeast(s: seq<Leaf>, p: nat)
    requires p < |s| == |Weights(s)| && s[p].n == Least(Weights(s))
    ensures Weights(Without(s, p)) == Rest(Weights(s))
  {
    TakeWeight(s, p);
    hide Weights;
    Cancel(Weights(Without(s, p)), Rest(Weights(s)), s[p].n);
  }

  lemma Cancel(a: multiset<Node>, b: multiset<Node>, x: Node)
    requires a + multiset{x} == b + multiset{x}
    ensures a == b
  {
    forall y: Node ensures a[y] == b[y] {
      assert (a + multiset{x})[y] == a[y] + multiset{x}[y];
      assert (b + multiset{x})[y] == b[y] + multiset{x}[y];
    }
  }

  /** Two longest codes go to the two lightest nodes. */
  lemma Lengthen(s: seq<Leaf>, p: nat, q: nat, i: nat, j: nat, k: nat, h: nat) returns (r: seq<Leaf>)
    requires p < |s| && q < |s| && p != q && i < |s| && j < |s| && i != j && Fits(s, k)
    requires s[i].l == s[j].l && forall x :: 0 <= x < |s| ==> s[x].l <= s[i].l
    requires forall x :: 0 <= x < |s| ==> Precedes(s[p].n, s[x].n)
    requires forall x :: 0 <= x < |s| && x != p ==> Precedes(s[q].n, s[x].n)
    ensures |r| == |s| && Fits(r, k) && NoWorse(r, s, h) && Weights(r) == Weights(s)
    ensures r[p] == Leaf(s[p].n, s[i].l) && r[q] == Leaf(s[q].n, s[i].l)
    ensures forall x :: 0 <= x < |s| ==> r[x].n == s[x].n
  {
    hide Cost, Weights, Bits, Shares, Under, Precedes;
    var t, other := s, j;
    if s[p].l == s[i].l {
      other := if i == p then j else i;
    } else {
      t := Exchange(s, p, i, k, h);
    }
    assert t[p].l == s[i].l && other != p && t[other].l == s[i].l;
    if t[q].l == s[i].l {
      r := t;
    } else {
      r := Exchange(t, q, other, k, h);
    }
  }

  /** The two lightest nodes with codes of the same length become one with a code one bit shorter. */
  lemma Merge(s: seq<Leaf>, p: nat, q: nat, q': nat, k: nat, h: nat) returns (r: seq<Leaf>)
    requires |s| >= 2 && p < |s| && q < |s| && p != q && q == (if q' < p then q' else q' + 1) && Fits(s, k)
    requires s[p].l == s[q].l > 0 && |Weights(s)| == |s|
    requires s[p].n == Least(Weights(s)) && s[q].n == Least(Rest(Weights(s)))
    ensures |r| == |s| - 1 && Fits(r, k) && Weights(r) == Merged(Weights(s))
    ensures Cost(s) == Cost(r) + Joint(Weights(s)).w && (Under(s, h) ==> Under(r, h))
  {
    hide Cost, Shares, Weights, Pow2, Within, Without, Least, Rest;
    var t := Without(s, p);
    var u := Without(t, q');
    r := [Leaf(FatherNode(s[p].n, s[q].n), s[p].l - 1)] + u;
    MergedWeights(s, p, q, q', r[0].l);
    MergedCost(s, p, q, q', k);
    MergedUnder(s, p, q, q', h);
  }

  lemma MergedWeights(s: seq<Leaf>, p: nat, q: nat, q': nat, l: nat)
    requires p < |s| == |Weights(s)| && |s| >= 2 && q < |s| && p != q && q == (if q' < p then q' else q' + 1)
    requires s[p].n == Least(Weights(s)) && s[q].n == Least(Rest(Weights(s)))
    ensures Weights([Leaf(FatherNode(s[p].n, s[q].n), l)] + Without(Without(s, p), q')) == Merged(Weights(s))
  {
    hide Weights, Without, Least, Rest;
    WithoutLeast(s, p);
    WithoutLeast(Without(s, p), q');
    WeightInFront(Leaf(FatherNode(s[p].n, s[q].n), l), Without(Without(s, p), q'));
  }

  lemma MergedCost(s: seq<Leaf>, p: nat, q: nat, q': nat, k: nat)
    requires |s| >= 2 && p < |s| && q < |s| && p != q && q == (if q' < p then q' else q' + 1) && Within(s, k)
    requires s[p].l == s[q].l > 0
    ensures var r := [Leaf(FatherNode(s[p].n, s[q].n), s[p].l - 1)] + Without(Without(s, p), q');
      Within(r, k) && Shares(r, k) == Shares(s, k) && Cost(s) == Cost(r) + s[p].n.w + s[q].n.w
  {
    hide Cost, Shares, Pow2, Within, Without;
    var a, b, l := s[p].n.w, s[q].n.w, s[p].l;
    var t := Without(s, p);
    TakeOut(s, p, k);
    TakeOut(t, q', k);
    LengthsWithin(s, p, q, k);
    InFront(Leaf(FatherNode(s[p].n, s[q].n), l - 1), Without(t, q'), k);
    HalfShare(k, l);
    Shared(a, b, l);
  }

  lemma MergedUnder(s: seq<Leaf>, p: nat, q: nat, q': nat, h: nat)
    requires |s| >= 2 && p < |s| && q < |s| && p != q && q == (if q' < p then q' else q' + 1)
    requires s[p].l == s[q].l > 0
    ensures Under(s, h) ==> Under([Leaf(FatherNode(s[p].n, s[q].n), s[p].l - 1)] + Without(Without(s, p), q'), h)
  {}

  lemma HalfShare(k: nat, l: nat)
    requires 0 < l <= k
    ensures Pow2(k - (l - 1)) == 2 * Pow2(k - l)
  {}

  lemma Shared(a: nat, b: nat, l: nat)
    requires l > 0
    ensures a * l + b * l == (a + b) * (l - 1) + (a + b)
  {}

  /** No prefix code costs less than the construction makes fathers weigh, and none that costs as much is lower. */
  lemma {:induction false} Optimal(s: seq<Leaf>, k: nat, h: nat)
    requires s != [] && Fits(s, k) && Under(s, h)
    ensures |Weights(s)| > 0 && Cost(s) >= FatherWeights(Weights(s))
    ensures Cost(s) == FatherWeights(Weights(s)) ==> FinalHeight(Weights(s)) <= h
    decreases |s|, Bits(s)
  {
    hide Cost, Weights, Bits, Shares, Fits, Pow2, Under, Merged, Joint, FatherWeights, FinalHeight;
    WeightsSize(s);
    if |s| == 1 {
      OnlyOne(s, h);
    } else {
      OneRound(Weights(s));
      var i := LongestCode(s);
      SomeBits(s, k);
      if j :| 0 <= j < |s| && j != i && s[j].l == s[i].l {
        var p, q, q' := Lightest(s);
        var t := Lengthen(s, p, q, i, j, k, h);
        var h' := SomeHeight(t, h);
        var r := Merge(t, p, q, q', k, h');
        Optimal(r, k, h');
      } else {
        Shorten(s, i, k, h);
        var t := s[i := Leaf(s[i].n, s[i].l - 1)];
        var h' := SomeHeight(t, h);
        Optimal(t, k, h');
      }
    }
  }

  lemma OneRound(m: multiset<Node>)
    requires |m| >= 2
    ensures FatherWeights(m) == Joint(m).w + FatherWeights(Merged(m)) && FinalHeight(m) == FinalHeight(Merged(m))
  {}

  lemma OnlyOne(s: seq<Leaf>, h: nat)
    requires |s| == 1 && Under(s, h)
    ensures |Weights(s)| == 1 && FinalHeight(Weights(s)) <= h && FatherWeights(Weights(s)) == 0
  {
    assert s[1..] == [] && Weights(s) == multiset{s[0].n};
  }

  /** A height that is enough, `h` if it is. */
  lemma {:induction false} SomeHeight(s: seq<Leaf>, h: nat) returns (h': nat)
    ensures Under(s, h') && (Under(s, h) ==> h' == h)
  {
    if Under(s, h) {
      h' := h;
    } else {
      h' := AnyHeight(s);
    }
  }

  lemma {:induction false} AnyHeight(s: seq<Leaf>) returns (h: nat)
    ensures Under(s, h)
  {
    h := 0;
    if s != [] {
      var h' := AnyHeight(s[1..]);
      var l := s[0].l + s[0].n.h;
      h := if l >= h' then l else h';
      forall i | 0 <= i < |s| ensures s[i].l + s[i].n.h <= h {
        assert i > 0 ==> s[i] == s[1..][i - 1];
      }
    }
  }
}

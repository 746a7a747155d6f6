/** The frequencies of the nodes that build_tree of zlib/trees.c makes, and what the leaves then cost. */
module HuffmanWeights {
  import opened HuffmanLengths
  import opened HuffmanOptimal

  // ----- frequencies of nodes -----

  predicate Below(q: multiset<nat>, size: nat) {
    forall x :: x in q ==> x < size
  }

  ghost function NodeAt(fc: seq<nat>, depth: seq<nat>, x: nat): Node
    requires x < |fc| == |depth|
  {
    Node(fc[x], depth[x])
  }

  /** The frequencies and heights of the nodes `q`. */
  ghost function Values(fc: seq<nat>, depth: seq<nat>, q: multiset<nat>): (v: multiset<Node>)
    requires Below(q, |fc|) && |depth| == |fc|
    ensures |v| == |q|
    decreases |q|
  {
    if q == multiset{} then multiset{}
    else
      var x :| x in q;
      assert |q - multiset{x}| < |q|;
      Values(fc, depth, q - multiset{x}) + multiset{NodeAt(fc, depth, x)}
  }

  lemma ValuesStep(fc: seq<nat>, depth: seq<nat>, q: multiset<nat>) returns (x: nat)
    requires Below(q, |fc|) && |depth| == |fc| && q != multiset{}
    ensures x in q && Values(fc, depth, q) == Values(fc, depth, q - multiset{x}) + multiset{NodeAt(fc, depth, x)}
  {
    hide NodeAt;
    x :| x in q && Values(fc, depth, q) == Values(fc, depth, q - multiset{x}) + multiset{NodeAt(fc, depth, x)};
  }

  /** Taking out another one than was put in. */
  lemma TakeOther<T(!new)>(q: multiset<T>, x: T, y: T)
    requires y in q + multiset{x}
    ensures q + multiset{x} - multiset{y} == if x == y then q else q - multiset{y} + multiset{x}
    ensures x != y ==> y in q && q == q - multiset{y} + multiset{y} && |q - multiset{y}| < |q|
  {}

  lemma Swap(q: multiset<Node>, x: Node, y: Node)
    ensures q + multiset{x} + multiset{y} == q + multiset{y} + multiset{x}
  {}

  lemma {:induction false} ValuesMore(fc: seq<nat>, depth: seq<nat>, q: multiset<nat>, x: nat)
    requires Below(q, |fc|) && x < |fc| == |depth|
    ensures Values(fc, depth, q + multiset{x}) == Values(fc, depth, q) + multiset{NodeAt(fc, depth, x)}
    decreases |q|
  {
    hide Values, NodeAt;
    var y := ValuesStep(fc, depth, q + multiset{x});
    TakeOther(q, x, y);
    if x != y {
      var r := q - multiset{y};
      ValuesMore(fc, depth, r, x);
      ValuesMore(fc, depth, r, y);
      Swap(Values(fc, depth, r), NodeAt(fc, depth, x), NodeAt(fc, depth, y));
    }
  }

  lemma {:induction false} ValuesKept(fc: seq<nat>, depth: seq<nat>, fc': seq<nat>, depth': seq<nat>, q: multiset<nat>)
    requires Below(q, |fc|) && |fc| == |depth| == |fc'| == |depth'|
    requires forall x :: x in q ==> fc[x] == fc'[x] && depth[x] == depth'[x]
    ensures Values(fc, depth, q) == Values(fc', depth', q)
    decreases |q|
  {
    if q != multiset{} {
      var x :| x in q;
      var r := q - multiset{x};
      assert q == r + multiset{x};
      ValuesKept(fc, depth, fc', depth', r);
      ValuesMore(fc, depth, r, x);
      ValuesMore(fc', depth', r, x);
    }
  }

  lemma {:induction false} ValueOf(fc: seq<nat>, depth: seq<nat>, q: multiset<nat>, v: Node)
    requires Below(q, |fc|) && |fc| == |depth| && v in Values(fc, depth, q)
    ensures exists x :: x in q && NodeAt(fc, depth, x) == v
    decreases |q|
  {
    var x :| x in q;
    var r := q - multiset{x};
    assert q == r + multiset{x};
    ValuesMore(fc, depth, r, x);
    if NodeAt(fc, depth, x) != v {
      ValueOf(fc, depth, r, v);
    }
  }

  /** What all nodes weigh. */
  ghost function Sum(m: multiset<Node>): nat
    decreases |m|
  {
    if m == multiset{} then 0
    else
      var x :| x in m;
      assert |m - multiset{x}| < |m|;
      Sum(m - multiset{x}) + x.w
  }

  lemma SumStep(m: multiset<Node>) returns (x: Node)
    requires m != multiset{}
    ensures x in m && Sum(m) == Sum(m - multiset{x}) + x.w
  {
    x :| x in m && Sum(m) == Sum(m - multiset{x}) + x.w;
  }

  lemma {:induction false} SumMore(m: multiset<Node>, x: Node)
    ensures Sum(m + multiset{x}) == Sum(m) + x.w
    decreases |m|
  {
    hide Sum;
    var y := SumStep(m + multiset{x});
    TakeOther(m, x, y);
    if x != y {
      var r := m - multiset{y};
      SumMore(r, x);
      SumMore(r, y);
    }
  }

  // ----- one round -----

  /** A node that comes before the others has the least value. */
  lemma LeastValue(fc: seq<nat>, depth: seq<nat>, q: multiset<nat>, n: nat)
    requires Below(q, |fc|) && n < |fc| == |depth|
    requires forall x :: x in q ==> Precedes(NodeAt(fc, depth, n), NodeAt(fc, depth, x))
    ensures var v := Values(fc, depth, q) + multiset{NodeAt(fc, depth, n)};
      |v| > 0 && Least(v) == NodeAt(fc, depth, n) && Rest(v) == Values(fc, depth, q)
  {
    hide Values;
    var v := Values(fc, depth, q) + multiset{NodeAt(fc, depth, n)};
    forall y | y in v ensures Precedes(NodeAt(fc, depth, n), y) {
      if y != NodeAt(fc, depth, n) {
        ValueOf(fc, depth, q, y);
      }
    }
    LeastIs(v, NodeAt(fc, depth, n));
    hide Least;
    Cancel(Rest(v), Values(fc, depth, q), NodeAt(fc, depth, n));
  }

  lemma TwoLeastValues(fc: seq<nat>, depth: seq<nat>, q: multiset<nat>, n: nat, m: nat)
    requires Below(q, |fc|) && n < |fc| == |depth| && m < |fc| && Precedes(NodeAt(fc, depth, n), NodeAt(fc, depth, m))
    requires forall x :: x in q ==> Precedes(NodeAt(fc, depth, m), NodeAt(fc, depth, x))
    ensures var w := Values(fc, depth, q) + multiset{NodeAt(fc, depth, m)} + multiset{NodeAt(fc, depth, n)};
      && |w| >= 2 && Least(w) == NodeAt(fc, depth, n) && Least(Rest(w)) == NodeAt(fc, depth, m)
      && Rest(Rest(w)) == Values(fc, depth, q)
  {
    hide Values, Least, Rest;
    LeastValue(fc, depth, q, m);
    ValuesMore(fc, depth, q, m);
    LeastValue(fc, depth, q + multiset{m}, n);
  }

  /** The two first nodes of a queue have got a father. */
  ghost predicate Fathered(fc: seq<nat>, depth: seq<nat>, fc': seq<nat>, depth': seq<nat>, n: nat, m: nat, node: nat) {
    && |fc| == |depth| && n < node && m < node < |fc|
    && fc' == fc[node := FatherNode(NodeAt(fc, depth, n), NodeAt(fc, depth, m)).w]
    && depth' == depth[node := FatherNode(NodeAt(fc, depth, n), NodeAt(fc, depth, m)).h]
  }

  /** What the construction still has to do, and how high the tree will be. */
  lemma RoundFathers(fc: seq<nat>, depth: seq<nat>, fc': seq<nat>, depth': seq<nat>, q: multiset<nat>, n: nat, m: nat,
                     node: nat)
    requires Fathered(fc, depth, fc', depth', n, m, node) && Below(q, node)
    requires Precedes(NodeAt(fc, depth, n), NodeAt(fc, depth, m))
    requires forall x :: x in q ==> Precedes(NodeAt(fc, depth, m), NodeAt(fc, depth, x))
    ensures var before, after :=
        Values(fc, depth, q + multiset{m} + multiset{n}), Values(fc', depth', q + multiset{node});
      && |before| >= 2 && |after| >= 1
      && FatherWeights(before) == fc'[node] + FatherWeights(after) && FinalHeight(before) == FinalHeight(after)
  {
    hide Values, FatherWeights, FinalHeight, Least, Rest;
    var v, a, b := Values(fc, depth, q), NodeAt(fc, depth, n), NodeAt(fc, depth, m);
    RoundQueue(fc, depth, fc', depth', q, n, m, node);
    TwoLeastValues(fc, depth, q, n, m);
    MergeOnce(v + multiset{b} + multiset{a}, v, a, b);
  }

  /** The queue weighs as much as before. */
  lemma RoundSum(fc: seq<nat>, depth: seq<nat>, fc': seq<nat>, depth': seq<nat>, q: multiset<nat>, n: nat, m: nat,
                 node: nat)
    requires Fathered(fc, depth, fc', depth', n, m, node) && Below(q, node)
    ensures Sum(Values(fc, depth, q + multiset{m} + multiset{n})) == Sum(Values(fc', depth', q + multiset{node}))
  {
    hide Values, Sum;
    RoundQueue(fc, depth, fc', depth', q, n, m, node);
    SumTwo(Values(fc, depth, q), NodeAt(fc, depth, n), NodeAt(fc, depth, m));
  }

  lemma PairWeighs(fc: seq<nat>, depth: seq<nat>, q: multiset<nat>, n: nat, m: nat)
    requires Below(q, |fc|) && n < |fc| == |depth| && m < |fc|
    ensures Sum(Values(fc, depth, q + multiset{m} + multiset{n})) >= fc[n] + fc[m]
  {
    hide Values, Sum;
    ValuesMore(fc, depth, q, m);
    ValuesMore(fc, depth, q + multiset{m}, n);
    SumTwo(Values(fc, depth, q), NodeAt(fc, depth, n), NodeAt(fc, depth, m));
  }

  lemma SumTwo(v: multiset<Node>, a: Node, b: Node)
    ensures Sum(v + multiset{b} + multiset{a}) == Sum(v + multiset{FatherNode(a, b)}) >= a.w + b.w
  {
    hide Sum;
    SumMore(v, b);
    SumMore(v + multiset{b}, a);
    SumMore(v, FatherNode(a, b));
  }

  lemma RoundQueue(fc: seq<nat>, depth: seq<nat>, fc': seq<nat>, depth': seq<nat>, q: multiset<nat>, n: nat, m: nat,
                   node: nat)
    requires Fathered(fc, depth, fc', depth', n, m, node) && Below(q, node)
    ensures var v, a, b := Values(fc, depth, q), NodeAt(fc, depth, n), NodeAt(fc, depth, m);
      && Values(fc, depth, q + multiset{m} + multiset{n}) == v + multiset{b} + multiset{a}
      && Values(fc', depth', q + multiset{node}) == v + multiset{FatherNode(a, b)}
  {
    hide Values;
    ValuesMore(fc, depth, q, m);
    ValuesMore(fc, depth, q + multiset{m}, n);
    ValuesMore(fc', depth', q, node);
    ValuesKept(fc, depth, fc', depth', q);
  }

  lemma MergeOnce(w: multiset<Node>, v: multiset<Node>, a: Node, b: Node)
    requires |w| >= 2 && Least(w) == a && Least(Rest(w)) == b && Rest(Rest(w)) == v
    ensures FatherWeights(w) == a.w + b.w + FatherWeights(v + multiset{FatherNode(a, b)})
    ensures FinalHeight(w) == FinalHeight(v + multiset{FatherNode(a, b)})
  {
    hide Least, Rest;
  }

  // ----- heights -----

  /** The least weight of a node of this height: the numbers of Fibonacci. */
  function Fib(h: nat): nat {
    if h == 0 then 1 else if h == 1 then 2 else Fib(h - 1) + Fib(h - 2)
  }

  lemma {:induction false} FibGrows(a: nat, b: nat)
    requires a <= b
    ensures Fib(a) <= Fib(b)
    decreases b
  {
    if a < b {
      FibGrows(a, b - 1);
    }
  }

  lemma Fib23()
    ensures Fib(23) > 0xffff
  {
    assert Fib(4) == 8 && Fib(5) == 13;
    assert Fib(8) == 55 && Fib(9) == 89;
    assert Fib(12) == 377 && Fib(13) == 610;
    assert Fib(16) == 2584 && Fib(17) == 4181;
    assert Fib(20) == 17711 && Fib(21) == 28657;
  }

  /** High nodes are heavy, and so is every node in the queue once there is a high one. */
  ghost predicate Heavy(fc: seq<nat>, depth: seq<nat>, q: multiset<nat>)
    requires Below(q, |fc|) && |depth| == |fc|
  {
    && (forall x :: x in q ==> fc[x] >= Fib(depth[x]))
    && forall x, y :: x in q && y in q && depth[y] > 0 ==> fc[x] >= Fib(depth[y] - 1)
  }

  /** The father of the two first nodes is heavy enough for his height. */
  lemma FatherHeavy(fc: seq<nat>, depth: seq<nat>, q: multiset<nat>, n: nat, m: nat)
    requires Below(q, |fc|) && |depth| == |fc| && Heavy(fc, depth, q) && n in q && m in q
    ensures var f := FatherNode(NodeAt(fc, depth, n), NodeAt(fc, depth, m)); f.w >= Fib(f.h)
  {
    var (a, b) := if depth[n] >= depth[m] then (n, m) else (m, n);
    assert fc[a] >= Fib(depth[a]);
    if depth[a] > 0 {
      assert fc[b] >= Fib(depth[a] - 1);
    } else {
      assert fc[b] >= Fib(depth[b]);
      FibGrows(0, depth[b]);
    }
  }

  lemma HeavyOn(fc: seq<nat>, depth: seq<nat>, fc': seq<nat>, depth': seq<nat>, q: multiset<nat>, n: nat, m: nat,
                node: nat)
    requires Fathered(fc, depth, fc', depth', n, m, node) && Below(q, node)
    requires Heavy(fc, depth, q + multiset{m} + multiset{n})
    requires fc[n] <= fc[m] && forall x :: x in q ==> fc[m] <= fc[x]
    ensures Heavy(fc', depth', q + multiset{node})
  {
    hide Fib;
    var all, now := q + multiset{m} + multiset{n}, q + multiset{node};
    assert n in all && m in all;
    FatherHeavy(fc, depth, all, n, m);
    FibGrows(depth'[node] - 1, depth'[node]);
    forall x | x in now ensures fc'[x] >= Fib(depth'[x]) && fc'[x] >= Fib(depth'[node] - 1) {
      if x != node {
        HeavyAt(fc, depth, all, n, m, x);
      }
    }
    forall x, y | x in now && y in now && depth'[y] > 0 ensures fc'[x] >= Fib(depth'[y] - 1) {
      if y != node {
        HeavyPair(fc, depth, all, if x == node then m else x, y);
      }
    }
  }

  /** A node that is not lighter than the two first is heavy enough for the sons of their father. */
  lemma HeavyAt(fc: seq<nat>, depth: seq<nat>, all: multiset<nat>, n: nat, m: nat, x: nat)
    requires Below(all, |fc|) && |depth| == |fc| && Heavy(fc, depth, all) && n in all && m in all && x in all
    requires fc[n] <= fc[m] <= fc[x]
    ensures fc[x] >= Fib(depth[x]) && fc[x] >= Fib(FatherNode(NodeAt(fc, depth, n), NodeAt(fc, depth, m)).h - 1)
  {
    hide Fib;
    assert fc[n] >= Fib(depth[n]) && fc[m] >= Fib(depth[m]);
  }

  lemma HeavyPair(fc: seq<nat>, depth: seq<nat>, all: multiset<nat>, x: nat, y: nat)
    requires Below(all, |fc|) && |depth| == |fc| && Heavy(fc, depth, all) && x in all && y in all && depth[y] > 0
    ensures fc[x] >= Fib(depth[y] - 1)
  {
    hide Fib;
  }

  // ----- the tree -----

  /** Every inner node weighs what his two sons weigh. */
  ghost predicate Adds(fc: seq<nat>, elems: nat, top: seq<nat>)
    requires |top| >= 2
  {
    && Inside(top, |fc|) && Root(elems, top) < |fc|
    && forall t :: 1 <= t <= |top| / 2 && 2 * t < |top| ==>
         fc[top[2 * t - 1]] + fc[top[2 * t]] == fc[Root(elems, top) + 1 - t]
  }

  function Costs(fc: seq<nat>, lens: seq<nat>): (p: seq<nat>)
    requires |fc| == |lens|
    ensures |p| == |fc| && forall x :: 0 <= x < |fc| ==> p[x] == fc[x] * lens[x]
  {
    seq(|fc|, x requires 0 <= x < |fc| => fc[x] * lens[x])
  }

  /** A pair costs what its father costs, and one bit more each time. */
  lemma PairCost(fc: seq<nat>, dad: seq<nat>, lens: seq<nat>, elems: nat, top: seq<nat>, t: nat)
    requires TopDown(dad, elems, top) && |fc| == |dad| == |lens| && Adds(fc, elems, top) && Deeper(dad, lens, top)
    requires 1 <= t && 2 * t < |top|
    ensures var p, x := Costs(fc, lens), Root(elems, top) + 1 - t;
      && p[top[2 * t - 1]] + p[top[2 * t]] == p[x] + fc[x]
      && top[2 * t - 1] <= Root(elems, top) && top[2 * t] <= Root(elems, top)
  {
    var x := Root(elems, top) + 1 - t;
    var a, b := top[2 * t - 1], top[2 * t];
    assert Father(elems, top, 2 * t) == x && Father(elems, top, 2 * t - 1) == x;
    assert lens[a] == lens[x] + 1 && lens[b] == lens[x] + 1 && fc[a] + fc[b] == fc[x];
    Together(fc[a], fc[b], lens[x]);
  }

  lemma Together(a: nat, b: nat, l: nat)
    ensures a * (l + 1) + b * (l + 1) == (a + b) * l + (a + b)
  {}

  lemma {:induction false} PairsCost(fc: seq<nat>, dad: seq<nat>, lens: seq<nat>, elems: nat, top: seq<nat>, t: nat)
    requires TopDown(dad, elems, top) && |fc| == |dad| == |lens| && Adds(fc, elems, top) && Deeper(dad, lens, top)
    requires 2 * t + 1 <= |top|
    ensures var p, r := Costs(fc, lens), Root(elems, top);
      && r + 1 - t >= 0
      && SumIn(Itself, p, top, 0, r + 1, 2 * t + 1)
           == SumRange(Itself, p, r + 1 - t, r + 1) + SumRange(Itself, fc, r + 1 - t, r + 1)
    decreases t
  {
    if t > 0 {
      var p, r := Costs(fc, lens), Root(elems, top);
      PairsCost(fc, dad, lens, elems, top, t - 1);
      PairCost(fc, dad, lens, elems, top, t);
      SumTwoMore(p, top, r + 1, t);
      hide TopDown, Adds, Deeper, SumRange, SumIn;
      RangeFirst(Itself, p, r + 1 - t, r + 1);
      RangeFirst(Itself, fc, r + 1 - t, r + 1);
    }
  }

  lemma SumTwoMore(p: seq<nat>, top: seq<nat>, hi: nat, t: nat)
    requires t > 0 && 2 * t < |top| && Inside(top, |p|) && top[2 * t - 1] < hi && top[2 * t] < hi
    ensures SumIn(Itself, p, top, 0, hi, 2 * t + 1)
         == SumIn(Itself, p, top, 0, hi, 2 * (t - 1) + 1) + p[top[2 * t - 1]] + p[top[2 * t]]
  {}

  /** What the leaves cost is what the inner nodes weigh. */
  lemma LeavesCostInner(fc: seq<nat>, dad: seq<nat>, lens: seq<nat>, elems: nat, top: seq<nat>)
    requires TopDown(dad, elems, top) && |fc| == |dad| == |lens| && Adds(fc, elems, top) && Deeper(dad, lens, top)
    ensures SumIn(Itself, Costs(fc, lens), top, 0, elems, |top|)
         == SumRange(Itself, fc, elems, Root(elems, top) + 1)
  {
    var p, r := Costs(fc, lens), Root(elems, top);
    PairsCost(fc, dad, lens, elems, top, |top| / 2);
    LeavesAndInner(Itself, dad, p, elems, top);
    RootIsFree(fc, dad, lens, elems, top);
    hide SumIn, TopDown, Adds, Deeper, Root;
    RangeLast(p, elems, r);
  }

  lemma RootIsFree(fc: seq<nat>, dad: seq<nat>, lens: seq<nat>, elems: nat, top: seq<nat>)
    requires TopDown(dad, elems, top) && |fc| == |dad| == |lens| && Deeper(dad, lens, top)
    ensures Costs(fc, lens)[Root(elems, top)] == 0 && elems <= Root(elems, top) < |fc|
    ensures |top| % 2 == 1 && Root(elems, top) + 1 - |top| / 2 == elems
  {
    assert Costs(fc, lens)[Root(elems, top)] == fc[Root(elems, top)] * 0;
  }

  lemma RangeLast(p: seq<nat>, lo: nat, r: nat)
    requires lo <= r < |p| && p[r] == 0
    ensures SumRange(Itself, p, lo, r + 1) == SumRange(Itself, p, lo, r)
  {
  }
}

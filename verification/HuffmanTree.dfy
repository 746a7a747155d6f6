/** build_tree of zlib/trees.c: from the frequencies of symbols to their code lengths and codes. */
module HuffmanTree {
  import opened BitArith
  import opened HuffmanCodes
  import opened HuffmanHeap
  import opened HuffmanLengths
  import opened HuffmanOptimal
  import opened HuffmanWeights
  import opened PrefixCodes
  import opened IntrusiveList
  import opened Prices

  const HEAP_SIZE: nat := 573

  /**
    The arrays of deflate_state that build_tree works on. `fc` holds frequencies and later codes, `dl` fathers and later
    lengths. The queue is at the front of `heap`, and nodes that have left it are at its end.
   */
  datatype Build = Build(fc: seq<nat>, dl: Links, depth: seq<nat>, heap: seq<nat>, heapLen: nat, heapMax: nat,
                         node: nat)

  /** The symbols in use and the inner nodes made so far, once each. */
  ghost function All(used: set<nat>, elems: nat, node: nat): multiset<nat> {
    multiset(used) + Inner(elems, node)
  }

  ghost function Inner(elems: nat, node: nat): multiset<nat> {
    if node <= elems then multiset{} else Inner(elems, node - 1) + multiset{node - 1}
  }

  lemma {:induction false} InnerOnce(elems: nat, node: nat, x: nat)
    ensures Inner(elems, node)[x] == if elems <= x < node then 1 else 0
  {
    if elems < node {
      InnerOnce(elems, node - 1, x);
    }
  }

  /** Nodes that have left the queue, in pairs with their fathers, the last pair first. */
  ghost predicate Fathers(heap: seq<nat>, heapMax: nat, dl: Links, elems: nat) {
    && |heap| == HEAP_SIZE && heapMax <= HEAP_SIZE
    && forall p :: heapMax <= p < HEAP_SIZE ==>
         heap[p] < elems + (HEAP_SIZE - 1 - p) / 2 && heap[p] < |dl| && dl[heap[p]] == elems + (HEAP_SIZE - 1 - p) / 2
  }

  ghost predicate Sized(b: Build, elems: nat) {
    && |b.fc| == |b.dl| == |b.depth| >= 2 * elems && |b.heap| == HEAP_SIZE && elems <= 286
    && 1 <= b.heapLen && elems <= b.node && b.heapMax <= HEAP_SIZE
    && HEAP_SIZE - b.heapMax == 2 * (b.node - elems)
  }

  /** Symbols that are not used have length 0. */
  ghost predicate ZeroUnused(dl: Links, used: set<nat>, elems: nat) {
    elems <= |dl| && forall x :: 0 <= x < elems && x !in used ==> dl[x] == 0
  }

  /** The nodes that have left the queue. */
  ghost function Gone(heap: seq<nat>, max: nat): multiset<nat>
    requires max <= |heap|
  {
    multiset(heap[max..])
  }

  /** What every round of build_tree keeps. */
  ghost predicate Forest(b: Build, used: set<nat>, elems: nat) {
    && Sized(b, elems) && b.heapLen + (b.node - elems) == |used| && |used| <= elems
    && (forall x :: x in used ==> x < elems)
    && ZeroUnused(b.dl, used, elems)
    && Nodes(b.heap, b.heapLen, b.node)
    && Queue(b.heap, b.heapLen) + Gone(b.heap, b.heapMax) == All(used, elems, b.node)
    && Fathers(b.heap, b.heapMax, b.dl, elems)
  }

  ghost predicate InOrder(b: Build)
    requires |b.fc| == |b.depth| && b.heapLen < |b.heap|
  {
    Nodes(b.heap, b.heapLen, |b.fc|) && Ordered(b.fc, b.depth, b.heap, b.heapLen, 1, 0)
  }

  lemma AllMore(used: set<nat>, elems: nat, node: nat)
    requires elems <= node
    ensures All(used, elems, node + 1) == All(used, elems, node) + multiset{node}
  {}

  /** The queue without its first node. */
  ghost function Others(heap: seq<nat>, len: nat): multiset<nat>
    requires 1 <= len < |heap|
  {
    multiset(heap[2..len + 1])
  }

  /** The queue before and after the first node has been replaced. */
  lemma FirstReplaced(heap: seq<nat>, len: nat, x: nat)
    requires 1 <= len < |heap|
    ensures Queue(heap, len) == Others(heap, len) + multiset{heap[1]}
    ensures Queue(heap[1 := x], len) == Others(heap, len) + multiset{x}
  {
    var rest := heap[2..len + 1];
    var a, b := heap[1..len + 1], heap[1 := x][1..len + 1];
    assert a[0] == heap[1] && a[1..] == rest && a == [heap[1]] + rest;
    assert b[0] == x && b[1..] == rest && b == [x] + rest;
  }

  /** A pair leaves the queue for the end of the array. */
  lemma PairAtEnd(heap: seq<nat>, heap': seq<nat>, max: nat, n: nat, m: nat)
    requires |heap| == |heap'| && 2 <= max <= |heap| && heap'[max - 1] == n && heap'[max - 2] == m
    requires forall i :: max <= i < |heap| ==> heap'[i] == heap[i]
    ensures Gone(heap', max - 2) == Gone(heap, max) + multiset{n} + multiset{m}
  {
    var a, b := heap'[max - 2..], [m, n] + heap[max..];
    forall i | 0 <= i < |a| ensures a[i] == b[i] {
      assert a[i] == heap'[max - 2 + i];
    }
    assert a == b;
  }

  /** The new node does not touch the order of the others. */
  lemma OrderKept(fc: seq<nat>, depth: seq<nat>, fc': seq<nat>, depth': seq<nat>, heap: seq<nat>, heap': seq<nat>,
                  len: nat, node: nat)
    requires |fc| == |depth| == |fc'| == |depth'| && Nodes(heap, len, node) && node < |fc|
    requires Nodes(heap, len, |fc|) && Ordered(fc, depth, heap, len, 1, 0) && Nodes(heap', len, |fc|)
    requires forall x :: 0 <= x < node ==> fc'[x] == fc[x] && depth'[x] == depth[x]
    requires forall i :: 2 <= i <= len ==> heap'[i] == heap[i]
    ensures Ordered(fc', depth', heap', len, 1, 1)
  {
    forall c | 2 <= c <= len && c / 2 >= 1 && c / 2 != 1 ensures Smaller(fc', depth', heap'[c / 2], heap'[c]) {
      assert heap'[c] == heap[c] && Smaller(fc, depth, heap[c / 2], heap[c]);
    }
  }

  lemma NodesIn(heap: seq<nat>, len: nat, x: nat, size: nat)
    requires Nodes(heap, len, size) && x in Queue(heap, len)
    ensures x < size
  {
    var s := heap[1..len + 1];
    assert x in s;
    var i :| 0 <= i < |s| && s[i] == x;
    assert heap[i + 1] == x;
  }

  lemma NodesOf(heap: seq<nat>, len: nat, size: nat)
    requires len < |heap| && forall x :: x in Queue(heap, len) ==> x < size
    ensures Nodes(heap, len, size)
  {
    forall i | 1 <= i <= len ensures heap[i] < size {
      assert heap[1..len + 1][i - 1] == heap[i];
      assert heap[i] in Queue(heap, len);
    }
  }

  function Higher(a: nat, b: nat): nat {
    if a >= b then a else b
  }

  /** One round: the two least nodes of the queue get a common father, who takes their place. */
  method Combine(b: Build, ghost used: set<nat>, elems: nat)
      returns (d: Build, n: nat, m: nat, ghost q: multiset<nat>)
    requires Forest(b, used, elems) && InOrder(b) && b.heapLen >= 2
    ensures Forest(d, used, elems) && InOrder(d) && d.heapLen == b.heapLen - 1 && d.node == b.node + 1
    ensures |d.fc| == |b.fc| && forall x :: 0 <= x < elems ==> d.fc[x] == b.fc[x]
    ensures n < b.node && m < b.node < |b.fc| && d.fc == b.fc[b.node := (b.fc[n] + b.fc[m]) % 0x1_0000]
    ensures d.depth == b.depth[b.node := (Higher(b.depth[n], b.depth[m]) + 1) % 256]
    ensures Queue(b.heap, b.heapLen) == q + multiset{m} + multiset{n}
    ensures Queue(d.heap, d.heapLen) == q + multiset{b.node}
    ensures b.heapMax >= 2 && d.heap[b.heapMax - 1] == n && d.heap[b.heapMax - 2] == m
    ensures forall i :: b.heapMax <= i < HEAP_SIZE ==> d.heap[i] == b.heap[i]
    ensures forall x :: x in Queue(b.heap, b.heapLen) ==> x < |b.fc| && Smaller(b.fc, b.depth, n, x)
    ensures forall x :: x in Queue(b.heap, b.heapLen) - multiset{n} ==> x < |b.fc| && Smaller(b.fc, b.depth, m, x)
  {
    hide Ordered, Queue, Shuffled, Fathers, All, Gone, ZeroUnused, Others;
    var heap, len;
    n, heap, len := PqRemove(b.fc, b.depth, b.heap, b.heapLen);
    m := heap[1];
    LeastOfAll(b.fc, b.depth, heap, len);
    RemovedNodes(b.heap, b.heapLen, heap, len, n, b.node);
    FirstReplaced(heap, len, b.node);
    ghost var heap1 := heap;
    heap := heap[b.heapMax - 1 := n];
    heap := heap[b.heapMax - 2 := m];
    var fc := b.fc[b.node := (b.fc[n] + b.fc[m]) % 0x1_0000];
    var depth := b.depth[b.node := (Higher(b.depth[n], b.depth[m]) + 1) % 256];
    var dl := b.dl[n := b.node][m := b.node];
    heap := heap[1 := b.node];
    ghost var heap2 := heap;
    NewFather(heap1, heap2, len, b.node);
    OrderKept(b.fc, b.depth, fc, depth, heap1, heap2, len, b.node);
    heap := PqDownHeap(fc, depth, heap, len, 1);
    SameQueue(heap2, heap, len);
    Unmoved(heap2, heap, len);
    d := Build(fc, dl, depth, heap, len, b.heapMax - 2, b.node + 1);
    q := Others(heap1, len);
    Combined(b, d, used, elems, n, m, q);
  }

  lemma RemovedNodes(heap: seq<nat>, len: nat, heap': seq<nat>, len': nat, n: nat, size: nat)
    requires len < |heap| && len' < |heap'| && Nodes(heap, len, size)
    requires Queue(heap, len) == Queue(heap', len') + multiset{n}
    ensures n < size && Nodes(heap', len', size)
  {
    hide Queue;
    NodesIn(heap, len, n, size);
    forall x | x in Queue(heap', len') ensures x < size {
      NodesIn(heap, len, x, size);
    }
    NodesOf(heap', len', size);
  }

  lemma NewFather(heap: seq<nat>, heap': seq<nat>, len: nat, node: nat)
    requires 1 <= len < |heap| == |heap'| && Nodes(heap, len, node)
    requires heap'[1] == node && forall i :: 2 <= i <= len ==> heap'[i] == heap[i]
    ensures Nodes(heap', len, node + 1)
    ensures Queue(heap', len) == Queue(heap[1 := node], len)
  {
    assert heap'[1..len + 1] == heap[1 := node][1..len + 1];
  }

  /** The round keeps what is known. */
  lemma Combined(b: Build, d: Build, used: set<nat>, elems: nat, n: nat, m: nat, q: multiset<nat>)
    requires Forest(b, used, elems) && b.heapLen >= 2 && d.heapLen == b.heapLen - 1 && n < b.node && m < b.node
    requires |d.fc| == |d.depth| == |b.fc| && d.dl == b.dl[n := b.node][m := b.node]
    requires |d.heap| == HEAP_SIZE && d.heapMax == b.heapMax - 2 && d.node == b.node + 1
    requires Queue(b.heap, b.heapLen) == q + multiset{m} + multiset{n}
    requires Queue(d.heap, d.heapLen) == q + multiset{b.node}
    requires d.heap[b.heapMax - 1] == n && d.heap[b.heapMax - 2] == m
    requires forall i :: b.heapMax <= i < HEAP_SIZE ==> d.heap[i] == b.heap[i]
    requires Nodes(d.heap, d.heapLen, |d.fc|)
    ensures Forest(d, used, elems)
  {
    hide Queue, All, Fathers, ZeroUnused, Nodes, Gone;
    CombinedQueue(b, d, used, elems, n, m, q);
    CombinedPair(b, used, elems, n, m, q);
    FathersMore(b, d, elems, n, m);
    ZerosKept(b.dl, used, elems, n, m, b.node);
  }

  lemma CombinedQueue(b: Build, d: Build, used: set<nat>, elems: nat, n: nat, m: nat, q: multiset<nat>)
    requires Forest(b, used, elems) && b.heapLen >= 2 && d.heapLen == b.heapLen - 1
    requires |d.heap| == HEAP_SIZE && d.heapMax == b.heapMax - 2 >= 0 && d.node == b.node + 1
    requires Queue(b.heap, b.heapLen) == q + multiset{m} + multiset{n}
    requires Queue(d.heap, d.heapLen) == q + multiset{b.node}
    requires d.heap[b.heapMax - 1] == n && d.heap[b.heapMax - 2] == m
    requires forall i :: b.heapMax <= i < HEAP_SIZE ==> d.heap[i] == b.heap[i]
    ensures Queue(d.heap, d.heapLen) + Gone(d.heap, d.heapMax) == All(used, elems, d.node)
    ensures Nodes(d.heap, d.heapLen, d.node)
  {
    hide *;
    ForestFacts(b, used, elems);
    SizedFacts(b, elems);
    QueueBelow(b, d, n, m, q);
    PairAtEnd(b.heap, d.heap, b.heapMax, n, m);
    AllMore(used, elems, b.node);
    Balance(q, Gone(b.heap, b.heapMax), All(used, elems, b.node), n, m, b.node, Queue(d.heap, d.heapLen),
      Gone(d.heap, d.heapMax), All(used, elems, d.node));
  }

  lemma ForestFacts(b: Build, used: set<nat>, elems: nat)
    requires Forest(b, used, elems)
    ensures Sized(b, elems) && Nodes(b.heap, b.heapLen, b.node) && b.heapLen < |b.heap| && b.heapMax <= |b.heap|
    ensures Queue(b.heap, b.heapLen) + Gone(b.heap, b.heapMax) == All(used, elems, b.node)
    ensures forall x :: x in used ==> x < elems
  {}

  lemma SizedFacts(b: Build, elems: nat)
    requires Sized(b, elems)
    ensures |b.heap| == HEAP_SIZE && elems <= b.node && b.heapMax <= HEAP_SIZE
  {}

  lemma CombinedPair(b: Build, used: set<nat>, elems: nat, n: nat, m: nat, q: multiset<nat>)
    requires Forest(b, used, elems) && Queue(b.heap, b.heapLen) == q + multiset{m} + multiset{n}
    ensures (n in used || n >= elems) && (m in used || m >= elems) && n != m
    ensures forall p :: b.heapMax <= p < HEAP_SIZE ==> b.heap[p] != n && b.heap[p] != m
  {
    hide *;
    ForestFacts(b, used, elems);
    SizedFacts(b, elems);
    Once(used, elems, b.node);
    PairFacts(q, Gone(b.heap, b.heapMax), All(used, elems, b.node), n, m);
    InTop(b.heap, b.heapMax);
  }

  /** No node is twice in the forest: a pair that leaves the queue has not left it before. */
  lemma PairFacts(q: multiset<nat>, top: multiset<nat>, all: multiset<nat>, n: nat, m: nat)
    requires q + multiset{m} + multiset{n} + top == all && forall x: nat :: all[x] <= 1
    ensures n != m && n !in top && m !in top && all[n] == 1 && all[m] == 1
  {
    assert (q + multiset{m} + multiset{n} + top)[n] == q[n] + multiset{m}[n] + 1 + top[n];
    assert (q + multiset{m} + multiset{n} + top)[m] == q[m] + 1 + multiset{n}[m] + top[m];
  }

  lemma InTop(heap: seq<nat>, max: nat)
    requires max <= |heap|
    ensures forall p :: max <= p < |heap| ==> heap[p] in Gone(heap, max)
  {
    var top := heap[max..];
    forall p | max <= p < |heap| ensures heap[p] in Gone(heap, max) {
      assert top[p - max] == heap[p];
    }
  }

  lemma ZerosKept(dl: Links, used: set<nat>, elems: nat, n: nat, m: nat, node: nat)
    requires ZeroUnused(dl, used, elems) && n < |dl| && m < |dl|
    requires (n in used || n >= elems) && (m in used || m >= elems)
    ensures ZeroUnused(dl[n := node][m := node], used, elems)
  {}

  lemma Balance(q: multiset<nat>, top: multiset<nat>, all: multiset<nat>, n: nat, m: nat, node: nat, q': multiset<nat>,
                top': multiset<nat>, all': multiset<nat>)
    requires q + multiset{m} + multiset{n} + top == all
    requires q' == q + multiset{node} && top' == top + multiset{n} + multiset{m} && all' == all + multiset{node}
    ensures q' + top' == all'
  {}

  lemma FathersMore(b: Build, d: Build, elems: nat, n: nat, m: nat)
    requires Sized(b, elems) && Fathers(b.heap, b.heapMax, b.dl, elems) && b.heapMax >= 2 && n < b.node && m < b.node
    requires |d.heap| == HEAP_SIZE && d.heapMax == b.heapMax - 2 && b.node < |b.dl|
    requires d.dl == b.dl[n := b.node][m := b.node]
    requires d.heap[b.heapMax - 1] == n && d.heap[b.heapMax - 2] == m
    requires forall i :: b.heapMax <= i < HEAP_SIZE ==> d.heap[i] == b.heap[i]
    requires forall p :: b.heapMax <= p < HEAP_SIZE ==> b.heap[p] != n && b.heap[p] != m
    ensures Fathers(d.heap, d.heapMax, d.dl, elems)
  {
    forall p | d.heapMax <= p < HEAP_SIZE
      ensures d.heap[p] < elems + (HEAP_SIZE - 1 - p) / 2 && d.heap[p] < |d.dl|
      ensures d.dl[d.heap[p]] == elems + (HEAP_SIZE - 1 - p) / 2
    {
      if p >= b.heapMax {
        assert d.heap[p] == b.heap[p];
      } else {
        assert (HEAP_SIZE - 1 - p) / 2 == b.node - elems;
      }
    }
  }

  lemma QueueBelow(b: Build, d: Build, n: nat, m: nat, q: multiset<nat>)
    requires b.heapLen < |b.heap| && d.heapLen < |d.heap| && Nodes(b.heap, b.heapLen, b.node) && d.node == b.node + 1
    requires Queue(b.heap, b.heapLen) == q + multiset{m} + multiset{n}
    requires Queue(d.heap, d.heapLen) == q + multiset{b.node}
    ensures Nodes(d.heap, d.heapLen, d.node)
  {
    hide Queue;
    forall x | x in Queue(d.heap, d.heapLen) ensures x < d.node {
      if x != b.node {
        assert x in Queue(b.heap, b.heapLen);
        NodesIn(b.heap, b.heapLen, x, b.node);
      }
    }
    NodesOf(d.heap, d.heapLen, d.node);
  }

  lemma Once(used: set<nat>, elems: nat, node: nat)
    requires forall x :: x in used ==> x < elems
    ensures forall x: nat :: All(used, elems, node)[x] == if x in used || elems <= x < node then 1 else 0
  {
    forall x: nat ensures All(used, elems, node)[x] == if x in used || elems <= x < node then 1 else 0 {
      InnerOnce(elems, node, x);
    }
  }

  // ----- the beginning -----

  lemma QueueMore(heap: seq<nat>, len: nat, x: nat)
    requires len + 1 < |heap|
    ensures Queue(heap[len + 1 := x], len + 1) == Queue(heap, len) + multiset{x}
  {
    assert heap[len + 1 := x][1..len + 2] == heap[1..len + 1] + [x];
  }

  /** The symbols collected so far, the last of them `maxCode`. */
  ghost predicate Collected(heap: seq<nat>, len: nat, used: set<nat>, maxCode: int) {
    && len < |heap| && Queue(heap, len) == multiset(used) && |used| == len
    && (forall x :: x in used ==> x <= maxCode) && (if len == 0 then maxCode == -1 else maxCode >= 0 && maxCode in used)
  }

  lemma CollectedMore(heap: seq<nat>, len: nat, used: set<nat>, maxCode: int, x: nat)
    requires Collected(heap, len, used, maxCode) && len + 1 < |heap| && x !in used
    ensures Collected(heap[len + 1 := x], len + 1, used + {x}, if x > maxCode then x else maxCode)
  {
    hide Queue;
    QueueMore(heap, len, x);
    assert multiset(used + {x}) == multiset(used) + multiset{x};
  }

  /** The first loops of build_tree: all symbols that occur, and at least two. */
  method Collect(freq: seq<nat>, desc: Desc, dl0: Links, depth0: seq<nat>, heap0: seq<nat>, elems: nat)
      returns (b: Build, maxCode: nat, opt: int, stat: int, ghost used: set<nat>, ghost forced: seq<nat>)
    requires |freq| == |dl0| == |depth0| >= 2 * elems && |heap0| == HEAP_SIZE && 3 <= elems <= 286 && desc.Fits(elems)
    requires forall x :: 0 <= x < 3 ==> desc.Extra(x) == 0
    ensures Forest(b, used, elems) && b.heapLen >= 2 && b.heapMax == HEAP_SIZE && b.node == elems && |b.fc| == |freq|
    ensures maxCode < elems && maxCode in used && forall x :: x in used ==> x <= maxCode
    ensures Force(freq, forced, elems) && b.fc == Forced(freq, forced) && (forced != [] ==> |used| == 2)
    ensures forall x :: 0 <= x < elems ==> (x in used <==> b.fc[x] != 0)
    ensures forall x :: x in used ==> b.depth[x] == 0
    ensures opt + |forced| == 0 && stat + StaticForced(desc, forced) == 0
  {
    hide Queue, Collected, Forced, Force, StaticForced;
    var fc: seq<nat>, dl: Links, depth: seq<nat>, heap: seq<nat> := freq, dl0, depth0, heap0;
    var len: nat, last := 0, -1;
    used, forced, opt, stat := {}, [], 0, 0;
    NoneForced(freq, desc, elems);
    NothingYet(heap);
    for n := 0 to elems
      invariant |fc| == |dl| == |depth| == |freq| && |heap| == HEAP_SIZE && fc == freq && len <= n && last < n
      invariant Collected(heap, len, used, last) && (forall x :: x in used ==> x < n)
      invariant forall x :: 0 <= x < n ==> if freq[x] != 0 then x in used else x !in used && dl[x] == 0
      invariant forall x :: x in used ==> depth[x] == 0
    {
      if fc[n] != 0 {
        CollectedMore(heap, len, used, last, n);
        len := len + 1;
        heap, last := heap[len := n], n;
        depth := depth[n := 0];
        used := used + {n};
      } else {
        dl := dl[n := 0];
      }
    }
    while len < 2
      invariant |fc| == |dl| == |depth| == |freq| && |heap| == HEAP_SIZE && len <= elems && -1 <= last < elems
      invariant Collected(heap, len, used, last) && (forall x :: x in used ==> x < elems)
      invariant forall x :: 0 <= x < elems ==> x in used || dl[x] == 0
      invariant forall x :: x in used ==> depth[x] == 0
      invariant forall x :: 0 <= x < elems ==> (x in used <==> fc[x] != 0)
      invariant Force(freq, forced, elems) && fc == Forced(freq, forced) && (forced != [] ==> 0 < len <= 2)
      invariant opt + |forced| == 0 && stat + StaticForced(desc, forced) == 0
    {
      ForcedIsNew(heap, len, used, last);
      var node: nat := if last < 2 then last + 1 else 0;
      CollectedMore(heap, len, used, last, node);
      if last < 2 {
        last := last + 1;
      }
      len := len + 1;
      heap := heap[len := node];
      OneForced(freq, desc, forced, elems, node);
      fc := fc[node := 1];
      forced := forced + [node];
      opt := opt - 1;
      if desc.hasStatic {
        stat := stat - desc.staticLens[node];
      }
      depth := depth[node := 0];
      used := used + {node};
    }
    LastIs(heap, len, used, last);
    maxCode := last;
    b := Build(fc, dl, depth, heap, len, HEAP_SIZE, elems);
    Collecting(b, used, elems);
  }

  // ----- symbols that are forced into the code -----

  /** Symbols that do not occur, each counted as if it did once. */
  function Forced(freq: seq<nat>, forced: seq<nat>): (fc: seq<nat>)
    ensures |fc| == |freq| && forall x :: 0 <= x < |freq| ==> fc[x] == if x in forced then 1 else freq[x]
  {
    seq(|freq|, x requires 0 <= x < |freq| => if x in forced then 1 else freq[x])
  }

  /** Different ones that do not occur, from the first three. */
  ghost predicate Force(freq: seq<nat>, forced: seq<nat>, elems: nat) {
    && NoRepeats(forced) && 3 <= elems <= |freq|
    && forall x :: x in forced ==> x < 3 && freq[x] == 0
  }

  function StaticForced(desc: Desc, forced: seq<nat>): nat {
    if forced == [] then 0
    else StaticForced(desc, forced[..|forced| - 1]) + desc.StaticBits(forced[|forced| - 1])
  }

  lemma NoneForced(freq: seq<nat>, desc: Desc, elems: nat)
    requires 3 <= elems <= |freq|
    ensures Force(freq, [], elems) && Forced(freq, []) == freq && StaticForced(desc, []) == 0
  {}

  /** One more. */
  lemma OneForced(freq: seq<nat>, desc: Desc, forced: seq<nat>, elems: nat, x: nat)
    requires Force(freq, forced, elems) && x < 3 && Forced(freq, forced)[x] == 0 && desc.Fits(elems)
    requires forall y :: 0 <= y < 3 ==> desc.Extra(y) == 0
    ensures Force(freq, forced + [x], elems) && Forced(freq, forced + [x]) == Forced(freq, forced)[x := 1]
    ensures StaticForced(desc, forced + [x])
         == StaticForced(desc, forced) + if desc.hasStatic then desc.staticLens[x] else 0
  {
    var more := forced + [x];
    assert more[..|more| - 1] == forced;
    assert x !in forced;
  }

  lemma ForceLess(freq: seq<nat>, forced: seq<nat>, elems: nat)
    requires Force(freq, forced, elems) && forced != []
    ensures var before, x := forced[..|forced| - 1], forced[|forced| - 1]; Force(freq, before, elems) && x !in before
  {
    var before, x := forced[..|forced| - 1], forced[|forced| - 1];
    forall y | y in before ensures y < 3 && freq[y] == 0 && y != x {
      assert y in forced;
    }
  }

  /** What forced symbols with codes of one bit add to the prices. */
  lemma {:induction false} ForcedPrices(freq: seq<nat>, desc: Desc, forced: seq<nat>, lens: Links, elems: nat)
    requires Force(freq, forced, elems) && elems <= |lens| && forall x :: x in forced ==> lens[x] == 1
    requires forall x :: 0 <= x < 3 ==> desc.Extra(x) == 0
    ensures PriceSum(Forced(freq, forced), desc, lens, elems) == PriceSum(freq, desc, lens, elems) + |forced|
    ensures StaticSum(Forced(freq, forced), desc, elems) == StaticSum(freq, desc, elems) + StaticForced(desc, forced)
  {
    hide PriceSum, StaticSum, Forced, Desc.Extra, Desc.StaticBits;
    if forced != [] {
      var before, x := forced[..|forced| - 1], forced[|forced| - 1];
      assert forced == before + [x] && x in forced;
      ForceLess(freq, forced, elems);
      ForcedPrices(freq, desc, before, lens, elems);
      assert x !in before;
      assert Forced(freq, forced) == Forced(freq, before)[x := 1];
      OncePrice(Forced(freq, before), desc, lens, x, elems);
    } else {
      assert Forced(freq, forced) == freq;
    }
  }

  /** If two symbols occur none is forced. */
  lemma TwoOccur(freq: seq<nat>, forced: seq<nat>, used: set<nat>, elems: nat, x: nat, y: nat)
    requires Force(freq, forced, elems) && (forced != [] ==> |used| == 2)
    requires forall z :: 0 <= z < elems ==> (z in used <==> Forced(freq, forced)[z] != 0)
    requires x < y < elems && freq[x] != 0 && freq[y] != 0
    ensures forced == []
  {
    if forced != [] {
      assert forced[0] in forced;
      var three := {x, y, forced[0]};
      Subset(three, used);
      assert false;
    }
  }

  lemma NothingYet(heap: seq<nat>)
    requires |heap| == HEAP_SIZE
    ensures Collected(heap, 0, {}, -1)
  {
    assert heap[1..1] == [];
  }

  /** A symbol that is added so that there are two. */
  lemma ForcedIsNew(heap: seq<nat>, len: nat, used: set<nat>, last: int)
    requires Collected(heap, len, used, last) && len < 2 && last >= -1
    ensures (if last < 2 then last + 1 else 0) !in used
  {
    if last >= 2 && 0 in used {
      var both := {0, last as nat};
      assert both <= used;
      Subset(both, used);
    }
  }

  lemma {:induction false} Subset(a: set<nat>, b: set<nat>)
    requires a <= b
    ensures |a| <= |b|
  {
    if a != {} {
      var x :| x in a;
      Subset(a - {x}, b - {x});
    }
  }

  lemma LastIs(heap: seq<nat>, len: nat, used: set<nat>, last: int)
    requires Collected(heap, len, used, last) && len >= 2
    ensures last >= 0 && last in used && |used| == len && forall x :: x in used ==> x <= last
    ensures Queue(heap, len) == multiset(used)
  {}

  lemma Collecting(b: Build, used: set<nat>, elems: nat)
    requires Sized(b, elems) && b.heapMax == HEAP_SIZE && b.node == elems && b.heapLen == |used| < HEAP_SIZE
    requires Queue(b.heap, b.heapLen) == multiset(used) && (forall x :: x in used ==> x < elems)
    requires forall x :: 0 <= x < elems ==> x in used || b.dl[x] == 0
    ensures Forest(b, used, elems)
  {
    hide Queue;
    assert b.heap[b.heapMax..] == [];
    NodesOf(b.heap, b.heapLen, b.node);
    AtMostElems(used, elems);
  }

  lemma {:induction false} AtMostElems(used: set<nat>, n: nat)
    requires forall x :: x in used ==> x < n
    ensures |used| <= n
    decreases n
  {
    if n > 0 {
      AtMostElems(used - {n - 1}, n - 1);
    } else {
      assert used == {};
    }
  }

  /** The queue is put in order, from its end. */
  method Heapify(b: Build, ghost used: set<nat>, elems: nat) returns (d: Build)
    requires Forest(b, used, elems) && b.heapMax == HEAP_SIZE
    ensures Forest(d, used, elems) && InOrder(d) && d == b.(heap := d.heap)
  {
    hide Queue, All, Shuffled, Fathers;
    var heap: seq<nat>, n: nat := b.heap, b.heapLen / 2;
    while n >= 1
      invariant n <= b.heapLen / 2 && |heap| == HEAP_SIZE && Nodes(heap, b.heapLen, |b.fc|)
      invariant Queue(heap, b.heapLen) == Queue(b.heap, b.heapLen)
      invariant Ordered(b.fc, b.depth, heap, b.heapLen, n + 1, 0)
    {
      ghost var before := heap;
      heap := PqDownHeap(b.fc, b.depth, heap, b.heapLen, n);
      SameQueue(before, heap, b.heapLen);
      Unmoved(before, heap, b.heapLen);
      n := n - 1;
    }
    d := b.(heap := heap);
    forall x | x in Queue(heap, b.heapLen) ensures x < b.node {
      NodesIn(b.heap, b.heapLen, x, b.node);
    }
    NodesOf(heap, b.heapLen, b.node);
    assert d.heap[d.heapMax..] == b.heap[b.heapMax..];
    NoFathers(d, elems);
  }

  lemma NoFathers(d: Build, elems: nat)
    requires |d.heap| == HEAP_SIZE == d.heapMax
    ensures Fathers(d.heap, d.heapMax, d.dl, elems)
  {}

  // ----- the end -----

  /** When one node is left it is the root, and the nodes at the end of the array are a tree from there down. */
  lemma OneTree(b: Build, used: set<nat>, elems: nat, top: seq<nat>)
    requires Forest(b, used, elems) && b.heapLen == 1 && |used| >= 2 && top == [b.heap[1]] + b.heap[b.heapMax..]
    ensures TopDown(b.dl, elems, top) && |top| == 2 * |used| - 1
    ensures forall x: nat :: x in top <==> x in used || elems <= x < b.node
  {
    TreeNodes(b, used, elems, top);
    TreeFathers(b, used, elems, top);
    assert b.node - 1 in top;
    assert forall i :: 1 <= i < |top| ==> top[i] < b.node - 1;
    hide Forest;
    OnceEach(top);
  }

  lemma TreeNodes(b: Build, used: set<nat>, elems: nat, top: seq<nat>)
    requires Forest(b, used, elems) && b.heapLen == 1 && top == [b.heap[1]] + b.heap[b.heapMax..]
    ensures forall x: nat :: multiset(top)[x] <= 1
    ensures forall x: nat :: x in top <==> x in used || elems <= x < b.node
  {
    hide All, Fathers, ZeroUnused;
    assert b.heap[1..2] == [b.heap[1]];
    assert multiset(top) == All(used, elems, b.node);
    Once(used, elems, b.node);
    forall x: nat ensures x in top <==> x in used || elems <= x < b.node {
      assert x in top <==> multiset(top)[x] > 0;
    }
  }

  lemma TreeFathers(b: Build, used: set<nat>, elems: nat, top: seq<nat>)
    requires Forest(b, used, elems) && b.heapLen == 1 && |used| >= 2 && top == [b.heap[1]] + b.heap[b.heapMax..]
    ensures |top| == 2 * |used| - 1 && b.node - 1 == Root(elems, top) < |b.dl|
    ensures forall i :: 1 <= i < |top| ==>
      top[i] < |b.dl| && b.dl[top[i]] == Father(elems, top, i) > top[i] && top[i] < b.node - 1
  {
    hide Queue, All, ZeroUnused;
    forall i | 1 <= i < |top|
      ensures top[i] < |b.dl| && b.dl[top[i]] == Father(elems, top, i) > top[i] && top[i] < b.node - 1
    {
      assert top[i] == b.heap[b.heapMax + i - 1];
    }
  }

  lemma OnceEach(s: seq<nat>)
    requires forall x: nat :: multiset(s)[x] <= 1
    ensures NoRepeats(s)
  {
    forall i, j | 0 <= i < j < |s| ensures s[i] != s[j] {
      assert s == s[..i] + [s[i]] + s[i + 1..j] + [s[j]] + s[j + 1..];
      assert multiset(s)[s[i]] == multiset(s[..i])[s[i]] + 1 + multiset(s[i + 1..j])[s[i]]
        + multiset([s[j]])[s[i]] + multiset(s[j + 1..])[s[i]];
    }
  }

  /** The lengths of the symbols, from those of the leaves. */
  lemma {:induction false} SymbolLengths(dl: Links, top: seq<nat>, used: set<nat>, l: nat, n: nat)
    requires 1 < |top| && NoRepeats(top) && Inside(top, |dl|) && n <= |dl| && l > 0
    requires forall x :: x in used ==> x in top[1..]
    requires forall x :: 0 <= x < n && x !in used ==> dl[x] == 0
    ensures Same(dl[..n], l, n) == SumIn(Exactly(l), dl, top, 0, n, |top|)
    decreases n
  {
    if n == 0 {
      SumNone(Exactly(l), dl, top, 0, 0, |top|);
    } else {
      SymbolLengths(dl, top, used, l, n - 1);
      SumSplit(Exactly(l), dl, top, 0, n - 1, n, |top|);
      SumOne(Exactly(l), dl, top, n - 1, |top|);
      assert top[1..|top|] == top[1..];
      SamePrefix(dl[..n - 1], dl[..n], l, n - 1);
    }
  }

  lemma {:induction false} SamePrefix(a: Lengths, b: Lengths, l: nat, n: nat)
    requires n <= |a| <= |b| && a == b[..|a|]
    ensures Same(a, l, n) == Same(b, l, n)
    decreases n
  {
    if n > 0 {
      SamePrefix(a, b, l, n - 1);
    }
  }

  /** The shares of all symbols, from the counts. */
  lemma {:induction false} KraftCounted(lens: Lengths, c: seq<nat>, l: nat)
    requires Limited(lens) && |c| == MAX_BITS + 1 && c[0] == 0 && l <= MAX_BITS
    requires forall k :: 1 <= k <= MAX_BITS ==> c[k] == Same(lens, k, |lens|)
    ensures Shorter(lens, l + 1, |lens|) == Counted(c, l + 1)
    decreases l
  {
    if l == 0 {
      NothingShorter(lens, |lens|);
      assert Counted(c, 1) == Counted(c, 0) + 0 * Weight(0);
    } else {
      KraftCounted(lens, c, l - 1);
      OneLonger(lens, l, |lens|);
    }
  }

  /** A complete code within the limit for all symbols that occur. */
  ghost predicate Complete(lens: Lengths, max: nat) {
    Codable(lens) && Kraft(lens) == Pow2(MAX_BITS) && forall i :: 0 <= i < |lens| ==> lens[i] <= max
  }

  // ----- weights -----

  /** The inner node `x` weighs what his two sons at the end of the array weigh, and is higher. */
  ghost predicate Joined(fc: seq<nat>, depth: seq<nat>, heap: seq<nat>, elems: nat, x: nat) {
    && |heap| == HEAP_SIZE && elems <= x < |fc| == |depth| && 2 * (x - elems) + 1 < HEAP_SIZE
    && var p := HEAP_SIZE - 1 - 2 * (x - elems);
       && heap[p] < x && heap[p - 1] < x && fc[heap[p]] + fc[heap[p - 1]] == fc[x]
       && depth[heap[p]] < depth[x] && depth[heap[p - 1]] < depth[x]
  }

  ghost predicate AllJoined(fc: seq<nat>, depth: seq<nat>, heap: seq<nat>, elems: nat, node: nat) {
    forall x :: elems <= x < node ==> Joined(fc, depth, heap, elems, x)
  }

  /**
    The queue still weighs `total`; the inner nodes made so far, with those that the construction has still to make,
    weigh `goal`; and the tree will have this height.
   */
  ghost predicate Weighs(fc: seq<nat>, depth: seq<nat>, queue: multiset<nat>, elems: nat, node: nat, total: nat,
                         goal: nat, height: nat) {
    && Below(queue, node) && elems <= node <= |fc| == |depth| && |queue| > 0 && Heavy(fc, depth, queue)
    && Sum(Values(fc, depth, queue)) == total
    && SumRange(Itself, fc, elems, node) + FatherWeights(Values(fc, depth, queue)) == goal
    && FinalHeight(Values(fc, depth, queue)) == height
  }

  /** A round keeps that, as long as the weights fit the 16 bits of a frequency; then heights fit 8 bits. */
  lemma WeighsOn(fc: seq<nat>, depth: seq<nat>, fc': seq<nat>, depth': seq<nat>, elems: nat, node: nat, n: nat, m: nat,
                 q: multiset<nat>, total: nat, goal: nat, height: nat)
    requires n < node && m < node < |fc| == |depth| && Below(q, node)
    requires fc' == fc[node := (fc[n] + fc[m]) % 0x1_0000]
    requires depth' == depth[node := (Higher(depth[n], depth[m]) + 1) % 256]
    requires Weighs(fc, depth, q + multiset{m} + multiset{n}, elems, node, total, goal, height) && total < 0x1_0000
    requires Precedes(NodeAt(fc, depth, n), NodeAt(fc, depth, m))
    requires forall x :: x in q ==> Precedes(NodeAt(fc, depth, m), NodeAt(fc, depth, x))
    ensures Weighs(fc', depth', q + multiset{node}, elems, node + 1, total, goal, height)
    ensures fc'[node] == fc[n] + fc[m] && depth'[node] > depth[n] && depth'[node] > depth[m]
  {
    hide Values, Sum, FatherWeights, FinalHeight, SumRange, Heavy;
    NoWrap(fc, depth, q, n, m);
    RoundSum(fc, depth, fc', depth', q, n, m, node);
    RoundFathers(fc, depth, fc', depth', q, n, m, node);
    HeavyOn(fc, depth, fc', depth', q, n, m, node);
    RangeMore(fc, fc', elems, node);
  }

  lemma NoWrap(fc: seq<nat>, depth: seq<nat>, q: multiset<nat>, n: nat, m: nat)
    requires Below(q, |fc|) && n < |fc| == |depth| && m < |fc| && Heavy(fc, depth, q + multiset{m} + multiset{n})
    requires Sum(Values(fc, depth, q + multiset{m} + multiset{n})) < 0x1_0000
    ensures fc[n] + fc[m] < 0x1_0000 && Higher(depth[n], depth[m]) + 1 < 256
  {
    hide Values, Sum, Heavy, Fib;
    PairWeighs(fc, depth, q, n, m);
    FatherHeavy(fc, depth, q + multiset{m} + multiset{n}, n, m);
    var f := FatherNode(NodeAt(fc, depth, n), NodeAt(fc, depth, m));
    Fib23();
    if f.h >= 23 {
      FibGrows(23, f.h);
    }
  }

  lemma LeastPair(fc: seq<nat>, depth: seq<nat>, heap: seq<nat>, len: nat, node: nat, n: nat, m: nat, q: multiset<nat>)
    requires n < node && m < node < |fc| == |depth| && len < |heap| && Nodes(heap, len, node)
    requires Queue(heap, len) == q + multiset{m} + multiset{n}
    requires forall x :: x in Queue(heap, len) ==> x < |fc| && Smaller(fc, depth, n, x)
    requires forall x :: x in Queue(heap, len) - multiset{n} ==> x < |fc| && Smaller(fc, depth, m, x)
    ensures Below(q, node) && Precedes(NodeAt(fc, depth, n), NodeAt(fc, depth, m))
    ensures forall x :: x in q ==> Precedes(NodeAt(fc, depth, m), NodeAt(fc, depth, x))
  {
    hide Queue, Nodes;
    assert q + multiset{m} + multiset{n} - multiset{n} == q + multiset{m};
    assert m in Queue(heap, len);
    forall x | x in q ensures x < node && Precedes(NodeAt(fc, depth, m), NodeAt(fc, depth, x)) {
      assert x in Queue(heap, len) && x in q + multiset{m};
      NodesIn(heap, len, x, node);
    }
  }

  lemma RangeMore(fc: seq<nat>, fc': seq<nat>, lo: nat, hi: nat)
    requires lo <= hi < |fc| == |fc'| && forall x :: 0 <= x < hi ==> fc'[x] == fc[x]
    ensures SumRange(Itself, fc', lo, hi + 1) == SumRange(Itself, fc, lo, hi) + fc'[hi]
  {
    RangeFrame(fc, fc', lo, hi);
  }

  lemma {:induction false} RangeFrame(fc: seq<nat>, fc': seq<nat>, lo: nat, hi: nat)
    requires hi <= |fc| == |fc'| && forall x :: 0 <= x < hi ==> fc'[x] == fc[x]
    ensures SumRange(Itself, fc', lo, hi) == SumRange(Itself, fc, lo, hi)
    decreases hi
  {
    if lo < hi {
      RangeFrame(fc, fc', lo, hi - 1);
    }
  }

  lemma JoinedMore(b: Build, d: Build, elems: nat, n: nat, m: nat)
    requires Sized(b, elems) && AllJoined(b.fc, b.depth, b.heap, elems, b.node)
    requires b.heapMax >= 2 && n < b.node && m < b.node < |b.fc| && |d.heap| == HEAP_SIZE
    requires d.fc == b.fc[b.node := b.fc[n] + b.fc[m]] && |d.depth| == |b.depth|
    requires d.depth == b.depth[b.node := d.depth[b.node]]
    requires d.depth[b.node] > b.depth[n] && d.depth[b.node] > b.depth[m]
    requires d.heap[b.heapMax - 1] == n && d.heap[b.heapMax - 2] == m
    requires forall i :: b.heapMax <= i < HEAP_SIZE ==> d.heap[i] == b.heap[i]
    ensures AllJoined(d.fc, d.depth, d.heap, elems, b.node + 1)
  {
    forall x | elems <= x < b.node + 1 ensures Joined(d.fc, d.depth, d.heap, elems, x) {
      if x < b.node {
        assert Joined(b.fc, b.depth, b.heap, elems, x);
        var p := HEAP_SIZE - 1 - 2 * (x - elems);
        assert d.heap[p] == b.heap[p] && d.heap[p - 1] == b.heap[p - 1];
      }
    }
  }

  /** The used symbols among the first `n`. */
  ghost function UsedBelow(used: set<nat>, n: nat): set<nat> {
    set x | x in used && x < n
  }

  /** The weights at the beginning are those of the symbols. */
  lemma {:induction false} FirstValues(fc: seq<nat>, depth: seq<nat>, lens: Links, used: set<nat>, n: nat)
    requires n <= |fc| == |depth| && n <= |lens| && forall x :: 0 <= x < n ==> (x in used <==> fc[x] != 0)
    requires forall x :: 0 <= x < n && x in used ==> depth[x] == 0
    ensures Below(multiset(UsedBelow(used, n)), |fc|)
    ensures Values(fc, depth, multiset(UsedBelow(used, n))) == Weights(Leaves(fc, lens, n))
    ensures Sum(Values(fc, depth, multiset(UsedBelow(used, n)))) == Total(fc, n)
    decreases n
  {
    hide Values, Sum, Weights;
    if n == 0 {
      assert UsedBelow(used, 0) == {};
      NoValues(fc, depth);
    } else {
      OneMoreUsed(used, n - 1);
      LastLeaf(fc, lens, n);
      hide Leaves, UsedBelow;
      FirstValues(fc, depth, lens, used, n - 1);
      if fc[n - 1] != 0 {
        ValuesWith(fc, depth, lens, multiset(UsedBelow(used, n - 1)), n - 1);
      }
    }
  }

  lemma ValuesWith(fc: seq<nat>, depth: seq<nat>, lens: Links, q: multiset<nat>, n: nat)
    requires n < |fc| == |depth| && n < |lens| && Below(q, |fc|) && depth[n] == 0
    requires Values(fc, depth, q) == Weights(Leaves(fc, lens, n))
    ensures Below(q + multiset{n}, |fc|)
    ensures Sum(Values(fc, depth, q + multiset{n})) == Sum(Values(fc, depth, q)) + fc[n]
    ensures Values(fc, depth, q + multiset{n}) == Weights([Leaf(Node(fc[n], 0), lens[n])] + Leaves(fc, lens, n))
  {
    hide Values, Sum, Weights, Leaves;
    ValuesMore(fc, depth, q, n);
    SumMore(Values(fc, depth, q), Node(fc[n], 0));
    WeightInFront(Leaf(Node(fc[n], 0), lens[n]), Leaves(fc, lens, n));
  }

  lemma OneMoreUsed(used: set<nat>, n: nat)
    ensures n in used ==> multiset(UsedBelow(used, n + 1)) == multiset(UsedBelow(used, n)) + multiset{n}
    ensures n !in used ==> UsedBelow(used, n + 1) == UsedBelow(used, n)
  {
    if n in used {
      assert UsedBelow(used, n + 1) == UsedBelow(used, n) + {n};
    }
  }

  lemma NoValues(fc: seq<nat>, depth: seq<nat>)
    requires |fc| == |depth|
    ensures Values(fc, depth, multiset({})) == Weights([]) && Sum(Values(fc, depth, multiset({}))) == 0
  {}

  /** What the leaves cost is what the symbols cost. */
  lemma {:induction false} LeafSum(p: seq<nat>, top: seq<nat>, used: set<nat>, n: nat)
    requires 1 < |top| && NoRepeats(top) && Inside(top, |p|) && n <= |p|
    requires forall x :: x in used ==> x in top[1..]
    requires forall x :: 0 <= x < n && x !in used ==> p[x] == 0
    ensures SumIn(Itself, p, top, 0, n, |top|) == SumRange(Itself, p, 0, n)
    decreases n
  {
    if n == 0 {
      SumNone(Itself, p, top, 0, 0, |top|);
    } else {
      LeafSum(p, top, used, n - 1);
      SumSplit(Itself, p, top, 0, n - 1, n, |top|);
      SumOne(Itself, p, top, n - 1, |top|);
      assert top[1..|top|] == top[1..];
    }
  }

  lemma {:induction false} PriceRange(fc: seq<nat>, desc: Desc, lens: Links, n: nat)
    requires n <= |fc| == |lens|
    ensures SumRange(Itself, Bills(fc, desc, lens), 0, n) == PriceSum(fc, desc, lens, n)
    ensures SumRange(Itself, StaticBills(fc, desc), 0, n) == StaticSum(fc, desc, n)
    ensures SumRange(Itself, Costs(fc, lens), 0, n) == TotalBits(fc, lens, n)
    decreases n
  {
    hide Bills, StaticBills, Costs, Desc.Extra, Desc.StaticBits;
    if n > 0 {
      PriceRange(fc, desc, lens, n - 1);
    }
  }

  /** All leaves together, from the tree to the symbols. */
  lemma SymbolPrices(b: Build, used: set<nat>, elems: nat, top: seq<nat>, desc: Desc, dl: Links, opt: nat, stat: nat)
    requires 1 < |top| && NoRepeats(top) && Inside(top, |dl|) && elems <= |dl| == |b.fc|
    requires (forall x :: x in used ==> x in top[1..]) && forall x :: 0 <= x < elems && x !in used ==> b.fc[x] == 0
    requires Spent(opt, stat, b.fc, desc, dl, top, elems, |top|)
    ensures opt == PriceSum(b.fc, desc, dl, elems) && stat == StaticSum(b.fc, desc, elems)
    ensures SumIn(Itself, Costs(b.fc, dl), top, 0, elems, |top|) == TotalBits(b.fc, dl, elems)
  {
    hide SumIn, SumRange, Bills, StaticBills, Costs, PriceSum, StaticSum, TotalBits, NoRepeats;
    LeafSum(Bills(b.fc, desc, dl), top, used, elems);
    LeafSum(StaticBills(b.fc, desc), top, used, elems);
    LeafSum(Costs(b.fc, dl), top, used, elems);
    PriceRange(b.fc, desc, dl, elems);
  }

  lemma TreeAdds(b: Build, used: set<nat>, elems: nat, top: seq<nat>)
    requires Forest(b, used, elems) && b.heapLen == 1 && |used| >= 2 && top == [b.heap[1]] + b.heap[b.heapMax..]
    requires AllJoined(b.fc, b.depth, b.heap, elems, b.node) && |top| == 2 * |used| - 1 && Inside(top, |b.fc|)
    ensures Adds(b.fc, elems, top) && Root(elems, top) + 1 == b.node
  {
    hide Queue, All, Fathers, ZeroUnused;
    var r := Root(elems, top);
    forall t | 1 <= t <= |top| / 2 && 2 * t < |top| ensures b.fc[top[2 * t - 1]] + b.fc[top[2 * t]] == b.fc[r + 1 - t] {
      var x := r + 1 - t;
      assert Joined(b.fc, b.depth, b.heap, elems, x);
      assert HEAP_SIZE - 1 - 2 * (x - elems) == b.heapMax + 2 * t - 1;
      assert top[2 * t] == b.heap[b.heapMax + 2 * t - 1] && top[2 * t - 1] == b.heap[b.heapMax + 2 * t - 2];
    }
  }

  lemma TreeHeights(b: Build, used: set<nat>, elems: nat, top: seq<nat>)
    requires Forest(b, used, elems) && b.heapLen == 1 && |used| >= 2 && top == [b.heap[1]] + b.heap[b.heapMax..]
    requires AllJoined(b.fc, b.depth, b.heap, elems, b.node) && |top| == 2 * |used| - 1
    requires TopDown(b.dl, elems, top)
    ensures Heights(b.dl, b.depth, top)
  {
    hide Queue, All, Fathers, ZeroUnused;
    DadsFit(b.dl, elems, top);
    forall i | 1 <= i < |top| ensures b.depth[top[i]] < b.depth[b.dl[top[i]]] {
      var x := Father(elems, top, i);
      assert b.dl[top[i]] == x && elems <= x < b.node;
      assert Joined(b.fc, b.depth, b.heap, elems, x);
      var p := HEAP_SIZE - 1 - 2 * (x - elems);
      assert b.heapMax + i - 1 == p || b.heapMax + i - 1 == p - 1;
      assert top[i] == b.heap[b.heapMax + i - 1];
    }
  }

  // ----- build_tree -----

  /** Symbols that occur as they do, and others that are counted once. */
  ghost predicate Counts(freq: seq<nat>, counts: seq<nat>, elems: nat) {
    && |counts| == elems <= |freq|
    && (forall x :: 0 <= x < elems ==> counts[x] == freq[x] || (freq[x] == 0 && counts[x] == 1))
    && forall x, y :: 0 <= x < y < elems && freq[x] != 0 && freq[y] != 0 ==> counts == freq[..elems]
  }

  /**
    build_tree: every symbol that occurs gets a code of at most `max` bits, and together the codes are complete, so no
    bit string is wasted. `opt` and `stat` are the numbers of bits for all symbols, with these codes and with the static
    ones. If the frequencies fit 16 bits, no prefix code has fewer bits if and only if that is so of some code that
    stays within the limit.
   */
  method BuildTree(freq: seq<nat>, desc: Desc, dl0: Links, depth0: seq<nat>, heap0: seq<nat>, elems: nat, max: nat)
      returns (codes: seq<nat>, dl: Links, maxCode: nat, opt: int, stat: int, ghost counts: seq<nat>)
    requires |freq| == |dl0| == |depth0| >= 2 * elems && |heap0| == HEAP_SIZE && 3 <= elems <= 286
    requires 0 < max <= MAX_BITS && elems <= Pow2(max)
    requires desc.Fits(elems) && forall x :: 0 <= x < 3 ==> desc.Extra(x) == 0
    ensures maxCode < elems <= |dl| == |codes| && dl[maxCode] > 0
    ensures Complete(dl[..maxCode + 1], max) && HasCodes(dl[..maxCode + 1], codes, maxCode + 1)
    ensures forall x :: 0 <= x < elems && freq[x] != 0 ==> x <= maxCode && dl[x] > 0
    ensures forall x :: maxCode < x < elems ==> dl[x] == 0
    ensures opt == PriceSum(freq, desc, dl, elems) && stat == StaticSum(freq, desc, elems)
    ensures Counts(freq, counts, elems)
    ensures Total(counts, elems) < 0x1_0000 ==> (Best(counts, dl[..elems]) <==> BestWithin(counts, max))
  {
    hide Queue, All, Fathers, Complete, HasCodes, InOrder, AllJoined, Force, Forced, SumRange, Symbols, BestWithin;
    hide PriceSum, StaticSum, TotalBits, Desc.Extra, Desc.Fits, Total, Best, Counts, StaticForced, FatherWeights;
    hide FinalHeight;
    var b; ghost var used, forced;
    b, maxCode, opt, stat, used, forced := Collect(freq, desc, dl0, depth0, heap0, elems);
    b := Heapify(b, used, elems);
    ghost var fc := b.fc;
    counts := fc[..elems];
    b := Construct(b, used, elems, counts);
    var heap := b.heap[b.heapMax - 1 := b.heap[1]];
    var top := heap[b.heapMax - 1..];
    assert top == [b.heap[1]] + b.heap[b.heapMax..];
    var o, s, cut;
    codes, dl, o, s, cut := Finish(b, desc, used, elems, maxCode, top, max);
    CountsAre(freq, forced, used, elems);
    PriceFrame(fc, b.fc, desc, dl, dl, elems);
    ForcedPrices(freq, desc, forced, dl, elems);
    opt, stat := opt + o, stat + s;
    if Total(counts, elems) < 0x1_0000 {
      TotalFrame(b.fc, counts, dl, dl[..elems], elems);
      Verdict(counts, dl[..elems], dl[..maxCode + 1], max, cut);
    }
  }

  /** Lengths that are not cut cost what the construction weighs; they are cut only if it goes beyond the limit. */
  lemma Verdict(counts: seq<nat>, lens: Links, short: Lengths, max: nat, cut: bool)
    requires |lens| == |counts| && |short| <= |lens| && short == lens[..|short|] && Complete(short, max)
    requires forall x :: 0 <= x < |lens| ==> (counts[x] != 0 <==> x < |short| && short[x] > 0)
    requires |Symbols(counts)| > 0
    requires !cut ==> TotalBits(counts, lens, |counts|) == FatherWeights(Symbols(counts))
    requires cut ==> FinalHeight(Symbols(counts)) > max
    ensures Best(counts, lens) <==> BestWithin(counts, max)
  {
    hide TotalBits, FatherWeights, FinalHeight, Symbols, Best, BestWithin, Kraft;
    CompleteFits(counts, lens, short, max);
    hide Complete;
    BestIs(counts, lens, MAX_BITS);
    BestWithinIs(counts, max);
    if Best(counts, lens) {
      BestLimited(counts, lens, MAX_BITS, max);
    }
  }

  lemma CompleteFits(counts: seq<nat>, lens: Links, short: Lengths, max: nat)
    requires |lens| == |counts| && |short| <= |lens| && short == lens[..|short|] && Complete(short, max)
    requires forall x :: 0 <= x < |lens| ==> (counts[x] != 0 <==> x < |short| && short[x] > 0)
    ensures Fits(Leaves(counts, lens, |counts|), MAX_BITS) && UpToLimit(counts, lens, max)
  {
    hide Leaves, Shares, Shorter;
    UnusedEnd(counts, lens, |short|, |counts|);
    SharesAre(counts, lens, short, |short|);
    KraftIs(short);
  }

  lemma {:induction false} UnusedEnd(counts: seq<nat>, lens: Links, n: nat, m: nat)
    requires n <= m <= |counts| && m <= |lens| && forall x :: n <= x < m ==> counts[x] == 0
    ensures Leaves(counts, lens, m) == Leaves(counts, lens, n)
    decreases m
  {
    if n < m {
      UnusedEnd(counts, lens, n, m - 1);
      LastLeaf(counts, lens, m);
    }
  }

  lemma {:induction false} SharesAre(counts: seq<nat>, lens: Links, short: Lengths, n: nat)
    requires n <= |short| <= |lens| == |counts| && short == lens[..|short|] && Limited(short)
    requires forall x :: 0 <= x < |short| ==> (counts[x] != 0 <==> short[x] > 0)
    ensures Within(Leaves(counts, lens, n), MAX_BITS)
    ensures Shares(Leaves(counts, lens, n), MAX_BITS) == Shorter(short, MAX_BITS + 1, n)
    decreases n
  {
    hide Cost, Bits;
    if n > 0 {
      SharesAre(counts, lens, short, n - 1);
      LastLeaf(counts, lens, n);
      assert lens[n - 1] == short[n - 1];
      hide Leaves, Shares, Within;
      if counts[n - 1] != 0 {
        InFront(Leaf(Node(counts[n - 1], 0), lens[n - 1]), Leaves(counts, lens, n - 1), MAX_BITS);
      }
    }
  }

  /** The loop of build_tree: one tree, and what its inner nodes weigh if their weights fit 16 bits. */
  method Construct(b0: Build, ghost used: set<nat>, elems: nat, ghost counts: seq<nat>) returns (b: Build)
    requires Forest(b0, used, elems) && InOrder(b0) && b0.node == elems && b0.heapMax == HEAP_SIZE
    requires forall x :: 0 <= x < elems ==> (x in used <==> b0.fc[x] != 0)
    requires (forall x :: x in used ==> b0.depth[x] == 0) && elems <= |b0.fc| && counts == b0.fc[..elems]
    ensures Forest(b, used, elems) && b.heapLen == 1 && |b.fc| == |b0.fc| == |b.depth| && b.node <= |b.fc|
    ensures forall x :: 0 <= x < elems ==> b.fc[x] == b0.fc[x]
    ensures |Symbols(counts)| > 0
    ensures Total(counts, elems) < 0x1_0000 ==>
      && AllJoined(b.fc, b.depth, b.heap, elems, b.node) && b.heap[1] < |b.fc|
      && SumRange(Itself, b.fc, elems, b.node) == FatherWeights(Symbols(counts))
      && b.depth[b.heap[1]] == FinalHeight(Symbols(counts))
  {
    hide Queue, All, Fathers, InOrder, Weighs, AllJoined, FatherWeights, FinalHeight, Total, Symbols, SumRange;
    b := b0;
    ghost var total := FirstWeighs(b, used, elems, counts);
    ghost var goal, height := FatherWeights(Symbols(counts)), FinalHeight(Symbols(counts));
    while b.heapLen >= 2
      invariant Forest(b, used, elems) && InOrder(b) && |b.fc| == |b0.fc| && b.heapLen >= 1
      invariant forall x :: 0 <= x < elems ==> b.fc[x] == b0.fc[x]
      invariant total < 0x1_0000 ==>
        Weighs(b.fc, b.depth, Queue(b.heap, b.heapLen), elems, b.node, total, goal, height)
      invariant total < 0x1_0000 ==> AllJoined(b.fc, b.depth, b.heap, elems, b.node)
      decreases b.heapLen
    {
      ghost var before := b;
      var n, m; ghost var q;
      b, n, m, q := Combine(b, used, elems);
      if total < 0x1_0000 {
        RoundOn(before, b, elems, n, m, q, total, goal, height);
      }
    }
    OneInQueue(b.heap);
    if total < 0x1_0000 {
      LastWeighs(b.fc, b.depth, b.heap[1], elems, b.node, total, goal, height);
    }
  }

  lemma OneInQueue(heap: seq<nat>)
    requires |heap| > 1
    ensures Queue(heap, 1) == multiset{heap[1]}
  {
    assert heap[1..2] == [heap[1]];
  }

  lemma RoundOn(b: Build, d: Build, elems: nat, n: nat, m: nat, q: multiset<nat>, total: nat, goal: nat, height: nat)
    requires Sized(b, elems) && Sized(d, elems) && b.heapLen < |b.heap| && d.heapLen < |d.heap| && d.node == b.node + 1
    requires n < b.node && m < b.node < |b.fc| && Nodes(b.heap, b.heapLen, b.node)
    requires d.fc == b.fc[b.node := (b.fc[n] + b.fc[m]) % 0x1_0000]
    requires d.depth == b.depth[b.node := (Higher(b.depth[n], b.depth[m]) + 1) % 256]
    requires Queue(b.heap, b.heapLen) == q + multiset{m} + multiset{n}
    requires Queue(d.heap, d.heapLen) == q + multiset{b.node}
    requires b.heapMax >= 2 && d.heap[b.heapMax - 1] == n && d.heap[b.heapMax - 2] == m
    requires forall i :: b.heapMax <= i < HEAP_SIZE ==> d.heap[i] == b.heap[i]
    requires forall x :: x in Queue(b.heap, b.heapLen) ==> x < |b.fc| && Smaller(b.fc, b.depth, n, x)
    requires forall x :: x in Queue(b.heap, b.heapLen) - multiset{n} ==> x < |b.fc| && Smaller(b.fc, b.depth, m, x)
    requires Weighs(b.fc, b.depth, Queue(b.heap, b.heapLen), elems, b.node, total, goal, height) && total < 0x1_0000
    requires AllJoined(b.fc, b.depth, b.heap, elems, b.node)
    ensures Weighs(d.fc, d.depth, Queue(d.heap, d.heapLen), elems, d.node, total, goal, height)
    ensures AllJoined(d.fc, d.depth, d.heap, elems, d.node)
  {
    hide Queue, Nodes, Weighs, AllJoined, Precedes;
    LeastPair(b.fc, b.depth, b.heap, b.heapLen, b.node, n, m, q);
    WeighsOn(b.fc, b.depth, d.fc, d.depth, elems, b.node, n, m, q, total, goal, height);
    JoinedMore(b, d, elems, n, m);
  }

  lemma AndNothing(q: multiset<nat>)
    ensures q + multiset{} == q
  {}

  lemma FirstWeighs(b: Build, used: set<nat>, elems: nat, counts: seq<nat>) returns (total: nat)
    requires Forest(b, used, elems) && b.node == elems && b.heapMax == HEAP_SIZE && elems <= |b.fc|
    requires counts == b.fc[..elems] && forall x :: 0 <= x < elems ==> (x in used <==> b.fc[x] != 0)
    requires forall x :: x in used ==> b.depth[x] == 0
    ensures |Symbols(counts)| > 0 && total == Total(counts, elems)
    ensures Weighs(b.fc, b.depth, Queue(b.heap, b.heapLen), elems, b.node, total, FatherWeights(Symbols(counts)),
              FinalHeight(Symbols(counts)))
    ensures AllJoined(b.fc, b.depth, b.heap, elems, b.node)
  {
    hide Queue, Fathers, ZeroUnused, Values, Sum, FatherWeights, FinalHeight, Weights, Leaves, Total, Nodes;
    assert b.heap[b.heapMax..] == [] && Gone(b.heap, b.heapMax) == multiset{} && Inner(elems, elems) == multiset{};
    AndNothing(multiset(used));
    AndNothing(Queue(b.heap, b.heapLen));
    assert Queue(b.heap, b.heapLen) == multiset(used);
    assert UsedBelow(used, elems) == used;
    FirstValues(b.fc, b.depth, b.fc, used, elems);
    TotalFrame(b.fc, counts, b.fc, counts, elems);
    total := Total(b.fc, elems);
  }

  lemma LastWeighs(fc: seq<nat>, depth: seq<nat>, x: nat, elems: nat, node: nat, total: nat, goal: nat, height: nat)
    requires Weighs(fc, depth, multiset{x}, elems, node, total, goal, height)
    ensures x < node <= |fc| == |depth| && SumRange(Itself, fc, elems, node) == goal && depth[x] == height
  {
    hide Values, SumRange;
    assert x in multiset{x};
    OneValue(fc, depth, x);
  }

  lemma OneValue(fc: seq<nat>, depth: seq<nat>, x: nat)
    requires x < |fc| == |depth|
    ensures Values(fc, depth, multiset{x}) == multiset{Node(fc[x], depth[x])}
  {
    AndNothing(multiset{x});
    assert multiset{} + multiset{x} == multiset{x};
    ValuesMore(fc, depth, multiset{}, x);
    assert Values(fc, depth, multiset{}) == multiset{};
  }

  lemma CountsAre(freq: seq<nat>, forced: seq<nat>, used: set<nat>, elems: nat)
    requires Force(freq, forced, elems) && (forced != [] ==> |used| == 2)
    requires forall z :: 0 <= z < elems ==> (z in used <==> Forced(freq, forced)[z] != 0)
    ensures Counts(freq, Forced(freq, forced)[..elems], elems)
    ensures forall x :: x in forced ==> x in used
  {
    forall x, y | 0 <= x < y < elems && freq[x] != 0 && freq[y] != 0 ensures forced == [] {
      TwoOccur(freq, forced, used, elems, x, y);
    }
  }

  lemma {:induction false} TotalFrame(fc: seq<nat>, fc': seq<nat>, lens: seq<nat>, lens': seq<nat>, n: nat)
    requires n <= |fc| && n <= |fc'| && n <= |lens| && n <= |lens'|
    requires forall x :: 0 <= x < n ==> fc'[x] == fc[x] && lens'[x] == lens[x]
    ensures TotalBits(fc', lens', n) == TotalBits(fc, lens, n) && Total(fc', n) == Total(fc, n)
    ensures Leaves(fc', lens', n) == Leaves(fc, lens, n)
    decreases n
  {
    if n > 0 {
      TotalFrame(fc, fc', lens, lens', n - 1);
    }
  }

  /** The calls of gen_bitlen and gen_codes. */
  method Finish(b: Build, desc: Desc, ghost used: set<nat>, elems: nat, maxCode: nat, top: seq<nat>, max: nat)
      returns (codes: seq<nat>, dl: Links, opt: nat, stat: nat, cut: bool)
    requires Forest(b, used, elems) && b.heapLen == 1 && |used| >= 2 && top == [b.heap[1]] + b.heap[b.heapMax..]
    requires 0 < max <= MAX_BITS && elems <= Pow2(max) && maxCode < elems && maxCode in used
    requires (forall x :: x in used ==> x <= maxCode) && desc.Fits(elems)
    requires forall x :: 0 <= x < elems && x !in used ==> b.fc[x] == 0
    ensures |dl| == |codes| == |b.fc|
    ensures Complete(dl[..maxCode + 1], max) && HasCodes(dl[..maxCode + 1], codes, maxCode + 1)
    ensures forall x :: x in used ==> dl[x] > 0
    ensures forall x :: 0 <= x < elems && x !in used ==> dl[x] == 0
    ensures opt == PriceSum(b.fc, desc, dl, elems) && stat == StaticSum(b.fc, desc, elems)
    ensures |used| == 2 ==> forall x :: x in used ==> dl[x] == 1
    ensures b.node <= |b.fc| && (!cut && AllJoined(b.fc, b.depth, b.heap, elems, b.node) ==>
      TotalBits(b.fc, dl, elems) == SumRange(Itself, b.fc, elems, b.node))
    ensures b.heap[1] < |b.depth| && (cut && AllJoined(b.fc, b.depth, b.heap, elems, b.node) ==>
      b.depth[b.heap[1]] > max)
  {
    hide Queue, All, Fathers, SumIn, Kraft, HasCodes, Counted, TopDown, ZeroUnused, LeavesIn, KeptOutside, Same, Spent;
    hide Deeper, PriceSum, StaticSum, TotalBits, AllJoined, SumRange, Desc.Fits, Costs, Heights;
    OneTree(b, used, elems, top);
    DadsFit(b.dl, elems, top);
    forall i | 0 <= i < |top| && top[i] < elems ensures top[i] <= maxCode {
      assert top[i] in top;
    }
    var blCount;
    dl, blCount, opt, stat, cut := GenBitlen(b.fc, desc, b.dl, elems, maxCode, top, max, b.depth);
    TopFacts(b.dl, elems, top);
    if AllJoined(b.fc, b.depth, b.heap, elems, b.node) {
      TreeHeights(b, used, elems, top);
    }
    SymbolCode(b, used, elems, maxCode, top, max, dl, blCount);
    Priced(b, used, elems, top, desc, dl, opt, stat, cut);
    codes := GenCodes(dl[..maxCode + 1], b.fc, blCount);
  }

  lemma Priced(b: Build, used: set<nat>, elems: nat, top: seq<nat>, desc: Desc, dl: Links, opt: nat, stat: nat,
               cut: bool)
    requires Forest(b, used, elems) && b.heapLen == 1 && |used| >= 2 && top == [b.heap[1]] + b.heap[b.heapMax..]
    requires TopDown(b.dl, elems, top) && |top| == 2 * |used| - 1 && Inside(top, |dl|) && |dl| == |b.fc|
    requires forall x: nat :: x in top <==> x in used || elems <= x < b.node
    requires forall x :: 0 <= x < elems && x !in used ==> b.fc[x] == 0
    requires Spent(opt, stat, b.fc, desc, dl, top, elems, |top|)
    requires (!cut ==> Deeper(b.dl, dl, top)) && (|top| == 3 ==> !cut)
    ensures elems <= |dl| && opt == PriceSum(b.fc, desc, dl, elems) && stat == StaticSum(b.fc, desc, elems)
    ensures |used| == 2 ==> forall x :: x in used ==> x < |dl| && dl[x] == 1
    ensures b.node <= |b.fc| && (!cut && AllJoined(b.fc, b.depth, b.heap, elems, b.node) ==>
      TotalBits(b.fc, dl, elems) == SumRange(Itself, b.fc, elems, b.node))
  {
    hide *;
    ForestFacts(b, used, elems);
    SameSize(b, used, elems);
    TopFacts(b.dl, elems, top);
    AfterRoot(used, elems, b.node, top);
    SymbolPrices(b, used, elems, top, desc, dl, opt, stat);
    if !cut && AllJoined(b.fc, b.depth, b.heap, elems, b.node) {
      Depths(b, used, elems, top, dl);
    }
    if |used| == 2 {
      TwoLeaves(b.dl, used, elems, top, dl);
    }
  }

  lemma AfterRoot(used: set<nat>, elems: nat, node: nat, top: seq<nat>)
    requires forall x: nat :: x in top <==> x in used || elems <= x < node
    requires |top| > 1 && top[0] >= elems && forall x :: x in used ==> x < elems
    ensures forall x :: x in used ==> x in top[1..]
  {
    forall x | x in used ensures x in top[1..] {
      assert x in top;
      var j :| 0 <= j < |top| && top[j] == x;
      assert top[1..][j - 1] == x;
    }
  }

  /** What the depths cost. */
  lemma Depths(b: Build, used: set<nat>, elems: nat, top: seq<nat>, dl: Links)
    requires Forest(b, used, elems) && b.heapLen == 1 && |used| >= 2 && top == [b.heap[1]] + b.heap[b.heapMax..]
    requires TopDown(b.dl, elems, top) && |top| == 2 * |used| - 1 && Deeper(b.dl, dl, top) && Inside(top, |b.fc|)
    requires |dl| == |b.fc| && AllJoined(b.fc, b.depth, b.heap, elems, b.node)
    ensures b.node <= |b.fc|
    ensures SumIn(Itself, Costs(b.fc, dl), top, 0, elems, |top|) == SumRange(Itself, b.fc, elems, b.node)
  {
    TreeAdds(b, used, elems, top);
    hide *;
    SameSize(b, used, elems);
    LeavesCostInner(b.fc, b.dl, dl, elems, top);
  }

  lemma SameSize(b: Build, used: set<nat>, elems: nat)
    requires Forest(b, used, elems)
    ensures |b.fc| == |b.dl| && elems <= b.node <= |b.fc|
  {
    hide Queue, All, Fathers, ZeroUnused, Gone, Nodes;
  }

  /** Two leaves have codes of one bit. */
  lemma TwoLeaves(dad: Links, used: set<nat>, elems: nat, top: seq<nat>, dl: Links)
    requires TopDown(dad, elems, top) && |top| == 3 && Deeper(dad, dl, top) && forall x :: x in used ==> x in top[1..]
    ensures forall x :: x in used ==> x < |dl| && dl[x] == 1
  {
    forall x | x in used ensures x < |dl| && dl[x] == 1 {
      var i :| 0 <= i < |top[1..]| && top[1..][i] == x;
      assert x == top[i + 1] && Father(elems, top, i + 1) == top[0];
    }
  }

  lemma TopFacts(dad: Links, elems: nat, top: seq<nat>)
    requires TopDown(dad, elems, top)
    ensures |top| > 1 && NoRepeats(top) && top[0] >= elems
  {}

  lemma SymbolCode(b: Build, used: set<nat>, elems: nat, maxCode: nat, top: seq<nat>, max: nat, dl: Links, c: seq<nat>)
    requires ZeroUnused(b.dl, used, elems) && maxCode < elems && max <= MAX_BITS
    requires forall x :: x in used ==> x < elems
    requires |top| > 1 && NoRepeats(top) && top[0] >= elems
    requires forall x: nat :: x in top <==> x in used || elems <= x < b.node
    requires forall x :: x in used ==> x <= maxCode
    requires |dl| == |b.dl| && Inside(top, |dl|) && KeptOutside(b.dl, dl, top) && LeavesIn(dl, top, elems, max)
    requires CountsTo(c, max) && Counted(c, MAX_BITS + 1) == Pow2(MAX_BITS)
    requires forall l :: 1 <= l <= MAX_BITS ==> SumIn(Exactly(l), dl, top, 0, elems, |top|) == c[l]
    ensures Complete(dl[..maxCode + 1], max) && forall x :: x in used ==> dl[x] > 0
    ensures elems <= |dl| && forall x :: 0 <= x < elems && x !in used ==> dl[x] == 0
    ensures forall l :: 1 <= l <= MAX_BITS ==> c[l] == Same(dl[..maxCode + 1], l, maxCode + 1)
  {
    hide SumIn, Counted, NoRepeats, Same, Kraft, Shorter, LeavesIn, KeptOutside, ZeroUnused;
    var n := maxCode + 1;
    var lens := dl[..n];
    UsedLeaves(b.dl, dl, used, elems, b.node, top, max);
    forall l | 1 <= l <= MAX_BITS ensures c[l] == Same(lens, l, n) {
      SymbolLengths(dl, top, used, l, n);
      SumSplit(Exactly(l), dl, top, 0, n, elems, |top|);
      NoneBetween(Exactly(l), dl, top, n, elems, |top|);
    }
    assert Limited(lens);
    KraftCounted(lens, c, MAX_BITS);
    assert Kraft(lens) == Shorter(lens, MAX_BITS + 1, |lens|) by { KraftIs(lens); }
  }

  lemma KraftIs(lens: Lengths)
    requires Limited(lens)
    ensures Kraft(lens) == Shorter(lens, MAX_BITS + 1, |lens|)
  {}

  /** Used symbols have lengths within the limit, and the others 0. */
  lemma UsedLeaves(dad: Links, dl: Links, used: set<nat>, elems: nat, node: nat, top: seq<nat>, max: nat)
    requires ZeroUnused(dad, used, elems) && (forall x :: x in used ==> x < elems) && |top| > 1 && top[0] >= elems
    requires forall x: nat :: x in top <==> x in used || elems <= x < node
    requires |dl| == |dad| && Inside(top, |dl|) && KeptOutside(dad, dl, top) && LeavesIn(dl, top, elems, max)
    ensures forall x :: x in used ==> 1 <= dl[x] <= max && x in top[1..]
    ensures elems <= |dl| && forall x :: 0 <= x < elems && x !in used ==> dl[x] == 0
    ensures forall j :: 0 <= j < |top| ==> top[j] in used || top[j] >= elems
  {
    forall x | x in used ensures 1 <= dl[x] <= max && x in top[1..] {
      assert x in top;
      var j :| 0 <= j < |top| && top[j] == x;
      assert j > 0 && top[1..][j - 1] == x;
    }
    forall j | 0 <= j < |top| ensures top[j] in used || top[j] >= elems {
      assert top[j] in top;
    }
  }

  lemma {:induction false} NoneBetween(f: Table, lens: Links, top: seq<nat>, lo: nat, hi: nat, i: nat)
    requires i <= |top| && Inside(top, |lens|) && forall j :: 0 <= j < |top| ==> top[j] < lo || top[j] >= hi
    ensures SumIn(f, lens, top, lo, hi, i) == 0
    decreases i
  {
    if i > 1 {
      NoneBetween(f, lens, top, lo, hi, i - 1);
    }
  }
}

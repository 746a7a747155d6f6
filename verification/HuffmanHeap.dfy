/** The priority queue of zlib/trees.c: a heap of node numbers, least frequent first, in positions 1 to heap_len. */
module HuffmanHeap {

  /** Less frequent, or as frequent and not deeper. */
  predicate Smaller(fc: seq<nat>, depth: seq<nat>, n: nat, m: nat)
    requires n < |fc| == |depth| && m < |fc|
  {
    fc[n] < fc[m] || (fc[n] == fc[m] && depth[n] <= depth[m])
  }

  ghost predicate Nodes(heap: seq<nat>, len: nat, size: nat) {
    len < |heap| && forall i :: 1 <= i <= len ==> heap[i] < size
  }

  /** Every father from position `k` on is smaller than his sons, but perhaps for the one at position `but`. */
  ghost predicate Ordered(fc: seq<nat>, depth: seq<nat>, heap: seq<nat>, len: nat, k: nat, but: nat)
    requires |fc| == |depth| && Nodes(heap, len, |fc|)
  {
    forall c {:trigger heap[c]} :: 2 <= c <= len && c / 2 >= k && c / 2 != but ==>
      Smaller(fc, depth, heap[c / 2], heap[c])
  }

  /** The father of position `k`, if there is one from `k0` on, is smaller than the sons of `k`. */
  ghost predicate Above(fc: seq<nat>, depth: seq<nat>, heap: seq<nat>, len: nat, k0: nat, k: nat)
    requires |fc| == |depth| && Nodes(heap, len, |fc|)
  {
    forall c {:trigger heap[c]} :: 2 <= c <= len && c / 2 == k && k / 2 >= k0 && k / 2 >= 1 ==>
      Smaller(fc, depth, heap[k / 2], heap[c])
  }

  /** Only the positions of the queue have changed, and they hold the same nodes. */
  ghost predicate Shuffled(heap: seq<nat>, heap': seq<nat>, len: nat) {
    && |heap| == |heap'| && len < |heap| && multiset(heap) == multiset(heap')
    && (forall i :: 0 <= i < |heap| && (i == 0 || i > len) ==> heap[i] == heap'[i])
  }

  /** The nodes in the queue. */
  ghost function Queue(heap: seq<nat>, len: nat): multiset<nat>
    requires len < |heap|
  {
    multiset(heap[1..len + 1])
  }

  lemma SameQueue(heap: seq<nat>, heap': seq<nat>, len: nat)
    requires Shuffled(heap, heap', len)
    ensures Queue(heap, len) == Queue(heap', len)
  {
    var a, a', c := heap[1..len + 1], heap'[1..len + 1], heap[len + 1..];
    assert heap == [heap[0]] + a + c;
    assert heap' == [heap[0]] + a' + c;
    hide Shuffled;
    MiddleSame([heap[0]], a, a', c);
  }

  lemma MiddleSame(x: seq<nat>, a: seq<nat>, a': seq<nat>, c: seq<nat>)
    requires multiset(x + a + c) == multiset(x + a' + c)
    ensures multiset(a) == multiset(a')
  {
    var m, n, x', c' := multiset(a), multiset(a'), multiset(x), multiset(c);
    assert x' + m + c' == x' + n + c';
    forall e ensures m[e] == n[e] {
      assert (x' + m + c')[e] == x'[e] + m[e] + c'[e];
      assert (x' + n + c')[e] == x'[e] + n[e] + c'[e];
    }
  }

  lemma SwapShuffles(heap: seq<nat>, h: seq<nat>, len: nat, k: nat, j: nat)
    requires Shuffled(heap, h, len) && 1 <= k <= len && 1 <= j <= len
    ensures Shuffled(heap, h[k := h[j]][j := h[k]], len)
  {}

  /** Moving the smaller son up into the hole, and the hole down. */
  lemma Descend(fc: seq<nat>, depth: seq<nat>, g: seq<nat>, len: nat, k0: nat, k: nat, j: nat)
    requires |fc| == |depth| && Nodes(g, len, |fc|) && 1 <= k0 <= k <= len && 2 <= j <= len && j / 2 == k
    requires Ordered(fc, depth, g, len, k0, k) && Above(fc, depth, g, len, k0, k)
    requires SonsAfter(fc, depth, g, len, k, g[j])
    requires Smaller(fc, depth, g[j], g[k])
    ensures var g' := g[k := g[j]][j := g[k]];
      Nodes(g', len, |fc|) && Ordered(fc, depth, g', len, k0, j) && Above(fc, depth, g', len, k0, j)
  {
    var g' := g[k := g[j]][j := g[k]];
    forall c | 2 <= c <= len && c / 2 >= k0 && c / 2 != j ensures Smaller(fc, depth, g'[c / 2], g'[c]) {
      assert c / 2 != c && (c == k || c == j || g'[c] == g[c]);
    }
    forall c | 2 <= c <= len && c / 2 == j ensures Smaller(fc, depth, g'[j / 2], g'[c]) {
      assert g'[c] == g[c] && c != k;
    }
  }

  /** The node in the hole is smaller than both sons. */
  lemma Settled(fc: seq<nat>, depth: seq<nat>, g: seq<nat>, len: nat, k0: nat, k: nat)
    requires |fc| == |depth| && Nodes(g, len, |fc|) && 1 <= k0 <= k <= len && Ordered(fc, depth, g, len, k0, k)
    requires SonsAfter(fc, depth, g, len, k, g[k])
    ensures Ordered(fc, depth, g, len, k0, 0)
  {}

  /** A node that is smaller than the sons of position `k`. */
  ghost predicate SonsAfter(fc: seq<nat>, depth: seq<nat>, g: seq<nat>, len: nat, k: nat, v: nat)
    requires |fc| == |depth| && Nodes(g, len, |fc|) && v < |fc|
  {
    forall c {:trigger g[c]} :: 2 <= c <= len && c / 2 == k ==> Smaller(fc, depth, v, g[c])
  }

  lemma TwoSons(fc: seq<nat>, depth: seq<nat>, g: seq<nat>, len: nat, k: nat, v: nat)
    requires |fc| == |depth| && Nodes(g, len, |fc|) && 1 <= k && v < |fc|
    requires 2 * k <= len ==> Smaller(fc, depth, v, g[2 * k])
    requires 2 * k + 1 <= len ==> Smaller(fc, depth, v, g[2 * k + 1])
    ensures SonsAfter(fc, depth, g, len, k, v)
  {
    forall c | 2 <= c <= len && c / 2 == k ensures Smaller(fc, depth, v, g[c]) {
      assert c == 2 * k || c == 2 * k + 1;
    }
  }

  lemma TopHasNoFather(fc: seq<nat>, depth: seq<nat>, g: seq<nat>, len: nat, k: nat)
    requires |fc| == |depth| && Nodes(g, len, |fc|) && 1 <= k
    ensures Above(fc, depth, g, len, k, k) && Shuffled(g, g, len)
  {}

  /**
    pqdownheap: the node at position `k` sinks until the queue is ordered from there on. `k` is the only father out of
    order before.
   */
  method PqDownHeap(fc: seq<nat>, depth: seq<nat>, heap0: seq<nat>, len: nat, k0: nat) returns (heap: seq<nat>)
    requires |fc| == |depth| && Nodes(heap0, len, |fc|) && 1 <= k0 <= len
    requires Ordered(fc, depth, heap0, len, k0, k0)
    ensures Shuffled(heap0, heap, len) && Nodes(heap, len, |fc|) && Ordered(fc, depth, heap, len, k0, 0)
  {
    hide Ordered, Above, Shuffled, SonsAfter;
    heap := heap0;
    var k, v := k0, heap[k0];
    var j := 2 * k;
    ghost var g := heap;
    assert heap0[k := v] == heap0;
    TopHasNoFather(fc, depth, g, len, k);
    while j <= len
      invariant k0 <= k <= len && |heap| == |heap0| && g == heap[k := v] && v < |fc|
      invariant Shuffled(heap0, g, len) && Nodes(g, len, |fc|) && j == 2 * k
      invariant Ordered(fc, depth, g, len, k0, k) && Above(fc, depth, g, len, k0, k)
      decreases len - k
    {
      assert heap[j] == g[j] && (j < len ==> heap[j + 1] == g[j + 1]);
      if j < len && Smaller(fc, depth, heap[j + 1], heap[j]) {
        j := j + 1;
      }
      TwoSons(fc, depth, g, len, k, g[j]);
      if Smaller(fc, depth, v, heap[j]) {
        TwoSons(fc, depth, g, len, k, v);
        break;
      }
      Descend(fc, depth, g, len, k0, k, j);
      SwapShuffles(heap0, g, len, k, j);
      g := g[k := g[j]][j := v];
      heap := heap[k := heap[j]];
      k := j;
      j := 2 * j;
      assert g == heap[k := v];
    }
    heap := heap[k := v];
    Settled(fc, depth, g, len, k0, k);
  }

  /** The first node of an ordered queue is the least. */
  lemma {:induction false} FirstIsLeast(fc: seq<nat>, depth: seq<nat>, heap: seq<nat>, len: nat, c: nat)
    requires |fc| == |depth| && Nodes(heap, len, |fc|) && Ordered(fc, depth, heap, len, 1, 0) && 1 <= c <= len
    ensures Smaller(fc, depth, heap[1], heap[c])
    decreases c
  {
    if c > 1 {
      FirstIsLeast(fc, depth, heap, len, c / 2);
      assert Smaller(fc, depth, heap[c / 2], heap[c]);
    }
  }

  /** pqremove: the least node leaves. */
  method PqRemove(fc: seq<nat>, depth: seq<nat>, heap0: seq<nat>, len0: nat)
      returns (top: nat, heap: seq<nat>, len: nat)
    requires |fc| == |depth| && Nodes(heap0, len0, |fc|) && len0 >= 2 && Ordered(fc, depth, heap0, len0, 1, 0)
    ensures len == len0 - 1 && |heap| == |heap0| && Nodes(heap, len, |fc|) && top == heap0[1]
    ensures Ordered(fc, depth, heap, len, 1, 0) && Queue(heap0, len0) == Queue(heap, len) + multiset{top}
    ensures forall i :: len < i < |heap| ==> heap[i] == heap0[i]
    ensures forall n :: n in Queue(heap0, len0) ==> n < |fc| && Smaller(fc, depth, top, n)
  {
    hide Ordered, Queue, Shuffled;
    top := heap0[1];
    LeastOfAll(fc, depth, heap0, len0);
    heap := heap0[1 := heap0[len0]];
    len := len0 - 1;
    LastToFront(heap0, len0);
    OnlyFirst(fc, depth, heap0, len0, heap, len);
    ghost var mid := heap;
    heap := PqDownHeap(fc, depth, heap, len, 1);
    SameQueue(mid, heap, len);
    Unmoved(mid, heap, len);
  }

  lemma Unmoved(heap: seq<nat>, heap': seq<nat>, len: nat)
    requires Shuffled(heap, heap', len)
    ensures |heap| == |heap'| && forall i :: len < i < |heap| ==> heap'[i] == heap[i]
  {}

  lemma LeastOfAll(fc: seq<nat>, depth: seq<nat>, heap: seq<nat>, len: nat)
    requires |fc| == |depth| && Nodes(heap, len, |fc|) && len >= 1 && Ordered(fc, depth, heap, len, 1, 0)
    ensures forall n :: n in Queue(heap, len) ==> n < |fc| && Smaller(fc, depth, heap[1], n)
  {
    hide Ordered;
    forall n | n in Queue(heap, len) ensures n < |fc| && Smaller(fc, depth, heap[1], n) {
      var s := heap[1..len + 1];
      assert n in s;
      var i :| 0 <= i < |s| && s[i] == n;
      assert heap[i + 1] == n;
      FirstIsLeast(fc, depth, heap, len, i + 1);
    }
  }

  /** With another node in the first position only that may be out of order. */
  lemma OnlyFirst(fc: seq<nat>, depth: seq<nat>, heap: seq<nat>, len: nat, heap': seq<nat>, len': nat)
    requires |fc| == |depth| && Nodes(heap, len, |fc|) && Nodes(heap', len', |fc|) && len' <= len
    requires Ordered(fc, depth, heap, len, 1, 0) && forall i :: 2 <= i <= len' ==> heap'[i] == heap[i]
    ensures Ordered(fc, depth, heap', len', 1, 1)
  {
    forall c | 2 <= c <= len' && c / 2 >= 1 && c / 2 != 1 ensures Smaller(fc, depth, heap'[c / 2], heap'[c]) {
      assert heap'[c] == heap[c];
    }
  }

  lemma LastToFront(heap: seq<nat>, len: nat)
    requires 2 <= len < |heap|
    ensures Queue(heap, len) == Queue(heap[1 := heap[len]], len - 1) + multiset{heap[1]}
  {
    var s, t := heap[1..len + 1], heap[1 := heap[len]][1..len];
    assert s == [heap[1]] + heap[2..len] + [heap[len]];
    assert t == [heap[len]] + heap[2..len];
  }
}

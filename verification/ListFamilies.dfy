/**
  Many linked lists at once over one pool of items, none in two lists: the hash lists and the free list of kern/block.c
  and the task queues of kern/task.c are such families. Item `b` of the pool is buffer or task number `b`.
 */
module ListFamilies {
  import opened IntrusiveList
  import opened TaskQueue
  import opened BlockCache

  /** The items with these numbers. */
  ghost function Items(pool: seq<Item>, s: seq<nat>): (r: seq<Item>)
    requires InPool(pool, s)
    ensures |r| == |s| && forall i :: 0 <= i < |s| ==> r[i] == pool[s[i]]
    ensures forall e <- r :: e in pool
  {
    seq(|s|, i requires 0 <= i < |s| => pool[s[i]])
  }

  ghost predicate InPool(pool: seq<Item>, s: seq<nat>) {
    forall i :: 0 <= i < |s| ==> s[i] < |pool|
  }

  /** No number is in two lists. */
  ghost predicate Separate(numbers: seq<seq<nat>>) {
    forall k, l, b: nat {:trigger b in numbers[k], b in numbers[l]} ::
      0 <= k < l < |numbers| && b in numbers[k] ==> b !in numbers[l]
  }

  /** A number that is in no list. */
  ghost predicate Loose(numbers: seq<seq<nat>>, b: nat) {
    forall k :: 0 <= k < |numbers| ==> b !in numbers[k]
  }

  lemma InItems(pool: seq<Item>, s: seq<nat>, b: nat)
    requires NoRepeats(pool) && b < |pool| && InPool(pool, s)
    ensures pool[b] in Items(pool, s) <==> b in s
  {
    if b in s {
      var i := IndexOf(s, b);
      assert Items(pool, s)[i] == pool[b];
    }
  }

  /** Lists of separate numbers have no item in common. */
  lemma Disjoint(pool: seq<Item>, numbers: seq<seq<nat>>, k: nat, l: nat)
    requires NoRepeats(pool) && k < |numbers| && l < |numbers| && k != l && Separate(numbers)
    requires InPool(pool, numbers[k]) && InPool(pool, numbers[l])
    ensures forall e <- Items(pool, numbers[l]) :: e !in Items(pool, numbers[k])
  {
    var s := numbers[l];
    forall i | 0 <= i < |s| ensures Items(pool, s)[i] !in Items(pool, numbers[k]) {
      assert s[i] in numbers[l];
      InItems(pool, numbers[k], s[i]);
    }
  }

  lemma SeparateAdd(numbers: seq<seq<nat>>, k: nat, b: nat, s: seq<nat>)
    requires Separate(numbers) && Loose(numbers, b) && k < |numbers|
    requires forall x :: x in s ==> x == b || x in numbers[k]
    ensures Separate(numbers[k := s])
  {}

  lemma {:induction false} ItemsWithout(pool: seq<Item>, s: seq<nat>, b: nat)
    requires NoRepeats(pool) && b < |pool| && InPool(pool, s)
    ensures InPool(pool, Without(s, b)) && Without(Items(pool, s), pool[b]) == Items(pool, Without(s, b))
    ensures forall x :: x in Without(s, b) ==> x in s
  {
    if s != [] {
      var rest := s[1..];
      ItemsWithout(pool, rest, b);
      assert Items(pool, s)[1..] == Items(pool, rest);
      if s[0] != b {
        assert pool[s[0]] != pool[b];
        hide NoRepeats, InPool;
        assert Items(pool, [s[0]] + Without(rest, b)) == [pool[s[0]]] + Items(pool, Without(rest, b));
      }
    }
  }

  class Lists {
    const pool: seq<Item>
    const lists: seq<List>
    ghost var numbers: seq<seq<nat>>

    /** List `k` holds the items with the numbers `numbers[k]`. */
    ghost predicate Holds(k: nat)
      requires k < |lists| == |numbers|
      reads this, lists, pool
    {
      InPool(pool, numbers[k]) && lists[k].items == Items(pool, numbers[k]) && lists[k].Valid()
    }

    ghost predicate Valid()
      reads this, lists, pool
    {
      && NoRepeats(pool) && NoRepeats(lists) && |numbers| == |lists| && Separate(numbers)
      && forall k :: 0 <= k < |lists| ==> Holds(k)
    }

    /** Any number of empty lists. */
    constructor (pool: seq<Item>, n: nat)
      requires NoRepeats(pool)
      ensures Valid() && this.pool == pool && numbers == seq(n, _ => []) && fresh(lists)
    {
      var ls: seq<List> := [];
      for i := 0 to n
        invariant |ls| == i && NoRepeats(ls) && fresh(ls)
        invariant forall k :: 0 <= k < i ==> ls[k].items == [] && ls[k].Valid()
      {
        var l := new List();
        ls := ls + [l];
      }
      this.pool, lists, numbers := pool, ls, seq(n, _ => []);
    }

    /** A list behaves as a sequence of numbers, and no other changes. */
    method Append(k: nat, b: nat)
      requires Valid() && k < |lists| && b < |pool| && Loose(numbers, b)
      modifies this`numbers, lists, pool
      ensures Valid() && numbers == old(numbers)[k := old(numbers)[k] + [b]]
      ensures forall x :: 0 <= x < |pool| && x != b && Loose(old(numbers), x) ==>
        pool[x].next == old(pool[x].next) && pool[x].prev == old(pool[x].prev)
    {
      hide NoRepeats, Separate, List.Valid;
      ghost var was := numbers;
      assert Holds(k);
      PutItem(k, b, false);
      numbers := was[k := was[k] + [b]];
      SeparateAdd(was, k, b, numbers[k]);
      assert Items(pool, numbers[k]) == Items(pool, was[k]) + [pool[b]];
      forall l | 0 <= l < |lists| ensures Holds(l) {
        assert old(Holds(l));
      }
    }

    method Prepend(k: nat, b: nat)
      requires Valid() && k < |lists| && b < |pool| && Loose(numbers, b)
      modifies this`numbers, lists, pool
      ensures Valid() && numbers == old(numbers)[k := [b] + old(numbers)[k]]
      ensures forall x :: 0 <= x < |pool| && x != b && Loose(old(numbers), x) ==>
        pool[x].next == old(pool[x].next) && pool[x].prev == old(pool[x].prev)
    {
      hide NoRepeats, Separate, List.Valid;
      ghost var was := numbers;
      assert Holds(k);
      PutItem(k, b, true);
      numbers := was[k := [b] + was[k]];
      SeparateAdd(was, k, b, numbers[k]);
      assert Items(pool, numbers[k]) == [pool[b]] + Items(pool, was[k]);
      forall l | 0 <= l < |lists| ensures Holds(l) {
        assert old(Holds(l));
      }
    }

    /** The item comes into its list, at the front or at the end, and the others stay. */
    method PutItem(k: nat, b: nat, front: bool)
      requires Valid() && k < |lists| && b < |pool| && Loose(numbers, b)
      modifies lists, pool
      ensures lists[k].Valid()
      ensures lists[k].items == if front then [pool[b]] + old(lists[k].items) else old(lists[k].items) + [pool[b]]
      ensures forall l :: 0 <= l < |lists| && l != k ==> lists[l].Valid() && lists[l].items == old(lists[l].items)
      ensures forall x :: 0 <= x < |pool| && x != b && Loose(numbers, x) ==>
        pool[x].next == old(pool[x].next) && pool[x].prev == old(pool[x].prev)
    {
      hide NoRepeats, Separate, Items, List.Valid;
      Apart(k, b);
      LooseOut(k, b);
      assert Holds(k);
      if front {
        lists[k].Prepend(pool[b]);
      } else {
        lists[k].Append(pool[b]);
      }
      forall l | 0 <= l < |lists| && l != k ensures lists[l].Valid() {
        assert old(Holds(l)) && unchanged(lists[l]);
        forall j | 0 <= j < |lists[l].items| ensures unchanged(lists[l].items[j]) {
          assert lists[l].items[j] in lists[l].items;
        }
      }
    }

    /** Also of an item that was never in a list, which changes nothing. */
    method Remove(k: nat, b: nat)
      requires Valid() && k < |lists| && b < |pool|
      requires b in numbers[k] || (Loose(numbers, b) && pool[b].next == null && pool[b].prev == null)
      modifies this`numbers, lists, pool
      ensures Valid() && numbers == old(numbers)[k := Without(old(numbers)[k], b)]
      ensures forall x :: 0 <= x < |pool| && x != b && Loose(old(numbers), x) ==>
        pool[x].next == old(pool[x].next) && pool[x].prev == old(pool[x].prev)
    {
      hide NoRepeats, Separate, Without, Undisturbed, Adjacent, List.Valid;
      ghost var was := numbers;
      assert Holds(k);
      InItems(pool, was[k], b);
      ItemsWithout(pool, was[k], b);
      RemoveItem(k, b);
      numbers := was[k := Without(was[k], b)];
      SeparateLess(was, k, numbers[k]);
      forall l | 0 <= l < |lists| ensures Holds(l) {
        assert old(Holds(l));
      }
    }

    /** The item leaves its list, and the others stay. */
    method RemoveItem(k: nat, b: nat)
      requires Valid() && k < |lists| && b < |pool|
      requires b in numbers[k] || (Loose(numbers, b) && pool[b].next == null && pool[b].prev == null)
      modifies lists, pool
      ensures lists[k].Valid() && lists[k].items == Without(old(lists[k].items), pool[b])
      ensures forall l :: 0 <= l < |lists| && l != k ==> lists[l].Valid() && lists[l].items == old(lists[l].items)
      ensures forall x :: 0 <= x < |pool| && x != b && Loose(old(numbers), x) ==>
        pool[x].next == old(pool[x].next) && pool[x].prev == old(pool[x].prev)
    {
      hide NoRepeats, Separate, Without, Undisturbed, Adjacent, Items, List.Valid;
      Apart(k, b);
      LooseOut(k, b);
      assert Holds(k);
      FreshUndisturbed(pool[b], lists[k].items);
      InItems(pool, numbers[k], b);
      if pool[b] in lists[k].items {
        NeighboursIn(lists[k], pool[b]);
      }
      lists[k].Remove(pool[b]);
      forall l | 0 <= l < |lists| && l != k ensures lists[l].Valid() {
        assert old(Holds(l)) && unchanged(lists[l]);
        forall j | 0 <= j < |lists[l].items| ensures unchanged(lists[l].items[j]) {
          assert lists[l].items[j] in lists[l].items;
        }
      }
    }

    /** The moves of blk_get between hash lists: what the cache does on sequences the linked lists do. */
    method Rehash(b: nat, l: nat, l': nat)
      requires Valid() && |lists| == 64 && l < 64 && l' < 64 && b < |pool|
      requires b in numbers[l] || (Loose(numbers, b) && pool[b].next == null && pool[b].prev == null)
      modifies this`numbers, lists, pool
      ensures Valid() && numbers == Moved(old(numbers), b, l, l')
      ensures forall x :: 0 <= x < |pool| && x != b && Loose(old(numbers), x) ==>
        pool[x].next == old(pool[x].next) && pool[x].prev == old(pool[x].prev)
    {
      assert Holds(l);
      ItemsNoRepeats(pool, numbers[l]);
      LooseAfter(numbers, l, b);
      hide NoRepeats, Separate, Without, Holds;
      if Loose(numbers, b) {
        WithoutAbsent(numbers[l], b);
      }
      LooseLess(numbers, l, b);
      Remove(l, b);
      Prepend(l', b);
    }

    /** Items in no list are in none of the linked ones. */
    lemma LooseOut(k: nat, b: nat)
      requires Valid() && k < |lists| && b < |pool|
      ensures forall x :: 0 <= x < |pool| && x != b && Loose(numbers, x) ==>
        pool[x] !in lists[k].items && pool[x] != pool[b]
    {
      assert Holds(k);
      forall x | 0 <= x < |pool| && x != b && Loose(numbers, x)
        ensures pool[x] !in lists[k].items && pool[x] != pool[b]
      {
        InItems(pool, numbers[k], x);
      }
    }

    /** The other lists are other objects with other items. */
    lemma Apart(k: nat, b: nat)
      requires Valid() && k < |lists| && b < |pool|
      ensures forall l :: 0 <= l < |lists| && l != k ==>
        && lists[l] != lists[k] && (forall e <- lists[l].items :: e !in lists[k].items)
        && (Loose(numbers, b) || b in numbers[k] ==> pool[b] !in lists[l].items)
      ensures Loose(numbers, b) ==> pool[b] !in lists[k].items
    {
      assert Holds(k);
      InItems(pool, numbers[k], b);
      forall l | 0 <= l < |lists| && l != k
        ensures lists[l] != lists[k] && (forall e <- lists[l].items :: e !in lists[k].items)
        ensures Loose(numbers, b) || b in numbers[k] ==> pool[b] !in lists[l].items
      {
        assert Holds(l);
        Disjoint(pool, numbers, k, l);
        InItems(pool, numbers[l], b);
        Only(lists, k);
      }
    }
  }

  lemma ItemsNoRepeats(pool: seq<Item>, s: seq<nat>)
    requires InPool(pool, s) && NoRepeats(Items(pool, s))
    ensures NoRepeats(s)
  {
    var r := Items(pool, s);
    forall i, j | 0 <= i < j < |s| ensures s[i] != s[j] {
      assert r[i] != r[j];
    }
  }

  lemma LooseAfter(numbers: seq<seq<nat>>, k: nat, b: nat)
    requires Separate(numbers) && k < |numbers| && NoRepeats(numbers[k])
    ensures b in numbers[k] ==> Loose(numbers[k := Without(numbers[k], b)], b)
  {
    WithoutContents(numbers[k], b);
  }

  lemma LooseLess(numbers: seq<seq<nat>>, k: nat, b: nat)
    requires k < |numbers|
    ensures forall x :: Loose(numbers, x) ==> Loose(numbers[k := Without(numbers[k], b)], x)
  {
    forall x | x in Without(numbers[k], b) ensures x in numbers[k] {
      WithoutIn(numbers[k], b, x);
    }
  }

  lemma {:induction false} WithoutIn(s: seq<nat>, b: nat, x: nat)
    requires x in Without(s, b)
    ensures x in s
  {
    if s[0] != b && s[0] != x {
      WithoutIn(s[1..], b, x);
    }
  }

  lemma FreshUndisturbed(e: Item, s: seq<Item>)
    ensures e.next == null && e.prev == null ==> Undisturbed(e, s)
  {}

  lemma NeighboursIn(l: List, e: Item)
    requires l.Valid() && e in l.items
    ensures (e.next == null || e.next in l.items) && (e.prev == null || e.prev in l.items)
  {
    var s := l.items;
    var i := IndexOf(s, e);
    assert Joint(s, i) && Joint(s, i + 1);
  }

  lemma SeparateLess(numbers: seq<seq<nat>>, k: nat, s: seq<nat>)
    requires Separate(numbers) && k < |numbers| && forall x :: x in s ==> x in numbers[k]
    ensures Separate(numbers[k := s])
  {}

  class Queues {
    const pool: seq<Item>
    const queues: seq<Queue>
    ghost var numbers: seq<seq<nat>>

    ghost predicate Holds(q: nat)
      requires q < |queues| == |numbers|
      reads this, queues, pool
    {
      InPool(pool, numbers[q]) && queues[q].items == Items(pool, numbers[q]) && queues[q].Valid()
    }

    ghost predicate Valid()
      reads this, queues, pool
    {
      && NoRepeats(pool) && NoRepeats(queues) && |numbers| == |queues| && Separate(numbers)
      && forall q :: 0 <= q < |queues| ==> Holds(q)
    }

    /** Any number of empty queues. */
    constructor (pool: seq<Item>, n: nat)
      requires NoRepeats(pool)
      ensures Valid() && this.pool == pool && numbers == seq(n, _ => []) && fresh(queues)
    {
      var qs: seq<Queue> := [];
      for i := 0 to n
        invariant |qs| == i && NoRepeats(qs) && fresh(qs)
        invariant forall k :: 0 <= k < i ==> qs[k].items == [] && qs[k].Valid()
      {
        var q := new Queue();
        qs := qs + [q];
      }
      this.pool, queues, numbers := pool, qs, seq(n, _ => []);
    }

    /** task_insert into one of many queues. */
    method Insert(q: nat, t: nat)
      requires Valid() && q < |queues| && t < |pool| && Loose(numbers, t)
      modifies this`numbers, queues, pool
      ensures Valid() && numbers == old(numbers)[q := old(numbers)[q] + [t]]
    {
      hide NoRepeats, Separate;
      ghost var was := numbers;
      Apart(q, t);
      assert Holds(q);
      queues[q].Insert(pool[t]);
      numbers := was[q := was[q] + [t]];
      SeparateAdd(was, q, t, numbers[q]);
      assert Items(pool, numbers[q]) == Items(pool, was[q]) + [pool[t]];
      assert Holds(q);
      forall l | 0 <= l < |queues| && l != q ensures Holds(l) {
        assert old(Holds(l));
        ghost var s := queues[l].items;
        assert forall e <- s :: e.next == old(e.next) && e.prev == old(e.prev);
        forall j | 0 <= j <= |s| ensures Joint(s, j) {
          assert old(Joint(s, j)) && (j > 0 ==> s[j - 1] in s) && (j < |s| ==> s[j] in s);
        }
      }
    }

    /** task_dequeue from one of many queues. */
    method Dequeue(q: nat) returns (e: Item?)
      requires Valid() && q < |queues|
      modifies this`numbers, queues, pool
      ensures Valid() && (e == null <==> old(numbers)[q] == [])
      ensures e == null ==> numbers == old(numbers)
      ensures e != null ==> InPool(pool, old(numbers)[q]) && e == pool[old(numbers)[q][0]]
      ensures e != null ==> numbers == old(numbers)[q := old(numbers)[q][1..]]
    {
      hide NoRepeats, Separate, Queue.Valid;
      ghost var was := numbers;
      assert Holds(q);
      e := TakeFirst(q);
      if e != null {
        numbers := was[q := was[q][1..]];
        SeparateLess(was, q, numbers[q]);
        assert Items(pool, numbers[q]) == Items(pool, was[q])[1..];
      }
      forall l | 0 <= l < |queues| ensures Holds(l) {
        assert old(Holds(l));
      }
    }

    /** The first task leaves its queue, and the other queues stay. */
    method TakeFirst(q: nat) returns (e: Item?)
      requires Valid() && q < |queues|
      modifies queues, pool
      ensures queues[q].Valid() && (e == null <==> old(queues[q].items) == [])
      ensures old(queues[q].items) == if e == null then queues[q].items else [e] + queues[q].items
      ensures forall l :: 0 <= l < |queues| && l != q ==> queues[l].Valid() && queues[l].items == old(queues[l].items)
    {
      hide NoRepeats, Separate, Items;
      Others(q);
      assert Holds(q);
      e := queues[q].Dequeue();
      forall l | 0 <= l < |queues| && l != q ensures queues[l].Valid() {
        assert old(Holds(l));
        ghost var s := queues[l].items;
        assert forall x <- s :: x.next == old(x.next) && x.prev == old(x.prev);
        forall j | 0 <= j <= |s| ensures Joint(s, j) {
          assert old(Joint(s, j)) && (j > 0 ==> s[j - 1] in s) && (j < |s| ==> s[j] in s);
        }
      }
    }

    /** task_remove from one of many queues. */
    method Remove(q: nat, t: nat)
      requires Valid() && q < |queues| && t < |pool| && t in numbers[q]
      modifies this`numbers, queues, pool
      ensures Valid() && numbers == old(numbers)[q := Without(old(numbers)[q], t)]
    {
      hide NoRepeats, Separate, Without;
      ghost var was := numbers;
      Apart(q, t);
      assert Holds(q);
      InItems(pool, was[q], t);
      ItemsWithout(pool, was[q], t);
      queues[q].Remove(pool[t]);
      numbers := was[q := Without(was[q], t)];
      SeparateLess(was, q, numbers[q]);
      assert Holds(q);
      forall l | 0 <= l < |queues| && l != q ensures Holds(l) {
        assert old(Holds(l));
        ghost var s := queues[l].items;
        assert forall e <- s :: e.next == old(e.next) && e.prev == old(e.prev);
        forall j | 0 <= j <= |s| ensures Joint(s, j) {
          assert old(Joint(s, j)) && (j > 0 ==> s[j - 1] in s) && (j < |s| ==> s[j] in s);
        }
      }
    }

    lemma Others(q: nat)
      requires Valid() && q < |queues|
      ensures forall l :: 0 <= l < |queues| && l != q ==>
        queues[l] != queues[q] && forall e <- queues[l].items :: e !in queues[q].items
    {
      assert Holds(q);
      forall l | 0 <= l < |queues| && l != q
        ensures queues[l] != queues[q] && forall e <- queues[l].items :: e !in queues[q].items
      {
        assert Holds(l);
        Disjoint(pool, numbers, q, l);
        Only(queues, q);
      }
    }

    lemma Apart(q: nat, t: nat)
      requires Valid() && q < |queues| && t < |pool|
      ensures forall l :: 0 <= l < |queues| && l != q ==>
        && queues[l] != queues[q] && (forall e <- queues[l].items :: e !in queues[q].items)
        && (Loose(numbers, t) || t in numbers[q] ==> pool[t] !in queues[l].items)
      ensures Loose(numbers, t) ==> pool[t] !in queues[q].items
    {
      Others(q);
      assert Holds(q);
      InItems(pool, numbers[q], t);
      forall l | 0 <= l < |queues| && l != q
        ensures Loose(numbers, t) || t in numbers[q] ==> pool[t] !in queues[l].items
      {
        assert Holds(l);
        InItems(pool, numbers[l], t);
      }
    }
  }
}

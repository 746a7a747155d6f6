/** The intrusive doubly linked lists of lib/list.c, pointer by pointer. */
module IntrusiveList {

  class Item {
    var next: Item?
    var prev: Item?

    /** An item in freshly zeroed memory. */
    constructor ()
      ensures next == null && prev == null
    {
      next, prev := null, null;
    }
  }

  /** Item `i` of a sequence, or null beyond its ends. */
  function At(s: seq<Item>, i: int): Item? {
    if 0 <= i < |s| then s[i] else null
  }

  predicate NoRepeats<T(==)>(s: seq<T>) {
    forall i, j :: 0 <= i < j < |s| ==> s[i] != s[j]
  }

  /** `a` and `b` point at each other, either of them possibly missing. */
  ghost predicate Adjacent(a: Item?, b: Item?)
    reads a, b
  {
    (a != null ==> a.next == b) && (b != null ==> b.prev == a)
  }

  /** The items on both sides of position `i` point at each other. */
  ghost predicate Joint(s: seq<Item>, i: int)
    reads s
  {
    Adjacent(At(s, i - 1), At(s, i))
  }

  /** The items of `s` point at their neighbours. */
  ghost predicate Linked(s: seq<Item>)
    reads s
  {
    forall i :: 0 <= i <= |s| ==> Joint(s, i)
  }

  /** The position of an item. */
  ghost function IndexOf<T>(s: seq<T>, e: T): (i: nat)
    requires e in s
    ensures i < |s| && s[i] == e
  {
    var i :| 0 <= i < |s| && s[i] == e;
    i
  }

  /** A sequence without its item `e`. */
  function Without<T(==)>(s: seq<T>, e: T): (r: seq<T>) {
    if s == [] then [] else if s[0] == e then s[1..] else [s[0]] + Without(s[1..], e)
  }

  lemma {:induction false} WithoutAt<T>(s: seq<T>, i: nat)
    requires i < |s| && NoRepeats(s)
    ensures Without(s, s[i]) == s[..i] + s[i + 1..]
  {
    if i > 0 {
      WithoutAt(s[1..], i - 1);
      assert s[1..][..i - 1] == s[1..i] && s[1..][i..] == s[i + 1..];
      assert s[..i] == [s[0]] + s[1..i];
    }
  }

  lemma {:induction false} WithoutAbsent<T>(s: seq<T>, e: T)
    requires e !in s
    ensures Without(s, e) == s
  {
    if s != [] {
      WithoutAbsent(s[1..], e);
    }
  }

  lemma {:induction false} WithoutContents<T>(s: seq<T>, e: T)
    requires NoRepeats(s)
    ensures NoRepeats(Without(s, e)) && forall x :: x in Without(s, e) <==> x in s && x != e
  {
    if e in s {
      var i := IndexOf(s, e);
      WithoutAt(s, i);
      assert s == s[..i] + [e] + s[i + 1..];
      var r := s[..i] + s[i + 1..];
      forall j, k | 0 <= j < k < |r| ensures r[j] != r[k] {
        assert r[j] == s[if j < i then j else j + 1] && r[k] == s[if k < i then k else k + 1];
      }
    } else {
      WithoutAbsent(s, e);
    }
  }

  /** No other position holds the item at position `i`. */
  lemma Only<T>(s: seq<T>, i: int)
    requires NoRepeats(s)
    ensures 0 <= i < |s| ==> forall j :: 0 <= j < |s| && j != i ==> s[j] != s[i]
  {}

  lemma InsertedNoRepeats<T>(s: seq<T>, i: nat, e: T)
    requires NoRepeats(s) && i <= |s| && e !in s
    ensures NoRepeats(s[..i] + [e] + s[i..])
  {}

  /** The items of `s` point at their neighbours, but for one link forward and one back. */
  ghost predicate LinkedBut(s: seq<Item>, left: int, right: int)
    reads s
  {
    && (forall j {:trigger s[j].next} :: 0 <= j < |s| && j != left ==> s[j].next == At(s, j + 1))
    && (forall j {:trigger s[j].prev} :: 0 <= j < |s| && j != right ==> s[j].prev == At(s, j - 1))
  }

  lemma LinkedAll(s: seq<Item>)
    requires Linked(s)
    ensures LinkedBut(s, -1, -1)
  {
    forall j | 0 <= j < |s| ensures s[j].next == At(s, j + 1) && s[j].prev == At(s, j - 1) {
      assert Joint(s, j) && Joint(s, j + 1);
    }
  }

  /** Putting in an item leaves a linked list, once it and its neighbours point at each other. */
  lemma Inserted(s: seq<Item>, i: nat, e: Item)
    requires i <= |s| && LinkedBut(s, i - 1, i) && Adjacent(At(s, i - 1), e) && Adjacent(e, At(s, i))
    ensures Linked(s[..i] + [e] + s[i..])
  {
    var r := s[..i] + [e] + s[i..];
    forall k | 0 <= k <= |r| ensures Joint(r, k) {
      if k < i {
        assert Joint(s, k);
      } else if k > i + 1 {
        assert Joint(s, k - 1);
      }
    }
  }

  lemma LinkedIs(s: seq<Item>)
    ensures LinkedBut(s, -1, -1) <==> Linked(s)
  {
    if Linked(s) {
      LinkedAll(s);
    }
  }

  /** Taking out an item leaves a linked list, once its neighbours point at each other. */
  lemma Relinked(s: seq<Item>, i: nat)
    requires i < |s| && LinkedBut(s, i - 1, i + 1) && Adjacent(At(s, i - 1), At(s, i + 1))
    ensures Linked(s[..i] + s[i + 1..])
  {
    var r := s[..i] + s[i + 1..];
    forall k | 0 <= k <= |r| ensures Joint(r, k) {
      if k < i {
        assert Joint(s, k);
      } else if k > i {
        assert Joint(s, k + 1);
      }
    }
  }

  /** The neighbours that `e` points at, as far as they are in `s`, point at each other as if `e` had just left. */
  ghost predicate Undisturbed(e: Item, s: seq<Item>)
    reads e, e.next, e.prev
  {
    && (e.next != null && e.next in s ==> e.next.prev == e.prev)
    && (e.prev != null && e.prev in s ==> e.prev.next == e.next)
  }

  class List {
    var first: Item?
    var last: Item?
    ghost var items: seq<Item>

    ghost predicate Valid()
      reads this, items
    {
      && NoRepeats(items) && Linked(items)
      && first == At(items, 0) && last == At(items, |items| - 1)
    }

    /** _list_init. */
    constructor ()
      ensures Valid() && items == []
    {
      first, last, items := null, null, [];
    }

    /** list_ib: `e` goes before `at`, which is null only for an empty list. */
    method InsertBefore(at: Item?, e: Item)
      requires Valid() && e !in items
      requires if at == null then items == [] else at in items
      modifies this, items, e
      ensures Valid()
      ensures items == if at == null then [e]
                       else old(items[..IndexOf(items, at)]) + [e] + old(items[IndexOf(items, at)..])
    {
      if at == null {
        first, last := e, e;
        e.prev, e.next := null, null;
        items := [e];
        return;
      }
      ghost var i: int, was := IndexOf(items, at), items;
      LinkedAll(was);
      hide NoRepeats, Linked;
      Only(was, i);
      Only(was, i - 1);
      e.next := at;
      e.prev := at.prev;
      if at.prev != null {
        at.prev.next := e;
      } else {
        first := e;
      }
      at.prev := e;
      items := was[..i] + [e] + was[i..];
      InsertedNoRepeats(was, i, e);
      Inserted(was, i, e);
    }

    /** list_ia: `e` goes after `at`, which is null only for an empty list. */
    method InsertAfter(at: Item?, e: Item)
      requires Valid() && e !in items
      requires if at == null then items == [] else at in items
      modifies this, items, e
      ensures Valid()
      ensures items == if at == null then [e]
                       else old(items[..IndexOf(items, at) + 1]) + [e] + old(items[IndexOf(items, at) + 1..])
    {
      if at == null {
        first, last := e, e;
        e.prev, e.next := null, null;
        items := [e];
        return;
      }
      ghost var i: int, was := IndexOf(items, at) + 1, items;
      hide NoRepeats;
      Only(was, i);
      Only(was, i - 1);
      assert Joint(was, i) && Joint(was, |was|);
      e.next := at.next;
      e.prev := at;
      if at.next != null {
        at.next.prev := e;
      } else {
        last := e;
      }
      at.next := e;
      items := was[..i] + [e] + was[i..];
      InsertedNoRepeats(was, i, e);
      forall k | 0 <= k <= |items| ensures Joint(items, k) {
        assert k < i ==> old(Joint(was, k));
        assert k > i ==> old(Joint(was, k - 1));
      }
    }

    /** list_pre. */
    method Prepend(e: Item)
      requires Valid() && e !in items
      modifies this, items, e
      ensures Valid() && items == [e] + old(items)
    {
      InsertBefore(first, e);
    }

    /** list_app. */
    method Append(e: Item)
      requires Valid() && e !in items
      modifies this, items, e
      ensures Valid() && items == old(items) + [e]
    {
      InsertAfter(last, e);
    }

    /**
      list_rm, of any item. One that is not in the list leaves it as it is if and only if those neighbours it still
      points at that are in the list have not got others.
     */
    method Remove(e: Item)
      requires Valid()
      modifies this, items, e.next, e.prev
      ensures items == Without(old(items), e) && e.next == old(e.next) && e.prev == old(e.prev)
      ensures Adjacent(e.prev, e.next)
      ensures Valid() <==> e in old(items) || old(Undisturbed(e, items))
    {
      hide NoRepeats, Without, Linked, LinkedBut, Undisturbed;
      ghost var was := items;
      WithoutContents(was, e);
      Detach(e);
      items := Without(was, e);
      if e in was {
        ghost var i := IndexOf(was, e);
        WithoutAt(was, i);
        Relinked(was, i);
      } else {
        WithoutAbsent(was, e);
        LinkedIs(was);
      }
    }

    /** An item leaves between its neighbours; links of the list that are not its own may be overwritten. */
    method Detach(e: Item)
      requires Valid()
      modifies this`first, this`last, e.next, e.prev
      ensures e in items ==>
        && var i := IndexOf(items, e);
        && LinkedBut(items, i - 1, i + 1) && Adjacent(At(items, i - 1), At(items, i + 1))
        && first == At(items, if i == 0 then 1 else 0)
        && last == At(items, if i == |items| - 1 then i - 1 else |items| - 1)
      ensures e.next == old(e.next) && e.prev == old(e.prev) && Adjacent(e.prev, e.next)
      ensures e !in items ==>
        (LinkedBut(items, -1, -1) <==> old(Undisturbed(e, items))) && first == old(first) && last == old(last)
    {
      LinkedIs(items);
      hide NoRepeats, Linked;
      if e in items {
        ghost var i: int := IndexOf(items, e);
        Only(items, i - 1);
        Only(items, i);
        Only(items, i + 1);
      }
      Unlink(e);
    }

    /** The assignments of list_rm, and where they leave the links of the list. */
    method Unlink(e: Item)
      modifies this`first, this`last, e.next, e.prev
      ensures e.next == old(e.next) && e.prev == old(e.prev) && Adjacent(e.prev, e.next)
      ensures first == (if e == old(first) then old(e.next) else old(first))
      ensures last == (if e == old(last) then old(e.prev) else old(last))
      ensures forall x <- items :: x.next == if x == old(e.prev) then old(e.next) else old(x.next)
      ensures forall x <- items :: x.prev == if x == old(e.next) then old(e.prev) else old(x.prev)
    {
      if e == first {
        first := e.next;
      }
      if e == last {
        last := e.prev;
      }
      if e.next != null {
        e.next.prev := e.prev;
      }
      if e.prev != null {
        e.prev.next := e.next;
      }
    }
  }

  /**
    An inner item of any list is removed, another one comes in its place, and the first is removed again: its old
    neighbours point at each other, so that the list has lost the second.
   */
  method RemoveTwice(l: List, ghost i: nat, a: Item, e: Item, x: Item)
    requires l.Valid() && 0 < i < |l.items| - 1 && l.items[i - 1] == a && l.items[i] == e && x !in l.items
    modifies l, l.items, x
    ensures l.items == old(l.items)[i := x] && !l.Valid() && Adjacent(a, old(l.items)[i + 1])
  {
    hide NoRepeats, Linked, Undisturbed;
    ghost var was := l.items;
    TakeOut(l, i, e);
    PutIn(l, i, a, x);
    assert l.items == was[i := x];
    Between(l, i);
    Disturbed(e, l.items, i);
    WithoutAbsent(l.items, e);
    l.Remove(e);
  }

  method TakeOut(l: List, ghost i: nat, e: Item)
    requires l.Valid() && 0 < i < |l.items| - 1 && l.items[i] == e
    modifies l, l.items
    ensures l.Valid() && l.items == old(l.items)[..i] + old(l.items)[i + 1..] && e !in l.items
    ensures e.prev == old(l.items)[i - 1] && e.next == old(l.items)[i + 1]
  {
    hide NoRepeats, Linked, Without, Undisturbed;
    Between(l, i);
    WithoutAt(l.items, i);
    WithoutContents(l.items, e);
    l.Remove(e);
  }

  method PutIn(l: List, ghost i: nat, a: Item, x: Item)
    requires l.Valid() && 0 < i < |l.items| && l.items[i - 1] == a && x !in l.items
    modifies l, l.items, x
    ensures l.Valid() && l.items == old(l.items)[..i] + [x] + old(l.items)[i..]
  {
    Only(l.items, i - 1);
    hide NoRepeats, Linked;
    l.InsertAfter(a, x);
  }

  lemma Disturbed(e: Item, s: seq<Item>, i: nat)
    requires 0 < i < |s| - 1 && e.next == s[i + 1] && s[i + 1].prev == s[i] != e.prev
    ensures !Undisturbed(e, s)
  {}

  /** The links of an inner item, and of those beside it. */
  lemma Between(l: List, i: nat)
    requires l.Valid() && 0 < i < |l.items| - 1
    ensures var s := l.items;
      s[i].prev == s[i - 1] && s[i].next == s[i + 1] && s[i + 1].prev == s[i] && s[i - 1].next == s[i]
  {
    assert Joint(l.items, i) && Joint(l.items, i + 1);
  }

  // ----- list_check, over arbitrary memory -----

  /** The items of `s` are linked to each other, wherever the last one leads. */
  ghost predicate Run(s: seq<Item>)
    reads s
  {
    forall i :: 0 <= i < |s| ==> Joint(s, i)
  }

  /** A well-formed list from `first`: linked forward and back, and ending. */
  ghost predicate Chain(first: Item?, s: seq<Item>)
    reads s
  {
    Linked(s) && first == At(s, 0)
  }

  /** A set of items that no link leaves. */
  ghost predicate Closed(u: set<Item>)
    reads u
  {
    forall e <- u :: e.next == null || e.next in u
  }

  /** An item has one predecessor and the first has none, so correct back links rule out cycles. */
  lemma {:induction false} RunDistinct(s: seq<Item>, i: nat, j: nat)
    requires Run(s) && i < j < |s|
    ensures s[i] != s[j]
  {
    assert Joint(s, i) && Joint(s, j);
    if i > 0 {
      RunDistinct(s, i - 1, j - 1);
    }
  }

  lemma RunNoRepeats(s: seq<Item>)
    requires Run(s)
    ensures NoRepeats(s)
  {
    forall i, j | 0 <= i < j < |s| ensures s[i] != s[j] {
      RunDistinct(s, i, j);
    }
  }

  /** Two steps along the list, stopping at its end. */
  ghost function Twice(f: Item?): Item?
    reads f, if f == null then {} else {f.next}
  {
    if f == null || f.next == null then null else f.next.next
  }

  /** Where the two pointers stand on a well-formed list `t` after the items `s`. */
  ghost predicate Position(t: seq<Item>, s: seq<Item>, i: Item?, f: Item?) {
    |s| <= |t| && s == t[..|s|] && i == At(t, |s|) && f == At(t, 2 * |s|)
  }

  lemma ChainNext(first: Item?, t: seq<Item>, k: nat)
    requires Chain(first, t) && k < |t|
    ensures t[k].next == At(t, k + 1) && t[k].prev == At(t, k - 1)
  {
    assert Joint(t, k) && Joint(t, k + 1);
  }

  /** One round on a well-formed list: the back link is right and the pointers do not meet. */
  lemma Round(first: Item?, t: seq<Item>, s: seq<Item>, i: Item, f: Item?)
    requires Chain(first, t) && Position(t, s, i, f)
    ensures i.prev == At(s, |s| - 1) && Position(t, s + [i], i.next, Twice(f))
    ensures f != null && f.next != null ==> i.next != f.next.next
  {
    hide Linked, Joint, NoRepeats;
    var k := |s|;
    ChainNext(first, t, k);
    if 2 * k < |t| {
      ChainNext(first, t, 2 * k);
      if 2 * k + 1 < |t| {
        ChainNext(first, t, 2 * k + 1);
        assert Run(t) by { ChainRun(first, t); }
        RunNoRepeats(t);
        Only(t, k + 1);
      }
    }
  }

  lemma ChainRun(first: Item?, t: seq<Item>)
    requires Chain(first, t)
    ensures Run(t)
  {}

  /** One item further along a run. */
  lemma RunGrows(s: seq<Item>, i: Item)
    requires Run(s) && i.prev == At(s, |s| - 1) && (s != [] ==> s[|s| - 1].next == i)
    ensures Run(s + [i]) && i !in s
  {
    var s' := s + [i];
    forall k | 0 <= k < |s'| ensures Joint(s', k) {
      assert k < |s| ==> Joint(s, k);
    }
    if i in s {
      RunDistinct(s', IndexOf(s, i), |s|);
    }
  }

  lemma RunEnds(first: Item?, s: seq<Item>)
    requires Run(s) && first == At(s, 0) && (s != [] ==> s[|s| - 1].next == null)
    ensures Chain(first, s)
  {
    assert Joint(s, |s|);
  }

  /** list_check: it ends on any memory, and accepts exactly the well-formed lists. */
  method Check(first: Item?, ghost u: set<Item>) returns (ok: bool)
    requires (first != null ==> first in u) && Closed(u)
    ensures ok <==> exists s :: Chain(first, s)
  {
    hide Chain, Run, NoRepeats, Position;
    ghost var good := exists t :: Chain(first, t);
    ghost var t: seq<Item> := [];
    if good {
      t :| Chain(first, t);
    }
    var i, f, p: Item? := first, first, null;
    ghost var s: seq<Item> := [];
    Start(first, t, good);
    while i != null
      invariant Run(s) && p == At(s, |s| - 1) && first == (if s == [] then i else s[0])
      invariant p != null ==> p.next == i
      invariant (i != null ==> i in u) && forall e <- s :: e in u
      invariant good == (exists t :: Chain(first, t)) && (good ==> Position(t, s, i, f))
      decreases u - (set e <- s)
    {
      if good {
        Round(first, t, s, i, f);
      }
      if i.prev != p {
        return false;
      }
      RunGrows(s, i);
      assert i in u - (set e <- s);
      s := s + [i];
      assert i !in u - (set e <- s);
      p := i;
      i := i.next;
      if f != null {
        f := f.next;
        if f != null {
          f := f.next;
          if i == f {
            return false;
          }
        }
      }
    }
    RunEnds(first, s);
    return true;
  }

  lemma Start(first: Item?, t: seq<Item>, good: bool)
    requires good ==> Chain(first, t)
    ensures Run([]) && (good ==> Position(t, [], first, first))
  {}
}

/** The linked task queues of kern/task.c, pointer by pointer. A task's `queue` field is part of the Kernel model. */
module TaskQueue {
  import opened IntrusiveList

  class Queue {
    var first: Item?
    var last: Item?
    ghost var items: seq<Item>

    ghost predicate Valid()
      reads this, items
    {
      && NoRepeats(items) && Linked(items)
      && first == At(items, 0) && last == At(items, |items| - 1)
    }

    /** task_qinit. */
    constructor ()
      ensures Valid() && items == []
    {
      first, last, items := null, null, [];
    }

    /** task_insert: at the end. */
    method Insert(t: Item)
      requires Valid() && t !in items
      modifies this, items, t
      ensures Valid() && items == old(items) + [t]
    {
      ghost var was := items;
      hide NoRepeats;
      AppendedNoRepeats(was, t);
      Only(was, |was| - 1);
      assert Joint(was, |was|);
      if first == null {
        first, last := t, t;
        t.prev, t.next := null, null;
        items := was + [t];
        assert items == [t];
        return;
      }
      t.prev := last;
      t.next := null;
      last.next := t;
      last := t;
      items := was + [t];
      forall k | 0 <= k <= |items| ensures Joint(items, k) {
        assert k < |was| ==> old(Joint(was, k));
      }
    }

    /** task_dequeue: from the front. */
    method Dequeue() returns (t: Item?)
      requires Valid()
      modifies this, items
      ensures Valid() && (t == null <==> old(items) == []) && (t == null ==> items == [])
      ensures t != null ==> old(items) == [t] + items && t.next == null && t.prev == null
    {
      ghost var was := items;
      hide NoRepeats;
      Only(was, 0);
      Only(was, 1);
      TailNoRepeats(was);
      if first == null {
        return null;
      }
      assert Joint(was, 1);
      t := first;
      first := t.next;
      if first != null {
        first.prev := null;
      } else {
        last := null;
      }
      t.next, t.prev := null, null;
      items := was[1..];
      forall k | 0 <= k <= |items| ensures Joint(items, k) {
        assert k > 0 ==> old(Joint(was, k + 1));
      }
    }

    /** task_remove, with its cases for the only, the first, the last and an inner task. */
    method Remove(t: Item)
      requires Valid() && t in items
      modifies this, items
      ensures Valid() && items == Without(old(items), t) && t.next == null && t.prev == null
    {
      ghost var i := IndexOf(items, t);
      WithoutAt(items, i);
      hide Without, Linked;
      Ends(items, i);
      if t == first {
        if t == last {
          t.prev, t.next := null, null;
          first, last := null, null;
          items := [];
        } else {
          RemoveFirst();
        }
      } else if t == last {
        RemoveLast();
      } else {
        RemoveInner(t, i);
      }
    }

    method RemoveFirst()
      requires Valid() && |items| > 1
      modifies this, items
      ensures Valid() && items == old(items)[1..] && old(first).next == null && old(first).prev == null
    {
      ghost var was := items;
      TailNoRepeats(was);
      Only(was, 0);
      Only(was, 1);
      hide NoRepeats;
      assert Joint(was, 1);
      var t := first;
      first := t.next;
      first.prev := null;
      t.prev, t.next := null, null;
      items := was[1..];
      forall k | 0 <= k <= |items| ensures Joint(items, k) {
        assert k > 0 ==> old(Joint(was, k + 1));
      }
    }

    method RemoveLast()
      requires Valid() && |items| > 1
      modifies this, items
      ensures Valid() && items == old(items)[..|old(items)| - 1] && old(last).next == null && old(last).prev == null
    {
      ghost var was := items;
      FrontNoRepeats(was);
      Only(was, |was| - 1);
      Only(was, |was| - 2);
      hide NoRepeats;
      assert Joint(was, |was| - 1);
      var t := last;
      last := t.prev;
      last.next := null;
      t.prev, t.next := null, null;
      items := was[..|was| - 1];
      forall k | 0 <= k <= |items| ensures Joint(items, k) {
        assert k < |items| ==> old(Joint(was, k));
      }
    }

    method RemoveInner(t: Item, ghost i: nat)
      requires Valid() && 0 < i < |items| - 1 && t == items[i]
      modifies this, items
      ensures Valid() && items == old(items)[..i] + old(items)[i + 1..] && t.next == null && t.prev == null
    {
      ghost var was := items;
      InnerNoRepeats(was, i);
      Only(was, i - 1);
      Only(was, i);
      Only(was, i + 1);
      hide NoRepeats;
      assert Joint(was, i) && Joint(was, i + 1);
      t.prev.next := t.next;
      t.next.prev := t.prev;
      t.prev, t.next := null, null;
      items := was[..i] + was[i + 1..];
      forall k | 0 <= k <= |items| ensures Joint(items, k) {
        assert k < i ==> old(Joint(was, k));
        assert k > i ==> old(Joint(was, k + 1));
      }
    }
  }

  /** Which item is first or last tells its position. */
  lemma Ends(s: seq<Item>, i: nat)
    requires i < |s| && NoRepeats(s)
    ensures (s[i] == At(s, 0) <==> i == 0) && (s[i] == At(s, |s| - 1) <==> i == |s| - 1)
  {}

  lemma FrontNoRepeats<T>(s: seq<T>)
    requires NoRepeats(s)
    ensures s != [] ==> NoRepeats(s[..|s| - 1])
  {}

  lemma InnerNoRepeats<T>(s: seq<T>, i: nat)
    requires NoRepeats(s) && i < |s|
    ensures NoRepeats(s[..i] + s[i + 1..])
  {}

  lemma AppendedNoRepeats<T>(s: seq<T>, e: T)
    requires NoRepeats(s) && e !in s
    ensures NoRepeats(s + [e])
  {}

  lemma TailNoRepeats<T>(s: seq<T>)
    requires NoRepeats(s)
    ensures s != [] ==> NoRepeats(s[1..])
  {}
}

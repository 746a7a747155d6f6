/** The kernel as a whole over linked queues: whatever it does, the links hold what its sequences hold. */
module KernelLinks {
  import opened IntrusiveList
  import opened ListFamilies
  import opened QueueMoves
  import opened Kernel
  import opened PlainKernel

  /** What task_dequeue gives for a queue of these tasks. */
  ghost function FirstOf(pool: seq<Item>, s: seq<nat>): Item? {
    if s == [] || s[0] >= |pool| then null else pool[s[0]]
  }

  /** Any moves, one after the other, on linked queues. */
  method Follow(pool: seq<Item>, n: nat, moves: seq<Move>) returns (qs: Queues, got: seq<Item?>)
    requires NoRepeats(pool) && Legal(n, |pool|, moves)
    modifies pool
    ensures fresh(qs) && fresh(qs.queues) && qs.pool == pool && qs.Valid() && qs.numbers == Replay(n, moves)
    ensures |got| == |moves| && forall i :: 0 <= i < |moves| && moves[i].First? ==>
      moves[i].q < n && got[i] == FirstOf(pool, Replay(n, moves[..i])[moves[i].q])
  {
    hide Queues.Valid, Queues.Holds, Legal, Replay, FirstOf, NoRepeats;
    qs := new Queues(pool, n);
    got := [];
    NoMoves(n, moves);
    for i := 0 to |moves|
      invariant fresh(qs) && fresh(qs.queues) && qs.pool == pool && qs.Valid()
      invariant |got| == i && qs.numbers == Replay(n, moves[..i])
      invariant forall j :: 0 <= j < i && moves[j].First? ==>
        moves[j].q < n && got[j] == FirstOf(pool, Replay(n, moves[..j])[moves[j].q])
    {
      OneMove(n, |pool|, moves, i);
      var e := Make(qs, moves[i]);
      got := got + [e];
    }
    assert moves[..|moves|] == moves;
  }

  lemma NoMoves(n: nat, moves: seq<Move>)
    ensures Replay(n, moves[..0]) == seq(n, _ => [])
  {}

  lemma OneMove(n: nat, tasks: nat, moves: seq<Move>, i: nat)
    requires Legal(n, tasks, moves) && i < |moves|
    ensures var before, m := Replay(n, moves[..i]), moves[i];
      && m.Allowed(before) && m.q < n && (!m.First? ==> m.t < tasks)
      && Replay(n, moves[..i + 1]) == before[m.q := m.After(before[m.q])]
  {
    assert moves[..i + 1][..i] == moves[..i];
  }

  /** One move. */
  method Make(qs: Queues, m: Move) returns (e: Item?)
    requires qs.Valid() && m.Allowed(qs.numbers) && (!m.First? ==> m.t < |qs.pool|)
    modifies qs`numbers, qs.queues, qs.pool
    ensures qs.Valid() && qs.numbers == old(qs.numbers)[m.q := m.After(old(qs.numbers)[m.q])]
    ensures m.First? ==> e == FirstOf(qs.pool, old(qs.numbers)[m.q])
  {
    hide Queues.Valid, Queues.Holds;
    NumbersFit(qs, m.q);
    e := null;
    match m {
      case In(q, t) => qs.Insert(q, t);
      case First(q) => e := qs.Dequeue(q);
      case Out(q, t) => qs.Remove(q, t);
    }
  }

  lemma NumbersFit(qs: Queues, q: nat)
    requires qs.Valid() && q < |qs.numbers|
    ensures |qs.queues| == |qs.numbers| && InPool(qs.pool, qs.numbers[q])
  {
    assert qs.Holds(q);
  }

  /**
    Any run of the kernel, with every move of a task between queues made on linked queues as well: in the end the links
    hold exactly the tasks of the machine's queues, in their order.
   */
  method RunOnLinks(pool: seq<Item>, mutexCount: nat, otherQueues: nat, events: seq<Event>)
      returns (k: Machine, qs: Queues)
    requires NoRepeats(pool) && |pool| == 64
    modifies pool
    ensures fresh(k) && k.Valid() && qs.Valid() && qs.pool == pool && qs.numbers == k.queues
  {
    hide Queues.Valid, Queues.Holds;
    k := Kernel.Run(mutexCount, otherQueues, events);
    var got;
    qs, got := Follow(pool, |k.queues|, k.moves);
  }
}

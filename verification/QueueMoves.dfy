/** The moves of tasks between queues, one after the other: all that kern/task.c does to the queues. */
module QueueMoves {
  import opened IntrusiveList

  /** task_insert, task_dequeue and task_remove. */
  datatype Move = In(q: nat, t: nat) | First(q: nat) | Out(q: nat, t: nat) {
    ghost predicate Allowed(queues: seq<seq<nat>>) {
      && q < |queues|
      && match this
         case In(_, t) => forall p :: 0 <= p < |queues| ==> t !in queues[p]
         case First(_) => true
         case Out(_, t) => t in queues[q]
    }

    /** The queue afterwards. */
    function After(s: seq<nat>): seq<nat> {
      match this
      case In(_, t) => s + [t]
      case First(_) => if s == [] then [] else s[1..]
      case Out(_, t) => Without(s, t)
    }
  }

  /** The queues after these moves, all empty before. */
  ghost function Replay(n: nat, moves: seq<Move>): (queues: seq<seq<nat>>)
    ensures |queues| == n
  {
    if moves == [] then seq(n, _ => [])
    else
      var before, m := Replay(n, moves[..|moves| - 1]), moves[|moves| - 1];
      if m.q < n then before[m.q := m.After(before[m.q])] else before
  }

  /** Every move was allowed when its turn came, and is of a task below `tasks`. */
  ghost predicate Legal(n: nat, tasks: nat, moves: seq<Move>) {
    forall i :: 0 <= i < |moves| ==>
      moves[i].Allowed(Replay(n, moves[..i])) && (!moves[i].First? ==> moves[i].t < tasks)
  }

  /** The queues are what the moves have made of them. */
  ghost predicate Logged(queues: seq<seq<nat>>, tasks: nat, moves: seq<Move>) {
    Legal(|queues|, tasks, moves) && Replay(|queues|, moves) == queues
  }

  lemma NothingLogged(n: nat, tasks: nat)
    ensures Logged(seq(n, _ => []), tasks, [])
  {}

  lemma LoggedMore(queues: seq<seq<nat>>, tasks: nat, moves: seq<Move>, m: Move)
    requires Logged(queues, tasks, moves) && m.Allowed(queues) && (!m.First? ==> m.t < tasks)
    ensures Logged(queues[m.q := m.After(queues[m.q])], tasks, moves + [m])
  {
    var more := moves + [m];
    assert more[..|moves|] == moves;
    forall i | 0 <= i < |more|
      ensures more[i].Allowed(Replay(|queues|, more[..i])) && (!more[i].First? ==> more[i].t < tasks)
    {
      if i < |moves| {
        assert more[i] == moves[i] && more[..i] == moves[..i];
      }
    }
  }
}

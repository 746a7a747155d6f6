/** The moves of buffers between lists, one after the other: all that kern/block.c does to its lists. */
module CacheMoves {
  import opened IntrusiveList
  import opened BlockCache

  /**
    blk_init puts a buffer in the first hash list and on the free list, blk_get moves it between hash lists and takes it
    off the free list, blk_put puts it back at the end, and blk_add puts new ones in front.
   */
  datatype Relink = Init(b: nat) | Rehash(b: nat, l: nat, l': nat) | Take(b: nat) | Give(b: nat) | GiveFirst(b: nat) {
    ghost predicate Allowed(lists: seq<seq<nat>>, free: seq<nat>) {
      match this
      case Init(b) => Unlisted(lists, b) && b !in free
      case Rehash(b, l, l') => l < 64 && l' < 64 && |lists| == 64 && (b in lists[l] || Unlisted(lists, b))
      case Take(b) => b in free
      case Give(b) => b !in free
      case GiveFirst(b) => b !in free
    }

    /** The hash lists afterwards. */
    function Lists(lists: seq<seq<nat>>): (r: seq<seq<nat>>)
      ensures |r| == |lists|
    {
      if |lists| != 64 then lists
      else
        match this
        case Init(b) => lists[0 := lists[0] + [b]]
        case Rehash(b, l, l') => if l < 64 && l' < 64 then Moved(lists, b, l, l') else lists
        case _ => lists
    }

    /** The free list afterwards. */
    function Free(free: seq<nat>): seq<nat> {
      match this
      case Init(b) => free + [b]
      case Rehash(_, _, _) => free
      case Take(b) => Without(free, b)
      case Give(b) => free + [b]
      case GiveFirst(b) => [b] + free
    }
  }

  ghost predicate Unlisted(lists: seq<seq<nat>>, b: nat) {
    forall l :: 0 <= l < |lists| ==> b !in lists[l]
  }

  /** The hash lists after these moves. */
  ghost function ListsAfter(moves: seq<Relink>): (lists: seq<seq<nat>>)
    ensures |lists| == 64
  {
    if moves == [] then seq(64, _ => []) else moves[|moves| - 1].Lists(ListsAfter(moves[..|moves| - 1]))
  }

  ghost function FreeAfter(moves: seq<Relink>): seq<nat> {
    if moves == [] then [] else moves[|moves| - 1].Free(FreeAfter(moves[..|moves| - 1]))
  }

  /** Every move was allowed when its turn came, and is of a buffer below `n`. */
  ghost predicate Legal(n: nat, moves: seq<Relink>) {
    forall i :: 0 <= i < |moves| ==>
      moves[i].b < n && moves[i].Allowed(ListsAfter(moves[..i]), FreeAfter(moves[..i]))
  }

  /** The lists are what the moves have made of them. */
  ghost predicate Logged(lists: seq<seq<nat>>, free: seq<nat>, n: nat, moves: seq<Relink>) {
    Legal(n, moves) && ListsAfter(moves) == lists && FreeAfter(moves) == free
  }

  lemma NothingLogged(n: nat)
    ensures Logged(seq(64, _ => []), [], n, [])
  {}

  lemma LoggedMore(lists: seq<seq<nat>>, free: seq<nat>, n: nat, moves: seq<Relink>, n': nat, m: Relink)
    requires Logged(lists, free, n, moves) && m.Allowed(lists, free) && m.b < n' && n <= n'
    ensures Logged(m.Lists(lists), m.Free(free), n', moves + [m])
  {
    hide Relink.Allowed, Relink.Lists, Relink.Free;
    var more := moves + [m];
    assert more[..|moves|] == moves;
    forall i | 0 <= i < |more|
      ensures more[i].b < n' && more[i].Allowed(ListsAfter(more[..i]), FreeAfter(more[..i]))
    {
      if i < |moves| {
        assert more[i] == moves[i] && more[..i] == moves[..i];
      }
    }
  }

  /** A buffer that is in no hash list has never been in one. */
  lemma {:induction false} NeverListed(n: nat, moves: seq<Relink>, b: nat)
    requires Legal(n, moves) && Unlisted(ListsAfter(moves), b)
    ensures forall m <- moves :: (m.Init? || m.Rehash?) ==> m.b != b
    decreases |moves|
  {
    if moves != [] {
      var k := |moves| - 1;
      var before, m := moves[..k], moves[k];
      forall i | 0 <= i < k ensures moves[i].b < n && before[i] == moves[i] && before[..i] == moves[..i] {}
      StaysListed(ListsAfter(before), m, b);
      NeverListed(n, before, b);
      forall x | x in moves && (x.Init? || x.Rehash?) ensures x.b != b {
        assert x == m || x in before;
      }
    }
  }

  lemma StaysListed(lists: seq<seq<nat>>, m: Relink, b: nat)
    requires |lists| == 64 && Unlisted(m.Lists(lists), b) && (m.Rehash? ==> m.l < 64 && m.l' < 64)
    ensures Unlisted(lists, b) && (m.Init? || m.Rehash? ==> m.b != b)
  {
    var after := m.Lists(lists);
    match m {
      case Init(c) =>
        assert b !in after[0];
        forall l | 0 <= l < 64 ensures b !in lists[l] {
          assert b !in after[l];
        }
      case Rehash(c, l, l') =>
        assert b !in after[l'] && b !in after[l];
        assert after[l'] == [c] + lists[l := Without(lists[l], c)][l'];
        WithoutOther(lists[l], c, b);
        forall k | 0 <= k < 64 ensures b !in lists[k] {
          assert b !in after[k];
        }
      case _ =>
    }
  }

  lemma {:induction false} WithoutOther(s: seq<nat>, c: nat, b: nat)
    requires b != c
    ensures b in s <==> b in Without(s, c)
  {
    if s != [] {
      WithoutOther(s[1..], c, b);
    }
  }
}

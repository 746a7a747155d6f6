/** The buffer cache as a whole over linked lists: whatever it does, the links hold what its sequences hold. */
module CacheLinks {
  import opened IntrusiveList
  import opened ListFamilies
  import opened CacheMoves
  import opened BlockCache
  import opened BlockOps

  /** The links of an item that has never been in a list. */
  ghost predicate Clear(e: Item)
    reads e
  {
    e.next == null && e.prev == null
  }

  /** Every item that is in no list is clear. */
  ghost predicate LooseClear(h: Lists)
    reads h, h.pool
  {
    forall b :: 0 <= b < |h.pool| && Loose(h.numbers, b) ==> Clear(h.pool[b])
  }

  /** Any moves, one after the other, on linked hash lists and a linked free list. */
  method Follow(hashPool: seq<Item>, freePool: seq<Item>, moves: seq<Relink>) returns (h: Lists, f: Lists)
    requires NoRepeats(hashPool) && NoRepeats(freePool) && |hashPool| == |freePool|
    requires forall e <- hashPool :: e !in freePool && Clear(e)
    requires Legal(|hashPool|, moves)
    modifies hashPool, freePool
    ensures h.Valid() && h.pool == hashPool && h.numbers == ListsAfter(moves)
    ensures f.Valid() && f.pool == freePool && f.numbers == [FreeAfter(moves)]
  {
    hide Lists.Valid, Lists.Holds, Legal, ListsAfter, FreeAfter, NoRepeats, Relink.Allowed, Relink.Lists, Relink.Free;
    NoMoves(moves);
    h := new Lists(hashPool, 64);
    f := new Lists(freePool, 1);
    for i := 0 to |moves|
      invariant fresh(h) && fresh(h.lists) && h.Valid() && h.pool == hashPool && LooseClear(h)
      invariant fresh(f) && fresh(f.lists) && f.Valid() && f.pool == freePool && Separated(h, f)
      invariant h.numbers == ListsAfter(moves[..i]) && f.numbers == [FreeAfter(moves[..i])]
    {
      OneMove(|hashPool|, moves, i);
      MakeHash(h, f, moves[i]);
      MakeFree(f, h, moves[i]);
    }
    assert moves[..|moves|] == moves;
  }

  lemma NoMoves(moves: seq<Relink>)
    ensures ListsAfter(moves[..0]) == seq(64, _ => []) && FreeAfter(moves[..0]) == []
  {}

  lemma OneMove(n: nat, moves: seq<Relink>, i: nat)
    requires Legal(n, moves) && i < |moves|
    ensures moves[i].b < n && moves[i].Allowed(ListsAfter(moves[..i]), FreeAfter(moves[..i]))
    ensures ListsAfter(moves[..i + 1]) == moves[i].Lists(ListsAfter(moves[..i]))
    ensures FreeAfter(moves[..i + 1]) == moves[i].Free(FreeAfter(moves[..i]))
  {
    assert moves[..i + 1][..i] == moves[..i];
  }

  /** The two families have nothing in common. */
  ghost predicate Separated(h: Lists, f: Lists) {
    && h != f && (forall l <- h.lists :: l !in f.lists) && (forall e <- h.pool :: e !in f.pool)
  }

  /** What a move does to the hash lists. */
  method MakeHash(h: Lists, ghost f: Lists, m: Relink)
    requires h.Valid() && |h.numbers| == 64 && LooseClear(h) && |f.numbers| == 1 && f.Valid() && Separated(h, f)
    requires m.b < |h.pool| && m.Allowed(h.numbers, f.numbers[0])
    modifies h`numbers, h.lists, h.pool
    ensures h.Valid() && LooseClear(h) && h.numbers == m.Lists(old(h.numbers)) && f.Valid()
  {
    hide Lists.Valid, Lists.Holds;
    ListsSize(h);
    match m {
      case Init(b) => h.Append(0, b);
      case Rehash(b, l, l') => h.Rehash(b, l, l');
      case _ =>
    }
    StillClear(old(h.numbers), m);
    forall k | 0 <= k < |f.lists| ensures unchanged(f.lists[k]) {
      assert f.lists[k] in f.lists && f.lists[k] !in h.lists;
    }
    forall k | 0 <= k < |f.pool| ensures unchanged(f.pool[k]) {
      assert f.pool[k] in f.pool && f.pool[k] !in h.pool;
    }
  }

  lemma ListsSize(h: Lists)
    requires h.Valid()
    ensures |h.lists| == |h.numbers|
  {}

  /** What is loose has been so before. */
  lemma StillClear(numbers: seq<seq<nat>>, m: Relink)
    requires |numbers| == 64 && (m.Rehash? ==> m.l < 64 && m.l' < 64)
    ensures forall x :: Loose(m.Lists(numbers), x) ==> Loose(numbers, x) && (m.Init? || m.Rehash? ==> x != m.b)
  {
    forall x | Loose(m.Lists(numbers), x) ensures Loose(numbers, x) && (m.Init? || m.Rehash? ==> x != m.b) {
      StaysListed(numbers, m, x);
    }
  }

  /** What a move does to the free list. */
  method MakeFree(f: Lists, ghost h: Lists, m: Relink)
    requires f.Valid() && |f.numbers| == 1 && h.Valid() && Separated(h, f) && LooseClear(h)
    requires m.b < |f.pool| && (m.Take? ==> m.b in f.numbers[0])
    requires m.Init? || m.Give? || m.GiveFirst? ==> m.b !in f.numbers[0]
    modifies f`numbers, f.lists, f.pool
    ensures f.Valid() && f.numbers == [m.Free(old(f.numbers[0]))] && h.Valid() && LooseClear(h)
  {
    hide Lists.Valid, Lists.Holds;
    ListsSize(f);
    match m {
      case Init(b) => f.Append(0, b);
      case Rehash(_, _, _) =>
      case Take(b) => f.Remove(0, b);
      case Give(b) => f.Append(0, b);
      case GiveFirst(b) => f.Prepend(0, b);
    }
    forall k | 0 <= k < |h.lists| ensures unchanged(h.lists[k]) {
      assert h.lists[k] in h.lists && h.lists[k] !in f.lists;
    }
    forall k | 0 <= k < |h.pool| ensures unchanged(h.pool[k]) {
      assert h.pool[k] in h.pool && h.pool[k] !in f.pool;
    }
  }

  /**
    Any cache that blk_init has made and any calls have changed, with every move of a buffer between lists made on
    linked lists as well: in the end the links hold exactly the buffers of the hash lists and of the free list, in their
    order.
   */
  method CacheOnLinks(c: Cache, hashPool: seq<Item>, freePool: seq<Item>) returns (h: Lists, f: Lists)
    requires c.Valid() && NoRepeats(hashPool) && NoRepeats(freePool) && |hashPool| == |freePool| == |c.bufs|
    requires forall e <- hashPool :: e !in freePool && Clear(e)
    modifies hashPool, freePool
    ensures h.Valid() && h.pool == hashPool && h.numbers == c.lists
    ensures f.Valid() && f.pool == freePool && f.numbers == [c.lru]
  {
    hide Lists.Valid, Lists.Holds, Legal, ListsAfter, FreeAfter, NoRepeats, Content, Shape;
    h, f := Follow(hashPool, freePool, c.moves);
  }
}

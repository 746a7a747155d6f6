/** The reader of the boot file system, sysload/fs-boot.c, and the round trip from tree to disk and back. */
module BootLoader {
  import opened BootFs

  // ----- the chain of headers -----

  /** Each header leads to the next, from block `blk` to block `end`. */
  predicate Chained(es: seq<Entry>, blk: nat, end: nat) {
    if es == [] then blk == end
    else es[0].blk == blk && Chained(es[1..], es[0].next, end)
  }

  lemma {:induction false} ChainedConcat(a: seq<Entry>, b: seq<Entry>, blk: nat, mid: nat, end: nat)
    requires Chained(a, blk, mid) && Chained(b, mid, end)
    ensures Chained(a + b, blk, end)
  {
    if a == [] {
      assert a + b == b;
    } else {
      assert (a + b)[1..] == a[1..] + b;
      ChainedConcat(a[1..], b, a[0].next, mid, end);
    }
  }

  /** No header is in front of block `blk`. */
  predicate From(es: seq<Entry>, blk: nat) {
    forall i :: 0 <= i < |es| ==> es[i].blk >= blk
  }

  /** What mkbfs writes is one chain; the root directory, written last, ends it. */
  lemma {:induction false} EntriesChained(n: Node, path: seq<Byte>, blk: nat, last: bool)
    requires last ==> n.Dir?
    ensures Chained(Entries(n, path, blk, last), blk, if last then 0 else End(n, blk))
    ensures From(Entries(n, path, blk, last), blk) && End(n, blk) > blk
    decreases n, 1
  {
    hide Blocks;
    match n
    case File(_, _) =>
    case Dir(_, cs) =>
      AllEntriesChained(cs, path, blk);
      var h := AllEnd(cs, blk);
      var es := Entries(n, path, blk, last);
      var own := es[|es| - 1];
      assert es == AllEntries(cs, path, blk) + [own];
      ChainedConcat(AllEntries(cs, path, blk), [own], blk, h, own.next);
  }

  lemma {:induction false} AllEntriesChained(cs: Children, prefix: seq<Byte>, blk: nat)
    ensures Chained(AllEntries(cs, prefix, blk), blk, AllEnd(cs, blk))
    ensures From(AllEntries(cs, prefix, blk), blk) && AllEnd(cs, blk) >= blk
    decreases cs, 0
  {
    match cs
    case Nil =>
    case Cons(name, n, rest) =>
      EntriesChained(n, Join(prefix, name), blk, false);
      AllEntriesChained(rest, prefix, End(n, blk));
      ChainedConcat(Entries(n, Join(prefix, name), blk, false), AllEntries(rest, prefix, End(n, blk)), blk,
        End(n, blk), AllEnd(cs, blk));
  }

  /** Each header leads to the block right behind its data, but for the 0 of the root that ends the chain. */
  lemma {:induction false} NextGrows(n: Node, path: seq<Byte>, blk: nat, last: bool, i: nat)
    requires i < |Entries(n, path, blk, last)|
    ensures var es := Entries(n, path, blk, last);
      if last && n.Dir? && i == |es| - 1 then es[i].next == 0 else es[i].next == es[i].After()
    decreases n, 1
  {
    hide Blocks;
    if n.Dir? && i < |AllEntries(n.children, path, blk)| {
      AllNextGrow(n.children, path, blk, i);
    }
  }

  lemma {:induction false} AllNextGrow(cs: Children, prefix: seq<Byte>, blk: nat, i: nat)
    requires i < |AllEntries(cs, prefix, blk)|
    ensures var e := AllEntries(cs, prefix, blk)[i]; e.next == e.After()
    decreases cs, 0
  {
    var es := Entries(cs.node, Join(prefix, cs.name), blk, false);
    if i < |es| {
      NextGrows(cs.node, Join(prefix, cs.name), blk, false, i);
    } else {
      AllNextGrow(cs.rest, prefix, End(cs.node, blk), i - |es|);
    }
  }

  lemma {:induction false} ChainedNext(es: seq<Entry>, blk: nat, end: nat, i: nat)
    requires Chained(es, blk, end) && i + 1 < |es|
    ensures es[i + 1].blk == es[i].next
  {
    if i > 0 {
      ChainedNext(es[1..], es[0].next, end, i - 1);
    }
  }

  /** The entries of the root lie one behind the other. */
  lemma {:induction false} InOrder(root: Node, i: nat, j: nat)
    requires root.Dir? && i < j < |Entries(root, [], FIRST_BLOCK, true)|
    ensures var es := Entries(root, [], FIRST_BLOCK, true);
      es[i].After() <= es[j].blk && LastBlock(es[i]) < es[j].blk
    decreases j
  {
    hide Blocks, Entries;
    var es := Entries(root, [], FIRST_BLOCK, true);
    EntriesChained(root, [], FIRST_BLOCK, true);
    ChainedNext(es, FIRST_BLOCK, 0, j - 1);
    NextGrows(root, [], FIRST_BLOCK, true, j - 1);
    if i < j - 1 {
      InOrder(root, i, j - 1);
    }
  }

  // ----- paths -----

  /** Names that can be path components, different within each directory. */
  predicate Proper(n: Node) {
    n.Dir? ==> AllProper(n.children)
  }

  predicate AllProper(cs: Children) {
    match cs
    case Nil => true
    case Cons(name, n, rest) => name != [] && 47 !in name && name !in Names(rest) && Proper(n) && AllProper(rest)
  }

  function Names(cs: Children): set<seq<Byte>> {
    match cs
    case Nil => {}
    case Cons(name, _, rest) => {name} + Names(rest)
  }

  /** The path is `p` or lies below it. */
  predicate Within(path: seq<Byte>, p: seq<Byte>) {
    p <= path && (|path| == |p| || path[|p|] == 47)
  }

  /** The path lies in the subtree of one of these names. */
  ghost predicate Below(path: seq<Byte>, prefix: seq<Byte>, names: set<seq<Byte>>) {
    exists name :: name in names && Within(path, Join(prefix, name))
  }

  lemma BelowIsWithin(path: seq<Byte>, p: seq<Byte>, name: seq<Byte>)
    requires p != [] && Within(path, Join(p, name))
    ensures Within(path, p) && path != p
  {
    assert Join(p, name)[|p|] == 47;
  }

  /** Subtrees of different names are disjoint. */
  lemma Apart(path: seq<Byte>, prefix: seq<Byte>, a: seq<Byte>, b: seq<Byte>)
    requires Within(path, Join(prefix, a)) && Within(path, Join(prefix, b)) && 47 !in a && 47 !in b
    ensures a == b
  {
    var at := if prefix == [] then 0 else |prefix| + 1;
    assert Join(prefix, a)[at..] == a && Join(prefix, b)[at..] == b;
    var rest := path[at..];
    assert a <= rest && (|rest| == |a| || rest[|a|] == 47);
    assert b <= rest && (|rest| == |b| || rest[|b|] == 47);
    assert forall i :: 0 <= i < |a| ==> rest[i] == a[i] && a[i] != 47;
    assert forall i :: 0 <= i < |b| ==> rest[i] == b[i] && b[i] != 47;
  }

  /** Every header of a node is within its path. */
  lemma {:induction false} EntriesWithin(n: Node, path: seq<Byte>, blk: nat, last: bool, i: nat)
    requires i < |Entries(n, path, blk, last)| && path != []
    ensures Within(Entries(n, path, blk, last)[i].path, path)
    decreases n, 1
  {
    if n.Dir? && i < |AllEntries(n.children, path, blk)| {
      AllEntriesBelow(n.children, path, blk, i);
      var e := AllEntries(n.children, path, blk)[i];
      var name :| name in Names(n.children) && Within(e.path, Join(path, name));
      BelowIsWithin(e.path, path, name);
    }
  }

  lemma {:induction false} AllEntriesBelow(cs: Children, prefix: seq<Byte>, blk: nat, i: nat)
    requires i < |AllEntries(cs, prefix, blk)| && (prefix == [] ==> AllNamed(cs))
    ensures Below(AllEntries(cs, prefix, blk)[i].path, prefix, Names(cs))
    decreases cs, 0
  {
    match cs
    case Nil =>
    case Cons(name, n, rest) =>
      var es := Entries(n, Join(prefix, name), blk, false);
      if i < |es| {
        EntriesWithin(n, Join(prefix, name), blk, false, i);
        assert name in Names(cs);
      } else {
        AllEntriesBelow(rest, prefix, End(n, blk), i - |es|);
        var e := AllEntries(rest, prefix, End(n, blk))[i - |es|];
        var other :| other in Names(rest) && Within(e.path, Join(prefix, other));
        assert other in Names(cs);
      }
  }

  predicate AllNamed(cs: Children) {
    match cs
    case Nil => true
    case Cons(name, _, rest) => name != [] && AllNamed(rest)
  }

  lemma {:induction false} ProperNames(cs: Children)
    requires AllProper(cs)
    ensures AllNamed(cs) && forall name :: name in Names(cs) ==> name != [] && 47 !in name
  {
    match cs
    case Nil =>
    case Cons(_, _, rest) => ProperNames(rest);
  }

  ghost predicate DistinctPaths(es: seq<Entry>) {
    forall i, j :: 0 <= i < j < |es| ==> es[i].path != es[j].path
  }

  lemma DistinctConcat(a: seq<Entry>, b: seq<Entry>)
    requires DistinctPaths(a) && DistinctPaths(b)
    requires forall i, j :: 0 <= i < |a| && 0 <= j < |b| ==> a[i].path != b[j].path
    ensures DistinctPaths(a + b)
  {}

  /** No two headers have the same path. */
  lemma {:induction false} EntriesDistinct(n: Node, path: seq<Byte>, blk: nat, last: bool)
    requires Proper(n)
    ensures DistinctPaths(Entries(n, path, blk, last))
    decreases n, 1
  {
    hide Within;
    if n.Dir? {
      var cs := n.children;
      AllEntriesDistinct(cs, path, blk);
      ProperNames(cs);
      var es := AllEntries(cs, path, blk);
      forall i | 0 <= i < |es| ensures es[i].path != path {
        AllEntriesBelow(cs, path, blk, i);
        var name :| name in Names(cs) && Within(es[i].path, Join(path, name));
        NotItself(es[i].path, path, name);
      }
      var all := Entries(n, path, blk, last);
      assert all == es + [all[|es|]];
      DistinctConcat(es, [all[|es|]]);
    }
  }

  lemma NotItself(path: seq<Byte>, p: seq<Byte>, name: seq<Byte>)
    requires Within(path, Join(p, name)) && name != []
    ensures path != p
  {}

  lemma {:induction false} AllEntriesDistinct(cs: Children, prefix: seq<Byte>, blk: nat)
    requires AllProper(cs)
    ensures DistinctPaths(AllEntries(cs, prefix, blk))
    decreases cs, 0
  {
    hide Within;
    match cs
    case Nil =>
    case Cons(name, n, rest) =>
      EntriesDistinct(n, Join(prefix, name), blk, false);
      AllEntriesDistinct(rest, prefix, End(n, blk));
      ProperNames(rest);
      var a, b := Entries(n, Join(prefix, name), blk, false), AllEntries(rest, prefix, End(n, blk));
      forall i, j | 0 <= i < |a| && 0 <= j < |b| ensures a[i].path != b[j].path {
        EntriesWithin(n, Join(prefix, name), blk, false, i);
        AllEntriesBelow(rest, prefix, End(n, blk), j);
        var other :| other in Names(rest) && Within(b[j].path, Join(prefix, other));
        if a[i].path == b[j].path {
          Apart(a[i].path, prefix, name, other);
        }
      }
      DistinctConcat(a, b);
  }

  // ----- what a tree contains -----

  /** The tree has a file with these data at this path. */
  predicate FileIn(n: Node, at: seq<Byte>, path: seq<Byte>, data: seq<Byte>) {
    match n
    case File(_, d) => at == path && d == data
    case Dir(_, cs) => FileAmong(cs, at, path, data)
  }

  predicate FileAmong(cs: Children, prefix: seq<Byte>, path: seq<Byte>, data: seq<Byte>) {
    match cs
    case Nil => false
    case Cons(name, n, rest) => FileIn(n, Join(prefix, name), path, data) || FileAmong(rest, prefix, path, data)
  }

  /** The tree has a file or a directory at this path. */
  predicate PathIn(n: Node, at: seq<Byte>, path: seq<Byte>) {
    at == path || (n.Dir? && PathAmong(n.children, at, path))
  }

  predicate PathAmong(cs: Children, prefix: seq<Byte>, path: seq<Byte>) {
    match cs
    case Nil => false
    case Cons(name, n, rest) => PathIn(n, Join(prefix, name), path) || PathAmong(rest, prefix, path)
  }

  predicate IsFile(e: Entry, path: seq<Byte>, data: seq<Byte>) {
    e.isFile && e.path == path && e.data == data
  }

  lemma {:induction false} FileHasEntry(n: Node, at: seq<Byte>, blk: nat, last: bool, path: seq<Byte>, data: seq<Byte>)
    requires FileIn(n, at, path, data)
    ensures exists i :: 0 <= i < |Entries(n, at, blk, last)| && IsFile(Entries(n, at, blk, last)[i], path, data)
    decreases n, 1
  {
    if n.Dir? {
      FileAmongHasEntry(n.children, at, blk, path, data);
      var es := AllEntries(n.children, at, blk);
      var i :| 0 <= i < |es| && IsFile(es[i], path, data);
      assert Entries(n, at, blk, last)[i] == es[i];
    } else {
      assert IsFile(Entries(n, at, blk, last)[0], path, data);
    }
  }

  lemma {:induction false} FileAmongHasEntry(cs: Children, prefix: seq<Byte>, blk: nat, path: seq<Byte>,
      data: seq<Byte>)
    requires FileAmong(cs, prefix, path, data)
    ensures exists i :: 0 <= i < |AllEntries(cs, prefix, blk)| && IsFile(AllEntries(cs, prefix, blk)[i], path, data)
    decreases cs, 0
  {
    var es, all := Entries(cs.node, Join(prefix, cs.name), blk, false), AllEntries(cs, prefix, blk);
    if FileIn(cs.node, Join(prefix, cs.name), path, data) {
      FileHasEntry(cs.node, Join(prefix, cs.name), blk, false, path, data);
      var i :| 0 <= i < |es| && IsFile(es[i], path, data);
      assert all[i] == es[i];
    } else {
      var rest := AllEntries(cs.rest, prefix, End(cs.node, blk));
      FileAmongHasEntry(cs.rest, prefix, End(cs.node, blk), path, data);
      var i :| 0 <= i < |rest| && IsFile(rest[i], path, data);
      assert all[|es| + i] == rest[i];
    }
  }

  lemma {:induction false} EntryHasPath(n: Node, at: seq<Byte>, blk: nat, last: bool, i: nat)
    requires i < |Entries(n, at, blk, last)|
    ensures PathIn(n, at, Entries(n, at, blk, last)[i].path)
    decreases n, 1
  {
    if n.Dir? && i < |AllEntries(n.children, at, blk)| {
      EntryAmongHasPath(n.children, at, blk, i);
    }
  }

  lemma {:induction false} EntryAmongHasPath(cs: Children, prefix: seq<Byte>, blk: nat, i: nat)
    requires i < |AllEntries(cs, prefix, blk)|
    ensures PathAmong(cs, prefix, AllEntries(cs, prefix, blk)[i].path)
    decreases cs, 0
  {
    var es := Entries(cs.node, Join(prefix, cs.name), blk, false);
    if i < |es| {
      EntryHasPath(cs.node, Join(prefix, cs.name), blk, false, i);
    } else {
      EntryAmongHasPath(cs.rest, prefix, End(cs.node, blk), i - |es|);
    }
  }

  // ----- fs-boot -----

  datatype Lookup = Found(index: nat, size: nat) | NoEntry | Invalid | ReadError | Unfinished

  /** The walk along the headers from block `blk` on, over any disk: what it comes to within `n` headers. */
  function Walk(disk: Disk, path: seq<Byte>, blk: nat, n: nat): Lookup
    decreases n
  {
    if n == 0 then Unfinished
    else if !disk.Has(blk) then ReadError
    else if disk.At(blk)[511] != 0 then Invalid
    else
      var h := Decode(disk.At(blk));
      if h.name == path then Found(blk, h.size) else if h.next == 0 then NoEntry else Walk(disk, path, h.next, n - 1)
  }

  /** fs_boot_lookup, on any disk on which it ends; a block that cannot be read is missing. */
  method LookUp(disk: Disk, path: seq<Byte>, ghost n: nat) returns (r: Lookup)
    requires Walk(disk, path, FIRST_BLOCK, n) != Unfinished
    ensures r == Walk(disk, path, FIRST_BLOCK, n)
  {
    hide Decode;
    var blk := FIRST_BLOCK;
    ghost var k := n;
    while true
      invariant 0 < k <= n && Walk(disk, path, blk, k) == Walk(disk, path, FIRST_BLOCK, n)
      decreases k
    {
      if !disk.Has(blk) {
        return ReadError;
      }
      if disk.At(blk)[511] != 0 {
        return Invalid;
      }
      var h := Decode(disk.At(blk));
      if h.name == path {
        return Found(blk, h.size);
      }
      blk := h.next;
      k := k - 1;
      if blk == 0 {
        return NoEntry;
      }
    }
  }

  /** A header that leads to itself is walked for ever, by a search for any other name. */
  lemma {:induction false} EndlessWalk(disk: Disk, path: seq<Byte>, blk: nat, n: nat)
    requires blk > 0 && disk.Has(blk) && disk.At(blk)[511] == 0
    requires Decode(disk.At(blk)).next == blk && Decode(disk.At(blk)).name != path
    ensures Walk(disk, path, blk, n) == Unfinished
  {
    if n > 0 {
      EndlessWalk(disk, path, blk, n - 1);
    }
  }

  /** The chain is on the disk. */
  ghost predicate OnDisk(disk: Disk, es: seq<Entry>) {
    es != [] && Chained(es, FIRST_BLOCK, 0) && From(es, FIRST_BLOCK) && forall e <- es :: Written(disk, e)
  }

  /** On a chain the walk ends: at the first header with the path, or with ENOENT if there is none. */
  lemma {:induction false} WalkChain(disk: Disk, path: seq<Byte>, es: seq<Entry>)
    requires es != [] && Chained(es, es[0].blk, 0) && From(es, FIRST_BLOCK) && forall e <- es :: Written(disk, e)
    ensures var r := Walk(disk, path, es[0].blk, |es|);
      && (r.NoEntry? <==> forall i :: 0 <= i < |es| ==> es[i].path != path)
      && (!r.NoEntry? ==> exists i :: 0 <= i < |es| && es[i].path == path && r == Found(es[i].blk, es[i].size))
    decreases |es|
  {
    hide Decode, HasData;
    var rest := es[1..];
    assert Written(disk, es[0]);
    if es[0].path != path && rest != [] {
      assert From(rest, FIRST_BLOCK);
      WalkChain(disk, path, rest);
      var r := Walk(disk, path, rest[0].blk, |rest|);
      assert r == Walk(disk, path, es[0].blk, |es|);
      if !r.NoEntry? {
        var i :| 0 <= i < |rest| && rest[i].path == path && r == Found(rest[i].blk, rest[i].size);
        assert es[i + 1] == rest[i];
      } else {
        forall i | 0 <= i < |es| ensures es[i].path != path {
          assert i > 0 ==> es[i] == rest[i - 1];
        }
      }
    }
  }

  /** The walk comes to an entry if those up to it are on the disk and none before has the same path. */
  lemma {:induction false} WalkTo(disk: Disk, es: seq<Entry>, end: nat, i: nat)
    requires i < |es| && Chained(es, es[0].blk, end) && From(es, FIRST_BLOCK)
    requires forall j :: 0 <= j <= i ==> Written(disk, es[j])
    requires forall j :: 0 <= j < i ==> es[j].path != es[i].path
    ensures Walk(disk, es[i].path, es[0].blk, i + 1) == Found(es[i].blk, es[i].size)
    decreases i
  {
    hide Decode, HasData;
    assert Written(disk, es[0]);
    if i > 0 {
      var rest := es[1..];
      assert From(rest, FIRST_BLOCK);
      assert forall j :: 0 <= j < i ==> rest[j] == es[j + 1];
      WalkTo(disk, rest, end, i - 1);
    }
  }

  /** What is found is a header. */
  lemma {:induction false} FoundIsHeader(disk: Disk, path: seq<Byte>, blk: nat, n: nat)
    requires Walk(disk, path, blk, n).Found?
    ensures var b := Walk(disk, path, blk, n).index; disk.Has(b) && disk.At(b)[511] == 0
    decreases n
  {
    hide Decode;
    if Decode(disk.At(blk)).name != path {
      FoundIsHeader(disk, path, Decode(disk.At(blk)).next, n - 1);
    }
  }

  /** Some number of steps comes to a header of this size at this block. */
  ghost predicate Finds(disk: Disk, path: seq<Byte>, blk: nat, size: nat) {
    exists n :: Walk(disk, path, FIRST_BLOCK, n) == Found(blk, size)
  }

  /** The contents of `n` blocks. */
  function Contents(disk: Disk, blk: nat, n: nat): (r: seq<Byte>)
    requires forall b: nat :: blk <= b < blk + n ==> disk.Has(b)
    ensures |r| == 512 * n
  {
    if n == 0 then [] else Contents(disk, blk, n - 1) + disk.At(blk + n - 1)
  }

  /** fs_boot_load: the first `sz` bytes behind a header, whatever they are; an error if a block cannot be read. */
  method Load(disk: Disk, index: nat, sz: nat) returns (ok: bool, buf: seq<Byte>)
    ensures ok <==> forall b: nat :: index + 1 <= b < index + 1 + Blocks(sz) ==> disk.Has(b)
    ensures ok ==> sz <= 512 * Blocks(sz) && buf == Contents(disk, index + 1, Blocks(sz))[..sz]
  {
    hide Contents;
    var resid, k := sz, 0;
    buf := [];
    NoContents(disk, index + 1);
    while resid > 0
      invariant 0 <= k <= Blocks(sz) && resid == (if 512 * k < sz then sz - 512 * k else 0)
      invariant forall b: nat :: index + 1 <= b < index + 1 + k ==> disk.Has(b)
      invariant buf == Contents(disk, index + 1, k)[..sz - resid]
      decreases resid
    {
      if !disk.Has(index + 1 + k) {
        return false, [];
      }
      var cl := if resid < 512 then resid else 512;
      MoreContents(disk, index + 1, k, cl);
      buf := buf + disk.At(index + 1 + k)[..cl];
      resid := resid - cl;
      k := k + 1;
    }
    ok := true;
  }

  lemma NoContents(disk: Disk, blk: nat)
    ensures Contents(disk, blk, 0) == []
  {}

  lemma MoreContents(disk: Disk, blk: nat, k: nat, cl: nat)
    requires cl <= 512 && forall b: nat :: blk <= b < blk + (k + 1) ==> disk.Has(b)
    ensures Contents(disk, blk, k + 1)[..512 * k + cl] == Contents(disk, blk, k)[..512 * k] + disk.At(blk + k)[..cl]
  {}

  /** The blocks of a file hold its bytes. */
  lemma {:induction false} FileContents(disk: Disk, data: seq<Byte>, blk: nat, k: nat, sz: nat)
    requires k <= Blocks(|data|) && sz <= 512 * k && sz <= |data| && HasData(disk, data, blk, Blocks(|data|))
    ensures forall b: nat :: blk <= b < blk + k ==> disk.Has(b)
    ensures Contents(disk, blk, k)[..sz] == data[..sz]
    decreases k
  {
    hide Chunk;
    if k > 0 {
      var below, cl := 512 * (k - 1), if sz > 512 * (k - 1) then sz - 512 * (k - 1) else 0;
      if cl == 0 {
        FileContents(disk, data, blk, k - 1, sz);
        assert Contents(disk, blk, k)[..sz] == Contents(disk, blk, k - 1)[..sz];
      } else {
        FileContents(disk, data, blk, k - 1, below);
        MoreContents(disk, blk, k - 1, cl);
        ChunkBytes(data, k - 1, cl);
        assert disk.Has(blk + (k - 1)) && disk.At(blk + (k - 1)) == Chunk(data, k - 1);
      }
    }
  }

  lemma ChunkBytes(data: seq<Byte>, k: nat, cl: nat)
    requires k < Blocks(|data|) && cl <= 512 && 512 * k + cl <= |data|
    ensures data[..512 * k] + Chunk(data, k)[..cl] == data[..512 * k + cl]
  {}

  // ----- the round trip -----

  /** The block of the root directory's header, the last one written. */
  function RootBlock(root: Node): nat
    requires root.Dir?
  {
    AllEnd(root.children, FIRST_BLOCK)
  }

  /** The root directory's header is within the 4 GiB of the device that unsigned byte offsets reach. */
  predicate InReach(root: Node, offset: nat)
    requires root.Dir?
  {
    (offset + RootBlock(root)) * 512 < WORD
  }

  /**
    A tree written from block 128 of a partition on. Within reach all of it is where the reader looks; beyond, the
    block where the reader looks for the root directory keeps what it held before. If nothing comes back onto the
    first header, every single entry is either on the disk or has its last block as before.
   */
  method Make(root: Node, image: map<nat, Block>, offset: nat) returns (disk: Disk, ghost es: seq<Entry>)
    requires root.Dir? && PathsFit(root, []) && offset < WORD
    ensures es == Entries(root, [], FIRST_BLOCK, true) && disk.offset == offset
    ensures InReach(root, offset) ==> OnDisk(disk, es)
    ensures !InReach(root, offset) ==> SameAt(image, disk.device, offset + RootBlock(root))
    ensures Spared(root, FIRST_BLOCK, offset) ==> forall e <- es :: Stored(Disk(image, offset), disk, e)
    ensures OneVanishing(root.children) && offset + FIRST_BLOCK + 1 < REACH ==>
      var c := root.children;
      && HeadAt(disk, FIRST_BLOCK, FileHead(c.name, c.node.perm, c.node.data, FIRST_BLOCK))
      && HeadAt(disk, FIRST_BLOCK + 1, Head(Mode(true, root.perm), 96, 0, []))
  {
    hide PathsFit, Chained, From, Entries, SameAt, Stored, HeadAt, FileHead, WordBlocks, SameWithin, SameFrom;
    var w := new Writer(image, offset, FIRST_BLOCK);
    w.AddDir(root, [], true, FIRST_BLOCK);
    es := Entries(root, [], FIRST_BLOCK, true);
    EntriesChained(root, [], FIRST_BLOCK, true);
    EntriesSome(root, [], FIRST_BLOCK, true);
    disk := Disk(w.device, offset);
    if InReach(root, offset) {
      AllInside(root, offset, Disk(image, offset), disk);
    }
  }

  lemma EntriesSome(n: Node, path: seq<Byte>, blk: nat, last: bool)
    ensures var es := Entries(n, path, blk, last);
      && es != []
      && (n.Dir? ==> var e := es[|es| - 1]; e.blk == AllEnd(n.children, blk) && e.path == path && !e.isFile)
  {}

  lemma AllInside(root: Node, offset: nat, disk: Disk, disk': Disk)
    requires root.Dir? && InReach(root, offset) && offset == disk'.offset
    requires forall e <- Entries(root, [], FIRST_BLOCK, true) :: Stored(disk, disk', e)
    ensures forall e <- Entries(root, [], FIRST_BLOCK, true) :: Written(disk', e)
  {
    hide Entries, Written;
    EntriesSome(root, [], FIRST_BLOCK, true);
    var es := Entries(root, [], FIRST_BLOCK, true);
    forall i | 0 <= i < |es| ensures Written(disk', es[i]) {
      assert Stored(disk, disk', es[i]);
      if i < |es| - 1 {
        InOrder(root, i, |es| - 1);
      }
    }
  }

  /**
    The reader finds the root directory if and only if it is in reach, where the device held something that is no
    header at its block.
   */
  method MakeOver(root: Node, image: map<nat, Block>, offset: nat) returns (disk: Disk)
    requires root.Dir? && Proper(root) && PathsFit(root, []) && offset < WORD
    requires offset + RootBlock(root) in image && image[offset + RootBlock(root)][511] != 0
    ensures disk.offset == offset
    ensures InReach(root, offset) <==> Finds(disk, [], RootBlock(root), DirSize(root.children))
  {
    hide PathsFit, Proper, Chained, From, Entries, Walk, Written, Stored, HeadAt;
    ghost var es;
    disk, es := Make(root, image, offset);
    EntriesSome(root, [], FIRST_BLOCK, true);
    EntriesDistinct(root, [], FIRST_BLOCK, true);
    if InReach(root, offset) {
      StartsChain(es, disk);
      WalkTo(disk, es, 0, |es| - 1);
      RootSize(root);
    } else if Finds(disk, [], RootBlock(root), DirSize(root.children)) {
      ghost var n :| Walk(disk, [], FIRST_BLOCK, n) == Found(RootBlock(root), DirSize(root.children));
      FoundIsHeader(disk, [], FIRST_BLOCK, n);
      assert false;
    }
  }

  lemma RootSize(root: Node)
    requires root.Dir?
    ensures var es := Entries(root, [], FIRST_BLOCK, true); es != [] && es[|es| - 1].size == DirSize(root.children)
  {}

  /** For which sizes no data block is written. */
  lemma NoData(size: nat)
    ensures WordBlocks(size) == 0 <==> size % WORD == 0 || size % WORD > WORD - 512
  {}

  /**
    A tree with a single file of such a size, for example of 2^32 - 1 bytes: the file is found, and what loads is
    nothing, or begins with the header of the root directory.
   */
  method VanishingFile(root: Node, image: map<nat, Block>, offset: nat) returns (disk: Disk, ok: bool, buf: seq<Byte>)
    requires root.Dir? && PathsFit(root, []) && offset + FIRST_BLOCK + 1 < REACH
    requires OneVanishing(root.children) && root.children.node.data != []
    ensures Finds(disk, root.children.name, FIRST_BLOCK, |root.children.node.data| % WORD)
    ensures var data, hd := root.children.node.data, Head(Mode(true, root.perm), 96, 0, []);
      && hd.Fits()
      && (ok && |data| % WORD > 0 ==> |buf| >= 512 && buf[..512] == Encode(hd))
      && (ok && buf == data ==> data[..512] == Encode(hd))
  {
    hide PathsFit, Chained, From, Entries, Written, Stored, Encode, Decode, WordBlocks, OnDisk;
    var file := root.children;
    var data := file.node.data;
    ghost var es;
    disk, es := Make(root, image, offset);
    HeadRead(disk, FIRST_BLOCK, FileHead(file.name, file.node.perm, data, FIRST_BLOCK));
    assert Walk(disk, file.name, FIRST_BLOCK, 1) == Found(FIRST_BLOCK, |data| % WORD);
    NoData(|data|);
    ok, buf := Load(disk, FIRST_BLOCK, |data| % WORD);
    if ok && |data| % WORD > 0 {
      ContentsAt(disk, FIRST_BLOCK + 1, Blocks(|data| % WORD), 0);
    }
  }

  lemma HeadRead(disk: Disk, blk: nat, hd: Head)
    requires HeadAt(disk, blk, hd)
    ensures disk.At(blk)[511] == 0 && Decode(disk.At(blk)) == hd
  {
    HeaderRoundTrip(hd);
  }

  lemma {:induction false} ContentsAt(disk: Disk, blk: nat, n: nat, k: nat)
    requires k < n && forall b: nat :: blk <= b < blk + n ==> disk.Has(b)
    ensures Contents(disk, blk, n)[512 * k..512 * k + 512] == disk.At(blk + k)
  {
    if k < n - 1 {
      ContentsAt(disk, blk, n - 1, k);
    }
  }

  /** Looking up a path fails with ENOENT exactly when the tree has neither a file nor a directory there. */
  method FindPath(root: Node, image: map<nat, Block>, offset: nat, path: seq<Byte>) returns (found: bool)
    requires root.Dir? && PathsFit(root, []) && InReach(root, offset) && offset < WORD
    ensures found <==> PathIn(root, [], path)
  {
    hide PathsFit, Chained, From, Entries, Walk, Written, Stored, HeadAt;
    var disk; ghost var es;
    disk, es := Make(root, image, offset);
    StartsChain(es, disk);
    WalkChain(disk, path, es);
    var r := LookUp(disk, path, |es|);
    if PathIn(root, [], path) {
      PathHasEntry(root, [], FIRST_BLOCK, true, path);
    }
    if !r.NoEntry? {
      ghost var i :| 0 <= i < |es| && es[i].path == path;
      EntryHasPath(root, [], FIRST_BLOCK, true, i);
    }
    found := r.Found?;
  }

  lemma StartsChain(es: seq<Entry>, disk: Disk)
    requires es != [] && Chained(es, FIRST_BLOCK, 0)
    ensures es[0].blk == FIRST_BLOCK
  {}

  /** The reader finds the file and loads its bytes. */
  ghost predicate Reads(disk: Disk, e: Entry) {
    && Finds(disk, e.path, e.blk, |e.data|)
    && (forall b: nat :: e.blk + 1 <= b < e.blk + 1 + Blocks(|e.data|) ==> disk.Has(b))
    && Contents(disk, e.blk + 1, Blocks(|e.data|))[..|e.data|] == e.data
  }

  /** An entry inside of a tree that spares its first header is found. */
  lemma InsideFound(root: Node, offset: nat, disk: Disk, disk': Disk, i: nat)
    requires root.Dir? && Proper(root) && offset == disk'.offset && i < |Entries(root, [], FIRST_BLOCK, true)|
    requires forall e <- Entries(root, [], FIRST_BLOCK, true) :: Stored(disk, disk', e)
    requires Inside(Entries(root, [], FIRST_BLOCK, true)[i], offset)
    ensures var e := Entries(root, [], FIRST_BLOCK, true)[i];
      Written(disk', e) && Walk(disk', e.path, FIRST_BLOCK, i + 1) == Found(e.blk, e.size)
  {
    hide Entries, Written, Walk, Proper, Chained, From, LastBlock;
    var es := Entries(root, [], FIRST_BLOCK, true);
    EntriesChained(root, [], FIRST_BLOCK, true);
    EntriesDistinct(root, [], FIRST_BLOCK, true);
    StartsChain(es, disk);
    forall j | 0 <= j <= i ensures Written(disk', es[j]) {
      assert Stored(disk, disk', es[j]);
      if j < i {
        InOrder(root, j, i);
        BlkBeforeLast(es[i]);
      }
    }
    WalkTo(disk', es, 0, i);
  }

  lemma BlkBeforeLast(e: Entry)
    ensures e.blk <= LastBlock(e)
  {}

  /** The tree has a file with these data at this path, and it lies within reach. */
  ghost predicate FileInside(root: Node, offset: nat, path: seq<Byte>, data: seq<Byte>) {
    var es := Entries(root, [], FIRST_BLOCK, true);
    exists i :: 0 <= i < |es| && IsFile(es[i], path, data) && Inside(es[i], offset)
  }

  /** Of a tree in reach these are all its files. */
  lemma AllFilesInside(root: Node, offset: nat, path: seq<Byte>, data: seq<Byte>)
    requires root.Dir? && InReach(root, offset) && FileIn(root, [], path, data)
    ensures Spared(root, FIRST_BLOCK, offset) && FileInside(root, offset, path, data)
  {
    hide Entries, FileIn, LastBlock;
    var es := Entries(root, [], FIRST_BLOCK, true);
    EntriesSome(root, [], FIRST_BLOCK, true);
    FileHasEntry(root, [], FIRST_BLOCK, true, path, data);
    var i :| 0 <= i < |es| && IsFile(es[i], path, data);
    InOrder(root, i, |es| - 1);
  }

  /**
    Every file of a tree that spares its first header is found under its path and loads with exactly its bytes, if it
    lies within reach.
   */
  method LoadFile(root: Node, image: map<nat, Block>, offset: nat, path: seq<Byte>, ghost data: seq<Byte>)
      returns (buf: seq<Byte>)
    requires root.Dir? && Proper(root) && PathsFit(root, []) && offset < WORD && Spared(root, FIRST_BLOCK, offset)
    requires FileInside(root, offset, path, data)
    ensures buf == data
  {
    hide PathsFit, Proper, Chained, From, Entries, HasData, Walk, Contents, Stored, OneVanishing, Spared, OnDisk;
    var disk; ghost var es;
    disk, es := Make(root, image, offset);
    ghost var i :| 0 <= i < |es| && IsFile(es[i], path, data) && Inside(es[i], offset);
    InsideFound(root, offset, Disk(image, offset), disk, i);
    var r := LookUp(disk, path, i + 1);
    FileContents(disk, data, r.index + 1, Blocks(|data|), |data|);
    var ok;
    ok, buf := Load(disk, r.index, r.size);
    assert data[..|data|] == data;
  }

  /** The device holds something else where the last block of a file should be. */
  predicate Spoiled(image: map<nat, Block>, offset: nat, e: Entry) {
    && offset + LastBlock(e) in image
    && var b := image[offset + LastBlock(e)];
       if e.data == [] then b[511] != 0 else b[0] != e.data[512 * (Blocks(|e.data|) - 1)]
  }

  /** On such a device the reader gets the file if and only if it lies within reach. */
  method FileOver(root: Node, image: map<nat, Block>, offset: nat, ghost i: nat) returns (disk: Disk)
    requires root.Dir? && Proper(root) && PathsFit(root, []) && offset < WORD && Spared(root, FIRST_BLOCK, offset)
    requires i < |Entries(root, [], FIRST_BLOCK, true)|
    requires var e := Entries(root, [], FIRST_BLOCK, true)[i];
      e.isFile && e.size == |e.data| && Spoiled(image, offset, e)
    ensures disk.offset == offset
    ensures var e := Entries(root, [], FIRST_BLOCK, true)[i]; Inside(e, offset) <==> Reads(disk, e)
  {
    hide PathsFit, Proper, Chained, From, Entries, HasData, Walk, Contents, Stored, OneVanishing, Spared, OnDisk;
    ghost var es;
    disk, es := Make(root, image, offset);
    ghost var e := es[i];
    if Inside(e, offset) {
      InsideFound(root, offset, Disk(image, offset), disk, i);
      FileContents(disk, e.data, e.blk + 1, Blocks(|e.data|), |e.data|);
      assert e.data[..|e.data|] == e.data;
    } else if Reads(disk, e) {
      assert Stored(Disk(image, offset), disk, e);
      NotRead(image, disk, e);
      assert false;
    }
  }

  lemma NotRead(image: map<nat, Block>, disk: Disk, e: Entry)
    requires Spoiled(image, disk.offset, e) && e.isFile && e.size == |e.data| && !Inside(e, disk.offset)
    requires Stored(Disk(image, disk.offset), disk, e)
    ensures !Reads(disk, e)
  {
    hide Walk, Contents;
    if e.data != [] {
      var k := Blocks(|e.data|) - 1;
      if forall b: nat :: e.blk + 1 <= b < e.blk + 1 + Blocks(|e.data|) ==> disk.Has(b) {
        ContentsAt(disk, e.blk + 1, k + 1, k);
      }
    } else if Finds(disk, e.path, e.blk, |e.data|) {
      var n :| Walk(disk, e.path, FIRST_BLOCK, n) == Found(e.blk, |e.data|);
      FoundIsHeader(disk, e.path, FIRST_BLOCK, n);
    }
  }

  lemma {:induction false} PathHasEntry(n: Node, at: seq<Byte>, blk: nat, last: bool, path: seq<Byte>)
    requires PathIn(n, at, path)
    ensures exists i :: 0 <= i < |Entries(n, at, blk, last)| && Entries(n, at, blk, last)[i].path == path
    decreases n, 1
  {
    var all := Entries(n, at, blk, last);
    if at == path {
      assert all[|all| - 1].path == path;
    } else {
      PathAmongHasEntry(n.children, at, blk, path);
      var es := AllEntries(n.children, at, blk);
      var i :| 0 <= i < |es| && es[i].path == path;
      assert all[i] == es[i];
    }
  }

  lemma {:induction false} PathAmongHasEntry(cs: Children, prefix: seq<Byte>, blk: nat, path: seq<Byte>)
    requires PathAmong(cs, prefix, path)
    ensures exists i :: 0 <= i < |AllEntries(cs, prefix, blk)| && AllEntries(cs, prefix, blk)[i].path == path
    decreases cs, 0
  {
    var es, all := Entries(cs.node, Join(prefix, cs.name), blk, false), AllEntries(cs, prefix, blk);
    if PathIn(cs.node, Join(prefix, cs.name), path) {
      PathHasEntry(cs.node, Join(prefix, cs.name), blk, false, path);
      var i :| 0 <= i < |es| && es[i].path == path;
      assert all[i] == es[i];
    } else {
      var rest := AllEntries(cs.rest, prefix, End(cs.node, blk));
      PathAmongHasEntry(cs.rest, prefix, End(cs.node, blk), path);
      var i :| 0 <= i < |rest| && rest[i].path == path;
      assert all[|es| + i] == rest[i];
    }
  }
}

/**
  The disk buffer cache of kern/block.c: 64 hash lists, a list of unreferenced buffers in order of last use, reference
  counts and valid/dirty bits, against a plain map from block to contents.

  The lists appear as the sequences that IntrusiveList proves lib/list.c to maintain.
 */
module BlockCache {
  import opened IntrusiveList

  const BLK_NR_LISTS: nat := 64
  const BLK_NBLK: nat := 1024
  const BLK_SIZE: nat := 512

  /** A block of a device; device 0 is the null pointer of a buffer that has never been used. */
  datatype Key = Key(dev: nat, nr: nat)

  type Data = d: seq<bv8> | |d| == 512 witness seq(512, _ => 0)

  function Blank(): Data {
    seq(512, _ => 0)
  }

  /**
    A buffer. `listed` tells whether its hash-list links have ever been set: a buffer of blk_add has null links and is
    in no hash list until it is first used.
   */
  datatype Buffer = Buffer(refcnt: nat, valid: bool, dirty: bool, listed: bool, key: Key, data: Data) {
    predicate Live() {
      refcnt > 0 || valid
    }

    predicate Caches(k: Key) {
      valid && key == k
    }

    /** Only a valid buffer is dirty; a live one belongs to a device and is in a hash list. */
    predicate Sane() {
      (dirty ==> valid) && (Live() ==> listed && key.dev != 0) && (!listed ==> key.nr == 0)
    }
  }

  function Zeroed(listed: bool): Buffer {
    Buffer(0, false, false, listed, Key(0, 0), Blank())
  }

  /** Contents of a device block. */
  function DiskAt(disk: map<Key, Data>, k: Key): Data {
    if k in disk then disk[k] else Blank()
  }

  /** What a device is asked for, and whether it succeeds. */
  datatype Access = Fetch(k: Key, ok: bool) | Flush(k: Key, data: Data, ok: bool) {
    /** A failed write, after which the device may hold anything there. */
    predicate Spoils(at: Key) {
      Flush? && !ok && k == at
    }
  }

  /** Which accesses the devices will carry out, counted from the first, and what a failed one leaves behind. */
  datatype Devices = Devices(works: nat -> bool, junk: nat -> Data)

  /** The accesses so far have ended as the devices have it. */
  ghost predicate Honest(io: seq<Access>, devices: Devices) {
    forall i :: 0 <= i < |io| ==> io[i].ok == devices.works(i)
  }

  /** The same accesses, had they all succeeded. */
  function Tried(io: seq<Access>): seq<Access> {
    seq(|io|, i requires 0 <= i < |io| => io[i].(ok := true))
  }

  /** What writing back a buffer asks of its device. */
  function WriteBack(b: Buffer): seq<Access> {
    if b.dirty then [Flush(b.key, b.data, true)] else []
  }

  /** The blocks that count as failed are those a write of which has failed. */
  ghost predicate Blamed(io: seq<Access>, failed: set<Key>) {
    forall k :: k in failed <==> exists i :: 0 <= i < |io| && io[i].Spoils(k)
  }

  lemma BlamedMore(io: seq<Access>, failed: set<Key>, a: Access)
    requires Blamed(io, failed)
    ensures Blamed(io + [a], if a.Flush? && !a.ok then failed + {a.k} else failed)
    ensures Tried(io + [a]) == Tried(io) + [a.(ok := true)]
  {
    var io' := io + [a];
    assert io'[|io|] == a;
    forall k, i | 0 <= i < |io| && io[i].Spoils(k) ensures exists j :: 0 <= j < |io'| && io'[j].Spoils(k) {
      assert io'[i].Spoils(k);
    }
    if a.Flush? && !a.ok {
      assert io'[|io|].Spoils(a.k);
    }
  }

  // ----- the invariant, by component -----

  ghost predicate AllSane(bufs: seq<Buffer>) {
    forall i :: 0 <= i < |bufs| ==> bufs[i].Sane()
  }

  /** At most one live buffer per block. */
  ghost predicate Unique(bufs: seq<Buffer>) {
    forall i, j ::
      0 <= i < |bufs| && 0 <= j < |bufs| && bufs[i].Live() && bufs[j].Live() && bufs[i].key == bufs[j].key ==> i == j
  }

  /** Hash list `l` holds exactly the listed buffers whose block number hashes to `l`, once each. */
  ghost predicate Bucket(bufs: seq<Buffer>, s: seq<nat>, l: nat) {
    NoRepeats(s) && forall i: nat :: i in s <==> i < |bufs| && bufs[i].listed && bufs[i].key.nr % 64 == l
  }

  ghost predicate Buckets(bufs: seq<Buffer>, lists: seq<seq<nat>>) {
    |lists| == 64 && forall l: nat :: l < 64 ==> Bucket(bufs, lists[l], l)
  }

  /** The list of free buffers holds exactly the unreferenced ones, once each. */
  ghost predicate Free(bufs: seq<Buffer>, lru: seq<nat>) {
    NoRepeats(lru) && forall i: nat :: i in lru <==> i < |bufs| && bufs[i].refcnt == 0
  }

  /** A clean buffer agrees with its device block, unless writing that block has failed. */
  ghost predicate Synced(bufs: seq<Buffer>, disk: map<Key, Data>, failed: set<Key>) {
    forall i :: 0 <= i < |bufs| && bufs[i].valid && !bufs[i].dirty && bufs[i].key !in failed ==>
      bufs[i].data == DiskAt(disk, bufs[i].key)
  }

  ghost predicate Content(bufs: seq<Buffer>, disk: map<Key, Data>, failed: set<Key>) {
    AllSane(bufs) && Unique(bufs) && Synced(bufs, disk, failed)
  }

  ghost predicate Shape(bufs: seq<Buffer>, lists: seq<seq<nat>>, lru: seq<nat>) {
    Buckets(bufs, lists) && Free(bufs, lru)
  }

  // ----- the view: valid cached data if present, else device contents -----

  ghost predicate Cached(bufs: seq<Buffer>, k: Key) {
    exists i :: 0 <= i < |bufs| && bufs[i].Caches(k)
  }

  /** A buffer holds contents of the block that its device has not been given. */
  ghost predicate Unwritten(bufs: seq<Buffer>, k: Key) {
    exists i :: 0 <= i < |bufs| && bufs[i].Caches(k) && bufs[i].dirty
  }

  ghost function View(bufs: seq<Buffer>, disk: map<Key, Data>, k: Key): Data {
    if Cached(bufs, k) then
      var i :| 0 <= i < |bufs| && bufs[i].Caches(k); bufs[i].data
    else
      DiskAt(disk, k)
  }

  lemma ViewCached(bufs: seq<Buffer>, disk: map<Key, Data>, i: nat)
    requires i < |bufs| && bufs[i].valid && Unique(bufs)
    ensures View(bufs, disk, bufs[i].key) == bufs[i].data
  {
    assert bufs[i].Caches(bufs[i].key);
  }

  /** How replacing buffer `b` by `x` changes the view. */
  lemma ViewUpdate(bufs: seq<Buffer>, disk: map<Key, Data>, disk': map<Key, Data>, b: nat, x: Buffer, k: Key)
    requires b < |bufs| && Unique(bufs) && Unique(bufs[b := x])
    ensures x.Caches(k) ==> View(bufs[b := x], disk', k) == x.data
    ensures !x.Caches(k) && bufs[b].Caches(k) ==> View(bufs[b := x], disk', k) == DiskAt(disk', k)
    ensures !x.Caches(k) && !bufs[b].Caches(k) && DiskAt(disk, k) == DiskAt(disk', k) ==>
      View(bufs[b := x], disk', k) == View(bufs, disk, k)
  {
    var bufs' := bufs[b := x];
    if x.Caches(k) {
      assert bufs'[b].Caches(k);
      ViewCached(bufs', disk', b);
    } else if bufs[b].Caches(k) {
      assert !Cached(bufs', k);
    } else if Cached(bufs, k) {
      var i :| 0 <= i < |bufs| && bufs[i].Caches(k);
      ViewCached(bufs, disk, i);
      assert bufs'[i].Caches(k);
      ViewCached(bufs', disk', i);
    } else {
      assert !Cached(bufs', k);
    }
  }

  /** How replacing buffer `b` by `x` changes what is cached. */
  lemma CachedUpdate(bufs: seq<Buffer>, b: nat, x: Buffer, k: Key)
    requires b < |bufs| && Unique(bufs)
    ensures Cached(bufs[b := x], k) <==> x.Caches(k) || (Cached(bufs, k) && !bufs[b].Caches(k))
    ensures Unwritten(bufs[b := x], k) <==> (x.Caches(k) && x.dirty) || (Unwritten(bufs, k) && !bufs[b].Caches(k))
  {
    var bufs' := bufs[b := x];
    assert x.Caches(k) ==> bufs'[b].Caches(k);
    if Cached(bufs, k) && !bufs[b].Caches(k) {
      var i :| 0 <= i < |bufs| && bufs[i].Caches(k);
      assert bufs'[i].Caches(k);
    }
    if Unwritten(bufs, k) && !bufs[b].Caches(k) {
      var i :| 0 <= i < |bufs| && bufs[i].Caches(k) && bufs[i].dirty;
      assert bufs'[i].Caches(k) && bufs'[i].dirty;
    }
  }

  /** The views agree on every block whose device contents can be trusted. */
  ghost predicate SameView(bufs: seq<Buffer>, disk: map<Key, Data>, bufs': seq<Buffer>, disk': map<Key, Data>,
                           failed: set<Key>)
  {
    forall k :: k !in failed ==> View(bufs', disk', k) == View(bufs, disk, k)
  }

  /** The view changes at block `k0`, to `d`, and nowhere else. */
  ghost predicate Stored(bufs: seq<Buffer>, bufs': seq<Buffer>, disk: map<Key, Data>, k0: Key, d: Data) {
    forall k :: View(bufs', disk, k) == if k == k0 then d else View(bufs, disk, k)
  }

  // ----- what each kind of change keeps -----

  lemma SameViewTrans(b1: seq<Buffer>, d1: map<Key, Data>, b2: seq<Buffer>, d2: map<Key, Data>, b3: seq<Buffer>,
                      d3: map<Key, Data>, failed: set<Key>, failed': set<Key>)
    requires SameView(b1, d1, b2, d2, failed) && SameView(b2, d2, b3, d3, failed') && failed <= failed'
    ensures SameView(b1, d1, b3, d3, failed')
  {}

  /** A change of one buffer that leaves its place in the lists alone. */
  lemma ShapeKept(bufs: seq<Buffer>, lists: seq<seq<nat>>, lru: seq<nat>, b: nat, x: Buffer)
    requires b < |bufs| && Shape(bufs, lists, lru)
    requires x.listed == bufs[b].listed && x.key == bufs[b].key && (x.refcnt == 0) == (bufs[b].refcnt == 0)
    ensures Shape(bufs[b := x], lists, lru)
  {
    hide NoRepeats;
    forall l: nat | l < 64 ensures Bucket(bufs[b := x], lists[l], l) {
      assert Bucket(bufs, lists[l], l);
    }
  }

  /** A change of one buffer that keeps its key and liveness. */
  lemma UniqueKept(bufs: seq<Buffer>, b: nat, x: Buffer)
    requires b < |bufs| && Unique(bufs) && x.key == bufs[b].key && (x.Live() ==> bufs[b].Live())
    ensures Unique(bufs[b := x])
  {}

  /** A buffer written back: the device holds the data, or the block counts as failed. */
  lemma CleanKeeps(bufs: seq<Buffer>, disk: map<Key, Data>, failed: set<Key>, b: nat, d: Data, err: bool)
    requires b < |bufs| && bufs[b].valid && bufs[b].dirty && Content(bufs, disk, failed)
    requires !err ==> d == bufs[b].data
    ensures var k := bufs[b].key; var bufs' := bufs[b := bufs[b].(dirty := false)];
      var failed' := if err then failed + {k} else failed;
      Content(bufs', disk[k := d], failed') && SameView(bufs, disk, bufs', disk[k := d], {})
  {
    var k, x := bufs[b].key, bufs[b].(dirty := false);
    UniqueKept(bufs, b, x);
    forall k' ensures View(bufs[b := x], disk[k := d], k') == View(bufs, disk, k') {
      ViewUpdate(bufs, disk, disk[k := d], b, x, k');
      ViewCached(bufs, disk, b);
    }
  }

  /** A clean buffer dropped, and its place taken by an invalid one for a block that is not cached. */
  lemma ReplaceKeeps(bufs: seq<Buffer>, disk: map<Key, Data>, failed: set<Key>, b: nat, x: Buffer)
    requires b < |bufs| && Content(bufs, disk, failed) && !bufs[b].dirty && bufs[b].refcnt == 0
    requires !x.valid && x.Sane()
    requires x.Live() ==> forall i :: 0 <= i < |bufs| && bufs[i].Live() ==> bufs[i].key != x.key
    ensures Content(bufs[b := x], disk, failed) && SameView(bufs, disk, bufs[b := x], disk, failed)
  {
    assert Unique(bufs[b := x]);
    forall k | k !in failed ensures View(bufs[b := x], disk, k) == View(bufs, disk, k) {
      ViewUpdate(bufs, disk, disk, b, x, k);
      if bufs[b].Caches(k) {
        ViewCached(bufs, disk, b);
      }
    }
  }

  /** An invalid buffer whose data are overwritten, and which becomes valid only with the device's contents. */
  lemma FillKeeps(bufs: seq<Buffer>, disk: map<Key, Data>, failed: set<Key>, b: nat, d: Data, valid: bool)
    requires b < |bufs| && Content(bufs, disk, failed) && !bufs[b].valid && bufs[b].refcnt > 0
    requires valid ==> d == DiskAt(disk, bufs[b].key)
    ensures var bufs' := bufs[b := bufs[b].(data := d, valid := valid)];
      Content(bufs', disk, failed) && SameView(bufs, disk, bufs', disk, {})
  {
    var x := bufs[b].(data := d, valid := valid);
    UniqueKept(bufs, b, x);
    forall k ensures View(bufs[b := x], disk, k) == View(bufs, disk, k) {
      ViewUpdate(bufs, disk, disk, b, x, k);
      if x.Caches(k) {
        assert !Cached(bufs, k);
      }
    }
  }

  /** A referenced buffer given new data: the view changes at its block and nowhere else. */
  lemma StoreKeeps(bufs: seq<Buffer>, disk: map<Key, Data>, failed: set<Key>, b: nat, d: Data)
    requires b < |bufs| && Content(bufs, disk, failed) && bufs[b].refcnt > 0
    ensures var bufs' := bufs[b := bufs[b].(data := d, valid := true, dirty := true)];
      Content(bufs', disk, failed) && Stored(bufs, bufs', disk, bufs[b].key, d)
  {
    var x := bufs[b].(data := d, valid := true, dirty := true);
    UniqueKept(bufs, b, x);
    var bufs' := bufs[b := x];
    forall k ensures View(bufs', disk, k) == if k == x.key then d else View(bufs, disk, k) {
      ViewUpdate(bufs, disk, disk, b, x, k);
    }
    assert Stored(bufs, bufs', disk, x.key, d);
  }

  /** A change of the reference count alone, of a buffer that stays live or was no longer valid. */
  lemma CountKeeps(bufs: seq<Buffer>, disk: map<Key, Data>, failed: set<Key>, b: nat, n: nat)
    requires b < |bufs| && Content(bufs, disk, failed) && bufs[b].Live()
    ensures var bufs' := bufs[b := bufs[b].(refcnt := n)];
      Content(bufs', disk, failed) && SameView(bufs, disk, bufs', disk, {})
  {
    var x := bufs[b].(refcnt := n);
    UniqueKept(bufs, b, x);
    forall k ensures View(bufs[b := x], disk, k) == View(bufs, disk, k) {
      ViewUpdate(bufs, disk, disk, b, x, k);
      if bufs[b].Caches(k) {
        ViewCached(bufs, disk, b);
      }
    }
  }

  /** More buffers, unused and in no hash list. */
  lemma GrowKeeps(bufs: seq<Buffer>, disk: map<Key, Data>, failed: set<Key>, lists: seq<seq<nat>>, lru: seq<nat>)
    requires Content(bufs, disk, failed) && Shape(bufs, lists, lru)
    ensures var bufs' := bufs + [Zeroed(false)];
      Content(bufs', disk, failed) && Shape(bufs', lists, [|bufs|] + lru) && SameView(bufs, disk, bufs', disk, {})
  {
    var bufs' := bufs + [Zeroed(false)];
    assert |bufs| !in lru;
    forall l: nat | l < 64 ensures Bucket(bufs', lists[l], l) {
      assert Bucket(bufs, lists[l], l);
    }
    assert Unique(bufs');
    forall k ensures View(bufs', disk, k) == View(bufs, disk, k) {
      if Cached(bufs, k) {
        var i :| 0 <= i < |bufs| && bufs[i].Caches(k);
        ViewCached(bufs, disk, i);
        assert bufs'[i].Caches(k);
        ViewCached(bufs', disk, i);
      } else {
        assert !Cached(bufs', k);
      }
    }
  }

  // ----- the lists -----

  lemma {:induction false} ShortEnough(s: seq<nat>, n: nat)
    requires NoRepeats(s) && forall i :: i in s ==> i < n
    ensures |s| <= n
    decreases n
  {
    assert s != [] ==> s[0] in s;
    if n > 0 {
      var m: nat := n - 1;
      WithoutContents(s, m);
      ShortEnough(Without<nat>(s, m), m);
      if m in s {
        WithoutAt(s, IndexOf(s, m));
      } else {
        WithoutAbsent(s, m);
      }
    }
  }

  /** A hash list is never longer than the number of buffers: blk_get's loop detector does not fire. */
  lemma BucketLength(bufs: seq<Buffer>, lists: seq<seq<nat>>, l: nat)
    requires Buckets(bufs, lists) && l < 64
    ensures |lists[l]| <= |bufs| && forall p :: 0 <= p < |lists[l]| ==> lists[l][p] < |bufs|
  {
    assert Bucket(bufs, lists[l], l);
    forall p | 0 <= p < |lists[l]| ensures lists[l][p] < |bufs| {
      assert lists[l][p] in lists[l];
    }
    ShortEnough(lists[l], |bufs|);
  }

  /** Every live buffer of a block is in the hash list that is searched. */
  lemma SearchIsComplete(bufs: seq<Buffer>, lists: seq<seq<nat>>, k: Key)
    requires AllSane(bufs) && Buckets(bufs, lists)
    requires forall i :: i in lists[k.nr % 64] && i < |bufs| ==> !(bufs[i].Live() && bufs[i].key == k)
    ensures forall i :: 0 <= i < |bufs| && bufs[i].Live() ==> bufs[i].key != k
  {
    assert Bucket(bufs, lists[k.nr % 64], k.nr % 64);
  }

  /** A buffer taken out of its hash list and put at the front of another. */
  function Moved(lists: seq<seq<nat>>, b: nat, l: nat, l': nat): seq<seq<nat>>
    requires |lists| == 64 && l < 64 && l' < 64
  {
    var out := lists[l := Without(lists[l], b)];
    out[l' := [b] + out[l']]
  }

  lemma MovedKeeps(bufs: seq<Buffer>, lists: seq<seq<nat>>, lru: seq<nat>, b: nat, x: Buffer)
    requires Shape(bufs, lists, lru) && lru != [] && b == lru[0] < |bufs| && x.listed && x.refcnt > 0
    requires bufs[b].Sane()
    ensures Shape(bufs[b := x], Moved(lists, b, bufs[b].key.nr % 64, x.key.nr % 64), lru[1..])
  {
    var l, l' := bufs[b].key.nr % 64, x.key.nr % 64;
    var out := Moved(lists, b, l, l');
    forall m: nat | m < 64 ensures Bucket(bufs[b := x], out[m], m) {
      assert Bucket(bufs, lists[m], m);
      WithoutContents(lists[m], b);
    }
    FreeWithoutFirst(bufs, lru, x);
  }

  lemma FreeWithoutFirst(bufs: seq<Buffer>, lru: seq<nat>, x: Buffer)
    requires Free(bufs, lru) && lru != [] && lru[0] < |bufs| && x.refcnt > 0
    ensures Free(bufs[lru[0] := x], lru[1..])
  {
    WithoutContents(lru, lru[0]);
    assert Without(lru, lru[0]) == lru[1..];
  }

  /** A first reference takes a buffer off the free list. */
  lemma HoldShape(bufs: seq<Buffer>, lists: seq<seq<nat>>, lru: seq<nat>, b: nat)
    requires b < |bufs| && Shape(bufs, lists, lru) && bufs[b].refcnt == 0
    ensures Shape(bufs[b := bufs[b].(refcnt := 1)], lists, Without(lru, b))
  {
    forall l: nat | l < 64 ensures Bucket(bufs[b := bufs[b].(refcnt := 1)], lists[l], l) {
      assert Bucket(bufs, lists[l], l);
    }
    WithoutContents(lru, b);
  }

  /** Dropping the last reference puts it at the end of the free list. */
  lemma ReleaseShape(bufs: seq<Buffer>, lists: seq<seq<nat>>, lru: seq<nat>, b: nat)
    requires b < |bufs| && Shape(bufs, lists, lru) && bufs[b].refcnt == 1
    ensures Shape(bufs[b := bufs[b].(refcnt := 0)], lists, lru + [b])
  {
    forall l: nat | l < 64 ensures Bucket(bufs[b := bufs[b].(refcnt := 0)], lists[l], l) {
      assert Bucket(bufs, lists[l], l);
    }
  }
}

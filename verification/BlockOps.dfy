/** The operations of kern/block.c on the cache. */
module BlockOps {
  import opened IntrusiveList
  import opened BlockCache
  import opened CacheMoves

  datatype Status = Done | NoMemory | DeviceError | Invalid

  /** Every buffer but `b` is as it was. */
  ghost predicate Others(bufs: seq<Buffer>, bufs': seq<Buffer>, b: nat) {
    |bufs| == |bufs'| && b < |bufs| && bufs' == bufs[b := bufs'[b]]
  }

  ghost predicate NoneLive(bufs: seq<Buffer>, k: Key) {
    forall i :: 0 <= i < |bufs| && bufs[i].Live() ==> bufs[i].key != k
  }

  /** Reference counts are as they were; a buffer in use keeps its block and, if it is valid, everything. */
  ghost predicate HeldKept(bufs: seq<Buffer>, bufs': seq<Buffer>) {
    |bufs| <= |bufs'| && forall i :: 0 <= i < |bufs| ==> BufferKept(bufs[i], bufs'[i])
  }

  predicate BufferKept(b: Buffer, b': Buffer) {
    && b'.refcnt == b.refcnt
    && (b.refcnt > 0 ==> b'.key == b.key && (b.valid ==> b' == b))
  }

  /** Reference counts are as they were, and a buffer in use keeps its block. */
  ghost predicate HoldsKept(bufs: seq<Buffer>, bufs': seq<Buffer>) {
    && |bufs| <= |bufs'|
    && (forall i :: 0 <= i < |bufs| ==>
          bufs'[i].refcnt == bufs[i].refcnt && (bufs[i].refcnt > 0 ==> bufs'[i].key == bufs[i].key))
    && forall i :: |bufs| <= i < |bufs'| ==> bufs'[i].refcnt == 0
  }

  /** The least recently used buffer has to make room for block `k`, and does hold block `k'`. */
  ghost predicate Leaves(bufs: seq<Buffer>, lru: seq<nat>, k: Key, k': Key) {
    NoneLive(bufs, k) && lru != [] && lru[0] < |bufs| && bufs[lru[0]].Caches(k')
  }

  /** What making room for block `k` asks of the devices. */
  ghost function Evicted(bufs: seq<Buffer>, lru: seq<nat>, k: Key): seq<Access> {
    if NoneLive(bufs, k) && lru != [] && lru[0] < |bufs| then WriteBack(bufs[lru[0]]) else []
  }

  /** The buffer that serves block `k`: its live one, or else the least recently used one. */
  ghost predicate Serves(bufs: seq<Buffer>, lru: seq<nat>, b: nat, k: Key) {
    b < |bufs| && if NoneLive(bufs, k) then lru != [] && b == lru[0] else bufs[b].Live() && bufs[b].key == k
  }

  /**
    What is cached after a request for block `k`: as before, but for the block that had to leave and, if it was fetched
    or filled, for block `k` itself.
   */
  ghost predicate Recalls(bufs: seq<Buffer>, lru: seq<nat>, bufs': seq<Buffer>, k: Key, fetched: bool, filled: bool) {
    && (forall k' :: Cached(bufs', k') <==>
          (k' == k && (fetched || filled)) || (Cached(bufs, k') && !Leaves(bufs, lru, k, k')))
    && (forall k' :: Unwritten(bufs', k') <==>
          (k' == k && filled) || (Unwritten(bufs, k') && !Leaves(bufs, lru, k, k')))
  }

  /** A block that is cached is had for nothing; for any other the device is asked once, after room has been made. */
  ghost predicate Loaded(bufs: seq<Buffer>, lru: seq<nat>, io: seq<Access>, io': seq<Access>, k: Key, ok: bool) {
    if Cached(bufs, k) then ok && io' == io
    else
      && |io| < |io'| && io'[|io'| - 1] == Fetch(k, ok)
      && Tried(io'[..|io'| - 1]) == Tried(io) + Evicted(bufs, lru, k)
  }

  /** Bytes off..off+|bytes| of a block replaced. */
  function Patched(d: Data, off: nat, bytes: seq<bv8>): (r: Data)
    requires off + |bytes| <= 512
  {
    d[..off] + bytes + d[off + |bytes|..]
  }

  /** The bytes of block `k` from `off` on are replaced in the view, and no other byte of any block changes. */
  ghost predicate Written(bufs: seq<Buffer>, disk: map<Key, Data>, bufs': seq<Buffer>, disk': map<Key, Data>,
                          k: Key, off: nat, bytes: seq<bv8>, failed: set<Key>)
    requires off + |bytes| <= 512
  {
    forall k' :: k' !in failed ==>
      View(bufs', disk', k') == if k' == k then Patched(View(bufs, disk, k), off, bytes) else View(bufs, disk, k')
  }

  class Cache {
    var bufs: seq<Buffer>
    var lists: seq<seq<nat>>
    var lru: seq<nat>
    /** What has been done to the lists so far. */
    var moves: seq<Relink>
    /** The contents of all devices. */
    var disk: map<Key, Data>
    const devices: Devices
    /** What the devices have been asked for so far. */
    var io: seq<Access>
    /** The blocks a write of which has failed. */
    ghost var failed: set<Key>

    ghost predicate Valid()
      reads this
    {
      && Content(bufs, disk, failed) && Shape(bufs, lists, lru) && Blamed(io, failed)
      && Logged(lists, lru, |bufs|, moves) && Honest(io, devices)
    }

    /** What the cache presents as the contents of block `k`. */
    ghost function Contents(k: Key): Data
      reads this
    {
      View(bufs, disk, k)
    }

    /** blk_init. */
    constructor (devices0: Devices, disk0: map<Key, Data>)
      ensures Valid() && devices == devices0 && disk == disk0 && failed == {} && io == []
      ensures |bufs| == BLK_NBLK == |lru| && forall i :: 0 <= i < |bufs| ==> bufs[i] == Zeroed(true)
      ensures forall k :: View(bufs, disk, k) == DiskAt(disk0, k)
    {
      devices, disk, io, failed := devices0, disk0, [], {};
      var bs: seq<Buffer>, ls: seq<seq<nat>>, free: seq<nat>, log: seq<Relink> := [], seq(64, _ => []), [], [];
      NothingLogged(0);
      for i := 0 to 1024
        invariant |bs| == |free| == i && ls == seq(64, _ => [])[0 := free] && NoRepeats(free)
        invariant forall j :: 0 <= j < i ==> bs[j] == Zeroed(true) && free[j] == j
        invariant Logged(ls, free, i, log)
      {
        LoggedMore(ls, free, i, log, i + 1, Init(i));
        log := log + [Init(i)];
        ls := ls[0 := ls[0] + [i]];
        free := free + [i];
        bs := bs + [Zeroed(true)];
      }
      InitialShape(bs, ls, free);
      bufs, lists, lru, moves := bs, ls, free, log;
    }

    /** blk_write: the buffer is written back if dirty. A failed write may leave anything on the device. */
    method Write(b: nat) returns (status: Status)
      requires Content(bufs, disk, failed) && Blamed(io, failed) && Honest(io, devices)
      requires b < |bufs| && bufs[b].valid
      modifies this`bufs, this`disk, this`io, this`failed
      ensures Content(bufs, disk, failed) && Blamed(io, failed) && Honest(io, devices)
      ensures bufs == old(bufs)[b := old(bufs)[b].(dirty := false)]
      ensures old(failed) <= failed && old(io) <= io && (status == Done || status == DeviceError)
      ensures SameView(old(bufs), old(disk), bufs, disk, {})
      ensures status == Done ==> failed == old(failed)
      ensures status == Done && old(bufs[b].dirty) ==> DiskAt(disk, bufs[b].key) == bufs[b].data
      ensures disk == if old(bufs[b].dirty) then old(disk)[bufs[b].key := DiskAt(disk, bufs[b].key)] else old(disk)
      ensures io == old(io) + if old(bufs[b].dirty) then [Flush(bufs[b].key, bufs[b].data, status == Done)] else []
      ensures !old(bufs[b].dirty) ==> status == Done
      ensures Tried(io) == Tried(old(io)) + WriteBack(old(bufs[b]))
    {
      hide Content, SameView, Logged, Blamed;
      if !bufs[b].dirty {
        SameViewRefl(bufs, disk);
        return Done;
      }
      var ok := devices.works(|io|);
      var d := if ok then bufs[b].data else devices.junk(|io|);
      CleanKeeps(bufs, disk, failed, b, d, !ok);
      BlamedMore(io, failed, Flush(bufs[b].key, bufs[b].data, ok));
      disk := disk[bufs[b].key := d];
      io := io + [Flush(bufs[b].key, bufs[b].data, ok)];
      if !ok {
        failed := failed + {bufs[b].key};
      }
      bufs := bufs[b := bufs[b].(dirty := false)];
      status := if ok then Done else DeviceError;
    }

    /** The hash-list search of blk_get: a live buffer of the block, if there is one. */
    method Search(k: Key) returns (found: bool, b: nat)
      requires Valid()
      ensures found ==> b < |bufs| && bufs[b].Live() && bufs[b].key == k
      ensures !found ==> NoneLive(bufs, k)
    {
      hide NoRepeats, Synced, Unique, Free, Logged;
      var loopDet := |bufs|;
      BucketLength(bufs, lists, k.nr % 64);
      var l := lists[k.nr % 64];
      hide Bucket, Logged;
      var p := 0;
      while p < |l|
        invariant 0 <= p <= |l| && loopDet == |bufs| - p
        invariant forall q :: 0 <= q < p ==> !(bufs[l[q]].Live() && bufs[l[q]].key == k)
      {
        if loopDet == 0 {
          assert false;  // panic: queue loop
        }
        loopDet := loopDet - 1;
        if bufs[l[p]].Live() && bufs[l[p]].key == k {
          return true, l[p];
        }
        p := p + 1;
      }
      SearchIsComplete(bufs, lists, k);
      return false, 0;
    }

    /** blk_get: a buffer for block `k`, referenced once more; the least recently used one is taken if none is live. */
    method Get(k: Key) returns (status: Status, b: nat)
      requires Valid() && k.dev != 0
      modifies this`bufs, this`lists, this`lru, this`moves, this`disk, this`io, this`failed
      ensures Valid() && old(failed) <= failed && old(io) <= io
      ensures SameView(old(bufs), old(disk), bufs, disk, failed)
      ensures status == Done || status == NoMemory
      ensures status == NoMemory <==> old(lru) == [] && NoneLive(old(bufs), k)
      ensures status == NoMemory ==> bufs == old(bufs) && lru == old(lru)
      ensures status == Done ==> Others(old(bufs), bufs, b) && Serves(old(bufs), old(lru), b, k)
      ensures status == Done && !NoneLive(old(bufs), k) ==>
        bufs[b] == old(bufs)[b].(refcnt := old(bufs)[b].refcnt + 1) && lists == old(lists)
        && lru == if old(bufs)[b].refcnt == 0 then Without(old(lru), b) else old(lru)
      ensures status == Done && NoneLive(old(bufs), k) ==>
        lru == old(lru)[1..] && old(bufs)[b].refcnt == 0
        && bufs[b] == Buffer(1, false, false, true, k, old(bufs)[b].data)
      ensures Tried(io) == Tried(old(io)) + Evicted(old(bufs), old(lru), k)
      ensures io == old(io) ==> disk == old(disk) && failed == old(failed)
      ensures status == NoMemory || !NoneLive(old(bufs), k) ==> io == old(io)
    {
      hide Content, Shape, SameView, Logged, Blamed;
      var found;
      found, b := Search(k);
      if found {
        Hold(b);
        return Done, b;
      }
      if lru == [] {
        SameViewRefl(bufs, disk);
        SameViewMore(bufs, disk, bufs, disk, {}, failed);
        return NoMemory, 0;
      }
      b := Recycle(k);
      status := Done;
    }

    /** A live buffer is referenced once more, and leaves the free list if it was there. */
    method Hold(b: nat)
      requires Valid() && b < |bufs| && bufs[b].Live()
      modifies this`bufs, this`lru, this`moves
      ensures Valid() && SameView(old(bufs), disk, bufs, disk, failed)
      ensures bufs == old(bufs)[b := old(bufs)[b].(refcnt := old(bufs)[b].refcnt + 1)]
      ensures lru == if old(bufs)[b].refcnt == 0 then Without(old(lru), b) else old(lru)
    {
      hide Content, Shape, SameView, Logged, Blamed;
      CountKeeps(bufs, disk, failed, b, bufs[b].refcnt + 1);
      var x := bufs[b].(refcnt := bufs[b].refcnt + 1);
      SameViewMore(bufs, disk, bufs[b := x], disk, {}, failed);
      if bufs[b].refcnt == 0 {
        HoldShape(bufs, lists, lru, b);
        FreeHas(bufs, lists, lru, b);
        LoggedMore(lists, lru, |bufs|, moves, |bufs|, Take(b));
        moves := moves + [Take(b)];
        lru := Without(lru, b);
      } else {
        ShapeKept(bufs, lists, lru, b, x);
      }
      bufs := bufs[b := x];
    }

    /** The least recently used free buffer is written back if dirty, and given to block `k`. */
    method Recycle(k: Key) returns (b: nat)
      requires Valid() && k.dev != 0 && lru != [] && NoneLive(bufs, k)
      modifies this`bufs, this`lists, this`lru, this`moves, this`disk, this`io, this`failed
      ensures Valid() && old(failed) <= failed && old(io) <= io
      ensures SameView(old(bufs), old(disk), bufs, disk, failed)
      ensures b == old(lru)[0] && lru == old(lru)[1..] && Others(old(bufs), bufs, b)
      ensures old(bufs)[b].refcnt == 0 && bufs[b] == Buffer(1, false, false, true, k, old(bufs)[b].data)
      ensures Tried(io) == Tried(old(io)) + WriteBack(old(bufs)[b])
      ensures io == old(io) ==> disk == old(disk) && failed == old(failed)
    {
      hide Content, Shape, SameView, NoneLive, Logged, Blamed;
      b := lru[0];
      FirstFree(bufs, lists, lru, disk, failed);
      var from, to := bufs[b].key.nr % BLK_NR_LISTS, k.nr % BLK_NR_LISTS;
      var listed, l := Moved(lists, b, from, to), lru;
      RehashAllowed(bufs, lists, lru, b, to);
      LoggedMore(lists, lru, |bufs|, moves, |bufs|, Rehash(b, from, to));
      LoggedMore(listed, lru, |bufs|, moves + [Rehash(b, from, to)], |bufs|, Take(b));
      moves := moves + [Rehash(b, from, to)] + [Take(b)];
      lru := lru[1..];
      if bufs[b].dirty {
        var _ := Write(b);
        CleanShape(old(bufs), lists, l, b);
        NoneLiveKept(old(bufs), b, bufs[b], k);
      } else {
        SameViewRefl(bufs, disk);
      }
      ghost var mid := bufs;
      var x := bufs[b].(refcnt := 1, key := k, valid := false, listed := true);
      ReplaceClean(bufs, disk, failed, b, x);
      MovedClean(bufs, disk, failed, lists, l, b, x);
      SameViewTrans(old(bufs), old(disk), mid, disk, bufs[b := x], disk, {}, failed);
      bufs := bufs[b := x];
      lists := listed;
    }

    /**
      blk_put: one reference less; the last one puts the buffer at the end of the free list. No buffer (-1) is fine.
     */
    method Put(b: int)
      requires Valid() && (b == -1 || (0 <= b < |bufs| && bufs[b].refcnt > 0))
      modifies this`bufs, this`lru, this`moves
      ensures Valid() && SameView(old(bufs), disk, bufs, disk, {})
      ensures b == -1 ==> bufs == old(bufs) && lru == old(lru)
      ensures b != -1 ==> bufs == old(bufs)[b := old(bufs)[b].(refcnt := old(bufs)[b].refcnt - 1)]
      ensures b != -1 ==> lru == if bufs[b].refcnt == 0 then old(lru) + [b] else old(lru)
    {
      hide Content, Shape, SameView, Logged;
      if b == -1 {
        SameViewRefl(bufs, disk);
        return;
      }
      var x := bufs[b].(refcnt := bufs[b].refcnt - 1);
      CountKeeps(bufs, disk, failed, b, x.refcnt);
      if x.refcnt == 0 {
        ReleaseShape(bufs, lists, lru, b);
        FreeHas(bufs, lists, lru, b);
        LoggedMore(lists, lru, |bufs|, moves, |bufs|, Give(b));
        moves := moves + [Give(b)];
        lru := lru + [b];
      } else {
        ShapeKept(bufs, lists, lru, b, x);
      }
      bufs := bufs[b := x];
    }

    /**
      blk_read: a referenced buffer that holds what the cache presents for block `k`. It fails if there is no buffer, or
      if the device has to be asked and fails.
     */
    method Read(k: Key) returns (status: Status, b: nat)
      requires Valid() && k.dev != 0
      modifies this`bufs, this`lists, this`lru, this`moves, this`disk, this`io, this`failed
      ensures Valid() && old(failed) <= failed && old(io) <= io
      ensures SameView(old(bufs), old(disk), bufs, disk, failed)
      ensures status == Done ==> Others(old(bufs), bufs, b) && bufs[b].key == k && bufs[b].valid
      ensures status == Done ==> bufs[b].refcnt == 1 + old(bufs)[b].refcnt && bufs[b].data == Contents(k)
      ensures status == Done ==> Serves(old(bufs), old(lru), b, k) && (bufs[b].dirty ==> old(bufs)[b].Caches(k))
      ensures status == Done && old(bufs)[b].refcnt > 0 ==> old(bufs)[b].key == k
      ensures status == Done && old(bufs)[b].Caches(k) ==>
        bufs[b] == old(bufs)[b].(refcnt := old(bufs)[b].refcnt + 1)
      ensures |bufs| == |old(bufs)| && (status != Done ==> HeldKept(old(bufs), bufs)) && status != Invalid
      ensures status == NoMemory <==> old(lru) == [] && NoneLive(old(bufs), k)
      ensures status == NoMemory ==> bufs == old(bufs) && io == old(io)
      ensures io == old(io) ==> disk == old(disk) && failed == old(failed)
      ensures status != NoMemory ==> Loaded(old(bufs), old(lru), old(io), io, k, status == Done)
      ensures status != NoMemory ==> Recalls(old(bufs), old(lru), bufs, k, status == Done, false)
    {
      hide Content, Shape, SameView, View, Logged, Blamed, Recalls, Evicted, HeldKept, Tried, Cached;
      status, b := Get(k);
      if status != Done {
        HeldSame(bufs);
        return;
      }
      ServesCached(old(bufs), old(disk), old(failed), old(lru), b, k);
      if !bufs[b].valid {
        ghost var mid, asked := bufs, io;
        var ok := Load(b);
        SameViewMore(mid, disk, bufs, disk, {}, failed);
        SameViewTrans(old(bufs), old(disk), mid, disk, bufs, disk, failed, failed);
        assert io[..|io| - 1] == asked;
        if !ok {
          ghost var late := bufs;
          Put(b);
          SameViewMore(late, disk, bufs, disk, {}, failed);
          SameViewTrans(old(bufs), old(disk), late, disk, bufs, disk, failed, failed);
          RecallsOne(old(bufs), old(disk), old(failed), old(lru), b, bufs[b], k, false, false);
          HeldOne(old(bufs), bufs, b);
          return DeviceError, 0;
        }
      }
      RecallsOne(old(bufs), old(disk), old(failed), old(lru), b, bufs[b], k, true, false);
      BufferIsView(bufs, disk, failed, b);
    }

    /** A buffer in use that holds nothing yet is filled from its device, unless the device fails. */
    method Load(b: nat) returns (ok: bool)
      requires Valid() && b < |bufs| && bufs[b].refcnt > 0 && !bufs[b].valid
      modifies this`bufs, this`io
      ensures Valid() && SameView(old(bufs), disk, bufs, disk, {}) && |bufs| == |old(bufs)|
      ensures io == old(io) + [Fetch(bufs[b].key, ok)]
      ensures bufs == old(bufs)[b := old(bufs)[b].(data := bufs[b].data, valid := ok)]
      ensures ok ==> bufs[b].data == DiskAt(disk, bufs[b].key)
    {
      hide Content, Shape, SameView, Logged, Blamed;
      ok := devices.works(|io|);
      var d := if ok then DiskAt(disk, bufs[b].key) else devices.junk(|io|);
      FillKeeps(bufs, disk, failed, b, d, ok);
      ShapeKept(bufs, lists, lru, b, bufs[b].(data := d, valid := ok));
      BlamedMore(io, failed, Fetch(bufs[b].key, ok));
      bufs := bufs[b := bufs[b].(data := d, valid := ok)];
      io := io + [Fetch(bufs[b].key, ok)];
    }

    /** A caller that holds a buffer fills it: the data change and the buffer is marked valid and dirty. */
    method Store(b: nat, d: Data)
      requires Valid() && b < |bufs| && bufs[b].refcnt > 0
      modifies this`bufs
      ensures bufs == old(bufs)[b := old(bufs)[b].(data := d, valid := true, dirty := true)]
      ensures Valid() && Stored(old(bufs), bufs, disk, bufs[b].key, d)
    {
      hide Content, Shape, Stored, Logged;
      StoreKeeps(bufs, disk, failed, b, d);
      var x := bufs[b].(data := d, valid := true, dirty := true);
      ShapeKept(bufs, lists, lru, b, x);
      bufs := bufs[b := x];
    }

    /** blk_pread: the bytes of the view, and nothing changes. */
    method PRead(k: Key, off: nat, len: nat) returns (status: Status, bytes: seq<bv8>)
      requires Valid() && k.dev != 0 && off + len <= BLK_SIZE
      modifies this`bufs, this`lists, this`lru, this`moves, this`disk, this`io, this`failed
      ensures Valid() && old(failed) <= failed && old(io) <= io
      ensures SameView(old(bufs), old(disk), bufs, disk, failed) && HeldKept(old(bufs), bufs)
      ensures |bufs| == |old(bufs)| && (status == Done ==> bytes == Contents(k)[off..off + len])
      ensures status != Invalid && (status == NoMemory <==> old(lru) == [] && NoneLive(old(bufs), k))
      ensures status == NoMemory ==> bufs == old(bufs) && io == old(io)
      ensures io == old(io) ==> disk == old(disk) && failed == old(failed)
      ensures status != NoMemory ==> Loaded(old(bufs), old(lru), old(io), io, k, status == Done)
      ensures status != NoMemory ==> Recalls(old(bufs), old(lru), bufs, k, status == Done, false)
    {
      hide Content, Shape, SameView, View, Logged, Blamed, Recalls, Loaded, HeldKept, Cached;
      var b;
      status, b := Read(k);
      bytes := [];
      if status == Done {
        bytes := bufs[b].data[off..off + len];
        ghost var mid := bufs;
        Put(b);
        PutSame(mid, disk, bufs, k);
        SameViewMore(mid, disk, bufs, disk, {}, failed);
        SameViewTrans(old(bufs), old(disk), mid, disk, bufs, disk, failed, failed);
        ServesCached(old(bufs), old(disk), old(failed), old(lru), b, k);
        RecallsOne(old(bufs), old(disk), old(failed), old(lru), b, bufs[b], k, true, false);
        HeldOne(old(bufs), bufs, b);
      }
    }

    /** blk_pwrite: bytes off..off+|bytes| of one block change, and nothing else does. */
    method PWrite(k: Key, off: nat, bytes: seq<bv8>) returns (status: Status)
      requires Valid() && k.dev != 0 && off + |bytes| <= BLK_SIZE
      modifies this`bufs, this`lists, this`lru, this`moves, this`disk, this`io, this`failed
      ensures Valid() && old(failed) <= failed && old(io) <= io
      ensures status != Done ==> SameView(old(bufs), old(disk), bufs, disk, failed)
      ensures status == Done ==> Written(old(bufs), old(disk), bufs, disk, k, off, bytes, failed)
      ensures |bufs| == |old(bufs)| && HoldsKept(old(bufs), bufs) && (status == DeviceError ==> |bytes| != BLK_SIZE)
      ensures status != Invalid && (status == NoMemory <==> old(lru) == [] && NoneLive(old(bufs), k))
      ensures status == NoMemory ==> bufs == old(bufs) && io == old(io)
      ensures io == old(io) ==> disk == old(disk) && failed == old(failed)
      ensures status != NoMemory && |bytes| != BLK_SIZE ==>
        Loaded(old(bufs), old(lru), old(io), io, k, status == Done)
      ensures status != NoMemory && |bytes| == BLK_SIZE ==>
        Tried(io) == Tried(old(io)) + Evicted(old(bufs), old(lru), k)
      ensures status != NoMemory ==> Recalls(old(bufs), old(lru), bufs, k, false, status == Done)
    {
      hide Content, Shape, SameView, View, Stored, Logged, Blamed, Recalls, Loaded, HeldKept, Cached, HoldsKept, Tried,
        Evicted;
      var b;
      if |bytes| != BLK_SIZE {
        status, b := Read(k);
      } else {
        status, b := Get(k);
      }
      if status != Done {
        HoldsSame(old(bufs), bufs);
        return;
      }
      ghost var mid, d := bufs, Patched(bufs[b].data, off, bytes);
      Store(b, Patched(bufs[b].data, off, bytes));
      ghost var late := bufs;
      Put(b);
      WriteView(old(bufs), old(disk), mid, late, bufs, disk, k, d, failed);
      ServesCached(old(bufs), old(disk), old(failed), old(lru), b, k);
      RecallsOne(old(bufs), old(disk), old(failed), old(lru), b, bufs[b], k, false, true);
      HoldsOne(old(bufs), bufs, b);
    }

    /** One buffer of the free list, as blk_syncdev and blk_syncall treat it. */
    method SyncBuffer(b: nat, write: bool, invalidate: bool)
      requires Valid() && b < |bufs| && bufs[b].refcnt == 0
      modifies this`bufs, this`disk, this`io, this`failed
      ensures Valid() && old(failed) <= failed && old(io) <= io
      ensures SameView(old(bufs), old(disk), bufs, disk, failed)
      ensures bufs == old(bufs)[b := Synchronised(old(bufs)[b], write, invalidate)]
      ensures Tried(io) == Tried(old(io)) + if write then WriteBack(old(bufs)[b]) else []
    {
      hide Content, Shape, SameView, Logged, Blamed;
      SaneBuffer(bufs, disk, failed, b);
      SameViewRefl(bufs, disk);
      SameViewMore(bufs, disk, bufs, disk, {}, failed);
      if write && bufs[b].dirty {
        CleanShape(bufs, lists, lru, b);
        var _ := Write(b);
        SameViewMore(old(bufs), old(disk), bufs, disk, {}, failed);
      }
      if invalidate && !bufs[b].dirty {
        ghost var mid := bufs;
        var x := bufs[b].(valid := false);
        SaneBuffer(bufs, disk, failed, b);
        ReplaceKeeps(bufs, disk, failed, b, x);
        ShapeKept(bufs, lists, lru, b, x);
        bufs := bufs[b := x];
        SameViewTrans(old(bufs), old(disk), mid, disk, bufs, disk, failed, failed);
      }
    }

    /** blk_syncdev, and with `all` blk_syncall: one pass over the free list. */
    method Sync(all: bool, dev: nat, write: bool, invalidate: bool)
      requires Valid()
      modifies this`bufs, this`disk, this`io, this`failed
      ensures Valid() && old(failed) <= failed && old(io) <= io
      ensures SameView(old(bufs), old(disk), bufs, disk, failed) && HeldKept(old(bufs), bufs)
      ensures |bufs| == |old(bufs)|
      ensures Passed(old(bufs), bufs, lru, all, dev, write, invalidate)
      ensures Tried(io) == Tried(old(io)) + if write then WriteBacks(old(bufs), lru, all, dev) else []
    {
      hide Content, Shape, SameView, NoRepeats, Logged, Blamed, HeldKept, Tried, Synchronised, WriteBack, WriteBacks,
        Passed;
      SameViewRefl(bufs, disk);
      SameViewMore(bufs, disk, bufs, disk, {}, failed);
      PassedNone(bufs, lru, all, dev, write, invalidate);
      var p := 0;
      while p < |lru|
        invariant 0 <= p <= |lru| && Valid() && old(failed) <= failed && old(io) <= io
        invariant SameView(old(bufs), old(disk), bufs, disk, failed)
        invariant Passed(old(bufs), bufs, lru[..p], all, dev, write, invalidate)
        invariant Tried(io) == Tried(old(io)) + if write then WriteBacks(old(bufs), lru[..p], all, dev) else []
      {
        ghost var mid, disk' := bufs, disk;
        PassedMore(old(bufs), bufs, lists, lru, p, all, dev, write, invalidate);
        if all || bufs[lru[p]].key.dev == dev {
          ghost var failed' := failed;
          SyncBuffer(lru[p], write, invalidate);
          SameViewTrans(old(bufs), old(disk), mid, disk', bufs, disk, failed', failed);
        } else {
          assert bufs == bufs[lru[p] := bufs[lru[p]]];
        }
        p := p + 1;
      }
      assert lru[..|lru|] == lru;
      PassedHeld(old(bufs), bufs, lists, lru, all, dev, write, invalidate);
    }

    /** blk_add: more buffers, at the front of the free list and in no hash list. */
    method Add(count: int, memory: bool) returns (status: Status)
      requires Valid()
      modifies this`bufs, this`lru, this`moves
      ensures Valid() && SameView(old(bufs), disk, bufs, disk, {}) && HeldKept(old(bufs), bufs)
      ensures old(bufs) <= bufs && |lru| == |old(lru)| + (|bufs| - |old(bufs)|)
      ensures lru[|bufs| - |old(bufs)|..] == old(lru)
      ensures HoldsKept(old(bufs), bufs) && forall i :: |old(bufs)| <= i < |bufs| ==> bufs[i] == Zeroed(false)
      ensures status == Invalid <==> count < |old(bufs)|
      ensures status == Done ==> |bufs| == count
      ensures status != Done ==> bufs == old(bufs)
      ensures count >= |old(bufs)| ==> status == if memory || count == |old(bufs)| then Done else NoMemory
    {
      hide Content, Shape, SameView, Logged;
      SameViewRefl(bufs, disk);
      if count < |bufs| {
        return Invalid;
      }
      if count == |bufs| {
        return Done;
      }
      if !memory {
        return NoMemory;
      }
      while |bufs| < count
        invariant Valid() && SameView(old(bufs), disk, bufs, disk, {}) && HeldKept(old(bufs), bufs)
        invariant old(bufs) <= bufs && |bufs| <= count && HoldsKept(old(bufs), bufs)
        invariant forall i :: |old(bufs)| <= i < |bufs| ==> bufs[i] == Zeroed(false)
        invariant |lru| == |old(lru)| + (|bufs| - |old(bufs)|) && lru[|bufs| - |old(bufs)|..] == old(lru)
      {
        ghost var mid := bufs;
        GrowKeeps(bufs, disk, failed, lists, lru);
        FreeHas(bufs, lists, lru, |bufs|);
        LoggedMore(lists, lru, |bufs|, moves, |bufs| + 1, GiveFirst(|bufs|));
        moves := moves + [GiveFirst(|bufs|)];
        lru := [|bufs|] + lru;
        bufs := bufs + [Zeroed(false)];
        SameViewTrans(old(bufs), disk, mid, disk, bufs, disk, {}, {});
      }
      return Done;
    }
  }

  /** The buffer that serves a block holds it already exactly if the block is cached. */
  lemma ServesCached(bufs: seq<Buffer>, disk: map<Key, Data>, failed: set<Key>, lru: seq<nat>, b: nat, k: Key)
    requires Content(bufs, disk, failed) && Serves(bufs, lru, b, k)
    ensures Cached(bufs, k) <==> bufs[b].Caches(k)
    ensures (Cached(bufs, k) ==> !NoneLive(bufs, k)) && bufs[b].Sane()
  {
    if Cached(bufs, k) {
      var i :| 0 <= i < |bufs| && bufs[i].Caches(k);
    }
  }

  /** The buffer that serves block `k`, changed to `x`. */
  lemma RecallsOne(bufs: seq<Buffer>, disk: map<Key, Data>, failed: set<Key>, lru: seq<nat>, b: nat, x: Buffer, k: Key,
                   fetched: bool, filled: bool)
    requires Content(bufs, disk, failed) && Serves(bufs, lru, b, k) && x.key == k
    requires x.valid == (fetched || filled || bufs[b].Caches(k))
    requires x.dirty == (filled || (bufs[b].Caches(k) && bufs[b].dirty))
    ensures Recalls(bufs, lru, bufs[b := x], k, fetched, filled)
  {
    ServesCached(bufs, disk, failed, lru, b, k);
    forall k' ensures Leaves(bufs, lru, k, k') <==> NoneLive(bufs, k) && bufs[b].Caches(k') {}
    hide Leaves, NoneLive, Serves, Cached, Unwritten;
    forall k' {
      CachedUpdate(bufs, b, x, k');
    }
  }

  lemma HeldSame(bufs: seq<Buffer>)
    ensures HeldKept(bufs, bufs)
  {}

  lemma HeldOne(bufs: seq<Buffer>, bufs': seq<Buffer>, b: nat)
    requires Others(bufs, bufs', b) && BufferKept(bufs[b], bufs'[b])
    ensures HeldKept(bufs, bufs')
  {}

  lemma HoldsSame(bufs: seq<Buffer>, bufs': seq<Buffer>)
    requires |bufs| == |bufs'| && (HeldKept(bufs, bufs') || bufs == bufs')
    ensures HoldsKept(bufs, bufs')
  {}

  lemma HoldsOne(bufs: seq<Buffer>, bufs': seq<Buffer>, b: nat)
    requires Others(bufs, bufs', b) && bufs'[b].refcnt == bufs[b].refcnt
    requires bufs[b].refcnt > 0 ==> bufs'[b].key == bufs[b].key
    ensures HoldsKept(bufs, bufs')
  {}

  lemma FreeHas(bufs: seq<Buffer>, lists: seq<seq<nat>>, lru: seq<nat>, b: nat)
    requires Shape(bufs, lists, lru)
    ensures b in lru <==> b < |bufs| && bufs[b].refcnt == 0
  {}

  lemma RehashAllowed(bufs: seq<Buffer>, lists: seq<seq<nat>>, lru: seq<nat>, b: nat, to: nat)
    requires Shape(bufs, lists, lru) && b < |bufs| && to < 64
    ensures Rehash(b, bufs[b].key.nr % 64, to).Allowed(lists, lru)
  {
    forall l | 0 <= l < |lists| && !bufs[b].listed ensures b !in lists[l] {
      assert Bucket(bufs, lists[l], l);
    }
    assert Bucket(bufs, lists[bufs[b].key.nr % 64], bufs[b].key.nr % 64);
  }

  lemma SameViewRefl(bufs: seq<Buffer>, disk: map<Key, Data>)
    ensures SameView(bufs, disk, bufs, disk, {})
  {}

  lemma SameViewMore(b1: seq<Buffer>, d1: map<Key, Data>, b2: seq<Buffer>, d2: map<Key, Data>, failed: set<Key>,
      failed': set<Key>)
    requires SameView(b1, d1, b2, d2, failed) && failed <= failed'
    ensures SameView(b1, d1, b2, d2, failed')
  {}

  lemma BufferIsView(bufs: seq<Buffer>, disk: map<Key, Data>, failed: set<Key>, b: nat)
    requires b < |bufs| && bufs[b].valid && Content(bufs, disk, failed)
    ensures View(bufs, disk, bufs[b].key) == bufs[b].data
  {
    ViewCached(bufs, disk, b);
  }

  lemma FirstFree(bufs: seq<Buffer>, lists: seq<seq<nat>>, lru: seq<nat>, disk: map<Key, Data>, failed: set<Key>)
    requires Content(bufs, disk, failed) && Shape(bufs, lists, lru) && lru != []
    ensures |lists| == 64 && lru[0] < |bufs| && bufs[lru[0]].refcnt == 0 && (bufs[lru[0]].dirty ==> bufs[lru[0]].valid)
  {
    assert lru[0] in lru;
  }

  lemma CleanShape(bufs: seq<Buffer>, lists: seq<seq<nat>>, lru: seq<nat>, b: nat)
    requires b < |bufs| && Shape(bufs, lists, lru)
    ensures Shape(bufs[b := bufs[b].(dirty := false)], lists, lru)
  {
    hide Shape;
    ShapeKept(bufs, lists, lru, b, bufs[b].(dirty := false));
  }

  lemma NoneLiveKept(bufs: seq<Buffer>, b: nat, x: Buffer, k: Key)
    requires b < |bufs| && NoneLive(bufs, k) && x.key == bufs[b].key && x.Live() == bufs[b].Live()
    ensures NoneLive(bufs[b := x], k)
  {}

  lemma ReplaceClean(bufs: seq<Buffer>, disk: map<Key, Data>, failed: set<Key>, b: nat, x: Buffer)
    requires b < |bufs| && Content(bufs, disk, failed) && !bufs[b].dirty && bufs[b].refcnt == 0 && NoneLive(bufs, x.key)
    requires x == bufs[b].(refcnt := 1, key := x.key, valid := false, listed := true) && x.key.dev != 0
    ensures Content(bufs[b := x], disk, failed) && SameView(bufs, disk, bufs[b := x], disk, failed)
  {
    hide Content, SameView;
    ReplaceKeeps(bufs, disk, failed, b, x);
  }

  lemma MovedClean(bufs: seq<Buffer>, disk: map<Key, Data>, failed: set<Key>, lists: seq<seq<nat>>, lru: seq<nat>,
      b: nat, x: Buffer)
    requires Content(bufs, disk, failed) && Shape(bufs, lists, lru) && |lists| == 64
    requires lru != [] && b == lru[0] < |bufs| && x.listed && x.refcnt > 0
    ensures Shape(bufs[b := x], Moved(lists, b, bufs[b].key.nr % 64, x.key.nr % 64), lru[1..])
  {
    hide Shape, Moved;
    MovedKeeps(bufs, lists, lru, b, x);
  }

  /** A buffer written back if asked, and given up if asked and clean. */
  function Synchronised(b: Buffer, write: bool, invalidate: bool): (r: Buffer)
    ensures r.refcnt == b.refcnt && r.key == b.key
  {
    var dirty := b.dirty && !write;
    b.(dirty := dirty, valid := b.valid && !(invalidate && !dirty))
  }

  /** The same, if the buffer is for the device or all devices are meant. */
  function Visited(b: Buffer, all: bool, dev: nat, write: bool, invalidate: bool): Buffer {
    if all || b.key.dev == dev then Synchronised(b, write, invalidate) else b
  }

  /** What writing back these buffers asks of the devices. */
  function WriteBacks(bufs: seq<Buffer>, order: seq<nat>, all: bool, dev: nat): seq<Access> {
    if order == [] then []
    else
      var n := |order| - 1;
      var b := order[n];
      WriteBacks(bufs, order[..n], all, dev)
      + if b < |bufs| && (all || bufs[b].key.dev == dev) then WriteBack(bufs[b]) else []
  }

  /** These buffers have been visited, and no others. */
  ghost predicate Passed(was: seq<Buffer>, bufs: seq<Buffer>, order: seq<nat>, all: bool, dev: nat, write: bool,
                         invalidate: bool)
  {
    && |bufs| == |was|
    && forall i :: 0 <= i < |bufs| ==>
         bufs[i] == if i in order then Visited(was[i], all, dev, write, invalidate) else was[i]
  }

  lemma PassedNone(bufs: seq<Buffer>, lru: seq<nat>, all: bool, dev: nat, write: bool, invalidate: bool)
    ensures Passed(bufs, bufs, lru[..0], all, dev, write, invalidate) && WriteBacks(bufs, lru[..0], all, dev) == []
  {
    assert lru[..0] == [];
  }

  /** The next buffer in turn has not been visited yet. */
  lemma PassedMore(was: seq<Buffer>, bufs: seq<Buffer>, lists: seq<seq<nat>>, lru: seq<nat>, p: nat, all: bool,
                   dev: nat, write: bool, invalidate: bool)
    requires Shape(bufs, lists, lru) && p < |lru| && Passed(was, bufs, lru[..p], all, dev, write, invalidate)
    ensures lru[p] < |bufs| && bufs[lru[p]].refcnt == 0 && bufs[lru[p]] == was[lru[p]]
    ensures var x := Visited(bufs[lru[p]], all, dev, write, invalidate);
      Passed(was, bufs[lru[p] := x], lru[..p + 1], all, dev, write, invalidate)
    ensures WriteBacks(was, lru[..p + 1], all, dev) == WriteBacks(was, lru[..p], all, dev)
      + if all || was[lru[p]].key.dev == dev then WriteBack(was[lru[p]]) else []
  {
    hide Visited, WriteBack, Buckets;
    assert lru[p] in lru;
    assert lru[..p + 1] == lru[..p] + [lru[p]] && lru[..p + 1][..p] == lru[..p];
  }

  /** Buffers in use are not visited. */
  lemma PassedHeld(was: seq<Buffer>, bufs: seq<Buffer>, lists: seq<seq<nat>>, lru: seq<nat>, all: bool, dev: nat,
                   write: bool, invalidate: bool)
    requires Shape(bufs, lists, lru) && Passed(was, bufs, lru, all, dev, write, invalidate)
    ensures |was| == |bufs| && HeldKept(was, bufs)
  {}

  /** A reference given back after a read. */
  lemma PutSame(mid: seq<Buffer>, disk: map<Key, Data>, bufs: seq<Buffer>, k: Key)
    requires SameView(mid, disk, bufs, disk, {})
    ensures View(bufs, disk, k) == View(mid, disk, k)
  {}

  /** The view across the steps of a block write: buffer obtained, filled, given back. */
  lemma WriteView(bufs0: seq<Buffer>, disk0: map<Key, Data>, mid: seq<Buffer>, late: seq<Buffer>, bufs: seq<Buffer>,
                  disk: map<Key, Data>, k: Key, d: Data, failed: set<Key>)
    requires SameView(bufs0, disk0, mid, disk, failed) && Stored(mid, late, disk, k, d)
    requires SameView(late, disk, bufs, disk, {})
    ensures View(bufs, disk, k) == d && (k !in failed ==> View(mid, disk, k) == View(bufs0, disk0, k))
    ensures forall k' :: k' !in failed && k' != k ==> View(bufs, disk, k') == View(bufs0, disk0, k')
  {}

  lemma SaneBuffer(bufs: seq<Buffer>, disk: map<Key, Data>, failed: set<Key>, b: nat)
    requires Content(bufs, disk, failed) && b < |bufs|
    ensures bufs[b].Sane()
  {}

  lemma InitialShape(bufs: seq<Buffer>, lists: seq<seq<nat>>, lru: seq<nat>)
    requires |bufs| == |lru| && lists == seq(64, _ => [])[0 := lru] && NoRepeats(lru)
    requires forall j :: 0 <= j < |bufs| ==> bufs[j] == Zeroed(true) && lru[j] == j
    ensures Shape(bufs, lists, lru)
  {
    forall l: nat | l < 64 ensures Bucket(bufs, lists[l], l) {
      assert l > 0 ==> lists[l] == [];
    }
  }

  /** The device is behind the cache only for blocks that have not been written back. */
  lemma WrittenOnDisk(bufs: seq<Buffer>, disk: map<Key, Data>, k: Key)
    requires Content(bufs, disk, {}) && !Unwritten(bufs, k)
    ensures DiskAt(disk, k) == View(bufs, disk, k)
  {
    if Cached(bufs, k) {
      var i: nat :| i < |bufs| && bufs[i].Caches(k);
      ViewCached(bufs, disk, i);
    }
  }

  /** After blk_syncall with writing, with nothing in use and no failed write, the devices hold the whole view. */
  lemma SyncedDisk(was: seq<Buffer>, bufs: seq<Buffer>, lists: seq<seq<nat>>, lru: seq<nat>, disk: map<Key, Data>,
                   k: Key)
    requires Content(bufs, disk, {}) && Shape(bufs, lists, lru) && Passed(was, bufs, lru, true, 0, true, false)
    requires forall i :: 0 <= i < |bufs| ==> bufs[i].refcnt == 0
    ensures DiskAt(disk, k) == View(bufs, disk, k)
  {
    assert forall i: nat :: i < |bufs| ==> i in lru;
    WrittenOnDisk(bufs, disk, k);
  }
}

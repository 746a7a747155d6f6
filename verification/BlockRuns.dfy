/** Whole runs of the disk buffer cache, buffers held between requests included, against a plain map. */
module BlockRuns {
  import opened IntrusiveList
  import opened BlockCache
  import opened BlockOps

  datatype Op =
    | Get(k: Key)
    | Read(k: Key)
    | Put(p: int)
    | Look(b: nat)
    | Fill(b: nat, d: Data)
    | PRead(k: Key, off: nat, len: nat)
    | PWrite(k: Key, off: nat, bytes: seq<bv8>)
    | Sync(all: bool, dev: nat, write: bool, invalidate: bool)
    | Add(count: int, memory: bool)
  {
    /** What callers owe: an open device, and a range inside the block. */
    predicate Legal() {
      && (Get? || Read? || PRead? || PWrite? ==> k.dev != 0)
      && (PRead? ==> off + len <= 512) && (PWrite? ==> off + |bytes| <= 512)
    }

    /** Does it use a buffer that is not held? Such requests are not made. */
    predicate Stray(h: map<nat, Hold>) {
      || (Put? && p != -1 && (p < 0 || p !in h))
      || ((Look? || Fill?) && b !in h)
    }
  }

  /** A buffer that callers hold: its block, and how often they hold it. */
  datatype Hold = Hold(key: Key, count: nat)

  /** What a request answers, and what it has asked of the devices. */
  datatype Answer = Answer(status: Status, b: nat, bytes: seq<bv8>, io: seq<Access>)

  /**
    A store that is just a map from block to contents, and the buffers in use; which blocks can be had without asking a
    device, and which of them their devices have not been given yet.
   */
  datatype Plain = Plain(m: imap<Key, Data>, h: map<nat, Hold>, size: nat, cached: iset<Key>, unwritten: iset<Key>) {
    ghost predicate Total() {
      forall k :: k in m
    }

    predicate InUse(k: Key) {
      exists b <- h :: h[b].key == k
    }

    /** Every buffer is in use, and none for this block. */
    predicate Full(k: Key) {
      (forall b: nat :: b < size ==> b in h) && !InUse(k)
    }

    /** There is a buffer for this block already. */
    ghost predicate Knows(k: Key) {
      k in cached || InUse(k)
    }

    /** Block `e` may have to leave for block `k`. */
    ghost predicate MayGo(k: Key, e: Key) {
      Knows(k) || !InUse(e)
    }

    /** Block `e` has left for block `k`, if there was need. */
    ghost function Room(k: Key, e: Key): Plain {
      if Knows(k) then this else this.(cached := cached - iset{e}, unwritten := unwritten - iset{e})
    }

    /** The write by which the contents of a leaving block are saved. */
    ghost function Saves(k: Key, e: Key): seq<Access>
      requires Total()
    {
      if Knows(k) || e !in unwritten then [] else [Flush(e, m[e], true)]
    }

    /** Block `k` has been read, or the device has failed at it. */
    ghost function Brought(k: Key, e: Key, ok: bool): Plain {
      if k in cached then this
      else if ok then Room(k, e).(cached := Room(k, e).cached + iset{k})
      else Room(k, e)
    }

    /** What reading block `k` asks of the devices: nothing if it is cached. */
    ghost function Asks(k: Key, e: Key, ok: bool): seq<Access>
      requires Total()
    {
      if k in cached then [] else Saves(k, e) + [Fetch(k, ok)]
    }

    /** Block `k` has new contents. */
    ghost function Filled(k: Key, d: Data): Plain {
      this.(m := m[k := d], cached := cached + iset{k}, unwritten := unwritten + iset{k})
    }

    /** Block `k` is to be written or given up by a synchronisation. */
    ghost predicate Due(k: Key, all: bool, dev: nat) {
      (all || k.dev == dev) && !InUse(k)
    }

    ghost function Synced(all: bool, dev: nat, write: bool, invalidate: bool): Plain {
      var rest := iset k | k in unwritten && !(write && Due(k, all, dev));
      this.(unwritten := rest, cached := iset k | k in cached && !(invalidate && Due(k, all, dev) && k !in rest))
    }

    /** These blocks are written, each once and with its contents, and nothing else is asked for. */
    ghost predicate Writes(io: seq<Access>, blocks: iset<Key>)
      requires Total()
    {
      && NoRepeats(io) && (forall i :: 0 <= i < |io| ==> io[i].k in blocks && io[i] == Flush(io[i].k, m[io[i].k], true))
      && forall k <- blocks :: Flush(k, m[k], true) in io
    }
  }

  /** One hold more on buffer `b`, for block `k`. */
  function Held(h: map<nat, Hold>, b: nat, k: Key): map<nat, Hold> {
    h[b := Hold(k, 1 + if b in h then h[b].count else 0)]
  }

  /** One hold less. */
  function Released(h: map<nat, Hold>, b: nat): map<nat, Hold>
    requires b in h
  {
    if h[b].count <= 1 then h - {b} else h[b := Hold(h[b].key, h[b].count - 1)]
  }

  /** A block is brought in if need be, `e` leaving for it: the status, and what is asked of the devices. */
  ghost predicate Brings(p: Plain, k: Key, e: Key, a: Answer)
    requires p.Total()
  {
    && p.MayGo(k, e) && (a.status == Done || a.status == DeviceError) && (k in p.cached ==> a.status == Done)
    && a.io == p.Asks(k, e, a.status == Done)
  }

  /** Of a full store no buffer is to be had. */
  ghost predicate Refused(p: Plain, a: Answer, p': Plain) {
    a.status == NoMemory && a.io == [] && p' == p
  }

  ghost predicate Gets(p: Plain, k: Key, a: Answer, p': Plain)
    requires p.Total()
  {
    && a.status == Done && (a.b in p.h ==> p.h[a.b].key == k)
    && exists e :: p.MayGo(k, e) && a.io == p.Saves(k, e) && p' == p.Room(k, e).(h := Held(p.h, a.b, k))
  }

  ghost predicate Reads(p: Plain, k: Key, a: Answer, p': Plain)
    requires p.Total()
  {
    && (a.status == Done ==> (a.b in p.h ==> p.h[a.b].key == k) && a.bytes == p.m[k])
    && exists e :: Brings(p, k, e, a)
         && p' == p.Brought(k, e, a.status == Done).(h := if a.status == Done then Held(p.h, a.b, k) else p.h)
  }

  ghost predicate PReads(p: Plain, k: Key, off: nat, len: nat, a: Answer, p': Plain)
    requires p.Total() && off + len <= 512
  {
    && (a.status == Done ==> a.bytes == p.m[k][off..off + len])
    && exists e :: Brings(p, k, e, a) && p' == p.Brought(k, e, a.status == Done)
  }

  /** A whole block is written without reading it first. */
  ghost predicate PWrites(p: Plain, k: Key, off: nat, bytes: seq<bv8>, a: Answer, p': Plain)
    requires p.Total() && off + |bytes| <= 512
  {
    if |bytes| == 512 then
      && a.status == Done
      && exists e :: p.MayGo(k, e) && a.io == p.Saves(k, e) && p' == p.Room(k, e).Filled(k, bytes)
    else
      exists e :: Brings(p, k, e, a)
        && p' == if a.status == Done then p.Brought(k, e, true).Filled(k, Patched(p.m[k], off, bytes))
                 else p.Brought(k, e, false)
  }

  ghost predicate Syncs(p: Plain, all: bool, dev: nat, write: bool, invalidate: bool, a: Answer, p': Plain)
    requires p.Total()
  {
    p' == p.Synced(all, dev, write, invalidate) && p.Writes(a.io, p.unwritten - p'.unwritten)
  }

  /** One request and its outcome on the plain store. */
  ghost predicate PlainStep(p: Plain, op: Op, a: Answer, p': Plain)
    requires op.Legal() && p.Total()
  {
    if op.Stray(p.h) then a.status == Invalid && a.io == [] && p' == p
    else
      match op
      case Get(k) => if p.Full(k) then Refused(p, a, p') else Gets(p, k, a, p')
      case Read(k) => if p.Full(k) then Refused(p, a, p') else Reads(p, k, a, p')
      case Put(b) => a.io == [] && p' == if b == -1 then p else p.(h := Released(p.h, b))
      case Look(b) =>
        && a.io == [] && p' == p && a.status == (if p.h[b].key in p.cached then Done else Invalid)
        && (a.status == Done ==> a.bytes == p.m[p.h[b].key])
      case Fill(b, d) => a.io == [] && p' == p.Filled(p.h[b].key, d)
      case PRead(k, off, len) => if p.Full(k) then Refused(p, a, p') else PReads(p, k, off, len, a, p')
      case PWrite(k, off, bytes) => if p.Full(k) then Refused(p, a, p') else PWrites(p, k, off, bytes, a, p')
      case Add(count, memory) =>
        && a.io == []
        && a.status == (if count < p.size then Invalid else if memory || count == p.size then Done else NoMemory)
        && p' == if a.status == Done then p.(size := count) else p
      case Sync(all, dev, write, invalidate) => Syncs(p, all, dev, write, invalidate, a, p')
  }

  ghost function Everything(bufs: seq<Buffer>, disk: map<Key, Data>): (m: imap<Key, Data>)
    ensures forall k :: k in m && m[k] == View(bufs, disk, k)
  {
    imap k: Key | true :: View(bufs, disk, k)
  }

  /** The buffers in use. */
  function Holds(bufs: seq<Buffer>): (h: map<nat, Hold>)
    ensures forall b: nat :: b in h <==> b < |bufs| && bufs[b].refcnt > 0
    ensures forall b: nat :: b in h ==> h[b] == Hold(bufs[b].key, bufs[b].refcnt)
  {
    map b: nat | b < |bufs| && bufs[b].refcnt > 0 :: Hold(bufs[b].key, bufs[b].refcnt)
  }

  ghost function CachedBlocks(bufs: seq<Buffer>): iset<Key> {
    iset k | Cached(bufs, k)
  }

  ghost function UnwrittenBlocks(bufs: seq<Buffer>): iset<Key> {
    iset k | Unwritten(bufs, k)
  }

  /** The plain store that the cache presents. */
  ghost function Presented(bufs: seq<Buffer>, disk: map<Key, Data>): (p: Plain)
    ensures p.Total()
  {
    Plain(Everything(bufs, disk), Holds(bufs), |bufs|, CachedBlocks(bufs), UnwrittenBlocks(bufs))
  }

  lemma SameEverything(b1: seq<Buffer>, d1: map<Key, Data>, b2: seq<Buffer>, d2: map<Key, Data>)
    requires SameView(b1, d1, b2, d2, {})
    ensures Everything(b1, d1) == Everything(b2, d2)
  {}

  lemma SameHolds(bufs: seq<Buffer>, bufs': seq<Buffer>)
    requires HoldsKept(bufs, bufs')
    ensures Holds(bufs) == Holds(bufs')
  {}

  lemma HoldsOf(bufs: seq<Buffer>, bufs': seq<Buffer>)
    requires |bufs| == |bufs'| && HeldKept(bufs, bufs')
    ensures HoldsKept(bufs, bufs')
  {}

  /** No buffer is to be had exactly if all are in use, for other blocks. */
  lemma FullIs(bufs: seq<Buffer>, disk: map<Key, Data>, lists: seq<seq<nat>>, lru: seq<nat>, k: Key)
    requires Shape(bufs, lists, lru)
    ensures Presented(bufs, disk).Full(k) <==> lru == [] && NoneLive(bufs, k)
  {
    var p := Presented(bufs, disk);
    if lru == [] {
      forall b: nat | b < |bufs| ensures b in p.h {
        assert b !in lru;
      }
      if !p.InUse(k) {
        forall i | 0 <= i < |bufs| && bufs[i].Live() ensures bufs[i].key != k {
          assert i in p.h;
        }
      }
    } else {
      assert lru[0] in lru && lru[0] !in p.h;
    }
  }

  /** A buffer obtained. */
  lemma HoldsMore(bufs: seq<Buffer>, bufs': seq<Buffer>, b: nat, k: Key)
    requires Others(bufs, bufs', b) && bufs'[b].key == k && bufs'[b].refcnt == bufs[b].refcnt + 1
    requires bufs[b].refcnt > 0 ==> bufs[b].key == k
    ensures Holds(bufs') == Held(Holds(bufs), b, k) && (b in Holds(bufs) ==> Holds(bufs)[b].key == k)
  {
    assert forall i: nat :: i < |bufs| && i != b ==> bufs'[i] == bufs[i];
  }

  /** A buffer given back. */
  lemma HoldsLess(bufs: seq<Buffer>, b: nat)
    requires b < |bufs| && bufs[b].refcnt > 0
    ensures Holds(bufs[b := bufs[b].(refcnt := bufs[b].refcnt - 1)]) == Released(Holds(bufs), b)
  {}

  /** The block that makes room for block `k`: that of the least recently used buffer. */
  lemma MakesRoom(bufs: seq<Buffer>, disk: map<Key, Data>, lists: seq<seq<nat>>, lru: seq<nat>, k: Key) returns (e: Key)
    requires Content(bufs, disk, {}) && Shape(bufs, lists, lru)
    ensures var p := Presented(bufs, disk);
      && p.MayGo(k, e) && p.Saves(k, e) == Evicted(bufs, lru, k)
      && forall k' :: Leaves(bufs, lru, k, k') <==> !p.Knows(k) && k' == e && k' in p.cached
  {
    var p := Presented(bufs, disk);
    KnowsIs(bufs, disk, k);
    e := k;
    if NoneLive(bufs, k) && lru != [] {
      assert lru[0] in lru;
      if bufs[lru[0]].valid {
        e := bufs[lru[0]].key;
        assert bufs[lru[0]].Caches(e);
        NotInUse(bufs, disk, lru[0]);
        ViewCached(bufs, disk, lru[0]);
      } else {
        NoneUnwritten(bufs, k);
      }
    } else if NoneLive(bufs, k) {
      NoneUnwritten(bufs, k);
    }
  }

  lemma KnowsIs(bufs: seq<Buffer>, disk: map<Key, Data>, k: Key)
    ensures Presented(bufs, disk).Knows(k) <==> !NoneLive(bufs, k)
    ensures NoneLive(bufs, k) ==> !Presented(bufs, disk).InUse(k)
  {
    var p := Presented(bufs, disk);
    if !NoneLive(bufs, k) {
      var i: nat :| i < |bufs| && bufs[i].Live() && bufs[i].key == k;
      if bufs[i].valid {
        assert bufs[i].Caches(k);
      } else {
        assert i in p.h && p.h[i].key == k;
      }
    }
  }

  lemma NotInUse(bufs: seq<Buffer>, disk: map<Key, Data>, b: nat)
    requires Unique(bufs) && b < |bufs| && bufs[b].valid
    ensures Presented(bufs, disk).InUse(bufs[b].key) <==> bufs[b].refcnt > 0
    ensures bufs[b].key in Presented(bufs, disk).unwritten <==> bufs[b].dirty
  {
    var p, k := Presented(bufs, disk), bufs[b].key;
    assert bufs[b].Caches(k);
    if bufs[b].refcnt > 0 {
      assert b in p.h && p.h[b].key == k;
    }
  }

  lemma NoneUnwritten(bufs: seq<Buffer>, k: Key)
    requires NoneLive(bufs, k)
    ensures !Cached(bufs, k) && !Unwritten(bufs, k)
  {}

  /** What is cached after a request for block `k`. */
  lemma RecallsIs(bufs: seq<Buffer>, disk: map<Key, Data>, lru: seq<nat>, bufs': seq<Buffer>, k: Key, e: Key,
                  fetched: bool, filled: bool)
    requires Recalls(bufs, lru, bufs', k, fetched, filled)
    requires forall k' :: Leaves(bufs, lru, k, k') <==>
      !Presented(bufs, disk).Knows(k) && k' == e && k' in Presented(bufs, disk).cached
    ensures var p := Presented(bufs, disk).Room(k, e);
      && CachedBlocks(bufs') == (if fetched || filled then p.cached + iset{k} else p.cached)
      && UnwrittenBlocks(bufs') == (if filled then p.unwritten + iset{k} else p.unwritten)
  {
    UnwrittenCached(bufs);
    hide Leaves, Cached, Unwritten, Plain.Knows, Holds, Everything;
    var p := Presented(bufs, disk).Room(k, e);
    forall k' ensures k' in CachedBlocks(bufs') <==> k' in p.cached || (k' == k && (fetched || filled)) {
      assert Cached(bufs', k') <==>
        (k' == k && (fetched || filled)) || (Cached(bufs, k') && !Leaves(bufs, lru, k, k'));
    }
    forall k' ensures k' in UnwrittenBlocks(bufs') <==> k' in p.unwritten || (k' == k && filled) {
      assert Unwritten(bufs', k') <==> (k' == k && filled) || (Unwritten(bufs, k') && !Leaves(bufs, lru, k, k'));
    }
  }

  lemma UnwrittenCached(bufs: seq<Buffer>)
    ensures forall k :: Unwritten(bufs, k) ==> Cached(bufs, k)
  {}

  lemma NoneSpoilt(io: seq<Access>, failed: set<Key>)
    requires Blamed(io, failed) && failed == {}
    ensures forall i :: 0 <= i < |io| ==> !io[i].Spoils(io[i].k)
  {
    forall i | 0 <= i < |io| ensures !io[i].Spoils(io[i].k) {
      assert io[i].k !in failed;
    }
  }

  /** Without failed writes, what was tried is what was done. */
  lemma AllDone(io: seq<Access>, io': seq<Access>, writes: seq<Access>)
    requires io <= io' && Tried(io') == Tried(io) + writes
    requires forall i :: 0 <= i < |io'| ==> !io'[i].Spoils(io'[i].k)
    requires forall i :: 0 <= i < |writes| ==> writes[i].Flush?
    ensures io'[|io|..] == writes
  {
    assert |Tried(io')| == |Tried(io)| + |writes|;
    forall i | |io| <= i < |io'| ensures io'[i] == writes[i - |io|] {
      assert Tried(io')[i] == (Tried(io) + writes)[i];
    }
  }

  /** What bringing in block `k` has asked of the devices. */
  lemma LoadedIs(bufs: seq<Buffer>, disk: map<Key, Data>, lru: seq<nat>, io: seq<Access>, io': seq<Access>, k: Key,
                 e: Key, ok: bool)
    requires Loaded(bufs, lru, io, io', k, ok) && Blamed(io', {}) && io <= io'
    requires Presented(bufs, disk).Saves(k, e) == Evicted(bufs, lru, k)
    ensures var p := Presented(bufs, disk);
      (k in p.cached ==> ok) && io'[|io|..] == p.Asks(k, e, ok)
  {
    if !Cached(bufs, k) {
      var n := |io'| - 1;
      assert io <= io'[..n];
      hide Tried;
      NoneSpoilt(io', {});
      AllDone(io, io'[..n], Evicted(bufs, lru, k));
      assert io' == io'[..n] + [io'[n]];
    }
  }

  /** One request: as long as no device write has failed, the cache is the plain store. */
  method Request(c: Cache, op: Op) returns (a: Answer)
    requires c.Valid() && op.Legal()
    modifies c
    ensures c.Valid() && old(c.failed) <= c.failed && old(c.io) <= c.io && a.io == c.io[|old(c.io)|..]
    ensures c.failed == {} ==> PlainStep(old(Presented(c.bufs, c.disk)), op, a, Presented(c.bufs, c.disk))
  {
    hide Content, Shape, View, Everything, CachedBlocks, UnwrittenBlocks, Blamed;
    if op.Stray(Holds(c.bufs)) {
      return Answer(Invalid, 0, [], []);
    }
    match op {
      case Get(_) => a := RequestGet(c, op);
      case Read(_) => a := RequestRead(c, op);
      case Put(_) => a := RequestHeld(c, op);
      case Look(_) => a := RequestHeld(c, op);
      case Fill(_, _) => a := RequestHeld(c, op);
      case PRead(_, _, _) => a := RequestPRead(c, op);
      case PWrite(_, _, _) => a := RequestPWrite(c, op);
      case Sync(_, _, _, _) => a := RequestSync(c, op);
      case Add(_, _) => a := RequestAdd(c, op);
    }
  }

  lemma GetStep(bufs: seq<Buffer>, disk: map<Key, Data>, lists: seq<seq<nat>>, lru: seq<nat>, io: seq<Access>,
                bufs': seq<Buffer>, disk': map<Key, Data>, io': seq<Access>, b: nat, k: Key)
    requires Content(bufs, disk, {}) && Shape(bufs, lists, lru) && SameView(bufs, disk, bufs', disk', {})
    requires Others(bufs, bufs', b) && Serves(bufs, lru, b, k)
    requires bufs'[b].refcnt == bufs[b].refcnt + 1 && bufs'[b].key == k && (bufs[b].refcnt > 0 ==> bufs[b].key == k)
    requires bufs'[b].valid == bufs[b].Caches(k) && bufs'[b].dirty == (bufs[b].Caches(k) && bufs[b].dirty)
    requires Blamed(io', {}) && io <= io' && Tried(io') == Tried(io) + Evicted(bufs, lru, k)
    ensures Gets(Presented(bufs, disk), k, Answer(Done, b, [], io'[|io|..]), Presented(bufs', disk'))
  {
    EvictedWrites(bufs, lru, k);
    hide Content, Shape, SameView, View, Everything, NoneLive, Plain.Knows, Plain.InUse, Recalls, Evicted, Tried,
      Leaves, Blamed, CachedBlocks, UnwrittenBlocks, Serves;
    SameEverything(bufs, disk, bufs', disk');
    HoldsMore(bufs, bufs', b, k);
    RecallsOne(bufs, disk, {}, lru, b, bufs'[b], k, false, false);
    var e := MakesRoom(bufs, disk, lists, lru, k);
    RecallsIs(bufs, disk, lru, bufs', k, e, false, false);
    NoneSpoilt(io', {});
    AllDone(io, io', Evicted(bufs, lru, k));
    hide Others, Held;
    var p := Presented(bufs, disk);
    assert p.MayGo(k, e);
    assert Presented(bufs', disk') == p.Room(k, e).(h := Held(p.h, b, k));
  }

  /** blk_get. */
  method RequestGet(c: Cache, op: Op) returns (a: Answer)
    requires c.Valid() && op.Legal() && op.Get?
    modifies c
    ensures c.Valid() && old(c.failed) <= c.failed && old(c.io) <= c.io && a.io == c.io[|old(c.io)|..]
    ensures c.failed == {} ==> PlainStep(old(Presented(c.bufs, c.disk)), op, a, Presented(c.bufs, c.disk))
  {
    hide Content, Shape, SameView, Plain.Full, Recalls, Evicted, Tried, Blamed, Gets, NoneLive, Cached, View;
    FullIs(c.bufs, c.disk, c.lists, c.lru, op.k);
    hide Presented;
    var n := |c.io|;
    var status, b := c.Get(op.k);
    a := Answer(status, b, [], c.io[n..]);
    if c.failed == {} && status == Done {
      assert old(c.failed) == {};
      ServesCached(old(c.bufs), old(c.disk), {}, old(c.lru), b, op.k);
      GetStep(old(c.bufs), old(c.disk), old(c.lists), old(c.lru), old(c.io), c.bufs, c.disk, c.io, b, op.k);
    }
  }

  lemma ReadStep(bufs: seq<Buffer>, disk: map<Key, Data>, lists: seq<seq<nat>>, lru: seq<nat>, io: seq<Access>,
                 bufs': seq<Buffer>, disk': map<Key, Data>, io': seq<Access>, k: Key, a: Answer)
    requires Content(bufs, disk, {}) && Shape(bufs, lists, lru) && SameView(bufs, disk, bufs', disk', {})
    requires io <= io' && a.io == io'[|io|..] && (a.status == Done || a.status == DeviceError)
    requires a.status == Done ==> Others(bufs, bufs', a.b) && bufs'[a.b].refcnt == bufs[a.b].refcnt + 1
    requires a.status == Done ==> bufs'[a.b].key == k && (bufs[a.b].refcnt > 0 ==> bufs[a.b].key == k)
    requires a.status == Done ==> a.bytes == View(bufs', disk', k)
    requires a.status != Done ==> |bufs| == |bufs'| && HeldKept(bufs, bufs')
    requires Blamed(io', {}) && Loaded(bufs, lru, io, io', k, a.status == Done)
    requires Recalls(bufs, lru, bufs', k, a.status == Done, false)
    ensures Reads(Presented(bufs, disk), k, a, Presented(bufs', disk'))
  {
    hide Content, Shape, SameView, View, Everything, Plain.Knows, Plain.InUse, Recalls, Leaves, Loaded, HeldKept,
      HoldsKept, Blamed, CachedBlocks, UnwrittenBlocks;
    SameEverything(bufs, disk, bufs', disk');
    if a.status == Done {
      HoldsMore(bufs, bufs', a.b, k);
    } else {
      HoldsOf(bufs, bufs');
      SameHolds(bufs, bufs');
    }
    var e := Brought(bufs, disk, lists, lru, io, bufs', io', k, a);
    hide Others, Held;
    var p := Presented(bufs, disk);
    assert Everything(bufs, disk)[k] == View(bufs, disk, k) && Everything(bufs', disk')[k] == View(bufs', disk', k);
    assert Presented(bufs', disk') ==
      p.Brought(k, e, a.status == Done).(h := if a.status == Done then Held(p.h, a.b, k) else p.h);
  }

  /** A block brought in, if need be. */
  lemma Brought(bufs: seq<Buffer>, disk: map<Key, Data>, lists: seq<seq<nat>>, lru: seq<nat>, io: seq<Access>,
                bufs': seq<Buffer>, io': seq<Access>, k: Key, a: Answer) returns (e: Key)
    requires Content(bufs, disk, {}) && Shape(bufs, lists, lru)
    requires io <= io' && a.io == io'[|io|..] && (a.status == Done || a.status == DeviceError)
    requires Blamed(io', {}) && Loaded(bufs, lru, io, io', k, a.status == Done)
    requires Recalls(bufs, lru, bufs', k, a.status == Done, false)
    ensures Brings(Presented(bufs, disk), k, e, a)
    ensures var q := Presented(bufs, disk).Brought(k, e, a.status == Done);
      CachedBlocks(bufs') == q.cached && UnwrittenBlocks(bufs') == q.unwritten
  {
    hide Content, Shape, View, Everything, Plain.InUse, Recalls, Leaves, Loaded, Blamed;
    e := MakesRoom(bufs, disk, lists, lru, k);
    RecallsIs(bufs, disk, lru, bufs', k, e, a.status == Done, false);
    LoadedIs(bufs, disk, lru, io, io', k, e, a.status == Done);
    assert k in CachedBlocks(bufs) ==> Presented(bufs, disk).Knows(k);
    hide CachedBlocks, UnwrittenBlocks, Holds;
  }

  /** blk_read. */
  method RequestRead(c: Cache, op: Op) returns (a: Answer)
    requires c.Valid() && op.Legal() && op.Read?
    modifies c
    ensures c.Valid() && old(c.failed) <= c.failed && old(c.io) <= c.io && a.io == c.io[|old(c.io)|..]
    ensures c.failed == {} ==> PlainStep(old(Presented(c.bufs, c.disk)), op, a, Presented(c.bufs, c.disk))
  {
    hide Content, Shape, SameView, Plain.Full, Recalls, Loaded, Blamed, Reads, View, HeldKept, Serves;
    FullIs(c.bufs, c.disk, c.lists, c.lru, op.k);
    hide Presented, NoneLive;
    var n := |c.io|;
    var status, b := c.Read(op.k);
    a := Answer(status, b, if status == Done then c.bufs[b].data else [], c.io[n..]);
    if c.failed == {} && status != NoMemory {
      assert old(c.failed) == {};
      ReadStep(old(c.bufs), old(c.disk), old(c.lists), old(c.lru), old(c.io), c.bufs, c.disk, c.io, op.k, a);
    }
  }

  /** blk_put, and reading or filling the data of a held buffer. */
  method RequestHeld(c: Cache, op: Op) returns (a: Answer)
    requires c.Valid() && op.Legal() && (op.Put? || op.Look? || op.Fill?) && !op.Stray(Holds(c.bufs))
    modifies c
    ensures c.Valid() && c.failed == old(c.failed) && c.io == old(c.io) && a.io == []
    ensures c.failed == {} ==> PlainStep(old(Presented(c.bufs, c.disk)), op, a, Presented(c.bufs, c.disk))
  {
    hide Content, Shape, SameView, View, Everything, Stored, Blamed, CachedBlocks, UnwrittenBlocks;
    a := Answer(Done, 0, [], []);
    match op {
      case Put(b) =>
        c.Put(b);
        SameEverything(old(c.bufs), old(c.disk), c.bufs, c.disk);
        if b != -1 {
          HoldsLess(old(c.bufs), b);
          CachedOne(old(c.bufs), c.disk, c.failed, b, c.bufs[b]);
        }
      case Look(b) =>
        HeldCached(c.bufs, c.disk, c.failed, b);
        if c.bufs[b].valid {
          BufferIsView(c.bufs, c.disk, c.failed, b);
          a := Answer(Done, b, c.bufs[b].data, []);
        } else {
          a := Answer(Invalid, b, [], []);
        }
      case Fill(b, d) =>
        c.Store(b, d);
        FilledEverything(old(c.bufs), c.bufs, c.disk, c.bufs[b].key, d);
        CachedOne(old(c.bufs), c.disk, c.failed, b, c.bufs[b]);
        SameHolds(old(c.bufs), c.bufs);
    }
  }

  /** The buffer of a block in use is the only one that may hold the block. */
  lemma HeldCached(bufs: seq<Buffer>, disk: map<Key, Data>, failed: set<Key>, b: nat)
    requires Content(bufs, disk, failed) && b < |bufs| && bufs[b].refcnt > 0
    ensures bufs[b].key in CachedBlocks(bufs) <==> bufs[b].valid
  {
    assert bufs[b].valid ==> bufs[b].Caches(bufs[b].key);
  }

  /** A buffer in use is filled, or only its reference count changes. */
  lemma CachedOne(bufs: seq<Buffer>, disk: map<Key, Data>, failed: set<Key>, b: nat, x: Buffer)
    requires Content(bufs, disk, failed) && b < |bufs| && bufs[b].refcnt > 0 && x.key == bufs[b].key
    requires (x.valid && x.dirty) || (x.valid == bufs[b].valid && x.dirty == bufs[b].dirty)
    ensures CachedBlocks(bufs[b := x]) == CachedBlocks(bufs) + if x.valid then iset{x.key} else iset{}
    ensures UnwrittenBlocks(bufs[b := x]) == UnwrittenBlocks(bufs) + if x.valid && x.dirty then iset{x.key} else iset{}
    ensures x.valid && x.valid == bufs[b].valid ==> CachedBlocks(bufs[b := x]) == CachedBlocks(bufs)
    ensures x.valid == bufs[b].valid && x.dirty == bufs[b].dirty ==>
      UnwrittenBlocks(bufs[b := x]) == UnwrittenBlocks(bufs) && CachedBlocks(bufs[b := x]) == CachedBlocks(bufs)
  {
    assert bufs[b].valid ==> bufs[b].Caches(bufs[b].key);
    assert x.valid == bufs[b].valid && x.dirty == bufs[b].dirty && x.valid && x.dirty ==> Unwritten(bufs, x.key);
    hide Cached, Unwritten;
    forall k {
      CachedUpdate(bufs, b, x, k);
    }
  }

  lemma FilledEverything(bufs: seq<Buffer>, bufs': seq<Buffer>, disk: map<Key, Data>, k: Key, d: Data)
    requires Stored(bufs, bufs', disk, k, d)
    ensures Everything(bufs', disk) == Everything(bufs, disk)[k := d]
  {
    hide View;
  }

  lemma PReadStep(bufs: seq<Buffer>, disk: map<Key, Data>, lists: seq<seq<nat>>, lru: seq<nat>, io: seq<Access>,
                  bufs': seq<Buffer>, disk': map<Key, Data>, io': seq<Access>, k: Key, off: nat, len: nat, a: Answer)
    requires Content(bufs, disk, {}) && Shape(bufs, lists, lru) && SameView(bufs, disk, bufs', disk', {})
    requires io <= io' && a.io == io'[|io|..] && (a.status == Done || a.status == DeviceError) && off + len <= 512
    requires a.status == Done ==> a.bytes == View(bufs', disk', k)[off..off + len]
    requires |bufs| == |bufs'| && HeldKept(bufs, bufs')
    requires Blamed(io', {}) && Loaded(bufs, lru, io, io', k, a.status == Done)
    requires Recalls(bufs, lru, bufs', k, a.status == Done, false)
    ensures PReads(Presented(bufs, disk), k, off, len, a, Presented(bufs', disk'))
  {
    hide Content, Shape, SameView, View, Everything, Plain.Knows, Plain.InUse, Recalls, Leaves, Loaded, HeldKept,
      HoldsKept, Blamed, CachedBlocks, UnwrittenBlocks;
    SameEverything(bufs, disk, bufs', disk');
    HoldsOf(bufs, bufs');
    SameHolds(bufs, bufs');
    var e := Brought(bufs, disk, lists, lru, io, bufs', io', k, a);
    var p := Presented(bufs, disk);
    assert Everything(bufs, disk)[k] == View(bufs, disk, k) && Everything(bufs', disk')[k] == View(bufs', disk', k);
    assert Presented(bufs', disk') == p.Brought(k, e, a.status == Done);
  }

  /** blk_pread. */
  method RequestPRead(c: Cache, op: Op) returns (a: Answer)
    requires c.Valid() && op.Legal() && op.PRead?
    modifies c
    ensures c.Valid() && old(c.failed) <= c.failed && old(c.io) <= c.io && a.io == c.io[|old(c.io)|..]
    ensures c.failed == {} ==> PlainStep(old(Presented(c.bufs, c.disk)), op, a, Presented(c.bufs, c.disk))
  {
    hide Content, Shape, SameView, Plain.Full, Recalls, Loaded, Blamed, PReads, View, HeldKept;
    FullIs(c.bufs, c.disk, c.lists, c.lru, op.k);
    hide Presented, NoneLive;
    var n := |c.io|;
    var status, bytes := c.PRead(op.k, op.off, op.len);
    a := Answer(status, 0, bytes, c.io[n..]);
    if c.failed == {} && status != NoMemory {
      assert old(c.failed) == {};
      PReadStep(old(c.bufs), old(c.disk), old(c.lists), old(c.lru), old(c.io), c.bufs, c.disk, c.io, op.k, op.off,
                op.len, a);
    }
  }

  lemma PWriteStep(bufs: seq<Buffer>, disk: map<Key, Data>, lists: seq<seq<nat>>, lru: seq<nat>, io: seq<Access>,
                   bufs': seq<Buffer>, disk': map<Key, Data>, io': seq<Access>, k: Key, off: nat, bytes: seq<bv8>,
                   a: Answer)
    requires Content(bufs, disk, {}) && Shape(bufs, lists, lru) && off + |bytes| <= 512 && |bufs| == |bufs'|
    requires io <= io' && a.io == io'[|io|..] && (a.status == Done || (a.status == DeviceError && |bytes| != 512))
    requires if a.status == Done then Written(bufs, disk, bufs', disk', k, off, bytes, {})
             else SameView(bufs, disk, bufs', disk', {})
    requires HoldsKept(bufs, bufs') && Blamed(io', {})
    requires |bytes| != 512 ==> Loaded(bufs, lru, io, io', k, a.status == Done)
    requires |bytes| == 512 ==> Tried(io') == Tried(io) + Evicted(bufs, lru, k)
    requires Recalls(bufs, lru, bufs', k, false, a.status == Done)
    ensures PWrites(Presented(bufs, disk), k, off, bytes, a, Presented(bufs', disk'))
  {
    hide Content, Shape, SameView, View, Recalls, Loaded, HoldsKept, Blamed, Evicted, Written, Tried, Brings, Presented,
      Plain.Filled, Plain.Room, Plain.Saves, Plain.MayGo, Plain.Brought, Patched;
    EvictedWrites(bufs, lru, k);
    var e := PWriteStore(bufs, disk, lists, lru, bufs', disk', k, off, bytes, a.status == Done);
    var p := Presented(bufs, disk);
    if |bytes| != 512 {
      LoadedIs(bufs, disk, lru, io, io', k, e, a.status == Done);
      BringsIs(p, k, e, a);
      FilledAnyway(p, k, e, Patched(p.m[k], off, bytes));
    } else {
      NoneSpoilt(io', {});
      AllDone(io, io', Evicted(bufs, lru, k));
      PatchedAll(p.m[k], off, bytes);
    }
  }

  /** What a block write makes of the store. */
  lemma PWriteStore(bufs: seq<Buffer>, disk: map<Key, Data>, lists: seq<seq<nat>>, lru: seq<nat>, bufs': seq<Buffer>,
                    disk': map<Key, Data>, k: Key, off: nat, bytes: seq<bv8>, done: bool) returns (e: Key)
    requires Content(bufs, disk, {}) && Shape(bufs, lists, lru) && off + |bytes| <= 512 && |bufs| == |bufs'|
    requires if done then Written(bufs, disk, bufs', disk', k, off, bytes, {})
             else SameView(bufs, disk, bufs', disk', {})
    requires HoldsKept(bufs, bufs') && Recalls(bufs, lru, bufs', k, false, done)
    ensures var p, p' := Presented(bufs, disk), Presented(bufs', disk');
      && p.MayGo(k, e) && p.Saves(k, e) == Evicted(bufs, lru, k)
      && p' == if done then p.Room(k, e).Filled(k, Patched(p.m[k], off, bytes)) else p.Room(k, e)
  {
    hide Content, Shape, SameView, View, Everything, Plain.InUse, Recalls, Leaves, HoldsKept, Evicted, Written, Holds,
      Plain.Saves, Plain.MayGo, Plain.Knows, CachedBlocks, UnwrittenBlocks;
    SameHolds(bufs, bufs');
    e := MakesRoom(bufs, disk, lists, lru, k);
    RecallsIs(bufs, disk, lru, bufs', k, e, false, done);
    if done {
      WrittenEverything(bufs, disk, bufs', disk', k, off, bytes);
    } else {
      SameEverything(bufs, disk, bufs', disk');
    }
  }

  lemma PatchedAll(d: Data, off: nat, bytes: seq<bv8>)
    requires off + |bytes| <= 512 == |bytes|
    ensures Patched(d, off, bytes) == bytes
  {}

  lemma EvictedWrites(bufs: seq<Buffer>, lru: seq<nat>, k: Key)
    ensures forall i :: 0 <= i < |Evicted(bufs, lru, k)| ==> Evicted(bufs, lru, k)[i].Flush?
  {}

  /** It does not matter whether a block that is overwritten was brought in. */
  lemma FilledAnyway(p: Plain, k: Key, e: Key, d: Data)
    ensures p.Brought(k, e, true).Filled(k, d) == p.Room(k, e).Filled(k, d)
    ensures k !in p.cached ==> p.Brought(k, e, false) == p.Room(k, e)
  {
    assert p.Brought(k, e, true).cached + iset{k} == p.Room(k, e).cached + iset{k};
  }

  lemma BringsIs(p: Plain, k: Key, e: Key, a: Answer)
    requires p.Total() && p.MayGo(k, e) && (a.status == Done || a.status == DeviceError)
    requires (k in p.cached ==> a.status == Done) && a.io == p.Asks(k, e, a.status == Done)
    ensures Brings(p, k, e, a)
  {}

  /** blk_pwrite. */
  method RequestPWrite(c: Cache, op: Op) returns (a: Answer)
    requires c.Valid() && op.Legal() && op.PWrite?
    modifies c
    ensures c.Valid() && old(c.failed) <= c.failed && old(c.io) <= c.io && a.io == c.io[|old(c.io)|..]
    ensures c.failed == {} ==> PlainStep(old(Presented(c.bufs, c.disk)), op, a, Presented(c.bufs, c.disk))
  {
    hide Content, Shape, SameView, Plain.Full, Recalls, Loaded, Blamed, PWrites, View, HoldsKept, Written, Evicted,
      Tried;
    FullIs(c.bufs, c.disk, c.lists, c.lru, op.k);
    hide Presented, NoneLive;
    var n := |c.io|;
    var status := c.PWrite(op.k, op.off, op.bytes);
    a := Answer(status, 0, [], c.io[n..]);
    if c.failed == {} && status != NoMemory {
      assert old(c.failed) == {};
      PWriteStep(old(c.bufs), old(c.disk), old(c.lists), old(c.lru), old(c.io), c.bufs, c.disk, c.io, op.k, op.off,
                 op.bytes, a);
    }
  }

  lemma SyncStep(bufs: seq<Buffer>, disk: map<Key, Data>, lists: seq<seq<nat>>, lru: seq<nat>, io: seq<Access>,
                 bufs': seq<Buffer>, disk': map<Key, Data>, io': seq<Access>, op: Op, a: Answer)
    requires Content(bufs, disk, {}) && Shape(bufs, lists, lru) && SameView(bufs, disk, bufs', disk', {}) && op.Sync?
    requires |bufs| == |bufs'| && HeldKept(bufs, bufs') && Blamed(io', {}) && io <= io' && a.io == io'[|io|..]
    requires Passed(bufs, bufs', lru, op.all, op.dev, op.write, op.invalidate)
    requires Tried(io') == Tried(io) + if op.write then WriteBacks(bufs, lru, op.all, op.dev) else []
    ensures Syncs(Presented(bufs, disk), op.all, op.dev, op.write, op.invalidate, a, Presented(bufs', disk'))
  {
    hide Content, Shape, SameView, View, Everything, Tried, Blamed, CachedBlocks, UnwrittenBlocks, HeldKept, HoldsKept,
      Passed, Plain.Writes, WriteBacks;
    HoldsOf(bufs, bufs');
    SameHolds(bufs, bufs');
    SameEverything(bufs, disk, bufs', disk');
    SyncedIs(bufs, disk, lists, lru, bufs', op.all, op.dev, op.write, op.invalidate);
    OnlyWrites(bufs, lru, op.all, op.dev);
    NoneSpoilt(io', {});
    AllDone(io, io', if op.write then WriteBacks(bufs, lru, op.all, op.dev) else []);
  }

  /** blk_syncdev and blk_syncall. */
  method RequestSync(c: Cache, op: Op) returns (a: Answer)
    requires c.Valid() && op.Legal() && op.Sync?
    modifies c
    ensures c.Valid() && old(c.failed) <= c.failed && old(c.io) <= c.io && a.io == c.io[|old(c.io)|..]
    ensures c.failed == {} ==> PlainStep(old(Presented(c.bufs, c.disk)), op, a, Presented(c.bufs, c.disk))
  {
    hide Content, Shape, SameView, View, Tried, Blamed, HeldKept, Passed, WriteBacks, Syncs, Presented;
    var n := |c.io|;
    c.Sync(op.all, op.dev, op.write, op.invalidate);
    a := Answer(Done, 0, [], c.io[n..]);
    if c.failed == {} {
      assert old(c.failed) == {};
      SyncStep(old(c.bufs), old(c.disk), old(c.lists), c.lru, old(c.io), c.bufs, c.disk, c.io, op, a);
    }
  }

  /** blk_add. */
  method RequestAdd(c: Cache, op: Op) returns (a: Answer)
    requires c.Valid() && op.Legal() && op.Add?
    modifies c
    ensures c.Valid() && c.failed == old(c.failed) && c.io == old(c.io) && a.io == []
    ensures c.failed == {} ==> PlainStep(old(Presented(c.bufs, c.disk)), op, a, Presented(c.bufs, c.disk))
  {
    hide Content, Shape, SameView, View, Blamed, HeldKept, HoldsKept, Presented, PlainStep, Op.Stray;
    var status := c.Add(op.count, op.memory);
    a := Answer(status, 0, [], []);
    AddStep(old(c.bufs), c.bufs, c.disk);
    AddPlain(old(c.bufs), c.bufs, c.disk, op, a);
  }

  lemma AddPlain(bufs: seq<Buffer>, bufs': seq<Buffer>, disk: map<Key, Data>, op: Op, a: Answer)
    requires op.Add? && a.io == [] && Presented(bufs', disk) == Presented(bufs, disk).(size := |bufs'|)
    requires a.status == Invalid <==> op.count < |bufs|
    requires op.count >= |bufs| ==> a.status == if op.memory || op.count == |bufs| then Done else NoMemory
    requires if a.status == Done then |bufs'| == op.count else bufs' == bufs
    ensures PlainStep(Presented(bufs, disk), op, a, Presented(bufs', disk))
  {
    var p := Presented(bufs, disk);
    assert p.size == |bufs|;
    hide Presented;
  }

  /** More buffers that hold nothing. */
  lemma AddStep(bufs: seq<Buffer>, bufs': seq<Buffer>, disk: map<Key, Data>)
    requires SameView(bufs, disk, bufs', disk, {}) && HoldsKept(bufs, bufs') && bufs <= bufs'
    requires forall i :: |bufs| <= i < |bufs'| ==> bufs'[i] == Zeroed(false)
    ensures Presented(bufs', disk) == Presented(bufs, disk).(size := |bufs'|)
  {
    hide SameView, View, HoldsKept, Everything, CachedBlocks, UnwrittenBlocks;
    SameHolds(bufs, bufs');
    SameEverything(bufs, disk, bufs', disk);
    CachedGrow(bufs, bufs');
  }

  lemma CachedGrow(bufs: seq<Buffer>, bufs': seq<Buffer>)
    requires bufs <= bufs' && forall i :: |bufs| <= i < |bufs'| ==> bufs'[i] == Zeroed(false)
    ensures CachedBlocks(bufs') == CachedBlocks(bufs) && UnwrittenBlocks(bufs') == UnwrittenBlocks(bufs)
  {
    forall k ensures Cached(bufs', k) <==> Cached(bufs, k) {
      if i: nat :| i < |bufs| && bufs[i].Caches(k) {
        assert bufs'[i].Caches(k);
      }
    }
    forall k ensures Unwritten(bufs', k) <==> Unwritten(bufs, k) {
      if i: nat :| i < |bufs| && bufs[i].Caches(k) && bufs[i].dirty {
        assert bufs'[i].Caches(k) && bufs'[i].dirty;
      }
    }
  }

  // ----- synchronisation -----

  lemma {:induction false} WriteBacksHave(bufs: seq<Buffer>, order: seq<nat>, all: bool, dev: nat, b: nat)
    requires b in order && b < |bufs| && bufs[b].dirty && (all || bufs[b].key.dev == dev)
    ensures Flush(bufs[b].key, bufs[b].data, true) in WriteBacks(bufs, order, all, dev)
  {
    var n := |order| - 1;
    if order[n] != b {
      assert b in order[..n];
      WriteBacksHave(bufs, order[..n], all, dev, b);
    }
  }

  lemma {:induction false} WriteBacksOnly(bufs: seq<Buffer>, order: seq<nat>, all: bool, dev: nat, x: Access)
    returns (b: nat)
    requires x in WriteBacks(bufs, order, all, dev)
    ensures b in order && b < |bufs| && bufs[b].dirty && (all || bufs[b].key.dev == dev)
    ensures x == Flush(bufs[b].key, bufs[b].data, true)
  {
    var n := |order| - 1;
    if x in WriteBacks(bufs, order[..n], all, dev) {
      b := WriteBacksOnly(bufs, order[..n], all, dev, x);
      assert b in order[..n];
    } else {
      b := order[n];
    }
  }

  lemma {:induction false} WriteBacksOnce(bufs: seq<Buffer>, order: seq<nat>, all: bool, dev: nat)
    requires AllSane(bufs) && Unique(bufs) && NoRepeats(order)
    ensures NoRepeats(WriteBacks(bufs, order, all, dev))
  {
    if order != [] {
      var n := |order| - 1;
      var b := order[n];
      WriteBacksOnce(bufs, order[..n], all, dev);
      assert b !in order[..n];
      if b < |bufs| && bufs[b].dirty && WriteBack(bufs[b])[0] in WriteBacks(bufs, order[..n], all, dev) {
        var b' := WriteBacksOnly(bufs, order[..n], all, dev, WriteBack(bufs[b])[0]);
        assert false;
      }
    }
  }

  lemma OnlyWrites(bufs: seq<Buffer>, order: seq<nat>, all: bool, dev: nat)
    ensures var w := WriteBacks(bufs, order, all, dev); forall i :: 0 <= i < |w| ==> w[i].Flush?
  {
    var w := WriteBacks(bufs, order, all, dev);
    forall i | 0 <= i < |w| ensures w[i].Flush? {
      var _ := WriteBacksOnly(bufs, order, all, dev, w[i]);
    }
  }

  /** What a synchronisation does to one block. */
  lemma SyncedAt(bufs: seq<Buffer>, disk: map<Key, Data>, lists: seq<seq<nat>>, lru: seq<nat>, bufs': seq<Buffer>,
                 all: bool, dev: nat, write: bool, invalidate: bool, k: Key)
    requires Content(bufs, disk, {}) && Shape(bufs, lists, lru)
    requires Passed(bufs, bufs', lru, all, dev, write, invalidate)
    ensures var p := Presented(bufs, disk);
      && (Unwritten(bufs', k) <==> Unwritten(bufs, k) && !(write && p.Due(k, all, dev)))
      && (Cached(bufs', k) <==> Cached(bufs, k) && !(invalidate && p.Due(k, all, dev) && !Unwritten(bufs', k)))
  {
    hide Buckets, NoRepeats, View, Everything, BlockCache.Synced, UnwrittenBlocks, CachedBlocks, Holds;
    if i: nat :| i < |bufs| && bufs[i].Caches(k) {
      NotInUse(bufs, disk, i);
      assert i in lru <==> bufs[i].refcnt == 0;
      assert bufs'[i].valid ==> bufs'[i].Caches(k);
      hide Plain.InUse, Shape;
      assert forall j: nat :: j < |bufs| && bufs'[j].Caches(k) ==> bufs[j].Caches(k) && j == i;
    } else {
      assert forall j: nat :: j < |bufs| && bufs'[j].Caches(k) ==> bufs[j].Caches(k);
    }
  }

  /** What a synchronisation does, and what it writes. */
  lemma SyncedIs(bufs: seq<Buffer>, disk: map<Key, Data>, lists: seq<seq<nat>>, lru: seq<nat>, bufs': seq<Buffer>,
                 all: bool, dev: nat, write: bool, invalidate: bool)
    requires Content(bufs, disk, {}) && Shape(bufs, lists, lru)
    requires Passed(bufs, bufs', lru, all, dev, write, invalidate)
    ensures var p, w := Presented(bufs, disk), UnwrittenBlocks(bufs');
      && w == p.Synced(all, dev, write, invalidate).unwritten
      && CachedBlocks(bufs') == p.Synced(all, dev, write, invalidate).cached
      && p.Writes(if write then WriteBacks(bufs, lru, all, dev) else [], p.unwritten - w)
  {
    forall k {
      SyncedAt(bufs, disk, lists, lru, bufs', all, dev, write, invalidate, k);
    }
    if write {
      WritesAre(bufs, disk, lists, lru, all, dev, Presented(bufs, disk).unwritten - UnwrittenBlocks(bufs'));
    }
  }

  lemma WritesAre(bufs: seq<Buffer>, disk: map<Key, Data>, lists: seq<seq<nat>>, lru: seq<nat>, all: bool, dev: nat,
                  blocks: iset<Key>)
    requires Content(bufs, disk, {}) && Shape(bufs, lists, lru)
    requires forall k :: k in blocks <==> Unwritten(bufs, k) && Presented(bufs, disk).Due(k, all, dev)
    ensures Presented(bufs, disk).Writes(WriteBacks(bufs, lru, all, dev), blocks)
  {
    var p, w := Presented(bufs, disk), WriteBacks(bufs, lru, all, dev);
    WriteBacksOnce(bufs, lru, all, dev);
    forall i | 0 <= i < |w| ensures w[i].k in blocks && w[i] == Flush(w[i].k, p.m[w[i].k], true) {
      var b := WriteBacksOnly(bufs, lru, all, dev, w[i]);
      NotInUse(bufs, disk, b);
      ViewCached(bufs, disk, b);
    }
    forall k | k in blocks ensures Flush(k, p.m[k], true) in w {
      var b: nat :| b < |bufs| && bufs[b].Caches(k) && bufs[b].dirty;
      NotInUse(bufs, disk, b);
      ViewCached(bufs, disk, b);
      assert b in lru;
      WriteBacksHave(bufs, lru, all, dev, b);
    }
  }

  lemma WrittenEverything(bufs: seq<Buffer>, disk: map<Key, Data>, bufs': seq<Buffer>, disk': map<Key, Data>, k: Key,
                          off: nat, bytes: seq<bv8>)
    requires off + |bytes| <= 512 && Written(bufs, disk, bufs', disk', k, off, bytes, {})
    ensures var m := Everything(bufs, disk); Everything(bufs', disk') == m[k := Patched(m[k], off, bytes)]
  {
    hide View;
  }

  /** The answers are those of the plain store, which ends up as `p'`. */
  ghost predicate PlainRun(p: Plain, ops: seq<Op>, answers: seq<Answer>, p': Plain)
    requires p.Total() && forall op <- ops :: op.Legal()
    decreases |ops|
  {
    if |ops| == 0 || |answers| != |ops| then answers == [] && ops == [] && p' == p
    else
      var n := |ops| - 1;
      exists p1: Plain :: p1.Total() && PlainRun(p, ops[..n], answers[..n], p1) && PlainStep(p1, ops[n], answers[n], p')
  }

  /** The store at the start: nothing is in use, and nothing is cached. */
  ghost function Start(disk: map<Key, Data>): (p: Plain)
    ensures p.Total()
  {
    Plain(imap k: Key | true :: DiskAt(disk, k), map[], 1024, iset{}, iset{})
  }

  /**
    A whole run of requests against a cache that starts empty. In the end the devices lack nothing but the blocks that
    have not been written back; devices that never fail make no write fail.
   */
  method Session(devices: Devices, disk: map<Key, Data>, ops: seq<Op>) returns (c: Cache, answers: seq<Answer>)
    requires forall op <- ops :: op.Legal()
    ensures fresh(c) && c.Valid() && c.devices == devices
    ensures (forall n :: devices.works(n)) ==> c.failed == {}
    ensures c.failed == {} ==> PlainRun(Start(disk), ops, answers, Presented(c.bufs, c.disk))
    ensures c.failed == {} ==> forall k :: !Unwritten(c.bufs, k) ==> DiskAt(c.disk, k) == View(c.bufs, c.disk, k)
  {
    hide Content, Shape, View, Blamed, Unwritten, PlainStep;
    c := new Cache(devices, disk);
    assert Presented(c.bufs, c.disk) == Start(disk) by { InitialStore(c.bufs, c.disk, disk); }
    answers := [];
    assert ops[..0] == [];
    for i := 0 to |ops|
      invariant fresh(c) && c.Valid() && c.devices == devices && |answers| == i
      invariant c.failed == {} ==> PlainRun(Start(disk), ops[..i], answers, Presented(c.bufs, c.disk))
    {
      ghost var p1 := Presented(c.bufs, c.disk);
      var a := Request(c, ops[i]);
      assert ops[..i + 1][..i] == ops[..i] && (answers + [a])[..i] == answers;
      answers := answers + [a];
    }
    assert ops[..|ops|] == ops;
    NeverFailed(c.io, c.devices, c.failed);
    forall k | c.failed == {} && !Unwritten(c.bufs, k) ensures DiskAt(c.disk, k) == View(c.bufs, c.disk, k) {
      WrittenOnDisk(c.bufs, c.disk, k);
    }
  }

  lemma NeverFailed(io: seq<Access>, devices: Devices, failed: set<Key>)
    requires Honest(io, devices) && Blamed(io, failed)
    ensures (forall n :: devices.works(n)) ==> failed == {}
  {}

  lemma InitialStore(bufs: seq<Buffer>, disk: map<Key, Data>, disk0: map<Key, Data>)
    requires |bufs| == 1024 && forall i :: 0 <= i < |bufs| ==> bufs[i] == Zeroed(true)
    requires forall k :: View(bufs, disk, k) == DiskAt(disk0, k)
    ensures Presented(bufs, disk) == Start(disk0)
  {
    hide View;
    assert Everything(bufs, disk) == imap k: Key | true :: DiskAt(disk0, k);
    assert Holds(bufs) == map[];
    assert CachedBlocks(bufs) == iset{} && UnwrittenBlocks(bufs) == iset{};
  }
}

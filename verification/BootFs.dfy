/**
  The boot file system: cross/mkbfs.c writes a directory tree as a chain of headers, each followed by its data, and
  sysload/fs-boot.c finds and loads files by walking that chain.
 */
module BootFs {

  const FIRST_BLOCK: nat := 128
  const BFS_PATH_MAX: nat := 499

  /** The writer's numbers are unsigned, of 32 bits. */
  const WORD: nat := 0x1_0000_0000

  /** Blocks that a byte offset of 32 bits can reach. */
  const REACH: nat := 0x80_0000

  type Byte = x: int | 0 <= x < 256
  type Block = b: seq<Byte> | |b| == 512 witness seq(512, _ => 0)

  function Zeros(n: nat): (r: seq<Byte>)
    ensures |r| == n && forall i :: 0 <= i < n ==> r[i] == 0
  {
    seq(n, _ => 0)
  }

  /** Blocks needed for `size` bytes. */
  function Blocks(size: nat): nat {
    (size + 511) / 512
  }

  /** A partition of a device: its block `b` is block `offset + b` of the device. */
  datatype Disk = Disk(device: map<nat, Block>, offset: nat) {
    predicate Has(b: nat) {
      offset + b in device
    }

    function At(b: nat): Block
      requires Has(b)
    {
      device[offset + b]
    }
  }

  // ----- headers -----

  datatype Head = Head(mode: nat, size: nat, next: nat, name: seq<Byte>) {
    /** Numbers of 32 bits, and a name that fits its field with the final zero. */
    predicate Fits() {
      mode < WORD && size < WORD && next < WORD && |name| <= BFS_PATH_MAX && 0 !in name
    }
  }

  function Le32(n: nat): (r: seq<Byte>)
    requires n < WORD
    ensures |r| == 4
  {
    [n % 256, n / 256 % 256, n / 65536 % 256, n / 16777216]
  }

  function Number(b: seq<Byte>): nat
    requires |b| == 4
  {
    (b[0] as int) + 256 * (b[1] as int) + 65536 * (b[2] as int) + 16777216 * (b[3] as int)
  }

  lemma NumberOfLe32(n: nat)
    requires n < WORD
    ensures Number(Le32(n)) == n
  {
    var a := n / 256;
    var b := a / 256;
    assert n / 65536 == b && n / 16777216 == b / 256;
  }

  /** The text of a field up to its first zero byte. */
  function Text(b: seq<Byte>): seq<Byte> {
    if b == [] || b[0] == 0 then [] else [b[0]] + Text(b[1..])
  }

  lemma {:induction false} TextOfPadded(name: seq<Byte>, pad: seq<Byte>)
    requires 0 !in name && pad != [] && pad[0] == 0
    ensures Text(name + pad) == name
  {
    if name == [] {
      assert name + pad == pad;
    } else {
      assert (name + pad)[1..] == name[1..] + pad;
      TextOfPadded(name[1..], pad);
    }
  }

  /** The header block that mkhead builds and add_block writes. */
  function Encode(h: Head): (b: Block)
    requires h.Fits()
  {
    Le32(h.mode) + Le32(h.size) + Le32(h.next) + h.name + Zeros(500 - |h.name|)
  }

  /** A block read as a header. */
  function Decode(b: Block): Head {
    Head(Number(b[0..4]), Number(b[4..8]), Number(b[8..12]), Text(b[12..]))
  }

  lemma HeaderRoundTrip(h: Head)
    requires h.Fits()
    ensures Decode(Encode(h)) == h && Encode(h)[511] == 0
  {
    hide Le32, Number, Text;
    var b := Encode(h);
    assert b[0..4] == Le32(h.mode) && b[4..8] == Le32(h.size) && b[8..12] == Le32(h.next);
    assert b[12..] == h.name + Zeros(500 - |h.name|);
    NumberOfLe32(h.mode);
    NumberOfLe32(h.size);
    NumberOfLe32(h.next);
    TextOfPadded(h.name, Zeros(500 - |h.name|));
  }

  // ----- trees and what they put on the disk -----

  datatype Perm = Perm(r: bool, w: bool, x: bool)

  datatype Node = File(perm: Perm, data: seq<Byte>) | Dir(perm: Perm, children: Children)

  datatype Children = Nil | Cons(name: seq<Byte>, node: Node, rest: Children)

  function Mode(isDir: bool, p: Perm): (m: nat)
    ensures m < WORD
  {
    (if isDir then 0x3000 else 0) + (if p.r then 256 else 0) + (if p.w then 128 else 0) + if p.x then 64 else 0
  }

  function Count(cs: Children): nat {
    match cs
    case Nil => 0
    case Cons(_, _, rest) => 1 + Count(rest)
  }

  /** A directory holds 32 bytes for each of its entries, "." and ".." included. */
  function DirSize(cs: Children): nat {
    32 * (Count(cs) + 2)
  }

  function Join(prefix: seq<Byte>, name: seq<Byte>): seq<Byte> {
    if prefix == [] then name else prefix + [47] + name
  }

  /** One header on the disk: where it is, what it says, and for a file the data behind it. */
  datatype Entry = Entry(path: seq<Byte>, mode: nat, size: nat, blk: nat, next: nat, isFile: bool, data: seq<Byte>) {
    /** The first block after the data. */
    function After(): nat {
      blk + 1 + Blocks(size)
    }
  }

  /** The first block after everything that belongs to a node, written from block `blk` on. */
  function End(n: Node, blk: nat): nat {
    match n
    case File(_, data) => blk + 1 + Blocks(|data|)
    case Dir(_, cs) => AllEnd(cs, blk) + 1 + Blocks(DirSize(cs))
  }

  function AllEnd(cs: Children, blk: nat): nat {
    match cs
    case Nil => blk
    case Cons(_, n, rest) => AllEnd(rest, End(n, blk))
  }

  /** The headers of a node in the order they are written: a directory comes after all it contains. */
  function Entries(n: Node, path: seq<Byte>, blk: nat, last: bool): seq<Entry> {
    match n
    case File(perm, data) => [Entry(path, Mode(false, perm), |data|, blk, blk + 1 + Blocks(|data|), true, data)]
    case Dir(perm, cs) =>
      var h := AllEnd(cs, blk);
      AllEntries(cs, path, blk) +
      [Entry(path, Mode(true, perm), DirSize(cs), h, if last then 0 else h + 1 + Blocks(DirSize(cs)), false, [])]
  }

  function AllEntries(cs: Children, prefix: seq<Byte>, blk: nat): seq<Entry> {
    match cs
    case Nil => []
    case Cons(name, n, rest) => Entries(n, Join(prefix, name), blk, false) + AllEntries(rest, prefix, End(n, blk))
  }

  /** Every path fits the field for it. */
  predicate PathsFit(n: Node, path: seq<Byte>) {
    |path| <= BFS_PATH_MAX && 0 !in path && (n.Dir? ==> AllPathsFit(n.children, path))
  }

  predicate AllPathsFit(cs: Children, prefix: seq<Byte>) {
    match cs
    case Nil => true
    case Cons(name, n, rest) => PathsFit(n, Join(prefix, name)) && AllPathsFit(rest, prefix)
  }

  /** Everything takes a block at least, so a directory has no more entries than its contents have blocks. */
  lemma {:induction false} Sizes(n: Node, blk: nat)
    ensures End(n, blk) > blk && (n.Dir? ==> AllEnd(n.children, blk) >= blk + Count(n.children))
    decreases n, 1
  {
    if n.Dir? {
      AllSizes(n.children, blk);
    }
  }

  lemma {:induction false} AllSizes(cs: Children, blk: nat)
    ensures AllEnd(cs, blk) >= blk + Count(cs)
    decreases cs, 0
  {
    match cs
    case Nil =>
    case Cons(_, n, rest) =>
      Sizes(n, blk);
      AllSizes(rest, End(n, blk));
  }

  /** Block `k` of a file, the last one padded with zeros. */
  function Chunk(data: seq<Byte>, k: nat): (b: Block)
    requires k < Blocks(|data|)
  {
    if 512 * k + 512 <= |data| then data[512 * k..512 * k + 512]
    else data[512 * k..] + Zeros(512 - (|data| - 512 * k))
  }

  /** The entry is on the disk. */
  ghost predicate Written(disk: Disk, e: Entry) {
    && disk.Has(e.blk) && Decode(disk.At(e.blk)) == Head(e.mode, e.size, e.next, e.path) && disk.At(e.blk)[511] == 0
    && (e.isFile ==> |e.data| == e.size && HasData(disk, e.data, e.blk + 1, Blocks(e.size)))
  }

  /** The first `n` blocks of a file are on the disk from block `blk` on. */
  ghost predicate HasData(disk: Disk, data: seq<Byte>, blk: nat, n: nat)
    requires n <= Blocks(|data|)
  {
    forall b: nat :: blk <= b < blk + n ==> disk.Has(b) && disk.At(b) == Chunk(data, b - blk)
  }

  /** The last block that the reader of an entry needs: of a directory it reads the header only. */
  function LastBlock(e: Entry): nat {
    if e.isFile then e.blk + Blocks(e.size) else e.blk
  }

  /** The entry lies within the 4 GiB of the device that unsigned byte offsets reach. */
  predicate Inside(e: Entry, offset: nat) {
    offset + LastBlock(e) < REACH
  }

  /** The devices agree at a block. */
  ghost predicate SameAt(device: map<nat, Block>, device': map<nat, Block>, d: nat) {
    (d in device <==> d in device') && (d in device ==> device'[d] == device[d])
  }

  /** The devices agree from a block on. */
  ghost predicate SameFrom(device: map<nat, Block>, device': map<nat, Block>, from: nat) {
    forall d: nat :: d >= from ==> SameAt(device, device', d)
  }

  /** The disks agree within reach, from the first header up to block `blk`. */
  ghost predicate SameWithin(disk: Disk, disk': Disk, blk: nat) {
    && disk.offset == disk'.offset
    && forall d: nat :: disk.offset + FIRST_BLOCK <= d < disk.offset + blk && d < REACH ==>
         SameAt(disk.device, disk'.device, d)
  }

  /** The first block of the device that is neither within reach nor in front of the partition's first header. */
  function High(offset: nat): nat {
    if offset + FIRST_BLOCK < REACH then REACH else offset + FIRST_BLOCK
  }

  /** What is inside is on the disk, and what is not has its last block as before. */
  ghost predicate Stored(disk: Disk, disk': Disk, e: Entry) {
    && (Inside(e, disk'.offset) ==> Written(disk', e))
    && (!Inside(e, disk'.offset) ==> SameAt(disk.device, disk'.device, disk'.offset + LastBlock(e)))
  }

  /** The entries have been written between the blocks `at` and `end`, and no others within reach have changed. */
  ghost predicate Done(disk: Disk, disk': Disk, es: seq<Entry>, at: nat, end: nat) {
    && SameWithin(disk, disk', at)
    && (disk.offset + at >= REACH ==> SameFrom(disk.device, disk'.device, High(disk.offset)))
    && forall i :: 0 <= i < |es| ==> at <= es[i].blk && LastBlock(es[i]) < end && Stored(disk, disk', es[i])
  }

  lemma StillWritten(disk: Disk, disk': Disk, e: Entry, end: nat)
    requires Written(disk, e) && Inside(e, disk.offset) && LastBlock(e) < end && e.blk >= FIRST_BLOCK
    requires SameWithin(disk, disk', end)
    ensures Written(disk', e)
  {
    hide Decode, Chunk;
    assert SameAt(disk.device, disk'.device, disk.offset + e.blk);
    forall b: nat | e.isFile && e.blk + 1 <= b < e.blk + 1 + Blocks(e.size)
      ensures disk'.Has(b) && disk'.At(b) == disk.At(b)
    {
      SameBlock(disk, disk', b, end);
    }
  }

  lemma SameBlock(disk: Disk, disk': Disk, b: nat, end: nat)
    requires SameWithin(disk, disk', end) && FIRST_BLOCK <= b < end && disk.offset + b < REACH && disk.Has(b)
    ensures disk'.Has(b) && disk'.At(b) == disk.At(b)
  {
    assert SameAt(disk.device, disk'.device, disk.offset + b);
  }

  lemma StoredBefore(d0: Disk, d1: Disk, d2: Disk, es: seq<Entry>, e: Entry, at: nat, mid: nat, end: nat)
    requires Stored(d0, d1, e) && Done(d1, d2, es, mid, end)
    requires FIRST_BLOCK <= at <= e.blk && LastBlock(e) < mid && d0.offset == d1.offset
    ensures Stored(d0, d2, e)
  {
    hide Written, Blocks;
    if Inside(e, d1.offset) {
      StillWritten(d1, d2, e, mid);
    } else {
      assert SameAt(d1.device, d2.device, d2.offset + LastBlock(e));
    }
  }

  /** One thing after another. */
  lemma DoneBoth(d0: Disk, d1: Disk, d2: Disk, es: seq<Entry>, es': seq<Entry>, at: nat, mid: nat, end: nat)
    requires Done(d0, d1, es, at, mid) && Done(d1, d2, es', mid, end) && FIRST_BLOCK <= at <= mid <= end
    requires SameFrom(d0.device, d1.device, d0.offset + mid)
    ensures Done(d0, d2, es + es', at, end)
  {
    hide Stored, LastBlock, SameAt;
    SameWithinTrans(d0, d1, d2, at, mid);
    if d0.offset + at >= REACH {
      SameFromTrans(d0.device, d1.device, d2.device, High(d0.offset), High(d0.offset));
    }
    var all := es + es';
    forall i | 0 <= i < |all|
      ensures at <= all[i].blk && LastBlock(all[i]) < end && Stored(d0, d2, all[i])
    {
      if i < |es| {
        StoredBefore(d0, d1, d2, es', es[i], at, mid, end);
      } else {
        StoredAfter(d0, d1, d2, es'[i - |es|], mid);
      }
    }
  }

  lemma StoredAfter(d0: Disk, d1: Disk, d2: Disk, e: Entry, mid: nat)
    requires Stored(d1, d2, e) && e.blk >= mid && SameFrom(d0.device, d1.device, d0.offset + mid)
    requires d0.offset == d1.offset == d2.offset
    ensures Stored(d0, d2, e)
  {
    hide Written, Blocks;
    assert SameAt(d0.device, d1.device, d0.offset + LastBlock(e));
  }

  lemma SameWithinTrans(d0: Disk, d1: Disk, d2: Disk, b0: nat, b1: nat)
    requires SameWithin(d0, d1, b0) && SameWithin(d1, d2, b1) && b0 <= b1
    ensures SameWithin(d0, d2, b0)
  {
    forall d: nat | d0.offset + FIRST_BLOCK <= d < d0.offset + b0 && d < REACH
      ensures SameAt(d0.device, d2.device, d)
    {
      assert SameAt(d0.device, d1.device, d) && SameAt(d1.device, d2.device, d);
    }
  }

  lemma NothingDone(disk: Disk, at: nat)
    ensures Done(disk, disk, [], at, at)
  {}

  // ----- unsigned arithmetic -----

  /** The block behind the data that mkhead computes for a header at block `cur`. */
  function NextBlock(size: nat, cur: nat): nat {
    (WordBlocks(size) + cur + 1) % WORD
  }

  /** `(hd->size + 511) / 512`: the size is cut to 32 bits, and the sum again. */
  function WordBlocks(size: nat): nat {
    (size % WORD + 511) % WORD / 512
  }

  lemma WordBlocksIs(size: nat)
    ensures WordBlocks(size) == (size + 511) % WORD / 512
    ensures Blocks(size) == WordBlocks(size) + REACH * ((size + 511) / WORD)
  {
    CutTwice(size);
    WholeBlocks((size + 511) / WORD, (size + 511) % WORD);
  }

  lemma CutTwice(size: nat)
    ensures (size % WORD + 511) % WORD == (size + 511) % WORD
  {}

  lemma WholeBlocks(q: nat, r: nat)
    ensures (WORD * q + r) / 512 == REACH * q + r / 512
  {}

  /** The header leads behind its data if and only if neither the rounded size nor the block number wraps. */
  lemma NextBlockIs(size: nat, cur: nat)
    ensures NextBlock(size, cur) == cur + 1 + Blocks(size) <==> size + 511 < WORD && cur + 1 + Blocks(size) < WORD
  {
    WordBlocksIs(size);
  }

  /** The device block to which add_block seeks for block `blk`. */
  function SeekBlock(offset: nat, blk: nat): nat {
    ((offset + blk) % WORD * 512) % WORD / 512
  }

  /** The reader looks there if and only if it is within 4 GiB. */
  lemma SeekBlockIs(offset: nat, blk: nat)
    ensures SeekBlock(offset, blk) == (offset + blk) % REACH
    ensures SeekBlock(offset, blk) == offset + blk <==> offset + blk < REACH
  {
    var n := offset + blk;
    Reduced(n % WORD);
    RemainderTwice(n);
    SmallRemainder(n);
  }

  lemma Reduced(x: nat)
    ensures (x * 512) % WORD / 512 == x % REACH
  {
    var q, r := x / REACH, x % REACH;
    assert x * 512 == q * WORD + r * 512;
    assert (q * WORD + r * 512) % WORD == r * 512;
  }

  lemma RemainderTwice(n: nat)
    ensures n % WORD % REACH == n % REACH
  {
    var q := n / WORD;
    assert n == q * 512 * REACH + n % WORD;
  }

  lemma SmallRemainder(n: nat)
    ensures n % REACH == n <==> n < REACH
  {}

  /** Where block numbers end that do not come back onto the partition's first header. */
  const LIMIT: nat := REACH + FIRST_BLOCK

  /** Where the writer is when it should be at block `at`: there, or a multiple of 4 GiB before, or beyond all hope. */
  predicate Behind(cur: nat, at: nat) {
    && FIRST_BLOCK <= at && cur < WORD && cur <= at
    && (at < WORD ==> cur % REACH == at % REACH) && (at <= LIMIT ==> cur == at)
  }

  lemma BehindNext(cur: nat, at: nat, size: nat)
    requires Behind(cur, at)
    ensures Behind(NextBlock(size, cur), at + 1 + Blocks(size)) && Behind((cur + 1) % WORD, at + 1)
    ensures cur < WORD && cur <= at
  {
    assert cur < WORD && cur <= at;
    hide WordBlocks, Blocks, Behind;
    WordBlocksIs(size);
    BehindBy(cur, at, 1 + WordBlocks(size), (size + 511) / WORD);
    BehindBy(cur, at, 1, 0);
  }

  lemma BehindBy(cur: nat, at: nat, d: nat, k: nat)
    requires Behind(cur, at) && d > 0
    ensures Behind((cur + d) % WORD, at + d + REACH * k)
  {
    if at + d + REACH * k < WORD {
      SameRemainder(cur, at, d, k);
    }
  }

  lemma SameRemainder(cur: nat, at: nat, d: nat, k: nat)
    requires cur % REACH == at % REACH
    ensures (cur + d) % REACH == (at + d + REACH * k) % REACH
  {}

  lemma SameFromTrans(d0: map<nat, Block>, d1: map<nat, Block>, d2: map<nat, Block>, from: nat, from': nat)
    requires SameFrom(d0, d1, from) && SameFrom(d1, d2, from') && from <= from'
    ensures SameFrom(d0, d2, from')
  {
    forall d: nat | d >= from' ensures SameAt(d0, d2, d) {
      assert SameAt(d0, d1, d) && SameAt(d1, d2, d);
    }
  }

  lemma PutFrom(device: map<nat, Block>, d: nat, b: Block, from: nat)
    ensures SameFrom(device, device, from) && (d < from ==> SameFrom(device, device[d := b], from))
  {}

  // ----- mkbfs -----

  class Writer {
    const offset: nat
    var device: map<nat, Block>
    var currBlk: nat

    constructor (image: map<nat, Block>, offset: nat, first: nat)
      ensures device == image && this.offset == offset && currBlk == first
    {
      this.offset, device, currBlk := offset, image, first;
    }

    ghost function View(): Disk
      reads this
    {
      Disk(device, offset)
    }

    /** add_block: the byte offset is unsigned, so it wraps at 4 GiB. */
    method AddBlock(b: Block)
      modifies this
      ensures device == old(device)[SeekBlock(offset, old(currBlk)) := b]
      ensures currBlk == (old(currBlk) + 1) % WORD
    {
      var seek := ((offset + currBlk) % WORD * 512) % WORD;
      device := device[seek / 512 := b];
      currBlk := (currBlk + 1) % WORD;
    }

    /** mkhead. */
    method MkHead(name: seq<Byte>, isDir: bool, perm: Perm, size: nat) returns (h: Head)
      ensures h == Head(Mode(isDir, perm), size % WORD, NextBlock(size, currBlk), name)
    {
      var mode := if isDir then 0x3000 else 0;
      if perm.r { mode := mode + 256; }
      if perm.w { mode := mode + 128; }
      if perm.x { mode := mode + 64; }
      var size32 := size % WORD;
      h := Head(mode, size32, ((size32 + 511) % WORD / 512 + currBlk + 1) % WORD, name);
    }

    /** A block goes where the reader looks for it if that is within 4 GiB, and never any further out. */
    method Put(b: Block)
      requires currBlk < WORD
      modifies this
      ensures currBlk == (old(currBlk) + 1) % WORD && device == old(device)[SeekBlock(offset, old(currBlk)) := b]
      ensures SameFrom(old(device), device, offset + old(currBlk) + 1) && SameFrom(old(device), device, REACH)
      ensures old(currBlk) < LIMIT ==> SameWithin(old(View()), View(), old(currBlk))
      ensures offset + old(currBlk) < REACH ==> View().Has(old(currBlk)) && View().At(old(currBlk)) == b
    {
      hide SeekBlock, SameFrom, SameWithin;
      SeekBlockIs(offset, currBlk);
      PutFrom(device, (offset + currBlk) % REACH, b, offset + currBlk + 1);
      PutFrom(device, (offset + currBlk) % REACH, b, REACH);
      if currBlk < LIMIT {
        PutWithin(device, offset, currBlk, b);
      }
      AddBlock(b);
    }

    /** The loop of add_reg: blocks of the file up to block `next`. */
    method WriteData(data: seq<Byte>, next: nat)
      requires currBlk < WORD && next < WORD && next <= currBlk + Blocks(|data|)
      modifies this
      ensures currBlk == if old(currBlk) < next then next else old(currBlk)
      ensures old(currBlk) >= next ==> device == old(device)
      ensures SameFrom(old(device), device, offset + currBlk) && SameFrom(old(device), device, REACH)
      ensures currBlk <= LIMIT ==> SameWithin(old(View()), View(), old(currBlk))
      ensures old(currBlk) >= FIRST_BLOCK && offset + currBlk <= REACH ==>
        HasData(View(), data, old(currBlk), currBlk - old(currBlk))
    {
      hide Chunk, SameFrom, SameWithin, HasData, SeekBlock;
      Nothing(device, offset, data, currBlk);
      var k := 0;  // blocks read from the file
      while currBlk < next
        invariant currBlk == old(currBlk) + k && (k > 0 ==> currBlk <= next) && k >= 0
        invariant k == 0 ==> device == old(device)
        invariant SameFrom(old(device), device, offset + currBlk) && SameFrom(old(device), device, REACH)
        invariant currBlk <= LIMIT ==> SameWithin(old(View()), View(), old(currBlk))
        invariant old(currBlk) >= FIRST_BLOCK && offset + currBlk <= REACH ==> HasData(View(), data, old(currBlk), k)
      {
        ghost var d := device;
        Put(Chunk(data, k));
        SameFromTrans(old(device), d, device, offset + currBlk - 1, offset + currBlk);
        SameFromTrans(old(device), d, device, REACH, REACH);
        if currBlk <= LIMIT {
          SameWithinTrans(old(View()), Disk(d, offset), View(), old(currBlk), currBlk - 1);
        }
        if old(currBlk) >= FIRST_BLOCK && offset + currBlk <= REACH {
          HasDataMore(Disk(d, offset), View(), data, old(currBlk), k);
        }
        k := k + 1;
      }
    }

    /**
      add_reg: the header, and the data in blocks. `at` is where the writer should be. Of a file whose size rounds to
      2^32 only the header is written.
     */
    method AddReg(path: seq<Byte>, perm: Perm, data: seq<Byte>, ghost at: nat)
      requires PathsFit(File(perm, data), path) && Behind(currBlk, at)
      modifies this
      ensures Behind(currBlk, End(File(perm, data), at))
      ensures SameFrom(old(device), device, offset + End(File(perm, data), at))
      ensures End(File(perm, data), at) <= LIMIT ==>
        Done(old(View()), View(), Entries(File(perm, data), path, at, false), at, End(File(perm, data), at))
      ensures WordBlocks(|data|) == 0 && old(currBlk) + 1 < WORD ==>
        currBlk == old(currBlk) + 1
        && HeadOnly(old(device), device, offset, old(currBlk), FileHead(path, perm, data, old(currBlk)))
    {
      hide SameFrom, SameWithin, HasData, NextBlock, Blocks, WordBlocks, Behind, Done, Entries, HeadAt, HeadOnly;
      ghost var d0, end := device, End(File(perm, data), at);
      AtLeast(currBlk, at);
      FileBlocks(currBlk, at, |data|);
      NothingWraps(currBlk, at, |data|);
      NoDataBlocks(currBlk, |data|);
      var next := WriteFileHead(path, perm, data);
      ghost var d1 := device;
      WriteData(data, next);
      FileFrame(d0, d1, device, offset + old(currBlk) + 1, offset + currBlk, offset + end);
      if end <= LIMIT {
        SameWithinTrans(Disk(d0, offset), Disk(d1, offset), View(), at, at + 1);
        FileDone(Disk(d0, offset), Disk(d1, offset), View(), at, path, perm, data);
      }
    }

    /** The header of a file. */
    method WriteFileHead(path: seq<Byte>, perm: Perm, data: seq<Byte>) returns (next: nat)
      requires PathsFit(File(perm, data), path) && currBlk < WORD
      modifies this
      ensures next == NextBlock(|data|, old(currBlk)) < WORD && currBlk == (old(currBlk) + 1) % WORD
      ensures SameFrom(old(device), device, offset + old(currBlk) + 1) && SameFrom(old(device), device, REACH)
      ensures old(currBlk) < LIMIT ==> SameWithin(old(View()), View(), old(currBlk))
      ensures var hd := Head(Mode(false, perm), |data| % WORD, next, path);
        && HeadOnly(old(device), device, offset, old(currBlk), hd)
        && (offset + old(currBlk) < REACH ==> HeadAt(View(), old(currBlk), hd))
    {
      hide Encode, SameFrom, SameWithin, NextBlock, SeekBlock;
      NextFits(|data|, currBlk);
      var hd := MkHead(path, false, perm, |data|);
      Put(Encode(hd));
      next := hd.next;
    }

    /** The loop of add_dir over what a directory contains. */
    method AddAll(cs: Children, prefix: seq<Byte>, ghost at: nat)
      requires AllPathsFit(cs, prefix) && Behind(currBlk, at)
      modifies this
      ensures Behind(currBlk, AllEnd(cs, at)) && SameFrom(old(device), device, offset + AllEnd(cs, at))
      ensures AllEnd(cs, at) <= LIMIT ==> Done(old(View()), View(), AllEntries(cs, prefix, at), at, AllEnd(cs, at))
      ensures cs.Nil? ==> device == old(device) && currBlk == old(currBlk)
      ensures OneVanishing(cs) && old(currBlk) + 1 < WORD ==>
        currBlk == old(currBlk) + 1
        && HeadOnly(old(device), device, offset, old(currBlk),
                    FileHead(Join(prefix, cs.name), cs.node.perm, cs.node.data, old(currBlk)))
      decreases cs, 0
    {
      hide Done, SameFrom, Behind, WordBlocks, HeadOnly, FileHead, Spared;
      ghost var d0 := device;
      AtLeast(currBlk, at);
      match cs
      case Nil =>
        Nothing(device, offset, [], at);
        NothingDone(View(), at);
      case Cons(name, n, rest) =>
        AddNode(n, Join(prefix, name), at);
        ghost var d1, mid, end := device, End(n, at), AllEnd(cs, at);
        Sizes(n, at);
        AllSizes(rest, mid);
        AddAll(rest, prefix, mid);
        SameFromTrans(d0, d1, device, offset + mid, offset + end);
        if end <= LIMIT {
          DoneBoth(Disk(d0, offset), Disk(d1, offset), View(), Entries(n, Join(prefix, name), at, false),
            AllEntries(rest, prefix, mid), at, mid, end);
        }
    }

    /** A file or a directory. */
    method AddNode(n: Node, path: seq<Byte>, ghost at: nat)
      requires PathsFit(n, path) && Behind(currBlk, at)
      modifies this
      ensures Behind(currBlk, End(n, at)) && SameFrom(old(device), device, offset + End(n, at))
      ensures End(n, at) <= LIMIT ==> Done(old(View()), View(), Entries(n, path, at, false), at, End(n, at))
      ensures n.File? && WordBlocks(|n.data|) == 0 && old(currBlk) + 1 < WORD ==>
        currBlk == old(currBlk) + 1
        && HeadOnly(old(device), device, offset, old(currBlk), FileHead(path, n.perm, n.data, old(currBlk)))
      decreases n, 2
    {
      hide Done, SameFrom, Behind, WordBlocks, HeadOnly, FileHead;
      match n
      case Dir(_, _) => AddDir(n, path, false, at);
      case File(perm, data) => AddReg(path, perm, data, at);
    }

    /**
      add_dir: everything in the directory, then its own header and its table of names. If the header lies beyond
      4 GiB it does not get to the block where the reader looks for it, and neither does anything else.
     */
    method AddDir(n: Node, path: seq<Byte>, last: bool, ghost at: nat)
      requires n.Dir? && PathsFit(n, path) && Behind(currBlk, at)
      modifies this
      ensures Behind(currBlk, End(n, at)) && SameFrom(old(device), device, offset + End(n, at))
      ensures Spared(n, at, offset) ==> Done(old(View()), View(), Entries(n, path, at, last), at, End(n, at))
      ensures offset + AllEnd(n.children, at) >= REACH ==> SameAt(old(device), device, offset + AllEnd(n.children, at))
      ensures OneVanishing(n.children) && offset + old(currBlk) + 1 < REACH && last ==>
        var c := n.children;
        && HeadAt(View(), old(currBlk), FileHead(Join(path, c.name), c.node.perm, c.node.data, old(currBlk)))
        && HeadAt(View(), old(currBlk) + 1, Head(Mode(true, n.perm), 96, 0, path))
      decreases n, 1
    {
      hide Done, SameFrom, Behind, SameAt, Blocks, WordBlocks, HeadAt, HeadOnly, FileHead;
      ghost var d0, h := device, AllEnd(n.children, at);
      AtLeast(currBlk, at);
      AddAll(n.children, path, at);
      ghost var d1 := device;
      AllSizes(n.children, at);
      WriteHead(path, n.perm, Count(n.children), last, h);
      ghost var size := DirSize(n.children);
      SameFromLater(d0, d1, offset + h, offset + h + 1 + Blocks(size));
      SameFromTrans(d0, d1, device, offset + h + 1 + Blocks(size), offset + h + 1 + Blocks(size));
      if Spared(n, at, offset) {
        ghost var own := Entry(path, Mode(true, n.perm), size, h, if last then 0 else h + 1 + Blocks(size), false, []);
        DoneBoth(Disk(d0, offset), Disk(d1, offset), View(), AllEntries(n.children, path, at), [own], at, h,
          End(n, at));
      }
      if offset + h >= REACH {
        SameAtTrans(d0, d1, device, offset + h);
      }
      if OneVanishing(n.children) && offset + old(currBlk) + 1 < REACH && last {
        ghost var c := n.children;
        HeadKept(d0, d1, device, offset, old(currBlk),
          FileHead(Join(path, c.name), c.node.perm, c.node.data, old(currBlk)));
      }
    }

    /** The second half of add_dir, for a directory of `count` entries whose header should be at block `h`. */
    method WriteHead(path: seq<Byte>, perm: Perm, count: nat, last: bool, ghost h: nat)
      requires |path| <= BFS_PATH_MAX && 0 !in path && Behind(currBlk, h) && count <= h
      modifies this
      ensures var size := 32 * (count + 2);
        Behind(currBlk, h + 1 + Blocks(size)) && SameFrom(old(device), device, offset + h + 1 + Blocks(size))
      ensures var size := 32 * (count + 2);
        offset + h < REACH || h + 1 + Blocks(size) <= LIMIT ==>
          var own := Entry(path, Mode(true, perm), size, h, if last then 0 else h + 1 + Blocks(size), false, []);
          Done(old(View()), View(), [own], h, h + 1 + Blocks(size))
      ensures offset + h >= REACH ==> SameAt(old(device), device, offset + h)
      ensures offset + old(currBlk) < REACH && last ==>
        && (forall d: nat :: d < offset + old(currBlk) ==> SameAt(old(device), device, d))
        && HeadAt(View(), old(currBlk), Head(Mode(true, perm), 32 * (count + 2) % WORD, 0, path))
    {
      hide Done, Decode, Encode, SameFrom, SameWithin, Behind, SameAt, Blocks, NextBlock, SeekBlock;
      ghost var d0, cur := device, currBlk;
      var size := 32 * (count + 2);
      var hd := MkHead(path, true, perm, size);
      var nblk := hd.next;
      if last {
        hd := hd.(next := 0);
      }
      NextFits(size, currBlk);
      BehindNext(currBlk, h, size);
      AtLeast(currBlk, h);
      HeaderReach(offset, currBlk, h, count);
      SeekBlockIs(offset, currBlk);
      var position := SeekBlock(offset, currBlk) + 1;
      Put(Encode(hd));
      ghost var d1 := device;
      WriteNames(position, size);
      SameFromLater(d0, d1, offset + cur + 1, offset + h + 1);
      DirFrame(d0, d1, device, offset, h, position, Blocks(size));
      if offset + h < REACH || h + 1 + Blocks(size) <= LIMIT {
        DirDone(Disk(d0, offset), Disk(d1, offset), View(), h, position, hd, size);
      }
      if offset + cur < REACH {
        HeaderThere(d0, d1, device, offset, cur, hd);
      }
      currBlk := nblk;
    }

    /** The table of names goes into the blocks behind the header just written; the loader never reads it. */
    method WriteNames(from: nat, size: nat)
      modifies this`device
      ensures SameFrom(old(device), device, from + Blocks(size))
      ensures forall d: nat :: d < from ==> SameAt(old(device), device, d)
    {
      for k := 0 to Blocks(size)
        invariant SameFrom(old(device), device, from + Blocks(size))
        invariant forall d: nat :: d < from ==> SameAt(old(device), device, d)
      {
        var names: Block := *;
        ghost var before := device;
        device := device[from + k := names];
        forall d: nat | d < from || d >= from + Blocks(size) ensures SameAt(old(device), device, d) {
          assert SameAt(old(device), before, d);
        }
      }
    }
  }

  /**
    A directory written from block `at` on does not come back, modulo 4 GiB, onto the partition's first header or what
    follows it: its own header is within reach, or everything ends before.
   */
  predicate Spared(n: Node, at: nat, offset: nat)
    requires n.Dir?
  {
    offset + AllEnd(n.children, at) < REACH || End(n, at) <= LIMIT
  }

  /** A single file of which mkbfs writes no data, because its size rounds to a multiple of 2^32. */
  predicate OneVanishing(cs: Children) {
    cs.Cons? && cs.node.File? && cs.rest.Nil? && WordBlocks(|cs.node.data|) == 0
  }

  /** The header of a file of which no data are written, at block `cur`. */
  function FileHead(path: seq<Byte>, perm: Perm, data: seq<Byte>, cur: nat): Head {
    Head(Mode(false, perm), |data| % WORD, cur + 1, path)
  }

  ghost predicate HeadOnly(device: map<nat, Block>, device': map<nat, Block>, offset: nat, cur: nat, hd: Head) {
    hd.Fits() && device' == device[SeekBlock(offset, cur) := Encode(hd)]
  }

  ghost predicate HeadAt(disk: Disk, blk: nat, hd: Head) {
    hd.Fits() && disk.Has(blk) && disk.At(blk) == Encode(hd)
  }

  lemma AtLeast(cur: nat, at: nat)
    requires Behind(cur, at)
    ensures FIRST_BLOCK <= at && cur < WORD && cur <= at
  {}

  lemma PutWithin(device: map<nat, Block>, offset: nat, cur: nat, b: Block)
    requires cur < LIMIT
    ensures SameWithin(Disk(device, offset), Disk(device[(offset + cur) % REACH := b], offset), cur)
  {
    assert offset + cur >= REACH ==> (offset + cur) % REACH < offset + FIRST_BLOCK;
  }

  lemma Nothing(device: map<nat, Block>, offset: nat, data: seq<Byte>, blk: nat)
    ensures SameFrom(device, device, offset + blk) && SameWithin(Disk(device, offset), Disk(device, offset), blk)
    ensures HasData(Disk(device, offset), data, blk, 0) && SameFrom(device, device, REACH)
  {}

  lemma HasDataMore(disk: Disk, disk': Disk, data: seq<Byte>, blk: nat, k: nat)
    requires k < Blocks(|data|) && HasData(disk, data, blk, k) && SameWithin(disk, disk', blk + k)
    requires blk >= FIRST_BLOCK && disk.offset + blk + k < REACH
    requires disk'.Has(blk + k) && disk'.At(blk + k) == Chunk(data, k)
    ensures HasData(disk', data, blk, k + 1)
  {
    hide Chunk;
    forall b: nat | blk <= b < blk + k ensures disk'.Has(b) && disk'.At(b) == disk.At(b) {
      SameBlock(disk, disk', b, blk + k);
    }
  }

  lemma SameFromLater(device: map<nat, Block>, device': map<nat, Block>, from: nat, from': nat)
    requires SameFrom(device, device', from) && from <= from'
    ensures SameFrom(device, device', from')
  {}

  lemma NextFits(size: nat, cur: nat)
    ensures NextBlock(size, cur) < WORD && NextBlock(size, cur) <= cur + 1 + Blocks(size)
  {
    WordBlocksIs(size);
  }

  /** Where the blocks of a file end. */
  lemma FileBlocks(cur: nat, at: nat, size: nat)
    requires Behind(cur, at)
    ensures var next, c := NextBlock(size, cur), (cur + 1) % WORD;
      && Behind(if c < next then next else c, at + 1 + Blocks(size)) && next <= c + Blocks(size)
      && c < WORD && cur < WORD && cur <= at && (if c < next then next else c) <= at + 1 + Blocks(size)
  {
    BehindNext(cur, at, size);
    WordBlocksIs(size);
    var next, c, end := NextBlock(size, cur), (cur + 1) % WORD, at + 1 + Blocks(size);
    NoNearerThan(WordBlocks(size), cur);
    assert next <= c + WordBlocks(size);
    hide NextBlock, WordBlocks, Blocks;
    assert next < c ==> end >= WORD;
    assert next < c ==> Behind(c, end);
  }

  /** The end computed lies before the current block only if the block number has wrapped. */
  lemma NoNearerThan(w: nat, cur: nat)
    requires cur < WORD && w < WORD
    ensures var next, c := (w + cur + 1) % WORD, (cur + 1) % WORD;
      next <= c + w && (next < c ==> cur + 1 + w >= WORD)
  {}

  /** Up to the limit the writer is where it should be and nothing wraps. */
  lemma NothingWraps(cur: nat, at: nat, size: nat)
    requires Behind(cur, at)
    ensures at + 1 + Blocks(size) <= LIMIT ==>
      cur == at && NextBlock(size, cur) == at + 1 + Blocks(size) && size < WORD && (cur + 1) % WORD == at + 1
  {
    NextBlockIs(size, at);
  }

  lemma NoDataBlocks(cur: nat, size: nat)
    ensures WordBlocks(size) == 0 && cur + 1 < WORD ==> NextBlock(size, cur) == cur + 1 && (cur + 1) % WORD == cur + 1
  {}

  lemma FileFrame(d0: map<nat, Block>, d1: map<nat, Block>, d2: map<nat, Block>, a: nat, b: nat, end: nat)
    requires SameFrom(d0, d1, a) && SameFrom(d1, d2, b) && a <= end && b <= end
    requires SameFrom(d0, d1, REACH) && SameFrom(d1, d2, REACH)
    ensures SameFrom(d0, d2, end) && SameFrom(d0, d2, REACH)
  {
    SameFromLater(d0, d1, a, end);
    SameFromLater(d1, d2, b, end);
    SameFromTrans(d0, d1, d2, end, end);
    SameFromTrans(d0, d1, d2, REACH, REACH);
  }

  /** A file after its header and its data. */
  lemma FileDone(d0: Disk, d1: Disk, d2: Disk, at: nat, path: seq<Byte>, perm: Perm, data: seq<Byte>)
    requires at >= FIRST_BLOCK && SameWithin(d0, d2, at) && SameWithin(d1, d2, at + 1)
    requires SameFrom(d0.device, d2.device, REACH)
    requires d1.offset + at < REACH ==>
      HeadAt(d1, at, Head(Mode(false, perm), |data|, at + 1 + Blocks(|data|), path))
    requires d2.offset + at + 1 + Blocks(|data|) <= REACH ==> HasData(d2, data, at + 1, Blocks(|data|))
    ensures Done(d0, d2, Entries(File(perm, data), path, at, false), at, at + 1 + Blocks(|data|))
  {
    hide Decode, Encode, Blocks, HasData;
    var hd := Head(Mode(false, perm), |data|, at + 1 + Blocks(|data|), path);
    if hd.Fits() {
      HeaderRoundTrip(hd);
    }
    var es := Entries(File(perm, data), path, at, false);
    var e := es[0];
    assert es == [e] && LastBlock(e) == at + Blocks(|data|);
    if Inside(e, d2.offset) {
      assert SameAt(d1.device, d2.device, d2.offset + at);
    } else {
      assert SameAt(d0.device, d2.device, d2.offset + LastBlock(e));
    }
    SameFromLater(d0.device, d2.device, REACH, High(d0.offset));
  }

  /** The header of a directory with its position, and how far its table of names can reach. */
  lemma HeaderReach(offset: nat, cur: nat, h: nat, count: nat)
    requires Behind(cur, h) && count <= h
    ensures var size := 32 * (count + 2);
      && SeekBlock(offset, cur) <= offset + h
      && (offset + h < REACH ==> SeekBlock(offset, cur) == offset + h && cur == h)
      && (offset + h < REACH || h + 1 + Blocks(size) <= LIMIT ==>
           cur == h < LIMIT && size < WORD && NextBlock(size, cur) == h + 1 + Blocks(size))
      && (offset + h >= REACH ==> SeekBlock(offset, cur) + 1 + Blocks(size) <= offset + h)
  {
    hide SeekBlock, NextBlock, Blocks, Behind;
    var size := 32 * (count + 2);
    SeekBlockIs(offset, cur);
    NextBlockIs(size, h);
    TableBlocks(count, h);
    NothingWraps(cur, h, size);
    SeekBefore(offset, cur, h);
    if offset + h >= REACH {
      TableReach(offset, cur, h, Blocks(size));
    }
  }

  lemma SeekBefore(offset: nat, cur: nat, h: nat)
    requires Behind(cur, h)
    ensures (offset + cur) % REACH <= offset + h && (h < REACH ==> cur == h)
  {}

  lemma TableBlocks(count: nat, h: nat)
    requires count <= h
    ensures Blocks(32 * (count + 2)) <= h / 16 + 2
  {}

  /** A wrapped table of names ends before the block where its header should be. */
  lemma TableReach(offset: nat, cur: nat, h: nat, blocks: nat)
    requires Behind(cur, h) && offset + h >= REACH && blocks <= h / 16 + 2
    ensures (offset + cur) % REACH + 1 + blocks <= offset + h
  {
    var p := (offset + cur) % REACH;
    if h < WORD {
      var m := (offset + h) / REACH;
      assert p == (offset + h) % REACH by { SumRemainder(offset, cur, h); }
      assert offset + h == m * REACH + p && m >= 1;
    }
  }

  lemma SumRemainder(offset: nat, cur: nat, h: nat)
    requires cur % REACH == h % REACH
    ensures (offset + cur) % REACH == (offset + h) % REACH
  {}

  lemma DirFrame(d0: map<nat, Block>, d1: map<nat, Block>, d2: map<nat, Block>, offset: nat, h: nat, position: nat,
                 blocks: nat)
    requires SameFrom(d0, d1, offset + h + 1) && SameFrom(d0, d1, REACH)
    requires SameFrom(d1, d2, position + blocks) && position <= offset + h + 1
    ensures SameFrom(d0, d2, offset + h + 1 + blocks)
    ensures offset + h >= REACH && position + blocks <= offset + h ==> SameAt(d0, d2, offset + h)
  {
    SameFromLater(d1, d2, position + blocks, offset + h + 1 + blocks);
    SameFromTrans(d0, d1, d2, offset + h + 1, offset + h + 1 + blocks);
    if offset + h >= REACH && position + blocks <= offset + h {
      assert SameAt(d0, d1, offset + h) && SameAt(d1, d2, offset + h);
    }
  }

  lemma SameAtTrans(d0: map<nat, Block>, d1: map<nat, Block>, d2: map<nat, Block>, d: nat)
    requires SameFrom(d0, d1, d) && SameAt(d1, d2, d)
    ensures SameAt(d0, d2, d)
  {
    assert SameAt(d0, d1, d);
  }

  /** A directory's header with the table of names behind it. */
  lemma DirDone(d0: Disk, d1: Disk, d2: Disk, h: nat, position: nat, hd: Head, size: nat)
    requires hd.Fits() && hd.size == size && FIRST_BLOCK <= h && d0.offset == d1.offset == d2.offset
    requires d0.offset + h < REACH || h + 1 + Blocks(size) <= LIMIT
    requires SameWithin(d0, d1, h) && SameFrom(d0.device, d1.device, REACH)
    requires d1.offset + h < REACH ==> d1.Has(h) && d1.At(h) == Encode(hd)
    requires position == if d0.offset + h < REACH then d0.offset + h + 1 else (d0.offset + h) % REACH + 1
    requires SameFrom(d1.device, d2.device, position + Blocks(size))
    requires forall d: nat :: d < position ==> SameAt(d1.device, d2.device, d)
    ensures Done(d0, d2, [Entry(hd.name, hd.mode, size, h, hd.next, false, [])], h, h + 1 + Blocks(size))
  {
    hide Decode, Encode, Blocks, SameAt;
    HeaderRoundTrip(hd);
    var offset, e := d0.offset, Entry(hd.name, hd.mode, size, h, hd.next, false, []);
    if offset + h < REACH {
      NamesBehind(d1, d2, position, h);
      SameWithinTrans(d0, d1, d2, h, h);
      HeaderStays(d1, d2, e, hd);
    } else {
      assert position + Blocks(size) <= offset + FIRST_BLOCK;
      NamesBefore(d1, d2, position + Blocks(size), h);
      SameWithinTrans(d0, d1, d2, h, h);
      SameFromLater(d0.device, d1.device, REACH, High(offset));
      SameFromLater(d1.device, d2.device, position + Blocks(size), High(offset));
      SameFromTrans(d0.device, d1.device, d2.device, High(offset), High(offset));
      assert SameAt(d0.device, d2.device, offset + h);
    }
  }

  lemma NamesBehind(disk: Disk, disk': Disk, position: nat, h: nat)
    requires disk.offset == disk'.offset && position == disk.offset + h + 1
    requires forall d: nat :: d < position ==> SameAt(disk.device, disk'.device, d)
    ensures SameWithin(disk, disk', h) && SameAt(disk.device, disk'.device, disk.offset + h)
  {}

  lemma NamesBefore(disk: Disk, disk': Disk, end: nat, h: nat)
    requires disk.offset == disk'.offset && end <= disk.offset + FIRST_BLOCK && SameFrom(disk.device, disk'.device, end)
    ensures SameWithin(disk, disk', h)
  {}

  lemma HeaderStays(disk: Disk, disk': Disk, e: Entry, hd: Head)
    requires hd.Fits() && disk.Has(e.blk) && disk.At(e.blk) == Encode(hd) && disk.offset == disk'.offset
    requires SameAt(disk.device, disk'.device, disk.offset + e.blk)
    requires !e.isFile && hd == Head(e.mode, e.size, e.next, e.path)
    ensures Written(disk', e)
  {
    hide Decode, Encode;
    HeaderRoundTrip(hd);
  }

  lemma HeadKept(d0: map<nat, Block>, d1: map<nat, Block>, d2: map<nat, Block>, offset: nat, blk: nat, hd: Head)
    requires HeadOnly(d0, d1, offset, blk, hd) && offset + blk < REACH
    requires forall d: nat :: d < offset + blk + 1 ==> SameAt(d1, d2, d)
    ensures HeadAt(Disk(d2, offset), blk, hd)
  {
    hide Encode, SeekBlock;
    SeekBlockIs(offset, blk);
    assert SameAt(d1, d2, offset + blk);
  }

  lemma HeaderThere(d0: map<nat, Block>, d1: map<nat, Block>, d2: map<nat, Block>, offset: nat, cur: nat, hd: Head)
    requires hd.Fits() && d1 == d0[offset + cur := Encode(hd)]
    requires forall d: nat :: d < offset + cur + 1 ==> SameAt(d1, d2, d)
    ensures HeadAt(Disk(d2, offset), cur, hd)
    ensures forall d: nat :: d < offset + cur ==> SameAt(d0, d2, d)
  {
    hide Encode;
    assert SameAt(d1, d2, offset + cur);
    forall d: nat | d < offset + cur ensures SameAt(d0, d2, d) {
      assert SameAt(d1, d2, d);
    }
  }
}

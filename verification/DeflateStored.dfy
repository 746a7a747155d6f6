/**
  Compression level 0: deflate_stored and the part of deflate() around it.  Input is copied to stored blocks, straight
  from next_in to next_out where possible, otherwise through the window and the pending buffer.
 */
module DeflateStored {
  import opened Lz77
  import opened StoredFormat
  import opened DeflateCore

  /** Unsigned numbers have 32 bits. */
  const WORD: nat := 0x1_0000_0000

  /** The fields of deflate_state and of its stream that deflate_stored uses. */
  datatype Store = Store(
    wide: bool,            // does an unsigned long have 64 bits?
    wSize: nat,
    pendingBufSize: nat,
    window: seq<Byte>,
    strstart: nat,
    blockStart: nat,
    biValid: nat,          // bits waiting in the bit buffer
    nextIn: seq<Byte>,
    availOut: nat,
    pending: seq<Unit>,
    out: seq<Unit>)        // everything written to next_out so far
  {
    /** Bytes in the window that no block has yet. */
    function Left(): nat
      requires blockStart <= strstart
    {
      strstart - blockStart
    }

    /** Bytes that are still to be sent. */
    function Unsent(): nat
      requires blockStart <= strstart
    {
      Left() + |nextIn|
    }

    /** `left + s->strm->avail_in`, in 32 bits. */
    function Sum(): nat
      requires blockStart <= strstart
    {
      Unsent() % WORD
    }

    /** The length of the block that is copied next: limited by the input and by the room. */
    function BlockLength(): (len: nat)
      requires blockStart <= strstart && HeaderSize() <= availOut
      ensures len <= MAX_STORED && len <= Unsent() && HeaderSize() + len <= availOut
    {
      var len := if MAX_STORED > (if wide then Unsent() else Sum()) then Sum() else MAX_STORED;
      Min(len, availOut - HeaderSize())
    }

    /** All the bytes to be sent can be counted in 32 bits. */
    predicate Counted()
      requires blockStart <= strstart
    {
      Unsent() < WORD
    }

    /** The smallest block that is worth writing directly. */
    function MinBlock(): nat
      requires pendingBufSize >= 512
    {
      Min(pendingBufSize - 5, wSize)
    }

    /** No block is worth writing directly. */
    predicate Stuck(flush: Flush)
      requires blockStart <= strstart && pendingBufSize >= 512
    {
      || availOut < HeaderSize()
      || (BlockLength() < MinBlock()
          && ((BlockLength() == 0 && !flush.Finish?) || flush.NoFlush? || BlockLength() != Sum()))
    }

    /** The guard of a finishing block is met by a sum that has wrapped. */
    predicate EndsEarly(flush: Flush)
      requires blockStart <= strstart
    {
      flush.Finish? && !Counted() && HeaderSize() <= availOut && BlockLength() == Sum()
    }

    /** Bytes a stored block header takes, including the bits waiting. */
    function HeaderSize(): nat {
      (biValid + 42) / 8
    }

    function NextHeader(last: bool, len: nat): seq<Unit>
      requires len <= MAX_STORED
    {
      Header((biValid + 10) / 8 - 1, last, len)
    }
  }

  ghost predicate Shape(c: Store) {
    && 512 <= c.wSize <= 32768 && c.pendingBufSize >= 512
    && |c.window| == 2 * c.wSize
    && c.blockStart <= c.strstart < 2 * c.wSize
    && c.biValid < 8
  }

  /** The window ends, at strstart, with the latest input. */
  ghost predicate Recent(window: seq<Byte>, strstart: nat, hist: seq<Byte>) {
    strstart <= |hist| && strstart <= |window| && window[..strstart] == hist[|hist| - strstart..]
  }

  /** Conservation: the blocks written or pending decode to all input read, less what is left in the window. */
  ghost predicate Conserves(stream: seq<Unit>, bits: nat, hist: seq<Byte>, left: nat, done: bool) {
    left <= |hist| && Recorded(stream, bits) && Parse(stream) == Some(Parsed(hist[..|hist| - left], done))
  }

  ghost predicate Valid(c: Store, hist: seq<Byte>, done: bool) {
    && Shape(c)
    && Recent(c.window, c.strstart, hist)
    && Conserves(c.out + c.pending, c.biValid, hist, c.Left(), done)
    && |c.pending| <= c.pendingBufSize
  }

  /** Output is only added, and fills the room that is used. */
  ghost predicate Outputs(c: Store, d: Store) {
    c.out <= d.out && |d.out| + d.availOut == |c.out| + c.availOut
  }

  /** flush_pending. */
  function FlushPending(c: Store): Store {
    var n := Min(|c.pending|, c.availOut);
    c.(out := c.out + c.pending[..n], pending := c.pending[n..], availOut := c.availOut - n)
  }

  lemma FlushPendingValid(c: Store, hist: seq<Byte>, done: bool)
    requires Valid(c, hist, done)
    ensures Valid(FlushPending(c), hist, done)
    ensures FlushPending(c).availOut > 0 ==> FlushPending(c).pending == []
    ensures Outputs(c, FlushPending(c))
  {
    hide Conserves, Recent;
    var d := FlushPending(c);
    assert d.out + d.pending == c.out + c.pending;
  }

  // ----- blocks copied straight to next_out -----

  /** One stored block of `len` bytes written directly: what is left in the window first, then input. */
  function EmitDirect(c: Store, len: nat, last: bool): (d: Store)
    requires Shape(c) && len <= MAX_STORED && len <= c.Left() + |c.nextIn| && c.HeaderSize() + len <= c.availOut
    ensures Shape(d) && Taken(c, len) <= |c.nextIn|
    ensures d == c.(out := d.out, biValid := 0, blockStart := c.blockStart + (len - Taken(c, len)),
                    nextIn := c.nextIn[Taken(c, len)..], availOut := c.availOut - c.HeaderSize() - len)
  {
    var l := Min(c.Left(), len);
    c.(out := c.out + c.NextHeader(last, len) + Octets(c.window[c.blockStart..c.blockStart + l])
      + Octets(c.nextIn[..len - l]),
       biValid := 0,
       blockStart := c.blockStart + l,
       nextIn := c.nextIn[len - l..],
       availOut := c.availOut - c.HeaderSize() - len)
  }

  /** Input that EmitDirect reads. */
  function Taken(c: Store, len: nat): nat
    requires c.blockStart <= c.strstart
  {
    len - Min(c.Left(), len)
  }

  lemma EmitDirectOutputs(c: Store, len: nat, last: bool)
    requires Shape(c) && len <= MAX_STORED && len <= c.Left() + |c.nextIn| && c.HeaderSize() + len <= c.availOut
    ensures Outputs(c, EmitDirect(c, len, last))
  {}

  lemma EmitDirectConserves(c: Store, hist: seq<Byte>, len: nat, last: bool)
    requires Shape(c) && Conserves(c.out, c.biValid, hist, c.Left(), false)
    requires c.Left() == 0 || Recent(c.window, c.strstart, hist)
    requires len <= MAX_STORED && len <= c.Left() + |c.nextIn| && c.HeaderSize() + len <= c.availOut
    ensures var d := EmitDirect(c, len, last);
      Conserves(d.out, d.biValid, hist + c.nextIn[..Taken(c, len)], d.Left(), last)
  {
    hide Parse, Octets, Header, Recent, Recorded;
    var l := Min(c.Left(), len);
    var kept, read := c.window[c.blockStart..c.blockStart + l], c.nextIn[..len - l];
    var data := kept + read;
    var x := hist[..|hist| - c.Left()];
    OctetsConcat(kept, read);
    var h := c.NextHeader(last, len);
    assert EmitDirect(c, len, last).out == c.out + h + Octets(data);
    StreamAppend(c.out, x, (c.biValid + 10) / 8 - 1, last, data);
    RecordedMore(c.out, c.biValid, x, Stored(last, data));
    assert c.out + h + Octets(data) == c.out + (h + Octets(data));
    WindowTail(c, hist, l);
    MovedOn(hist, c.Left(), l, read);
  }

  /** The window's share and the input's share of a block continue the input already sent. */
  lemma MovedOn(hist: seq<Byte>, left: nat, l: nat, read: seq<Byte>)
    requires l <= left <= |hist| && (l < left ==> read == [])
    ensures left - l <= |hist + read|
    ensures hist[..|hist| - left] + (hist[|hist| - left..][..l] + read) == (hist + read)[..|hist + read| - (left - l)]
  {
    var n := |hist| - left;
    assert hist[..n] + hist[n..][..l] == hist[..n + l];
    assert hist[..n] + (hist[n..][..l] + read) == hist[..n + l] + read;
  }

  lemma OctetsConcat(a: seq<Byte>, b: seq<Byte>)
    ensures Octets(a + b) == Octets(a) + Octets(b)
  {}

  lemma WindowTail(c: Store, hist: seq<Byte>, l: nat)
    requires c.blockStart <= c.strstart <= |c.window| && l <= c.Left() <= |hist|
    requires c.Left() == 0 || Recent(c.window, c.strstart, hist)
    ensures c.window[c.blockStart..c.blockStart + l] == hist[|hist| - c.Left()..][..l]
  {
    if c.Left() > 0 {
      SliceWithin(c.window, c.strstart, c.blockStart, l);
      SliceOfSlice(hist, |hist| - c.strstart, c.blockStart);
    }
  }

  lemma SliceWithin(s: seq<Byte>, n: nat, a: nat, l: nat)
    requires a + l <= n <= |s|
    ensures s[a..a + l] == s[..n][a..][..l]
  {}

  lemma SliceOfSlice(s: seq<Byte>, a: nat, b: nat)
    requires a + b <= |s|
    ensures s[a..][b..] == s[a + b..]
  {}

  lemma TakeMore(hist: seq<Byte>, input: seq<Byte>, used: nat, n: nat)
    requires used + n <= |input|
    ensures input[used..][n..] == input[used + n..]
    ensures hist + input[..used] + input[used..][..n] == hist + input[..used + n]
  {
    assert input[..used] + input[used..][..n] == input[..used + n];
  }

  /** Copies as many worthwhile blocks as possible from the window and next_in directly to next_out. */
  method CopyDirect(c: Store, ghost hist: seq<Byte>, flush: Flush) returns (d: Store, last: bool, used: nat)
    requires Valid(c, hist, false) && c.pending == []
    ensures used <= |c.nextIn|
    ensures d == c.(out := d.out, biValid := d.biValid, blockStart := d.blockStart, nextIn := c.nextIn[used..],
                    availOut := d.availOut)
    ensures Shape(d) && Conserves(d.out, d.biValid, hist + c.nextIn[..used], d.Left(), last)
    ensures used > 0 ==> d.Left() == 0
    ensures last ==> flush.Finish?
    ensures last && |c.nextIn| < WORD ==> (d.Unsent() == 0 <==> !c.EndsEarly(flush))
    ensures c.EndsEarly(flush) ==> last && d.Unsent() >= WORD
    ensures !last ==> d.Stuck(flush)
    ensures (c.Counted() ==> d.Counted()) && Outputs(c, d)
  {
    hide Conserves, Recent, Shape, Store.EndsEarly, Store.Unsent, Store.Stuck, Outputs;
    OutputsSelf(c);
    var minBlock := c.MinBlock() by { ShapeBounds(c); }
    d, last, used := c, false, 0;
    var more := true;
    assert c.out + c.pending == c.out && hist + c.nextIn[..0] == hist && c.nextIn[0..] == c.nextIn;
    while !last && more
      invariant used <= |c.nextIn|
      invariant d == c.(out := d.out, biValid := d.biValid, blockStart := d.blockStart, nextIn := c.nextIn[used..],
                        availOut := d.availOut)
      invariant Shape(d) && d.blockStart <= d.strstart
      invariant Conserves(d.out, d.biValid, hist + c.nextIn[..used], d.Left(), last)
      invariant used > 0 ==> d.Left() == 0
      invariant Outputs(c, d) && d.pendingBufSize >= 512 && (!more ==> !last && d.Stuck(flush))
      invariant d.Unsent() <= c.Unsent()
      invariant last ==> flush.Finish?
      invariant |c.nextIn| < WORD && !c.EndsEarly(flush) ==> if last then d.Unsent() == 0 else !d.EndsEarly(flush)
      invariant c.EndsEarly(flush) ==> (d == c && !last && more) || (last && d.Unsent() >= WORD)
      decreases d.availOut, more
    {
      ghost var h := hist + c.nextIn[..used];
      assert used == 0 ==> h == hist;
      var n;
      ghost var d0 := d;
      d, last, n, more := CopyBlock(d, h, flush, minBlock);
      OutputsTrans(c, d0, d);
      TakeMore(hist, c.nextIn, used, n);
      used := used + n;
    }
  }

  lemma OutputsSelf(c: Store)
    ensures Outputs(c, c)
  {}

  lemma OutputsTrans(c: Store, d: Store, e: Store)
    requires Outputs(c, d) && Outputs(d, e)
    ensures Outputs(c, e)
  {}

  lemma ShapeBounds(c: Store)
    requires Shape(c)
    ensures c.pendingBufSize >= 512 && c.blockStart <= c.strstart
  {}

  /** One round of the copying loop: `more` is false when no block is worth writing. */
  method CopyBlock(c: Store, ghost hist: seq<Byte>, flush: Flush, minBlock: nat)
      returns (d: Store, last: bool, n: nat, more: bool)
    requires Shape(c) && Conserves(c.out, c.biValid, hist, c.Left(), false)
    requires (c.Left() == 0 || Recent(c.window, c.strstart, hist)) && minBlock == c.MinBlock()
    ensures (more <==> !c.Stuck(flush)) && (!more ==> !last) && Outputs(c, d)
    ensures n <= |c.nextIn| && Shape(d) && (more ==> d.availOut < c.availOut) && (!more ==> d == c)
    ensures d == c.(out := d.out, biValid := d.biValid, blockStart := d.blockStart, nextIn := c.nextIn[n..],
      availOut := d.availOut)
    ensures Conserves(d.out, d.biValid, hist + c.nextIn[..n], d.Left(), last)
    ensures n > 0 || c.Left() == 0 ==> d.Left() == 0
    ensures d.Unsent() <= c.Unsent() && (last ==> flush.Finish?)
    ensures last ==> (d.Unsent() == 0 <==> !c.EndsEarly(flush))
    ensures c.EndsEarly(flush) ==> last && d.Unsent() >= WORD
    ensures |c.nextIn| < WORD && !c.EndsEarly(flush) && !last ==> !d.EndsEarly(flush)
  {
    hide Conserves, Recent, Store.Sum, Store.BlockLength, Store.Counted, Outputs, EmitDirect;
    OutputsSelf(c);
    NotCounted(c, flush);
    d, last, n, more := c, false, 0, false;
    assert c.nextIn[0..] == c.nextIn && hist + c.nextIn[..0] == hist;
    if c.availOut < c.HeaderSize() {
      return;
    }
    var len := c.BlockLength();
    if len < minBlock && ((len == 0 && !flush.Finish?) || flush.NoFlush? || len != c.Sum()) {
      return;
    }
    last := flush.Finish? && len == c.Sum();
    EmitDirectConserves(c, hist, len, last);
    n := Taken(c, len);
    d, more := EmitDirect(c, len, last), true;
    EmitDirectOutputs(c, len, last);
    AfterBlock(c, d, flush, last);
  }

  lemma NotCounted(c: Store, flush: Flush)
    requires c.blockStart <= c.strstart
    ensures c.EndsEarly(flush) ==>
      flush.Finish? && !c.Counted() && c.HeaderSize() <= c.availOut && c.BlockLength() == c.Sum() < c.Unsent()
  {}

  /** What a block that is written directly leaves unsent. */
  lemma AfterBlock(c: Store, d: Store, flush: Flush, last: bool)
    requires Shape(c) && c.HeaderSize() <= c.availOut && last == (flush.Finish? && c.BlockLength() == c.Sum())
    requires d == EmitDirect(c, c.BlockLength(), last)
    ensures d.Unsent() <= c.Unsent() && d.availOut < c.availOut
    ensures last ==> (d.Unsent() == 0 <==> !c.EndsEarly(flush))
    ensures c.EndsEarly(flush) ==> last && d.Unsent() >= WORD
    ensures |c.nextIn| < WORD && !c.EndsEarly(flush) && !last ==> !d.EndsEarly(flush)
  {
    hide EmitDirect, Store.Sum, Store.BlockLength, Store.Counted;
    SumIs(c);
    assert d.Unsent() == c.Unsent() - c.BlockLength();
    if flush.Finish? && c.BlockLength() != c.Sum() && |c.nextIn| < WORD {
      NotEarlyAfter(c, d);
    }
  }

  /** After a block that is not the last one the rest can be counted, or there is no room for another. */
  lemma NotEarlyAfter(c: Store, d: Store)
    requires Shape(c) && |c.nextIn| < WORD && c.HeaderSize() <= c.availOut && c.BlockLength() != c.Sum()
    requires d.blockStart <= d.strstart && d.Unsent() == c.Unsent() - c.BlockLength()
    requires d.availOut == c.availOut - c.HeaderSize() - c.BlockLength()
    ensures d.Counted() || d.availOut < d.HeaderSize()
  {
    if !c.Counted() {
      assert c.Sum() == c.Unsent() - WORD < c.Left() <= MAX_STORED;
    }
  }

  lemma SumIs(c: Store)
    requires c.blockStart <= c.strstart
    ensures c.Sum() <= c.Unsent() && (c.Counted() <==> c.Sum() == c.Unsent())
    ensures !c.Counted() ==> c.Unsent() - c.Sum() >= WORD
  {}

  /**
    With some output room a finishing call ends early if and only if the bytes to be sent cannot be counted in 32 bits.
    The input that a caller supplies always can, so it is what waits in the window that makes the sum wrap.
   */
  lemma EarlyEnd(c: Store)
    requires Shape(c) && |c.nextIn| < WORD
    ensures (exists room: nat :: c.(availOut := room).EndsEarly(Finish)) <==> !c.Counted()
  {
    if !c.Counted() {
      assert c.Sum() == c.Unsent() - WORD < c.Left() <= MAX_STORED;
      assert c.(availOut := c.HeaderSize() + c.Sum()).EndsEarly(Finish);
    }
  }

  /** 1000 bytes in the window, the longest possible input, and room for a block of 999 bytes. */
  lemma EarlyEndExample(c: Store)
    requires Shape(c) && c.Left() == 1000 && |c.nextIn| == 0xffff_ffff && c.availOut == c.HeaderSize() + 999
    ensures c.EndsEarly(Finish)
  {}

  // ----- the window -----

  /** Moves the upper half of the window down, as far as strstart. */
  function SlideDown(c: Store): Store
    requires |c.window| == 2 * c.wSize && c.wSize <= c.strstart <= 2 * c.wSize
  {
    var n := c.strstart - c.wSize;
    c.(window := c.window[c.wSize..c.strstart] + c.window[n..], strstart := n)
  }

  lemma SlideDownRecent(c: Store, hist: seq<Byte>)
    requires |c.window| == 2 * c.wSize && c.wSize <= c.strstart <= 2 * c.wSize && Recent(c.window, c.strstart, hist)
    ensures var d := SlideDown(c); |d.window| == 2 * c.wSize && Recent(d.window, d.strstart, hist)
  {
    var d := SlideDown(c);
    assert d.window[..d.strstart] == c.window[..c.strstart][c.wSize..];
    assert hist[|hist| - c.strstart..][c.wSize..] == hist[|hist| - d.strstart..];
  }

  /** Puts `data` in the window at strstart. */
  function Append(c: Store, data: seq<Byte>): Store
    requires c.strstart + |data| <= |c.window|
  {
    var n := c.strstart + |data|;
    c.(window := c.window[..c.strstart] + data + c.window[n..], strstart := n)
  }

  lemma AppendRecent(c: Store, hist: seq<Byte>, data: seq<Byte>)
    requires c.strstart + |data| <= |c.window| && Recent(c.window, c.strstart, hist)
    ensures var d := Append(c, data); |d.window| == |c.window| && Recent(d.window, d.strstart, hist + data)
  {
    var d, all := Append(c, data), hist + data;
    assert d.window[..d.strstart] == c.window[..c.strstart] + data;
    assert all[|all| - d.strstart..] == hist[|hist| - c.strstart..] + data;
  }

  /** Records input that was copied directly as recent history. */
  function KeepRecent(c: Store, copied: seq<Byte>): Store
    requires Shape(c)
  {
    var w := c.wSize;
    var d :=
      if |copied| >= w then
        c.(window := copied[|copied| - w..] + c.window[w..], strstart := w)
      else if 2 * w - c.strstart <= |copied| then
        Append(SlideDown(c), copied)
      else
        Append(c, copied);
    d.(blockStart := d.strstart)
  }

  lemma KeepRecentRecent(c: Store, hist: seq<Byte>, copied: seq<Byte>)
    requires Shape(c) && Recent(c.window, c.strstart, hist)
    ensures var d := KeepRecent(c, copied); Shape(d) && Recent(d.window, d.strstart, hist + copied)
  {
    hide SlideDown, Append;
    var w := c.wSize;
    if |copied| >= w {
      var all := hist + copied;
      assert all[|all| - w..] == copied[|copied| - w..];
      assert KeepRecent(c, copied).window[..w] == copied[|copied| - w..];
    } else if 2 * w - c.strstart <= |copied| {
      SlideDownRecent(c, hist);
      SlideDownSize(c);
      AppendRecent(SlideDown(c), hist, copied);
      AppendSize(SlideDown(c), copied);
    } else {
      AppendRecent(c, hist, copied);
      AppendSize(c, copied);
    }
  }

  lemma SlideDownSize(c: Store)
    requires |c.window| == 2 * c.wSize && c.wSize <= c.strstart <= 2 * c.wSize
    ensures var d := SlideDown(c); d == c.(window := d.window, strstart := c.strstart - c.wSize)
  {}

  lemma AppendSize(c: Store, data: seq<Byte>)
    requires c.strstart + |data| <= |c.window|
    ensures var d := Append(c, data); d == c.(window := d.window, strstart := c.strstart + |data|)
  {}

  /** Slides the window if the remaining input needs the room and nothing unwritten is lost. */
  function MakeRoom(c: Store): Store
    requires Shape(c)
  {
    if |c.nextIn| > 2 * c.wSize - c.strstart - 1 && c.blockStart >= c.wSize
    then SlideDown(c).(blockStart := c.blockStart - c.wSize)
    else c
  }

  /** Reads remaining input into the window, which never fills up completely. */
  function ReadRest(c: Store): Store
    requires Shape(c)
  {
    var n := Min(2 * c.wSize - c.strstart - 1, |c.nextIn|);
    Append(c, c.nextIn[..n]).(nextIn := c.nextIn[n..])
  }

  lemma MakeRoomValid(c: Store, hist: seq<Byte>)
    requires Shape(c) && Recent(c.window, c.strstart, hist)
    ensures var d := MakeRoom(c);
      && d == c.(window := d.window, strstart := d.strstart, blockStart := d.blockStart)
      && Shape(d) && Recent(d.window, d.strstart, hist) && d.Left() == c.Left()
  {
    hide SlideDown, Recent;
    if MakeRoom(c) != c {
      SlideDownRecent(c, hist);
      SlideDownSize(c);
    }
  }

  lemma ConservesGrows(stream: seq<Unit>, bits: nat, hist: seq<Byte>, left: nat, more: seq<Byte>, done: bool)
    requires Conserves(stream, bits, hist, left, done)
    ensures Conserves(stream, bits, hist + more, left + |more|, done)
  {
    hide Parse, Recorded;
    assert (hist + more)[..|hist| - left] == hist[..|hist| - left];
  }

  lemma ReadRestValid(c: Store, hist: seq<Byte>)
    requires Shape(c) && Recent(c.window, c.strstart, hist)
    requires Conserves(c.out + c.pending, c.biValid, hist, c.Left(), false)
    ensures var n := Min(2 * c.wSize - c.strstart - 1, |c.nextIn|);
      var d, h := ReadRest(c), hist + c.nextIn[..n];
      && d == c.(window := d.window, strstart := c.strstart + n, nextIn := c.nextIn[n..])
      && h + d.nextIn == hist + c.nextIn
      && Shape(d) && Recent(d.window, d.strstart, h) && Conserves(d.out + d.pending, d.biValid, h, d.Left(), false)
  {
    hide Append, Recent, Conserves;
    var n := Min(2 * c.wSize - c.strstart - 1, |c.nextIn|);
    AppendRecent(c, hist, c.nextIn[..n]);
    AppendSize(c, c.nextIn[..n]);
    ConservesGrows(c.out + c.pending, c.biValid, hist, c.Left(), c.nextIn[..n], false);
    assert hist + c.nextIn[..n] + c.nextIn[n..] == hist + c.nextIn;
  }

  // ----- a block through the pending buffer -----

  /** A stored block of `len` bytes from the window, appended to the pending buffer. */
  function EmitPending(c: Store, len: nat, last: bool): Store
    requires Shape(c) && len <= c.Left() && len <= MAX_STORED
  {
    c.(pending := c.pending + c.NextHeader(last, len) + Octets(c.window[c.blockStart..c.blockStart + len]),
       biValid := 0, blockStart := c.blockStart + len)
  }

  lemma EmitPendingConserves(c: Store, hist: seq<Byte>, len: nat, last: bool)
    requires Shape(c) && Recent(c.window, c.strstart, hist) && len <= c.Left() && len <= MAX_STORED
    requires Conserves(c.out + c.pending, c.biValid, hist, c.Left(), false)
    ensures var d := EmitPending(c, len, last); Conserves(d.out + d.pending, d.biValid, hist, d.Left(), last)
  {
    hide Parse, Header, Octets, Recorded;
    var data, h := c.window[c.blockStart..c.blockStart + len], c.NextHeader(last, len);
    var x := hist[..|hist| - c.Left()];
    StreamAppend(c.out + c.pending, x, (c.biValid + 10) / 8 - 1, last, data);
    RecordedMore(c.out + c.pending, c.biValid, x, Stored(last, data));
    assert c.out + (c.pending + h + Octets(data)) == (c.out + c.pending) + h + Octets(data)
      == (c.out + c.pending) + (h + Octets(data));
    WindowTail(c, hist, len);
    assert x + hist[|hist| - c.Left()..][..len] == hist[..|hist| - (c.Left() - len)];
  }

  /** A call that has not run out of room has done what it was asked for. */
  predicate Served(c: Store, flush: Flush, finished: bool)
    requires c.blockStart <= c.strstart
  {
    c.nextIn == [] && (!flush.NoFlush? ==> c.Left() == 0) && (finished <==> flush.Finish?)
  }

  lemma HeaderIs(c: Store)
    ensures forall last, len: nat :: len <= MAX_STORED ==> |c.NextHeader(last, len)| == c.HeaderSize()
    ensures forall data :: |Octets(data)| == |data|
  {}

  /** What is in the window is worth a block, or is asked for. */
  predicate Emits(c: Store, flush: Flush)
    requires Shape(c)
  {
    var have := Min(c.pendingBufSize - c.HeaderSize(), MAX_STORED);
    || c.Left() >= Min(have, c.wSize)
    || ((c.Left() != 0 || flush.Finish?) && !flush.NoFlush? && c.nextIn == [] && c.Left() <= have)
  }

  /** A block through the pending buffer fills the room, if none could be written directly, or takes all the input. */
  lemma EmitFills(c: Store, flush: Flush)
    requires Shape(c) && c.Stuck(flush) && (c.nextIn == [] || c.Left() >= c.wSize)
    ensures c.Counted() ==> var len := Min(c.Left(), Min(c.pendingBufSize - c.HeaderSize(), MAX_STORED));
      if Emits(c, flush) then c.HeaderSize() + len >= c.availOut || (flush.NoFlush? && c.nextIn == [])
      else c.nextIn == [] && !flush.Finish? && (flush.NoFlush? || c.Left() == 0)
  {}

  /** The remaining input goes to the window, as far as there is space. */
  method FillRest(c: Store, ghost hist: seq<Byte>, flush: Flush) returns (d: Store, ghost h: seq<Byte>)
    requires Valid(c, hist, false) && c.pending == [] && c.Stuck(flush)
    ensures Valid(d, h, false) && d.pending == [] && h + d.nextIn == hist + c.nextIn && hist <= h
    ensures d.Stuck(flush) && d.Counted() == c.Counted() && d.availOut == c.availOut && d.out == c.out && Shape(d)
    ensures d.Unsent() == c.Unsent()
    ensures d.nextIn == [] || d.Left() >= d.wSize
  {
    hide Conserves, Recent, ReadRest, SlideDown, Store.Stuck, Store.Counted;
    MakeRoomValid(c, hist);
    d := MakeRoom(c);
    ReadRestValid(d, hist);
    h := hist + d.nextIn[..Min(2 * d.wSize - d.strstart - 1, |d.nextIn|)];
    d := ReadRest(d);
    StillStuck(c, d, flush);
  }

  /** The second half of deflate_stored: the remaining input goes to the window, and a block of it to the pending
      buffer if it is worthwhile or a flush asks for it. */
  method StoreRest(c: Store, ghost hist: seq<Byte>, flush: Flush) returns (d: Store, last: bool, ghost h: seq<Byte>)
    requires Valid(c, hist, false) && c.pending == [] && c.Stuck(flush)
    ensures Valid(d, h, last)
    ensures h + d.nextIn == hist + c.nextIn && hist <= h
    ensures last ==> flush.Finish? && d.nextIn == [] && d.Left() == 0
    ensures c.Counted() && d.availOut > 0 ==> Served(d, flush, last) && !flush.Finish?
    ensures (d.availOut > 0 ==> d.pending == []) && Outputs(c, d)
    ensures c.Counted() && !flush.NoFlush? && c.Unsent() > 0 ==> d.availOut == 0
  {
    hide Valid, Emits, Store.Stuck, Store.Counted;
    d, h := FillRest(c, hist, flush);
    EmitFills(d, flush);
    last := false;
    if Emits(d, flush) {
      d, last := EmitRest(d, h, flush);
    }
  }

  /** A block from the window to the pending buffer, and on to the output as far as there is room. */
  method EmitRest(c: Store, ghost hist: seq<Byte>, flush: Flush) returns (d: Store, last: bool)
    requires Valid(c, hist, false) && c.pending == []
    ensures Valid(d, hist, last) && d.nextIn == c.nextIn
    ensures var len := Min(c.Left(), Min(c.pendingBufSize - c.HeaderSize(), MAX_STORED));
      && last == (flush.Finish? && c.nextIn == [] && len == c.Left()) && d.Left() == c.Left() - len
      && d.availOut == c.availOut - Min(c.availOut, c.HeaderSize() + len)
    ensures (d.availOut > 0 ==> d.pending == []) && Outputs(c, d)
  {
    hide Conserves, Recent, Header, Octets;
    HeaderIs(c);
    var have, left := Min(c.pendingBufSize - c.HeaderSize(), MAX_STORED), c.Left();
    var len := Min(left, have);
    last := flush.Finish? && c.nextIn == [] && len == left;
    EmitPendingConserves(c, hist, len, last);
    d := EmitPending(c, len, last);
    FlushPendingValid(d, hist, last);
    d := FlushPending(d);
  }

  /** deflate_stored: writes what it can, and keeps the rest in the window or the pending buffer. */
  method Compress(c: Store, ghost hist: seq<Byte>, flush: Flush)
      returns (d: Store, r: BlockState, ghost h: seq<Byte>)
    requires Valid(c, hist, false) && c.pending == []
    ensures Valid(d, h, r.FinishStarted? || r.FinishDone?)
    ensures h + d.nextIn == hist + c.nextIn && hist <= h
    ensures r.FinishStarted? || r.FinishDone? ==> flush.Finish?
    ensures (r.FinishStarted? || r.FinishDone?) && |c.nextIn| < WORD ==> (d.Unsent() == 0 <==> !c.EndsEarly(flush))
    ensures c.EndsEarly(flush) ==> r.FinishDone? && d.pending == [] && d.Unsent() >= WORD
    ensures r.BlockDone? ==> !flush.NoFlush? && !flush.Finish? && d.nextIn == [] && d.Left() == 0 && d.pending == []
    ensures c.Counted() && d.availOut > 0 ==> Served(d, flush, r.FinishDone?) && !r.FinishStarted?
    ensures c.Counted() && d.availOut > 0 && !flush.NoFlush? ==> !r.NeedMore?
    ensures Outputs(c, d) && (r.FinishDone? || d.availOut > 0 ==> d.pending == [])
  {
    hide Conserves, Recent, KeepRecent, Store.Stuck, Store.Counted, Store.EndsEarly;
    ghost var d0;
    var last, used;
    d, last, used := CopyDirect(c, hist, flush);
    d0 := d;
    h := hist + c.nextIn[..used];
    assert h + c.nextIn[used..] == hist + c.nextIn;
    assert d.out + d.pending == d.out;
    if used > 0 {
      KeepRecentRecent(d, hist, c.nextIn[..used]);
      KeepRecentFrame(d, c.nextIn[..used]);
      d := KeepRecent(d, c.nextIn[..used]);
    } else {
      assert h == hist;
    }
    StillStuck(d0, d, flush);
    if last {
      if c.Counted() {
        CountedIsNotEarly(c, flush);
      }
      return d, FinishDone, h;
    }
    if !flush.NoFlush? && !flush.Finish? && d.nextIn == [] && d.Left() == 0 {
      return d, BlockDone, h;
    }
    d, last, h := StoreRest(d, h, flush);
    r := if last then FinishStarted else NeedMore;
  }

  lemma StillStuck(c: Store, d: Store, flush: Flush)
    requires Shape(c) && Shape(d) && c.Unsent() == d.Unsent()
    requires d == c.(window := d.window, strstart := d.strstart, blockStart := d.blockStart, nextIn := d.nextIn)
    ensures (c.Stuck(flush) <==> d.Stuck(flush)) && (c.Counted() <==> d.Counted())
  {}

  lemma CountedIsNotEarly(c: Store, flush: Flush)
    requires c.blockStart <= c.strstart && c.Counted()
    ensures !c.EndsEarly(flush) && |c.nextIn| < WORD
  {}

  lemma KeepRecentFrame(c: Store, copied: seq<Byte>)
    requires Shape(c)
    ensures var d := KeepRecent(c, copied);
      d == c.(window := d.window, strstart := d.strstart, blockStart := d.strstart)
  {}

  // ----- what deflate() appends after a completed flush -----

  /** _tr_align: an empty static block; only the bytes it fills are visible here. */
  function Align(c: Store): Store {
    c.(pending := c.pending + seq((c.biValid + 10) / 8, _ => Pad), biValid := (c.biValid + 10) % 8)
  }

  /** The marker of a completed flush; a full flush also forgets the window. */
  function FlushMarker(c: Store, flush: Flush): Store
    requires Shape(c)
  {
    if flush.PartialFlush? then Align(c)
    else if flush.BlockFlush? then c
    else
      var d := EmitPending(c, 0, false);
      if flush.FullFlush? then d.(strstart := 0, blockStart := 0) else d
  }

  /** The stream ends with an empty stored block and nothing in the bit buffer: the mark that inflateSync looks for. */
  predicate SyncMarked(c: Store) {
    var u := c.out + c.pending;
    c.biValid == 0 && |u| >= 5 && u[|u| - 5..] == [Mark(false), Octet(0), Octet(0), Octet(255), Octet(255)]
  }

  lemma AlignConserves(c: Store, hist: seq<Byte>)
    requires Conserves(c.out + c.pending, c.biValid, hist, 0, false)
    ensures Conserves(Align(c).out + Align(c).pending, Align(c).biValid, hist, 0, false)
  {
    hide Parse, Recorded;
    var u, pads := c.out + c.pending, seq((c.biValid + 10) / 8, _ => Pad);
    ParseMorePads(u, hist[..|hist|], (c.biValid + 10) / 8);
    RecordedMore(u, c.biValid, hist[..|hist|], Aligned);
    assert c.out + (c.pending + pads) == u + pads;
  }

  lemma FlushMarkerValid(c: Store, hist: seq<Byte>, flush: Flush)
    requires Valid(c, hist, false) && c.Left() == 0 && c.pending == []
    ensures Valid(FlushMarker(c, flush), hist, false) && FlushMarker(c, flush).nextIn == c.nextIn
    ensures FlushMarker(c, flush).Left() == 0
    ensures FlushMarker(c, flush).strstart == if flush.FullFlush? then 0 else c.strstart
    ensures flush.SyncFlush? || flush.FullFlush? ==> SyncMarked(FlushMarker(c, flush))
  {
    hide Conserves;
    if flush.PartialFlush? {
      AlignConserves(c, hist);
    } else if !flush.BlockFlush? {
      EmitPendingConserves(c, hist, 0, false);
    }
    assert c.window[..0] == hist[|hist|..];
    MarkerShows(c, flush);
  }

  lemma MarkerShows(c: Store, flush: Flush)
    requires Shape(c)
    ensures flush.SyncFlush? || flush.FullFlush? ==> SyncMarked(FlushMarker(c, flush))
  {
    if flush.SyncFlush? || flush.FullFlush? {
      var d := FlushMarker(c, flush);
      var pads := seq((c.biValid + 10) / 8 - 1, _ => Pad);
      var mark := [Mark(false), Octet(0), Octet(0), Octet(255), Octet(255)];
      assert d.out + d.pending == c.out + c.pending + pads + mark;
    }
  }

  /** A marker is written as far as there is room. */
  lemma FlushMarkerOutputs(c: Store, d: Store, flush: Flush)
    requires Shape(d) && Outputs(c, d)
    ensures Outputs(c, FlushPending(FlushMarker(d, flush)))
  {
    hide Header, Octets;
  }
}

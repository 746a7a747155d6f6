/** The deflate() entry point at compression level 0, over every sequence of calls. */
module StoredStream {
  import opened Lz77
  import opened StoredFormat
  import opened DeflateCore
  import opened Deflate
  import DeflateStored

  class Storer {
    var store: DeflateStored.Store
    var lastRank: int
    var finished: bool

    /** All input read so far, and all input ever supplied. */
    ghost var hist: seq<Byte>
    ghost var supplied: seq<Byte>

    ghost predicate Valid()
      reads this
    {
      DeflateStored.Valid(store, hist, finished) && supplied == hist + store.nextIn
    }

    constructor (wide: bool, wSize: nat, pendingBufSize: nat)
      requires wSize in {512, 1024, 2048, 4096, 8192, 16384, 32768} && pendingBufSize >= 512
      ensures Valid() && supplied == [] && !finished && store.out == [] && lastRank == 0
    {
      store := DeflateStored.Store(wide, wSize, pendingBufSize, seq(2 * wSize, _ => 0), 0, 0, 0, [], 0, [], []);
      lastRank, finished, hist, supplied := 0, false, [], [];
      RecordedNothing();
    }

    /** The state in which a call starts to compress: with more input and the room that pending output leaves. */
    function Given(call: Call): DeflateStored.Store
      reads this`store
    {
      DeflateStored.FlushPending(store.(nextIn := store.nextIn + call.chunk, availOut := call.room))
    }

    /** There is nothing to do for a call: no input, no output, and no flush that has not been done. */
    predicate Idles(call: Call)
      reads this
    {
      && store.pending == [] && store.nextIn + call.chunk == []
      && Rank(call.flush) <= lastRank && !call.flush.Finish?
    }

    /**
      deflate() at level 0. A call whose input, together with what waits in the window, is too long to be counted in 32
      bits can report the end of the stream with most of it unsent; if avail_in itself fits, no other finishing call
      leaves anything unsent. A call whose input can be counted sends all of it, if a flush is asked for, and finishes
      the stream, if that is asked for, unless it fills its room.
     */
    method Deflate(call: Call) returns (code: Code)
      requires Valid()
      modifies this
      ensures Valid() && supplied == old(supplied) + call.chunk
      ensures old(!finished && Given(call).EndsEarly(call.flush)) ==>
        code.StreamEnd? && store.Unsent() >= DeflateStored.WORD
      ensures old(hist) <= hist
      ensures old(finished) ==> finished && hist == old(hist) && store.Left() == old(store.Left())
      ensures finished && !old(finished) ==> call.flush.Finish?
      ensures finished && !old(finished) && old(|Given(call).nextIn|) < DeflateStored.WORD ==>
        (store.Unsent() == 0 <==> !old(Given(call).EndsEarly(call.flush)))
      ensures code.StreamEnd? ==> finished && store.pending == []
      ensures old(store).out <= store.out && |store.out| + store.availOut == |old(store).out| + call.room
      ensures code.StreamError? <==> old(finished) && !call.flush.Finish?
      ensures !old(finished) ==> (code.BufError? <==> call.room == 0 || old(Idles(call)))
      ensures code.Ok? ==> lastRank == if store.availOut == 0 then -2 else Rank(call.flush)
      ensures !old(finished) && !code.BufError? && store.availOut > 0 ==> store.pending == []
      ensures old(!finished && Given(call).Counted()) && !code.BufError? && store.availOut > 0 ==>
        DeflateStored.Served(store, call.flush, finished) && (call.flush.Finish? ==> code.StreamEnd?)
      ensures old(!finished && Given(call).Counted()) && code.Ok? ==>
        store.availOut == 0 || !(call.flush.SyncFlush? || call.flush.FullFlush?) || DeflateStored.SyncMarked(store)
    {
      hide DeflateStored.Valid, DeflateStored.Store.EndsEarly, DeflateStored.Store.Unsent, DeflateStored.FlushPending;
      hide DeflateStored.Store.Counted, DeflateStored.SyncMarked;
      GivenValid(store, hist, finished, store.nextIn + call.chunk, call.room);
      store := store.(nextIn := store.nextIn + call.chunk, availOut := call.room);
      EarlyNeeds(store, call.flush);
      FlushPendingInput(store, hist, finished);
      supplied := supplied + call.chunk;
      assert supplied == hist + store.nextIn;
      if finished && !call.flush.Finish? {
        return StreamError;
      }
      if store.availOut == 0 {
        return BufError;
      }
      var oldRank := lastRank;
      lastRank := Rank(call.flush);
      code := Work(call.flush, oldRank);
    }

    /** The rest of deflate(): pending output first, then compression. */
    method Work(flush: Flush, oldRank: int) returns (code: Code)
      requires Valid() && (finished ==> flush.Finish?) && store.availOut > 0 && lastRank == Rank(flush)
      modifies this`store, this`hist, this`finished, this`lastRank
      ensures Valid() && old(hist) <= hist
      ensures old(finished) ==> finished && hist == old(hist) && store.Left() == old(store.Left())
      ensures finished && !old(finished) ==> flush.Finish?
      ensures finished && !old(finished) && |old(store).nextIn| < DeflateStored.WORD ==>
        (store.Unsent() == 0 <==> !DeflateStored.FlushPending(old(store)).EndsEarly(flush))
      ensures code.StreamEnd? ==> finished && store.pending == []
      ensures !old(finished) && DeflateStored.FlushPending(old(store)).EndsEarly(flush) ==>
        code.StreamEnd? && store.Unsent() >= DeflateStored.WORD
      ensures DeflateStored.Outputs(old(store), store) && !code.StreamError?
      ensures !old(finished) ==> (code.BufError? <==>
        old(store).pending == [] && old(store).nextIn == [] && Rank(flush) <= oldRank && !flush.Finish?)
      ensures code.Ok? ==> lastRank == if store.availOut == 0 then -2 else Rank(flush)
      ensures !old(finished) && !code.BufError? && store.availOut > 0 ==> store.pending == []
      ensures !old(finished) && DeflateStored.FlushPending(old(store)).Counted() ==>
        code.BufError? || store.availOut == 0
        || (DeflateStored.Served(store, flush, finished) && (flush.Finish? ==> code.StreamEnd?))
      ensures !old(finished) && DeflateStored.FlushPending(old(store)).Counted() && code.Ok? ==>
        store.availOut == 0 || !(flush.SyncFlush? || flush.FullFlush?) || DeflateStored.SyncMarked(store)
    {
      hide DeflateStored.Valid, DeflateStored.Store.EndsEarly, DeflateStored.Store.Unsent, DeflateStored.FlushPending;
      hide DeflateStored.Outputs, DeflateStored.Served, DeflateStored.Store.Counted, DeflateStored.SyncMarked;
      DeflateStored.OutputsSelf(store);
      ValidOrder(store, hist, finished);
      EarlyNeeds(store, flush);
      NothingPending(store);
      FlushPendingInput(store, hist, finished);
      if store.pending != [] {
        DeflateStored.FlushPendingValid(store, hist, finished);
        store := DeflateStored.FlushPending(store);
        if store.availOut == 0 {
          lastRank := -2;
          return Ok;
        }
      } else if store.nextIn == [] && Rank(flush) <= oldRank && !flush.Finish? {
        return BufError;
      }
      if finished && store.nextIn != [] {
        return BufError;
      }
      if store.nextIn != [] || (!flush.NoFlush? && !finished) {
        ghost var mid := store;
        var goOn := Continue(flush);
        DeflateStored.OutputsTrans(old(store), mid, store);
        if !goOn {
          lastRank := if store.availOut == 0 then -2 else lastRank;
          return Ok;
        }
      } else if !finished {
        NothingToDo(store, flush, finished);
      }
      if !flush.Finish? {
        return Ok;
      }
      return StreamEnd;
    }

    /** Runs deflate_stored and, after a completed flush, appends its marker; false when deflate() returns at once. */
    method Continue(flush: Flush) returns (goOn: bool)
      requires Valid() && !finished && store.pending == [] && store.availOut > 0
      modifies this`store, this`hist, this`finished
      ensures Valid() && old(hist) <= hist
      ensures finished ==> flush.Finish?
      ensures finished && |old(store).nextIn| < DeflateStored.WORD ==>
        (store.Unsent() == 0 <==> !old(store).EndsEarly(flush))
      ensures old(store).EndsEarly(flush) ==>
        goOn && finished && store.pending == [] && store.Unsent() >= DeflateStored.WORD
      ensures DeflateStored.Outputs(old(store), store) && (store.availOut > 0 ==> store.pending == [])
      ensures goOn ==> finished == flush.Finish? && store.pending == [] && (!finished ==> store.availOut > 0)
      ensures old(store).Counted() && store.availOut > 0 ==> DeflateStored.Served(store, flush, finished)
      ensures old(store).Counted() && store.availOut > 0 && flush.Finish? ==> goOn
      ensures old(store).Counted() && store.availOut > 0 && (flush.SyncFlush? || flush.FullFlush?) ==>
        DeflateStored.SyncMarked(store)
    {
      hide DeflateStored.Conserves, DeflateStored.Recent, DeflateStored.FlushMarker, DeflateStored.FlushPending;
      hide DeflateStored.Outputs, DeflateStored.Store.Counted, DeflateStored.SyncMarked;
      hide DeflateStored.Store.EndsEarly;
      var d, r;
      ghost var h;
      d, r, h := DeflateStored.Compress(store, hist, flush);
      finished := r.FinishStarted? || r.FinishDone?;
      goOn := !r.NeedMore? && !r.FinishStarted?;
      if r.BlockDone? {
        ghost var mid := d;
        DeflateStored.FlushMarkerValid(d, h, flush);
        d := DeflateStored.FlushMarker(d, flush);
        DeflateStored.FlushPendingValid(d, h, false);
        FlushPendingInput(d, h, false);
        DeflateStored.FlushMarkerOutputs(store, mid, flush);
        StillMarked(d);
        d := DeflateStored.FlushPending(d);
        goOn := d.availOut != 0;
      }
      store, hist := d, h;
    }
  }

  lemma StillMarked(c: DeflateStored.Store)
    ensures DeflateStored.SyncMarked(c) ==> DeflateStored.SyncMarked(DeflateStored.FlushPending(c))
  {
    var d := DeflateStored.FlushPending(c);
    assert d.out + d.pending == c.out + c.pending;
  }

  lemma NothingToDo(c: DeflateStored.Store, flush: Flush, finished: bool)
    requires c.blockStart <= c.strstart && !finished && flush.NoFlush? && c.nextIn == []
    ensures DeflateStored.Served(c, flush, finished)
  {}

  lemma EarlyNeeds(c: DeflateStored.Store, flush: Flush)
    requires c.blockStart <= c.strstart
    ensures var d := DeflateStored.FlushPending(c);
      d.EndsEarly(flush) ==> flush.Finish? && c.availOut > 0 && d.availOut > 0
  {}

  lemma NothingPending(c: DeflateStored.Store)
    ensures c.pending == [] ==> DeflateStored.FlushPending(c) == c
  {
    if c.pending == [] {
      assert c.out + c.pending[..0] == c.out && c.pending[0..] == c.pending;
    }
  }

  lemma ValidOrder(c: DeflateStored.Store, hist: seq<Byte>, done: bool)
    requires DeflateStored.Valid(c, hist, done)
    ensures c.blockStart <= c.strstart
  {}

  lemma GivenValid(c: DeflateStored.Store, hist: seq<Byte>, done: bool, nextIn: seq<Byte>, room: nat)
    requires DeflateStored.Valid(c, hist, done)
    ensures c.blockStart <= c.strstart && DeflateStored.Valid(c.(nextIn := nextIn, availOut := room), hist, done)
  {
    hide DeflateStored.Conserves, DeflateStored.Recent;
  }

  lemma FlushPendingInput(c: DeflateStored.Store, hist: seq<Byte>, done: bool)
    requires DeflateStored.Valid(c, hist, done)
    ensures var d := DeflateStored.FlushPending(c);
      && d.nextIn == c.nextIn && d.blockStart == c.blockStart <= c.strstart == d.strstart
      && (d.availOut > 0 ==> d.pending == [])
  {
    hide DeflateStored.Conserves, DeflateStored.Recent;
  }

  /**
    Over every sequence of calls the stream decodes to all input read, less what waits in the window. Its final block
    is its only last one. A stream that the call before `finishedAt` has finished decodes to all input supplied by then
    if and only if that call, which started to compress in the state `start`, did not end early; this as long as
    avail_in always fitted its 32 bits.
   */
  method Session(wide: bool, wSize: nat, pendingBufSize: nat, calls: seq<Call>)
      returns (stream: seq<Unit>, bits: nat, waiting: seq<Byte>, unread: seq<Byte>, finished: bool, finishedAt: nat,
               start: DeflateStored.Store, fits: bool, codes: seq<Code>, left: seq<nat>)
    requires wSize in {512, 1024, 2048, 4096, 8192, 16384, 32768} && pendingBufSize >= 512
    ensures Parse(stream).Some? && Recorded(stream, bits)
    ensures Parse(stream).value.data + waiting + unread == AllInput(calls)
    ensures Parse(stream).value.done == finished
    ensures finished ==>
      && 0 < finishedAt <= |calls| && start.blockStart <= start.strstart
      && start.availOut <= calls[finishedAt - 1].room && start.Unsent() <= |AllInput(calls[..finishedAt])|
    ensures finished && fits ==>
      (Parse(stream).value.data == AllInput(calls[..finishedAt]) <==> !start.EndsEarly(Finish))
    ensures |AllInput(calls)| < DeflateStored.WORD ==> fits && (finished ==> !start.EndsEarly(Finish))
    ensures |codes| == |left| == |calls| && 0 <= Filled(calls, left) <= |stream|
    ensures |AllInput(calls)| < DeflateStored.WORD ==>
      forall i :: 0 <= i < |calls| && calls[i].flush.Finish? && calls[i].room > 0 ==>
        left[i] == 0 || (finished && finishedAt <= i + 1)
  {
    hide Parse, Recorded, DeflateStored.Valid, DeflateStored.Store.EndsEarly, Filled, Finished;
    var s;
    s, finishedAt, start, fits, codes, left := Calls(wide, wSize, pendingBufSize, calls);
    assert calls[..|calls|] == calls;
    var c := s.store;
    WaitingIsTail(c, s.hist, s.finished);
    stream, bits, finished := c.out + c.pending, c.biValid, s.finished;
    waiting, unread := c.window[c.blockStart..c.strstart], c.nextIn;
    if finished {
      FinishedIs(s.store, s.hist, calls, finishedAt, start, fits);
      if |AllInput(calls)| < DeflateStored.WORD {
        NotEarly(start);
      }
    }
  }

  /** The calls, one after the other. */
  method Calls(wide: bool, wSize: nat, pendingBufSize: nat, calls: seq<Call>)
      returns (s: Storer, finishedAt: nat, start: DeflateStored.Store, fits: bool, codes: seq<Code>, left: seq<nat>)
    requires wSize in {512, 1024, 2048, 4096, 8192, 16384, 32768} && pendingBufSize >= 512
    ensures fresh(s) && s.Valid() && s.supplied == AllInput(calls)
    ensures s.finished ==> Finished(s.store, s.hist, calls, finishedAt, start, fits) && finishedAt <= |calls|
    ensures s.finished ==> |AllInput(calls[..finishedAt])| <= |AllInput(calls)|
    ensures |AllInput(calls)| < DeflateStored.WORD ==> fits
    ensures Tracked(calls, |calls|, s.store, s.finished, finishedAt, codes, left)
  {
    hide DeflateStored.Valid, DeflateStored.FlushPending, DeflateStored.Store.EndsEarly, DeflateStored.Store.Counted,
      DeflateStored.Store.Unsent, DeflateStored.Served, Finished, Tracked;
    s := new Storer(wide, wSize, pendingBufSize);
    finishedAt, fits, start, codes, left := 0, true, s.store, [], [];
    TrackedNone(calls, s.store);
    for i := 0 to |calls|
      invariant s.Valid() && fresh(s) && s.supplied == AllInput(calls[..i])
      invariant s.finished ==> Finished(s.store, s.hist, calls, finishedAt, start, fits) && finishedAt <= i
      invariant |AllInput(calls[..i])| < DeflateStored.WORD ==> fits
      invariant s.finished ==> |AllInput(calls[..finishedAt])| <= |AllInput(calls[..i])|
      invariant Tracked(calls, i, s.store, s.finished, finishedAt, codes, left)
    {
      assert calls[..i + 1][..i] == calls[..i];
      GivenIs(s.store, s.hist, s.finished, calls[i]);
      AllInputMore(calls, i);
      ghost var fitted := fits;
      fits := fits && |s.store.nextIn + calls[i].chunk| < DeflateStored.WORD;
      if !s.finished {
        start := s.Given(calls[i]);
      }
      var was := s.finished;
      ghost var c, h := s.store, s.hist;
      var code := s.Deflate(calls[i]);
      ValidOrder(s.store, s.hist, s.finished);
      TrackedMore(calls, i, c, s.store, start, was, s.finished, finishedAt, codes, left, code);
      codes, left := codes + [code], left + [s.store.availOut];
      if s.finished && !was {
        finishedAt := i + 1;
        FinishedNow(s.store, s.hist, calls, finishedAt, start, fits);
      } else if s.finished {
        FinishedStill(c, s.store, h, calls, finishedAt, start, fitted, fits);
      }
    }
    assert calls[..|calls|] == calls;
  }

  /** The output of the calls so far, and whether those that were to finish have done so. */
  ghost predicate Tracked(calls: seq<Call>, i: nat, c: DeflateStored.Store, finished: bool, finishedAt: nat,
                          codes: seq<Code>, left: seq<nat>)
  {
    && i <= |calls| && |codes| == |left| == i && |c.out| == Filled(calls[..i], left)
    && (|AllInput(calls[..i])| < DeflateStored.WORD ==> Finishing(calls[..i], codes, left, finished, finishedAt))
  }

  lemma TrackedNone(calls: seq<Call>, c: DeflateStored.Store)
    requires c.out == []
    ensures Tracked(calls, 0, c, false, 0, [], [])
  {}

  lemma TrackedMore(calls: seq<Call>, i: nat, c: DeflateStored.Store, d: DeflateStored.Store,
                    start: DeflateStored.Store, was: bool, finished: bool, finishedAt: nat, codes: seq<Code>,
                    left: seq<nat>, code: Code)
    requires i < |calls| && Tracked(calls, i, c, was, finishedAt, codes, left) && (was ==> finished && finishedAt <= i)
    requires |d.out| + d.availOut == |c.out| + calls[i].room && d.blockStart <= d.strstart
    requires !was ==> start.blockStart <= start.strstart && start.Unsent() <= |AllInput(calls[..i + 1])|
    requires !was && start.Counted() && !code.BufError? && d.availOut > 0 ==>
      DeflateStored.Served(d, calls[i].flush, finished)
    requires !was && code.BufError? ==> calls[i].room == 0 || !calls[i].flush.Finish?
    requires code.StreamEnd? ==> finished
    ensures Tracked(calls, i + 1, d, finished, if finished && !was then i + 1 else finishedAt, codes + [code],
                    left + [d.availOut])
  {
    hide Filled, Finishing;
    FilledMore(calls, i, left, d.availOut);
    AllInputMore(calls, i);
    if |AllInput(calls[..i + 1])| < DeflateStored.WORD {
      FinishingMore(calls, i, codes, left, was, finishedAt, code, d.availOut, finished);
    }
  }

  lemma AllInputMore(calls: seq<Call>, i: nat)
    requires i < |calls|
    ensures AllInput(calls[..i + 1]) == AllInput(calls[..i]) + calls[i].chunk
  {
    assert calls[..i + 1][..i] == calls[..i];
  }

  lemma FilledMore(calls: seq<Call>, i: nat, left: seq<nat>, room: nat)
    requires i < |calls| && |left| == i
    ensures Filled(calls[..i + 1], left + [room]) == Filled(calls[..i], left) + calls[i].room - room
  {
    assert calls[..i + 1][..i] == calls[..i] && (left + [room])[..i] == left;
  }

  /** A stream finished by the call before `at`, which started to compress in the state `start`. */
  ghost predicate Finished(c: DeflateStored.Store, hist: seq<Byte>, calls: seq<Call>, at: nat,
                           start: DeflateStored.Store, fits: bool) {
    && 0 < at <= |calls| && start.blockStart <= start.strstart && start.availOut <= calls[at - 1].room
    && start.Unsent() <= |AllInput(calls[..at])|
    && c.blockStart <= c.strstart && c.Left() <= |hist|
    && (fits ==> (hist[..|hist| - c.Left()] == AllInput(calls[..at]) <==> !start.EndsEarly(Finish)))
  }

  lemma FinishedIs(c: DeflateStored.Store, hist: seq<Byte>, calls: seq<Call>, at: nat, start: DeflateStored.Store,
                   fits: bool)
    requires Finished(c, hist, calls, at, start, fits)
    ensures 0 < at <= |calls| && start.blockStart <= start.strstart && start.availOut <= calls[at - 1].room
    ensures start.Unsent() <= |AllInput(calls[..at])| && c.blockStart <= c.strstart && c.Left() <= |hist|
    ensures fits ==> (hist[..|hist| - c.Left()] == AllInput(calls[..at]) <==> !start.EndsEarly(Finish))
  {}

  /** Later calls change nothing about it. */
  lemma FinishedStill(c: DeflateStored.Store, d: DeflateStored.Store, hist: seq<Byte>, calls: seq<Call>, at: nat,
                      start: DeflateStored.Store, fits: bool, fits': bool)
    requires Finished(c, hist, calls, at, start, fits) && d.blockStart <= d.strstart && d.Left() == c.Left()
    requires fits' ==> fits
    ensures Finished(d, hist, calls, at, start, fits')
  {}

  lemma FinishedNow(c: DeflateStored.Store, hist: seq<Byte>, calls: seq<Call>, at: nat, start: DeflateStored.Store,
                    fits: bool)
    requires DeflateStored.Valid(c, hist, true) && 0 < at <= |calls| && hist + c.nextIn == AllInput(calls[..at])
    requires start.blockStart <= start.strstart && start.availOut <= calls[at - 1].room
    requires start.Unsent() <= |AllInput(calls[..at])|
    requires fits ==> (c.Unsent() == 0 <==> !start.EndsEarly(Finish))
    ensures Finished(c, hist, calls, at, start, fits)
  {
    hide DeflateStored.Store.EndsEarly;
    var sent := hist[..|hist| - c.Left()];
    if c.Unsent() == 0 {
      assert sent == hist + c.nextIn;
    } else {
      assert |sent| < |hist + c.nextIn|;
    }
  }

  lemma GivenIs(c: DeflateStored.Store, hist: seq<Byte>, done: bool, call: Call)
    requires DeflateStored.Valid(c, hist, done)
    ensures var d := DeflateStored.FlushPending(c.(nextIn := c.nextIn + call.chunk, availOut := call.room));
      && d.nextIn == c.nextIn + call.chunk && d.availOut <= call.room && d.blockStart <= d.strstart
      && d.Unsent() <= |hist| + |c.nextIn| + |call.chunk|
  {
    hide Parse;
  }

  lemma NotEarly(c: DeflateStored.Store)
    requires c.blockStart <= c.strstart && c.Unsent() < DeflateStored.WORD
    ensures !c.EndsEarly(Finish)
  {}

  lemma WaitingIsTail(c: DeflateStored.Store, hist: seq<Byte>, done: bool)
    requires DeflateStored.Valid(c, hist, done)
    ensures c.blockStart <= c.strstart <= |c.window| && c.Left() <= |hist|
    ensures Parse(c.out + c.pending) == Some(Parsed(hist[..|hist| - c.Left()], done))
    ensures Parse(c.out + c.pending).value.data + c.window[c.blockStart..c.strstart] == hist
    ensures Recorded(c.out + c.pending, c.biValid)
  {
    hide Parse, Recorded;
    DeflateStored.WindowTail(c, hist, c.Left());
    assert hist[|hist| - c.Left()..][..c.Left()] == hist[|hist| - c.Left()..];
  }
}

/**
  The deflate() entry point at compression levels 1 to 9: calls with arbitrary chunks of input, output room and flush
  values, and what holds over every sequence of them.
 */
module Deflate {
  import opened Lz77
  import opened BitArith
  import opened DeflateHash
  import opened DeflateDict
  import opened DeflateCore
  import DeflateFast
  import DeflateSlow

  datatype Code = Ok | StreamEnd | StreamError | BufError

  /** The order in which repeated flush requests are compared. */
  function Rank(f: Flush): int {
    match f
    case NoFlush => 0
    case PartialFlush => 2
    case SyncFlush => 4
    case FullFlush => 6
    case Finish => 8
    case BlockFlush => 1
  }

  /** The values of zlib.h. */
  function FlushValue(f: Flush): nat {
    match f
    case NoFlush => 0
    case PartialFlush => 1
    case SyncFlush => 2
    case FullFlush => 3
    case Finish => 4
    case BlockFlush => 5
  }

  /** The macro RANK; a flush value of -1, which stands for an interrupted call, has rank -2. */
  lemma RankIs(f: Flush)
    ensures Rank(f) == FlushValue(f) * 2 - (if FlushValue(f) > 4 then 9 else 0)
    ensures Rank(f) > 0 <==> !f.NoFlush?
  {}

  /** A call to deflate: more input, output room, and a flush value. */
  datatype Call = Call(chunk: seq<Byte>, room: nat, flush: Flush)

  function AllInput(calls: seq<Call>): seq<Byte> {
    if calls == [] then [] else AllInput(calls[..|calls| - 1]) + calls[|calls| - 1].chunk
  }

  /** lm_init for a new stream: an empty window and empty tables. */
  function InitialCore(p: Params): Core {
    Core(p, seq(2 * p.wSize, _ => 0), seq(Pow2(p.hashBits), _ => 0), seq(p.wSize, _ => 0),
         0, 0, 0, 0, 0, 0, 0, MIN_MATCH - 1, MIN_MATCH - 1, false, [], 0, [], [], 0, 0, 0)
  }

  ghost function InitialPast(p: Params): Past {
    Past(HashTable(p.hashBits), [], [], 0, {}, 0, 0)
  }

  lemma InitialBetween(p: Params)
    requires p.Valid()
    ensures DeflateFast.Between(InitialCore(p), InitialPast(p))
    ensures DeflateSlow.Between(InitialCore(p), InitialPast(p))
  {
    hide Sound, IsTable;
    HashTableSound(p.hashBits);
    assert IsTable(p.hashBits, InitialPast(p).next);
    assert |HashTable(p.hashBits)| == Pow2(p.hashBits);
  }

  /** Z_FULL_FLUSH: CLEAR_HASH, and the window starts over when nothing is left in it. */
  function ForgetHistory(c: Core): Core {
    var d := c.(head := seq(|c.head|, _ => 0));
    if c.lookahead == 0 then d.(strstart := 0, blockStart := 0, insert := 0) else d
  }

  ghost function Forgotten(c: Core, g: Past): Past {
    g.(base := |g.hist|, ins := {}, origin := |g.hist|, first := |c.blocks|)
  }

  lemma ForgetReady(c: Core, g: Past)
    requires Ready(c, g) && c.lookahead == 0 && c.syms == [] && Coded(c, g, Here(c, g))
    ensures var d, k := ForgetHistory(c), Forgotten(c, g);
      Ready(d, k) && Coded(d, k, Here(d, k)) && Here(d, k) == Here(c, g)
  {
    hide KeysHold, HashReady;
    var d, k := ForgetHistory(c), Forgotten(c, g);
    assert g.hist[..g.base + c.blockStart] == g.hist[..Here(c, g)];
    assert g.base + c.blockStart == Here(c, g) == |g.hist|;
    assert Keyed(d, k);
    assert Windowed(d, k);
    assert Dictionary(d, k).Shape();
  }

  /** The invariant of a stream between calls, as a predicate on its parts. */
  ghost predicate StreamOk(level: nat, c: Core, g: Past, finished: bool) {
    && (if level <= 3 then DeflateFast.Between(c, g) else DeflateSlow.Between(c, g))
    && (if finished then EndsWithLast(c.blocks) && c.lookahead == 0 && c.syms == [] && Withheld(level, c) == 0
        else NoLast(c.blocks))
  }

  /** Bytes before strstart that no symbol covers: only lazy matching holds one back. */
  function Withheld(level: nat, c: Core): nat {
    if level <= 3 then 0 else DeflateSlow.Held(c)
  }

  /** What the emitted symbols mean: the flushed blocks followed by the buffered symbols expand to the input read so
      far, less the lookahead and the byte lazy matching withholds. */
  lemma StreamDecodes(level: nat, c: Core, g: Past, finished: bool)
    requires StreamOk(level, c, g, finished)
    ensures var n := |g.hist| - c.lookahead - Withheld(level, c);
      && 0 <= n <= |g.hist|
      && ExpandBlocks(c.blocks).Some?
      && ExpandBlocks(c.blocks).value <= g.hist
      && Expand(ExpandBlocks(c.blocks).value, c.syms) == Some(g.hist[..n])
    ensures if finished then EndsWithLast(c.blocks) && ExpandBlocks(c.blocks) == Some(g.hist) && c.syms == []
            else NoLast(c.blocks)
  {
    hide Sane, HashAt, Afresh;
    assert g.hist[..|g.hist|] == g.hist;
  }

  /** What a decoder makes of the blocks since history was last forgotten, and only of them: the input since then. */
  lemma RestartDecodes(level: nat, c: Core, g: Past, finished: bool)
    requires StreamOk(level, c, g, finished)
    ensures var n := |g.hist| - c.lookahead - Withheld(level, c);
      && g.origin <= n <= |g.hist| && g.first <= |c.blocks|
      && ExpandBlocks(c.blocks[g.first..]).Some?
      && Expand(ExpandBlocks(c.blocks[g.first..]).value, c.syms) == Some(g.hist[g.origin..n])
    ensures finished ==> ExpandBlocks(c.blocks[g.first..]) == Some(g.hist[g.origin..])
  {
    hide Sane, HashAt;
    var n := |g.hist| - c.lookahead - Withheld(level, c);
    assert g.hist[g.origin..][..n - g.origin] == g.hist[g.origin..n];
    if finished {
      assert g.hist[g.origin..|g.hist|] == g.hist[g.origin..];
      assert Expand(ExpandBlocks(c.blocks[g.first..]).value, []) == ExpandBlocks(c.blocks[g.first..]);
    }
  }

  /** Nothing is buffered: every byte that was read is in some block. */
  predicate Idle(level: nat, c: Core) {
    c.syms == [] && c.lookahead == 0 && Withheld(level, c) == 0
  }

  /** What an earlier call with this rank has left: after a flush nothing is buffered. */
  predicate Settled(level: nat, c: Core, rank: int) {
    (rank > 0 ==> Idle(level, c)) && (rank >= 0 ==> c.lookahead < MIN_LOOKAHEAD)
  }

  /** A call that has not run out of room has done what it was asked for. */
  predicate Served(level: nat, c: Core, flush: Flush, finished: bool) {
    && c.pending == 0 && c.nextIn == [] && c.lookahead < MIN_LOOKAHEAD && (!flush.NoFlush? ==> Idle(level, c))
    && (finished <==> flush.Finish?)
  }

  /** A marker that ends a flush, and how many blocks were sent before it. */
  datatype Marker = Align(after: nat) | EmptyStored(after: nat)

  /** The flushes that end with a marker. */
  predicate Marking(flush: Flush) {
    flush.PartialFlush? || flush.SyncFlush? || flush.FullFlush?
  }

  /** The marker of a flush. */
  function MarkerOf(flush: Flush, after: nat): seq<Marker> {
    if flush.PartialFlush? then [Align(after)]
    else if Marking(flush) then [EmptyStored(after)]
    else []
  }

  class Deflater {
    const level: nat
    var core: Core
    var lastRank: int
    var finished: bool
    /** The markers that have been sent. */
    var marks: seq<Marker>

    /** How the state came about, and all input ever supplied. */
    ghost var past: Past
    ghost var supplied: seq<Byte>

    ghost predicate Valid()
      reads this
    {
      && 1 <= level <= 9
      && StreamOk(level, core, past, finished)
      && supplied == past.hist + core.nextIn
      && Settled(level, core, lastRank)
      && Balanced(core) && core.puts == |core.blocks| + |marks|
    }

    constructor (level: nat, wSize: nat, hashBits: nat, litBufsize: nat, filtered: bool, size: nat -> nat)
      requires 1 <= level <= 9 && wSize in {512, 1024, 2048, 4096, 8192, 16384, 32768}
      requires ValidBits(hashBits) && 2 <= litBufsize <= LIT_BUFSIZE_MAX
      ensures Valid() && this.level == level && supplied == [] && !finished
      ensures core.p.size == size && core.written == 0 && core.blocks == [] && marks == []
      ensures past.origin == 0 && past.first == 0
    {
      var p := Params(wSize, hashBits, Configuration(level), filtered, litBufsize, size);
      InitialBetween(p);
      this.level := level;
      core, lastRank, finished, marks := InitialCore(p), 0, false, [];
      past, supplied := InitialPast(p), [];
    }

    /** All input is coded, and nothing that is coded later will refer to it. */
    ghost predicate Restarted()
      reads this
    {
      core.nextIn == [] && past.origin == |past.hist| && past.first == |core.blocks|
    }

    /** There is nothing to do for a call: no input, no output, and no flush that has not been done. */
    predicate Idles(call: Call)
      reads this
    {
      && core.pending == 0 && core.nextIn + call.chunk == []
      && Rank(call.flush) <= lastRank && !call.flush.Finish?
    }

    /**
      deflate(): consumes input from `call.chunk` and what earlier calls left unread, after writing what earlier output
      still waits. Unless it fills its room, it codes all the input, down to the last byte if a flush is asked for, and
      finishes the stream if that is asked for.
     */
    method Deflate(call: Call) returns (code: Code)
      requires Valid()
      modifies this
      ensures Valid() && supplied == old(supplied) + call.chunk && core.p == old(core.p)
      ensures old(past.hist) <= past.hist && old(core.blocks) <= core.blocks
      ensures core.written + core.availOut == old(core.written) + call.room && old(core.written) <= core.written
      ensures old(finished) ==> finished && core.blocks == old(core.blocks) && past.hist == old(past.hist)
      ensures finished && !old(finished) ==> call.flush.Finish? && core.nextIn == []
      ensures code.StreamError? <==> old(finished) && !call.flush.Finish?
      ensures !old(finished) && call.room > 0 && core.availOut > 0 ==> Served(level, core, call.flush, finished)
      ensures code.StreamEnd? <==>
        finished && call.flush.Finish? && call.room > 0 && core.availOut > 0 && core.nextIn == []
      ensures code.StreamEnd? ==> core.pending == 0
      ensures old(finished) && call.flush.Finish? && call.room > 0 && core.availOut > 0 ==> core.pending == 0
      ensures marks == old(marks) || marks == old(marks) + MarkerOf(call.flush, |core.blocks|)
      ensures marks != old(marks) ==> core.nextIn == [] && Idle(level, core)
      ensures Marking(call.flush) && core.availOut > 0 && code.Ok? ==> marks != old(marks)
      ensures code.BufError? ==> core.blocks == old(core.blocks) && past.hist == old(past.hist)
      ensures !old(finished) ==> (code.BufError? <==> call.room == 0 || old(Idles(call)))
      ensures code.Ok? ==> lastRank == if core.availOut == 0 then -2 else Rank(call.flush)
      ensures past.origin != old(past.origin) || past.first != old(past.first) ==> call.flush.FullFlush? && Restarted()
      ensures call.flush.FullFlush? && core.availOut > 0 && code.Ok? ==> Restarted()
    {
      hide StreamOk, Total, NoLast, EndsWithLast, Withheld;
      core := core.(nextIn := core.nextIn + call.chunk, availOut := call.room);
      supplied := supplied + call.chunk;
      assert supplied == past.hist + core.nextIn;
      SameStream(level, old(core), past, finished, core);
      if finished && !call.flush.Finish? {
        return StreamError;
      }
      if core.availOut == 0 {
        return BufError;
      }
      var oldRank := lastRank;
      lastRank := Rank(call.flush);
      if core.pending != 0 {
        WritePending();
        if core.availOut == 0 {
          lastRank := -2;
          return Ok;
        }
      } else if core.nextIn == [] && Rank(call.flush) <= oldRank && !call.flush.Finish? {
        return BufError;
      }
      if finished && core.nextIn != [] {
        return BufError;
      }
      code := Proceed(call.flush);
    }

    /** The second half of deflate(), once nothing waits for room any more. */
    method Proceed(flush: Flush) returns (code: Code)
      requires 1 <= level <= 9 && StreamOk(level, core, past, finished) && supplied == past.hist + core.nextIn
      requires Balanced(core) && Drained(core) && core.availOut > 0 && core.puts == |core.blocks| + |marks|
      requires lastRank == Rank(flush) && (finished ==> flush.Finish? && core.nextIn == [])
      modifies this`core, this`past, this`finished, this`lastRank, this`marks
      ensures Valid() && core.p == old(core.p)
      ensures old(past.hist) <= past.hist && old(core.blocks) <= core.blocks
      ensures core.written + core.availOut == old(core.written + core.availOut) && old(core.written) <= core.written
      ensures old(finished) ==> finished && core.blocks == old(core.blocks) && past.hist == old(past.hist)
      ensures finished && !old(finished) ==> flush.Finish? && core.nextIn == []
      ensures core.availOut > 0 ==> core.pending == 0 && core.nextIn == [] && (finished <==> flush.Finish?)
      ensures core.availOut > 0 && !old(finished) ==> Served(level, core, flush, finished)
      ensures code == if finished && core.availOut > 0 then StreamEnd else Ok
      ensures marks == old(marks) || marks == old(marks) + MarkerOf(flush, |core.blocks|)
      ensures marks != old(marks) ==> core.nextIn == [] && Idle(level, core)
      ensures Marking(flush) && core.availOut > 0 ==> marks != old(marks)
      ensures code.Ok? ==> lastRank == if core.availOut == 0 then -2 else Rank(flush)
      ensures past.origin != old(past.origin) || past.first != old(past.first) ==> flush.FullFlush? && Restarted()
      ensures flush.FullFlush? && core.availOut > 0 ==> Restarted()
    {
      hide StreamOk, Total, NoLast, EndsWithLast, Withheld;
      FinishedIsIdle(level, core, past, finished);
      if core.nextIn != [] || core.lookahead != 0 || (!flush.NoFlush? && !finished) {
        var state := CompressSome(flush);
        if state.NeedMore? || state.FinishStarted? {
          lastRank := if core.availOut == 0 then -2 else lastRank;
          return Ok;
        }
        if state.BlockDone? {
          EndFlush(flush);
          if core.availOut == 0 {
            lastRank := -2;
            return Ok;
          }
        }
      }
      if !flush.Finish? {
        return Ok;
      }
      return StreamEnd;
    }

    /** flush_pending. */
    method WritePending()
      requires StreamOk(level, core, past, finished) && Balanced(core)
      modifies this`core
      ensures StreamOk(level, core, past, finished) && Balanced(core) && Drained(core)
      ensures core == old(core).(availOut := core.availOut, pending := core.pending, written := core.written)
      ensures core.written + core.availOut == old(core.written + core.availOut) && old(core.written) <= core.written
      ensures Withheld(level, core) == Withheld(level, old(core))
    {
      hide StreamOk;
      core := FlushPending(core);
      SameStream(level, old(core), past, finished, core);
    }

    /** The compression function of the level. */
    method CompressSome(flush: Flush) returns (state: BlockState)
      requires 1 <= level <= 9 && StreamOk(level, core, past, finished) && supplied == past.hist + core.nextIn
      requires !finished && Balanced(core) && Drained(core) && core.availOut > 0
      modifies this`core, this`past, this`finished
      ensures StreamOk(level, core, past, finished) && supplied == past.hist + core.nextIn
      ensures old(past.hist) <= past.hist && Outputs(old(core), core) && Returns(core, flush, state)
      ensures past.origin == old(past.origin) && past.first == old(past.first)
      ensures finished <==> state.FinishStarted? || state.FinishDone?
      ensures !state.NeedMore? ==> Idle(level, core)
    {
      if level <= 3 {
        core, state, past := DeflateFast.Compress(core, past, flush);
      } else {
        core, state, past := DeflateSlow.Compress(core, past, flush);
      }
      finished := state.FinishStarted? || state.FinishDone?;
    }

    /** A marker ends a completed flush, and a full flush forgets the history. */
    method EndFlush(flush: Flush)
      requires StreamOk(level, core, past, finished) && supplied == past.hist + core.nextIn && !finished
      requires Idle(level, core) && Balanced(core) && Drained(core) && !flush.NoFlush? && !flush.Finish?
      modifies this`core, this`past, this`marks
      ensures StreamOk(level, core, past, finished) && past.hist == old(past.hist)
      ensures Idle(level, core) && Balanced(core) && Drained(core) && core.p == old(core.p)
      ensures core.nextIn == old(core.nextIn) && core.blocks == old(core.blocks)
      ensures core.written + core.availOut == old(core.written + core.availOut) && old(core.written) <= core.written
      ensures marks == old(marks) + MarkerOf(flush, |core.blocks|)
      ensures core.puts - old(core.puts) == |marks| - |old(marks)|
      ensures if flush.FullFlush? then past.origin == |past.hist| && past.first == |core.blocks|
              else past.origin == old(past.origin) && past.first == old(past.first)
    {
      hide StreamOk;
      ghost var c := core;
      if flush.PartialFlush? {
        marks := marks + [Align(|core.blocks|)];
        core := Send(core);
        SameStream(level, c, past, finished, core);
      } else if !flush.BlockFlush? {
        marks := marks + [EmptyStored(|core.blocks|)];
        core := Send(core);
        SameStream(level, c, past, finished, core);
        if flush.FullFlush? {
          ForgetStream(level, core, past);
          core, past := ForgetHistory(core), Forgotten(core, past);
        }
      } else {
        WritePending();
      }
    }
  }

  lemma FinishedIsIdle(level: nat, c: Core, g: Past, finished: bool)
    requires StreamOk(level, c, g, finished)
    ensures finished ==> Idle(level, c)
  {}

  /** The invariant does not depend on the input to come and the output. */
  lemma SameStream(level: nat, c: Core, g: Past, finished: bool, d: Core)
    requires StreamOk(level, c, g, finished)
    requires d == c.(nextIn := d.nextIn, availOut := d.availOut, puts := d.puts, pending := d.pending,
                     written := d.written)
    ensures StreamOk(level, d, g, finished) && Withheld(level, d) == Withheld(level, c)
    ensures finished ==> Idle(level, d)
  {
    hide KeysHold, WindowHolds, HashReady, Dict.Ok, CodedAs, Afresh, Genuine;
  }

  lemma ForgetStream(level: nat, c: Core, g: Past)
    requires StreamOk(level, c, g, false) && c.lookahead == 0 && c.syms == [] && Withheld(level, c) == 0
    ensures StreamOk(level, ForgetHistory(c), Forgotten(c, g), false)
  {
    hide KeysHold, WindowHolds, HashReady, Dict.Ok, CodedAs, Afresh, Genuine;
    ForgetReady(c, g);
  }

  /** The bytes that the calls have written. */
  function Filled(calls: seq<Call>, left: seq<nat>): int
    requires |left| == |calls|
  {
    if calls == [] then 0
    else var n := |calls| - 1; Filled(calls[..n], left[..n]) + calls[n].room - left[n]
  }

  /**
    Over every sequence of calls, the blocks and then the buffered symbols decode to all the input supplied but for what
    is unread, the lookahead and the byte held back; and those since the last completed full flush decode by themselves
    to the input since then. Once the stream is finished the blocks decode to all the input
    supplied up to the finishing call, and exactly the final one is marked last. A call that is to finish finishes, or
    else fills its room with the output of the blocks and markers; a flush leaves nothing behind, or else fills its
    room.
   */
  method Session(level: nat, wSize: nat, hashBits: nat, litBufsize: nat, filtered: bool, size: nat -> nat,
                 calls: seq<Call>)
      returns (blocks: seq<Block>, syms: seq<Symbol>, unread: nat, lookahead: nat, held: nat, finished: bool,
               finishedAt: nat, marks: seq<Marker>, codes: seq<Code>, left: seq<nat>,
               ghost resumed: nat, ghost from: nat)
    requires 1 <= level <= 9 && wSize in {512, 1024, 2048, 4096, 8192, 16384, 32768}
    requires ValidBits(hashBits) && 2 <= litBufsize <= LIT_BUFSIZE_MAX
    ensures ExpandBlocks(blocks).Some? && held <= (if level <= 3 then 0 else 1)
    ensures unread + lookahead + held <= |AllInput(calls)|
    ensures Expand(ExpandBlocks(blocks).value, syms)
         == Some(AllInput(calls)[..|AllInput(calls)| - unread - lookahead - held])
    ensures finished ==> finishedAt <= |calls| && EndsWithLast(blocks) && syms == []
    ensures finished ==> ExpandBlocks(blocks) == Some(AllInput(calls[..finishedAt]))
    ensures !finished ==> NoLast(blocks)
    ensures |codes| == |left| == |calls| && 0 <= Filled(calls, left) <= Total(size, |blocks| + |marks|)
    ensures forall i :: 0 <= i < |calls| && calls[i].flush.Finish? && calls[i].room > 0 ==>
      left[i] == 0 || (finished && finishedAt <= i + 1)
    ensures forall i :: 0 <= i < |calls| && codes[i].StreamEnd? ==> finished && finishedAt <= i + 1
    ensures calls != [] && codes[|calls| - 1].StreamEnd? ==> Filled(calls, left) == Total(size, |blocks| + |marks|)
    ensures calls != [] && !finished && calls[|calls| - 1].room > 0 && left[|calls| - 1] > 0 ==>
      && unread == 0 && lookahead < MIN_LOOKAHEAD
      && (!calls[|calls| - 1].flush.NoFlush? ==> syms == [] && lookahead == 0 && held == 0)
    ensures forall i :: 0 <= i < |left| ==> left[i] <= calls[i].room
    ensures var n := |calls| - 1;
      n >= 0 && Marking(calls[n].flush) && left[n] > 0 && codes[n].Ok? ==>
        !finished && marks != [] && [marks[|marks| - 1]] == MarkerOf(calls[n].flush, |blocks|)
    ensures resumed <= |calls| && (resumed == 0 ==> from == 0)
    ensures resumed > 0 ==> calls[resumed - 1].flush.FullFlush?
    ensures forall i :: 0 <= i < |calls| && calls[i].flush.FullFlush? && left[i] > 0 && codes[i].Ok? ==> i < resumed
    ensures DecodesFrom(blocks, from, syms, AllInput(calls), |AllInput(calls[..resumed])|, unread + lookahead + held)
  {
    hide StreamOk, Expand, ExpandBlocks, NoLast, EndsWithLast, Withheld, Total, Filled, AllInput, DecodesFrom;
    var s;
    s, finishedAt, codes, left, resumed := Calls(level, wSize, hashBits, litBufsize, filtered, size, calls);
    from := s.past.first;
    StreamDecodes(level, s.core, s.past, s.finished);
    DecodesFromHere(level, s.core, s.past, s.finished);
    WithheldIs(level, s.core);
    blocks, syms, finished, marks := s.core.blocks, s.core.syms, s.finished, s.marks;
    unread, lookahead, held := |s.core.nextIn|, s.core.lookahead, Withheld(level, s.core);
    ghost var n := |s.past.hist| - lookahead - held;
    assert (s.past.hist + s.core.nextIn)[..n] == s.past.hist[..n];
  }

  /** The blocks from number `from` on, by themselves, and the buffered symbols decode to the input from `at` on. */
  ghost predicate DecodesFrom(blocks: seq<Block>, from: nat, syms: seq<Symbol>, input: seq<Byte>, at: nat, rest: nat) {
    && from <= |blocks| && at + rest <= |input| && ExpandBlocks(blocks[from..]).Some?
    && Expand(ExpandBlocks(blocks[from..]).value, syms) == Some(input[at..|input| - rest])
  }

  lemma DecodesFromHere(level: nat, c: Core, g: Past, finished: bool)
    requires StreamOk(level, c, g, finished)
    ensures DecodesFrom(c.blocks, g.first, c.syms, g.hist + c.nextIn, g.origin,
                        |c.nextIn| + c.lookahead + Withheld(level, c))
  {
    hide StreamOk, Expand, ExpandBlocks, Withheld;
    RestartDecodes(level, c, g, finished);
    var n := |g.hist| - c.lookahead - Withheld(level, c);
    assert (g.hist + c.nextIn)[g.origin..n] == g.hist[g.origin..n];
  }

  /** The calls, one after the other. */
  method Calls(level: nat, wSize: nat, hashBits: nat, litBufsize: nat, filtered: bool, size: nat -> nat,
               calls: seq<Call>)
      returns (s: Deflater, finishedAt: nat, codes: seq<Code>, left: seq<nat>, ghost resumed: nat)
    requires 1 <= level <= 9 && wSize in {512, 1024, 2048, 4096, 8192, 16384, 32768}
    requires ValidBits(hashBits) && 2 <= litBufsize <= LIT_BUFSIZE_MAX
    ensures fresh(s) && s.Valid() && s.level == level && s.supplied == AllInput(calls)
    ensures |codes| == |left| == |calls| && Spent(s.core, size, calls, left)
    ensures s.finished ==> finishedAt <= |calls| && s.past.hist == AllInput(calls[..finishedAt])
    ensures Finishing(calls, codes, left, s.finished, finishedAt)
    ensures Resumes(calls, |calls|, codes, left, s.past, resumed)
    ensures var n := |calls| - 1; n >= 0 ==> Last(level, s.core, s.marks, calls[n], codes[n], left[n], s.finished)
  {
    hide StreamOk, NoLast, EndsWithLast, Withheld, Total, Filled, Spent, Finishing, Settled, Balanced, Idle, Served;
    hide Last, Resumes, MarkerOf;
    s := new Deflater(level, wSize, hashBits, litBufsize, filtered, size);
    finishedAt, codes, left, resumed := 0, [], [], 0;
    assert calls[..0] == [];
    SpentNone(s.core, size);
    FinishingNone(finishedAt);
    ResumesNone(calls, s.past);
    for i := 0 to |calls|
      invariant fresh(s) && s.Valid() && s.level == level && s.supplied == AllInput(calls[..i])
      invariant |codes| == |left| == i && Spent(s.core, size, calls[..i], left)
      invariant s.finished ==> finishedAt <= i && s.past.hist == AllInput(calls[..finishedAt])
      invariant Finishing(calls[..i], codes, left, s.finished, finishedAt)
      invariant i > 0 ==> Last(level, s.core, s.marks, calls[i - 1], codes[i - 1], left[i - 1], s.finished)
      invariant Resumes(calls, i, codes, left, s.past, resumed)
    {
      assert calls[..i + 1][..i] == calls[..i];
      var was := s.finished;
      ghost var c, g, m := s.core, s.past, s.marks;
      var code := s.Deflate(calls[i]);
      LastIs(level, s.core, m, s.marks, calls[i], code, was, s.finished);
      resumed := ResumesMore(calls, i, codes, left, g, s.past, s.core, resumed, code);
      SpentMore(c, s.core, size, calls, i, left);
      FinishingMore(calls, i, codes, left, was, finishedAt, code, s.core.availOut, s.finished);
      if s.finished && !was {
        finishedAt := i + 1;
      }
      codes, left := codes + [code], left + [s.core.availOut];
    }
    assert calls[..|calls|] == calls;
  }

  lemma SpentNone(c: Core, size: nat -> nat)
    requires c.p.size == size && c.written == 0
    ensures Spent(c, size, [], [])
  {}

  lemma FinishingNone(finishedAt: nat)
    ensures Finishing([], [], [], false, finishedAt)
  {}

  /** History was last forgotten by the call before `resumed`, which was the last full flush that has been completed. */
  ghost predicate Resumes(calls: seq<Call>, i: nat, codes: seq<Code>, left: seq<nat>, g: Past, resumed: nat) {
    && resumed <= i <= |calls| && |codes| == |left| == i && g.origin == |AllInput(calls[..resumed])|
    && (if resumed == 0 then g.first == 0 else calls[resumed - 1].flush.FullFlush?)
    && forall j :: 0 <= j < i && calls[j].flush.FullFlush? && left[j] > 0 && codes[j].Ok? ==> j < resumed
  }

  lemma ResumesMore(calls: seq<Call>, i: nat, codes: seq<Code>, left: seq<nat>, g: Past, k: Past, d: Core, resumed: nat,
                    code: Code) returns (now: nat)
    requires i < |calls| && Resumes(calls, i, codes, left, g, resumed)
    requires k.hist + d.nextIn == AllInput(calls[..i + 1])
    requires (k.origin == g.origin && k.first == g.first)
      || (calls[i].flush.FullFlush? && d.nextIn == [] && k.origin == |k.hist| && k.first == |d.blocks|)
    requires calls[i].flush.FullFlush? && d.availOut > 0 && code.Ok? ==> d.nextIn == [] && k.origin == |k.hist|
    ensures Resumes(calls, i + 1, codes + [code], left + [d.availOut], k, now)
  {
    hide AllInput;
    if calls[i].flush.FullFlush? && d.nextIn == [] && k.origin == |k.hist| {
      now := i + 1;
    } else {
      now := resumed;
    }
  }

  /** The room that the calls have used is what the stream has written. */
  ghost predicate Spent(c: Core, size: nat -> nat, calls: seq<Call>, left: seq<nat>) {
    && c.p.size == size && |left| == |calls| && c.written == Filled(calls, left)
    && forall i :: 0 <= i < |calls| ==> left[i] <= calls[i].room
  }

  lemma SpentMore(c: Core, d: Core, size: nat -> nat, calls: seq<Call>, i: nat, left: seq<nat>)
    requires i < |calls| && Spent(c, size, calls[..i], left) && d.p == c.p
    requires d.written + d.availOut == c.written + calls[i].room && c.written <= d.written
    ensures Spent(d, size, calls[..i + 1], left + [d.availOut])
  {
    assert calls[..i + 1][..i] == calls[..i] && (left + [d.availOut])[..i] == left;
  }

  /** Every call that was to finish has done so, unless it has filled its room. */
  ghost predicate Finishing(calls: seq<Call>, codes: seq<Code>, left: seq<nat>, finished: bool, finishedAt: nat) {
    && |codes| == |left| == |calls|
    && forall i :: 0 <= i < |calls| ==>
         && (calls[i].flush.Finish? && calls[i].room > 0 ==> left[i] == 0 || (finished && finishedAt <= i + 1))
         && (codes[i].StreamEnd? ==> finished && finishedAt <= i + 1)
  }

  lemma FinishingMore(calls: seq<Call>, i: nat, codes: seq<Code>, left: seq<nat>, was: bool, finishedAt: nat,
                      code: Code, room: nat, finished: bool)
    requires i < |calls| && Finishing(calls[..i], codes, left, was, finishedAt)
    requires was ==> finished && finishedAt <= i
    requires calls[i].flush.Finish? && calls[i].room > 0 && room > 0 ==> finished
    requires code.StreamEnd? ==> finished
    ensures Finishing(calls[..i + 1], codes + [code], left + [room], finished,
                      if finished && !was then i + 1 else finishedAt)
  {
    forall j | 0 <= j < i + 1
      ensures var at := if finished && !was then i + 1 else finishedAt;
        && (calls[j].flush.Finish? && calls[j].room > 0 ==>
              (left + [room])[j] == 0 || (finished && at <= j + 1))
        && ((codes + [code])[j].StreamEnd? ==> finished && at <= j + 1)
    {
      assert j < i ==> calls[..i][j] == calls[j];
    }
  }

  /** What the latest call has left. */
  ghost predicate Last(level: nat, c: Core, marks: seq<Marker>, call: Call, code: Code, left: nat, finished: bool) {
    && (code.StreamEnd? ==> c.pending == 0)
    && (Marking(call.flush) && left > 0 && code.Ok? ==>
          !finished && marks != [] && [marks[|marks| - 1]] == MarkerOf(call.flush, |c.blocks|))
    && (!finished && call.room > 0 && left > 0 ==> Served(level, c, call.flush, false))
  }

  lemma LastIs(level: nat, c: Core, before: seq<Marker>, marks: seq<Marker>, call: Call, code: Code, was: bool,
               finished: bool)
    requires code.StreamEnd? ==> c.pending == 0
    requires marks == before || marks == before + MarkerOf(call.flush, |c.blocks|)
    requires Marking(call.flush) && c.availOut > 0 && code.Ok? ==> marks != before
    requires code.StreamError? <==> was && !call.flush.Finish?
    requires (was ==> finished) && (finished && !was ==> call.flush.Finish?)
    requires !was && call.room > 0 && c.availOut > 0 ==> Served(level, c, call.flush, finished)
    ensures Last(level, c, marks, call, code, c.availOut, finished)
    ensures call.flush.Finish? && call.room > 0 && c.availOut > 0 ==> finished
  {}

  lemma ResumesNone(calls: seq<Call>, g: Past)
    requires g.origin == 0 && g.first == 0
    ensures Resumes(calls, 0, [], [], g, 0)
  {}

  lemma WithheldIs(level: nat, c: Core)
    ensures Withheld(level, c) <= if level <= 3 then 0 else 1
  {}
}

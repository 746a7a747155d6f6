/** deflate_slow: lazy matching, run at levels 4 to 9.  A match is adopted only if the next position has no better. */
module DeflateSlow {
  import opened Lz77
  import opened DeflateDict
  import opened DeflateCore

  /** The number of bytes before strstart that no symbol covers yet. */
  function Held(c: Core): nat {
    if c.matchAvailable then 1 else 0
  }

  /** A match of the string that starts at absolute position `pos`, within MAX_DIST. */
  ghost predicate MatchAt(c: Core, g: Past, pos: int, start: int, len: nat) {
    && c.p.wSize >= 512
    && 1 <= pos - (g.base + start) <= c.p.MaxDist() && g.origin <= g.base + start
    && Genuine(g.hist, pos, g.base + start, len)
  }

  /** Between two steps at most one byte is held back, with the match found there if it is longer than two. */
  ghost predicate Between(c: Core, g: Past) {
    && Ready(c, g)
    && Held(c) <= c.strstart
    && Coded(c, g, Here(c, g) - Held(c))
    && 2 <= c.matchLength <= MAX_MATCH
    && (c.matchLength >= MIN_MATCH ==>
          c.matchAvailable && c.matchLength <= c.lookahead + 1
            && MatchAt(c, g, Here(c, g) - 1, c.matchStart, c.matchLength))
    && |c.syms| + 2 <= c.p.litBufsize
  }

  /** The string at strstart is in the dictionary if it is complete. */
  ghost predicate Entering(c: Core, g: Past) {
    && (if c.lookahead >= MIN_MATCH then Entered(c, g) else Sane(c, g, Here(c, g), Here(c, g)))
    && g.base + c.strstart + c.lookahead == |g.hist|
    && c.insert <= 2 && c.insert <= c.strstart && c.strstart + MIN_LOOKAHEAD <= |c.window|
  }

  /** The first half of a step: enters the string, moves the current match to prevMatch and searches for a better. */
  method Search(c: Core, ghost g: Past) returns (d: Core, ghost k: Past, ghost len: nat)
    requires Ready(c, g) && c.lookahead > 0 && c.strstart + MIN_LOOKAHEAD <= |c.window|
    requires 2 <= c.matchLength <= MAX_MATCH
    ensures k == g.(ins := k.ins) && Entering(d, k)
    ensures d == c.(insH := d.insH, head := d.head, prev := d.prev, prevLength := c.matchLength,
                    prevMatch := c.matchStart, matchLength := d.matchLength, matchStart := d.matchStart)
    ensures 2 <= d.matchLength <= MAX_MATCH
    ensures d.matchLength >= MIN_MATCH && d.matchLength > d.prevLength ==>
              d.matchLength <= d.lookahead && MatchAt(d, k, Here(d, k), d.matchStart, d.matchLength)
    ensures Looked(c, len) && d.matchLength == Worthwhile(d, len)
  {
    hide Entering, Searching, OnChain, MatchAt, Ready, Longest, Shifted;
    var hashHead;
    d, hashHead, k := EnterString(c, g);
    len := MIN_MATCH - 1;
    if hashHead != 0 && d.prevLength < d.p.tuning.maxLazy && d.strstart - hashHead <= d.p.MaxDist() {
      ghost var d0 := d;
      d, len := Improve(d, k, hashHead);
      EnteringSame(d0, d, k);
    }
  }

  /** The string at strstart is entered if it is complete, and the current match becomes the previous one. */
  ghost function Shifted(c: Core): Core
    requires c.lookahead >= MIN_MATCH ==> InsertString.requires(c, c.strstart)
  {
    var d := if c.lookahead >= MIN_MATCH then InsertString(c, c.strstart) else c;
    d.(prevLength := c.matchLength, prevMatch := c.matchStart, matchLength := MIN_MATCH - 1)
  }

  /**
    The length that the search has found for the string at strstart. There is no search for a string that is not
    complete, nor one after a match that is long enough; a search finds a longest match if there is one.
   */
  ghost predicate Looked(c: Core, len: nat) {
    && (c.lookahead >= MIN_MATCH ==> InsertString.requires(c, c.strstart))
    && if c.lookahead < MIN_MATCH || c.matchLength >= c.p.tuning.maxLazy then len == MIN_MATCH - 1
       else Sought(Shifted(c), len, MIN_MATCH - 1)
  }

  /** A short match that is not worth its code is dropped. */
  function Worthwhile(c: Core, len: nat): nat {
    if len <= 5 && (c.p.filtered || (len == MIN_MATCH && c.strstart - c.matchStart > TOO_FAR)) then MIN_MATCH - 1
    else len
  }

  /** The string at strstart is entered, if it is complete, and the current match becomes the previous one. */
  method EnterString(c: Core, ghost g: Past) returns (d: Core, hashHead: nat, ghost k: Past)
    requires Ready(c, g) && c.lookahead > 0 && c.strstart + MIN_LOOKAHEAD <= |c.window|
    ensures k == g.(ins := k.ins) && Entering(d, k) && d.p.wSize >= 512 && |d.prev| == d.p.wSize
    ensures (c.lookahead >= MIN_MATCH ==> InsertString.requires(c, c.strstart)) && d == Shifted(c)
    ensures d.strstart < 2 * d.p.wSize
    ensures hashHead == if c.lookahead >= MIN_MATCH then d.prev[Slot(d.p.wSize, d.strstart)] else 0
    ensures d == c.(insH := d.insH, head := d.head, prev := d.prev, prevLength := c.matchLength,
                    prevMatch := c.matchStart, matchLength := MIN_MATCH - 1)
    ensures hashHead != 0 && d.strstart - hashHead <= d.p.MaxDist() ==> Searching(d, k) && OnChain(d, k, hashHead)
  {
    hide KeysHold, WindowHolds, HashReady, Dict.Ok, Dict.Entry;
    ReadySizes(c, g);
    d, k, hashHead := c, g, 0;
    if c.lookahead >= MIN_MATCH {
      InsertForSearch(c, g);
      d, k := InsertString(c, c.strstart), Enter(g, c.strstart);
      hashHead := d.prev[Slot(d.p.wSize, d.strstart)];
    }
    d := d.(prevLength := d.matchLength, prevMatch := d.matchStart, matchLength := MIN_MATCH - 1);
  }

  lemma ReadySizes(c: Core, g: Past)
    requires Ready(c, g)
    ensures |c.prev| == c.p.wSize
  {
    hide KeysHold, WindowHolds, HashReady;
  }

  /** The match found is no part of the dictionary. */
  lemma EnteringSame(c: Core, d: Core, g: Past)
    requires Entering(c, g) && d == c.(matchLength := d.matchLength, matchStart := d.matchStart)
    ensures Entering(d, g)
  {
    hide KeysHold, WindowHolds, HashReady, Dict.Ok, Dict.Entry;
  }

  /** A search for a match better than the previous one; a short match that is not worth its code is dropped. */
  method Improve(c: Core, ghost g: Past, hashHead: nat) returns (d: Core, ghost found: nat)
    requires Searching(c, g) && OnChain(c, g, hashHead) && 2 <= c.prevLength <= MAX_MATCH
    ensures d == c.(matchLength := d.matchLength, matchStart := d.matchStart)
    ensures Longest(c, hashHead, found) && d.matchLength == Worthwhile(d, found)
    ensures 2 <= d.matchLength <= MAX_MATCH
    ensures d.matchLength >= MIN_MATCH && d.matchLength > d.prevLength ==>
              d.matchLength <= d.lookahead && MatchAt(d, g, Here(d, g), d.matchStart, d.matchLength)
  {
    hide Longest, Sane, OnChain, Genuine;
    SearchSizes(c, g);
    var len, start := LongestMatch(c, g, hashHead);
    found := len;
    d := c.(matchLength := len, matchStart := start);
    if d.matchLength <= 5 &&
       (d.p.filtered || (d.matchLength == MIN_MATCH && d.strstart - d.matchStart > TOO_FAR))
    {
      d := d.(matchLength := MIN_MATCH - 1);
    }
  }

  /** The invariant of the loop that skips over a match: strings up to `maxInsert` are entered, later ones are not. */
  ghost predicate Skipping(c: Core, g: Past, maxInsert: int) {
    if c.strstart <= maxInsert then Entered(c, g) else Sane(c, g, Here(c, g) + 1, Here(c, g) + 1)
  }

  /** Moves strstart on by `n`, entering every string whose three bytes are there. */
  method SkipMatch(c: Core, ghost g: Past, n: nat, maxInsert: int) returns (d: Core, ghost k: Past)
    requires Skipping(c, g, maxInsert) && g.base + maxInsert + MIN_MATCH <= |g.hist|
    ensures k == g.(ins := k.ins) && Skipping(d, k, maxInsert)
    ensures d == c.(insH := d.insH, head := d.head, prev := d.prev, strstart := c.strstart + n)
  {
    hide Entered, Sane;
    d, k := c, g;
    for i := 0 to n
      invariant k == g.(ins := k.ins) && Skipping(d, k, maxInsert)
      invariant d == c.(insH := d.insH, head := d.head, prev := d.prev, strstart := c.strstart + i)
    {
      if d.strstart + 1 <= maxInsert {
        EnterNextEntered(d, k);
        d, k := EnterNext(d), Enter(k, d.strstart + 1);
      } else {
        SkipOne(d, k, maxInsert);
        d := d.(strstart := d.strstart + 1);
      }
    }
  }

  lemma SkipOne(c: Core, g: Past, maxInsert: int)
    requires Skipping(c, g, maxInsert) && c.strstart + 1 > maxInsert
    ensures Skipping(c.(strstart := c.strstart + 1), g, maxInsert)
  {
    hide KeysHold, WindowHolds, HashReady, Dict.Ok;
    AdvanceSane(c, g, Here(c, g) + 1, if c.strstart <= maxInsert then Here(c, g) else Here(c, g) + 1, Here(c, g) + 2);
  }

  /** Adopts the previous match: tallies it and moves past it. */
  method TakePrevious(c: Core, ghost g: Past) returns (d: Core, ghost k: Past)
    requires Entering(c, g) && c.matchAvailable && c.strstart > 0 && Coded(c, g, Here(c, g) - 1)
    requires MIN_MATCH <= c.prevLength <= MAX_MATCH && c.prevLength <= c.lookahead + 1
    requires MatchAt(c, g, Here(c, g) - 1, c.prevMatch, c.prevLength)
    ensures k == g.(ins := k.ins)
    ensures d == c.(insH := d.insH, head := d.head, prev := d.prev, syms := d.syms, prevLength := 0,
                    strstart := c.strstart + c.prevLength - 1, lookahead := c.lookahead - (c.prevLength - 1),
                    matchAvailable := false, matchLength := MIN_MATCH - 1)
    ensures c.prevMatch < c.strstart && d.syms == c.syms + [MatchSymbol(c.strstart - 1 - c.prevMatch, c.prevLength)]
    ensures Ready(d, k) && Coded(d, k, Here(d, k))
  {
    hide KeysHold, WindowHolds, HashReady, Dict.Ok, CodedAs, Afresh, Genuine;
    var maxInsert, n := c.strstart + c.lookahead - MIN_MATCH, c.prevLength - 2;
    assert c.p.wSize <= 32768;
    TallyMatchCoded(c, g, Here(c, g) - 1, c.strstart - 1 - c.prevMatch, c.prevLength);
    d := TallyMatch(c, c.strstart - 1 - c.prevMatch, c.prevLength);
    if c.lookahead < MIN_MATCH {
      AdvanceSane(d, g, Here(c, g), Here(c, g), Here(c, g) + 1);
    }
    d, k := SkipMatch(d, g, n, maxInsert);
    AdvanceSane(d, k, Here(d, k) + 1, if d.strstart <= maxInsert then Here(d, k) else Here(d, k) + 1, Here(d, k) + 1);
    d := d.(strstart := d.strstart + 1, lookahead := c.lookahead - (c.prevLength - 1), prevLength := 0,
            matchAvailable := false, matchLength := MIN_MATCH - 1);
  }

  /** Moves on one byte, which stays held back together with the match found there. */
  function HoldNext(c: Core): Core
    requires c.lookahead > 0
  {
    c.(strstart := c.strstart + 1, lookahead := c.lookahead - 1, matchAvailable := true)
  }

  lemma HoldNextBetween(c: Core, g: Past)
    requires Entering(c, g) && c.lookahead > 0 && Coded(c, g, Here(c, g))
    requires 2 <= c.matchLength <= MAX_MATCH
    requires c.matchLength >= MIN_MATCH ==>
               c.matchLength <= c.lookahead && MatchAt(c, g, Here(c, g), c.matchStart, c.matchLength)
    requires |c.syms| + 2 <= c.p.litBufsize
    ensures Between(HoldNext(c), g)
  {
    hide KeysHold, WindowHolds, HashReady, Dict.Ok, CodedAs, Afresh, Genuine;
    AdvanceSane(c, g, if c.lookahead >= MIN_MATCH then Here(c, g) + 1 else Here(c, g), Here(c, g), Here(c, g) + 1);
  }

  /** Tallies the byte before strstart as a literal, flushing the block before strstart moves on. */
  method EmitHeld(c: Core, ghost g: Past) returns (d: Core)
    requires Entering(c, g) && c.strstart > 0 && Coded(c, g, Here(c, g) - 1)
    requires |c.syms| + 2 <= c.p.litBufsize && NoLast(c.blocks)
    ensures d == c.(syms := d.syms, blocks := d.blocks, blockStart := d.blockStart, availOut := d.availOut,
                    puts := d.puts, pending := d.pending, written := d.written)
    ensures Outputs(c, d) && Tallied(c, d, [Literal(c.window[c.strstart - 1])])
    ensures Coded(d, g, Here(d, g)) && |d.syms| + 2 <= d.p.litBufsize && NoLast(d.blocks) && Entering(d, g)
  {
    hide KeysHold, WindowHolds, HashReady, Dict.Ok, CodedAs, Afresh, Outputs, Total, Balanced, Drained;
    WindowByte(c, g, c.strstart - 1);
    TallyLiteralCoded(c, g, Here(c, g) - 1, c.window[c.strstart - 1]);
    d := TallyLiteral(c, c.window[c.strstart - 1]);
    SameOutputs(c, d);
    if BufferFull(d) {
      FlushBlockCoded(d, g, false);
      FlushBlockOutputs(d, false);
      OutputsTrans(c, d, FlushBlock(d, false));
      d := FlushBlock(d, false);
    }
  }

  /** FillWindow leaves the coding and the pending match as they were. */
  lemma RefilledBetween(c: Core, g: Past, d: Core, k: Past)
    requires Between(c, g) && Ready(d, k) && Refilled(c, g, d, k)
    ensures Between(d, k) && |d.nextIn| + d.lookahead == |c.nextIn| + c.lookahead
  {
    hide Sane, HashAt, CodedAs, Afresh, Genuine;
    CodedGrows(g.hist, k.hist, c.blocks, c.syms, g.base + c.blockStart, Here(c, g) - Held(c));
    AfreshGrows(g.hist, k.hist, g.origin, c.blocks, g.first, c.syms, g.base + c.blockStart, Here(c, g) - Held(c));
    assert |k.hist + d.nextIn| == |g.hist + c.nextIn|;
    if c.matchLength >= MIN_MATCH {
      GenuineGrows(g.hist, k.hist, Here(c, g) - 1, g.base + c.matchStart, c.matchLength);
    }
  }

  lemma GenuineGrows(hist: seq<Byte>, more: seq<Byte>, pos: int, from: int, len: nat)
    requires Genuine(hist, pos, from, len) && hist <= more
    ensures Genuine(more, pos, from, len)
  {
    assert more[pos..pos + len] == hist[pos..pos + len] && more[from..from + len] == hist[from..from + len];
  }

  /** A block is flushed. */
  method Flushed(c: Core, ghost g: Past, last: bool) returns (d: Core)
    requires Ready(c, g) && Coded(c, g, Here(c, g)) && c.matchLength == MIN_MATCH - 1 && !c.matchAvailable
    requires NoLast(c.blocks) && |c.syms| < c.p.litBufsize
    ensures d == c.(blocks := d.blocks, syms := [], blockStart := c.strstart, availOut := d.availOut, puts := d.puts,
                    pending := d.pending, written := d.written)
    ensures Outputs(c, d) && Drained(d) && |d.blocks| == |c.blocks| + 1 && d.blocks[|c.blocks|].syms == c.syms
    ensures Between(d, g) && if last then EndsWithLast(d.blocks) else NoLast(d.blocks)
  {
    hide KeysHold, HashReady, Dict.Ok, CodedAs, Afresh, NoLast, EndsWithLast;
    FlushBlockCoded(c, g, last);
    FlushBlockOutputs(c, last);
    d := FlushBlock(c, last);
    OneBlockMore(c.blocks, d.blocks[|c.blocks|]);
  }

  /**
    The lazy rule: the previous match is adopted if the one found now is no longer; otherwise the byte held back becomes
    a literal, and the byte at strstart is held back with the match found there.
   */
  ghost predicate Decides(c: Core, d: Core, len: nat, start: int) {
    && Looked(c, len) && 0 <= c.strstart - Held(c) && c.strstart <= |c.window|
    && var now := Worthwhile(c.(matchStart := start), len);
       if c.matchLength >= MIN_MATCH && now <= c.matchLength then
         && c.matchStart < c.strstart && c.matchAvailable
         && Tallied(c, d, [MatchSymbol(c.strstart - 1 - c.matchStart, c.matchLength)])
         && d.strstart == c.strstart + c.matchLength - 1 && !d.matchAvailable && d.matchLength == MIN_MATCH - 1
       else
         && Tallied(c, d, if c.matchAvailable then [Literal(c.window[c.strstart - 1])] else [])
         && d.strstart == c.strstart + 1 && d.matchAvailable && d.matchLength == now && d.matchStart == start
  }

  /** One step: adopts the previous match, or tallies the held byte, or just holds the next one. */
  method Step(c: Core, ghost g: Past) returns (d: Core, stop: bool, ghost k: Past)
    requires Between(c, g) && NoLast(c.blocks) && c.lookahead > 0 && c.strstart + MIN_LOOKAHEAD <= |c.window|
    requires c.availOut > 0
    ensures Between(d, k) && NoLast(d.blocks) && k == g.(ins := k.ins) && Outputs(c, d) && d.nextIn == c.nextIn
    ensures d.lookahead < c.lookahead && (stop <==> d.availOut == 0)
    ensures exists len, start :: Decides(c, d, len, start)
  {
    hide Sane, HashAt, Entering, CodedAs, Afresh, MatchAt, Outputs, Looked;
    stop := false;
    ghost var len;
    d, k, len := Search(c, g);
    ghost var start := d.matchStart;
    assert MatchAt(c, g, Here(c, g) - 1, c.matchStart, c.matchLength) ==
           MatchAt(d, k, Here(d, k) - 1, d.prevMatch, d.prevLength) by { SameMatch(c, g, d, k); }
    if d.prevLength >= MIN_MATCH && d.matchLength <= d.prevLength {
      d, k := TakePrevious(d, k);
      SameOutputs(c, d);
      if BufferFull(d) {
        ghost var d1 := d;
        d := Flushed(d, k, false);
        OutputsTrans(c, d1, d);
        stop := d.availOut == 0;
      }
    } else {
      SameOutputs(c, d);
      if d.matchAvailable {
        ghost var d0 := d;
        d := EmitHeld(d, k);
        OutputsTrans(c, d0, d);
        SameMatchNow(d0, d, k);
      }
      HoldNextBetween(d, k);
      stop := d.matchAvailable && d.availOut == 0;
      ghost var d1 := d;
      d := HoldNext(d);
      SameOutputs(d1, d);
      OutputsTrans(c, d1, d);
    }
    assert Decides(c, d, len, start);
  }

  lemma SameMatch(c: Core, g: Past, d: Core, k: Past)
    requires k == g.(ins := k.ins) && d.p == c.p && d.strstart == c.strstart
    requires d.prevLength == c.matchLength && d.prevMatch == c.matchStart
    ensures MatchAt(c, g, Here(c, g) - 1, c.matchStart, c.matchLength) ==
            MatchAt(d, k, Here(d, k) - 1, d.prevMatch, d.prevLength)
  {}

  lemma SameMatchNow(c: Core, d: Core, g: Past)
    requires d.p == c.p && d.strstart == c.strstart && d.matchLength == c.matchLength && d.matchStart == c.matchStart
    ensures MatchAt(c, g, Here(c, g), c.matchStart, c.matchLength) ==
            MatchAt(d, g, Here(d, g), d.matchStart, d.matchLength)
  {}

  /** At the end of the input no match is pending; the held byte becomes a literal, and the last two strings are left
      to be entered when more input arrives. */
  method EndOfInput(c: Core, ghost g: Past) returns (d: Core)
    requires Between(c, g) && c.lookahead == 0
    ensures d == c.(syms := d.syms, matchAvailable := false, insert := d.insert)
    ensures 0 <= c.strstart - Held(c) && c.strstart <= |c.window|
    ensures d.syms == c.syms + if c.matchAvailable then [Literal(c.window[c.strstart - 1])] else []
    ensures d.insert == Min(d.strstart, 2)
    ensures Ready(d, g) && Coded(d, g, Here(d, g)) && d.matchLength == MIN_MATCH - 1 && |d.syms| < d.p.litBufsize
  {
    hide KeysHold, WindowHolds, HashReady, Dict.Ok, CodedAs, Afresh, MatchAt;
    d := c;
    if c.matchAvailable {
      WindowByte(c, g, c.strstart - 1);
      TallyLiteralCoded(c, g, Here(c, g) - 1, c.window[c.strstart - 1]);
      d := TallyLiteral(c, c.window[c.strstart - 1]).(matchAvailable := false);
    }
    d := d.(insert := if d.strstart < MIN_MATCH - 1 then d.strstart else MIN_MATCH - 1);
  }

  /** More input, if there is any. */
  method Refill(c: Core, ghost g: Past) returns (d: Core, ghost k: Past)
    requires Between(c, g) && c.lookahead < MIN_LOOKAHEAD
    ensures Between(d, k) && Continues(c, g, d, k) && d.blocks == c.blocks && d.availOut == c.availOut
    ensures |d.nextIn| + d.lookahead == |c.nextIn| + c.lookahead && (d.lookahead < MIN_LOOKAHEAD ==> d.nextIn == [])
    ensures d.strstart + MIN_LOOKAHEAD <= |d.window|
  {
    hide Ready, Coded, MatchAt;
    d, k := FillWindow(c, g);
    RefilledBetween(c, g, d, k);
  }

  /** The last block of a call that has taken all input. */
  method Ending(c: Core, ghost g: Past, flush: Flush) returns (d: Core, r: BlockState)
    requires Between(c, g) && NoLast(c.blocks) && c.lookahead == 0 && c.nextIn == [] && !flush.NoFlush?
    requires c.availOut > 0
    ensures Between(d, g) && Continues(c, g, d, g) && Returns(d, flush, r)
    ensures !r.NeedMore? ==> !d.matchAvailable
  {
    hide Ready, Coded, NoLast, EndsWithLast, MatchAt;
    d := EndOfInput(c, g);
    if flush.Finish? || d.syms != [] {
      d := Flushed(d, g, flush.Finish?);
      if d.availOut == 0 {
        return d, if flush.Finish? then FinishStarted else NeedMore;
      }
    }
    r := if flush.Finish? then FinishDone else BlockDone;
  }

  /** deflate_slow: compresses as much of the input as it can. */
  method Compress(c: Core, ghost g: Past, flush: Flush) returns (d: Core, r: BlockState, ghost k: Past)
    requires Between(c, g) && NoLast(c.blocks) && c.availOut > 0
    ensures Between(d, k) && Continues(c, g, d, k) && Returns(d, flush, r)
    ensures !r.NeedMore? ==> !d.matchAvailable
  {
    hide Between, NoLast, EndsWithLast, Continues, Outputs;
    d, k := c, g;
    ContinuesSelf(c, g);
    while true
      invariant Between(d, k) && Continues(c, g, d, k) && NoLast(d.blocks) && d.availOut > 0
      decreases |d.nextIn| + d.lookahead
    {
      if d.lookahead < MIN_LOOKAHEAD {
        ghost var d0, k0 := d, k;
        d, k := Refill(d, k);
        ContinuesTrans(c, g, d0, k0, d, k);
        if d.lookahead < MIN_LOOKAHEAD && flush.NoFlush? {
          return d, NeedMore, k;
        }
        if d.lookahead == 0 {
          break;
        }
      }
      BetweenFits(d, k);
      ghost var d1, k1 := d, k;
      var stop;
      d, stop, k := Step(d, k);
      ContinuesStep(d1, k1, d, k);
      ContinuesTrans(c, g, d1, k1, d, k);
      if stop {
        return d, NeedMore, k;
      }
    }
    ghost var d2 := d;
    d, r := Ending(d, k, flush);
    ContinuesTrans(c, g, d2, k, d, k);
  }

  lemma ContinuesStep(c: Core, g: Past, d: Core, k: Past)
    requires k == g.(ins := k.ins) && Outputs(c, d) && d.nextIn == c.nextIn
    ensures Continues(c, g, d, k)
  {}

  lemma BetweenFits(c: Core, g: Past)
    requires Between(c, g)
    ensures c.lookahead >= MIN_LOOKAHEAD ==> c.strstart + MIN_LOOKAHEAD <= |c.window|
  {
    hide Coded, MatchAt;
    ReadyFits(c, g);
  }
}

/** deflate_fast: greedy matching, run at levels 1 to 3. */
module DeflateFast {
  import opened Lz77
  import opened DeflateDict
  import opened DeflateCore

  /** Between two symbols every byte before strstart has been coded, and no match is pending. */
  ghost predicate Between(c: Core, g: Past) {
    && Ready(c, g)
    && Coded(c, g, Here(c, g))
    && c.matchLength < MIN_MATCH && c.prevLength == MIN_MATCH - 1
    && |c.syms| + 2 <= c.p.litBufsize
  }

  /** The strings at the `n` positions behind `pos` have been entered as well. */
  ghost predicate EnteredToo(ins: set<int>, ins': set<int>, pos: int, n: nat) {
    forall p :: p in ins' <==> p in ins || pos < p <= pos + n
  }

  /** Enters the strings that start inside a match, up to its last byte. */
  method EnterMatch(c: Core, ghost g: Past, n: nat) returns (d: Core, ghost k: Past)
    requires Entered(c, g) && Here(c, g) + n + MIN_MATCH <= |g.hist|
    ensures k == g.(ins := k.ins) && Entered(d, k) && EnteredToo(g.ins, k.ins, Here(c, g), n)
    ensures d == c.(insH := d.insH, head := d.head, prev := d.prev, strstart := c.strstart + n)
  {
    hide Entered;
    d, k := c, g;
    for i := 0 to n
      invariant k == g.(ins := k.ins) && Entered(d, k) && EnteredToo(g.ins, k.ins, Here(c, g), i)
      invariant d == c.(insH := d.insH, head := d.head, prev := d.prev, strstart := c.strstart + i)
    {
      EnterNextEntered(d, k);
      d, k := EnterNext(d), Enter(k, d.strstart + 1);
    }
  }

  /** Moves past a match, entering its strings in the dictionary when it is short. */
  method TakeMatch(c: Core, ghost g: Past) returns (d: Core, ghost k: Past)
    requires Entered(c, g) && g.base + c.strstart + c.lookahead == |g.hist|
    requires c.insert <= 2 && c.insert <= c.strstart && c.strstart + MIN_LOOKAHEAD <= |c.window|
    requires MIN_MATCH <= c.matchLength <= c.lookahead && c.matchLength <= MAX_MATCH
    ensures k == g.(ins := k.ins)
    ensures d == c.(insH := d.insH, head := d.head, prev := d.prev, matchLength := 0,
                    strstart := c.strstart + c.matchLength, lookahead := c.lookahead - c.matchLength)
    ensures Ready(d, k)
    ensures var short := c.matchLength <= c.p.tuning.maxLazy && d.lookahead >= MIN_MATCH;
      EnteredToo(g.ins, k.ins, Here(c, g), if short then c.matchLength - 1 else 0)
  {
    hide KeysHold, WindowHolds, HashReady, Dict.Ok;
    var n := c.matchLength;
    if n <= c.p.tuning.maxLazy && c.lookahead - n >= MIN_MATCH {
      d, k := EnterMatch(c, g, n - 1);
      AdvanceSane(d, k, Here(d, k) + 1, Here(d, k), Here(d, k) + 1);
      d := d.(strstart := d.strstart + 1, lookahead := c.lookahead - n, matchLength := 0);
    } else {
      AdvanceSane(c, g, Here(c, g) + 1, Here(c, g), Here(c, g) + n);
      d, k := c.(strstart := c.strstart + n, lookahead := c.lookahead - n, matchLength := 0), g;
      if d.lookahead >= 2 {
        PrimeHashReady(d, k, d.strstart);
      }
      d := PrimeHash(d, d.strstart);
    }
  }

  /** Enters the string at strstart and looks for a match: a longest one that the search finds. */
  method FindMatch(c: Core, ghost g: Past) returns (d: Core, ghost k: Past)
    requires Ready(c, g) && c.lookahead >= MIN_MATCH && c.strstart + MIN_LOOKAHEAD <= |c.window|
    requires c.matchLength < MIN_MATCH && c.prevLength == MIN_MATCH - 1
    ensures k == g.(ins := k.ins) && Entered(d, k)
    ensures d == c.(insH := d.insH, head := d.head, prev := d.prev, matchStart := d.matchStart,
                    matchLength := d.matchLength)
    ensures Looked(c, d.matchLength)
    ensures d.matchLength <= d.lookahead && d.matchLength <= MAX_MATCH
    ensures d.matchLength >= MIN_MATCH ==> 1 <= d.strstart - d.matchStart <= d.p.MaxDist() && d.matchStart >= 0
    ensures g.origin <= g.base
    ensures d.matchLength >= MIN_MATCH ==> Genuine(k.hist, Here(d, k), k.base + d.matchStart, d.matchLength)
  {
    hide Longest, KeysHold, WindowHolds, HashReady, Dict.Ok, Dict.Entry;
    InsertForSearch(c, g);
    d, k := InsertString(c, c.strstart), Enter(g, c.strstart);
    var hashHead := d.prev[Slot(d.p.wSize, d.strstart)];
    if hashHead != 0 && d.strstart - hashHead <= d.p.MaxDist() {
      var len, start := LongestMatch(d, k, hashHead);
      d := d.(matchLength := len, matchStart := start);
    }
  }

  /** The length that the search has found for the string at strstart; below MIN_MATCH it has found none. */
  ghost predicate Looked(c: Core, len: nat) {
    if c.lookahead < MIN_MATCH then len < MIN_MATCH
    else InsertString.requires(c, c.strstart) && Sought(InsertString(c, c.strstart), len, c.matchLength)
  }

  /** The symbol for the string at strstart, if the search has found this. */
  function Symbolize(c: Core, len: nat, start: int): Symbol
    requires c.strstart < |c.window|
  {
    if len >= MIN_MATCH && start <= c.strstart then MatchSymbol(c.strstart - start, len)
    else Literal(c.window[c.strstart])
  }

  /** A literal is tallied and skipped; its string has been entered if it is complete. */
  function SkipLiteral(c: Core): Core
    requires c.strstart < |c.window| && c.lookahead > 0
  {
    TallyLiteral(c, c.window[c.strstart]).(lookahead := c.lookahead - 1, strstart := c.strstart + 1)
  }

  lemma SkipLiteralReady(c: Core, g: Past)
    requires if c.lookahead >= MIN_MATCH then Entered(c, g) else Sane(c, g, Here(c, g), Here(c, g))
    requires g.base + c.strstart + c.lookahead == |g.hist| && c.lookahead > 0
    requires c.insert <= 2 && c.insert <= c.strstart && c.strstart + MIN_LOOKAHEAD <= |c.window|
    requires Coded(c, g, Here(c, g))
    ensures Ready(SkipLiteral(c), g) && Coded(SkipLiteral(c), g, Here(c, g) + 1)
  {
    hide KeysHold, WindowHolds, HashReady, Dict.Ok, CodedAs, Afresh;
    WindowByte(c, g, c.strstart);
    TallyLiteralCoded(c, g, Here(c, g), c.window[c.strstart]);
    AdvanceSane(c, g, if c.lookahead >= MIN_MATCH then Here(c, g) + 1 else Here(c, g), Here(c, g), Here(c, g) + 1);
  }

  /** One symbol: the longest match that the search finds, if it finds one, else a literal. */
  method Step(c: Core, ghost g: Past) returns (d: Core, ghost k: Past, ghost len: nat, ghost start: int)
    requires Between(c, g) && c.lookahead > 0 && c.strstart + MIN_LOOKAHEAD <= |c.window|
    ensures k == g.(ins := k.ins)
    ensures d == c.(insH := d.insH, head := d.head, prev := d.prev, matchStart := d.matchStart,
                    matchLength := d.matchLength, strstart := d.strstart, lookahead := d.lookahead, syms := d.syms)
    ensures Ready(d, k) && Coded(d, k, Here(d, k)) && d.matchLength < MIN_MATCH
    ensures Looked(c, len) && (len >= MIN_MATCH ==> len <= c.lookahead) && c.strstart < |c.window|
    ensures d.syms == c.syms + [Symbolize(c, len, start)] && (len >= MIN_MATCH ==> start < c.strstart)
    ensures var n := if len >= MIN_MATCH then len else 1;
      d.strstart == c.strstart + n && d.lookahead == c.lookahead - n
  {
    hide Sane, Entered, HashAt, CodedAs, Afresh, Genuine, Looked;
    d, k := c, g;
    len, start := c.matchLength, c.matchStart;
    if c.lookahead >= MIN_MATCH {
      d, k := FindMatch(c, g);
      len, start := d.matchLength, d.matchStart;
    } else {
      LookedNot(c, len);
    }
    if d.matchLength >= MIN_MATCH {
      assert d.p.wSize <= 32768 by { ReadyFits(c, g); }
      TallyMatchCoded(d, k, Here(d, k), d.strstart - d.matchStart, d.matchLength);
      d := TallyMatch(d, d.strstart - d.matchStart, d.matchLength);
      TallyEntered(d, k, c.syms);
      d, k := TakeMatch(d, k);
    } else {
      SkipLiteralReady(d, k);
      d := SkipLiteral(d);
    }
  }

  lemma LookedNot(c: Core, len: nat)
    requires c.lookahead < MIN_MATCH && len < MIN_MATCH
    ensures Looked(c, len)
  {}

  /** Tallying touches no table. */
  lemma TallyEntered(c: Core, g: Past, syms: seq<Symbol>)
    requires Entered(c.(syms := syms), g)
    ensures Entered(c, g)
  {
    hide KeysHold, WindowHolds, HashReady, Dict.Ok;
  }

  /** FillWindow leaves the coding as it was. */
  lemma RefilledBetween(c: Core, g: Past, d: Core, k: Past)
    requires Between(c, g) && Ready(d, k) && Refilled(c, g, d, k)
    ensures Between(d, k) && |d.nextIn| + d.lookahead == |c.nextIn| + c.lookahead
  {
    hide Sane, HashAt, CodedAs, Afresh;
    CodedGrows(g.hist, k.hist, c.blocks, c.syms, g.base + c.blockStart, Here(c, g));
    AfreshGrows(g.hist, k.hist, g.origin, c.blocks, g.first, c.syms, g.base + c.blockStart, Here(c, g));
    assert |k.hist + d.nextIn| == |g.hist + c.nextIn|;
  }

  /** A block is flushed. */
  method Flushed(c: Core, ghost g: Past, last: bool) returns (d: Core)
    requires Ready(c, g) && Coded(c, g, Here(c, g)) && c.matchLength < MIN_MATCH && c.prevLength == MIN_MATCH - 1
    requires NoLast(c.blocks) && |c.syms| < c.p.litBufsize
    ensures d == c.(blocks := d.blocks, syms := [], blockStart := c.strstart, availOut := d.availOut, puts := d.puts,
                    pending := d.pending, written := d.written)
    ensures Outputs(c, d) && Drained(d) && |d.blocks| == |c.blocks| + 1 && d.blocks[|c.blocks|].syms == c.syms
    ensures Between(d, g) && if last then EndsWithLast(d.blocks) else NoLast(d.blocks)
  {
    hide KeysHold, HashReady, Dict.Ok, CodedAs, Afresh, NoLast, EndsWithLast;
    FlushBlockCoded(c, g, last);
    FlushBlockOutputs(c, last);
    d := FlushBlock(c, last);
    OneBlockMore(c.blocks, d.blocks[|c.blocks|]);
  }

  /** More input, if there is any. */
  method Refill(c: Core, ghost g: Past) returns (d: Core, ghost k: Past)
    requires Between(c, g) && c.lookahead < MIN_LOOKAHEAD
    ensures Between(d, k) && Continues(c, g, d, k) && d.blocks == c.blocks && d.availOut == c.availOut
    ensures |d.nextIn| + d.lookahead == |c.nextIn| + c.lookahead && (d.lookahead < MIN_LOOKAHEAD ==> d.nextIn == [])
    ensures d.strstart + MIN_LOOKAHEAD <= |d.window|
  {
    hide Ready, Coded;
    d, k := FillWindow(c, g);
    RefilledBetween(c, g, d, k);
  }

  /** One symbol, and the block if the symbol buffer is full then; no more room for output ends the call. */
  method Round(c: Core, ghost g: Past) returns (d: Core, stop: bool, ghost k: Past)
    requires Between(c, g) && NoLast(c.blocks) && c.lookahead > 0 && c.availOut > 0
    requires c.lookahead < MIN_LOOKAHEAD ==> c.strstart + MIN_LOOKAHEAD <= |c.window|
    ensures Between(d, k) && Continues(c, g, d, k) && NoLast(d.blocks) && (stop <==> d.availOut == 0)
    ensures d.nextIn == c.nextIn && d.lookahead < c.lookahead
    ensures exists len, start :: Takes(c, d, len, start)
  {
    hide Ready, Coded, NoLast;
    ReadyFits(c, g);
    ghost var len, start;
    d, k, len, start := Step(c, g);
    stop := false;
    if BufferFull(d) {
      d := Flushed(d, k, false);
      stop := d.availOut == 0;
    }
    assert Takes(c, d, len, start);
  }

  /** The symbol at strstart is the match that the search finds, if it finds one, else a literal. */
  ghost predicate Takes(c: Core, d: Core, len: nat, start: int) {
    && Looked(c, len) && c.strstart < |c.window|
    && Tallied(c, d, [Symbolize(c, len, start)]) && (len >= MIN_MATCH ==> start < c.strstart)
    && d.strstart == c.strstart + (if len >= MIN_MATCH then len else 1)
  }

  /** The last block of a call that has taken all input. */
  method Ending(c: Core, ghost g: Past, flush: Flush) returns (d: Core, r: BlockState)
    requires Between(c, g) && NoLast(c.blocks) && c.lookahead == 0 && c.nextIn == [] && !flush.NoFlush?
    requires c.availOut > 0
    ensures Between(d, g) && Continues(c, g, d, g) && Returns(d, flush, r)
    ensures d.strstart == c.strstart && d.insert == Min(d.strstart, 2)
  {
    hide Ready, Coded, NoLast, EndsWithLast;
    EndOfInput(c, g);
    d := c.(insert := if c.strstart < MIN_MATCH - 1 then c.strstart else MIN_MATCH - 1);
    if flush.Finish? || d.syms != [] {
      d := Flushed(d, g, flush.Finish?);
      if d.availOut == 0 {
        return d, if flush.Finish? then FinishStarted else NeedMore;
      }
    }
    r := if flush.Finish? then FinishDone else BlockDone;
  }

  /** deflate_fast: compresses as much of the input as it can. */
  method Compress(c: Core, ghost g: Past, flush: Flush) returns (d: Core, r: BlockState, ghost k: Past)
    requires Between(c, g) && NoLast(c.blocks) && c.availOut > 0
    ensures Between(d, k) && Continues(c, g, d, k) && Returns(d, flush, r)
  {
    hide Between, NoLast, EndsWithLast, Continues;
    d, k := c, g;
    ContinuesSelf(c, g);
    while true
      invariant Between(d, k) && Continues(c, g, d, k) && NoLast(d.blocks) && d.availOut > 0
      decreases |d.nextIn| + d.lookahead
    {
      if d.lookahead < MIN_LOOKAHEAD {
        ghost var d0, k0 := d, k;
        d, k := Refill(d, k);
        ContinuesTrans(c, g, d0, k0, d, k);
        if d.lookahead < MIN_LOOKAHEAD && flush.NoFlush? {
          return d, NeedMore, k;
        }
        if d.lookahead == 0 {
          break;
        }
      }
      ghost var d1, k1 := d, k;
      var stop;
      d, stop, k := Round(d, k);
      ContinuesTrans(c, g, d1, k1, d, k);
      if stop {
        return d, NeedMore, k;
      }
    }
    ghost var d2 := d;
    d, r := Ending(d, k, flush);
    ContinuesTrans(c, g, d2, k, d, k);
  }

  /** The last two strings of the input are left to be entered when more input arrives. */
  lemma EndOfInput(c: Core, g: Past)
    requires Between(c, g)
    ensures Between(c.(insert := if c.strstart < MIN_MATCH - 1 then c.strstart else MIN_MATCH - 1), g)
  {
    hide KeysHold, WindowHolds, HashReady, Dict.Ok, CodedAs, Afresh;
  }
}

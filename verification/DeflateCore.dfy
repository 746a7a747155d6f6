/**
  The compressor state of zlib/deflate.c and the operations on it that the compression loops share:
  entering a string, searching the hash chains, sliding the window, reading input and tallying symbols.
 */
module DeflateCore {
  import opened Lz77
  import opened DeflateHash
  import opened DeflateDict

  const MIN_LOOKAHEAD := MAX_MATCH + MIN_MATCH + 1
  const TOO_FAR := 4096

  /** One row of the configuration table. */
  datatype Tuning = Tuning(goodLength: nat, maxLazy: nat, niceLength: nat, maxChain: nat)

  /** Levels 1..3 are run by deflate_fast, 4..9 by deflate_slow. */
  function Configuration(level: nat): Tuning
    requires 1 <= level <= 9
  {
    match level
    case 1 => Tuning(4, 4, 8, 4)
    case 2 => Tuning(4, 5, 16, 8)
    case 3 => Tuning(4, 6, 32, 32)
    case 4 => Tuning(4, 4, 16, 16)
    case 5 => Tuning(8, 16, 32, 32)
    case 6 => Tuning(8, 16, 128, 128)
    case 7 => Tuning(8, 32, 128, 256)
    case 8 => Tuning(32, 128, 258, 1024)
    case _ => Tuning(32, 258, 258, 4096)
  }

  /** lit_bufsize is at most this, for memory level 9. */
  const LIT_BUFSIZE_MAX := 0x8000

  /**
    What deflateInit2 fixes for the life of a stream; windowBits is 9..15 and hash_bits is memLevel + 7. `size` tells
    how many bytes the Huffman coder makes of the first block or marker that it is handed, of the second, and so on.
   */
  datatype Params = Params(wSize: nat, hashBits: nat, tuning: Tuning, filtered: bool, litBufsize: nat,
                           size: nat -> nat)
  {
    ghost predicate Valid() {
      && 512 <= wSize <= 32768
      && ValidBits(hashBits)
      && tuning.maxChain >= 4
      && 2 <= litBufsize <= LIT_BUFSIZE_MAX
    }

    function MaxDist(): nat
      requires wSize >= 512
    {
      wSize - MIN_LOOKAHEAD
    }
  }

  /** The fields of deflate_state and of its stream that the matcher uses. */
  datatype Core = Core(
    p: Params,
    window: seq<Byte>,
    head: seq<nat>,
    prev: seq<nat>,
    insH: nat,
    strstart: nat,
    lookahead: nat,
    insert: nat,
    blockStart: int,
    matchStart: int,       // a window index; it can become negative when the window slides
    prevMatch: int,
    matchLength: nat,
    prevLength: nat,
    matchAvailable: bool,
    nextIn: seq<Byte>,     // next_in, avail_in
    availOut: nat,
    syms: seq<Symbol>,     // d_buf, l_buf, last_lit
    blocks: seq<Block>,    // what has been handed to the Huffman coder
    puts: nat,             // how many blocks and markers that were
    pending: nat,          // bytes that wait for room
    written: nat)          // total_out

  /** What the state came from: the hash function as a table, all input read so far, the keys of its
      three-byte strings, how much of it has slid out of the window, and the absolute positions of the
      strings entered in the dictionary; how much input and how many blocks there were when history was last
      forgotten. */
  datatype Past = Past(next: Table, hist: seq<Byte>, keys: seq<nat>, base: nat, ins: set<int>, origin: nat, first: nat)

  function Dictionary(c: Core, g: Past): Dict {
    Dict(c.p.wSize, g.keys, g.base, g.ins, c.head, c.prev)
  }

  /** How many three-byte strings `n` bytes of input contain. */
  function KeyCount(n: nat): nat {
    if n < MIN_MATCH then 0 else n - MIN_MATCH + 1
  }

  /** `keys` are the keys of all three-byte strings of the input. */
  ghost predicate KeysOf(next: Table, hist: seq<Byte>, keys: seq<nat>) {
    && |keys| == KeyCount(|hist|)
    && forall p {:trigger keys[p]} :: 0 <= p < |keys| ==> keys[p] == Key(next, hist[p], hist[p + 1], hist[p + 2])
  }

  /** The tables are addressed by the hash keys of the input. */
  ghost predicate KeysHold(bits: nat, heads: nat, next: Table, hist: seq<Byte>, keys: seq<nat>) {
    heads == |next| && Sound(next) && IsTable(bits, next) && KeysOf(next, hist, keys)
  }

  ghost predicate Keyed(c: Core, g: Past) {
    KeysHold(c.p.hashBits, |c.head|, g.next, g.hist, g.keys)
  }

  /** The window holds the input from absolute position `base` on. */
  ghost predicate WindowHolds(window: seq<Byte>, hist: seq<Byte>, base: nat) {
    && base <= |hist| <= base + |window|
    && hist[base..] == window[..|hist| - base]
  }

  ghost predicate Windowed(c: Core, g: Past) {
    |c.window| == 2 * c.p.wSize && WindowHolds(c.window, g.hist, g.base) && g.origin <= g.base
  }

  /** Absolute position of strstart. */
  function Here(c: Core, g: Past): int {
    g.base + c.strstart
  }

  /** The running hash is good for the string at absolute position `pos`. */
  ghost predicate HashReady(next: Table, insH: nat, hist: seq<Byte>, pos: int) {
    0 <= pos && pos + 2 <= |hist| && Primed(next, insH, hist[pos], hist[pos + 1])
  }

  ghost predicate HashAt(c: Core, g: Past, pos: int) {
    HashReady(g.next, c.insH, g.hist, pos)
  }

  /**
    Parameters, window and tables fit together, and the dictionary invariant holds up to `hi`, with links up to `lk`.
   */
  ghost predicate Sane(c: Core, g: Past, hi: int, lk: int) {
    c.p.Valid() && Windowed(c, g) && Keyed(c, g) && Dictionary(c, g).Ok(hi, lk)
  }

  /** What holds whenever control is at the top of a compression loop. */
  ghost predicate Ready(c: Core, g: Past) {
    && Sane(c, g, Here(c, g), Here(c, g))
    && g.base + c.strstart + c.lookahead == |g.hist|
    && (c.lookahead >= MIN_MATCH ==> HashAt(c, g, Here(c, g)))
    && c.insert <= 2 && c.insert <= c.strstart
    && c.strstart + MIN_MATCH <= |c.window|
  }

  lemma ReadyFits(c: Core, g: Past)
    requires Ready(c, g)
    ensures c.p.Valid() && c.strstart + c.lookahead <= |c.window|
  {}

  lemma WindowByte(c: Core, g: Past, i: nat)
    requires Windowed(c, g) && g.base + i < |g.hist|
    ensures c.window[i] == g.hist[g.base + i]
  {
    assert g.hist[g.base..][i] == c.window[..|g.hist| - g.base][i];
  }

  lemma WindowSlice(c: Core, g: Past, from: nat, to: nat)
    requires Windowed(c, g) && from <= to && g.base + to <= |g.hist|
    ensures c.window[from..to] == g.hist[g.base + from..g.base + to]
  {
    assert g.hist[g.base + from..g.base + to] == g.hist[g.base..][from..to];
    assert c.window[from..to] == c.window[..|g.hist| - g.base][from..to];
  }

  // ----- INSERT_STRING -----

  /** INSERT_STRING: the new tables; the previous head of the chain is left in prev at the slot of `str`. */
  function InsertString(c: Core, str: nat): Core
    requires str + 2 < |c.window| == 2 * c.p.wSize && |c.prev| == c.p.wSize
    requires Update(c.p.hashBits, c.insH, c.window[str + 2]) < |c.head|
  {
    var h := Update(c.p.hashBits, c.insH, c.window[str + 2]);
    c.(insH := h, prev := c.prev[Slot(c.p.wSize, str) := c.head[h]], head := c.head[h := str])
  }

  function Enter(g: Past, str: nat): Past {
    g.(ins := g.ins + {g.base + str})
  }

  lemma KeyReached(c: Core, g: Past, str: nat, hi: int)
    requires Sane(c, g, hi, hi) && g.base + str + MIN_MATCH <= |g.hist| && HashAt(c, g, g.base + str)
    ensures Dictionary(c, g).Shape() && g.base + str < |g.keys| && str + 2 < |c.window|
    ensures Update(c.p.hashBits, c.insH, c.window[str + 2]) == g.keys[g.base + str] < |c.head|
    ensures Primed(g.next, g.keys[g.base + str], g.hist[g.base + str + 1], g.hist[g.base + str + 2])
  {
    var q := g.base + str;
    WindowByte(c, g, str + 2);
    HashStep(g.next, c.insH, g.hist[q], g.hist[q + 1], g.hist[q + 2]);
  }

  lemma InsertSane(c: Core, g: Past, str: nat, hi: int)
    requires Sane(c, g, hi, hi) && g.base + str + MIN_MATCH <= |g.hist| && HashAt(c, g, g.base + str)
    requires g.base + str <= hi <= g.base + str + c.p.wSize
    ensures InsertString.requires(c, str)
    ensures var d := InsertString(c, str);
      && Sane(d, Enter(g, str), if hi == g.base + str then hi + 1 else hi, hi)
      && HashAt(d, Enter(g, str), g.base + str + 1)
      && Dictionary(d, Enter(g, str)).Entry(d.prev[Slot(c.p.wSize, str)], g.keys[g.base + str], hi)
  {
    hide KeysHold, WindowHolds, Dict.Ok, Update;
    KeyReached(c, g, str, hi);
    var dict := Dictionary(c, g);
    InsertKeeps(dict, str, hi);
    HeadIsEntry(dict, g.keys[g.base + str], hi, hi);
    assert Dictionary(InsertString(c, str), Enter(g, str)) == dict.Insert(str);
  }

  /** The dictionary bounds move on with strstart. */
  lemma AdvanceSane(c: Core, g: Past, hi: int, lk: int, hi': int)
    requires Sane(c, g, hi, lk) && hi <= hi' && lk <= hi'
    ensures Sane(c, g, hi', hi')
  {
    AdvanceKeeps(Dictionary(c, g), hi, lk, hi');
  }

  /** Moves strstart to the next byte and enters the string there, as the loops that skip over a match do. */
  function EnterNext(c: Core): Core
    requires InsertString.requires(c, c.strstart + 1)
  {
    InsertString(c, c.strstart + 1).(strstart := c.strstart + 1)
  }

  /** strstart has just been entered and the running hash is ready for the string after it. */
  ghost predicate Entered(c: Core, g: Past) {
    Sane(c, g, Here(c, g) + 1, Here(c, g)) && HashAt(c, g, Here(c, g) + 1)
  }

  lemma EnterNextEntered(c: Core, g: Past)
    requires Entered(c, g) && Here(c, g) + 1 + MIN_MATCH <= |g.hist|
    ensures InsertString.requires(c, c.strstart + 1)
    ensures Entered(EnterNext(c), Enter(g, c.strstart + 1))
  {
    hide KeysHold, WindowHolds, HashReady, Dict.Ok;
    AdvanceSane(c, g, Here(c, g) + 1, Here(c, g), Here(c, g) + 1);
    InsertSane(c, g, c.strstart + 1, Here(c, g) + 1);
  }

  // ----- longest_match -----

  /** The first `n` bytes at strstart and at window index `cur` agree in memory. */
  ghost predicate Agree(c: Core, cur: int, n: nat)
    requires 0 <= cur <= c.strstart && c.strstart + n <= |c.window|
  {
    c.window[c.strstart..c.strstart + n] == c.window[cur..cur + n]
  }

  lemma AgreeOneMore(c: Core, cur: nat, n: nat)
    requires cur < c.strstart && c.strstart + n < |c.window| && Agree(c, cur, n)
    ensures Agree(c, cur, n + 1) <==> c.window[c.strstart + n] == c.window[cur + n]
  {
    var a, b := c.window[c.strstart..c.strstart + n + 1], c.window[cur..cur + n + 1];
    assert a == c.window[c.strstart..c.strstart + n] + [c.window[c.strstart + n]];
    assert b == c.window[cur..cur + n] + [c.window[cur + n]];
    assert a[n] == c.window[c.strstart + n] && b[n] == c.window[cur + n];
  }

  lemma AgreeFewer(c: Core, cur: nat, n: nat, k: nat)
    requires cur < c.strstart && k <= n && c.strstart + n <= |c.window| && Agree(c, cur, n)
    ensures Agree(c, cur, k)
  {
    Shorter(c.window, c.strstart, n, k);
    Shorter(c.window, cur, n, k);
  }

  lemma Shorter(s: seq<Byte>, from: nat, n: nat, k: nat)
    requires k <= n && from + n <= |s|
    ensures s[from..from + k] == s[from..from + n][..k]
  {
    var all := s[from..from + n];
    assert forall i :: 0 <= i < k ==> all[i] == s[from + i];
  }

  /** The unrolled comparison of longest_match: eight bytes between two tests against strend.  It may read
      past the valid input, but never past the window. */
  method MatchLength(c: Core, cur: nat) returns (len: nat)
    requires cur < c.strstart && c.strstart + MAX_MATCH < |c.window|
    requires Agree(c, cur, MIN_MATCH)
    ensures MIN_MATCH <= len <= MAX_MATCH
    ensures Agree(c, cur, len)
    ensures len < MAX_MATCH ==> !Agree(c, cur, len + 1)
  {
    hide Agree;
    var same := true;
    len := 2;
    AgreeFewer(c, cur, MIN_MATCH, 2);
    while same && len < MAX_MATCH
      invariant 2 <= len <= MAX_MATCH && (same ==> (len - 2) % 8 == 0)
      invariant Agree(c, cur, len)
      invariant same <==> Agree(c, cur, len + 1)
      decreases MAX_MATCH - len, same
    {
      var start, group := len, 0;
      while same && group < 8
        invariant group <= 8 && len == start + group <= MAX_MATCH
        invariant Agree(c, cur, len)
        invariant same <==> Agree(c, cur, len + 1)
        decreases 8 - group, same
      {
        len, group := len + 1, group + 1;
        same := c.window[c.strstart + len] == c.window[cur + len];
        AgreeOneMore(c, cur, len);
      }
    }
  }

  /** The situation in which longest_match is called: the string at strstart has just been entered. */
  ghost predicate Searching(c: Core, g: Past) {
    && Sane(c, g, Here(c, g) + 1, Here(c, g))
    && g.base + c.strstart + c.lookahead == |g.hist| && c.lookahead >= MIN_MATCH
    && c.strstart + MIN_LOOKAHEAD <= |c.window| == 2 * c.p.wSize
  }

  /** `cur` is a window index before strstart, no further back than MAX_DIST. */
  ghost predicate InReach(c: Core, cur: int) {
    c.p.wSize >= 512 && 0 < cur < c.strstart && c.strstart - cur <= c.p.MaxDist()
  }

  /** `cur` is on the hash chain of the string at strstart. */
  ghost predicate OnChain(c: Core, g: Past, cur: int) {
    && InReach(c, cur)
    && 0 <= Here(c, g) < |g.keys|
    && Dictionary(c, g).Entry(cur, g.keys[Here(c, g)], Here(c, g))
  }

  lemma KeyInWindow(c: Core, g: Past, i: nat)
    requires Windowed(c, g) && Keyed(c, g) && g.base + i + MIN_MATCH <= |g.hist|
    ensures Sound(g.next)
    ensures g.keys[g.base + i] == Key(g.next, c.window[i], c.window[i + 1], c.window[i + 2])
  {
    WindowByte(c, g, i);
    WindowByte(c, g, i + 1);
    WindowByte(c, g, i + 2);
  }

  /** The byte that longest_match does not compare agrees because the keys do. */
  lemma SameThirdByte(c: Core, g: Past, cur: nat)
    requires Searching(c, g) && OnChain(c, g, cur)
    requires c.window[cur] == c.window[c.strstart] && c.window[cur + 1] == c.window[c.strstart + 1]
    ensures Agree(c, cur, MIN_MATCH)
  {
    hide KeysHold, Dict.Ok;
    var w, s := c.window, c.strstart;
    KeyInWindow(c, g, cur);
    KeyInWindow(c, g, s);
    ThirdByte(g.next, w[cur], w[cur + 1], w[cur + 2], w[s + 2]);
    assert w[s..s + 3] == [w[s], w[s + 1], w[s + 2]];
    assert w[cur..cur + 3] == [w[cur], w[cur + 1], w[cur + 2]];
  }

  /** The tests longest_match makes on one chain entry: 0 when it cannot improve on `bestLen`, otherwise the length
      of its match in memory. */
  method Candidate(c: Core, ghost g: Past, cur: nat, bestLen: nat) returns (n: nat)
    requires Searching(c, g) && OnChain(c, g, cur)
    requires 1 <= bestLen <= MAX_MATCH
    ensures n == 0 || MIN_MATCH <= n <= MAX_MATCH
    ensures Agree(c, cur, n)
    ensures n == 0 ==> !Agree(c, cur, bestLen + 1)
    ensures 0 < n < MAX_MATCH ==> !Agree(c, cur, n + 1)
  {
    hide Sane, Dict.Entry;
    var w, scan := c.window, c.strstart;
    if w[cur + bestLen] != w[scan + bestLen] || w[cur + bestLen - 1] != w[scan + bestLen - 1] ||
       w[cur] != w[scan] || w[cur + 1] != w[scan + 1]
    {
      CannotImprove(c, cur, bestLen);
      n := 0;
    } else {
      SameThirdByte(c, g, cur);
      n := MatchLength(c, cur);
    }
  }

  lemma CannotImprove(c: Core, cur: nat, bestLen: nat)
    requires cur < c.strstart && 1 <= bestLen && c.strstart + bestLen < |c.window|
    requires c.window[cur + bestLen] != c.window[c.strstart + bestLen] ||
             c.window[cur + bestLen - 1] != c.window[c.strstart + bestLen - 1] ||
             c.window[cur] != c.window[c.strstart] || c.window[cur + 1] != c.window[c.strstart + 1]
    ensures !Agree(c, cur, bestLen + 1)
  {
    if Agree(c, cur, bestLen + 1) {
      AgreeAt(c, cur, bestLen + 1, 0);
      AgreeAt(c, cur, bestLen + 1, 1);
      AgreeAt(c, cur, bestLen + 1, bestLen - 1);
      AgreeAt(c, cur, bestLen + 1, bestLen);
    }
  }

  lemma AgreeAt(c: Core, cur: nat, n: nat, i: nat)
    requires cur < c.strstart && i < n && c.strstart + n <= |c.window| && Agree(c, cur, n)
    ensures c.window[cur + i] == c.window[c.strstart + i]
  {
    assert c.window[c.strstart..c.strstart + n][i] == c.window[cur..cur + n][i];
  }

  /** The link of a chain entry that is within reach is again on the chain, or ends it. */
  lemma LinkOnChain(c: Core, g: Past, cur: nat)
    requires Searching(c, g) && OnChain(c, g, cur)
    ensures |c.prev| == c.p.wSize
    ensures var next := c.prev[Slot(c.p.wSize, cur)];
      InReach(c, next) ==> OnChain(c, g, next)
    ensures c.prev[Slot(c.p.wSize, cur)] == 0 || c.prev[Slot(c.p.wSize, cur)] < c.strstart
  {
    LinkIsEntry(Dictionary(c, g), g.base + cur, Here(c, g) + 1, Here(c, g));
  }

  /** No string that the search has seen agrees with the one at strstart for more than `bestLen` bytes. */
  ghost predicate NoneLonger(c: Core, seen: set<nat>, bestLen: nat)
    requires c.strstart + MAX_MATCH + 1 <= |c.window| && bestLen <= MAX_MATCH
  {
    bestLen < MAX_MATCH ==> forall v :: v in seen && v < c.strstart ==> !Agree(c, v, bestLen + 1)
  }

  lemma NoneLongerGrows(c: Core, seen: set<nat>, bestLen: nat, n: nat)
    requires c.strstart + MAX_MATCH + 1 <= |c.window| && bestLen <= n <= MAX_MATCH
    requires NoneLonger(c, seen, bestLen)
    ensures NoneLonger(c, seen, n)
  {
    if n < MAX_MATCH {
      forall v | v in seen && v < c.strstart
        ensures !Agree(c, v, n + 1)
      {
        if Agree(c, v, n + 1) {
          AgreeFewer(c, v, n + 1, bestLen + 1);
        }
      }
    }
  }

  /** The first `n` entries of a chain from `cur` on, as far as it lies within MAX_DIST. */
  function Visited(c: Core, cur: nat, n: nat): set<nat>
    requires c.p.wSize >= 512 && |c.prev| == c.p.wSize
    decreases n
  {
    if n == 0 || cur >= 2 * c.p.wSize then {}
    else
      var next := c.prev[Slot(c.p.wSize, cur)];
      {cur} + if next > Limit(c) then Visited(c, next, n - 1) else {}
  }

  /** The window index at which a search gives up. */
  function Limit(c: Core): nat
    requires c.p.wSize >= 512
  {
    if c.strstart > c.p.MaxDist() then c.strstart - c.p.MaxDist() else 0
  }

  /** The length at which a search is content: nice_length, cut to the lookahead. */
  function NiceMatch(c: Core): nat {
    if c.p.tuning.niceLength > c.lookahead then c.lookahead else c.p.tuning.niceLength
  }

  /** The number of chain entries a search may look at. */
  function ChainLength(c: Core): nat {
    if c.prevLength >= c.p.tuning.goodLength then c.p.tuning.maxChain / 4 else c.p.tuning.maxChain
  }

  /**
    Unless it is nice enough or reaches the end of the input, no entry within the search's budget has a longer match.
   */
  ghost predicate Longest(c: Core, curMatch: nat, len: nat) {
    && c.p.wSize >= 512 && |c.prev| == c.p.wSize && c.strstart + MAX_MATCH + 1 <= |c.window| && len <= MAX_MATCH
    && (|| len == c.lookahead || (len > c.prevLength && len >= NiceMatch(c))
        || NoneLonger(c, Visited(c, curMatch, ChainLength(c)), len))
  }

  /**
    What a search of the chain of the string just entered at strstart finds: nothing, and `none` stands for it, if the
    chain has no entry within reach, and otherwise a longest match.
   */
  ghost predicate Sought(c: Core, len: nat, none: nat) {
    && c.p.wSize >= 512 && |c.prev| == c.p.wSize && c.strstart < 2 * c.p.wSize
    && var h := c.prev[Slot(c.p.wSize, c.strstart)];
       if h != 0 && c.strstart - h <= c.p.MaxDist() then Longest(c, h, len) else len == none
  }

  lemma SearchSizes(c: Core, g: Past)
    requires Searching(c, g)
    ensures c.p.wSize >= 512 && |c.prev| == c.p.wSize && c.p.tuning.maxChain >= 4
    ensures c.strstart + MAX_MATCH + 1 <= |c.window| && |c.window| == 2 * c.p.wSize && g.origin <= g.base
  {}

  /** The chain walk: stops after maxChain entries, at a match that is long enough, or at the end of the
      part of the chain that lies within MAX_DIST.  Of all entries seen it keeps a longest. */
  method SearchChain(c: Core, ghost g: Past, curMatch: nat, maxChain: nat)
      returns (bestLen: nat, bestStart: nat, ghost seen: set<nat>)
    requires Searching(c, g) && OnChain(c, g, curMatch) && maxChain > 0
    requires 1 <= c.prevLength <= MAX_MATCH
    ensures c.prevLength <= bestLen <= MAX_MATCH
    ensures bestLen > c.prevLength ==> InReach(c, bestStart) && Agree(c, bestStart, bestLen)
    ensures NoneLonger(c, seen, bestLen) && c.p.wSize >= 512 && |c.prev| == c.p.wSize
    ensures (bestLen > c.prevLength && bestLen >= NiceMatch(c)) || Visited(c, curMatch, maxChain) <= seen
  {
    SearchSizes(c, g);
    hide OnChain, Agree, NoneLonger, Visited, Searching, Found, Ahead;
    var s := Search(curMatch, maxChain, true, c.prevLength, 0);
    seen := {};
    SearchStarts(c, g, curMatch, maxChain);
    while s.searching
      invariant Found(c, s, seen) && Ahead(c, g, curMatch, maxChain, s, seen)
      decreases s.left
    {
      s, seen := Hop(c, g, curMatch, maxChain, s, seen);
    }
    SearchEnds(c, g, curMatch, maxChain, s, seen);
    bestLen, bestStart := s.bestLen, s.bestStart;
  }

  /** A search: the entry it is at, how many it may still look at, and the best match so far. */
  datatype Search = Search(cur: nat, left: nat, searching: bool, bestLen: nat, bestStart: nat)

  /** The best match so far is one, and none of those seen is longer. */
  ghost predicate Found(c: Core, s: Search, seen: set<nat>) {
    && c.strstart + MAX_MATCH + 1 <= |c.window| && c.prevLength <= s.bestLen <= MAX_MATCH
    && (s.bestLen > c.prevLength ==> InReach(c, s.bestStart) && Agree(c, s.bestStart, s.bestLen))
    && NoneLonger(c, seen, s.bestLen)
  }

  /** What a search has still to look at is on the chain; if it is over, it is content or has seen it all. */
  ghost predicate Ahead(c: Core, g: Past, curMatch: nat, maxChain: nat, s: Search, seen: set<nat>) {
    && c.p.wSize >= 512 && |c.prev| == c.p.wSize
    && if s.searching then s.left > 0 && OnChain(c, g, s.cur) && Pursued(c, curMatch, maxChain, seen, s.cur, s.left)
       else (s.bestLen > c.prevLength && s.bestLen >= NiceMatch(c)) || Visited(c, curMatch, maxChain) <= seen
  }

  lemma SearchStarts(c: Core, g: Past, curMatch: nat, maxChain: nat)
    requires Searching(c, g) && OnChain(c, g, curMatch) && maxChain > 0 && 1 <= c.prevLength <= MAX_MATCH
    ensures var s := Search(curMatch, maxChain, true, c.prevLength, 0);
      Found(c, s, {}) && Ahead(c, g, curMatch, maxChain, s, {})
  {
    SearchSizes(c, g);
    hide Searching, OnChain, Visited, Agree;
    NothingSeen(c, c.prevLength);
    PursueFirst(c, curMatch, maxChain);
  }

  lemma SearchEnds(c: Core, g: Past, curMatch: nat, maxChain: nat, s: Search, seen: set<nat>)
    requires Found(c, s, seen) && Ahead(c, g, curMatch, maxChain, s, seen) && !s.searching
    ensures c.strstart + MAX_MATCH + 1 <= |c.window| && c.p.wSize >= 512 && |c.prev| == c.p.wSize
    ensures c.prevLength <= s.bestLen <= MAX_MATCH
    ensures s.bestLen > c.prevLength ==> InReach(c, s.bestStart) && Agree(c, s.bestStart, s.bestLen)
    ensures NoneLonger(c, seen, s.bestLen)
    ensures (s.bestLen > c.prevLength && s.bestLen >= NiceMatch(c)) || Visited(c, curMatch, maxChain) <= seen
  {
    hide OnChain, Visited, Agree, NoneLonger;
  }

  /** One round of the walk. */
  method Hop(c: Core, ghost g: Past, ghost curMatch: nat, ghost maxChain: nat, s: Search, ghost seen: set<nat>)
      returns (t: Search, ghost seen': set<nat>)
    requires Searching(c, g) && Found(c, s, seen) && Ahead(c, g, curMatch, maxChain, s, seen) && s.searching
    requires c.prevLength >= 1
    ensures Found(c, t, seen') && Ahead(c, g, curMatch, maxChain, t, seen') && t.left < s.left
  {
    hide OnChain, Agree, NoneLonger, Visited, Searching, Pursued, InReach;
    var n := Visit(c, g, s.cur, s.bestLen, seen);
    var better := n > s.bestLen;
    PursueNext(c, curMatch, maxChain, seen, s.cur, s.left);
    NextOnChain(c, g, s.cur);
    seen' := seen + {s.cur};
    var next := c.prev[Slot(c.p.wSize, s.cur)];
    var go := !(better && n >= NiceMatch(c)) && next > Limit(c) && s.left - 1 != 0;
    t := Search(next, s.left - 1, go, n, if better then s.cur else s.bestStart);
  }

  /** One entry of the chain: its match if that is longer, and otherwise the length so far. */
  method Visit(c: Core, ghost g: Past, cur: nat, bestLen: nat, ghost seen: set<nat>) returns (n: nat)
    requires Searching(c, g) && OnChain(c, g, cur) && 1 <= bestLen <= MAX_MATCH
    requires c.strstart + MAX_MATCH + 1 <= |c.window| && NoneLonger(c, seen, bestLen)
    ensures bestLen <= n <= MAX_MATCH && InReach(c, cur) && cur < 2 * c.p.wSize && NoneLonger(c, seen + {cur}, n)
    ensures n > bestLen ==> Agree(c, cur, n)
  {
    hide Dict.Entry, Agree, NoneLonger, Sane;
    n := Candidate(c, g, cur, bestLen);
    SeenOneMore(c, seen, cur, bestLen, n);
    if n <= bestLen {
      n := bestLen;
    }
  }

  /** The link to the next entry of the chain is within reach if it is beyond the limit. */
  lemma NextOnChain(c: Core, g: Past, cur: nat)
    requires Searching(c, g) && OnChain(c, g, cur)
    ensures c.p.wSize >= 512 && |c.prev| == c.p.wSize && cur < 2 * c.p.wSize
    ensures c.prev[Slot(c.p.wSize, cur)] > Limit(c) ==> OnChain(c, g, c.prev[Slot(c.p.wSize, cur)])
  {
    hide Dict.Entry, Sane;
    SearchSizes(c, g);
    LinkOnChain(c, g, cur);
  }

  lemma NothingSeen(c: Core, bestLen: nat)
    requires c.strstart + MAX_MATCH + 1 <= |c.window| && bestLen <= MAX_MATCH
    ensures NoneLonger(c, {}, bestLen)
  {}

  /** What one candidate contributes. */
  lemma SeenOneMore(c: Core, seen: set<nat>, cur: nat, bestLen: nat, n: nat)
    requires c.strstart + MAX_MATCH + 1 <= |c.window| && cur < c.strstart
    requires 1 <= bestLen <= MAX_MATCH && n <= MAX_MATCH && NoneLonger(c, seen, bestLen)
    requires n == 0 ==> !Agree(c, cur, bestLen + 1)
    requires 0 < n < MAX_MATCH ==> !Agree(c, cur, n + 1)
    ensures NoneLonger(c, seen + {cur}, if n > bestLen then n else bestLen)
  {
    hide Agree;
    if n > bestLen {
      NoneLongerGrows(c, seen, bestLen, n);
    } else if 0 < n < MAX_MATCH {
      NoneLongerGrows(c, {cur}, n, bestLen);
    }
  }

  /** The entries to be visited are among those seen and those still ahead. */
  ghost predicate Pursued(c: Core, curMatch: nat, maxChain: nat, seen: set<nat>, cur: nat, n: nat)
    requires c.p.wSize >= 512 && |c.prev| == c.p.wSize
  {
    Visited(c, curMatch, maxChain) <= seen + Visited(c, cur, n)
  }

  lemma PursueFirst(c: Core, curMatch: nat, maxChain: nat)
    requires c.p.wSize >= 512 && |c.prev| == c.p.wSize
    ensures Pursued(c, curMatch, maxChain, {}, curMatch, maxChain)
  {}

  lemma PursueNext(c: Core, curMatch: nat, maxChain: nat, seen: set<nat>, cur: nat, n: nat)
    requires c.p.wSize >= 512 && |c.prev| == c.p.wSize && n > 0 && cur < 2 * c.p.wSize
    requires Pursued(c, curMatch, maxChain, seen, cur, n)
    ensures var next := c.prev[Slot(c.p.wSize, cur)];
      if next > Limit(c) && n > 1 then Pursued(c, curMatch, maxChain, seen + {cur}, next, n - 1)
      else Visited(c, curMatch, maxChain) <= seen + {cur}
  {
    hide Visited;
    VisitNext(c, cur, n);
  }

  lemma VisitNext(c: Core, cur: nat, n: nat)
    requires c.p.wSize >= 512 && |c.prev| == c.p.wSize && n > 0 && cur < 2 * c.p.wSize
    ensures var next := c.prev[Slot(c.p.wSize, cur)];
      Visited(c, cur, n) == {cur} + (if next > Limit(c) then Visited(c, next, n - 1) else {})
      && Visited(c, next, 0) == {}
  {}

  /** Agreement in memory, cut to the valid input, is agreement of the input. */
  lemma AgreeIsGenuine(c: Core, g: Past, cur: nat, n: nat, len: nat)
    requires Windowed(c, g) && cur < c.strstart && len <= n && c.strstart + n <= |c.window|
    requires Here(c, g) + len <= |g.hist| && Agree(c, cur, n)
    ensures Genuine(g.hist, Here(c, g), g.base + cur, len)
  {
    AgreeFewer(c, cur, n, len);
    WindowSlice(c, g, c.strstart, c.strstart + len);
    WindowSlice(c, g, cur, cur + len);
  }

  lemma IsLongest(c: Core, curMatch: nat, seen: set<nat>, bestLen: nat)
    requires c.p.wSize >= 512 && |c.prev| == c.p.wSize && c.strstart + MAX_MATCH + 1 <= |c.window|
    requires bestLen <= MAX_MATCH
    requires NoneLonger(c, seen, bestLen)
    requires (bestLen > c.prevLength && bestLen >= NiceMatch(c)) || Visited(c, curMatch, ChainLength(c)) <= seen
    ensures Longest(c, curMatch, if bestLen <= c.lookahead then bestLen else c.lookahead)
  {
    hide Agree, Visited;
  }

  /** longest_match: the new match length and match_start.  A length above prevLength is that of a genuine match. */
  method LongestMatch(c: Core, ghost g: Past, curMatch: nat) returns (len: nat, matchStart: int)
    requires Searching(c, g) && OnChain(c, g, curMatch)
    requires 1 <= c.prevLength <= MAX_MATCH
    ensures len <= c.lookahead && len <= MAX_MATCH
    ensures len >= c.prevLength || len == c.lookahead
    ensures len > c.prevLength ==> 0 <= matchStart && 1 <= c.strstart - matchStart <= c.p.MaxDist()
    ensures len > c.prevLength ==> Genuine(g.hist, Here(c, g), g.base + matchStart, len)
    ensures Longest(c, curMatch, len)
  {
    SearchSizes(c, g);
    hide Windowed, Keyed, Dict.Ok, Dict.Entry, Agree, Visited, NoneLonger, Longest, Genuine, Searching, OnChain;
    var chainLength := c.p.tuning.maxChain;
    if c.prevLength >= c.p.tuning.goodLength {
      chainLength := chainLength / 4;
    }
    var bestLen, bestStart;
    ghost var seen;
    bestLen, bestStart, seen := SearchChain(c, g, curMatch, chainLength);
    len := if bestLen <= c.lookahead then bestLen else c.lookahead;
    IsLongest(c, curMatch, seen, bestLen);
    matchStart := c.matchStart;
    if bestLen > c.prevLength {
      matchStart := bestStart;
      AgreeIsGenuine(c, g, bestStart, bestLen, len);
    }
  }

  /** What INSERT_STRING at strstart establishes for the search that follows it. */
  lemma InsertForSearch(c: Core, g: Past)
    requires Ready(c, g) && c.lookahead >= MIN_MATCH && c.strstart + MIN_LOOKAHEAD <= |c.window|
    ensures InsertString.requires(c, c.strstart)
    ensures var d, k := InsertString(c, c.strstart), Enter(g, c.strstart);
      && Searching(d, k) && Entered(d, k)
      && var h := d.prev[Slot(d.p.wSize, d.strstart)];
         h != 0 && d.strstart - h <= d.p.MaxDist() ==> OnChain(d, k, h)
  {
    hide KeysHold, WindowHolds, HashReady, Dict.Ok;
    InsertSane(c, g, c.strstart, Here(c, g));
    KeyReached(c, g, c.strstart, Here(c, g));
  }

  // ----- fill_window -----

  /** One table of slide_hash: every entry drops by the window size, and those that leave the window become NIL. */
  method SlideTable(table: seq<nat>, w: nat) returns (r: seq<nat>)
    ensures |r| == |table| && forall i :: 0 <= i < |r| ==> r[i] == if table[i] >= w then table[i] - w else 0
  {
    r := table;
    var n := |table|;
    while n > 0
      invariant 0 <= n <= |table| == |r|
      invariant forall i :: 0 <= i < n ==> r[i] == table[i]
      invariant forall i :: n <= i < |r| ==> r[i] == if table[i] >= w then table[i] - w else 0
    {
      n := n - 1;
      r := r[n := if r[n] >= w then r[n] - w else 0];
    }
  }

  /** Slides a nearly full window down by half its size, and the hash tables with it. */
  method SlideWindow(c: Core, ghost g: Past) returns (d: Core, ghost k: Past)
    requires Sane(c, g, Here(c, g), Here(c, g)) && g.base + c.strstart + c.lookahead == |g.hist|
    requires c.strstart >= c.p.wSize + c.p.MaxDist()
    ensures k == g.(base := g.base + c.p.wSize)
    ensures d == c.(window := d.window, head := d.head, prev := d.prev, strstart := c.strstart - c.p.wSize,
                    matchStart := c.matchStart - c.p.wSize, blockStart := c.blockStart - c.p.wSize)
    ensures Sane(d, k, Here(d, k), Here(d, k))
  {
    hide KeysHold, Dict.Ok;
    var w, n := c.p.wSize, c.strstart + c.lookahead - c.p.wSize;
    var head := SlideTable(c.head, w);
    var prev := SlideTable(c.prev, w);
    d := c.(window := c.window[w..w + n] + c.window[n..], head := head, prev := prev, strstart := c.strstart - w,
            matchStart := c.matchStart - w, blockStart := c.blockStart - w);
    k := g.(base := g.base + w);
    assert Dictionary(d, k) == Dictionary(c, g).Slide();
    SlideKeeps(Dictionary(c, g), Here(c, g));
    assert k.hist[k.base..] == g.hist[g.base..][w..];
  }

  /** The keys of `n` strings from position `m` on. */
  function KeysFrom(next: Table, hist: seq<Byte>, m: nat, n: nat): (tail: seq<nat>)
    requires Sound(next) && (n == 0 || m + n + 2 <= |hist|)
    ensures |tail| == n
    ensures forall i :: 0 <= i < n ==> tail[i] == Key(next, hist[m + i], hist[m + i + 1], hist[m + i + 2])
  {
    if n == 0 then []
    else
      var p := m + n - 1;
      KeysFrom(next, hist, m, n - 1) + [Key(next, hist[p], hist[p + 1], hist[p + 2])]
  }

  /** The keys that `more` bytes of input add. */
  lemma NewKeys(next: Table, hist: seq<Byte>, keys: seq<nat>, more: seq<Byte>) returns (tail: seq<nat>)
    requires Sound(next) && KeysOf(next, hist, keys)
    ensures forall i :: 0 <= i < |tail| ==> tail[i] < |next|
    ensures KeysOf(next, hist + more, keys + tail)
  {
    hide Key, Sound, KeysFrom;
    var all, m := hist + more, |keys|;
    tail := KeysFrom(next, all, m, KeyCount(|all|) - m);
    forall i | 0 <= i < |tail| ensures tail[i] < |next| {
      KeyBound(next, all[m + i], all[m + i + 1], all[m + i + 2]);
    }
    forall p | 0 <= p < |keys + tail| ensures (keys + tail)[p] == Key(next, all[p], all[p + 1], all[p + 2]) {
      if p < m {
        assert keys[p] == Key(next, hist[p], hist[p + 1], hist[p + 2]);
      } else {
        assert (keys + tail)[p] == tail[p - m];
      }
    }
  }

  /** New input adds keys and changes nothing else about the dictionary. */
  lemma AppendKeys(c: Core, g: Past, more: seq<Byte>, hi: int) returns (keys: seq<nat>)
    requires Keyed(c, g) && Dictionary(c, g).Ok(hi, hi)
    ensures var k := g.(hist := g.hist + more, keys := keys); Keyed(c, k) && Dictionary(c, k).Ok(hi, hi)
  {
    var tail := NewKeys(g.next, g.hist, g.keys, more);
    keys := g.keys + tail;
    GrowKeeps(Dictionary(c, g), tail, hi, hi);
    assert Dictionary(c, g.(hist := g.hist + more, keys := keys)) == Dictionary(c, g).(keys := keys);
  }

  function Min(a: nat, b: nat): nat {
    if a <= b then a else b
  }

  /** read_buf into the window after the valid input; at most `more` bytes. */
  method ReadBuf(c: Core, ghost g: Past, more: nat) returns (d: Core, ghost k: Past)
    requires Sane(c, g, Here(c, g), Here(c, g)) && g.base + c.strstart + c.lookahead == |g.hist|
    requires c.strstart + c.lookahead + more <= |c.window|
    ensures k == g.(hist := k.hist, keys := k.keys) && g.hist <= k.hist && k.hist + d.nextIn == g.hist + c.nextIn
    ensures d == c.(window := d.window, nextIn := d.nextIn, lookahead := c.lookahead + Min(|c.nextIn|, more))
    ensures |k.hist| == |g.hist| + Min(|c.nextIn|, more)
    ensures Sane(d, k, Here(d, k), Here(d, k))
  {
    hide Dict.Ok, KeysHold;
    var n, end := Min(|c.nextIn|, more), c.strstart + c.lookahead;
    var x := c.nextIn[..n];
    ghost var keys := AppendKeys(c, g, x, Here(c, g));
    k := g.(hist := g.hist + x, keys := keys);
    d := c.(window := c.window[..end] + x + c.window[end + n..], nextIn := c.nextIn[n..], lookahead := c.lookahead + n);
    assert (g.hist + x) + c.nextIn[n..] == g.hist + c.nextIn;
    assert Dictionary(d, k) == Dictionary(c, k);
    assert k.hist[k.base..] == g.hist[g.base..] + x;
    assert d.window[..|k.hist| - k.base] == c.window[..end] + x;
  }

  /** Starts the running hash afresh from the two bytes at window index `str`; past the valid input it is garbage. */
  function PrimeHash(c: Core, str: nat): Core
    requires str + 1 < |c.window|
  {
    c.(insH := Update(c.p.hashBits, c.window[str], c.window[str + 1]))
  }

  lemma PrimeHashReady(c: Core, g: Past, str: nat)
    requires Windowed(c, g) && Keyed(c, g) && g.base + str + 2 <= |g.hist|
    ensures str + 1 < |c.window| && HashAt(PrimeHash(c, str), g, g.base + str)
  {
    WindowByte(c, g, str);
    WindowByte(c, g, str + 1);
  }

  /** `d` differs from `c` at most in the dictionary tables and the running hash. */
  ghost predicate SameButTables(c: Core, d: Core) {
    d == c.(insH := d.insH, head := d.head, prev := d.prev)
  }

  /** Enters the strings left over at the end of the previous input, as far as the lookahead completes them, and
      leaves the running hash ready. */
  method InsertPending(c: Core, ghost g: Past) returns (d: Core, ghost k: Past)
    requires Sane(c, g, Here(c, g), Here(c, g)) && g.base + c.strstart + c.lookahead == |g.hist|
    requires c.insert <= 2 && c.insert <= c.strstart
    ensures k == g.(ins := k.ins)
    ensures SameButTables(c, d.(insert := c.insert)) && d.insert <= c.insert
    ensures Sane(d, k, Here(d, k), Here(d, k))
    ensures d.lookahead >= MIN_MATCH ==> HashAt(d, k, Here(d, k))
  {
    hide KeysHold, WindowHolds, HashReady, Dict.Ok;
    d, k := c, g;
    if d.lookahead + d.insert >= MIN_MATCH {
      var str := d.strstart - d.insert;
      PrimeHashReady(d, k, str);
      d := PrimeHash(d, str);
      while d.insert != 0 && d.lookahead + d.insert >= MIN_MATCH
        invariant k == g.(ins := k.ins)
        invariant SameButTables(c, d.(insert := c.insert)) && d.insert <= c.insert
        invariant str + d.insert == d.strstart
        invariant Sane(d, k, Here(d, k), Here(d, k)) && HashAt(d, k, k.base + str)
        decreases d.insert
      {
        InsertSane(d, k, str, Here(d, k));
        d, k := InsertString(d, str).(insert := d.insert - 1), Enter(k, str);
        str := str + 1;
      }
    }
  }

  /** What fill_window leaves alone: everything but the window, the tables and the input. */
  ghost predicate Refilled(c: Core, g: Past, d: Core, k: Past) {
    && k.next == g.next && g.hist <= k.hist && k.hist + d.nextIn == g.hist + c.nextIn
    && k.origin == g.origin && k.first == g.first
    && Here(d, k) == Here(c, g) && (d.strstart == c.strstart || d.strstart > 0)
    && k.base + d.matchStart == g.base + c.matchStart
    && k.base + d.blockStart == g.base + c.blockStart
    && d == c.(window := d.window, head := d.head, prev := d.prev, insH := d.insH, strstart := d.strstart,
               lookahead := d.lookahead, insert := d.insert, blockStart := d.blockStart, matchStart := d.matchStart,
               nextIn := d.nextIn)
  }

  /** One round of fill_window: slide if the window is nearly full, then read and enter pending strings. */
  method FillOnce(c: Core, ghost g: Past) returns (d: Core, ghost k: Past)
    requires Ready(c, g) && c.lookahead < MIN_LOOKAHEAD
    ensures Ready(d, k) && Refilled(c, g, d, k)
    ensures d.strstart + MIN_LOOKAHEAD <= |d.window|
    ensures c.nextIn == [] || |d.nextIn| < |c.nextIn|
  {
    hide KeysHold, WindowHolds, HashReady, Dict.Ok;
    d, k := c, g;
    if c.strstart >= c.p.wSize + c.p.MaxDist() {
      d, k := SlideWindow(c, g);
    }
    if d.nextIn != [] {
      d, k := ReadBuf(d, k, |d.window| - d.lookahead - d.strstart);
      d, k := InsertPending(d, k);
    }
  }

  /** fill_window: makes room and reads until there is enough lookahead or no input is left. */
  method FillWindow(c: Core, ghost g: Past) returns (d: Core, ghost k: Past)
    requires Ready(c, g) && c.lookahead < MIN_LOOKAHEAD
    ensures Ready(d, k) && Refilled(c, g, d, k)
    ensures d.strstart + MIN_LOOKAHEAD <= |d.window|
    ensures d.lookahead >= MIN_LOOKAHEAD || d.nextIn == []
  {
    hide Sane, HashAt;
    d, k := FillOnce(c, g);
    while d.lookahead < MIN_LOOKAHEAD && d.nextIn != []
      invariant Ready(d, k) && Refilled(c, g, d, k)
      invariant d.strstart + MIN_LOOKAHEAD <= |d.window|
      decreases |d.nextIn|
    {
      d, k := FillOnce(d, k);
    }
  }

  // ----- symbols and blocks -----

  datatype Flush = NoFlush | PartialFlush | SyncFlush | FullFlush | Finish | BlockFlush

  datatype BlockState = NeedMore | BlockDone | FinishStarted | FinishDone

  /** The flushed blocks expand to the first `start` bytes of the input, and the buffered symbols continue that
      expansion up to `pos`. */
  ghost predicate CodedAs(hist: seq<Byte>, blocks: seq<Block>, syms: seq<Symbol>, start: int, pos: int) {
    && 0 <= start <= pos <= |hist|
    && ExpandBlocks(blocks) == Some(hist[..start])
    && Expand(hist[..start], syms) == Some(hist[..pos])
  }

  /** The blocks since history was last forgotten, and the buffered symbols, do not need what was before. */
  ghost predicate Afresh(hist: seq<Byte>, origin: nat, blocks: seq<Block>, first: nat, syms: seq<Symbol>, start: int,
                         pos: int)
  {
    && origin <= |hist| && first <= |blocks|
    && CodedAs(hist[origin..], blocks[first..], syms, start - origin, pos - origin)
  }

  ghost predicate Coded(c: Core, g: Past, pos: int) {
    && CodedAs(g.hist, c.blocks, c.syms, g.base + c.blockStart, pos)
    && Afresh(g.hist, g.origin, c.blocks, g.first, c.syms, g.base + c.blockStart, pos)
  }

  lemma CodedGrows(hist: seq<Byte>, more: seq<Byte>, blocks: seq<Block>, syms: seq<Symbol>, start: int, pos: int)
    requires CodedAs(hist, blocks, syms, start, pos) && hist <= more
    ensures CodedAs(more, blocks, syms, start, pos)
  {
    assert more[..start] == hist[..start] && more[..pos] == hist[..pos];
  }

  lemma AfreshGrows(hist: seq<Byte>, more: seq<Byte>, origin: nat, blocks: seq<Block>, first: nat, syms: seq<Symbol>,
                    start: int, pos: int)
    requires Afresh(hist, origin, blocks, first, syms, start, pos) && hist <= more
    ensures Afresh(more, origin, blocks, first, syms, start, pos)
  {
    hide CodedAs;
    assert hist[origin..] <= more[origin..];
    CodedGrows(hist[origin..], more[origin..], blocks[first..], syms, start - origin, pos - origin);
  }

  /** _tr_tally_lit. */
  function TallyLiteral(c: Core, b: Byte): Core {
    c.(syms := c.syms + [Literal(b)])
  }

  /** _tr_tally_dist. */
  function TallyMatch(c: Core, distance: nat, length: nat): Core
    requires length >= MIN_MATCH
  {
    c.(syms := c.syms + [MatchSymbol(distance, length)])
  }

  /** The value the tally macros leave in bflush: the symbol buffer is full but for one entry. */
  predicate BufferFull(c: Core) {
    |c.syms| == c.p.litBufsize - 1
  }

  lemma TallyLiteralCoded(c: Core, g: Past, pos: int, b: Byte)
    requires Coded(c, g, pos) && pos < |g.hist| && g.hist[pos] == b
    ensures Coded(TallyLiteral(c, b), g, pos + 1)
  {
    hide CodedAs;
    var start, o := g.base + c.blockStart, g.origin;
    CodedLiteral(g.hist, c.blocks, c.syms, start, pos);
    CodedLiteral(g.hist[o..], c.blocks[g.first..], c.syms, start - o, pos - o);
  }

  lemma CodedLiteral(hist: seq<Byte>, blocks: seq<Block>, syms: seq<Symbol>, start: int, pos: int)
    requires CodedAs(hist, blocks, syms, start, pos) && pos < |hist|
    ensures 0 <= pos && CodedAs(hist, blocks, syms + [Literal(hist[pos])], start, pos + 1)
  {
    hide Expand, ExpandBlocks;
    LiteralExpands(hist, start, syms, pos);
  }

  lemma TallyMatchCoded(c: Core, g: Past, pos: int, distance: nat, length: nat)
    requires Coded(c, g, pos) && 1 <= distance <= MAX_DISTANCE && MIN_MATCH <= length <= MAX_MATCH
    requires Genuine(g.hist, pos, pos - distance, length) && g.origin <= pos - distance
    ensures Coded(TallyMatch(c, distance, length), g, pos + length)
  {
    hide Expand, ExpandBlocks;
    var start, o := g.base + c.blockStart, g.origin;
    MatchExpands(g.hist, start, c.syms, pos, distance, length);
    GenuineAfter(g.hist, o, pos, pos - distance, length);
    MatchExpands(g.hist[o..], start - o, c.syms, pos - o, distance, length);
  }

  /** A match in what comes after `o`. */
  lemma GenuineAfter(hist: seq<Byte>, o: nat, pos: int, from: int, len: nat)
    requires Genuine(hist, pos, from, len) && o <= from && o <= pos
    ensures Genuine(hist[o..], pos - o, from - o, len)
  {
    var after := hist[o..];
    assert after[pos - o..pos - o + len] == hist[pos..pos + len];
    assert after[from - o..from - o + len] == hist[from..from + len];
  }

  /** flush_pending: as many of the waiting bytes as there is room for. */
  function FlushPending(c: Core): Core {
    var n := Min(c.pending, c.availOut);
    c.(pending := c.pending - n, availOut := c.availOut - n, written := c.written + n)
  }

  /** The coder is handed something, and what it makes of it is written as far as there is room. */
  function Send(c: Core): Core {
    FlushPending(c.(puts := c.puts + 1, pending := c.pending + c.p.size(c.puts)))
  }

  /** FLUSH_BLOCK_ONLY: hands the buffered symbols to the Huffman coder, together with the raw bytes unless they
      have begun to slide out of the window. */
  function FlushBlock(c: Core, last: bool): Core
    requires c.blockStart <= c.strstart <= |c.window|
  {
    var raw := if c.blockStart >= 0 then Some(c.window[c.blockStart..c.strstart]) else None;
    Send(c.(blocks := c.blocks + [Block(c.syms, raw, c.strstart - c.blockStart, last)],
            syms := [], blockStart := c.strstart))
  }

  lemma FlushBlockCoded(c: Core, g: Past, last: bool)
    requires Windowed(c, g) && Here(c, g) <= |g.hist| && Coded(c, g, Here(c, g))
    ensures c.blockStart <= c.strstart <= |c.window|
    ensures Coded(FlushBlock(c, last), g, Here(c, g))
  {
    var d := FlushBlock(c, last);
    if c.blockStart >= 0 {
      WindowSlice(c, g, c.blockStart, c.strstart);
    }
    hide CodedAs, Afresh, WindowHolds;
    var start, b := g.base + c.blockStart, d.blocks[|c.blocks|];
    CodedBlock(g.hist, c.blocks, start, Here(c, g), b);
    AfreshBlock(g.hist, g.origin, c.blocks, g.first, start, Here(c, g), b);
  }

  lemma CodedBlock(hist: seq<Byte>, blocks: seq<Block>, start: int, end: int, b: Block)
    requires CodedAs(hist, blocks, b.syms, start, end) && b.rawLen == end - start
    requires b.raw.Some? ==> 0 <= start <= end <= |hist| && b.raw.value == hist[start..end]
    ensures CodedAs(hist, blocks + [b], [], end, end)
  {
    BlockExpands(hist, blocks, b, start, end);
  }

  lemma AfreshBlock(hist: seq<Byte>, origin: nat, blocks: seq<Block>, first: nat, start: int, end: int, b: Block)
    requires Afresh(hist, origin, blocks, first, b.syms, start, end) && b.rawLen == end - start
    requires b.raw.Some? ==> origin <= start <= end <= |hist| && b.raw.value == hist[start..end]
    ensures Afresh(hist, origin, blocks + [b], first, [], end, end)
  {
    hide CodedAs;
    var h := hist[origin..];
    if b.raw.Some? {
      assert h[start - origin..end - origin] == hist[start..end];
    }
    CodedBlock(h, blocks[first..], start - origin, end - origin, b);
    assert (blocks + [b])[first..] == blocks[first..] + [b];
  }

  // ----- output -----

  /** All the bytes that the coder makes of the first `n` blocks and markers. */
  function Total(size: nat -> nat, n: nat): nat {
    if n == 0 then 0 else Total(size, n - 1) + size(n - 1)
  }

  /** Every byte that the coder has made is written or waits. */
  predicate Balanced(c: Core) {
    c.written + c.pending == Total(c.p.size, c.puts)
  }

  /** Nothing waits while there is room. */
  predicate Drained(c: Core) {
    c.availOut == 0 || c.pending == 0
  }

  /**
    Between two states of one call: blocks are only added, and each is handed to the coder; the room that is used up is
    filled with bytes that the coder has made.
   */
  ghost predicate Outputs(c: Core, d: Core) {
    && d.p == c.p && d.availOut + d.written == c.availOut + c.written && c.written <= d.written
    && c.blocks <= d.blocks && d.puts - c.puts == |d.blocks| - |c.blocks|
    && (Balanced(c) ==> Balanced(d)) && (Drained(c) ==> Drained(d))
  }

  /** At most one symbol more, in the buffer or in the block that is flushed with it. */
  ghost predicate Tallied(c: Core, d: Core, more: seq<Symbol>) {
    || (d.blocks == c.blocks && d.syms == c.syms + more)
    || (|d.blocks| == |c.blocks| + 1 && c.blocks <= d.blocks && d.syms == []
        && d.blocks[|c.blocks|].syms == c.syms + more && BufferFull(c.(syms := c.syms + more)))
  }

  lemma OutputsTrans(c: Core, d: Core, e: Core)
    requires Outputs(c, d) && Outputs(d, e)
    ensures Outputs(c, e)
  {}

  lemma FlushBlockOutputs(c: Core, last: bool)
    requires c.blockStart <= c.strstart <= |c.window|
    ensures Outputs(c, FlushBlock(c, last)) && Drained(FlushBlock(c, last))
    ensures |FlushBlock(c, last).blocks| == |c.blocks| + 1 && FlushBlock(c, last).blocks[|c.blocks|].syms == c.syms
  {}

  /** A state that differs in nothing that has to do with output. */
  lemma SameOutputs(c: Core, d: Core)
    requires d.p == c.p && d.availOut == c.availOut && d.written == c.written && d.blocks == c.blocks
    requires d.puts == c.puts && d.pending == c.pending
    ensures Outputs(c, d)
  {}

  /** A block has no more symbols than the buffer holds, nor more bytes to be stored than a length field can tell. */
  predicate Bounded(b: Block) {
    |b.syms| < LIT_BUFSIZE_MAX && (b.raw.Some? ==> |b.raw.value| <= 0xffff)
  }

  /** No flushed block is marked as the last of the stream, and all are within the bounds of the coder. */
  predicate NoLast(blocks: seq<Block>) {
    forall b :: b in blocks ==> !b.last && Bounded(b)
  }

  /** Exactly the final block is marked as the last of the stream. */
  predicate EndsWithLast(blocks: seq<Block>) {
    && |blocks| > 0 && blocks[|blocks| - 1].last && Bounded(blocks[|blocks| - 1])
    && NoLast(blocks[..|blocks| - 1])
  }

  /** What a compression function may change over one call: it reads on, and only ever adds to what was read. */
  ghost predicate Continues(c: Core, g: Past, d: Core, k: Past) {
    && k.next == g.next && g.hist <= k.hist && k.hist + d.nextIn == g.hist + c.nextIn && Outputs(c, d)
    && k.origin == g.origin && k.first == g.first
  }

  /** How a compression function may return: it stops early only for want of input or of output room, and otherwise
      has coded all input and flushed every symbol; the last block is marked exactly when it was asked to finish. */
  ghost predicate Returns(d: Core, flush: Flush, r: BlockState) {
    && (r.NeedMore? ==>
          d.availOut == 0 || (flush.NoFlush? && d.nextIn == [] && d.lookahead < MIN_LOOKAHEAD))
    && (!r.NeedMore? ==> d.nextIn == [] && d.lookahead == 0 && d.syms == [] && !flush.NoFlush?)
    && (r.FinishStarted? || r.FinishDone? ==> flush.Finish? && EndsWithLast(d.blocks))
    && (r.NeedMore? || r.BlockDone? ==> NoLast(d.blocks))
    && (r.BlockDone? ==> !flush.Finish?)
    && (r.FinishStarted? ==> d.availOut == 0) && (r.BlockDone? || r.FinishDone? ==> d.availOut > 0)
  }

  lemma ContinuesSelf(c: Core, g: Past)
    ensures Continues(c, g, c, g)
  {}

  lemma ContinuesTrans(c: Core, g: Past, d: Core, k: Past, e: Core, m: Past)
    requires Continues(c, g, d, k) && Continues(d, k, e, m)
    ensures Continues(c, g, e, m)
  {}

  /** A block more: the only last one if it is marked so. */
  lemma OneBlockMore(blocks: seq<Block>, b: Block)
    requires NoLast(blocks) && Bounded(b)
    ensures if b.last then EndsWithLast(blocks + [b]) else NoLast(blocks + [b])
  {
    assert (blocks + [b])[..|blocks|] == blocks;
  }
}

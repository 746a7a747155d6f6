/** The piece lists of lib/regexp.c and the language they denote; for which of them backtracking can be exact. */
module RegexpLanguage {

  const NSUBEXP: nat := 10

  /**
    A circular list of pieces, from some piece to the guard that ends it. `nextbr` counts the pieces up to the next
    alternative, which starts after a Bar piece; 0 stands for the null pointer.
   */
  datatype List = Guard | Cons(head: Piece, next: List)

  datatype Piece = Piece(minRep: int, maxRep: int, kind: Kind, nextbr: nat)

  datatype Kind = Str(text: string) | Wildcard | Sol | Eol | Sub(list: List, sbxi: nat) | Bar

  function Size(l: List): nat {
    match l
    case Guard => 0
    case Cons(p, rest) => 1 + KindSize(p.kind) + Size(rest)
  }

  function KindSize(k: Kind): nat {
    match k
    case Sub(l, _) => 1 + Size(l)
    case _ => 0
  }

  /** At the guard or at a bar. */
  predicate AtEnd(l: List) {
    l.Guard? || l.head.kind.Bar?
  }

  function Length(l: List): nat {
    match l
    case Guard => 0
    case Cons(_, rest) => 1 + Length(rest)
  }

  function Drop(l: List, n: nat): (r: List)
    requires n <= Length(l)
    ensures Size(r) <= Size(l) && (n > 0 ==> Size(r) < Size(l))
  {
    if n == 0 then l else Drop(l.next, n - 1)
  }

  /** A piece may occur at least once, and every `nextbr` of the list leads just behind a bar further on. */
  predicate WellFormed(l: List) {
    match l
    case Guard => true
    case Cons(p, rest) =>
      && p.maxRep >= 1
      && (p.nextbr > 0 ==> p.nextbr <= Length(l) && Alternative(l, p.nextbr))
      && (p.kind.Sub? ==> WellFormed(p.kind.list))
      && WellFormed(rest)
  }

  /** After `n` pieces an alternative starts. */
  predicate Alternative(l: List, n: nat)
    requires n <= Length(l)
  {
    n > 0 && var bar := Drop(l, n - 1); bar.Cons? && bar.head.kind.Bar?
  }

  lemma {:induction false} DropWellFormed(l: List, n: nat)
    requires WellFormed(l) && n <= Length(l)
    ensures WellFormed(Drop(l, n))
  {
    if n > 0 {
      DropWellFormed(l.next, n - 1);
    }
  }

  // ----- the language: which slices s[i..j] of a subject match -----

  /** One occurrence of a piece. `^` is the start of the subject, `$` its end. */
  ghost predicate Once(k: Kind, s: string, i: nat, j: nat)
    decreases KindSize(k), 0
  {
    i <= j <= |s| &&
    match k
    case Str(text) => s[i..j] == text
    case Wildcard => j == i + 1
    case Sol => i == j == 0
    case Eol => i == j == |s|
    case Sub(l, _) => Matches(l, s, i, j)
    case Bar => false
  }

  /** `n` occurrences in a row. */
  ghost predicate Repeated(k: Kind, s: string, i: nat, j: nat, n: nat)
    decreases KindSize(k), n + 1
  {
    if n == 0 then i == j
    else exists m: nat :: Repeated(k, s, i, m, n - 1) && Once(k, s, m, j)
  }

  /** The pieces up to the next bar or the guard, one after the other, each as often as it may occur. */
  ghost predicate BranchMatches(l: List, s: string, i: nat, j: nat)
    decreases Size(l), 0
  {
    if AtEnd(l) then i == j
    else exists m: nat, n: nat :: PieceMatches(l.head, s, i, m, n) && BranchMatches(l.next, s, m, j)
  }

  ghost predicate PieceMatches(p: Piece, s: string, i: nat, j: nat, n: nat)
    decreases KindSize(p.kind), n + 2
  {
    p.minRep <= n <= p.maxRep && Repeated(p.kind, s, i, j, n)
  }

  /** Some alternative of the list. */
  ghost predicate Matches(l: List, s: string, i: nat, j: nat)
    decreases Size(l), 1
  {
    BranchMatches(l, s, i, j)
    || exists n: nat :: n <= Length(l) && Alternative(l, n) && BranchMatches(Drop(l, n), s, i, j)
  }

  /** Whatever the rest of a branch matches from position i', the whole from `l` matches from position i. */
  ghost predicate Leads(l: List, i: nat, l': List, i': nat, s: string) {
    forall j: nat :: BranchMatches(l', s, i', j) ==> BranchMatches(l, s, i, j)
  }

  lemma LeadsStep(l: List, i: nat, m: nat, n: nat, s: string)
    requires !AtEnd(l) && PieceMatches(l.head, s, i, m, n)
    ensures Leads(l, i, l.next, m, s)
  {}

  lemma LeadsTrans(l: List, i: nat, l': List, i': nat, l'': List, i'': nat, s: string)
    requires Leads(l, i, l', i', s) && Leads(l', i', l'', i'', s)
    ensures Leads(l, i, l'', i'', s)
  {}

  lemma RepeatedMore(k: Kind, s: string, i: nat, m: nat, j: nat, n: nat)
    requires Repeated(k, s, i, m, n) && Once(k, s, m, j)
    ensures Repeated(k, s, i, j, n + 1)
  {}

  lemma RepeatedOnce(k: Kind, s: string, i: nat, j: nat)
    requires Once(k, s, i, j)
    ensures Repeated(k, s, i, j, 1)
  {
    assert Repeated(k, s, i, i, 0);
  }

  // ----- the alternatives that are tried -----

  /** The alternative behind the first `n` pieces is reached from `l` over `nextbr`. */
  predicate Reached(l: List, n: nat)
    decreases Size(l)
  {
    n == 0 || (l.Cons? && 0 < l.head.nextbr <= n && l.head.nextbr <= Length(l)
               && Reached(Drop(l, l.head.nextbr), n - l.head.nextbr))
  }

  lemma {:induction false} DropLength(l: List, n: nat)
    requires n <= Length(l)
    ensures Length(Drop(l, n)) == Length(l) - n
  {
    if n > 0 {
      DropLength(l.next, n - 1);
    }
  }

  lemma {:induction false} ReachedAlternative(l: List, n: nat)
    requires WellFormed(l) && Reached(l, n) && n > 0
    ensures n <= Length(l) && Alternative(l, n)
    decreases Size(l)
  {
    var b := l.head.nextbr;
    DropLength(l, b);
    DropWellFormed(l, b);
    if n > b {
      ReachedAlternative(Drop(l, b), n - b);
    }
    DropFurther(l, b, n - b);
  }

  /** Some alternative that is reached. */
  ghost predicate Found(l: List, s: string, i: nat, j: nat) {
    exists n: nat :: n <= Length(l) && Reached(l, n) && BranchMatches(Drop(l, n), s, i, j)
  }

  /** What is found is in the language. */
  lemma FoundMatches(l: List, s: string, i: nat, j: nat)
    requires WellFormed(l) && Found(l, s, i, j)
    ensures Matches(l, s, i, j)
  {
    hide BranchMatches, Alternative, WellFormed;
    var n: nat :| n <= Length(l) && Reached(l, n) && BranchMatches(Drop(l, n), s, i, j);
    if n > 0 {
      ReachedAlternative(l, n);
    }
  }

  // ----- widths: pieces that can match in one way only -----

  /** How many characters the piece matches, if that is the same for all subjects; else -1. */
  function Width(k: Kind): int
    decreases KindSize(k), 0
  {
    match k
    case Str(text) => |text|
    case Wildcard => 1
    case Sol => 0
    case Eol => 0
    case Sub(l, _) => ListWidth(l)
    case Bar => -1
  }

  function BranchWidth(l: List): int
    decreases Size(l), 0
  {
    if AtEnd(l) then 0
    else
      var p, w, rest := l.head, Width(l.head.kind), BranchWidth(l.next);
      if 0 <= p.minRep == p.maxRep && w >= 0 && rest >= 0 then p.minRep * w + rest else -1
  }

  function ListWidth(l: List): int
    decreases Size(l), 1
  {
    if forall n: nat :: n <= Length(l) && Alternative(l, n) ==> BranchWidth(Drop(l, n)) == BranchWidth(l)
    then BranchWidth(l) else -1
  }

  lemma {:induction false} OnceWidth(k: Kind, s: string, i: nat, j: nat)
    requires Width(k) >= 0 && Once(k, s, i, j)
    ensures j == i + Width(k)
    decreases KindSize(k), 0
  {
    if k.Sub? {
      var l := k.list;
      assert Matches(l, s, i, j);
      if BranchMatches(l, s, i, j) {
        BranchHasWidth(l, s, i, j);
      } else {
        var n: nat :| n <= Length(l) && Alternative(l, n) && BranchMatches(Drop(l, n), s, i, j);
        BranchHasWidth(Drop(l, n), s, i, j);
      }
    }
  }

  lemma {:induction false} RepeatedWidth(k: Kind, s: string, i: nat, j: nat, n: nat)
    requires Width(k) >= 0 && Repeated(k, s, i, j, n)
    ensures j == i + n * Width(k)
    decreases KindSize(k), n + 1
  {
    hide Once;
    if n > 0 {
      var m := RepeatedSplit(k, s, i, j, n);
      RepeatedWidth(k, s, i, m, n - 1);
      OnceWidth(k, s, m, j);
      assert n * Width(k) == (n - 1) * Width(k) + Width(k);
    }
  }

  lemma {:induction false} BranchHasWidth(l: List, s: string, i: nat, j: nat)
    requires BranchWidth(l) >= 0 && BranchMatches(l, s, i, j)
    ensures j == i + BranchWidth(l)
    decreases Size(l), 0
  {
    if !AtEnd(l) {
      var m, n := BranchSplit(l, s, i, j);
      RepeatedWidth(l.head.kind, s, i, m, n);
      BranchHasWidth(l.next, s, m, j);
    }
  }

  // ----- simple branches: single pieces of fixed width, then repeated ones, then at most one single piece -----

  predicate Single(p: Piece) {
    p.minRep == 1 && p.maxRep == 1
  }

  /** Whether the piece occurs somewhere is decided correctly: it is no parenthesis, or one with a decided list. */
  predicate DecidedKind(k: Kind)
    decreases KindSize(k), 2
  {
    match k
    case Sub(l, _) => Decided(l)
    case Bar => false
    case _ => true
  }

  /** Repeated pieces, and at most one single piece behind them. */
  predicate Tail(l: List)
    decreases Size(l), 0
  {
    AtEnd(l)
    || (DecidedKind(l.head.kind)
        && if Single(l.head) then AtEnd(l.next) else Width(l.head.kind) >= 0 && Tail(l.next))
  }

  predicate Simple(l: List)
    decreases Size(l), 1
  {
    Tail(l)
    || (Single(l.head) && DecidedKind(l.head.kind) && Width(l.head.kind) >= 0 && Simple(l.next))
  }

  /** Every alternative is reached, and is simple. */
  predicate Decided(l: List)
    decreases Size(l), 2
  {
    && Simple(l)
    && forall n: nat :: n <= Length(l) && Alternative(l, n) ==> Reached(l, n) && Simple(Drop(l, n))
  }

  /** Every alternative that is reached is simple. */
  predicate Followed(l: List) {
    forall n: nat :: n <= Length(l) && Reached(l, n) ==> Simple(Drop(l, n))
  }

  /** Nothing matches from here. */
  ghost predicate Fails(l: List, s: string, i: nat) {
    forall j: nat :: !BranchMatches(l, s, i, j)
  }

  /** No simple alternative that is reached matches. */
  ghost predicate AllFail(l: List, s: string, i: nat, upTo: nat) {
    forall n: nat :: n <= Length(l) && n < upTo && Reached(l, n) && Simple(Drop(l, n)) ==> Fails(Drop(l, n), s, i)
  }

  /** The first alternative in turn that matches, as far as they are simple, and greedily. */
  ghost predicate Chosen(l: List, s: string, i: nat, j: nat) {
    exists n: nat :: n <= Length(l) && Reached(l, n) && AllFail(l, s, i, n)
      && BranchMatches(Drop(l, n), s, i, j) && (Simple(Drop(l, n)) ==> Greedy(Drop(l, n), s, i, j))
  }

  /** Where all the alternatives are reached and simple, nothing matches. */
  lemma DecidedFails(l: List, s: string, i: nat)
    requires Decided(l) && AllFail(l, s, i, Length(l) + 1)
    ensures forall j: nat :: !Matches(l, s, i, j)
  {
    hide BranchMatches, Alternative, Simple;
    assert Drop(l, 0) == l && Reached(l, 0);
  }

  lemma FollowedFails(l: List, s: string, i: nat)
    requires Followed(l) && AllFail(l, s, i, Length(l) + 1)
    ensures forall j: nat :: !Found(l, s, i, j)
  {
    hide BranchMatches, Simple;
  }

  /** A decided list is one whose alternatives are followed, and found is what matches. */
  lemma DecidedFound(l: List, s: string, i: nat, j: nat)
    requires WellFormed(l) && Decided(l)
    ensures Followed(l) && (Found(l, s, i, j) <==> Matches(l, s, i, j))
  {
    hide BranchMatches, Simple, WellFormed;
    forall n: nat | n <= Length(l) && Reached(l, n) ensures Simple(Drop(l, n)) {
      if n > 0 {
        ReachedAlternative(l, n);
      }
    }
    if Found(l, s, i, j) {
      FoundMatches(l, s, i, j);
    }
    if Matches(l, s, i, j) {
      assert Drop(l, 0) == l && Reached(l, 0);
    }
  }

  /** A piece of fixed width occurs in at most one way at each place. */
  lemma RepeatedUnique(k: Kind, s: string, i: nat, j: nat, j': nat, n: nat)
    requires Width(k) >= 0 && Repeated(k, s, i, j, n) && Repeated(k, s, i, j', n)
    ensures j == j'
  {
    hide Repeated;
    RepeatedWidth(k, s, i, j, n);
    RepeatedWidth(k, s, i, j', n);
  }

  lemma RepeatedSplit(k: Kind, s: string, i: nat, j: nat, n: nat) returns (m: nat)
    requires n > 0 && Repeated(k, s, i, j, n)
    ensures Repeated(k, s, i, m, n - 1) && Once(k, s, m, j)
  {
    hide Once;
    assert exists m: nat :: Repeated(k, s, i, m, n - 1) && Once(k, s, m, j);
    m :| Repeated(k, s, i, m, n - 1) && Once(k, s, m, j);
  }

  /** Where the repetition stops, it cannot go on. */
  lemma {:induction false} RepeatedNoMore(k: Kind, s: string, i: nat, p: nat, c: nat, n: nat, j: nat)
    requires Width(k) >= 0 && Repeated(k, s, i, p, c) && (forall q: nat :: !Once(k, s, p, q)) && n > c
    ensures !Repeated(k, s, i, j, n)
    decreases n
  {
    hide Once;
    if Repeated(k, s, i, j, n) {
      var m := RepeatedSplit(k, s, i, j, n);
      if n - 1 == c {
        RepeatedUnique(k, s, i, m, p, c);
      } else {
        RepeatedNoMore(k, s, i, p, c, n - 1, m);
      }
    }
  }

  lemma BranchSplit(l: List, s: string, i: nat, j: nat) returns (m: nat, n: nat)
    requires !AtEnd(l) && BranchMatches(l, s, i, j)
    ensures PieceMatches(l.head, s, i, m, n) && BranchMatches(l.next, s, m, j)
  {
    hide Repeated, Once;
    assert exists m: nat, n: nat :: PieceMatches(l.head, s, i, m, n) && BranchMatches(l.next, s, m, j);
    m, n :| PieceMatches(l.head, s, i, m, n) && BranchMatches(l.next, s, m, j);
  }

  /** With more than `cnt` occurrences of the first piece, nothing matches. */
  ghost predicate Missed(l: List, s: string, i: nat, cnt: int)
    requires l.Cons?
  {
    forall n: nat, j: nat :: cnt < n <= l.head.maxRep && Repeated(l.head.kind, s, i, j, n) ==> Fails(l.next, s, j)
  }

  lemma MissedFirst(l: List, s: string, i: nat)
    requires l.Cons?
    ensures Missed(l, s, i, l.head.maxRep)
  {}

  /** The occurrences have run out at `p`. */
  lemma MissedMore(l: List, s: string, i: nat, cnt: int, p: nat, c: nat)
    requires l.Cons? && Width(l.head.kind) >= 0 && Missed(l, s, i, cnt) && Repeated(l.head.kind, s, i, p, c)
    requires c < cnt ==> forall q: nat :: !Once(l.head.kind, s, p, q)
    ensures c < cnt ==> Missed(l, s, i, c)
  {
    hide Once, Repeated, Fails;
    if c < cnt {
      forall n: nat, j: nat | c < n ensures !Repeated(l.head.kind, s, i, j, n) {
        RepeatedNoMore(l.head.kind, s, i, p, c, n, j);
      }
    }
  }

  /** With `c` occurrences, the rest has failed. */
  lemma MissedOne(l: List, s: string, i: nat, cnt: int, p: nat, c: nat)
    requires l.Cons? && Width(l.head.kind) >= 0 && Missed(l, s, i, cnt) && (cnt == c || cnt < 0)
    requires Repeated(l.head.kind, s, i, p, c) && Fails(l.next, s, p)
    ensures Missed(l, s, i, cnt - 1)
  {
    hide Once, Repeated, Fails;
    forall n: nat, j: nat | cnt - 1 < n <= l.head.maxRep && Repeated(l.head.kind, s, i, j, n)
      ensures Fails(l.next, s, j)
    {
      if n == c {
        RepeatedUnique(l.head.kind, s, i, p, j, c);
      }
    }
  }

  /** All counts have been tried. */
  lemma MissedAll(l: List, s: string, i: nat, cnt: int)
    requires !AtEnd(l) && Missed(l, s, i, cnt) && cnt < l.head.minRep
    ensures Fails(l, s, i)
  {
    hide Once, Repeated;
    forall j: nat ensures !BranchMatches(l, s, i, j) {
      if BranchMatches(l, s, i, j) {
        var _, _ := BranchSplit(l, s, i, j);
      }
    }
  }

  /** A single piece matches in at most one way, so the rest of the branch decides. */
  lemma SingleStep(l: List, s: string, i: nat, m: nat)
    requires l.Cons? && Width(l.head.kind) >= 0 && Single(l.head) && Once(l.head.kind, s, i, m) && Fails(l.next, s, m)
    ensures Fails(l, s, i)
  {
    hide Once, Repeated;
    MissedFirst(l, s, i);
    RepeatedOnce(l.head.kind, s, i, m);
    MissedOne(l, s, i, 1, m, 1);
    MissedAll(l, s, i, 0);
  }

  lemma SingleStuck(l: List, s: string, i: nat)
    requires !AtEnd(l) && Single(l.head) && forall m: nat :: !Once(l.head.kind, s, i, m)
    ensures Fails(l, s, i)
  {
    hide Once;
    forall j: nat ensures !BranchMatches(l, s, i, j) {
      if BranchMatches(l, s, i, j) {
        var m, n := BranchSplit(l, s, i, j);
        var i' := RepeatedSplit(l.head.kind, s, i, m, 1);
        assert false;
      }
    }
  }

  // ----- greed: each piece as often as the rest allows -----

  /** The first piece takes s[i..m] in `n` occurrences, and with more of them the rest would not match. */
  ghost predicate Takes(l: List, s: string, i: nat, m: nat, n: nat)
    requires l.Cons?
  {
    PieceMatches(l.head, s, i, m, n) && Missed(l, s, i, n)
  }

  ghost predicate Greedy(l: List, s: string, i: nat, j: nat)
    decreases Size(l)
  {
    if AtEnd(l) then i == j else exists m: nat, n: nat :: Takes(l, s, i, m, n) && Greedy(l.next, s, m, j)
  }

  /** Whatever the rest of a branch takes from position i', the whole from `l` takes from position i. */
  ghost predicate Prefers(l: List, i: nat, l': List, i': nat, s: string) {
    forall j: nat :: Greedy(l', s, i', j) ==> Greedy(l, s, i, j)
  }

  lemma PrefersHere(l: List, i: nat, s: string)
    ensures Prefers(l, i, l, i, s)
  {}

  lemma PrefersStep(l: List, i: nat, m: nat, n: nat, cnt: int, s: string)
    requires !AtEnd(l) && PieceMatches(l.head, s, i, m, n) && Missed(l, s, i, cnt) && cnt <= n
    ensures Prefers(l, i, l.next, m, s)
  {
    hide PieceMatches, Repeated, Fails;
    assert Takes(l, s, i, m, n);
  }

  lemma PrefersTrans(l: List, i: nat, l': List, i': nat, l'': List, i'': nat, s: string)
    requires Prefers(l, i, l', i', s) && Prefers(l', i', l'', i'', s)
    ensures Prefers(l, i, l'', i'', s)
  {}

  lemma GreedyEnd(l: List, i: nat, l': List, i': nat, s: string)
    requires Prefers(l, i, l', i', s) && AtEnd(l')
    ensures Greedy(l, s, i, i')
  {
    assert Greedy(l', s, i', i');
  }

  lemma GreedySplit(l: List, s: string, i: nat, j: nat) returns (m: nat, n: nat)
    requires !AtEnd(l) && Greedy(l, s, i, j)
    ensures Takes(l, s, i, m, n) && Greedy(l.next, s, m, j)
  {
    hide Takes;
    m, n :| Takes(l, s, i, m, n) && Greedy(l.next, s, m, j);
  }

  lemma {:induction false} GreedyMatches(l: List, s: string, i: nat, j: nat)
    requires Greedy(l, s, i, j)
    ensures BranchMatches(l, s, i, j)
    decreases Size(l)
  {
    hide PieceMatches, Missed;
    if !AtEnd(l) {
      var m, n := GreedySplit(l, s, i, j);
      GreedyMatches(l.next, s, m, j);
    }
  }

  /** The pieces up to the end of the branch have fixed widths. */
  predicate Rigid(l: List) {
    AtEnd(l) || (Width(l.head.kind) >= 0 && Rigid(l.next))
  }

  lemma AtMost(l: List, s: string, i: nat, n: nat, m': nat, n': nat, j: nat)
    requires l.Cons? && Missed(l, s, i, n) && PieceMatches(l.head, s, i, m', n') && BranchMatches(l.next, s, m', j)
    ensures n' <= n
  {
    hide BranchMatches;
  }

  /** Then there is only one greedy way to match. */
  lemma {:induction false} GreedyUnique(l: List, s: string, i: nat, j: nat, j': nat)
    requires Rigid(l) && Greedy(l, s, i, j) && Greedy(l, s, i, j')
    ensures j == j'
    decreases Size(l)
  {
    hide Repeated, BranchMatches;
    if !AtEnd(l) {
      var m, n := GreedySplit(l, s, i, j);
      var m', n' := GreedySplit(l, s, i, j');
      GreedyMatches(l.next, s, m, j);
      GreedyMatches(l.next, s, m', j');
      AtMost(l, s, i, n, m', n', j');
      AtMost(l, s, i, n', m, n, j);
      RepeatedUnique(l.head.kind, s, i, m, m', n);
      GreedyUnique(l.next, s, m, j, j');
    }
  }

  lemma TailIsSimple(l: List)
    ensures (Tail(l) ==> Simple(l)) && (AtEnd(l) ==> Tail(l))
  {}

  /** The first piece of a simple branch. */
  lemma SimpleParts(l: List)
    requires !AtEnd(l)
    ensures Simple(l) ==> DecidedKind(l.head.kind) && Simple(l.next) && (Single(l.head) || Tail(l))
    ensures Simple(l) && !(Single(l.head) && AtEnd(l.next)) ==> Width(l.head.kind) >= 0
    ensures Tail(l) ==> if Single(l.head) then AtEnd(l.next) else Tail(l.next)
  {
    TailIsSimple(l.next);
    if Simple(l) && !Tail(l) {
      assert Single(l.head) && DecidedKind(l.head.kind);
    } else if Tail(l) {
      assert DecidedKind(l.head.kind);
    }
  }

  /** The end of a branch matches the empty string. */
  lemma EndDoesNotFail(l: List, s: string, i: nat)
    requires AtEnd(l)
    ensures !Fails(l, s, i)
  {
    EndMatches(l, s, i);
  }

  lemma EndMatches(l: List, s: string, i: nat)
    requires AtEnd(l)
    ensures BranchMatches(l, s, i, i)
  {}

  lemma {:induction false} DropFurther(l: List, n: nat, m: nat)
    requires n <= Length(l) && m <= Length(Drop(l, n))
    ensures n + m <= Length(l) && Drop(l, n + m) == Drop(Drop(l, n), m)
    ensures m > 0 ==> (Alternative(l, n + m) <==> Alternative(Drop(l, n), m))
  {
    if n > 0 {
      DropFurther(l.next, n - 1, m);
    }
  }
}

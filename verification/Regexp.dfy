/** The backtracking executor of lib/regexp.c against the language its piece lists denote. */
module Regexp {
  import opened RegexpLanguage

  // ----- the executor, as functions: where a match ends, or -1 -----

  /** regexec_p1. */
  function RunOnce(k: Kind, s: string, i: nat): (j: int)
    requires i <= |s|
    ensures j == -1 || i <= j <= |s|
    decreases KindSize(k), 0, 0
  {
    match k
    case Str(text) => if i + |text| <= |s| && s[i..i + |text|] == text then i + |text| else -1
    case Wildcard => if i < |s| then i + 1 else -1
    case Sol => if i == 0 then i else -1
    case Eol => if i == |s| then i else -1
    case Sub(l, _) => RunList(l, s, i)
    case Bar => -1
  }

  /** The inner loop of regexec_p: how many occurrences in a row there are, up to `n`, and where they end. */
  function RunReps(k: Kind, s: string, i: nat, n: int): (r: (nat, nat))
    requires i <= |s|
    ensures i <= r.1 <= |s| && (r.0 == 0 || r.0 <= n)
    decreases KindSize(k), 1, if n < 0 then 0 else n
  {
    if n <= 0 then (0, i)
    else
      var r := RunReps(k, s, i, n - 1);
      var j := if r.0 < n - 1 then -1 else RunOnce(k, s, r.1);
      if j == -1 then r else (n, j)
  }

  /** regexec_p: where it gets to in the list, and in the subject. */
  function RunPiece(l: List, s: string, i: nat): (r: (List, int))
    requires i <= |s|
    ensures r.1 == -1 || (i <= r.1 <= |s| && Size(r.0) <= Size(l) && (!AtEnd(l) ==> Size(r.0) < Size(l)))
    decreases Size(l), 1, 0
  {
    if AtEnd(l) then (l, i)
    else if Single(l.head) then (l.next, RunOnce(l.head.kind, s, i))
    else RunTries(l, s, i, l.head.maxRep)
  }

  /** The outer loop of regexec_p: at most `cnt` occurrences, and fewer if what follows does not fit. */
  function RunTries(l: List, s: string, i: nat, cnt: int): (r: (List, int))
    requires i <= |s| && !AtEnd(l)
    ensures r.1 == -1 || (i <= r.1 <= |s| && Size(r.0) < Size(l))
    decreases Size(l), 0, if cnt < l.head.minRep then 0 else cnt - l.head.minRep + 1
  {
    if cnt < l.head.minRep then (l, -1)
    else
      var (c, j) := RunReps(l.head.kind, s, i, cnt);
      if c < l.head.minRep then (l, -1)
      else
        var r := RunPiece(l.next, s, j);
        if r.1 != -1 then r else RunTries(l, s, i, (if c < cnt then c else cnt) - 1)
  }

  /** regexec_br. */
  function RunBranch(l: List, s: string, i: nat): (j: int)
    requires i <= |s|
    ensures j == -1 || i <= j <= |s|
    decreases Size(l), 2, 0
  {
    if AtEnd(l) then i
    else
      var r := RunPiece(l, s, i);
      if r.1 == -1 then -1 else RunBranch(r.0, s, r.1)
  }

  /** regexec_m. */
  function RunList(l: List, s: string, i: nat): (j: int)
    requires i <= |s|
    ensures j == -1 || i <= j <= |s|
    decreases Size(l), 3, 0
  {
    var j := RunBranch(l, s, i);
    if j != -1 || l.Guard? || l.head.nextbr == 0 || l.head.nextbr > Length(l) then j
    else RunList(Drop(l, l.head.nextbr), s, i)
  }

  // ----- what they mean -----

  predicate WellFormedKind(k: Kind) {
    k.Sub? ==> WellFormed(k.list)
  }

  /** One occurrence, if there is an end; none at all, if there is not and the piece is decided. */
  lemma {:induction false} OnceMeans(k: Kind, s: string, i: nat)
    requires i <= |s| && WellFormedKind(k)
    ensures var j := RunOnce(k, s, i);
      if j != -1 then Once(k, s, i, j) else DecidedKind(k) ==> forall j': nat :: !Once(k, s, i, j')
    decreases KindSize(k), 0, 0
  {
    if k.Sub? {
      ListMeans(k.list, s, i);
      hide Matches, Found, AllFail, Chosen;
    }
  }

  /** Occurrences in a row, and no more where it stops short of `n`. */
  lemma {:induction false} RepsMeans(k: Kind, s: string, i: nat, n: int)
    requires i <= |s| && WellFormedKind(k)
    ensures var r := RunReps(k, s, i, n);
      && Repeated(k, s, i, r.1, r.0)
      && (r.0 < n && DecidedKind(k) ==> forall j: nat :: !Once(k, s, r.1, j))
    decreases KindSize(k), 1, if n < 0 then 0 else n
  {
    hide Once, DecidedKind, RunOnce;
    if n > 0 {
      RepsMeans(k, s, i, n - 1);
      var r := RunReps(k, s, i, n - 1);
      if r.0 == n - 1 {
        OnceMeans(k, s, r.1);
        if RunOnce(k, s, r.1) != -1 {
          RepeatedMore(k, s, i, r.1, RunOnce(k, s, r.1), n - 1);
        }
      }
    }
  }

  /** What has been found about a branch by going on to (l', i'): soundly, and if the branch is simple, exactly. */
  ghost predicate Forward(l: List, i: nat, l': List, i': nat, s: string) {
    && Leads(l, i, l', i', s)
    && (Simple(l) ==> Simple(l') && Prefers(l, i, l', i', s) && (Fails(l', s, i') ==> Fails(l, s, i)))
  }

  lemma ForwardHere(l: List, i: nat, s: string)
    ensures Forward(l, i, l, i, s)
  {}

  ghost predicate PieceRight(l: List, s: string, i: nat, r: (List, int)) {
    if r.1 < 0 then Simple(l) ==> Fails(l, s, i)
    else Forward(l, i, r.0, r.1, s) && WellFormed(r.0) && (Tail(l) ==> AtEnd(r.0))
  }

  lemma {:induction false} PieceMeans(l: List, s: string, i: nat)
    requires i <= |s| && WellFormed(l)
    ensures PieceRight(l, s, i, RunPiece(l, s, i))
    decreases Size(l), 1, 0
  {
    hide BranchMatches, Once, Repeated, Fails, Leads, DecidedKind, Simple, Tail, Width, Prefers, RunOnce, RunTries;
    hide Missed, Forward;
    if AtEnd(l) {
      ForwardHere(l, i, s);
    } else if Single(l.head) {
      OnceMeans(l.head.kind, s, i);
      SingleRight(l, s, i, RunOnce(l.head.kind, s, i));
    } else {
      SimpleParts(l);
      MissedFirst(l, s, i);
      TriesMeans(l, s, i, l.head.maxRep);
    }
  }

  lemma SingleRight(l: List, s: string, i: nat, j: int)
    requires !AtEnd(l) && Single(l.head) && WellFormed(l)
    requires if j >= 0 then Once(l.head.kind, s, i, j)
             else DecidedKind(l.head.kind) ==> forall j': nat :: !Once(l.head.kind, s, i, j')
    ensures PieceRight(l, s, i, (l.next, j))
  {
    hide BranchMatches, Once, Repeated, Fails, Leads, DecidedKind, Simple, Tail, Width, Prefers, Missed;
    SimpleParts(l);
    if j >= 0 {
      RepeatedOnce(l.head.kind, s, i, j);
      LeadsStep(l, i, j, 1, s);
      MissedFirst(l, s, i);
      PrefersStep(l, i, j, 1, 1, s);
      if AtEnd(l.next) {
        EndDoesNotFail(l.next, s, j);
      } else if Simple(l) && Fails(l.next, s, j) {
        SingleStep(l, s, i, j);
      }
    } else if Simple(l) {
      SingleStuck(l, s, i);
    }
  }

  lemma {:induction false} TriesMeans(l: List, s: string, i: nat, cnt: int)
    requires i <= |s| && WellFormed(l) && !AtEnd(l) && !Single(l.head) && cnt <= l.head.maxRep
    requires Tail(l) ==> Missed(l, s, i, cnt)
    ensures PieceRight(l, s, i, RunTries(l, s, i, cnt))
    decreases Size(l), 0, if cnt < l.head.minRep then 0 else cnt - l.head.minRep + 1
  {
    hide BranchMatches, Once, Repeated, Fails, DecidedKind, Simple, Tail, Width, RunReps, RunPiece, Missed, Forward;
    hide PieceRight, WellFormed;
    NoneLeft(l, s, i, cnt);
    if cnt >= l.head.minRep {
      var (c, j) := RunReps(l.head.kind, s, i, cnt);
      WellFormedParts(l);
      RepsMeans(l.head.kind, s, i, cnt);
      Fewer(l, s, i, cnt, c, j);
      if c >= l.head.minRep {
        PieceMeans(l.next, s, j);
        var r := RunPiece(l.next, s, j);
        if r.1 != -1 {
          RepeatedRight(l, s, i, cnt, c, j, r);
        } else {
          NotSoMany(l, s, i, cnt, c, j, r.0);
          TriesMeans(l, s, i, (if c < cnt then c else cnt) - 1);
        }
      } else {
        NoneLeft(l, s, i, if c < cnt then c else cnt);
      }
    }
  }

  lemma WellFormedParts(l: List)
    requires WellFormed(l) && l.Cons?
    ensures WellFormed(l.next) && WellFormedKind(l.head.kind) && l.head.maxRep >= 1
  {}

  /** All counts have been tried. */
  lemma NoneLeft(l: List, s: string, i: nat, cnt: int)
    requires !AtEnd(l) && !Single(l.head) && (Tail(l) ==> Missed(l, s, i, cnt)) && WellFormed(l)
    ensures cnt < l.head.minRep ==> PieceRight(l, s, i, (l, -1))
  {
    hide BranchMatches, Fails, Simple, Tail, Missed;
    SimpleParts(l);
    if cnt < l.head.minRep && Tail(l) {
      MissedAll(l, s, i, cnt);
    }
  }

  /** There are no more than `c` occurrences, if that is less than was asked for. */
  lemma Fewer(l: List, s: string, i: nat, cnt: int, c: nat, j: nat)
    requires !AtEnd(l) && !Single(l.head) && (Tail(l) ==> Missed(l, s, i, cnt)) && Repeated(l.head.kind, s, i, j, c)
    requires c < cnt && DecidedKind(l.head.kind) ==> forall q: nat :: !Once(l.head.kind, s, j, q)
    ensures Tail(l) ==> Missed(l, s, i, if c < cnt then c else cnt)
  {
    hide BranchMatches, Once, Repeated, Fails, DecidedKind, Simple, Tail, Width, Missed;
    SimpleParts(l);
    TailIsSimple(l);
    if Tail(l) {
      MissedMore(l, s, i, cnt, j, c);
    }
  }

  lemma RepeatedRight(l: List, s: string, i: nat, cnt: int, c: nat, j: nat, r: (List, int))
    requires !AtEnd(l) && !Single(l.head) && Repeated(l.head.kind, s, i, j, c) && cnt <= l.head.maxRep
    requires l.head.minRep <= c && (c == 0 || c <= cnt) && l.head.maxRep >= 1
    requires Tail(l) ==> Missed(l, s, i, if c < cnt then c else cnt)
    requires r.1 >= 0 && PieceRight(l.next, s, j, r)
    ensures PieceRight(l, s, i, r)
  {
    hide BranchMatches, Repeated, Fails, Leads, Simple, Tail, Prefers, Missed;
    SimpleParts(l);
    TailIsSimple(l.next);
    LeadsStep(l, i, j, c, s);
    LeadsTrans(l, i, l.next, j, r.0, r.1, s);
    if Tail(l) {
      PrefersStep(l, i, j, c, if c < cnt then c else cnt, s);
      PrefersTrans(l, i, l.next, j, r.0, r.1, s);
      EndDoesNotFail(r.0, s, r.1);
      TailIsSimple(r.0);
    }
  }

  lemma NotSoMany(l: List, s: string, i: nat, cnt: int, c: nat, j: nat, l': List)
    requires !AtEnd(l) && !Single(l.head) && Repeated(l.head.kind, s, i, j, c) && (c == 0 || c <= cnt)
    requires Tail(l) ==> Missed(l, s, i, if c < cnt then c else cnt)
    requires PieceRight(l.next, s, j, (l', -1))
    ensures Tail(l) ==> Missed(l, s, i, (if c < cnt then c else cnt) - 1)
  {
    hide BranchMatches, Repeated, Fails, Simple, Tail, Missed, Width;
    SimpleParts(l);
    TailIsSimple(l);
    TailIsSimple(l.next);
    if Tail(l) {
      MissedOne(l, s, i, if c < cnt then c else cnt, j, c);
    }
  }

  /** A branch is found to match soundly, and if it is simple exactly, and greedily. */
  lemma {:induction false} BranchMeans(l: List, s: string, i: nat)
    requires i <= |s| && WellFormed(l)
    ensures var j := RunBranch(l, s, i);
      if j != -1 then BranchMatches(l, s, i, j) && (Simple(l) ==> Greedy(l, s, i, j)) else Simple(l) ==> Fails(l, s, i)
    decreases Size(l), 2, 0
  {
    hide BranchMatches, Fails, Prefers, Greedy, Leads, Simple, Tail, RunPiece, WellFormed;
    if AtEnd(l) {
      EndMatches(l, s, i);
      PrefersHere(l, i, s);
      GreedyEnd(l, i, l, i, s);
    } else {
      PieceMeans(l, s, i);
      var r := RunPiece(l, s, i);
      if r.1 != -1 {
        BranchMeans(r.0, s, r.1);
        if RunBranch(r.0, s, r.1) != -1 {
          LeadsTo(l, i, r.0, r.1, RunBranch(r.0, s, r.1), s);
        }
      }
    }
  }

  lemma LeadsTo(l: List, i: nat, l': List, i': nat, j: nat, s: string)
    requires Leads(l, i, l', i', s) && BranchMatches(l', s, i', j)
    ensures BranchMatches(l, s, i, j)
    ensures Prefers(l, i, l', i', s) && Greedy(l', s, i', j) ==> Greedy(l, s, i, j)
  {
    hide BranchMatches, Greedy;
  }

  /**
    The alternatives in turn, as far as `nextbr` leads to them: the first that matches is found; if none does, all that
    are simple have failed. Of a decided list this is all there is to find.
   */
  ghost predicate ListRight(l: List, s: string, i: nat, j: int) {
    if j >= 0 then Chosen(l, s, i, j) && Found(l, s, i, j) && Matches(l, s, i, j)
    else AllFail(l, s, i, Length(l) + 1) && (Decided(l) ==> forall j': nat :: !Matches(l, s, i, j'))
  }

  lemma {:induction false} ListMeans(l: List, s: string, i: nat)
    requires i <= |s| && WellFormed(l)
    ensures ListRight(l, s, i, RunList(l, s, i))
    decreases Size(l), 3, 0
  {
    hide BranchMatches, Fails, Simple, Greedy, RunBranch, WellFormed, ListRight, Drop, Length;
    BranchMeans(l, s, i);
    var j := RunBranch(l, s, i);
    if j == -1 && l.Cons? && 0 < l.head.nextbr <= Length(l) {
      var b := l.head.nextbr;
      DropWellFormed(l, b);
      ListMeans(Drop(l, b), s, i);
      LaterRight(l, s, i, RunList(Drop(l, b), s, i));
    } else {
      FirstRight(l, s, i, j);
    }
  }

  lemma FirstRight(l: List, s: string, i: nat, j: int)
    requires WellFormed(l) && (j < 0 ==> l.Guard? || l.head.nextbr == 0 || l.head.nextbr > Length(l))
    requires if j >= 0 then BranchMatches(l, s, i, j) && (Simple(l) ==> Greedy(l, s, i, j))
             else Simple(l) ==> Fails(l, s, i)
    ensures ListRight(l, s, i, j)
  {
    hide BranchMatches, Fails, Simple, Matches, Decided, Greedy, WellFormed, Chosen, AllFail, Found;
    ChosenFirst(l, s, i);
    if j >= 0 {
      FoundMatches(l, s, i, j);
    } else if Decided(l) {
      DecidedFails(l, s, i);
    }
  }

  lemma LaterRight(l: List, s: string, i: nat, j: int)
    requires WellFormed(l) && l.Cons? && 0 < l.head.nextbr <= Length(l) && (Simple(l) ==> Fails(l, s, i))
    requires ListRight(Drop(l, l.head.nextbr), s, i, j)
    ensures ListRight(l, s, i, j)
  {
    hide BranchMatches, Fails, Simple, Matches, Decided, Greedy, WellFormed, Chosen, AllFail, Found;
    ChosenLater(l, s, i);
    if j >= 0 {
      FoundMatches(l, s, i, j);
    } else if Decided(l) {
      DecidedFails(l, s, i);
    }
  }

  lemma ChosenFirst(l: List, s: string, i: nat)
    ensures forall j: nat :: BranchMatches(l, s, i, j) && (Simple(l) ==> Greedy(l, s, i, j)) ==>
      Chosen(l, s, i, j) && Found(l, s, i, j)
    ensures (Simple(l) ==> Fails(l, s, i)) && (l.Guard? || l.head.nextbr == 0 || l.head.nextbr > Length(l)) ==>
      AllFail(l, s, i, Length(l) + 1)
  {
    hide BranchMatches, Fails, Simple, Greedy;
    assert Drop(l, 0) == l && Reached(l, 0) && AllFail(l, s, i, 0);
  }

  /** The first alternative has failed, and the others are those from `nextbr` on. */
  lemma ChosenLater(l: List, s: string, i: nat)
    requires l.Cons? && 0 < l.head.nextbr <= Length(l) && (Simple(l) ==> Fails(l, s, i))
    ensures var rest := Drop(l, l.head.nextbr);
      && (forall j: nat :: Chosen(rest, s, i, j) ==> Chosen(l, s, i, j) && Found(l, s, i, j))
      && (AllFail(rest, s, i, Length(rest) + 1) ==> AllFail(l, s, i, Length(l) + 1))
  {
    hide BranchMatches, Fails, Simple, Greedy, Chosen, AllFail, Found;
    var b := l.head.nextbr;
    var rest := Drop(l, b);
    DropLength(l, b);
    forall n: nat | n <= Length(rest) ensures AllFail(rest, s, i, n) ==> AllFail(l, s, i, b + n) {
      AllFailBefore(l, s, i, n);
    }
    AllFailBefore(l, s, i, Length(rest) + 1);
    forall j: nat | Chosen(rest, s, i, j) ensures Chosen(l, s, i, j) && Found(l, s, i, j) {
      ChosenAfter(l, s, i, j);
    }
  }

  lemma AllFailBefore(l: List, s: string, i: nat, n: nat)
    requires l.Cons? && 0 < l.head.nextbr <= Length(l) && (Simple(l) ==> Fails(l, s, i))
    ensures AllFail(Drop(l, l.head.nextbr), s, i, n) ==> AllFail(l, s, i, l.head.nextbr + n)
  {
    hide Fails, Simple;
    var b := l.head.nextbr;
    var rest := Drop(l, b);
    DropLength(l, b);
    if AllFail(rest, s, i, n) {
      forall m: nat | m <= Length(l) && m < b + n && Reached(l, m) && Simple(Drop(l, m))
        ensures Fails(Drop(l, m), s, i)
      {
        if m > 0 {
          DropFurther(l, b, m - b);
        }
      }
    }
  }

  lemma ChosenAfter(l: List, s: string, i: nat, j: nat)
    requires l.Cons? && 0 < l.head.nextbr <= Length(l) && Chosen(Drop(l, l.head.nextbr), s, i, j)
    requires forall n: nat ::
      n <= Length(Drop(l, l.head.nextbr)) && AllFail(Drop(l, l.head.nextbr), s, i, n) ==>
        AllFail(l, s, i, l.head.nextbr + n)
    ensures Chosen(l, s, i, j) && Found(l, s, i, j)
  {
    hide BranchMatches, Simple, Greedy, AllFail;
    var b := l.head.nextbr;
    var rest := Drop(l, b);
    var n: nat :| n <= Length(rest) && Reached(rest, n) && AllFail(rest, s, i, n)
      && BranchMatches(Drop(rest, n), s, i, j) && (Simple(Drop(rest, n)) ==> Greedy(Drop(rest, n), s, i, j));
    DropLength(l, b);
    DropFurther(l, b, n);
    assert Reached(l, b + n) && Drop(l, b + n) == Drop(rest, n);
  }

  // ----- the executor -----

  class Rx {
    const str: string
    var piece: List
    var spos: nat
    /** startp and endp, as positions. */
    var caps: map<nat, (nat, nat)>

    ghost predicate Valid()
      reads this
    {
      spos <= |str| && WellFormed(piece) && forall k <- caps :: k < NSUBEXP && caps[k].0 <= caps[k].1 <= |str|
    }

    constructor (s: string, l: List)
      requires WellFormed(l)
      ensures Valid() && str == s && piece == l && spos == 0 && caps == map[]
    {
      str, piece, spos, caps := s, l, 0, map[];
    }

    /** regexec_p1: one occurrence of the current piece; a parenthesis is captured whether it matches or not. */
    method P1() returns (ok: bool)
      requires Valid() && !AtEnd(piece)
      modifies this
      ensures Valid() && piece == old(piece)
      ensures old(spos) <= |str| && var j := RunOnce(piece.head.kind, str, old(spos));
        ok == (j != -1) && spos == if ok then j else old(spos)
      ensures var k := piece.head.kind;
        if !k.Sub? then caps == old(caps)
        else k.sbxi < NSUBEXP ==> k.sbxi in caps && caps[k.sbxi] == (old(spos), spos)
      decreases Size(piece), 0
    {
      var pc := piece;
      match pc.head.kind
      case Str(text) =>
        if spos + |text| > |str| || str[spos..spos + |text|] != text {
          return false;
        }
        spos := spos + |text|;
        return true;
      case Wildcard =>
        if spos == |str| {
          return false;
        }
        spos := spos + 1;
        return true;
      case Sol =>
        return spos == 0;
      case Eol =>
        return spos == |str|;
      case Sub(list, sbxi) =>
        assert Size(list) < Size(pc);
        piece := list;
        var osp := spos;
        ok := M();
        piece := pc;
        if sbxi < NSUBEXP {
          caps := caps[sbxi := (osp, spos)];
        }
    }

    /** regexec_p: the current piece, as often as possible, and what follows a repeated piece. */
    method P() returns (ok: bool)
      requires Valid()
      modifies this
      ensures Valid() && old(spos) <= |str| && var r := RunPiece(old(piece), str, old(spos));
        ok == (r.1 != -1) && (piece, spos) == if ok then r else (old(piece), old(spos))
      decreases Size(piece), 2
    {
      hide RunOnce, RunReps, WellFormed;
      var pc, osp := piece, spos;
      if AtEnd(pc) {
        return true;
      }
      WellFormedParts(pc);
      if pc.head.minRep == 1 && pc.head.maxRep == 1 {
        ok := P1();
        if ok {
          piece := pc.next;
        }
        return;
      }
      var cnt := pc.head.maxRep;
      while cnt >= pc.head.minRep
        invariant Valid() && cnt <= pc.head.maxRep
        invariant RunTries(pc, str, osp, cnt) == RunTries(pc, str, osp, pc.head.maxRep)
        decreases cnt - pc.head.minRep + 1
      {
        piece := pc;
        spos := osp;
        var i;
        cnt, i := Many(cnt);
        if i < pc.head.minRep {
          break;
        }
        piece := pc.next;
        ok := P();
        if ok {
          return true;
        }
        cnt := cnt - 1;
      }
      piece := pc;
      spos := osp;
      ok := false;
    }

    /** The inner loop of regexec_p: at most `cnt0` occurrences. */
    method Many(cnt0: int) returns (cnt: int, i: nat)
      requires Valid() && !AtEnd(piece)
      modifies this
      ensures Valid() && piece == old(piece) && old(spos) <= |str|
      ensures (i, spos) == RunReps(piece.head.kind, str, old(spos), cnt0) && cnt == if i < cnt0 then i else cnt0
      decreases Size(piece), 1
    {
      hide RunOnce;
      cnt := cnt0;
      i := 0;
      while i < cnt
        invariant Valid() && piece == old(piece) && cnt == cnt0 && (i == 0 || i <= cnt)
        invariant (i, spos) == RunReps(piece.head.kind, str, old(spos), i)
        decreases cnt - i
      {
        var ok := P1();
        if !ok {
          NoMoreReps(piece.head.kind, str, old(spos), i, cnt);
          cnt := i;
          return;
        }
        i := i + 1;
      }
    }

    /** regexec_br: one branch. */
    method Br() returns (ok: bool)
      requires Valid()
      modifies this
      ensures Valid() && old(spos) <= |str| && var j := RunBranch(old(piece), str, old(spos));
        ok == (j != -1) && (ok ==> spos == j)
      decreases Size(piece), 3
    {
      hide RunPiece, WellFormed;
      ghost var l, i := piece, spos;
      while !AtEnd(piece)
        invariant Valid() && Size(piece) <= Size(l) && RunBranch(piece, str, spos) == RunBranch(l, str, i)
        decreases Size(piece)
      {
        ok := P();
        if !ok {
          return false;
        }
      }
      return true;
    }

    /** regexec_m: the alternatives in turn, as far as `nextbr` leads to them. */
    method M() returns (ok: bool)
      requires Valid()
      modifies this
      ensures Valid() && old(spos) <= |str| && var j := RunList(old(piece), str, old(spos));
        ok == (j != -1) && spos == if ok then j else old(spos)
      decreases Size(piece), 4
    {
      hide RunBranch, Alternative;
      var pc, osp := piece, spos;
      while true
        invariant Valid() && piece == pc && spos == osp && Size(pc) <= Size(old(piece))
        invariant RunList(pc, str, osp) == RunList(old(piece), str, osp)
        decreases Size(pc)
      {
        ok := Br();
        if ok {
          return true;
        }
        if pc.Guard? || pc.head.nextbr == 0 {
          break;
        }
        DropWellFormed(pc, pc.head.nextbr);
        pc := Drop(pc, pc.head.nextbr);
        piece := pc;
        spos := osp;
      }
      piece := pc;
      spos := osp;
    }
  }

  /** Where the repetition stops, it stops for every greater number asked for. */
  lemma {:induction false} NoMoreReps(k: Kind, s: string, i: nat, c: nat, n: nat)
    requires i <= |s| && c < n && RunReps(k, s, i, c).0 == c && RunOnce(k, s, RunReps(k, s, i, c).1) == -1
    ensures RunReps(k, s, i, n) == RunReps(k, s, i, c)
    decreases n
  {
    if n > c + 1 {
      NoMoreReps(k, s, i, c, n - 1);
    }
  }

  /**
    regexec_s: an attempt at the start of `s`. It is right about every list whose alternatives are all reached and
    simple; where only those that are reached are simple, it finds just these.
   */
  method RegexecS(l: List, s: string) returns (ok: bool)
    requires WellFormed(l)
    ensures ok == (RunList(l, s, 0) != -1)
    ensures ok ==> AtStart(l, s) && FoundAtStart(l, s)
    ensures Followed(l) ==> (ok <==> FoundAtStart(l, s))
    ensures Decided(l) ==> (ok <==> AtStart(l, s))
  {
    hide Matches, Followed, Decided, Found, AllFail, Chosen;
    ListMeans(l, s, 0);
    var rx := new Rx(s, l);
    ok := rx.M();
    if !ok && Followed(l) {
      FollowedFails(l, s, 0);
    }
  }

  /** The expression matches the beginning of the subject. */
  ghost predicate AtStart(l: List, s: string) {
    exists j: nat :: Matches(l, s, 0, j)
  }

  /** An alternative that is reached does. */
  ghost predicate FoundAtStart(l: List, s: string) {
    exists j: nat :: Found(l, s, 0, j)
  }

  /** Somewhere in the subject, or only at its start if the expression begins with `^`. */
  ghost predicate Somewhere(l: List, s: string) {
    if l.Cons? && l.head.kind.Sol? then AtStart(l, s) else exists k: nat :: k <= |s| && AtStart(l, s[k..])
  }

  ghost predicate FoundSomewhere(l: List, s: string) {
    if l.Cons? && l.head.kind.Sol? then FoundAtStart(l, s) else exists k: nat :: k <= |s| && FoundAtStart(l, s[k..])
  }

  /** The executor succeeds somewhere. */
  ghost predicate RunsSomewhere(l: List, s: string) {
    if l.Cons? && l.head.kind.Sol? then RunList(l, s, 0) != -1
    else exists k: nat :: k <= |s| && RunList(l, s[k..], 0) != -1
  }

  /** regexec: an attempt at every position, or only at the first if the expression starts with `^`. */
  method Regexec(l: List, s: string) returns (ok: bool)
    requires WellFormed(l)
    ensures ok <==> RunsSomewhere(l, s)
    ensures ok ==> Somewhere(l, s) && FoundSomewhere(l, s)
    ensures Followed(l) ==> (ok <==> FoundSomewhere(l, s))
    ensures Decided(l) ==> (ok <==> Somewhere(l, s))
  {
    hide AtStart, FoundAtStart, Followed, Decided, RunList;
    if l.Cons? && l.head.kind.Sol? {
      ok := RegexecS(l, s);
      return;
    }
    for k := 0 to |s|
      invariant Followed(l) ==> forall i: nat :: i < k ==> !FoundAtStart(l, s[i..])
      invariant Decided(l) ==> forall i: nat :: i < k ==> !AtStart(l, s[i..])
      invariant forall i: nat :: i < k ==> RunList(l, s[i..], 0) == -1
    {
      ok := RegexecS(l, s[k..]);
      if ok {
        return true;
      }
    }
    assert s[|s|..] == "";
    ok := RegexecS(l, s[|s|..]);
  }

  // ----- what regcomp makes of bars -----

  /** The number of bars up to the guard. */
  function Bars(l: List): nat {
    match l
    case Guard => 0
    case Cons(p, rest) => (if p.kind.Bar? then 1 else 0) + Bars(rest)
  }

  /** No piece leads anywhere. */
  predicate Unlinked(l: List) {
    l.Guard? || (l.head.nextbr == 0 && Unlinked(l.next))
  }

  /** Each bar redirects the first piece of the list, and no other: it leads behind the last bar. */
  predicate Compiled(l: List) {
    l.Cons? ==>
      && Unlinked(l.next)
      && if Bars(l) == 0 then l.head.nextbr == 0
         else 0 < l.head.nextbr <= Length(l) && Alternative(l, l.head.nextbr) && Bars(Drop(l, l.head.nextbr)) == 0
  }

  lemma {:induction false} UnlinkedDrop(l: List, n: nat)
    requires Unlinked(l) && n <= Length(l)
    ensures Unlinked(Drop(l, n))
  {
    if n > 0 {
      UnlinkedDrop(l.next, n - 1);
    }
  }

  /** Of a compiled list the first alternative and the last are tried, and no other. */
  lemma CompiledReached(l: List, n: nat)
    requires Compiled(l)
    ensures Reached(l, n) <==> n == 0 || (l.Cons? && n == l.head.nextbr)
  {
    if l.Cons? && 0 < l.head.nextbr <= n {
      UnlinkedDrop(l.next, l.head.nextbr - 1);
      var rest := Drop(l, l.head.nextbr);
      assert Reached(rest, n - l.head.nextbr) <==> n == l.head.nextbr;
    }
  }

  lemma {:induction false} BarsDrop(l: List, n: nat)
    requires n <= Length(l)
    ensures Bars(l) >= Bars(Drop(l, n)) && (n > 0 && Alternative(l, n) ==> Bars(l) > Bars(Drop(l, n)))
  {
    if n > 1 {
      BarsDrop(l.next, n - 1);
    }
  }

  lemma {:induction false} BarsBetween(l: List, n: nat, m: nat)
    requires n < m <= Length(l) && Alternative(l, m)
    ensures Bars(Drop(l, n)) > Bars(Drop(l, m))
  {
    if n > 0 {
      BarsBetween(l.next, n - 1, m - 1);
    } else {
      BarsDrop(l, m);
    }
  }

  /** So all of them are tried if and only if there are at most two. */
  lemma CompiledReachesAll(l: List)
    requires Compiled(l)
    ensures (forall n: nat :: n <= Length(l) && Alternative(l, n) ==> Reached(l, n)) <==> Bars(l) <= 1
  {
    hide Reached, Alternative, Bars, Compiled;
    if Bars(l) == 0 {
      forall n: nat | n <= Length(l) ensures !Alternative(l, n) {
        if n == 0 {
          NoAlternative(l);
        } else {
          BarsDrop(l, n);
        }
      }
    } else {
      CompiledBars(l);
    }
  }

  lemma NoAlternative(l: List)
    ensures !Alternative(l, 0)
  {}

  lemma {:induction false} FirstBar(l: List) returns (n: nat)
    requires Bars(l) > 0
    ensures 0 < n <= Length(l) && Alternative(l, n) && Bars(Drop(l, n)) == Bars(l) - 1
  {
    if l.head.kind.Bar? {
      n := 1;
      assert Drop(l, 0) == l && Drop(l, 1) == l.next;
    } else {
      n := FirstBar(l.next);
      n := n + 1;
    }
  }

  lemma CompiledBars(l: List)
    requires Compiled(l) && Bars(l) > 0
    ensures (forall n: nat :: n <= Length(l) && Alternative(l, n) ==> Reached(l, n)) <==> Bars(l) == 1
  {
    var last := l.head.nextbr;
    if Bars(l) == 1 {
      forall n: nat | n <= Length(l) && Alternative(l, n) ensures Reached(l, n) {
        CompiledReached(l, n);
        if n < last {
          BarsDrop(l, n);
          BarsBetween(l, n, last);
        } else if n > last {
          BarsBetween(l, last, n);
        }
      }
    } else {
      var n := FirstBar(l);
      CompiledReached(l, n);
    }
  }

  /** Every alternative, tried or not, is simple. */
  predicate AllSimple(l: List) {
    Simple(l) && forall n: nat :: n <= Length(l) && Alternative(l, n) ==> Simple(Drop(l, n))
  }

  /** With simple alternatives, a compiled expression is decided if and only if there are at most two of them. */
  lemma CompiledDecided(l: List)
    requires Compiled(l) && AllSimple(l)
    ensures Decided(l) <==> Bars(l) <= 1
  {
    hide Reached, Alternative, Bars, Compiled, Simple;
    CompiledReachesAll(l);
  }

  /** And with more than two, what is found is what the first and the last of them match. */
  lemma CompiledFound(l: List, s: string, i: nat, j: nat)
    requires Compiled(l) && Bars(l) > 0
    ensures Found(l, s, i, j) <==> BranchMatches(l, s, i, j) || BranchMatches(Drop(l, l.head.nextbr), s, i, j)
  {
    hide BranchMatches, Reached, Alternative;
    forall n: nat ensures Reached(l, n) <==> n == 0 || n == l.head.nextbr {
      CompiledReached(l, n);
    }
    assert Drop(l, 0) == l;
  }

  /** One character, occurring once. */
  function Letter(c: char, nextbr: nat): Piece {
    Piece(1, 1, Str([c]), nextbr)
  }

  /** The expression a|b|c, as regcomp leaves it. */
  function Three(): List {
    var bar := Piece(1, 1, Bar, 0);
    Cons(Letter('a', 4), Cons(bar, Cons(Letter('b', 0), Cons(bar, Cons(Letter('c', 0), Guard)))))
  }

  lemma ThreeIs()
    ensures WellFormed(Three()) && Compiled(Three()) && Bars(Three()) == 2
    ensures Length(Three()) == 5 && Three().head == Letter('a', 4) && AtEnd(Three().next) && Drop(Three(), 0) == Three()
    ensures Alternative(Three(), 2) && Drop(Three(), 2).Cons? && Drop(Three(), 2).head == Letter('b', 0)
    ensures AtEnd(Drop(Three(), 2).next) && Drop(Three(), 4) == Cons(Letter('c', 0), Guard)
  {
    var l := Three();
    assert Length(l) == 5;
    assert Drop(l, 1) == l.next && Drop(l, 3) == l.next.next.next;
  }

  /** One letter in front of a bar or the guard. */
  lemma LetterMatches(l: List, c: char, j: nat)
    requires l.Cons? && l.head == Letter(c, l.head.nextbr) && AtEnd(l.next)
    ensures BranchMatches(l, "b", 0, j) <==> c == 'b' && j == 1
  {
    hide Repeated;
    var k := l.head.kind;
    if BranchMatches(l, "b", 0, j) {
      var m, n := BranchSplit(l, "b", 0, j);
      var i := RepeatedSplit(k, "b", 0, m, 1);
      RepeatedWidth(k, "b", 0, i, 0);
      OnceWidth(k, "b", 0, m);
      assert "b"[0..1] == "b" && j == m == 1;
    }
    if c == 'b' && j == 1 {
      assert "b"[0..1] == "b";
      RepeatedOnce(k, "b", 0, 1);
      EndMatches(l.next, "b", 1);
      assert PieceMatches(l.head, "b", 0, 1, 1);
    }
  }

  /** The subject "b" matches it, by the middle alternative alone. */
  lemma ThreeMatches()
    ensures Followed(Three()) && Matches(Three(), "b", 0, 1) && forall j: nat :: !Found(Three(), "b", 0, j)
  {
    hide BranchMatches, Found, Bars, Compiled, WellFormed, Three, Reached, Length, Drop;
    ThreeIs();
    var l := Three();
    forall n: nat ensures Reached(l, n) <==> n == 0 || n == 4 {
      CompiledReached(l, n);
    }
    LetterIsSimple(l);
    LetterIsSimple(Drop(l, 4));
    LetterMatches(Drop(l, 2), 'b', 1);
    forall j: nat ensures !Found(l, "b", 0, j) {
      CompiledFound(l, "b", 0, j);
      LetterMatches(l, 'a', j);
      LetterMatches(Drop(l, 4), 'c', j);
    }
  }

  lemma LetterIsSimple(l: List)
    requires l.Cons? && Single(l.head) && l.head.kind.Str? && AtEnd(l.next)
    ensures Simple(l)
  {}

  /** And it is not found. */
  method MiddleLost() returns (ok: bool)
    ensures !ok && Matches(Three(), "b", 0, 1)
  {
    hide Matches, Found, Followed, Decided;
    ThreeIs();
    ThreeMatches();
    ok := RegexecS(Three(), "b");
  }

  // ----- a repeated piece and more than one single piece behind it -----

  /** The expression a?a. as regcomp leaves it. */
  function Optional(): List {
    Cons(Piece(0, 1, Str("a"), 0), Cons(Letter('a', 0), Cons(Piece(1, 1, Wildcard, 0), Guard)))
  }

  /** After the a that the first piece takes, the second fits as well, and this is not taken back. */
  lemma OptionalRuns()
    ensures WellFormed(Optional()) && !Simple(Optional())
    ensures RunList(Optional(), "aa", 0) == -1 && RunList(Optional(), "a", 0) == -1 && RunList(Optional(), "", 0) == -1
  {
  }

  lemma OptionalMatches()
    ensures Matches(Optional(), "aa", 0, 2)
  {
    hide Repeated, Once;
    var l := Optional();
    RepeatedNone(l.head.kind, "aa", 0);
    assert "aa"[0..1] == "a";
    OneTaken(l.next, "aa", 0, 1);
    OneTaken(l.next.next, "aa", 1, 2);
    EndMatches(Guard, "aa", 2);
    assert PieceMatches(l.head, "aa", 0, 0, 0);
  }

  lemma RepeatedNone(k: Kind, s: string, i: nat)
    ensures Repeated(k, s, i, i, 0)
  {}

  lemma OneTaken(l: List, s: string, i: nat, j: nat)
    requires !AtEnd(l) && Single(l.head) && i <= j <= |s|
    requires if l.head.kind.Str? then s[i..j] == l.head.kind.text else l.head.kind.Wildcard? && j == i + 1
    ensures PieceMatches(l.head, s, i, j, 1)
  {
    RepeatedOnce(l.head.kind, s, i, j);
  }

  /** The subject "aa" matches it, and this is not found. */
  method TakenTooEarly() returns (ok: bool)
    ensures !ok && Matches(Optional(), "aa", 0, 2)
  {
    hide Matches, Found, Followed, Decided, RunList;
    OptionalRuns();
    OptionalMatches();
    ok := Regexec(Optional(), "aa");
    assert "aa"[0..] == "aa" && "aa"[1..] == "a" && "aa"[2..] == "";
  }
}

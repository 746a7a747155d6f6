/**
  Stored blocks as section 3.2.4 of RFC 1951 defines them, down to the LEN and NLEN fields.  The bits before the
  length fields are not spelled out: a Mark stands for the byte that completes the block header, and a Pad for a byte
  that carries only bits of an earlier empty block or of the alignment.
 */
module StoredFormat {
  import opened Lz77

  const MAX_STORED := 65535

  datatype Unit = Pad | Mark(last: bool) | Octet(b: Byte)

  function Octets(data: seq<Byte>): seq<Unit> {
    seq(|data|, i requires 0 <= i < |data| => Octet(data[i]))
  }

  predicate AllOctets(u: seq<Unit>) {
    forall i :: 0 <= i < |u| ==> u[i].Octet?
  }

  function Bytes(u: seq<Unit>): seq<Byte>
    requires AllOctets(u)
  {
    seq(|u|, i requires 0 <= i < |u| => u[i].b)
  }

  /** The header of a stored block of `len` bytes, preceded by `pads` bytes of earlier bits. */
  function Header(pads: nat, last: bool, len: nat): seq<Unit>
    requires len <= MAX_STORED
  {
    seq(pads, _ => Pad) +
    [Mark(last), Octet(len % 256), Octet(len / 256), Octet(255 - len % 256), Octet(255 - len / 256)]
  }

  /** What a decoder gets: the data, and whether the last block has been seen. */
  datatype Parsed = Parsed(data: seq<Byte>, done: bool)

  /** The stored block at the front of `u`: its data, its last flag and the bytes it occupies. */
  datatype Front = Front(data: seq<Byte>, last: bool, size: nat)

  function FirstBlock(u: seq<Unit>): (r: Option<Front>)
    ensures r.Some? ==> 5 <= r.value.size <= |u|
  {
    if |u| < 5 || !u[0].Mark? || !AllOctets(u[1..5]) then None
    else
      var len := u[1].b + 256 * u[2].b;
      if u[3].b != 255 - u[1].b || u[4].b != 255 - u[2].b || |u| < 5 + len || !AllOctets(u[5..5 + len]) then None
      else Some(Front(Bytes(u[5..5 + len]), u[0].last, 5 + len))
  }

  /** The decoder: nothing may follow the last block. */
  function Parse(u: seq<Unit>): Option<Parsed>
    decreases |u|
  {
    if u == [] then Some(Parsed([], false))
    else if u[0].Pad? then Parse(u[1..])
    else
      match FirstBlock(u)
      case None => None
      case Some(f) =>
        if f.last then
          if |u| == f.size then Some(Parsed(f.data, true)) else None
        else
          match Parse(u[f.size..])
          case None => None
          case Some(p) => Some(Parsed(f.data + p.data, p.done))
  }

  lemma FirstBlockAppend(a: seq<Unit>, b: seq<Unit>)
    requires FirstBlock(a).Some?
    ensures FirstBlock(a + b) == FirstBlock(a)
  {
    var u := a + b;
    var len := a[1].b + 256 * a[2].b;
    assert u[1..5] == a[1..5] && u[5..5 + len] == a[5..5 + len];
  }

  /** `data` in front of whatever `p` is. */
  function Prepend(data: seq<Byte>, p: Option<Parsed>): Option<Parsed> {
    if p.None? then None else Some(Parsed(data + p.value.data, p.value.done))
  }

  lemma PrependTwice(x: seq<Byte>, y: seq<Byte>, p: Option<Parsed>)
    ensures Prepend([], p) == p
    ensures Prepend(x, Prepend(y, p)) == Prepend(x + y, p)
  {
    if p.Some? {
      assert [] + p.value.data == p.value.data;
      assert x + (y + p.value.data) == (x + y) + p.value.data;
    }
  }

  lemma {:induction false} ParseAppend(a: seq<Unit>, b: seq<Unit>, x: seq<Byte>)
    requires Parse(a) == Some(Parsed(x, false))
    ensures Parse(a + b) == Prepend(x, Parse(b))
    decreases |a|
  {
    if a == [] {
      assert a + b == b;
      PrependTwice([], [], Parse(b));
    } else if a[0].Pad? {
      assert (a + b)[1..] == a[1..] + b;
      ParseAppend(a[1..], b, x);
    } else {
      hide FirstBlock, Prepend;
      FirstBlockAppend(a, b);
      var f := FirstBlock(a).value;
      var rest := a[f.size..];
      var y := Parse(rest).value.data;
      assert (a + b)[f.size..] == rest + b;
      ParseAppend(rest, b, y);
      PrependTwice(f.data, y, Parse(b));
      assert Parse(a + b) == Prepend(f.data, Parse(rest + b)) by { ParseOne(a + b); }
    }
  }

  lemma ParseOne(u: seq<Unit>)
    requires u != [] && !u[0].Pad? && FirstBlock(u).Some? && !FirstBlock(u).value.last
    ensures Parse(u) == Prepend(FirstBlock(u).value.data, Parse(u[FirstBlock(u).value.size..]))
  {}

  lemma {:induction false} ParsePads(n: nat, u: seq<Unit>)
    ensures Parse(seq(n, _ => Pad) + u) == Parse(u)
    decreases n
  {
    var pads := seq(n, _ => Pad);
    if n == 0 {
      assert pads + u == u;
    } else {
      assert pads[1..] == seq(n - 1, _ => Pad);
      assert (pads + u)[1..] == pads[1..] + u;
      ParsePads(n - 1, u);
    }
  }

  lemma FirstBlockOf(last: bool, data: seq<Byte>)
    requires |data| <= MAX_STORED
    ensures FirstBlock(Header(0, last, |data|) + Octets(data)) == Some(Front(data, last, 5 + |data|))
  {
    var h := Header(0, last, |data|);
    var u := h + Octets(data);
    assert h == [Mark(last), Octet(|data| % 256), Octet(|data| / 256), Octet(255 - |data| % 256),
      Octet(255 - |data| / 256)];
    assert u[1..5] == h[1..5];
    assert u[5..5 + |data|] == Octets(data);
    assert Bytes(Octets(data)) == data;
  }

  lemma ParseBlock(pads: nat, last: bool, data: seq<Byte>)
    requires |data| <= MAX_STORED
    ensures Parse(Header(pads, last, |data|) + Octets(data)) == Some(Parsed(data, last))
  {
    hide FirstBlock;
    var u := Header(0, last, |data|) + Octets(data);
    assert Header(pads, last, |data|) + Octets(data) == seq(pads, _ => Pad) + u;
    ParsePads(pads, u);
    FirstBlockOf(last, data);
    assert u[|u|..] == [] && data + [] == data;
  }

  /** A block appended to a stream that is not finished adds its data. */
  lemma StreamAppend(out: seq<Unit>, x: seq<Byte>, pads: nat, last: bool, data: seq<Byte>)
    requires |data| <= MAX_STORED && Parse(out) == Some(Parsed(x, false))
    ensures Parse(out + Header(pads, last, |data|) + Octets(data)) == Some(Parsed(x + data, last))
  {
    var b := Header(pads, last, |data|) + Octets(data);
    ParseBlock(pads, last, data);
    ParseAppend(out, b, x);
    assert out + Header(pads, last, |data|) + Octets(data) == out + b;
  }

  // ----- what is sent -----

  /** What the coder sends at level 0: stored blocks, and the empty blocks of _tr_align. */
  datatype Step = Aligned | Stored(last: bool, data: seq<Byte>)

  /** Only the final step can be a last block. */
  ghost predicate Proper(steps: seq<Step>) {
    forall i :: 0 <= i < |steps| && steps[i].Stored? ==>
      |steps[i].data| <= MAX_STORED && (steps[i].last ==> i == |steps| - 1)
  }

  predicate Closed(steps: seq<Step>) {
    steps != [] && steps[|steps| - 1].Stored? && steps[|steps| - 1].last
  }

  /** The bits that wait in the bit buffer: a stored block leaves none. */
  function EndBits(steps: seq<Step>): (n: nat)
    ensures n < 8
  {
    if steps == [] then 0
    else
      match steps[|steps| - 1]
      case Aligned => (EndBits(steps[..|steps| - 1]) + 10) % 8
      case Stored(_, _) => 0
  }

  /** The units of a step after so many bits. */
  function StepUnits(bits: nat, s: Step): seq<Unit>
    requires s.Stored? ==> |s.data| <= MAX_STORED
  {
    match s
    case Aligned => seq((bits + 10) / 8, _ => Pad)
    case Stored(last, data) => Header((bits + 10) / 8 - 1, last, |data|) + Octets(data)
  }

  ghost function UnitsOf(steps: seq<Step>): seq<Unit>
    requires Proper(steps)
  {
    if steps == [] then []
    else
      var before := steps[..|steps| - 1];
      UnitsOf(before) + StepUnits(EndBits(before), steps[|steps| - 1])
  }

  function DataOf(steps: seq<Step>): seq<Byte> {
    if steps == [] then []
    else DataOf(steps[..|steps| - 1]) + if steps[|steps| - 1].Stored? then steps[|steps| - 1].data else []
  }

  /** What a step adds for the decoder. */
  lemma ParseStep(u: seq<Unit>, x: seq<Byte>, bits: nat, s: Step)
    requires Parse(u) == Some(Parsed(x, false)) && (s.Stored? ==> |s.data| <= MAX_STORED)
    ensures Parse(u + StepUnits(bits, s)) == Some(Parsed(x + (if s.Stored? then s.data else []), s.Stored? && s.last))
  {
    hide Parse, Header, Octets;
    match s {
      case Aligned =>
        ParseMorePads(u, x, (bits + 10) / 8);
        assert x + [] == x;
      case Stored(last, data) =>
        var h := Header((bits + 10) / 8 - 1, last, |data|);
        StreamAppend(u, x, (bits + 10) / 8 - 1, last, data);
        assert u + h + Octets(data) == u + (h + Octets(data));
    }
  }

  lemma {:induction false} ParseSteps(steps: seq<Step>)
    requires Proper(steps)
    ensures Parse(UnitsOf(steps)) == Some(Parsed(DataOf(steps), Closed(steps)))
    decreases |steps|
  {
    if steps == [] {
      ParseNothing();
    } else {
      var before, s := steps[..|steps| - 1], steps[|steps| - 1];
      hide Parse, StepUnits, EndBits;
      ParseSteps(before);
      ParseStep(UnitsOf(before), DataOf(before), EndBits(before), s);
    }
  }

  lemma ParseMorePads(u: seq<Unit>, x: seq<Byte>, n: nat)
    requires Parse(u) == Some(Parsed(x, false))
    ensures Parse(u + seq(n, _ => Pad)) == Some(Parsed(x, false))
  {
    hide Parse;
    var pads := seq(n, _ => Pad);
    ParseNothing();
    ParsePads(n, []);
    assert pads + [] == pads && x + [] == x;
    ParseAppend(u, pads, x);
  }

  lemma ParseNothing()
    ensures Parse([]) == Some(Parsed([], false))
  {}

  /** The units are those of some steps, which leave `bits` bits in the buffer. */
  ghost predicate Recorded(u: seq<Unit>, bits: nat) {
    exists steps :: Proper(steps) && UnitsOf(steps) == u && EndBits(steps) == bits
  }

  lemma RecordedNothing()
    ensures Recorded([], 0)
  {
    assert Proper([]) && UnitsOf([]) == [] && EndBits([]) == 0;
  }

  lemma ProperMore(steps: seq<Step>, s: Step)
    requires Proper(steps) && !Closed(steps) && (s.Stored? ==> |s.data| <= MAX_STORED)
    ensures Proper(steps + [s])
  {
    var more := steps + [s];
    forall i | 0 <= i < |more| && more[i].Stored?
      ensures |more[i].data| <= MAX_STORED && (more[i].last ==> i == |more| - 1)
    {
      if i < |steps| {
        assert more[i] == steps[i];
      }
    }
  }

  lemma OneStepMore(steps: seq<Step>, s: Step)
    requires Proper(steps) && !Closed(steps) && (s.Stored? ==> |s.data| <= MAX_STORED)
    ensures Proper(steps + [s]) && UnitsOf(steps + [s]) == UnitsOf(steps) + StepUnits(EndBits(steps), s)
    ensures EndBits(steps + [s]) == if s.Aligned? then (EndBits(steps) + 10) % 8 else 0
  {
    hide StepUnits, Proper, Closed;
    ProperMore(steps, s);
    assert (steps + [s])[..|steps|] == steps;
  }

  lemma RecordedMore(u: seq<Unit>, bits: nat, x: seq<Byte>, s: Step)
    requires Recorded(u, bits) && Parse(u) == Some(Parsed(x, false)) && (s.Stored? ==> |s.data| <= MAX_STORED)
    ensures Recorded(u + StepUnits(bits, s), if s.Aligned? then (bits + 10) % 8 else 0)
  {
    hide Parse, StepUnits, UnitsOf, EndBits, Proper, Closed;
    var steps :| Proper(steps) && UnitsOf(steps) == u && EndBits(steps) == bits;
    ParseSteps(steps);
    OneStepMore(steps, s);
  }
}

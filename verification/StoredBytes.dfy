/** The stream of level 0 down to its bits: what the decoder of whole blocks makes of it. */
module StoredBytes {
  import opened BitArith
  import opened BitStream
  import opened Lz77
  import opened HuffmanCodes
  import opened StoredFormat
  import opened SymbolCoder
  import opened DeflateTables
  import opened BlockLengths
  import opened BlockCoder
  import Deflate
  import DeflateCore
  import DeflateStored
  import DeflateStream
  import StoredStream

  // ----- what is sent, as bits -----

  /** The bits of a step, sent from bit `pos` of the stream on: those of _tr_align or of _tr_stored_block. */
  ghost function StepBits(t: Tables, pos: nat, s: Step): Bits
    requires t.Ok() && (s.Stored? ==> |s.data| <= MAX_STORED)
  {
    match s
    case Aligned => StaticBlock(t, false, [])
    case Stored(last, data) => StoredBits(pos, last, data)
  }

  ghost function StreamBits(t: Tables, steps: seq<Step>): Bits
    requires t.Ok() && Proper(steps)
  {
    if steps == [] then []
    else
      var before := StreamBits(t, steps[..|steps| - 1]);
      before + StepBits(t, |before|, steps[|steps| - 1])
  }

  lemma AlignLength(t: Tables)
    requires t.Ok()
    ensures |StaticBlock(t, false, [])| == 10
  {
    StaticSendable(t, []);
    hide Tables.Ok, CodeBits, BitsOf;
    CodeLength(StaticL(), END_BLOCK);
  }

  /** So many bits go to the bytes, and so many wait. */
  lemma StepLength(t: Tables, n: nat, e: nat, s: Step)
    requires t.Ok() && (s.Stored? ==> |s.data| <= MAX_STORED) && e < 8
    ensures 8 * n + e + |StepBits(t, 8 * n + e, s)|
         == 8 * (n + |StepUnits(e, s)|) + if s.Aligned? then (e + 10) % 8 else 0
  {
    hide Tables.Ok, StaticBlock, BitsOf, BytesBits;
    match s {
      case Aligned => AlignLength(t);
      case Stored(last, data) => PaddingIs(n, e);
    }
  }

  lemma PaddingIs(n: nat, e: nat)
    requires e < 8
    ensures 8 * n + e + 3 + Padding(8 * n + e + 3) == 8 * (n + (e + 10) / 8)
  {
    var m := 8 * n + e + 3;
    assert m % 8 == (e + 3) % 8;
  }

  lemma {:induction false} StreamLength(t: Tables, steps: seq<Step>)
    requires t.Ok() && Proper(steps)
    ensures |StreamBits(t, steps)| == 8 * |UnitsOf(steps)| + EndBits(steps)
    decreases |steps|
  {
    hide Tables.Ok, StepBits, StepUnits;
    if steps != [] {
      var before := steps[..|steps| - 1];
      StreamLength(t, before);
      StepLength(t, |UnitsOf(before)|, EndBits(before), steps[|steps| - 1]);
    }
  }

  // ----- the decoder -----

  lemma StepEncodes(t: Tables, pos: nat, s: Step)
    requires t.Ok() && (s.Stored? ==> |s.data| <= MAX_STORED)
    ensures Encodes(StepBits(t, pos, s), pos, if s.Stored? then Raw(s.data) else Coded([]), s.Stored? && s.last)
  {
    hide Tables.Ok, Encodes, StoredBits;
    match s {
      case Aligned =>
        StaticSendable(t, []);
        StaticShares(StaticL());
        FiveBits(StaticD());
        hide StaticL, StaticD, Codable;
        StaticEncodes(t, pos, false, []);
      case Stored(last, data) => StoredEncodes(pos, last, data);
    }
  }

  lemma StepOutput(out: seq<Byte>, s: Step)
    ensures Output(out, if s.Stored? then Raw(s.data) else Coded([])) == Some(out + if s.Stored? then s.data else [])
  {
    DeflateStream.NoOutput(out);
    assert out + [] == out;
  }

  /** Everything that is sent at level 0 is read back. */
  lemma {:induction false} StreamReads(t: Tables, steps: seq<Step>)
    requires t.Ok() && Proper(steps)
    ensures if Closed(steps) then Inflate(StreamBits(t, steps), []) == Some(DataOf(steps))
            else DeflateStream.Carries(StreamBits(t, steps), DataOf(steps))
    decreases |steps|
  {
    hide Tables.Ok, StepBits, Encodes, Inflate, DeflateStream.Carries, Output, EndBits;
    if steps == [] {
      DeflateStream.CarriesNothing();
    } else {
      var before, s := steps[..|steps| - 1], steps[|steps| - 1];
      StreamReads(t, before);
      var sent, out := StreamBits(t, before), DataOf(before);
      var bits, piece := StepBits(t, |sent|, s), if s.Stored? then Raw(s.data) else Coded([]);
      StepEncodes(t, |sent|, s);
      StepOutput(out, s);
      if Closed(steps) {
        StreamLength(t, steps);
        ClosedEnds(steps);
        DeflateStream.CarriesLast(sent, out, bits, piece, DataOf(steps), []);
        assert sent + bits + [] == sent + bits;
      } else {
        DeflateStream.CarriesMore(sent, out, bits, piece, DataOf(steps));
      }
    }
  }

  lemma ClosedEnds(steps: seq<Step>)
    requires Closed(steps)
    ensures EndBits(steps) == 0
  {}

  // ----- the units are the bytes -----

  /** The bits have the bytes of the stream in their places. */
  ghost predicate Shows(u: seq<Unit>, bits: Bits) {
    8 * |u| <= |bits| && forall i :: 0 <= i < |u| && u[i].Octet? ==> ByteAt(bits, i) == BitsOf(u[i].b, 8)
  }

  function ByteAt(bits: Bits, i: nat): Bits
    requires 8 * i + 8 <= |bits|
  {
    bits[8 * i..8 * i + 8]
  }

  lemma ShowsLonger(u: seq<Unit>, bits: Bits, more: Bits)
    requires Shows(u, bits)
    ensures Shows(u, bits + more)
  {
    hide BitsOf;
    forall i | 0 <= i < |u| && u[i].Octet? ensures ByteAt(bits + more, i) == BitsOf(u[i].b, 8) {
      assert ByteAt(bits + more, i) == ByteAt(bits, i);
    }
  }

  /** Units that are not bytes of their own. */
  lemma ShowsMarks(u: seq<Unit>, v: seq<Unit>, bits: Bits)
    requires Shows(u, bits) && 8 * |u + v| <= |bits| && forall i :: 0 <= i < |v| ==> !v[i].Octet?
    ensures Shows(u + v, bits)
  {
    hide BitsOf;
  }

  lemma {:induction false} ShowsOctets(u: seq<Unit>, bits: Bits, data: seq<Byte>)
    requires Shows(u, bits) && |bits| == 8 * |u|
    ensures Shows(u + Octets(data), bits + BytesBits(data))
    decreases |data|
  {
    hide BitsOf;
    if data == [] {
      assert u + Octets(data) == u && bits + BytesBits(data) == bits;
    } else {
      var n := |data| - 1;
      ShowsOctets(u, bits, data[..n]);
      var u', bits' := u + Octets(data[..n]), bits + BytesBits(data[..n]);
      assert u + Octets(data) == u' + [Octet(data[n])];
      Assoc(bits, BytesBits(data[..n]), BitsOf(data[n], 8));
      ShowsOne(u', bits', data[n]);
    }
  }

  lemma ShowsOne(u: seq<Unit>, bits: Bits, x: Byte)
    requires Shows(u, bits) && |bits| == 8 * |u|
    ensures Shows(u + [Octet(x)], bits + BitsOf(x, 8))
  {
    hide BitsOf;
    var all := bits + BitsOf(x, 8);
    ShowsLonger(u, bits, BitsOf(x, 8));
    assert ByteAt(all, |u|) == BitsOf(x, 8);
  }

  /** LEN and NLEN as bytes. */
  function LengthBytes(len: nat): seq<Byte>
    requires len <= MAX_STORED
  {
    [len % 256, len / 256, 255 - len % 256, 255 - len / 256]
  }

  lemma ShortBits(lo: Byte, hi: Byte)
    ensures BitsOf(lo + 256 * hi, 16) == BitsOf(lo, 8) + BitsOf(hi, 8)
  {
    hide BitsOf, Pow2, Shl;
    Pow2Of8();
    EightTimes(hi);
    BitsJoin(lo, hi, 8, 8);
  }

  lemma EightTimes(x: nat)
    ensures Shl(x, 8) == 256 * x
  {
    assert Shl(x, 4) == 16 * x;
  }

  lemma LengthBits(len: nat)
    requires len <= MAX_STORED
    ensures BytesBits(LengthBytes(len)) == BitsOf(len, 16) + BitsOf(0xffff - len, 16)
  {
    hide BitsOf, BytesBits;
    var a, b, c, d := len % 256, len / 256, 255 - len % 256, 255 - len / 256;
    ShortBits(a, b);
    ShortBits(c, d);
    assert len == a + 256 * b && 0xffff - len == c + 256 * d;
    FourBytes(a, b, c, d);
  }

  lemma FourBytes(a: Byte, b: Byte, c: Byte, d: Byte)
    ensures BytesBits([a, b, c, d]) == (BitsOf(a, 8) + BitsOf(b, 8)) + (BitsOf(c, 8) + BitsOf(d, 8))
  {
    hide BitsOf;
    assert [a, b, c, d] == [] + [a] + [b] + [c] + [d];
    BytesBitsMore([], a);
    BytesBitsMore([] + [a], b);
    BytesBitsMore([] + [a] + [b], c);
    BytesBitsMore([] + [a] + [b] + [c], d);
  }

  lemma HeaderIs(pads: nat, last: bool, data: seq<Byte>)
    requires |data| <= MAX_STORED
    ensures Header(pads, last, |data|) + Octets(data)
         == (seq(pads, _ => Pad) + [Mark(last)]) + (Octets(LengthBytes(|data|)) + Octets(data))
  {}

  lemma StepShows(t: Tables, u: seq<Unit>, bits: Bits, e: nat, s: Step)
    requires t.Ok() && (s.Stored? ==> |s.data| <= MAX_STORED) && e < 8
    requires Shows(u, bits) && |bits| == 8 * |u| + e
    ensures Shows(u + StepUnits(e, s), bits + StepBits(t, |bits|, s))
  {
    hide Tables.Ok, Shows, BitsOf, BytesBits, StaticBlock;
    match s {
      case Aligned =>
        AlignLength(t);
        ShowsLonger(u, bits, StaticBlock(t, false, []));
        ShowsMarks(u, StepUnits(e, s), bits + StaticBlock(t, false, []));
      case Stored(last, data) => StoredShows(u, bits, e, last, data);
    }
  }

  lemma StoredShows(u: seq<Unit>, bits: Bits, e: nat, last: bool, data: seq<Byte>)
    requires |data| <= MAX_STORED && e < 8 && Shows(u, bits) && |bits| == 8 * |u| + e
    ensures Shows(u + (Header((e + 10) / 8 - 1, last, |data|) + Octets(data)), bits + StoredBits(|bits|, last, data))
  {
    hide Shows, BitsOf, BytesBits, Header, Octets, LengthBytes, KindBits;
    var pads := (e + 10) / 8 - 1;
    var marks := seq(pads, _ => Pad) + [Mark(last)];
    var kind, zeros, len := KindBits(0, last), BitStream.Zeros(Padding(|bits| + 3)), LengthBytes(|data|);
    assert |kind| == 3 by { KindSize(last); }
    PaddingIs(|u|, e);
    ShowsLonger(u, bits, kind + zeros);
    ShowsMarks(u, marks, bits + (kind + zeros));
    ShowsOctets(u + marks, bits + (kind + zeros), len + data);
    DeflateStored.OctetsConcat(len, data);
    HeaderIs(pads, last, data);
    Assoc2(u, marks, Octets(len) + Octets(data));
    BytesBitsConcat(len, data);
    LengthBits(|data|);
    SixBits(bits, kind, zeros, BitsOf(|data|, 16), BitsOf(0xffff - |data|, 16), BytesBits(data));
  }

  lemma KindSize(last: bool)
    ensures |KindBits(0, last)| == 3
  {}

  lemma Assoc2(a: seq<Unit>, b: seq<Unit>, c: seq<Unit>)
    ensures a + b + c == a + (b + c)
  {}

  lemma SixBits(a: Bits, b: Bits, c: Bits, d: Bits, e: Bits, f: Bits)
    ensures a + (b + c) + (d + e + f) == a + (b + (c + (d + (e + f))))
  {
    assert a + (b + c) + (d + e + f) == a + b + c + d + e + f;
    FiveParts(a, b, c, d, e, f);
  }

  lemma {:induction false} StreamShows(t: Tables, steps: seq<Step>)
    requires t.Ok() && Proper(steps)
    ensures Shows(UnitsOf(steps), StreamBits(t, steps))
    decreases |steps|
  {
    hide Tables.Ok, StepBits, StepUnits, EndBits;
    if steps != [] {
      var before := steps[..|steps| - 1];
      StreamShows(t, before);
      StreamLength(t, before);
      hide Shows;
      StepShows(t, UnitsOf(before), StreamBits(t, before), EndBits(before), steps[|steps| - 1]);
    }
  }

  // ----- whole runs -----

  /** The bits of a stream, and what the decoder makes of them. */
  lemma BitsOfStream(t: Tables, stream: seq<Unit>, bits: nat) returns (sent: Bits)
    requires t.Ok() && Recorded(stream, bits) && Parse(stream).Some?
    ensures |stream| == |sent| / 8 && Shows(stream, sent)
    ensures if Parse(stream).value.done then |sent| % 8 == 0 && Inflate(sent, []) == Some(Parse(stream).value.data)
            else DeflateStream.Carries(sent, Parse(stream).value.data)
  {
    hide Shows, Inflate, DeflateStream.Carries, Tables.Ok, Parse, UnitsOf, Proper, StreamBits, DataOf, Closed;
    var steps :| Proper(steps) && UnitsOf(steps) == stream && EndBits(steps) == bits;
    sent := StreamBits(t, steps);
    ParseSteps(steps);
    StreamReads(t, steps);
    StreamShows(t, steps);
    StreamLength(t, steps);
    if Closed(steps) {
      ClosedEnds(steps);
    }
  }

  /**
    deflate() at level 0, over every sequence of calls: the bits that the coder sends, whose bytes are those of the
    stream, decode to what the stream holds, the end of a finished stream and a place to go on from for another. A
    finished stream decodes to all the input supplied by then if and only if the finishing call did not end early. A
    call that is to finish does so unless it fills its room, if the input can be counted.
   */
  method Compress(wide: bool, wSize: nat, pendingBufSize: nat, calls: seq<Deflate.Call>)
      returns (stream: seq<Unit>, waiting: seq<Byte>, unread: seq<Byte>, finished: bool, finishedAt: nat,
               start: DeflateStored.Store, fits: bool, left: seq<nat>, ghost sent: Bits, ghost data: seq<Byte>)
    requires wSize in {512, 1024, 2048, 4096, 8192, 16384, 32768} && pendingBufSize >= 512
    ensures |stream| == |sent| / 8 && Shows(stream, sent) && data + waiting + unread == Deflate.AllInput(calls)
    ensures if finished then |sent| % 8 == 0 && Inflate(sent, []) == Some(data)
            else DeflateStream.Carries(sent, data)
    ensures finished ==> finishedAt <= |calls| && start.blockStart <= start.strstart
    ensures finished && fits ==>
      (Inflate(sent, []) == Some(Deflate.AllInput(calls[..finishedAt])) <==> !start.EndsEarly(DeflateCore.Finish))
    ensures |Deflate.AllInput(calls)| < DeflateStored.WORD ==>
      fits && (finished ==> !start.EndsEarly(DeflateCore.Finish))
    ensures |left| == |calls| && 0 <= Deflate.Filled(calls, left) <= |stream|
    ensures |Deflate.AllInput(calls)| < DeflateStored.WORD ==>
      forall i :: 0 <= i < |calls| && calls[i].flush.Finish? && calls[i].room > 0 ==>
        left[i] == 0 || (finished && finishedAt <= i + 1)
  {
    hide Shows, Inflate, DeflateStream.Carries, Tables.Ok, Parse, DeflateStored.Store.EndsEarly, Recorded;
    var t, _, _ := DeflateStream.Init();
    var bits, codes;
    stream, bits, waiting, unread, finished, finishedAt, start, fits, codes, left :=
      StoredStream.Session(wide, wSize, pendingBufSize, calls);
    data := Parse(stream).value.data;
    sent := BitsOfStream(t, stream, bits);
  }
}

/**
  The whole way from input to bytes and back: the blocks of the compressor, each sent in its shortest form, with flush
  markers between them, decode to the input.
 */
module DeflateStream {
  import opened BitStream
  import opened Lz77
  import opened HuffmanCodes
  import opened HuffmanTree
  import opened DeflateTables
  import opened SymbolCoder
  import opened BlockLengths
  import opened BlockCoder
  import DeflateHash
  import DeflateCore
  import Deflate

  /** Whatever follows, the decoder comes to it with this output. */
  ghost predicate Carries(sent: Bits, out: seq<Byte>) {
    forall rest: Bits :: (|sent| + |rest|) % 8 == 0 ==> Inflate(sent + rest, []) == Inflate(rest, out)
  }

  lemma CarriesNothing()
    ensures Carries([], [])
  {
    forall rest: Bits ensures Inflate([] + rest, []) == Inflate(rest, []) {
      assert [] + rest == rest;
    }
  }

  /** One block more. */
  lemma CarriesMore(sent: Bits, out: seq<Byte>, bits: Bits, piece: Piece, out': seq<Byte>)
    requires Carries(sent, out) && Encodes(bits, |sent|, piece, false) && Output(out, piece) == Some(out')
    ensures Carries(sent + bits, out')
  {
    hide Inflate, ReadBlock, Encodes, Output;
    var all := sent + bits;
    forall rest: Bits | (|all| + |rest|) % 8 == 0 ensures Inflate(all + rest, []) == Inflate(rest, out') {
      OneMore(sent, out, bits, piece, false, out', rest);
    }
  }

  /** A block in front of whatever follows. */
  lemma OneMore(sent: Bits, out: seq<Byte>, bits: Bits, piece: Piece, last: bool, out': seq<Byte>, rest: Bits)
    requires Carries(sent, out) && Encodes(bits, |sent|, piece, last) && Output(out, piece) == Some(out')
    requires (|sent| + |bits| + |rest|) % 8 == 0
    ensures Inflate(sent + bits + rest, []) == if last then Some(out') else Inflate(rest, out')
  {
    hide *;
    Assoc(sent, bits, rest);
    CarriesAt(sent, out, bits + rest);
    EncodesAt(bits, |sent|, piece, last, rest);
    InflateOne(bits + rest, out, piece, last, rest, out');
  }

  lemma CarriesAt(sent: Bits, out: seq<Byte>, rest: Bits)
    requires Carries(sent, out) && (|sent| + |rest|) % 8 == 0
    ensures Inflate(sent + rest, []) == Inflate(rest, out)
  {}

  lemma EncodesAt(bits: Bits, pos: nat, piece: Piece, last: bool, rest: Bits)
    requires Encodes(bits, pos, piece, last) && (pos + |bits| + |rest|) % 8 == 0
    ensures bits != [] && ReadBlock(bits + rest) == Some(Decoded(Read(piece, last), rest))
  {}

  /** One block of the decoder. */
  lemma InflateOne(bits: Bits, out: seq<Byte>, piece: Piece, last: bool, rest: Bits, out': seq<Byte>)
    requires ReadBlock(bits) == Some(Decoded(Read(piece, last), rest)) && Output(out, piece) == Some(out')
    requires |rest| < |bits|
    ensures Inflate(bits, out) == if last then Some(out') else Inflate(rest, out')
  {
    hide ReadBlock, Output;
  }

  /** The last block ends the stream. */
  lemma CarriesLast(sent: Bits, out: seq<Byte>, bits: Bits, piece: Piece, out': seq<Byte>, pad: Bits)
    requires Carries(sent, out) && Encodes(bits, |sent|, piece, true) && Output(out, piece) == Some(out')
    requires (|sent| + |bits| + |pad|) % 8 == 0
    ensures Inflate(sent + bits + pad, []) == Some(out')
  {
    hide *;
    OneMore(sent, out, bits, piece, true, out', pad);
  }

  // ----- blocks -----

  /** Symbols that expand are within the bounds of the format. */
  lemma {:induction false} ExpandLegal(out: seq<Byte>, syms: seq<Symbol>)
    requires Expand(out, syms).Some?
    ensures forall s <- syms :: Legal(s)
    decreases |syms|
  {
    hide CopyBack;
    if syms != [] {
      var n := |syms| - 1;
      ExpandLegal(out, syms[..n]);
      forall s | s in syms ensures Legal(s) {
        assert s in syms[..n] || s == syms[n];
      }
    }
  }

  /** Either form of a block has the same output. */
  lemma BlockOutput(out: seq<Byte>, b: Block, out': seq<Byte>)
    requires ExpandBlock(out, b) == Some(out')
    ensures Output(out, Coded(b.syms)) == Some(out') && (b.raw.Some? ==> Output(out, Raw(b.raw.value)) == Some(out'))
    ensures AllLegal(b.syms)
  {
    ExpandLegal(out, b.syms);
  }

  lemma {:induction false} BlocksUpTo(blocks: seq<Block>, i: nat)
    requires i <= |blocks| && ExpandBlocks(blocks).Some?
    ensures ExpandBlocks(blocks[..i]).Some?
    decreases |blocks| - i
  {
    if i < |blocks| {
      BlocksUpTo(blocks, i + 1);
      assert blocks[..i + 1][..i] == blocks[..i];
    } else {
      assert blocks[..i] == blocks;
    }
  }

  lemma NextBlock(blocks: seq<Block>, i: nat)
    requires i < |blocks| && ExpandBlocks(blocks).Some?
    ensures ExpandBlocks(blocks[..i]).Some? && ExpandBlocks(blocks[..i + 1]).Some?
    ensures ExpandBlock(ExpandBlocks(blocks[..i]).value, blocks[i]) == ExpandBlocks(blocks[..i + 1])
  {
    BlocksUpTo(blocks, i);
    BlocksUpTo(blocks, i + 1);
    assert blocks[..i + 1][..i] == blocks[..i] && blocks[..i + 1][i] == blocks[i];
  }

  /** What deflate() sends between blocks: the end of a partial flush, or of another flush, or complete bytes. */
  datatype Mark = Align | EmptyStored | FlushBits

  /** The bits of a marker: an empty block with the fixed codes, an empty stored block, or none. */
  ghost function MarkBits(t: Tables, pos: nat, mark: Mark): Bits
    requires t.Ok()
  {
    match mark
    case Align => StaticBlock(t, false, [])
    case EmptyStored => StoredBits(pos, false, [])
    case FlushBits => []
  }

  /** The bits of markers, one after the other. */
  ghost function MarksBits(t: Tables, pos: nat, marks: seq<Mark>): Bits
    requires t.Ok()
  {
    if marks == [] then []
    else
      var before := MarksBits(t, pos, marks[..|marks| - 1]);
      before + MarkBits(t, pos + |before|, marks[|marks| - 1])
  }

  /** A marker changes nothing for the decoder, and leaves less than a byte in the bit buffer. */
  method SendMark(w: BitWriter, t: Tables, sl: Tree, sd: Tree, mark: Mark, ghost out: seq<Byte>)
    requires w.Valid() && t.Ok() && StaticTrees(sl, sd) && Carries(w.Sent(), out)
    modifies w
    ensures w.Valid() && Carries(w.Sent(), out) && w.biValid < 8
    ensures w.Sent() == old(w.Sent()) + MarkBits(t, |old(w.Sent())|, mark)
    ensures mark.EmptyStored? || (mark.FlushBits? && old(w.biValid) == 0) ==> w.biValid == 0
  {
    hide Carries, Encodes, Tables.Ok, StaticTrees, BitWriter.Sent, BitWriter.Valid, StoredBits, StaticBlock;
    ghost var sent := w.Sent();
    NoOutput(out);
    match mark {
      case Align =>
        ghost var bits := TrAlign(w, t, sl, sd);
        CarriesMore(sent, out, bits, Coded([]), out);
      case EmptyStored =>
        TrStoredBlock(w, [], false);
        StoredEncodes(|sent|, false, []);
        CarriesMore(sent, out, StoredBits(|sent|, false, []), Raw([]), out);
      case FlushBits =>
        w.BiFlush();
        assert sent + [] == sent;
    }
  }

  lemma NoOutput(out: seq<Byte>)
    ensures Output(out, Coded([])) == Some(out) && Output(out, Raw([])) == Some(out)
  {
    assert out + [] == out;
  }

  /** The markers end with that of a sync or full flush, so nothing is left in the bit buffer. */
  predicate Aligned(marks: seq<Mark>) {
    |marks| >= 2 && marks[|marks| - 2].EmptyStored? && marks[|marks| - 1].FlushBits?
  }

  method SendMarks(w: BitWriter, t: Tables, sl: Tree, sd: Tree, marks: seq<Mark>, ghost out: seq<Byte>)
    requires w.Valid() && t.Ok() && StaticTrees(sl, sd) && Carries(w.Sent(), out)
    modifies w
    ensures w.Valid() && Carries(w.Sent(), out) && (marks != [] ==> w.biValid < 8)
    ensures w.Sent() == old(w.Sent()) + MarksBits(t, |old(w.Sent())|, marks)
    ensures Aligned(marks) ==> w.biValid == 0
  {
    hide Carries, Tables.Ok, StaticTrees, BitWriter.Sent, BitWriter.Valid, MarkBits;
    ghost var sent := w.Sent();
    assert marks[..0] == [] && sent + [] == sent;
    for i := 0 to |marks|
      invariant w.Valid() && Carries(w.Sent(), out) && (i > 0 ==> w.biValid < 8)
      invariant w.Sent() == sent + MarksBits(t, |sent|, marks[..i])
      invariant (i > 0 && marks[i - 1].EmptyStored?) || Aligned(marks[..i]) ==> w.biValid == 0
    {
      ghost var before := MarksBits(t, |sent|, marks[..i]);
      assert marks[..i + 1][..i] == marks[..i];
      SendMark(w, t, sl, sd, marks[i], out);
      assert sent + before + MarkBits(t, |sent + before|, marks[i])
        == sent + (before + MarkBits(t, |sent| + |before|, marks[i]));
    }
    assert marks[..|marks|] == marks;
  }

  /** One block, in the form that the coder chooses for it, and the markers after it. */
  method SendBlock(w: BitWriter, t: Tables, sl: Tree, sd: Tree, b: Block, fixed: bool, marks: seq<Mark>,
                   ghost out: seq<Byte>, ghost out': seq<Byte>)
    requires w.Valid() && t.Ok() && StaticTrees(sl, sd) && Carries(w.Sent(), out) && DeflateCore.Bounded(b)
    requires ExpandBlock(out, b) == Some(out')
    modifies w
    ensures w.Valid()
    ensures if b.last then w.biValid == 0 && Inflate(w.Sent(), []) == Some(out') else Carries(w.Sent(), out')
    ensures !b.last && Aligned(marks) ==> w.biValid == 0
  {
    hide Carries, Encodes, Tables.Ok, StaticTrees, BitWriter.Sent, BitWriter.Valid, ExpandBlock, Output, Inflate;
    hide StaticBlock, DynamicBlock, StoredBits, TreesOk;
    ghost var sent := w.Sent();
    BlockOutput(out, b, out');
    var zeros: seq<nat> := seq(HEAP_SIZE, _ => 0);
    var form, r; ghost var bits;
    form, r, bits := TrFlushBlock(w, t, sl, sd, b, fixed, zeros, zeros);
    ghost var piece := if form.AsStored? then Raw(b.raw.value) else Coded(b.syms);
    if b.last {
      CarriesLast(sent, out, bits, piece, out', BitStream.Zeros(Padding(|sent| + |bits|)));
    } else {
      assert sent + bits + BitStream.Zeros(0) == sent + bits;
      CarriesMore(sent, out, bits, piece, out');
      SendMarks(w, t, sl, sd, marks, out');
    }
  }

  /** The tables and fixed trees. */
  method Init() returns (t: Tables, sl: Tree, sd: Tree)
    ensures t.Ok() && StaticTrees(sl, sd)
  {
    var lengthCode, baseLength := LengthTables();
    var distCode, baseDist := DistanceTables();
    t := Tables(lengthCode, baseLength, distCode, baseDist);
    var lcodes, llens := StaticTree();
    var dcodes, dlens := StaticDistances();
    hide Codable, HasCodes;
    assert llens == StaticL() && dlens == StaticD();
    sl, sd := Tree(lcodes, llens), Tree(dcodes, dlens);
  }

  /**
    Any blocks that expand, sent in the forms that the coder chooses with any markers before, between and after them: if
    the last one is marked so, the bytes decode to what the blocks expand to.
   */
  method SendBlocks(first: seq<Mark>, blocks: seq<Block>, fixed: bool, marks: seq<seq<Mark>>) returns (w: BitWriter)
    requires |marks| == |blocks| && ExpandBlocks(blocks).Some?
    requires forall i :: 0 <= i < |blocks| ==> DeflateCore.Bounded(blocks[i])
    requires forall i :: 0 <= i < |blocks| - 1 ==> !blocks[i].last
    ensures fresh(w) && w.Valid()
    ensures if blocks != [] && blocks[|blocks| - 1].last
            then w.biValid == 0 && Inflate(BytesBits(w.pending), []) == ExpandBlocks(blocks)
            else Carries(w.Sent(), ExpandBlocks(blocks).value)
    ensures Aligned(if blocks == [] then first else marks[|blocks| - 1]) ==> w.biValid == 0
  {
    hide Carries, Tables.Ok, StaticTrees, BitWriter.Valid, ExpandBlock, Inflate, ExpandBlocks, BytesBits;
    hide DeflateCore.Bounded, Aligned, MarksBits, BitWriter.Sent;
    var t, sl, sd := Init();
    w := new BitWriter();
    CarriesNothing();
    SendMarks(w, t, sl, sd, first, []);
    NoBlocks(blocks);
    for i := 0 to |blocks|
      invariant fresh(w) && w.Valid() && ExpandBlocks(blocks[..i]).Some?
      invariant if i > 0 && blocks[i - 1].last
                then w.biValid == 0 && Inflate(w.Sent(), []) == ExpandBlocks(blocks[..i])
                else Carries(w.Sent(), ExpandBlocks(blocks[..i]).value)
      invariant Aligned(if i == 0 then first else marks[i - 1]) ==> w.biValid == 0
    {
      NextBlock(blocks, i);
      SendBlock(w, t, sl, sd, blocks[i], fixed, marks[i], ExpandBlocks(blocks[..i]).value,
        ExpandBlocks(blocks[..i + 1]).value);
    }
    assert blocks[..|blocks|] == blocks;
    if w.biValid == 0 {
      AllInBytes(w);
    }
  }

  lemma NoBlocks(blocks: seq<Block>)
    ensures ExpandBlocks(blocks[..0]) == Some([])
  {
    assert blocks[..0] == [];
  }

  // ----- from input to bytes and back -----

  lemma BlocksPossible(blocks: seq<Block>, finished: bool)
    requires if finished then DeflateCore.EndsWithLast(blocks) else DeflateCore.NoLast(blocks)
    ensures forall i :: 0 <= i < |blocks| ==> DeflateCore.Bounded(blocks[i])
    ensures forall i :: 0 <= i < |blocks| - 1 ==> !blocks[i].last
    ensures finished ==> blocks != [] && blocks[|blocks| - 1].last
    ensures !finished ==> forall i :: 0 <= i < |blocks| ==> !blocks[i].last
  {
    var n := |blocks| - 1;
    forall i | 0 <= i < |blocks|
      ensures DeflateCore.Bounded(blocks[i]) && (i < n || !finished ==> !blocks[i].last)
    {
      if finished && i < n {
        assert blocks[..n][i] in blocks[..n];
      } else {
        assert blocks[i] in blocks;
      }
    }
  }

  /** Symbols only add to the output. */
  lemma {:induction false} ExpandGrows(out: seq<Byte>, syms: seq<Symbol>)
    requires Expand(out, syms).Some?
    ensures out <= Expand(out, syms).value
    decreases |syms|
  {
    hide CopyBack;
    if syms != [] {
      var n := |syms| - 1;
      ExpandGrows(out, syms[..n]);
      if syms[n].Match? {
        CopyGrows(Expand(out, syms[..n]).value, syms[n].lc + MIN_MATCH, syms[n].dist);
      }
    }
  }

  lemma {:induction false} CopyGrows(out: seq<Byte>, len: nat, dist: nat)
    requires 1 <= dist <= |out|
    ensures out <= CopyBack(out, len, dist)
    decreases len
  {
    if len > 0 {
      CopyGrows(out + [out[|out| - dist]], len - 1, dist);
    }
  }

  /** What is sent behind the first `n` blocks: every flush_pending completes bytes, and flushes leave their markers. */
  function MarksAt(marks: seq<Deflate.Marker>, n: nat): seq<Mark> {
    if marks == [] then [FlushBits]
    else
      var last := marks[|marks| - 1];
      MarksAt(marks[..|marks| - 1], n)
      + if last.after != n then [] else [if last.Align? then Align else EmptyStored, FlushBits]
  }

  /**
    deflate() at levels 1 to 9, over every sequence of calls: once the stream is finished its bytes decode, bit by bit,
    to all the input supplied up to the finishing call. Before that, what has been sent decodes to the beginning of the
    input, whatever follows; to all of it, if no symbol is buffered and no input is left, as after a flush that has not
    filled its room. After a sync or full flush that has not filled its room the bytes alone do. A call that is to
    finish does so unless it fills its room, with output of which `size` tells the amounts.
   */
  method Compress(level: nat, wSize: nat, hashBits: nat, litBufsize: nat, filtered: bool, fixed: bool,
                  size: nat -> nat, calls: seq<Deflate.Call>)
      returns (w: BitWriter, finished: bool, finishedAt: nat, syms: seq<Symbol>, left: nat, codes: seq<Deflate.Code>,
               room: seq<nat>, sent: nat, ghost out: seq<Byte>)
    requires 1 <= level <= 9 && wSize in {512, 1024, 2048, 4096, 8192, 16384, 32768}
    requires DeflateHash.ValidBits(hashBits) && 2 <= litBufsize <= DeflateCore.LIT_BUFSIZE_MAX
    ensures finished ==> finishedAt <= |calls| && w.biValid == 0
    ensures finished ==> Inflate(BytesBits(w.pending), []) == Some(Deflate.AllInput(calls[..finishedAt]))
    ensures !finished ==> Carries(w.Sent(), out) && out <= Deflate.AllInput(calls)
    ensures !finished && syms == [] && left == 0 ==> out == Deflate.AllInput(calls)
    ensures |codes| == |room| == |calls| && 0 <= Deflate.Filled(calls, room) <= DeflateCore.Total(size, sent)
    ensures forall i :: 0 <= i < |calls| ==> room[i] <= calls[i].room
    ensures forall i :: 0 <= i < |calls| && calls[i].flush.Finish? && calls[i].room > 0 ==>
      room[i] == 0 || (finished && finishedAt <= i + 1)
    ensures var n := |calls| - 1;
      n >= 0 && !finished && calls[n].room > 0 && room[n] > 0 && !calls[n].flush.NoFlush? ==> syms == [] && left == 0
    ensures var n := |calls| - 1;
      n >= 0 && codes[n].Ok? && room[n] > 0 && (calls[n].flush.SyncFlush? || calls[n].flush.FullFlush?) ==>
        w.biValid == 0 && Carries(BytesBits(w.pending), Deflate.AllInput(calls))
  {
    hide ExpandBlocks, Expand, Inflate, BytesBits, Carries, DeflateCore.EndsWithLast, DeflateCore.NoLast;
    var blocks, unread, lookahead, held, marks;
    ghost var resumed, from;
    blocks, syms, unread, lookahead, held, finished, finishedAt, marks, codes, room, resumed, from :=
      Deflate.Session(level, wSize, hashBits, litBufsize, filtered, size, calls);
    BlocksPossible(blocks, finished);
    w := SendBlocks(MarksAt(marks, 0), blocks, fixed, seq(|blocks|, i requires 0 <= i => MarksAt(marks, i + 1)));
    left, out, sent := unread + lookahead + held, ExpandBlocks(blocks).value, |blocks| + |marks|;
    ExpandGrows(out, syms);
    if syms == [] {
      NothingMore(out);
    }
    MarkedLast(marks, |blocks|);
    if w.biValid == 0 {
      AllInBytes(w);
    }
  }

  /** Behind the last block come the markers sent after it, the latest at the end. */
  lemma MarkedLast(marks: seq<Deflate.Marker>, n: nat)
    ensures marks != [] && marks[|marks| - 1] == Deflate.EmptyStored(n) ==> Aligned(MarksAt(marks, n))
  {}

  lemma NothingMore(out: seq<Byte>)
    ensures Expand(out, []) == Some(out)
  {}
}

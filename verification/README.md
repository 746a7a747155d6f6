# Verified model of a small operating system and its zlib

A Dafny model of the parts of the system in which a fast, stateful mechanism has to agree with a simple meaning, and
proofs that it does. `dafny verify dfyconfig.toml` checks everything.

| part | modules | the meaning it is proved against |
|---|---|---|
| deflate, levels 1 to 9 | `Lz77`, `BitArith`, `DeflateHash`, `DeflateDict`, `DeflateCore`, `DeflateFast`, `DeflateSlow`, `Deflate` | the symbols of section 3.2.3 of RFC 1951 |
| Huffman coding | `BitStream`, `HuffmanCodes`, `HuffmanHeap`, `HuffmanLengths`, `HuffmanWeights`, `HuffmanTree`, `Prices`, `DeflateTables`, `SymbolCoder`, `TreeCoder`, `HeaderCoder`, `BlockLengths`, `BlockCoder`, `DeflateStream` | the bit-level decoder of sections 3.2.2 to 3.2.7 of RFC 1951 |
| optimal codes | `HuffmanOptimal`, `PrefixCodes` | all prefix codes |
| deflate, level 0 | `StoredFormat`, `DeflateStored`, `StoredStream`, `StoredBytes` | the decoder of section 3.2.4 of RFC 1951, down to the bits |
| CRC-32 | `Crc32`, `Crc32Combine`, `Crc32Tables`, `Crc32Loops` | the bit-serial remainder (section 8 of RFC 1952) |
| Adler-32 | `Adler32` | the per-byte modulo sums (section 9 of RFC 1950) |
| linked lists | `IntrusiveList`, `TaskQueue`, `ListFamilies`, `QueueMoves`, `KernelLinks`, `CacheMoves`, `CacheLinks` | sequences |
| disk buffer cache | `BlockCache`, `BlockOps`, `BlockRuns` | a map from block to contents, with the sets of cached and of unwritten blocks |
| tasks, scheduler, mutexes | `KernelState`, `PlainKernel`, `Kernel` | a plain transition system; scans of the task table; one holder at a time |
| alarms | `Alarm` | a scan of all tasks on every tick |
| mouse pointer over the frame buffer | `Framebuffer` | the picture without a pointer |
| regular expressions | `RegexpLanguage`, `Regexp` | the language of the expression |
| calendar | `Calendar` | seconds since the Epoch, counted day by day |
| boot file system | `BootFs`, `BootLoader` | the directory tree |

Where the code keeps running sums, tables, queues or pixels in place, the model does too: classes for the compressor
streams, the bit buffer, the cache, the scheduler, the clock, the frame buffer, the executor and the image writer, loops
with invariants elsewhere. Panics of the original are `assert false` and are proved unreachable. The state of the
matcher is one record that the methods replace, with a second record of ghost history (all input, the hash keys of all
its strings, the positions entered) to state the invariants in absolute positions.

What the devices do, how many bytes the Huffman coder makes of each block and marker, whether there is memory and which
event comes next are inputs: every result holds for all of them.

Some results differ from what the code's comments or names suggest.

* `adler32_z` on a single byte reduces by one subtraction, and `adler32_combine_` by three, which is not enough for some
  values that are not checksums. `Adler32.AdlerZ` and `Adler32.Combine` give the exact conditions.
* `deflate_stored` adds what waits in the window and `avail_in` in 32 bits. When the sum wraps, a finishing call can end
  the stream with 2^32 bytes unsent (`DeflateStored.EarlyEnd`, `DeflateStored.EarlyEndExample`).
* `build_tree` is said to give optimal lengths. It does if and only if some optimal code stays within the limit of 15 or 7
  bits (`HuffmanTree.BuildTree`), which is not always so (`PrefixCodes.TooDeep`).
* `mkbfs` computes byte offsets and sizes in 32 bits. The loader finds the root directory if and only if its header ends
  within 4 GiB of the device (`BootLoader.MakeOver`); a file reads back if and only if its last block does, unless the
  image is so long that it comes back onto its own start (`BootLoader.FileOver`); and of a file whose size rounds to
  2^32 bytes no data are written (`BootLoader.VanishingFile`).
* A task's alarm is a `long`, the time is not: with 32 bits an alarm for 2038 or later rings on the next tick
  (`Alarm.RingsAtOnce`). Second 0 means no alarm, so an alarm that falls on it can make the cache miss another one
  (`Alarm.Clock.ClockIntr`, `Alarm.AlarmLost`).
* `list_rm` of an item that has left may cut out what has come between its old neighbours
  (`IntrusiveList.List.Remove`, `IntrusiveList.RemoveTwice`).
* `sys_alarm` does not clear the period of an earlier `sys_ualarm` (`Alarm.AlarmAfterUalarm`), that period rounds down
  to zero below 4000 microseconds (`Alarm.ShortPeriodsVanish`), and the rest that `sys_ualarm` returns adds ticks to
  microseconds (`Alarm.RestIsMicroseconds`, `Alarm.RestIsWrong`).
* A forked child waits in ready queue 0 whatever its priority (`Kernel.Machine.Fork`).
* `fb_bmp_hline_32` reads a byte that no pixel needs if and only if the row ends a byte or is empty; what it holds does
  not matter (`Framebuffer.Framebuf.BmpHLine`).
* Of three or more alternatives `regexec` tries only the first and the last, since `regcomp` redirects the first piece
  at every bar (`Regexp.CompiledReachesAll`, `Regexp.MiddleLost`), and a repeated piece is never tried again once the
  piece behind it has matched (`Regexp.TakenTooEarly`).
* `sys_ualarm` counts whole ticks of 4000 microseconds, and a shorter delay rings on the next tick
  (`Alarm.UalarmRings`).
* A block whose write fails is marked clean all the same; the view is proved for all blocks whose writes have not
  failed (`BlockOps.Cache.Get`, `BlockOps.Cache.Write`).

## Model

| member | source | states |
|---|---|---|
| `Lz77.CopyBackReproduces` | zlib/deflate.h:333-342 | if the bytes at a position really occur `dist` bytes earlier, the decoder's byte-by-byte, possibly overlapping copy reproduces them |
| `Lz77.MatchExpands` | zlib/deflate.h:333-342 | a tallied genuine match, through its narrowing casts, makes the decoder's output grow by exactly the matched input |
| `Lz77.LiteralExpands` | zlib/deflate.h:326-332 | a tallied literal makes the decoder's output grow by that byte |
| `Lz77.BlockExpands` | zlib/deflate.c:1605-1614 | a flushed block keeps the decoded prefix, whether the coder uses its symbols or its raw bytes |
| `DeflateHash.HashForgetsOldestByte` | zlib/deflate.c:157-163 | three UPDATE_HASH steps push the oldest byte out, so a running key depends on the last three bytes only |
| `DeflateHash.UpdateInjective` | zlib/deflate.c:163 | equal keys from the same predecessor force equal newest bytes, for every memory level |
| `DeflateHash.HashTableSound` | zlib/deflate.c:157-163 | zlib's hash indexes the head table, forgets the oldest byte and determines the newest, for hash_bits 8 to 16 |
| `DeflateHash.HashStep` | zlib/deflate.c:157-186 | one update of a primed register gives the key of the next three bytes and leaves the register primed |
| `DeflateHash.ThirdByte` | zlib/deflate.c:1335-1342 | strings with equal keys and equal first two bytes have equal third bytes, which longest_match does not compare |
| `DeflateDict.InsertKeeps` | zlib/deflate.c:166-186 | INSERT_STRING keeps every reachable chain entry in the chain of its own key |
| `DeflateDict.InsertKeepsLink` | zlib/deflate.c:182-186 | a new string takes the prev slot of no string that is still within a window size |
| `DeflateDict.SlideKeeps` | zlib/deflate.c:197-225 | slide_hash keeps heads and links true of the moved window |
| `DeflateDict.GrowKeeps` | zlib/deflate.c:1534-1556 | reading more input keeps the dictionary true |
| `DeflateDict.AdvanceKeeps` | zlib/deflate.c:1876-1891 | the dictionary stays true as strstart moves on |
| `DeflateDict.SlotIsRemainder` | zlib/deflate.c:182-186 | masking a window index with w_mask is taking it modulo the window size |
| `DeflateCore.InsertSane` | zlib/deflate.c:166-186 | INSERT_STRING on the whole state keeps its invariant and readies the running hash for the next string |
| `DeflateCore.MatchLength` | zlib/deflate.c:1341-1357 | the scan returns the largest agreement with the candidate, at most 258 bytes |
| `DeflateCore.SameThirdByte` | zlib/deflate.c:1335-1342 | the byte the scan skips agrees, because both strings are in one chain |
| `DeflateCore.Candidate` | zlib/deflate.c:1330-1357 | a candidate is rejected on its first or last bytes only if it is no longer than the best match |
| `DeflateCore.SearchChain` | zlib/deflate.c:1283-1373 | the match returned agrees in every byte, and unless it is nice enough no entry of the chain, up to max_chain of them and within MAX_DIST, has a longer one |
| `DeflateCore.LongestMatch` | zlib/deflate.c:1236-1377 | every match longer than prev_length is genuine, at most min(258, lookahead) long and at a distance from 1 to MAX_DIST; unless it is nice enough or reaches the end of the input, no entry within the search's budget has a longer one |
| `DeflateCore.SlideTable` | zlib/deflate.c:201-225 | every table entry drops by the window size, or to NIL if it leaves the window |
| `DeflateCore.SlideWindow` | zlib/deflate.c:1507-1518 | sliding keeps the state invariant; match_start may become negative and still names the same input |
| `DeflateCore.ReadBuf` | zlib/deflate.c:1164-1189 | input moves to the end of the window, none lost and none read twice |
| `DeflateCore.InsertPending` | zlib/deflate.c:1537-1556 | entering the strings left over from earlier input keeps the dictionary true and readies the hash |
| `DeflateCore.FillOnce` | zlib/deflate.c:1489-1562 | one round slides if needed and reads; all absolute positions stay |
| `DeflateCore.FillWindow` | zlib/deflate.c:1482-1598 | on return there is enough lookahead or no input left, and nothing coded so far has changed |
| `DeflateCore.TallyLiteralCoded` | zlib/deflate.h:326-332 | tallying the byte at the coded position extends what the symbols decode to by it |
| `DeflateCore.TallyMatchCoded` | zlib/deflate.h:333-342 | tallying a genuine match extends what the symbols decode to by its length, also for a decoder that starts where history was last forgotten |
| `DeflateCore.FlushBlockCoded` | zlib/deflate.c:1605-1614 | FLUSH_BLOCK_ONLY keeps what blocks and symbols decode to, from the start and from where history was last forgotten |
| `DeflateCore.FlushBlockOutputs` | zlib/deflate.c:730-750 | what is written and what waits are all the bytes that the coder makes of the blocks and markers; nothing waits while there is room |
| `DeflateFast.EnterMatch` | zlib/deflate.c:1876-1886 | entering the strings inside a short match one by one, exactly these, keeps the dictionary true and the hash ready |
| `DeflateFast.TakeMatch` | zlib/deflate.c:1870-1900 | after a match the state is ready; exactly if it is short enough, and the input goes on, its strings have been entered, and otherwise the hash was started afresh |
| `DeflateFast.FindMatch` | zlib/deflate.c:1845-1863 | the length found is that of a longest match which the search finds at strstart, if it finds one; it is genuine, within MAX_DIST and not before where history was last forgotten |
| `DeflateFast.Step` | zlib/deflate.c:1845-1907 | the symbol tallied is the match that the search finds, if it finds one, and otherwise the literal at strstart; decoding gives the input up to the new strstart |
| `DeflateFast.Round` | zlib/deflate.c:1845-1907 | one such symbol, in the buffer or in the block that is flushed when the buffer is full; the call ends exactly if that leaves no room |
| `DeflateFast.Compress` | zlib/deflate.c:1824-1918 | deflate_fast keeps that the symbols decode to the input consumed; unless it fills the room it takes all input, down to the last byte if a flush is asked for, and marks the last block exactly on finish |
| `DeflateSlow.Search` | zlib/deflate.c:1948-1982 | lazy evaluation keeps the previous match and searches unless that is long enough already; the search finds a longest match, which is dropped exactly if it is too short for its distance or the strategy |
| `DeflateSlow.Improve` | zlib/deflate.c:1962-1981 | the match that the search finds, unless it is not worth its code |
| `DeflateSlow.SkipMatch` | zlib/deflate.c:2000-2009 | moving past an adopted match enters only complete strings and keeps the dictionary true |
| `DeflateSlow.TakePrevious` | zlib/deflate.c:1986-2011 | adopting the previous match codes exactly its bytes, from the byte held back on |
| `DeflateSlow.EmitHeld` | zlib/deflate.c:2013-2025 | a held byte whose match was bettered is coded as a literal |
| `DeflateSlow.Step` | zlib/deflate.c:1948-2033 | the lazy rule in both directions: the previous match is adopted if and only if it is one and none longer is found now; otherwise the byte held back becomes a literal and the next one is held back with the match found there |
| `DeflateSlow.EndOfInput` | zlib/deflate.c:2035-2048 | at the end of the input the byte held back is coded as a literal, and nothing else |
| `DeflateSlow.Compress` | zlib/deflate.c:1926-2049 | deflate_slow keeps the same decoding invariant, across slides and truncated lazy matches, and unless it fills the room it takes all input, down to the last byte if a flush is asked for |
| `Deflate.InitialBetween` | zlib/deflate.c:1194-1220 | a new stream satisfies the invariants of both compressors |
| `Deflate.ForgetReady` | zlib/deflate.c:1029-1036 | clearing the hash on a full flush keeps the invariant, and from then on nothing refers to earlier input |
| `Deflate.StreamDecodes` | zlib/deflate.c:1824-2049 | what the blocks and buffered symbols decode to: the input read, less the lookahead and the byte held back; when finished, all of it |
| `Deflate.RestartDecodes` | zlib/deflate.c:1029-1036 | the blocks since the last completed full flush, by themselves, and the buffered symbols decode to the input since then |
| `Deflate.RankIs` | zlib/deflate.c:152-155 | the ranks of the flush values of zlib.h, by the formula of the macro |
| `Deflate.Deflater.constructor` | zlib/deflate.c:298-348 | a new stream is valid, for every window size, memory level and level 1 to 9 |
| `Deflate.Deflater.Deflate` | zlib/deflate.c:763-1067 | any call keeps the stream valid, loses no input, and leaves a finished stream alone; a call with room fills it, or reads and codes all input, leaves nothing buffered after a flush, sends its marker, and finishes the stream if asked to; what fills the room is output of the blocks and markers; Z_STREAM_END, Z_STREAM_ERROR and Z_BUF_ERROR exactly when they are due |
| `Deflate.Deflater.CompressSome` | zlib/deflate.c:994-1044 | the compression function of the level runs; it stops early only for want of room or, without a flush, of input, and the stream is finished exactly when it says so |
| `Deflate.Deflater.EndFlush` | zlib/deflate.c:1021-1044 | a completed flush sends the marker of its kind, and a full flush forgets the history, so that a decoder can start here |
| `Deflate.Deflater.Proceed` | zlib/deflate.c:994-1049 | once nothing waits for room: the input is taken and the flush completed unless the room is filled |
| `Deflate.Session` | zlib/deflate.c:763-1067 | over every sequence of calls, chunks, room and flush values the blocks and then the buffered symbols decode to all input supplied, less what is unread, the lookahead and the byte held back; those since the last completed full flush decode by themselves to the input since then; once finished to all of it, and only the final block is marked last; a call that is to finish does so unless it fills its room with output of the blocks and markers, and a flush leaves nothing behind unless it fills its room |
| `BitStream.BitWriter.SendBits` | zlib/trees.c:211-223 | the low bits of the value, lowest first, come after everything sent before, across the end of the 16-bit buffer |
| `BitStream.BitWriter.BiFlush` | zlib/trees.c:1173-1185 | complete bytes leave the buffer and nothing is added |
| `BitStream.BitWriter.BiWindup` | zlib/trees.c:1190-1203 | zeros up to the next byte |
| `HuffmanCodes.FirstIs` | zlib/trees.c:585-588 | the first code of a length comes after the shares of all shorter ones |
| `HuffmanCodes.CodeFits` | zlib/trees.c:585-604 | a code fits its length, if the shares of all lengths are no more than the whole |
| `HuffmanCodes.PrefixFree` | zlib/trees.c:572-605 | no code is the beginning of another |
| `HuffmanCodes.DecodeCode` | zlib/trees.c:572-605 | a code is decoded to its symbol, whatever follows |
| `HuffmanCodes.BiReverse` | zlib/trees.c:1158-1168 | the bits in reverse order |
| `HuffmanCodes.GenCodes` | zlib/trees.c:572-605 | the codes of section 3.2.2 of RFC 1951, reversed, without overflow of 16 bits |
| `HuffmanHeap.PqDownHeap` | zlib/trees.c:451-474 | the same nodes, in order from the given position on |
| `HuffmanHeap.PqRemove` | zlib/trees.c:430-435 | the least node leaves, and the others stay in order |
| `HuffmanHeap.FirstIsLeast` | zlib/trees.c:426-449 | the first node of an ordered queue is the least |
| `HuffmanLengths.LeafShares` | zlib/trees.c:508-525 | depths cut to the limit: the shares of the leaves are more than the whole by half the number of nodes beyond the limit, and so many leaves are at the limit |
| `HuffmanLengths.FirstPass` | zlib/trees.c:503-525 | the depths of all nodes, cut to the limit, the counts of the leaves, the number of nodes beyond, and what all symbols take with these lengths and with the static ones |
| `HuffmanLengths.LowTree` | zlib/trees.c:508-513 | in a tree that is not higher than the limit no node is beyond it |
| `HuffmanLengths.SomeShorter` | zlib/trees.c:532-534 | while the shares are more than the whole some leaf is not at the limit, so the search for it ends |
| `HuffmanLengths.FixCounts` | zlib/trees.c:531-542 | the repair ends with the counts of a complete code for as many leaves |
| `HuffmanLengths.Reassign` | zlib/trees.c:544-561 | every leaf gets a length, the counts are those asked for, and opt_len is what all symbols take with the new lengths |
| `HuffmanLengths.GenBitlen` | zlib/trees.c:486-562 | lengths from 1 to the limit for all leaves, and a complete code; what is added to opt_len and static_len is what all symbols take; the lengths are the depths unless one has been cut, and none is cut in a tree that is not higher than the limit |
| `HuffmanOptimal.Optimal` | zlib/trees.c:664-684 | of any lengths that leave no bit string twice, none cost less than the fathers that the construction makes weigh, and those that cost as much are as deep at least as its tree |
| `PrefixCodes.KraftHolds` | zlib/trees.c:589-593 | the shares of a prefix code are no more than the whole |
| `PrefixCodes.Attained` | zlib/trees.c:664-684 | some prefix code costs what the fathers weigh and is as deep as the tree |
| `PrefixCodes.BestIs` | zlib/trees.c:477-483 | lengths are best exactly if they cost what the fathers weigh |
| `PrefixCodes.BestWithinIs` | zlib/trees.c:608-613 | some best prefix code stays within a limit if and only if the construction does |
| `PrefixCodes.TooDeep` | zlib/trees.c:527-542 | for counts of 1, 1, 2 and 4 no best prefix code stays within two bits |
| `HuffmanWeights.RoundFathers` | zlib/trees.c:664-684 | giving the two first nodes of a queue a father is one step of the construction |
| `HuffmanWeights.HeavyOn` | zlib/trees.c:672-674 | a node weighs at least the number of Fibonacci for its height, in every round |
| `HuffmanTree.NoWrap` | zlib/trees.c:672-674 | so, as long as the frequencies fit 16 bits, no sum of them and no height wraps |
| `HuffmanWeights.LeavesCostInner` | zlib/trees.c:508-524 | with the depths as lengths, the leaves cost what the inner nodes weigh |
| `HuffmanTree.Collect` | zlib/trees.c:630-653 | all symbols that occur, and at least two, are in the queue; those that do not occur count once and are taken off opt_len and static_len |
| `HuffmanTree.Combine` | zlib/trees.c:664-684 | the two least nodes of the queue get a common father, who takes their place with the sum of their frequencies; no node is lost or doubled |
| `HuffmanTree.Construct` | zlib/trees.c:664-684 | all rounds: one tree, whose inner nodes weigh what those of the construction weigh, and which is as high, if the frequencies fit 16 bits |
| `HuffmanTree.OneTree` | zlib/trees.c:664-688 | the last node is the root of one tree, whose nodes stand in the array from the root down |
| `HuffmanTree.BuildTree` | zlib/trees.c:615-697 | every symbol that occurs gets a code of at most max bits, and the codes are complete; opt_len and static_len grow by what all symbols take; if the frequencies fit 16 bits, no prefix code takes fewer bits if and only if that is so of some code within the limit |
| `DeflateTables.BaseLIs` | zlib/trees.c:256-262 | the tables of lengths in closed form |
| `DeflateTables.BaseDIs` | zlib/trees.c:271-285 | the tables of distances in closed form |
| `DeflateTables.LengthTables` | zlib/trees.c:255-268 | every length gets a code that stands for it |
| `DeflateTables.DistanceTables` | zlib/trees.c:270-285 | every distance gets a code that stands for it |
| `DeflateTables.StaticTree` | zlib/trees.c:288-299 | the fixed literal codes are complete |
| `DeflateTables.StaticDistances` | zlib/trees.c:301-305 | the fixed distance codes are the numbers themselves, in five bits |
| `SymbolCoder.DecodeItemOf` | zlib/trees.c:1076-1100 | the bits of a symbol are decoded to it, whatever follows |
| `SymbolCoder.RoundTrip` | zlib/trees.c:1064-1109 | the symbols of a block and its end are decoded to the symbols, whatever follows, with any trees that have codes for them |
| `SymbolCoder.SendSymbol` | zlib/trees.c:1076-1100 | a literal, or the codes and extra bits of length and distance |
| `SymbolCoder.CompressBlock` | zlib/trees.c:1064-1109 | the bits of all symbols and of the end of the block are sent |
| `TreeCoder.RunExpands` | zlib/trees.c:768-783 | the symbols for a run of lengths are within the bounds of the format and stand for the run |
| `TreeCoder.OpsOfExpand` | zlib/trees.c:748-793 | the run-length symbols of a list of lengths expand to it, after any lengths before them |
| `TreeCoder.DecodeLensOf` | zlib/trees.c:748-793 | the bits of the symbols are decoded to the lengths |
| `TreeCoder.ScanTree` | zlib/trees.c:703-742 | the frequencies of exactly the symbols that send_tree sends |
| `TreeCoder.SendTree` | zlib/trees.c:748-793 | the bits of the run-length symbols are sent |
| `BlockLengths.SymbolsLength` | zlib/trees.c:935-937 | the bits of the symbols of a block and of its end are frequencies times lengths, with any codes |
| `BlockLengths.OpsLength` | zlib/trees.c:804-812 | so are those of the run-length symbols |
| `HeaderCoder.PaddedCodes` | zlib/trees.c:799-827 | unused symbols at the end change no code |
| `HeaderCoder.BuildBlTree` | zlib/trees.c:799-827 | a code of at most seven bits for all run-length symbols, and at least four of its lengths to send; opt_len grows by exactly the bits of the header |
| `HeaderCoder.HeaderLength` | zlib/trees.c:822-825 | the bits of the header: what the run-length symbols take, three for each length sent, and fourteen |
| `HeaderCoder.HeaderBack` | zlib/trees.c:834-858 | the header of a block gives back the lengths of both trees, whatever follows |
| `HeaderCoder.SendAllTrees` | zlib/trees.c:834-858 | the three numbers, the code length codes and the lengths of both trees are sent |
| `BlockCoder.TrStoredBlock` | zlib/trees.c:863-881 | three bits, zeros up to a byte, LEN, NLEN and the bytes |
| `BlockCoder.StoredEncodes` | zlib/trees.c:863-881 | a stored block is read back, wherever it starts in the stream |
| `BlockCoder.StaticEncodes` | zlib/trees.c:978-980 | so is a block with the fixed codes |
| `BlockCoder.DynamicEncodes` | zlib/trees.c:985-989 | so is a block with codes of its own |
| `BlockCoder.TrAlign` | zlib/trees.c:896-905 | an empty block with the fixed codes, and less than a byte left in the bit buffer |
| `BlockCoder.Frequencies` | zlib/trees.c:1014-1034 | exactly the frequencies of the codes that the symbols need, and one of the end |
| `BlockCoder.TrTally` | zlib/trees.c:1014-1034 | one symbol more is counted, and no count wraps |
| `BlockCoder.BuildTrees` | zlib/trees.c:920-942 | opt_len and static_len are the numbers of bits that the block takes with codes of its own and with the fixed codes, less three; for each alphabet no prefix code takes fewer bits if and only if that is so of some code within 15 bits |
| `BlockCoder.SendDynamic` | zlib/trees.c:985-989 | header and symbols are sent, and the block is read back |
| `BlockCoder.TrFlushBlock` | zlib/trees.c:911-1008 | a block is stored exactly if its bytes are in the window and they and four more are no more than the bytes it takes with either kind of codes; else it has the fixed codes exactly if it takes no more bytes with them than with its own, or the strategy is Z_FIXED; in every form it is read back as its symbols or its bytes |
| `DeflateStream.CarriesMore` | zlib/trees.c:911-1008 | the decoder goes on behind a block with its output |
| `DeflateStream.SendMark` | zlib/trees.c:886-905 | a flush marker is sent with exactly its bits and changes nothing for the decoder; after that of a sync or full flush nothing is left in the bit buffer |
| `DeflateStream.SendBlocks` | zlib/trees.c:911-1008 | blocks in the forms that the coder chooses, with any markers before, between and after them, are bytes that decode to what the blocks expand to; if the last marker is that of a sync or full flush, the stream ends on a byte boundary |
| `DeflateStream.Compress` | zlib/deflate.c:763-1067 | levels 1 to 9: over every sequence of calls, with the markers that the flushes send, the bytes of a finished stream decode, bit by bit, to all input supplied up to the finishing call; before that, what has been sent decodes to the beginning of the input, whatever follows, and to all of it after a flush that has not filled its room; after a sync or full flush the complete bytes alone decode to all of it; a call that is to finish does so unless it fills its room |
| `StoredFormat.ParseAppend` | zlib/trees.c:863-881 | decoding a concatenation of stored blocks is decoding its parts |
| `StoredFormat.ParseBlock` | zlib/trees.c:863-881 | a block written with its LEN and NLEN fields is read back with its data and its last flag |
| `StoredFormat.StreamAppend` | zlib/trees.c:863-881 | a block appended to an unfinished stream adds exactly its data |
| `StoredFormat.ParseSteps` | zlib/trees.c:863-905 | what _tr_stored_block and _tr_align send one after the other, as units, decodes to the data of the blocks |
| `DeflateStored.FlushPendingValid` | zlib/deflate.c:730-749 | flush_pending moves pending bytes to the output without changing the stream |
| `DeflateStored.EmitDirectConserves` | zlib/deflate.c:1686-1727 | a block copied straight to the output takes first what waits in the window, then input, in order |
| `DeflateStored.CopyBlock` | zlib/deflate.c:1659-1728 | one round of direct copying, with left + avail_in in 32 bits: the length, the refusal of exactly the small blocks, and a last flag with everything sent if and only if that sum has not wrapped onto the length |
| `DeflateStored.CopyDirect` | zlib/deflate.c:1657-1728 | all rounds of direct copying conserve the input and stop only when no further block is worth writing; if avail_in fits 32 bits, a last block has everything if and only if the call does not meet the wrapped guard at its start |
| `DeflateStored.EarlyEnd` | zlib/deflate.c:1681-1690 | with some output room a finishing call ends early if and only if what waits in the window and the input are too much for 32 bits |
| `DeflateStored.EarlyEndExample` | zlib/deflate.c:1681-1690 | 1000 bytes in the window, 2^32 - 1 bytes of input and room for 999 end the stream early |
| `DeflateStored.KeepRecentRecent` | zlib/deflate.c:1730-1759 | after direct copying the window again ends with the latest input |
| `DeflateStored.MakeRoomValid` | zlib/deflate.c:1772-1782 | sliding the window to make room keeps what waits in it |
| `DeflateStored.ReadRestValid` | zlib/deflate.c:1783-1788 | the rest of the input goes to the window in order |
| `DeflateStored.EmitPendingConserves` | zlib/deflate.c:1805-1811 | a block of the window put into the pending buffer conserves the input |
| `DeflateStored.EmitFills` | zlib/deflate.c:1797-1811 | if no block could be written directly, one through the pending buffer fills the room, or without a flush takes all input; without one there is nothing left to do |
| `DeflateStored.StoreRest` | zlib/deflate.c:1772-1814 | the second half conserves the input and marks a last block only when nothing is left; if the input can be counted in 32 bits it fills the room, or takes all input and with a flush sends all of it |
| `DeflateStored.Compress` | zlib/deflate.c:1643-1815 | blocks written and pending, what waits in the window and unread input are together always the whole input; a call that finishes the stream leaves nothing unsent if and only if its guard has not wrapped at its start; a call whose input can be counted fills its room or does all that was asked for |
| `DeflateStored.FlushMarkerValid` | zlib/deflate.c:1021-1037 | the marker after a flush adds no data, and forgetting the window loses none; a sync or full flush ends the stream with the bytes of an empty stored block, on a byte boundary |
| `StoredStream.Storer.constructor` | zlib/deflate.c:298-348 | a new level 0 stream is valid |
| `StoredStream.Storer.Deflate` | zlib/deflate.c:763-1067 | any call at level 0 keeps the stream valid and loses no input from sight; the end is reported only with nothing pending; a finishing call leaves something unsent if and only if it starts to compress in a state that ends early, and then at least 2^32 bytes; a call whose input can be counted fills its room, or reads all input, sends all of it if a flush is asked for, and finishes the stream if asked to; a sync or full flush ends with its marker; the return codes exactly |
| `StoredStream.Storer.Continue` | zlib/deflate.c:994-1044 | deflate_stored and the flush marker keep the stream valid |
| `StoredStream.Session` | zlib/deflate.c:1643-1815 | over every sequence of calls: decoded data, then what waits in the window, then unread input, are the whole input; a finished stream has exactly one last block, and all of the input if and only if the state in which the finishing call started did not end early; if the input can be counted, a call that is to finish does so unless it fills its room |
| `StoredBytes.StreamLength` | zlib/trees.c:863-905 | as many bytes as units are sent, and so many bits wait in the bit buffer |
| `StoredBytes.StreamShows` | zlib/trees.c:863-905 | every byte of the units is in its place among the bits |
| `StoredBytes.StreamReads` | zlib/trees.c:863-905 | the bits decode to the data of the blocks, wherever markers leave the stream between two bytes |
| `StoredBytes.Compress` | zlib/deflate.c:763-1067 | level 0: over every sequence of calls the bits sent, whose bytes are those of the stream, decode to all input but what waits in the window and what is unread; those of a finished stream to all of it if and only if the finishing call did not end early; if the input can be counted, a call that is to finish does so unless it fills its room |
| `Crc32.ZeroBitLinear` | zlib/crc32.c:111-112 | the register step is linear over GF(2) |
| `Crc32.RegisterLinear` | zlib/crc32.c:372-425 | a change of the starting register shows as that change run through as many zero bytes |
| `Crc32.CrcConcat` | zlib/crc32.c:202-234 | feeding A and then B equals feeding A ++ B, for every starting value |
| `Crc32.CrcOfConcat` | zlib/crc32.c:372-425 | the checksum of A ++ B from those of A and B |
| `Crc32Combine.MatrixTimes` | zlib/crc32.c:344-358 | the loop computes the matrix-vector product over GF(2) |
| `Crc32Combine.ProductIsZeros` | zlib/crc32.c:344-358 | multiplying by the operator matrix is running that many zero bits through the register |
| `Crc32Combine.MatrixSquare` | zlib/crc32.c:361-369 | squaring the operator of n zero bits gives that of 2n |
| `Crc32Combine.OneZeroMatrix` | zlib/crc32.c:387-392 | the starting matrix is the operator of one zero bit |
| `Crc32Combine.Combine` | zlib/crc32.c:372-425 | alternating even and odd squarings apply the one-bit operator exactly 8 * len2 times, for every length |
| `Crc32Combine.CombineParts` | zlib/crc32.c:372-425 | combining crc(A), crc(B) and the length of B gives crc(A ++ B), for all byte strings |
| `Crc32Tables.MakePoly` | zlib/crc32.c:103-106 | the exponents make the polynomial 0xedb88320 |
| `Crc32Tables.MakeFirstTable` | zlib/crc32.c:108-114 | entry b of the first table is the register after byte b |
| `Crc32Tables.MakeNextTable` | zlib/crc32.c:117-127 | entry b of table k is the register after byte b and k zero bytes |
| `Crc32Tables.MakeTables` | zlib/crc32.c:88-131 | all eight tables, the last four byte-swapped |
| `Crc32Tables.ZeroByteByTable` | zlib/crc32.c:198 | one lookup and one shift run eight zero bits |
| `Crc32Tables.ZeroWordByTables` | zlib/crc32.c:260-262 | four lookups run 32 zero bits |
| `Crc32Tables.RegisterWord` | zlib/crc32.c:260-262 | four bytes through the register are their little-endian word through 32 zero bits |
| `Crc32Loops.CrcPlain` | zlib/crc32.c:224-233 | the byte loops compute the bit-by-bit checksum |
| `Crc32Loops.StepLittle` | zlib/crc32.c:260-262 | DOLIT4 advances the register by one word |
| `Crc32Loops.CrcLittle` | zlib/crc32.c:266-297 | the little-endian loops compute the bit-by-bit checksum, for every buffer, alignment and starting value |
| `Crc32Loops.StepBig` | zlib/crc32.c:300-302 | DOBIG4 advances the byte-swapped register by one word |
| `Crc32Loops.CrcBig` | zlib/crc32.c:306-337 | the big-endian loops compute the same checksum on swapped registers and tables |
| `Crc32Loops.CrcZ` | zlib/crc32.c:202-234 | the same checksum on every machine, and 0 for a missing buffer |
| `Adler32.Mod28` | zlib/adler32.c:33-37 | reduction by shifts equals the remainder below 2^28 |
| `Adler32.Mod` | zlib/adler32.c:38-42 | two rounds of shifts equal the remainder for every 32-bit value |
| `Adler32.Mod63` | zlib/adler32.c:43-55 | three rounds of shifts equal the remainder below 2^63 |
| `Adler32.PendingFits` | zlib/adler32.c:12-14 | neither sum passes 2^32 - 1 within a block, whatever the starting value |
| `Adler32.NmaxIsLargest` | zlib/adler32.c:12-14 | 5552 is exactly the largest number of bytes for which the bound in the comment holds |
| `Adler32.AddBytes` | zlib/adler32.c:16-20 | unreduced sums stay congruent to the per-byte definition and fit 32 bits at every step |
| `Adler32.AddBlock` | zlib/adler32.c:102-111 | a block of NMAX bytes with one modulo for each sum |
| `Adler32.AddRest` | zlib/adler32.c:114-127 | the rest, fewer than NMAX bytes, with one modulo for each sum |
| `Adler32.AddOne` | zlib/adler32.c:75-83 | one byte by subtraction: right if and only if the high half needs at most one subtraction, and congruent always |
| `Adler32.AddFew` | zlib/adler32.c:90-99 | fewer than sixteen bytes, for every starting value |
| `Adler32.AddMany` | zlib/adler32.c:102-130 | sixteen bytes or more, for every starting value |
| `Adler32.AdlerZ` | zlib/adler32.c:63-131 | adler32_z equals the per-byte modulo-65521 definition if and only if it is not a single byte on an unreduced high half; 1 for a missing buffer |
| `Adler32.UnreducedExists` | zlib/adler32.c:75-83 | a starting value and a byte for which the exception occurs |
| `Adler32.ValidIsReduced` | zlib/adler32.c:75-83 | on valid checksums that exception never occurs, and the result is valid |
| `Adler32.AdlerConcat` | zlib/adler32.c:63-131 | feeding A and then B equals feeding A ++ B |
| `Adler32.Sum1From` | zlib/adler32.c:143-169 | how the low sum depends on the value it starts from |
| `Adler32.Sum2From` | zlib/adler32.c:143-169 | how the high sum depends on the values both start from and on the length |
| `Adler32.Combine` | zlib/adler32.c:143-169 | on any values: the halves of the concatenation's checksum if and only if the subtractions reduce both sums; 0xffffffff for a negative length |
| `Adler32.ValidCombines` | zlib/adler32.c:143-169 | for checksums they always do |
| `Adler32.CombineFails` | zlib/adler32.c:160-166 | two values for which they do not |
| `Adler32.CombineParts` | zlib/adler32.c:143-169 | combining the checksums of A and B gives that of A ++ B |
| `IntrusiveList.List.constructor` | lib/list.c:38-43 | an empty list |
| `IntrusiveList.List.InsertBefore` | lib/list.c:52-82 | the links of the list become those of the sequence with the item inserted before the given one |
| `IntrusiveList.List.InsertAfter` | lib/list.c:84-114 | the same after the given one |
| `IntrusiveList.List.Prepend` | include/list.h:49 | an item goes to the front |
| `IntrusiveList.List.Append` | include/list.h:48 | an item goes to the end |
| `IntrusiveList.List.Remove` | lib/list.c:116-133 | the item leaves the list; one that is not in it, with whatever links, leaves the list as it is if and only if the neighbours it still points at have not got others |
| `IntrusiveList.RemoveTwice` | lib/list.c:116-133 | an inner item of any list is removed, another comes in its place and the first is removed again: the list has lost the second |
| `IntrusiveList.RunDistinct` | lib/list.c:165-190 | correct back links rule out cycles |
| `IntrusiveList.Check` | lib/list.c:165-190 | the two-pointer check ends on every memory and accepts exactly the well-formed lists |
| `BlockCache.ViewUpdate` | kern/block.c:185-299 | how replacing one buffer changes the view of cached data over device contents |
| `BlockCache.CachedUpdate` | kern/block.c:185-299 | how replacing one buffer changes which blocks are cached, and which of them their devices have not been given |
| `BlockCache.CleanKeeps` | kern/block.c:279-299 | writing a buffer back, successfully or not, leaves the whole view as it is |
| `BlockCache.ReplaceKeeps` | kern/block.c:212-228 | giving up a clean buffer changes the view only of blocks whose writing has failed |
| `BlockCache.FillKeeps` | kern/block.c:245-257 | filling an invalid buffer from the device leaves the view as it is, also when the read fails halfway |
| `BlockCache.StoreKeeps` | kern/block.c:362-364 | new data in a held buffer change the view of its block and of no other |
| `BlockCache.BucketLength` | kern/block.c:194-200 | no hash list is longer than the number of buffers, so the queue loop panic is unreachable |
| `BlockCache.SearchIsComplete` | kern/block.c:194-210 | a live buffer of the block, if any, is in the hash list that is searched |
| `BlockCache.MovedKeeps` | kern/block.c:218-230 | moving the least recently used buffer between hash lists keeps all lists exact, also from no list |
| `BlockCache.GrowKeeps` | kern/block.c:428-433 | a new buffer that is in no hash list keeps all lists exact |
| `BlockOps.Cache.constructor` | kern/block.c:89-116 | 1024 free buffers; the view is the device contents |
| `BlockOps.Cache.Write` | kern/block.c:279-299 | a clean buffer is left alone; a dirty one becomes clean after exactly one write of its data; the view stays; a failed write may leave anything on the device and is recorded |
| `BlockOps.Cache.Search` | kern/block.c:194-210 | finds a live buffer of the block exactly if there is one |
| `BlockOps.Cache.Get` | kern/block.c:185-234 | a buffer of the block, one more reference, all others untouched; the least recently used is recycled only if none is live, and then exactly its write-back, if it is dirty, is asked of a device; ENOMEM only if none is free; the view stays |
| `BlockOps.Cache.Recycle` | kern/block.c:212-233 | eviction writes back exactly if the buffer is dirty, moves the buffer to its new hash list and keeps the view |
| `BlockOps.Cache.Put` | kern/block.c:263-277 | one reference less; the last one puts the buffer at the end of the free list; no buffer, no change |
| `BlockOps.Cache.Read` | kern/block.c:236-261 | the buffer holds what the view shows; a cached block is had without asking the device, for any other it is asked once, and the call fails exactly if that fails; a failed read gives the reference back; what is cached afterwards |
| `BlockOps.Cache.Load` | kern/block.c:248-257 | one read of the device into the buffer, which is valid exactly if it succeeds |
| `BlockOps.Cache.Store` | kern/fs/nat/rw.c:182-190 | a caller that fills a held buffer and marks it valid and dirty changes the view of that block only |
| `BlockOps.Cache.PRead` | kern/block.c:335-347 | the bytes of the view, with no reference kept and the view unchanged; an error exactly if the block is not cached and the device fails, or no buffer is free |
| `BlockOps.Cache.PWrite` | kern/block.c:349-374 | exactly bytes off..off+len of one block of the view change; on an error none do; a whole block is written without reading it, and of another one the device is asked only if it is not cached |
| `BlockOps.Cache.SyncBuffer` | kern/block.c:380-387 | one buffer is written exactly if asked and dirty, and given up exactly if asked and clean then, with the view unchanged |
| `BlockOps.Cache.Sync` | kern/block.c:376-403 | every free buffer of the device, or of all, and no other one is treated so; the devices are asked for exactly these writes, in the order of last use; held buffers and the view stay |
| `BlockOps.Cache.Add` | kern/block.c:405-440 | more free buffers in front of the free list, EINVAL for fewer, and the view unchanged |
| `BlockRuns.Request` | kern/block.c:185-440 | as long as no device write has failed, each request, with buffers held, filled and given back between requests, acts as on a plain map from block to contents, a table of holds, the set of cached blocks and the set of those not yet written; there is no memory exactly if all buffers are in use for other blocks; a read asks the device exactly if the block is not cached and fails exactly if the device does; every write asked of a device saves the contents of a block that leaves or is synchronised |
| `BlockRuns.Session` | kern/block.c:185-440 | a whole run of requests from blk_init on gives the answers and device accesses of the plain store; in the end the devices hold the contents of all blocks but those not yet written; with devices that never fail no write fails |
| `BlockRuns.MakesRoom` | kern/block.c:212-233 | the block that leaves is that of the least recently used buffer; it is not in use, and exactly if it is dirty its contents are written |
| `BlockRuns.SyncedIs` | kern/block.c:376-403 | a synchronisation writes exactly the unwritten blocks that are meant and not in use, each once and with its contents, and gives up exactly the clean ones |
| `BlockOps.WrittenOnDisk` | kern/block.c:279-299 | the device is behind the cache only for blocks that have not been written back |
| `ListFamilies.Lists.constructor` | lib/list.c:38-43 | any number of empty lists over one pool of items |
| `ListFamilies.Lists.Append` | lib/list.c:84-114 | of many lists without an item in common one behaves as a sequence of item numbers, and no other changes |
| `ListFamilies.Lists.Prepend` | lib/list.c:52-82 | the same for an item that goes to the front |
| `ListFamilies.Lists.Remove` | lib/list.c:116-133 | the same for an item that leaves, or was never in a list |
| `ListFamilies.Lists.Rehash` | kern/block.c:218-229 | the moves of blk_get between linked hash lists are those of the cache between sequences |
| `ListFamilies.Queues.constructor` | kern/task.c:381-385 | any number of empty queues over one pool of tasks |
| `ListFamilies.Queues.Insert` | kern/task.c:387-419 | of many task queues one behaves as a sequence of task numbers, and no other changes |
| `ListFamilies.Queues.Dequeue` | kern/task.c:421-445 | the same for the first task |
| `ListFamilies.Queues.Remove` | kern/task.c:447-490 | the same for a task that leaves |
| `QueueMoves.LoggedMore` | kern/task.c:387-490 | one more task_insert, task_dequeue or task_remove, allowed when its turn comes |
| `KernelLinks.Follow` | kern/task.c:387-490 | any such moves, one after the other, on linked queues: the queues are those of the sequences, and so is every task that task_dequeue gives |
| `KernelLinks.RunOnLinks` | kern/sched.c:47-140 | in any run of the kernel all moves of tasks between queues, made on linked queues, leave exactly the tasks of its queues in their order |
| `CacheMoves.NeverListed` | kern/block.c:216-233 | a buffer that is in no hash list has never been in one, so its links are clear |
| `CacheLinks.Follow` | kern/block.c:185-233 | any moves of buffers, one after the other, on linked hash lists and a linked free list: the lists are those of the sequences |
| `CacheLinks.CacheOnLinks` | kern/block.c:89-275 | of any cache, after any calls, all moves of buffers between lists, made on linked lists, leave exactly the buffers of its lists in their order |
| `BlockOps.SyncedDisk` | kern/block.c:391-403 | after a full sync with nothing in use the devices hold the whole view |
| `TaskQueue.Queue.Insert` | kern/task.c:387-419 | the links become those of the sequence with the task at the end |
| `TaskQueue.Queue.Dequeue` | kern/task.c:421-445 | the first task leaves with cleared links |
| `TaskQueue.Queue.Remove` | kern/task.c:447-494 | an only, first, last or inner task leaves with cleared links |
| `TaskQueue.Queue.constructor` | kern/task.c:381-385 | an empty queue |
| `KernelState.OnlyRunnable` | kern/sched.c:56-61 | two runnable tasks make the counters differ by more than one |
| `KernelState.SomeReady` | kern/sched.c:68-86 | if the counters differ some ready queue has a task, so the next == NULL panic is unreachable |
| `KernelState.EarlyReturn` | kern/sched.c:56-61 | the counters differ by one exactly if the current task is the only runnable one |
| `KernelState.DebtUpdate` | kern/sched.c:88-96 | a refill that leaves a slice negative lessens the total debt, so the retry loop ends |
| `KernelState.Exclusion` | kern/mutex.c:40-78 | at most one task is inside a mutex, and the count is its number of entries |
| `KernelState.NoLostWakeup` | kern/mutex.c:59-94 | a task asleep in mtx_enter waits for a mutex that is held |
| `Kernel.Machine.Insert` | kern/task.c:387-419 | a task in no queue goes to the end of one; the panic is unreachable |
| `Kernel.Machine.Dequeue` | kern/task.c:421-445 | the first task of a queue, or none |
| `Kernel.Machine.Remove` | kern/task.c:447-494 | a task leaves its queue and the other queues stay |
| `Kernel.Machine.Resume` | kern/task.c:209-237 | a sleeping task becomes ready with a fresh slice, leaves its wait queue, and asks for rescheduling if it comes before the current one: the state becomes that of the plain kernel |
| `Kernel.Machine.DequeueReady` | kern/sched.c:75-86 | the first task of the best non-empty ready queue; there always is one |
| `Kernel.Machine.Pick` | kern/sched.c:73-108 | the state becomes that of the plain choice: the first task of the best ready queue, after refills, becomes current, with a slice from 0 to 50; none better is waiting, and only slices and ready queues have changed; the loop ends |
| `PlainKernel.SlicesPaid` | kern/sched.c:88-96 | a slice is the old one and ten ticks for each refill, at most fifty; who is chosen has been refilled until out of debt, whoever else has been is still in debt |
| `PlainKernel.FirstIsChosen` | kern/sched.c:75-108 | the first task of the best queue is chosen unless it is too deep in debt, and then no other task and no other queue changes |
| `PlainKernel.DispatchedKeeps` | kern/sched.c:73-108 | a choice changes of any task at most slice and ready queue, and nothing of one that is not ready |
| `PlainKernel.DispatchedWaits` | kern/sched.c:73-108 | a choice changes no queue in which tasks sleep, no mutex and nothing but tasks, ready queues and the current task |
| `Kernel.Machine.Sched` | kern/sched.c:47-140 | returns early if and only if the caller is the only runnable task, idles if and only if all tasks are paused, keeps every invariant, and the state becomes that of the plain kernel |
| `Kernel.Machine.constructor` | kern/task.c:109-156 | one task, current |
| `Kernel.Machine.Suspend` | kern/task.c:174-207 | returns EINTR exactly for a pending signal or event in an interruptible wait; otherwise the task is last in its queue, asleep, no other wait queue and of no other task more than slice and ready queue has changed, and another task is chosen |
| `PlainKernel.SleepsOn` | kern/task.c:174-207 | who sleeps is at the end of his queue, no other wait queue changes, and nobody else falls asleep |
| `Kernel.Machine.Wake` | kern/task.c:209-237 | waking any live task keeps every invariant, and the state becomes that of the plain kernel |
| `PlainKernel.WokenWaitsLast` | kern/task.c:209-237 | a woken task runs again with ten ticks, is last in the queue of its priority and in no other, and nobody else changes |
| `PlainKernel.JoinedLast` | kern/task.c:387-419 | a task that joins a queue is last in it and in no other, and nobody else moves |
| `Kernel.Machine.Signal` | kern/signal.c:67-99 | EINVAL out of range and nothing for signal 0, an ignored signal or an exited task; otherwise the state becomes that of the plain kernel |
| `PlainKernel.SignalMeans` | kern/signal.c:67-99 | the signal is pending; stop sets stopped, continue and kill clear it, others leave it; exactly an interruptible sleeper wakes |
| `Kernel.Machine.GetSlot` | kern/task.c:77-101 | the first free slot, or none exactly if the table is full or memory is short |
| `Kernel.Machine.Create` | kern/task.c:239-310 | a copy of the current task, counted, on the ready queue of its priority; nothing at all if its name, slot or pages are not to be had |
| `Kernel.Machine.Fork` | kern/fork.c:66-120 | the child is counted and waits in ready queue 0, whatever its priority; it stays with a signal pending if its pages cannot be copied |
| `Kernel.Machine.Exit` | kern/task.c:371-378 | the task is no longer counted and is never current again, so the last panic is unreachable |
| `Kernel.Machine.Reap` | kern/task.c:103-107 | freeing the slot of an exited task keeps every invariant |
| `Kernel.Machine.SetPrio` | kern/task.c:511-517 | a new priority for the current task |
| `Kernel.Machine.Tick` | kern/clock.c:145-150 | the current task is charged one tick, and rescheduling is asked for below zero |
| `Kernel.Machine.Acquire` | kern/mutex.c:59-78 | the loop takes a free mutex, and otherwise fails, is interrupted or sleeps on its queue |
| `Kernel.Machine.Enter` | kern/mutex.c:40-78 | succeeds if and only if the mutex is free or already held by the caller, and then counts one entry more; otherwise nothing about the mutex changes |
| `Kernel.Machine.GoOn` | kern/mutex.c:59-78 | a woken waiter takes the mutex exactly if it is free |
| `Kernel.Machine.Leave` | kern/mutex.c:80-94 | one entry less; after the last one nobody is left asleep for the mutex |
| `Kernel.Machine.Step` | kern/sched.c:47-140 | every event that can happen keeps counters, queues, tasks and mutexes in order, and does to the tasks, queues, mutexes, current task and rescheduling request what it does to those of the plain kernel |
| `Kernel.Run` | kern/sched.c:47-140 | from the start, any interleaving of scheduling, signals, wake-ups, forks, exits and mutex calls keeps everything in order and ends in the state of the plain kernel |
| `Alarm.Clock.SetAlarm` | kern/clock.c:56-67 | the cached deadline moves to an earlier instant, never to a later one; a call for second 0 clears it unless it is negative |
| `Alarm.Clock.ChkAlarm` | kern/clock.c:69-102 | a due alarm is signalled and spent or rearmed, in the width of a long, and every alarm that is not spent is handed to set_alarm |
| `Alarm.Clock.Scan` | kern/clock.c:156-160 | a scan signals exactly the due tasks, and the cache is what the calls of set_alarm in their order leave |
| `Alarm.Clock.ClockIntr` | kern/clock.c:104-168 | signals and alarms after every tick are those of a full scan; before the cached deadline nothing changes; the cache is at or before every alarm again if and only if no call for second 0 has driven the first one out; an alarm is still due if and only if a 32-bit long could not hold it |
| `Alarm.Clock.SysAlarm` | kern/syscall.c:572-609 | the alarm is set, in the width of a long, or cleared; an earlier period stays; the cache still covers every alarm if and only if the new one is not for second 0 or nothing is lost by that |
| `Alarm.Clock.SysUalarm` | kern/syscall.c:611-673 | delay and period in ticks, rounded down; too long a delay changes nothing; what is returned is the rest in microseconds if and only if the ticks agree; the cache as for sys_alarm |
| `Alarm.UalarmRings` | kern/syscall.c:611-673 | over the ticks that follow sys_ualarm with a delay from 4000 to 1000000 microseconds the task is signalled first after as many ticks as the delay has whole 4000 microseconds, and then, if it repeats, every so many, and at no other tick; for a shorter delay once, on the next tick |
| `Alarm.Clock.SetTime` | kern/syscall.c:963-983 | setting the clock, to any time, keeps the cache at or before every alarm; the ticks are right if and only if the product fits 32 bits |
| `Alarm.Clock.Clear` | kern/exec.c:202-203 | clearing an alarm keeps the cache at or before every other |
| `Alarm.NotYet` | kern/clock.c:152-162 | while the cached deadline lies ahead nobody is due |
| `Alarm.SignalledExactly` | kern/clock.c:158-160 | the scan signals a task if and only if it is due |
| `Alarm.Elapse` | kern/clock.c:104-168 | from the Epoch up to the last second of a long, over any number of ticks, a task armed n ticks ahead is signalled at tick n and then once each period, and at no other tick, and the cache keeps covering every alarm |
| `Alarm.RingsEvery` | kern/clock.c:82-97 | the rings of a periodic alarm are exactly one period apart |
| `Alarm.RingsOnce` | kern/clock.c:82-87 | a one-shot alarm rings once |
| `Alarm.RestIsMicroseconds` | kern/syscall.c:630-634 | ticks added to microseconds give the rest in microseconds, in 32 bits, if and only if the ticks agree; and by how much they are wrong |
| `Alarm.RestIsWrong` | kern/syscall.c:630-634 | one second and one tick ahead the result is 1000001 instead of 1004000 |
| `Alarm.AlarmAfterUalarm` | kern/syscall.c:572-673 | after sys_ualarm and then sys_alarm, over all the ticks that follow, the alarm rings first when it should and again if and only if the old period is not zero |
| `Alarm.CachedIsFirst` | kern/clock.c:56-102 | after a scan the cache is at or before every deadline if and only if each has one at or before it that no later call for second 0 drives out |
| `Alarm.ZeroNearZero` | kern/clock.c:89-97 | a period ends at second 0 only within the second before it or in it, as a long sees the time |
| `Alarm.AlarmLost` | kern/clock.c:69-102 | a run of calls two seconds before the Epoch after which the cache misses the alarm of one task: it is never signalled, however late it is |
| `Alarm.Happen` | kern/clock.c:104-168 | every event acts as on a clock without a cached deadline, which looks at every task on every tick |
| `Alarm.Run` | kern/clock.c:104-168 | over every sequence of ticks, sys_alarm, sys_ualarm, new and cleared tasks and settings of the clock that puts no alarm on second 0, the cached deadline makes no difference: the same tasks are signalled at the same ticks |
| `Alarm.CheckedIsFuture` | kern/clock.c:82-98 | after the check an alarm is still due if and only if its next second is too late for a 32-bit long |
| `Alarm.SetCovers` | kern/clock.c:56-67 | an alarm handed to set_alarm leaves another one uncovered if and only if it is for second 0, the cache is not negative and another one is armed |
| `Alarm.RingsAtOnce` | kern/syscall.c:572-609 | an alarm rings on the very next tick if and only if time plus delay is at least 2^31, does not wrap to 0, and a long has 32 bits |
| `Alarm.AlarmAfterUalarmExample` | kern/syscall.c:572-673 | after ualarm(4000, 1) and alarm(1) it rings after 250 ticks and again on the next |
| `Alarm.ShortPeriodsVanish` | kern/syscall.c:650-653 | the period is zero, so nothing repeats, if and only if the delay is below 4000 microseconds |
| `Framebuffer.Framebuf.PutPix` | drv/framebuf.sys.c:393-413 | one pixel of the picture changes and no other, pointer or not |
| `Framebuffer.Framebuf.GetPix` | drv/framebuf.sys.c:415-435 | the pixel of the picture without the pointer |
| `Framebuffer.Framebuf.constructor` | drv/framebuf.sys.c:41-56 | a new frame buffer is valid and shows its picture |
| `Framebuffer.Framebuf.HLine` | drv/framebuf.sys.c:437-448 | exactly the pixels of the line change |
| `Framebuffer.Framebuf.VLine` | drv/framebuf.sys.c:450-457 | exactly the pixels of the line change |
| `Framebuffer.Framebuf.Rect` | drv/framebuf.sys.c:459-468 | exactly the pixels of the rectangle change |
| `Framebuffer.Framebuf.ShowPtr` | drv/framebuf.sys.c:130-182 | the pointer appears and the picture stays, at any position and partly or wholly off the screen |
| `Framebuffer.Framebuf.HidePtr` | drv/framebuf.sys.c:184-233 | the picture stays and is what the screen shows |
| `Framebuffer.Framebuf.SetPtr` | drv/framebuf.sys.c:74-82 | another shape and mask, the same picture |
| `Framebuffer.Framebuf.Erase` | drv/framebuf.sys.c:108-127 | restoring the old save-under pixels through the new pointer |
| `Framebuffer.Framebuf.MovePtr` | drv/framebuf.sys.c:84-128 | the picture stays although the new pointer is shown before the old one is erased, overlapping or not |
| `Framebuffer.Framebuf.Redraw` | drv/framebuf.sys.c:235-268 | what was drawn over the pointer goes under it and the pointer is whole again |
| `Framebuffer.Framebuf.BlitBits` | drv/framebuf.sys.c:501-533 | the pixels are those of the bitmap's bits from the given offset, whatever lies behind the bitmap; the last byte read is number (off + w) / 8 |
| `Framebuffer.Framebuf.BmpHLine` | drv/framebuf.sys.c:501-536 | the row of the picture becomes the bitmap row, pointer or not; a byte that no pixel needs is read if and only if the row ends a byte or is empty |
| `Framebuffer.Framebuf.CopyRow` | drv/framebuf.sys.c:339-353 | the direction of copying makes an overlapping row move as if at once |
| `Framebuffer.Framebuf.CopyRows` | drv/framebuf.sys.c:470-498 | the order of rows makes overlapping rectangles move as if at once |
| `Framebuffer.Framebuf.Copy` | drv/framebuf.sys.c:482-499 | the picture changes as by a simultaneous copy of the rectangle, for all overlaps and any pointer state |
| `Regexp.Rx.P1` | lib/regexp.c:302-344 | success and the new position are those of the function for one occurrence, failure leaves the position; a parenthesis is captured from the old to the new position |
| `Regexp.Rx.Many` | lib/regexp.c:373-378 | the number of occurrences and the position are those of the function for repetitions |
| `Regexp.Rx.P` | lib/regexp.c:346-397 | piece and position are those of the function for a piece, and on failure the old ones |
| `Regexp.Rx.Br` | lib/regexp.c:399-419 | success and position are those of the function for a branch |
| `Regexp.Rx.M` | lib/regexp.c:421-441 | success and position are those of the function for a list, on failure the old position; the recursion ends |
| `Regexp.OnceMeans` | lib/regexp.c:302-344 | success means one occurrence of the piece; failure that there is none, for every piece but a parenthesis whose list is not decided |
| `Regexp.RepsMeans` | lib/regexp.c:373-378 | the repetitions are occurrences in a row, and stop short of the bound only where no further one fits |
| `Regexp.PieceMeans` | lib/regexp.c:346-397 | whatever the rest then matches, the branch from here matches; in a simple branch, failure means that nothing matches from here, and the rest decides |
| `Regexp.TriesMeans` | lib/regexp.c:367-396 | the counts from the greatest on, each with what follows: the greatest that fits is taken |
| `Regexp.BranchMeans` | lib/regexp.c:399-419 | success means that the slice is in the language of the branch; in a simple branch it is matched greedily, and failure means that nothing matches |
| `Regexp.ListMeans` | lib/regexp.c:421-441 | the first alternative in turn that matches is found, as far as nextbr leads; failure means that every simple one of these fails; for a list whose alternatives are all reached and simple, that nothing matches |
| `Regexp.RegexecS` | lib/regexp.c:443-456 | an attempt succeeds exactly if the function for the list does, only on a match from its start; exactly on a match for lists whose alternatives are all reached and simple, and exactly on one of the alternatives that are reached if only these are simple |
| `Regexp.Regexec` | lib/regexp.c:458-470 | there is a hit exactly if an attempt at some position succeeds, or at the first for an expression that starts with ^; a hit is a match; if all alternatives are reached and simple (single pieces of fixed width, then repeated ones, then at most one single piece, parentheses with such lists included) there is a hit if and only if there is a match |
| `RegexpLanguage.SingleStep` | lib/regexp.c:358-365 | a single piece of fixed width matches in at most one way, so the rest of the branch decides |
| `RegexpLanguage.RepeatedNoMore` | lib/regexp.c:373-378 | where a repetition of a piece of fixed width stops, no greater number of occurrences fits |
| `RegexpLanguage.MissedAll` | lib/regexp.c:367-396 | once all counts have been tried, nothing matches from the repeated piece |
| `RegexpLanguage.OnceWidth` | lib/regexp.c:302-344 | a piece of fixed width, parentheses with alternatives of one width included, matches in at most one way |
| `RegexpLanguage.GreedyUnique` | lib/regexp.c:367-396 | there is only one greedy way to match a branch of pieces of fixed width |
| `RegexpLanguage.DecidedFound` | lib/regexp.c:421-441 | for a list whose alternatives are all reached and simple, what can be found is what matches |
| `Regexp.CompiledReached` | lib/regexp.c:245-248 | since every bar redirects the first piece of its list, just the first and the last alternative are tried |
| `Regexp.CompiledReachesAll` | lib/regexp.c:245-248 | all alternatives are tried if and only if there are at most two |
| `Regexp.CompiledDecided` | lib/regexp.c:245-248 | with simple alternatives a compiled list is decided if and only if there are at most two |
| `Regexp.CompiledFound` | lib/regexp.c:421-441 | what can be found is what the first or the last alternative matches |
| `Regexp.MiddleLost` | lib/regexp.c:421-441 | the expression of the three alternatives a, b and c on the subject b: it matches and is not found |
| `Regexp.TakenTooEarly` | lib/regexp.c:367-396 | a?a. on the subject aa: it matches and is not found |
| `Calendar.LeapRule` | lib/time.c:35 | the macro isleap, with C's remainder and years from 1900, is the Gregorian rule, negative years included |
| `Calendar.Divrd` | lib/time.c:183-188 | truncating division adjusted to round down |
| `Calendar.ClosedFormula` | lib/time.c:209-213 | the closed leap-day formula counts the same days as going year by year, in both directions from 1970 |
| `Calendar.AccumulatedDays` | lib/time.c:97-98 | the accumulated month table with the leap day from March on |
| `Calendar.MonthsMakeYear` | lib/time.c:36-38 | the months make up the year |
| `Calendar.Mktime` | lib/time.c:190-216 | the seconds of the date, for every date with non-negative fields, also months past December; -1 for the others |
| `Calendar.ProductsFit` | lib/time.c:203-206 | up to which fields the int products do not overflow, which includes all existing dates |
| `Calendar.FindYear` | lib/time.c:148-162 | the year loops end with the one year that contains the instant, or fail exactly outside the known years |
| `Calendar.FindMonth` | lib/time.c:164-168 | the month loop ends within the year's twelve months |
| `Calendar.Gmtime` | lib/time.c:133-172 | null exactly outside the years YEAR_MIN to YEAR_MAX, otherwise an existing date that denotes the instant, with its week day and day of the year |
| `Calendar.Unique` | lib/time.c:133-216 | different dates denote different instants |
| `Calendar.MktimeOfGmtime` | lib/time.c:133-216 | mktime undoes gmtime wherever gmtime succeeds |
| `Calendar.GmtimeOfMktime` | lib/time.c:133-216 | gmtime undoes mktime on every existing date of the known years |
| `BootFs.HeaderRoundTrip` | cross/mkbfs.c:63-89 | a header block is read back with its mode, size, next block and name |
| `BootFs.Writer.AddBlock` | cross/mkbfs.c:91-114 | the block goes to the byte offset (offset + curr_blk) * 512 in 32 bits, and the position moves on by one |
| `BootFs.Writer.MkHead` | cross/mkbfs.c:63-89 | the size and the next block, both in 32 bits |
| `BootFs.NextBlockIs` | cross/mkbfs.c:67-68 | the next header comes right behind the data if and only if neither the rounded size nor the block number wraps |
| `BootFs.SeekBlockIs` | cross/mkbfs.c:95 | the block goes where the reader looks for it if and only if that is within 4 GiB of the device |
| `BootFs.Writer.AddReg` | cross/mkbfs.c:116-150 | if nothing comes back onto the first header: a file within 4 GiB is on the disk with its padded data, of another one the last block stays as it was, and nothing else within reach changes; of a size that rounds to 2^32 only the header is written |
| `BootFs.Writer.AddAll` | cross/mkbfs.c:183-229 | the same of everything in a directory, one after the other; anywhere, nothing beyond is touched |
| `BootFs.Writer.AddDir` | cross/mkbfs.c:152-267 | the same of a tree, each directory after what it contains; if its header lies beyond 4 GiB the block where it should be keeps what it held |
| `BootLoader.EntriesChained` | cross/mkbfs.c:152-267 | the headers form one chain, which the root directory ends |
| `BootLoader.NextGrows` | cross/mkbfs.c:63-89 | each header leads to the block right behind its data, but for the 0 of the root |
| `BootLoader.EntriesDistinct` | cross/mkbfs.c:196-203 | joined paths are distinct if names are proper and differ within each directory |
| `BootLoader.LookUp` | sysload/fs-boot.c:53-77 | on any disk on which the walk ends: the first header with the path, ENOENT, EINVAL or a read error |
| `BootLoader.EndlessWalk` | sysload/fs-boot.c:59-74 | on a header that leads to itself the walk never ends |
| `BootLoader.WalkChain` | sysload/fs-boot.c:59-74 | on a chain the walk ends at the first header with the path, or with ENOENT exactly if there is none |
| `BootLoader.FileContents` | sysload/fs-boot.c:88-103 | the blocks of a file hold its bytes |
| `BootLoader.Load` | sysload/fs-boot.c:79-104 | on any disk and for any size: the contents of the blocks behind the header, or an error exactly if one cannot be read |
| `BootLoader.FindPath` | sysload/fs-boot.c:53-77 | within 4 GiB a path is found if and only if the tree has a file or directory there |
| `BootLoader.LoadFile` | sysload/fs-boot.c:79-104 | every file within 4 GiB, of every tree that does not come back onto its first header, is found under its path and loads with exactly its bytes |
| `BootLoader.Make` | cross/mkbfs.c:152-267 | a tree in reach is on the disk as one chain; out of reach the root directory's block keeps what it held; each single entry is on the disk or has its last block as before |
| `BootLoader.WalkTo` | sysload/fs-boot.c:59-74 | the walk comes to an entry if those up to it are on the disk and none before has its path |
| `BootLoader.AllFilesInside` | cross/mkbfs.c:152-267 | of a tree whose root is in reach every file is |
| `BootLoader.FileOver` | sysload/fs-boot.c:53-104 | over a device that holds something else at the last block of a file, the reader finds the file and loads its bytes if and only if that block is within 4 GiB |
| `BootLoader.NoData` | cross/mkbfs.c:67-68 | for which sizes mkbfs writes no data |
| `BootLoader.VanishingFile` | cross/mkbfs.c:63-150 | a single file of such a size, for example of 2^32 - 1 bytes: it is found, and what loads is nothing or begins with the header of the root directory |
| `BootLoader.MakeOver` | cross/mkbfs.c:91-267 | the reader finds the root directory if and only if its header ends within 4 GiB, over a device that holds no header there |

## Left out

- The zlib and gzip headers and trailers, and inflate as this zlib implements it: the decoder here is that of the standard.
- BlockCoder.TrFlushBlock: detect_data_type, which only sets a field of the stream, is not modelled; opt_len and static_len are integers, though the original lets them pass below 0 and back in an unsigned long.
- HuffmanTree.BuildTree: the arrays are sequences that are replaced.
- DeflateTables.LengthTables: the tables are those that tr_static_init computes; the precomputed ones of trees.h are not compared with them.
- deflateParams, preset dictionaries, the Huffman-only and run-length strategies, deflateTune, and the zeroing of the window beyond high_water.
- The counts of inserts and matches that deflate_stored keeps for a later change of level.
- DeflateCore.LongestMatch: the state is a record of sequences that is replaced, so writing in place into window, head and prev, and any aliasing between them, is not captured; prev is indexed by the masked position as in the original.
- Deflate.Deflater.Deflate: how many bytes the coder makes of a block or marker, with the bits that flush_pending completes, is an input of this module; that they are the bytes of DeflateStream is not stated.
- DeflateStored.StoreRest: that a call does all it was asked for unless it fills its room is stated for input that can be counted in 32 bits together with what waits in the window.
- StoredFormat.ParseBlock: here the three header bits and the alignment before LEN are one unit each; StoredBytes has them as bits.
- Crc32Tables.MakeTables: tables are filled as sequences; the guard against two tasks filling them at once is not modelled.
- BlockOps.Cache.Get: hash lists and the free list are sequences here; that linked lists hold the same after any calls is CacheLinks. The device pointer is not null, as for every caller.
- ListFamilies.Lists.Remove: an item that has left a list and has kept its old links is not removed again, as no caller does; IntrusiveList.List.Remove says what happens then.
- BlockOps.Cache.Put: a reference must be held, as the original's panic demands.
- blk_open, blk_close, blk_install, blk_find, the request queue fields and the statistics of the cache.
- Interrupts inside one system call: each step is atomic, as interrupts are disabled in the original; sched's idle loop is the exception and may be interrupted by any event.
- Kernel.Machine.Exit: the signals to parent and init before the end are separate Signal steps, and parents are not modelled.
- Kernel.Machine.Create: of the copied task only the fields of the scheduler are modelled, not its memory, files or name.
- Page tables, address-space switches, floating point state, signal delivery to user code, process identifiers.
- The per-task event ring and message queues.
- Alarm.Clock.SetTime: the 64-bit seconds of the clock are unbounded here, and a bad address is not modelled.
- Alarm.Elapse: the clock stays between the Epoch and the last second that a long can hold; what happens outside is said of single ticks, in Alarm.Clock.ClockIntr and Alarm.RingsAtOnce.
- Alarm.Clock.ClockIntr: the cpu time statistics and the other clock handlers are not modelled.
- Framebuffer.Framebuf.PutPix: coordinates are on the screen, as the window system clips them; rows are rows of a two-dimensional array rather than offsets with a stride.
- The 8-bit frame buffer functions, whose pixel functions do not look at the hide count.
- Regexp.ListMeans: against the language, only soundness holds of all expressions. A repeated piece is retried only together with the repeated pieces and the one single piece that follow it, so a match can be missed; exactness is stated for lists in which that cannot happen. For all lists the methods are exact against the functions.
- Regexp.Rx.P1: which text a numbered parenthesis reports is stated where it is set; later attempts may set it again.
- Compilation of regular expressions; of regcomp only what it makes of bars is stated, as the predicate Compiled.
- Calendar.Mktime: the fields are unbounded integers; Calendar.ProductsFit says where C's int products would overflow.
- localtime beyond its zero offset, asctime, strftime, cltime.
- BootFs.Writer.AddDir: the table of names behind a directory header is arbitrary, since the loader never reads it; write errors and paths longer than their field are not modelled.
- BootLoader.LoadFile: the image does not come back, modulo 4 GiB, onto its own first header; beyond that what is read depends on what the table of names holds.
- BootLoader.LookUp: the walk is followed only on disks on which it ends; the block numbers of the partition do not wrap.
- The other file systems, drivers, the window system, the boot console and the C library.

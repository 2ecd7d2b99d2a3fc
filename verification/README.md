# Models of a music player's decoders and output state machines

This project models, in Dafny, the hardest parts of a portable music player and proves what they are
for.  Each module is one component; a module that works by changing things step by step is written as
methods over arrays and objects and proved against a specification written as functions.

**Inflate** (`tinfl/miniz_tinfl.c`, RFC 1951 and RFC 1950).  `Deflate` is a reference machine that reads one
item at a time from the whole stream, without buffering.  `Inflate` is the resumable decoder: registers, bit
buffer with read-ahead, two-level tables (`InflateTables`), match copies in a linear or ring buffer
(`Window`).  Each of its steps follows the machine, so `Decompressor` can say what any history of calls
produces and consumes.  `Canonical` holds the facts about canonical Huffman codes, `Adler` the checksum with
delayed reduction.  `Rfc1951` says in the words of the standard what the tables, codes and checks are that
decoder and format share.  `DeflateFormat` is the other side: what a writer may put into a stream, and the round
trip from such a stream through any history of calls.  `Verdict` says when a history ends, and with which
verdict, from what the caller offers.

**Vorbis** (`stb_vorbis/stb_vorbis.c`, Vorbis I specification, RFC 3533).  `Codewords` states how codewords
are assigned and proves the builder's invariant; `BitReversal`, `Codebook`, `SortedCodes` and `Book` build and
search the tables; `Lacing` and `Ogg` are packets, segments and pages; `BitCursor` reads a packet's bits;
`SymbolDecode` decodes symbols from a packet, `PacketRun` is any mix of both over one packet.  `Seek` is the page search, `Floor1` and `FloorCurve` the
reconstruction and drawing of a floor curve.

**Time stretching** (`sonic/sonic.c`).  `Resampler` and `RateStream` are the rational resampler, `Pitch` the
pitch search, both in exact integers.

**Player** (`src/audio`).  `Mseb` is the filter-response cache shared between setters and the PCM thread, as
interleaved atomic steps.  `Output` is the owner of the output device, with the answers of the hardware as
arbitrary arguments.

Bit strings are `seq<bool>` in stream order and machine words are natural numbers; where a word can wrap,
be truncated or lose its sign the model says so (`Resampler.Wrap32`, `FloorCurve.DivTowardsZero`,
`BitReversal.BitReverse`, the bounds of `Adler.BlockFits`).

## What the proofs show about the code

Some promises hold only under a condition; the condition is stated exactly and the failing family is named.

* A zlib stream's verdict depends on the caller: bytes written by a call that ends in "cannot make progress"
  are not added to the checksum (tinfl/miniz_tinfl.c:649), so finishing the stream in a later call reports
  damage where a single call would not.  A finished stream is accepted if and only if the output summed has the
  checksum of all output (`Verdict.VerdictIff`).  A caller who sets the more-input flag on every call that gets
  less than the rest always gets the single call's verdict (`Verdict.HonestVerdict`); with room enough for the
  output, the checksum sees everything if and only if every call without the flag was offered the input up to
  the end of the stream (`Verdict.FlaggedIff`).  `Verdict.EarlyEnd` gives the nine bytes 78 9C 4B 04 00 00 62 00
  62 in two calls, with the flag and without.  Output and consumption do not depend on it
  (`Decompressor.ChunkIndependence`).
* A symbol that comes next in a Vorbis packet is decoded if and only if some table reaches it and its codeword
  fits the window a refill leaves (`SymbolDecode.Decode`).  A refill stops at 25 valid bits, so a codeword of
  26 to 31 bits that lies in the packet in full can be reported as missing (`PacketRun.LongCodewordLost`);
  up to 25 bits are always safe (`SymbolDecode.FitsWindow`).  In a dense codebook of more than 32767 entries a
  short codeword behind entry 32766 is in no table (`SymbolDecode.LateShortLost`).
* A bit read of more than 24 bits that runs out of packet in its second half returns the first 24 bits instead
  of 0 (`BitCursor.GetBits`, `BitCursor.Value`).
* Setting the pitch changes the resampler's rates without resetting its positions (sonic/sonic.c:290-292).  The
  fractions of all later interpolations stay in range if and only if op * new' <= ceil(op * new / old) * old',
  where op is the old position and new', old' are the rates after the change (`RateStream.PitchChange`); raising
  the pitch is always safe, as far as it leaves the old rate alone (`RateStream.LoweringIsSafe`).  At 8000
  samples a second, three frames at pitch 4 and then pitch 2 make the next interpolation read the 601-entry
  table at 649 and 650 (`RateStream.PitchChangeBreaks`).  The positions start over again if and only if the old
  one lies below the new period (`RateStream.ResetComes`); at 44100 samples a second, going from pitch 1.5 to
  0.25 shortens the period from 11025 frames to 2756 (`RateStream.PeriodShrinks`).
* src/audio/output/audio_output.h:16-17 says that any failed `ensure` releases the output.  The code returns
  before claiming it when pass-through is not possible (src/audio/output/audio_output.c:484).  A failed call of
  the owner leaves it owner if and only if it asked for DoP and pass-through could not be had
  (`Output.Device.Ensure`); `Output.RefusalKeepsOwner` is such a call.

## Model

| member | source | states |
|---|---|---|
| Canonical.PrefixFree | tinfl/miniz_tinfl.c:343-360 | canonical codes of lengths that are not oversubscribed: no symbol's code begins another's |
| Canonical.BeginsUnique | tinfl/miniz_tinfl.c:343-360 | at most one symbol's code begins a given bit string |
| Canonical.CompleteDecodes | tinfl/miniz_tinfl.c:349-352 | lengths that pass the completeness test leave no 15-bit window undecodable |
| Canonical.SingleIsUsed | tinfl/miniz_tinfl.c:346-349 | the counter of used symbols is at most 1 exactly when no two symbols are used |
| Rfc1951.CodesStart | tinfl/miniz_tinfl.c:343-360 | the first code of the shortest length in use is all zeros |
| Rfc1951.CodesCountUp | tinfl/miniz_tinfl.c:354-360 | codes of one length are consecutive in the order of their symbols |
| Rfc1951.CodesContinue | tinfl/miniz_tinfl.c:345-348 | the first code of a length follows the last one of the next shorter length, filled up with zeros: with the two rows before, all codes of section 3.2.2 of RFC 1951 |
| Rfc1951.ZigzagIs | tinfl/miniz_tinfl.c:193 | the order in which code lengths are sent: 16, 17, 18, 0, then 8 and its neighbours outwards |
| Rfc1951.DistanceTiles | tinfl/miniz_tinfl.c:191-192 | the distance symbols tile 1 to 32768, two to each number of extra bits |
| Rfc1951.LengthTiles | tinfl/miniz_tinfl.c:189-190 | the length symbols tile 3 to 258, four to each number of extra bits, 258 having one of its own |
| Rfc1951.MatchHasToken | tinfl/miniz_tinfl.c:189-192 | every length from 3 to 258 and distance from 1 to 32768 within what has been written has a token |
| Rfc1951.FixedLengths | tinfl/miniz_tinfl.c:296-309 | the fixed code lengths of section 3.2.6 of RFC 1951 |
| Rfc1951.RunIs | tinfl/miniz_tinfl.c:405-412 | symbol 16 repeats the last length 3 to 6 times, 17 stands for 3 to 10 zeros, 18 for 11 to 138 |
| Rfc1951.HeaderIs | tinfl/miniz_tinfl.c:230-240 | a zlib header is accepted exactly when its check, dictionary bit, method and, for a ring, window size are right |
| Rfc1951.StoredHeadIs | tinfl/miniz_tinfl.c:249-260 | a stored block is refused exactly when its length words, low bytes first, are not complements |
| Rfc1951.IsPow2Iff | tinfl/miniz_tinfl.c:204-211 | the sizes accepted for a ring are the powers of two |
| InflateTables.CountLengths | tinfl/miniz_tinfl.c:340-341 | counts, for each length, the symbols that have it |
| InflateTables.FirstCodes | tinfl/miniz_tinfl.c:342-352 | computes the first canonical code of every length; accepts exactly complete length sets and sets with at most one used symbol |
| InflateTables.ReverseCode | tinfl/miniz_tinfl.c:358-360 | turns a code into the number its bits spell in stream order |
| InflateTables.FillShort | tinfl/miniz_tinfl.c:361-370 | a short code takes exactly the lookup entries whose low bits are the code; all others keep their value |
| InflateTables.InsertLong | tinfl/miniz_tinfl.c:371-391 | threading a long code through lookup and tree keeps the table invariant and stays inside the tree array |
| InflateTables.CompleteNodeBound | tinfl/miniz_tinfl.c:371-389 | a complete code has at most as many branching prefixes as symbols, so tree nodes never exceed twice the symbol count |
| InflateTables.NodeBound | tinfl/miniz_tinfl.c:371-389 | the same bound for every accepted length set |
| InflateTables.Build | tinfl/miniz_tinfl.c:327-392 | succeeds exactly on complete or single-symbol sets, and then lookup and tree represent exactly the canonical code |
| InflateTables.LookUp | tinfl/miniz_tinfl.c:157-169 | lookup plus tree returns the symbol whose code starts the bit buffer, with the code's exact length |
| InflateTables.HaveSymbol | tinfl/miniz_tinfl.c:115-129 | the test of the careful refill says yes exactly when the buffered bits hold the pending symbol's whole code |
| InflateTables.NoFalseShort | tinfl/miniz_tinfl.c:115-120 | zero bits beyond the buffered ones never make another symbol's short code look present |
| InflateTables.CompatibleUnique | tinfl/miniz_tinfl.c:157-169 | the pending symbol is the only one the buffered bits can be the beginning of once a code is complete in them |
| InflateTables.CompleteTablesDecode | tinfl/miniz_tinfl.c:157-169 | with a complete code some symbol's code begins any 15 pending bits, and only one |
| Window.CopyOne | tinfl/miniz_tinfl.c:545-552 | one byte copied from `dist` behind the cursor extends the unbounded history by the byte `dist` before it |
| Window.CopyMatch | tinfl/miniz_tinfl.c:582-597 | the three-at-a-time copy writes the whole match of the unbounded history, overlap included, and nothing else |
| Window.ExpandBytes | tinfl/miniz_tinfl.c:541-597 | every byte of a match equals the byte at its distance in the finished history (RFC 1951, section 3.2.3) |
| Window.Rewind | tinfl/miniz_tinfl.c:752 | a full ring may be continued from its start: the window still shows the same history |
| Adler.BlockFits | tinfl/miniz_tinfl.c:654-673 | over 5552 bytes neither sum outgrows 32 bits, even from the largest reduced start |
| Adler.DelayedReduction | tinfl/miniz_tinfl.c:657-670 | reducing once after a block gives the residues of reducing after every byte |
| Adler.AddBlock | tinfl/miniz_tinfl.c:657-669 | the eight-at-a-time loop and its remainder compute both raw sums of a block |
| Adler.Update | tinfl/miniz_tinfl.c:649-674 | the checksum word after a call is that of the per-byte definition of RFC 1950, section 9 |
| Adler.SplitIndependent | tinfl/miniz_tinfl.c:649-674 | the checksum does not depend on how the data is cut into calls |
| Rfc1951.AdlerIs | tinfl/miniz_tinfl.c:649-677 | the checksum in closed form: both sums modulo 65521, the second one, in the upper half, weighing every byte by its place from the end |
| Deflate.StepOk | tinfl/miniz_tinfl.c:240-627 | the reference machine keeps its control state well formed: sizes, codes and distances stay in range on every path |
| Deflate.OutputBound | tinfl/miniz_tinfl.c:422-598 | no stream makes the machine write more than 2400 bytes for each input byte, so decoding ends |
| Inflate.NeedBits | tinfl/miniz_tinfl.c:95-105 | bits are there or all input is consumed; the registers denote the same stream position |
| Inflate.FillForSymbol | tinfl/miniz_tinfl.c:108-131 | the careful refill takes a byte only when it is needed: it ends with the pending code whole, with 15 bits, or with all input consumed and still too few bits |
| Inflate.StepSymbol | tinfl/miniz_tinfl.c:143-175 | near the end of the input a decoded symbol is one step of the machine, or no input is left and the machine needs more than is buffered |
| Inflate.Refill | tinfl/miniz_tinfl.c:442-456 | two- or four-byte read-ahead keeps registers and stream position in step |
| Inflate.FastRound | tinfl/miniz_tinfl.c:438-511 | the unrolled loop for up to two literals follows the machine |
| Inflate.StoredRun | tinfl/miniz_tinfl.c:282-286 | a run of stored bytes follows the machine byte for byte |
| Inflate.CopySlow | tinfl/miniz_tinfl.c:545-553 | one byte of a match through the mask is one step of the machine, in a ring or a linear buffer |
| Inflate.CopyFast | tinfl/miniz_tinfl.c:543-598 | the unmasked copy makes all steps of the match at once |
| Inflate.Align | tinfl/miniz_tinfl.c:243 | skipping to the byte boundary is one step of the machine |
| Inflate.PutBack | tinfl/miniz_tinfl.c:605-610 | whole bytes beyond the machine's position go back to the input, less than a byte stays |
| Inflate.Loop | tinfl/miniz_tinfl.c:222-627 | a call's whole run follows the machine and stops only for missing input, missing room or the end |
| Decompressor.Inflater.Decompress | tinfl/miniz_tinfl.c:187-679 | one call: what it consumed, wrote and summed is explained by the machine; every status means what it says, and the saved fields and unread input denote the machine's position |
| Decompressor.RunRefines | tinfl/miniz_tinfl.c:629-648 | after any history of calls the output, consumption and checksum are those of one run of the machine |
| Decompressor.ChunkIndependence | tinfl/miniz_tinfl.c:187-648 | two finished histories over one stream, cut and roomed in any way, give the same output, consumption and success; the same status when they summed the same output |
| Decompressor.ChecksumVerdict | tinfl/miniz_tinfl.c:675-676 | a finished zlib stream is accepted exactly when the trailer matches the output that was summed |
| Decompressor.AsksOnlyIfTruncated | tinfl/miniz_tinfl.c:106-131 | input beyond the end of the stream is asked for only when the machine can never finish on it |
| Decompressor.ExactConsumption | tinfl/miniz_tinfl.c:602-648 | when a raw stream is done the calls have consumed exactly its bits rounded up to a byte, despite read-ahead |
| Decompressor.DecompressToCallback | tinfl/miniz_tinfl.c:729-757 | the chunks handed over from a 32 KB ring concatenate to the machine's output; success means done with a matching checksum |
| DeflateFormat.ReadTokens | tinfl/miniz_tinfl.c:422-598 | a coded run of literals and matches, written with any usable code, decodes to what it stands for |
| DeflateFormat.ReadHeader | tinfl/miniz_tinfl.c:313-420 | a dynamic block header, code lengths run-length coded in any way, decodes to the code it describes |
| DeflateFormat.ReadStored | tinfl/miniz_tinfl.c:241-288 | a stored block decodes to its bytes |
| DeflateFormat.FixedLitUsable | tinfl/miniz_tinfl.c:295-310 | the fixed literal code passes the completeness test |
| DeflateFormat.StreamDecodes | tinfl/miniz_tinfl.c:187-627 | the machine decodes every stream of the format to its very end |
| DeflateFormat.StreamIsWellFormed | tinfl/miniz_tinfl.c:187-627 | every stream of the format meets the precondition of the decompressor |
| DeflateFormat.RoundTrip | tinfl/miniz_tinfl.c:187-679 | any finished history of calls over a stream of the format gives back what its blocks stand for, consumes exactly the stream, and succeeds (for zlib: when no call was told too early that its input was the last) |
| Verdict.CallEnds | tinfl/miniz_tinfl.c:106-131 | a call with room for all output still to come ends the stream if and only if it is offered all input the machine reads; otherwise it asks for more or says it cannot go on, as the flag was |
| Verdict.WholeStreamEnds | tinfl/miniz_tinfl.c:602-648 | calls that are offered the rest of the stream and, together, room for its output come to an end, in however many pieces |
| Verdict.StreamCallEnds | tinfl/miniz_tinfl.c:187-648 | on a stream of the format: success or checksum verdict exactly when the stream's last byte was offered |
| Verdict.HonestIsFlagged | tinfl/miniz_tinfl.c:106-131 | a caller who leaves the flag out only with the whole rest is never told that no progress can be made |
| Verdict.HonestVerdict | tinfl/miniz_tinfl.c:649-677 | the zlib verdict does not depend on how such a caller cuts the stream |
| Verdict.FlaggedIff | tinfl/miniz_tinfl.c:106-131 | with room enough, all output is summed if and only if every call without the flag was offered the input up to the stream's end |
| Verdict.VerdictIff | tinfl/miniz_tinfl.c:649-677 | a finished zlib stream is accepted if and only if the output summed has the checksum of all of it |
| Verdict.CutVerdict | tinfl/miniz_tinfl.c:649-677 | a zlib stream in two calls: accepted if and only if the first had the flag or the second's output alone has the checksum |
| Verdict.AllWritten | tinfl/miniz_tinfl.c:602-628 | a call that is offered everything but the end of the trailer has written all output |
| Verdict.CallbackDecodes | tinfl/miniz_tinfl.c:729-757 | a stream of the format reaches an accepting callback in full and is reported as good, with exactly its bytes consumed |
| Verdict.EarlyEnd | tinfl/miniz_tinfl.c:649-677 | one stream of nine bytes in two calls: accepted with the flag on the first, a checksum mismatch without it |
| Codewords.Nested | stb_vorbis/stb_vorbis.c:1109-1127 | two codeword intervals are nested or disjoint |
| Codewords.NotAllDeeper | stb_vorbis/stb_vorbis.c:1110-1116 | with at most one free subtree a level, no slot is made up of deeper free subtrees alone |
| Codewords.First | stb_vorbis/stb_vorbis.c:1092-1099 | the special case of the first codeword establishes the invariant: one free subtree a level, deeper ones lower, tiling the rest |
| Codewords.StartIsLowest | stb_vorbis/stb_vorbis.c:1109-1120 | the start of the deepest usable free subtree is unused, and no lower slot of that length is |
| Codewords.Allot | stb_vorbis/stb_vorbis.c:1116-1127 | giving out a codeword and propagating availability keeps the invariant |
| Codewords.Overflow | stb_vorbis/stb_vorbis.c:1116-1117 | where no subtree is left the Kraft sum exceeds 1 and no slot is unused |
| Codewords.AssignmentUnique | stb_vorbis/stb_vorbis.c:1086-1130 | lowest-unused-first leaves no choice: the codewords are determined by the lengths |
| Codewords.AssignmentIffKraft | stb_vorbis/stb_vorbis.c:1086-1130 | all entries can be served lowest-first exactly when the Kraft sum is at most 1 (Vorbis I specification, section 3.2.1) |
| Codewords.PrefixFree | stb_vorbis/stb_vorbis.c:1086-1130 | no codeword, as bits, begins another one |
| Codewords.WithinIsPrefix | stb_vorbis/stb_vorbis.c:1109-1120 | a 32-bit word lies in a codeword's interval exactly when it begins with its bits |
| BitReversal.NetworkReverses | stb_vorbis/stb_vorbis.c:1010-1017 | the five masked swaps reverse a 32-bit word |
| BitReversal.ReverseIsReverse | stb_vorbis/stb_vorbis.c:1010-1017 | reversed, a word read from its low end spells the original read from its high end |
| BitReversal.Involution | stb_vorbis/stb_vorbis.c:1010-1017 | reversing twice gives the word back |
| BitReversal.MaskIsWithin | stb_vorbis/stb_vorbis.c:1697 | the masked comparison of the linear search holds exactly when the pending bits begin with the codeword |
| Codebook.Draft.AddEntry | stb_vorbis/stb_vorbis.c:1075-1084 | records a codeword by entry or, in a sparse book, by rank with its length and entry |
| Codebook.Draft.ComputeCodewords | stb_vorbis/stb_vorbis.c:1086-1130 | returns true exactly when the Kraft sum is at most 1; then every coded entry has its lowest unused codeword, recorded reversed |
| Codebook.TakeSubtree | stb_vorbis/stb_vorbis.c:1116-1127 | one round of the loop: takes the codeword and keeps the invariant, or the code is oversubscribed |
| Codebook.FindLevel | stb_vorbis/stb_vorbis.c:1116 | finds the deepest free level not below the length, 0 when there is none |
| Codebook.SplitLevel | stb_vorbis/stb_vorbis.c:1119-1127 | empties the level and fills all between it and the length with the rest of the subtree |
| SortedCodes.Locate | stb_vorbis/stb_vorbis.c:1210-1219 | the binary search ends on the last word not above the code |
| SortedCodes.SortedIncreasing | stb_vorbis/stb_vorbis.c:1199 | distinct words sort into a strictly increasing table |
| SortedCodes.FoundInTable | stb_vorbis/stb_vorbis.c:1220 | the search for a word that was put in ends on that word: the assertion never fires |
| SortedCodes.ComputeSorted | stb_vorbis/stb_vorbis.c:1179-1230 | the sorted table is strictly increasing, has one row for each included entry and no other, and its values and lengths belong to its codewords |
| SortedCodes.Collect | stb_vorbis/stb_vorbis.c:1186-1197 | lists the codewords of exactly the included entries, in sorting order of bits |
| Book.FillFast | stb_vorbis/stb_vorbis.c:1148-1151 | sets exactly the cells that end in the codeword's bits |
| Book.Accelerate | stb_vorbis/stb_vorbis.c:1134-1154 | each cell names the one short codeword among those it covers that its index ends in, -1 when there is none |
| Book.FoundIsPrefix | stb_vorbis/stb_vorbis.c:1694-1697 | an entry is found in the accumulator exactly when its codeword is the first of the 32 pending bits |
| Book.Book.FastLookup | stb_vorbis/stb_vorbis.c:1720-1721 | a hit is the entry whose short codeword comes next; a miss means no covered short codeword does |
| Book.Book.SortedLookup | stb_vorbis/stb_vorbis.c:1666-1683 | finds any included entry whose codeword comes next |
| Book.Book.LinearLookup | stb_vorbis/stb_vorbis.c:1695-1707 | finds the entry whose codeword comes next, -1 exactly when there is none |
| Book.Setup | stb_vorbis/stb_vorbis.c:3797-3868 | from the code lengths to all tables; fails exactly on an oversubscribed code, and stays sparse below a quarter of coded entries |
| Lacing.FirstPacket | stb_vorbis/stb_vorbis.c:1549-1553 | the segments up to the first one below 255 bytes join to the first packet |
| Lacing.Unlaced | stb_vorbis/stb_vorbis.c:1539-1559 | lacing and joining gives back every list of packets, empty ones and multiples of 255 included |
| Lacing.SomeStreamCarries | stb_vorbis/stb_vorbis.c:1444-1501 | every list of packets has a stream of pages that carries it |
| Ogg.Reader.StartPage | stb_vorbis/stb_vorbis.c:1444-1501 | in front of a page header it reads flags and lacing values and stops at the page's body; at the end of the file it fails |
| Ogg.Reader.StartPacket | stb_vorbis/stb_vorbis.c:1503-1516 | between packets it succeeds exactly when a packet is left, and stands in front of it with an empty accumulator |
| Ogg.Reader.NextSegment | stb_vorbis/stb_vorbis.c:1539-1559 | opens the next segment of the packet, across page boundaries, and notices its last one |
| Ogg.Reader.Get8PacketRaw | stb_vorbis/stb_vorbis.c:1563-1573 | returns the packet's next byte, or the end exactly when none is left; later packets are untouched |
| Ogg.Reader.ReadPacket | stb_vorbis/stb_vorbis.c:1592-1595 | reading until the end returns the whole packet and leaves the reader between packets |
| Ogg.ReadBack | stb_vorbis/stb_vorbis.c:1444-1595 | a stream that carries packets reads back as exactly those packets in order (RFC 3533, sections 5 and 6) |
| BitCursor.PushByte | stb_vorbis/stb_vorbis.c:1618-1619 | shifting a byte in above the valid bits appends its bits, least significant first |
| BitCursor.TakeLeft | stb_vorbis/stb_vorbis.c:1625-1627 | masking and shifting takes the first bits and leaves the others |
| BitCursor.GetFew | stb_vorbis/stb_vorbis.c:1603-1627 | up to 24 bits: the next bits of the packet and the cursor moved by as many, or 0 and the packet at its end; less than a byte stays loaded when bytes were pulled, and the reader stays fit for any further read or symbol |
| BitCursor.GetBits | stb_vorbis/stb_vorbis.c:1599-1628 | up to 32 bits, split above 24: the next bits of the packet, the cursor being 8 * packet_bytes - valid_bits; the value left by a read that fails half way; the reader stays fit for any further read or symbol |
| BitCursor.Refill | stb_vorbis/stb_vorbis.c:1638-1645 | adds whole bytes to as many valid bits as `Window` says and loses none |
| BitCursor.PrepHuffman | stb_vorbis/stb_vorbis.c:1634-1647 | fills the accumulator without moving the cursor; the accumulator stays below 2^valid_bits |
| SymbolDecode.RawSearch | stb_vorbis/stb_vorbis.c:1656-1708 | the slow path finds every entry whose codeword comes next if the search it uses covers it |
| SymbolDecode.ScalarRaw | stb_vorbis/stb_vorbis.c:1656-1713 | refill and slow search: the entry's length is consumed when that many bits are valid, otherwise the accumulator is dropped |
| SymbolDecode.FastWindow | stb_vorbis/stb_vorbis.c:1718-1722 | on the packet's bits, a hit of the fast table settles the symbol and a miss leaves it to the slow path |
| SymbolDecode.Decode | stb_vorbis/stb_vorbis.c:1717-1729 | fast table, binary search and linear search agree: in a sparse book, and in a dense one of up to 32767 entries, the entry whose codeword comes next is decoded if and only if it fits the window; in any other if moreover a table reaches it; exactly its bits are consumed, and a failure costs exactly the window |
| SymbolDecode.AllReachable | stb_vorbis/stb_vorbis.c:1134-1177 | the tables together reach every coded entry of a sparse book and of a dense one of up to 32767 entries |
| SymbolDecode.FitsWindow | stb_vorbis/stb_vorbis.c:1634-1647 | which codewords fit the window, from the valid bits before; up to 25 bits always |
| SymbolDecode.LateShortLost | stb_vorbis/stb_vorbis.c:1141-1143 | a dense book of 32768 entries whose last, one-bit codeword no table reaches |
| SymbolDecode.DecodeRun | stb_vorbis/stb_vorbis.c:1717-1729 | a packet that goes on with the codewords of some entries decodes to those entries |
| PacketRun.Serve | stb_vorbis/stb_vorbis.c:1599-1729 | one read, refill or symbol: its answer, and exactly the bits it takes from the packet |
| PacketRun.RunOps | stb_vorbis/stb_vorbis.c:3209-3228 | any mix of reads, refills and symbols of any codebooks takes the packet's bits one after the other, none lost or read twice; the cursor counts them and the accumulator stays below 2^valid_bits |
| PacketRun.OpenPacket | stb_vorbis/stb_vorbis.c:1503-1516 | starting a packet makes such a run possible over all its bits |
| PacketRun.LongCodewordLost | stb_vorbis/stb_vorbis.c:1634-1690 | a 26-bit codeword is decoded at the start of a packet, and reported as missing behind a read of seven bits although the packet still holds it |
| Seek.FoundNear | stb_vorbis/stb_vorbis.c:4797-4809 | a clamped probe always finds a page strictly between the two ends |
| Seek.ProbeInRange | stb_vorbis/stb_vorbis.c:4780-4806 | interpolated and halving probes lie in the search range, its last 64K excluded |
| Seek.ProbeIs | stb_vorbis/stb_vorbis.c:4788-4812 | the first two probes take the guess unless it lies outside the range, later ones the middle less 32K |
| Seek.NextKnown | stb_vorbis/stb_vorbis.c:4812-4818 | skipping pages without a granule position stops at the latest on the right page: the ordering assertion holds |
| Seek.SeekCoarse | stb_vorbis/stb_vorbis.c:4760-4839 | the search ends, never fails on contiguous pages, and its two pages bracket the limit; it ends on neighbours or behind a probe that ran into the right page |
| Seek.EndsOnNeighbours | stb_vorbis/stb_vorbis.c:4774-4836 | with a granule position on every page the two pages are neighbours |
| Floor1.IlogIsBitLength | stb_vorbis/stb_vorbis.c:1027-1043 | `ilog` is the bit length of every positive number and 0 for the others |
| Floor1.Neighbors | stb_vorbis/stb_vorbis.c:1303-1312 | finds the nearest earlier positions on both sides |
| Floor1.PredictBetween | stb_vorbis/stb_vorbis.c:1935-1943 | a predicted height lies between the ends of its line and meets them at its ends |
| Floor1.PredictRounds | stb_vorbis/stb_vorbis.c:1935-1943 | the height on the line is rounded towards the end it is measured from |
| Floor1.UnwrapBijective | stb_vorbis/stb_vorbis.c:3242-3262 | unwrapping a coded value permutes [0, range): it stays inside and can be undone both ways |
| Floor1.UnwrapOutwards | stb_vorbis/stb_vorbis.c:3243-3266 | coded values count outwards from the prediction, the lower of two equally far points first |
| Floor1.PointsFollow | stb_vorbis/stb_vorbis.c:3236-3269 | every point from the third on is unwrapped around the line between the two earlier points nearest to it on either side |
| Floor1.PointsInRange | stb_vorbis/stb_vorbis.c:3232-3267 | all reconstructed points lie in [0, range), and the coded values can be recovered from them |
| Floor1.CodesInRange | stb_vorbis/stb_vorbis.c:3232-3267 | every curve in range comes from coded values in range |
| FloorCurve.Prepare | stb_vorbis/stb_vorbis.c:4017-4037 | sorts the positions, refuses exactly the lists with two equal ones, and works out the neighbours |
| FloorCurve.StepPoint | stb_vorbis/stb_vorbis.c:3233-3267 | one value: predicted, unwrapped and marked in place |
| FloorCurve.Reconstruct | stb_vorbis/stb_vorbis.c:3232-3281 | points that are used get their heights in place; a point is left out exactly when it is not an end, is coded 0 and no point coded off its line was measured from it |
| FloorCurve.MarksAreExact | stb_vorbis/stb_vorbis.c:3249-3281 | from values in range, -1 stands exactly at the points left out; a point coded off its line and the two it was measured from are kept |
| FloorCurve.OnLineNext | stb_vorbis/stb_vorbis.c:2069-2080 | one step of the incremental line keeps height and error term on the line |
| FloorCurve.DrawLine | stb_vorbis/stb_vorbis.c:2034-2082 | each column from x0 to the clipped end is scaled once, by the height `predict_point` gives there; no other column changes |
| FloorCurve.CurveExtend | stb_vorbis/stb_vorbis.c:3083-3099 | a further point changes the curve only behind the last one |
| FloorCurve.CurveAt | stb_vorbis/stb_vorbis.c:3086-3106 | between two positions next to each other among those not left out the curve is the line from one to the other, behind the last one it is level |
| FloorCurve.DoFloor | stb_vorbis/stb_vorbis.c:3072-3108 | for any subset of used points every column in [0, n/2) is scaled exactly once, by the curve's height |
| FloorCurve.FirstValuesInRange | stb_vorbis/stb_vorbis.c:3209-3214 | the two values read without a codebook are in range |
| FloorCurve.RangeIsLeast | stb_vorbis/stb_vorbis.c:3212-3213 | each multiplier goes with the least range that reaches 256 with it |
| FloorCurve.HeightsFit | stb_vorbis/stb_vorbis.c:3082-3105 | heights from values in range stay inside the table of 256 decibel values |
| Resampler.IndexInTable | sonic/sonic.c:924-932 | both table reads of a tap lie within index 600, and the position between them below the width |
| Resampler.CoefficientBound | sonic/sonic.c:924-932 | a coefficient has at most 17 bits |
| Resampler.CoefficientAtEntry | sonic/sonic.c:921-932 | where the fraction falls on a table entry the coefficient is twice that entry |
| Resampler.CoefficientOnLine | sonic/sonic.c:921-932 | between entries it is interpolated: a table on a line gives the line's value at the tap |
| Resampler.SumOfImpulse | sonic/sonic.c:952-961 | one sample among zeros is weighted with the coefficient of the tap it lies under |
| Resampler.TrackNext | sonic/sonic.c:952-961 | sign comparison recognizes every 32-bit overflow: total plus 2^32 times the count is the exact sum |
| Resampler.Interpolate | sonic/sonic.c:938-969 | the result is the exact filter sum, scaled and clipped to 16 bits |
| RateStream.Conservation | sonic/sonic.c:996-1014 | any `oldRate` successive input frames give exactly `newRate` output frames |
| RateStream.OutFrameOfImpulse | sonic/sonic.c:938-969 | an impulse comes out as the coefficients of the taps it lies under, in order |
| RateStream.InStepNext | sonic/sonic.c:1009-1013 | advancing a frame, or starting over at the end of a period, keeps newPosition = ceil(oldPosition * new / old) |
| RateStream.RatioInStep | sonic/sonic.c:943-947 | the fraction is in [0, width) exactly when the new position has not fallen behind |
| RateStream.ProductsBounded | sonic/sonic.c:943-945 | position products stay within 2^28 plus one step |
| RateStream.PitchChange | sonic/sonic.c:290-292 | after a change of the rates all later fractions are in range if and only if the new position, made for the rates before, has not fallen behind under those after |
| RateStream.LoweringIsSafe | sonic/sonic.c:290-292 | a lower new rate, or a change at the start of a period, is always safe |
| RateStream.ResetComes | sonic/sonic.c:1009-1013 | after a change the positions start over if and only if the old one lies inside the new period; otherwise it grows without end |
| RateStream.PositionsInStep | sonic/sonic.c:998-1013 | at fixed rates the positions these statements speak of are those of the stream |
| RateStream.PitchChangeBreaks | sonic/sonic.c:909-947 | 8000 samples a second, three frames at pitch 4, then pitch 2: the fraction is 7999/4000 and the last tap reads behind the table |
| RateStream.PeriodShrinks | sonic/sonic.c:976-986 | 44100 samples a second, from pitch 1.5 to 0.25: old positions from 2756 to 11024 never start over |
| RateStream.Halve | sonic/sonic.c:983-986 | both rates are halved as often as it takes to fit 14 bits, and the old one stays positive |
| RateStream.Stream.AdjustRate | sonic/sonic.c:972-1017 | one block: behind the earlier output stand the frames of the resampled signal that the new input completes, and positions and buffer stay in step |
| RateStream.ResampleBlocks | sonic/sonic.c:972-1017 | however the input is cut into blocks, the output is the resampled signal of the whole, of all its frames but the last twelve, times new / old, rounded up |
| Pitch.FindPitchPeriodInRange | sonic/sonic.c:747-781 | the least period that minimises the average difference, and the extremes of that average, by cross-multiplication |
| Pitch.AmdfMeasures | sonic/sonic.c:771-781 | the difference is 0 exactly on a signal that repeats after the period, and counts a constant shift once for each sample |
| Pitch.DownSampleInput | sonic/sonic.c:728-743 | writes the averages of `skip` frames over all channels, reading no frame beyond the required ones |
| Pitch.DownOfLevels | sonic/sonic.c:737-744 | a signal that is level within each block is averaged to its levels |
| Pitch.DownOfImpulse | sonic/sonic.c:737-744 | one sample among zeros counts with its share in its own block and in no other |
| Pitch.SkipRate | sonic/sonic.c:358-364 | samples are skipped only above 4000 a second at the lower quality, down to 4000 or a few more |
| Pitch.CoarseRange | sonic/sonic.c:825-828 | the divided period range is not empty and reads inside the down-sampled buffer |
| Pitch.FineRange | sonic/sonic.c:829-838 | any coarse period leaves a non-empty fine range inside the allowed one |
| Pitch.FineRangeIs | sonic/sonic.c:829-837 | the fine range is exactly the allowed periods within four coarse steps |
| Pitch.KeptIff | sonic/sonic.c:787-808 | when the previous period is kept, with the preference for the new one and without; with it more rarely |
| Pitch.Tracker.FindPitchPeriod | sonic/sonic.c:815-856 | over every run the result is in [minPeriod, maxPeriod]: the least best period just found, or the previous one exactly when the new one matches worse, by half and without a clearly worse period if the new one is preferred |
| Mseb.StepKeeps | src/audio/effects/mseb.c:59-81 | every atomic step of a setter or of the PCM thread keeps the cache invariant |
| Mseb.ConfigureKeeps | src/audio/effects/mseb.c:219-243 | taking a response over, computing it or keeping it leaves the thread's caches those of its settings and rate, inactive filters without history |
| Mseb.ConfiguredIs | src/audio/effects/mseb.c:216-236 | a block runs under its own settings, rate and layout, from silence after a discontinuity, a pause or a change of rate, channels or width, and otherwise from where the filters in use were |
| Mseb.AdmitIs | src/audio/effects/mseb.c:203-209 | a block is let in exactly when the effect is on and the block has frames, a rate and one or two channels; otherwise the histories are cleared |
| Mseb.BeginIs | src/audio/effects/mseb.c:59-67 | exactly ten values from -100 to 100 and a width from 0 to 2 are accepted |
| Mseb.NextBlockIsFresh | src/audio/effects/mseb.c:98-100 | whatever happens in between, a noted discontinuity waits for the next block that is processed, which starts from silence |
| Mseb.RunsAreCoherent | src/audio/effects/mseb.c:59-243 | over every interleaving: the published response is that of the published values and rate, every block used the response of its own settings and rate, and the switch read without the lock is the published one whenever the lock is free |
| Mseb.BlocksWereSubmitted | src/audio/effects/mseb.c:68-81 | every block was processed under settings some setter submitted as a whole |
| Output.Device.SetDopSwitch | src/audio/output/audio_output.c:260-277 | true means the codec is in the wanted mode; a failed write changes nothing |
| Output.Device.CloseDeviceState | src/audio/output/audio_output.c:453-471 | closes exactly what is open and resets the state; a switch written on is off afterwards exactly when the mixer takes the write |
| Output.Device.OpenPcm | src/audio/output/audio_output.c:399-430 | 24 bits fall back to 16 once, and the refusal is remembered |
| Output.Device.OpenLocal | src/audio/output/audio_output.c:345-445 | PCM opens only behind a cleared switch, DoP only with the switch on; which answers make it succeed |
| Output.Device.OpenUsb | src/audio/output/audio_output.c:301-327 | a direct DSD stream or a pipe, and a refused rate is remembered only while it is still what is asked for |
| Output.Device.PassthroughRequested | src/audio/output/audio_output.c:829-837 | pass-through is offered exactly when target, mode, rate and hardware allow it |
| Output.Device.Claim | src/audio/output/audio_output.c:481-496 | claims exactly a free output or one's own, and for DoP only when pass-through can be had |
| Output.Device.Ensure | src/audio/output/audio_output.c:481-563 | success means target, device, mode, channels, rate and format are those asked for, with 16 bits only where 24 were refused, and the caller owns the device, with one handle opened exactly when the open device did not serve; a failed call of the owner keeps it owner if and only if it asked for pass-through that cannot be had |
| Output.Device.Close | src/audio/output/audio_output.c:473-479 | only the owner closes, and gives the output up |
| Output.Device.WriteFailed | src/audio/output/audio_output.c:695-706 | the owner's failed pipe write closes the pipe, nobody else's does |
| Output.RunCalls | src/audio/output/audio_output.c:254-563 | in every run, whatever fails: an open local PCM stream implies the DoP switch is off, an open local DoP stream that it is on, one handle at most is open and every other one opened has been closed |
| Output.EnsureTwice | src/audio/output/audio_output.c:504-557 | repeating a successful request with unchanged requests and live processes succeeds and neither closes nor opens anything: exact counts of both, after a fall-back to 16 bits too |
| Output.RefusalKeepsOwner | src/audio/output/audio_output.c:484 | PCM on the codec, then DoP towards Bluetooth: the call fails and its caller still owns the open device |

## Left out

- Inflate of malformed streams: unassigned codes of a one-symbol set and ring-buffer distances beyond what has been written are excluded by `Inflate.WellFormed`; the failure states behind a zero code length (40 and 54) cannot be reached and are not modelled.
- The match copy with unaligned 8-byte loads (tinfl/miniz_tinfl.c:555-581), which a macro switches off by default.
- `tinfl_decompress_mem_to_heap`, `tinfl_decompress_mem_to_mem` and allocation.
- Inflate tables are built in arrays and then kept as sequences; `memcpy` of stored bytes is a byte loop.
- InflateTables.LookUp: the pending symbol is a ghost argument; that there is one is the subject of `Canonical.CompleteDecodes`.
- Vorbis header parsing apart from what `Book.Setup` and `FloorCurve.Prepare` take: code lengths and floor positions arrive as lists with the guarantees their readers give.
- SortedCodes.QSort: stands for the C library's `qsort` and has its contract, not its algorithm; the order of floor positions likewise.
- Symbols decoded where no assigned codeword comes next: the binary search returns some row then, and nothing is claimed about it.
- Ogg.Reader.StartPage: does not keep the granule position of a page, where its last packet ends or what the first page was, since no reader of packets needs them.
- BitCursor.GetBits: behind a page whose continued flag is wrong the packet ends without its last segment, and nothing is promised about later reads: the source's next refill would shift by a negative count.
- Ogg: serial numbers, checksums and the error codes; pages without segments are outside `Lacing.PageOk`, since the reader takes a first segment from every page.
- Ogg: `maybe_start_packet`, the push-mode scanner and the decoding that rewinds a packet.
- Seek.SeekCoarse: scanning the file for a page is `FindPage` over a given list of pages; the step back to the start of the last packet and the decoding that follows are not part of this model, nor is wrap-around of file offsets beyond 32 bits.
- Residue decoding, vector lookup, channel coupling, the inverse transform and windows: floating-point signal code.
- FloorCurve.DoFloor: samples are real numbers and the decibel table is an arbitrary function; rounding of the products is not modelled.
- Sonic's speed changes, volume, spectrogram and overlap-add; the sinc table's values are arbitrary within 16 bits; buffer growth has no limit.
- RateStream.Stream.AdjustRate: what a flush drops from the pitch buffer is not modelled; the statement runs from one reset of the positions to the next, and the samples made after a change of the rates between resets are not described, only the positions.
- Mseb: the response computation and the filters' arithmetic are arbitrary functions; `mseb_get_config` only copies under the lock.
- Output: DAC preferences, volume, port routing, process handling and timing; answers of the hardware are arguments.
- Output.Device.Ensure: other threads may change the requests once, after they have been read; a change between the pass-through test and that reading is not modelled.

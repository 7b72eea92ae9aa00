# Verified model of the JPEG 9a entropy coders and their neighbours

The JPEG library bundled with the application writes and reads images through encoders and decoders that are
separate state machines and must undo each other. This project models them in Dafny and proves that they do.
Each routine that works by changing things step by step is a method over the same fields and loops; its
contract ties it to a specification function, and the theorems are about those functions.

**Binary arithmetic coder.** `ArithIdeal` is the coder of sections D.1 and D.2 of ITU-T T.81 with an interval of
unbounded precision. `ArithEncoder` and `ArithDecoder` are the real registers: C, A, the buffered byte, stacked
0xFF bytes and pending zeros on one side, a floating cut point on the other. Both are proved to denote the ideal
interval after every call, so `ArithRoundTrip` follows.

**Optimal Huffman tables.** `HuffmanOptimality` and `HuffmanForest` hold the theory: a merge of the two smallest
counts preserves optimality, and the weight of a tree bounds its depth. `HuffmanLengths` is the merge loop on
`freq[]`, `codesize[]` and the `others[]` chains, `HuffmanLimit` the adjustment of section K.2, `GenOptimalTable`
the whole routine, and `HuffmanTableProperties` and `OptimalCode` say what its result is good for.

**Codes and bits.** `CanonicalCode` is Annex C, `DerivedTables` the two table builders, `HuffmanDecode` the
decoding of one symbol bit by bit and by lookahead, `BitWriter` and `BitReader` the bit packer and unpacker with
byte stuffing (`ByteStuffing`), and `SymbolStream` the way of a run of symbols through all of them.

**Block coders.** `TokenStream` separates what is emitted from how it is written, so that a statistics pass and an
output pass speak about the same stream. `ACScan`, `RunLength`, `ACFirst` and `ACRefine` specify progressive AC
scans, `ACRefineRoundTrip` and `ProgressiveScan` prove that they are undone, and `EndOfBandRuns` that blocks share an
end of band wherever they can; `SequentialBlock` specifies sequential scans and proves that they are undone. `ProgressiveEncoder` and `SequentialCoder` are the encoding routines, writing through the bit
packer; `ProgressiveDecoder` and `SequentialDecoder` the decoding ones, reading through the bit reader
(`RunReader`, `RefineReader`). `ProgressivePasses` and `SequentialPasses` run both passes of the encoder for any
restart interval, end the bytes with a marker, and decode them.

**Restart intervals and damage.** `RestartStream` says how a scan is cut into intervals and what bytes they become,
`CodedSegments` which tokens those carry; `SequentialIntervals` and `ProgressiveIntervals` follow the encoders through
them. `RestartReader` is the search for the next restart marker, with its policy after damage. `RestartIntervals`,
`RestartRecovery` and `DamagedStream` prove where a decoder finds each interval of a damaged stream, and
`SequentialReading` and `ProgressiveReading` that it delivers what it finds there, for any bytes. So damage stays where
it is: other data in an interval, restart markers that are lost, wrong or too many, or a file that breaks off cost only
the intervals concerned.

**Running out of input, or of data.** The decoders get the bytes in pieces of any size (`SuspendingSource`) and must
suspend wherever a piece ends. `ACFirstSuspend`, `ACRefineSuspend` and `ProgressiveSuspend` prove that this leaves no
trace, `RefineMonotone` that more bits never change what was decoded. A segment that ends too early is continued with
zeros, with a warning exactly then, and the MCUs after it are left alone.

**Context windows.** `ContextPointers` and `ContextController` are the two pointer lists over M + 2 row groups and
the resumable routine that feeds the postprocessor. `PrepContext` is their counterpart in the compressor: a ring of
three row groups seen through a list of five.

**Coefficient controllers.** `McuOrder` says in which order the blocks of an image reach the entropy coder, with the
dummy blocks at its edges. `CoefControllers` holds the three routines that assemble MCUs (from the input, from padded
arrays, and in the transcoder) and proves that they send the same stream, wherever the entropy coder suspends them.

**Scan scripts.** `ScanScript` and `ScanScriptRoutines` compare what the compressor accepts with what the
decompressor complains about.

`Numerals` holds powers of two, base-256 numerals and a few facts about sequences. `dafny verify dfyconfig.toml`
checks everything.

Conventions: blocks are indexed in zigzag order, so `natural_order` is applied already, with its extra entries as a
clamp to the last position; the bits written so far and those still to be fetched are sequences of bits in
specifications, while the routines handle registers and bytes; an error exit is a failure result or a sticky flag;
inner loops and macros that the C code writes in line are methods of their own. `Scan.p` and `Shape.rows` are `1 <<
Al` and the sample rows of an iMCU row.

## Model

| member | source | states |
|---|---|---|
| ArithTable.Qe | codes/ubuntu-project/jpeg/jpeg-9a/jaricom.c:31-153 | every state of the table has a probability estimate strictly between 0 and 0x8000 |
| ArithTable.MoreProbable | codes/ubuntu-project/jpeg/jpeg-9a/jcarith.c:248-258 | after a more probable symbol the sense stays and the estimate for the other one gets strictly smaller, but for the last row of the table and the fixed bin, which stay as they are |
| ArithTable.LessProbable | codes/ubuntu-project/jpeg/jpeg-9a/jcarith.c:236-246 | after a less probable symbol the sense changes exactly at the ten marked rows, and then the estimate gets no larger; at all others it gets strictly larger, but for the fixed bin, which stays as it is |
| ArithTable.RunIsLearnt | codes/ubuntu-project/jpeg/jpeg-9a/jaricom.c:31-153 | enough more probable symbols in a row lead every bin but the fixed one to the smallest estimate, with its sense unchanged |
| ArithIdeal.NarrowSplits | codes/ubuntu-project/jpeg/jpeg-9a/jcarith.c:235-258 | the two answers share the interval, the upper part as wide as the estimate; the less probable one never has the wider part, and the upper one if both are equal; it always has its bin estimated anew, the other one exactly if the interval must be renormalised |
| ArithIdeal.RenormIs | codes/ubuntu-project/jpeg/jpeg-9a/jcarith.c:261-310 | renormalisation doubles the interval as often as it takes to make it at least 0x8000 wide, and no more |
| ArithIdeal.RenormLocates | codes/ubuntu-project/jpeg/jpeg-9a/jcarith.c:196-217 | doubling the unbounded interval does not change which byte strings lie in it |
| ArithIdeal.StepLocates | codes/ubuntu-project/jpeg/jpeg-9a/jcarith.c:196-258 | a byte string in the interval after a decision was in the interval before it, and a decoder holding that string takes the same decision |
| ArithIdeal.RunDecodes | codes/ubuntu-project/jpeg/jpeg-9a/jdarith.c:80-104 | any byte string in the final interval of a run of decisions makes an ideal decoder, asked about the same bins, return exactly those decisions |
| ArithEncoder.CarryValue | codes/ubuntu-project/jpeg/jpeg-9a/jcarith.c:268-283 | adding one to a byte and turning the 0xFF bytes stacked after it into zeros adds exactly one to the number they denote |
| ArithEncoder.ShiftByte | codes/ubuntu-project/jpeg/jpeg-9a/jcarith.c:265-308 | when a byte leaves the C register, emitted value and register still denote the doubled base, the byte fits 9 bits, and a carry never runs out of digits |
| ArithEncoder.Encoder.EmitStacked | codes/ubuntu-project/jpeg/jpeg-9a/jcarith.c:287-304 | without a carry the zeros, the buffered byte and the stacked 0xFF bytes come out as the digits already accounted for |
| ArithEncoder.Encoder.PropagateCarry | codes/ubuntu-project/jpeg/jpeg-9a/jcarith.c:268-283 | a carry changes only bytes not yet emitted, the output only grows, and the digits denote one more than before |
| ArithEncoder.Encoder.StoreByte | codes/ubuntu-project/jpeg/jpeg-9a/jcarith.c:266-308 | whichever of the three cases applies, the digits denote 256 times what they did plus the 9-bit byte, and the buffer is not 0xFF |
| ArithEncoder.Encoder.Shift | codes/ubuntu-project/jpeg/jpeg-9a/jcarith.c:262-310 | one turn of the renormalisation loop doubles A and the exact base that output, stack and register denote |
| ArithEncoder.Encoder.Encode | codes/ubuntu-project/jpeg/jpeg-9a/jcarith.c:218-311 | for every decision the state after the call denotes exactly the step of the unbounded-precision coder; A is back in 0x8000..0x10000, the buffer is not 0xFF and emitted bytes are never changed |
| ArithEncoder.Encoder.FinalPoint | codes/ubuntu-project/jpeg/jpeg-9a/jcarith.c:143-151 | of all values in [c, c + a), the one chosen at termination ends in the most zero bits, at least 15 |
| ArithEncoder.Encoder.FinishPass | codes/ubuntu-project/jpeg/jpeg-9a/jcarith.c:132-193 | what has been emitted at the end lies in the final interval when it is continued with zeros, and does not end in a zero byte |
| ArithDecoder.PrefixDecides | codes/ubuntu-project/jpeg/jpeg-9a/jdarith.c:114-160 | comparing the bytes fetched so far, zero-filled past the marker, with a shifted bound decides the comparison of the whole byte string with that bound |
| ArithDecoder.ChooseHalf | codes/ubuntu-project/jpeg/jpeg-9a/jdarith.c:159-179 | the decoder's comparison with the floating cut point picks the half of the interval that holds the data |
| ArithDecoder.Decoder.FetchByte | codes/ubuntu-project/jpeg/jpeg-9a/jdarith.c:64-77 | the bytes delivered are those of the segment with stuffing removed, then zeros for ever after the marker |
| ArithDecoder.Decoder.Renormalise | codes/ubuntu-project/jpeg/jpeg-9a/jdarith.c:113-149 | however many bytes have to be fetched, the interval that the register layout stands for is unchanged and A is at least 0x8000 |
| ArithDecoder.Decoder.Decode | codes/ubuntu-project/jpeg/jpeg-9a/jdarith.c:105-182 | every call returns the decision of the ideal decoder on the destuffed data and leaves the interval and the bins one ideal step further |
| ArithRoundTrip.EncodeScan | codes/ubuntu-project/jpeg/jpeg-9a/jcarith.c:132-311 | for any run of decisions the bytes are the stuffed form of data that lie in the ideal final interval and do not end in a zero byte; the bins after every step are those of the ideal coder |
| ArithRoundTrip.DecodeScan | codes/ubuntu-project/jpeg/jpeg-9a/jdarith.c:64-182 | the decisions are those of the ideal decoder on the data before the marker, bin for bin; it fails only on input without a marker |
| ArithRoundTrip.RoundTrip | codes/ubuntu-project/jpeg/jpeg-9a/jdarith.c:105-182 | for every finite run of (bin, bit) decisions, encoding, ending with a marker and decoding with the same bins returns the same bits, and encoder and decoder bins are equal after every step |
| ByteStuffing.StuffedHasNoMarker | codes/ubuntu-project/jpeg/jpeg-9a/jchuff.c:299-345 | every 0xFF of the output is followed by 0x00 |
| ByteStuffing.ParseStuffed | codes/ubuntu-project/jpeg/jpeg-9a/jdhuff.c:486-529 | reading stuffed data that is followed by a marker gives the data back and stops at that marker |
| HuffmanOptimality.MergedLengths | codes/ubuntu-project/jpeg/jpeg-9a/jchuff.c:1276-1324 | any feasible lengths for the counts yield feasible lengths, no dearer by more than the merged weight, for the counts with the two smallest merged |
| HuffmanOptimality.MergeRaisesBound | codes/ubuntu-project/jpeg/jpeg-9a/jchuff.c:1276-1324 | a lower bound on the cost for merged counts gives one for the counts before the merge |
| HuffmanForest.MergeKeepsBalance | codes/ubuntu-project/jpeg/jpeg-9a/jchuff.c:1301-1323 | each merge keeps every tree of the forest at Kraft sum one with weight equal to the counts of its leaves |
| HuffmanForest.MergeKeepsEconomy | codes/ubuntu-project/jpeg/jpeg-9a/jchuff.c:1301-1323 | each merge keeps the cost so far plus a bound for the remaining weights a lower bound for all length assignments |
| HuffmanForest.MergeKeepsHeavy | codes/ubuntu-project/jpeg/jpeg-9a/jchuff.c:1270-1324 | each merge keeps every leaf at depth d in a tree of weight at least Fib(d + 2) |
| HuffmanForest.MergeIntoDeepest | codes/ubuntu-project/jpeg/jpeg-9a/jchuff.c:1270-1300 | with the larger index winning ties, the pseudo-symbol stays a deepest leaf when its tree is merged |
| HuffmanForest.LastRootOptimal | codes/ubuntu-project/jpeg/jpeg-9a/jchuff.c:1297-1300 | when one tree is left, its depths are feasible and cost no more than any feasible assignment |
| HuffmanLengths.FindSmallest | codes/ubuntu-project/jpeg/jpeg-9a/jchuff.c:1279-1288 | the search finds the largest index among the smallest nonzero counts, apart from one index, or none |
| HuffmanLengths.BumpChain | codes/ubuntu-project/jpeg/jpeg-9a/jchuff.c:1305-1320 | following a chain adds one to the code length of exactly the symbols on it and ends at its last one |
| HuffmanLengths.MergeTrees | codes/ubuntu-project/jpeg/jpeg-9a/jchuff.c:1301-1323 | after a merge the chain of the first symbol lists the leaves of both trees, all one level deeper, and all other chains are as before |
| HuffmanLengths.BuildLengths | codes/ubuntu-project/jpeg/jpeg-9a/jchuff.c:1263-1324 | for all counts within the search's limit the lengths are optimal among all that satisfy Kraft, unused symbols have none, a length d needs a total of Fib(d + 2), and the pseudo-symbol has the greatest length |
| HuffmanLimit.HistogramKraft | codes/ubuntu-project/jpeg/jpeg-9a/jchuff.c:1326-1337 | the Kraft sum over lengths equals the Kraft sum over the length counts |
| HuffmanLimit.CountLengths | codes/ubuntu-project/jpeg/jpeg-9a/jchuff.c:1326-1337 | the count of each length, or failure exactly when some length exceeds 32 |
| HuffmanLimit.PrefixFound | codes/ubuntu-project/jpeg/jpeg-9a/jchuff.c:1350-1355 | in a complete code the search for a shorter length with a code in use stops at a length of at least one |
| HuffmanLimit.ShortenOnce | codes/ubuntu-project/jpeg/jpeg-9a/jchuff.c:1350-1360 | one code of the greatest length in use below that of the prefix becomes two that are one bit longer, two of the greatest length become one that is one bit shorter, and all other counts stay; so the code stays complete, with as many symbols |
| HuffmanLimit.LimitLengths | codes/ubuntu-project/jpeg/jpeg-9a/jchuff.c:1348-1361 | the result is reached by such adjustments alone, each at the greatest length in use, and has no length above 16; the code is complete, with as many symbols as before |
| HuffmanLimit.ReducedLegal | codes/ubuntu-project/jpeg/jpeg-9a/jchuff.c:1363-1366 | exactly one code of the greatest length in use is dropped, which leaves a legal table: room for one more code at that length |
| GenOptimalTable.UpToLengthOrder | codes/ubuntu-project/jpeg/jpeg-9a/jchuff.c:1371-1382 | symbols are listed by increasing length, and their number is the number of lengths counted |
| GenOptimalTable.UpToLengthOnce | codes/ubuntu-project/jpeg/jpeg-9a/jchuff.c:1371-1382 | each used symbol is listed exactly once and no other symbol is |
| GenOptimalTable.SymbolsInOrder | codes/ubuntu-project/jpeg/jpeg-9a/jchuff.c:1371-1382 | a symbol is listed before another one if its code is shorter, or of the same length and its number smaller |
| GenOptimalTable.HistogramComplete | codes/ubuntu-project/jpeg/jpeg-9a/jchuff.c:1326-1337 | for counts within the preconditions the length counts describe a complete code and fit a byte |
| GenOptimalTable.GenOptimalTable | codes/ubuntu-project/jpeg/jpeg-9a/jchuff.c:1252-1386 | from an optimal code it fails exactly when some length exceeds 32, and otherwise its table has the counts of that code after the adjustments of section K.2 and the loss of one longest code, and the symbols in order |
| HuffmanTableProperties.TableUsable | codes/ubuntu-project/jpeg/jpeg-9a/jchuff.c:1326-1385 | the table has lengths of at most 16, is legal, fits its bytes and lists each counted symbol once, so that both table builders accept it |
| HuffmanTableProperties.LengthsKept | codes/ubuntu-project/jpeg/jpeg-9a/jchuff.c:1340-1366 | when no length is over 16, every symbol gets exactly its optimal length |
| HuffmanTableProperties.PseudoLongest | codes/ubuntu-project/jpeg/jpeg-9a/jchuff.c:1363-1366 | then the code taken away at the end is the pseudo-symbol's own |
| HuffmanTableProperties.OverflowNeedsCounts | codes/ubuntu-project/jpeg/jpeg-9a/jchuff.c:1331-1336 | the clen-overflow error cannot happen while the total count is below 9227465 |
| OptimalCode.UsableIsSound | codes/ubuntu-project/jpeg/jpeg-9a/jchuff.c:232-245 | a table of the counted symbols meets the checks on symbols of the encoder's table builder, for DC tables too |
| OptimalCode.MakeOptimalCode | codes/ubuntu-project/jpeg/jpeg-9a/jchuff.c:1393-1440 | from statistics to derived tables: every counted symbol has a code of at most 16 bits, a DC table has sizes only, and the only failure needs a total of at least 9227465 |
| OptimalCode.InUseCountable | codes/ubuntu-project/jpeg/jpeg-9a/jchuff.c:944-986 | a table of which some symbol is emitted, with sizes of at most 11, always gives statistics of 2 to 255 used entries, whatever the blocks are |
| CanonicalCode.PrefixFree | codes/ubuntu-project/jpeg/jpeg-9a/jchuff.c:209-230 | in an accepted table no code word is a prefix of another |
| CanonicalCode.NextCode | codes/ubuntu-project/jpeg/jpeg-9a/jchuff.c:202-222 | each code is the one before it plus one, with as many zeros behind it as it is longer |
| CanonicalCode.FirstCode | codes/ubuntu-project/jpeg/jpeg-9a/jchuff.c:206-208 | the first code is zero |
| CanonicalCode.NotAllOnes | codes/ubuntu-project/jpeg/jpeg-9a/jchuff.c:1228-1241 | no code word of an accepted table consists of ones only |
| DerivedTables.FillSizes | codes/ubuntu-project/jpeg/jpeg-9a/jchuff.c:190-204 | one size per code in order, or failure exactly for more than 256 codes |
| DerivedTables.FillCodes | codes/ubuntu-project/jpeg/jpeg-9a/jchuff.c:206-230 | the canonical codes, or failure exactly when the Kraft sum reaches one |
| DerivedTables.MakeCDerivedTbl | codes/ubuntu-project/jpeg/jpeg-9a/jchuff.c:160-246 | accepted exactly if there are at most 256 codes, the Kraft sum is below one, no symbol repeats and none exceeds its limit; then code and size of each symbol are the canonical ones and every other symbol has size 0 |
| DerivedTables.FillLookahead | codes/ubuntu-project/jpeg/jpeg-9a/jdhuff.c:408-425 | every code of up to 8 bits owns exactly the table entries that begin with it, and all entries above are zero |
| DerivedTables.FillLimits | codes/ubuntu-project/jpeg/jpeg-9a/jdhuff.c:390-405 | maxcode and valoffset of every length, with the sentinel at 17 |
| DerivedTables.MakeDDerivedTbl | codes/ubuntu-project/jpeg/jpeg-9a/jdhuff.c:322-437 | accepted exactly if there are at most 256 codes with Kraft sum below one, for DC with symbols up to 15; then the decoding tables describe that code |
| HuffmanDecode.DecodeWord | codes/ubuntu-project/jpeg/jpeg-9a/jdhuff.c:591-627 | bit-serial decoding of a code word returns its symbol and takes exactly its bits, whatever follows |
| HuffmanDecode.DecodeMonotone | codes/ubuntu-project/jpeg/jpeg-9a/jdhuff.c:591-627 | further bits never change a symbol that could be decoded without them |
| HuffmanDecode.BadCode | codes/ubuntu-project/jpeg/jpeg-9a/jdhuff.c:602-624 | bits that do not start with any code word pass for the symbol 0, and 17 of them are taken |
| HuffmanDecode.LookaheadAgrees | codes/ubuntu-project/jpeg/jpeg-9a/jdhuff.c:168-188 | on every eight bits the lookahead entry gives the symbol and length that bit-serial decoding gives, and an empty entry means that no code of up to 8 bits matches |
| HuffmanDecode.SymbolRoundTrip | codes/ubuntu-project/jpeg/jpeg-9a/jdhuff.c:591-627 | decoding undoes encoding with tables derived from the same code |
| BitWriter.Gathering | codes/ubuntu-project/jpeg/jpeg-9a/jchuff.c:321-330 | masking, aligning and merging a code into the 24-bit register appends its low bits to those pending |
| BitWriter.TopByte | codes/ubuntu-project/jpeg/jpeg-9a/jchuff.c:332-341 | the top byte of the register is the first eight pending bits, and what is left is the rest |
| BitWriter.Writer.EmitBits | codes/ubuntu-project/jpeg/jpeg-9a/jchuff.c:299-345 | destuffed output plus at most 7 pending bits is the concatenation of all codes; size 0 is refused |
| BitWriter.Writer.FlushBits | codes/ubuntu-project/jpeg/jpeg-9a/jchuff.c:387-398 | flushing adds fewer than eight ones and leaves whole bytes, stuffed |
| BitReader.ShiftIn | codes/ubuntu-project/jpeg/jpeg-9a/jdhuff.c:531-533 | shifting bits into the 32-bit register keeps all held bits though older ones fall off the top |
| BitReader.LoadBytes | codes/ubuntu-project/jpeg/jpeg-9a/jdhuff.c:477-534 | the bits held plus those still in the input stay the same while bytes are loaded, past stuffing and padding, up to a marker or 25 bits |
| BitReader.Reader.FillBitBuffer | codes/ubuntu-project/jpeg/jpeg-9a/jdhuff.c:464-562 | failure only for lack of input and without any change; zero bits are invented only after a marker and only when the request cannot be met, and exactly then the warning flag is set; bytes that have not arrived yet play no part |
| BitReader.Reader.Fetch | codes/ubuntu-project/jpeg/jpeg-9a/jdhuff.c:114-152 | the next n bits in order, continued with zeros past the end |
| BitReader.Reader.JpegHuffDecode | codes/ubuntu-project/jpeg/jpeg-9a/jdhuff.c:591-627 | the symbol is the one that bit-serial decoding from the given length finds in exactly the bits taken, and these are the next bits |
| BitReader.Reader.HuffDecode | codes/ubuntu-project/jpeg/jpeg-9a/jdhuff.c:168-188 | with or without lookahead, the bits taken are the next ones and are by themselves the code of the symbol returned; it fails only while the marker has not arrived; it never has to wait for input if the bits at hand suffice for the lookahead |
| BitReader.DecodesAlone | codes/ubuntu-project/jpeg/jpeg-9a/jdhuff.c:591-627 | the bits that a symbol takes suffice to tell it, whatever follows them |
| BitReader.Reader.Supply | codes/ubuntu-project/jpeg/jpeg-9a/jdhuff.c:482-488 | the arrival of more bytes changes nothing about the bits to come |
| SuspendingSource.Refill | codes/ubuntu-project/jpeg/jpeg-9a/jdhuff.c:482-488 | a decoder that had to suspend gets the next piece of input, whatever its size, and never has to wait once everything has arrived |
| SymbolStream.EncodeSymbols | codes/ubuntu-project/jpeg/jpeg-9a/jchuff.c:305-345 | the destuffed bytes are the codes of the symbols in order, then fewer than eight ones |
| SymbolStream.SymbolStreamRoundTrip | codes/ubuntu-project/jpeg/jpeg-9a/jdhuff.c:168-188 | any run of symbols through an accepted table, the bit packer, byte stuffing, a marker and the bit reader comes back unchanged |
| TokenStream.SymbolReadBack | codes/ubuntu-project/jpeg/jpeg-9a/jdhuff.c:168-188 | a symbol at the head of an emitted stream is read back by the decoder of its table, and the rest of the stream is left |
| ACScan.RunCategory | codes/ubuntu-project/jpeg/jpeg-9a/jchuff.c:463-476 | a run of up to 0x7FFF blocks fits 14 appended bits, so its symbol is never the ZRL code 0xF0 |
| RunLength.ExtendInverse | codes/ubuntu-project/jpeg/jpeg-9a/jdhuff.c:564-590 | extending the low bits of a value, or of a negative value less one, gives the value back |
| RunLength.RunsDecode | codes/ubuntu-project/jpeg/jpeg-9a/jdhuff.c:1232-1266 | reading what the run-length coder emits puts every value at its place, as far as values are kept, and stops where an end-of-block symbol is due, or at the end |
| ACFirst.TruncsScaled | codes/ubuntu-project/jpeg/jpeg-9a/jchuff.c:659-675 | the transformed coefficient scaled back is the coefficient with its low bits cleared towards zero |
| ACFirst.TruncIs | codes/ubuntu-project/jpeg/jpeg-9a/jchuff.c:665-680 | what a scan sends of a coefficient is the multiple of 1 << Al next to it on the side of zero |
| ACFirst.RepresentableIs | codes/ubuntu-project/jpeg/jpeg-9a/jchuff.c:690-697 | a first scan can code exactly the values below 1024 in magnitude, after the point transform |
| ACFirst.NoValues | codes/ubuntu-project/jpeg/jpeg-9a/jchuff.c:653-730 | a block that emits no symbol has only zeros in its band, and ends in a run |
| ACRefineRoundTrip.CorrectedBit | codes/ubuntu-project/jpeg/jpeg-9a/jdhuff.c:1000-1007 | the next bit of the magnitude, applied as a correction bit, turns the coarser truncation into the finer one |
| ACRefine.SizeIgnored | codes/ubuntu-project/jpeg/jpeg-9a/jdhuff.c:969-977 | any nonzero size of a new coefficient is taken for 1 |
| ACRefineRoundTrip.AdvanceStretch | codes/ubuntu-project/jpeg/jpeg-9a/jdhuff.c:991-1013 | over a stretch without newly nonzero coefficients the decoder takes one correction bit for each nonzero coefficient and counts its zeros |
| ACRefineRoundTrip.SixteenthZero | codes/ubuntu-project/jpeg/jpeg-9a/jchuff.c:841-853 | when a ZRL is due, all correction bits gathered belong before the sixteenth zero of the run |
| ACRefineRoundTrip.BlockDecodes | codes/ubuntu-project/jpeg/jpeg-9a/jchuff.c:831-885 | the symbols of one block lead the decoder to the point from which only an end of band covers the rest, with every coefficient before it refined |
| ACRefineRoundTrip.EobDecodes | codes/ubuntu-project/jpeg/jpeg-9a/jdhuff.c:977-986 | an end-of-band symbol with its appended bits is read back as the run, and the correction bits after it refine the rest of the band |
| ProgressiveScan.FreshBlock | codes/ubuntu-project/jpeg/jpeg-9a/jdhuff.c:913-1062 | a block outside any run is decoded exactly, for first and for refinement scans |
| ProgressiveScan.RunBlock | codes/ubuntu-project/jpeg/jpeg-9a/jdhuff.c:1023-1044 | a block inside a run is decoded from its correction bits alone |
| ProgressiveScan.RunKept | codes/ubuntu-project/jpeg/jpeg-9a/jchuff.c:882-894 | between blocks the run stays below 0x7FFF and the buffered correction bits, with those of one more block, never exceed MAX_CORR_BITS |
| ProgressiveScan.ScanDecodes | codes/ubuntu-project/jpeg/jpeg-9a/jchuff.c:463-487 | whatever is owed when coding stops at any block, the decoder in the corresponding place reads the remaining blocks exactly |
| ProgressiveScan.ScanRoundTrip | codes/ubuntu-project/jpeg/jpeg-9a/jdhuff.c:778-1062 | for any run of blocks, decoding a first AC scan or a refinement scan makes every band coefficient known to the bit position of the scan, leaves all others, and consumes exactly the bits emitted |
| EndOfBandRuns.SilentBlock | codes/ubuntu-project/jpeg/jpeg-9a/jchuff.c:653-715 | a block emits symbols exactly if a coefficient of its band becomes nonzero in this scan: zeros and correction bits after the last such one are left to the end of band |
| EndOfBandRuns.ScanIsGrouped | codes/ubuntu-project/jpeg/jpeg-9a/jchuff.c:709-714 | a scan is coded group by group: the symbols of a group's first block and one end of band for all its blocks with all their correction bits; no group ends before 32767 blocks or more than 937 correction bits but for a block that has symbols |
| EndOfBandRuns.GroupsExist | codes/ubuntu-project/jpeg/jpeg-9a/jchuff.c:885-891 | every scan has such groups |
| EndOfBandRuns.OneRun | codes/ubuntu-project/jpeg/jpeg-9a/jchuff.c:463-490 | up to 32767 blocks without symbols and with at most 937 correction bits share one symbol for the category of their number, with the number's other bits and all correction bits after it |
| EndOfBandRuns.ZeroBands | codes/ubuntu-project/jpeg/jpeg-9a/jchuff.c:709-714 | n zero bands of a first scan take n / 32767 end-of-band symbols, rounded up |
| ACRefineSuspend.CorrectTwice | codes/ubuntu-project/jpeg/jpeg-9a/jdhuff.c:1002-1007 | a correction bit that was already added is not added again |
| ACRefineSuspend.AdvanceAgain | codes/ubuntu-project/jpeg/jpeg-9a/jdhuff.c:991-1013 | a repeated call over a block that was partly corrected takes the same bits and ends with the same coefficients |
| ACRefineSuspend.McuAgain | codes/ubuntu-project/jpeg/jpeg-9a/jdhuff.c:913-1062 | after interrupted calls a further call is the uninterrupted one, or leaves the block different from the original in correction bits only |
| ACRefineSuspend.SuspensionLeavesNoTrace | codes/ubuntu-project/jpeg/jpeg-9a/jdhuff.c:913-1062 | for every bit string and every list of forced suspensions, the final block, the unread input and the run equal those of one uninterrupted call |
| ProgressiveEncoder.PrePass | codes/ubuntu-project/jpeg/jpeg-9a/jchuff.c:808-827 | the magnitudes of the band, and an index that tells at every position whether a newly nonzero coefficient is still to come |
| ProgressiveEncoder.Encoder.EmitSymbol | codes/ubuntu-project/jpeg/jpeg-9a/jchuff.c:428-437 | a statistics pass counts, and an output pass writes, the same symbol; a symbol without a code is an error |
| ProgressiveEncoder.Encoder.EmitBufferedBits | codes/ubuntu-project/jpeg/jpeg-9a/jchuff.c:439-457 | the buffered bits, in order, in an output pass only |
| ProgressiveEncoder.Encoder.EmitEobrun | codes/ubuntu-project/jpeg/jpeg-9a/jchuff.c:463-487 | the pending run with its category and appended bits, then the correction bits put off; nothing is pending afterwards |
| ProgressiveEncoder.Encoder.EncodeMcuACFirst | codes/ubuntu-project/jpeg/jpeg-9a/jchuff.c:628-730 | the block's tokens and the pending run are those of the specification of a scan, which EndOfBandRuns.ScanIsGrouped characterises; it fails exactly on a coefficient of more than 10 bits |
| ProgressiveEncoder.Encoder.EncodeMcuACRefine | codes/ubuntu-project/jpeg/jpeg-9a/jchuff.c:782-907 | the block's tokens and the pending run with its buffered bits are those of the specification of a scan, which EndOfBandRuns.ScanIsGrouped characterises, inside a buffer of 1000 bits |
| RunReader.PairReads | codes/ubuntu-project/jpeg/jpeg-9a/jdhuff.c:1243-1262 | one symbol with its bits leads the reading of a band to exactly the next position, or to its end, whatever bits follow |
| RunReader.ReadPair | codes/ubuntu-project/jpeg/jpeg-9a/jdhuff.c:1244-1254 | a symbol and the value that goes with it are taken from the bit reader, or the call fails for lack of input |
| RunReader.RunsMonotone | codes/ubuntu-project/jpeg/jpeg-9a/jdhuff.c:1243-1262 | further bits never change what could be read of a band without them |
| RefineReader.AdvanceOver | codes/ubuntu-project/jpeg/jpeg-9a/jdhuff.c:991-1013 | in place and from the bit reader, the correction bits of the specification; a call that runs out of input after n fetches leaves the partly corrected block that the specification gives for n fetches |
| RefineReader.NewRefines | codes/ubuntu-project/jpeg/jpeg-9a/jdhuff.c:956-1022 | the sign and the way to the place of a new coefficient lead the symbol loop exactly one step further, whatever bits follow |
| RefineMonotone.RefineMcuMore | codes/ubuntu-project/jpeg/jpeg-9a/jdhuff.c:913-1062 | further bits never change a block that could be refined without them |
| RefineMonotone.RefineMcuSame | codes/ubuntu-project/jpeg/jpeg-9a/jdhuff.c:991-1013 | two blocks with the same zeros take the same bits and the same end-of-band run |
| RefineMonotone.RefineMcuKeeps | codes/ubuntu-project/jpeg/jpeg-9a/jdhuff.c:1055-1061 | a suspended call leaves exactly the coefficients nonzero that were so before, on any data |
| ACFirstSuspend.FirstOneMore | codes/ubuntu-project/jpeg/jpeg-9a/jdhuff.c:697-701 | a suspended first scan changes only coefficients that the next call will output again |
| ACFirstSuspend.FirstResumes | codes/ubuntu-project/jpeg/jpeg-9a/jdhuff.c:697-701 | whatever suspended calls have left in the block, the next call reads exactly what a first call would |
| ProgressiveSuspend.OneMore | codes/ubuntu-project/jpeg/jpeg-9a/jdhuff.c:697-704 | one more suspended call leaves a block that can be resumed, for first and refinement scans |
| ProgressiveSuspend.SuspensionsLeaveNoTrace | codes/ubuntu-project/jpeg/jpeg-9a/jdhuff.c:697-704 | after any number of calls that ran out of input, the call that completes warns exactly if the data do not hold the whole block and otherwise delivers block, run and rest of one uninterrupted call |
| ProgressiveDecoder.Decoder.UndoNew | codes/ubuntu-project/jpeg/jpeg-9a/jdhuff.c:1055-1061 | exactly the newly nonzero coefficients become zero again |
| ProgressiveDecoder.Decoder.DecodeMcuACFirst | codes/ubuntu-project/jpeg/jpeg-9a/jdhuff.c:778-857 | in place: nothing once the data have run out; otherwise the block, run and rest of the specification on the bits to come, continued with zeros only if they end; a suspended call keeps input and run and leaves the coefficients of the bits it took |
| ProgressiveDecoder.Decoder.DecodeMcuACRefine | codes/ubuntu-project/jpeg/jpeg-9a/jdhuff.c:913-1062 | the same for a refinement; a suspended call keeps input and run, undoes its new coefficients and leaves the corrections of the fetches that succeeded |
| ProgressiveEncoder.Encoder.EmitRestart | codes/ubuntu-project/jpeg/jpeg-9a/jchuff.c:515-537 | a restart ends the interval with the run that is pending; an output pass fills up the segment and writes the marker of the right number after it, a statistics pass only goes on counting |
| ProgressiveEncoder.Encoder.FinishPass | codes/ubuntu-project/jpeg/jpeg-9a/jchuff.c:1069-1103 | the last run is emitted, and the bytes of the scan are its segments, each the bits of its interval filled up with fewer than eight ones, with restart markers between them |
| ProgressiveDecoder.Decoder.ProcessRestart | codes/ubuntu-project/jpeg/jpeg-9a/jdhuff.c:650-681 | the input is moved to the next segment as the marker reader decides, the run is given up and the interval counted anew; a call that has to suspend will end up in the same place |
| ProgressiveDecoder.Decoder.DecodeMcu | codes/ubuntu-project/jpeg/jpeg-9a/jdhuff.c:778-857 | a restart where one is due and then the block; a suspended call has the restart still before it, or behind it and a block that can be resumed |
| ProgressiveIntervals.SentBlock | codes/ubuntu-project/jpeg/jpeg-9a/jchuff.c:463-487 | coding one block more adds to what was emitted exactly what the tokens of a whole interval begin with, whatever blocks follow |
| ProgressiveIntervals.CoderStep | codes/ubuntu-project/jpeg/jpeg-9a/jchuff.c:628-730 | counting MCUs cuts the scan into its intervals: each one's tokens are those of a scan of its own, with its last run emitted at its end |
| ProgressivePasses.EncodeScan | codes/ubuntu-project/jpeg/jpeg-9a/jchuff.c:1069-1103 | a statistics pass counts the symbols of the specified scan in all its intervals, an output pass writes a segment for each; failure exactly on coefficients out of range |
| ProgressivePasses.ScanCountable | codes/ubuntu-project/jpeg/jpeg-9a/jchuff.c:1393-1440 | the statistics of a nonempty scan are always fit for the optimal table routine, but for their total |
| ProgressiveReading.UnderwayBlock | codes/ubuntu-project/jpeg/jpeg-9a/jdhuff.c:778-1062 | a decoder that has followed the bits found at the start of an interval, or has run out of them, does so one block further |
| ProgressiveReading.DataEnd | codes/ubuntu-project/jpeg/jpeg-9a/jdhuff.c:778-857 | when the data do not hold the next block, all blocks before it are what the data say, and no continuation of the interval can be read |
| ProgressiveReading.DecodeBlock | codes/ubuntu-project/jpeg/jpeg-9a/jdhuff.c:778-1062 | a block called for again and again while its input arrives, with a restart before it where one is due, comes to what one call with all the input gives |
| ProgressiveReading.DecodeScan | codes/ubuntu-project/jpeg/jpeg-9a/jdhuff.c:778-1062 | from any bytes that suffice, in any pieces: the blocks of an interval that does not start before a marker, and for which the bits found at its start suffice, become what they say; if all intervals are like that there is no warning, and if there is no warning all become what their bits say; wherever data run out, the blocks before are what the data say and those after the one where they end are left as they were; failure exactly for an illegal table |
| ProgressivePasses.IntervalKept | codes/ubuntu-project/jpeg/jpeg-9a/jdhuff.c:778-1062 | an interval whose bits are found, whatever bits follow them, is decoded to the bit position of the scan |
| ProgressivePasses.DecodeReceived | codes/ubuntu-project/jpeg/jpeg-9a/jdmarker.c:1293-1386 | after an interval's data are replaced, one or two restart markers are lost, there is a marker too many or a wrong one, or the file breaks off, every interval that the damage does not concern is decoded to the bit position of the scan |
| ProgressivePasses.OptimisedScan | codes/ubuntu-project/jpeg/jpeg-9a/jchuff.c:1393-1440 | for any restart interval: statistics pass, optimal table, output pass to bytes, any marker, input in any pieces, decoder: no warning, and every coefficient of every block is known to the bit position of the scan; the only failure needs a total of at least 9227465 counts |
| SequentialBlock.UnitRoundTrip | codes/ubuntu-project/jpeg/jpeg-9a/jdhuff.c:1198-1314 | every in-range block is decoded exactly in the coefficients that are kept, whatever the coefficient limit, and the bits after it are left untouched |
| RunLength.ReadBeyond | codes/ubuntu-project/jpeg/jpeg-9a/jdhuff.c:1253-1274 | whatever the data are, at most one AC coefficient beyond those that are to be kept is written, and none if no AC coefficient is to be kept |
| SequentialBlock.StreamRoundTrip | codes/ubuntu-project/jpeg/jpeg-9a/jdhuff.c:1224-1305 | so is every sequence of blocks of interleaved components, with predictions that agree for the components that are needed |
| SequentialBlock.McusRoundTrip | codes/ubuntu-project/jpeg/jpeg-9a/jdhuff.c:1198-1314 | so is every scan of MCUs |
| SequentialBlock.BlockCoded | codes/ubuntu-project/jpeg/jpeg-9a/jchuff.c:1030-1043 | each block is coded with the difference to the DC value of the block of its component before it, or to the first prediction if there is none |
| SequentialBlock.McusAreBlocks | codes/ubuntu-project/jpeg/jpeg-9a/jchuff.c:1030-1049 | an interval of MCUs is coded as one run of blocks: predictions go on from one MCU to the next |
| SequentialBlock.RangeIs | codes/ubuntu-project/jpeg/jpeg-9a/jchuff.c:940-1005 | the coder fails exactly on a DC difference of 2048 or more in magnitude, or an AC coefficient of 1024 or more |
| SequentialCoder.Encoder.EncodeOneBlock | codes/ubuntu-project/jpeg/jpeg-9a/jchuff.c:912-1005 | the tokens of the block; failure exactly on a DC difference of more than 11 or an AC value of more than 10 bits |
| SequentialCoder.Encoder.EmitRestart | codes/ubuntu-project/jpeg/jpeg-9a/jchuff.c:493-512 | the segment is filled up and the marker of the right number written after it; the predictions are zero again |
| SequentialCoder.Encoder.EncodeMcu | codes/ubuntu-project/jpeg/jpeg-9a/jchuff.c:1012-1063 | the tokens of all blocks with the predictions running on by component, in a new interval after exactly as many MCUs as it takes |
| SequentialCoder.Encoder.FinishPass | codes/ubuntu-project/jpeg/jpeg-9a/jchuff.c:1069-1103 | the bytes of the scan are its segments, each the bits of its interval filled up with fewer than eight ones, with restart markers between them |
| SequentialCoder.HtestOneBlock | codes/ubuntu-project/jpeg/jpeg-9a/jchuff.c:1118-1187 | the counts become those of exactly the symbols that encode_one_block emits, and it fails when that does |
| SequentialCoder.GatherMcu | codes/ubuntu-project/jpeg/jpeg-9a/jchuff.c:1193-1222 | the same for an MCU, with predictions that start anew with each interval |
| SequentialIntervals.BlockInInterval | codes/ubuntu-project/jpeg/jpeg-9a/jchuff.c:505-508 | in a restart interval the first block of a component is coded with its DC value itself, and each other one with the difference to the one before it |
| SequentialIntervals.McuStep | codes/ubuntu-project/jpeg/jpeg-9a/jchuff.c:1200-1210 | counting MCUs cuts the scan into its intervals: the tokens of each are those of its MCUs coded from predictions of zero, and a value out of range is one in the interval where it lies |
| SequentialDecoder.DeriveTables | codes/ubuntu-project/jpeg/jpeg-9a/jdhuff.c:1433-1449 | tables for exactly the blocks of the MCU, with no AC table where there are no AC coefficients; failure exactly on an illegal table or a DC symbol over 15 |
| SequentialDecoder.StreamMonotone | codes/ubuntu-project/jpeg/jpeg-9a/jdhuff.c:1070-1190 | further bits never change blocks that could be read without them |
| SequentialDecoder.DataSuffice | codes/ubuntu-project/jpeg/jpeg-9a/jdhuff.c:535-552 | zeros are made up for an MCU exactly when the data do not hold the whole of it |
| SequentialDecoder.Decoder.DecodeUnit | codes/ubuntu-project/jpeg/jpeg-9a/jdhuff.c:1226-1304 | the two loops over AC coefficients, one that keeps values and one that drops them, take from the bit reader exactly the bits of one block and decode it as the specification does |
| SequentialDecoder.Decoder.ProcessRestart | codes/ubuntu-project/jpeg/jpeg-9a/jdhuff.c:650-681 | the input is moved to the next segment as the marker reader decides, the predictions are zero and the interval counted anew; a call that has to suspend will end up in the same place |
| SequentialDecoder.Decoder.DecodeBlocks | codes/ubuntu-project/jpeg/jpeg-9a/jdhuff.c:1086-1184 | a zero MCU once the data have run out; otherwise the blocks, predictions and rest of the specification on the bits to come, continued with zeros only if they end; a suspended call changes no saved state |
| SequentialDecoder.Decoder.DecodeMcu | codes/ubuntu-project/jpeg/jpeg-9a/jdhuff.c:1070-1190 | a restart where one is due and then the blocks; a suspended call has the restart still before it, or just behind it |
| SequentialPasses.GatherScan | codes/ubuntu-project/jpeg/jpeg-9a/jchuff.c:1193-1222 | the counts of a whole scan are those of the symbols that the output pass emits in all its intervals |
| SequentialPasses.EncodeScan | codes/ubuntu-project/jpeg/jpeg-9a/jchuff.c:1012-1063 | the tokens of every interval of a scan, or failure exactly on a value out of range |
| SequentialPasses.ScanCountable | codes/ubuntu-project/jpeg/jpeg-9a/jchuff.c:1393-1440 | every table that a scan uses, AC tables only if there are AC coefficients, has statistics fit for the optimal table routine, but for their total |
| SequentialReading.DecodingProceeds | codes/ubuntu-project/jpeg/jpeg-9a/jdhuff.c:650-681 | a restart ends one interval with what its bits said and starts the next where the marker reader has gone on |
| SequentialReading.DecodingMcu | codes/ubuntu-project/jpeg/jpeg-9a/jdhuff.c:1070-1190 | a decoder that has followed the bits found at the start of an interval, or has run out of them, does so one MCU further |
| SequentialReading.DataEnd | codes/ubuntu-project/jpeg/jpeg-9a/jdhuff.c:1070-1190 | when the data do not hold the next MCU, all MCUs before it are in the data, and no longer run of MCUs can be read |
| SequentialReading.DecodeScan | codes/ubuntu-project/jpeg/jpeg-9a/jdhuff.c:1070-1190 | from any bytes that suffice, in any pieces: an interval that does not start before a marker, and for which the bits found at its start suffice, has the MCUs that they say; if all intervals are like that there is no warning, and if there is no warning all have the MCUs that their bits say; wherever data run out, the MCUs before are in the data and those after the one where they end are zero; failure exactly for an illegal table |
| SequentialPasses.IntervalKept | codes/ubuntu-project/jpeg/jpeg-9a/jdhuff.c:1070-1190 | an interval whose bits are found, whatever bits follow them, comes back as far as it is kept |
| SequentialPasses.OutputScan | codes/ubuntu-project/jpeg/jpeg-9a/jchuff.c:1012-1103 | with tables made from the statistics no emitted symbol lacks a code, and the bytes carry the tokens of every interval |
| SequentialPasses.DecodeReceived | codes/ubuntu-project/jpeg/jpeg-9a/jdmarker.c:1293-1386 | after an interval's data are replaced, one or two restart markers are lost, there is a marker too many or a wrong one, or the file breaks off, every interval that the damage does not concern comes back as far as it is kept |
| SequentialPasses.OptimisedSequential | codes/ubuntu-project/jpeg/jpeg-9a/jchuff.c:1393-1440 | for any block size and restart interval: statistics pass, optimal tables, output pass to bytes, any marker, input in any pieces, decoder: no emitted symbol lacks a code, there is no warning, and every in-range block comes back as far as it is kept; the only failure needs a table with at least 9227465 counts |
| RestartStream.StreamIs | codes/ubuntu-project/jpeg/jpeg-9a/jchuff.c:493-512 | whole segments with their restart markers, one more segment and the final marker are the bytes of the scan |
| RestartStream.NumAfterIs | codes/ubuntu-project/jpeg/jpeg-9a/jchuff.c:1051-1059 | restart markers are numbered in turn, modulo 8 |
| RestartStream.FlatParts | codes/ubuntu-project/jpeg/jpeg-9a/jchuff.c:1051-1059 | cutting a scan into restart intervals loses no MCU and keeps their order |
| RestartStream.PartsAfter | codes/ubuntu-project/jpeg/jpeg-9a/jchuff.c:1051-1059 | after whole intervals, the MCUs that follow are cut into intervals as if they stood alone |
| RestartReader.NextMarker | codes/ubuntu-project/jpeg/jpeg-9a/jdmarker.c:1010-1050 | the next marker that a reader of data would stop at, and the input after it; a suspended call has skipped only what was to be skipped |
| RestartReader.ResyncToRestart | codes/ubuntu-project/jpeg/jpeg-9a/jdmarker.c:1342-1386 | the position that the three actions lead to, decided anew at each marker, of which the rows of RestartRecovery say what it achieves; a suspended call will end up there too |
| RestartReader.ReadRestartMarker | codes/ubuntu-project/jpeg/jpeg-9a/jdmarker.c:1263-1290 | past the expected marker, or to where resynchronisation leads; a suspended call will end up there too |
| RestartReader.RestartInput | codes/ubuntu-project/jpeg/jpeg-9a/jdhuff.c:650-681 | left-over bits are thrown away, the reader stands at the start of the next segment, and the flag about missing data is kept exactly where it stands before a marker |
| RestartIntervals.IntactBits | codes/ubuntu-project/jpeg/jpeg-9a/jdmarker.c:1263-1290 | in an intact stream a decoder finds at the start of each interval exactly its bits, however much of those before it has read |
| RestartRecovery.LostMarkers | codes/ubuntu-project/jpeg/jpeg-9a/jdmarker.c:1356-1360 | in a stream that lacks one restart marker, or two in a row, a decoder finds the data that were run together in place of the first of their intervals, nothing in place of the others, and every other interval where it should |
| RestartRecovery.TooManyLost | codes/ubuntu-project/jpeg/jpeg-9a/jdmarker.c:1364-1365 | after the loss of three to five markers in a row the decoder goes on at once and stays out of step: in place of each later interval it finds the one that is so many later |
| RestartRecovery.StrayMarker | codes/ubuntu-project/jpeg/jpeg-9a/jdmarker.c:1351-1363 | a restart marker one or two behind the one that is due, or an invalid marker code, with any data after it, is passed over: each interval is found where it should be |
| RestartRecovery.WrongMarker | codes/ubuntu-project/jpeg/jpeg-9a/jdmarker.c:1350-1366 | if the restart marker after an interval is another marker, that interval and those before it are found, and those after it but for three if it is two ahead, two if one ahead, one if it is passed over, and none if it is too far away; a marker that ends the scan costs all after it |
| DamagedStream.DamageContained | codes/ubuntu-project/jpeg/jpeg-9a/jdmarker.c:1293-1386 | whether an interval's data are replaced, one or two restart markers are lost, there is a marker too many or a wrong one, or the file breaks off and is ended by an end-of-image marker, a decoder finds every interval that this does not concern, and input enough for all of them |
| ContextPointers.PhysSwapped | codes/ubuntu-project/jpeg/jpeg-9a/jdmainct.c:72-92 | the last two row groups of one list are the spare ones of the other |
| ContextPointers.KeptForNext | codes/ubuntu-project/jpeg/jpeg-9a/jdmainct.c:65-92 | reading an iMCU row through one list leaves in the spare groups of the other what the next row needs |
| ContextPointers.ShowsPostponed | codes/ubuntu-project/jpeg/jpeg-9a/jdmainct.c:426-447 | the last row group of the iMCU row before, and the rows around it, are seen at index M + 1 of the other list |
| ContextPointers.ShowsBottom | codes/ubuntu-project/jpeg/jpeg-9a/jdmainct.c:262-300 | after the last real row is duplicated, positions beyond it show that row |
| ContextPointers.MakeFunnyPointers | codes/ubuntu-project/jpeg/jpeg-9a/jdmainct.c:195-235 | the two lists, with the last four row groups of the second swapped, in their top-of-image state |
| ContextPointers.SetWraparound | codes/ubuntu-project/jpeg/jpeg-9a/jdmainct.c:238-263 | a list becomes wrapped at both ends |
| ContextPointers.SetBottomPointers | codes/ubuntu-project/jpeg/jpeg-9a/jdmainct.c:266-300 | two row groups after the last real row duplicate it, and the nondummy row groups are counted |
| ContextController.InnerReady | codes/ubuntu-project/jpeg/jpeg-9a/jdmainct.c:419-440 | all but the last row group of an iMCU row are seen with the right rows around them |
| ContextController.BottomReady | codes/ubuntu-project/jpeg/jpeg-9a/jdmainct.c:419-440 | so are all nondummy row groups of the last iMCU row |
| ContextController.PostponedReady | codes/ubuntu-project/jpeg/jpeg-9a/jdmainct.c:405-418 | so is the postponed row group |
| ContextController.MainController.ProcessDataContextMain | codes/ubuntu-project/jpeg/jpeg-9a/jdmainct.c:385-448 | any call keeps the whole state invariant and only adds row groups, in order, each with the row above and the row below clamped to the image; a call that finds data and swallows something makes progress |
| ContextController.PresentImage | codes/ubuntu-project/jpeg/jpeg-9a/jdmainct.c:385-448 | for any schedule of calls what the postprocessor has seen is a prefix of the image's row groups with clamped context, and all of it if every call can do something |
| PrepContext.CreateContextBuffer | codes/ubuntu-project/jpeg/jpeg-9a/jcprepct.c:266-310 | the list of five row groups shows the three of the ring with both ends wrapped around |
| PrepContext.PrepController.PreProcessContext | codes/ubuntu-project/jpeg/jpeg-9a/jcprepct.c:196-260 | any call keeps the invariant of ring, counters and rows seen, takes input only from what is offered, adds row groups in order, and stops only for lack of output space or of input |
| PrepContext.DownsampleImage | codes/ubuntu-project/jpeg/jpeg-9a/jcprepct.c:196-260 | for any schedule of calls the downsampler is handed the image's row groups in order, each with the rows above and below clamped to the image; calls that can do something make progress, and rows not yet used are at most two row groups |
| McuOrder.SizesFit | codes/ubuntu-project/jpeg/jpeg-9a/jcmaster.c:318-345 | a component's width in blocks, computed from the image size, covers all MCUs but a part of the last |
| McuOrder.StreamExtends | codes/ubuntu-project/jpeg/jpeg-9a/jccoefct.c:143-222 | what is sent before any position is a prefix of the whole stream of MCUs |
| McuOrder.RowsAt | codes/ubuntu-project/jpeg/jpeg-9a/jccoefct.c:169-205 | the blocks of a component in an MCU come row by row, those of the image as they are |
| McuOrder.DummyRepeats | codes/ubuntu-project/jpeg/jpeg-9a/jccoefct.c:163-200 | a dummy block has no AC coefficients and the DC value of the block that is sent before it |
| McuOrder.BlockSent | codes/ubuntu-project/jpeg/jpeg-9a/jccoefct.c:143-222 | every block of every component of a scan is in the stream of MCUs, interleaved or not |
| CoefControllers.RowFromInput | codes/ubuntu-project/jpeg/jpeg-9a/jccoefct.c:158-206 | one block row of an MCU from freshly transformed blocks, with dummy blocks at the right edge and below the image that repeat the DC value before them |
| CoefControllers.RowFromArray | codes/ubuntu-project/jpeg/jpeg-9a/jccoefct.c:375-383 | one block row of an MCU from a padded virtual array is the same row |
| CoefControllers.RowTranscoded | codes/ubuntu-project/jpeg/jpeg-9a/jctrans.c:304-331 | one block row of an MCU from an array without padding, with dummy blocks from a zero buffer whose DC value is set, is the same row |
| CoefControllers.CoefController.CompressImcuRow | codes/ubuntu-project/jpeg/jpeg-9a/jccoefct.c:143-222 | wherever the entropy coder suspends, the MCUs sent are those before the saved position, and the next call goes on there |
| CoefControllers.CoefController.CompressFirstPass | codes/ubuntu-project/jpeg/jpeg-9a/jccoefct.c:248-345 | padding one iMCU row of the virtual arrays and coding it leaves all other rows able to serve later passes |
| CoefControllers.SameStream | codes/ubuntu-project/jpeg/jpeg-9a/jccoefct.c:143-345 | single-pass coding, the first pass, later passes and the transcoder send the same MCUs in the same order, whenever each of them is suspended |
| ScanScript.AcceptedIsClean | codes/ubuntu-project/jpeg/jpeg-9a/jdhuff.c:1328-1372 | if both sides have tracked the same bit positions, an accepted rest of a script, cut down to the block size, passes every fatal check and raises no warning |
| ScanScript.ScriptsAgree | codes/ubuntu-project/jpeg/jpeg-9a/jdhuff.c:1328-1372 | any progressive script that the compressor accepts, reduced to any block size, is accepted by the decompressor without warning |
| ScanScript.NoWarning | codes/ubuntu-project/jpeg/jpeg-9a/jdhuff.c:1361-1371 | without an error, a component draws no warning exactly if DC was sent before AC, coefficients not yet known are sent in a first scan, those known down to a bit position with the bit below it, and those known to the last bit from the start |
| ScanScript.CleanIsAccepted | codes/ubuntu-project/jpeg/jpeg-9a/jcmaster.c:404-457 | with parameters in their ranges, the compressor accepts exactly the scripts that the decompressor takes without a warning and that send no coefficient again |
| ScanScript.ReducedSendsTheSame | codes/ubuntu-project/jpeg/jpeg-9a/jcmaster.c:486-516 | the reduced script sends the same of all coefficients that there are, and no others |
| ScanScript.SequentialScriptsAgree | codes/ubuntu-project/jpeg/jpeg-9a/jdhuff.c:1412-1420 | a sequential script, reduced to any block size, still sends the same components, each scan with the whole block at bit position 0, and no scan of it draws the decompressor's warning |
| ScanScriptRoutines.ValidateScript | codes/ubuntu-project/jpeg/jpeg-9a/jcmaster.c:351-484 | the kind of script is told by its first scan; a progressive one is accepted exactly if components are in order, ranges hold, every coefficient is sent from some position down bit by bit, no AC precedes its DC, and DC data is sent for every component; a sequential one exactly if each component is sent in exactly one scan with the fixed parameters |
| ScanScriptRoutines.ReduceScript | codes/ubuntu-project/jpeg/jpeg-9a/jcmaster.c:486-516 | in place, the scans that are not beyond the block, each cut at its end |
| ScanScriptRoutines.CheckScan | codes/ubuntu-project/jpeg/jpeg-9a/jdhuff.c:1328-1372 | one warning for each component whose AC comes before its DC and for each coefficient that is not at the bit position Ah; neither an error nor a warning exactly if the parameters are consistent and every coefficient of the band follows what has been sent of it: unknown ones in a first scan, known ones with the next bit, AC after DC; and the tracked positions brought up to date |
| ScanScriptRoutines.SimpleProgression | codes/ubuntu-project/jpeg/jpeg-9a/jcparam.c:597-673 | the space computed in advance is filled exactly, with the scans of the recommended script in order |
| ScanScriptRoutines.GeneralAccepted | codes/ubuntu-project/jpeg/jpeg-9a/jcparam.c:662-672 | the all-purpose script is accepted for any number of components and sends every coefficient to its last bit |
| ScanScriptRoutines.YccAccepted | codes/ubuntu-project/jpeg/jpeg-9a/jcparam.c:639-661 | so is and does the script for luminance-chrominance images |
| ScanScriptRoutines.RecommendedScriptIsSound | codes/ubuntu-project/jpeg/jpeg-9a/jcparam.c:597-673 | for 1 to 10 components the recommended script passes the compressor's check, ends with every coefficient at position 0, at any block size, and passes the decompressor without warning |

## Left out

- Damage other than that of `DamagedStream.Damage`, such as bytes that turn into markers: what a decoder then finds is what `DecodeScan` of either reading module says about any bytes.
- Restart intervals given in MCU rows, the DRI marker, and restarts of the arithmetic coder: the restart interval is a parameter of the Huffman scans.
- Suspension of the encoders when the output buffer is full, and `dump_buffer`: output is a growing sequence.
- Coefficients that a suspended `decode_mcu` has left in a block that is not cleared before the next call, which outputs them again: each call starts from zero blocks.
- Warnings other than the one about a premature end of data, such as those about bad codes, skipped bytes and resynchronisation.
- The packing of the probability table into 32-bit words: its entries are written out as four fields.
- MCU coders of the arithmetic mode (`encode_mcu`, `decode_mcu` and their progressive forms), which choose the bins for the coder modelled here.
- Progressive DC scans, which send one difference or one bit per block.
- GenOptimalTable.GenOptimalTable: requires what its search and its byte-sized counters presuppose: a total of at most 1000000000 and between 1 and 254 used symbols. The coders meet the bounds on the symbols by themselves; only the total is left to their callers.
- Table slots: index range checks and missing tables before a derived table is built, and reuse of allocated tables.
- ProgressiveEncoder.Encoder.EncodeMcuACRefine: a missing code sets a sticky flag, after which the output is not specified, where the source leaves by an error exit.
- ContextController.PresentImage: one component; the lists of the components are filled in the same way and independently, and all are assumed to have the same number of row groups.
- Pointer lists are sequences of row numbers and not arrays of pointers, so that rows cannot be aliased by other means.
- The simple main controller, coefficient buffers, sample conversion, transforms, quantisation and colour.
- MCU buffers and virtual arrays are sequences of blocks, so that the aliasing of block pointers is not modelled; `pre_process_data`, which needs no context rows.
- Memory management, error manager, progress reports, and everything of the application around the library.

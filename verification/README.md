# Verification of the JPEG codec

This project models the bundled JPEG library (`lib/jpeg-6b-crop`, ITU-T T.81): Huffman entropy coding,
sequential and progressive, and what stands around it on the way from samples to bytes and back. It
proves that coders and decoders undo each other, from one coefficient to a whole image, and that the
controllers around them neither lose, repeat nor reorder anything, however the input arrives and
wherever the output stops.

How the model is built, bottom up:

* `Bits`, `BitWriter`, `BitReader`, `BitChannel`: bits and bytes. The writer is a class with the
  24-bit `put_buffer`; the reader is the 32-bit reservoir. What one writes the other reads.
* `HuffmanTables`, `DerivedTables`: canonical codes and the tables both sides derive from them.
* `HuffmanTree`, `HuffmanOptimal`, `OptimalTable`: generation of optimal tables.
* `Coefficients`, `NaturalOrder`: point transforms, magnitude coding, zigzag storage.
* `Coding`: what the encoders emit, as tokens (a Huffman symbol or a field of bits). This is the
  specification that `McuEncoder` (the C routines as a class) is proved equal to, both for the
  statistics pass and for the output pass.
* `Decoding`, `McuDecoding`: the decoding routines as one machine that asks for a symbol or for
  bits, the restart logic around it, and the state saved between MCUs. `McuDecoder` holds the C routines
  as a class working in place on block arrays, each proved equal to `McuDecoding.DecodeMcu`.
* `TokenRoundTrip`, `BandRoundTrip`, `SegmentRoundTrip`, `TokenBits`, `ScanRoundTrip`: the decoder undoes the
  encoder, from one coefficient to a whole scan with restart intervals.
* `RunGroups`: the encoder's end-of-band runs are the longest possible.
* `EndOfData`, `ErrorConfinement`: what the decoder makes of any data at all, and that restart markers confine
  damage and loss to the intervals concerned.
* `Suspension`: however the input arrives, retries are invisible.
* `ScanCodec`, `TwoPass`: passes over a scan; statistics and output agree; optimal tables are generated,
  accepted by both sides and sufficient; what is written is restored.
* `ScanScripts`, `SimpleProgression`, `ScriptRoundTrip`: scripts, and the theorem for all scans of any
  accepted script.
* `Frames`, `McuGeometry`, `McuLayout`: images as arrays of blocks, their sizes, and the order in which a
  scan visits them, each block once.
* `DummyBlocks`, `McuFilling`, `EncoderFeed`, `TransCoder`, `CoefController`: padding blocks, and the
  coefficient controllers of the transcoder and of the compressor, which send the same MCUs.
* `CoefConsumer`, `ImageRoundTrip`: decoding into coefficient arrays, and the theorems for whole images.
* `ContextRows`, `MainController`, `OutputSizes`: the row lists that give the upsampler rows of
  context, the state machine above them, and why all components agree on the number of row groups.
* `PrepContext`: the ring that gives the downsampler rows of context, and the compression main controller.
* `ForwardDct`, `DctAccuracy`, `SampledImage`: the integer DCT and the quantiser, their exact ranges, how far they
  are from the cosine sums, and why the coders never refuse a value that comes from them.
* `PassControl`: the passes of a compression run.
* `MarkerSegments`, `SegmentLayout`, `SegmentGrammar`, `MarkerWriter`, `MarkerReader`, `HeaderRoundTrip`: frame and
  scan headers, byte by byte, written and read.
* `TableExchange`, `FileFormat`, `FileWriter`, `FileReader`, `FileRoundTrip`: whole files. Every scan gets its own
  optimal tables, its headers announce them, its data follow; the reader derives its tables from what has
  arrived, decodes into arrays that it has made for the image, and goes on at the marker where the decoder stops.

Conventions. Blocks are in zigzag order in the specifications; the classes hold them in natural order.
An error exit of the library is a failure result. The data source is a byte sequence of which a
growing prefix has arrived. Numbers that C keeps in 16 or 32 bits are wrapped explicitly where a
value can leave its range (`JCOEF` stores, the reservoir, `put_buffer`, the byte counts of
the table generator), or are of a bounded type (the DCT). A scan names its tables by slots of one table
list; for a sequential scan the list holds the DC and the AC tables, in different slots. The total count
of the symbols of a table is at most 10^9, the search sentinel of the table generator. `long` has 64 bits. In the
theorems about whole files, per_scan_setup has accepted every scan. Sample rows are represented by their numbers in the image, which shows which row is where.

Where the code and its documentation disagree, the model follows the code. `jdmainct.c:53-60` promises a
whole row group of context, made up at the bottom by repeating the last real row; the row group before the
last iMCU row is handed on before that happens, and can show padding rows as its context
(`OutputSizes.PaddingShows`; `MainController.ContextExact` says exactly when, for every finished run). The one
row of context that the upsamplers need is always right.

## Model

| member | source | states |
|---|---|---|
| `BitWriter.BitWriter.EmitBits` | lib/jpeg-6b-crop/jcphuff.c:228-262 | appends exactly the low `size` bits to the segment, whatever earlier calls left pending; the bytes out are the complete bytes, each FF followed by 00; reports a symbol without a code exactly when size is 0 |
| `BitWriter.BitWriter.FlushBits` | lib/jpeg-6b-crop/jchuff.c:340-347 | the segment's bits, padded with ones to a byte and stuffed, are out, and nothing is pending |
| `BitWriter.PackTail` | lib/jpeg-6b-crop/jchuff.c:311-335 | a bit string splits into its complete bytes and a tail that alone decides the rest of the output |
| `BitWriter.KnownByte` | lib/jpeg-6b-crop/jchuff.c:340-347 | bits are packed from the most significant end and the last byte is filled up with ones: 101 gives BF |
| `DerivedTables.MakeCDerived` | lib/jpeg-6b-crop/jchuff.c:179-264 | accepts a table exactly when its counts are legal and its symbols are in range and distinct, and then gives each listed symbol its canonical code and no other symbol a code |
| `DerivedTables.MakeDDerived` | lib/jpeg-6b-crop/jdhuff.c:149-266 | accepts a table exactly when its counts are legal (DC symbols at most 15); maxcode, valoffset and both lookahead tables describe the canonical code, for every length and every 8-bit prefix |
| `DerivedTables.EncoderIsStricter` | lib/jpeg-6b-crop/jchuff.c:240-263 | the encoder accepts exactly the tables that the decoder accepts and in which no symbol is listed twice |
| `DerivedTables.ListCodes` | lib/jpeg-6b-crop/jchuff.c:220-238 | the code loop fails exactly when some length leaves no room for the all-ones code |
| `HuffmanTables.LegalIffKraft` | lib/jpeg-6b-crop/jchuff.c:210-238 | legal counts are exactly those of at most 256 symbols whose sum of bits[l]*2^-l is below 1 |
| `HuffmanTables.PrefixFree` | lib/jpeg-6b-crop/jchuff.c:224-238 | no code of an accepted table starts another one |
| `HuffmanTables.CodeFits` | lib/jpeg-6b-crop/jchuff.c:231-236 | every code fits its length and none is all ones |
| `HuffmanTables.CodesAscend` | lib/jpeg-6b-crop/jchuff.c:220-238 | the procedure of section C.2 of ITU-T T.81: the first code is all zeros, each further one its predecessor plus one, with zeros appended if it is longer |
| `BitReader.FillBitBuffer` | lib/jpeg-6b-crop/jdhuff.c:292-389 | the 32-bit accumulator loop computes Fill: it stops at 25 bits, at a marker, or for want of input, in which case nothing changes |
| `BitReader.TakeBits` | lib/jpeg-6b-crop/jdhuff.h:114-139 | CHECK_BIT_BUFFER and GET_BITS return the next bits of the reservoir |
| `BitReader.HuffDecode` | lib/jpeg-6b-crop/jdhuff.h:172-196 | the HUFF_DECODE macro, with its lookahead and slow paths, computes GetSym |
| `BitReader.HuffDecodeLong` | lib/jpeg-6b-crop/jdhuff.c:398-433 | jpeg_huff_decode computes SlowSym; the sentinel stops it on garbage after 16 bits |
| `BitChannel.FillKeepsFuture` | lib/jpeg-6b-crop/jdhuff.c:292-389 | refilling never changes which bits are still to come, and it stops exactly at the marker |
| `BitChannel.BitsRead` | lib/jpeg-6b-crop/jdhuff.h:138-139 | GET_BITS returns the bits that were written |
| `BitChannel.SymRead` | lib/jpeg-6b-crop/jdhuff.h:176-196 | if the bits to come start with a symbol's code word, HUFF_DECODE returns that symbol and consumes its word, by either path |
| `BitChannel.OneCode` | lib/jpeg-6b-crop/jdhuff.c:234-251 | at most one code word starts a given bit string, so the lookahead entry is the right one |
| `BitChannel.PaddingIsNoCode` | lib/jpeg-6b-crop/jchuff.c:340-347 | the bits that fill up the last byte are ones, fewer than eight, and no code word of any legal table starts there |
| `EndOfData.BitsAlways` | lib/jpeg-6b-crop/jdhuff.c:355-389 | on any data before a marker, damaged or short, GET_BITS gives the next bits, continued with zeros, and the data is found insufficient exactly when bits were missing |
| `EndOfData.SymAlways` | lib/jpeg-6b-crop/jdhuff.c:398-433 | on any data before a marker HUFF_DECODE gives the symbol whose code word comes next, zeros continuing the data, or 0 after 17 bits if these start with no code word; insufficient data are found exactly when bits were missing |
| `Coefficients.ExtendMag` | lib/jpeg-6b-crop/jdhuff.c:441-459 | HUFF_EXTEND undoes the magnitude coding of every nonzero value |
| `Coefficients.DcRefined` | lib/jpeg-6b-crop/jdphuff.c:465-474 | one DC refinement bit takes the level at Al+1 to the level at Al |
| `Coefficients.AcRefined` | lib/jpeg-6b-crop/jdphuff.c:566-579 | one correction bit, or one new sign, takes the AC level at Al+1 to the level at Al, negative values and 16-bit wrap included |
| `Coding.LastNew` | lib/jpeg-6b-crop/jcphuff.c:646-661 | EOB is the last newly nonzero coefficient, 0 if there is none |
| `Coding.CodedRange` | lib/jpeg-6b-crop/jchuff.c:371-380 | the coders refuse exactly the AC values of magnitude 1024 or more and the DC differences of magnitude 2048 or more |
| `Coding.KnownSymbols` | lib/jpeg-6b-crop/jcphuff.c:316-339 | examples: DC difference -3 is category 2; -2 after two zeros is 0x22; a ZRL goes before a run of eighteen; runs of 1, 4 and 32767 blocks are 0x00, 0x20 and 0xE0 |
| `Coding.PredictionIs` | lib/jpeg-6b-crop/jchuff.c:495-507 | the prediction of a block is the DC value of the last block before it of the same component, and 0 at the start of a segment |
| `Decoding.FeedOk` | lib/jpeg-6b-crop/jdhuff.c:542-615 | every step of a decoding routine keeps its state well-formed and makes progress, also on garbage, so decoding an MCU terminates |
| `Decoding.SymInTable` | lib/jpeg-6b-crop/jdhuff.c:398-433 | whatever the input, a decoded symbol is a listed one, or 0 for an invalid code |
| `TokenRoundTrip.McuDecodes` | lib/jpeg-6b-crop/jdhuff.c:517-627 | the tokens of an MCU of a sequential or DC scan decode to its blocks and to the encoder's predictions |
| `TokenRoundTrip.AcRun` | lib/jpeg-6b-crop/jcphuff.c:489-544 | the coefficient loop of a band, zero runs and ZRLs included, is undone by the decoder's loop |
| `BandRoundTrip.RefineRun` | lib/jpeg-6b-crop/jcphuff.c:617-738 | one AC refinement block: ZRLs, new coefficients and buffered correction bits put the decoder in step at every coefficient |
| `BandRoundTrip.BandDecodes` | lib/jpeg-6b-crop/jdphuff.c:490-625 | a band that starts an end-of-band run decodes to the block at level Al and leaves the rest of the run pending |
| `BandRoundTrip.BandInRun` | lib/jpeg-6b-crop/jdphuff.c:583-607 | a block inside an end-of-band run decodes from its correction bits alone |
| `SegmentRoundTrip.SegRunBounded` | lib/jpeg-6b-crop/jcphuff.c:726-736 | between MCUs EOBRUN is below 0x7FFF and at most 937 correction bits are buffered |
| `SegmentRoundTrip.SegDecodes` | lib/jpeg-6b-crop/jcphuff.c:315-339 | for every continuation of the pending run, the tokens of a segment so far decode to all its blocks, across end-of-band runs and deferred correction bits |
| `RunGroups.BandMeans` | lib/jpeg-6b-crop/jcphuff.c:646-723 | a block has tokens of its own exactly if it has a coefficient to send, takes part in an end-of-band run exactly if it does not end with one, and then brings the correction bits behind its last new coefficient, in order |
| `RunGroups.RunsAreMaximal` | lib/jpeg-6b-crop/jcphuff.c:541-545 | in every restart segment the blocks fall into groups that share one end-of-band run each, and a run is followed by a block with a coefficient to send or by the end of the segment, unless it has 0x7FFF blocks or more than 937 correction bits; no run is longer |
| `RunGroups.EmptyBlocks` | lib/jpeg-6b-crop/jcphuff.c:696-722 | a segment of up to 0x7FFF blocks without coefficients is the tokens of one run |
| `RunGroups.NoIdleZeros` | lib/jpeg-6b-crop/jcphuff.c:663-681 | zeros at the end of a band are left to the end-of-band: the last symbol of a block's own tokens is that of a coefficient, not a ZRL |
| `TokenBits.BitsDecode` | lib/jpeg-6b-crop/jdhuff.h:138-196 | the decoder reads from the bit stream exactly what it would read from the tokens |
| `McuDecoding.NextMarkerIsFirst` | lib/jpeg-6b-crop/jdmarker.c:874-913 | next_marker skips garbage, fill bytes and stuffed zeros and nothing else: what it finds is the first marker, and if it has to wait there is none yet |
| `ScanRoundTrip.RunSplits` | lib/jpeg-6b-crop/jcphuff.c:347-368 | a restart happens exactly at the start of each restart interval and leaves the encoder as at the start of the scan |
| `ScanRoundTrip.RestartStep` | lib/jpeg-6b-crop/jdphuff.c:228-260 | at the end of an interval the decoder finds the expected RSTn next and restarts on the following segment |
| `ScanRoundTrip.ScanDecodes` | lib/jpeg-6b-crop/jchuff.c:353-552 | for any tables with the needed codes, any restart interval and any MCUs in range, sequential or one progressive scan: decoding the bytes written gives every block its coefficients down to bit Al, with no warning, and stops at the following marker |
| `ScanRoundTrip.RestartNumbers` | lib/jpeg-6b-crop/jcphuff.c:347-368 | the restart markers of a scan are D0, D1 and so on, and D0 follows D7 |
| `ErrorConfinement.DamageIsConfined` | lib/jpeg-6b-crop/jdmarker.c:1113-1234 | whatever bytes stand in place of those of some restart intervals, and even if intervals are missing together with their markers, no more than two in a row: the scan decodes to its end without suspending, and every MCU of every intact interval comes back as it was coded |
| `ErrorConfinement.Recovers` | lib/jpeg-6b-crop/jdphuff.c:228-260 | wherever in an interval the decoder stands, and in whatever state: at the expected restart marker it starts afresh |
| `ErrorConfinement.KeepsMarker` | lib/jpeg-6b-crop/jdmarker.c:1204-1209 | a restart marker of one of the next two intervals, or a marker that is none, stays unread, and the decoder is forced through an empty interval |
| `ErrorConfinement.StaleMarkers` | lib/jpeg-6b-crop/jdmarker.c:1202-1212 | restart markers of the two intervals before, and invalid markers, are skipped with the data behind them up to the expected one |
| `ErrorConfinement.NothingDecoded` | lib/jpeg-6b-crop/jdphuff.c:378-432 | once the data of an interval is used up, the blocks of its remaining MCUs stay as they are, except in DC refinement scans |
| `Suspension.SuspFlags` | lib/jpeg-6b-crop/jdhuff.c:340-352 | a routine that suspends has met no marker, so setting the marker field early is safe |
| `Suspension.CorrectTwice` | lib/jpeg-6b-crop/jdphuff.c:566-576 | the p1 test makes correcting twice the same as correcting once, for every nonzero 16-bit value and sign |
| `Suspension.RetryRefine` | lib/jpeg-6b-crop/jdphuff.c:525-632 | after undoit, the retried refinement MCU reaches the point of suspension in the same state |
| `Suspension.RetryIsTransparent` | lib/jpeg-6b-crop/jdphuff.c:490-633 | any decode_mcu routine: a completed call is the same with more input, and a suspended call followed by a retry equals one uninterrupted call, restart processing and resynchronisation included |
| `Suspension.PiecesDecodeWhole` | lib/jpeg-6b-crop/jdphuff.c:276-283 | for every schedule of arrivals, on any input, the outcome is that of an uninterrupted run, failure included |
| `NaturalOrder.OrdersInverse` | lib/jpeg-6b-crop/jutils.c:53-64 | jpeg_natural_order is a permutation, inverse to the zigzag table |
| `NaturalOrder.ZigzagWalk` | lib/jpeg-6b-crop/jutils.c:53-64 | the order is the zigzag: it starts at row 0 and column 0, goes up and to the right on even diagonals, down and to the left on odd ones, and along the edge where a diagonal ends |
| `NaturalOrder.StoreZigzag` | lib/jpeg-6b-crop/jutils.c:35-65 | storing through the table changes exactly one zigzag position, the spare entries the last one |
| `McuDecoder.EntropyDecoder.FindMarker` | lib/jpeg-6b-crop/jdmarker.c:874-913 | next_marker computes NextMarker, giving bytes up one at a time |
| `McuDecoder.EntropyDecoder.ResyncToRestart` | lib/jpeg-6b-crop/jdmarker.c:1192-1245 | jpeg_resync_to_restart computes Resync |
| `McuDecoder.EntropyDecoder.ReadRestartMarker` | lib/jpeg-6b-crop/jdmarker.c:1113-1144 | read_restart_marker computes ReadRestart and counts the restart number modulo 8 |
| `McuDecoder.EntropyDecoder.DoRestart` | lib/jpeg-6b-crop/jdphuff.c:228-260 | process_restart computes ProcessRestart |
| `McuDecoder.UndoNew` | lib/jpeg-6b-crop/jdphuff.c:627-632 | undoit zeroes exactly the newly nonzero coefficients, through their natural-order positions |
| `McuDecoder.EntropyDecoder.DecodeMcuSequential` | lib/jpeg-6b-crop/jdhuff.c:517-627 | decode_mcu, in place on the block arrays, computes DecodeMcu: completion or suspension, saved state and blocks |
| `McuDecoder.EntropyDecoder.DecodeMcuDcFirst` | lib/jpeg-6b-crop/jdphuff.c:286-348 | decode_mcu_DC_first computes DecodeMcu |
| `McuDecoder.EntropyDecoder.DecodeMcuAcFirst` | lib/jpeg-6b-crop/jdphuff.c:357-432 | decode_mcu_AC_first computes DecodeMcu |
| `McuDecoder.EntropyDecoder.DecodeMcuDcRefine` | lib/jpeg-6b-crop/jdphuff.c:442-483 | decode_mcu_DC_refine computes DecodeMcu |
| `McuDecoder.EntropyDecoder.DecodeMcuAcRefine` | lib/jpeg-6b-crop/jdphuff.c:491-633 | decode_mcu_AC_refine, rollback included, computes DecodeMcu |
| `McuDecoder.EntropyDecoder.DecodeMcu` | lib/jpeg-6b-crop/jdphuff.c:148-158 | the routine selected at the start of the pass computes DecodeMcu |
| `McuEncoder.EntropyEncoder.EmitSymbol` | lib/jpeg-6b-crop/jcphuff.c:281-290 | emit_symbol counts the symbol or emits its code, and fails exactly when an output pass has no code for it |
| `McuEncoder.EntropyEncoder.EmitEobrun` | lib/jpeg-6b-crop/jcphuff.c:316-339 | emit_eobrun writes the pending run, then the buffered correction bits, and empties both |
| `McuEncoder.EntropyEncoder.EmitRestart` | lib/jpeg-6b-crop/jcphuff.c:347-368 | emit_restart closes the segment, writes RSTn and resets predictions and run state |
| `McuEncoder.EntropyEncoder.CountEob` | lib/jpeg-6b-crop/jcphuff.c:546-550 | an end-of-band is counted and forced out at 0x7FFF blocks or above 937 bits, so the 1000-entry buffer always suffices; that runs are then the longest possible is RunGroups.RunsAreMaximal |
| `McuEncoder.EntropyEncoder.DcFirstBody` | lib/jpeg-6b-crop/jcphuff.c:395-441 | the block loop of encode_mcu_DC_first emits the tokens of Coding and fails exactly when a difference is out of range or a code is missing |
| `McuEncoder.EntropyEncoder.AcFirstBody` | lib/jpeg-6b-crop/jcphuff.c:483-550 | the same for encode_mcu_AC_first |
| `McuEncoder.EntropyEncoder.DcRefineBody` | lib/jpeg-6b-crop/jcphuff.c:588-594 | the same for encode_mcu_DC_refine, which never fails |
| `McuEncoder.EntropyEncoder.AcRefineBody` | lib/jpeg-6b-crop/jcphuff.c:640-723 | the same for encode_mcu_AC_refine, correction bits appended at BE in a 1000-entry array |
| `McuEncoder.EntropyEncoder.EncodeOneBlock` | lib/jpeg-6b-crop/jchuff.c:353-443 | encode_one_block emits the block's tokens and fails exactly when a value is out of range or a code is missing |
| `McuEncoder.EntropyEncoder.EncodeMcu` | lib/jpeg-6b-crop/jcphuff.c:377-455 | one MCU, restart handling included, takes the encoder to Encode of its state; bytes out or counts follow |
| `McuEncoder.EntropyEncoder.FinishPass` | lib/jpeg-6b-crop/jcphuff.c:746-759 | after finish_pass the output is exactly the bytes of all segments with their restart markers |
| `McuEncoder.EntropyEncoder.FinishPassGather` | lib/jpeg-6b-crop/jcphuff.c:767-778 | after the last run is counted, each count is the number of uses of its symbol |
| `McuEncoder.MagnitudeSent` | lib/jpeg-6b-crop/jcphuff.c:408-441 | the bits taken from the two's-complement value are the magnitude bits that HUFF_EXTEND expects |
| `ScanCodec.GatherScan` | lib/jpeg-6b-crop/jchuff.c:645-673 | a statistics pass fails exactly when a value is out of range; otherwise the counts are the numbers of uses of each symbol |
| `ScanCodec.OutputScan` | lib/jpeg-6b-crop/jchuff.c:476-552 | an output pass fails exactly when a value is out of range or a symbol lacks a code; otherwise exactly the bytes of the scan are written, and if the decoder accepts the tables it restores the scan from them |
| `ScanCodec.OutputRestored` | lib/jpeg-6b-crop/jdhuff.c:517-627 | what an output pass writes behind any bytes, with any marker and any bytes after it, decodes without warning to the targets of all blocks and stops at that marker |
| `ScanCodec.OptimizedOutputSucceeds` | lib/jpeg-6b-crop/jchuff.c:846-880 | with the tables generated from the counts, the output pass over the same MCUs never meets a missing code |
| `ScanCodec.UsedSymbolsAreCounted` | lib/jpeg-6b-crop/jchuff.c:572-636 | every symbol that the output pass emits has a nonzero count in the statistics pass, is a byte, and belongs to a table that the scan uses |
| `ScanCodec.ScanInPieces` | lib/jpeg-6b-crop/jdhuff.c:503-514 | encoding then decoding any scan, whatever pieces its bytes arrive in, leaves every coefficient as the scan should |
| `HuffmanTree.BuildTree` | lib/jpeg-6b-crop/jchuff.c:730-776 | Huffman's procedure terminates with one tree of weight 1 holding all counted symbols; no code lengths that a prefix code can have cost less; a code of length n needs counts that add up to at least Fib(n+2); no code is longer than that of symbol 256 |
| `HuffmanTree.FindSmallest` | lib/jpeg-6b-crop/jchuff.c:733-754 | finds the smallest nonzero count, the larger symbol in case of ties |
| `HuffmanTree.WalkChain` | lib/jpeg-6b-crop/jchuff.c:763-775 | following `others` adds 1 to the length of every symbol of one tree, once, and of no other |
| `HuffmanTree.MergeForest` | lib/jpeg-6b-crop/jchuff.c:759-776 | merging two trees keeps every chain linked and every tree's weight at 1 |
| `HuffmanTree.MergePseudo` | lib/jpeg-6b-crop/jchuff.c:726-760 | the choice of the larger symbol in case of ties keeps the pseudo-symbol deepest: no symbol is deeper, and its tree is found before any other of that depth |
| `HuffmanOptimal.MergeBound` | lib/jpeg-6b-crop/jchuff.c:728-776 | any prefix code lengths can be turned into lengths for the merged counts that are cheaper by both counts |
| `HuffmanOptimal.PrefixCodeLengths` | lib/jpeg-6b-crop/jchuff.c:728-776 | Kraft's inequality: the lengths of every prefix code have weights of at most 1 in total |
| `OptimalTable.CountLengths` | lib/jpeg-6b-crop/jchuff.c:778-788 | the length counts are bytes that never wrap, and are the numbers of symbols of each length; the error is raised exactly when a length exceeds 32 |
| `OptimalTable.DonorExists` | lib/jpeg-6b-crop/jchuff.c:803-806 | while a code is longer than 16 bits, a shorter code to become a prefix exists, so the search stays in bounds |
| `OptimalTable.LimitLengths` | lib/jpeg-6b-crop/jchuff.c:801-814 | limiting the lengths keeps the number of codes and a completely used code space; the longest codes give way: shorter ones than some length t are untouched, and of the lengths between t and 16 no more than two codes each are left; without a code above 16 bits nothing changes |
| `OptimalTable.DropPseudoSymbol` | lib/jpeg-6b-crop/jchuff.c:816-822 | one code of the greatest length in use goes, and no other; the counts are then legal and one fewer |
| `OptimalTable.ListSymbols` | lib/jpeg-6b-crop/jchuff.c:828-836 | lists exactly the symbols with a code, by length, then in increasing order |
| `OptimalTable.GenOptimalTable` | lib/jpeg-6b-crop/jchuff.c:705-838 | fails exactly when some Huffman length exceeds 32, which takes at least 9227464 symbols; otherwise the table is legal and lists exactly the counted symbols, each once, by Huffman length and then in increasing order; the lengths are shortest possible for the counts; the finished counts are those of the lengths, limited, without one of the greatest; and if no length exceeds 16 there are as many codes of each length as counted symbols with that Huffman length, and each has one of them |
| `OptimalTable.SentInOwnLength` | lib/jpeg-6b-crop/jchuff.c:705-838 | the derived table then codes every counted symbol in exactly as many bits as Huffman's procedure gave it |
| `OptimalTable.TableAccepted` | lib/jpeg-6b-crop/jchuff.c:179-264 | both derivation routines accept a generated table |
| `ScanScripts.ValidateScript` | lib/jpeg-6b-crop/jcmaster.c:130-261 | accepts exactly the scripts that are sequential with every component sent once, or progressive with every scan continuing where the last left off and every DC sent |
| `ScanScripts.StartPassCheck` | lib/jpeg-6b-crop/jdphuff.c:105-146 | reports an error exactly for bad parameters, warns exactly for an inconsistent scan, and records the progress |
| `ScanScripts.ChecksAgree` | lib/jpeg-6b-crop/jcmaster.c:202-224 | within the encoder's ranges, the encoder's check accepts exactly the scans that the decoder takes with no error and no warning and that resend nothing complete |
| `ScanScripts.ScriptDecodes` | lib/jpeg-6b-crop/jdphuff.c:129-146 | every accepted progressive script decodes with no error and no warning in any scan |
| `ScanScripts.ScriptLimits` | lib/jpeg-6b-crop/jcmaster.c:150-203 | the limits in numbers: point transforms up to 10, 13 for the decoder, and up to four components in a scan |
| `SimpleProgression.MakeSimpleProgression` | lib/jpeg-6b-crop/jcparam.c:537-608 | writes exactly num_scans entries within the space, which is used again exactly if it is large enough, and they are the default script |
| `SimpleProgression.SimpleProgressionIsComplete` | lib/jpeg-6b-crop/jcparam.c:574-607 | for any component count the default script is accepted and leaves every coefficient of every component at bit position 0 |
| `SimpleProgression.YccOrder` | lib/jpeg-6b-crop/jcparam.c:574-594 | the custom script: which of the ten scans sends which bit of which coefficient, each once: DC, the first five luma coefficients, chroma, the other luma coefficients, their next bit, the last bit of DC, of chroma, and of luma at the end |
| `SimpleProgression.AllPurposeOrder` | lib/jpeg-6b-crop/jcparam.c:595-607 | the other script, for any number of components: the same, pass after pass, the components one after the other within a pass, up to four together for DC |
| `ScriptRoundTrip.PassDecodes` | lib/jpeg-6b-crop/jdphuff.c:285-633 | one scan of an accepted script takes every coefficient of the image that it covers from its level to the next, whether the scan is interleaved or not and whatever earlier scans have left in the padding |
| `ScriptRoundTrip.PassesDecode` | lib/jpeg-6b-crop/jdphuff.c:285-633 | after any sequence of well-formed scans that continue each other, every coefficient of the image is known down to the last bit sent |
| `ScriptRoundTrip.SequentialComplete` | lib/jpeg-6b-crop/jcmaster.c:130-261 | an accepted sequential script, in any number of scans, sends every bit of every coefficient |
| `ScriptRoundTrip.LosslessIff` | lib/jpeg-6b-crop/jdphuff.c:285-633 | a coefficient comes back whatever its value if and only if all its bits have been sent |
| `ScriptRoundTrip.ScriptDecoded` | lib/jpeg-6b-crop/jcmaster.c:130-261 | any script that validate_script accepts: every coefficient of the image comes back down to the last bit sent, and all blocks unchanged if the script sends everything; DC scans of a component may be interleaved in one pass and alone in the next |
| `TwoPass.TableIsUsed` | lib/jpeg-6b-crop/jchuff.c:846-880 | a table that a scan of at least one MCU uses has a symbol with a nonzero count, so the generator never starts from nothing |
| `TwoPass.CountsAreGathered` | lib/jpeg-6b-crop/jchuff.c:704-727 | the counts of a statistics pass meet the demands of jpeg_gen_optimal_table: some symbol is counted, and never more than 254 |
| `TwoPass.GenerateTable` | lib/jpeg-6b-crop/jchuff.c:861-877 | from the counts of a statistics pass, table generation and both derivations succeed, unless a code exceeds 32 bits; the code lengths are those of a shortest code, limited, and if none is above 16 every symbol is sent in just as many bits |
| `TwoPass.OptimizeTables` | lib/jpeg-6b-crop/jchuff.c:846-880 | every table that the scan uses is generated once, from its own counts; the other tables stay as they are |
| `TwoPass.OptimizeScan` | lib/jpeg-6b-crop/jchuff.c:846-880 | a statistics pass and the generation of its tables fail only for a value out of range or an overlong code; otherwise every table that the scan uses is optimal for it, and no other table has changed |
| `TwoPass.TwoPassScan` | lib/jpeg-6b-crop/jchuff.c:846-880 | statistics, tables, output: fails only for a value out of range or an overlong code; otherwise exactly the bytes of the scan are written, and the decoder restores every block from them |
| `McuGeometry.NestedCeilings` | lib/jpeg-6b-crop/jcmaster.c:99-121 | rounding up to blocks and then to MCUs is rounding up to MCUs at once |
| `McuGeometry.PaddedSizes` | lib/jpeg-6b-crop/jccoefct.c:417-433 | the padded coefficient arrays hold exactly the blocks of the interleaved MCUs, and the last MCU of each row and column holds a real block of every component |
| `McuGeometry.InitialSetup` | lib/jpeg-6b-crop/jcmaster.c:45-121 | fails exactly when the precision is not 8, a side is not 1 to 65500, the components are not 1 to 10, a sampling factor is not 1 to 4, or a row of input samples does not fit 32 bits; otherwise every component has its sizes in blocks and in samples, which agree, and the number of MCU rows is right |
| `McuGeometry.BlocksCoverSamples` | lib/jpeg-6b-crop/jcmaster.c:94-113 | the size in blocks, rounded up on its own, is the rounded-up eighth of the size in samples |
| `McuGeometry.PerScanSetup` | lib/jpeg-6b-crop/jcmaster.c:307-389 | fails exactly when the scan has too few or too many components or blocks; otherwise MCU sizes, leftovers and membership are those of the scan, and a restart interval in rows has become one in MCUs, limited to 65535 |
| `McuGeometry.ScanLimits` | lib/jpeg-6b-crop/jcmaster.c:337-381 | a scan can be set up exactly if it has one to four components and, with more than one, MCUs of at most ten blocks, the sampling factors of each component multiplied and added up |
| `McuLayout.TilesFit` | lib/jpeg-6b-crop/jctrans.c:303-327 | no MCU of any scan reaches outside the coefficient arrays |
| `McuLayout.TilesOnce` | lib/jpeg-6b-crop/jctrans.c:303-327 | no scan visits a block twice |
| `McuLayout.TilesCover` | lib/jpeg-6b-crop/jcmaster.c:307-389 | an interleaved scan visits every block of the padded arrays of its components, a scan of one component exactly its real blocks |
| `McuFilling.SpotReal` | lib/jpeg-6b-crop/jctrans.c:305-311 | the tests of the controllers on last rows and last columns find exactly the real blocks, in every scan |
| `McuFilling.McuIs` | lib/jpeg-6b-crop/jccoefct.c:143-218 | the block list that a controller builds for an MCU is that MCU of the scan's layout, padding included |
| `DummyBlocks.PaddingInRow` | lib/jpeg-6b-crop/jctrans.c:328-336 | a padding block repeats the DC value of the block before it in its row of the MCU and is zero elsewhere |
| `DummyBlocks.PaddingGroup` | lib/jpeg-6b-crop/jccoefct.c:303-322 | below the image, all blocks of an MCU's row repeat the DC value of the last block of the row above |
| `DummyBlocks.FilledReal` | lib/jpeg-6b-crop/jccoefct.c:272-301 | making up padding changes no real block |
| `TransCoder.TransCoefController.CompressOutput` | lib/jpeg-6b-crop/jctrans.c:278-351 | one interleaved MCU row of the transcoder, resumed after any suspension: the MCUs sent so far are a prefix of those of the scan, none lost or repeated |
| `TransCoder.CompressPass` | lib/jpeg-6b-crop/jcapimin.c:161-175 | the transcoder's pass fails exactly when the entropy encoder refuses an MCU, and otherwise sends every MCU of the scan in order |
| `CoefController.CompressCoefController.CompressData` | lib/jpeg-6b-crop/jccoefct.c:143-218 | the one-pass mode, resumed after any suspension, sends a prefix of the MCUs of the scan |
| `CoefController.CompressCoefController.CompressFirstPass` | lib/jpeg-6b-crop/jccoefct.c:245-326 | the saving mode fills the arrays of every component, padding included, and sends a prefix of the MCUs of the scan |
| `CoefController.CompressCoefController.CompressOutput` | lib/jpeg-6b-crop/jccoefct.c:340-395 | the mode that works from the arrays sends a prefix of the MCUs of the scan |
| `CoefController.RunPass` | lib/jpeg-6b-crop/jccoefct.c:99-129 | all three modes send the same MCUs, padding included; a saving pass leaves the filled arrays behind |
| `CoefController.SameMcus` | lib/jpeg-6b-crop/jctrans.c:278-351 | a transcoder, whatever its arrays hold in their padding, sends the MCUs of a compressor with the same real blocks |
| `CoefConsumer.CoefficientConsumer.ConsumeData` | lib/jpeg-6b-crop/jdcoefct.c:244-303 | however often the input runs out, at the end of the scan the arrays hold what decoding the whole input at once and scattering its blocks gives; with the whole input there it stops early only if that cannot be decoded |
| `ImageRoundTrip.ScriptTranscode` | lib/jpeg-6b-crop/jctrans.c:278-351 | any image size, sampling factors, component count, tables, restart intervals and accepted script: sending coefficient arrays and decoding into zeroed arrays restores every coefficient of the image down to the last bit sent |
| `ImageRoundTrip.ProgressiveTranscode` | lib/jpeg-6b-crop/jcparam.c:537-608 | with the default progressive script, or any sequential one, every real block is restored exactly |
| `ImageRoundTrip.SequentialTranscode` | lib/jpeg-6b-crop/jctrans.c:278-351 | a sequential scan, interleaved or not, restores every real block of its components and leaves the other components alone |
| `ImageRoundTrip.ConsumedPass` | lib/jpeg-6b-crop/jdcoefct.c:244-303 | what consume_data leaves in the arrays is the decoded pass of the image theorems |
| `ImageRoundTrip.JobMcus` | lib/jpeg-6b-crop/jctrans.c:278-351 | the MCUs that the image theorems encode are those that the controllers send |
| `ContextRows.MakeLists` | lib/jpeg-6b-crop/jdmainct.c:195-234 | make_funny_pointers: both lists show the workspace, in the two orders, and above it the first row |
| `ContextRows.SetWraparound` | lib/jpeg-6b-crop/jdmainct.c:238-262 | set_wraparound_pointers: the row group above the first is the last of the workspace and the one below the last is the first, in both orders |
| `ContextRows.SetBottom` | lib/jpeg-6b-crop/jdmainct.c:266-299 | set_bottom_pointers: the last real row stands in for two row groups below it, and nothing else changes |
| `ContextRows.SlotOnce` | lib/jpeg-6b-crop/jdmainct.c:195-234 | within the workspace no two entries of a list lead to the same row |
| `MainController.ContextController.ProcessContext` | lib/jpeg-6b-crop/jdmainct.c:385-447 | keeps the invariant under any pattern of input and output stops, never takes back a row group, and hands one on whenever there is input and room |
| `MainController.ContextController.AllHandedOn` | lib/jpeg-6b-crop/jdmainct.c:385-447 | at the end every row group has been handed on once, in order, and each of its rows and the rows one above and one below are the image rows, repeated at the edges |
| `MainController.ContextExact` | lib/jpeg-6b-crop/jdmainct.c:53-67 | in every finished run, a row of the whole row group of context that was handed on is the image row, repeated at the edges, if and only if it lies in the image or the row group belongs to the last iMCU row |
| `OutputSizes.PaddingShows` | lib/jpeg-6b-crop/jdmainct.c:53-67 | a 16 x 20 image at 2/8 scale: when it is finished, row group 1 has been handed on with row 5, which does not exist, as context |
| `OutputSizes.PaddingRun` | lib/jpeg-6b-crop/jdmainct.c:385-447 | three calls take the controller of that image to its end |
| `MainController.ProcessImage` | lib/jpeg-6b-crop/jdmainct.c:385-447 | once as many calls as there are row groups found input and room, the image is finished |
| `OutputSizes.CalcOutputDimensions` | lib/jpeg-6b-crop/jdmaster.c:84-158 | the IDCT size is the least of 1, 2, 4 and 8 eighths that is not below the scale asked for, or 8; output dimensions, IDCT sizes of the components by the doubling loop, and their downsampled sizes |
| `OutputSizes.ScaledToOutput` | lib/jpeg-6b-crop/jdmaster.c:126-158 | no component is scaled beyond the output size, and one that is subsampled by the same power of two in both directions is scaled to exactly that size if one IDCT can do it |
| `OutputSizes.RowGroupsAgree` | lib/jpeg-6b-crop/jdmaster.c:131-158 | for every image size, sampling factors and scaling of 2/8, 4/8 or 8/8, all components have the same number of row groups |
| `OutputSizes.FeedWholeImage` | lib/jpeg-6b-crop/jdmainct.c:385-447 | from the image parameters alone: enough calls finish the image and hand on every row group once, in order, with the rows one above and one below |
| `PassControl.Master.PrepareForPass` | lib/jpeg-6b-crop/jcmaster.c:401-475 | sets up the pass that is due, with the parameters of its scan; a Huffman DC refinement scan skips its statistics pass; headers are written now or put off to the first row |
| `PassControl.Master.FinishPass` | lib/jpeg-6b-crop/jcmaster.c:503-535 | what has been done so far is exactly what the scans before the next pass call for |
| `PassControl.Master.WriteScanlines` | lib/jpeg-6b-crop/jcapistd.c:77-112 | headers go out before the first row, once; rows beyond the image are ignored |
| `PassControl.Master.FinishCompress` | lib/jpeg-6b-crop/jcapimin.c:147-181 | for any number of scans, with or without optimisation, transcoding or not: one frame header, then each scan header and scan once, in script order, each scan that needs a table preceded by its own statistics, and nothing after the last scan |
| `PassControl.EventsOnce` | lib/jpeg-6b-crop/jcmaster.c:401-535 | in that order of events every header and every scan occurs exactly once, and statistics only where a table is needed |
| `PassControl.EventsInOrder` | lib/jpeg-6b-crop/jcmaster.c:401-475 | everything happens in order: scan after scan, and for each its statistics, the frame header (for the first), its header, its data |
| `PassControl.StatisticsWhereUsed` | lib/jpeg-6b-crop/jcmaster.c:421-436 | a statistics pass is made exactly for the scans whose entropy coder uses a Huffman table |
| `PassControl.CompressImage` | lib/jpeg-6b-crop/jcapistd.c:38-112 | a run from jpeg_start_compress to jpeg_finish_compress, rows arriving in any portions: succeeds exactly if the rows are there, and then has done exactly what the scans call for |
| `PassControl.FirstScanNew` | lib/jpeg-6b-crop/jcmaster.c:130-261 | the first scan of an accepted script is no refinement, so its statistics pass is never skipped |
| `PrepContext.CreateContextBuffer` | lib/jpeg-6b-crop/jcprepct.c:267-305 | the list of five row groups wraps around a ring of three |
| `PrepContext.PrepController.PreProcessContext` | lib/jpeg-6b-crop/jcprepct.c:195-259 | keeps the ring's invariant, and returns early only for want of rows |
| `PrepContext.PrepController.EmitGroup` | lib/jpeg-6b-crop/jcprepct.c:236-252 | each downsample call shows the next row group with a row group above and below, rows clamped to the image |
| `PrepContext.CompressionMain.ProcessData` | lib/jpeg-6b-crop/jcmainct.c:113-158 | one row counts as unread exactly while the compressor suspends; an iMCU row is counted when the compressor accepts it, and processing stops only for want of rows or room |
| `PrepContext.CompressionMain.WriteScanlines` | lib/jpeg-6b-crop/jcapistd.c:77-112 | the application is told that the image is complete exactly when the compressor has accepted every iMCU row |
| `PrepContext.CompressionMain.WriteImage` | lib/jpeg-6b-crop/jcprepct.c:195-259 | any image height, any chunks of rows, any suspensions: the downsampler is shown all 8 * total_iMCU_rows row groups once, in order, each with its clamped neighbours |
| `ForwardDct.RowsAreCosines` | lib/jpeg-6b-crop/jfdctint.c:153-218 | the matrix of the transform is that of the DCT, to within one unit of the 13-bit constants |
| `ForwardDct.OneDimension` | lib/jpeg-6b-crop/jfdctint.c:153-218 | the factored one-dimensional transform is the rounded product with that matrix, no intermediate leaving 32 bits and no factor 16 bits |
| `ForwardDct.FdctIslow` | lib/jpeg-6b-crop/jfdctint.c:140-281 | in place, rows then columns, the two-dimensional transform |
| `DctAccuracy.TransformAccurate` | lib/jpeg-6b-crop/jfdctint.c:140-281 | for every block of 8-bit samples each output is eight times the DCT coefficient (the double cosine sum, with cosines of 13 bits) to within 3.5, less than half a coefficient |
| `DctAccuracy.CodeBlock` | lib/jpeg-6b-crop/jcdctmgr.c:180-264 | each quantised value times its step is the DCT coefficient to within half a step and half a unit |
| `ForwardDct.TransformBounds` | lib/jpeg-6b-crop/jfdctint.c:140-281 | for every block of 8-bit samples the DC output lies in -8192..8128 and every AC output in -8160..8160 |
| `ForwardDct.BlackBlock` | lib/jpeg-6b-crop/jfdctint.c:140-281 | the DC bound is attained |
| `ForwardDct.StripedBlock` | lib/jpeg-6b-crop/jfdctint.c:140-281 | the AC bound is attained, and would be exceeded with samples of +128 |
| `ForwardDct.ForwardDCT` | lib/jpeg-6b-crop/jcdctmgr.c:180-264 | each block of a row of blocks becomes the nearest quantised values of its transform, halves away from zero; other blocks stay as they are |
| `ForwardDct.NearestMultiple` | lib/jpeg-6b-crop/jcdctmgr.c:231-260 | what is stored is the multiple of the step nearest to the transformed value, the one of greater magnitude if there are two |
| `ForwardDct.QuantizedRange` | lib/jpeg-6b-crop/jcdctmgr.c:231-260 | whatever the samples and the quantisation table: DC in -1024..1016, AC in -1020..1020 |
| `SampledImage.SampledFits` | lib/jpeg-6b-crop/jchuff.c:353-443 | no scan of quantised samples, sequential or progressive, with any restart interval, makes the encoder report a value out of range |
| `SampledImage.TransformedIsSampled` | lib/jpeg-6b-crop/jcdctmgr.c:180-264 | what forward_DCT stores is in that range, in zigzag order |
| `MarkerSegments.SegmentRead` | lib/jpeg-6b-crop/jdmarker.c:237-568 | reading the parameters of a written DQT, DHT, DRI, SOF or SOS segment has exactly the segment's meaning |
| `MarkerSegments.QuantRead` | lib/jpeg-6b-crop/jdmarker.c:490-544 | a quantisation table of 8- or 16-bit values comes back through zigzag order unchanged |
| `SegmentLayout.DqtLayout` | lib/jpeg-6b-crop/jcmarker.c:144-180 | the bytes of a DQT segment, place by place: FF DB, length, precision and slot, the values in zigzag order |
| `SegmentLayout.DhtLayout` | lib/jpeg-6b-crop/jcmarker.c:184-218 | the same for DHT: FF C4, length, class and slot, sixteen counts, the symbols |
| `SegmentLayout.DriLayout` | lib/jpeg-6b-crop/jcmarker.c:264-273 | the same for DRI: FF DD, 4, the interval |
| `SegmentLayout.SofLayout` | lib/jpeg-6b-crop/jcmarker.c:276-304 | the same for SOF: marker, length, precision, height, width, and for each component its identifier, sampling factors and table |
| `SegmentLayout.SosLayout` | lib/jpeg-6b-crop/jcmarker.c:307-344 | the same for SOS: FF DA, length, for each component its identifier and tables, then Ss, Se, Ah and Al |
| `SegmentGrammar.DhtExactly` | lib/jpeg-6b-crop/jdmarker.c:419-486 | get_dht accepts exactly the parameters that spell a sequence of well-formed definitions, and then holds what they define |
| `SegmentGrammar.DqtExactly` | lib/jpeg-6b-crop/jdmarker.c:490-544 | the same for get_dqt, with values of one byte for precision 0 and of two bytes otherwise |
| `SegmentGrammar.DriExactly` | lib/jpeg-6b-crop/jdmarker.c:548-568 | the same for get_dri: two bytes |
| `SegmentGrammar.SofExactly` | lib/jpeg-6b-crop/jdmarker.c:237-297 | the same for get_sof: a frame with a height, a width and components |
| `SegmentGrammar.SosExactly` | lib/jpeg-6b-crop/jdmarker.c:301-367 | the same for get_sos: one to four components of the frame, the first one with the identifier |
| `MarkerWriter.Writer.EmitDqt` | lib/jpeg-6b-crop/jcmarker.c:144-180 | fails only without a table; the reader holds the table afterwards; a segment is written exactly if the table was not marked as sent |
| `MarkerWriter.Writer.EmitDht` | lib/jpeg-6b-crop/jcmarker.c:184-218 | the same for Huffman tables |
| `MarkerWriter.Writer.WriteFrameHeader` | lib/jpeg-6b-crop/jcmarker.c:494-541 | fails exactly for a missing table or an image too big; afterwards the reader holds the frame, with the right SOF code, and the table of every component; one segment is written for each table newly marked as sent, which a component needs, and last the frame header |
| `MarkerWriter.Writer.WriteScanHeader` | lib/jpeg-6b-crop/jcmarker.c:551-594 | fails exactly for a missing Huffman table; afterwards the reader holds every table that the scan needs, the restart interval and the scan parameters; one segment is written for each table newly marked as sent, which a component of the scan needs, one for a changed restart interval, and the scan header: tables already sent and an unchanged interval add none |
| `MarkerReader.Reader.GetDqt` | lib/jpeg-6b-crop/jdmarker.c:490-544 | done exactly when the whole segment has arrived and is well-formed, and then with its meaning; otherwise the restart point stays |
| `MarkerReader.Reader.GetDht` | lib/jpeg-6b-crop/jdmarker.c:419-486 | the same for Huffman tables |
| `MarkerReader.Reader.GetDri` | lib/jpeg-6b-crop/jdmarker.c:548-568 | the same for the restart interval |
| `MarkerReader.Reader.GetSof` | lib/jpeg-6b-crop/jdmarker.c:237-297 | the same for the frame header |
| `MarkerReader.Reader.GetSos` | lib/jpeg-6b-crop/jdmarker.c:301-367 | the same for the scan header, components looked up by identifier |
| `MarkerReader.Reader.ReadMarkers` | lib/jpeg-6b-crop/jdmarker.c:952-1097 | a group of written segments is read up to and including its scan header, and not a byte further, also if the entropy decoder has come upon its first marker; the end of the file is seen |
| `HeaderRoundTrip.ReadGroup` | lib/jpeg-6b-crop/jdmarker.c:952-1097 | scan after scan, tables changed in between or not, the reader ends up with everything that the writer has sent |
| `HeaderRoundTrip.FirstHeaders` | lib/jpeg-6b-crop/jcmarker.c:494-594 | frame and scan header restore dimensions, components, quantisation tables, Huffman tables, restart interval and scan parameters, consuming exactly the bytes written |
| `TableExchange.SentServes` | lib/jpeg-6b-crop/jdmarker.c:419-486 | the table that get_dht stores, unlisted symbols cleared, is accepted exactly if the sent one is, and the encoder's codes are its codes |
| `TableExchange.SameDecoding` | lib/jpeg-6b-crop/jdphuff.c:285-633 | decoding depends on the decoder's derived tables only |
| `FileReader.DeriveTables` | lib/jpeg-6b-crop/jdphuff.c:161-181 | start_pass derives every table that the scan uses from what the headers have brought |
| `FileReader.ConsumeScan` | lib/jpeg-6b-crop/jdcoefct.c:244-303 | calls of consume_data, all the input being there, complete a decodable scan; the input stands where the decoder has left it and the blocks are in the arrays |
| `FileReader.GroupDecodes` | lib/jpeg-6b-crop/jdinput.c:253-278 | behind a scan header, the tables and parameters that a reader holds decode the data that follow without a warning, up to the next marker |
| `FileReader.ReadFile` | lib/jpeg-6b-crop/jdtrans.c:44-88 | jpeg_read_coefficients on a written file: headers, tables and scans in turn, to the end of the file; every coefficient is in the arrays down to the last bit sent |
| `FileWriter.PrepareTables` | lib/jpeg-6b-crop/jcphuff.c:766-833 | before each scan its tables are replaced by optimal ones, marked as not sent; DC refinement scans need none |
| `FileWriter.WriteHead` | lib/jpeg-6b-crop/jcmarker.c:551-594 | then write_scan_header never fails, and a reader holds every table that the scan uses |
| `FileWriter.WriteScan` | lib/jpeg-6b-crop/jcmaster.c:401-475 | statistics, tables, headers and data of one scan: what is appended is a group that a reader can take from where it stands |
| `FileWriter.WriteFile` | lib/jpeg-6b-crop/jcapimin.c:147-181 | a whole file with new optimal tables for every scan fails only for a coefficient out of range, a code of more than 32 bits or a missing quantisation table |
| `FileRoundTrip.TranscodeFile` | lib/jpeg-6b-crop/jdtrans.c:24-88 | the file that is written is read back: dimensions, sampling factors, quantisation tables and every coefficient down to the last bit sent, for any image, accepted script and restart intervals |

## Left out

- `component_needed` and DCT-scaled decoding in `decode_mcu` (blocks whose coefficients are parsed and dropped): every component is taken as needed at full size.
- Encoder-side suspension within an MCU: the entropy encoder's destination never refuses a byte; the controllers above it are modelled with an encoder that may refuse an MCU (`EncoderFeed.McuSink`).
- `htest_one_block` is not a second routine: the statistics pass of a sequential scan is `EncodeOneBlock` in statistics mode, which counts the same symbols.
- `MIN_GET_BITS` is 25 and `get_buffer` has 32 bits; wider registers are not modelled.
- `jpeg_gen_optimal_table` clobbers the statistics; the two-pass driver gives it a copy of them.
- Partial stores of a marker routine that has to wait (a quantisation table half overwritten): the model stores a table when it is complete, and the routine starts again from the same restart point either way.
- Of the marker segments only DQT, DHT, DRI, SOF0 to SOF2 and SOS: no SOI, APPn, COM, DAC or DNL.
- The reader of a whole file has all of it from the start; input in pieces is the subject of `Suspension`, `CoefConsumer` and the restart points of `MarkerReader`. The file starts behind SOI.
- Pass control covers the order of passes, headers and scans; the pass itself is one event, since what it sends is the subject of the other modules.
- The simple modes of the preprocessing and main controllers (no context rows), `decompress_onepass`, output passes, block smoothing.
- Fast and floating-point DCTs, inverse DCTs, color conversion, sampling, warnings and trace messages other than those of the progression check, memory management, and the user interface: none of these holds state that the modelled parts depend on.

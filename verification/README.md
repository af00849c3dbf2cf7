# DEFLATE codec

A model of the DEFLATE compressor and decompressor in noricum-spike-miniz: `tdefl_compress` with everything below it
(hash chains and the lazy parser, the record buffer, the codes, the bit writer, the flushes), `tinfl_decompress` as a
coroutine that can stop at any byte, and `mz_inflate` around it. The configuration is the one the build produces:
`MINIZ_USE_UNALIGNED_LOADS_AND_STORES` is 0, and the bit buffer of the decompressor has 64 bits.

Each side is a set of classes whose methods follow the source's loops and branches, and is proved against a
specification on bit strings. `InflateSpec` says what a raw DEFLATE stream means (sections 3.2.3 to 3.2.7 of RFC 1951),
with the decisions that `tinfl_decompress` takes on malformed input; it knows nothing of buffers, tables or calls. The
outcome of a stream is `Ended` with the output and the bits behind the stream, or `Failed`, or `Truncated`; two more stand
for what happens where a table has no entry for the bits (`Decoding.NextSymbol`), which only a code with at most one symbol
allows: `EndedLoosely` and `BadCode`.

What follows from it:

- Whatever calls are made on a compressor, from the first one on, once one of them has returned "done" the bytes put out
  decompress to exactly the bytes taken in, with nothing left over (`Codec.RunCalls`, `Deflater.RoundTrip`); at a sync or
  full flush this holds for everything so far (`Deflater.SyncPoint`); and a loop of calls with any sizes gets there
  (`Codec.CompressAll`). There is no condition on the data: the record buffer
  is flushed before a block can outgrow the output buffer, so no byte is ever dropped.
- That last fact needs more than the source's comments give. Lengths from the in-place algorithm are optimal among all
  prefix codes (`PrefixCodes.OptimalWords`, `MinRedundancy.CalculateMinimumRedundancy`), limiting them to 15 bits costs at
  most one and a half bits for each symbol sent (`LimitCost.LimitedCost`), a fixed-length code gives a bound for the
  optimum, and so no dynamic block exceeds 671100 bits (`BlockSize.LzSize`). The test for a block that did not fit
  (miniz_tdef.c:678) never succeeds.
- However a stream is cut into calls and however little room each call has, the decompressor keeps to the outcome of the
  whole stream (`Inflater.Decompressor.Decompress`), and it asks for input only when no outcome could be reached without.
  There are two places where the cuts show, both at empty table entries. A *literal* from one (`BadCode`) makes the fast
  path give up and the slow path output a zero byte: then, and only then, one cutting fails and another goes on, and with
  twelve bytes behind the place this happens on every such stream (`Codec.CutsDiffer`; `EmptyEntries.ZeroBlock` is one).
  A *distance* or *code length* from one (`EndedLoosely`) is the same under every cut, but a call that begins with more
  than seven bits in the buffer can keep one byte that follows the stream.
- With complete codes neither happens (`Decoding.CompleteNext`, `EmptyEntries.CompleteSymbols`).
- The same holds through `mz_inflate`: what the caller has got and what waits in the ring are the whole output so far
  (`InflateStream.InflateState.MzInflate`), and a loop of calls with any sizes ends with `MZ_STREAM_END` and all bytes
  (`InflateStream.InflateAll`, `Codec.InflateFinished`).
- The format itself is fixed in numbers, apart from the functions that both sides use: the fixed code words, the tables of
  lengths and distances, the order of the code length codes, the runs of the repeat codes, and for each kind of block the
  bits or bytes it starts with (`Format`, `StaticCodes.LitWord`, `LzSymbols.LengthTable`, `CodeLengthRle.RepeatRange`).
- The search passes over no candidate that its probes reach (`MatchSearch.NonePassedOver`), and the hash chains lead to every
  position in the window with the same three bytes, the nearest ones first (`MatchSearch.ChainReaches`). So what
  `tdefl_find_match` finds is at least as long as every repetition that is near (`MatchSearch.NoNearOneMissed`). There is one
  exception: a position that is a multiple of 65536 is stored as 0, which ends a chain, so such a position and what lies
  behind it in its chain are not found (`MatchSearch.HiddenByZero`; `MatchSearch.RunAtStart` is a stream where it shows).
- A block that is still in the window never takes more bits than in its stored form (`Compressor.SizeLaw`), and no other
  codes would save more than one and a half bits for each symbol sent (`BlockSize.NearOptimalBlock`). If all blocks are to be
  stored, all are (`Compressor.State.RawInWindow`).
- What follows a full flush decompresses alone (`Deflater.FullFlushPoint`).

Modules, from the bottom up: `Bits`, `Sums`; `Canonical`, `Decoding`, `StaticCodes`, `LzSymbols`; `InflateSpec`,
`EmptyEntries`, `InflateResume`, `InflateGrowth`; `BlockSpec`, `BlockStream`, `CodeLengthRle`, `Format`, `Restart`;
`HuffmanTree`, `HuffmanOptimal`, `HuffmanLevels`, `RadixSort`, `MinRedundancy`, `LimitLengths`, `LimitCost`,
`SymbolCounts`, `PrefixCodes`, `EncoderTable`; `BitWriter`, `LzCodeBuffer`, `LzReader`, `BlockWriter`, `BlockSize`,
`BlockCoder`, `HashChains`, `MatchSearch`, `Dictionary`, `LzParse`, `Compressor`, `Deflater`; `BitReader`, `DecoderTable`,
`OutWindow`, `Inflater`, `InflateStream`; `Codec`.

## Model

Ghost parameters `target` and `future` stand for the outcome of the whole stream and for the bits that later calls will
bring.

| member | source | states |
|---|---|---|
| Codec.RunCalls | noricum-spike-miniz/miniz_tdef.c:1266-1374 | For every sequence of calls after `tdefl_init`: the bytes used are the input taken, and once a call has returned "done", whatever is tried after it, the bytes put out decompress to them exactly, through every window of at least 32 KB |
| Codec.CompressAll | noricum-spike-miniz/miniz_tdef.c:1266-1332 | Data offered in portions of any size, with room of any size for the output and a finish at the end: the calls come to an end, all of the data has been taken, and the last call returns "done" |
| Codec.DeliverSync | noricum-spike-miniz/miniz_tdef.c:1297-1298 | A sync block that did not fit is delivered by as many further calls as it takes, and then the sync point is reached |
| Deflater.RoundTrip | noricum-spike-miniz/miniz_tdef.c:1266-1332 | In every reachable finished state, what was delivered over all calls means exactly what was taken over all calls, without a bit left over |
| Deflater.SyncPoint | noricum-spike-miniz/miniz_tdef.c:703-715 | Once a sync or full flush has been delivered, in one call or in several, the delivered bytes already yield everything taken so far, whatever bytes come next |
| Deflater.FullFlushPoint | noricum-spike-miniz/miniz_tdef.c:1323-1328 | What was delivered since the last full flush decompresses alone, to exactly what was taken since then |
| Deflater.Stream.StartAfresh | noricum-spike-miniz/miniz_tdef.c:1323-1328 | A full flush forgets the dictionary and its chains; from here on no match goes back before it |
| Restart.TailRoundTrip | noricum-spike-miniz/miniz_tdef.c:1323-1328 | Blocks that copy nothing from before a byte boundary are a stream of their own, with the same bits |
| Deflater.Stream.constructor | noricum-spike-miniz/miniz_tdef.c:1340-1374 | `tdefl_init`: a valid compressor that has taken and delivered nothing, made of new objects |
| Deflater.Stream.Compress | noricum-spike-miniz/miniz_tdef.c:1266-1332 | Takes a prefix of the input, all of it unless output is left waiting, in which case the caller's buffer is full; a call that finds output waiting only delivers it, as much as fits; every other call that leaves output waiting has moved on in the input or has sent the block it was asked for; refuses exactly the calls the source refuses; returns "done" exactly when finished with nothing waiting |
| Deflater.Stream.CompressNormal | noricum-spike-miniz/miniz_tdef.c:1100-1243 | The parsing loop keeps the whole state consistent, and stops only at the end of the input or when output is left waiting |
| Deflater.Stream.FlushBlock | noricum-spike-miniz/miniz_tdef.c:603-756 | One flush adds one block to the stream; what fits goes to the caller and the rest waits, in order and without loss |
| Compressor.State.EmitBlock | noricum-spike-miniz/miniz_tdef.c:603-728 | The bits appended are those of one block that stands for the records, and the trailer of the flush, and they do not reach the end of the output buffer, so the assertion at line 718 holds; then the records are part of what was sent and the buffer is empty. Which kind of block it is follows `Chosen`, without exception |
| Compressor.State.PutBody | noricum-spike-miniz/miniz_tdef.c:649-683 | Whichever of the three kinds of block is sent, taken back or sent again, the bits are a valid block for the same bytes, with room for the trailer; and it is stored if and only if it is in the window and that is asked for, or what the coder made of it fills at least as many bytes as it has, less one |
| Compressor.SizeLaw | noricum-spike-miniz/miniz_tdef.c:656-659 | In the window a block never takes more bits than its stored form; one that is not stored takes fewer bytes than it stands for; one is stored unasked only if the codes save less than two bytes |
| Compressor.State.Encode | noricum-spike-miniz/miniz_tdef.c:654 | Fixed codes if and only if they are forced or the block has fewer than 48 bytes; otherwise codes of its own, near-optimal for its records, in a header without unused lengths at the end of its lists |
| Compressor.GoesOn | noricum-spike-miniz/miniz_tdef.c:1229-1230 | A block goes on as long as the buffer has room for a decision, and past 31 KB only while the records are shorter than 128/115 of the bytes they stand for |
| Compressor.ProbesAllowed | noricum-spike-miniz/miniz_tdef.c:1345-1347 | The rounds of three probes together are the probes asked for, or a quarter of them for a match of 32 bytes or more, rounded up |
| Compressor.State.RawInWindow | noricum-spike-miniz/miniz_tdef.c:1228-1231 | When all blocks are to be stored, each is ended while it is still in the window, and so stored |
| Compressor.State.PutRaw | noricum-spike-miniz/miniz_tdef.c:660-675 | A stored block carries exactly the input bytes since the last block, read from the ring, and its length fits 16 bits |
| Compressor.State.ParseOne | noricum-spike-miniz/miniz_tdef.c:1154-1227 | One decision of the parser, made only with a full lookahead or at a flush: it moves on by at least a byte, the records still stand for the input and do not go back before the last full flush, and it is the decision of `Decide` on the match that is on offer |
| Compressor.State.Record | noricum-spike-miniz/miniz_tdef.c:1185-1222 | Expanding blocks and records gives exactly the input up to the new position, less one byte while a match is saved; what is recorded, what is saved and how far to move are those of lazy parsing |
| Compressor.State.ChooseMatch | noricum-spike-miniz/miniz_tdef.c:1154-1184 | In every mode, the match on offer is taken unless one of the three reasons to drop it holds; it is one that the input really repeats |
| Dictionary.Dict.Fill | noricum-spike-miniz/miniz_tdef.c:1109-1150 | The ring and its mirror hold the window after any input; every position is in the chain of its three bytes, leading to the last one before it with the same hash; and input is taken until the lookahead is full |
| Dictionary.Dict.FindMatch | noricum-spike-miniz/miniz_tdef.c:829-871 | The outcome of the search: a match that is found is longer than the one at hand, within the window, and there; and it is at least as long as every repetition that is near |
| MatchSearch.NonePassedOver | noricum-spike-miniz/miniz_tdef.c:839-869 | No candidate is passed over that is reached within the probes, three in a round, of which a candidate that agrees in two bytes may take all |
| MatchSearch.ChainReaches | noricum-spike-miniz/miniz_tdef.c:1125-1126 | The chain from a position comes to every position within reach that has the same hash, after as many links as there are such positions in between, unless one of them is a multiple of 65536 |
| MatchSearch.NoNearOneMissed | noricum-spike-miniz/miniz_tdef.c:829-871 | What is found is at least as long as every repetition within reach with fewer positions of the same hash in between than there are rounds |
| MatchSearch.HiddenByZero | noricum-spike-miniz/miniz_tdef.c:845-847 | If the last position with the same hash is a multiple of 65536, nothing is found |
| MatchSearch.RunAtStart | noricum-spike-miniz/miniz_tdef.c:845-847 | At the second byte of a stream that begins with four equal bytes the search finds nothing, although the byte repeats |
| HashChains.RollHash | noricum-spike-miniz/miniz_tdef.c:1124 | The rolling hash is that of the last three bytes |
| HashChains.PositionEntered | noricum-spike-miniz/miniz_tdef.c:1125-1126 | Entering a position keeps all chains right, also when the slot of an old position is taken |
| Dictionary.Dict.RunLength | noricum-spike-miniz/miniz_tdef.c:1161-1170 | The run that RLE mode finds is a match at distance 1 |
| LzParse.RawData | noricum-spike-miniz/miniz_tdef.c:672-675 | The bytes a stored block sends instead of the records are exactly what the records stand for |
| LzCodeBuffer.Buffer.RecordLiteral | noricum-spike-miniz/miniz_tdef.c:1059-1070 | The buffer's bytes, flags and counters are those of the records so far and this literal |
| LzCodeBuffer.Buffer.RecordMatch | noricum-spike-miniz/miniz_tdef.c:1072-1098 | The same for a match of any length from 3 to 258 and distance from 1 to 32768 |
| LzCodeBuffer.CloseStep | noricum-spike-miniz/miniz_tdef.c:618 | The last shift of the open flag byte puts every flag where the reader looks for it |
| BlockWriter.FewRecords | noricum-spike-miniz/miniz_tdef.c:1228-1231 | The record buffer never holds more than 58254 records, so no 16-bit counter overflows |
| LzReader.CompressLzCodes | noricum-spike-miniz/miniz_tdef.c:544-589 | Walking the record buffer writes the codes and extra bits of exactly its records, and the end of the block |
| BitWriter.Writer.Put | noricum-spike-miniz/miniz_tdef.c:271-287 | Appends the low bits of the value to the bit string written so far, across any byte boundary |
| BitWriter.Writer.Back | noricum-spike-miniz/miniz_tdef.c:661-662 | Going back to a saved position forgets exactly what was written since |
| BlockCoder.Coder.StartDynamicBlock | noricum-spike-miniz/miniz_tdef.c:337-422 | The header written is one from which the decompressor rebuilds the two codes in use, which are near-optimal for the records; every record has codes, and no list of lengths could be shorter |
| BlockCoder.Coder.StartStaticBlock | noricum-spike-miniz/miniz_tdef.c:424-444 | The static codes are in the tables, and every record has codes |
| BlockCoder.Coder.CompressBlock | noricum-spike-miniz/miniz_tdef.c:592-599 | The bits written are a valid block body for the records, and it fits exactly if the writer has not reached the end |
| BlockSize.LzSize | noricum-spike-miniz/miniz_tdef.c:544-589 | The records and the end of a block take at most 671100 bits under near-optimal codes, for every record buffer that the parser can fill |
| BlockSize.NearOptimalBlock | noricum-spike-miniz/miniz_tdef.c:337-344 | No other codes whatever would save more than one and a half bits for each symbol that a dynamic block sends |
| BlockSize.DynamicFits | noricum-spike-miniz/miniz_tdef.c:677-683 | A dynamic block with its header always leaves room in the output buffer for the trailer, so the fallback is never taken |
| BlockSize.StaticFits | noricum-spike-miniz/miniz_tdef.c:677-683 | The fallback, too, would always fit, and can send every record |
| EncoderTable.OptimizeTable | noricum-spike-miniz/miniz_tdef.c:218-269 | Exactly the symbols that occur get codes, within the limit; the decompressor accepts the lengths; the codes stored are the canonical ones, reversed; with a limit of 15 the cost is within one and a half bits a symbol of every prefix code |
| RadixSort.RadixSortSyms | noricum-spike-miniz/miniz_tdef.c:100-131 | The array returned is an ascending permutation of the input in which equal keys keep their order, also when the second pass is skipped |
| MinRedundancy.CalculateMinimumRedundancy | noricum-spike-miniz/miniz_tdef.c:134-187 | The keys become lengths that no prefix code undercuts in cost, with Kraft sum 1, descending, none above 32; few and light symbols have long codes |
| HuffmanOptimal.Optimal | noricum-spike-miniz/miniz_tdef.c:144-163 | What the merging loop adds up is a lower bound for the cost of all lengths that meet Kraft's inequality for the same weights |
| PrefixCodes.OptimalWords | noricum-spike-miniz/miniz_tdef.c:144-163 | The same for all assignments of bit strings none of which is a prefix of another |
| PrefixCodes.NearOptimalWords | noricum-spike-miniz/miniz_tdef.c:218-269 | A table of at most 15 bits is within one and a half bits a symbol of every assignment of such bit strings |
| LimitLengths.EnforceMaxCodeSize | noricum-spike-miniz/miniz_tdef.c:194-216 | Terminates with the number of symbols kept, no count negative, and the Kraft sum exactly 1; only levels from one depth on have changed, each by splitting codes |
| LimitCost.LimitedCost | noricum-spike-miniz/miniz_tdef.c:194-216 | Limiting the lengths to 15 bits adds at most one and a half bits for each symbol sent |
| CodeLengthRle.Packer.Pack | noricum-spike-miniz/miniz_tdef.c:358-397 | The packed items stand for exactly the given lengths, in no more bytes than there are lengths; they are those of the runs of equal lengths, each cut into as few as the item sizes allow from its start |
| CodeLengthRle.ReadItems | noricum-spike-miniz/miniz_tinfl.c:395-413 | The decompressor reads every valid list of packed items back as the lengths it stands for |
| CodeLengthRle.RepeatRange | noricum-spike-miniz/miniz_tdef.c:420 | The values that can follow a repeat code are exactly those that its items need |
| CodeLengthRle.RepeatRuns | noricum-spike-miniz/miniz_tinfl.c:405-411 | The runs of the three repeat codes are 3 to 6, 3 to 10 and 11 to 138 |
| BlockStream.HeaderRoundTrip | noricum-spike-miniz/miniz_tinfl.c:313-421 | The bits of a dynamic header lead the decompressor to exactly the two codes they were made from |
| BlockStream.BlockRoundTrip | noricum-spike-miniz/miniz_tinfl.c:243-600 | A block of any kind at any bit position means its bytes, and decoding goes on right behind it |
| BlockStream.StreamRoundTrip | noricum-spike-miniz/miniz_tinfl.c:243-611 | Any sequence of blocks with one final block at its end means the bytes they stand for, and whole bytes behind the stream are left alone |
| Format.EmptyStream | noricum-spike-miniz/miniz_tdef.c:424-444 | The bytes 3 and 0 are the stream of no bytes |
| Format.StoredStream | noricum-spike-miniz/miniz_tinfl.c:243-289 | A byte 1, the length low byte first, its complement and the bytes are a stream of these bytes |
| Format.WrongComplement | noricum-spike-miniz/miniz_tinfl.c:257-260 | With any other complement the stream is refused |
| Format.ReservedType | noricum-spike-miniz/miniz_tinfl.c:290-293 | Block type 3 is refused |
| Format.FixedLiteral | noricum-spike-miniz/miniz_tinfl.c:302-309 | A byte up to 143 is sent as its value plus 48 in eight bits, one above as its value plus 256 in nine |
| Format.FixedMatch | noricum-spike-miniz/miniz_tinfl.c:515-533 | A match in a fixed block: length symbol and extra bits, distance symbol and extra bits, in numbers; a distance that is too far is refused |
| Format.DynamicFields | noricum-spike-miniz/miniz_tinfl.c:313-318 | The type of a dynamic block and its three counts, of 5, 5 and 4 bits, from 257, 1 and 4 |
| Format.ZigzagOrder | noricum-spike-miniz/miniz_tinfl.c:193 | The order of the code length code lengths |
| Format.DynamicRepeat | noricum-spike-miniz/miniz_tinfl.c:404-412 | Codes 16, 17 and 18 with two, three and seven bits repeat the length before 3 to 6 times, and zero 3 to 10 and 11 to 138 times |
| StaticCodes.LitWord | noricum-spike-miniz/miniz_tinfl.c:302-309 | The fixed code words of all literal and length symbols, in numbers |
| StaticCodes.DistWord | noricum-spike-miniz/miniz_tinfl.c:301 | The fixed code words of the distance symbols are their numbers |
| BlockSpec.BodyRoundTrip | noricum-spike-miniz/miniz_tdef.c:554-586 | The bit layout of records, read by the decompressor's symbol loop, gives back exactly the records' bytes, ends at symbol 256 and leaves no bit over |
| LzSymbols.DistRoundTrip | noricum-spike-miniz/miniz_tdef.c:564-576 | The distance symbol and extra bits chosen by the compressor give back every distance up to 32768 under the decompressor's base tables |
| LzSymbols.LengthRoundTrip | noricum-spike-miniz/miniz_tdef.c:560-562 | The same for every length from 3 to 258; 258 alone has the symbol 285 |
| LzSymbols.LengthTable | noricum-spike-miniz/miniz_tinfl.c:189-190 | The bases and extra bits of the length symbols, number by number |
| LzSymbols.DistTable | noricum-spike-miniz/miniz_tinfl.c:191-192 | The same for the distance symbols |
| Canonical.PrefixFree | noricum-spike-miniz/miniz_tdef.c:255-268 | No canonical code word is a prefix of another, for all lengths that pass Kraft's inequality |
| Canonical.CompleteDecodes | noricum-spike-miniz/miniz_tinfl.c:342-352 | If the total of the lengths is exactly 65536, every string of 15 bits starts with a code word |
| Decoding.Decided | noricum-spike-miniz/miniz_tinfl.c:112-135 | What decides the next symbol decides it whatever bits follow, also where no code word starts them |
| Decoding.CompleteNext | noricum-spike-miniz/miniz_tinfl.c:349-352 | With total 65536 every string of 15 bits has a next symbol, and its code word starts the string |
| Decoding.NoEntryFew | noricum-spike-miniz/miniz_tinfl.c:349-352 | Only a code with at most one symbol can meet an empty entry or leave the tree |
| EmptyEntries.CompleteSymbols | noricum-spike-miniz/miniz_tinfl.c:422-599 | A block with complete codes never meets an empty entry, whatever its bits are |
| EmptyEntries.EmptyDistances | noricum-spike-miniz/miniz_tinfl.c:525-527 | Without distance codes every match is from distance 1, once 15 bits are there |
| EmptyEntries.EmptyLengths | noricum-spike-miniz/miniz_tinfl.c:395-403 | Without code length codes all lengths to come are 0, and the first literal is a bad one |
| EmptyEntries.ZeroBlock | noricum-spike-miniz/miniz_tinfl.c:311-511 | A byte 5 and zero bytes are a stream whose first literal comes from an empty entry |
| DecoderTable.Table.Build | noricum-spike-miniz/miniz_tinfl.c:337-392 | Accepts exactly the lengths with total 65536 or at most one symbol, and then every entry of the direct table and the tree leads where the canonical code of these lengths does, within the arrays |
| DecoderTable.Table.Lookup | noricum-spike-miniz/miniz_tinfl.c:161-170 | For every content of the bit buffer the symbol found is the next one of the stream: that of the code word that starts the buffer, with its length, or symbol 0 with the number of bits that lead out of the tree, or none for an empty entry |
| DecoderTable.Table.TryDecode | noricum-spike-miniz/miniz_tinfl.c:115-131 | Succeeds exactly when the bits at hand decide the symbol |
| DecoderTable.TreeFits | noricum-spike-miniz/miniz_tinfl.c:371-389 | The tree never needs more than two slots for each symbol |
| BitReader.Reader.GetBits | noricum-spike-miniz/miniz_tinfl.c:76-106 | Takes a field off the unread bits, or leaves them alone when the input is too short |
| BitReader.Reader.HuffDecode | noricum-spike-miniz/miniz_tinfl.c:112-175 | Takes the next symbol off the unread bits whatever bits may follow, reads no byte it could not give back, and waits only if the bits leave the symbol open; where the table has no entry, symbol 0 and no bits |
| BitReader.Reader.PutBack | noricum-spike-miniz/miniz_tinfl.c:633-640 | Whole bytes go back to the input, and the unread bits stay what they are |
| OutWindow.MaskedSource | noricum-spike-miniz/miniz_tinfl.c:535-551 | The masked index of a copy reads the byte that the specification copies, in a linear buffer and in a ring |
| InflateGrowth.ResumeExtends | noricum-spike-miniz/miniz_tinfl.c:243-611 | From every point of the coroutine, output is final: the outcome starts with it |
| Inflater.Decompressor.Decompress | noricum-spike-miniz/miniz_tinfl.c:187-648 | One call, with any input and any room, on any stream: the outcome of the whole stream stays what it was, the output is where the caller asked for it and a prefix of the outcome's; "done" means that the stream has ended and the unused input is exactly what follows it, or, after an empty entry for a distance or a length and only if the call began with more than seven bits in the buffer, that and one byte; "failed" that the stream is bad; more input is asked for only when all is used and the stream could not have ended with it. On a literal from an empty entry the output goes on with zero bytes, and the call fails only if it has four bytes of input and room for two, and certainly if twelve bytes follow and there is room |
| Inflater.Decompressor.DoSymbolSlow | noricum-spike-miniz/miniz_tinfl.c:427-437 | One symbol near the end of a buffer; an empty entry is the literal 0 and takes no bits |
| Inflater.Decompressor.DoSymbolFast | noricum-spike-miniz/miniz_tinfl.c:438-511 | Up to two symbols; an empty entry is a failure that outputs nothing |
| Codec.CutsDiffer | noricum-spike-miniz/miniz_tinfl.c:427-500 | On every stream that comes upon a literal from an empty entry with twelve bytes behind it, one call fails and calls with less than four bytes each do not |
| Codec.SomeCutsDiffer | noricum-spike-miniz/miniz_tinfl.c:427-500 | There is such a stream |
| Inflater.Decompressor.StartsOn | noricum-spike-miniz/miniz_tinfl.c:226-229 | After `tinfl_init` the outcome to come is that of whatever is going to be read |
| Inflater.HungryForMore | noricum-spike-miniz/miniz_tinfl.c:65-74 | If the decompressor waits for input and none is to come, the stream was cut off |
| Codec.DecompressPieces | noricum-spike-miniz/miniz_tinfl.c:720-727 | A decompressor given any pieces of any stream is done exactly if the stream ends within them and its output fits; the buffer then holds the output |
| Codec.DecompressStream | noricum-spike-miniz/miniz_tinfl.c:720-727 | What the compressor has delivered, cut in any way, comes back as its input |
| InflateStream.InflateState.constructor | noricum-spike-miniz/miniz.c:371-405 | A raw stream whose ring holds arbitrary memory |
| InflateStream.InflateState.MzInflate | noricum-spike-miniz/miniz.c:438-548 | One call with any flush, input and room: the bytes handed out over all calls and those waiting in the ring are the output so far; each return code says what is true of the stream; it is `MZ_STREAM_END` if and only if the decompressor has ended and the caller has all of its bytes; a call that finds bytes waiting only hands those out, and any other returns `MZ_OK` only when a buffer is used up; with room, `MZ_OK` means progress |
| InflateStream.InflateState.Pump | noricum-spike-miniz/miniz.c:507-547 | The loop terminates, no copy crosses the end of the ring, and its code is the one the last status stands for; `MZ_OK` only while there is more to come, `MZ_STREAM_END` exactly at the end |
| InflateStream.InflateState.Direct | noricum-spike-miniz/miniz.c:466-490 | `MZ_FINISH` on the first call ends the stream if the buffer holds all of it, and otherwise says why not |
| InflateStream.InflateAll | noricum-spike-miniz/miniz.c:438-548 | A stream that ends, offered in portions of any size with room of any size, ends in `MZ_STREAM_END` with all of its bytes handed out and the rest of the input untouched |
| Codec.InflateFinished | noricum-spike-miniz/miniz.c:438-548 | What the compressor has delivered comes back through `mz_inflate` as its input |

## Left out

- Inflater.Decompressor.Decompress: does not say in terms of the calls alone which literals from empty entries fail when between four and twelve bytes are left; `DoSymbolSlow` and `DoSymbolFast` say it in terms of the bytes left at that point. Whether a call that begins with more than seven bits keeps a byte behind the stream is not stated either.
- EncoderTable.OptimizeTable: for the code of code lengths, limited to 7 bits, no bound on the cost is stated; a packed item takes at most seven bits in any case.
- Compressor.State.ParseOne: takes the decisions of lazy parsing; that they lead to the shortest block is not claimed.
- Deflater.FullFlushPoint: speaks of the last full flush; between two of them `Deflater.SyncPoint` applies.
- MatchSearch.NoNearOneMissed: counts one candidate a round; `NonePassedOver` says how many more are reached.
- Codec.DecompressPieces: one call per piece into one buffer; the loops of `tinfl_decompress_mem_to_heap` and `tinfl_decompress_mem_to_callback` are not modelled.
- The zlib wrapping: header bytes (miniz_tdef.c:621-645, miniz_tinfl.c:230-241), the Adler-32 trailer, `mz_adler32` and `mz_crc32`; streams are raw.
- A caller's output callback (`m_pPut_buf_func`), and assembling output directly in a large caller's buffer (miniz_tdef.c:609): the model always assembles in `m_output_buf` and copies.
- Null pointers and allocation failures.
- The counters `total_in` and `total_out`, and `mz_deflate`, `mz_inflateReset` and the one-call wrappers of miniz.c.
- `tdefl_compress_fast` and the other branches for unaligned loads and stores, which this configuration does not compile.
- The ZIP archive code in C and in Rust, the JSON library, genann, and the agents and tools of the repository.

# Verified models of the KeuOS user-space algorithms

Dafny models of the algorithmic code that ships with the repository, and proofs about them.  One module
models one component.  To verify them all: `dafny verify dfyconfig.toml`.

The system has seven groups of components here:

* **DEFLATE and PNG decoding** (`user/facet/gpu/stb_image.h`).  `Bits` has the LSB-first bit stream with zero
  padding and the bit-reversal trick; `Canonical` the canonical Huffman code of RFC 1951 as a mathematical
  object; `Huffman` the table builder; `BitReader` the bit buffer with its speculative padding and the two-level
  symbol decoder; `Deflate` the format itself, with no tables, buffers or growth; `Refill` when the decoder runs
  out of bits, as a function of the stream; `Shift` that a stream means the same wherever it starts; `Inflate` the block parsers and
  the growing output, proved against `Deflate`; `DeflateEncoder` an encoder for token sequences, whose output is
  shown to come back through the decoder; `PngFilter` scanline filtering; `PngSamples` the expansion of lines to
  pixels; `Adam7` whole images and de-interlacing.
* **Open addressing** (`benchmarks/hashmap_bench.c`, `benchmarks/longest_consecutive.c`).  `ProbeTable` has what
  every reachable table satisfies, `HashMap` the map with tombstones, `LongestConsecutive` the set and the
  algorithm on top of it.
* **fannkuch** (`benchmarks/fannkuch.c`).  `Permutations` and `Fannkuch`.
* **LRU cache** (`benchmarks/lru_cache.c`).  `LruCache`, on the heap.
* **Path filling** (`user/facet/raster/facet_raster.c`).  `Flatten` for the curves over the reals, `Raster` for
  edges, crossings and the scanline sweep.
* **Sudoku** (`benchmarks/sudoku_solver.c`).  `Sudoku`.
* **Chunked bodies and ECS storage** (`tools/rust_http_parser/src/main.rs`, `lattice_ecs/src/lib.rs`).  `Chunked`
  and `Ecs`.

How the models are built.  Code that changes things step by step is imperative here too: the bit buffer, the
inflater, the filter buffer, the hash tables, the cache with its nodes, the edge table, the ECS world and the
event reader are classes; the table builder, the unfiltering and de-interlacing loops, the odometer, the sweep
and the solver are methods on arrays.  Each is proved against a specification that does not mention its loops,
and the specification is the subject of the lemmas.  Defensive branches that the proofs show to be dead are kept
as branches with `assert false`.

Where the code and its comments or its purpose disagree, the model follows the code:

* The comment on lines 4327 to 4330 of `stb_image.h` says that reading past the end is caught at the end of a
  block.  It is not always: zero bytes that `stbi__fill_bits` adds are not counted.  `Refill` says exactly when the
  decoder notices: it follows, along the positions that the format reads, how many bytes have been loaded and
  whether the 16 extra bits were added, and runs dry where line 4257 or line 4331 refuses.  `Inflate.DoZlib` is an
  if-and-only-if over all inputs with that condition; `Refill.InsideIsSupplied` says that it holds whenever the
  meaning ends inside the input, `Refill.SuppliedEndsSoon` that it fails whenever the meaning ends more than 136
  bits past it, and `Inflate.AcceptsTruncated` gives a truncated stream that is accepted.
* `decode_chunked` is to terminate on any input; with wrapping `usize` arithmetic it panics on some.
  `Chunked.PanicsIff` says on which, `Chunked.PanicExample` gives one.

The solver is proved for every board, conflict-free or not: it finds what `Sudoku.Completes` describes, and
`Sudoku.CompletesIffSolves` says that on conflict-free boards this is solving.

Conventions.  Integers are mathematical except where masking, shifting or wrap-around is the point (the bit
buffer, bit reversal, byte arithmetic, pass sizes, chunk sizes, buffer growth).  The hash function is an
arbitrary function of the key.  `float` is `real`.  Allocation succeeds.

## Model

| member | source | states |
|---|---|---|
| `Bits.BitReverse16IsRev` | user/facet/gpu/stb_image.h:4107-4114 | The four rounds of masked swaps reverse the low 16 bits of any number, whatever its other bits. |
| `Bits.BitReverseIsRev` | user/facet/gpu/stb_image.h:4116-4122 | Reversing 16 bits and shifting away 16 - n reverses any n-bit number. |
| `Bits.TakeLowShr` | user/facet/gpu/stb_image.h:4214-4222 | Masking and shifting n buffered stream bits splits them into the first a and the remaining n - a. |
| `Bits.MsbPrefix` | user/facet/gpu/stb_image.h:4224-4235 | Shifting 16 bits read most significant first leaves the first s of them, as the slow search assumes. |
| `Canonical.KraftIffFits` | user/facet/gpu/stb_image.h:4138-4149 | Under the Kraft inequality the codes of every length l fit in l bits, and those of length 15 fit if and only if the inequality holds. |
| `Canonical.EndCodeIsKraft` | user/facet/gpu/stb_image.h:4138-4149 | One past the last code of length l, scaled to 15 bits, is the Kraft sum of the symbols of length 1 to l. |
| `Canonical.Consecutive` | user/facet/gpu/stb_image.h:4138-4166 | Codes of one length are consecutive, in the order of their symbols (first rule of section 3.2.2 of RFC 1951). |
| `Canonical.ShorterFirst` | user/facet/gpu/stb_image.h:4138-4149 | Shorter codes come before longer ones, however they are continued (second rule). |
| `Canonical.PrefixFree` | user/facet/gpu/stb_image.h:4138-4149 | Canonical codes (section 3.2.2 of RFC 1951) of different symbols are never both prefixes of one bit string. |
| `Canonical.NoGaps` | user/facet/gpu/stb_image.h:4224-4235 | Every 16-bit value below the end of the codes of length l begins with the code of some symbol of length at most l. |
| `Canonical.PastTheEnd` | user/facet/gpu/stb_image.h:4224-4235 | A value at or past the end of the codes of length l begins with no code of length at most l. |
| `Canonical.MatchIsUnique` | user/facet/gpu/stb_image.h:4224-4271 | At most one symbol has its code as a prefix of the stream at a given bit. |
| `Canonical.SymbolAtIs` | user/facet/gpu/stb_image.h:4224-4271 | So the symbol at a position is determined: any symbol whose code matches there is the one. |
| `Huffman.CountSizes` | user/facet/gpu/stb_image.h:4130-4134 | The counting loop leaves in sizes[l], for every length l from 1 to 15, the number of symbols of that length. |
| `Huffman.SizesFit` | user/facet/gpu/stb_image.h:4135-4137 | The early test passes exactly when no length has more symbols than codes, so it refuses only lists that violate the Kraft inequality. |
| `Huffman.AssignCodes` | user/facet/gpu/stb_image.h:4138-4150 | The loop succeeds if and only if the list satisfies the Kraft inequality, and then first codes, first slots and shifted ends are those of the canonical code, the 16-bit casts losing nothing. |
| `Huffman.SlotInjective` | user/facet/gpu/stb_image.h:4154-4157 | Different symbols get different slots of size[] and value[]. |
| `Huffman.FillFast` | user/facet/gpu/stb_image.h:4159-4163 | The strided loop writes exactly the fast entries whose low s bits are the reversed code. |
| `Huffman.FastTableStep` | user/facet/gpu/stb_image.h:4158-4164 | Adding a symbol keeps every entry naming the one short-coded symbol it begins with; no entry is overwritten for another. |
| `Huffman.StoreFast` | user/facet/gpu/stb_image.h:4155-4164 | One symbol: the fast table of the first i symbols becomes that of the first i + 1. |
| `Huffman.FillTables` | user/facet/gpu/stb_image.h:4151-4167 | The whole second loop builds size, value and fast for all symbols. |
| `Huffman.BuildHuffman` | user/facet/gpu/stb_image.h:4124-4169 | For every list of at most 288 lengths in 0..15: accepted if and only if the Kraft inequality holds, and then all tables are right for the canonical code. |
| `BitReader.FastHit` | user/facet/gpu/stb_image.h:4263-4269 | A nonzero fast entry gives the symbol whose code comes next and the length of that code. |
| `BitReader.FastMiss` | user/facet/gpu/stb_image.h:4263-4271 | A zero fast entry means that the next 16 bits lie past all codes of up to nine bits, so the search may start at length ten. |
| `BitReader.SlowHit` | user/facet/gpu/stb_image.h:4230-4240 | The first length whose end exceeds the 16 bits holds the code, in the very slot that line 4235 computes, below 288 and of that length. |
| `BitReader.SlowMiss` | user/facet/gpu/stb_image.h:4233 | Reaching length 16 means that no code matches. |
| `BitReader.TopBits` | user/facet/gpu/stb_image.h:4229 | The reversed low 16 bits of the buffer are the next 16 stream bits, first one most significant. |
| `BitReader.BitBuffer.constructor` | user/facet/gpu/stb_image.h:4481-4491 | A fresh reader satisfies the buffer invariant. |
| `BitReader.BitBuffer.Get8` | user/facet/gpu/stb_image.h:4192-4200 | The next input byte, or 0 without moving once the input is used up. |
| `BitReader.BitBuffer.NoStrayBits` | user/facet/gpu/stb_image.h:4205 | From the invariant: code_buffer < 2^num_bits, so the guard on line 4205 is never true. |
| `BitReader.BitBuffer.FillBits` | user/facet/gpu/stb_image.h:4202-4212 | Refilling consumes nothing, keeps the invariant that the buffer holds exactly the next num_bits bits of the zero-padded stream, and leaves 25 to 32 bits, so that the bytes loaded are those up to four past the byte of the position; the branch on line 4205 is dead. |
| `BitReader.BitBuffer.Drop` | user/facet/gpu/stb_image.h:4219-4220 | Shifting out n bits consumes exactly n stream bits. |
| `BitReader.BitBuffer.Receive` | user/facet/gpu/stb_image.h:4214-4222 | Returns the next n stream bits, least significant first (section 3.1.1 of RFC 1951), and consumes them; says exactly how far the buffer is loaded afterwards. |
| `BitReader.BitBuffer.DecodeSlow` | user/facet/gpu/stb_image.h:4224-4241 | After a fast miss: the search stops, returns the unique symbol whose canonical code comes next or -1 if there is none, and the error returns on lines 4236 and 4237 are dead. |
| `BitReader.BitBuffer.PadOnce` | user/facet/gpu/stb_image.h:4247-4253 | The 16 implicit zero bits agree with the padded stream. |
| `BitReader.BitBuffer.Provide` | user/facet/gpu/stb_image.h:4246-4262 | Before a lookup: 16 bits by refilling or by the one-time padding, or giving up, exactly as the supply says. |
| `BitReader.BitBuffer.Lookup` | user/facet/gpu/stb_image.h:4263-4270 | With 16 bits buffered: the unique symbol whose canonical code comes next, or -1. |
| `BitReader.BitBuffer.Decode` | user/facet/gpu/stb_image.h:4243-4271 | One decode step returns the unique symbol whose canonical code comes next, or -1 if there is none; it gives up for want of bits exactly when the supply runs dry, which happens only past the input. |
| `BitReader.BitBuffer.AlignAndDrain` | user/facet/gpu/stb_image.h:4413-4422 | Skipping to a byte boundary and draining yields the next bytes of the padded stream and leaves the buffer empty. |
| `BitReader.BitBuffer.Drain` | user/facet/gpu/stb_image.h:4415-4422 | The drain loop empties the buffer byte by byte; num_bits never becomes negative, so line 4422 never fails. |
| `BitReader.BitBuffer.StoredHeader` | user/facet/gpu/stb_image.h:4423-4427 | However many header bytes were buffered, the length words are the little-endian words at the byte boundary. |
| `BitReader.BitBuffer.SkipBytes` | user/facet/gpu/stb_image.h:4432 | Moving over copied bytes keeps the invariant with an empty buffer. |
| `Deflate.LengthTable` | user/facet/gpu/stb_image.h:4295-4301 | The length table follows the rule of section 3.2.5 of RFC 1951: 3 first, ranges of 2^extra one after the other, four symbols for each number of extra bits, and 258 by itself. |
| `Deflate.DistTable` | user/facet/gpu/stb_image.h:4303-4307 | The distance table follows its rule: 1 first, ranges of 2^extra one after the other, two symbols for each number of extra bits. |
| `Deflate.OrderTable` | user/facet/gpu/stb_image.h:4361 | The order of the code length alphabet: 16, 17, 18, 0, then 8, 7, 9, 6 and so on outwards. |
| `Deflate.RepeatRange` | user/facet/gpu/stb_image.h:4387-4397 | Symbols 16, 17 and 18 say 3 to 6, 3 to 10 and 11 to 138 times, and nothing else. |
| `Deflate.FixedLengths` | user/facet/gpu/stb_image.h:4452-4478 | The fixed lengths, symbol by symbol as section 3.2.6 of RFC 1951 lists them. |
| `Deflate.TokenRefused` | user/facet/gpu/stb_image.h:4335-4343 | Symbols 286 and 287, distance symbols 30 and 31, and distances before the output are refused. |
| `Deflate.RepeatRefused` | user/facet/gpu/stb_image.h:4389-4398 | A repetition without predecessor or beyond the total is refused. |
| `Deflate.StoredIs` | user/facet/gpu/stb_image.h:4426-4433 | A stored block is good exactly when its two length words are complements and its bytes are there. |
| `Deflate.ReservedKind` | user/facet/gpu/stb_image.h:4494-4495 | Block type 3 is refused. |
| `Deflate.CopyBackBytes` | user/facet/gpu/stb_image.h:4348-4354 | In the reference copy every byte equals the byte dist before it, overlaps included. |
| `Deflate.CopyBackGrows` | user/facet/gpu/stb_image.h:4348-4354 | A copy adds exactly len bytes and changes none that were there. |
| `Deflate.ReadTokensMono` | user/facet/gpu/stb_image.h:4309-4357 | Reading more tokens never changes a result already reached, and otherwise only moves forward and extends the output. |
| `Deflate.BlockMeaning` | user/facet/gpu/stb_image.h:4309-4357 | A compressed block has one meaning: the end and output that any sufficient number of tokens reaches. |
| `Deflate.FixedCodesComplete` | user/facet/gpu/stb_image.h:4452-4478 | The fixed code lengths are valid and fill their code spaces exactly. |
| `Deflate.StreamMeaning` | user/facet/gpu/stb_image.h:4481-4508 | A stream has one meaning: what any sufficient number of blocks reaches. |
| `Deflate.NothingInThePadding` | user/facet/gpu/stb_image.h:4481-4508 | No block can start in the zero padding, so the block loop ends. |
| `Deflate.EmptyFixedMeaning` | user/facet/gpu/stb_image.h:4496-4504 | A final fixed block that starts with the end-of-block symbol means the empty output and ends ten bits on. |
| `Deflate.TruncatedExample` | user/facet/gpu/stb_image.h:4326-4332 | The single byte 3 (without a zlib header) has a meaning only by two padding bits: it ends at bit 10. |
| `Deflate.ReadStoredChunk` | user/facet/gpu/stb_image.h:4409-4435 | A stored block written on a byte boundary is read back, whatever comes before and after it. |
| `Deflate.StoredRoundTrip` | user/facet/gpu/stb_image.h:4409-4435 | Any sequence of chunks of up to 65535 bytes, written as stored blocks, is read back as their concatenation. |
| `Refill.DecodeTest` | user/facet/gpu/stb_image.h:4246-4262 | A decode gives up exactly when the input is used up, the extra bytes were added and fewer than 16 bits are left. |
| `Refill.EndTest` | user/facet/gpu/stb_image.h:4326-4332 | The end of a block is refused exactly when it lies in the two bytes that were added last. |
| `Refill.CompressedSupplyIs` | user/facet/gpu/stb_image.h:4309-4357 | How far the buffer is loaded along a compressed block is a function of the stream alone: the same at its end however far one reads, and dry if it ran dry on the way. |
| `Refill.StreamSupplyIs` | user/facet/gpu/stb_image.h:4481-4508 | The same for a whole stream. |
| `Refill.SoundToken` | user/facet/gpu/stb_image.h:4312-4356 | Along a token at most 32 bits are buffered, the 16 extra bits are added only after the end of the input, and the supply runs dry only past it; a token has at most 48 bits. |
| `Refill.SoundCodes` | user/facet/gpu/stb_image.h:4359-4407 | The same along the code lengths of a dynamic block; if the block began in the input and the supply lasts, they end at most 121 bits past it. |
| `Refill.SoundBlock` | user/facet/gpu/stb_image.h:4489-4506 | The same along every block. |
| `Refill.InsideIsSupplied` | user/facet/gpu/stb_image.h:4243-4271 | A stream whose meaning ends inside the input is never short of bits: neither the -1 on line 4257 nor the refusal on line 4331 occurs. |
| `Refill.PaddingSymbol` | user/facet/gpu/stb_image.h:4197-4200 | In the padding every position reads the same symbol. |
| `Refill.TokensEnd` | user/facet/gpu/stb_image.h:4309-4357 | A compressed block ends at most 15 bits after its first token position or 62 bits past the input. |
| `Refill.SuppliedEndsSoon` | user/facet/gpu/stb_image.h:4326-4333 | A stream along which the supply lasts ends at most 136 bits past the input, so every stream that overruns by more is refused. |
| `Refill.EmptyFixedSupplied` | user/facet/gpu/stb_image.h:4326-4333 | The supply lasts along an empty fixed block at the start, even if the input stops inside it. |
| `Shift.MeaningShift` | user/facet/gpu/stb_image.h:4481-4508 | What a stream means does not depend on the bytes in front of it. |
| `Shift.StreamOn` | user/facet/gpu/stb_image.h:4481-4508 | Nor does the supply of bits along it. |
| `Inflate.ZBuf.constructor` | user/facet/gpu/stb_image.h:4510-4516 | The state that a decoding run starts from. |
| `Inflate.ZBuf.Expand` | user/facet/gpu/stb_image.h:4273-4293 | Growth keeps the output and makes the room asked for; it fails exactly for a fixed buffer or a need beyond what doubling reaches. |
| `Inflate.ZBuf.PutLiteral` | user/facet/gpu/stb_image.h:4314-4320 | Appends one byte, growing if needed; fails exactly when there is no room. |
| `Inflate.ZBuf.CopyMatch` | user/facet/gpu/stb_image.h:4348-4354 | Both copy loops, the dist == 1 shortcut and the general one, append what the byte-by-byte reading gives. |
| `Inflate.ZBuf.ReadDistance` | user/facet/gpu/stb_image.h:4336-4342 | Reads the rest of a copy token; succeeds exactly when the token is good and the supply of bits lasts. |
| `Inflate.ZBuf.PutCopy` | user/facet/gpu/stb_image.h:4343-4354 | Succeeds exactly when the distance stays within the output and the copy fits, and then appends it. |
| `Inflate.ZBuf.CopyToken` | user/facet/gpu/stb_image.h:4336-4355 | The whole copy branch against one copy token of the format: success exactly when it is good, fits, and the supply lasts. |
| `Inflate.ZBuf.OneToken` | user/facet/gpu/stb_image.h:4312-4356 | One round of the loop is one step of the format: same output, position and supply. It fails exactly when the step is corrupt, does not fit, or the supply runs dry, by starving or at the end-of-block test. |
| `Inflate.ZBuf.HuffmanBlock` | user/facet/gpu/stb_image.h:4309-4357 | Terminates; succeeds if and only if the block has a meaning (sections 3.2.3 and 3.2.5 of RFC 1951) that fits and the supply lasts, and then has appended exactly that meaning. |
| `Inflate.ZBuf.CodeLengthCode` | user/facet/gpu/stb_image.h:4372-4376 | The code length alphabet is read in its permuted order, with the supply that goes with it. |
| `Inflate.ZBuf.RepeatTimes` | user/facet/gpu/stb_image.h:4387-4397 | The repeat counts of symbols 16, 17 and 18. |
| `Inflate.ZBuf.OneLength` | user/facet/gpu/stb_image.h:4380-4402 | One round of reading code lengths is one step of section 3.2.7 of RFC 1951; it fails exactly for a bad symbol, a repeat without predecessor or beyond the total, or a dry supply. |
| `Inflate.ZBuf.CodeLengths` | user/facet/gpu/stb_image.h:4379-4403 | The loop terminates and reads exactly the announced number of lengths, if and only if they are good and the supply lasts. |
| `Inflate.ZBuf.ComputeCodes` | user/facet/gpu/stb_image.h:4359-4407 | Both dynamic codes with tables for them, if and only if the header has a meaning and the supply lasts. |
| `Inflate.ZBuf.HeaderInside` | user/facet/gpu/stb_image.h:4426-4429 | A stored header that runs past the input can never pass both tests, although the padding supplies its missing bytes. |
| `Inflate.ZBuf.PutStored` | user/facet/gpu/stb_image.h:4430-4433 | The stored bytes are appended, growing if needed; fails exactly when there is no room. |
| `Inflate.ZBuf.StoredBlockBody` | user/facet/gpu/stb_image.h:4409-4435 | A stored block is read as section 3.2.4 of RFC 1951 says, whatever the bit buffer held; succeeds if and only if it has a meaning that fits. |
| `Inflate.ZBuf.FixedTables` | user/facet/gpu/stb_image.h:4496-4500 | Building the fixed tables always succeeds and gives tables of the fixed codes. |
| `Inflate.ZBuf.BlockOf` | user/facet/gpu/stb_image.h:4492-4505 | Block types 0 to 2 succeed if and only if they have a meaning that fits and the supply lasts; type 3 is refused. |
| `Inflate.ZBuf.Blocks` | user/facet/gpu/stb_image.h:4489-4507 | The block loop terminates on every input; it succeeds if and only if the stream has a meaning that fits and the supply lasts, and then has produced that meaning. |
| `Inflate.DoZlib` | user/facet/gpu/stb_image.h:4437-4518 | On every input: success if and only if the wrapper is good, the stream has a meaning that fits, and the supply of bits lasts; then the output is that meaning, and it ends at most 136 bits past the input. |
| `Inflate.HeaderBits` | user/facet/gpu/stb_image.h:4438-4450 | The header test in numbers: method in the low four bits, dictionary bit, divisibility by 31, and a byte behind it. |
| `Inflate.HeaderDecides` | user/facet/gpu/stb_image.h:4438-4450 | A header with good check bits (section 2.2 of RFC 1950) is accepted for method 8 without a dictionary, whatever window size and level it names, and for nothing else. |
| `Inflate.DecodeWrapped` | user/facet/gpu/stb_image.h:4437-4518 | Behind a good header every stream is decoded exactly as it is alone: same answer, same output. |
| `Inflate.RefuseOther` | user/facet/gpu/stb_image.h:4446-4447 | Any other method, or a dictionary, is refused whatever follows. |
| `Inflate.Cap` | user/facet/gpu/stb_image.h:4280-4285 | Doubling from any initial size reaches at least 2^31. |
| `Inflate.InitialSizeIsIrrelevant` | user/facet/gpu/stb_image.h:4273-4293 | Two runs with different initial sizes of a growing buffer agree on every input whose meaning, if any, has at most 2^31 bytes. |
| `Inflate.AcceptsTruncated` | user/facet/gpu/stb_image.h:4326-4332 | The end-of-block test does not catch every truncated stream: decoding the single byte 3 without header succeeds with the empty output, although its meaning ends two bits past the input. |
| `DeflateEncoder.LengthSteps` | user/facet/gpu/stb_image.h:4295-4301 | Consecutive length symbols leave no length out: each range reaches the base of the next. |
| `DeflateEncoder.DistSteps` | user/facet/gpu/stb_image.h:4303-4307 | Each distance range ends exactly where the next begins. |
| `DeflateEncoder.LengthIndex` | user/facet/gpu/stb_image.h:4295-4301 | Every length from 3 to 258 lies in the range of some symbol. |
| `DeflateEncoder.DistIndex` | user/facet/gpu/stb_image.h:4303-4307 | Every distance from 1 to 32768 lies in the range of some symbol. |
| `DeflateEncoder.SymbolRead` | user/facet/gpu/stb_image.h:4224-4271 | Where the canonical code of a symbol was written, that symbol is read. |
| `DeflateEncoder.CopyRead` | user/facet/gpu/stb_image.h:4336-4342 | Where the four parts of a copy token were written, that copy is read. |
| `DeflateEncoder.TokensRead` | user/facet/gpu/stb_image.h:4309-4357 | For any two codes and any tokens that they can say, written tokens are read one by one and expand to what they stand for. |
| `DeflateEncoder.BlockRead` | user/facet/gpu/stb_image.h:4309-4357 | A written block, ended by the end-of-block symbol, means exactly the expansion of its tokens. |
| `DeflateEncoder.OpRead` | user/facet/gpu/stb_image.h:4380-4402 | Where a code length or a repetition (symbols 16 to 18) was written, it is read. |
| `DeflateEncoder.LengthsRead` | user/facet/gpu/stb_image.h:4379-4403 | However a list of code lengths was written, with or without repetitions, it is read back. |
| `DeflateEncoder.AllSizesRead` | user/facet/gpu/stb_image.h:4372-4376 | The nineteen lengths of the code length code, written in their permuted order, are read back. |
| `DeflateEncoder.HeaderRead` | user/facet/gpu/stb_image.h:4359-4407 | A written dynamic header is read back as its two codes. |
| `DeflateEncoder.EveryCodeWritable` | user/facet/gpu/stb_image.h:4359-4407 | Every two codes of admissible sizes can be written as a dynamic header. |
| `DeflateEncoder.BodyRead` | user/facet/gpu/stb_image.h:4492-4505 | A written block body of either kind means the expansion of its tokens. |
| `DeflateEncoder.StreamRead` | user/facet/gpu/stb_image.h:4481-4508 | Written blocks are read one after the other, copies reaching back across blocks. |
| `DeflateEncoder.PackCarries` | user/facet/gpu/stb_image.h:4202-4222 | Packing bits into bytes, lowest bit first, puts each bit where reading looks for it (section 3.1.1 of RFC 1951). |
| `DeflateEncoder.EncodeRoundTrip` | user/facet/gpu/stb_image.h:4481-4508 | For every sequence of fixed and dynamic blocks, whatever the codes, the way of writing their lengths and the tokens, as long as no copy reaches before the output: the packed stream means what the tokens stand for. |
| `DeflateEncoder.EncodeAndInflate` | user/facet/gpu/stb_image.h:4481-4518 | And the decoder returns exactly that, from any initial size of a growing buffer. |
| `PngFilter.PaethIsPredictor` | user/facet/gpu/stb_image.h:4657-4668 | The branch-free formulation equals the predictor of section 9.4 of PNG (Second Edition), ties included, for all integers. |
| `PngFilter.ClosestNeighbour` | user/facet/gpu/stb_image.h:4657-4668 | The predictor is the neighbour closest to a + b - c, ties going to a, then b. |
| `PngFilter.FirstRow` | user/facet/gpu/stb_image.h:4648-4655 | With zeros above, the substituted first-row filter reconstructs the same bytes for each of the five filter types. |
| `PngFilter.ReconUndoesFilter` | user/facet/gpu/stb_image.h:4754-4787 | Reconstruction undoes filtering of one scanline, for every filter type, prior line and pixel size. |
| `PngFilter.RowsRoundTrip` | user/facet/gpu/stb_image.h:4737-4787 | Reconstruction undoes filtering for every sequence of rows and filter choices, whatever data follows. |
| `PngFilter.FilterTypes` | user/facet/gpu/stb_image.h:4754-4784 | What each of the five filter types rebuilds, in terms of the bytes to the left, above and above left (section 9.2 of PNG, Second Edition). |
| `PngFilter.ImageBytes` | user/facet/gpu/stb_image.h:4737-4787 | The same for every byte of an image: where its line and its filter type lie in the data, and which line is above. |
| `PngFilter.FilterBuffer.RowNone` | user/facet/gpu/stb_image.h:4756-4758 | Rebuilds the line of filter type 0 and leaves the prior half alone. |
| `PngFilter.FilterBuffer.RowSub` | user/facet/gpu/stb_image.h:4759-4763 | The same for Sub. |
| `PngFilter.FilterBuffer.RowUp` | user/facet/gpu/stb_image.h:4764-4767 | The same for Up, reading the prior half. |
| `PngFilter.FilterBuffer.RowAvg` | user/facet/gpu/stb_image.h:4768-4773 | The same for Average. |
| `PngFilter.FilterBuffer.RowPaeth` | user/facet/gpu/stb_image.h:4774-4779 | The same for Paeth, with the shortcut for the first pixel. |
| `PngFilter.FilterBuffer.RowAvgFirst` | user/facet/gpu/stb_image.h:4780-4784 | The same for the synthetic first-row Average. |
| `PngFilter.FilterBuffer.Row` | user/facet/gpu/stb_image.h:4751-4785 | The substitution and the switch rebuild the line as the specification says, with zeros above the first. |
| `PngFilter.FilterBuffer.Scanline` | user/facet/gpu/stb_image.h:4737-4787 | With alternating halves line j finds line j - 1 in the other half; refused exactly for a filter type above 4. |
| `PngFilter.Unfilter` | user/facet/gpu/stb_image.h:4720-4787 | The scanline loop computes the reconstruction of all rows, and fails exactly when data is missing or a filter type is above 4. |
| `PngSamples.FilterBytesIs` | user/facet/gpu/stb_image.h:4708-4735 | Filters reach back by the bytes of a whole pixel, or by one byte for depths below 8. |
| `PngSamples.RowBytesIs` | user/facet/gpu/stb_image.h:4718 | A scanline has exactly as many bytes as its bits need. |
| `PngSamples.PixelFits` | user/facet/gpu/stb_image.h:4708-4735 | A line of at least one pixel has at least one pixel of bytes, so the first pixel can be filtered. |
| `PngSamples.ScaleIsExact` | user/facet/gpu/stb_image.h:4670 | The scale table maps greyscale samples below 8 bits linearly onto 0..255, without overflow. |
| `PngSamples.OutUnscaled` | user/facet/gpu/stb_image.h:4791 | Palette indices and samples of 8 or 16 bits are put out unscaled. |
| `PngSamples.OpaqueIsTop` | user/facet/gpu/stb_image.h:4672-4693 | Opaque is the highest value of an output sample. |
| `PngSamples.RawIsSpelled` | user/facet/gpu/stb_image.h:4789-4834 | For every depth a sample is what its bits spell, most significant first, one sample after the other (section 7.2 of PNG, Second Edition). |
| `PngSamples.ShiftOut` | user/facet/gpu/stb_image.h:4797-4817 | Shifting a byte left with truncation brings one sample after the other to the top, leftmost first. |
| `PngSamples.Unpack4` | user/facet/gpu/stb_image.h:4798-4803 | The loop for four bits puts out every sample of the line, scaled. |
| `PngSamples.Unpack2` | user/facet/gpu/stb_image.h:4804-4809 | The same for two bits. |
| `PngSamples.Unpack1` | user/facet/gpu/stb_image.h:4810-4816 | The same for one bit. |
| `PngSamples.AlphaExpand1` | user/facet/gpu/stb_image.h:4672-4685 | Adding an alpha channel to one channel, also in place: the backward loop never overwrites a sample that it still needs. |
| `PngSamples.AlphaExpand3` | user/facet/gpu/stb_image.h:4672-4693 | The same for three channels. |
| `PngSamples.Wide` | user/facet/gpu/stb_image.h:4827-4834 | The 16-bit loop converts every sample from big-endian. |
| `PngSamples.WideAlpha` | user/facet/gpu/stb_image.h:4835-4851 | The 16-bit loops with an opaque alpha channel. |
| `PngSamples.NarrowAlpha` | user/facet/gpu/stb_image.h:4819-4826 | Up to 8 bits with an opaque alpha channel, in place after unpacking or out of the filter buffer. |
| `PngSamples.NoAlpha` | user/facet/gpu/stb_image.h:4790-4834 | All depths without an added alpha channel. |
| `PngSamples.ExpandRow` | user/facet/gpu/stb_image.h:4789-4852 | For every number of channels and every depth, with and without alpha: the pixels of a line are those that its bytes hold. |
| `PngSamples.PixelSamples` | user/facet/gpu/stb_image.h:4789-4852 | The samples of a pixel follow each other in the line, and the alpha sample comes last. |
| `PngSamples.JoinedAt` | user/facet/gpu/stb_image.h:4797-4817 | Samples put side by side into a number are found where they were put. |
| `PngSamples.PackedPixel` | user/facet/gpu/stb_image.h:4789-4852 | For every format, pixels packed into a line are read back. |
| `Adam7.PassOfIsMatrix` | user/facet/gpu/stb_image.h:4873-4876 | The origins and spacings describe the 8 by 8 matrix of section 8.2 of PNG (Second Edition). |
| `Adam7.SizesExact` | user/facet/gpu/stb_image.h:4879-4880 | Evaluated in wrapping unsigned arithmetic, the pass sizes are the true sample counts: sample i exists exactly when its coordinate is inside the image. |
| `Adam7.OnePass` | user/facet/gpu/stb_image.h:4873-4876 | Every pixel lies on the lattice of exactly one pass. |
| `Adam7.PassesPartition` | user/facet/gpu/stb_image.h:4870-4901 | Samples and pixels correspond one to one, inside the image on both sides. |
| `Adam7.PassOrder` | user/facet/gpu/stb_image.h:4888-4891 | Within a pass samples go from left to right and lines from top to bottom. |
| `Adam7.RowMajor` | user/facet/gpu/stb_image.h:4892-4893 | The image is stored row by row, from left to right, without gaps. |
| `Adam7.CopyLine` | user/facet/gpu/stb_image.h:4888-4893 | Copying a line of pixels writes its own pixels and no other. |
| `Adam7.CopyPass` | user/facet/gpu/stb_image.h:4887-4894 | Copying a pass writes the pixels of that pass and no other. |
| `Adam7.RawImage` | user/facet/gpu/stb_image.h:4695-4859 | The pixels of all lines of an image or a pass; fails exactly when data is missing or a filter type is above 4. |
| `Adam7.PlacePass` | user/facet/gpu/stb_image.h:4887-4894 | The pixels of a pass go to their places in the image and nowhere else. |
| `Adam7.Deinterlace` | user/facet/gpu/stb_image.h:4861-4905 | For an image of any format: every pixel of the result is its sample in its pass; it fails exactly when one of the seven passes does. |
| `Adam7.PassesRoundTrip` | user/facet/gpu/stb_image.h:4870-4901 | Reading seven filtered passes back gives their scanlines, for every choice of filter types; passes without samples are absent. |
| `Adam7.InterlaceRoundTrip` | user/facet/gpu/stb_image.h:4861-4905 | Whatever places the passes correctly restores the interlaced image. |
| `Adam7.InterlaceAndDecode` | user/facet/gpu/stb_image.h:4861-4905 | Packing, interlacing, filtering and decoding with the loops above returns the image, for every size up to 2^24 by 2^24, every format and every filter choice. |
| `Adam7.FilterAndDecode` | user/facet/gpu/stb_image.h:4866-4868 | The same for an image without interlacing, whatever data follows. |
| `Permutations.GenCount` | benchmarks/fannkuch.c:64-85 | The rotation scheme visits m! permutations at level m. |
| `Permutations.GenSound` | benchmarks/fannkuch.c:64-85 | All of them rearrange only the first m elements. |
| `Permutations.GenComplete` | benchmarks/fannkuch.c:64-85 | Every rearrangement of the first m elements is visited. |
| `Permutations.GenOnce` | benchmarks/fannkuch.c:64-85 | None is visited twice. |
| `Permutations.GenAt` | benchmarks/fannkuch.c:64-85 | Which permutation is visited at each position, written in the factorial number system: each level rotates its prefix as often as its digit says. |
| `Permutations.EveryPosition` | benchmarks/fannkuch.c:64-85 | Every number below m! is such a position. |
| `Permutations.PermIffSameElements` | benchmarks/fannkuch.c:17-20 | A sequence is a permutation of 0..n-1 exactly when it has the same multiset of elements as the identity. |
| `Permutations.VisitsEachOnce` | benchmarks/fannkuch.c:17-86 | From the identity, level n visits every permutation of 0..n-1 exactly once. |
| `Fannkuch.FlipRaises` | benchmarks/fannkuch.c:38-50 | A prefix reversal keeps a permutation a permutation and strictly raises the sum of 2^i over the fixed positions i >= 1. |
| `Fannkuch.FlipsBound` | benchmarks/fannkuch.c:38-50 | So the number of flips is below 2^n. |
| `Fannkuch.FlipsIsFirst` | benchmarks/fannkuch.c:35-50 | The flip count is the first number of flips that brings 0 to the front. |
| `Fannkuch.Reverse` | benchmarks/fannkuch.c:40-48 | The two-pointer loop reverses the first k + 1 elements in place and keeps the rest. |
| `Fannkuch.CountFlips` | benchmarks/fannkuch.c:35-50 | Terminates on every permutation with the number of flips that bring 0 to the front. |
| `Fannkuch.Unroll` | benchmarks/fannkuch.c:64-85 | A level with rotations left runs through exactly the blocks that remain and ends where it began. |
| `Fannkuch.ResetStep` | benchmarks/fannkuch.c:26-29 | Resetting a counter opens the next lower level without changing what is still to be visited. |
| `Fannkuch.ResetCounters` | benchmarks/fannkuch.c:26-29 | The resetting loop as a whole changes nothing of what is to come. |
| `Fannkuch.Rotate` | benchmarks/fannkuch.c:74-78 | The shifting loop rotates the prefix of length r + 1 by one place. |
| `Fannkuch.NextPermutation` | benchmarks/fannkuch.c:64-85 | Either nothing is left and the permutation is where the run ends, or what was left is exactly what the new level and counters will visit. |
| `Fannkuch.Arrive` | benchmarks/fannkuch.c:24-33 | What was visited, the current permutation and what is to come always make up the whole run. |
| `Fannkuch.Depart` | benchmarks/fannkuch.c:64-85 | Moving on keeps that, or the run is complete and at the identity. |
| `Fannkuch.FlipsOf` | benchmarks/fannkuch.c:31-50 | Copies the permutation and counts its flips, leaving the generator alone. |
| `Fannkuch.Account` | benchmarks/fannkuch.c:52-61 | Maximum and alternating sum after one more permutation. |
| `Fannkuch.ChecksumSigns` | benchmarks/fannkuch.c:56-61 | Flip counts at even positions are added, at odd ones subtracted. |
| `Fannkuch.TwoElements` | benchmarks/fannkuch.c:8-87 | For two elements the order is identity, swapped, and the checksum is -1. |
| `Fannkuch.Fannkuch` | benchmarks/fannkuch.c:8-87 | For every n >= 1: the permutations are visited in the order of the rotation scheme, each exactly once, perm_count ends at n!, perm1 ends at the identity, max_flips is the largest flip count of any permutation and below 2^n, and the checksum is the alternating sum. |
| `ProbeTable.MaxLoadIs` | benchmarks/hashmap_bench.c:61 | The load limit is seven eighths of the capacity, rounded down. |
| `ProbeTable.HashSplit` | benchmarks/hashmap_bench.c:72-74 | The low seven bits of the hash are the tag, the remainder of the others is the first slot. |
| `ProbeTable.EmptyMeansAbsent` | benchmarks/hashmap_bench.c:86-87 | An empty slot on the probe path proves that the key is stored nowhere. |
| `ProbeTable.NotAllPassed` | benchmarks/hashmap_bench.c:77-92 | A probe can pass all slots only in a table without an empty one. |
| `ProbeTable.StoreKeeps` | benchmarks/hashmap_bench.c:120-129 | Storing an absent key in an unused slot its probe reached (a tombstone or the empty slot) keeps keys unique and none hidden behind an empty slot. |
| `ProbeTable.DeleteKeeps` | benchmarks/hashmap_bench.c:157 | A tombstone hides nothing. |
| `ProbeTable.CountsAfter` | benchmarks/hashmap_bench.c:122-127 | How writing one control byte changes the counts of full and of used slots. |
| `ProbeTable.HasEmpty` | benchmarks/hashmap_bench.c:77-92 | A table with fewer used slots than slots has an empty one. |
| `HashMap.HashMap.constructor` | benchmarks/hashmap_bench.c:38-64 | A new map is empty, with capacity 0, or the smallest doubling of 8 that is enough. |
| `HashMap.HashMap.LoadAccount` | benchmarks/hashmap_bench.c:38-64 | growth_left plus full slots plus tombstones is 7*cap/8, in every reachable state. |
| `HashMap.HashMap.EmptySlot` | benchmarks/hashmap_bench.c:38-64 | growth_left plus full slots plus tombstones is 7*cap/8, so a table with capacity always has an empty slot. |
| `HashMap.HashMap.Get` | benchmarks/hashmap_bench.c:68-93 | Returns the value bound to the key, or 0 if it is absent; the loop always ends at a hit or an empty slot. |
| `HashMap.HashMap.Remove` | benchmarks/hashmap_bench.c:143-170 | Removes exactly the binding of the key and reports whether there was one. |
| `HashMap.HashMap.InsertProbe` | benchmarks/hashmap_bench.c:100-141 | Binds the key, reusing the first tombstone on its path; the fall-through on lines 135 to 140 is unreachable. |
| `HashMap.HashMap.Overwrite` | benchmarks/hashmap_bench.c:109-114 | Replaces the value of a stored key. |
| `HashMap.HashMap.Store` | benchmarks/hashmap_bench.c:120-129 | Adds a binding in an unused slot; only an empty slot is charged to the load account. |
| `HashMap.HashMap.Insert` | benchmarks/hashmap_bench.c:95-141 | Binds the key to the value and changes nothing else, growing first when the load limit is reached; works on capacity 0. |
| `HashMap.HashMap.Rehash` | benchmarks/hashmap_bench.c:183-193 | The inner loop of growing terminates at an empty slot and adds one entry. |
| `HashMap.HashMap.Grow` | benchmarks/hashmap_bench.c:172-204 | All bindings survive, tombstones disappear, and growth_left is positive. |
| `LongestConsecutive.HashSet.constructor` | benchmarks/longest_consecutive.c:29-42 | A new set is empty, with the smallest doubling of 8 that is enough. |
| `LongestConsecutive.HashSet.Contains` | benchmarks/longest_consecutive.c:95-113 | True exactly for members. |
| `LongestConsecutive.HashSet.Fill` | benchmarks/longest_consecutive.c:89-92 | Adds a key at the empty slot that ended its probe. |
| `LongestConsecutive.HashSet.Insert` | benchmarks/longest_consecutive.c:75-93 | Adds the key and nothing else, growing first if needed; its unbounded probe loop terminates. |
| `LongestConsecutive.HashSet.Rehash` | benchmarks/longest_consecutive.c:59-68 | Moves one key into the larger table. |
| `LongestConsecutive.HashSet.Grow` | benchmarks/longest_consecutive.c:44-73 | The set is the same and has room. |
| `LongestConsecutive.Collect` | benchmarks/longest_consecutive.c:126-129 | The set holds exactly the elements of the array. |
| `LongestConsecutive.RunFits` | benchmarks/longest_consecutive.c:136-138 | A run of consecutive members is no longer than the set, so the counting loop ends. |
| `LongestConsecutive.RunStart` | benchmarks/longest_consecutive.c:134-135 | Every run extends to one at least as long that starts at an element nothing precedes. |
| `LongestConsecutive.RunLength` | benchmarks/longest_consecutive.c:136-138 | The longest run that starts at the element. |
| `LongestConsecutive.BestOfAll` | benchmarks/longest_consecutive.c:132-142 | A bound on the runs from such starts bounds all runs. |
| `LongestConsecutive.LongestConsecutive` | benchmarks/longest_consecutive.c:122-146 | The largest L such that some a..a+L-1 all occur in the array, duplicates and the empty array included. |
| `LruCache.RemoveNode` | benchmarks/lru_cache.c:44-47 | Unlinking an inner node of a doubly linked list leaves the list of the others, linked both ways. |
| `LruCache.AddToHead` | benchmarks/lru_cache.c:49-54 | Linking a node behind the head sentinel gives the list with it in second place. |
| `LruCache.LRUCache.constructor` | benchmarks/lru_cache.c:29-42 | A new cache is empty and well formed. |
| `LruCache.LRUCache.MoveToFront` | benchmarks/lru_cache.c:59-60 | Unlinking and relinking a listed node makes it the first entry, keeps list, index and order of use in step. |
| `LruCache.LRUCache.Get` | benchmarks/lru_cache.c:56-64 | A hit returns the value and moves the entry to the front; a miss returns -1 and changes nothing. |
| `LruCache.LRUCache.SetVal` | benchmarks/lru_cache.c:69 | The value of a listed key is replaced in place. |
| `LruCache.LRUCache.AddNew` | benchmarks/lru_cache.c:73-76 | A new entry in front, indexed, counted and most recently used. |
| `LruCache.LRUCache.EvictLast` | benchmarks/lru_cache.c:77-82 | The entry dropped was used less recently than every entry that stays, and its index slot is cleared. |
| `LruCache.LRUCache.Put` | benchmarks/lru_cache.c:66-85 | The whole effect on the list in order of use; count stays at most capacity, for every capacity including 0 and negative ones. |
| `LruCache.GetKeepsBindings` | benchmarks/lru_cache.c:56-64 | Reading changes no binding. |
| `LruCache.PutBindings` | benchmarks/lru_cache.c:66-85 | For every capacity: writing binds the key and unbinds at most the last listed key, and only to make room for a new one; a cache without capacity stays empty. |
| `Sudoku.CompletesIffSolves` | benchmarks/sudoku_solver.c:28-46 | On a conflict-free board of digits, completing the empty cells and solving the puzzle are the same. |
| `Sudoku.Branch` | benchmarks/sudoku_solver.c:33-40 | The completions of a board are those of its successors with an allowed digit in one empty cell. |
| `Sudoku.LinesFree` | benchmarks/sudoku_solver.c:8-12 | The first loop sees exactly the row and the column. |
| `Sudoku.BoxFree` | benchmarks/sudoku_solver.c:14-23 | The second loop sees exactly the box. |
| `Sudoku.CanPlace` | benchmarks/sudoku_solver.c:7-26 | True exactly when neither the cell nor a cell of its row, column or box holds the digit. |
| `Sudoku.Solve` | benchmarks/sudoku_solver.c:28-46 | For every board: terminates, returns true with a completion of the board if and only if one exists, and on false leaves the board as it was. |
| `Flatten.DevQuarters` | user/facet/raster/facet_raster.c:143-158 | A split quarters the deviation of the control point, on both sides alike. |
| `Flatten.QuadHalves` | user/facet/raster/facet_raster.c:155-158 | The two half curves trace the curve. |
| `Flatten.QuadFlatnessDrops` | user/facet/raster/facet_raster.c:143-161 | So the squared flatness drops to a sixteenth: the recursion terminates. |
| `Flatten.QuadFlatnessIs` | user/facet/raster/facet_raster.c:143-150 | The flatness of a quadratic is the squared distance of the control point from the middle of the chord. |
| `Flatten.FlattenQuad` | user/facet/raster/facet_raster.c:140-162 | Terminates for every positive tolerance, and the last point emitted is the end point. |
| `Flatten.QuadSamples` | user/facet/raster/facet_raster.c:140-162 | All leaves lie at one depth k, and the emitted points are exactly the curve at i/2^k for i = 1..2^k. |
| `Flatten.QuadWithinTolerance` | user/facet/raster/facet_raster.c:140-162 | Every point of the curve is within the tolerance of the emitted polyline. |
| `Flatten.MaxSqDrops` | user/facet/raster/facet_raster.c:167-189 | The larger flatness vector at least halves per split. |
| `Flatten.CubicHalves` | user/facet/raster/facet_raster.c:183-189 | The two half curves trace the cubic. |
| `Flatten.CubicFlatnessIs` | user/facet/raster/facet_raster.c:167-178 | The flatness of a cubic: coordinate by coordinate the larger of the two flatness vectors, squared and added. |
| `Flatten.CubicFlatnessDrops` | user/facet/raster/facet_raster.c:164-192 | The flatness measure drops to a quarter or less on both sides: the recursion terminates. |
| `Flatten.FlattenCubic` | user/facet/raster/facet_raster.c:164-193 | Terminates for every positive tolerance and ends at the end point. |
| `Flatten.CubicOffChord` | user/facet/raster/facet_raster.c:167-176 | How far the cubic leaves its chord, in terms of the two flatness vectors. |
| `Flatten.CubicWithinTolerance` | user/facet/raster/facet_raster.c:164-193 | Every point of the cubic is within the tolerance of the emitted polyline. |
| `Raster.EdgeIsChord` | user/facet/raster/facet_raster.c:236-245 | An edge joins the points of its chord, the upper one first, with the direction of the chord; dropped are chords that rise or fall by less than 0.001. |
| `Raster.Tolerances` | user/facet/raster/facet_raster.c:338 | The thresholds are those of a tolerance of 0.25. |
| `Raster.QuadChordsAtMost` | user/facet/raster/facet_raster.c:248-267 | The depth limit: at most 2^17 chords for a curve. |
| `Raster.CubicChordsAtMost` | user/facet/raster/facet_raster.c:269-296 | The same for a cubic. |
| `Raster.QuadChordsFlatten` | user/facet/raster/facet_raster.c:248-267 | Up to a flatness of 16^17 times the threshold the depth limit does not bind: the chords join exactly the points of the unbounded flattening. |
| `Raster.CubicChordsFlatten` | user/facet/raster/facet_raster.c:269-296 | The same for a cubic, up to 4^17 times the threshold. |
| `Raster.QuadOutline` | user/facet/raster/facet_raster.c:338-357 | Then every point of a quadratic is within 0.25 of the chords that are filled. |
| `Raster.CubicOutline` | user/facet/raster/facet_raster.c:338-362 | The same for a cubic. |
| `Raster.CommandOutline` | user/facet/raster/facet_raster.c:341-368 | Every point that a command draws from the pen, with its control points in order, is within 0.25 of its chords; moving draws nothing. |
| `Raster.QuadTelescopes` | user/facet/raster/facet_raster.c:248-267 | However a quadratic was subdivided (the depth limit included), its chords together cross a scanline as a single chord from beginning to end would. |
| `Raster.CubicTelescopes` | user/facet/raster/facet_raster.c:269-296 | The same for a cubic. |
| `Raster.CmdTelescopes` | user/facet/raster/facet_raster.c:345-367 | Each path command changes the count by the change of the pen position relative to the start of its sub-path. |
| `Raster.PathTelescopes` | user/facet/raster/facet_raster.c:341-368 | So the chords so far sum to the position of the pen relative to that start. |
| `Raster.CrossingsAreDrops` | user/facet/raster/facet_raster.c:236-245 | Edges cross a scanline as their chords do, apart from near-horizontal ones that were dropped. |
| `Raster.ClosedPathsCancel` | user/facet/raster/facet_raster.c:236-296 | On a path whose sub-paths are all closed the signed crossings of a scanline are minus what dropped slivers lost there, hence zero on every scanline that no dropped sliver cuts. |
| `Raster.NoLeak` | user/facet/raster/facet_raster.c:399-447 | Then nothing is filled to the right of the last crossing, under either rule. |
| `Raster.EdgeTable.AddLine` | user/facet/raster/facet_raster.c:236-245 | Appends the edge of a chord, directed downwards, or nothing for a sliver. |
| `Raster.EdgeTable.FlattenQuad` | user/facet/raster/facet_raster.c:248-267 | Appends the edges of the subdivision. |
| `Raster.EdgeTable.FlattenCubic` | user/facet/raster/facet_raster.c:269-296 | The same for a cubic. |
| `Raster.EdgeTable.AddCmd` | user/facet/raster/facet_raster.c:345-367 | One command: its edges, and where the pen is afterwards. |
| `Raster.EdgeTable.AddPath` | user/facet/raster/facet_raster.c:341-368 | The edges of a whole path. |
| `Raster.MeetingPoint` | user/facet/raster/facet_raster.c:408-410 | An edge that crosses a scanline has a point at its height. |
| `Raster.ColumnIs` | user/facet/raster/facet_raster.c:409-413 | The column is that of the point where the edge meets the scanline, or 0 if that point is left of the canvas. |
| `Raster.WindingIsLeftOf` | user/facet/raster/facet_raster.c:420-423 | The count up to a column is the signed count of the edges that meet the scanline left of the right border of the column. |
| `Raster.RuleIs` | user/facet/raster/facet_raster.c:427-440 | Nonzero is a winding in either direction, even-odd an odd one. |
| `Raster.CentreIs` | user/facet/raster/facet_raster.c:401 | Scanlines are sampled half way between their borders. |
| `Raster.FillAmountIsRule` | user/facet/raster/facet_raster.c:425-442 | On whole winding numbers the float tests decide nonzero, or odd. |
| `Raster.Accumulate` | user/facet/raster/facet_raster.c:403-418 | The coverage of a column is the signed count of crossings at that clamped column. |
| `Raster.Scanline` | user/facet/raster/facet_raster.c:400-446 | The running sum blends exactly the pixels whose signed count of crossings at columns up to theirs is nonzero (odd), and touches no other row. |
| `Raster.Extent` | user/facet/raster/facet_raster.c:375-383 | The exact vertical extent of the edges. |
| `Raster.OutsideExtent` | user/facet/raster/facet_raster.c:385-390 | Scanlines outside the bounding box have no crossings, so skipping them skips no pixel. |
| `Raster.CanvasFill` | user/facet/raster/facet_raster.c:328-451 | For every path and canvas: a pixel is blended if and only if the signed count of the edges that meet the middle of its scanline left of its right border is nonzero (odd for even-odd); also said of the clamped columns. |
| `Chunked.HexValIs` | tools/rust_http_parser/src/main.rs:113-120 | Every hexadecimal digit, in either case, has its value, and every other byte counts as 0. |
| `Chunked.ChunkEnd` | tools/rust_http_parser/src/main.rs:101 | A chunk ends where its size says, or with the data. |
| `Chunked.SkipsLineEnd` | tools/rust_http_parser/src/main.rs:105-107 | After a chunk a line end in full, in part or none is skipped, and nothing else. |
| `Chunked.Decoded` | tools/rust_http_parser/src/main.rs:75-111 | On every input the decoder terminates and its output is no longer than what remains of the input. |
| `Chunked.ReadSize` | tools/rust_http_parser/src/main.rs:80-94 | The size loop reads the size line with its wrapping 64-bit value. |
| `Chunked.DecodeChunked` | tools/rust_http_parser/src/main.rs:75-111 | The loops compute the decoding that the lemmas below are about. |
| `Chunked.RoundTrip` | tools/rust_http_parser/src/main.rs:75-120 | Any chunked body of section 7.1 of RFC 9112 (any chunk bytes, either hexadecimal case, leading zeros) decodes to its concatenated chunks. |
| `Chunked.CutOff` | tools/rust_http_parser/src/main.rs:75-111 | A body that ends inside a chunk gives the whole chunks and the part that is there. |
| `Chunked.PanicsIff` | tools/rust_http_parser/src/main.rs:92-102 | Slicing panics if and only if some size line that is reached announces an end at or above 2^64. |
| `Chunked.WrappedEnd` | tools/rust_http_parser/src/main.rs:92-102 | Any sixteen digits that spell 2^64 - 1, followed by anything, make the decoder panic. |
| `Chunked.PanicExample` | tools/rust_http_parser/src/main.rs:92-102 | Sixteen hexadecimal f digits make the decoder panic. |
| `Ecs.InsertMeans` | lattice_ecs/src/lib.rs:39-52 | Inserting binds the entity and no other, keeps index and dense arrays mutual inverses, and appends only a new entity. |
| `Ecs.AfterRun` | lattice_ecs/src/lib.rs:30-48 | After every run of insertions index and dense arrays are mutual inverses. |
| `Ecs.RunMeans` | lattice_ecs/src/lib.rs:39-52 | After every run each entity has the component last written, and the storage is in order of first insertion. |
| `Ecs.World.Insert` | lattice_ecs/src/lib.rs:90-98 | Sets one component of one entity and changes no other, creating the storage if needed. |
| `Ecs.World.Spawn` | lattice_ecs/src/lib.rs:83-88 | A new entity number with the two components; no other entity changes. |
| `Ecs.World.Query` | lattice_ecs/src/lib.rs:284-308 | Exactly the entities that have both components, each once, with their components, in the order of the first storage; nothing if a storage is missing. |
| `Ecs.JoinedMeans` | lattice_ecs/src/lib.rs:298-304 | The selected entities are those in both sets, without repetition. |
| `Ecs.JoinedInOrder` | lattice_ecs/src/lib.rs:298-304 | They appear in the order of the first set. |
| `Ecs.Events.Send` | lattice_ecs/src/lib.rs:179-181 | Appends the event. |
| `Ecs.EventReader.Iter` | lattice_ecs/src/lib.rs:197-201 | Successive reads concatenate to exactly what was sent. |

## Left out

- The kernel (scheduler, deques, rings, TCP) is written in Salt; it is not part of this model.
- The rest of `stb_image.h`: JPEG, GIF, PSD, HDR, PIC, PNM and TGA, PNG chunk parsing and CRCs, palettes, transparency and colour conversion, file and callback I/O.
- PngFilter.Unfilter: the size tests that only guard against overflow are left out.
- Adam7.Deinterlace: image sizes are bounded by 2^24, as the decoder bounds them; the output image is a sequence of pixels, each a sequence of samples, instead of one flat buffer.
- Inflate.DoZlib: an expandable output buffer must start with at least one byte, since the doubling loop on line 4282 makes no progress from zero; allocation failure is not modelled.
- DeflateEncoder.EncodeRoundTrip: stored blocks are not mixed with the others; their round trip is `Deflate.StoredRoundTrip`. All nineteen code length code lengths are written.
- Inflate.ZBuf.Expand: copying the old contents stands for `realloc`.
- HashMap.HashMap.Get: keys and values are mathematical integers and capacities do not overflow; the concrete hash function on lines 32 to 36 is not used.
- LongestConsecutive.LongestConsecutive: `num - 1` and `num + len` do not overflow.
- Fannkuch.Fannkuch: `int` overflow of the checksum for large n is not modelled.
- LruCache.LRUCache.Put: keys must be in 0..9999, as the direct-mapped index demands; evicted nodes are leaked by the source and simply unreachable here.
- Flatten.FlattenQuad: over the reals, with the square of the tolerance as a parameter; rounding of `float` is not modelled. The callback is the returned sequence of points.
- Flatten.FlattenCubic: likewise, with sixteen times the square of the tolerance as the parameter.
- Raster.CanvasFill: states which pixels are blended, not their colours; the compositing in `canvas_blend` and a failing `realloc` in the edge table are left out.
- Chunked.RoundTrip: chunk extensions and trailers are not covered, since the decoder does not parse them; bodies are shorter than 2^63 bytes, as Rust slices are.
- Chunked.DecodeChunked: `usize` has 64 bits and wraps, as in a release build; with overflow checks a wrapped size would panic earlier.
- Ecs.World.Insert: all component types share one value type and storages are values that the world owns, so replacing the map entry stands for the update in place; the 32-bit entity counter does not wrap. Resources, schedules, commands and the queries with mutable references are left out.
- Ecs.EventReader.Iter: a reader is used with one event queue, as the ghost history demands.
- `user/netd/tls_bridge.c`, `keuos_rt`, the window and GPU headers, servers, clients, training loops, editor tooling and the remaining benchmarks: plumbing, unseen libraries, or easier than what is here.

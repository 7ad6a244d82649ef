# Verified cores of an emulator

Dafny models of the algorithmic cores of the shadPS4 emulator, with proofs. Each module follows one source
file or one part of it. Code that changes things in place is imperative Dafny (classes, arrays, loops) proved
against functions on values; protocols are step relations whose runs are all interleavings; straight
computations are functions. `dafny verify dfyconfig.toml` checks everything.

| modules | subject | main result |
|---|---|---|
| `Quadword`, `X86`, `Sse4aPatches`, `Sse4aGenerator` | code emitted for EXTRQ and INSERTQ, and the interpreter | emitted code = interpreter = bit-field definition, on every machine state, with nothing else changed; which bytes are which instruction |
| `RegionMap`, `AddressSpace` | the Windows region allocator and the host placeholders it drives | every host call legal, the host shows at every address the file byte the table promises, exact effect of Map and Unmap, usable set constant over all runs |
| `SpscQueue`, `SpscCalls`, `MpmcQueue`, `MpmcCalls` | the bounded queues | order, bounds, slot exclusion and no lost wake-up in every interleaving, with wrapping indices; any number of threads, each with its own position, project to one producer and one consumer; what every single call has delivered when it returns |
| `RangeLock`, `RangeLockRuns` | try-and-back-off locking of a range | nobody blocks while holding a mutex of the range; no wait chains; exact ownership on return |
| `CanonicalCode`, `ZlibHuffman`, `ZlibBuffer`, `Inflate`, `InflatePadding`, `InflateTables`, `InflateExample` | Huffman tables, bit buffer and block decoding of stb_image | tables represent the canonical code exactly when the lengths are feasible; which blocks are accepted, exactly; how far they can reach behind the data, and for which tables they cannot; one token for every length and distance |
| `PngFilter`, `PngImage`, `Adam7`, `PngInterlaced` | row filters, row buffers and de-interlacing of stb_image | the decoder accepts exactly the encodings of images and returns the image |
| `AesTables`, `AesCipher`, `AesBlocks`, `AesKeys`, `AesModes`, `AesExamples`, `AesModeExamples` | AES with ECB and CBC | decryption undoes encryption; padded round trips for every data; exactly when the buffers are left, and when decryption in place is right; the examples of FIPS 197 |
| `GcmField`, `AesGcm`, `GcmLayout` | GCM | the block product is that of the field of the standard; which counter meets which byte and what the tag covers; everything encrypted is accepted and restored |
| `BitArray`, `LruCache`, `SlotVector` | fast structures | each agrees with the simple structure it stands for |
| `BigEndian`, `Sha1`, `Sha1Example`, `Uint128` | SHA-1 and 128-bit arithmetic | streaming = fold over the padded message, with the digest of "abc"; exact products, quotients and clock |

How to read the models:

- Bytes, words and bit sets are bit vectors or bounded integers; wrap-around is written out wherever the source
  relies on it (queue indices, shift counts, byte sums, 64-bit sums, block counters).
- A failing assertion, an exception or an error code of the source is an error result. A `requires` of an
  operation is what the source demands of its caller; where it leaves a case undefined the clause says so.
- The host calls of `AddressSpace.Host` have the operating system's rules as preconditions, so that a verified
  caller never breaks them.
- In `X86`, what an arithmetic instruction does to flags other than the zero flag is an arbitrary function of the
  instruction and the machine state before it.

Where a property of the code does not hold everywhere, the exact condition is proved and an input that breaks it
is given: the vector path of `LastRangeFrom` (`BitArray.VectorLastExact`), the buffer checks of ECB and CBC
(`AesModes.CbcDecryptExact` and its neighbours), CBC decryption in place (`AesModes.InPlaceExact`), the length
field of SHA-1 (`Sha1.PaddingExact`), the fallback of `MultiplyAndDivide64` (`Uint128.MultiplyAndDivideExact`) and the clock factor made with it
(`Uint128.PortableFactorExact`), the clock (`Uint128.ClockExact`), the visits of the cache (`LruCache.RunExact`) and
the release call for mappings with a descriptor (`AddressSpace.UnmapLegalExact`). Block decoding accepts blocks
whose end is not in the data: `Inflate.ParseHuffmanBlock` says exactly which, `InflatePadding.AlwaysExact` for which
tables there are none, `InflatePadding.PaddingBounded` how much can be missing, and `InflateTables` shows that as much
can be. In the other direction, the widened mask of the immediate EXTRQ and INSERTQ forms,
meant for fields that the instruction leaves undefined, turns out never to change a result.

Three places where code and intent differ: `ForEachItemBelow` means to let a callback stop the iteration, but
compares `std::invoke_result` itself with `bool`, which is never the same type, so that it never stops; the
vector loop of `LastRangeFrom` means to skip words of ones and skips words of zeros; a
comment in `stbi__zhuffman_decode` says that consumed padding bits are caught later, which is true of the sixteen
bits added there and not of the zero bytes that `stbi__fill_bits` adds. The models follow the code.

## Model

| member | source | states |
|---|---|---|
| `Sse4aPatches.EmittedMatchesInterpreter` | src/core/cpu_patches.cpp:646-725 | for every four-byte instruction the interpreter handles and every machine state, the emitted code runs to its end, leaves the vector registers the interpreter computes, and changes nothing else except bytes just below the red zone |
| `Sse4aPatches.EmittedExtrqImmediate` | src/core/cpu_patches.cpp:168-214 | immediate EXTRQ, every length and index: the extracted field bit by bit, upper half zero; general registers, stack pointer, flags and memory from rsp-128 up unchanged |
| `Sse4aPatches.EmittedExtrqRegister` | src/core/cpu_patches.cpp:215-274 | register EXTRQ, every operand value, also with both operands the same register: the interpreter value and nothing else |
| `Sse4aPatches.EmittedInsertqImmediate` | src/core/cpu_patches.cpp:294-347 | immediate INSERTQ, every length and index: the field replaced bit by bit, upper half zero, nothing else changed |
| `Sse4aPatches.EmittedInsertqRegister` | src/core/cpu_patches.cpp:348-416 | register INSERTQ, every operand value: the interpreter value and nothing else |
| `Sse4aPatches.InterpreterMeets` | src/core/cpu_patches.cpp:646-725 | the interpreter formulas are the bit-field definitions of EXTRQ and INSERTQ, for every length and index |
| `Sse4aPatches.DecodesExtrq` | src/core/cpu_patches.cpp:606-680 | 66 0F 79 with the ModRM byte 0xC0 + 8 dst + src changes only register dst: to the bits of its lower half that bits 0-5 and 8-13 of register src name, with zeros above; for all dst and src below 8 |
| `Sse4aPatches.DecodesInsertq` | src/core/cpu_patches.cpp:606-725 | F2 0F 79 with that byte changes only register dst: the bits of its lower half that the upper half of register src names become the lowest bits of src |
| `Sse4aPatches.DecodesNothingElse` | src/core/cpu_patches.cpp:606-645 | and no other four bytes are executed |
| `Quadword.CountValue` | src/core/cpu_patches.cpp:646-674 | a field length or index is the number in the low six bits |
| `Sse4aPatches.WideningExtract` | src/core/cpu_patches.cpp:191-193 | widening the mask to all ones when the field reaches past bit 63 changes no extracted value |
| `Sse4aPatches.WideningInsert` | src/core/cpu_patches.cpp:317-319 | nor any inserted value |
| `Sse4aPatches.ExtractedUnique` | src/core/cpu_patches.cpp:675-676 | the bit-level definition of EXTRQ has one result |
| `Sse4aPatches.InsertedUnique` | src/core/cpu_patches.cpp:715-717 | the bit-level definition of INSERTQ has one result |
| `X86.ExecProtect` | src/core/cpu_patches.cpp:178-214 | code between the red-zone skip with saves and the restores: whatever it does to saved registers and flags, a program sees only the vector registers change |
| `X86.ExecBranch` | src/core/cpu_patches.cpp:246-257 | jz/jmp with two forward labels runs exactly one of the two arms |
| `X86.ExecPushPop` | src/core/cpu_patches.cpp:180-212 | code between push and pop that only touches the stack below gives the register back |
| `Sse4aGenerator.GenerateEXTRQ` | src/core/cpu_patches.cpp:155-275 | appends exactly the code of the operands; emits nothing and reports failure exactly where an assertion fails |
| `Sse4aGenerator.GenerateINSERTQ` | src/core/cpu_patches.cpp:277-417 | the same for INSERTQ |
| `Sse4aGenerator.ImmediateMask` | src/core/cpu_patches.cpp:183-193 | the mask constant, with length 0 standing for 64 and widening past bit 63 |
| `Sse4aGenerator.TryExecuteIllegalInstruction` | src/core/cpu_patches.cpp:606-725 | in-place update of the saved vector registers; untouched when the bytes are rejected |
| `AddressSpace.Impl.constructor` | src/core/address_space.cpp:195-212 | the initial areas, none touching, become free regions in step with the host placeholders |
| `AddressSpace.Impl.MapRegion` | src/core/address_space.cpp:264-322 | replaces exactly one whole placeholder by a view or a private allocation |
| `AddressSpace.Impl.UnmapRegion` | src/core/address_space.cpp:324-341 | the release call fits the mapping and leaves one placeholder of the same size |
| `RegionMap.UnmapMatchesMap` | src/core/address_space.cpp:324-338 | the release call matches the call that made the mapping if and only if the region is not one with a descriptor, no physical base and a protection other than read-only |
| `AddressSpace.UnmapLegalExact` | src/core/address_space.cpp:324-341 | on what the mapping call left, the release call is legal for the host if and only if the region is not such a one |
| `AddressSpace.UnmapIllegal` | src/core/address_space.cpp:324-341 | a writable file mapping at offset -1 is committed as private memory and released as a view |
| `AddressSpace.Impl.SplitRegion` | src/core/address_space.cpp:343-427 | no address changes its meaning; afterwards a region is exactly the requested range, and host and table agree |
| `AddressSpace.Impl.CutFront` | src/core/address_space.cpp:359-388 | the split before the range, host placeholder split strictly inside |
| `AddressSpace.Impl.CutBack` | src/core/address_space.cpp:390-421 | the split behind the range |
| `AddressSpace.Impl.Map` | src/core/address_space.cpp:429-450 | changes exactly the range [va, va+size) to the new mapping, every host call legal, table coalesced again |
| `AddressSpace.Impl.CoalesceFreeRegions` | src/core/address_space.cpp:452-496 | merges the whole run of touching free regions around an address in one host call on exactly that run, changing no meaning |
| `AddressSpace.Impl.AbsorbLeft` | src/core/address_space.cpp:457-472 | the backward loop: all touching free regions before |
| `AddressSpace.Impl.AbsorbRight` | src/core/address_space.cpp:474-487 | the forward loop: all touching free regions behind |
| `AddressSpace.Impl.UnmapRound` | src/core/address_space.cpp:503-533 | one round frees exactly the part of the range inside one region |
| `AddressSpace.Impl.Unmap` | src/core/address_space.cpp:498-537 | clears exactly [va, va+size) over any number of partly covered regions and leaves no two touching free regions |
| `AddressSpace.Impl.GetUsableRegions` | src/core/address_space.cpp:597-603 | the set of addresses covered by regions |
| `AddressSpace.HostShowsMeaning` | src/core/address_space.cpp:264-322 | in step, the host shows at every address of the process exactly what the table promises: a byte of a file, private memory, an empty placeholder or nothing |
| `AddressSpace.ViewShowsPhysical` | src/core/address_space.cpp:301-316 | a block is a view if and only if its meaning is physical memory not copied in by reading, and then each of its addresses shows its physical address in its file |
| `AddressSpace.MapShows` | src/core/address_space.cpp:429-450 | after Map, address va + i of the host shows byte phys + i of the file, or private memory for a request without a physical base or for a read-only file; every other address shows what it did |
| `AddressSpace.UnmapShows` | src/core/address_space.cpp:498-537 | after Unmap the range shows an empty placeholder and every other address what it did |
| `RegionMap.SplitAtMeaning` | src/core/address_space.cpp:360-421 | splitting a region keeps the meaning of every address |
| `RegionMap.FreeRangeInOneRegion` | src/core/address_space.cpp:347-350 | in a coalesced table every contiguous free range lies in one region, so the "fits in one placeholder" assertion cannot fail for it |
| `RegionMap.MergedMeaning` | src/core/address_space.cpp:457-487 | merging keeps the meaning of every address |
| `AddressSpace.FreeRegionsCanonical` | src/core/address_space.cpp:452-496 | two coalesced tables with the same meaning have the same free regions |
| `AddressSpace.UnmapUndoesMap` | src/core/address_space.cpp:429-537 | unmapping what was mapped gives back the meaning of every address and every free region |
| `AddressSpace.StepKeepsReserved` | src/core/address_space.cpp:429-537 | a public call changes no address in or out of the usable set |
| `AddressSpace.RunKeepsReserved` | src/core/address_space.cpp:597-603 | the usable set is the same at every point of every run |
| `CanonicalCode.PrefixFree` | externals/stb/stb_image.h:4124-4169 | two code words of an accepted set of lengths that both start a window belong to the same symbol |
| `CanonicalCode.KraftIsLimit` | externals/stb/stb_image.h:4138-4149 | the limit after the longest length is the Kraft sum, so the per-length check is the Kraft inequality |
| `CanonicalCode.CodesOrdered` | externals/stb/stb_image.h:4138-4149 | the intervals of two symbols of a canonical code, shifted to 16 bits, are disjoint and in order |
| `CanonicalCode.RevInvolution` | externals/stb/stb_image.h:4116-4122 | reversing a code twice gives it back |
| `CanonicalCode.Covered` | externals/stb/stb_image.h:4231-4240 | a window below the limit of a length is hit by a code of at most that length |
| `ZlibHuffman.BitReverse16Reverses` | externals/stb/stb_image.h:4107-4114 | the mask-and-shift network reverses 16 bits |
| `ZlibHuffman.SlotInjective` | externals/stb/stb_image.h:4151-4167 | no two symbols share a slot of the size and value arrays |
| `ZlibHuffman.FastEntryExtend` | externals/stb/stb_image.h:4155-4164 | adding the entries of one more symbol keeps every index right, so a new code never hits an index that another code has filled |
| `ZlibHuffman.FastEntryMeaning` | externals/stb/stb_image.h:4263-4269 | a fast entry names the symbol and length of the code word at the window; an empty one means no code of up to 9 bits is there |
| `ZlibHuffman.ZHuffman.CountSizes` | externals/stb/stb_image.h:4130-4134 | how often each length occurs |
| `ZlibHuffman.ZHuffman.CheckSizes` | externals/stb/stb_image.h:4135-4137 | accepts exactly when no length occurs more often than it has codes, which every feasible list meets |
| `ZlibHuffman.ZHuffman.AssignCodes` | externals/stb/stb_image.h:4138-4150 | accepts exactly the feasible length lists and fills first code, first symbol and limit of each length |
| `ZlibHuffman.ZHuffman.SpreadFast` | externals/stb/stb_image.h:4158-4164 | writes an entry at exactly the indices whose low bits are the reversed code |
| `ZlibHuffman.ZHuffman.Build` | externals/stb/stb_image.h:4124-4169 | succeeds if and only if the lengths are feasible, and then the tables represent the canonical code |
| `ZlibHuffman.ZHuffman.SlowLookup` | externals/stb/stb_image.h:4224-4241 | for a window with no short code: the symbol and length of the code word, or -1 if there is none |
| `ZlibHuffman.ZHuffman.Lookup` | externals/stb/stb_image.h:4243-4271 | fast table and slow path together: symbol and length of the one code word that starts the window, -1 exactly when there is none |
| `ZlibBuffer.CodeWordUnique` | externals/stb/stb_image.h:4243-4271 | a bit stream starts with at most one code word |
| `ZlibBuffer.ZBuf.FillBits` | externals/stb/stb_image.h:4202-4212 | refilling only moves bits from the data to the buffer, zero bits past the end, to an exact fill level |
| `ZlibBuffer.ZBuf.Receive` | externals/stb/stb_image.h:4214-4222 | takes exactly the next n bits off the stream |
| `ZlibBuffer.ZBuf.EnsureWindow` | externals/stb/stb_image.h:4246-4262 | sixteen bits in the buffer, padding once at the end of the data; fails exactly when the end has been padded before and is reached again |
| `ZlibBuffer.ZBuf.HuffmanDecode` | externals/stb/stb_image.h:4243-4271 | takes exactly one code word off the stream and leaves an exact fill level; fails only where the end has been padded before, or when the stream with zeros behind it starts with no code word |
| `Inflate.CopyMatch` | externals/stb/stb_image.h:4348-4354 | both copy loops are the overlapping byte-by-byte copy |
| `Inflate.CopyRepeats` | externals/stb/stb_image.h:4346-4354 | a copy keeps the output so far, and each of its len new bytes equals the byte dist before it |
| `Inflate.ExtraBits` | externals/stb/stb_image.h:4299-4306 | the extra-bit tables as functions of the code number: z / 4 - 1 and d / 2 - 1, none for the first codes and for the last length |
| `Inflate.LengthsTile` | externals/stb/stb_image.h:4295-4300 | the length ranges of section 3.2.5 of RFC 1951: from 3 on each code ends where the next begins, up to 258, which also has a code of its own |
| `Inflate.DistsTile` | externals/stb/stb_image.h:4302-4306 | the distance ranges: from 1 on each code ends where the next begins, and the last ends at 32768 |
| `Inflate.MatchExists` | externals/stb/stb_image.h:4295-4306 | every length from 3 to 258 and distance from 1 to 32768 is said by exactly one token without the code of its own for 258 |
| `Inflate.MatchInRange` | externals/stb/stb_image.h:4295-4306 | and a token says no other length or distance |
| `Inflate.PlayToken` | externals/stb/stb_image.h:4314-4355 | plays a literal or back reference, or refuses exactly when the distance or the room does not allow it |
| `Inflate.ReadMatch` | externals/stb/stb_image.h:4335-4342 | reads length extra bits, distance code and extra bits of exactly one back reference; fails exactly when none can be read |
| `Inflate.ReadItem` | externals/stb/stb_image.h:4313-4342 | reads exactly one item off the stream; fails exactly when none can be read |
| `Inflate.ItemUnique` | externals/stb/stb_image.h:4313-4342 | a stream, with zeros supplied behind it, starts with at most one item |
| `Inflate.ParseHuffmanBlock` | externals/stb/stb_image.h:4309-4357 | succeeds if and only if the stream, with zeros supplied behind it, starts with the block of some token run that fits and that the end-of-data tests let pass; the run is unique, its bits are taken and its expansion is the output; the block lies on the stream if and only if no more zeros were supplied than are left; every block that lies on the stream and fits is accepted |
| `Inflate.HoldsExact` | externals/stb/stb_image.h:4243-4262 | a block lies on the stream if and only if it is acceptable and no longer than the stream, so that no end-of-data test stops a block inside the data |
| `InflatePadding.LastTokenInData` | externals/stb/stb_image.h:4243-4262 | the last token of an accepted block starts inside the data |
| `InflatePadding.PaddingBounded` | externals/stb/stb_image.h:4202-4262 | an accepted block ends at most 62 bits behind the data, at most 55 with tables of up to 288 symbols, and at most 7 when it has no token |
| `InflatePadding.EndNotLong` | externals/stb/stb_image.h:4138-4149 | why 55: when end-of-block is all zeros and 288 symbols share the Kraft sum, it is at most seven bits longer than what is in the data of the code word before it |
| `InflateTables.PaddingAttained` | externals/stb/stb_image.h:4202-4262 | tables, ten bits of data and a state of the buffer with which a block that lacks 55 bits is accepted |
| `InflateTables.EmptyAttained` | externals/stb/stb_image.h:4202-4262 | and one without a token that lacks seven |
| `InflatePadding.OddEndInData` | externals/stb/stb_image.h:4309-4333 | with an odd end-of-block code a block that starts the stream lies on it |
| `InflatePadding.EvenEndMissed` | externals/stb/stb_image.h:4202-4262 | with an even one, every block of nine bits or more is accepted without its last bit from some state of the buffer |
| `InflatePadding.AlwaysExact` | externals/stb/stb_image.h:4309-4357 | every accepted block lies on the stream, for all streams, outputs and states of a buffer of up to n bits, if and only if the end-of-block code is odd, or has at most eight bits and no token can be encoded; n is at least 6 and, if there are tokens, the size of some token less one (at most 14 for a literal, 47 for any) |
| `InflateTables.FixedFeasible` | externals/stb/stb_image.h:4452-4467 | the lengths of the fixed codes are feasible |
| `InflateTables.DecodeFixed` | externals/stb/stb_image.h:4498-4504 | a block of type 1: accepted if and only if some run is acceptable under the fixed codes, and then the output is its expansion |
| `InflateExample.FixedTable` | externals/stb/stb_image.h:4452-4463 | every literal or length symbol has the code and length that section 3.2.6 of RFC 1951 prints |
| `InflateExample.FixedDistanceTable` | externals/stb/stb_image.h:4464-4467 | distance symbols are their own five-bit codes |
| `InflateExample.StreamIsBlock` | externals/stb/stb_image.h:4309-4357 | the ten bytes 4b 4c 4a 4e 49 4d 4b 44 22 01 are, bit for bit, the header of a last block with the fixed codes and the block of seven literals and one back reference |
| `InflateExample.StreamExpands` | externals/stb/stb_image.h:4309-4357 | and that block stands for the 18 letters of the text |
| `InflateExample.StreamAccepted` | externals/stb/stb_image.h:4309-4357 | which the decoder accepts for every capacity of at least 18 |
| `InflateTables.DecodeShortData` | externals/stb/stb_image.h:4202-4262 | on the single byte 0x0C the fixed-code block is accepted with output [0], although no block lies on the data: end-of-block was read from supplied zeros |
| `PngFilter.PaethAgrees` | externals/stb/stb_image.h:4657-4668 | the branch-free Paeth predictor is that of section 9.4 of the PNG Specification, for all integers |
| `PngFilter.FirstRowAgrees` | externals/stb/stb_image.h:4648-4655 | the substitute filter of the first row is the filter below a row of zeros |
| `PngFilter.FilterPredictors` | externals/stb/stb_image.h:4737-4787 | the predictors of section 9.2 of the PNG Specification: nothing, left, up, the rounded-down average, and of the three neighbours the nearest to a + b - c with ties in that order |
| `PngFilter.ReconstructsFiltered` | externals/stb/stb_image.h:4755-4785 | reconstruction holds of a row exactly when filtering it gives the data |
| `PngFilter.FilterInjective` | externals/stb/stb_image.h:4755-4785 | filtered bytes determine the row |
| `PngFilter.UnfilterRow` | externals/stb/stb_image.h:4737-4787 | the row in one half of the buffer is the reconstruction below the row in the other half, which is left alone |
| `PngImage.CreateImageRaw` | externals/stb/stb_image.h:4696-4859 | succeeds exactly when the data begins with the encoding of an image of that size, and then holds that image |
| `PngImage.EncodedUnique` | externals/stb/stb_image.h:4696-4859 | there is only one such image |
| `Adam7.PixelInPass` | externals/stb/stb_image.h:4874-4881 | every pixel of any image is a pixel of its pass |
| `Adam7.PassPixel` | externals/stb/stb_image.h:4874-4893 | every pixel of a pass lies in the image and in no other pass, so the passes write every pixel exactly once |
| `Adam7.PatternRepeats` | externals/stb/stb_image.h:4874-4881 | the passes repeat the 8 by 8 pattern of section 8.2 of the PNG Specification over the image |
| `Adam7.ShowsUnique` | externals/stb/stb_image.h:4873-4900 | the passes cover the image: the reduced images determine it |
| `PngInterlaced.CopyPass` | externals/stb/stb_image.h:4888-4895 | the copying loops write the places of the pass and no others |
| `PngInterlaced.CreateImage` | externals/stb/stb_image.h:4870-4903 | seven reduced images decoded one after the other and spread without overwriting each other |
| `PngInterlaced.DecodeInterlaced` | externals/stb/stb_image.h:4861-4904 | accepts exactly the data that begins with an interlaced image, filtered row by row with any types, and returns that image |
| `PngInterlaced.DecodesToImage` | externals/stb/stb_image.h:4861-4904 | decoding what was interlaced and filtered gives the image back |
| `SpscQueue.StepInv` | src/common/bounded_threadsafe_queue.h:72-149 | every atomic step of producer or consumer keeps the invariant, with 64-bit indices that wrap |
| `SpscQueue.RunInv` | src/common/bounded_threadsafe_queue.h:72-149 | the invariant holds in every state of every interleaving |
| `SpscQueue.RunSafe` | src/common/bounded_threadsafe_queue.h:72-149 | popped values are a prefix of pushed ones, at most Capacity are stored, and the slot being written is not the slot being read |
| `SpscCalls.PopWaitDelivers` | src/common/bounded_threadsafe_queue.h:107-148 | in every interleaving, a waiting Pop that returns has taken exactly one value: the oldest not taken before |
| `SpscCalls.TryPopExact` | src/common/bounded_threadsafe_queue.h:111-115 | a TryPop takes that value if and only if the queue is not empty when it looks, and its result says which |
| `SpscCalls.StopPopExact` | src/common/bounded_threadsafe_queue.h:122-130 | a Pop with a stop token takes it if and only if it has seen no stop request |
| `SpscCalls.EmplaceWaitDelivers` | src/common/bounded_threadsafe_queue.h:73-104 | a waiting Emplace that returns has put in exactly its value |
| `SpscCalls.TryEmplaceExact` | src/common/bounded_threadsafe_queue.h:76-80 | a TryEmplace puts it in if and only if the queue is not full when it looks, and its result says which |
| `SpscQueue.RunWakesUp` | src/common/bounded_threadsafe_queue.h:81-105 | a consumer asleep on a non-empty queue, or a producer asleep on a non-full one, means the other side is between its increment and its notify |
| `SpscQueue.RunProgress` | src/common/bounded_threadsafe_queue.h:81-148 | unless both sides are outside the queue or asleep on a full or empty one, one of them can step |
| `SpscQueue.ChecksAreExact` | src/common/bounded_threadsafe_queue.h:78-86 | the wrapped-index tests for full and empty are exact |
| `MpmcQueue.NextInside` | src/common/bounded_threadsafe_queue.h:202-246 | a step of one of any number of threads, each with its own position and mutex waits, is a step of the one-producer one-consumer queue inside or leaves it alone, because a mutex admits one thread to each end |
| `MpmcQueue.SharedRunProjects` | src/common/bounded_threadsafe_queue.h:202-246 | every run of the threads is, with the other steps left out, a run of one producer and one consumer |
| `MpmcQueue.SharedRunInv` | src/common/bounded_threadsafe_queue.h:202-246 | in every run of any number of threads: a thread is inside an end if and only if it owns the mutex of that end, and the queue inside keeps its invariant |
| `MpmcQueue.SharedRunSafe` | src/common/bounded_threadsafe_queue.h:202-246 | no two threads are inside the same end and no slot is read while it is written; what is taken out is a prefix of what was put in, and every element is accounted for in the logs of the thread that put it in and of the thread that took it out |
| `MpmcCalls.SharedPopWaitDelivers` | src/common/bounded_threadsafe_queue.h:202-246 | with any number of threads: a thread whose waiting Pop returns has got exactly one value, one that the queue gave out during the call and to this thread |
| `MpmcCalls.SharedTryPopExact` | src/common/bounded_threadsafe_queue.h:202-246 | with a TryPop it has if and only if the queue was not empty when it looked |
| `MpmcCalls.SharedStopPopExact` | src/common/bounded_threadsafe_queue.h:202-246 | with a stop token if and only if it has seen no stop request |
| `MpmcCalls.SharedEmplaceWaitDelivers` | src/common/bounded_threadsafe_queue.h:202-246 | a thread whose waiting Emplace returns has put in exactly its value, once |
| `MpmcCalls.SharedTryEmplaceExact` | src/common/bounded_threadsafe_queue.h:202-246 | with a TryEmplace it has if and only if the queue was not full when it looked |
| `MpmcQueue.SharedRunWakesUp` | src/common/bounded_threadsafe_queue.h:202-246 | a thread asleep in the consuming end of a non-empty queue, or in the producing end of a non-full one, means that some thread at the other end is about to notify |
| `MpmcQueue.SharedRunProgress` | src/common/bounded_threadsafe_queue.h:202-246 | unless every thread is outside, asleep on a full or empty queue, or waiting for the mutex of such a sleeper, some thread can step |
| `RangeLock.NextInv` | src/common/range_lock.h:13-99 | every step of every thread keeps: the mutexes a thread holds are those its frames account for |
| `RangeLockRuns.RunInv` | src/common/range_lock.h:13-99 | that invariant in every run |
| `RangeLockRuns.BlocksEmptyHanded` | src/common/range_lock.h:68-70 | in every state of every run a thread about to block owns no mutex at all |
| `RangeLockRuns.NoWaitChain` | src/common/range_lock.h:54-99 | no thread waits for a thread that waits, in any run, so there is no cycle |
| `RangeLockRuns.RunProgress` | src/common/range_lock.h:54-99 | while any thread is not idle, some thread can take a step |
| `RangeLockRuns.ReturnedHoldsAll` | src/common/range_lock.h:72-88 | once LockRange has returned, the thread owns exactly the mutexes of its range |
| `RangeLockRuns.FailedTryHoldsNothing` | src/common/range_lock.h:33-52 | in every state of every run, when the back-off of a failed try is done the owner table names the thread for no mutex of that try |
| `RangeLockRuns.DepthBounded` | src/common/range_lock.h:80-88 | in every state of every run the recursion through guards is no deeper than the range is long |
| `AesTables.InvSboxSbox` | src/common/aes.h:42-76 | the inverse table undoes the table on all bytes |
| `AesCipher.SboxIsAffineInverse` | src/common/aes.h:42-58 | every entry is the affine image of the inverse in the field, as section 5.1.1 of FIPS 197 defines it |
| `AesCipher.MixColumnsInverse` | src/common/aes.h:145-179 | inv_mix_columns undoes mix_columns on every state |
| `AesCipher.ShiftRowsInverse` | src/common/aes.h:100-120 | inv_shift_rows undoes shift_rows |
| `AesCipher.MulAdditive` | src/common/aes.h:131-143 | the byte product adds over exclusive or |
| `AesCipher.DecryptEncrypt` | src/common/aes.h:270-310 | decryption undoes encryption for every number of rounds and all round keys |
| `AesBlocks.ShiftRowsInPlace` | src/common/aes.h:100-109 | the row loops with masks move row r by r columns |
| `AesBlocks.InvShiftRowsInPlace` | src/common/aes.h:111-120 | and back |
| `AesBlocks.EncryptState` | src/common/aes.h:270-289 | the in-place rounds compute the cipher of the block and write 16 bytes only |
| `AesBlocks.DecryptState` | src/common/aes.h:291-310 | the in-place inverse cipher |
| `AesBlocks.DecryptEncryptBlock` | src/common/aes.h:270-310 | on byte blocks, decrypting an encrypted block gives it back |
| `AesKeys.ExpandKey` | src/common/aes.h:206-237 | the schedule of figure 11 of FIPS 197, with rotated bytes and powers of x, for 16, 24 and 32 byte keys; none for other sizes |
| `AesKeys.ExpandedLength` | src/common/aes.h:189-237 | one round key more than figure 4 of FIPS 197 has rounds: six more than key words, plus one |
| `AesExamples.Example128` | src/common/aes.h:206-289 | appendix C.1 of FIPS 197 in full: the key 00 01 .. 0f takes the block 00 11 .. ff to 69c4e0d86a7b0430d8cdb78070b4c55a |
| `AesExamples.Example192` | src/common/aes.h:206-289 | appendix C.2: with the 24-byte key to dda97ca4864cdfe06eaf70a0ec0d7191 |
| `AesExamples.Example256` | src/common/aes.h:206-289 | appendix C.3: with the 32-byte key to 8ea2b7ca516745bfeafc49904b496089 |
| `AesKeys.RconPowers` | src/common/aes.h:211-211 | every round constant in the table is the power of x in the field that the standard asks for |
| `AesKeys.RotWordRotates` | src/common/aes.h:181-183 | the masked shift rotates the four bytes of a word |
| `AesModes.CheckPadding` | src/common/aes.h:750-762 | accepts exactly a count of at most 16 repeated in that many last bytes |
| `AesModes.ByteNumbers` | src/common/aes.h:750-762 | pad bytes are plain numbers |
| `AesModes.EncryptCbc` | src/common/aes.h:908-960 | error code, blocks chained as in section 6.2 of SP 800-38A over the padded message, also in place, and exactly the blocks of CbcEncryptWrites written |
| `AesModes.DecryptCbc` | src/common/aes.h:976-1027 | error code, pad count and bytes, in terms of the chained decryption, or of what becomes of it in place; exactly the blocks of CbcDecryptReads and CbcDecryptWrites are read and written |
| `AesModes.InPlaceRight` | src/common/aes.h:989-1001 | in place the result is right if and only if every block but the last decrypts to itself |
| `AesModes.InPlaceWrong` | src/common/aes.h:989-1001 | for any keys and any two blocks or more, an initial vector with which it is wrong |
| `AesModes.InPlaceExact` | src/common/aes.h:989-1001 | so for any keys and data it is right for all initial vectors if and only if there is at most one block |
| `AesModes.EncryptEcb` | src/common/aes.h:804-833 | the same for ECB, also in place |
| `AesModeExamples.ExampleCbc` | src/common/aes.h:908-960 | for every vector: two blocks masked so that the cipher meets the block of appendix C.1 twice encrypt to its cipher text twice |
| `AesModeExamples.ExampleEcb` | src/common/aes.h:804-833 | that block twice encrypts to its cipher text twice |
| `AesModes.DecryptEcb` | src/common/aes.h:848-884 | the same for ECB, also in place |
| `AesModes.DecryptionInverse` | src/common/aes.h:908-1027 | a message is the decryption of its encryption, and the only one |
| `AesModes.PaddedRoundTrip` | src/common/aes.h:750-762 | the decryption of a padded message ends in valid padding and is the message without it |
| `AesModes.CbcRoundTrip` | src/common/aes.h:908-1027 | encrypt then decrypt with padding returns every data, the empty one included, and 16 - size % 16 as pad count, for every buffer of at least the data and one block, and also when the data is overwritten |
| `AesModes.EcbRoundTrip` | src/common/aes.h:804-884 | the same for ECB with any buffers, even one for everything |
| `AesModes.CbcEncryptExact` | src/common/aes.h:697-717 | after the size check passes, encrypt_cbc writes inside its buffer if and only if it is not given no data, no padding and room for less than a block |
| `AesModes.EcbEncryptExact` | src/common/aes.h:697-717 | after the size check passes, encrypt_ecb always writes inside its buffer |
| `AesModes.CbcDecryptExact` | src/common/aes.h:719-748 | after the size check passes, decrypt_cbc reads and writes inside its buffers if and only if there is data or unpadding, and one block with unpadding has room for a block |
| `AesModes.EcbDecryptExact` | src/common/aes.h:719-748 | after the size check passes, decrypt_ecb stays inside its buffers if and only if there is data or unpadding; otherwise its block count wraps, whatever the width of unsigned long |
| `AesModes.OutOfBounds` | src/common/aes.h:719-748 | the inputs that pass the checks and leave the buffers |
| `AesGcm.MulBlocks` | src/common/aes.h:479-502 | on blocks of bytes: the bit loop between the two conversions computes the product |
| `GcmField.MultiplyDistributes` | src/common/aes.h:479-502 | the product distributes over exclusive or on both sides |
| `GcmField.MultiplyCommutes` | src/common/aes.h:479-502 | and commutes |
| `GcmField.MultiplyAssociates` | src/common/aes.h:479-502 | and associates |
| `GcmField.MultiplyOne` | src/common/aes.h:479-502 | and has a one |
| `GcmField.TimesX` | src/common/aes.h:479-502 | the field is that of x^128 + x^7 + x^2 + x + 1: multiplying by x takes each basis element to the next and the last to 1 + x + x^2 + x^7 |
| `AesGcm.Ghash` | src/common/aes.h:509-518 | the nested products over all whole blocks, the running value a block of bytes |
| `AesGcm.GhashIsPolynomial` | src/common/aes.h:509-518 | which are, converted to bytes once at the end, the polynomial over the field with the blocks as coefficients at the hash key |
| `AesGcm.ToBitsAdds` | src/common/aes.h:383-399 | exclusive or of blocks is that of their bits |
| `AesGcm.FromToBits` | src/common/aes.h:383-391 | a block survives the conversion to bits and back |
| `AesGcm.ToFromBits` | src/common/aes.h:383-391 | and bits survive the conversion to a block and back |
| `AesGcm.IncrementedNumber` | src/common/aes.h:459-471 | the counter step adds one and drops the carry |
| `AesGcm.Gctr` | src/common/aes.h:531-565 | the loop with a short last block is exclusive or with the key stream |
| `GcmLayout.NextBlockCounts` | src/common/aes.h:459-471 | incrementing a block adds one modulo 2^32 to the number in its last four bytes, highest first, and keeps the first twelve |
| `GcmLayout.CryptCounts` | src/common/aes.h:636-650 | with a vector of 12 bytes, block i of the data is masked with the encryption of the vector followed by the number i + 2 |
| `AesGcm.GctrInverse` | src/common/aes.h:531-565 | which is its own inverse for every length |
| `AesGcm.CalcTag` | src/common/aes.h:607-634 | the tag over padded data and lengths |
| `GcmLayout.TagCovers` | src/common/aes.h:607-634 | the hash covers, in this order, the additional data and the cipher text, each filled with zeros to whole blocks, and their two bit counts as 64-bit numbers; the encrypted start block masks it |
| `GcmLayout.StartCovers` | src/common/aes.h:592-605 | the start block is the vector and the number 1, or for other sizes the hash of the filled vector, eight zeros and its bit count |
| `BigEndian.EightBytesValue` | src/common/aes.h:572-577 | the eight bytes of a bit count, highest first, are a number of up to 64 bits |
| `AesGcm.EncryptGcm` | src/common/aes.h:1046-1061 | error code, cipher text in place, tag cut to size |
| `AesGcm.DecryptGcm` | src/common/aes.h:1099-1121 | accepts exactly the right tag; data restored then and left alone otherwise |
| `AesGcm.GcmRoundTrip` | src/common/aes.h:1046-1121 | everything encrypted is accepted and restored, for every additional data, vector size and accepted tag size |
| `BitArray.Bits.CopyRange` | src/common/bit_array.h:75-102 | a copy of exactly the bits of the range |
| `BitArray.Bits.Set` | src/common/bit_array.h:114-116 | sets one bit and no other |
| `BitArray.Bits.Unset` | src/common/bit_array.h:118-120 | clears one bit and no other |
| `BitArray.Bits.Get` | src/common/bit_array.h:122-124 | the bit |
| `BitArray.Bits.SetRange` | src/common/bit_array.h:126-152 | sets exactly [start, end); ignores empty ranges and ranges past the end |
| `BitArray.Bits.UnsetRange` | src/common/bit_array.h:154-180 | clears exactly [start, end) |
| `BitArray.Bits.FirstRangeFrom` | src/common/bit_array.h:210-267 | the first maximal run at or after start, cut off at start |
| `BitArray.Bits.LastRangeFrom` | src/common/bit_array.h:273-333 | the last maximal run below end, cut off at end |
| `BitArray.FirstRangeUnique` | src/common/bit_array.h:210-267 | that specification has one answer |
| `BitArray.LastRangeUnique` | src/common/bit_array.h:273-333 | that specification has one answer |
| `BitArray.Bits.Ranges` | src/common/bit_array.h:29-59 | the iterator lists ascending runs with gaps between them that hold exactly the set bits, and ends |
| `BitArray.Bits.FindStartBit` | src/common/bit_array.h:292-297 | the scalar search for the start of a run that fills its word |
| `BitArray.VectorLastExact` | src/common/bit_array.h:273-333 | LastRangeFrom compiled with its vector path gives the last run below end if and only if that run is not one that fills a word from its first bit, is at most a word long and lies just above four zero words |
| `BitArray.VectorLastFails` | src/common/bit_array.h:273-333 | an array on which the vector form answers (0, 320) for the run (256, 320) |
| `LruCache.Cache.constructor` | src/common/lru_cache.h:23-23 | an empty list |
| `LruCache.Cache.Attach` | src/common/lru_cache.h:94-106 | links an item in behind the last |
| `LruCache.Cache.Detach` | src/common/lru_cache.h:108-125 | takes an item out of the list, ends included |
| `LruCache.Cache.Build` | src/common/lru_cache.h:78-92 | an id that is neither live nor free, leaving the list alone |
| `LruCache.Cache.Insert` | src/common/lru_cache.h:26-33 | a fresh id at the end of the list |
| `LruCache.Cache.Touch` | src/common/lru_cache.h:35-46 | moves the item to the end with its new tick, or does nothing for an older one |
| `LruCache.Cache.Free` | src/common/lru_cache.h:48-54 | removes exactly the item |
| `LruCache.Cache.ForEachItemBelow` | src/common/lru_cache.h:57-75 | visits the items before the first one above the bound, in order, and keeps the rest in order even when the callback frees the visited item |
| `LruCache.BelowIsAll` | src/common/lru_cache.h:57-75 | that is all items within the bound if and only if none of them lies behind one above it |
| `LruCache.RunSorted` | src/common/lru_cache.h:26-54 | in every run with a clock that does not go back the list has no repetition and is sorted by tick |
| `LruCache.RunVisitsAll` | src/common/lru_cache.h:57-75 | and then exactly the items within the bound are visited |
| `LruCache.RunExact` | src/common/lru_cache.h:26-75 | along a run no visit misses an item within its bound if and only if no insertion or effective touch has a tick older than a live item |
| `LruCache.LateInsertMissed` | src/common/lru_cache.h:26-75 | insertions at ticks 5 and 3: a visit with bound 3 finds nothing |
| `SlotVector.SlotVec.constructor` | src/common/slot_vector.h:89-91 | no live id, capacity 2048 |
| `SlotVector.SlotVec.Reserve` | src/common/slot_vector.h:230-257 | live ids and their values stay, the new slots are pushed lowest last |
| `SlotVector.SlotVec.MoveValues` | src/common/slot_vector.h:231-244 | the loops over the set bits move exactly the stored values |
| `SlotVector.SlotVec.FreeValueIndex` | src/common/slot_vector.h:220-228 | a slot that is not live, growing by doubling |
| `SlotVector.SlotVec.Insert` | src/common/slot_vector.h:122-129 | an id that was not live; all live ids keep their values |
| `SlotVector.SlotVec.Erase` | src/common/slot_vector.h:131-135 | removes exactly that id |
| `SlotVector.SlotVec.Size` | src/common/slot_vector.h:137-139 | the number of stored bits |
| `SlotVector.SlotVec.LiveIds` | src/common/slot_vector.h:76-80 | iteration visits every live slot once, in order |
| `SlotVector.FreeLength` | src/common/slot_vector.h:137-139 | a repetition-free list of exactly the clear slots has capacity minus stored bits elements |
| `Sha1.ProcessBlock` | src/common/sha1.h:124-172 | the loops compute the block function of section 6.1.2 of FIPS 180-4 |
| `Sha1.ChAgrees` | src/common/sha1.h:146-148 | the or-form of the choice function is that of the standard |
| `Sha1.MajAgrees` | src/common/sha1.h:152-154 | the or-form of the majority function is that of the standard |
| `Sha1Example.ConstantsAreRoots` | src/common/sha1.h:144-158 | the four constants are the roots of 2, 3, 5 and 10 in fixed point, rounded down |
| `Sha1Example.Abc` | src/common/sha1.h:65-172 | the digest of "abc" that FIPS 180-4 publishes, word by word and round by round |
| `Sha1.Hasher.constructor` | src/common/sha1.h:32-41 | the initial value and nothing processed |
| `Sha1.Hasher.ProcessByte` | src/common/sha1.h:42-50 | appends one byte: whole blocks hashed, the rest buffered |
| `Sha1.Hasher.ProcessBytes` | src/common/sha1.h:51-64 | appends the bytes, however they are split into calls |
| `Sha1.Hasher.GetDigest` | src/common/sha1.h:65-91 | the fold of the block function over the padded message; the block index is 0 |
| `Sha1.PaddingExact` | src/common/sha1.h:66-87 | the padding written is that of section 5.1.1 of FIPS 180-4 if and only if the message is under 2^29 bytes |
| `Sha1.PaddingFails` | src/common/sha1.h:80-87 | for a message of 2^29 bytes the length is written as 0 |
| `Uint128.MultiplyHighIs` | src/common/uint128.h:74-91 | the 32-bit-limb product is floor(a*b / 2^64) without overflow |
| `Uint128.Divide128On32` | src/common/uint128.h:97-113 | exact quotient and remainder of (hi mod d)*2^64 + lo |
| `Uint128.MultiplyAndDivideExact` | src/common/uint128.h:33-37 | the fallback is floor(a*b/d) modulo 2^64 if and only if the product of the remainders fits in 64 bits |
| `Uint128.MultiplyAndDivideFails` | src/common/uint128.h:33-37 | two factors 2^33 - 1 and the divisor 2^33: 0x7FFFFFFE for 0x1FFFFFFFE |
| `Uint128.PortableFactorExact` | src/common/uint128.h:61-63 | for a numerator below a divisor of up to 2^63, the portable factor is the exact one or one below it if and only if the product of the remainders fits in 64 bits |
| `Uint128.PortableClockClose` | src/common/uint128.h:61-63 | and then the converted time is at most two below the exact floor |
| `Uint128.PortableFactorFails` | src/common/uint128.h:61-63 | a numerator and divisor for which it is far too low |
| `Uint128.ClockMonotone` | src/common/native_clock.cpp:16-26 | more ticks never give an earlier time |
| `Uint128.ClockExact` | src/common/native_clock.cpp:10-26 | the time is at most one below the exact floor for all tick counts if and only if there are fewer units than ticks in a second |

## Left out

- Memory ordering: atomics of the queue are sequentially consistent steps; stop-token internals are a step that may happen at any time.
- Termination of LockRange: it may retry forever under contention; safety, progress of owners and bounded recursion are proved instead.
- Stack addresses in X86 are unbounded integers, so a stack that wraps around the address space is not modelled; neither are the upper YMM bits and the byte encoding of instructions.
- TryPatch, TryPatchAot, the other patches of cpu_patches.cpp and instruction decoding: foreign libraries and platform state.
- The POSIX address space, Protect, and file reading in MapRegion: thin over the operating system. Sizes and addresses are naturals without 64-bit overflow.
- Sse4aGenerator.GenerateEXTRQ: register saves and restores are emitted by helper methods instead of being written out in each branch.
- Inflate.ParseHuffmanBlock: the growth policy of stbi__zexpand is one number, the largest output that can be made room for; dynamic code-length headers, stored blocks and the zlib header are not modelled.
- AddressSpace.Impl.Map: not for a file mapping at offset -1 with a protection other than read-only, which the source maps but cannot release (AddressSpace.UnmapLegalExact).
- AddressSpace.Impl.UnmapRegion: not for such a region, on which the source makes a call the host refuses.
- PngImage.CreateImageRaw: stops at the reconstructed bytes; unpacking of depths below 8, the added alpha channel and the byte order of 16-bit samples, and the overflow checks of the size products, are not modelled.
- PngInterlaced.CreateImage: a reduced image has whole-byte pixels, as the input of the de-interlacing loop has; its packed form for depths below 8 is not modelled.
- LruCache.Cache.ForEachItemBelow: the callback is modelled by the set of visited items it frees; ticks are integers, so that the signed difference cannot overflow.
- AesModes.EncryptCbc: requires exactly the cases in which, after its check, the source stays inside the buffer (AesModes.CbcEncryptExact); source and destination are the same buffer or do not overlap.
- AesModes.EncryptEcb: source and destination are the same buffer or do not overlap.
- AesModes.DecryptCbc: requires exactly the cases in which, after its check, the source stays inside its buffers (AesModes.CbcDecryptExact); buffers that partly overlap are not modelled.
- AesModes.DecryptEcb: requires exactly the cases of AesModes.EcbDecryptExact; buffers that partly overlap are not modelled.
- AesGcm.EncryptGcm: for non-empty data, because the source takes the address of the first byte; the floating-point ceiling is an integer one.
- crypt_ctr and incr_counter of aes.h: easier relatives of GCTR.
- BitArray: the compound operators and comparisons are not modelled; of the vector paths only LastRangeFrom, which differs from the portable one, is.
- SlotVector.SlotVec.Erase: running of destructors is not modelled; ids are naturals, not 32-bit.
- Sha1.Hasher.GetDigest: the byte count does not wrap at 2^64.
- Everything else in the repository (user interface, files, configuration, debugging, and the simpler containers of src/common).

# wimboot: a Dafny model

wimboot boots Windows images without a disk: it computes the sectors of a FAT32 volume
from a table of files, shows a WIM image with extra files patched into it, and
decompresses and verifies what it reads on the fly. Most of its code is a lazy or fast
form of something simple. This project models that code and proves that the two agree.

| files | what they model |
|---|---|
| Bytes, Bits, Memory | little-endian numbers, shifts, bit strings, memory that is only read |
| Huffman, HuffmanBits | canonical Huffman alphabets with quick-lookup decoding |
| Lz, Lznt1, Xca | LZ77 output, LZNT1 and XCA (sections 2.5 and 2.2 of [MS-XCA]) |
| XcaFiles, XcaSettled | XCA: an encoder, and when a run depends on nothing but its input |
| LzxBits, Lzx, LzxDecoder | LZX ([MS-PATCH]): bit reader, specification, decoder |
| LzxTokens, LzxFormat, LzxFiles, LzxLiterals, LzxJumps | LZX: token format, block format, whole files, a coding for every byte string, E8 translation |
| LzxSettled | when an LZX run depends on nothing but its input |
| Sha1, Sha1Examples | streaming SHA-1 (sections 5.1.1, 5.3.1 and 6.1.2 of FIPS 180-4), and its published examples |
| Vdisk, VdiskDir, VdiskRead, FatDriver | the virtual disk, and a FAT reader that looks at it from outside |
| Inflate, Wim, WimDir | the decompressors as the WIM reader calls them, WIM resources with the one-chunk cache, lookup tables and directories |
| WimWriter, WimTable, WimTree | writers of compressed resources, lookup tables and directory trees, which the reader inverts |
| WimPatch, WimPatched, WimWalk, WimInjected | the patch, the image it shows, and opening an injected file in it |
| WimDisk | the patched image on the virtual disk: a FAT reader and a WIM reader together |
| Paging | moving memory above 4GB behind 2MB pages |
| PeReloc | the PE base relocation table |
| Cpio | the cpio "newc" parser |

Each component has a specification (pure functions), methods in the source's own
imperative form proved against it, and theorems about the specification. The partner of
each main result is independent of the code: a FAT reader for the disk, an encoder for
each compressed format, a table decoder for the relocations, an archive printer for
cpio, the standard's definition and its published examples for SHA-1, writers of resources,
tables and directory trees for the WIM reader, virtual memory for paging.

Conventions. `byte` is an integer in 0..255; `size_t` and `unsigned long` are 64 bits
wide and unbounded numbers are used where they cannot wrap. Reads outside a buffer that
the code makes without a check go to memory modelled as a total function, so nothing is
assumed about them. A decompression buffer is a nullable array: null is the length-only
pass.

Where the code is not what one would expect, the model follows the code and says exactly
when the expectation holds:

- A disk read that starts below the first file and crosses into it shows zeros instead of
  the file (`VdiskRead.DeliveredExactly`, `VdiskRead.CrossingHidesData`).
- An empty file closes no cluster of its own, so its FAT chain runs on into the next file,
  or on without end; chains are disjoint exactly where that does not happen
  (`FatDriver.ChainIsCourse`, `FatDriver.EmptyRunsOn`, `FatDriver.ChainEndless`,
  `FatDriver.ChainsDisjoint`).
- An uncompressed LZX block does not advance the output position: the reported length is
  right exactly if the headers describe no bytes in such blocks (`Lzx.ReportExact`,
  `LzxFiles.StoredBytesLost`).
- After an uncompressed LZX block with zero offsets a chunk can be reported in full and not
  written, and the WIM reader then returns what its buffer held before. An LZX run shows
  nothing of its buffer exactly if every zero-offset copy stays below the end of what
  uncompressed blocks have written (`LzxSettled.DeterminedExactly`). An XCA run shows nothing
  of the memory around it exactly if it is not short of a symbol after a new length table
  that the bytes past its input could make the end marker, and its matches stay inside its
  output (`XcaSettled.ContainedExactly`, `Lz.GroundedExactly`). Together these are exactly the
  inputs whose outcome their bytes determine (`Inflate.SteadyExactly`,
  `Inflate.AcceptedExactly`, `Inflate.StaleChunk`), and for chunks like that the cache is
  invisible (`Wim.Reader.Run`).
- An accepted LZX chunk can write past the chunk buffer, exactly if an uncompressed block ends
  past it (`Lzx.ExtentOf`, `Inflate.IdleChunk`).
- A cpio size field may carry a minus sign, and then the parser can stay at one entry for
  ever; it returns exactly where no sizes it comes to vanish (`Cpio.StaysExactly`,
  `Cpio.UnsignedReturns`, `Cpio.StuckExample`).

## Model

| member | source | states |
|---|---|---|
| `Huffman.Alphabet.Build` | src/huffman.c:100-189 | Succeeds exactly when no symbol is used or the Kraft sum of the used symbols is 2^16; on success the set table, the raw symbol table and the quick-lookup table are those of the canonical code of the lengths |
| `Huffman.Alphabet.CountSymbols` | src/huffman.c:113-131 | The frequency of each length is the number of symbols of that length; an unused alphabet counts as two one-bit codes |
| `Huffman.Alphabet.PopulateSets` | src/huffman.c:133-152 | Fails exactly when the lengths oversubscribe the 16-bit window space, and is complete exactly when they fill it |
| `Huffman.Alphabet.PlaceSymbols` | src/huffman.c:154-161 | The raw table lists the used symbols ordered by length, then by value |
| `Huffman.Alphabet.FillLookup` | src/huffman.c:163-180 | Every 7-bit prefix leads to the last set whose start has a prefix no greater, and raw pointers are biased by the first code of their set |
| `Huffman.Alphabet.Sym` | src/huffman.c:198-209 | The quick lookup and the backward walk find the last set whose start is at most the window, as a full search would |
| `Huffman.Alphabet.Decode` | src/huffman.h:85-103 | On every accepted alphabet any window yields the one symbol whose canonical code starts it, and that code's length; an alphabet without symbols yields symbol 0 and one bit, read from the last entries of the lookup table, which lie before the raw table |
| `Huffman.OverflowTest` | src/huffman.c:143-148 | The code-number test for too many symbols is the test that the sets so far weigh more than the window space |
| `Huffman.CompleteTest` | src/huffman.c:149-152 | The final code-number test is the test that all sets together weigh exactly the window space |
| `Huffman.TotalWeight` | src/huffman.c:115-152 | The weight of all sets is the Kraft sum, or the whole space for an unused alphabet |
| `Huffman.FirstIsWeight` | src/huffman.c:134-151 | The first code of a set, normalised to 16 bits, is the weight of the shorter sets: starts are non-decreasing from zero |
| `Huffman.PrefixFree` | src/huffman.c:133-161 | No window starts with the codes of two symbols |
| `Huffman.CanonicalOrder` | src/huffman.c:133-161 | Shorter codes come before longer ones and those of one length are in the order of their symbols |
| `Huffman.SlotOfWindow` | src/huffman.h:99-103 | Indexing the last set at or before a window gives a symbol whose code starts the window and has that set's length |
| `Huffman.DecodeInvertsEncode` | src/huffman.c:198-209 | For every accepted table with symbols, every 16-bit window starts with the code of exactly one symbol |
| `HuffmanBits.SymbolOfWindow` | src/huffman.c:198-209 | Bits that begin with the canonical code of a symbol decode to that symbol, whatever follows |
| `Bits.TopBits` | src/xca.c:97-97 | The top bits of an accumulator are the first bits of the string it stands for |
| `Bits.DropBits` | src/lzx.c:87-89 | Shifting an accumulator left in 32 bits drops the first bits of its string |
| `Bits.AddWord` | src/lzx.c:60-66 | Or-ing a 16-bit word in below the held bits appends the word's bits to the string |
| `LzxBits.Reader.Accumulate` | src/lzx.c:56-69 | The accumulator goes on holding exactly the loaded bits left-justified over zeros, at most 31 of them, with the input offset even and within the input; the value is the next 16 bits padded with zeros |
| `LzxBits.Reader.Consume` | src/lzx.c:78-92 | Drops the given number of bits from the front, or fails and changes nothing if fewer are held |
| `LzxBits.Reader.GetValue` | src/lzx.c:101-113 | Agrees with the abstract bit stream: value, new place and failure |
| `LzxBits.Reader.Align` | src/lzx.c:122-134 | Fails exactly if the padding bits cannot be read, and otherwise drops every loaded bit |
| `LzxBits.Reader.GetBytes` | src/lzx.c:144-159 | Delivers the next bytes of the input exactly if there are enough, and keeps the offset even after the caller's realignment |
| `LzxBits.Reader.Decode` | src/lzx.c:168-186 | Agrees with decoding on the abstract bit stream: symbol, new place and failure |
| `LzxBits.GetBitsReads` | src/lzx.c:101-113 | Reading n <= 16 bits returns the next n bits of the whole unread stream and leaves the rest, and fails exactly if fewer remain |
| `LzxBits.DecodeReads` | src/lzx.c:168-186 | Decoding returns the symbol whose code starts the unread stream and leaves what follows it, and fails exactly if the stream ends inside the code |
| `LzxDecoder.GetLengths` | src/lzx.c:205-211 | Reads a raw length table as a sequence of fixed-width numbers, or fails at the end of input |
| `LzxDecoder.GetChange` | src/lzx.c:253-287 | Decodes one pretree code, with its run length and second code where it has them |
| `LzxDecoder.ReadCoded` | src/lzx.c:242-297 | Decodes a whole table of code lengths against the previous table, and fails on a run that outlasts it |
| `LzxDecoder.GetPretree` | src/lzx.c:228-298 | Reads the pretree, requires it to be a valid alphabet, and decodes the table with it |
| `LzxDecoder.GetMain` | src/lzx.c:325-349 | Literal and match lengths come from two pretrees, and the main alphabet describes their concatenation |
| `LzxDecoder.GetLength` | src/lzx.c:358-375 | The length alphabet describes the decoded length table |
| `LzxDecoder.GetAlign` | src/lzx.c:306-316 | The aligned offset alphabet describes eight three-bit lengths |
| `LzxDecoder.GetBlockStart` | src/lzx.c:384-413 | Block type and length, with the default length and the two-byte length |
| `LzxDecoder.Decoder.GetBlock` | src/lzx.c:384-470 | A block header takes the decoder to the state of the specification; exactly the bytes of an uncompressed block are written, at the output position |
| `LzxDecoder.Decoder.GetUncompressed` | src/lzx.c:431-470 | Repeated offsets are taken from the input, the block's bytes are copied to the output position and nothing else is written, the input stays aligned, and the output position does not advance |
| `LzxDecoder.GetStored` | src/lzx.c:431-470 | Succeeds exactly if the padding, the three offsets and the block's bytes are there, returns them as they stand in the input, and leaves the input on a word boundary |
| `LzxDecoder.PositionBases` | src/lzx.c:624-631 | The table of base positions is the running sum of the slots' sizes |
| `LzxDecoder.GetOffset` | src/lzx.c:519-554 | A repeated offset is swapped to the front; a new one is its slot's base plus verbatim and aligned footer bits less two, and pushes the others back |
| `LzxDecoder.Decoder.GetPiece` | src/lzx.c:481-570 | One token gives the byte or match and the state of the specification, and fails on input overrun or match underrun |
| `LzxDecoder.WritePiece` | src/lzx.c:499-566 | Writes a byte, or copies forwards byte by byte from an offset back, an offset of zero copying bytes to themselves, and nothing else |
| `LzxDecoder.DoRun` | src/lzx.c:641-663 | The nested block and token loops follow the specified run, report the same status and output length whether or not there is a buffer, and leave in a buffer exactly what the run writes, uncompressed blocks and zero offsets included |
| `LzxDecoder.Decompress` | src/lzx.c:613-670 | The result is the same with and without a buffer, and a buffer holds exactly what the run writes, translated on success; if no block is uncompressed that is the jump translation of the expanded items in positions [0, result), with the rest untouched |
| `Lzx.PlainRun` | src/lzx.c:641-670 | A run without uncompressed blocks reports exactly the total size of its items, and writes no further than that |
| `Lzx.ExtentOf` | src/lzx.c:453-470 | A run writes past the length it reports exactly if an uncompressed block ends past it, and then up to the furthest such end |
| `Lzx.PlainByHeaders` | src/lzx.c:384-445 | A run meets no uncompressed block exactly if none of the block headers it comes to has that type |
| `Lzx.Accounting` | src/lzx.c:453-470 | The length a successful run reports, plus the lengths of its uncompressed blocks, is what its block headers describe plus what tokens run over |
| `Lzx.ReportExact` | src/lzx.c:613-670 | On a whole input the reported length is the described one exactly if the uncompressed blocks are empty |
| `Lzx.PlainEffect` | src/lzx.c:499-566 | A run without uncompressed blocks writes the expansion of its items and nothing else |
| `LzxTokens.SlotsTile` | src/lzx.h:167-176 | Every position below the last base lies in exactly one position slot |
| `LzxTokens.BaseValues` | src/lzx.h:167-176 | The even slots start at the powers of two and the odd ones half-way between, up to slot 38 |
| `LzxTokens.BaseSteps` | src/lzx.h:167-176 | From slot 38 on every slot starts 2^17 after the last |
| `LzxTokens.SlotsFillWindow` | src/lzx.c:624-631 | The thirty slots cover exactly the positions below 32768 |
| `LzxTokens.TokenRoundTrip` | src/lzx.c:481-570 | Where the unread bits begin with the coding of a byte, a repeated-offset match or a new match, in a verbatim or an aligned block, the decoder emits it, updates the repeated offsets and continues after it |
| `LzxTokens.StreamRoundTrip` | src/lzx.c:657-661 | A whole sequence of coded tokens in a block decodes to its items, and the run goes on from the bits after them |
| `LzxFormat.ChangeRoundTrip` | src/lzx.c:253-287 | Decoding a single length, a run of zeros of either size or a run of equal lengths gives its length and its number of repeats, and leaves the bits after it |
| `LzxFormat.LengthsRoundTrip` | src/lzx.c:242-297 | Decoding a table coded in stretches against the previous table gives back the table, with no repeat left over |
| `LzxFormat.PretreeRoundTrip` | src/lzx.c:228-298 | Reading a pretree and the table coded with it gives back the table |
| `LzxFormat.HeaderRoundTrip` | src/lzx.c:384-445 | Reading the coding of a verbatim or aligned block header gives its length and its alphabets, and leaves the bits after it |
| `LzxFormat.FileRoundTrip` | src/lzx.c:613-670 | Wherever the unread bits are the coding of a list of verbatim and aligned blocks and less than a word of padding, the run succeeds and finds exactly the items of their tokens |
| `LzxFormat.StreamOfPacked` | src/lzx.c:60-66 | Every bit string of whole words is the stream of some input |
| `LzxFiles.CodingDecodes` | src/lzx.c:613-670 | The coding of any list of verbatim and aligned blocks, padded to whole words and packed into bytes, is a file on which the run succeeds with exactly the items of the blocks: the coding does not depend on the file |
| `LzxFiles.DecodeFile` | src/lzx.c:613-670 | Decompressing such a file, if it codes the forward jump translation of some bytes, leaves exactly those bytes in the buffer |
| `LzxFiles.StoredBytesLost` | src/lzx.c:453-470 | Eighteen bytes that are one uncompressed block of two bytes decode successfully to a reported length of zero |
| `LzxFiles.IdleFile` | src/lzx.c:556-567 | For any bytes there is a file that decodes successfully to a reported full chunk and writes those bytes and no others: in any buffer what was there after them comes out translated |
| `LzxLiterals.CodingExists` | src/lzx.c:613-670 | Every byte string shorter than 2^31 is the original of some such coding |
| `LzxSettled.SettledAgrees` | src/lzx.c:556-567 | If every zero-offset copy of a run stays below the end of what uncompressed blocks have written, two buffers come out the same on its output |
| `LzxSettled.UnsettledByte` | src/lzx.c:556-567 | Otherwise some byte of its output comes through the run as it was, in every buffer |
| `LzxSettled.DeterminedExactly` | src/lzx.c:613-670 | A successful call leaves the same output whatever the buffer held before exactly if every zero-offset copy stays below the end of what uncompressed blocks have written |
| `LzxSettled.PastExtent` | src/lzx.c:613-670 | A call leaves the buffer past the furthest byte its run writes alone |
| `LzxSettled.PlainSettled` | src/lzx.c:499-530 | A run without uncompressed blocks never copies at offset zero, so that it is always determined |
| `LzxJumps.TranslateJumps` | src/lzx.c:577-603 | The in-place scan leaves the specified translation in the first bytes of the buffer and nothing else changed |
| `LzxJumps.Translate` | src/lzx.c:592-600 | The signed arithmetic on one target is the specified rotation |
| `LzxJumps.TranslatedBytes` | src/lzx.c:577-603 | Byte by byte: where the scan stops at a 0xe8, the four bytes after it become the 32-bit pattern of their signed value less the position if it is from 0 to below 12000000, plus 12000000 if it is negative and not below minus the position, and stay as they are otherwise; no other byte changes, nor do the last ten |
| `LzxJumps.RotationsInverse` | src/lzx.c:577-603 | Each rewrite is a rotation of the targets from minus the offset up to 12000000, undone by the opposite rotation |
| `LzxJumps.WalkInverse` | src/lzx.c:577-603 | On every buffer shorter than 2^31 bytes each direction of the translation undoes the other |
| `LzxJumps.WalkBijective` | src/lzx.c:577-603 | The translation is injective and onto |
| `Lz.Write` | src/lznt1.c:78-93 | Stores one literal or match byte by byte after the output so far, and nothing past it; without a buffer nothing is touched |
| `Lz.MatchPeriodic` | src/lznt1.c:82-83 | An overlapping match repeats the last offset bytes of the output periodically |
| `Lz.ExpandAppend` | src/lznt1.c:78-93 | Expanding two lists of items one after the other is expanding their concatenation |
| `Lz.ExpandGrounded` | src/xca.c:150-156 | If no match reaches back past the start of the output, the expansion does not depend on the memory below the buffer |
| `Lz.GroundedExactly` | src/xca.c:150-156 | If every match has some length, that is exactly when the expansion does not depend on it |
| `Lznt1.DecompressBlock` | src/lznt1.c:43-108 | On every block the value is the size of the parsed items or -1, the same with and without a buffer, and a buffer receives exactly their expansion; the split stays within 1..12 |
| `Lznt1.UpdateSplit` | src/lznt1.c:96-100 | The threshold is always 2^(16-split), and the split is the one the output length determines |
| `Lznt1.SplitExact` | src/lznt1.c:96-100 | The distance bits of a value, at least four, are the fewest with which a match reaches the start of the block |
| `Lznt1.Decompress` | src/lznt1.c:118-181 | On every input the value is the same with and without a buffer, and a buffer receives the expansion of all blocks in positions below the value and nothing elsewhere |
| `Lznt1.MatchBound` | src/lznt1.c:74-77 | A match takes the output of a block to 4114 bytes at most, or adds ten bytes at most |
| `Lznt1.BlockBound` | src/lznt1.c:55-105 | At every point the output of a block is at most 4114 plus five bytes per byte consumed |
| `Lznt1.BlockSize` | src/lznt1.c:43-108 | No block of at most 4096 bytes expands to more than 24594 bytes |
| `Lznt1.BlockRoundTrip` | src/lznt1.c:55-105 | Parsing the coding of a list of items, a tag byte before every eight, gives back the list |
| `Lznt1.StreamRoundTrip` | src/lznt1.c:128-178 | Parsing a stream of compressed and stored chunks, with or without an end marker, gives back their items |
| `Xca.Consume` | src/xca.c:100-105 | The accumulator holds exactly the unread bits, 16 and extra of them with extra in 0..16, left-justified over zeros, before and after bits are consumed and a word is read |
| `Xca.Initialise` | src/xca.c:65-94 | Fails exactly on a short length table or one that is neither complete nor empty, and otherwise starts a block with its alphabet and 32 bits loaded |
| `Xca.GetToken` | src/xca.c:96-119 | A symbol is a byte, the end or a match, as the canonical code of the unread bits says |
| `Xca.GetMatch` | src/xca.c:121-148 | The length comes from the symbol and up to three input bytes, the distance from the next unread bits |
| `Xca.Decompress` | src/xca.c:43-166 | On every input the value is the same with and without a buffer, and a buffer receives exactly the expansion of the items in positions below it |
| `Xca.LiteralRead` | src/xca.c:96-113 | Where the unread bits begin with the code of a byte, that byte is emitted and the bits after its code remain |
| `Xca.MatchRead` | src/xca.c:96-148 | Where the unread bits begin with the code of a match symbol, followed by its length bytes and distance bits, that match is emitted |
| `Xca.StreamRead` | src/xca.c:62-158 | Where the input goes on with the coding of a list of tokens, as the reader loads it, decoding gives their items and goes on from the state after them |
| `Xca.ParseLocal` | src/xca.c:62-158 | A run depends only on the bytes up to where its reading ends |
| `XcaFiles.RefillRead` | src/xca.c:98-103 | The reader loads a word exactly when the encoder sends it: as soon as fewer than 16 of the bits sent are left |
| `XcaFiles.TokensRead` | src/xca.c:96-158 | The bytes the encoder makes of a list of tokens, bit words and length bytes interleaved, are read as those tokens |
| `XcaFiles.BlocksRead` | src/xca.c:62-158 | From a block boundary on, decoding the encoder's bytes for a list of blocks gives their items and ends on the end marker |
| `XcaFiles.EncodeDecodes` | src/xca.c:43-166 | Decoding inverts the encoder on whole inputs, whatever follows them in memory |
| `XcaFiles.CodingExists` | src/xca.c:43-166 | Every byte string is what some encoded input expands to, with nothing below the buffer looked at |
| `XcaSettled.ContainedExactly` | src/xca.c:62-166 | The outcome of a run, success and items, is the same whatever lies past its input exactly if the run does not come to a new length table whose first symbol lies past the end and may be the end marker |
| `XcaSettled.NotContained` | src/xca.c:86-119 | Such a run succeeds with some memory past its input and fails with another |
| `XcaSettled.ParseSolid` | src/xca.c:121-134 | Every match of a run has some length |
| `Sha1.StepAgrees` | src/sha1.c:58-103 | The round functions and constants are those of the standard in each of the four stages |
| `Sha1.Context.Digest` | src/sha1.c:128-175 | Folds the block into the digest as the standard's compression does, leaving the block byte-swapped |
| `Sha1.Context.Update` | src/sha1.c:186-200 | Whatever was absorbed before, the context has then also absorbed the new data |
| `Sha1.Context.Final` | src/sha1.c:209-232 | Returns the digest of the absorbed message, padding and length included |
| `Sha1.HashPieces` | src/sha1.c:112-232 | However a message is cut into updates, the result is the digest of section 6.1.2 of FIPS 180-4 on the padding of section 5.1.1 |
| `Sha1.HashFile` | src/wimpatch.c:163-183 | Hashing a file in blocks of up to 512 bytes gives the digest of the whole file |
| `Sha1Examples.ScheduleBits` | src/sha1.c:154-156 | Bit by bit, word t of the schedule is the exclusive or of words t-3, t-8, t-14 and t-16 moved up by one place, the last bit going first |
| `Sha1Examples.HashOfShort` | src/sha1.c:128-180 | The digest of the three letters abc is the published one |
| `Sha1Examples.HashOfLong` | src/sha1.c:128-180 | So is that of the published message of two blocks |
| `Vdisk.GeometryAgrees` | src/vdisk.h:64-109 | The first cluster of a file slot is the cluster at its first sector; FAT size and root position have the values the layout needs |
| `VdiskDir.DirectoryEntry` | src/vdisk.c:188-255 | Writes the short record and, walking backwards, the numbered long-name records of one entry, and returns the slot before them |
| `VdiskDir.BuildDirectory` | src/vdisk.c:165-176 | A directory is built from the last slot backwards with deleted records in front |
| `VdiskDir.ChecksumOf` | src/vdisk.c:207-214 | The rotate-and-add checksum of the short name |
| `VdiskDir.ChecksumAgrees` | src/vdisk.c:207-214 | For every short name that is the checksum a FAT reader computes on its own |
| `VdiskDir.SumOfSpaces` | src/vdisk.c:200-214 | Every long-name record carries 0xf7, the checksum of eleven spaces |
| `VdiskDir.DirectoryRoundTrip` | src/vdisk.c:188-255 | A forward FAT reader with its own record layout, markers and checksum finds in a built directory exactly the entries put in: name, attributes, size and cluster |
| `VdiskRead.BuildFat` | src/vdisk.c:120-157 | A window of the FAT holds exactly the specified entries: successors, and end markers for reserved clusters and last clusters of files |
| `VdiskRead.BuildFile` | src/vdisk.c:426-456 | A range of a file is its data, zero-padded and patched, at every offset |
| `VdiskRead.BuildDirFiles` | src/vdisk.c:391-417 | Directory sectors for files are those of the file each sector belongs to |
| `VdiskRead.NextFragment` | src/vdisk.c:565-595 | A fragment of the system area is built by one region or none, and the walk advances |
| `VdiskRead.OwnerKind` | src/vdisk.c:498-518 | A sector owned by a region is of that region's kind, so owners agree |
| `VdiskRead.OwnerUnique` | src/vdisk.c:498-518 | No sector is owned by two regions |
| `VdiskRead.OwnerExists` | src/vdisk.c:498-518 | Every sector with contents in the system area is owned by some region |
| `VdiskRead.VirtualDisk.Read` | src/vdisk.c:527-614 | A read of any range delivers the specified bytes and touches nothing past them |
| `VdiskRead.DeliveredExactly` | src/vdisk.c:544-611 | A read equals the concatenation of its single-sector reads exactly if it does not cross the start of file 0 from below or the sectors past it are zero anyway |
| `VdiskRead.CrossingHidesData` | src/vdisk.c:565-595 | A two-sector read across the start of file 0 misses the file's first byte |
| `VdiskRead.VirtualDisk.AddFile` | src/vdisk.c:625-649 | The next slot of the table gets the file, until the table is full |
| `VdiskRead.VirtualDisk.PatchFile` | src/vdisk.c:657-666 | The patch and the patched length replace those of that file only |
| `FatDriver.DiskIsRead` | src/vdisk.c:527-614 | The disk a FAT reader sees is what single-sector reads deliver |
| `FatDriver.MountsVolume` | src/vdisk.c:45-92 | Mounting through the partition table and boot sector finds the volume's geometry |
| `FatDriver.VolumeIsFat32` | src/vdisk.c:45-110 | The boot records are byte for byte those of one bootable FAT32 partition: partition entry, sector and cluster sizes, media, hidden sectors, signatures, FSInfo, labels, and a second copy of the boot record |
| `FatDriver.NextIsEntry` | src/vdisk.c:120-157 | Looking a cluster up in the disk's FAT sectors gives its specified entry |
| `FatDriver.ChainIs` | src/vdisk.c:120-157 | Following the FAT from a file's first cluster visits its clusters in order, ceil(xlen/32768) of them, and then the end marker; no other chain starts there |
| `FatDriver.ChainIsCourse` | src/vdisk.c:145-156 | For every file, empty ones included, following the FAT visits the consecutive clusters up to the first one closed at or after its start, and no other chain starts there |
| `FatDriver.ChainEndless` | src/vdisk.c:145-156 | The chain of an empty file with no file after it never ends inside the volume |
| `FatDriver.EmptyRunsOn` | src/vdisk.c:145-156 | An empty file followed by one with bytes closes no cluster of its slot: its chain runs through the whole slot and the next file's clusters, which the two chains share |
| `FatDriver.ChainCountExact` | src/vdisk.c:145-156 | The chain of a file has as many clusters as its length needs exactly if the length is positive; the chain of an empty file fills its slot at least |
| `FatDriver.ChainsDisjoint` | src/vdisk.c:120-157 | The chains of two files, empty ones included, are disjoint exactly unless the first is empty and the next file after it is the second and has bytes |
| `FatDriver.DirectoryShowsFile` | src/vdisk.c:391-417 | Every copy of a file's directory sector lists its long name, size and first cluster |
| `FatDriver.DirectoryShowsSubdirs` | src/vdisk.c:264-385 | Every directory lists its subdirectories at their clusters, each one cluster long |
| `FatDriver.DirectoryShowsAll` | src/vdisk.c:264-417 | A whole directory cluster, read from its first sector to its last, lists the subdirectories and then one entry per present file, in table order |
| `FatDriver.TreeOnDisk` | src/vdisk.c:264-417 | A reader of whole directory clusters finds exactly the tree BOOT with FONTS and RESOURCES, SOURCES, and EFI with MICROSOFT, both with BOOT in them, at the clusters the sectors are generated for |
| `FatDriver.ContentsOfChain` | src/vdisk.c:426-456 | The sectors of a file's chain, cut to its length, are the zero-padded, patched file |
| `FatDriver.EndToEnd` | src/vdisk.c:527-614 | For every file table and every file with 0 < xlen < 2^32: the volume mounts, the directory gives name, size and first cluster, the FAT gives exactly the file's chain, and the chain gives its bytes |
| `Wim.Reader.ReadChunk` | src/wim.c:140-208 | Accepts a chunk exactly if it is stored raw or the length pass reports its length, and then runs the decompressor into the shared buffer: the buffer starts with what the run makes of its surroundings, which is the chunk if the stored bytes determine it, and is untouched past the reach of the run; on failure all of it is |
| `Wim.Reader.Unpack` | src/wim.c:195-204 | The two passes of the decompressor, the second with its result ignored: the decompressed bytes wherever the input determines the outcome of both |
| `Inflate.Decompress` | src/wim.c:195-204 | One call of the LZX or XCA decompressor, on every input: the reported value, in a buffer the bytes that the run makes of its surroundings, and nothing else changed past its reach |
| `Inflate.SteadyReport` | src/wim.c:195-204 | For an input that determines its output the length pass reports the length of the decompressed bytes, whatever follows the input |
| `Inflate.SteadyOutput` | src/wim.c:195-204 | Such an input gives its decompressed bytes in any surroundings: memory after the input, memory below the buffer, previous contents of the buffer |
| `Inflate.SteadyExactly` | src/wim.c:195-204 | The result is the same in all surroundings exactly if the input is steady: a settled LZX run, or a contained XCA run whose matches stay inside its output |
| `Inflate.AcceptedExactly` | src/wim.c:195-204 | Both passes together, the first of which must report a given length, come out the same in all surroundings exactly if the input is steady or never reports that length |
| `Inflate.PlainInflated` | src/lzx.c:613-670 | An LZX input without uncompressed blocks is steady and decompresses to the translated expansion of its items |
| `Inflate.CodedInflates` | src/xca.c:43-166 | The coding of XCA blocks whose matches stay inside the output is steady and decompresses to the expansion of their items |
| `Inflate.EveryTextInflates` | src/wim.c:195-204 | In either format every byte string has a steady input that decompresses to it and writes nothing else |
| `Inflate.IdleChunk` | src/wim.c:195-204 | For any bytes some LZX input reports a full chunk and writes exactly those bytes: it is steady exactly if they fill the chunk, and writes past the chunk buffer if they are more |
| `Inflate.StaleChunk` | src/wim.c:195-204 | Some LZX input is accepted as a full chunk and turns two different buffers into different ones: without the condition on chunks the cache shows through |
| `Wim.Reader.CacheChunk` | src/wim.c:256-270 | Whatever the cache held, afterwards the buffer holds the requested chunk, or the chunk has none, for resources whose chunks' outcome is determined by their stored bytes |
| `Wim.Reader.Read` | src/wim.c:221-286 | For resources whose chunks' outcome is determined by their stored bytes the result is a function of the arguments alone: the requested slice, or failure outside the resource or the file or in a bad chunk |
| `Wim.Reader.Run` | src/wim.c:221-286 | Over any sequence of calls, failed ones included, on files whose compressed resources have distinct offsets and chunks whose outcome is determined by their stored bytes, each result is as if there were no cache |
| `Wim.ReadReturnsSlice` | src/wim.c:221-286 | Reading any range of a readable resource returns that slice of its whole decompressed contents |
| `WimWriter.OffsetRead` | src/wim.c:71-128 | In an image that holds a table of distances, four or eight bytes each, and then the chunks, the reader finds the start of every chunk and the end of the last |
| `WimWriter.WriterReads` | src/wim.c:71-208 | Where an image holds a resource so written, each chunk stored as it is or as bytes of another length that decompress to its piece, the contents are the pieces joined |
| `WimWriter.EveryStringStored` | src/wim.c:71-208 | Every byte string shorter than 2^64 is the contents of some resource in either format, with a chunk compressed |
| `WimWriter.StoredReads` | src/wim.c:221-286 | Any range of it is read back through the chunk cache |
| `Wim.CodecBits` | src/wim.c:182-193 | Bit 18 of the header flags chooses LZX and otherwise bit 17 chooses XCA, whatever the other bits are |
| `Wim.ResourceBits` | src/wim.c:243-248 | Bits 2 and 4 of the resource flags mean chunks and bit 1 metadata, whatever the other bits are |
| `Wim.FragmentInside` | src/wim.c:272-277 | A fragment never reaches past the data of its chunk |
| `WimDir.ResourceRoundTrip` | src/wim.c:296-320 | A resource header stored in 24 bytes reads back |
| `WimDir.WimCount` | src/wim.c:296-320 | The number of metadata entries of the lookup table |
| `WimDir.WimMetadata` | src/wim.c:332-370 | The resource of the index-th metadata entry, or the boot resource for index 0 |
| `WimDir.WimDirentry` | src/wim.c:383-426 | The first entry from an offset whose name matches without regard to case |
| `WimDir.WimPath` | src/wim.c:439-471 | The entry reached by walking a backslash-separated path from the root |
| `WimDir.WimDirLen` | src/wim.c:529-548 | The length of a directory up to its zero terminator |
| `WimTable.TableRead` | src/wim.c:297-370 | In a lookup table written entry by entry the images are counted, the metadata of each image is found by its index, and the first resource with a hash by the hash |
| `WimTable.HeaderRead` | src/wim.h:63-102 | In a header written field by field the image count, lookup table, boot metadata, boot index and decompressor are found |
| `WimTree.FindInList` | src/wim.c:383-426 | Searching a directory written entry by entry finds the first with the name, in letters of any case, or nothing |
| `WimTree.PathFound` | src/wim.c:438-471 | In the metadata of any tree of directories, written with security data, padding, entries and terminators, a path finds the entry that has it, in letters of any case, and nothing if no entry has it |
| `WimPatch.PatchRegion` | src/wimpatch.c:517-552 | A region replaces exactly the bytes of the fragment it covers, clipped at both ends |
| `WimPatch.PatchFragment` | src/wimpatch.c:808-818 | Each byte of a fragment is decided by its position in the file alone, by the last region covering it: patching a fragment is that slice of patching the file |
| `WimPatch.OverlayDecided` | src/wimpatch.c:808-818 | A byte comes from the last region that covers it |
| `WimPatch.RegionsDisjoint` | src/wimpatch.c:646-773 | No two regions share a byte, except the subdirectory field inside the metadata copy |
| `WimPatch.PartsAligned` | src/wimpatch.c:726-763 | The new lookup table, metadata and directory start at the first multiple of eight after what comes before them |
| `WimPatch.KeptOut` | src/wimpatch.c:191-238 | Every present file is injected but wimboot, bootmgr, bootmgr.exe, BCD, boot.stl, and those with the extensions wim, sdi, efi and ttf, in letters of any case |
| `WimPatch.PlaceFiles` | src/wimpatch.c:705-714 | Injected files follow each other after the original file |
| `WimPatch.PlaceDir` | src/wimpatch.c:592-635 | Injected directory entries follow each other at a stride of 168 bytes |
| `WimPatch.LayOut` | src/wimpatch.c:646-773 | The running offset gives every region its place in the layout |
| `WimPatch.Search` | src/wimpatch.c:720-756 | Through the chunk cache: the image count, the injection directory and its length, as the image's contents give them |
| `WimPatch.Patch.Construct` | src/wimpatch.c:646-773 | Succeeds exactly if header, boot image and, where files are injected, image count and directory can be read; the regions, the new header and the new length are then those of the layout, and the chunk cache stays sound |
| `WimPatched.ContentFits` | src/wimpatch.c:250-507 | Every region's content has the region's length, so each callback's bounds hold after clipping |
| `WimPatched.ByteFrom` | src/wimpatch.c:517-552 | A byte covered by a region is that region's, except for the subdirectory field inside the metadata copy |
| `WimPatched.LookupShown` | src/wimpatch.c:726-745 | The patched lookup table is the original one, the new boot image and one entry per injected file in table order |
| `WimPatched.HeaderShown` | src/wimpatch.c:250-277 | The header read back from the patched file is the constructed one |
| `WimPatched.TableCoherence` | src/wimpatch.c:333-387 | Counting images in the patched table gives the header's image count and boot index, and the metadata at that index is exactly the header's boot resource |
| `WimPatched.LookupCoherence` | src/wimpatch.c:646-773 | The same for every patch constructed from an intact image whose lookup length is a multiple of the entry size |
| `WimWalk.InjectedEntryAt` | src/wimpatch.c:592-635 | Walking the patched directory, the injected entries stand in file-table order at a stride of 168 bytes |
| `WimWalk.OriginalEntriesAt` | src/wimpatch.c:450-466 | After the injected entries come the original entries and a zero terminator |
| `WimWalk.VisitedFrom` | src/wim.c:529-548 | Walking by the length fields from any injected entry visits the remaining injected entries and then exactly the entries of the original directory |
| `WimWalk.PatchedDirectoryWalk` | src/wimpatch.c:747-769 | Resolving the injection directory in the patched image finds the same entry, now pointing at the new directory, whose length is 168 bytes per injected file plus the original length and whose entries are exactly the injected ones in table order and then the original ones |
| `WimInjected.ConstructedReaches` | src/wimpatch.c:592-635 | A patch constructed from an intact image has these properties, provided the path walk does not itself read the subdirectory field it changes as a name |
| `WimInjected.InjectedFields` | src/wimpatch.c:363-387 | The lookup entry of an injected file is of part 0 with one reference |
| `WimInjected.DirFileOthers` | src/wimpatch.c:487-498 | Its directory entry is of a normal file without security data, with a fixed time in all three places |
| `WimInjected.FindInjected` | src/wimpatch.c:474-507 | Searching the new directory for the name of an injected file finds its entry |
| `WimInjected.FindOriginal` | src/wim.c:383-426 | A name found in the original directory that no injected file carries is still found in the patched one, with the same entry, if what the search reads there lies inside the directory |
| `WimInjected.InjectedFileOpens` | src/wim.c:483-517 | Opening an injected file by its path in the patched image and reading it returns exactly its data, also where earlier injected files have the same contents |
| `WimDisk.ReadWithin` | src/wim.c:221-286 | A read of a resource, compressed or not, depends on no byte past the end of the file |
| `WimDisk.ImageShown` | src/vdisk.c:426-456 | Along the cluster chain of the patched file the disk shows the patched image |
| `WimDisk.OpensThroughDisk` | src/wim.c:483-517 | A reader that sees only sectors mounts the volume, finds the patched file with its new length in any directory, follows its one chain, and in the image along it opens every injected file by its path |
| `Paging.Machine.MapPage` | src/paging.c:74-88 | One page directory entry is set and no other |
| `Paging.Machine.Init` | src/paging.c:110-115 | The loop that stops when the address wraps maps every page to itself |
| `Paging.Machine.CopyBytes` | src/paging.c:235-237 | Copying through virtual addresses moves exactly those physical bytes |
| `Paging.Machine.MoveFragment` | src/paging.c:224-246 | One fragment is copied through the window and its page remapped, all other pages but the window staying as they were |
| `Paging.Machine.Relocate` | src/paging.c:194-257 | If data is relocated it goes to the first entry that can hold it, at the highest compatible place inside the entry and above 4GB; every byte then reads the same virtually as before and lies at start plus its offset; every page without data, the copy window included, maps to itself and reads the same. Otherwise nothing changes, and no entry has any compatible place for the data above 4GB |
| `Paging.PlacementUnique` | src/paging.c:209-218 | There is one highest place in an entry with the data's offset within a page |
| `Paging.PlacementHighest` | src/paging.c:209-218 | No compatible place inside an entry lies above the one tried |
| `Paging.MovedView` | src/paging.c:220-252 | Every byte of the moved data is seen where it was, at its new physical place |
| `Paging.UntouchedView` | src/paging.c:220-252 | Pages without data keep place and contents |
| `PeReloc.RelocTable.Generate` | src/elf2efi.c:364-420 | Sizes of 8, 4 and 2 bytes insert and all others leave the table; an insertion goes to its page, in front if the page is new |
| `PeReloc.RelocTable.Store` | src/elf2efi.c:389-419 | Finds or creates the page, doubles its room when full, and stores the entry |
| `PeReloc.RelocTable.Output` | src/elf2efi.c:429-452 | The size is the same with and without a buffer and is the number of bytes written; the buffer receives the table and nothing else |
| `PeReloc.RelocTable.MoveBase` | src/elf2efi.c:839-841 | Every page start is lowered by the base in unsigned arithmetic |
| `PeReloc.InsertAdds` | src/elf2efi.c:364-420 | An insertion adds exactly its own relocation to the table and keeps pages distinct |
| `PeReloc.BuiltHolds` | src/elf2efi.c:364-420 | Whatever the calls and their order, the table holds exactly the multiset they asked for: type 10 for eight bytes, 3 for four and 2 for two, at the address in 32 bits |
| `PeReloc.TableRoundTrip` | src/elf2efi.c:429-452 | Reading the bytes back gives one block per page with the page's entries in order |
| `PeReloc.EvenBlock` | src/elf2efi.c:437-440 | Blocks are multiples of four bytes |
| `PeReloc.RelocsRoundTrip` | src/elf2efi.c:364-452 | For every sequence of insertions, decoding the bytes gives exactly what was inserted, addresses in 32 bits, plus at most one type-0 entry per page |
| `PeReloc.RebaseMoves` | src/elf2efi.c:839-841 | Moving the image base shifts every relocation by the same amount, in 32 bits |
| `PeReloc.RebasedRoundTrip` | src/elf2efi.c:429-452 | After the base has moved, decoding the bytes of the table gives every relocation moved by the same amount, and as many unused entries as before |
| `PeReloc.BuiltRebased` | src/elf2efi.c:839-841 | From any sequence of insertions to the bytes after the base has moved: exactly what was asked for, moved |
| `Cpio.ReadField` | src/cpio.c:51-57 | The value of an eight-character field as strtoul reads it in base 16: leading space, sign, digits up to the first other character |
| `Cpio.Extract` | src/cpio.c:67-134 | Follows the specified extraction, handler results included, on every archive and handler for which the code returns; at an entry of size zero it calls the handler again until that objects |
| `Cpio.FieldRoundTrip` | src/string.c:346-401 | A number printed in hexadecimal digits of either case reads back |
| `Cpio.MemberExamined` | src/cpio.c:94-124 | A printed member is accepted with its exact name, data and padded size; the trailer ends the archive |
| `Cpio.ArchiveRoundTrip` | src/cpio.c:67-134 | Parsing any printed archive, padded anywhere, with a trailer or bare, drives the handler over exactly its files in order and returns 0, or the first result the handler objects with |
| `Cpio.FilesHanded` | src/cpio.c:108-128 | Each call of the handler is given the name and the data of its file |
| `Cpio.StaysAt` | src/cpio.c:108-132 | The parser fails to advance past an accepted entry exactly if its sizes add up to nothing in 64 bits, or round up to that |
| `Cpio.Advances` | src/cpio.c:108-132 | Entries whose size fields carry no minus sign always advance the parser |
| `Cpio.UnsignedReturns` | src/cpio.c:67-134 | If no size field the parser comes to carries a minus sign, it returns, whatever the handler does |
| `Cpio.StaysExactly` | src/cpio.c:67-134 | With a handler that never objects it fails to return exactly if some entry it comes to has sizes that vanish in 64 bits |
| `Cpio.StaysOnly` | src/cpio.c:67-134 | With any handler it can fail to return only at such an entry |
| `Cpio.StuckExample` | src/cpio.c:108-132 | With a name length of minus 110 and no data the parser stays at its first entry for ever if the handler always returns 0 |

## Left out

- LzxDecoder.Decompress: an LZX code length that wraps below zero after pretree code 19, where the code goes on to index outside its tables; such a run counts as undefined and is excluded, in `LzxDecoder.DoRun` too.
- LzxDecoder.Decompress: with a buffer, the buffer must hold everything the run writes, which for runs with uncompressed blocks can be more than the reported length; the code does not check this.
- XcaFiles.EncodeDecodes: the encoder is asked for a last block of less than 64kB and for no match with the symbol of the end marker right before the end, since the decoder would take such inputs for something else; it does not choose codes or matches.
- Wim.Reader.Run: leaves out chunks whose outcome depends on what lies around their stored bytes, where the claim is false, and chunks whose run writes past the chunk buffer or outside its tables; chunk tables with decreasing offsets, for which the code would compute a wrapped length, count as failures.
- Wim.Reader.ReadChunk: a chunk whose uncompressed blocks end past the chunk buffer is excluded, as are such inputs in `Wim.Reader.Unpack` and `Inflate.Decompress`; `Inflate.IdleChunk` shows that they exist.
- WimPatch.Patch.Construct: asks that the resources it reads can be read through the cache, as `Wim.Reader.Read` does; the results about the patched image take the decompressor as a parameter and hold for every decompressor.
- WimPatch.PatchFragment: the callbacks are content functions, so a callback that fails in the middle of a fragment, because the original image cannot be read, is not modelled.
- `wim_file` is modelled as the function `WimDir.FindFile` without a method of its own, since it is `wim_path` and one more loop like that of `wim_metadata`.
- Wrap-around of 64-bit file offsets in WIM directories and resources, and 32-bit builds, where `size_t` is narrower.
- `patch_wim`'s test that its cached patch belongs to the file at hand: the patch object is passed explicitly.
- WimInjected.ConstructedReaches: asks that the walk to the injection directory does not read the changed subdirectory field as part of a name or length, as no well-formed directory does.
- WimInjected.InjectedFileOpens: asks that the name is the first of its kind in the directory and that no earlier entry of the lookup table has its hash, other than injected files with the same data, as the code returns the first match.
- WimTree.PathFound: asks that the metadata goes on behind the directories by twice the longest name of the path, since a search reads that far behind an entry and fails at the end of the metadata; a path that goes on below a file is left open, since the code then searches from offset 0.
- WimWriter.EveryStringStored: compresses the last chunk only, so that every distance fits its table entry; `WimWriter.WriterReads` covers any choice whose distances fit.
- The patch of the BCD file (`efi_patch_bcd`), which depends on how a read is cut and so is not a patch in the sense of the disk model.
- VdiskRead.VirtualDisk.PatchFile: the patch callback is given as the bytes it overlays and the new length, so only patches that do not depend on how a read is cut are covered.
- VdiskRead.VirtualDisk.Read: block numbers up to 2^54, beyond which the code's `int` file index wraps.
- What a reader does with the boot record fields that `FatDriver.VolumeIsFat32` lists, beyond the geometry.
- Paging.Machine.Relocate: the memory map is given as a sequence whose entries do not wrap; control registers, TLB invalidation and CPU detection are hardware; on a 32-bit build the address returned for data above 2GB that stays in place is sign-extended.
- PeReloc: the linked list of pages is a sequence of values, newest first, and fewer than 2^31 - 16 relocations are inserted; the rest of elf2efi (ELF parsing, PE headers and sections) is not modelled.
- Cpio.Extract: the handler is a function of the calls made so far; runs on which the code never returns have no result and are excluded, and `Cpio.StaysExactly` says which these are.
- EFI and BIOS glue, command line, console output, PE loading and diagnostics.

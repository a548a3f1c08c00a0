# Algorithms of VeraCrypt's common code

This project models the self-contained algorithms of `src/Common` of VeraCrypt and proves
what they promise. Code that changes things step by step is modelled by classes, arrays and
loops that are proved against specifications; protocols between threads are state machines
whose runs interleave in any way. The parts are:

- **DEFLATE decoder** (`Inflate.c`). `Bits`, `Huffman` and `Deflate` say what a stream means
  by RFC 1951, and `DeflateLimits` which streams the program takes; `DeflateWriter` and
  `DeflateStreams` write streams by the formulas of the RFC, and `DeflateRoundTrip` decodes
  what they write; `HuftTables`, `HuftBuilder` and `HuftWalk` build multi-level tables and look
  symbols up in them; `Window` and `Inflate` are the circular window and the decoder. The
  tables of one call to `huft_build` are the elements of a sequence, and a pointer to a table
  is its index.
- **Encryption thread pool** (`EncryptionThreadPool.c`). `ThreadPool` is the state machine,
  with one step for each access to shared memory, event or mutex; `ThreadPoolInvariant`,
  `ThreadPoolSteps`, `ThreadPoolWork` and `ThreadPoolCallers` prove the invariant, and
  `ThreadPoolTheorems`, `ThreadPoolHistory` and `ThreadPoolLiveness` draw the conclusions.
  Tickets that number the uses of the ring are history for the proofs.
- **GF(2^128) arithmetic** (`GfMul.c`). `Field` is the ring of polynomials, `GfMul`,
  `GfTables` and `GfCompiled` are the word-wise and table-driven multiplications.
- **PBKDF2 and HMAC** (`Pkcs5.c`). The variants differ in the hash alone, which is a
  parameter with its block and digest size.
- **Cipher cascades** (`Crypto.c`). Ciphers are arbitrary functions; those that decrypt invert
  those that encrypt under schedules that were made from keys.
- **FAT layout and format writer** (`Fat.c`, `Format.c`). `Fat`, `FormatWriter` for the
  sectors and their encryption, `WriterThread` for the hand-off between two threads.
- **Checksum, keyfiles, smart card commands** (`Crc.c`, `Keyfiles.c`, `CommandAPDU.cpp`).
- **Boot loader** (`BootEncryption.cpp`). `BootOrder` is the firmware's boot order,
  `BootFiles` the operations on files, `BootLoader` backup, installation and restoration on
  a GPT disk, `BootUpdate` the installation over an existing one.

`Division` holds facts about quotients and remainders.

## Where the code differs from what one might expect

- `inflate_dynamic` turns down two kinds of streams that RFC 1951 allows: with 31 or 32
  distance codes, and without any distance code when there are more than 257 literal/length
  codes, even if no length occurs (`DynamicTaken`, `ManyRejected`, `NoneRejected`).
- `NEXTBYTE` yields one byte more than the input has. So a stream that lacks part of its last
  byte may be completed by whatever byte follows; `DecompressDeflatedData` states both sides.
- `huft_build` may return a table one bit wider than asked for. A code-length repeat with
  nothing to repeat gives zeros, and a single one-bit code-length symbol is accepted with
  either value of its bit.
- A back-reference to before the output reads what the window held. The window's earlier
  content is therefore part of the history in the specification, and the output is shown not
  to depend on it when there is no such reference.
- `GetFatParams` may lay out more sectors than the volume has; `UsedNear` states exactly when,
  and `LayoutTooLarge` is an example. It counts no entries for the two reserved ones of a
  table, so that a table may be two entries short; `RoomForAll` states exactly when, and
  `TableTooShort` is an example.
- In a volume of 35 sectors of 512 bytes, or with as little room in larger sectors, the two
  tables of one sector each do not fit. The number of sectors to fill is then -1, and a full
  format counts it down through all 32-bit numbers (`RemainderSign`, `FormatVolume`).
- The result of the last write of the writer thread is never looked at (`LastErrorLost`).
- `CommandAPDU::parse` clears the object after a successful analysis too (`Parse`).
- `EfiBoot::DeleteStartExec` deletes the first occurrence of an entry only, and leaves
  BootNext alone if the order does not list the entry (`Gone`, `NothingNamed`). It does not
  report either that BootNext could not be read, and then leaves it alone too
  (`DeleteStartExec`). So after a restoration that has deleted VeraCrypt's files BootNext
  may still name the entry (`RestoreLeavesNext`, `BackupInstallRestore`).
- Restoring takes a fallback loader that mentions VeraCrypt for VeraCrypt's own and replaces
  it (`ComesBack`, `MentionsVeraCrypt`).
- Updating the boot loader goes on when the Windows loader cannot be moved to its backup, and
  then overwrites it (`UpdateBootLoader`).

## Model

| member | source | states |
|---|---|---|
| `Huffman.DecodesOnce` | src/Common/Inflate.c:1077-1280 | The canonical codes of section 3.2.2 of RFC 1951 are a prefix code: for lengths that are not oversubscribed, a bit stream starts with the code of at most one symbol |
| `Huffman.CodeBefore` | src/Common/Inflate.c:1186-1270 | A code comes before every code handed out later, so the tables are filled in the order of the bit patterns |
| `HuftBuilder.CountLengths` | src/Common/Inflate.c:1121-1125 | `c[len]` is the number of symbols with codes of `len` bits |
| `HuftBuilder.Range` | src/Common/Inflate.c:1134-1146 | Least and greatest code length in use |
| `HuftBuilder.Spare` | src/Common/Inflate.c:1149-1155 | `y` is negative exactly for oversubscribed lengths, and otherwise the number of codes of the greatest length that are left over |
| `HuftBuilder.SortValues` | src/Common/Inflate.c:1158-1173 | The value table is sorted by code length and then by symbol: the symbol of rank `r` of length `len` is at `Off(len) + r` |
| `HuftBuilder.TableBits` | src/Common/Inflate.c:1197-1211 | A further table is wide enough for the code at hand, asks for at most `Slack` bits beyond it, and ends where the end-of-block code ends |
| `HuftBuilder.OpenTable` | src/Common/Inflate.c:1193-1240 | A new table extends the stack of tables and is linked from the one before it under exactly the bits of the code between the two |
| `HuftBuilder.FillTable` | src/Common/Inflate.c:1257-1260 | Exactly the entries whose patterns start with the rest of the code are replaced |
| `HuftBuilder.BackwardIncrement` | src/Common/Inflate.c:1262-1265 | The bit-reversed increment gives the next canonical code |
| `HuftBuilder.BackOver` | src/Common/Inflate.c:1267-1269 | Backing up stops at the innermost table whose prefix the next code still has |
| `HuftTables.FillEntries` | src/Common/Inflate.c:1242-1260 | Invariant of the construction: after a code has been entered, all entries up to its successor are right |
| `HuftTables.BackUp` | src/Common/Inflate.c:1262-1269 | Invariant of the stack of tables when the code advances |
| `HuftBuilder.BuildTables` | src/Common/Inflate.c:1176-1280 | For lengths that are not oversubscribed, the tables realize the code; the return value tells exactly whether it is complete |
| `HuftWalk.WalkRight` | src/Common/Inflate.c:555-566 | Walking complete tables over any stream finds the entry of the symbol that the canonical code finds, with its number of bits; it asks for at most `slack` bits beyond a symbol and none beyond the end-of-block code |
| `HuftBuilder.HuftBuild` | src/Common/Inflate.c:1077-1280 | Status 2 exactly for oversubscribed lengths, 1 exactly for incomplete ones (other than a single one-bit code), no table exactly for all-zero lengths; otherwise the tables realize the code for every bit stream |
| `HuftBuilder.OneLevelBuilt` | src/Common/Inflate.c:821-823 | Lengths up to the requested width give one table, so that a code-length symbol needs a single lookup |
| `Window.BlockAt` | src/Common/Inflate.c:612-618 | A stretch of the circular window at the masked distance is a stretch of the unbounded history |
| `Window.CopyBlock` | src/Common/Inflate.c:614-618 | A match that does not overlap its output copies a block of the history |
| `Inflate.Inflater.NeedBits` | src/Common/Inflate.h:44-45 | The bits to be decoded are unchanged by filling the buffer; it fails exactly when fewer bits are left than wanted |
| `Inflate.Inflater.Flush` | src/Common/Inflate.h:45 | FLUSH appends the filled part of the window to the output |
| `Inflate.Inflater.CopyMatch` | src/Common/Inflate.c:602-630 | Wrap-around, block copy, byte copy and FLUSH together append what the LZ77 match stands for, for every distance from 1 to 32768 |
| `Inflate.Inflater.WalkTables` | src/Common/Inflate.c:557-566 | The loop over the bit buffer is the walk over the bit stream |
| `Inflate.Inflater.Lookup` | src/Common/Inflate.c:557-567 | A successful lookup consumes exactly the code of the symbol that the stream starts with; it fails only where decoding may fail |
| `Inflate.Inflater.InflateCodes` | src/Common/Inflate.c:530-643 | A successful block of literals and matches is decoded as sections 3.2.3 and 3.2.5 of RFC 1951 say; a failure means that the data without the byte past their end are not valid |
| `Inflate.Inflater.InflateStored` | src/Common/Inflate.c:649-700 | The same for a stored block, section 3.2.4 |
| `Inflate.Inflater.GetLengths` | src/Common/Inflate.c:834-887 | The same for the run-length coded code lengths, section 3.2.7 |
| `Inflate.Inflater.InflateDynamic` | src/Common/Inflate.c:763-951 | A block with dynamic codes is decoded as the RFC says if it succeeds; it fails only if the RFC does not allow the data, without the byte past their end, or their code lengths are not within the limits of the program |
| `DeflateLimits.DynamicTaken` | src/Common/Inflate.c:805-922 | A dynamic block that the RFC allows is taken if and only if it has at most 30 distance codes and, unless there are exactly 257 literal/length codes, some distance length is not zero; then it means the same |
| `DeflateLimits.BlocksRead` | src/Common/Inflate.c:805-922 | A whole stream is taken if and only if the RFC allows it and the code lengths of all its blocks are within these limits |
| `DeflateLimits.WithinMore` | src/Common/Inflate.h:45 | Bytes that follow do not change whether a stream is within the limits |
| `DeflateLimits.NoMatches` | src/Common/Inflate.c:912-922 | Without distance codes, section 3.2.7, the data of a block are all literals |
| `DeflateLimits.ManyRejected` | src/Common/Inflate.c:805-808 | A stream with 31 distance codes that the RFC allows and the program turns down |
| `DeflateLimits.NoneRejected` | src/Common/Inflate.c:915-922 | A stream without distance codes that the RFC allows and the program turns down |
| `Inflate.Inflater.InflateFixed` | src/Common/Inflate.c:711-758 | The same for a block with fixed codes, whose tables are made once |
| `Deflate.FixedCodes` | src/Common/Inflate.c:711-758 | The fixed literal code is complete, the fixed distance code has five bits throughout, and both can be decoded |
| `Inflate.Inflater.InflateBlock` | src/Common/Inflate.c:955-998 | The same for any block by the rules of the program, with the mark of the last one |
| `Inflate.LastByte` | src/Common/Inflate.h:45 | The byte that NEXTBYTE yields past the end does not change what valid data decode to |
| `Inflate.FreshOutput` | src/Common/Inflate.c:1002-1047 | Output without references before its start does not depend on what the window held |
| `Inflate.Inflater.DecompressDeflatedData` | src/Common/Inflate.c:1305-1321 | A stream that the RFC allows is decompressed to the expansion of its tokens on an unbounded history, whatever byte follows it, if its code lengths are within the limits of the program, and gives 0 if they are not; a nonzero result is always such an expansion |
| `DeflateWriter.LengthRanges` | src/Common/Inflate.c:422-428 | The ranges of lengths follow one after the other from 3 to 257 without a gap, by their extra bits, and 258 has the last code |
| `DeflateWriter.DistanceRanges` | src/Common/Inflate.c:429-436 | The ranges of distances follow one after the other from 1 to 32768 without a gap |
| `DeflateWriter.LengthOrder` | src/Common/Inflate.c:420-421 | The order in which the lengths of the code-length code come, by a formula |
| `DeflateWriter.LengthIs` | src/Common/Inflate.c:422-428 | Each length from 3 to 258 is that of the code and the extra bits which a writer computes for it from its logarithm |
| `DeflateWriter.DistanceIs` | src/Common/Inflate.c:429-436 | and each distance from 1 to 32768 that of its own |
| `DeflateWriter.FixedWords` | src/Common/Inflate.c:711-758 | The canonical codes for the fixed lengths are the bit patterns of the table in section 3.2.6 of RFC 1951 |
| `DeflateWriter.FixedTokensRead` | src/Common/Inflate.c:711-758 | Literals and matches written under these patterns are read back |
| `DeflateStreams.CodingRead` | src/Common/Inflate.c:805-887 | Code lengths that are written run by run, with the symbols 16, 17 and 18 for repetitions, are read back |
| `DeflateStreams.StreamRead` | src/Common/Inflate.c:955-1047 | A stream of stored, fixed and dynamic blocks, written as section 3.2.3 of RFC 1951 lays them out, means the literals and matches that were written |
| `DeflateRoundTrip.ExpandAt` | src/Common/Inflate.c:602-630 | Each literal and each byte of a match in the output, by its place: a byte of a match is the one that lies the distance before it |
| `DeflateRoundTrip.StreamWithin` | src/Common/Inflate.c:805-922 | A written stream is within the limits of the program exactly if the code lengths of each of its dynamic blocks are |
| `DeflateRoundTrip.Decompressed` | src/Common/Inflate.c:1305-1321 | The decoder gives back what the literals and matches of any written stream stand for, if all code lengths are within the limits, and nothing otherwise |
| `DeflateRoundTrip.BytesBack` | src/Common/Inflate.c:1305-1321 | Any bytes, written stored or as literals, are given back |
| `DeflateRoundTrip.StoredDecompressed` | src/Common/Inflate.c:649-700 | A stored block byte by byte, with mark, length and complement, low bytes first, gives the bytes it holds |
| `DeflateRoundTrip.SampleDecompressed` | src/Common/Inflate.c:1305-1321 | The four bytes 4B 04 02 00 give the letter a four times |
| `ThreadPoolTheorems.RunInv` | src/Common/EncryptionThreadPool.c:204-343 | In every state of every run of any number of callers and workers the invariant holds and all ring indices are in range |
| `ThreadPoolTheorems.NotRefilled` | src/Common/EncryptionThreadPool.c:336-343 | While a group is not released, none of its slots is refilled: fewer than a ring of tickets have been issued since its first one |
| `ThreadPoolTheorems.FirstFragmentRead` | src/Common/EncryptionThreadPool.c:336-343 | Whenever a worker reads `FirstFragment`, also after freeing its own slot, the slot still holds its fragment and leads to the counter and event of the right group |
| `ThreadPoolTheorems.DoWorkResult` | src/Common/EncryptionThreadPool.c:623-724 | When DoWork returns, each data unit has been processed exactly once under its own number, and the buffer is what one thread would leave |
| `ThreadPoolTheorems.AtMostOnce` | src/Common/EncryptionThreadPool.c:237-245 | At all times each unit has been processed at most once, and is untouched before |
| `ThreadPoolTheorems.DerivationResult` | src/Common/EncryptionThreadPool.c:247-298 | When a derivation sets its completion flag, its key has been derived, once |
| `ThreadPoolTheorems.NoDeadlock` | src/Common/EncryptionThreadPool.c:216-344 | With at least one worker, no reachable state in which a call or a slot is unfinished is stuck: no wake-up is lost |
| `ThreadPoolLiveness.StepsBounded` | src/Common/EncryptionThreadPool.c:216-724 | A run has no more steps than its calls pay for: 12 for each call, 20 for each fragment, one for each unit, and three for each worker; so no interleaving goes on for ever |
| `ThreadPoolLiveness.AllReturn` | src/Common/EncryptionThreadPool.c:547-724 | Every call returns: where a run can go on no further, all callers are back, all slots are free, every buffer has been processed, each unit once, and the completion of every derivation has been signalled |
| `ThreadPoolHistory.BufferResult` | src/Common/EncryptionThreadPool.c:237-298 | From the call on: when DoWork returns or a derivation is signalled, each unit of the data handed over has been processed under the number of the first one and its place |
| `ThreadPoolHistory.DerivationSignalled` | src/Common/EncryptionThreadPool.c:289-298 | Before the worker of a derivation gives up its slot, the completion flag is set |
| `ThreadPoolHistory.FragmentsEven` | src/Common/EncryptionThreadPool.c:657-678 | A call is split among all workers, or into single units, and fragments differ by at most one unit |
| `ThreadPoolWork.WorkerKeeps` | src/Common/EncryptionThreadPool.c:216-344 | Every step of a worker keeps the invariant |
| `ThreadPoolCallers.CallerKeeps` | src/Common/EncryptionThreadPool.c:547-586 | Every step of a caller keeps the invariant |
| `ThreadPoolCallers.Split` | src/Common/EncryptionThreadPool.c:657-678 | The fragments cover the units of a call one after the other, without gap or overlap |
| `Field.MulCommutes` | src/Common/GfMul.c:705-727 | The product that the bit-serial reference computes is commutative |
| `Field.MulDistributes` | src/Common/GfMul.c:705-727 | and distributes over exclusive or |
| `Field.MulAssociates` | src/Common/GfMul.c:705-727 | and is associative |
| `GfMul.MulXBlock` | src/Common/GfMul.c:293-312 | `mul_x` on 32-bit words is multiplication by x |
| `GfMul.MulX8Block` | src/Common/GfMul.c:344-350 | `mul_lex8` with its reduction table is eight multiplications by x |
| `GfMul.PowCoefficient` | src/Common/GfMul.c:260-268 | Where the coefficients that overflow in up to eight steps go |
| `GfTables.MulBasic` | src/Common/GfMul.c:705-727 | `GfMul128Basic` computes the product modulo x^128 + x^7 + x^2 + x + 1 of the elements in MSB-first order |
| `GfTables.MirrorBits` | src/Common/GfMul.c:588-600 | `MirrorBits128` exchanges MSB-first and LSB-first order |
| `GfTables.MulLsb` | src/Common/GfMul.c:396-434 | `GfMul128` computes the same product in LSB-first order |
| `GfTables.Horner` | src/Common/GfMul.c:411-431 | Taking the bytes of the operand from the last to the first, with a multiplication by x^8 between them, gives the product |
| `GfCompiled.CompileTable` | src/Common/GfMul.c:475-519 | Row `i` of the compiled table holds all sixteen half-byte multiples of the key at its place |
| `GfCompiled.MulTab` | src/Common/GfMul.c:438-471 | `GfMul128Tab` on a compiled table computes the product in LSB-first order |
| `GfCompiled.Tab64Init` | src/Common/GfMul.c:618-652 | The converted table holds the multiples in MSB-first order |
| `GfCompiled.MulBy64Tab` | src/Common/GfMul.c:655-682 | `Gf128MulBy64Tab` multiplies by any 64-bit operand, whichever leading zero bytes it skips |
| `GfCompiled.ExtendTimes` | src/Common/GfMul.c:744-759 | A 64-bit operand multiplies like the 128-bit operand with a zero upper half |
| `GfCompiled.MsbInjective` | src/Common/GfMul.c:758-759 | An element has one representation, so equal products are equal blocks |
| `GfCompiled.SelfTest` | src/Common/GfMul.c:753-759 | The comparison of the self-test succeeds for every key and every 64-bit operand, not only for its 256 patterns |
| `GfCompiled.MirroredProducts` | src/Common/GfMul.c:396-471 | `GfMul128`, and `GfMul128Tab` on a compiled table, are `GfMul128Basic` between two applications of `MirrorBits128`, for all operands |
| `Pkcs5.HmacContext.Internal` | src/Common/Pkcs5.c:330-354 | HMAC in place from two precomputed contexts, keeping what follows the digest in the buffer |
| `Pkcs5.HmacContext.Precompute` | src/Common/Pkcs5.c:473-519 | The two contexts are those of section 2 of RFC 2104 for every key length |
| `Pkcs5.HmacContext.Mac` | src/Common/Pkcs5.c:356-425 | `hmac_*` computes HMAC of section 2 of RFC 2104 |
| `Pkcs5.HmacPads` | src/Common/Pkcs5.c:376-413 | Both pads byte by byte, for every key length |
| `Pkcs5.Int4Is` | src/Common/Pkcs5.c:435-437 | The four bytes of a block number are the digits of the number modulo 2^32 to the base 256, most significant first |
| `Pkcs5.BlockByteIs` | src/Common/Pkcs5.c:443-453 | Each byte of a block is the exclusive or of that byte of all its terms |
| `Pkcs5.Iterate` | src/Common/Pkcs5.c:443-453 | One more iteration of the pseudorandom function and one more term of the exclusive or |
| `Pkcs5.DeriveU` | src/Common/Pkcs5.c:427-454 | Block `b` of the key is F(P, S, c, b) of section 5.2 of RFC 8018, unless an abort was requested |
| `Pkcs5.Blocks` | src/Common/Pkcs5.c:487-496 | Number of blocks and length of the last one, for every length of at least 1 |
| `Pkcs5.DeriveKey` | src/Common/Pkcs5.c:457-547 | Byte `j` of the output is byte `j % digest` of block `j / digest + 1` of PBKDF2, for every password, salt, iteration count and output length of at least 1, and for every hash, unless an abort was requested; without an abort flag none is |
| `Cascade.GetLast` | src/Common/Crypto.c:670-676 | The last cipher of the zero-terminated list |
| `Cascade.GetNext` | src/Common/Crypto.c:679-689 | The cipher after the given one, zero after the last one or for a cipher that is not listed |
| `Cascade.GetPrevious` | src/Common/Crypto.c:692-706 | The cipher before the given one, zero before the first one or for a cipher that is not listed |
| `Cascade.GetScheduleSize` | src/Common/Crypto.c:638-649 | The sum of the sizes, which is where the last key schedule ends |
| `Cascade.Disjoint` | src/Common/Crypto.c:476-490 | The key-schedule slices of different ciphers never overlap |
| `Cascade.Tiled` | src/Common/Crypto.c:469-492 | The key parts of the ciphers, in order and of their key sizes, make up the key, and their slices make up the schedules |
| `Cascade.Init` | src/Common/Crypto.c:469-492 | On success every cipher has the schedule of its own part of the key in its own slice, and nothing beyond the slices is written; on failure some cipher rejects its key |
| `Cascade.Encrypt` | src/Common/Crypto.c:957-987 | The forward walk applies the ciphers in order with their own slices |
| `Cascade.Decrypt` | src/Common/Crypto.c:1038-1072 | The backward walk applies the inverses in reverse order with the same slices |
| `Cascade.DecryptEncrypted` | src/Common/Crypto.c:957-1072 | Decryption undoes encryption, from any cipher on, of any whole number of cipher blocks, with what EAInit made of both keys: each cipher needs to invert itself only under schedules expanded from keys, such as both schedules of AES |
| `Cascade.EncryptDecrypted` | src/Common/Crypto.c:957-1072 | and encryption undoes decryption |
| `Cascade.RoundTrip` | src/Common/Crypto.c:469-1072 | EAInit for both keys, encryption and decryption in a row leave the buffer as it was |
| `Cascade.OwnSchedules` | src/Common/Crypto.c:469-492 | With schedules made by EAInit each cipher encrypts what the one before it gave, and decrypts what the one after it gave, under the schedule of its own part of both keys |
| `Fat.AlignedSoon` | src/Common/Fat.c:103-121 | Some number of reserved sectors from 32 to 41 aligns the data area, because the table gets shorter by at most one sector meanwhile |
| `Fat.FatParams.Pass` | src/Common/Fat.c:108-120 | What one pass of the loop leaves, and exactly when there is another one |
| `Fat.FatParams.Large` | src/Common/Fat.c:103-121 | The FAT32 loop ends within ten passes, with the least number of reserved sectors that aligns the data area |
| `Fat.FatParams.ChooseClusterSize` | src/Common/Fat.c:35-74 | The cluster size is as chosen or the default for the volume size by the table of thresholds, in sectors of at most 256 KB and 128 sectors, and one sector for volumes up to 1 MB |
| `Fat.DefaultGrows` | src/Common/Fat.c:40-59 | Larger volumes never get smaller default clusters |
| `Fat.DefaultFew` | src/Common/Fat.c:40-59 | A volume below 2 TB gets fewer than 2^24 default clusters |
| `Fat.FatParams.GetParams` | src/Common/Fat.c:29-135 | Type of file system, reserved sectors, table length and number of clusters are those that functions of the sectors, sector size and cluster size give; each table holds an entry for every cluster; the data area of FAT32 starts on a multiple of 4096 bytes; the number of sectors goes into the field that is wide enough |
| `Fat.LayoutIs` | src/Common/Fat.c:87-123 | These functions in numbers: the type by the thresholds 4085 and 65525, the least aligning count of reserved sectors from 32 on, the table length from the bytes of its entries |
| `Fat.UsedNear` | src/Common/Fat.c:87-123 | The layout misses the number of sectors by less than a cluster, and fits the volume exactly if twice the table length leaves no greater remainder by the cluster size than the space does |
| `Fat.RoomForAll` | src/Common/Fat.c:87-123 | A table has room for the two reserved entries as well exactly if it is at least as long as a cluster, or the last sector of the table has enough bytes to spare |
| `Fat.LayoutTooLarge` | src/Common/Fat.c:87-123 | A layout that is larger than its volume: 42034 sectors with clusters of 8 sectors |
| `Fat.TableTooShort` | src/Common/Fat.c:87-123 | A table without room for its last two entries: 2764 sectors with clusters of 8 sectors |
| `Fat.RemainderSign` | src/Common/Fat.c:87-456 | The sectors that the file system leaves are negative, namely -1, exactly if the volume has one sector besides the two reserved ones and a root directory of whole sectors, and clusters of one sector |
| `Fat.TablesTooLong` | src/Common/Fat.c:87-456 | A volume without room for its two tables: 35 sectors of 512 bytes |
| `Fat.Examples` | src/Common/Fat.c:29-135 | The program lays out both volumes like that |
| `FormatWriter.ImageConcat` | src/Common/Format.c:1547-1549 | Encrypting sectors in several flushes gives the same image as encrypting them at once |
| `FormatWriter.ImageAt` | src/Common/Format.c:1547-1549 | Each unit of an image is encrypted under the key of its sector and the number of the first unit plus its own place |
| `FormatWriter.ImageOfBuffer` | src/Common/Format.c:1547-1549 | Encrypting a full buffer under the number of its first unit encrypts each sector under its own numbers |
| `FormatWriter.Writer.Flush` | src/Common/Format.c:1539-1578 | The device receives the buffered sectors, each under the numbers of its own units, as one more chunk |
| `FormatWriter.Writer.WriteSector` | src/Common/Format.c:1386-1421 | One more sector is written or pending, in order, and the buffer has room for another one |
| `FormatWriter.Writer.FormatFat` | src/Common/Fat.c:258-567 | Each unit on the device is the encryption, under its own number, of its place in boot, FSInfo, table or empty sector, with the volume key up to the end of the root directory and the temporary key beyond; a full format writes exactly `num_sectors` sectors if and only if the remainder is not negative |
| `FormatWriter.Writer.FormatVolume` | src/Common/Format.c:602-629 | GetFatParams and FormatFat in a row: the same for every unit on the device; a full format writes exactly the sectors of the volume, unless the tables do not fit, and then 2^32 more |
| `WriterThread.RunInv` | src/Common/Format.c:1437-1578 | In every interleaving the buffer has one owner |
| `WriterThread.NoRefillDuringWrite` | src/Common/Format.c:1563-1568 | The shared buffer is never refilled while it is being written |
| `WriterThread.AllWritten` | src/Common/Format.c:1521-1536 | When everything has been flushed and the writer has been stopped, the device has all chunks, in order, if and only if the last write succeeded |
| `WriterThread.SameDevice` | src/Common/Format.c:1539-1578 | With the writer thread the device receives what the flushes without it write, apart from a last chunk whose write failed |
| `WriterThread.PrefixWritten` | src/Common/Format.c:1551-1569 | At any time, also after a format that failed or was aborted, the device has a prefix of the chunks; after an error nothing more is written, and a flush reports it |
| `WriterThread.NoDeadlock` | src/Common/Format.c:586-628 | The two threads never wait for each other, not even when the writer is stopped after a failed format |
| `WriterThread.RunEnds` | src/Common/Format.c:1437-1578 | Every run has a bounded number of steps, and one that cannot go on has stopped the writer |
| `WriterThread.LastErrorLost` | src/Common/Format.c:1521-1536 | A run in which the last write fails and nothing notices |
| `Crc.TableEntry` | src/Common/Crc.c:21-55 | All 256 entries of the table are what eight bit-serial steps give |
| `Crc.LookedUp` | src/Common/Crc.h:24-25 | Looking up the low byte and moving down the rest is eight steps of the register |
| `Crc.GetCrc32` | src/Common/Crc.c:57-67 | The version with the table computes the checksum |
| `Crc.Crc32Int` | src/Common/Crc.c:69-78 | The unrolled version computes the checksum of the four bytes of an integer |
| `Crc.GetCrc32Small` | src/Common/Crc.c:104-122 | The bit-serial version computes the same checksum |
| `Crc.BothVersions` | src/Common/Crc.c:57-122 | Both versions return the same number for every string |
| `Crc.SelfTestValue` | src/Common/Crc.c:125-134 | The checksum of the numbers 0 to 31 is the constant of the self-test that is not compiled |
| `Crc.RegisterPack` | src/Common/Crc.c:61-64 | Up to four bytes enter the register like one number that is added to it |
| `Crc.RegisterInjective` | src/Common/Crc.c:61-64 | No byte that follows can hide a difference between registers |
| `Crc.BurstDetected` | src/Common/Crc.c:57-67 | Two strings of equal length that differ only within four consecutive bytes never share a checksum |
| `Keyfiles.PlaceCycles` | src/Common/Keyfiles.c:193-199 | The write position goes round the pool in steps of four |
| `Keyfiles.ByteAdds` | src/Common/Keyfiles.c:191-199 | Each byte moves the checksum on and adds its four bytes, highest first, from four times its number on, modulo the pool size |
| `Keyfiles.KeyFileProcess` | src/Common/Keyfiles.c:151-224 | The pool gets the sum, modulo 256, of what the first 1048576 bytes of the file add, and the status is exactly whether the file was readable and not empty |
| `Keyfiles.ProcessDirectory` | src/Common/Keyfiles.c:308-380 | All visible files of a directory are mixed in; the status tells whether there was one and all were good |
| `Keyfiles.KeyFilesApply` | src/Common/Keyfiles.c:227-406 | Each byte of the new password is the old one, where there was one, plus the sums for all byte strings contributed, modulo 256, in a pool of 64 bytes for passwords of up to 64 and else of 128; its length, and the status |
| `Keyfiles.PasswordFromMaterial` | src/Common/Keyfiles.c:392-401 | The password depends only on the multiset of byte strings that are mixed in |
| `Keyfiles.SameMaterial` | src/Common/Keyfiles.c:185-204 | How reads are chunked, whether the bytes come from a file or a token, and what follows the first 1048576 bytes do not matter |
| `Keyfiles.OrderIrrelevant` | src/Common/Keyfiles.c:250-388 | Reordering the keyfiles changes neither the password nor its length nor the status |
| `Apdu.CommandAPDU.Init` | src/Common/CommandAPDU.cpp:119-249 | The encoder writes the coding of clause 12.1 of ISO/IEC 7816-3, short whenever both lengths fit, and describes it; longer lengths are rejected |
| `Apdu.CommandAPDU.Analyse` | src/Common/CommandAPDU.cpp:13-112 | The decoder reaches `success` exactly on the codings of commands, with the lengths, offset and form of the command coded |
| `Apdu.CommandAPDU.Parse` | src/Common/CommandAPDU.cpp:13-117 | After the label control falls into `clear()`: the verdict stays, the bytes and lengths are gone |
| `Apdu.ShortIs` | src/Common/CommandAPDU.cpp:144-246 | The short codings byte by byte |
| `Apdu.ExtendedIs` | src/Common/CommandAPDU.cpp:144-246 | The extended codings byte by byte, with lengths of two bytes, the higher one first |
| `Apdu.CodingUnique` | src/Common/CommandAPDU.cpp:13-117 | A string is the coding of at most one command, in one form |
| `Apdu.Reencoded` | src/Common/CommandAPDU.cpp:13-249 | Encoding an accepted string again never lengthens it and gives it back exactly if it is short or needs the extended form |
| `Apdu.RoundTrip` | src/Common/CommandAPDU.cpp:13-249 | The decoder recovers lengths, data offset, data and form from what the encoder wrote, for data up to 65535 bytes and `ne` up to 65536 |
| `BootOrder.Delete` | src/Common/BootEncryption.cpp:3303-3319 | Shifting in place removes the first occurrence of the entry from the boot order |
| `BootOrder.Enter` | src/Common/BootEncryption.cpp:3497-3521 | Shifting in place enters the entry at the front or the end, or moves it to the front |
| `BootOrder.WithIs` | src/Common/BootEncryption.cpp:3497-3521 | An absent entry comes to the front or to the end, one that is wanted first is moved there, and otherwise nothing changes |
| `BootOrder.DeletedAgain` | src/Common/BootEncryption.cpp:3267-3539 | Deleting an entry that has been set gives the order without it, whatever was there before |
| `BootOrder.OthersKept` | src/Common/BootEncryption.cpp:3461-3526 | Setting an entry keeps all other entries in their order and lists the entry once more only if it was absent |
| `BootOrder.Gone` | src/Common/BootEncryption.cpp:3303-3319 | After deleting, the entry is gone from the order exactly if it occurred at most once |
| `BootOrder.NothingNamed` | src/Common/BootEncryption.cpp:3303-3341 | After deleting, nothing names the entry exactly if the order listed it at most once and, if BootNext named it, listed it and BootNext can be read |
| `BootOrder.NothingLeft` | src/Common/BootEncryption.cpp:3267-3539 | After setting and deleting, nothing names the entry exactly if the order listed it at most once before and, if BootNext names it, lists it in between and BootNext can be read |
| `BootOrder.Firmware.DeleteStartExec` | src/Common/BootEncryption.cpp:3267-3347 | If it returns true, the entry and its first place in the order are gone whatever the firmware does; its BootNext is gone as well when it was listed, unless BootNext could not be read, which is not reported |
| `BootOrder.Firmware.SetStartExec` | src/Common/BootEncryption.cpp:3349-3539 | What becomes of the entry, the order and BootNext when the firmware does not fail |
| `BootFiles.BufferHasPattern` | src/Common/Dlgcode.c:14941-14958 | Exactly whether the pattern occurs |
| `BootFiles.WideAt` | src/Common/BootEncryption.cpp:3655-3660 | The wide form of a text, character by character |
| `BootFiles.Partition.RenameFile` | src/Common/BootEncryption.cpp:3778-3793 | The file moves and keeps its contents, also onto an identical one, whose source is then deleted; when it can and when it cannot; no other file changes |
| `BootLoader.BootEncryption.RestoreSystemLoader` | src/Common/BootEncryption.cpp:5192-5303 | From any state of the files and with any failures of writing: either an exception, with VeraCrypt's own files kept, or a Windows `bootmgfw.efi`, no VeraCrypt `bootx64.efi` and both firmware entries deleted from variables and orders, and from BootNext where that could be read; what it restores when nothing fails |
| `BootLoader.BootEncryption.RestoreLeavesNext` | src/Common/BootEncryption.cpp:5192-5303 | A restoration that succeeds and deletes VeraCrypt's files while BootNext, which could not be read, still names the entry |
| `BootLoader.BootEncryption.RestoreFiles` | src/Common/BootEncryption.cpp:5216-5277 | The same before the firmware is touched: no step of it loses a file of VeraCrypt's own |
| `BootLoader.BootEncryption.DeleteOwnFiles` | src/Common/BootEncryption.cpp:5288-5303 | VeraCrypt's files are deleted only after both deletions of firmware entries have reported success |
| `BootLoader.BootEncryption.BackupSystemLoader` | src/Common/BootEncryption.cpp:5088-5165 | On success both backups hold the Windows loader in place, or VeraCrypt is installed already and nothing changed |
| `BootLoader.BootEncryption.SaveImages` | src/Common/BootEncryption.cpp:3096-3106 | Each of the five files holds its own image on success, and no other file changes |
| `BootLoader.BootEncryption.Tidy` | src/Common/BootEncryption.cpp:4253-4279 | The configuration is written, the old loader configuration and the old backup of the fallback loader are moved where there is none in the new place, and the other old files are gone |
| `BootLoader.BootEncryption.InstallBootLoader` | src/Common/BootEncryption.cpp:4222-4279 | On success the program's loader and all five images are in place; when nothing fails also the configuration and the firmware entry, and a fallback loader that is Microsoft's or the program's own has been replaced, Microsoft's being kept; whatever fails, the backups of the Windows loader and all files that are not named are kept |
| `BootLoader.ComesBack` | src/Common/BootEncryption.cpp:5192-5303 | From a backup and an installation, restoring gives back the Windows loader, and the fallback loader exactly if it does not mention VeraCrypt; otherwise the Windows loader takes its place |
| `BootLoader.BootEncryption.BackupInstallRestore` | src/Common/BootEncryption.cpp:4222-5303 | Backup, installation and restoration in a row give back the Windows loader, and the fallback loader exactly if it does not mention VeraCrypt, and leave no file of VeraCrypt's own; what becomes of all firmware variables, and exactly when nothing names the entry any more |
| `BootLoader.MentionsVeraCrypt` | src/Common/BootEncryption.cpp:3655-3669 | A fallback loader that is lost in backup, installation and restoration |
| `BootUpdate.MoveWindowsLoader` | src/Common/BootEncryption.cpp:4074-4153 | A Windows loader in place is moved to the backup exactly if the disk lets it be moved, and nothing changes otherwise; without one and without a backup, the configuration must name one by its contents |
| `BootUpdate.TakeSnapshot` | src/Common/BootEncryption.cpp:3071-3083 | The first image that differs is kept and never overwritten |
| `BootUpdate.RefreshFallback` | src/Common/BootEncryption.cpp:4191-4217 | A fallback loader that is Microsoft's or mentions VeraCrypt becomes the program's, any other is left alone |
| `BootUpdate.Refresh` | src/Common/BootEncryption.cpp:4155-4219 | The backup of the Windows loader survives the refresh, or has been moved back; on success each image is in its own file, the ones that differed are kept, and which loaders have been replaced |
| `BootUpdate.UpdateBootLoader` | src/Common/BootEncryption.cpp:4072-4279 | Once moved to the backup, the Windows loader is never lost, whatever fails; after a successful update it is kept exactly if the disk let it be moved or its backup was there before, and each image is in its own file; with a loader to keep, what becomes of the fallback loader, the configuration, the images replaced and the firmware entry |

## Left out

- Inflate.Inflater.MemCopy: overlapping blocks are copied as by `memmove`; the program calls `memcpy` on blocks that overlap when the distance index is ahead of the window position.
- Inflate.Inflater.DecompressDeflatedData: the output buffer is unbounded, and the 32-bit output counter does not wrap around.
- HuftBuilder.HuftBuild: memory can always be had, so that status 3 does not occur; freeing tables is not modelled. The scratch arrays of one call are values, not memory.
- GfMul.MulX8Block: blocks are passed by value and stored back; a little-endian machine is assumed, so that the big-endian branch is left out.
- GfCompiled.Tab64Init: memory can be had; the failure return is not modelled.
- The multiplications in GF(2^64), which repeat those in GF(2^128) for half blocks, and the irreducibility of the polynomial.
- Pkcs5.DeriveKey: says nothing about the output after an abort. The flag is polled where the SHA-512 variant does; the SHA-256 and BLAKE2s variants count down and poll at other iterations. Once raised, the flag stays so.
- `get_pkcs5_iteration_count`, `get_argon2_params`, Argon2 and the boot-loader variant of PBKDF2: constants and calls into code that is not part of this model.
- Cascade.Init: a weak key, which is not fatal, is not told apart from success; the check for cipher list zero is left out.
- Cascade.DecryptEncrypted: that each cipher in XTS mode inverts itself under schedules made from keys is its hypothesis.
- Hash functions and ciphers themselves: arbitrary functions here.
- ThreadPoolTheorems.NoDeadlock: there is no stop request. Stopping the pool, the finalization work items, CPU affinity, and the direct path for fewer than two units or a pool that is not running are left out.
- ThreadPoolTheorems.DerivationResult: setting the completion flag and the completion event is one step; the counter of outstanding derivations and its event are left out, and nothing is claimed about them.
- ThreadPoolTheorems.DoWorkResult: data-unit numbers do not wrap around at 2^64.
- Fat.FatParams.GetParams: integers are unbounded; the reserved sectors and the root directory must fit the volume, without which the program's subtraction wraps around.
- FormatWriter.Writer.FormatFat: a 32-bit number that is counted down from below zero is taken to wrap around, which C leaves undefined; the contents of boot, FSInfo and table sectors are parameters; the sparse quick format of containers and the random keys are left out.
- WriterThread.NoDeadlock: waiting and setting an event do not fail, and the handles are closed by no one else.
- `FormatNoFs`, which writes filler sectors through the same writer.
- Crc.GetCrc32: the self-test over the table itself is left out.
- Keyfiles.KeyFilesApply: the checksum that spreads the bytes is an arbitrary function; name resolution, messages and wiping memory are left out, and the directory listing is a parameter.
- Apdu.CommandAPDU.Init: the caller's buffer and offset are the data themselves; error texts are left out.
- BootOrder.Firmware.SetStartExec: an order that would not fit the program's buffer of 1024 entries is excluded; the encoding of the load option is a parameter.
- BootLoader.BootEncryption.RestoreSystemLoader: files are read without failures (firmware variables are not), whether BootNext can be read is a parameter, paths are compared as files and not as texts, and the directory entry of `\EFI\VeraCrypt` itself is left out. Parsing the configuration file is a parameter.
- BootLoader.BootEncryption.BackupSystemLoader: elevation, messages and the MBR branch are left out, as in installing and restoring.
- BootUpdate.UpdateBootLoader: whether a failing disk lets the loader be renamed is a parameter; the custom Secure Boot module is left out.
- The MBR boot loader, rescue disks, embedded certificates, changing of passwords, random numbers and the wrappers around smart card readers.

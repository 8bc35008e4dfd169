# WindogeOS: a verified model of its scripting, shells, assembler, archives and editor

WindogeOS is a small operating system with its own user programs. This project models the parts of
it whose correctness is a statement about all inputs or all runs, and proves those statements in
Dafny. `dafny verify dfyconfig.toml` covers every file.

| part | files | main results |
|---|---|---|
| Dogescript interpreter | `DogescriptSyntax.dfy`, `DogescriptHost.dfy`, `DogescriptMachine.dfy`, `DogescriptStructured.dfy`, `DogescriptSimulation.dfy`, `DogescriptUnique.dfy`, `DogescriptRuns.dfy`, `DogescriptMalformed.dfy`, `DogescriptInterpreter.dfy` | The jumping interpreter with its loop stack computes the structured meaning of every nested program, for every step budget, including all failures; a script is the text of one program at most. In every run the store is what the commands run so far make of it, and the first that fails or exits is the last. |
| Archives | `Lz4Format.dfy`, `Lz4Accepts.dfy`, `Lz4Greedy.dfy`, `Lz4Compress.dfy`, `Lz4Container.dfy`, `Lz4Archives.dfy`, `Lz4Kernel.dfy`, `Lz4Pack.dfy` | What the build script or the kernel itself compresses, the kernel's ring-buffer decompressor restores, for all data below 4 GiB; the kernel accepts exactly the archives of the format; every block is the one greedy parse of its data and obeys the LZ4 end conditions and size bound. |
| Chasm heap | `ChasmLayout.dfy`, `ChasmHeap.dfy`, `ChasmHeapRuns.dfy` | In every run the blocks tile the heap, live payloads are disjoint and allocation fails exactly if nothing fits. |
| Chasm linker | `ChasmOffsets.dfy`, `ChasmImage.dfy`, `ChasmAssembler.dfy`, `ChasmForms.dfy`, `ChasmSource.dfy`, `ChasmTarget.dfy`, `ChasmCli.dfy` | One comparison of total sizes implies that every offset, displacement and data byte of the output is right; the exact set of sources that are linked, down to the room in the assembler's heap, and the one code their statements mean. |
| Dogeshell | `DogeshellLine.dfy`, `DogeshellRun.dfy`, `DogeshellQuoting.dfy`, `DogeshellWords.dfy`, `DogeshellSpelling.dfy`, `DogeshellSequence.dfy` | Words in any mix of plain, escaped and quoted pieces are read as the values of the pieces, and nothing else is read; quoted tokens come back as they were; scanner and tokenizer agree; a line runs its segments one after another. |
| Integers of scripts | `Int64Text.dfy`, `Int64Math.dfy` | Decimal text and 64-bit integers are inverse to each other; the overflow guards are exact. |
| Bash front end | `BashLexer.dfy`, `BashRun.dfy`, `BashLists.dfy`, `BashSyntax.dfy`, `BashQuoting.dfy`, `BashWords.dfy`, `BashSpelling.dfy`, `BashShell.dfy`, `BashPath.dfy`, `BashRelative.dfy`, `BashPathBuffer.dfy` | Words in any mix of plain, escaped, quoted and variable pieces are read as the values of the pieces exactly if they fit, and nothing else is read; scanner and tokenizer agree; the flag-driven loop computes left-associative AND-OR lists; the exact grammar of the lines without a syntax error; paths start from the working directory, its drive or their own, and canonicalization is a segment stack and idempotent exactly on drives C and D. |
| Editor | `EditorText.dfy`, `EditorFile.dfy`, `EditorFlat.dfy`, `EditorRows.dfy`, `Editor.dfy`, `EditorDisk.dfy` | Through every run of keys the editor of lines is an editor of one string and a place in it; saving and opening restore the lines exactly if the text is at most 65536 characters long and holds no NUL. |
| User-space malloc | `UserHeapChunks.dfy`, `UserHeap.dfy` | The block list stays doubly linked and acyclic, sizes add up to `total_mapped_size`, used blocks survive, free blocks stay apart but for memory that is appended, and for every size what a request comes to. |

`Basics.dfy` and `ShellQuotes.dfy` hold what several parts share.

Each part has a specification on values (functions and datatypes), theorems about it that do not
repeat its definition, and methods with the source's loops, arrays and fields that are proved to
compute it.

## How the source is modelled

* Dogescript: byte offsets of lines become line indices. The keyword of a line is fixed, because
  first tokens are taken to hold no `$`. Tokenizing a line, evaluating a condition and running a
  command are functions of the store, given by a host; a line may fail to tokenize in one store and
  not in another, also while the interpreter scans for a closing keyword.
* Structured programs count steps exactly like the interpreter does, so the simulation needs no
  bound: the step limit of 500000 and the nesting limit of 32 are hit at the same place with the
  same outcome.
* Archives: the decoder is written after the LZ4 Block Format Description, and the kernel's decoder
  is proved to compute it, with its 4096-byte ring and its 64 KiB output buffer.
* Chasm: the encoder is a contract (up to 15 bytes, 32-bit branches of at least 5 bytes, room for
  the displacement of a RIP-relative operand as in section 2.2.1.6 of the Intel SDM, volume 2A). Some
  of its forms are given byte by byte. A source is a list of statements; mnemonics and operands are
  read already. What the encoder makes of an instruction is a function of the values of the
  constants its operands name.
* Chasm works on the heap of a new process: the working memory of the assembler, 27 bytes for each
  instruction and four more, is allocated there.
* Chasm heap: one unit is a 16-byte header or 16 bytes of payload.
* Shells: commands and variables are functions of a state, given by a host, and so is taking back an
  earlier request to exit, which a bash line does first. Characters are not NUL.
* User-space malloc: sizes are 64-bit and wrap around. The kernel's answers to requests for memory
  are an input; an empty mapping and one beyond the address space are taken to be refused.
* Guards that can never be taken (storage limits of the Dogeshell tokenizer, size guards of the
  Chasm heap, 32-bit overflow of code offsets) are left out or proved to be dead.

Where code and comments or promises differ, the model follows the code:

* Freeing the very first payload of the Chasm heap does nothing (`FirstPayloadStays`).
* A source of up to 16384 instructions and data bytes is read, but the assembler's heap has no room
  for more than 9708 of them (`RefusedForSpace`); `FreshArena` and `Build` say exactly when.
* A branch back over at most 125 bytes, to itself or to the next instruction is shortened by the
  assembler, with a displacement that misses its target unless that is the next instruction
  (`ShortBranchMisses`). The command then refuses the whole source; `SizesAgreeIff` says which.
* Freeing merges a block with at most one block on each side, and memory that is appended is not
  merged, so a freed block can be left beside a free one (`FreedBeside`); `FreedNeighbours` says
  exactly when.
* A source of branches and data alone is linked although no entry point was determined
  (`LinkedWithoutEntry`); `FindEntry` and `Build` say exactly when.
* Memory that is mapped for a request of the user-space malloc does not always have room for it
  (`ExtendingCanMiss`); `ExtendingHelpsIff` says exactly when it has, and `Malloc` what becomes of
  the others: they use up every page the kernel grants and fail. The largest requests round to
  nothing and are served with blocks that do not hold them (`LargestServed`); `AlignedIff` and
  `Malloc` say exactly which.
* A Dogeshell that has been asked to exit runs nothing of what a script hands over, and the script
  takes that for success (`SilentAfterExit`); `HandOver` says exactly when.
* Canonical paths are not fixed points on other drives, or when a path without a leading slash
  fills the whole buffer (`CanonicalStays`). Neither can reach the code: the file system gives
  working directories on C and D only, and the shell's buffers have 256 characters
  (`IdempotentInShell`).
* A file holds the text only up to its first NUL (`NulIsLost`), and a text of more than 65536
  characters is not saved at all (`LongIsLost`); `SaveAndOpen` says exactly when a text is restored.

## Model

| member | source | states |
|---|---|---|
| DogescriptSimulation.FlattenIsPlaced | apps/dogescript.c:970-1163 | a nested program written out line by line sits in the script exactly as the structural placement says, whatever surrounds it |
| DogescriptSimulation.ScanBlock | apps/dogescript.c:531-608 | a depth-counting scan for one keyword pair passes over any well-nested block at unchanged depth, or fails exactly if a line of it does not tokenize |
| DogescriptSimulation.FindsOwnEnd | apps/dogescript.c:531-565 | the scan from an opening line returns that block's own closing line |
| DogescriptSimulation.FindsOwnEndIf | apps/dogescript.c:567-608 | after an `if` without `else` the scan returns its own `endif` and no `else` |
| DogescriptSimulation.FindsOwnElse | apps/dogescript.c:567-608 | after an `if` with `else` the scan returns its own `else` and its own `endif`, not those of nested ifs |
| DogescriptSimulation.StepIf | apps/dogescript.c:988-1013 | at an `if` line the interpreter goes into the body or behind the matching `endif`, or fails as the search or the condition does |
| DogescriptSimulation.StepIfElse | apps/dogescript.c:988-1013 | at an `if` line with `else`, a false condition leads into the else part |
| DogescriptSimulation.StepElse | apps/dogescript.c:1084-1094 | `else` reached from above jumps behind the matching `endif` |
| DogescriptSimulation.StepWhile | apps/dogescript.c:1014-1052 | a `while` reached from outside pushes its own frame or skips the loop, and fails at the nesting limit |
| DogescriptSimulation.StepWhileAgain | apps/dogescript.c:1014-1052 | a `while` reached from its own end reuses its frame, and pops it when the condition is false |
| DogescriptSimulation.StepEndWhile | apps/dogescript.c:1099-1108 | `endwhile` goes back to the loop's own `while` line |
| DogescriptSimulation.StepRepeat | apps/dogescript.c:1053-1083 | `repeat` pushes a frame with the number of passes, skips the loop for zero, and fails for bad counts and at the nesting limit |
| DogescriptSimulation.StepEndRepeat | apps/dogescript.c:1109-1124 | `endrepeat` starts the next pass or leaves the loop, by the passes left in the frame |
| DogescriptSimulation.SimBlock | apps/dogescript.c:970-1163 | from any stack and store, running the lines of a block is evaluating the block, with `break`, `continue`, exit and failures |
| DogescriptSimulation.SimStmt | apps/dogescript.c:970-1163 | the same for one statement |
| DogescriptSimulation.SimPassWhile | apps/dogescript.c:1014-1052 | a pass of a `while` body with the loop's frame on the stack is a structured pass and the test again |
| DogescriptSimulation.SimPasses | apps/dogescript.c:1053-1124 | a pass of a `repeat` body with n passes left is n structured passes |
| DogescriptSimulation.MachineIsStructured | apps/dogescript.c:962-1163 | for every nested program, host, start and step budget the interpreter's run of the script equals the structured run: same commands in order, same store, same status or failure |
| DogescriptSimulation.MachineIsStructuredFor | apps/dogescript.c:962-1163 | the same for a given script and every nested program it is the text of |
| DogescriptUnique.FlattenInjective | apps/dogescript.c:970-1163 | a script is the text of one nested program at most, so its structured meaning is unique |
| DogescriptSimulation.ExactlyNPasses | apps/dogescript.c:1109-1124 | a completed `repeat n` has made exactly n passes, each from the world and with the steps the one before left, or fewer and then ends with what a pass that breaks out left |
| DogescriptInterpreter.FindControlEnd | apps/dogescript.c:531-565 | the loop finds the line the depth-counting specification names, or fails where a line does not tokenize |
| DogescriptInterpreter.FindIfEnd | apps/dogescript.c:567-608 | the loop finds `endif` and the `else` of the same depth, and fails for a repeated `else` |
| DogescriptInterpreter.Interpreter.Push | apps/dogescript.c:1042-1048 | a frame goes on top of the loop stack and nothing else changes |
| DogescriptInterpreter.Interpreter.StepIf | apps/dogescript.c:988-1013 | the program counter moves as the specification step says, stack and store stay |
| DogescriptInterpreter.Interpreter.StepWhile | apps/dogescript.c:1014-1052 | program counter and stack move as the specification step says |
| DogescriptInterpreter.Interpreter.StepRepeat | apps/dogescript.c:1053-1083 | the same for `repeat`, with its count limit of 100000 |
| DogescriptInterpreter.Interpreter.StepElse | apps/dogescript.c:1084-1094 | the same for `else` |
| DogescriptInterpreter.Interpreter.StepEndWhile | apps/dogescript.c:1099-1108 | the same for `endwhile`, failing unless its loop is on top |
| DogescriptInterpreter.Interpreter.StepEndRepeat | apps/dogescript.c:1109-1124 | the same for `endrepeat`, counting the top frame down in place |
| DogescriptInterpreter.Interpreter.StepBreak | apps/dogescript.c:1125-1142 | `break` leaves the innermost loop |
| DogescriptInterpreter.Interpreter.StepContinue | apps/dogescript.c:1125-1142 | `continue` goes to the innermost loop's test or end |
| DogescriptInterpreter.Interpreter.Advance | apps/dogescript.c:970-1162 | one pass of the main loop is one step of the specification machine |
| DogescriptInterpreter.RunScript | apps/dogescript.c:962-1163 | the main loop computes the machine's outcome, for the script of a nested program the structured outcome of that program, and every outcome is lawful |
| DogescriptRuns.EveryRunLawful | apps/dogescript.c:962-1163 | in every run of every script, nested or not, the store is what the commands run so far make of it one after another, all of them but the last have status 0 and do not exit, and a command that fails or exits decides the outcome |
| DogescriptRuns.CommandSteps | apps/dogescript.c:1143-1161 | a command is run once in the store as it is; a status other than 0 fails the script, an exit ends it with its status, anything else goes on behind the line |
| DogescriptRuns.FailureStops | apps/dogescript.c:1145-1159 | a command with a status other than 0 is the last one, and the outcome says so |
| DogescriptRuns.ExitStops | apps/dogescript.c:970 | so is a command that exits, and the outcome has its status |
| DogescriptRuns.OthersQuiet | apps/dogescript.c:1143-1163 | in every other outcome all commands had status 0 |
| DogescriptRuns.EveryProgramLawful | apps/dogescript.c:962-1163 | the same law for the structured meaning |
| DogescriptRuns.StraightRun | apps/dogescript.c:962-1163 | a script of commands runs all of them in order, up to the first that fails or exits |
| DogescriptMalformed.StrayCloser | apps/dogescript.c:1099-1124 | an `endwhile` or `endrepeat` without a loop fails the run when it is reached, whatever stands behind it |
| DogescriptMalformed.UnclosedHead | apps/dogescript.c:988-1094 | so does an `if`, `while`, `repeat` or `else` whose closer is missing, behind any nested script and before any |
| Lz4Format.ReadLengthBytes | compile.py:16-20 | extension bytes of a length read back as that length |
| Lz4Format.CopyPrefix | compile.py:22-37 | an overlapping copy does not depend on what stands before the block |
| Lz4Format.DecodeSequence | compile.py:22-37 | an encoded sequence decodes to its literals and its copy, overlapping or not |
| Lz4Format.DecodeSequences | compile.py:22-37 | so do all sequences of a block, behind any earlier output |
| Lz4Format.DecodeTail | compile.py:67-69 | the last literals end the block |
| Lz4Format.DecodeBlock | compile.py:12-69 | sequences that spell the data up to a point and the rest as literals decode to the data |
| Lz4Compress.CopyRepeats | compile.py:52-57 | copying from a repetition, overlapping or not, spells out the data |
| Lz4Compress.SequenceCost | compile.py:22-37 | a sequence costs at most its length but for one byte in 255 literals |
| Lz4Compress.TailCost | compile.py:67-69 | the last literals cost at most two bytes and one in 255 more than their length |
| Lz4Compress.WriteLength | compile.py:16-20 | the loop appends exactly the extension bytes of the length |
| Lz4Compress.WriteSequence | compile.py:22-37 | token, lengths, literals and offset are appended in the format's order |
| Lz4Compress.Candidate | compile.py:42-48 | the candidate is the nearest earlier position with the same hash key, exactly if it is within 4096 bytes and holds the same four bytes; the table keeps the last position of every key |
| Lz4Compress.Remember | compile.py:60-63 | positions inside a match enter the table, which then knows the last position before the end of the match of every key |
| Lz4Compress.MatchLength | compile.py:52-57 | the match is a repetition, leaves five bytes and cannot be made longer |
| Lz4Compress.Emit | compile.py:52-65 | what is written spells the data up to the end of the match, within the size bound and the end conditions |
| Lz4Compress.TakeMatch | compile.py:52-65 | the match that is offered is written, as long as it can be, and the parse goes on behind it |
| Lz4Compress.Proceed | compile.py:47-65 | a position is passed over only if no match is offered there |
| Lz4Compress.CompressMatches | compile.py:39-65 | the loop's output spells the data up to the anchor, and is the greedy parse: every match that is offered at least 12 bytes before the end is taken, at the first such position and at its full length |
| Lz4Compress.CompressParsed | compile.py:12-69 | offsets are 1..4096, the last match starts 12 bytes before the end or earlier, five literals end the block, and n bytes take at most n + n/255 + 2 |
| Lz4Compress.CompressBlock | compile.py:12-69 | the block is that of the greedy parse and decodes to the data |
| Lz4Greedy.ParseOnce | compile.py:39-65 | the data have one greedy parse |
| Lz4Greedy.BlockOnce | compile.py:12-69 | so they have one greedy block |
| Lz4Compress.EqualBytes | compile.py:12-69 | 13 or more equal bytes become one literal, one match and five literals, in ten bytes and one for every 255 more |
| Lz4Accepts.AcceptedBlock | kernel/kutil/lz4_pack.c:314-406 | a block that is accepted behind any earlier output is the encoding of sequences and a tail |
| Lz4Accepts.DecodesIff | kernel/kutil/lz4_pack.c:314-406 | the decoder gives a text exactly for the encodings of sequences that spell it |
| Lz4Accepts.BlockOfOne | kernel/kutil/lz4_pack.c:314-406 | a block stands for one text of its length |
| Lz4Container.ReadHeadOf | compile.py:81-83 | the header of a framed block reads back as its two lengths and its block |
| Lz4Container.LeadsExtends | compile.py:78-83 | appending a framed block that decodes extends what the reader has read |
| Lz4Container.CompressChunk | compile.py:79-80 | a chunk's block decodes behind any earlier output |
| Lz4Container.ArchivedMore | compile.py:78-83 | one more chunk, packed greedily, and its header extend what the body reads back as |
| Lz4Container.CompressChunks | compile.py:78-83 | the body is the greedy blocks of all chunks in their frames, and reads back as the data |
| Lz4Container.CompressData | compile.py:72-84 | data of 4 GiB or more is refused; every other archive is that of the data's chunks and reads back as the data |
| Lz4Container.ArchiveOnce | compile.py:72-84 | the data fix the archive |
| Lz4Archives.ReadsBack | kernel/kutil/lz4_pack.c:281-408 | framed blocks that are read are frames of blocks of the format, and give the texts of those one after another |
| Lz4Archives.DecompressIff | kernel/kutil/lz4_pack.c:228-423 | an archive is accepted, with some data, exactly if it is a size and the framed blocks, or one bare block, that stand for data of that size |
| Lz4Kernel.RingPut | kernel/kutil/lz4_pack.c:199-203 | a byte written at the wrapped position keeps the ring the last 4096 bytes produced |
| Lz4Kernel.DecodeOutput.Put | kernel/kutil/lz4_pack.c:199-211 | one byte more is produced, kept in the ring and flushed in 64 KiB pieces |
| Lz4Kernel.DecodeOutput.PutMatch | kernel/kutil/lz4_pack.c:391-400 | copying through the ring is the format's overlapping copy |
| Lz4Kernel.ReadExtension | kernel/kutil/lz4_pack.c:213-226 | the loop reads exactly the format's extended length, or fails where it does |
| Lz4Kernel.ReadFront | kernel/kutil/lz4_pack.c:316-334 | token and literal length are accepted exactly if the format accepts them and they fit |
| Lz4Kernel.ReadBack | kernel/kutil/lz4_pack.c:363-389 | offset and match length are accepted exactly if they are in the block, in the window and in the room left |
| Lz4Kernel.DecodeFront | kernel/kutil/lz4_pack.c:316-356 | token and literals are decoded as the format says |
| Lz4Kernel.DecodeBack | kernel/kutil/lz4_pack.c:363-401 | a match is decoded as the format says |
| Lz4Kernel.DecodeBlockAt | kernel/kutil/lz4_pack.c:314-406 | a block is accepted with exactly the output the format's decoder gives it |
| Lz4Kernel.DecodeFrame | kernel/kutil/lz4_pack.c:281-408 | one framed block is read as the container specification reads it |
| Lz4Kernel.DecompressArchive | kernel/kutil/lz4_pack.c:228-423 | every archive, valid or not, framed or bare, is decompressed or refused as the specification says |
| Lz4Kernel.PackAndUnpack | kernel/kutil/lz4_pack.c:228-423 | what the build script compresses, the kernel restores, for all data below 4 GiB |
| Lz4Pack.Probe | kernel/kutil/lz4_pack.c:154-166 | the candidate is the last earlier position of the word's hash, exactly if that is in the window and holds the same word; the table keeps the last position of every hash |
| Lz4Pack.EnterAll | kernel/kutil/lz4_pack.c:182-186 | the positions inside a match enter the table, which then holds the last position before its end of every hash |
| Lz4Pack.PackBlock | kernel/kutil/lz4_pack.c:148-197 | a block of up to 4096 bytes is always compressed within the block buffer, to the greedy parse that spells it, under the end conditions and the size bound |
| Lz4Pack.PackChunks | kernel/kutil/lz4_pack.c:453-494 | the body is the greedy blocks of all chunks in their frames |
| Lz4Pack.PackData | kernel/kutil/lz4_pack.c:425-504 | data of 4 GiB or more is refused; every other archive is that of the data's chunks and reads back as the data |
| Lz4Pack.PackAndRestore | kernel/kutil/lz4_pack.c:228-504 | what the kernel compresses, it restores, for all data below 4 GiB |
| ChasmLayout.UsedIsLive | apps/chasm.c:9275-9305 | a unit is used exactly if it lies in a live payload, and live payloads do not overlap |
| ChasmLayout.AllocatedWellFormed | apps/chasm.c:9287-9300 | carving a chunk keeps the heap tiled, without empty chunks and without free neighbours |
| ChasmLayout.AllocatedLive | apps/chasm.c:9287-9300 | an allocation adds one payload of the requested units or one more, and disturbs no other |
| ChasmLayout.CoalesceSeparates | apps/chasm.c:9347-9363 | after merging no two neighbours are free and no chunk is empty |
| ChasmLayout.CoalesceKeeps | apps/chasm.c:9347-9363 | merging neither moves a unit nor touches a used chunk |
| ChasmLayout.FreedWellFormed | apps/chasm.c:9345-9363 | freeing keeps the heap well formed |
| ChasmLayout.FreedLive | apps/chasm.c:9345-9363 | freeing removes one live payload and disturbs no other |
| ChasmHeap.X64Heap.Init | apps/chasm.c:9262-9273 | the first use makes one free chunk of the whole heap, later ones change nothing |
| ChasmHeap.X64Heap.Allocate | apps/chasm.c:9275-9305 | first fit: absent exactly if no free chunk holds the request, otherwise the first one that does, carved; no live payload is written |
| ChasmHeap.X64Heap.Walk | apps/chasm.c:9285-9303 | the walk from header to header ends at the first fit |
| ChasmHeap.X64Heap.TakeChunk | apps/chasm.c:9291-9300 | the chunk is split if the rest holds a header and a unit |
| ChasmHeap.X64Heap.Free | apps/chasm.c:9328-9364 | a live payload is freed and merged; null, foreign addresses and the first payload are ignored |
| ChasmHeap.X64Heap.MergeAll | apps/chasm.c:9347-9363 | one walk merges all free neighbours |
| ChasmHeap.X64Heap.Store | apps/chasm.c:9300 | a store into a live payload leaves the heap's structure as it is |
| ChasmHeapRuns.EveryRunWellFormed | apps/chasm.c:9262-9364 | in every state of every run the chunks tile the heap, free chunks are no neighbours and live payloads are disjoint |
| ChasmHeapRuns.RequestLive | apps/chasm.c:9275-9305 | in every state a request adds at most one payload, which was not live, and keeps all others |
| ChasmHeapRuns.ReleaseLive | apps/chasm.c:9328-9364 | a release removes exactly the payload it names, unless that is the first |
| ChasmHeapRuns.FirstPayloadStays | apps/chasm.c:9340-9343 | the first payload, once handed out, stays live with its size through every further run |
| ChasmHeapRuns.Take | apps/chasm.c:9318-9326 | an allocation is one step of a run; it fails exactly if nothing fits, and otherwise the first fit is live |
| ChasmHeapRuns.Give | apps/chasm.c:9328-9364 | so is freeing a live payload |
| ChasmHeapRuns.EmptyIsInitial | apps/chasm.c:9347-9363 | a heap without live payloads is one free chunk again |
| ChasmHeapRuns.RunEndsInitial | apps/chasm.c:9262-9364 | so in every run nothing is lost once everything is freed |
| ChasmOffsets.OffsetsAgree | apps/chasm.c:10075-10142 | the assembler's offset is at most the plain sum, and equal to it exactly if no branch before was shortened |
| ChasmOffsets.TotalSpeaksForAll | apps/chasm_cli.c:1019-1023 | if the total sizes agree, every single offset does |
| ChasmOffsets.SizesAgreeIff | apps/chasm_cli.c:1019-1023 | the total sizes agree exactly if no branch goes to itself, to the next instruction or back over at most 125 bytes |
| ChasmImage.FinalIsLinked | apps/chasm.c:10059-10159 | where no branch is shortened both passes store the distance from the end of the instruction to its target |
| ChasmImage.ShortBranchMisses | apps/chasm.c:10075-10095 | a shortened branch is given the right distance only to the next instruction |
| ChasmImage.DisplacementReads | apps/chasm.c:10085-10159 | a stored displacement reads back as itself, the bytes around it are the encoder's |
| ChasmForms.FormField | apps/chasm.c:755-2974 | CALL, JMP, Jcc, LEA and CMP with a label meet the encoder's contract, and the opcode puts the displacement where the assembler stores it |
| ChasmForms.FormLands | apps/chasm.c:10059-10159 | linked in any program, these take the processor to the offset of the record they refer to |
| ChasmImage.JoinPut | apps/chasm.c:10158-10159 | a patch changes its own instruction and no other |
| ChasmAssembler.Resolve | apps/chasm.c:10059-10129 | what the first pass does to a reference, and that it fails exactly for targets before the program |
| ChasmAssembler.Emit | apps/chasm.c:10050-10129 | an instruction is encoded and fixed up at its offset, what is before it stays |
| ChasmAssembler.FirstPass | apps/chasm.c:10050-10142 | the first pass leaves the code, the offsets and the open references of the specification |
| ChasmAssembler.PatchOne | apps/chasm.c:10144-10161 | a patch finishes its instruction, or its target is behind the program |
| ChasmAssembler.SecondPass | apps/chasm.c:10144-10162 | the second pass finishes every instruction, and fails exactly if a target is outside the program |
| ChasmAssembler.TwoPasses | apps/chasm.c:10046-10163 | both passes fail exactly for instructions that cannot be encoded and targets outside; otherwise every instruction is as they make it |
| ChasmAssembler.FreshArena | apps/chasm.c:10028-10037 | on an unused heap there is room for the working memory of exactly up to 9708 instructions |
| ChasmAssembler.Assemble | apps/chasm.c:10017-10170 | on any heap it fails exactly for no instructions, no room, ones that cannot be encoded and targets outside; the working memory is kept with the code and given back on failure |
| ChasmSource.LabelFound | apps/chasm_cli.c:426-447 | without duplicate names a label is found where it stands: at the number of records before it |
| ChasmSource.ConstantFound | apps/chasm_cli.c:449-456 | without duplicate names a constant is found with the value it was defined with |
| ChasmSource.ValuesDefined | apps/chasm_cli.c:822-840 | the values of constant operands are those of the statements that define them |
| ChasmSource.ProgramInRange | apps/chasm_cli.c:845-851 | labels stand within the program, so no resolved reference leaves it |
| ChasmCli.AddSymbol | apps/chasm_cli.c:426-456 | a symbol is added exactly if there is room and the name is new |
| ChasmCli.FindSymbol | apps/chasm_cli.c:254-261 | the loop returns the first symbol of that name, if any |
| ChasmCli.Collect | apps/chasm_cli.c:607-804 | symbols and records are collected, failing exactly for full tables and duplicate names; references to labels and to constants count alike |
| ChasmCli.ResolveConstants | apps/chasm_cli.c:822-840 | constant operands get their values, failing exactly for names that are undefined or labels |
| ChasmCli.Resolved | apps/chasm_cli.c:822-852 | references become distances in records and values of constants, failing exactly for names that are undefined or of the wrong kind |
| ChasmCli.FindEntry | apps/chasm_cli.c:798-820 | the entry is `_start` or the first instruction that is no branch; exactly when a source is refused for it, and when it stays open |
| ChasmCli.Offsets | apps/chasm_cli.c:992-1003 | offsets are the sums of encoded sizes, failing exactly if one is zero |
| ChasmCli.StoreData | apps/chasm_cli.c:1024-1028 | every data byte lands at its own record's offset and everything else stays |
| ChasmCli.AssembledLinked | apps/chasm_cli.c:1019-1023 | code of the plain total size holds every instruction linked, at its plain offset |
| ChasmCli.LinkProgram | apps/chasm_cli.c:992-1028 | a program is linked exactly if it can be encoded, has no near branch and at most 9708 records, and then every record is at its offset with its displacement or data byte |
| ChasmCli.Build | apps/chasm_cli.c:955-1031 | the exact set of sources that are linked, that the code is what the statements mean, and what the entry offset is |
| ChasmCli.RefusedForSpace | apps/chasm_cli.c:1005-1018 | one instruction and 9708 to 16383 data bytes are within every limit of the command and yet refused |
| ChasmCli.LabelReached | apps/chasm_cli.c:845-851 | in linked code every statement with a label holds its own encoding but for four bytes, placed by that encoding, which read as the distance from its end to the label |
| ChasmTarget.MeantOnce | apps/chasm_cli.c:955-1031 | the statements fix the code |
| ChasmCli.ImageMeant | apps/chasm_cli.c:992-1028 | the linked image of the program is the code its statements mean: place, bytes, displacement and data of every record, said by the statements' encodings |
| ChasmCli.CodeStands | apps/chasm_cli.c:822-840 | in linked code an instruction without a label is what the encoder makes of it with the values its constants were defined with |
| ChasmCli.MemoryStands | apps/chasm_cli.c:822-851 | the same encoding is what surrounds the displacement of one with a label |
| ChasmCli.FormReachesLabel | apps/chasm_cli.c:845-851 | in linked code CALL, JMP, Jcc, LEA and CMP with a label take the processor to that label |
| ChasmCli.LinkedWithoutEntry | apps/chasm_cli.c:746-766 | a jump over one data byte to another is linked and leaves the entry open |
| DogeshellLine.WordsAgree | kernel/dogeshell.c:127-188 | where the separator scan finds no unfinished quote or escape, neither does the tokenizer |
| DogeshellLine.SegmentScans | kernel/dogeshell.c:1260-1282 | a segment up to a separator has its quotes and escapes finished, and the scan goes on behind it |
| DogeshellRun.Scan | kernel/dogeshell.c:1260-1287 | the loop finds exactly the unquoted separators, failing for unfinished quotes and escapes |
| DogeshellRun.ReadWord | kernel/dogeshell.c:150-184 | the inner loop reads one word; the storage never overflows |
| DogeshellRun.Tokenize | kernel/dogeshell.c:127-188 | the words of a segment, failing exactly for unfinished quotes and escapes and for more than 24 words |
| DogeshellRun.RunLine | kernel/dogeshell.c:1238-1317 | the segment loop computes the specified state and status, with all error statuses |
| DogeshellQuoting.ReadCommand | apps/dogescript.c:629-655 | the quoted form of tokens reads as exactly those tokens, whatever they hold |
| DogeshellQuoting.ScanCommand | apps/dogescript.c:629-655 | the quoted form holds no separator |
| DogeshellQuoting.RunsTokens | kernel/dogeshell.c:1238-1317 | the shell runs exactly the tokens as one command, or nothing with status 2 if they do not fit 255 characters and 24 arguments, or nothing with status 0 if they fit the line and it has been asked to exit |
| DogeshellQuoting.BuildCommand | apps/dogescript.c:629-655 | the quoted form is built, failing exactly if it does not fit |
| DogeshellQuoting.HandOver | apps/dogescript.c:891-898 | a script's tokens reach the command unchanged, or nothing happens and the status is 1, or nothing happens and it is 0, exactly if the line fits and the shell has been asked to exit |
| DogeshellQuoting.SilentAfterExit | kernel/dogeshell.c:1289-1317 | behind any command that makes the shell exit, tokens that fit are reported as run and change nothing |
| DogeshellWords.ReadSpelled | kernel/dogeshell.c:150-184 | a word spelled in any mix of plain, escaped, single-quoted and double-quoted pieces is read as the values of its pieces |
| DogeshellWords.ReadLine | kernel/dogeshell.c:127-188 | a line of such words with blanks between them is read as their values |
| DogeshellWords.RunsSpelled | kernel/dogeshell.c:1238-1317 | such a line runs one command on exactly those values, or nothing with status 2 if line or words are too many |
| DogeshellSpelling.SpelledIff | kernel/dogeshell.c:1260-1287 | a line without separators and without unfinished quotes and escapes is exactly a line of such words |
| DogeshellSequence.RunFirst | kernel/dogeshell.c:1289-1313 | a command before a separator is run first, the rest of the line from the state and status it leaves, unless it is refused or the shell exits |
| DogeshellSequence.RunsSequence | kernel/dogeshell.c:1289-1316 | complete commands with separators between them run one after another |
| Int64Text.NumeralReads | apps/dogescript.c:338-386 | every 64-bit integer, including the smallest, reads back from its text |
| Int64Text.CanonicalIff | apps/dogescript.c:371-386 | the formatter's texts are exactly the numerals without plus sign, superfluous zeros and minus zero |
| Int64Text.ParseInteger | apps/dogescript.c:338-369 | a text is accepted exactly if it is an optional sign and digits with a value in range, and that value is returned |
| Int64Text.Reverse | library/string.h:240-244 | the swap loop reverses the digits in place |
| Int64Text.PutDigits | library/string.h:233-237 | the digit loop writes the decimal digits, last first |
| Int64Text.U64ToA | library/string.h:229-245 | the buffer holds the decimal digits, terminated, for every 64-bit number |
| Int64Text.FormatInteger | apps/dogescript.c:371-386 | the text of the number, cut where the buffer ends |
| Int64Math.TruncatedRemainder | apps/dogescript.c:768-773 | truncating division leaves a remainder smaller than the divisor with the dividend's sign |
| Int64Math.MulGuards | apps/dogescript.c:755-766 | the multiplication guards hold exactly for products out of range |
| Int64Math.DivGuards | apps/dogescript.c:768-772 | a quotient is out of range only for the smallest integer by minus one |
| Int64Math.Evaluate | apps/dogescript.c:740-776 | the exact result, or failure exactly if it is undefined or out of range |
| Int64Math.Calculate | apps/dogescript.c:732-779 | texts in, text out: it reads as the exact result, and fails exactly if an operand is no number or there is no result in range |
| Int64Math.Count | apps/dogescript.c:715-731 | counting up or down by one, failing exactly at the ends of the range and for text that is no number |
| BashLexer.ReachedIsClean | kernel/bash.c:1303-1356 | what the scanner hands over, it would run through again without finding an operator |
| BashLexer.ExpansionInert | kernel/bash.c:150-203 | a successful expansion takes only text that the scanner passes over |
| BashLexer.LexClean | kernel/bash.c:216-341 | for every segment handed over, the tokenizer finds words only, at least one if there is text, and never an unfinished quote or escape |
| BashQuoting.LexLine | kernel/bash.c:216-341 | quoted and escaped words are read as exactly those words |
| BashQuoting.NamesVariable | kernel/bash.c:150-203 | a dollar sign and a name, with or without braces, expand that variable and end where the name ends |
| BashQuoting.RunsWords | kernel/bash.c:1358-1474 | a line of quoted words runs them as one command, also after an earlier request to exit |
| BashWords.LexWord | kernel/bash.c:284-325 | a word spelled in any mix of plain, escaped, single-quoted, double-quoted and variable pieces is read as the values of its pieces, a variable's being what the shell holds for it |
| BashWords.LexSpelled | kernel/bash.c:216-341 | a line of such words with blanks between them is read as their values, exactly if those and their terminators fit 256 characters and are at most 32 |
| BashWords.RunsSpelled | kernel/bash.c:1358-1474 | such a line runs one command on exactly those values, also after an earlier request to exit, or nothing with status 2 if line or values do not fit |
| BashSpelling.SpelledIff | kernel/bash.c:216-341 | a segment is read exactly if it is a line of such words and their values fit |
| BashSpelling.SegmentRuns | kernel/bash.c:1409-1430 | a segment hands its values to the command in the state and with the status there are, and leaves that command's status for the next |
| BashSpelling.RunsSequence | kernel/bash.c:1384-1474 | commands with semicolons between them run one after another, each with the variables and the status the one before left |
| BashLists.LoopText | kernel/bash.c:1384-1472 | on the text of commands and operators the loop runs the commands the operators let through |
| BashLists.LoopTree | kernel/bash.c:1445-1457 | the flags compute a left-associative AND-OR list, followed by anything |
| BashLists.LineMeansList | kernel/bash.c:1384-1474 | every well-formed line runs the commands and returns the status that its AND-OR lists mean (section 2.9.3 of the POSIX.1-2017 Shell Command Language), also when a command exits or cannot be tokenized |
| BashSyntax.SoundIff | kernel/bash.c:1384-1474 | the sound lines are exactly the commands with AND, OR and semicolons between them in which a command is empty only between semicolons and the ends |
| BashSyntax.ListAccepted | kernel/bash.c:1384-1474 | the text of well-formed AND-OR lists is accepted |
| BashSyntax.EndingIsLoop | kernel/bash.c:1384-1474 | telling how the loop ends does not change what it does |
| BashSyntax.AcceptedLines | kernel/bash.c:1358-1474 | an accepted line never ends in a syntax error, whatever its commands do; any other does, unless a command exits or cannot be tokenized before |
| BashSyntax.EmptyCommand | kernel/bash.c:1393-1466 | an empty command between semicolons is passed over |
| BashShell.FindNextOperator | kernel/bash.c:1303-1356 | where the segment ends and which operator ends it, failing exactly for unfinished quotes and escapes |
| BashShell.StepInWord | kernel/bash.c:292-324 | one character of a word, a quote, an escape or an expansion, with the storage limits, is read as the specification that makes words of their pieces reads it |
| BashShell.StepOperator | kernel/bash.c:248-282 | an operator ends the word and becomes a token |
| BashShell.Tokenize | kernel/bash.c:216-341 | the loop computes the specified tokens or error, so the values of spelled words |
| BashShell.RunTurn | kernel/bash.c:1409-1430 | a segment is run exactly if it is its turn |
| BashShell.Follow | kernel/bash.c:1432-1470 | the flags for the next segment, or the end of the line and its status |
| BashShell.RunCommandLine | kernel/bash.c:1358-1475 | an earlier request to exit is taken back, and the main loop computes the specified outcome of every line, well-formed or not |
| BashPath.CanonicalNames | kernel/bash.c:343-452 | a canonical path is a drive and names: no empty segment, no dot, no two dots |
| BashPath.FoldAppend | kernel/bash.c:402-441 | segments are worked off one after another |
| BashPath.DownAndUp | kernel/bash.c:415-428 | a dot changes nothing, and a name followed by two dots leads back, if the way down fits |
| BashRelative.StartsHere | kernel/bash.c:374-397 | a relative path is worked off from the segments of the working directory, on its drive, or on C if that names none; it is refused exactly if there is no working directory or the joined path or the result does not fit |
| BashRelative.StartsAtRoot | kernel/bash.c:374-397 | a path with a leading slash is worked off from the root of the working directory's drive |
| BashRelative.StartsOnDrive | kernel/bash.c:355-373 | a path with a drive is worked off from the root of that drive, which must be C or D |
| BashRelative.StaysUpDown | kernel/bash.c:402-441 | a dot gives the working directory, two dots its parent, and a name goes below it |
| BashPath.CanonicalStays | kernel/bash.c:343-452 | a canonical path is its own canonical form exactly if its drive is C or D and it fits the buffer |
| BashPath.IdempotentIff | kernel/bash.c:343-452 | with capacities up to 514, canonicalizing twice is canonicalizing once exactly if path or working directory is on C or D |
| BashPath.IdempotentInShell | kernel/bash.c:454-485 | as the shell calls it, canonicalizing twice is always canonicalizing once |
| BashPathBuffer.DropSegment | kernel/bash.c:420-426 | the backward loop removes the last segment and never the root |
| BashPathBuffer.AddSegment | kernel/bash.c:430-440 | a segment is appended exactly if it fits |
| BashPathBuffer.WorkOff | kernel/bash.c:399-441 | the buffer always shows the segment stack, terminated; it fails exactly if the fold does |
| BashPathBuffer.PutDrive | kernel/bash.c:446-450 | the path moves two places on, behind the drive |
| BashPathBuffer.CombineHere | kernel/bash.c:374-397 | a path without drive is joined to the working directory it starts from, failing exactly if that is missing or too long |
| BashPathBuffer.CombineDrive | kernel/bash.c:355-373 | a path with drive, failing exactly for drives other than C and D and for length |
| BashPathBuffer.CanonicalizePath | kernel/bash.c:343-452 | the buffer holds the canonical path, or the call fails exactly if there is none |
| EditorText.PressFine | apps/editor.c:548-626 | every key keeps 1 to 4096 lines of at most 255 characters without line breaks and the cursor in them |
| EditorText.EraseTyped | apps/editor.c:339-401 | backspace undoes a typed character, text and cursor |
| EditorText.EraseBroken | apps/editor.c:352-401 | backspace undoes a line break |
| EditorText.TypedFlat | apps/editor.c:339-350 | typing inserts one character at the cursor's place of the flat text |
| EditorText.BrokenFlat | apps/editor.c:352-372 | a line break inserts a line feed there |
| EditorText.ErasedFlat | apps/editor.c:374-401 | backspace removes the character before, and does nothing exactly at the start and where the joined line would be too long |
| EditorText.LeftFlat | apps/editor.c:567-574 | the left arrow goes back one place of the flat text, except at its start |
| EditorText.RightFlat | apps/editor.c:576-583 | the right arrow goes on one place, except at its end |
| EditorFlat.UpFlat | apps/editor.c:549-556 | the up arrow goes to the same column of the line before in the flat text, or to its end if it is shorter |
| EditorFlat.DownFlat | apps/editor.c:558-565 | the down arrow likewise to the line behind |
| EditorFlat.PressFlat | apps/editor.c:548-626 | every key does to the flat text and the cursor's place what an editor of one string does |
| EditorFlat.RunIsFlat | apps/editor.c:540-627 | so does every run of keys |
| EditorFile.LoadedIs | apps/editor.c:126-140 | loading drops returns, splits at line feeds and cuts lines to 255 characters |
| EditorFile.LoadedCount | apps/editor.c:110-118 | the count made before loading is the number of lines |
| EditorFile.SaveThenLoad | apps/editor.c:110-168 | loading what saving wrote restores the lines |
| EditorFile.LoadThenSave | apps/editor.c:110-168 | saving what was loaded writes the file without returns and with lines cut, and doing so again changes nothing |
| EditorFile.UntouchedFile | apps/editor.c:110-168 | a file without returns and long lines is written as it was |
| EditorFile.RestoredIff | apps/editor.c:154-177 | loading what reaches the file of a text restores the lines exactly if they hold no NUL |
| Editor.Buffer.InsertChar | apps/editor.c:339-350 | the shifting loop types the character, the rows stay terminated, a full line stays |
| Editor.Buffer.InsertNewline | apps/editor.c:352-372 | rows move on, the line is split in place, a full buffer stays |
| Editor.Buffer.DeleteChar | apps/editor.c:374-401 | a character or a line break goes, rows move back, or nothing changes |
| Editor.Buffer.HandleKey | apps/editor.c:548-626 | one key does what the specification says |
| Editor.Buffer.HandleKeys | apps/editor.c:540-627 | so does every run of keys, and every state on the way is valid |
| Editor.Buffer.Reset | apps/editor.c:66-77 | one empty line and the cursor at its start |
| Editor.Buffer.Load | apps/editor.c:97-151 | the file's lines, or nothing changes, exactly if it is longer than 65536 bytes or has more than 4096 lines |
| Editor.Buffer.Save | apps/editor.c:154-168 | the flat text, or nothing exactly if it is longer than 65536 bytes |
| EditorDisk.SavedIsLoadable | apps/editor.c:97-168 | what was saved is neither too long nor has too many lines to be opened |
| EditorDisk.SaveAndOpen | apps/editor.c:79-181 | saving and opening in another editor restore the lines exactly if they are at most 65536 characters and hold no NUL; a text that is too long leaves the file as it is |
| EditorDisk.NulIsLost | apps/editor.c:154-177 | a loaded file of one NUL is not restored |
| EditorDisk.LongIsLost | apps/editor.c:154-168 | 257 full lines are within the editor's limits and hold no NUL, but are in no file |
| UserHeapChunks.AlignedIff | library/dogelib.h:132 | the rounded size is at least the size exactly if rounding does not wrap around |
| UserHeapChunks.MapSizeIff | library/dogelib.h:99-100 | a mapping holds header and payload exactly if the sum does not wrap around |
| UserHeapChunks.MapSizeRanges | library/dogelib.h:98-132 | for every size, whether enough pages, nothing, or one page too small is mapped |
| UserHeapChunks.ExtendingHelpsIff | library/dogelib.h:98-167 | memory that is mapped has room for the request exactly unless that is within a header's size of the largest |
| UserHeapChunks.ExtendingCanMiss | library/dogelib.h:98-167 | a size for which memory is mapped that has no room for it |
| UserHeapChunks.AskedOnce | library/dogelib.h:129-168 | where mapped memory has room, the kernel is asked once and the request is served exactly if it grants |
| UserHeapChunks.AskedInVain | library/dogelib.h:129-168 | where it has not, the request fails after every leading grant has been appended as a chunk |
| UserHeapChunks.SizeServed | library/dogelib.h:129-168 | for every size, what a request comes to if nothing fits |
| UserHeapChunks.LargestServed | library/dogelib.h:129-168 | the largest request is served with a block of no bytes |
| UserHeapChunks.TakenKeeps | library/dogelib.h:142-157 | taking a block keeps the total, and the block is used, large enough and less than a header and eight bytes larger |
| UserHeapChunks.FreedKeeps | library/dogelib.h:176-192 | freeing and merging keep the total |
| UserHeapChunks.FreedUndoesTaken | library/dogelib.h:129-192 | freeing undoes taking exactly if the block before is in use, and so is the one behind unless the block was split |
| UserHeapChunks.FreedApart | library/dogelib.h:176-192 | where no two neighbours are free, none are after freeing |
| UserHeapChunks.FreedNeighbours | library/dogelib.h:176-192 | the freed block has no free neighbour exactly unless two free blocks lay side by side on one side of it |
| UserHeapChunks.TakenApart | library/dogelib.h:142-157 | taking keeps free blocks apart |
| UserHeapChunks.GrownApart | library/dogelib.h:98-127 | memory that is appended stays apart exactly if the last block is in use |
| UserHeapChunks.FreedBeside | library/dogelib.h:176-192 | a block before two free ones is merged with the first and left beside the second |
| UserHeap.Heap.Extend | library/dogelib.h:98-127 | a free block of whole pages is linked in behind the last, or nothing changes |
| UserHeap.Heap.SplitBlock | library/dogelib.h:143-155 | the rest of a block is linked in behind it, the list stays doubly linked |
| UserHeap.Heap.MergeNext | library/dogelib.h:178-184 | the next block is unlinked and its space added, the list stays doubly linked |
| UserHeap.Heap.Scan | library/dogelib.h:140-162 | the walk ends at the first block that fits |
| UserHeap.Heap.Take | library/dogelib.h:142-158 | the block is taken and split if the rest holds a header and eight bytes; other used blocks stay |
| UserHeap.Heap.Obtain | library/dogelib.h:134-167 | chunks, result and answers asked for are those of the specification, for every size and every sequence of answers |
| UserHeap.Heap.Malloc | library/dogelib.h:129-168 | the list stays valid, used blocks stay, a block handed out holds the rounded size, and the size itself exactly up to 2^64 - 8; for every size whether it is served, how often the kernel is asked and what is appended |
| UserHeap.Heap.Free | library/dogelib.h:170-193 | the block is freed and merged with free neighbours, free blocks that were apart stay apart, sizes still add up, other used blocks stay |

## Left out

- The instruction table and the encoding of ModR/M, SIB, VEX and REX in apps/chasm.c: a finite table; only lengths and displacement positions matter for linking.
- Mnemonic, operand and data text and ELF headers in apps/chasm_cli.c: text plumbing; names are taken to be valid and in lower case, and an instruction to refer to one label at most.
- Custom allocators of apps/chasm.c: the command sets none.
- The kernel's read-ahead and write buffers for archives and disk errors; literals are copied in one piece rather than in batches of 512 bytes.
- Tokenizing, variable expansion and conditions inside Dogescript: functions of the store, given by the host.
- Byte offsets of script lines: a script is a list of lines, so the truncation of offsets to 32 bits in loop frames is not modelled.
- Commands of all shells, command history and console output.
- Dogeshell lines that hold the raw source text of a script line (lines without `$`): they are passed on unchanged.
- Path resolution in Dogeshell, and authorization of paths.
- Find, go to line, file names, the modified flag and rendering in apps/editor.c.
- Addresses of mapped regions and header magic in library/dogelib.h: whether regions are contiguous is decided by the kernel, so blocks are objects and not ranges of bytes.
- The kernel, drivers, scheduler, file system, settings, other applications and floating-point helpers: they would add members without statements of this kind.
- ChasmAssembler.FirstPass: offsets of instructions are a growing sequence, not an array.
- ChasmCli.StoreData: the code is a sequence updated element by element, not the buffer of the assembler.
- BashShell.Tokenize: storage is counted, and words are sequences, not pointers into it.
- DogeshellRun.Tokenize: words are sequences, not pointers into the storage.

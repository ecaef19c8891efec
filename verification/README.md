# A verified model of Parabix

Parabix compiles text processing into operations on bit streams, held block by block in SIMD registers.  This project
models the arithmetic that its instruction-set builders emit and the algorithms around them, and proves them against
simple reference definitions.  `dafny verify dfyconfig.toml` checks everything.

A register is a sequence of bits (`Word`, lowest bit first) or a sequence of lanes; lane counts and widths are
parameters unless the code fixes them.  One module stands in each file:

- **Addition.** `LaneAddition` relates a block sum to lane sums, overflow and all-ones masks.  `AvxAddition` is the
  straight-line AVX2 adder, `NvptxAddition` the barrier-stepped GPU protocol as a state machine over single loads and
  stores, and `NvptxAdvance` the shift protocol beside it.
- **Indexed advance.** `IndexedAdvance`: PEXT, shift and PDEP with a queue in the carry, in three regimes.
- **Register shifts.** `RegisterShift`: the mutually dependent field shifts and the advance-by-one fast paths.
  `LaneShifts`: moving lanes by a run-time amount.
- **Compress and expand.** `Selection` and `LaneSelect` hold the reference functions.  `AvxCompressExpand`,
  `NibbleCompress`, `DoublingExpand`, `ArmCompressExpand`, `ArmTables` and `GenericCompressExpand` are quite different
  algorithms; each is proved equal to the same two functions, so they agree with one another.
- **Packing.** `PackHalves` and `MergeSplit`.
- **MaxSAT.** `BoolCircuit` is the counting circuit, `MaxSat` the Fu & Malik procedure over an oracle solver.
- **icgrep.** `GrepScheduler` is the worker-thread protocol as a state machine, `GrepQuiet` how quiet runs of it stop.
  `GrepGroups`, `GrepLines`, `GrepEmit`, `GrepRuns`, `GrepScan` and `GrepBatch` follow small files through one shared
  buffer, scanned in one pass, and back to their own labels and line numbers; `GrepReport` reads the output against the
  contents of the files; `GrepContext` is the choice of the lines shown around matches; `GrepSystem` puts grouping,
  searching and printing together.
- **CSV.** `CsvParser` against a character-by-character reader and a writer; `StreamScan` and `CsvColumns` for column
  selection; `CsvCut` for the pipeline of csvcut, from table to table.
- **Stream notation.** `Decimals`, `StreamNotation`, `NotationLanguage`, `NotationDigits`, `NotationErrors`,
  `NotationParser`, `NotationDecoders`, `NotationWalk` and `StreamSets`: tokenizer, parser, the exact language, and the
  decoders.
- **Pablo.** `BranchEscape` and `SymbolGenerator`.

`IntArith`, `BitWords`, `BitSelection`, `BitNumbers`, `LaneOps` and `Schedules` are the common ground.

## Where the code does not do what it seems to

Each of these is proved with the exact condition or a concrete input.

- `assert_le_one` takes bit indexes modulo 32, so its formula is right if and only if the number has at most 32 bits
  (`BoolCircuit.LeOneCorrectIff`).  With fewer than 2^31 soft constraints a count never gets that wide.
- `hsimd_packl` and `hsimd_packh` do not mask a field as wide as the block; the conditions are `SingleFieldLow` and
  `SingleFieldHigh`, and for `Split2Kernel` `TwoSamplePacks`.
- `formFileGroups` says that a path whose size cannot be read is kept in its own group.  The error value of `file_size`
  is 2^64 - 1, adding one wraps to zero, and the path joins the open group if there is one (`FailedPath`,
  `FailedPathJoins`).
- A small file that an open group turns away gets a group that is closed at once, even when the next file would fit with
  it.  That happens exactly as `EndsEarlyExactly` and `EndsEarlyOnlyAlone` say; `EndsEarlyExample` is an input.
- Without context, a batched grep run differs from the single runs exactly when some file's last line is matched, lacks
  its line feed and ends with a byte that `accumulate_match` takes for a line terminator (`BatchEqualsSingles`): the batch adds a line feed,
  the single run does not.  On platforms with a signed `char` the tests for NEL, LS and PS never succeed
  (`SignedTerminators`, `WideTerminators`), so there only VT, FF and CR make a difference (`SignedBatchEqualsSingles`).
- A context span is documented as the lines from B lines before a match to A lines after it.  `ContextSpan` moves every
  match back by B lines first, so a match among the first B lines is lost together with its context; the exact condition
  is `SpannedExactly`, and `FirstLineLost` an input.  In a batch the context also runs on into neighbouring files
  (`SpannedBeforeEnd`, `SpannedAfterEnd`, `ContextCrosses`).
- The separator between context groups is also written before the first line shown of a file, unless that is one of its
  first two lines (`SeparatorFirst`); in a batch, also when it is the second line of a file that is not the first
  (`LaterPiece`), so batched and single runs differ there too (`BatchEqualsSingles`).
- `getColumnArgs` asks for column numbers in strictly increasing order, but lets a range start with the column that the
  one before it ended with.  The columns selected are then not those asked for (`SelectedAsAsked`); `ColumnTwice` is an
  input.
- In the stream notation `()` and white space at the end are errors (`EmptyGroupRefused`, `TrailingSpaceRefused`)
  although the documented grammar allows an empty group; nested repetitions such as `1{2}{3}` are accepted although it
  does not allow them (`NestedRepetitionAccepted`); and a group that is never closed makes the parser use a token that is
  not there instead of reporting the end of the text (`RefusedExactly`, `MissingExactly`).
- `escapes` counts every assignment that uses the variable, also one that only reads it (`ReaderEscapes`).
  `EscapesWrongly` says exactly when that makes a difference; without such readers it makes none (`NoReaders`).
- The MaxSAT procedure takes an undecided query for a satisfiable one.  What it returns then is the maximum exactly when
  that query is satisfiable (`StopsAtOptimum`, `DoMaxSat`); `GivingUpRun` is a run that returns one instead of zero.
- `mvmd_srl` and `mvmd_sll` bring in zeros only up to the shifts stated in `LaneShifts`.

## Model

| member | source | states |
|---|---|---|
| `LaneAddition.OverflowBit` | lib/idisa/idisa_avx_builder.cpp:298-306 | the top bit of the digit-carry word is the carry out of the lane sum |
| `LaneAddition.OverflowExcludesBubble` | lib/idisa/idisa_avx_builder.cpp:298-310 | a lane never both overflows and has an all-ones sum |
| `LaneAddition.IncrementMaskAt` | lib/idisa/idisa_avx_builder.cpp:307-311 | bit i of (bubble + markers) xor bubble is set exactly when lane i receives a carry; bit n is the carry out and nothing lies above it |
| `LaneAddition.LanesSum` | lib/idisa/idisa_avx_builder.cpp:312-313 | lane sums incremented exactly where a carry arrives are the sum of the two blocks as integers |
| `BitWords.AddValue` | lib/idisa/idisa_avx_builder.cpp:307-313 | adding two masks as machine words adds the numbers they stand for, modulo two to the width |
| `BitWords.SubValue` | lib/idisa/idisa_nvptx_builder.cpp:238 | so does subtracting |
| `AvxAddition.IncrementMaskIsLaneCarry` | lib/idisa/idisa_avx_builder.cpp:307-311 | the increment mask of the builder marks exactly the lanes that receive a carry |
| `AvxAddition.AddWithCarryLanes` | lib/idisa/idisa_avx_builder.cpp:294-323 | every lane of the result is the lane sum plus the carry into that lane |
| `AvxAddition.AddWithCarryIsAddition` | lib/idisa/idisa_avx_builder.cpp:294-323 | sum + 2^(n*w) * carry out = e1 + e2 + carry in, the carry out being again 0 or 1, for every lane count and width |
| `AvxAddition.AddStreamIsAddition` | lib/idisa/idisa_avx_builder.cpp:294-323 | folding the block adder over two equally long streams adds the integers they stand for |
| `LaneAddition.MarkerSpanAt` | lib/idisa/idisa_nvptx_builder.cpp:237-238 | the AND-NOT/subtract form marks exactly the lanes that receive a carry, in a mask just as wide as the lane count |
| `NvptxAddition.CarryInitIsGathered` | lib/idisa/idisa_nvptx_builder.cpp:192-199 | the first value of a carry cell is the overflow bit of its lane at the position of the lane |
| `NvptxAddition.BubbleInitIsGathered` | lib/idisa/idisa_nvptx_builder.cpp:201-214 | the first value of a bubble cell is set exactly when the lane sum is all ones |
| `NvptxAddition.GatherRound` | lib/idisa/idisa_nvptx_builder.cpp:221-228 | in round r a thread and its partner at the halving offset join the bits they hold, and hold the same bits afterwards |
| `NvptxAddition.PartnerLoad` | lib/idisa/idisa_nvptx_builder.cpp:222-227 | a load gives the bits of the round whether or not the partner has already overwritten its cell |
| `NvptxAddition.StepInv` | lib/idisa/idisa_nvptx_builder.cpp:197-229 | every single load, store and barrier step of every thread keeps the invariant of all threads |
| `NvptxAddition.RunInv` | lib/idisa/idisa_nvptx_builder.cpp:197-229 | the invariant holds in every state of every interleaving |
| `NvptxAddition.FinishedThreadsAgree` | lib/idisa/idisa_nvptx_builder.cpp:231-235 | in every interleaving, every finished thread has read the complete carry and bubble masks |
| `NvptxAddition.FinishLane` | lib/idisa/idisa_nvptx_builder.cpp:233-241 | with the complete masks a thread increments its lane by the carry into it, and all threads report one carry out |
| `NvptxAddition.LongAddIsAddition` | lib/idisa/idisa_nvptx_builder.cpp:164-248 | in every interleaving in which all threads finish, lanes and carry out are valA + valB + block carry |
| `NvptxAddition.StepMakesProgress` | lib/idisa/idisa_nvptx_builder.cpp:216-229 | every step that is not a wait uses up one of finitely many |
| `NvptxAddition.NoDeadlock` | lib/idisa/idisa_nvptx_builder.cpp:216-229 | unless all threads are done some thread can move |
| `NvptxAddition.RunCanFinish` | lib/idisa/idisa_nvptx_builder.cpp:216-229 | every interleaving can be continued until all threads are done |
| `NvptxAddition.FairRunFinishes` | lib/idisa/idisa_nvptx_builder.cpp:216-229 | every interleaving in which all threads keep getting turns finishes, after at most 5k + 5 rounds for each of the 2^k threads |
| `NvptxAdvance.StepInv` | lib/idisa/idisa_nvptx_builder.cpp:134-152 | every load, store and barrier step of LongAdvance keeps what is known about cells and threads, although all threads write the first cell |
| `NvptxAdvance.LongAdvanceIsAdvance` | lib/idisa/idisa_nvptx_builder.cpp:116-160 | in every finished interleaving the threads return the block advanced by the shift behind the carry bits, and one carry out with exactly the bits pushed out |
| `NvptxAdvance.FinishedReturns` | lib/idisa/idisa_nvptx_builder.cpp:147-158 | all threads of a finished interleaving return the same carry out |
| `NvptxAdvance.RunCanFinish` | lib/idisa/idisa_nvptx_builder.cpp:145-151 | every interleaving can be continued until all threads are done |
| `NvptxAdvance.FairRunFinishes` | lib/idisa/idisa_nvptx_builder.cpp:134-152 | every interleaving in which all threads keep getting turns finishes, after at most five rounds for each thread |
| `NvptxAdvance.StreamAdvanced` | lib/idisa/idisa_nvptx_builder.cpp:55-61 | chaining blocks through the carry, each in any interleaving, advances the whole stream |
| `IndexedAdvance.AdvanceMeaning` | lib/idisa/idisa_avx_builder.cpp:394-448 | the queue semantics: position p is marked exactly when it is an index position and the index position `shift` before it was marked |
| `IndexedAdvance.AdvanceConcat` | lib/idisa/idisa_avx_builder.cpp:394-448 | two adjacent pieces of a stream, the queue handed on, are one stream |
| `IndexedAdvance.SmallLane` | lib/idisa/idisa_avx_builder.cpp:397-411 | one lane with a shift below the lane width: deposited bits and carry are those of the queue |
| `IndexedAdvance.LargeLane` | lib/idisa/idisa_avx_builder.cpp:419-427 | one lane with a shift from the lane width to the block width: likewise, with a block-wide carry |
| `IndexedAdvance.AdvanceSmall` | lib/idisa/idisa_avx_builder.cpp:394-413 | the first regime over all lanes of a block is the queue operation on the block |
| `IndexedAdvance.AdvanceLarge` | lib/idisa/idisa_avx_builder.cpp:414-428 | the second regime likewise |
| `IndexedAdvance.AdvanceHuge` | lib/idisa/idisa_avx_builder.cpp:429-448 | the third regime deposits the carry in at the index positions and collects the filtered stream |
| `IndexedAdvance.BitblockIndexedAdvance` | lib/idisa/idisa_avx_builder.cpp:394-448 | the three regimes together, chosen by the shift amount |
| `IndexedAdvance.HugeIsQueue` | lib/idisa/idisa_avx_builder.cpp:429-448 | the third regime is a window on a longer queue: same bits deposited, and its carry out is what the queue gains |
| `IndexedAdvance.IndexedAdvanceStream` | lib/idisa/idisa_avx_builder.cpp:394-428 | in the first two regimes chaining blocks equals one indexed advance of the whole stream |
| `RegisterShift.Dslli` | lib/idisa/idisa_avx_builder.cpp:1160-1184 | the recursion terminates, and for every field width and every shift up to the whole register it is the shift of the register pair by shift * fw bits |
| `RegisterShift.Slli` | lib/idisa/idisa_avx_builder.cpp:1141-1158 | likewise for one register, zeros coming in |
| `RegisterShift.BitsIsProduct` | lib/idisa/idisa_avx_builder.cpp:1153-1154 | the shift in bits used in the two contracts is shift * fw |
| `RegisterShift.JoinShifts` | lib/idisa/idisa_avx_builder.cpp:1177-1182 | two shifts by 32-bit fields, one field apart, moved inside their fields and joined, are one shift by any number of bits |
| `RegisterShift.OddShift` | lib/idisa/idisa_avx_builder.cpp:1174-1182 | an odd number of narrow fields never is a whole number of 32-bit fields, so the shifts by 32 - bit_shift and by one more field stay in range |
| `RegisterShift.ShuffleIsShift` | lib/idisa/idisa_avx_builder.cpp:1168-1175 | the two-table shuffle with indexes i + fieldCount - shift is the shift of the pair by whole fields |
| `RegisterShift.AdvanceAvx2` | lib/idisa/idisa_avx_builder.cpp:325-343 | the AVX2 advance by one is a one-bit shift of the block with the top bit of the carry byte coming in, and returns the top bit of the block |
| `RegisterShift.AdvanceAvx512` | lib/idisa/idisa_avx_builder.cpp:1372-1387 | likewise for AVX-512, where the carry out is a comparison of lanes with a constant |
| `RegisterShift.TopBitExceeds` | lib/idisa/idisa_avx_builder.cpp:1382-1386 | the unsigned comparison sets the top bit of the carry byte exactly when the top bit of the block is set, and no other bit |
| `RegisterShift.ChainIsAdvance` | lib/idisa/idisa_avx_builder.cpp:325-343 | chaining blocks through the carry byte is a one-bit advance of the whole stream |
| `LaneShifts.Avx2SrlExactly` | lib/idisa/idisa_avx_builder.cpp:467-494 | mvmd_srl for 32-bit lanes moves every register down exactly when shift + n <= 2^32 + 1 |
| `LaneShifts.Avx2SllExactly` | lib/idisa/idisa_avx_builder.cpp:496-523 | mvmd_sll for 32-bit lanes moves every register up exactly when shift <= 2^31 + 1 |
| `LaneShifts.Avx512Exactly` | lib/idisa/idisa_avx_builder.cpp:843-873 | both AVX-512 moves are right for every register exactly up to a shift by all lanes and at the further shifts congruent to it |
| `LaneSelect.ExpandCompress` | lib/idisa/idisa_avx_builder.cpp:712-764 | expanding what was compressed with one mask gives back the register with its unselected lanes cleared |
| `LaneSelect.CompressExpand` | lib/idisa/idisa_avx_builder.cpp:611-710 | compressing what was expanded gives back the lanes that were placed, zeros above |
| `Selection.FilterAt` | lib/idisa/idisa_avx_builder.cpp:687-697 | element k of the filtered sequence is the one at the k-th set position of the mask |
| `AvxCompressExpand.PlaneConstantIsPlane` | lib/idisa/idisa_avx_builder.cpp:654-661 | the six constants are the bit-planes of the numbers below 64 |
| `AvxCompressExpand.ExtractedPlane` | lib/idisa/idisa_avx_builder.cpp:687-689 | PEXT of plane i gives bit i of the position of the k-th set bit, zero for k past the popcount |
| `AvxCompressExpand.GatheredPlane` | lib/idisa/idisa_avx_builder.cpp:747-750 | PEXT or PDEP of a plane is that plane of the wanted lane numbers |
| `AvxCompressExpand.GatherPlanes` | lib/idisa/idisa_avx_builder.cpp:687-697 | the loop over the planes builds exactly the wanted lane numbers |
| `AvxCompressExpand.CompressByPlanes` | lib/idisa/idisa_avx_builder.cpp:649-705 | mvmd_compress by planes is the stable filter padded with zeros, the all-selected case included whatever the undefined shift gives |
| `AvxCompressExpand.ExpandByPlanes` | lib/idisa/idisa_avx_builder.cpp:712-764 | mvmd_expand by planes puts a[rank of p] at selected p and zero elsewhere |
| `NibbleCompress.SpreadTimesIsDup` | lib/idisa/idisa_avx_builder.cpp:632-633 | PDEP by 0x11111111 and multiplication by 0xF repeat every mask bit once per digit bit |
| `NibbleCompress.PackedIndexesAt` | lib/idisa/idisa_avx_builder.cpp:635 | digit k of the extracted word is the position of the k-th set bit, zero past the popcount |
| `NibbleCompress.OnesBelow` | lib/idisa/idisa_avx_builder.cpp:647 | (1 << count) - 1 has exactly the low count bits set |
| `NibbleCompress.CompressByDigits` | lib/idisa/idisa_avx_builder.cpp:620-648 | mvmd_compress for 32-bit lanes is the stable filter padded with zeros |
| `NibbleCompress.CompressPairs` | lib/idisa/idisa_avx_builder.cpp:614-619 | 64-bit lanes compressed as pairs of 32-bit lanes are the filtered 64-bit lanes |
| `DoublingExpand.SllMovesUp` | lib/idisa/idisa_avx_builder.cpp:859-871 | up to a shift by the lane count, AVX-512 mvmd_sll moves lanes up and brings in zeros |
| `DoublingExpand.DoublingIsExpand` | lib/idisa/idisa_avx_builder.cpp:1076-1087 | inductive doubling is the expansion, whatever width the expand instruction starts at |
| `ArmCompressExpand.PartialSum` | lib/idisa/idisa_builder.cpp:703-711 | log-many shifted additions give every lane the total of the lanes up to it |
| `ArmCompressExpand.LaneMaskIsMask` | lib/idisa/idisa_arm_builder.cpp:236-250 | lane i of byteMaskToLaneMask is bit i of the mask |
| `ArmCompressExpand.FieldMaskIsDup` | lib/idisa/idisa_arm_builder.cpp:218-233 | expandFieldMaskToBytes repeats every field bit once per byte |
| `ArmCompressExpand.Ranks` | lib/idisa/idisa_arm_builder.cpp:332-335 | inclusive sum minus own bit is the number of selected lanes before the lane |
| `ArmCompressExpand.ExpandBytes` | lib/idisa/idisa_arm_builder.cpp:328-341 | the NEON rank gather is the expansion |
| `ArmCompressExpand.ExpandSve2` | lib/idisa/idisa_arm_sve2_builder.cpp:73-118 | the SVE2 rank gather and zero mask is the expansion by the field mask |
| `ArmCompressExpand.CompactIgnoresInactive` | lib/idisa/idisa_arm_sve2_builder.cpp:60-66 | the further lanes of the scalable register do not disturb what COMPACT gives for the fixed ones |
| `ArmTables.ByteCompressEntry` | lib/idisa/idisa_arm_builder.cpp:28-40 | a table entry lists the positions of the set bits in order, then an out-of-range index |
| `ArmTables.ByteCompressTable` | lib/idisa/idisa_arm_builder.cpp:18-45 | so does every entry of the table |
| `ArmTables.CompressFromEntriesLane` | lib/idisa/idisa_arm_builder.cpp:277-298 | the two half lookups, the second moved up by the popcount of the first, give every lane of the compressed register |
| `ArmTables.CompressBytes` | lib/idisa/idisa_arm_builder.cpp:259-299 | compressBytes is the stable filter padded with zeros |
| `ArmTables.PermuteField` | lib/idisa/idisa_arm_builder.cpp:70-78 | handling one set field extends a correct entry by one field |
| `ArmTables.FieldPermuteEntry` | lib/idisa/idisa_arm_builder.cpp:63-81 | an entry maps every byte to its source, in either direction |
| `ArmTables.FieldPermuteTable` | lib/idisa/idisa_arm_builder.cpp:49-86 | so does every entry of the table |
| `ArmTables.FieldPermute` | lib/idisa/idisa_arm_builder.cpp:304-314 | the table lookup with the mask cut to the field count is the compression or the expansion of the fields |
| `LaneSelect.CompressFlat` | lib/idisa/idisa_arm_builder.cpp:304-314 | compressing narrow pieces by the repeated mask compresses the wide lanes |
| `LaneSelect.ExpandFlat` | lib/idisa/idisa_arm_builder.cpp:304-314 | expanding narrow pieces by the repeated mask expands the wide lanes |
| `GenericCompressExpand.RunningTotals` | lib/idisa/idisa_builder.cpp:1153-1155 | the partial sums count the unselected lanes up to every lane |
| `GenericCompressExpand.TotalsAgree` | lib/idisa/idisa_builder.cpp:1156-1166 | the total found at the lane that data has reached agrees, in the digits still to be handled, with the total of the lane it belongs to |
| `GenericCompressExpand.MovedInOrder` | lib/idisa/idisa_builder.cpp:1156-1166 | lanes on the move never catch up with one another |
| `GenericCompressExpand.RoundPlaces` | lib/idisa/idisa_builder.cpp:1157-1166 | a round moves exactly the lanes whose total has the digit, and loses none |
| `GenericCompressExpand.GenericCompress` | lib/idisa/idisa_builder.cpp:1132-1169 | the generic mvmd_compress is the stable filter padded with zeros |
| `GenericCompressExpand.PendingStep` | lib/idisa/idisa_builder.cpp:1198-1218 | after a round the data wanted at lane p is where the remaining digits will bring it from |
| `GenericCompressExpand.GenericExpand` | lib/idisa/idisa_builder.cpp:1171-1223 | the generic mvmd_expand is the expansion |
| `BoolCircuit.MkAdder` | include/util/maxsat.hpp:31-38 | under every assignment the num_bits + 1 result cells are the sum of the two inputs; no other cell changes |
| `BoolCircuit.MkAdderPairs` | include/util/maxsat.hpp:48-66 | a level halves the number of numbers (rounding up), widens them by a bit and conserves their total under every assignment |
| `BoolCircuit.AssertLeOne` | include/util/maxsat.hpp:78-95 | the loop builds the formula `LeOne` of the cells |
| `BoolCircuit.LeOneCorrect` | include/util/maxsat.hpp:71-95 | up to 32 bits the formula holds exactly when the number is at most one |
| `BoolCircuit.LeOneCorrectIff` | include/util/maxsat.hpp:71-95 | the formula is right for all numbers of n bits if and only if n <= 32, because get_bit takes the bit index modulo 32 |
| `MaxSat.ScratchBound` | include/util/maxsat.hpp:245-255 | no level of the adder tree needs more than k + 1 cells |
| `MaxSat.AtMostOne` | include/util/maxsat.hpp:244-256 | with two swapped buffers of k + 1 cells the final constraint holds exactly when at most one block variable is true |
| `MaxSat.LimitBlocks` | include/util/maxsat.hpp:244-257 | the constraint asserted in a round limits its block variables to at most one true (nothing is needed below two) |
| `MaxSat.GuardSoft` | include/util/maxsat.hpp:204-207 | every soft constraint is guarded by a fresh auxiliary variable |
| `MaxSat.RelaxCore` | include/util/maxsat.hpp:220-242 | exactly the soft constraints whose assumption is in the core are relaxed, and the block variables fit the buffer of m cells |
| `MaxSat.CoreHasFalse` | include/util/maxsat.hpp:216-222 | in every model of what is asserted some soft constraint of an unsatisfiable core is false |
| `MaxSat.RoundUp` | include/util/maxsat.hpp:219-258 | a failed round lets every model satisfy one more soft constraint |
| `MaxSat.RoundDown` | include/util/maxsat.hpp:219-258 | and adds at most one to what any model satisfies |
| `MaxSat.RoundGains` | include/util/maxsat.hpp:219-258 | so a failed round lowers the cost of the optimum by at least one |
| `MaxSat.RoundBounded` | include/util/maxsat.hpp:219-258 | and by at most one |
| `MaxSat.SatIsOptimal` | include/util/maxsat.hpp:216-217 | when the query is satisfiable after d failed rounds, n - d is the optimum |
| `MaxSat.StopsAtOptimum` | include/util/maxsat.hpp:209-217 | the number at which the procedure stops is the maximum if and only if the query it has just made is satisfiable, whatever the solver has said of it |
| `MaxSat.DoMaxSat` | include/util/maxsat.hpp:190-261 | one round fails for every soft constraint given up; the number returned is never below the maximum number of soft constraints that can hold together in a model of the hard ones; it is that maximum if and only if it is zero or the last query is satisfiable, and so whenever the solver decides every query |
| `MaxSat.Z3MaxSat` | include/util/maxsat.hpp:268-271 | likewise for the wrapper that makes the proxy |
| `MaxSat.GivingUpRun` | include/util/maxsat.hpp:216-217 | a run with a solver that gives up at once: it returns one where the only soft constraint contradicts the hard formula and the maximum is zero |
| `MaxSat.HonestOracle` | include/util/maxsat.hpp:216-219 | there are solvers whose answers are right and that never give up, so the theorems speak of something |
| `GrepScheduler.StepInv` | lib/grep/grep_engine.cpp:1078-1121 | every step of every thread keeps the invariant |
| `GrepScheduler.RunInv` | lib/grep/grep_engine.cpp:1078-1121 | the invariant holds in every state that any schedule reaches |
| `GrepScheduler.ReachableSafe` | lib/grep/grep_engine.cpp:1080-1121 | in every reachable state no group is held twice or searched twice, and what has been printed is the in-order text of whole groups |
| `GrepScheduler.FinishedRun` | lib/grep/grep_engine.cpp:1055-1121 | in every finished schedule the answer is true exactly when some group matched, and unless a quiet run has found a match every group was searched once and printed once, in order |
| `GrepScheduler.WaitIsForWorker` | lib/grep/grep_engine.cpp:1109-1121 | the main thread never waits for a group that no other thread is working on |
| `GrepScheduler.NoDeadlock` | lib/grep/grep_engine.cpp:1078-1121 | until all threads are done some thread can move |
| `GrepScheduler.StepWorks` | lib/grep/grep_engine.cpp:1078-1121 | every step either is a wait that changes nothing or uses up work |
| `GrepScheduler.FairRunFinishes` | lib/grep/grep_engine.cpp:1078-1121 | after as many rounds as there is work left, every thread having at least one turn a round, all threads are done |
| `GrepScheduler.SearchAllFiles` | lib/grep/grep_engine.cpp:1055-1075 | every fair run ends, within a bound linear in groups and threads, with the right answer; outside a quiet run with a match, every group has been searched once and printed in order |
| `GrepQuiet.QuietStops` | lib/grep/grep_engine.cpp:1078-1093 | from any reachable state of a quiet run that has recorded a match, every continuation begins at most one more search for every thread |
| `GrepQuiet.EarlyRecords` | lib/grep/grep_engine.cpp:1078-1093 | with an engine that records matches itself, a match is recorded before its group is marked complete |
| `GrepQuiet.QuietAlone` | lib/grep/grep_engine.cpp:1078-1121 | a finished quiet run with one thread has searched exactly the groups up to the first that matches, and printed exactly the texts of those before it |
| `GrepGroups.FormFileGroups` | lib/grep/grep_engine.cpp:209-240 | the loop computes the grouping `Group` |
| `GrepGroups.GroupsArePacked` | lib/grep/grep_engine.cpp:209-240 | for sized paths the groups are the paths in order, every batch fits the buffer, no group has more than 32 files, and an open group ends only before a file that is empty or does not fit with it |
| `GrepGroups.PackedIsUnique` | lib/grep/grep_engine.cpp:209-240 | a grouping of the paths meets these conditions if and only if it is the one the loop computes |
| `GrepGroups.EndsEarlyExactly` | lib/grep/grep_engine.cpp:218-237 | a group of one file ends before a file that would fit with it if and only if its own file was turned away by a group that was open then |
| `GrepGroups.EndsEarlyOnlyAlone` | lib/grep/grep_engine.cpp:218-237 | no other group ends before a file that would fit |
| `GrepGroups.EndsEarlyExample` | lib/grep/grep_engine.cpp:231-237 | three files of 60, 50 and 10 bytes get three groups for batches below 100 bytes, although the last two would fit together |
| `GrepGroups.FailedPath` | lib/grep/grep_engine.cpp:216-238 | after any paths, sized or not, a path whose size cannot be read joins the open group, and gets a group of its own exactly when none is open |
| `GrepGroups.FailedPathJoins` | lib/grep/grep_engine.cpp:231-234 | a concrete list in which two such paths join the group of the file before them |
| `GrepLines.LinesConcat` | lib/grep/grep_engine.cpp:934-972 | the lines of two texts put one after the other, the first ending a line, are the lines of both |
| `GrepScan.LinesOfBuffer` | lib/grep/grep_engine.cpp:934-972 | the lines of the buffer are the lines of the files, one file after the other |
| `GrepLines.LinesFixed` | lib/grep/grep_engine.cpp:966-970 | adding the missing line feed changes the last line only |
| `GrepEmit.EmitMatch.SetBatchLineNumber` | lib/grep/grep_engine.cpp:525-530 | the whole new state: the start line of the next file is recorded and an unterminated line is ended |
| `GrepEmit.EmitMatch.MoveToFile` | lib/grep/grep_engine.cpp:534-538 | moves to the first file whose next file does not start at or before the line |
| `GrepEmit.EmitMatch.AccumulateMatch` | lib/grep/grep_engine.cpp:532-572 | the whole new state after a match is written |
| `GrepEmit.SignedTerminators` | lib/grep/grep_engine.cpp:559-571 | where plain char is signed, the line counts as ended exactly when its last byte is LF, VT, FF or CR |
| `GrepEmit.WideTerminators` | lib/grep/grep_engine.cpp:561-571 | a line ending in NEL, LS or PS counts as ended exactly where plain char is unsigned |
| `GrepEmit.UnsignedTerminators` | lib/grep/grep_engine.cpp:559-571 | where it is unsigned, exactly LF, VT, FF, CR and the UTF-8 forms of NEL, LS and PS end a line |
| `GrepReport.LinePlace` | lib/grep/grep_engine.cpp:532-558 | the lines of a text are its pieces from one line break to the next: where each one starts and ends |
| `GrepReport.BodyIs` | lib/grep/grep_engine.cpp:414-436 | the matcher is given the line up to its line break |
| `GrepReport.BreaksBefore` | lib/grep/grep_engine.cpp:545-554 | before line k of a text stand k line breaks |
| `GrepReport.PieceReports` | lib/grep/grep_engine.cpp:532-558 | the text emitted for a file: before every matched line stand the name, a separator, and digits that read one more than the number of line breaks before the line; nothing else is written but the separators of context groups |
| `GrepReport.SingleReports` | lib/grep/grep_engine.cpp:532-576 | the same for a file searched by itself, with a line feed at the end exactly if the last line written lacks a terminator |
| `GrepReport.SeparatorFirst` | lib/grep/grep_engine.cpp:540-542 | with context shown, the output of a file begins with a separator if and only if the first line shown is not one of the first two |
| `GrepContext.ContextSpan` | lib/grep/grep_kernel.cpp:271-291 | the doubling runs mark exactly the context of the markers that have all of their lines of context before them |
| `GrepContext.SpannedExactly` | lib/grep/grep_kernel.cpp:271-291 | that is the context of all markers, as documented, if and only if no marker is among the first positions, as many as there are lines of context before, or the position after those is marked |
| `GrepContext.FirstLineLost` | lib/grep/grep_kernel.cpp:274 | a match in the first line only is not shown when a line before it is asked for |
| `GrepContext.SpannedBeforeEnd` | lib/grep/grep_kernel.cpp:271-291 | in the buffer of a batch a line is shown when it is shown in its own file or a match of a later file is near enough, and only then |
| `GrepContext.SpannedAfterEnd` | lib/grep/grep_kernel.cpp:271-291 | likewise for matches of earlier files; early matches are not forgotten when enough lines come before the file |
| `GrepContext.ContextCrosses` | lib/grep/grep_kernel.cpp:271-291 | two one-line files: the first is shown because the second matches |
| `GrepRuns.AccumulateIs` | lib/grep/grep_engine.cpp:532-572 | line i of the file at hand is written with that file's label and the number i + 1, a separator before it if one is due |
| `GrepRuns.SeparatorIs` | lib/grep/grep_engine.cpp:539-542 | a separator is due exactly when the line before in the same file was left out, except before the second line of the file that lines begin with |
| `GrepRuns.EmitLinesAre` | lib/grep/grep_engine.cpp:532-572 | the text of a file is the concatenation of its matched lines, separated, labelled and numbered from the start of the file |
| `GrepRuns.LaterPiece` | lib/grep/grep_engine.cpp:539-542 | coming later in a batch makes a difference only for a file shown from its second line on: a separator before that line |
| `GrepRuns.SingleIs` | lib/grep/grep_engine.cpp:889-922 | the output and count of a run over one file |
| `GrepRuns.BatchStateAfter` | lib/grep/grep_engine.cpp:525-572 | after j files of a batch: the texts of those files in order, and the start lines recorded so far |
| `GrepRuns.BatchEqualsSingles` | lib/grep/grep_engine.cpp:525-572 | a batched run emits what the single runs emit, in order, if and only if no file has a hidden end and, with context groups, no file that lines come before is shown from its second line on; the counts always agree |
| `GrepRuns.SignedHiddenEnd` | lib/grep/grep_engine.cpp:559-571 | where plain char is signed, an end is hidden exactly when the last line is matched and ends in VT, FF or CR |
| `GrepRuns.SignedBatchEqualsSingles` | lib/grep/grep_engine.cpp:525-572 | so there, without context, a batched run differs from the single runs if and only if some file has such a last line |
| `GrepBatch.LoadFile` | lib/grep/grep_engine.cpp:949-970 | appends one file to the buffer with the line feed it lacks, never writing past the buffer |
| `GrepBatch.LoadBatch` | lib/grep/grep_engine.cpp:933-972 | for files that fit, the overflow break is never taken, all files are examined, and their start positions are recorded |
| `GrepScan.BreaksAreBase` | lib/grep/grep_engine.cpp:525-530 | the line breaks before a file in the buffer are the lines of the files before it |
| `GrepScan.FileSlice` | lib/grep/grep_engine.cpp:963-971 | the part of the buffer between two start positions is the file |
| `GrepScan.PastStart` | lib/kernel/scan/scanmatchgen.cpp:516-519 | a line starts at or after the start of a file exactly when it is not a line of an earlier file |
| `GrepScan.NextFile` | lib/kernel/scan/scanmatchgen.cpp:521-549 | passing to the next file, when lines of it have been seen without a match, leaves the match writer as if they came after |
| `GrepScan.PassFiles` | lib/kernel/scan/scanmatchgen.cpp:516-549 | passes to the file that holds a position, recording the start line of every file on the way |
| `GrepScan.ScanStride` | lib/kernel/scan/scanmatchgen.cpp:368-629 | one stride: the matches that end in it are reported in order, then the files that end in it are closed |
| `GrepScan.ScanBatch` | lib/kernel/scan/scanmatchgen.cpp:313-655 | one pass over the buffer, whatever the stride, leaves the match writer as if the files had been scanned one after the other |
| `GrepBatch.DoGrepSingle` | lib/grep/grep_engine.cpp:889-922 | a group of one file is searched by itself: the report of its matched lines, and their number |
| `GrepBatch.DoGrepBatch` | lib/grep/grep_engine.cpp:923-984 | loading, scanning and finalizing compute the batch run of the files |
| `GrepBatch.DoGrep` | lib/grep/grep_engine.cpp:884-997 | for a group made by formFileGroups the output is the report of its files, line by line against their contents; it is that of the single searches in order if and only if it is one file or no file makes a difference; the number of matches always agrees |
| `GrepBatch.HiddenEndExample` | lib/grep/grep_engine.cpp:559-560 | a matched vertical tab at the end of a file is a hidden end |
| `GrepBatch.DifferenceMeans` | lib/grep/grep_engine.cpp:532-572 | a file of a batch makes a difference exactly when it has a hidden end, or is not the first, is shown from its second line on, and context groups are separated |
| `GrepBatch.GroupReported` | lib/grep/grep_engine.cpp:884-997 | the output of a group, read against the contents of its files: names, line numbers and lines |
| `GrepBatch.GroupCompared` | lib/grep/grep_engine.cpp:884-997 | the search of a group never emits less than the single searches of its files, and more exactly when it is a batch of several one of which makes a difference |
| `GrepSystem.GrepPrints` | lib/grep/grep_engine.cpp:209-1121 | every fair run of the whole engine ends and finds a match exactly when the single searches do; unless quiet with a match, it has printed what they print, in the order of the files, if and only if no batch of several files has one that makes a difference, and more otherwise |
| `CsvParser.QuotedIsOdd` | lib/csv/csv_parser.cpp:46-47 | the reader is inside quotes exactly after an odd number of quotes |
| `CsvParser.EscapeMarks` | lib/csv/csv_parser.cpp:48 | an even quote followed by a quote is exactly the first half of an escaped quote |
| `CsvParser.StartEndMarks` | lib/csv/csv_parser.cpp:49-51 | start and end marks are the quotes that really open and close a quoted part |
| `CsvParser.BorrowIsInside` | lib/csv/csv_parser.cpp:52 | the borrow of the span runs exactly inside quotes and across escaped quotes |
| `CsvParser.SpanIsQuoted` | lib/csv/csv_parser.cpp:52 | away from quotes, the inclusive span is exactly what the reader takes as quoted |
| `CsvParser.ParseMatchesReader` | lib/csv/csv_parser.cpp:42-59 | for every text, with any escaped, adjacent or unterminated quotes, the three output streams mark exactly what the left-to-right reader finds (section 2 of RFC 4180) |
| `CsvParser.ParseWritten` | lib/csv/csv_parser.cpp:42-59 | parsing a written table finds exactly the written separators, whatever quoted fields contain |
| `StreamScan.ScanToAt` | lib/pablo/pablo_compiler.cpp:648-652 | ScanTo by addition puts a mark on the next stop position at or after it |
| `StreamScan.AdvanceThenScanToAt` | lib/pablo/pablo_compiler.cpp:658-662 | AdvanceThenScanTo by addition does so strictly after it |
| `StreamScan.SpanUpToAt` | lib/pablo/pablo_compiler.cpp:868-871 | SpanUpTo by subtraction marks from each start up to before its stop |
| `CsvColumns.FieldRank` | lib/csv/csv_parser.cpp:114-121 | field starts are numbered from the start of their record by the column number |
| `CsvColumns.AdvanceColumns` | lib/csv/csv_parser.cpp:120-122 | indexed advance by d over the field starts leads from the starts of column c to those of column c + d |
| `CsvColumns.AdvanceOneColumn` | lib/csv/csv_parser.cpp:120-122 | so does the form used for an advance by one |
| `CsvColumns.ColumnFollowAndMask` | lib/csv/csv_parser.cpp:123-124 | from the starts of a column: exactly its separators, and exactly its bytes |
| `CsvColumns.NextColumnStarts` | lib/csv/csv_parser.cpp:126-127 | stepping over the separators of a column reaches the starts of the next |
| `CsvColumns.SelectColumn` | lib/csv/csv_parser.cpp:119-133 | one round of the loop adds exactly one column |
| `CsvColumns.SelectMultiField` | lib/csv/csv_parser.cpp:110-135 | for any list of columns, the mask keeps exactly the fields of the columns reached, with their following separators, or in cut mode the record separator in place of the last one |
| `CsvColumns.SelectedExactly` | lib/csv/csv_parser.cpp:118-127 | the columns reached are those of the list if and only if the list is strictly increasing |
| `CsvCut.GetColumnArgs` | lib/csv/csv_cmdline.cpp:146-175 | the columns of all ranges in order, or the message about the first range that is not accepted |
| `CsvCut.SelectedAsAsked` | lib/csv/csv_cmdline.cpp:166-168 | the columns selected for an accepted request are those asked for if and only if no range starts where the one before it ended |
| `CsvCut.ColumnTwice` | lib/csv/csv_cmdline.cpp:166-168 | asking for column 1 twice is accepted and selects columns 1 and 2 |
| `CsvCut.FieldTaken` | lib/csv/csv_parser.cpp:119-133 | what is left of a field and its separator, by the column and whether it ends the record |
| `CsvCut.RecordTaken` | lib/csv/csv_parser.cpp:110-135 | what is left of a record: the fields picked, written with delimiters between them and the right end |
| `CsvCut.TableReaches` | lib/csv/csv_parser.cpp:42-59 | if all records written have the columns, so have the records found by the parser |
| `CsvCut.PickedIs` | lib/csv/csv_parser.cpp:119-133 | the fields picked are those at the column numbers, in order |
| `CsvCut.SelectColumns` | tools/csv/csvgrep.cpp:243-246 | parsing, selecting and filtering a written table leaves the selected columns |
| `CsvCut.CsvCut` | tools/csv/csvcut.cpp:74-94 | cutting a written table gives the table written with the selected columns only, whatever delimiters, quotes and line feeds enclosed fields contain |
| `PackHalves.StepLowAt` | lib/idisa/idisa_i64_builder.cpp:29-33 | a step moves the low halves of odd fields next to those of even fields |
| `PackHalves.HsimdPackl` | lib/idisa/idisa_i64_builder.cpp:26-36 | for a word of two or more fields: the low halves of all fields of a, then of b, in order; for a single field: the unmasked combination |
| `PackHalves.HsimdPackh` | lib/idisa/idisa_i64_builder.cpp:14-24 | likewise for the high halves |
| `PackHalves.LowResult` | lib/idisa/idisa_i64_builder.cpp:29-35 | once all steps are done the final combination is exactly the packed low halves |
| `PackHalves.HighResult` | lib/idisa/idisa_i64_builder.cpp:17-23 | likewise for the high halves |
| `PackHalves.SingleFieldLow` | lib/idisa/idisa_i64_builder.cpp:26-36 | with a single field the result is the packed low halves if and only if the high half of a is contained in the low half of b |
| `PackHalves.SingleFieldHigh` | lib/idisa/idisa_i64_builder.cpp:14-24 | likewise for the high half |
| `MergeSplit.MergeAt` | lib/audio/stream_manipulation.cpp:37-41 | field f of a merged word is field f / 2 of the one operand or the other, by parity |
| `MergeSplit.MergeBlock` | lib/audio/stream_manipulation.cpp:28-46 | the pack loop writes two merged packs per pair of input packs |
| `MergeSplit.Split2Block` | lib/audio/stream_manipulation.cpp:83-98 | the pack loop writes the packed low and high halves of every pair of packs |
| `MergeSplit.MergedSample` | lib/audio/stream_manipulation.cpp:28-46 | sample g of a merged block is sample g / 2 of the first stream when g is even, of the second when it is odd |
| `MergeSplit.SplitSample` | lib/audio/stream_manipulation.cpp:83-98 | sample g of the two streams of a split block are samples 2 * g and 2 * g + 1 of the block, for packs of two wide fields or more |
| `MergeSplit.SplitUndoesMergeBlock` | lib/audio/stream_manipulation.cpp:37-98 | splitting a merged block gives back both blocks |
| `MergeSplit.MergeThenSplit` | lib/audio/stream_manipulation.cpp:23-106 | merging two streams and splitting the result gives them back, for one block or any more |
| `MergeSplit.TwoSamplePacks` | lib/audio/stream_manipulation.cpp:94-95 | with packs of just two samples this holds if and only if the high sample of the first pack equals the low sample of the second |
| `StreamNotation.SpellingParses` | include/testing/stream_parsing.hpp:286-371 | every text that spells a tree, with any white space before tokens, either case of digits and leading zeros, is parsed to that tree |
| `StreamNotation.ItemParsed` | include/testing/stream_parsing.hpp:318-339 | the text of one item, repetitions of any depth included, adds its tree at the end of the list |
| `NotationLanguage.ParsesExactly` | include/testing/stream_parsing.hpp:286-371 | a text is parsed to a tree if and only if it spells the tree: no empty groups, no white space at the end, numbers that fit an int, a repetition only after an item |
| `NotationLanguage.ItemsSound` | include/testing/stream_parsing.hpp:341-353 | whatever the loop of a group or of the text has parsed is spelled by the characters it has taken |
| `NotationLanguage.ExpressionSound` | include/testing/stream_parsing.hpp:318-339 | likewise for one expression |
| `NotationLanguage.ParsePrinted` | include/testing/stream_parsing.hpp:286-382 | parsing the printed form of any tree with non-empty groups, nested repetitions included, gives the tree |
| `NotationDigits.HexDigits` | include/testing/stream_parsing.hpp:161-187 | a hexadecimal digit has value v exactly when it is character v of 0123456789abcdef or of 0123456789ABCDEF |
| `NotationDigits.BinaryDigits` | include/testing/stream_parsing.hpp:161-187 | a binary digit is one exactly for the character 1, and zero exactly for 0 and the full stop |
| `NotationDigits.Spaces` | include/testing/stream_parsing.hpp:226-250 | exactly the characters of isspace are skipped |
| `NotationDigits.UpperParses` | include/testing/stream_parsing.hpp:286-382 | a text and its upper-case form are parsed alike, trees and errors |
| `NotationDigits.CountLimit` | include/testing/stream_parsing.hpp:253-270 | a repetition count is accepted exactly below two to the 31st |
| `NotationErrors.RefusedExactly` | include/testing/stream_parsing.hpp:286-371 | a text is refused with a given error if and only if it is complete items and groups opened one within the other, complete items before each, followed by what that error is about: an early end, a faulty repetition, a brace or parenthesis out of place, or a character that is no digit |
| `NotationErrors.MissingExactly` | include/testing/stream_parsing.hpp:341-353 | what makes the parser use a token that is not there is a group with items followed by white space only |
| `NotationErrors.EmptyGroupRefused` | include/testing/stream_parsing.hpp:341-353 | the text () is refused |
| `NotationErrors.TrailingSpaceRefused` | include/testing/stream_parsing.hpp:293-298 | white space after the last item is refused |
| `NotationErrors.NestedRepetitionAccepted` | include/testing/stream_parsing.hpp:318-339 | the text 1{2}{3} is a repetition repeated |
| `NotationErrors.UnclosedGroupUsesMissingToken` | include/testing/stream_parsing.hpp:345-346 | the text (1 makes the parser use a token that is not there |
| `NotationParser.Tokenizer.Emit` | include/testing/stream_parsing.hpp:226-250 | returns the buffered token or the next token of the text, and moves past it |
| `NotationParser.Tokenizer.EmitNumber` | include/testing/stream_parsing.hpp:253-270 | reads a number, fails where there is none or where std::stoi throws, and withdraws the request for a number |
| `NotationParser.Tokenizer.Peek` | include/testing/stream_parsing.hpp:221-224 | returns the next token and leaves it the next token |
| `NotationParser.Parser.ParseExpression` | include/testing/stream_parsing.hpp:318-339 | takes one expression of the text and changes the list as `ExpressionAt` says |
| `NotationParser.Parser.ParseGroup` | include/testing/stream_parsing.hpp:341-353 | takes the rest of a group up to its closing parenthesis; a group that is not closed ends in the use of a missing token |
| `NotationParser.Parser.ParseRep` | include/testing/stream_parsing.hpp:355-367 | takes back the last item of the list and repeats it |
| `NotationParser.Parser.Parse` | include/testing/stream_parsing.hpp:293-298 | terminates on every text with the result `Parse` |
| `NotationParser.ParseText` | include/testing/stream_parsing.hpp:378-382 | the parser as it runs gives the result `Parse` on every text |
| `NotationDecoders.ParsedFits` | include/testing/stream_gen.hpp:233-247 | the digits of a parsed tree belong to the base, so they never reach beyond their bits of a byte |
| `NotationDecoders.BitDecoder.Feed` | include/testing/stream_gen.hpp:239-246 | the full bytes and the byte under construction hold exactly the digits fed so far |
| `NotationDecoders.BitDecoder.Walk` | include/testing/stream_parsing.hpp:89-103 | feeds the digits of the tree in order, a repetition as often as it says |
| `NotationWalk.WalkRep` | include/testing/stream_parsing.hpp:89-103 | the walk of a repetition is as many times as long as that of its body, and item i of it is item i modulo that length |
| `NotationWalk.WalkGroup` | include/testing/stream_parsing.hpp:89-103 | the walk of a group is the walks of its items, one after the other |
| `NotationWalk.DecodedWell` | include/testing/stream_gen.hpp:227-287 | decoded bytes hold the walk of the parsed tree, bit by bit, each digit with the bits of the base, low bit first |
| `NotationWalk.HexDigitText` | include/testing/stream_gen.hpp:233-247 | one hexadecimal digit decodes to its four bits |
| `NotationWalk.BinaryDigitText` | include/testing/stream_gen.hpp:233-247 | one binary digit decodes to its bit |
| `NotationWalk.TextsJoined` | include/testing/stream_gen.hpp:227-287 | two texts put one after the other decode to the one stream after the other |
| `NotationWalk.TextRepeated` | include/testing/stream_gen.hpp:227-287 | a text followed by a count in braces decodes to that many copies of the stream: length and every bit |
| `NotationWalk.TextGrouped` | include/testing/stream_gen.hpp:227-287 | a text in parentheses decodes to the same stream |
| `NotationDecoders.BitAdded` | include/testing/stream_gen.hpp:273-281 | a digit adds exactly its own bits after those of the digits before it |
| `NotationDecoders.Decode` | include/testing/stream_gen.hpp:227-287 | bit i of the expanded walk is bit i % 8 of byte i / 8, the rest of the last byte is zero, and the length is that of the stream |
| `StreamSets.CommonLengthMeans` | include/testing/stream_gen.hpp:310-323 | the length check passes exactly when every stream can be decoded and to the same length |
| `StreamSets.DecodeSet` | include/testing/stream_gen.hpp:305-353 | decodes all streams and interleaves them, or reports the first failure |
| `StreamSets.SetReports` | include/testing/stream_gen.hpp:310-323 | the first stream that cannot be decoded, or not to the length of the first one, decides what is reported: its own error or the uneven length |
| `StreamSets.SetSize` | include/testing/stream_gen.hpp:325-350 | nothing follows the last slot: one slot per stream and block |
| `StreamSets.InterleaveAll` | include/testing/stream_gen.hpp:339-350 | the three nested loops write the chunks of every pass in stream order |
| `StreamSets.PushChunk` | include/testing/stream_gen.hpp:341-348 | one chunk of one stream, zero past its end |
| `StreamSets.ItemPlace` | include/testing/stream_gen.hpp:305-353 | item b of stream s lies in slot (block * number of streams + s), at its place in the block; past the end of the stream it is zero |
| `BranchEscape.WithinMeans` | lib/pablo/branch.cpp:21-32 | a block is nested in a body exactly when some chain of blocks, each the block of the branch around the one before, leads from it to the body |
| `BranchEscape.BeforeMeans` | lib/pablo/branch.cpp:34-66 | a statement comes before another exactly when such a chain leads from the block of the other one to its block, and leaves for it through a statement that stands after it |
| `BranchEscape.InBody` | lib/pablo/branch.cpp:21-32 | the walk over predecessors finds the body exactly when the assignment is nested in it |
| `BranchEscape.Precedes` | lib/pablo/branch.cpp:39-52 | the two-pointer walk terminates and decides which of two statements of one list comes first |
| `BranchEscape.Dominates` | lib/pablo/branch.cpp:34-66 | the walk over enclosing branches finds exactly the assignments that stand before the branch or before a branch around it |
| `BranchEscape.NotBoth` | lib/pablo/branch.cpp:22-31 | no assignment is both in the body and before the branch, so skipping the second test loses nothing |
| `BranchEscape.Visit` | lib/pablo/branch.cpp:18-74 | one user sets exactly the flags it should |
| `BranchEscape.Escapes` | lib/pablo/branch.cpp:14-76 | the search, stopping early, decides `EscapesFrom` |
| `BranchEscape.EscapesMeans` | lib/pablo/branch.cpp:14-76 | in any order of users: some assignment is nested in the body, and some kernel use or earlier assignment in an enclosing block exists |
| `BranchEscape.EscapesWrongly` | lib/pablo/branch.cpp:14-76 | the search says that a variable escapes though its value does not if and only if the users on one side, in the body or outside, merely read it and there is a user on the other side; it never errs the other way |
| `BranchEscape.GetEscaped` | lib/pablo/branch.cpp:81-92 | the numbers returned are strictly increasing, and exactly those of the variables with some user in the body and some user outside |
| `BranchEscape.NoReaders` | lib/pablo/branch.cpp:19-22 | so when no assignment merely reads the variable, it escapes exactly when it is given a value in the body and has one before the branch |
| `BranchEscape.ReaderEscapes` | lib/pablo/branch.cpp:19-22 | a concrete program in which a variable that is only read is said to escape |
| `SymbolGenerator.RetryName` | lib/pablo/symbol_generator.cpp:32-47 | the buffer filled backwards holds exactly the prefix, an underscore and the decimal counter |
| `SymbolGenerator.IssuedName` | lib/pablo/symbol_generator.cpp:14-50 | whatever was asked for before, the name given out is the prefix, perhaps with underscores and decimal numbers put behind it |
| `SymbolGenerator.NumberedFromOne` | lib/pablo/symbol_generator.cpp:14-50 | when one prefix is asked for again and again, the i-th further name is the prefix, an underscore and the decimal digits of i |
| `SymbolGenerator.LongerShrinks` | lib/pablo/symbol_generator.cpp:48 | colliding prefixes strictly grow, which ends the recursion |
| `SymbolGenerator.Issue` | lib/pablo/symbol_generator.cpp:14-50 | the name given out is new, starts with the prefix, and is the only name added |
| `SymbolGenerator.Generator.MakeString` | lib/pablo/symbol_generator.cpp:14-50 | terminates and changes the counters as `Issue` says |
| `SymbolGenerator.NamesAreUnique` | lib/pablo/symbol_generator.cpp:14-50 | over any sequence of requests no name is given out twice |
| `SymbolGenerator.NumberedNames` | lib/pablo/symbol_generator.cpp:14-50 | asking for one prefix again and again gives the prefix, then the prefix numbered from one |
| `SymbolGenerator.Generator.GetInteger` | lib/pablo/symbol_generator.cpp:52-64 | the node kept for the value and width, or a new one that is kept from then on |
| `SymbolGenerator.TwoIntegers` | lib/pablo/symbol_generator.cpp:52-64 | two requests give one node exactly when value and width agree, whatever is requested in between |

## Left out

- LLVM IR construction, types and intrinsic lookup: only the emitted arithmetic is modelled.
- Shifts by the full width of a word are taken as zero; LLVM leaves their result undefined.  The code applies them to empty lanes, and `BitblockIndexedAdvance` with a shift of zero also to an index lane without a gap, but Pablo makes no indexed advance by zero.  In `CompressByPlanes` the undefined shift is an arbitrary value instead.
- Z3 itself: the solver is an oracle that gives right answers, names an unsatisfiable core, or gives up; the optimizer variant of the proxy is not modelled.
- DoMaxSat: assumes fewer than 2^31 soft constraints, since from 2^32 on the comparison formula is wrong.
- Z3MaxSat: likewise.
- GrepScheduler: threads take sequentially consistent steps; weaker memory orders and searching standard input are not modelled.
- Reading files: openings and reads succeed, files are not binary and the scan kernel reports the lines it should; match limits and the remaining-files recursion of doGrep are not modelled.
- LoadBatch: every file can be opened and read, and none is skipped as binary.
- ScanBatch: the streams of matches and line breaks are taken by the lines they mark, and which lines match is a parameter; the word masks and popcounts inside a stride are not modelled.
- DoGrepSingle: leaves out failing reads, binary files and match limits.
- DoGrepBatch: likewise.
- DoGrep: likewise, and the recursion over remaining files, which groups made by formFileGroups never need.
- GrepPrints: files of known sizes below 2^63, with the same omissions; standard input is left out.
- EmitMatch: whether a line is shown is decided by the line alone in DoGrep and GrepPrints; with context it depends on the lines around it, as GrepContext says, in a batch also on those of other files.
- ContextSpan: one position for every line; the spreading of the marks back to the bytes of the lines is not modelled.
- GroupsArePacked: sizes and the batch size stay below 2^63, as file offsets are signed.
- LongAddIsAddition: one call; reuse of the shared arrays by a call that follows without a barrier is not modelled.  The same holds for LongAdvanceIsAdvance.
- LongAdvanceIsAdvance: shifts from one bit to just below a lane, since LLVM leaves shifts by a whole lane undefined.
- ParseMatchesReader: the quote character differs from the line feed and the delimiter.
- SelectMultiField: every record has more fields than the last column reached, which is what callers provide for.
- CsvCut: the table is written with a line feed after every record, and no bare field holds a quote, delimiter or line feed; the same for SelectColumns.
- GetColumnArgs: columns are given by number; names, the parsing of ranges and the comparison of their ends as strings are not modelled.
- Pablo statements are whole-stream operations; how the carry manager cuts them into blocks is not modelled.
- MergeStreams and SplitStream: one block or more, since the block loop tests at its end; a call for no blocks is not modelled.
- mvmd_srl and mvmd_sll of lanes wider than 32 bits on AVX2 multiply the shift and move 32-bit lanes; the product and its width are not modelled.
- The AVX-512 compress by planes differs from the AVX2 one in the second, zero table of its shuffle only; native compress and expand instructions are the reference functions themselves.
- SVE2 simd_pext and simd_pdep, simd_ternary, popcounts and the wide packs of the other instruction sets: lane-local or finite.
- RetryName: counters are unbounded here, 64 bits wide in the code.
- DecodeSet: lengths are exact numbers; the code computes them in double precision, exact below 2^53.  The length -1 of an empty set is returned as a size_t by the code.
- text_decoder, regular-expression compilation, UTF-8 kernels, BixNum code, colorization, the object cache and command-line handling.

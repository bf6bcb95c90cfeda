# Advent of Code 2024 solvers, modelled in Dafny

This project models thirteen puzzle solvers (days 1 to 13) from a Rust Advent of Code 2024
repository, plus the helpers they share.

- Each solver becomes one module, and the helpers of `src/lib.rs` become one more.
  - Loops in the source become methods with loop invariants.
  - Objects that are updated in place become classes: `FilterOnce` and the disk `Block`.
  - Arrays that are swapped in place stay arrays: the day 9 disk.
  - Pure matches, iterator pipelines and parser combinators become functions.
- Each method is proved against a specification function written without loops or mutation. Lemmas then state the properties the solvers promise:
  - round trips and bounds;
  - permutations and partitions;
  - invariants and equivalences.

| file | module | source |
|---|---|---|
| `common.dfy` | `Common` | shared `Option`, sums over sets and sequences |
| `text.dfy` | `Text` | digits, `digit1`, `tag`, trimming, splitting, lines, substring search |
| `helpers.dfy` | `Helpers` | `src/lib.rs`: `count_element_function`, `FilterOnce` |
| `locations.dfy` | `LocationLists` | `src/bin/01.rs` |
| `reports.dfy` | `RedNosedReports` | `src/bin/02.rs` |
| `mull.dfy` | `MullItOver` | `src/bin/03.rs` |
| `ceres.dfy` | `CeresSearch` | `src/bin/04.rs` |
| `queue.dfy` | `PrintQueue` | `src/bin/05.rs` |
| `guard.dfy` | `GuardGallivant` | `src/bin/06.rs` |
| `bridge.dfy` | `BridgeRepair` | `src/bin/07.rs` |
| `antennas.dfy` | `ResonantCollinearity` | `src/bin/08.rs` |
| `disk.dfy` | `DiskFragmenter` | `src/bin/09.rs` |
| `grid.dfy` | `Grid` | the dense map shared by `src/bin/10.rs` and `src/bin/12.rs` |
| `trails.dfy` | `HoofIt` | `src/bin/10.rs` |
| `stones.dfy` | `Stones` | `src/bin/11.rs` |
| `garden.dfy` | `GardenGroups` | `src/bin/12.rs` |
| `claws.dfy` | `ClawContraption` | `src/bin/13.rs` |

Integers are unbounded. Where the source's fixed-width arithmetic matters, the
model writes it out: the `as usize` cast of day 13, and the u32 bound of the
`mul` arguments of day 3. Elsewhere the model uses `int`/`nat`, and the cases
where the source would overflow or underflow are listed below.

## Model

| member | source | states |
|---|---|---|
| Helpers.CountElements | src/lib.rs:6-18 | the keys are exactly the distinct items, and each count is the item's number of occurrences |
| Helpers.CountsSum | src/lib.rs:13-15 | the counts of the distinct items add up to the length of the input |
| Helpers.FilterOnce.constructor | src/lib.rs:28-38 | a fresh iterator is not done and will yield the input with its first failing element removed |
| Helpers.FilterOnce.Next | src/lib.rs:47-60 | each call yields the head of what is left to yield; `done` never resets, and once set the inner elements pass straight through; None only at the end |
| Helpers.FilterOnce.Collect | src/lib.rs:40-60 | draining the iterator yields exactly what was left to yield |
| Helpers.RemoveFirstFailing | src/lib.rs:47-60 | what `filter_once` yields is at most one element shorter than the input |
| Helpers.AllPassKeepsAll | src/lib.rs:50-52 | when every element passes the predicate, the output equals the input |
| Helpers.FirstFailingRemoved | src/lib.rs:47-60 | the output is the input with exactly the first failing element removed, order kept |
| Helpers.FilterOnce.SizeHint | src/lib.rs:62-65 | the bounds enclose the number of elements still to come |
| LocationLists.ParsePairShape | src/bin/01.rs:7-14 | a line without a space gives no pair; a pair comes from the two trimmed halves around the first space, read as signed integers |
| LocationLists.PairsFromLines | src/bin/01.rs:6-15 | every pair comes from some input line; malformed lines are skipped |
| LocationLists.ParsePair | src/bin/01.rs:8-14 | one line read as two i64 around its first space; `LocationLists.ParsePairShape` states which lines give a pair and from what |
| LocationLists.PairsAppend | src/bin/01.rs:6-15 | the pairs of joined line lists are the joined pairs |
| LocationLists.SortSorts | src/bin/01.rs:17-18 | the sort returns an ascending permutation of its input |
| LocationLists.InsertPermutes | src/bin/01.rs:17-18 | an insertion adds exactly the inserted element |
| LocationLists.InsertSorted | src/bin/01.rs:17-18 | an insertion keeps a sorted list sorted |
| LocationLists.Sort | src/bin/01.rs:17-18 | keeps the length; `LocationLists.SortSorts` proves the result ascending and a permutation of the input |
| LocationLists.SortedUnique | src/bin/01.rs:17-18 | two sorted lists with the same elements are equal, so the sorted columns depend only on their multisets |
| LocationLists.PermutationInvariant | src/bin/01.rs:17-24 | the answer is unchanged under any permutation of the input lines |
| LocationLists.ColumnsSymmetric | src/bin/01.rs:17-24 | the answer is symmetric in the two columns |
| LocationLists.ZeroIffSameIds | src/bin/01.rs:17-24 | the answer is zero exactly when the two columns hold the same multiset |
| LocationLists.DistanceZero | src/bin/01.rs:20-24 | the sum of absolute differences is zero exactly when the two lists are equal |
| LocationLists.DistanceSymmetric | src/bin/01.rs:20-24 | the sum of absolute differences does not depend on the order of the lists |
| LocationLists.PartOne | src/bin/01.rs:5-25 | the summed distance of the two sorted columns; `LocationLists.PermutationInvariant`, `LocationLists.ColumnsSymmetric` and `LocationLists.ZeroIffSameIds` state what it promises |
| RedNosedReports.AreAllElementsEqual | src/bin/02.rs:22-27 | false on the empty slice, else true exactly when every element equals the first |
| RedNosedReports.Diffs | src/bin/02.rs:30-33 | one difference per window, each `data[i] - data[i+1]` |
| RedNosedReports.Signs | src/bin/02.rs:35 | the signum of every difference |
| RedNosedReports.AccumulateSafe | src/bin/02.rs:29-46 | the fold step; `RedNosedReports.AccumulateSafeCounts` proves it adds 1 exactly for a strictly monotone report with steps 1 to 3 |
| RedNosedReports.AccumulateSafeCounts | src/bin/02.rs:29-46 | `accumulate_safe` adds 1 exactly when the report is strictly monotone with steps 1 to 3, else it keeps the accumulator |
| RedNosedReports.ShortReportUnsafe | src/bin/02.rs:30-38 | a report with fewer than two levels is never safe |
| RedNosedReports.SafeReversed | src/bin/02.rs:29-46 | safety is unchanged by reversing the report |
| RedNosedReports.DecreasingReversed | src/bin/02.rs:29-46 | a decreasing report reversed is increasing, and back |
| RedNosedReports.IncreasingReversed | src/bin/02.rs:29-46 | an increasing report reversed is decreasing, and back |
| RedNosedReports.PartOne | src/bin/02.rs:48-56 | the fold counts the safe reports, at most one per report |
| RedNosedReports.BestRemoval | src/bin/02.rs:62-66 | the inner fold is 1 exactly when removing one of the first `n` levels makes the report safe |
| RedNosedReports.Dampened | src/bin/02.rs:60-68 | a report contributes 1 exactly when it is safe or becomes safe after removing one level |
| RedNosedReports.PartTwo | src/bin/02.rs:58-73 | part two counts at least the reports part one counts, and at most one per report |
| MullItOver.ParseInteger | src/bin/03.rs:13-15 | a digit run that fits a u32, consuming input |
| MullItOver.ParseIntegerOfDigits | src/bin/03.rs:13-15 | on a run of digits followed by a non-digit, the parser returns the run's value exactly when it fits a u32, and fails otherwise |
| MullItOver.ParseIntegerReads | src/bin/03.rs:13-15 | what the parser consumed is a non-empty run of digits, the whole run, and the result is its value |
| MullItOver.ParseArgs | src/bin/03.rs:17-19 | consumes input; `MullItOver.ArgsShow` proves it reads back two printed u32 arguments |
| MullItOver.ArgsShow | src/bin/03.rs:17-19 | two u32 values printed with a comma between them are read back, and the text after them is left |
| MullItOver.ParseMultiply | src/bin/03.rs:17-27 | an instruction starts with `mul(` and consumes it and more |
| MullItOver.MultiplyShow | src/bin/03.rs:17-27 | `mul(a,b)` printed with two u32 arguments is read back as `(a, b)`, whatever text follows |
| MullItOver.MultiplyReads | src/bin/03.rs:17-27 | conversely, an accepted instruction is `mul(`, a run of digits, a comma, a run of digits and `)`, and the arguments are the runs' values |
| MullItOver.ParseWithGarbage | src/bin/03.rs:29-34 | each attempt consumes input, so `many0` ends |
| MullItOver.ParseMultiple | src/bin/03.rs:36-38 | `many0` over the attempts; `MullItOver.ParseFindsEveryInstruction` proves that, flattened, it yields every well-formed instruction in order |
| MullItOver.Parse | src/bin/03.rs:40-46 | the attempts with the failed ones dropped; `MullItOver.ParseFindsEveryInstruction` proves it is every well-formed instruction in order |
| MullItOver.InstructionsAfterMultiply | src/bin/03.rs:25-34 | a well-formed instruction at the front is found, and the scan goes on after it |
| MullItOver.InstructionsAfterFailedMultiply | src/bin/03.rs:29-34 | after a failed attempt the scan resumes just past that `mul(` and loses no instruction |
| MullItOver.ParseFindsEveryInstruction | src/bin/03.rs:29-46 | `parse` returns, in order, every well-formed `mul(a,b)` of the text |
| MullItOver.PartOne | src/bin/03.rs:48-54 | the sum of the products of every well-formed instruction |
| MullItOver.NoDontKeepsAll | src/bin/03.rs:77-81 | without a `don't()` the text is kept unchanged |
| MullItOver.Kept | src/bin/03.rs:56-84 | the kept text is never longer than the input |
| MullItOver.DropsFirstSpan | src/bin/03.rs:63-76 | the text before the first `don't()` is kept, the span up to the next `do()` is dropped inclusively, and the rest is treated alike |
| MullItOver.KeptStep | src/bin/03.rs:64-73 | one pass of the loop: the text before `don't()` is kept and scanning restarts after the matching `do()` |
| MullItOver.RemoveDontDo | src/bin/03.rs:56-84 | the loop builds exactly the text outside the `don't()`…`do()` spans, in order |
| MullItOver.PartTwo | src/bin/03.rs:86-90 | part two is part one on the kept text |
| CeresSearch.Parse | src/bin/04.rs:11-16 | one grid row per line of the input |
| CeresSearch.NegativeWordRange | src/bin/04.rs:18-30 | None exactly when `i < 3`, else the four indices ending at `i`, counting down |
| CeresSearch.PositiveWordRange | src/bin/04.rs:32-43 | Some exactly when `i + 4 <= max`, and then the four indices from `i`, all below `max` |
| CeresSearch.Repeat | src/bin/04.rs:53 | four copies of the index, as `[row; 4]` builds them |
| CeresSearch.SliceLeftDownDiagonal | src/bin/04.rs:45-50 | present exactly when the run fits, and then the run down and to the left |
| CeresSearch.SliceLeft | src/bin/04.rs:52-54 | present exactly when `col >= 3`, and then the run to the left |
| CeresSearch.SliceLeftUpDiagonal | src/bin/04.rs:56-58 | present exactly when `row >= 3` and `col >= 3`, and then the run up and to the left |
| CeresSearch.SliceUp | src/bin/04.rs:60-62 | present exactly when `row >= 3`, and then the run upwards |
| CeresSearch.Slices | src/bin/04.rs:64-71 | the four candidate runs from a cell, each in its own direction |
| CeresSearch.OneDirectionPerLine | src/bin/04.rs:64-71 | of every direction and its opposite, exactly one is among the four directions `slices` searches |
| CeresSearch.RunReversed | src/bin/04.rs:64-71 | a run read backwards is the run from its far end in the opposite direction |
| CeresSearch.Word | src/bin/04.rs:81-82 | the word holds the four grid cells of the run, in order |
| CeresSearch.MatchReversed | src/bin/04.rs:84 | a run matches XMAS or SAMX exactly when its reversal does |
| CeresSearch.RectangularReadsInGrid | src/bin/04.rs:78-82 | a rectangular grid with no more columns than rows is read in bounds |
| CeresSearch.Hits | src/bin/04.rs:80-87 | at most one hit per candidate run |
| CeresSearch.RowHitsBound | src/bin/04.rs:79-88 | at most four hits start from each cell |
| CeresSearch.CountXmas | src/bin/04.rs:76-89 | the nested loops count exactly the runs, over all cells, that spell XMAS or SAMX |
| CeresSearch.PartOne | src/bin/04.rs:73-92 | part one is that count over the parsed grid |
| CeresSearch.ToAsciiLower | src/bin/04.rs:95-96 | upper-case ASCII letters move down by 32; every other character is kept |
| CeresSearch.Mtc | src/bin/04.rs:94-97 | true exactly when the pair, lower-cased, is `m` and `s` in some order |
| CeresSearch.MtcSymmetric | src/bin/04.rs:94-97 | `mtc` is symmetric and ignores case |
| CeresSearch.Lower | src/bin/04.rs:95-96 | lower-casing applies to every character and keeps the length |
| CeresSearch.CrossHitIsXMas | src/bin/04.rs:106-117 | the test in the loop holds exactly when both diagonals spell MAS forwards or backwards, ignoring case |
| CeresSearch.CrossRowHitsInner | src/bin/04.rs:105-118 | at most one hit per inner column, and none on the border columns |
| CeresSearch.CountCrosses | src/bin/04.rs:102-119 | the nested loops count exactly the crossed MAS words among the inner cells |
| CeresSearch.PartTwo | src/bin/04.rs:99-122 | part two is that count over the parsed grid |
| CeresSearch.RectangularCrossReadsInGrid | src/bin/04.rs:104-113 | a non-empty rectangular grid is read in bounds by part two |
| PrintQueue.ParseU32 | src/bin/05.rs:20 | a u32 is a digit string whose value is below 2^32; anything else fails |
| PrintQueue.PagesOf | src/bin/05.rs:33 | unparsable pieces of an update line are dropped |
| PrintQueue.FirstBlankIsFirst | src/bin/05.rs:14-16 | the rules section ends at the first blank line |
| PrintQueue.AddRule | src/bin/05.rs:21-25 | a rule appends its second page to its first page's list and leaves every other list alone |
| PrintQueue.RulesOfMember | src/bin/05.rs:13-27 | a page pair is in the rule map exactly when some line of the rules section states it |
| PrintQueue.RunSections | src/bin/05.rs:11-35 | the loop's state machine returns the rules before the first blank line and the updates up to the next blank line |
| PrintQueue.Parse | src/bin/05.rs:5-38 | `parse` returns exactly the two sections of the input |
| PrintQueue.UpdateIsValid | src/bin/05.rs:40-53 | valid exactly when no page appears after a page that its rules say must come later |
| PrintQueue.IsValid | src/bin/05.rs:40-53 | no page comes after a page that its rules say must follow it; `PrintQueue.UpdateIsValid` proves the loop decides exactly this |
| PrintQueue.InvalidNotEmpty | src/bin/05.rs:40-53 | an update that breaks a rule has at least two pages |
| PrintQueue.IndexOf | src/bin/05.rs:74 | `position` finds the first occurrence, and None exactly when the page is absent |
| PrintQueue.Swap | src/bin/05.rs:75 | a swap exchanges two positions, leaves the rest, and permutes the update |
| PrintQueue.SubReorderUpdate | src/bin/05.rs:68-82 | the pass computes the repeated swaps of `sub_reorder_update` |
| PrintQueue.SwapEarlier | src/bin/05.rs:72-78 | the inner loop performs the swaps for one page's rules |
| PrintQueue.SubReorderPermutes | src/bin/05.rs:68-82 | a reordering pass permutes the update |
| PrintQueue.SubReorderValid | src/bin/05.rs:68-82 | a pass leaves a valid update unchanged |
| PrintQueue.ReorderSound | src/bin/05.rs:84-91 | a repaired update is valid, the same length, and a permutation; a valid update is returned as it is |
| PrintQueue.Reorder | src/bin/05.rs:84-91 | repair passes until the update is valid, within a fuel bound; `PrintQueue.ReorderSound` proves the repaired update valid and a permutation |
| PrintQueue.ReorderUpdate | src/bin/05.rs:84-91 | the loop of `reorder_update` runs within the given fuel |
| PrintQueue.PartsSplitUpdates | src/bin/05.rs:93-108 | when every update is valid, part two's sum is zero |
| PrintQueue.SumReorderedNone | src/bin/05.rs:93-108 | once one update cannot be repaired within the fuel, the whole sum is unavailable |
| PrintQueue.SumValidUpdates | src/bin/05.rs:57-65 | part one's loop adds the middle page of each valid update |
| PrintQueue.Middle | src/bin/05.rs:61 | the middle page `update[len / 2]` of a non-empty update; `PrintQueue.SumValidUpdates` proves part one adds it for each valid update |
| PrintQueue.SumReorderedUpdates | src/bin/05.rs:95-107 | part two's loop adds the middle page of each repaired invalid update |
| PrintQueue.PartOne | src/bin/05.rs:55-66 | part one is that sum over the parsed input |
| PrintQueue.PartTwo | src/bin/05.rs:93-108 | part two is that sum over the parsed input |
| BridgeRepair.OperationsFolder | src/bin/07.rs:32-39 | the first step combines both numbers; later steps combine the accumulator with the second number |
| BridgeRepair.Fold | src/bin/07.rs:68 | the fold is None exactly when there are no steps |
| BridgeRepair.Steps | src/bin/07.rs:52-56 | one step per window of adjacent numbers |
| BridgeRepair.FoldIsEvalLeft | src/bin/07.rs:67-68 | folding the steps evaluates the equation strictly left to right |
| BridgeRepair.AllOps | src/bin/07.rs:41-51 | 2^n operator sequences, each of length n |
| BridgeRepair.AllOpsComplete | src/bin/07.rs:41-51 | every operator sequence of the right length is generated |
| BridgeRepair.AllOpsDistinct | src/bin/07.rs:50-51 | no operator sequence is generated twice, as `unique` ensures |
| BridgeRepair.AnyHit | src/bin/07.rs:67-69 | the search succeeds exactly when some candidate folds to the target |
| BridgeRepair.SearchFindsSolvable | src/bin/07.rs:66-74 | the search succeeds exactly when some choice of `+` and `*` evaluates to the target |
| BridgeRepair.SolvableIsFound | src/bin/07.rs:66-74 | every solvable equation is found |
| BridgeRepair.LineValue | src/bin/07.rs:66-74 | a line adds its target exactly when it is solvable, else 0 |
| BridgeRepair.ShortLineContributesNothing | src/bin/07.rs:67-69 | a line with fewer than two numbers adds nothing, since no step folds to a value |
| BridgeRepair.PartOne | src/bin/07.rs:60-81 | part one is the sum of the targets of the solvable lines |
| ResonantCollinearity.Rows | src/bin/08.rs:18-23 | one row per line of the trimmed input |
| ResonantCollinearity.AddRowStep | src/bin/08.rs:23-40 | one iteration of the inner loop adds one antenna |
| ResonantCollinearity.AntennasOfStep | src/bin/08.rs:21-41 | one iteration of the outer loop adds one row |
| ResonantCollinearity.Parse | src/bin/08.rs:13-44 | the size and the antenna map are those of the trimmed lines |
| ResonantCollinearity.AddRowMember | src/bin/08.rs:23-40 | after a row, a frequency lists a coordinate exactly when it listed it before or the row holds that frequency there |
| ResonantCollinearity.AntennasOfMember | src/bin/08.rs:13-44 | a frequency lists a coordinate exactly when that cell holds the frequency and is not `.` |
| ResonantCollinearity.AntennasOfOrdered | src/bin/08.rs:21-41 | each frequency's coordinates come in reading order |
| ResonantCollinearity.AntennasDistinct | src/bin/08.rs:21-41 | no frequency lists a coordinate twice |
| ResonantCollinearity.Validate | src/bin/08.rs:46-56 | Some exactly when the coordinate is on the board, and then the coordinate itself |
| ResonantCollinearity.NearestShape | src/bin/08.rs:58-74 | two candidates: the reflections of each antenna through the other, kept when on the board |
| ResonantCollinearity.NearestSymmetric | src/bin/08.rs:58-74 | swapping the antennas swaps the two candidates |
| ResonantCollinearity.NearestAntinodes | src/bin/08.rs:58-74 | the two reflections, each kept when on the board; `ResonantCollinearity.NearestShape` and `ResonantCollinearity.NearestSymmetric` state this |
| ResonantCollinearity.RayShape | src/bin/08.rs:84-92 | each loop pushes on-board points and stops after its first off-board step |
| ResonantCollinearity.RayOnLine | src/bin/08.rs:84-92 | every point pushed lies a positive multiple of the step away from the start |
| ResonantCollinearity.RayComplete | src/bin/08.rs:84-92 | every multiple of the step reached before leaving the board is pushed |
| ResonantCollinearity.LineAntinodesShape | src/bin/08.rs:76-105 | both antennas, then the two rays, each closed by a None |
| ResonantCollinearity.LineAntinodesComplete | src/bin/08.rs:84-92 | every in-board point beyond the second antenna on the line is produced |
| ResonantCollinearity.LineAntinodes | src/bin/08.rs:76-105 | both antennas, then the two rays; `ResonantCollinearity.LineAntinodesShape` and `ResonantCollinearity.LineAntinodesComplete` state which points it holds |
| ResonantCollinearity.LineAntinodesLoops | src/bin/08.rs:76-105 | the two `while let` loops build exactly that list |
| ResonantCollinearity.NearestOnLine | src/bin/08.rs:58-105 | every nearest antinode is also a line antinode |
| ResonantCollinearity.PairsUpToComplete | src/bin/08.rs:114 | every ordered pair of distinct indices is enumerated |
| ResonantCollinearity.UniqueSpec | src/bin/08.rs:117 | `unique` keeps each element once and drops nothing |
| ResonantCollinearity.AllAntinodesMember | src/bin/08.rs:107-119 | the antinodes of a frequency are distinct and are exactly those of its ordered pairs of antennas |
| ResonantCollinearity.AllAntinodes | src/bin/08.rs:107-119 | the distinct antinodes of one frequency; `ResonantCollinearity.AllAntinodesMember` proves they are exactly those of its ordered antenna pairs |
| ResonantCollinearity.PartOneAtMostPartTwo | src/bin/08.rs:121-141 | part one's antinodes are a subset of part two's, so its count is no larger |
| ResonantCollinearity.PartOne | src/bin/08.rs:121-130 | part one counts the distinct nearest antinodes over all frequencies |
| ResonantCollinearity.PartTwo | src/bin/08.rs:132-141 | part two counts the distinct line antinodes over all frequencies |
| GuardGallivant.NextPosition | src/bin/06.rs:35-78 | the cell one step ahead, and None exactly when that step would leave the board |
| GuardGallivant.FourTurns | src/bin/06.rs:86-91 | four right turns return to the start heading; one, two or three do not |
| GuardGallivant.NextDirection | src/bin/06.rs:80-95 | a turn to the right exactly when the cell ahead is an obstacle |
| GuardGallivant.Advance | src/bin/06.rs:176-192 | one pass of the loop: None exactly when the step leaves the board; otherwise a right turn in place before an obstacle, or a step onto a free cell with the heading kept |
| GuardGallivant.Trace | src/bin/06.rs:176-192 | every state of the walk lies on the board |
| GuardGallivant.Step | src/bin/06.rs:176-192 | the walk never steps off the board: a state on the board leads to one on the board or to None |
| GuardGallivant.Obstruct | src/bin/06.rs:230-231 | the proposed board adds one obstacle and keeps the size and the guard |
| GuardGallivant.Footprint | src/bin/06.rs:204-208 | the visited cells are exactly the positions of the visited states |
| GuardGallivant.Periodic | src/bin/06.rs:181-183 | a state that repeats means the guard never leaves |
| GuardGallivant.StatesFree | src/bin/06.rs:185-192 | from a free start cell, the guard never stands on an obstacle |
| GuardGallivant.LoopsMeansStuck | src/bin/06.rs:181-183 | stopping on a recorded state means the guard never leaves |
| GuardGallivant.Recorded | src/bin/06.rs:170-196 | the states the loop records as written: the start and every state the guard steps into, none after a turn; `GuardGallivant.WalledInTurns` shows what that misses |
| GuardGallivant.StopsAsWritten | src/bin/06.rs:176-193 | the stopping test as written: the next step leaves the lab, or lands on a recorded state; `GuardGallivant.WalledInSpins` shows a guard for which it never holds |
| GuardGallivant.WalledInTurns | src/bin/06.rs:176-193 | as written, a guard walled in on four sides stays on its cell, only its start state is ever recorded, and the loop never stops |
| GuardGallivant.FollowGuard | src/bin/06.rs:170-196 | the corrected walk stops: Finite exactly when the guard leaves, Loops exactly when it never does, with every state it passed through |
| GuardGallivant.WalledInSpins | src/bin/06.rs:176-193 | as written, the loop never stops for a guard walled in on four sides, though the guard never leaves |
| GuardGallivant.StartPlacementTraps | src/bin/06.rs:219-233 | as written, the obstacle tried on the start cell traps the guard in the same endless turning; without it the count is 0 |
| GuardGallivant.BlockingSplit | src/bin/06.rs:226-240 | the blocking cells of a union split into those of its parts |
| GuardGallivant.BlockingAdd | src/bin/06.rs:226-240 | each candidate cell adds 1 to the count exactly when it traps the guard |
| GuardGallivant.FindLoops | src/bin/06.rs:218-245 | None exactly when the guard never leaves; otherwise the number of visited cells, start excepted, whose obstacle traps the guard |
| GuardGallivant.Heading | src/bin/06.rs:116-140 | a heading exactly for the four arrow characters |
| GuardGallivant.ObstaclesOfMember | src/bin/06.rs:141-143 | the obstacles are exactly the cells holding `#` |
| GuardGallivant.GuardOfSpec | src/bin/06.rs:114-140 | the guard is the last arrow in reading order, and None when there is none |
| GuardGallivant.Lab | src/bin/06.rs:149-159 | the board of a rectangular map with a guard; the guard is on the board and not on an obstacle |
| GuardGallivant.Parse | src/bin/06.rs:97-163 | None exactly when no guard is found; otherwise the board of the map |
| GuardGallivant.PartOne | src/bin/06.rs:198-216 | None exactly when there is no guard or it never leaves; otherwise the number of distinct cells it visits before leaving |
| GuardGallivant.PartTwo | src/bin/06.rs:247-255 | None exactly when there is no guard or it never leaves; otherwise the number of visited cells, start excepted, where one more obstacle traps it |
| DiskFragmenter.DiskMap | src/bin/09.rs:49-53 | the digits of the input, in order, each below 10; other characters are skipped |
| DiskFragmenter.Expand | src/bin/09.rs:54-62 | the expanded disk has one slot per unit of the map |
| DiskFragmenter.Slot | src/bin/09.rs:56-60 | an even digit position `i` is file `i / 2`; odd positions are free |
| DiskFragmenter.ExpandCount | src/bin/09.rs:49-62 | file `id` fills exactly as many slots as digit `2 * id` of the map says |
| DiskFragmenter.Settled | src/bin/09.rs:69 | once the pointers meet, no free slot precedes a file slot |
| DiskFragmenter.SeekFree | src/bin/09.rs:71-73 | the left pointer skips file slots only, and stops on a free slot or at the right pointer |
| DiskFragmenter.SeekFile | src/bin/09.rs:76-78 | the right pointer skips free slots only, and stops on a file slot or at the left pointer |
| DiskFragmenter.Swap | src/bin/09.rs:81 | `slice::swap` exchanges two slots and changes nothing else |
| DiskFragmenter.Pass | src/bin/09.rs:69-86 | one pass keeps the sweep invariant, and the right pointer never steps below zero |
| DiskFragmenter.FirstFree | src/bin/09.rs:71-73 | the first free slot: every slot before it holds a file; `|disk|` when there is none |
| DiskFragmenter.LastFile | src/bin/09.rs:76-78 | the last file slot: every slot after it is free; -1 when there is none |
| DiskFragmenter.CompactRef | src/bin/09.rs:64-86 | the reference compaction, which keeps the length: while the first free slot lies before the last file slot, the two are swapped |
| DiskFragmenter.CompactRefPermutes | src/bin/09.rs:64-86 | the reference only rearranges the slots |
| DiskFragmenter.CompactRefCompacted | src/bin/09.rs:64-86 | the reference leaves no free slot before a file slot |
| DiskFragmenter.CompactedFixed | src/bin/09.rs:69 | a compacted disk is its own compaction |
| DiskFragmenter.CompactRefStep | src/bin/09.rs:81 | swapping the first free slot with the last file slot does not change the compaction |
| DiskFragmenter.CompactRefKept | src/bin/09.rs:64-86 | the reference never moves a file already among the first `Files` slots |
| DiskFragmenter.SwapRef | src/bin/09.rs:69-86 | a pass of the loop, or its swap once the pointers meet, does not change the compaction |
| DiskFragmenter.Step | src/bin/09.rs:69-86 | a pass keeps the sweep invariant, brings the pointers closer, and does not change the compaction |
| DiskFragmenter.Compact | src/bin/09.rs:67-86 | the slots end exactly as `DiskFragmenter.CompactRef` of the input; they are permuted, no free slot precedes a file slot, and file slots already in the compacted prefix stay put |
| DiskFragmenter.Ids | src/bin/09.rs:91 | free slots count as zero in the checksum |
| DiskFragmenter.PartOne | src/bin/09.rs:48-94 | the answer is the checksum of `DiskFragmenter.CompactRef` of the expanded disk, a compacted permutation of it |
| DiskFragmenter.Checksum | src/bin/09.rs:88-93 | position times value, summed; `DiskFragmenter.ChecksumExample` and both parts' postconditions state it |
| DiskFragmenter.ExpandExample | src/bin/09.rs:49-62 | the map `12101` expands to file 0, two free slots, file 1, file 2 |
| DiskFragmenter.CompactExample | src/bin/09.rs:64-86 | that disk compacts to files 0, 2, 1 followed by two free slots |
| DiskFragmenter.IdsExample | src/bin/09.rs:91 | free slots count as 0 in the compacted example |
| DiskFragmenter.ChecksumExample | src/bin/09.rs:88-93 | the compacted example has checksum 4 |
| DiskFragmenter.Fresh | src/bin/09.rs:17-31 | an even position gives a File of `size` copies of id `id / 2`; an odd one gives a Free block of `size` slots |
| DiskFragmenter.Filled | src/bin/09.rs:33-39 | filling appends the data and keeps the capacity; the block becomes File when it has no room left |
| DiskFragmenter.Cleared | src/bin/09.rs:41-45 | clearing empties the block, marks it Free, and frees as many slots as it held data |
| DiskFragmenter.Block.constructor | src/bin/09.rs:17-31 | a new block holds the fields of `Fresh` |
| DiskFragmenter.Block.Fill | src/bin/09.rs:33-39 | the fields afterwards are those of `Filled` |
| DiskFragmenter.Block.Clear | src/bin/09.rs:41-45 | the fields afterwards are those of `Cleared` |
| DiskFragmenter.Initial | src/bin/09.rs:97-104 | one fresh block per digit of the map |
| DiskFragmenter.NewDisk | src/bin/09.rs:97-104 | the disk is made of distinct new blocks holding the initial values |
| DiskFragmenter.FileIdsUpdate | src/bin/09.rs:122-124 | replacing one block changes the file ids by exactly that block's data |
| DiskFragmenter.InitialLeftOnly | src/bin/09.rs:97-104 | every file starts in its own block, and every fresh block is consistent |
| DiskFragmenter.FirstFit | src/bin/09.rs:113-121 | the first block left of `right` marked Free with room for the file, or `right`; no earlier block fits |
| DiskFragmenter.FitUnique | src/bin/09.rs:113-121 | `DiskFragmenter.FirstFit` is the only index that fits and has no fitting block before it |
| DiskFragmenter.Moved | src/bin/09.rs:107-127 | one round on block `right`, keeping the length; `DiskFragmenter.MoveKeeps` and `DiskFragmenter.RoundsReorganised` state what a round keeps |
| DiskFragmenter.Rounds | src/bin/09.rs:106-128 | the reference for the file-move loop, keeping the length: the rounds on blocks `top` down to `r + 1` |
| DiskFragmenter.RoundsReorganised | src/bin/09.rs:106-128 | every run of rounds keeps each block's span and the file ids, and moves files only leftwards |
| DiskFragmenter.SelfReorganised | src/bin/09.rs:97-104 | a consistent disk with every file at or left of its starting block is reorganised with respect to itself |
| DiskFragmenter.StartReorganised | src/bin/09.rs:106-128 | from such a disk, all the rounds keep what `Reorganised` says |
| DiskFragmenter.InitialReorganised | src/bin/09.rs:96-128 | from the initial blocks, all the rounds keep each block's span and the file ids, and move files only leftwards |
| DiskFragmenter.FindRoom | src/bin/09.rs:113-126 | the inner loop finds `DiskFragmenter.FirstFit`: the first block left of `right` that can take the file, or `right` |
| DiskFragmenter.MoveFile | src/bin/09.rs:122-124 | the target block is filled with the file and the source block cleared; no other block changes |
| DiskFragmenter.MoveIds | src/bin/09.rs:122-124 | moving a file keeps the multiset of file ids on the disk |
| DiskFragmenter.MoveLeftOnly | src/bin/09.rs:122-124 | moving a file to the left keeps every file at or left of its starting block |
| DiskFragmenter.MoveKeeps | src/bin/09.rs:113-126 | a move keeps the disk reorganised: capacities, consistency, file ids, files only moved left |
| DiskFragmenter.Round | src/bin/09.rs:107-127 | one iteration of the outer loop performs exactly one more round of `DiskFragmenter.Rounds` |
| DiskFragmenter.MoveFiles | src/bin/09.rs:106-128 | the blocks end exactly as `DiskFragmenter.Rounds` of the starting blocks, one round per block from the last down to block 1 |
| DiskFragmenter.Layout | src/bin/09.rs:131-137 | the laid-out disk has one slot per unit of block capacity |
| DiskFragmenter.SlotsKept | src/bin/09.rs:106-128 | moving files changes no block's span, so the disk keeps its length |
| DiskFragmenter.InitialSlots | src/bin/09.rs:97-104 | the initial blocks span as many slots as the map's digits add up to |
| DiskFragmenter.PartTwo | src/bin/09.rs:96-141 | the answer is the checksum of the layout of `DiskFragmenter.Rounds` of the initial blocks; that disk is reorganised and its layout is as long as the expanded map |
| DiskFragmenter.Reorganise | src/bin/09.rs:97-128 | building the blocks and running the loop gives `DiskFragmenter.Rounds` of the initial blocks |
| DiskFragmenter.Rearranged | src/bin/09.rs:96-141 | those blocks are reorganised and their layout is as long as the digits add up to |
| DiskFragmenter.InitialExample | src/bin/09.rs:97-104 | the map `12101` gives file 0, two free slots, file 1, an empty free block, file 2 |
| DiskFragmenter.RoundsExample | src/bin/09.rs:106-128 | on that disk, file 2 moves into the free block, then file 1 behind it; file 0 stays |
| DiskFragmenter.LayoutExample | src/bin/09.rs:130-141 | the moved disk lays out as `0, 2, 1, 0, 0` |
| DiskFragmenter.MovesExample | src/bin/09.rs:96-141 | the map `12101` gives those blocks after the moves, with checksum 4 |
| Grid.CoordinateToIndex | src/bin/12.rs:48-54 | an index exactly for the cells on the map, and then one inside the data |
| Grid.IndexToCoordinate | src/bin/12.rs:37-46 | a cell exactly for the indices inside the data, and then one on the map |
| Grid.IndexRoundTrip | src/bin/12.rs:37-54 | converting an index to a cell and back gives the index |
| Grid.CoordinateRoundTrip | src/bin/12.rs:37-54 | converting a cell to an index and back gives the cell |
| Grid.Get | src/bin/12.rs:32-35 | a value exactly for the cells on the map |
| Grid.GetAt | src/bin/10.rs:20-26 | the value of a cell is the data at `row * n_cols + col` |
| Grid.Row | src/bin/12.rs:73-75 | one parsed value per character of a line |
| Grid.CellsAt | src/bin/12.rs:68-76 | the parsed data has `n_rows * n_cols` values, and cell (i, j) holds the parsed character j of line i |
| Grid.CellsLength | src/bin/12.rs:68-76 | the parsed data of a rectangular input has `n_rows * n_cols` values |
| Grid.Parse | src/bin/10.rs:136-164 | None exactly when there are no lines, a line's length differs from the first's, or a character fails to parse; otherwise the rows laid end to end |
| Grid.ParseGet | src/bin/12.rs:56-83 | reading a cell of the parsed map gives the parsed character at that line and column |
| Grid.Neighbourhood | src/bin/12.rs:85-123 | at most four neighbours |
| Grid.NeighbourhoodMember | src/bin/12.rs:85-123 | a cell is listed exactly when it is on the map and adjacent, and with the direction leading to it |
| Grid.NeighbourhoodDistinct | src/bin/12.rs:85-123 | no cell and no direction is listed twice |
| Grid.AllCellsCard | src/bin/12.rs:351-352 | the map has `n_rows * n_cols` cells |
| HoofIt.HighestBound | src/bin/10.rs:20-26 | no value exceeds the highest value of the data |
| HoofIt.HeightBound | src/bin/10.rs:20-26 | no cell is higher than the highest value in the data |
| HoofIt.Neighbours | src/bin/10.rs:47-73 | at most four neighbours |
| HoofIt.NeighboursMember | src/bin/10.rs:47-73 | the neighbours are exactly the adjacent cells on the map |
| HoofIt.ClimbInMember | src/bin/10.rs:92-98 | a neighbour is pushed exactly when it is one higher |
| HoofIt.ClimbMember | src/bin/10.rs:92-98 | the cells pushed from `v` are exactly the adjacent cells one higher |
| HoofIt.PushClimbs | src/bin/10.rs:92-98 | the inner loop appends exactly those cells to the stack |
| HoofIt.DescSelf | src/bin/10.rs:75-104 | a trailhead reaches itself |
| HoofIt.DescClimb | src/bin/10.rs:75-104 | what a trailhead reaches is closed under one more climb |
| HoofIt.DescWithin | src/bin/10.rs:75-104 | everything reached lies inside any climb-closed set holding the trailhead |
| HoofIt.ReachedAll | src/bin/10.rs:83-101 | a visited set that holds the trailhead, is closed under climbs and holds only reachable cells is exactly the reachable set |
| HoofIt.SearchEnd | src/bin/10.rs:83-103 | when the stack is empty, the visited 9s are exactly the 9s the trailhead reaches |
| HoofIt.Pop | src/bin/10.rs:83 | the stack is the rest followed by the top |
| HoofIt.DepthSearch1 | src/bin/10.rs:75-104 | the score: the number of distinct cells of height 9 reachable by climbs of one |
| HoofIt.DepthSearch2 | src/bin/10.rs:106-133 | the rating: the number of distinct climbing trails from the trailhead to a 9 |
| HoofIt.ScoreAtMostRating | src/bin/10.rs:75-133 | a trailhead's score never exceeds its rating |
| HoofIt.TrailheadsMember | src/bin/10.rs:39-45 | the trailheads are exactly the cells of height 0 |
| HoofIt.Trailheads | src/bin/10.rs:39-45 | the cells of height 0 in reading order; `HoofIt.TrailheadsMember` proves it holds exactly those cells |
| HoofIt.Digit | src/bin/10.rs:154 | a value exactly for the digits `0` to `9`, and at most 9 |
| HoofIt.ScoresAtMostRatings | src/bin/10.rs:166-182 | part one's sum never exceeds part two's |
| HoofIt.Topography | src/bin/10.rs:136-164 | the parsed map is valid |
| HoofIt.PartOne | src/bin/10.rs:166-173 | None exactly when the map does not parse; otherwise the sum of the trailheads' scores |
| HoofIt.PartTwo | src/bin/10.rs:175-182 | None exactly when the map does not parse; otherwise the sum of the trailheads' ratings |
| Stones.NumDigits | src/bin/11.rs:38 | a positive number has at least one digit |
| Stones.NumDigitsBounds | src/bin/11.rs:38 | `ilog10(k) + 1` is the number of decimal digits: 10^(d-1) <= k < 10^d |
| Stones.SplitRecombines | src/bin/11.rs:41-44 | the left and right halves put back together give the stone, and the right half is below the split power |
| Stones.Blink | src/bin/11.rs:35-50 | one blink turns a stone into one or two stones |
| Stones.BlinkAllAppend | src/bin/11.rs:34-52 | stones blink independently: a blink of a joined row is the joined blinks |
| Stones.IterateAppend | src/bin/11.rs:31-56 | any number of blinks of a joined row is the joined result |
| Stones.IterateLast | src/bin/11.rs:31-56 | one more blink is one more pass over the row |
| Stones.Iterate | src/bin/11.rs:31-56 | the row after `n` blinks; `Stones.IterateAppend`, `Stones.IterateLast` and `Stones.NeverShrinks` state its properties, and `Stones.Count` proves the tally loop computes its length |
| Stones.BlinkGrowth | src/bin/11.rs:34-52 | a blink adds one stone per stone with an even number of digits |
| Stones.NeverShrinks | src/bin/11.rs:31-56 | the row never gets shorter |
| Stones.UpdateOrCreate | src/bin/11.rs:14-22 | the entry for the key grows by the value, created at 0 if absent; every other entry is kept |
| Stones.UpdateWeight | src/bin/11.rs:14-22 | adding `val` to a key adds `val` times that key's weight to the weighted total |
| Stones.Tally | src/bin/11.rs:27-29 | the tally has a key for every stone and stands for the given row |
| Stones.BlinkIntoWeight | src/bin/11.rs:35-50 | filing a stone's count after one blink adds its count times the stones it becomes |
| Stones.BlinkCounts | src/bin/11.rs:32-55 | one pass over the tally stands for one more blink |
| Stones.SumValues | src/bin/11.rs:58 | the sum of the counts is the number of stones |
| Stones.Count | src/bin/11.rs:24-59 | the count after `n` blinks is the length of the row blinked `n` times |
| Stones.NextCounts | src/bin/11.rs:72-97 | the blink loop of `get_stone_count` stands for one more blink |
| Stones.GetStoneCount | src/bin/11.rs:61-104 | the alternative counter gives the same length |
| Stones.PartOne | src/bin/11.rs:106-113 | the number of stones after 25 blinks |
| Stones.PartTwo | src/bin/11.rs:115-122 | the number of stones after 75 blinks |
| GardenGroups.SameInMember | src/bin/12.rs:239-245 | the neighbours kept are exactly those with the same plant |
| GardenGroups.SameNeighboursMember | src/bin/12.rs:239-245 | the same-plant neighbours are exactly the alike adjacent cells |
| GardenGroups.ConnectedSameValue | src/bin/12.rs:225-264 | connected cells hold the same plant |
| GardenGroups.FloodIsComponent | src/bin/12.rs:225-264 | the cells a flood adds are exactly the start's region, and the visited set stays closed |
| GardenGroups.FloodVisit | src/bin/12.rs:226-262 | visiting a cell pushes its same-plant neighbours and keeps the flood invariant |
| GardenGroups.FloodEnd | src/bin/12.rs:225-264 | when the stack is empty, the flood has visited exactly the start's region |
| GardenGroups.AddCell | src/bin/12.rs:248-255 | each new cell adds its four sides minus its same-plant neighbours to the perimeter |
| GardenGroups.AddInner | src/bin/12.rs:256-257 | a cell with four same-plant neighbours is inner |
| GardenGroups.AddEdge | src/bin/12.rs:258-259 | any other cell is an edge |
| GardenGroups.PushAlike | src/bin/12.rs:238-248 | the inner loop pushes exactly the same-plant neighbours and counts them |
| GardenGroups.Visit | src/bin/12.rs:235-261 | visiting a cell pushes its same-plant neighbours and keeps the area, perimeter, inner and edge tallies |
| GardenGroups.Turn | src/bin/12.rs:226-262 | one pass of the loop keeps the flood invariant and the tallies, and either shrinks the cells left to visit or the stack |
| GardenGroups.GetRegion | src/bin/12.rs:210-278 | None from a visited cell; otherwise the flood visits exactly the start's region and reports its area, perimeter, inner and edge cells |
| GardenGroups.PerimeterPositive | src/bin/12.rs:266 | every region has a positive perimeter, so `get_region` reports it |
| GardenGroups.ScanStep | src/bin/12.rs:355-357 | a fresh cell adds a new region, and the regions found so far stay disjoint and cover the visited cells |
| GardenGroups.FloodRegion | src/bin/12.rs:210-278 | a flood from a fresh cell yields a region: exactly the new cells, its area their number, disjoint from the cells visited before |
| GardenGroups.ScanCell | src/bin/12.rs:353-357 | one turn of the scan keeps the found regions a partition of the visited cells and visits the cell |
| GardenGroups.ScanRow | src/bin/12.rs:352-358 | one row of the scan keeps the found regions a partition of the visited cells and visits the whole row |
| GardenGroups.ScanDone | src/bin/12.rs:346-362 | once every cell is visited, the regions partition the map and their areas add up to its size |
| GardenGroups.GetRegions | src/bin/12.rs:346-362 | the regions partition the map, and their areas add up to its size |
| GardenGroups.CornerStep | src/bin/12.rs:292-302 | each same-plant neighbour after the first adds a corner when its direction differs from the previous, and marks the previous |
| GardenGroups.WalkCell | src/bin/12.rs:291-305 | the inner loop adds the corners of the cell's neighbour list and marks all but the last neighbour |
| GardenGroups.SidesNext | src/bin/12.rs:285-305 | one more edge cell: skipped when marked or off the map, otherwise its corners are added and its neighbours marked |
| GardenGroups.CountSides | src/bin/12.rs:280-309 | the count is the corner scan over some order listing every edge cell once, and at most three per edge cell |
| GardenGroups.CellCorners | src/bin/12.rs:292-302 | the neighbours come in a fixed order with distinct directions, so a cell with k same-plant neighbours adds k - 1 corners (none when k is 0), at most three |
| GardenGroups.SidesBound | src/bin/12.rs:280-309 | at most three corners per edge cell |
| GardenGroups.Garden | src/bin/12.rs:56-83 | the parsed garden is a valid map with one row per line |
| GardenGroups.BulkTotal | src/bin/12.rs:374-377 | the fold adds each region's area times its corner count |
| GardenGroups.PartOne | src/bin/12.rs:364-370 | None exactly when the garden does not parse; otherwise the price of a partition into regions |
| GardenGroups.PartTwo | src/bin/12.rs:372-379 | None exactly when the garden does not parse; otherwise the bulk price of a partition into regions |
| ClawContraption.PrefixedNumber | src/bin/13.rs:33-39 | a successful read consumes the prefix and at least one digit |
| ClawContraption.ParseButton | src/bin/13.rs:41-67 | a successful read consumes input |
| ClawContraption.ParsePrize | src/bin/13.rs:69-89 | a successful read consumes input |
| ClawContraption.ParseMachine | src/bin/13.rs:91-100 | a successful read consumes input |
| ClawContraption.PrefixedNumberShow | src/bin/13.rs:33-39 | a prefix and a number are read back as that number |
| ClawContraption.ButtonShow | src/bin/13.rs:41-67 | a button line is read back as that button |
| ClawContraption.PrizeShow | src/bin/13.rs:69-89 | a prize line is read back as that prize |
| ClawContraption.MachineRoundTrip | src/bin/13.rs:91-100 | a machine's three lines are read back as that machine |
| ClawContraption.Multispace1 | src/bin/13.rs:103 | consumes at least one whitespace character and stops before the next non-blank |
| ClawContraption.ParseMachines | src/bin/13.rs:102-104 | a successful parse yields at least one machine |
| ClawContraption.MachinesRoundTrip | src/bin/13.rs:102-104 | machines written out with blank lines between them are read back as the same machines |
| ClawContraption.Cramer | src/bin/13.rs:150-152 | any solution satisfies Cramer's rule |
| ClawContraption.CramerBack | src/bin/13.rs:150-152 | the Cramer quotients solve the system when they are exact |
| ClawContraption.SolutionUnique | src/bin/13.rs:150-155 | with a non-zero determinant there is at most one solution |
| ClawContraption.WrapUsize | src/bin/13.rs:155 | the `as usize` cast keeps in-range values and wraps the rest modulo 2^64 |
| ClawContraption.ImprovedSolves | src/bin/13.rs:140-158 | as written, the solver answers exactly when an integer solution exists, with its cost wrapped to a usize, whatever its signs |
| ClawContraption.ImprovedAtSolution | src/bin/13.rs:140-158 | as written, a machine with a solution gets its cost wrapped to a usize |
| ClawContraption.Improved | src/bin/13.rs:140-158 | Cramer's rule in i64 with the cost cast to usize; `ClawContraption.ImprovedSolves` and `ClawContraption.ImprovedAtSolution` state when it answers and what |
| ClawContraption.NegativePressesWrap | src/bin/13.rs:154-155 | as written, a machine whose only solution presses A -3 times gets the answer 2^64 - 5 |
| ClawContraption.ImprovedCheckedSolves | src/bin/13.rs:140-158 | the corrected solver answers exactly when a solution with non-negative presses exists, with its cost |
| ClawContraption.CheckedAgrees | src/bin/13.rs:140-158 | both solvers agree when every solution is non-negative and its cost fits a usize |
| ClawContraption.ImprovedChecked | src/bin/13.rs:140-158 | the corrected solver; `ClawContraption.ImprovedCheckedSolves` and `ClawContraption.CheckedAgrees` state when it answers and what |
| ClawContraption.HitWithinLimits | src/bin/13.rs:116-117 | any hit presses each button fewer times than the loop bounds |
| ClawContraption.Consider | src/bin/13.rs:126-133 | the minimum so far, replaced by the new cost when it is lower |
| ClawContraption.ScanComplete | src/bin/13.rs:121-135 | after the loops, the answer is the cheapest hit with fewer than 100 presses of each button, or None when there is none |
| ClawContraption.NaiveFindMinimumToken | src/bin/13.rs:115-138 | None exactly when no hit has fewer than 100 presses of each button; otherwise the cost of such a hit that no other such hit undercuts, and, with a non-zero determinant, the improved solver's answer |
| ClawContraption.NaiveAgreesImproved | src/bin/13.rs:115-158 | with a non-zero determinant, any hit the naive search finds is the improved solver's answer |
| ClawContraption.TotalsAgree | src/bin/13.rs:201-214 | the as-written and corrected totals agree when no machine has a negative solution |
| ClawContraption.PartOne | src/bin/13.rs:201-214 | None exactly when the input does not parse; when no machine's solution presses a button a negative number of times, the total cost of the as-written solver |
| ClawContraption.OffsetAll | src/bin/13.rs:220-227 | one machine out per machine in |
| ClawContraption.OffsetKeepsSolvable | src/bin/13.rs:216-227 | the offset changes no determinant |
| ClawContraption.PartTwo | src/bin/13.rs:216-234 | as part one, on the machines whose prizes are moved by 10^13 |

## Left out

- Input and output: the `advent_of_code::solution!` macro, reading the puzzle files and printing answers are not modelled.
- Parsers of days 2, 7 and 11: the `nom` grammars that read numbers separated by spaces and newlines are not modelled. `RedNosedReports`, `BridgeRepair` and `Stones` take the parsed numbers, and their parse-failure `None` is not modelled.
- Fixed-width integers: `u32`, `usize` and `i64` arithmetic is modelled with unbounded integers, so overflow is not modelled, except in two places. The model keeps the `as usize` cast of day 13 and the u32 bound on the `mul` arguments of day 3.
  - The sums of products in day 3 and the checksums of day 9 cannot overflow in the model.
  - The `checked_add(...).unwrap()` on the day 13 offset cannot panic in the model.
- Sorting: the library sort of day 1 is modelled by an insertion sort. Its contract is the library's: an ascending permutation.
- Hash order: the output of `HashMap` and `HashSet` iteration is modelled as "some order". The day 8 counts are set sizes and do not depend on it. Day 12's `count_sides` is stated over every order that lists each edge cell once (`GardenGroups.CountSides`).
- Parallelism: the `rayon` parallel iterator of day 6 part two is modelled as a sequential count, which gives the same sum.
- Stubs: `part_two` of days 1 and 7 return `None` and are not modelled.
- Unused code: day 12's `parse_complex`, `search` and `get_sides` are not modelled, and neither is the `dbg!` output.
- Lengths: days 8, 10 and 12 measure line lengths with `str::len`, in bytes. The model measures them in characters, which is the same only for ASCII input.
- Example answers: the `#[cfg(test)]` example values are not restated as lemmas.
- MullItOver.RemoveDontDo: requires that every `don't()` is followed later by a `do()`, because the source loops forever otherwise. The same holds for `MullItOver.Kept` and `MullItOver.PartTwo`.
- MullItOver.PartOne: the text left over after the last instruction is dropped, as the source does with the remainder of `many0`.
- PrintQueue.PartOne: requires every update to be non-empty. The source indexes `update[update.len() / 2]` at src/bin/05.rs:61, which panics on an empty update, and an empty update is always valid, so it always reaches that index.
- PrintQueue.ReorderUpdate: takes a fuel bound on the number of repair passes. The source loops until the update is valid. `PrintQueue.ReorderSound` proves that a repair which ends is valid and a permutation, but the model does not prove that the passes always end.
- PrintQueue.PartTwo: takes the same fuel, and is None when some update is not repaired within it.
- CeresSearch.PartOne: requires that every cell the loops read is in the grid (`ReadsInGrid`). The source bounds the left-down diagonal by the row length, not by the number of rows, and panics on a grid with more columns than rows. `CeresSearch.RectangularReadsInGrid` shows the requirement holds on a rectangular grid with no more columns than rows.
- CeresSearch.PartTwo: requires that every cell the loops read is in the grid (`CrossReadsInGrid`). The source indexes out of bounds or underflows otherwise. `CeresSearch.RectangularCrossReadsInGrid` shows the requirement holds on any non-empty rectangular grid.
- GuardGallivant.Parse: requires a rectangular map, which the source asserts. The same holds for `GuardGallivant.PartOne` and `GuardGallivant.PartTwo`.
- GuardGallivant.NextPosition: requires a non-empty board in the direction of travel, because `size - 1` underflows otherwise.
- DiskFragmenter.Compact: requires a disk that can be compacted (`Compactable`). The source underflows on an empty disk, and on a disk of two or more slots with no file, such as the map `02`. The same holds for `DiskFragmenter.PartOne`.
- DiskFragmenter.PartTwo: requires a non-empty disk map, because `disk.len() - 1` underflows otherwise.
- ClawContraption.PartOne: requires every machine to have a non-zero determinant, because `%` by zero panics. Its contract gives the total for inputs where no solution presses a button a negative number of times. The same holds for `ClawContraption.PartTwo`.
- ClawContraption.NaiveFindMinimumToken: requires every button component to be positive, because the loop bounds divide by them.
- Day 6 part two does not try an obstacle on the start cell. The source tries it (see Findings), and the model leaves it out.

## Findings

| source | as written | input that shows it | evidently intended | confidence | as-written member | corrected member |
|---|---|---|---|---|---|---|
| src/bin/13.rs:155 | `(3 * di / d + dj / d) as usize` is returned even when the unique solution presses a button a negative number of times; the cast wraps the negative cost | buttons A X+1, Y+1 and B X+2, Y+1 with prize X=5, Y=1: the only solution is A -3 times and B 4 times, and the answer is 2^64 - 5 tokens | no prize, since a button cannot be pressed a negative number of times | high, not executed | ClawContraption.NegativePressesWrap | ClawContraption.ImprovedCheckedSolves |
| src/bin/06.rs:176-193 | `follow_guard` never stops when the guard is walled in on four sides: a turn records no state, and the loop only stops on a recorded state or on leaving the board | the map `.#.`, `#^#`, `.#.` | report a loop, since the guard never leaves | high, not executed | GuardGallivant.WalledInSpins | GuardGallivant.FollowGuard |
| src/bin/06.rs:218-240 | `find_loops` also tries an obstacle on the guard's start cell. That obstacle can wall the guard in, and then `follow_guard` never stops | the map `.#.`, `#.#`, `.^.`: the guard leaves after visiting two cells, and an obstacle on its start traps it | skip the start cell, as the puzzle forbids it; the count for this map is 0 | high, not executed | GuardGallivant.StartPlacementTraps | GuardGallivant.FindLoops |

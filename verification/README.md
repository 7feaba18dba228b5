# Advent of Code 2019, days 1–9: a Dafny model

This project models the Rust solutions of days 1 to 9 of Advent of Code 2019.
Its centre is the **Intcode machine**, which appears in four revisions:

- **Day 2** is the bare interpreter. Opcodes 1 (add), 2 (multiply) and 99 (halt) use a fixed stride of 4.
- **Day 5** adds decimal opcode words with Position and Immediate parameter modes, jumps and comparisons. `run_prog` returns cell 0 at Halt.
- **Day 7** runs the same machine on an input queue and collects its outputs. It adds the serial amplifier chain (`try_sequence`), the feedback loop of five amplifiers (`try_sequence_feedback`), and the search over phase orderings (`find_highest`).
- **Day 9** adds Relative mode, the relative base with opcode 9 (SetBase), and padding of memory to 10000 cells.

Days 5, 7 and 9 share one decoder, one executor and one machine, parameterised by `Version`. The revisions differ only in the modes and roots each knows, and in day 9's padding.

The other days are small puzzle solvers:

- **Day 1:** fuel arithmetic.
- **Day 3:** wire paths on a grid, their crossings and their distances.
- **Day 4:** password rules.
- **Day 6:** orbit chains and the transfer count.
- **Day 8:** image layers, compositing and the checksum.

## How the model is organised

Pure specification functions say what each operation computes. Methods with loops, shaped like the source, are proved equal to them, and lemmas prove what the source promises about those functions.

Each module, with what it holds:

- `IntcodeTypes`:
  - revisions, modes and roots;
  - decoded instructions (`Opcode`, `Param`);
  - `Fault`, one case for each way the source panics, plus the model's step bound.
- `IntcodeDecode`:
  - `get_digits` as `GetDigits`, specified by `Digits`;
  - `Opcode::parse` as `Parse`, specified by `Decode`.
- `IntcodeExec`:
  - `read` and `write`;
  - `execute` as `Exec`, one step as `Step`, the run to Halt as `Run`;
  - the `run_until_one` closure as `RunUntilOne`.
- `IntcodeMachine`: `ProgramState` as the class `Machine`. Its methods `StepProg`, `Execute` and `RunUntilOutput` update the fields in place. `RunProg` is the `run_prog` of days 7 and 9.
- `Amplifiers`: `try_sequence` and `try_sequence_feedback`, each as a specification function and a method driving `Machine` objects.
- `PhaseSearch`: `find_highest`, with one recursive method per loop depth.
- `NounVerb`: the row-major `(noun, verb)` search shared by days 2 and 5.
- `Day1` … `Day8`: the day-specific code. `Decimal` (decimal digits, most significant first) and `Extrema` (`min_by_key`) are shared helpers.

Panics become `Err(...)` or `None` results, never preconditions. A run that might not halt gets a `fuel` step bound and fails with `StepLimit` when the bound runs out.

## Model

| member | source | states |
|---|---|---|
| IntcodeTypes.RootOf | day9/src/main.rs:27-39 | a decoded root has the requested id, and the revision knows it; only day 9 knows SetBase (9) |
| IntcodeTypes.ModeOf | day9/src/main.rs:20-25 | a mode digit is accepted iff it is ≤ 2 on day 9 and ≤ 1 on days 5 and 7, and the mode then has that id |
| IntcodeTypes.RootRoundTrip | day9/src/main.rs:27-39 | decoding the id of any root the revision knows gives that root back |
| IntcodeDecode.Digits | day9/src/main.rs:64-74 | the digits are least significant first; each is < 10; 0 gives the empty list; the most significant digit is not 0 |
| IntcodeDecode.DigitsRoundTrip | day9/src/main.rs:64-74 | recombining the digits gives the value back |
| IntcodeDecode.DigitAt | day9/src/main.rs:64-74 | digit k of the list, with missing digits read as 0, is `(value / 10^k) % 10` |
| IntcodeDecode.IdIsLowTwoDigits | day9/src/main.rs:79-84 | the id built from the two padded low digits is `value % 100` |
| IntcodeDecode.GetDigits | day9/src/main.rs:64-74 | the `while value != 0` loop that pushes `value % 10` computes `Digits(value)` |
| IntcodeDecode.PushDigit | day9/src/main.rs:68-71 | one loop iteration moves the lowest digit of the rest to the end of the result, and the concatenation is unchanged |
| IntcodeDecode.DecodeParams | day9/src/main.rs:90-94 | pairing the raw cells from i with their modes gives one parameter per cell |
| IntcodeDecode.DecodeParamsClosed | day9/src/main.rs:90-94 | pairing succeeds iff every parameter's mode digit names a mode of the revision; parameter j is then (that mode, cell j) |
| IntcodeDecode.DecodeOkIff | day9/src/main.rs:77-100 | parse succeeds iff pc is inside memory, the word is in u32 range, `word % 100` is a root the revision knows, `arg_count` cells follow, and the first `arg_count` mode digits are valid |
| IntcodeDecode.DecodeModes | day9/src/main.rs:88-94 | once the word, root and cells are in place, parse succeeds iff the mode digits are valid |
| IntcodeDecode.ModesValidDigits | day9/src/main.rs:90 | the arithmetic mode-digit test agrees with the test on the padded digit list |
| IntcodeDecode.DecodeOkShape | day9/src/main.rs:77-100 | a decoded instruction has the root `word % 100` and `arg_count` parameters; parameter i is cell pc+1+i with the mode of digit i+2 (missing digits are Position) |
| IntcodeDecode.OperandsShape | day9/src/main.rs:88-94 | each parameter taken after the word is (mode of digit i+2, cell pc+1+i), and there are exactly `arg_count` of them |
| IntcodeDecode.ParamDigitsAgree | day9/src/main.rs:90 | digit i+2 of the digit list equals the arithmetic mode digit i of the word |
| IntcodeDecode.Decode1002 | day9/src/main.rs:77-100 | the word 1002 decodes to Multiply with modes Position, Immediate, Position, on every revision |
| IntcodeDecode.NoRelativeBeforeDay9 | day7/src/main.rs:20-24 | on days 5 and 7, a mode digit of 2 or more in a used parameter makes decoding fail |
| IntcodeDecode.DecodeArity | day9/src/main.rs:41-56 | a decoded instruction has exactly `arg_count(root)` parameters, they fit in memory, and the revision knows the root |
| IntcodeDecode.DecodeParamsPadded | day9/src/main.rs:79-81 | padding the digit list with zeros does not change the decoded parameters |
| IntcodeDecode.PadToTwo | day9/src/main.rs:79-81 | `resize(2, 0)` keeps every digit and reads as 0 where digits were missing |
| IntcodeDecode.Parse | day9/src/main.rs:77-100 | the method (digits, padding, root lookup, zip loop) returns exactly `Decode` |
| IntcodeDecode.ZipModes | day9/src/main.rs:92-94 | the `for ... zip` loop returns exactly `DecodeParams` from 0 |
| IntcodeExec.Read | day9/src/main.rs:102-114 | Immediate yields the raw value; Position reads cell raw; Relative reads cell raw + base; an address outside memory fails |
| IntcodeExec.Write | day9/src/main.rs:116-128 | Immediate fails; otherwise the write succeeds iff the address is in memory, and it changes exactly that cell and keeps the length |
| IntcodeExec.RelativeIsShiftedPosition | day9/src/main.rs:110-112 | a Relative read or write is a Position read or write at raw + base |
| IntcodeExec.ReadAfterWrite | day9/src/main.rs:102-128 | reading the cell just written gives the value, and every other cell reads as before |
| IntcodeExec.Exec | day9/src/main.rs:130-195 | memory keeps its length and at most one cell changes; only arithmetic and Input write; only jumps jump; output iff Output; only SetBase moves the base |
| IntcodeExec.ExecArithmetic | day9/src/main.rs:132-171 | Add, Multiply, LessThan and Equals succeed iff both operands read and the target is writable; they write lhs+rhs, lhs*rhs, (lhs<rhs ? 1 : 0) or (lhs==rhs ? 1 : 0), with no jump, output or base change |
| IntcodeExec.ExecInput | day9/src/main.rs:149-152 | Input on an exhausted queue fails; otherwise it writes the first pending value through its parameter |
| IntcodeExec.ExecJump | day9/src/main.rs:172-189 | JumpTrue jumps iff the condition ≠ 0 and JumpFalse iff it = 0, to the second operand's value; memory is unchanged |
| IntcodeExec.ExecOutputSetBaseHalt | day9/src/main.rs:146-155 | Output emits the read value with memory unchanged; SetBase adds it to the base; Halt changes nothing |
| IntcodeExec.Step | day9/src/main.rs:206-222 | a successful step had pc inside memory, keeps the memory length and the input queue, and never both outputs and halts |
| IntcodeExec.StepRules | day9/src/main.rs:206-222 | pc becomes the jump target or pc + 1 + arg_count; input_idx grows by 1 iff the root is Input; halted iff Halt; the output and memory are `execute`'s |
| IntcodeExec.RunUntilOne | day9/src/main.rs:261-268 | a successful pause used at least one step, stopped at an output or Halt, and kept the input queue |
| IntcodeExec.Settle | day9/src/main.rs:261-268 | continuing after a step stops at an output or Halt, without consuming more steps than are left |
| IntcodeExec.AdvanceToPause | day9/src/main.rs:261-268 | one step, then settling, stops at an output or Halt |
| IntcodeExec.RunUntilOneFirstStep | day9/src/main.rs:262-267 | the closure's loop: a failing step fails it; a step that outputs or halts stops it there; a quiet step continues |
| IntcodeExec.RunFirstStep | day9/src/main.rs:233-243 | the run's loop: a failing step fails the run; Halt ends it with that step's output; otherwise the step's output is followed by the rest of the run |
| IntcodeExec.RunChunks | day9/src/main.rs:233-243 | running to Halt equals running until the first output or Halt and resuming from there (the run splits into `run_until_one` chunks) |
| IntcodeMachine.Machine.constructor | day9/src/main.rs:247-255 | a fresh machine on its own copy of the program: pc, input_idx and base are 0 |
| IntcodeMachine.Machine.PushInput | day9/src/main.rs:272 | appends the value to the input queue and changes nothing else |
| IntcodeMachine.Machine.Store | day9/src/main.rs:116-128 | memory becomes `Write`'s result, or stays unchanged when the write fails |
| IntcodeMachine.Machine.Execute | day9/src/main.rs:130-195 | memory and relative base become those of `Exec`, and the method returns its jump and output; a failure changes nothing |
| IntcodeMachine.Machine.StepProg | day9/src/main.rs:206-222 | the new fields and the (output, halted) pair are exactly `Step` of the old state; a failure leaves the machine unchanged |
| IntcodeMachine.Machine.Perform | day9/src/main.rs:210-221 | the part of `step_prog` after parsing, proved against `Step` |
| IntcodeMachine.Machine.RunUntilOutput | day9/src/main.rs:261-268 | returns `RunUntilOne` of the old state, and the machine is left in the state where it paused |
| IntcodeMachine.StepByEffect | day9/src/main.rs:206-222 | a step is the instruction's effect: new memory and base, pc to the jump target or past the parameters, input_idx + 1 on Input |
| IntcodeMachine.StepStops | day9/src/main.rs:209 | a step whose instruction does not decode fails with the decoder's fault |
| IntcodeMachine.StepFails | day9/src/main.rs:210 | a step whose execution fails fails with the same fault |
| IntcodeMachine.StepSucceeds | day9/src/main.rs:210-221 | a step whose execution succeeds with effect e moves to the state that e and the pc/input_idx rules give |
| IntcodeMachine.Memory | day9/src/main.rs:225-227 | day 9 pads the program with zeros to 10000 cells (keeping longer programs as they are); days 5 and 7 do not pad |
| IntcodeMachine.NoPaddingOnDay7 | day7/src/main.rs:218-222 | without padding, a Position read at or beyond the program length fails out of bounds |
| IntcodeMachine.RunProg | day9/src/main.rs:224-244 | `run_prog` returns `Run` from a fresh machine on the padded program: the outputs in emission order up to the first Halt |
| IntcodeMachine.RunAdvance | day9/src/main.rs:233-243 | one loop iteration of `run_prog` keeps "result = outputs so far, then the run from here" |
| Amplifiers.TrySequence | day7/src/main.rs:291-306 | the loop returns `Serial`: exactly 5 phases; amplifier k runs on [phase k, previous output], starting at 0, and must output exactly one value |
| Amplifiers.ChainLast | day7/src/main.rs:296-303 | a successful chain's result is the only output of the last amplifier's run on some signal |
| Amplifiers.SerialNeedsFive | day7/src/main.rs:292 | a serial run succeeds only with 5 phases; any other count fails with `WrongPhaseCount` |
| Amplifiers.NextAmp | day9/src/main.rs:271 | the inner `for i in 0..5`, continued by the outer loop, visits amplifiers 0..4 cyclically |
| Amplifiers.FeedbackTurn | day9/src/main.rs:270-278 | one turn: a missing machine fails; a failing run fails; a run that halts without output ends with the current signal; otherwise its output is pushed onto the next amplifier's input queue (`Pushed`) |
| Amplifiers.FeedbackFirstFive | day9/src/main.rs:271 | only the first five machines ever run |
| Amplifiers.FeedbackIgnoresExtraPhases | day9/src/main.rs:246-281 | phases after the fifth do not change the result |
| Amplifiers.TrySequenceFeedback | day9/src/main.rs:246-281 | the method driving `Machine` objects returns `FeedbackResult`: one fresh machine per phase on the unpadded program with its phase as only input (`Starts`), then amplifier 0 with signal 0 |
| PhaseSearch.FreeMembers | day7/src/main.rs:327-330 | a value is a candidate of a loop iff it is in range and no outer loop has taken it |
| PhaseSearch.FreeCount | day7/src/main.rs:327-330 | after k distinct choices, 5 − k candidates are left |
| PhaseSearch.BestAppend | day7/src/main.rs:324-338 | the running maximum over two lists of orderings is the running maximum over the first, continued over the second; a failure stops it |
| PhaseSearch.Descend | day7/src/main.rs:326-338 | a loop at one depth runs the whole inner search for each free value, in ascending order |
| PhaseSearch.Leaf | day7/src/main.rs:330-334 | the innermost body runs the feedback circuit on the one remaining ordering and updates the maximum |
| PhaseSearch.Pick | day7/src/main.rs:326-338 | the loop at each depth returns the running maximum over every ordering that extends the phases chosen so far |
| PhaseSearch.Circuit | day7/src/main.rs:330-334 | the innermost body, proved equal to the search over the one remaining ordering |
| PhaseSearch.FirstFree | day7/src/main.rs:330 | `(0..5).find` returns the one value no loop has taken |
| PhaseSearch.FindHighest | day7/src/main.rs:323-341 | `find_highest` returns `Highest`: the running maximum from 0 over every ordering, in loop order, each run on phases value + 5 (`Shifted`) |
| PhaseSearch.OrderingsCount | day7/src/main.rs:326-330 | below k chosen values the loops visit (5 − k)! orderings |
| PhaseSearch.OrderingsShape | day7/src/main.rs:326-331 | every visited ordering is a permutation of 0..4 extending the chosen prefix |
| PhaseSearch.OrderingsDistinct | day7/src/main.rs:326-331 | no ordering is visited twice |
| PhaseSearch.HighestVisitsPermutations | day7/src/main.rs:326-331 | the loops visit exactly 120 distinct orderings, and an ordering is visited iff it is a permutation of 0..4 |
| PhaseSearch.ChosenPrefix | day7/src/main.rs:326-329 | every phase the loops choose is in 0..4 and differs from those chosen before it, and every prefix of a choice is a choice |
| PhaseSearch.VisitsEvery | day7/src/main.rs:323-331 | every permutation of 0..4 that extends the phases already chosen is visited by the loops below them |
| PhaseSearch.LevelVisits | day7/src/main.rs:326-331 | the loop at one depth, from candidate n on, visits every permutation extending the outer choice whose next phase is at least n |
| PhaseSearch.PermutationCovers | day7/src/main.rs:326-331 | a permutation contains each of 0..4 |
| PhaseSearch.BestIsMaximum | day7/src/main.rs:332-334 | a successful running maximum is ≥ its start and ≥ every circuit's result, and equals the start or some circuit's result |
| PhaseSearch.BestFails | day7/src/main.rs:331 | a failing search fails with the fault of some circuit |
| PhaseSearch.HighestIsMaximum | day7/src/main.rs:323-341 | the result is ≥ 0 and ≥ the feedback result of every permutation of 0..4 (shifted by 5), and is 0 or attained by one of them |
| NounVerb.SetArgs | day5/src/main.rs:211-216 | writing noun and verb fails iff the program is shorter than 3 cells; otherwise only cells 1 and 2 change |
| NounVerb.ScanStep | day5/src/main.rs:219-227 | one inner iteration: a failing run fails the search; the goal returns the pair; otherwise the search goes to the next verb, or to the next noun at verb 100 |
| NounVerb.ScanFound | day5/src/main.rs:218-230 | a found pair is in 0..99 × 0..99, runs to 19690720, and every pair before it in row-major order ran to another value |
| NounVerb.ScanFailed | day5/src/main.rs:218-230 | a failed search either missed on every pair (`unreachable!`) or met a failing run after only misses |
| Day2.StepRules | day2/src/main.rs:15-31 | 99 returns cell 0; opcodes 1 and 2 store the sum or product of the cells their first two parameters name, at the cell the third names, and add 4 to pc; a cell index outside memory, a negative one included, fails (`Cell`); any other opcode fails; one cell changes at most, and the length is kept |
| Day2.RunEndsAtHalt | day2/src/main.rs:11-34 | a run succeeds iff it reaches a halting state (`HaltState`), and then returns cell 0 of the memory it halts in, which keeps the original length and holds 99 at the halting pc; a failing run fails with the same fault |
| Day2.RunProg | day2/src/main.rs:11-34 | the loop over an array, changing it in place, returns `Run` of the old contents from pc 0 |
| Day2.RunWithArgs | day2/src/main.rs:36-41 | stores noun and verb in cells 1 and 2 of the array, then runs it: the result is `EndValue` of the old contents |
| Day2.FindEndValue | day2/src/main.rs:43-55 | the nested loops return the row-major `Scan` over the runs of each pair (see `NounVerb.ScanFound`) |
| Day5.Finish | day5/src/main.rs:194-209 | a run that halts leaves a non-empty memory of the original length |
| Day5.FinishFirstStep | day5/src/main.rs:196-208 | a failing step fails the run; Halt ends it in that step's state; otherwise the run goes on |
| Day5.FinishAgreesWithRun | day5/src/main.rs:194-209 | running to Halt for cell 0 takes the same steps as the output-collecting run: both succeed together, and they fail with the same fault |
| Day5.RunProg | day5/src/main.rs:194-209 | steps a day-5 machine until Halt and returns cell 0 (`Final`) |
| Day5.RunWithArgs | day5/src/main.rs:211-216 | sets cells 1 and 2 of a copy, then runs it (`EndValue`) |
| Day5.FindEndValue | day5/src/main.rs:218-230 | the nested loops return the row-major `Scan` over the runs of each pair |
| Decimal.Digits | day4/src/main.rs:6-7 | `format!("{}")` gives at least one digit, each 0–9, with no leading zero |
| Decimal.DigitsValue | day4/src/main.rs:6-7 | reading the digits back gives the number |
| Extrema.ArgMin | day8/src/main.rs:47 | `min_by_key` picks the first element with the smallest key |
| Day1.TruncDiv3 | day1/src/main.rs:2 | Rust's `/ 3` rounds toward zero, for negative values as well |
| Day1.GetFuelRoundsTowardZero | day1/src/main.rs:1-3 | get_fuel(−7) = −4 (not −5) and get_fuel(7) = 0 |
| Day1.FuelShrinks | day1/src/main.rs:8-11 | a positive fuel amount needs strictly less fuel: the loop variable decreases |
| Day1.FuelChain | day1/src/main.rs:8-11 | the sum of the chain of positive fuel amounts is ≥ 0, and 0 iff the start is ≤ 0 |
| Day1.RecursiveFuel | day1/src/main.rs:5-14 | the result is ≥ 0, is 0 iff get_fuel(mass) ≤ 0, and in particular is 0 for masses 0..8 |
| Day1.GetRecursiveFuel | day1/src/main.rs:5-14 | the while loop with `total` and `next_fuel` computes `RecursiveFuel` |
| Day1.FuelChainBound | day1/src/main.rs:5-14 | the chain's sum is at most 3/2 of its start |
| Day1.Example1969 | day1/src/main.rs:17 | a mass of 1969 needs 966 fuel in all |
| Day3.ParseDirection | day3/src/main.rs:12-20 | exactly R, D, L and U parse; any other character fails |
| Day3.Letter | day3/src/main.rs:12-20 | each direction's letter parses back to it |
| Day3.ParseCount | day3/src/main.rs:24 | parsing succeeds iff the text without an optional leading `+` is non-empty and all decimal digits; an empty count, a lone `+`, a `-` or any other character fails |
| Day3.Text | day3/src/main.rs:24 | the decimal text of a count is non-empty and all digits |
| Day3.ParseCountText | day3/src/main.rs:24 | parsing the decimal text of a count gives the count back |
| Day3.ParseOne | day3/src/main.rs:23-25 | a parsed segment has a direction letter followed by at least one character |
| Day3.ParseOneRoundTrip | day3/src/main.rs:23-25 | a segment written as its letter and its count parses back to itself |
| Day3.Walk | day3/src/main.rs:66-77 | one segment enters exactly `amount` positions |
| Day3.Positions | day3/src/main.rs:58-81 | a wire enters exactly Σ amounts positions |
| Day3.PositionStep | day3/src/main.rs:64-77 | position i has step count i + 1 and lies one unit from the previous position (the first from (0,0)), in the direction of step i |
| Day3.PositionsSteps | day3/src/main.rs:64-77 | the same, for every position at once |
| Day3.PositionsSnoc | day3/src/main.rs:64-78 | one more segment appends its walk from the end of the previous ones |
| Day3.MakePositions | day3/src/main.rs:58-81 | the loops that update row, col and count and push return exactly `Positions` |
| Day3.StepCell | day3/src/main.rs:44-49 | a step on `usize` coordinates that does not underflow stays non-negative |
| Day3.CellStep | day3/src/main.rs:44-51 | stepping between grid cells follows the position's step; an underflow means the position is off the grid; the index set is row × 10000 + col |
| Day3.FillGrid | day3/src/main.rs:35-56 | fails iff some position is off the grid (an underflow or an index ≥ 10000²); otherwise returns 10000² cells, set exactly at the indices the wire enters from (5000, 4000) |
| Day3.BothSet | day3/src/main.rs:100-105 | the indices set in both grids, each once, in ascending order |
| Day3.RowCol | day3/src/main.rs:106 | (idx / 10000, idx % 10000) has a column below 10000 and recombines to idx |
| Day3.Common | day3/src/main.rs:99-107 | exactly the (row, col) of the indices set in both grids, in ascending index order |
| Day3.CommonCellsVisited | day3/src/main.rs:99-107 | when no wire goes right of the last column, every common cell is entered by both wires |
| Day3.ColumnWraps | day3/src/main.rs:51 | otherwise a column past the last wraps into the next row: 6000 steps right from the port mark (5001, 0), a cell the wire never enters |
| Day3.Found | day3/src/main.rs:88 | collecting into a map keys exactly the positions the wire enters |
| Day3.FoundKeepsLast | day3/src/main.rs:88 | a repeated position keeps the step count of its last entry |
| Day3.Crossings | day3/src/main.rs:90-96 | the `filter_map` keeps exactly the right wire's positions found in the map, each with the two step counts added |
| Day3.CrossingsAppend | day3/src/main.rs:90-96 | the results follow the right wire's order |
| Day3.CrossingsOnBoth | day3/src/main.rs:88-96 | each crossing is a position of both position lists, with the right count plus the count of the left list's last entry at that position |
| Day3.FindIntsOnBoth | day3/src/main.rs:83-97 | every result is a position both wires enter; its delay is the right wire's count plus the left wire's count at its last entry there |
| Day3.AbsDiff | day3/src/main.rs:109-115 | the larger minus the smaller is the absolute difference, and is 0 iff the arguments are equal |
| Day3.AbsDiffSymmetric | day3/src/main.rs:109-115 | `abs_diff` is symmetric |
| Day3.CenterDist | day3/src/main.rs:117-119 | the Manhattan distance to the cell (5000, 4000) |
| Day3.CenterDistOfCell | day3/src/main.rs:117-119 | on the grid, a position's cell is \|r\| + \|c\| from the port's cell |
| Day3.MinDist | day3/src/main.rs:121-123 | fails iff there is no crossing; otherwise returns the first crossing that no crossing undercuts, with its distance \|r\| + \|c\|; every earlier crossing is strictly farther |
| Day3.Closest | day3/src/main.rs:138 | none iff there is no crossing; otherwise the first crossing with the fewest combined steps |
| Day4.InnerPairsFound | day4/src/main.rs:10 | the window count is non-zero iff some window has the shape a≠b=c≠d |
| Day4.HasDouble | day4/src/main.rs:9-12 | fails exactly where the source indexes out of range (one digit, or two equal ones) |
| Day4.HasDoubleIffExactPair | day4/src/main.rs:9-12 | from three digits on, `has_double` holds iff some maximal run of equal digits has length exactly 2 |
| Day4.RisingIffSorted | day4/src/main.rs:13-19 | the `try_fold` succeeds iff the digits are non-decreasing and none is below the start |
| Day4.IsValid | day4/src/main.rs:5-22 | defined for every value of at least three digits |
| Day4.IsValidMeans | day4/src/main.rs:5-22 | for ≥ 3 digits: valid iff some run of equal digits has length exactly 2 and the digits are non-decreasing |
| Day4.Example112233 | day4/src/main.rs:25 | 112233 is valid |
| Day4.Example123444 | day4/src/main.rs:26 | 123444 is not valid |
| Day4.Example111122 | day4/src/main.rs:27 | 111122 is valid |
| Day4.CountWhereIsSize | day4/src/main.rs:28 | counting through a range is the size of the set of kept values |
| Day4.Answer | day4/src/main.rs:3-28 | the answer is the number of valid passwords in 206938..=679128 |
| Day6.Objects | day6/src/main.rs:19-22 | exactly the names on either side of some pair |
| Day6.GetBase | day6/src/main.rs:28-30 | none iff no pair orbits the body; otherwise the left name of the first such pair |
| Day6.BaseIsObject | day6/src/main.rs:19-30 | a base and the body that has it are objects |
| Day6.CountOrbit | day6/src/main.rs:36-42 | 0 without a base; a positive count means there is a base |
| Day6.CountOrbitFuel | day6/src/main.rs:36-42 | a count that fits in a step budget is the same in any larger one |
| Day6.Bases | day6/src/main.rs:32-34 | the chain is empty iff there is no base, and otherwise starts with the base |
| Day6.BasesChain | day6/src/main.rs:32-34 | each element is the base of the one before, and the last has no base |
| Day6.BasesCount | day6/src/main.rs:32-42 | the chain and `count_orbit` are defined together, and the chain's length is the count |
| Day6.CountOrbitsDefined | day6/src/main.rs:24-26 | the sum (`Plus` of the counts) is defined iff every object's count is, and is at least each count |
| Day6.CountOrbitsRemove | day6/src/main.rs:24-26 | the sum is one object's count plus the sum over the others |
| Day6.CountOrbitsAnyOrder | day6/src/main.rs:24-26 | the sum does not depend on the order the set hands out its objects |
| Day6.FirstCommon | day6/src/main.rs:67 | none iff no base of SAN is a base of YOU; otherwise the first base of SAN that is |
| Day6.CountUntil | day6/src/main.rs:70-71 | counts the leading bases before the first occurrence of the common one, and is the length when it does not occur |
| Day6.TransfersMeans | day6/src/main.rs:62-73 | defined iff both chains exist and meet; then it is i + j, where SAN's base j is the first on YOU's chain and i is its first position there |
| Day8.Layers | day8/src/main.rs:12-20 | fails iff the length is not a multiple of 150; otherwise gives length / 150 layers of exactly 150 values |
| Day8.LayersConcat | day8/src/main.rs:12-20 | the layers put back together are the input |
| Day8.Seen | day8/src/main.rs:26-35 | a composited pixel is always 0 or 1 |
| Day8.SeenIsFrontmost | day8/src/main.rs:26-35 | it is the pixel of the lowest-index layer whose pixel is 0 or 1 |
| Day8.SeenAllTransparent | day8/src/main.rs:27 | it is 0 when no layer has 0 or 1 there |
| Day8.Image | day8/src/main.rs:25-37 | the image has exactly 150 pixels, each 0 or 1 |
| Day8.Flatten | day8/src/main.rs:22-41 | fails iff some layer is shorter than 150; otherwise the loops, walking the layers from the back, return exactly `Image` |
| Day8.Count | day8/src/main.rs:49 | the number of occurrences of a value is its multiplicity |
| Day8.FewestZeros | day8/src/main.rs:47 | the first layer with the fewest zeros |
| Day8.Checksum | day8/src/main.rs:47-49 | none iff there are no layers; otherwise count(1) × count(2) of the first layer with the fewest zeros |

## Left out

- File reading and parsing of the inputs (`parse_input`, `get_input`, day 8's `parse`, `parse_line` and the file read in day 3's `main`) are not modelled. Every operation takes its input as a value.
- Printing (`println!`, `print!`, day 8's rendering) and day 2's timing are left out. Day 5's Output instruction prints to the console, and the model keeps no record of it.
- Day 5's Input instruction reads stdin. Here it reads from a fixed input sequence. Each run of the noun/verb search gets the same sequence, while the source shares one console stream.
- Day 5's `main` asserts a result on the contents of a file. That file is not part of this model.
- Machine-width integers are not modelled: i32 on days 2, 5 and 7, i64 on day 9, usize and u32 elsewhere. All arithmetic is on unbounded integers, so overflow panics and wrap-around are not captured.
- `as usize` on a negative address fails as out of bounds.
  - IntcodeExec.Exec: a negative jump target fails as `NegativeJump` at the jump itself. The source only panics at the next fetch from that pc.
- Intcode programs need not halt. Every run has a `fuel` step bound and fails with `StepLimit` when it runs out. In the source the run would go on.
  - Amplifiers.TrySequenceFeedback: the five amplifiers share one step budget.
- Day 6's recursion does not terminate on cyclic data. `CountOrbit` and `Bases` have the same kind of budget and return `None` when it runs out.
  - Day6.Transfers: `None` stands both for a budget that ran out and for a missing common ancestor (the source's `unwrap` panic).
- Hash containers are Dafny values. Day 3's `HashMap` is a `map`; `Found` keeps the last entry for a repeated key, as `collect` does. Day 6's `HashSet` is a `set`, and its iteration order is a parameter `order` of `CountOrbits`, with `CountOrbitsAnyOrder` proving that the order does not matter.
- The `'overall` loop and its inner `for i in 0..5` of `try_sequence_feedback` are one loop whose amplifier index wraps round.
- The four nested loops of `find_highest` are one recursive method (`Pick`), with one `for` loop per depth.
- Day 2's program is an `array` updated in place. Days 5, 7 and 9 keep memory as a `seq` field of `Machine` that each write reassigns.
- Day 3's `fill_grid` works on `usize` row and column. A step that underflows, or an index ≥ 10000², is a failure; the source would panic (in a debug build) or index out of range.
  - A column ≥ 10000 is not a failure in the source, and not in the model either: it wraps into the next row. `ColumnWraps` exhibits this, and `CommonCellsVisited` states what `common` means only under the bound.
- Day 3's `parse_one` parses counts as unbounded naturals: a leading `+` is accepted, and `usize` overflow is not modelled.
- Day 8's pixel values are `int` rather than `u32`.
- Day 4's `is_valid`: `IsValid` returns `None` where the source indexes out of range. That happens for one-digit values and for two-digit values with equal digits. The range it is counted over starts at 206938, so the answer is unaffected.

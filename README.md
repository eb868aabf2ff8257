# Advent of Code 2018, days 11 to 16, in Dafny

A model of six Rust solutions with proofs about them. There is one Dafny module per
solution file:

- `ChronalCharge` (`src/bin/11.rs`): the fuel-cell power grid and the search for the square
  with the largest total power.
- `SubterraneanSustainability` (`src/bin/12.rs`): the row of plant pots, a generation step
  driven by five-pot rules, and the simulation that extrapolates once the growth looks stable.
- `MineCartMadness` (`src/bin/13.rs`): carts on a track, the move of one cart, and the two
  queue simulations that stop at the first crash or when one cart is left.
- `ChocolateCharts` (`src/bin/14.rs`): the two elves' recipe scoreboard, the ten scores after
  an offset, and the search for a digit pattern.
- `BeverageBandits` (`src/bin/15.rs`): the parts of the elf-and-goblin combat the code
  contains. These are units, reading order, turn order, the end-of-combat test, the free
  squares next to living units, the outcome formula and the map parser. The path search is
  `todo!()` in the source.
- `ChronalClassification` (`src/bin/16.rs`): the sixteen opcodes of the wrist device, the
  samples, the opcode deduction and the execution of the test program.

Three helper modules support them:

- `Options`: an `Option` datatype.
- `Coords`: `Complex<i32>` and `(i32, i32)` as `Coord(x, y)`.
- `Text`: `split`, `trim`, `trim_start_matches`, `trim_end_matches`, `replace` and
  `parse::<usize>` on character sequences.

Some source code panics. An index panic that the code's own invariants rule out becomes a
`requires`. In 16.rs, the register and table indexing that malformed input data could make
panic also becomes a `requires`: operands below 4 (`WellFormed`), opcode numbers below 16 and
a program whose opcode numbers and operands fit the table (`Executable`). "## Left out" lists
those members. Every other panic that input data can trigger becomes a result value:

- an `unwrap` on a missing track tile;
- an empty cart queue;
- an empty plant set;
- the `todo!()` path search;
- a parse failure.

The solutions that loop until something happens take a `fuel: nat` bound. These are
`simulate_until_first_crash`, `simulate_until_last_crash` and `solve2`. When the fuel runs
out, the model returns `OutOfFuel` or `None`. The `while` loop of `compute_conversion_table`
needs no fuel. Each of its rounds either shrinks the candidate sets or changes nothing. A
round that changes nothing is the case where the Rust code loops forever, and the model
returns `None` there.

## Model

| member | source | states |
|---|---|---|
| ChronalCharge.PowerLevel | src/bin/11.rs:30-37 | the power level of a cell always lies between -14 and 4, under Rust's truncating `%` |
| ChronalCharge.RemTrunc10 | src/bin/11.rs:35 | Rust's `% 10` agrees with Euclidean `%` on non-negative operands; otherwise it keeps the dividend's sign and differs from it by a multiple of 10 |
| ChronalCharge.PowerLevelIsHundredsDigit | src/bin/11.rs:30-37 | on the grid (x, y >= 1) the power level is the hundreds digit of `((x+10)*y + serial)*(x+10)` minus 5, so it lies in -5..4 |
| ChronalCharge.ShowNatHundreds | src/bin/11.rs:35 | `div_euclid(100) % 10` of a natural number is the third-from-last digit of its decimal numeral (0 when it has fewer digits) |
| ChronalCharge.GenerateMap | src/bin/11.rs:19-28 | the map holds exactly the cells 1..=n × 1..=n, each with its power level |
| ChronalCharge.SquareGrow | src/bin/11.rs:57-60 | growing a square by one adds the new bottom row and the new right column and subtracts their shared corner once: the incremental score equals the square's total |
| ChronalCharge.RectSumEitherWay | src/bin/11.rs:57-60 | summing a rectangle row by row or column by column gives the same total |
| ChronalCharge.BestAmongImproves | src/bin/11.rs:61-64 | a strictly larger score makes the current square the best of all those visited so far |
| ChronalCharge.BestAmongKeeps | src/bin/11.rs:61-64 | a score that is not larger leaves the best square unchanged and still the best so far |
| ChronalCharge.Compare | src/bin/11.rs:61-64 | the comparison step keeps "best among the squares visited, first one on ties" true one square further |
| ChronalCharge.GrowSquares | src/bin/11.rs:46-65 | the size loop at one corner, with the row and column sums added step by step, extends the best-so-far invariant past all squares at that corner |
| ChronalCharge.ScanCorners | src/bin/11.rs:45-66 | the `y` loop extends the invariant past one whole column of corners |
| ChronalCharge.FindBestSquare | src/bin/11.rs:39-69 | the result is the first square in loop order (by x, y, size) with the largest total power among the sizes allowed (sides 1 to 3 in part one, every square inside the grid in part two); it is (1, 1, 0) only when no square scores above -100 |
| ChronalCharge.AnswerIsUnique | src/bin/11.rs:39-69 | the answer the loops describe is unique |
| ChronalCharge.AnswerIsASquare | src/bin/11.rs:40-41 | on a grid of power levels some square always beats the initial -100, so the returned side is at least 1 |
| ChronalCharge.CandidateSides | src/bin/11.rs:47-54 | part one visits sides of at most 3; part two's squares stay inside the grid |
| ChronalCharge.Part2SquareOnGrid | src/bin/11.rs:52 | every cell of a part-two square is on the map, so `unwrap_or(&0)` never fills in a 0 there |
| SubterraneanSustainability.SetMin | src/bin/12.rs:20 | `iter().min().unwrap()` of a non-empty set is a member no larger than any member |
| SubterraneanSustainability.SetMax | src/bin/12.rs:20 | `iter().max().unwrap()` of a non-empty set is a member no smaller than any member |
| SubterraneanSustainability.Window | src/bin/12.rs:22-24 | the situation of pot p says, for each of p-2..=p+2, whether it holds a plant |
| SubterraneanSustainability.FindRule | src/bin/12.rs:26 | `find` returns the first rule whose pattern equals the situation, or none when no rule matches |
| SubterraneanSustainability.GrownUpToMember | src/bin/12.rs:19-33 | the inner loop collects exactly the candidate pots whose first matching rule says `#` |
| SubterraneanSustainability.Next | src/bin/12.rs:18-33 | the next generation: the pots of min-2..=max+2 whose first matching rule says `#` (its members are stated by NextMembers) |
| SubterraneanSustainability.NextMembers | src/bin/12.rs:18-33 | a pot is in the next generation exactly when it lies in min-2..=max+2 and its first matching rule fills it |
| SubterraneanSustainability.NextGeneration | src/bin/12.rs:18-33 | the loop over the candidate pots computes exactly that next generation |
| SubterraneanSustainability.EmptyWindowOutside | src/bin/12.rs:20 | outside min-2..=max+2 every situation is all empty |
| SubterraneanSustainability.NextIsWholeRow | src/bin/12.rs:19-21 | when the all-empty situation does not grow a plant, the candidate range misses no pot of the infinite row |
| SubterraneanSustainability.NextShift | src/bin/12.rs:18-33 | a generation step commutes with shifting the row: shifted plants grow shifted |
| SubterraneanSustainability.SetSumShift | src/bin/12.rs:36 | shifting a set by d keeps its size and adds d·size to its sum |
| SubterraneanSustainability.Simulate | src/bin/12.rs:14-46 | the loop returns the run function with the previous growth starting at the initial sum, as the code does; the result is `None` where `min().unwrap()` panics on an empty generation |
| SubterraneanSustainability.Run | src/bin/12.rs:17-45 | the `for k in 0..cycle` loop from generation k: the sum of the last generation, the extrapolated sum once a growth equals the previous one, `None` on an empty generation (its exactness is stated by RunExact and GliderRun) |
| SubterraneanSustainability.RunExact | src/bin/12.rs:17-45 | when no two consecutive growths are equal, the run returns the exact sum of the last generation |
| SubterraneanSustainability.SimulateCorrected | src/bin/12.rs:14-46 | the corrected `simulate`, which starts with no previous growth (its exactness is stated by SimulateCorrectedExact) |
| SubterraneanSustainability.SimulateCorrectedExact | src/bin/12.rs:14-46 | with no previous growth at the start, a run without a stable pair of growths is exact |
| SubterraneanSustainability.GliderGenerations | src/bin/12.rs:17-44 | a row whose next generation is itself shifted by d is, after n generations, shifted by n·d |
| SubterraneanSustainability.GliderGrowthStays | src/bin/12.rs:35-38 | such a row keeps the same growth from one generation to the next |
| SubterraneanSustainability.GliderRun | src/bin/12.rs:17-41 | on such a row the run returns the extrapolated sum from any generation on |
| SubterraneanSustainability.GliderShortcutIsExact | src/bin/12.rs:38-41 | on such a row the extrapolation equals the exact sum of the last generation: the shortcut is sound |
| SubterraneanSustainability.SimulateStopsEarly | src/bin/12.rs:16 | from one plant under the splitting rules, the run as written stops after one generation and answers 3, but the second generation sums to 2 |
| SubterraneanSustainability.SimulateCorrectedOnSplit | src/bin/12.rs:16 | the corrected run answers 2 on the same input |
| SubterraneanSustainability.InitialPots | src/bin/12.rs:49-63 | the initial state holds exactly the indices of the `#` characters |
| SubterraneanSustainability.Plants | src/bin/12.rs:78 | each character of a pattern becomes true exactly when it is `#` |
| SubterraneanSustainability.ParseLine | src/bin/12.rs:75-81 | a rule is read exactly when the trimmed line splits into at least two parts at ` => ` (`args[1]` panics otherwise); its pattern is the trimmed first part read as `#`-is-a-plant and its output is whether the second part is `#` |
| SubterraneanSustainability.ParseShowRule | src/bin/12.rs:75-81 | a rule written as `pattern => #` or `pattern => .` parses back to itself |
| SubterraneanSustainability.ParseRuleLine | src/bin/12.rs:75-81 | a pattern without blanks, ` => ` and one glyph parse into that pattern and "grows exactly when the glyph is `#`" |
| MineCartMadness.FromInt | src/bin/13.rs:11-16 | the numbering 0..3 of the directions is a bijection |
| MineCartMadness.NextCartState | src/bin/13.rs:86-122 | the cart moves one step in its new direction, straight tiles keep the direction, and the turn state advances modulo 3 exactly on intersections (so it stays below 3) |
| MineCartMadness.NextCartMovesOneStep | src/bin/13.rs:116 | a move changes the position by exactly one orthogonal step |
| MineCartMadness.StepIsUnit | src/bin/13.rs:124-131 | each direction's step has length one |
| MineCartMadness.SlashTurn | src/bin/13.rs:91-96 | the direction after a `/` tile (its geometry is stated by SlashGeometry) |
| MineCartMadness.BackSlashTurn | src/bin/13.rs:98-103 | the direction after a `\` tile (its geometry is stated by BackSlashGeometry) |
| MineCartMadness.IntersectionTurn | src/bin/13.rs:104-107 | the direction after a `+` tile, `(d - 1 + state).rem_euclid(4)` (stated by IntersectionTurnTable) |
| MineCartMadness.IntersectionTurnTable | src/bin/13.rs:104-107 | intersections turn left, then go straight, then turn right |
| MineCartMadness.TurnLeftGeometry | src/bin/13.rs:104-107 | a left turn rotates the step vector a quarter turn counter-clockwise on screen |
| MineCartMadness.TurnRightGeometry | src/bin/13.rs:104-107 | a right turn rotates it a quarter turn clockwise |
| MineCartMadness.SlashGeometry | src/bin/13.rs:91-96 | `/` reflects the step across the anti-diagonal |
| MineCartMadness.BackSlashGeometry | src/bin/13.rs:98-103 | `\` reflects the step across the diagonal |
| MineCartMadness.CurvesUndo | src/bin/13.rs:91-103 | taking the same curve twice restores the direction |
| MineCartMadness.ThreeIntersections | src/bin/13.rs:104-107 | after three intersections a cart again heads the way it started |
| MineCartMadness.FindCart | src/bin/13.rs:59 | `enumerate().find` returns the first queued cart at the position, or none |
| MineCartMadness.AnyAt | src/bin/13.rs:78 | `any` is true exactly when some queued cart stands at the position |
| MineCartMadness.FirstCrashTick | src/bin/13.rs:76-81 | one iteration: off the track is a panic; landing on a queued cart is a collision there; otherwise the moved cart goes to the back and no queued cart shares its square |
| MineCartMadness.FirstCrash | src/bin/13.rs:71-84 | the first-crash loop for at most `fuel` iterations: (0, 0) on an empty queue, the landing square of the first collision, a panic off the track (LoneCartNeverCrashes and FirstCrashKeepsStates are stated over it) |
| MineCartMadness.SimulateUntilFirstCrash | src/bin/13.rs:71-84 | the queue loop returns the first-crash run function, (0, 0) on an empty queue |
| MineCartMadness.LoneCartNeverCrashes | src/bin/13.rs:76-83 | a single cart never reports a crash |
| MineCartMadness.FirstCrashKeepsStates | src/bin/13.rs:81 | the queue keeps its length and every turn state stays below 3 |
| MineCartMadness.LastCrashTick | src/bin/13.rs:56-57 | one iteration: off the track is a panic, and otherwise the step never reports a collision (its new queue is stated by LastCrashTickQueue) |
| MineCartMadness.LastCrashTickQueue | src/bin/13.rs:56-64 | when no queued cart stands on the landing square the moved cart goes to the back of the queue; when one does, the first such cart is removed and the moving cart is not re-queued |
| MineCartMadness.LastCrashTickLength | src/bin/13.rs:59-64 | the length is kept exactly when no queued cart stands on the landing square, and drops by exactly two exactly when one does |
| MineCartMadness.LastCrashTickKeepsStates | src/bin/13.rs:59-64 | turn states stay below 3 through an iteration |
| MineCartMadness.LastCrashRound | src/bin/13.rs:57-64 | the loop body with `find`, `remove` and `push_back` computes that iteration |
| MineCartMadness.LastCrash | src/bin/13.rs:51-69 | the last-crash loop for at most `fuel` iterations, then the last cart's square, a panic on an empty queue or off the track (OddCountNeverEmpties is stated over it) |
| MineCartMadness.SimulateUntilLastCrash | src/bin/13.rs:51-69 | the loop, the final `pop_front().unwrap()` and the `dbg!` move return the last-crash run function |
| MineCartMadness.OddCountNeverEmpties | src/bin/13.rs:56-66 | with an odd number of carts the final `pop_front().unwrap()` never panics |
| MineCartMadness.GetCart | src/bin/13.rs:154-181 | exactly the four arrow glyphs make a cart, at its square with turn state 0, facing the way its arrow points (`^` up, `>` right, `v` down, `<` left) |
| MineCartMadness.GetTileType | src/bin/13.rs:183-196 | exactly the track glyphs and the arrows make a tile, and it is the tile the glyph stands for (Glyphs): the vertical bar, `^` and `v` give vertical track, `-`, `<` and `>` horizontal track, the slash and the backslash their curves, and `+` an intersection |
| MineCartMadness.CartGlyphOnStraightTrack | src/bin/13.rs:133-152 | an arrow stands on straight track along its own direction |
| ChocolateCharts.NewRecipesAreDigitsOfSum | src/bin/14.rs:21-27 | the new recipes are the decimal digits of the sum, with no leading zero |
| ChocolateCharts.Step | src/bin/14.rs:21-30 | one round keeps a board valid: scores are digits and both cursors stay in range |
| ChocolateCharts.StepExtends | src/bin/14.rs:21-27 | a round appends one or two recipes and never changes earlier ones |
| ChocolateCharts.StepAppendsSum | src/bin/14.rs:21-27 | the appended recipes spell the sum of the current two scores |
| ChocolateCharts.Round | src/bin/14.rs:53-62 | the loop body computes one round, cursors included |
| ChocolateCharts.GrowUntil | src/bin/14.rs:52-63 | the `while` loop stops with at least the target number of recipes and at most one more, extending the starting board |
| ChocolateCharts.ShowScores | src/bin/14.rs:65-68 | the joined `to_string` of each score is one digit character per score |
| ChocolateCharts.Solve | src/bin/14.rs:48-69 | the answer is the ten score digits right after the offset |
| ChocolateCharts.PatternIsDecimal | src/bin/14.rs:35-39 | the weighted sum of the window is the decimal number the window's digits spell |
| ChocolateCharts.PatternOfPrefix | src/bin/14.rs:35-39 | a window's pattern does not change as recipes are appended |
| ChocolateCharts.FirstMatch | src/bin/14.rs:32-43 | the `for` loop finds the first start in its range whose pattern equals the input, or none |
| ChocolateCharts.TestStarts | src/bin/14.rs:32-43 | the `for` loop computes that first match |
| ChocolateCharts.Search | src/bin/14.rs:20-45 | the endless `loop` cut after `fuel` rounds: step the board, test the new start indices, stop at the first match (stated by SearchFindsFirst and SearchFindsPresent) |
| ChocolateCharts.StepKeepsTested | src/bin/14.rs:33-44 | `index_tested` never passes the new loop bound, so no start is skipped between rounds |
| ChocolateCharts.Solve2 | src/bin/14.rs:14-46 | the loop equals the search function, with the window as long as the input's numeral |
| ChocolateCharts.SearchFindsFirst | src/bin/14.rs:14-46 | a returned index is the first place on the board where the pattern equals the input |
| ChocolateCharts.SearchFindsPresent | src/bin/14.rs:14-46 | conversely, a window spelling the input on the board after n rounds and not yet tested is found within n + 1 rounds, at that index or an earlier one |
| ChocolateCharts.PatternMatchesDigits | src/bin/14.rs:35-40 | on digits, a window's pattern equals a digit string's value exactly when the window holds those digits |
| ChocolateCharts.DecimalInjective | src/bin/14.rs:35-40 | equal-length digit strings with the same value are equal |
| ChocolateCharts.FirstPatternIsFirstDigits | src/bin/14.rs:35-41 | the first window pattern equal to a numeral's value, with the window as long as the numeral, is the first place its digits appear |
| ChocolateCharts.PartTwo | src/bin/14.rs:9-12 | `part_two` as written: `None` on an input that does not parse, else the search with the window as long as the parsed number's numeral |
| ChocolateCharts.PartTwoDigits | src/bin/14.rs:9-46 | the corrected `part_two`, with the window as long as the input text (stated by PartTwoDigitsFindsDigits and PartTwoDigitsFindsPresent) |
| ChocolateCharts.PartTwoDigitsFindsDigits | src/bin/14.rs:9-46 | with the window as long as the input text, the answer is the first index where the input's digits appear |
| ChocolateCharts.PartTwoDigitsFindsPresent | src/bin/14.rs:9-46 | once the input's digits are on the board after n rounds, n + 1 rounds of fuel give that index or an earlier one |
| ChocolateCharts.StandardRound1 | src/bin/14.rs:20-30 | the first round from 3, 7 appends 1, 0 and keeps both cursors |
| ChocolateCharts.PartTwoDropsLeadingZero | src/bin/14.rs:10-15 | for the input `01245` the code as written answers 6, because `parse::<u32>` drops the zero and the window shrinks to four digits |
| ChocolateCharts.PartTwoDigitsKeepsLeadingZero | src/bin/14.rs:9-46 | searching for the digits as written answers 5 on the same input |
| BeverageBandits.CmpReadingOrder | src/bin/15.rs:137-143 | Equal, Less and Greater exactly when the positions are equal, the first reads before the second, or after it |
| BeverageBandits.IsDead | src/bin/15.rs:20-22 | `is_dead`: a unit is dead once its hit points are 0 or below |
| BeverageBandits.CmpReadingOrderIsTotalOrder | src/bin/15.rs:137-143 | the comparison is antisymmetric and transitive |
| BeverageBandits.ReadingOrderIsRowMajor | src/bin/15.rs:137-143 | on a grid of that width, reading order is the order of row-major indices |
| BeverageBandits.TurnBeforeTransitive | src/bin/15.rs:120-124 | the stable-sort order on unit indices is transitive |
| BeverageBandits.GetCombatOrder | src/bin/15.rs:120-124 | the order is a permutation of all unit indices, sorted by reading order of the positions, ties in index order |
| BeverageBandits.InsertLast | src/bin/15.rs:122 | the insertion step of the in-place sort keeps the array a permutation and sorts one more element |
| BeverageBandits.Side | src/bin/15.rs:127-134 | the filter keeps exactly the units of one side |
| BeverageBandits.CombatIsOver | src/bin/15.rs:126-135 | combat is over exactly when every elf is dead or every goblin is dead |
| BeverageBandits.CombatIsOverCounts | src/bin/15.rs:126-135 | equivalently, one side has no living unit |
| BeverageBandits.LivingHitPoints | src/bin/15.rs:54-58 | the hit points summed over the living units (stated by LivingHitPointsPositive) |
| BeverageBandits.LivingHitPointsPositive | src/bin/15.rs:54-58 | the hit points summed over living units are positive exactly when some unit lives |
| BeverageBandits.Outcome | src/bin/15.rs:53-58 | the outcome is 0 exactly when no round was completed or every unit is dead |
| BeverageBandits.CombatOutcome | src/bin/15.rs:30-59 | an outcome exists exactly when combat is over at the start, and it is then 0; otherwise the path search panics |
| BeverageBandits.GetAdjacentPosition | src/bin/15.rs:111-118 | four squares around a position, in the order up, down, left, right (AdjacentAreNeighbours states they are exactly the squares one step away) |
| BeverageBandits.AdjacentAreNeighbours | src/bin/15.rs:111-118 | the four adjacent positions are exactly the squares one orthogonal step away |
| BeverageBandits.FreeSquares | src/bin/15.rs:107 | the filter keeps exactly the squares that are not walls and that no unit, dead or alive, stands on |
| BeverageBandits.GetAllAdjacentSquare | src/bin/15.rs:99-110 | the free neighbours of the living units, in unit order (stated by AdjacentSquares) |
| BeverageBandits.AdjacentSquares | src/bin/15.rs:99-110 | a square is returned exactly when it is next to a living unit of either side and is free |
| BeverageBandits.ParseUnits | src/bin/15.rs:145-165 | the parser's walls are exactly the `#` squares and its units those of the reading-order scan |
| BeverageBandits.RowUnits | src/bin/15.rs:150-162 | the units of one map line, left to right (stated by RowUnitsFresh and RowUnitsComplete) |
| BeverageBandits.GridUnits | src/bin/15.rs:149-163 | the units of all lines in reading order (stated by GridUnitsFresh and GridUnitsComplete) |
| BeverageBandits.RowUnitsFresh | src/bin/15.rs:150-162 | every unit of a line is a fresh unit on a glyph other than `#` and `.` of that line |
| BeverageBandits.RowUnitsComplete | src/bin/15.rs:150-162 | every glyph of a line other than `#` and `.` gives its fresh unit |
| BeverageBandits.GridUnitsFresh | src/bin/15.rs:149-163 | every parsed unit is a fresh unit on its glyph |
| BeverageBandits.GridUnitsComplete | src/bin/15.rs:149-163 | every glyph of the map other than `#` and `.` gives its fresh unit |
| BeverageBandits.ParsedUnits | src/bin/15.rs:152-161 | every parsed unit is alive with 200 hit points and attack power 3, on a square that is neither `#` nor `.`, and is an elf exactly when the glyph is `E` |
| BeverageBandits.ParsedUnitsComplete | src/bin/15.rs:152-161 | conversely, every glyph other than `#` and `.` gives a unit on its square with 200 hit points, an elf exactly when the glyph is `E`: the units are exactly the unit glyphs |
| ChronalClassification.AllOpcodesEnumerates | src/bin/16.rs:28-48 | the iterator lists each of the 16 opcodes once, in declaration order |
| ChronalClassification.FromUsize | src/bin/16.rs:49-51 | `from_usize(i)` is the opcode at position i |
| ChronalClassification.NewInstruction | src/bin/16.rs:61-68 | the four fields are the four numbers in order |
| ChronalClassification.Compute | src/bin/16.rs:73-122 | the value each of the sixteen opcodes stores, from registers A and B or the immediates (Run, SymmetricOpcodes and the bitwise lemmas are stated over it) |
| ChronalClassification.BitAndPlusBitOr | src/bin/16.rs:85-96 | the bitwise and plus the bitwise or of two numbers is their sum |
| ChronalClassification.BitAnd | src/bin/16.rs:85-90 | the bitwise and is at most each operand |
| ChronalClassification.BitOr | src/bin/16.rs:91-96 | the bitwise or is at least each operand and at most their sum |
| ChronalClassification.BitAndCommutes | src/bin/16.rs:86 | the bitwise and commutes |
| ChronalClassification.BitOrCommutes | src/bin/16.rs:92 | the bitwise or commutes |
| ChronalClassification.Run | src/bin/16.rs:70-125 | only the output register changes; comparisons store 0 or 1; `seti` stores A, `setr` copies register A, `banr` and `borr` are bounded by their operands |
| ChronalClassification.SymmetricOpcodes | src/bin/16.rs:73-122 | `addr`, `mulr`, `banr`, `borr` and `eqrr` ignore the order of their two registers |
| ChronalClassification.ValidOpcodes | src/bin/16.rs:203-211 | the valid opcodes of a sample are exactly those whose result matches its after-state, in iterator order |
| ChronalClassification.CountAmbiguous | src/bin/16.rs:127-135 | part one counts exactly the samples that three or more opcodes match |
| ChronalClassification.SumOfIndicators | src/bin/16.rs:132-133 | a sum of 0/1 indicators is the number of ones |
| ChronalClassification.FirstGuess | src/bin/16.rs:155-171 | after the first pass each number's candidate set is exactly the opcodes every sample with that number matches |
| ChronalClassification.ConsistentStep | src/bin/16.rs:166-170 | one sample intersects its own number's candidates with the opcodes it matches and leaves the other numbers alone |
| ChronalClassification.FoundMembers | src/bin/16.rs:173-177 | `opcode_found` is exactly the members of the singleton candidate sets |
| ChronalClassification.Eliminate | src/bin/16.rs:180-188 | elimination keeps singletons and turns every other set into exactly that set minus the found opcodes, so each set only shrinks |
| ChronalClassification.TotalSizeShrinks | src/bin/16.rs:179-195 | a round that changes anything strictly shrinks the total candidate count, so the loop ends unless a round changes nothing |
| ChronalClassification.EliminateFound | src/bin/16.rs:173-195 | the loop's result is the candidate sets after some number of rounds from `first`, with 16 opcodes found and every set within its first guess; `None` only when the sets after some number of rounds from `first` are stuck (fewer than 16 found and a round changes nothing) |
| ChronalClassification.RoundKeepsFound | src/bin/16.rs:180-194 | a round keeps every singleton, so an opcode once in `opcode_found` stays there |
| ChronalClassification.FoundGrows | src/bin/16.rs:179-194 | `opcode_found` only grows from round to round |
| ChronalClassification.StuckStays | src/bin/16.rs:179-194 | once a round changes nothing, every later round gives the same sets |
| ChronalClassification.StuckNeverDone | src/bin/16.rs:179 | stuck after some round means that no round, earlier or later, finds 16 opcodes: the `while` condition never becomes false |
| ChronalClassification.DoneStays | src/bin/16.rs:179-200 | once 16 opcodes are found every later round gives the same sets, so the table does not depend on which finishing round the loop stops at |
| ChronalClassification.FoundBound | src/bin/16.rs:179 | 16 found opcodes among 16 sets means every set is a singleton and the sets are distinct |
| ChronalClassification.PickSingletons | src/bin/16.rs:197-200 | the table takes each set's only member, and the entries are distinct |
| ChronalClassification.ComputeConversionTable | src/bin/16.rs:154-201 | a table has 16 distinct opcodes, each number's opcode matches every sample carrying that number, and the table is the singletons the elimination rounds reach from the first guess once 16 are found; `None` only when those rounds get stuck, which by StuckNeverDone is exactly when the Rust loop runs forever |
| ChronalClassification.Execute | src/bin/16.rs:146-151 | a register that no instruction writes keeps its value |
| ChronalClassification.ExecuteAppend | src/bin/16.rs:146-151 | running two programs in turn is running their concatenation |
| ChronalClassification.ComputeInstructions | src/bin/16.rs:142-152 | starting from zeros, a register no instruction writes ends at 0 |
| ChronalClassification.ParseAll | src/bin/16.rs:247 | the fields all parse exactly when each one does, and then give their values in order |
| ChronalClassification.ParseLine | src/bin/16.rs:240-251 | `parse_line`: `None` exactly where Rust panics on a malformed field (overflow above `usize::MAX` aside, see Integer widths), that is when the stripped line has fewer than four blank-separated fields or any field is not a number; otherwise the four numbers are the first four fields' values |
| ChronalClassification.FirstFour | src/bin/16.rs:245-250 | the same statement for the already stripped text: `None` iff fewer than four fields or a field that is not a number, else the first four values |
| ChronalClassification.ParseInstructionLine | src/bin/16.rs:240-251 | a program line of four numerals parses into those four numbers |
| ChronalClassification.ParseBeforeLine | src/bin/16.rs:240-251 | a `Before: [a, b, c, d]` line parses into the four register values |
| ChronalClassification.ParseAfterLine | src/bin/16.rs:240-251 | an `After:  [a, b, c, d]` line parses into the four register values |
| ChronalClassification.ParseStripped | src/bin/16.rs:240-251 | a line whose prefixes, `]` and commas strip down to four numerals separated by blanks parses into those numbers |
| Text.FindFirst | src/bin/16.rs:246 | the leftmost occurrence of the separator, or its absence everywhere |
| Text.JoinSplit | src/bin/16.rs:246 | joining the pieces of `split` with the separator gives the text back |
| Text.Split | src/bin/16.rs:246 | `split` gives at least one piece (the pieces are stated by JoinSplit and SplitJoin) |
| Text.SplitJoin | src/bin/12.rs:76 | splitting joined pieces, none of which contains the separator's first character, gives the pieces back |
| Text.TrimStartMatches | src/bin/16.rs:242-243 | the result is a suffix that no longer starts with the pattern, and what was removed is a whole number of copies of the pattern |
| Text.TrimEndMatches | src/bin/16.rs:244 | the result is a prefix without a trailing `]`, and only `]` was removed |
| Text.Remove | src/bin/16.rs:245 | no comma is left, and a text without commas is unchanged |
| Text.RemoveKeepsOthers | src/bin/16.rs:245 | `replace(",", "")` deletes all commas and keeps every other character |
| Text.RemoveAppend | src/bin/16.rs:245 | deleting commas distributes over concatenation, so the kept characters stay in their order |
| Text.TrimStart | src/bin/12.rs:76 | the result is a suffix, starts with no whitespace, and only whitespace was removed; whitespace is Unicode `White_Space` as in `char::is_whitespace` |
| Text.TrimEnd | src/bin/12.rs:76 | the result is a prefix, ends with no whitespace, and only whitespace was removed |
| Text.Trim | src/bin/12.rs:76-78 | `trim`: a slice of the text that neither starts nor ends with whitespace, with only whitespace outside it |
| Text.ParseNat | src/bin/16.rs:247 | `parse::<usize>` succeeds exactly on an optional `+` followed by one or more digits, up to the `usize::MAX` overflow the model does not capture |
| Text.ParseShowNat | src/bin/16.rs:247 | parsing a printed number gives the number back |
| Text.ShowNat | src/bin/14.rs:15 | `to_string` is a non-empty string of digits with no leading zero: it starts with `0` only when it is `"0"` |

## Left out

- Reading the puzzle input: the six `part_one` and `part_two` entry points, `read_file` and the
  splitting of the whole input into sections on `\r\n` are not modelled. The model starts from
  the values those produce: the samples and program, the rules and initial state, the track
  and carts, the map lines, the serial number and the offset. Line parsing is modelled where
  the code parses a line (16.rs `parse_line`, 12.rs `parse_line` and the initial state, 15.rs
  `parse_input`, 13.rs `get_cart` and `get_tile_type`).
- Integer widths: values are unbounded integers. The model does not capture `i32`, `u32` and
  `usize` overflow in the power levels and sums of 11.rs, the plant sums of 12.rs, the
  register arithmetic of 16.rs, or the `u32` arithmetic of 14.rs's pattern search: the
  `10_u32.pow(...)` weights and the weighted window sum at 14.rs:35-39 can overflow for a window of
  ten or more digits, and the model computes them exactly. The `parse::<u32>().unwrap()` at
  14.rs:6 and 14.rs:10 panics on a numeral above `u32::MAX` (4294967295), and the
  `parse::<usize>().unwrap()` at 16.rs:247 on one above `usize::MAX`; `Text.ParseNat`, and with
  it ChocolateCharts.PartTwo, ChronalClassification.ParseLine and ChronalClassification.FirstFour,
  accepts numerals of any size and returns `Some` there.
  Rust's truncating `%` is modelled where the operand can be negative (11.rs:35).
- Hash order: `HashSet` and `HashMap` iteration order is not modelled. Sets and maps are
  Dafny `set` and `map`. Where the Rust result does not depend on the order (sums, `min`,
  `max`, membership, singleton sets), this loses nothing.
- `dbg!` and formatted output are not modelled. The `format!` of 11.rs's answer is not
  modelled either; its three numbers are the result.
- MineCartMadness.SimulateUntilFirstCrash and SimulateUntilLastCrash: `fuel` bounds how many
  carts move. A cart order that never crashes, or that never leaves one cart, ends in
  `OutOfFuel` instead of looping forever.
- ChocolateCharts.Solve2: `fuel` bounds the rounds of `loop`. A pattern that never appears
  gives `None` instead of looping forever. SearchFindsPresent states how much fuel is enough
  for a pattern that does appear.
- Text.TrimStart, TrimEnd and Trim: whitespace is the Unicode `White_Space` set that Rust's
  `char::is_whitespace` uses, written out as character ranges; no other Unicode property is
  modelled.
- ChronalClassification.ComputeConversionTable: the table is proved to be what the elimination
  rounds reach, and consistent with every sample, but not to be the only assignment consistent
  with the samples. The Rust `while` loop runs forever when elimination gets stuck; the model's
  `None` means exactly that (StuckNeverDone).
- ChronalClassification.FirstGuess, ComputeConversionTable and CountAmbiguous: a sample with an
  operand of 4 or more (and, for the first two, an opcode number of 16 or more) makes Rust panic
  while indexing the registers or the candidate table; the model requires well-formed samples
  instead of returning a panic result.
- ChronalClassification.ComputeInstructions and Execute: a program line whose opcode number has
  no table entry or whose operands are not register indices makes Rust panic; the model
  requires `Executable` programs instead.
- ChronalClassification.Run: does not state the arithmetic opcodes' values in its contract;
  those are the Rust expressions themselves, kept in `Compute`.
- BeverageBandits: `get_best_path`, `get_all_distances` and the unit turn inside
  `combat_outcome` are not modelled. The code calls `get_dijkstra_shortest_path`, which is
  `todo!()`, before any of them can affect the result. `CombatOutcome` models this: a combat
  that is not over at the start panics. `part_two` returns `None` and has no logic.
- 13.rs `parse_input`: the scan of the whole track into the tile map and the cart list is not
  modelled; its per-glyph rules `get_cart` and `get_tile_type` are.

## Findings

| source | as written | input that shows it | evidently intended | confidence | as-written member | corrected member |
|---|---|---|---|---|---|---|
| src/bin/14.rs:10 | `part_two` parses the digit string as `u32`, and `solve2` takes the window length from `to_string` of that number, so a leading zero is lost | puzzle input `01245`: the code searches four-digit windows for 1245 and answers 6, but the digits 0, 1, 2, 4, 5 first appear at index 5 | search for the digits as written, with the window as long as the input text | high; not executed | ChocolateCharts.PartTwoDropsLeadingZero | ChocolateCharts.PartTwoDigitsFindsDigits |
| src/bin/12.rs:16 | the growth "seen before the first generation" starts as the sum of the initial indices, so the first growth can equal it by coincidence, and the code then extrapolates after one generation | one plant at pot 1, rules `....# => #` and `#.... => #`, 2 generations: the first growth is 1, equal to the initial sum 1, so the code answers 3, but the second generation is {-3, 5} with sum 2 | start with no previous growth and extrapolate only after two equal consecutive growths | medium; not executed | SubterraneanSustainability.SimulateStopsEarly | SubterraneanSustainability.SimulateCorrectedExact |

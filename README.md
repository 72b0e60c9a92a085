# Advent of Code 2025, days 1–7, in Dafny

This project models the puzzle solvers of seven Advent of Code days and proves
what each promises:

- **Day 1, the dial safe.** A dial with 100 positions turns left or right. The
  safe counts how often the dial comes to rest on 0, and how often it passes 0.
- **Day 2, product IDs.** An ID is invalid when its decimal digits are one block
  written twice ("reflected"), or a block repeated at least twice. The ranges
  are filtered by those tests.
- **Day 3, battery banks.** From a bank of digits, pick `k` digits in order,
  greedily by weight, so that they make the largest `k`-digit number.
- **Day 4, paper rolls.** Count the rolls that have fewer than four of their
  eight neighbours holding paper. Then remove all such rolls at once, round
  after round, until none is accessible.
- **Day 5, the food database.** Covers inclusive ID ranges, membership, overlap
  and hull. A sorted merge compacts the ranges, and the foods and covered IDs
  are counted.
- **Day 6, the cephalopod worksheet.** A matrix of cells is transposed and
  rotated and its rows solved. A padded character grid is read column by
  column into problems whose sum or product is totalled.
- **Day 7, the tachyon manifold.** A beam falls from the manifold `S`. Splitters
  `^` send it left and right, and the model records which splitters the wave
  simulation activates. A memoised recursion counts the timelines a single
  particle can take.

Code that changes state step by step is kept imperative, as it is in the
source: `Safe.Rotate`, the day 4 `Map`, the day 5 `FoodDb` with its in-place
sort and compaction loop, the day 6 `Matrix` and column parser, and the day 7
`Grid` with its wave loop. Each method is proved against a specification
function, and the properties are lemmas about those functions. Panics of the
source (`expect`, `unwrap`, `ilog10(0)`) are modelled either as preconditions
or as an `Option`/`Result` error path. Machine integers are modelled as
unbounded `nat`/`int`. Rust's `HashMap` and `HashSet` become Dafny `map` and
`set`.

Shared pieces:
- `Wrappers`: `Option`, `Result`, and `CollectResults`, which is
  `collect::<Result<Vec<_>, _>>()`.
- `Text`: the Rust `str` operations the solvers use. These are `lines`,
  `split`, `split_once`, `trim`, `usize::from_str` and the decimal rendering of
  `to_string`.

## Model

| member | source | states |
|---|---|---|
| Wrappers.CollectResults | src/bin/day-2/main.rs:85-91 | collecting results succeeds iff every item parses; the values are then the parsed items in order; otherwise the error is that of the first failing item |
| Text.ToDecimal | src/bin/day-2/main.rs:58 | `to_string` of a number: a non-empty digit string without a leading zero (unless it is "0") |
| Text.ValueOfToDecimal | src/bin/day-2/main.rs:58 | the decimal value of the rendering of n is n |
| Text.ToDecimalOfValue | src/bin/day-2/main.rs:58-66 | rendering the value of a digit string without a leading zero gives the string back |
| Text.ParseNat | src/bin/day-5/main.rs:25 | `usize::from_str` succeeds iff the text is an optional '+' followed by a non-empty run of decimal digits |
| Text.ParseToDecimal | src/bin/day-5/main.rs:25 | parsing the decimal rendering of n gives n |
| Text.Split | src/bin/day-2/main.rs:87 | `split(',')` gives at least one piece, and no piece holds the separator |
| Text.JoinSplit | src/bin/day-2/main.rs:87 | joining the pieces of a split with the separator gives the text back |
| Text.SplitJoin | src/bin/day-2/main.rs:87 | splitting pieces that hold no separator, once joined, gives the pieces back |
| Text.SplitOnceAtFirst | src/bin/day-5/main.rs:92 | `split_once` at a one-character pattern finds nothing exactly when the character is absent, and otherwise cuts just before and after its first occurrence |
| Text.SplitOnce | src/bin/day-5/main.rs:17 | `split_once`: None only when the pattern occurs nowhere; otherwise the text is left + pattern + right, split at the first occurrence |
| Text.Lines | src/bin/day-3/main.rs:72 | `lines()`: no line holds a '\n' |
| Text.LinesJoinLines | src/bin/day-3/main.rs:72 | lines without '\n' or '\r', joined with '\n', split back into the same lines |
| Text.Trim | src/bin/day-6/main.rs:255 | `trim`: the result is a window of the text, and its first and last characters are not whitespace |
| Text.TrimPadded | src/bin/day-6/main.rs:255 | trimming a word with no whitespace at its ends, padded with whitespace on both sides, gives the word |
| Dial.Wrap | src/bin/day-1/main.rs:62-73 | the wrapped dial value lies in [0, 100) |
| Dial.WrapRestsOnTarget | src/bin/day-1/main.rs:62-63 | the wrapped dial value is the unwrapped target modulo 100 (Euclidean) |
| Dial.WrapCountsPasses | src/bin/day-1/main.rs:66-70 | for a dial in [0, 100), the crossings counted are the multiples of 100 strictly between the old dial and the unwrapped target, in either direction |
| Dial.MultiplesBetweenClosedForm | src/bin/day-1/main.rs:66-70 | the number of multiples of 100 in (lo, hi) is ⌊(hi−1)/100⌋ − ⌊lo/100⌋ |
| Dial.Turned | src/bin/day-1/main.rs:46-60 | one rotation keeps the dial in [0, 100); the crossings never decrease; the zero count grows by exactly 1 iff the new dial is 0 |
| Dial.TurnedSpec | src/bin/day-1/main.rs:46-54 | after `Right(n)` the dial is (old + n) mod 100, and after `Left(n)` it is (old − n) mod 100; the crossings added are the multiples of 100 passed |
| Dial.CountsNeverDecrease | src/bin/day-1/main.rs:55-59 | over any sequence of rotations, neither the zero count nor the crossings decrease |
| Dial.Safe.constructor | src/bin/day-1/main.rs:38-44 | a new safe rests at the given dial value with both counters at 0 |
| Dial.Safe.Rotate | src/bin/day-1/main.rs:46-60 | the fields after `rotate` are exactly the counters `Turned` gives for the old ones |
| Dial.ParseDirection | src/bin/day-1/main.rs:18-34 | a line parses iff it starts with 'L' or 'R' followed by a number; 'L' gives `Left`, 'R' gives `Right`, with that count; any other first character is `UnexpectedInput` |
| Dial.ParseLine | src/bin/day-1/main.rs:21-31 | an empty line is the `split_at(1)` panic (`EmptyLine`); any other line is parsed as `ParseDirection` parses it |
| Dial.ParseDirections | src/bin/day-1/main.rs:18-34 | the lines parse iff each is non-empty and parses, giving one direction per line in order; otherwise the error is that of the first failing line, and the later lines are never looked at; the result is the `split_at(1)` panic exactly when that first failing line is empty |
| Dial.FirstFailureDecides | src/bin/day-1/main.rs:18-34 | collecting stops at the first failing line: the panic on an empty line happens iff every earlier line parsed |
| Dial.ParseRendered | src/bin/day-1/main.rs:18-34 | parsing the written form of any directions gives those directions back |
| DialTests.BadLineBeforeEmptyLine | src/bin/day-1/main.rs:18-34 | ["X", ""] gives "Unexpected Input": the empty line after the bad one is never split |
| DialTests.EmptyLineAfterGoodLine | src/bin/day-1/main.rs:18-34 | ["L1", ""] reaches the `split_at(1)` panic on the empty line |
| DialTests.SampleParsed | src/bin/day-1/main.rs:108-121 | the ten sample lines parse to the sample directions |
| DialTests.SampleRotations | src/bin/day-1/main.rs:120-138 | the sample from 50 gives zero count 3 and total 6 |
| DialTests.MultiWrap | src/bin/day-1/main.rs:141-148 | R1000 from 50 crosses 0 ten times |
| DialTests.LeftToZero | src/bin/day-1/main.rs:151-158 | L22 from 22 gives total 1 |
| DialTests.RightToZero | src/bin/day-1/main.rs:161-168 | R199 from 1 gives total 2 |
| ProductIds.ParseRange | src/bin/day-2/main.rs:15-16 | the error is "failed to parse range" exactly when the text has no '-' |
| ProductIds.ParseRangeAtFirstDash | src/bin/day-2/main.rs:15-27 | a range parses iff it has a '-' and the texts before and after the first '-' are both numbers, giving those two numbers; a bad left side gives the left-value message quoting that text, a good left side and a bad right side the right-value message quoting the right text |
| ProductIds.ParseRenderRange | src/bin/day-2/main.rs:12-27 | parsing "left-right" written from a range gives that range |
| ProductIds.ParseRenderRanges | src/bin/day-2/main.rs:85-91 | parsing the comma-joined ranges gives the ranges back |
| ProductIds.Ilog10Digits | src/bin/day-2/main.rs:38 | `ilog10(n) + 1` is the number of decimal digits of n |
| ProductIds.ReflectedIff | src/bin/day-2/main.rs:37-47 | for n ≥ 1, `number_is_reflected(n)` holds iff n has an even number of digits and the high half equals the low half |
| ProductIds.RepeatedDigitsIff | src/bin/day-2/main.rs:56-82 | a string is a block repeated at least twice iff some block length k with 1 ≤ k < length divides it and every character repeats the leading block |
| ProductIds.ContainsRepeatedSubsequence | src/bin/day-2/main.rs:56-82 | the search returns true iff the decimal string of n is a block repeated at least twice with nothing left over |
| ProductIds.ReflectedIsRepeated | src/bin/day-2/main.rs:37-47 | every reflected number also passes the repeated-block test |
| ProductIds.ReflectionsExact | src/bin/day-2/main.rs:30-35 | the reflections of [lo, hi] are exactly its reflected numbers, in ascending order |
| ProductIds.ExtractInvalidRepetitions | src/bin/day-2/main.rs:49-54 | the result is exactly the numbers of the range whose decimal string is a repeated block, in ascending order |
| ProductIdsTests.SampleStartParsed | src/bin/day-2/main.rs:125 | the start of the sample input parses to the ranges 11-22 and 95-115 |
| ProductIdsTests.ElevenToTwentyTwo | src/bin/day-2/main.rs:30-35 | the reflections of 11-22 are 11 and 22 |
| ProductIdsTests.NinetyFiveToHundredFifteen | src/bin/day-2/main.rs:30-35 | the only reflection of 95-115 is 99 |
| ProductIdsTests.LongReflection | src/bin/day-2/main.rs:37-47 | 1188511885 is reflected and 1188511886 is not |
| ProductIdsTests.NeighbourNotRepeated | src/bin/day-2/main.rs:56-82 | no block of 824824825 repeats to fill it: only blocks of 1 and 3 digits divide its length, and each fails somewhere |
| ProductIdsTests.SampleRepetitions | src/bin/day-2/main.rs:56-82 | 824824824 is a repeated block and its neighbour 824824825 is not |
| BatteryBanks.ParseBank | src/bin/day-3/main.rs:7-21 | a line parses iff every character is a decimal digit; the bank is then the digits' values in order; otherwise the error is the source's message "failed to parse battery bank " followed by the whole line |
| BatteryBanks.ParseBanks | src/bin/day-3/main.rs:70-75 | the input parses iff every line is all digits, giving one bank per line |
| BatteryBanks.WeightIs | src/bin/day-3/main.rs:40-46 | the weight of a position is its digit times 10^min(digits after it, k−1) |
| BatteryBanks.WeightBound | src/bin/day-3/main.rs:40-46 | no weight exceeds 9·10^(k−1) |
| BatteryBanks.Highest | src/bin/day-3/main.rs:48-57 | the fold finds nothing iff the bank is empty; otherwise it yields the maximal weight and the first index carrying it |
| BatteryBanks.TurnOnNothing | src/bin/day-3/main.rs:30-32 | choosing zero digits gives 0 |
| BatteryBanks.TurnOnBound | src/bin/day-3/main.rs:34-66 | a successful selection of k digits is below 10^k |
| BatteryBanks.TooShortPanics | src/bin/day-3/main.rs:58 | a bank shorter than k reaches the `expect` on an empty bank |
| BatteryBanks.NonzeroSucceeds | src/bin/day-3/main.rs:58-66 | for a bank with no zero digit, the selection succeeds iff k ≤ length |
| BatteryBanks.GreedyPicks | src/bin/day-3/main.rs:40-57 | with no zero digit, the greedy choice is the first highest digit among the positions that leave k−1 digits after them |
| BatteryBanks.GreedyStep | src/bin/day-3/main.rs:60-66 | the selection is the chosen digit times 10^(k−1) plus the selection of k−1 digits from the strict suffix after it |
| BatteryBanks.BestFromIsMax | src/bin/day-3/main.rs:29-67 | the reference `Best` is the largest of its candidates, one per possible first position, each being that digit times 10^(k−1) plus the best k−1 digits after it |
| BatteryChoices.SelectionAtMostBestFrom | src/bin/day-3/main.rs:29-67 | any strictly increasing choice of positions, all at t or later, spells a number no larger than `Best` of the suffix from t |
| BatteryChoices.SelectionAtMostBest | src/bin/day-3/main.rs:29-67 | any strictly increasing choice of k positions in the bank spells a number no larger than `Best(bank, k)` |
| BatteryChoices.BestIsSelectedFrom | src/bin/day-3/main.rs:29-67 | some strictly increasing choice of k positions, all at t or later, spells exactly `Best` of the suffix from t |
| BatteryChoices.BestIsSelected | src/bin/day-3/main.rs:29-67 | some strictly increasing choice of k positions in the bank spells exactly `Best(bank, k)`, so `Best` is the largest number k batteries taken in bank order can spell |
| BatteryBanks.GreedyIsBest | src/bin/day-3/main.rs:29-67 | for a bank with no zero digit and k ≤ length, `turn_on_inner` returns `Best(bank, k)`, which by `SelectionAtMostBest` and `BestIsSelected` is the largest number spelled by k batteries in bank order |
| BatteryBanksTests.FirstSampleBank | src/bin/day-3/main.rs:104 | 987654321111111 with k = 2 gives 98 |
| BatteryBanksTests.SecondSampleBank | src/bin/day-3/main.rs:105 | 811111111111119 with k = 2 gives 89 |
| BatteryBanksTests.ThirdSampleBank | src/bin/day-3/main.rs:106 | 234234234234278 with k = 2 gives 78 |
| BatteryBanksTests.FourthSampleBank | src/bin/day-3/main.rs:107 | 818181911112111 with k = 2 gives 92 |
| BatteryBanksTests.LetterInBank | src/bin/day-3/main.rs:7-21 | the line "9a" fails with the message "failed to parse battery bank 9a" |
| PaperRolls.DirectionsAreOffsets | src/bin/day-4/main.rs:40-49 | `DIRECTIONS` lists the eight non-zero offsets in {−1, 0, 1}², each once |
| PaperRolls.CountNeighborsIsNeighbours | src/bin/day-4/main.rs:52-69 | `count_neighbors` is the number of the eight offsets whose cell is inside the grid and holds paper, so it is at most 8 |
| PaperRolls.AccessibleRolls | src/bin/day-4/main.rs:71-80 | the accessible rolls are exactly the paper positions with fewer than four neighbouring rolls |
| PaperRolls.CountAccessibleRolls | src/bin/day-4/main.rs:75-80 | the count is at most the number of rolls, and it is 0 iff no roll is accessible |
| PaperRolls.ErodeRound | src/bin/day-4/main.rs:93-103 | one round clears every candidate, changes no other cell, and leaves exactly the other rolls as paper |
| PaperRolls.ExhaustAccounting | src/bin/day-4/main.rs:82-106 | the rolls removed plus the rolls left equal the initial rolls, so the total removed is at most the initial count |
| PaperRolls.ExhaustStops | src/bin/day-4/main.rs:89-92 | erosion ends with no accessible roll |
| PaperRolls.ExhaustKeepsPaper | src/bin/day-4/main.rs:99-103 | erosion keeps the paper set equal to the cells holding paper, and keeps the grid's cells |
| PaperRolls.FirstRoundRemoves | src/bin/day-4/main.rs:83-105 | when some roll is accessible, erosion removes at least one roll and that roll is gone |
| PaperRolls.Scan | src/bin/day-4/main.rs:19-29 | every character becomes a cell at (column, row), holding paper exactly for '@', and the paper positions are the cells holding paper |
| PaperRolls.Map.constructor | src/bin/day-4/main.rs:15-38 | `Map::from` gives the cells of the text, paper exactly at '@', width of the first line and height of the line count |
| PaperRolls.Map.ClearCandidates | src/bin/day-4/main.rs:99-101 | the loop writes "no paper" at every candidate and nowhere else |
| PaperRolls.Map.ExhaustAllAccessibleRolls | src/bin/day-4/main.rs:82-106 | the method returns the total of the erosion function and leaves its final cells and paper set, keeping the paper invariant |
| FoodDatabase.Size | src/bin/day-5/main.rs:128-130 | the size of a well-formed range is the number of IDs it includes |
| FoodDatabase.SpanSize | src/bin/day-5/main.rs:128-130 | a well-formed range includes right − left + 1 IDs |
| FoodDatabase.ContainsIff | src/bin/day-5/main.rs:132-134 | for a well-formed inner range, `contains` holds iff every ID it includes is included by the outer range |
| FoodDatabase.OverlapsIff | src/bin/day-5/main.rs:136-141 | on well-formed ranges, `overlaps` holds iff max(left) ≤ min(right), iff they share an ID |
| FoodDatabase.Combine | src/bin/day-5/main.rs:143-155 | `combine` returns a range iff the two overlap; that range includes exactly the IDs of either one, and it is well formed when both are |
| FoodDatabase.CombineCommutes | src/bin/day-5/main.rs:143-155 | combining a with b gives the same as combining b with a |
| FoodDatabase.AnyIncludesIff | src/bin/day-5/main.rs:37-45 | an ID is fresh iff some range includes it |
| FoodDatabase.SortByLeft | src/bin/day-5/main.rs:30 | the in-place sort leaves the ranges sorted by left end and is a permutation |
| FoodDatabase.Compact | src/bin/day-5/main.rs:47-75 | the merge never yields more ranges, covers exactly the same IDs, keeps well-formedness, and on ranges sorted by left yields separated, strictly increasing ranges |
| FoodDatabase.SeparatedIsSorted | src/bin/day-5/main.rs:47-75 | separated well-formed ranges are strictly increasing in both ends |
| FoodDatabase.SumSizesCounts | src/bin/day-5/main.rs:77-79 | on separated well-formed ranges, the sum of the sizes is the number of distinct covered IDs |
| FoodDatabase.FreshFoods | src/bin/day-5/main.rs:37-45 | the fresh foods are the listed foods that some range includes |
| FoodDatabase.FreshFoodsCount | src/bin/day-5/main.rs:37-45 | their number counts positions of the food list, so repeats count |
| FoodDatabase.FreshFoodsCoverage | src/bin/day-5/main.rs:37-79 | two range lists covering the same IDs find the same fresh foods, so compaction does not change the answer |
| FoodDatabase.ParseRange | src/bin/day-5/main.rs:91-92 | the error is "failed to parse range" exactly when the line has no '-' |
| FoodDatabase.ParseRangeAtFirstDash | src/bin/day-5/main.rs:91-103 | a line parses iff it has a '-' and the texts before and after the first '-' are both numbers, giving those numbers; a bad left side gives the left-value message quoting that text, a good left side and a bad right side the right-value message quoting the right text |
| FoodDatabase.ParseRenderRange | src/bin/day-5/main.rs:88-103 | parsing "left-right" written from a range gives that range |
| FoodDatabase.ParseFood | src/bin/day-5/main.rs:22-28 | a food line parses iff it is a number, giving that number; otherwise the error is "failed to parse a food into a number" |
| FoodDatabase.ParseFoodDb | src/bin/day-5/main.rs:13-29 | the text parses iff it splits at a blank line and every line before it is a range and every line after it a food; without a blank line the error is "Failed to split food db"; otherwise the error is the first failing range line's, and only when all ranges parse the first failing food line's; on success the ranges and foods are the parsed lines on either side of the first blank line |
| FoodDatabase.BadFoodRejected | src/bin/day-5/main.rs:22-28 | when the ranges parse, any food line that is not a number makes the whole text fail with "failed to parse a food into a number" |
| FoodDatabase.ParseRenderFoodDb | src/bin/day-5/main.rs:13-29 | parsing the written ranges, a blank line and the written foods gives the ranges and foods back |
| FoodDatabase.PermutedRanges | src/bin/day-5/main.rs:30 | reordering the ranges keeps them well formed and covering the same IDs |
| FoodDatabase.FoodDb.constructor | src/bin/day-5/main.rs:8-11 | a database holds the given ranges and foods |
| FoodDatabase.FoodDb.TryFrom | src/bin/day-5/main.rs:13-34 | parse errors are passed on; on success the ranges are the parsed ones, reordered and sorted by left end, and the foods are the parsed ones |
| FoodDatabase.FoodDb.CountFreshFoods | src/bin/day-5/main.rs:37-45 | the count is the number of food positions some range includes, at most the number of foods |
| FoodDatabase.FoodDb.CompactRanges | src/bin/day-5/main.rs:47-75 | compaction keeps the foods, never adds ranges, covers the same IDs, and on sorted well-formed ranges leaves separated ranges whose sizes sum to the number of covered IDs |
| FoodDatabase.FoodDb.CountPossibleFreshIngredients | src/bin/day-5/main.rs:77-79 | on separated ranges the count is the number of distinct covered IDs |
| FoodDatabaseTests.SampleParsed | src/bin/day-5/main.rs:184-194 | the sample text parses to the four sample ranges and six foods |
| FoodDatabaseTests.SampleFresh | src/bin/day-5/main.rs:37-45 | the fresh sample foods are 5, 11 and 17 |
| FoodDatabaseTests.SampleCoverage | src/bin/day-5/main.rs:47-75 | the sample ranges cover the same IDs as 3-5 and 10-20 |
| FoodDatabaseTests.SampleAnswers | src/bin/day-5/main.rs:196-212 | whatever order the sort leaves, the sample has 3 fresh foods and 14 covered IDs |
| FoodDatabaseTests.SampleProblems | src/bin/day-5/main.rs:196-212 | parsing the sample and running both counts gives 3 and 14 |
| Worksheet.ParseOperator | src/bin/day-6/main.rs:251-261 | an operator parses iff the trimmed cell is exactly "*" or "+", giving that operator |
| Worksheet.ParsePaddedOperator | src/bin/day-6/main.rs:251-261 | an operator symbol padded with whitespace parses to that operator |
| Worksheet.ParseOperation | src/bin/day-6/main.rs:217-229 | a row fails iff it is empty or its first cell is not an operator; otherwise the operation has that operator and the remaining cells |
| Worksheet.ParseOperationRoundTrip | src/bin/day-6/main.rs:217-229 | an operator symbol followed by cells parses to that operation |
| Worksheet.ApplyOperationValue | src/bin/day-6/main.rs:231-243 | an operation has a value iff every cell is a number, and the value is the sum or product of those numbers |
| Worksheet.ApplyAppend | src/bin/day-6/main.rs:231-243 | the sum of a concatenation is the sum of the sums, and the product is the product of the products |
| Worksheet.ParseMathBook | src/bin/day-6/main.rs:191-203 | a matrix parses iff every row does, giving one operation per row in order |
| Worksheet.TotalDefined | src/bin/day-6/main.rs:205-208 | the total is defined iff no operation's `expect` panics |
| Worksheet.Transposed | src/bin/day-6/main.rs:157-169 | the transpose has one row per column, each as long as the matrix is tall, and t[x][y] = m[y][x] |
| Worksheet.RotatedClockwise | src/bin/day-6/main.rs:171-177 | r[x][j] = m[rows−1−j][x] |
| Worksheet.RotatedCounterClockwise | src/bin/day-6/main.rs:179-183 | r[i][y] = m[y][cols−1−i] |
| Worksheet.RotateRoundTrip | src/bin/day-6/main.rs:157-183 | rotating a rectangular matrix clockwise and then counter-clockwise gives it back |
| Worksheet.Matrix.constructor | src/bin/day-6/main.rs:153-155 | a matrix holds the given rows |
| Worksheet.Matrix.Transpose | src/bin/day-6/main.rs:157-169 | the nested loops leave the transpose of the old rows |
| Worksheet.Matrix.RotateClockwise | src/bin/day-6/main.rs:171-177 | transposing and then reversing each row in place leaves the clockwise rotation |
| Worksheet.Matrix.RotateCounterClockwise | src/bin/day-6/main.rs:179-183 | transposing and then reversing the order of the rows leaves the counter-clockwise rotation |
| Worksheet.SolveRows | src/bin/day-6/main.rs:191-208 | after rotating, the answer is defined iff the rows parse and no cell panics, and it is then the total of the parsed operations |
| CephalopodGrid.MaxWidth | src/bin/day-6/main.rs:33 | the widest line's length: no line is longer, and some line has it |
| CephalopodGrid.Padded | src/bin/day-6/main.rs:39-41 | a padded line keeps the line as a prefix and adds spaces up to the width |
| CephalopodGrid.PadLine | src/bin/day-6/main.rs:38-42 | the pushing loop gives the padded line |
| CephalopodGrid.GridFrom | src/bin/day-6/main.rs:30-48 | one row per line, each the line padded to the longest line length, so every row has the same length |
| CephalopodGrid.OperatorAt | src/bin/day-6/main.rs:93-98 | a column carries an operator iff its bottom character is '*' or '+' |
| CephalopodGrid.ColumnNumberValue | src/bin/day-6/main.rs:72-83 | a column's number is the value of the digits above the operator row, or 0 when there are none |
| CephalopodGrid.Numbers | src/bin/day-6/main.rs:72-88 | the numbers of a run: at most one per column, none of them zero |
| CephalopodGrid.NumbersAppend | src/bin/day-6/main.rs:72-88 | the numbers are read right to left, so the numbers of a + b are those of b then those of a |
| CephalopodGrid.RunProblem | src/bin/day-6/main.rs:71-91 | a finished run makes at most one problem, with non-zero numbers and the run's operator |
| CephalopodGrid.LastOperatorStep | src/bin/day-6/main.rs:93-98 | the operator of a run is the last '*' or '+' seen in it |
| CephalopodGrid.RunEnd | src/bin/day-6/main.rs:66-70 | a run ends at the first blank column after its start, or at the edge |
| CephalopodGrid.ParseCephalopodProblems | src/bin/day-6/main.rs:51-124 | the loop returns exactly the problems of the maximal runs of non-blank columns, in order |
| CephalopodGrid.ProblemsWellFormed | src/bin/day-6/main.rs:51-124 | every problem has at least one number and no number is zero |
| CephalopodGrid.ProblemsTotalAppend | src/bin/day-6/main.rs:126-134 | the total over joined problem lists is the sum of the totals |
| CephalopodGrid.ProblemsTotalBound | src/bin/day-6/main.rs:126-134 | each well-formed problem contributes at least 1 |
| CephalopodGrid.CephalopodTotal | src/bin/day-6/main.rs:126-134 | the total is the sum over the parsed problems of their sums or products, and at least the number of problems |
| Beams.TileOf | src/bin/day-7/main.rs:44-51 | parsing never produces a `Beam` tile |
| Beams.NextPos | src/bin/day-7/main.rs:141-157 | the step lands on (x+dx, y+dy) exactly when that point is in [0, width) × [0, height), else None |
| Beams.NextPosBack | src/bin/day-7/main.rs:141-157 | stepping back from where a step landed returns to the start |
| Beams.Laterals | src/bin/day-7/main.rs:108-129 | the lateral cells are the in-bounds left and right neighbours, on the same row |
| Beams.PropagateCases | src/bin/day-7/main.rs:97-139 | a beam over an empty cell writes one beam below; over a splitter it records the splitter and writes beams at its in-bounds sides, overwriting whatever is there; over a beam or the manifold, or off the grid, only its own coordinate leaves the active set |
| Beams.PropagateMovesDown | src/bin/day-7/main.rs:97-118 | `propagate_beam` removes its own coordinate, every beam it adds is on the row below, and no splitter is forgotten |
| Beams.PropagateConsistent | src/bin/day-7/main.rs:97-139 | every active beam holds a `Beam` tile, `Beam` is the only tile written, and active splitters are parsed splitters; propagation keeps this |
| Beams.TotalRunWave | src/bin/day-7/main.rs:97-102 | on a grid with a tile at every coordinate, no step of a wave reaches the `expect` on a missing tile |
| Beams.RunWaveKeeps | src/bin/day-7/main.rs:85-94 | a wave that reaches no missing tile keeps that invariant, keeps the splitters, and leaves active only unprocessed beams or beams on the next row |
| BeamWaves.WaveBeamsEmptyCells | src/bin/day-7/main.rs:97-118 | when no splitter touches another splitter or the manifold, every beam a wave starts lands on an empty parsed cell on the next row |
| BeamWaves.RunWaveSettles | src/bin/day-7/main.rs:85-94 | a whole wave, taken in any order, reaches no missing tile, moves the simulation one row down and matches the functional reference |
| BeamWaves.ManifoldFalls | src/bin/day-7/main.rs:83 | the first step from the manifold matches the functional reference |
| BeamWaves.SettledDone | src/bin/day-7/main.rs:85 | once no beam is active, the recorded splitters are those the reference reaches, and only empty cells were lit |
| BeamWaves.WaveFalls | src/bin/day-7/main.rs:85-94 | on a grid with every tile present the wave reaches no missing tile; a wave that reaches none keeps the invariant, keeps the splitters, and moves every active beam one row down |
| BeamGrid.Scan | src/bin/day-7/main.rs:42-55 | every character becomes its tile at (column, row); the manifold is the last 'S' in reading order, or none if there is no 'S' |
| BeamGrid.Listing | src/bin/day-7/main.rs:86-90 | the snapshot lists each active beam once, in some order |
| BeamGrid.Grid.constructor | src/bin/day-7/main.rs:37-66 | a parsed grid has the tiles of the text, no active beams or splitters, the char count of the first line as width and the line count as height, and the last 'S' as manifold |
| BeamGrid.Grid.SetTile | src/bin/day-7/main.rs:131-139 | the tile is written at the coordinate, no other coordinate changes, and the coordinate joins the active beams iff the tile is `Beam` |
| BeamGrid.Grid.MaybeSetTileAt | src/bin/day-7/main.rs:120-129 | `set_tile` one step away when that step is inside the grid, otherwise nothing |
| BeamGrid.Grid.PropagateBeam | src/bin/day-7/main.rs:97-118 | the new state is the propagation function applied to the old one |
| BeamGrid.Grid.PropagateAll | src/bin/day-7/main.rs:91-93 | propagating a snapshot in order stops exactly when the wave function reaches a missing tile below a beam, and otherwise gives the wave function's state |
| BeamGrid.Grid.PropagateWave | src/bin/day-7/main.rs:85-94 | one loop iteration succeeds on a grid with every tile present and, when it succeeds, keeps the invariant, grows the splitters and moves the beams one row down |
| BeamGrid.Grid.Descend | src/bin/day-7/main.rs:85-94 | the loop terminates, either at a missing tile or with no active beams, keeping the invariant and growing the splitters |
| BeamGrid.Grid.Activate | src/bin/day-7/main.rs:82-95 | `activate` fails only where the source's `expect` panics on a missing tile, and never on a grid with a tile at every coordinate; when it succeeds it ends with no active beam, and the active splitters only grow and stay among the parsed splitters; on a fresh full grid where no splitter touches another splitter or the manifold, they are exactly the splitters the reference reaches and only empty cells were lit |
| BeamPaths.PathCount | src/bin/day-7/main.rs:166-199 | a count exists only at a parsed cell, where the source's `expect` does not panic, and is at least one timeline |
| BeamPaths.PathCountTotal | src/bin/day-7/main.rs:174-177 | on a grid with a tile at every coordinate, the count of every parsed cell exists |
| BeamPaths.BranchesOfSteps | src/bin/day-7/main.rs:179-199 | a cell's count is the sum over its steps: an off-grid step gives 1, an in-grid step gives its target's count, and a step whose count is missing makes the sum missing |
| BeamPaths.ClearColumn | src/bin/day-7/main.rs:186-199 | a cell with parsed non-splitter cells all the way down its column has exactly one timeline |
| BeamPaths.BottomSplitter | src/bin/day-7/main.rs:180-199 | a splitter on the bottom row whose in-grid sides are parsed has exactly two timelines |
| BeamPaths.PathCountBound | src/bin/day-7/main.rs:166-199 | a cell whose count exists has at most 2^(rows below and including it) timelines |
| BeamPaths.SplittersDecide | src/bin/day-7/main.rs:179-189 | only splitters steer a particle: grids with the same splitters and the same parsed cells count the same timelines, or both reach a missing cell |
| BeamPaths.ActivatedPaths | src/bin/day-7/main.rs:159-163 | lighting empty cells with beams does not change the count, so `many_worlds` after `activate` counts the parsed grid's timelines |
| BeamGrid.Grid.ManyWorldRec | src/bin/day-7/main.rs:165-204 | the memoised recursion returns the unmemoised count, or nothing exactly where that count reaches a missing cell, and leaves a memo table that is still sound and, on success, holds the current cell |
| BeamGrid.Grid.ManyWorlds | src/bin/day-7/main.rs:159-163 | `many_worlds` returns the count of timelines from the manifold, which exists whenever the grid has a tile at every coordinate |
| BeamTests.RaggedNotTotal | src/bin/day-7/main.rs:37-66 | a grid whose second line is shorter than its first has a coordinate without a tile |
| BeamTests.RaggedActivates | src/bin/day-7/main.rs:82-118 | on that ragged grid `activate` still runs: the beam falls below the manifold and then off the grid |
| BeamTests.RaggedManyWorlds | src/bin/day-7/main.rs:165-204 | on that ragged grid `many_worlds` still counts one timeline |
| BeamTests.MissingCellPanics | src/bin/day-7/main.rs:174-177 | when a timeline reaches a coordinate without a tile there is no count, where the source panics |

## Left out

- `src/core.rs` is not part of this model. It reads the input file and dispatches on the command line.
- `main`, `problem_one` and `problem_two` of every day are left out, along with the `Display` impls, `Tile::render` and `println!`. They are output only.
- `Matrix::from` (src/bin/day-6/main.rs:11-25) splits lines with a regular expression. A `Matrix` is modelled as given rows of cells.
- The tests that read the real puzzle input depend on external files.
- Sample totals not proved:
  - The day 2 sums 1227775554 and 4174379265. Only the first two ranges are checked, plus single numbers.
  - The day 3 totals 357 and 3121910778619. The four k = 2 bank answers are proved, but not their sum or the k = 12 answers.
  - Day 4's 13 and 43.
  - Day 6's 4277556 and 3263827.
  - Day 7's 21 and 40.
  - These take far more proof search than the properties they illustrate. The general properties above cover the same code.
- Machine integers are unbounded: overflow and wrap-around of `usize`, `isize` and `i32` arithmetic, `pow` and products, and the `as` casts, are not modelled.
- `HashMap` and `HashSet` are Dafny `map` and `set`.
  - Day 4's `Option<()>` cells are booleans.
  - Day 7's snapshot of the active set is any duplicate-free listing of it.
  - The `&mut HashMap` memo of `many_world_rec` is passed in and returned.
- Text is `seq<char>`. `len()` on a line, which counts bytes in the source, is taken as its character count, so the inputs are assumed to be ASCII.
- Dial.Wrap: its own contract states only the range [0, 100). The modular and crossing facts are the separate lemmas `WrapRestsOnTarget` and `WrapCountsPasses`.
- ProductIds.ExtractInvalidReflections requires a range that does not include 0, because `ilog10(0)` panics.
- BatteryBanks.GreedyIsBest is stated only for banks with no zero digit. With a zero, the greedy choice can leave too few digits. For example, [0, 5] with k = 2 picks the 5 and then reaches the `expect` on an empty bank. That case is covered by `TooShortPanics` and the `None` result.
- FoodDatabase.Size requires a well-formed range, because `right - left + 1` underflows otherwise.
- FoodDatabase.SortByLeft does not state stability. The source's `PartialEq` compares left ends only, and `sort` is stable; the model states only sortedness and permutation.
- FoodDatabase.FoodDb.CountPossibleFreshIngredients equals the covered-ID count only on separated ranges, which is the state `compact_ranges` leaves.
- CephalopodGrid.ParseCephalopodProblems requires every row to be at least as long as the first, because indexing a shorter row panics. `Grid::from` guarantees this.
- CephalopodGrid.ColumnNumberValue does not model the `unwrap_or(0)` that an overflowing column of digits would reach.
- Worksheet.ApplyOperationValue models the `expect` panic on a non-numeric cell as `None`.
- BeamGrid.Grid.Activate states the functional reference only when no splitter is next to a splitter or the manifold. Otherwise the result depends on the order in which the set is enumerated.
- BeamGrid.Grid.Activate returns `false` where the source's `expect` panics on a missing tile below a beam. It states the functional reference only for grids with a tile at every coordinate, and it does not state the partial state that a panic leaves behind.
- BeamGrid.Grid.ManyWorlds returns `None` where the source's `expect` panics on a missing tile. The memo table left by a panicking call is not stated.
- BeamGrid.Grid.ManyWorldRec requires that no splitter has a splitter immediately left or right. Otherwise the source recurses without end, because it fills the memo only after recursing.
- BeamGrid.Grid.constructor requires an 'S' in the text; without one the source's `expect` panics.

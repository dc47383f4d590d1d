# Advent of Code 2022, days 1 to 11, in Dafny

This project models the puzzle solutions of the Rust crate
`advent_of_code_2022` and proves what they compute. Each Rust file
`src/dayN.rs` becomes one Dafny module `DayN` in `dayN.dfy`:

- **Day 1, calorie counting**: parse the lines into numbers and separators (every line that is not an integer),
  group them into elves, find the richest elf and the three richest.
- **Day 2, rock paper scissors**: the scoring tables and the line parsers.
- **Day 3, rucksacks**: item priorities and the character shared by two
  halves or by three lines.
- **Day 4, camp cleanup**: section ranges, containment, overlap and the
  line parser.
- **Day 5, supply stacks**: the crate drawing parser, the instruction
  parser and the two cranes, which move crates one at a time or in blocks
  on an array of stacks in place.
- **Day 6, tuning trouble**: the sliding-window marker search.
- **Day 7, no space left on device**: the `Finder` arena of files and
  directories (a class with a cursor), recursive sizes and the two size
  queries.
- **Day 8, treetop tree house**: the height grid, transposition, hidden
  trees and viewing distances, and both puzzle answers over the grid.
- **Day 9, rope bridge**: knot moves, the following rule, the `Tracker`
  class that records tail positions, and both puzzles.
- **Day 10, cathode-ray tube**: the instruction parser, the two-phase
  `Computer` state machine and the sampling loop of the first puzzle.
- **Day 11, monkey in the middle**: `find_int`, the monkey parser, worry
  arithmetic with Rust's truncating `/` and `%`, and one `round` of
  throwing on an array of monkeys in place.

Two helper modules hold what several days share. `Text` models the parts
of Rust's `str` API the code calls: `lines()`, `split_whitespace()`,
`split(char)`, splitting at non-digits, and integer parsing with its
inverse rendering. `Seqs` holds sequence reversal. `Wrappers` holds
`Option` and `Result`.

Conventions: strings are ASCII `seq<char>`; integers are unbounded; a Rust
`unwrap`, an `assert!` or an index that would panic becomes a
precondition; a `Result` in Rust stays a `Result` whose error cases are
stated. Reading the input file is replaced by a `text` parameter.

## Model

| member | source | states |
|---|---|---|
| Day1.Groups | src/day1.rs:23-36 | there is always at least one group of numbers |
| Day1.GroupsCount | src/day1.rs:24-32 | there is one group more than there are `None` entries |
| Day1.GroupsPartition | src/day1.rs:26-31 | the groups put back together are exactly the parsed numbers, in input order |
| Day1.ParseLines | src/day1.rs:38-47 | one entry per line; an entry is `Some(n)` exactly when the line parses as the integer `n` |
| Day1.IntsToElves | src/day1.rs:23-36 | one elf per `None`-separated group, so never empty; each elf carries the sum of its group |
| Day1.MaxElf | src/day1.rs:49-51 | the result is one of the elves and no elf carries more |
| Day1.Insert | src/day1.rs:56 | inserting into a sorted list keeps it sorted and adds exactly that elf |
| Day1.InsertBehind | src/day1.rs:56 | an elf inserted behind a smaller first element keeps the list sorted and adds exactly that elf |
| Day1.SortElves | src/day1.rs:56 | sorting yields an ascending permutation of the elves |
| Day1.Top3Elves | src/day1.rs:53-64 | "Not enough elves" exactly when there are fewer than three; otherwise three of the elves, largest first, and no elf left out carries more than the smallest one returned |
| Day1.PopLast | src/day1.rs:58 | popping the last element of a sorted list removes one copy of its largest element |
| Day1.PopKeeps | src/day1.rs:56-63 | each pop keeps the popped elves the largest, in descending order |
| Day1.PopDone | src/day1.rs:56-63 | after three pops the popped elves are among the elves and no remaining elf carries more than the third |
| Day1.TotalCalsCons | src/day1.rs:66-75 | the total of a list is its first elf's calories plus the total of the rest |
| Day1.Elf.Add | src/day1.rs:10-12 | definition: adds the amount to the calories; `ReduceAdds` states what folding it over elves gives |
| Day1.ReduceAdds | src/day1.rs:69-72 | folding `Elf::add` adds every later elf's calories to the accumulator |
| Day1.SumElves | src/day1.rs:66-75 | the fold over a non-empty list is the total of its calories |
| Day1.Puzzle1 | src/day1.rs:77-79 | the answer is the sum of some group and no group sums higher |
| Day1.Puzzle2 | src/day1.rs:81-85 | "Not enough elves" exactly when fewer than two lines are not integers; otherwise the calories of three group totals, largest first, that no other group exceeds: the sum of the three largest group sums |
| Day1.ElvesOfGroups | src/day1.rs:23-36 | the elves `ints_to_elves` builds are the group totals, one per group |
| Day1.TopThreeTotal | src/day1.rs:53-64 | the three elves `top_3_elves` picks, summed, give the sum of a top three of the elves |
| Day2.RPS.Score | src/day2.rs:12-36 | shape value plus 6 for a win, 3 for a draw, 0 for a loss, always in 1..9 |
| Day2.ScoreDraw | src/day2.rs:12-36 | playing a shape against itself scores its shape value plus 3 |
| Day2.OutcomesComplementary | src/day2.rs:12-36 | the outcome parts of a game and of the reversed game add up to 6 |
| Day2.FromLetter | src/day2.rs:38-45 | A and X are Rock, B and Y Paper, C and Z Scissors; any other character is `None` |
| Day2.Letters | src/day2.rs:49-52 | the filtered letters are the characters of the line that lie in "ABCXYZ" |
| Day2.LettersOrder | src/day2.rs:49-52 | filtering a line is filtering its two parts and concatenating, so letters keep their order |
| Day2.ParseLine | src/day2.rs:48-63 | the first two letters of "ABCXYZ" in the line, read as (opponent, me); "Not enough arguments in line!" exactly when there are fewer than two |
| Day2.GameScore | src/day2.rs:85-87 | the score of my shape (the second) against the opponent's |
| Day2.ScoreLine | src/day2.rs:65-83 | with X lose, Y draw, Z win, the score of the shape that reaches that outcome; "Not enough arguments in line." with fewer than two letters and "Not a valid turn." for letters in the wrong places |
| Day2.Examples | src/day2.rs:109-125 | the unit tests' cases: Scissors against Paper scores 9, the game (Rock, Paper) scores 8, "A Z" parses to (Rock, Scissors) |
| Day3.Priority | src/day3.rs:5-14 | 'a'..'z' score 1..26, 'A'..'Z' score 27..52, every other character has none |
| Day3.PriorityInjective | src/day3.rs:5-14 | different letters have different priorities |
| Day3.FindDuplicate | src/day3.rs:16-23 | the first character of the second half (the middle one included for odd lengths) that also occurs in the first half; `None` exactly when the halves share no character |
| Day3.FindShared | src/day3.rs:25-38 | the first character of `z` that also occurs in `x` and `y`; `None` exactly when no character is common to all three |
| Day4.From | src/day4.rs:12-18 | a range exactly when start <= end, holding the sections from start to end |
| Day4.Range.Overlap | src/day4.rs:20-36 | as written: for well-formed ranges, only two equal one-section ranges give `Some` |
| Day4.Range.Intersection | src/day4.rs:20-36 | with the guard turned around: `Some` exactly when the ranges overlap, holding exactly the shared sections |
| Day4.OverlapMissesSharedSections | src/day4.rs:21-22 | [1,5] and [3,7] share section 4, yet `overlap` answers `None`; the intersection is [3,5] |
| Day4.Range.Contains | src/day4.rs:38-40 | definition: `start <= other.start && end >= other.end`; `ContainsMeansSubset` states that it is section-set inclusion |
| Day4.ContainsMeansSubset | src/day4.rs:38-40 | `contains` holds exactly when every section of the other range is in this one |
| Day4.ContainsReflexive | src/day4.rs:38-40 | every range contains itself |
| Day4.ContainsTransitive | src/day4.rs:38-40 | containment is transitive |
| Day4.Range.Overlaps | src/day4.rs:42-44 | definition: `start <= other.end && end >= other.start`; `OverlapsMeansSharedSection` states that it means a shared section |
| Day4.OverlapsMeansSharedSection | src/day4.rs:42-44 | `overlaps` holds exactly when the ranges share a section |
| Day4.OverlapsSymmetric | src/day4.rs:42-44 | `overlaps` is symmetric |
| Day4.MutualContains | src/day4.rs:47-49 | definition: either range contains the other; `MutualContainsOverlaps` states its symmetry and that it implies `overlaps` |
| Day4.MutualContainsOverlaps | src/day4.rs:47-49 | `mutual_contains` is symmetric and implies `overlaps` |
| Day4.ParseLine | src/day4.rs:51-61 | `None` exactly when there is no second half or either half gives no range; otherwise the two ranges of the halves, both well formed |
| Day4.ParseRange | src/day4.rs:53-60 | `None` exactly when the second bound is missing or the start exceeds the end; otherwise the range of the two parsed bounds |
| Day4.RangeTextParses | src/day4.rs:51-61 | a range written as "a-b" parses back to itself |
| Day4.ParseLineRoundTrip | src/day4.rs:51-61 | a line written as "a-b,c-d" parses back to its two ranges |
| Day5.ParseCargo | src/day5.rs:14-28 | one stack per token of the label line; stack `k` holds the crates of column `4k+1`, bottom to top |
| Day5.NumberTokens | src/day5.rs:37-39 | the kept tokens all start with a digit |
| Day5.ParseInstruction | src/day5.rs:34-46 | succeeds exactly when the first three digit-led tokens are all digits, and then reads them as (amount, from, to) |
| Day5.InstructionWords | src/day5.rs:37-38 | the tokens of "move a from f to t" |
| Day5.InstructionNumbers | src/day5.rs:37-39 | of those tokens the digit-led ones are a, f and t |
| Day5.ParseInstructionRoundTrip | src/day5.rs:34-46 | "move a from f to t" parses back to (a, f, t) |
| Day5.CratesUpdate | src/day5.rs:54-57 | replacing one stack trades its crates for the new ones |
| Day5.TransferConserves | src/day5.rs:54-57 | moving crates from one stack onto another keeps every crate |
| Day5.MoveCrates | src/day5.rs:54-57 | definition: `amount` single moves, stopping at the first empty stack with the moves so far kept; `MoveCratesReverses`, `MoveCratesRunsOut` and `MoveCratesConserves` state its effect |
| Day5.MoveCratesReverses | src/day5.rs:54-57 | with enough crates, `from` loses its top `amount` crates, `to` gains them reversed, nothing else changes |
| Day5.MoveCratesSameStack | src/day5.rs:54-57 | moving crates onto their own non-empty stack changes nothing |
| Day5.MoveCratesRunsOut | src/day5.rs:54-57 | asking for too many crates moves all of them, reversed, and then fails |
| Day5.MoveCratesConserves | src/day5.rs:54-57 | single moves keep every crate, even when they fail |
| Day5.MoveOne | src/day5.rs:55-56 | definition: pop the top of `from` and push it on `to`, `None` on an empty `from`; `MoveOneConserves` and `MoveOneSameStack` state its effect |
| Day5.MoveOneConserves | src/day5.rs:54-57 | moving the top crate of a non-empty stack succeeds and keeps every crate |
| Day5.MoveOneSameStack | src/day5.rs:54-57 | moving a top crate onto its own stack changes nothing |
| Day5.MoveGrouped | src/day5.rs:67-73 | definition: the top `amount` crates moved as a block, with the popped crates lost on failure; `MoveGroupedConserves` and `MoveGroupedSameStack` state its effect |
| Day5.MoveGroupedConserves | src/day5.rs:67-73 | a block move with enough crates succeeds and keeps every crate |
| Day5.MoveGroupedSameStack | src/day5.rs:67-73 | a block moved onto its own stack lands where it was |
| Day5.SingleAndGroupedDiffer | src/day5.rs:54-57 | two crates moved one at a time arrive reversed, moved as a block they keep their order |
| Day5.PerformInstruction | src/day5.rs:48-59 | a bad instruction changes nothing; otherwise the stacks become the single-move result, and a pop on an empty stack reports the error after the moves already made |
| Day5.PerformInstructionGrouped | src/day5.rs:61-75 | a bad instruction changes nothing; otherwise the block-move result, and a pop on an empty stack reports the error with the popped crates gone |
| Day5.GetTops | src/day5.rs:77-83 | the top crate of every stack in order; "empty stack" exactly when some stack is empty |
| Day5.TopsOf | src/day5.rs:77-83 | stacks that are all non-empty give exactly their top crates |
| Day5.CargoStacks | src/day5.rs:14-28 | one stack per label |
| Day5.RunConserves | src/day5.rs:95-97 | a run of single moves keeps every crate, even when it stops at an error |
| Day5.RunGroupedConserves | src/day5.rs:111-113 | a successful run of block moves keeps every crate |
| Day5.StepConserves | src/day5.rs:95-97 | one single-move instruction keeps every crate, even when it fails |
| Day5.StepGroupedConserves | src/day5.rs:111-113 | a successful block-move instruction keeps every crate |
| Day5.FindSeparatorFrom | src/day5.rs:91 | the first "\n\r\n" at or after the start, or `None` when there is none |
| Day5.RunInstructions | src/day5.rs:95-97 | the stacks and result are those of the instructions applied in order until the first error |
| Day5.Perform | src/day5.rs:96 | one instruction with the chosen crane |
| Day5.Solve | src/day5.rs:94-98 | parse, run and read the tops, as specified by `Outcome` |
| Day5.Puzzle | src/day5.rs:88-115 | both puzzles on the file text, as specified by `Answer` |
| Day6.UniqueIsAllDistinct | src/day6.rs:11 | `all_unique` holds exactly when no character occurs twice |
| Day6.BackwardsDistinct | src/day6.rs:8-10 | a window read newest first is distinct exactly when it is distinct read forwards |
| Day6.FindMarker | src/day6.rs:6-16 | `Some(k)`: the `w` characters before `k` are distinct, `k > w`, and no earlier checked position qualifies; `None`: no checked position qualifies |
| Day6.Push | src/day6.rs:8 | putting the next character in front keeps the deque the newest characters, newest first |
| Day6.Drop | src/day6.rs:9-11 | dropping the oldest leaves the last `w` characters, and they are all distinct exactly when a marker ends there |
| Day6.Puzzle1 | src/day6.rs:4-17 | the same with windows of 4, so the answer is at least 5 |
| Day6.Puzzle2 | src/day6.rs:19-32 | the same with windows of 14, so the answer is at least 15 |
| Day7.ChildOf | src/day7.rs:54-65 | every child of a directory comes after it and names it as parent |
| Day7.SumFromHas | src/day7.rs:20-25 | each child's size is part of the directory's sum |
| Day7.ChildAtMostParent | src/day7.rs:20-25 | no child is bigger than its directory |
| Day7.SumFromEmpty | src/day7.rs:20-25 | an empty directory has size 0 |
| Day7.SumFromTwo | src/day7.rs:20-25 | two distinct children together are no bigger than their directory |
| Day7.AddedWellFormed | src/day7.rs:54-65 | `add` keeps the arena well formed: ids are indices, children come after and point back to their directory |
| Day7.AddedKeepsNode | src/day7.rs:54-65 | `add` keeps every existing node well formed |
| Day7.UnderAtMost | src/day7.rs:20-25 | a node is above another only when its id is smaller and it is a directory |
| Day7.UnderChain | src/day7.rs:20-25 | the directories above a node form a chain |
| Day7.UnderSomeChild | src/day7.rs:20-25 | a node strictly under a directory is under one of its children |
| Day7.UnderOneChildOrdered | src/day7.rs:20-25 | of two children in id order, at most one is above a node |
| Day7.UnderOneChild | src/day7.rs:20-25 | of the children of a directory, at most one is above a node |
| Day7.ParentOver | src/day7.rs:20-25 | a child's directory is above whatever the child is above |
| Day7.UnderTransitive | src/day7.rs:20-25 | being above is transitive |
| Day7.SumFromPast | src/day7.rs:20-25 | ids below the starting point add nothing |
| Day7.SumFromWithLast | src/day7.rs:54-65 | listing the newest node adds exactly its size |
| Day7.Size | src/day7.rs:20-25 | definition: a file's own size, a directory's the sum over its children; its meaning is stated by `SizeAfterAdd`, `ChildAtMostParent` and `SumFromHas` |
| Day7.SizeAfterAdd | src/day7.rs:54-65 | after `add`, the current directory and every directory above it grow by the new node's size and no other size changes |
| Day7.SumAfterAdd | src/day7.rs:54-65 | the same over the children of one directory |
| Day7.Finder.constructor | src/day7.rs:34-44 | a lone root directory with id 0 and no parent, which is the current node |
| Day7.Finder.Add | src/day7.rs:54-65 | one node appended with the next id and the current node as parent, listed as a child when the current node is a directory; no other node changes |
| Day7.Finder.FindChild | src/day7.rs:72-82 | some child of the current directory with that name, or `None` when there is none |
| Day7.Finder.Cd | src/day7.rs:67-88 | ".." moves to the parent; any other name moves to a child with that name and answers true, or answers false and stays |
| Day7.Finder.Parse | src/day7.rs:98-116 | "$ cd x" changes directory, other "$" lines and blank lines change nothing, "dir x" adds an empty directory and "n x" a file of size n |
| Day7.SmallDirTotal | src/day7.rs:124-133 | definition: the sum of the directory sizes up to 100 000; `SmallDirTotalAtMost`, `SmallDirTotalCounts` and `SmallDirTotalMonotone` state what it counts |
| Day7.SmallDirTotalMonotone | src/day7.rs:124-133 | raising the threshold never lowers the total |
| Day7.SmallDirTotalAtMost | src/day7.rs:124-133 | each counted directory adds at most the threshold |
| Day7.SmallDirTotalCounts | src/day7.rs:124-133 | every directory within the threshold is counted |
| Day7.SmallestAtLeast | src/day7.rs:144-154 | the smallest directory size reaching the need, which is some directory's size; `None` exactly when none reaches it |
| Day7.DirToDelete | src/day7.rs:141-154 | `None` exactly when the root is under 40 000 000; otherwise the smallest directory freeing enough, never more than the root |
| Day8.Digits | src/day8.rs:10-13 | the digits of a line, each below 10 |
| Day8.DigitsOfDigitLine | src/day8.rs:10-13 | a line of digits gives one height per character, in order |
| Day8.DigitsSkipsOthers | src/day8.rs:11 | characters that are not digits contribute nothing |
| Day8.NoDigits | src/day8.rs:11 | a line without digits gives no heights |
| Day8.VecOf2d | src/day8.rs:6-17 | one row per line, holding that line's digit values in order |
| Day8.Transpose | src/day8.rs:23-27 | row `i` of the result is column `i` of the grid |
| Day8.TransposeTwice | src/day8.rs:23-27 | transposing a rectangular grid twice gives it back |
| Day8.Reverse | src/day8.rs:86-90 | the elements from last to first |
| Day8.LeftHidden | src/day8.rs:40-51 | one flag per tree, for a non-empty line, as the `assert!` at line 41 demands |
| Day8.DirectionalHidden | src/day8.rs:40-51 | a tree is flagged exactly when a tree before it is at least as tall; the first never is |
| Day8.Hidden | src/day8.rs:32-38 | one flag per tree, for a non-empty line, since both calls of `directional_hidden` assert it |
| Day8.ReversedAll | src/day8.rs:86-90 | element `k` of the reversal is element `n-1-k` |
| Day8.LeftOfReversed | src/day8.rs:32-38 | hidden from the left on the reversed line is hidden from the right |
| Day8.ReversedHidden | src/day8.rs:35 | the reversed flags of the reversed line are the hidden-from-the-right flags |
| Day8.HiddenMeans | src/day8.rs:32-38 | a tree is hidden exactly when trees at least as tall stand on both sides |
| Day8.HiddenEnds | src/day8.rs:32-38 | the trees at both ends are never hidden |
| Day8.BlockerFrom | src/day8.rs:71-75 | scanning down, the nearest tree at least as tall, all trees in between shorter |
| Day8.Blocker | src/day8.rs:71-75 | the nearest tree before `i` (the first excepted) at least as tall, or index 0 |
| Day8.BlockerUnique | src/day8.rs:71-75 | the blocker is the only index with those properties |
| Day8.LeftView | src/day8.rs:66-81 | one distance per tree, for a non-empty line, as the `assert!` at line 67 demands |
| Day8.DirectionalView | src/day8.rs:66-81 | 0 for the first tree; for tree `i` the distance back to its blocker, between 1 and `i` |
| Day8.RightBlockerFrom | src/day8.rs:53-59 | scanning up, the nearest tree at least as tall, all trees in between shorter |
| Day8.RightBlocker | src/day8.rs:53-59 | the nearest tree after `i` (the last excepted) at least as tall, or the last index |
| Day8.RightBlockerUnique | src/day8.rs:53-59 | the right blocker is the only index with those properties |
| Day8.ReversedView | src/day8.rs:56 | the view of the reversed line, reversed back, is the distance to the right blocker |
| Day8.RightOfReversed | src/day8.rs:56 | the blocker on the reversed line mirrors the right blocker |
| Day8.View | src/day8.rs:53-59 | one score per tree, for a non-empty line, since both calls of `directional_view` assert it |
| Day8.ViewMeans | src/day8.rs:53-59 | the product of the distances to the nearest tree at least as tall on each side; 0 at both ends |
| Day8.CountVisible | src/day8.rs:101-106 | the count never exceeds either line's length |
| Day8.ColumnsHidden | src/day8.rs:95-96 | cell (r, c) holds whether the tree is hidden in its column |
| Day8.CountVisibleRow | src/day8.rs:97-107 | a row's count is the number of its trees visible from some edge |
| Day8.VisibleInRowBounds | src/day8.rs:97-107 | a row counts at most its length and at least its first tree |
| Day8.FirstVisible | src/day8.rs:97-107 | the first tree of every row is visible |
| Day8.VisibleCount | src/day8.rs:92-109 | definition: the sum over rows of the cells not hidden in both the row and the column; `VisibleRowCount`, `VisibleCountBounds` and `EdgeVisible` state what it counts |
| Day8.VisibleCountBounds | src/day8.rs:92-109 | the count lies between the number of rows and the number of cells |
| Day8.VisibleRowCount | src/day8.rs:97-107 | each visible cell of a row is counted |
| Day8.CountVisibleTruncate | src/day8.rs:103 | zipping stops at the shorter line |
| Day8.EdgeVisible | src/day8.rs:92-109 | every tree on the edge of the grid is visible |
| Day8.Max | src/day8.rs:120-121 | the maximum is an element and no element is larger |
| Day8.ColumnsView | src/day8.rs:114-115 | cell (r, c) holds the tree's view along its column |
| Day8.RowScores | src/day8.rs:120 | one score per column |
| Day8.BestScenic | src/day8.rs:111-123 | definition: the maximum over rows of the row's best product of row and column views; `BestScenicIsBest` states that it is the best scenic score |
| Day8.BestScenicIsBest | src/day8.rs:111-123 | the answer is the scenic score of some tree and no tree scores higher |
| Day8.BestScenicAttained | src/day8.rs:111-123 | some tree scores exactly the best score |
| Day8.BestScenicBounds | src/day8.rs:111-123 | no tree scores above the best score |
| Day8.RowScoresAt | src/day8.rs:114-120 | each entry of a row's scores is its tree's scenic score |
| Day8.BestScenicAtLeastZero | src/day8.rs:111-123 | the best score is never negative |
| Day8.Puzzle1 | src/day8.rs:92-109 | the count of trees not hidden in both their row and their column |
| Day8.Puzzle2 | src/day8.rs:111-123 | the best scenic score of the grid |
| Day9.DoMove | src/day9.rs:32-40 | "R"/"L" change only x, "U"/"D" change only y, by the distance; any other direction changes nothing |
| Day9.DoMoveAdds | src/day9.rs:32-40 | two moves in one direction make one move of the summed distance |
| Day9.DoMoveUndo | src/day9.rs:32-40 | moving back the same distance undoes a move |
| Day9.SquareBounds | src/day9.rs:43 | squares of 0 or 1 are at most 1, others at least 4 |
| Day9.InTension | src/day9.rs:42-44 | definition: squared distances summing above 2; `TensionIffApart` states that this means more than one king move apart |
| Day9.TensionIffApart | src/day9.rs:42-44 | squared distance above 2 exactly when more than one king move apart |
| Day9.TensionSymmetric | src/day9.rs:42-44 | tension is symmetric |
| Day9.Toward | src/day9.rs:64-73 | a coordinate moves by at most 1 toward its target, never past it |
| Day9.StepCloser | src/day9.rs:63-74 | a step in tension brings the knot one king move closer |
| Day9.Followed | src/day9.rs:62-76 | the knot ends out of tension, and stays put when already touching |
| Day9.FollowedCloser | src/day9.rs:62-76 | the knot ends touching and never moves away |
| Day9.Follow | src/day9.rs:62-76 | the recursive method ends where `Followed` says, out of tension |
| Day9.Trail | src/day9.rs:46-61 | the recorded positions include the start and the end |
| Day9.TrailTouching | src/day9.rs:46-61 | a knot already touching records only where it is |
| Day9.Tracker.Default | src/day9.rs:7-11 | at the origin with nothing recorded |
| Day9.Tracker.New | src/day9.rs:14-18 | at `p` with exactly `p` recorded |
| Day9.Tracker.FollowSet | src/day9.rs:46-61 | ends where `follow` does; the set gains the start, every intermediate position and the end |
| Day9.Tracker.Follow | src/day9.rs:20-22 | the same, so the knot ends out of tension, its position is recorded and the set only grows |
| Day9.Parse | src/day9.rs:79-86 | `Some` exactly when there are two tokens, a direction among R, L, U, D and an integer distance |
| Day9.Run1 | src/day9.rs:96-100 | definition: the puzzle 1 loop over the lines, head moved and tail following; `Run1Fails` states when it fails and that the set only grows |
| Day9.Run1Fails | src/day9.rs:96-97 | the run fails exactly when some line is not a valid move; the recorded set only grows |
| Day9.Run2 | src/day9.rs:115-126 | definition: the puzzle 2 loop over the lines, each unit step pulling the ten knots; `Run2Fails` states when it fails |
| Day9.Run2Fails | src/day9.rs:114-115 | the ten-knot run fails exactly when some line is not a valid move |
| Day9.Puzzle1 | src/day9.rs:93-102 | "Invalid move" exactly when some line is not a valid move; otherwise the number of positions the tail records |
| Day9.Chain | src/day9.rs:119-122 | one position per knot |
| Day9.ChainAt | src/day9.rs:119-122 | each knot follows its already moved predecessor |
| Day9.Pull | src/day9.rs:118-122 | the head knot moves one unit and every later one follows |
| Day9.PullAt | src/day9.rs:119-122 | knot `i` ends where following knot `i-1` takes it |
| Day9.RopeTouching | src/day9.rs:117-124 | after a unit step every adjacent pair of the ten knots, the tail included, is touching |
| Day9.PullKnots | src/day9.rs:118-122 | the array of knots becomes `Pull` of its old contents |
| Day9.PullRope | src/day9.rs:117-124 | one inner iteration: the knots step and the tail follows the last of them, recording its trail |
| Day9.Steps | src/day9.rs:117-124 | nine knots stay nine knots |
| Day9.MoveRope | src/day9.rs:117-124 | the knots, the tail and its record become `Steps` of their old values |
| Day9.Puzzle2 | src/day9.rs:109-127 | "Invalid move" exactly when some line is not a valid move; otherwise the number of positions the tail of a ten-knot rope records |
| Day10.TryFrom | src/day10.rs:21-33 | "noop" and "addx n" parse, extra tokens ignored; an empty line or a missing operand is `NotEnoughArguments`, a bad operand `ParseIntError`, any other token `InvalidInstruction` |
| Day10.TryFromRender | src/day10.rs:21-33 | a rendered instruction parses back to itself |
| Day10.Load | src/day10.rs:55-61 | the instruction is set, `wait` exactly for `addx`, `x` and the cycle unchanged |
| Day10.Tick | src/day10.rs:63-77 | the cycle grows by one; `noop` finishes with `x` unchanged |
| Day10.AddTakesTwoTicks | src/day10.rs:63-77 | `addx v` finishes on its second tick and only then adds `v` |
| Day10.NoopTakesOneTick | src/day10.rs:63-77 | `noop` finishes on its first tick and leaves `x` alone |
| Day10.Computer.Default | src/day10.rs:43-52 | x 1, cycle 0, `noop`, not waiting |
| Day10.Computer.SetInstruction | src/day10.rs:55-61 | the state becomes `Load` of the old one |
| Day10.Computer.CycleClock | src/day10.rs:63-77 | the state and answer are `Tick` of the old state |
| Day10.Puzzle1 | src/day10.rs:80-96 | the result is the loop's specification `Execute` from the default computer |
| Day10.Trace | src/day10.rs:63-77 | one value of `x` per cycle of the program |
| Day10.StrengthLate | src/day10.rs:86 | cycles after 220 contribute nothing |
| Day10.ParsesToRest | src/day10.rs:82 | parsed lines stay parsed after the first |
| Day10.Execute | src/day10.rs:85-94 | definition: the loop over cycles 0..=220 sampling strengths and loading instructions; `ExecuteTrace` and `Puzzle1Reference` tie it to the trace |
| Day10.ExecuteTrace | src/day10.rs:85-94 | the loop from any iteration sums the strengths of the trace, or fails when the program ends too early |
| Day10.ExecuteNoop | src/day10.rs:85-94 | the same, after a loaded `noop` |
| Day10.ExecuteAdd | src/day10.rs:85-94 | the same, after a loaded `addx` |
| Day10.ExecuteAddLate | src/day10.rs:85-94 | the same, after a loaded `addx` when the loop is past cycle 220 |
| Day10.ExecuteAddNext | src/day10.rs:85-94 | the same, after a loaded `addx` with lines left and the loop at cycle 220 or before |
| Day10.ExecuteLoads | src/day10.rs:85-94 | an iteration whose tick finishes the instruction samples the strength when due and loads the next line |
| Day10.AddTraceTail | src/day10.rs:63-77 | `addx` takes two cycles, and the sum over its trace is its first cycle's sample plus the rest after `x` changes |
| Day10.Puzzle1Reference | src/day10.rs:80-96 | with every line valid, the sum of `c * x` over cycles 20, 60, ..., 220 of the program's trace, or "not enough instructions" when it lasts 220 cycles or fewer |
| Day11.FindInt | src/day11.rs:121-131 | the value of the first run of digits; "no number found" exactly when there is none |
| Day11.NoRunsNoDigits | src/day11.rs:127-128 | there is no run of digits exactly when there is no digit |
| Day11.FindIntFails | src/day11.rs:121-131 | `find_int` fails exactly when the line has no digit |
| Day11.FindIntOf | src/day11.rs:121-131 | a number written between digit-free text and a non-digit is the one found |
| Day11.OperationOf | src/day11.rs:54-88 | the tokens after the '=' with the first skipped: fewer than three is the missing-arguments error; an operator other than `*` or `+` is `NotAValidOperation`; "* old" is squaring, "+ old" doubling, "* n" and "+ n" multiply and add `n`, and an operand that is not an integer is the parse error |
| Day11.IntToStringNoEquals | src/day11.rs:58 | a rendered number holds no '=' |
| Day11.TwoWords | src/day11.rs:61 | two tokens separated by a space split into those two |
| Day11.OperandWords | src/day11.rs:61-65 | the tokens of " old op operand" |
| Day11.OperationLineWords | src/day11.rs:58-65 | the tokens after the '=' of an operation line |
| Day11.IntToken | src/day11.rs:76-85 | a rendered number is one token, not "old" |
| Day11.ParseOperationWords | src/day11.rs:54-88 | an operation line whose tokens are "old", the operator and the operand of an operation parses to that operation |
| Day11.ParseOperationText | src/day11.rs:54-88 | a rendered operation parses back to itself |
| Day11.ParseOperationNumber | src/day11.rs:76-85 | a rendered multiplication or addition by a number parses back to itself |
| Day11.OperationLinePlain | src/day11.rs:54 | a rendered operation line holds no line break |
| Day11.ItemsOf | src/day11.rs:46-53 | every run of digits of the line, as numbers, in order |
| Day11.FromText | src/day11.rs:42-101 | fewer than six lines is always an error, and "not enough lines" only then; with every line read, the id, items, operation, divisor and both targets of the six lines, no inspections yet |
| Day11.FromTextErrors | src/day11.rs:42-101 | the error is that of the first of the six lines that is not read, or "not enough lines" when the text ends before any line fails |
| Day11.FromTextFailsAt | src/day11.rs:42-101 | when line `k` is the first not read, its error is the result |
| Day11.FromTextRunsOut | src/day11.rs:42-101 | when every line there is is read and there are fewer than six, the result is "not enough lines" |
| Day11.FirstLinesRead | src/day11.rs:45-91 | every line before the first failing one is read |
| Day11.ItemsText | src/day11.rs:46-53 | a rendered item list holds only digits, commas and spaces |
| Day11.Rendered | src/day11.rs:46-53 | one rendered number per item |
| Day11.ItemsOfItemsText | src/day11.rs:46-53 | the digit runs of a rendered list are the rendered items |
| Day11.ItemsTextCons | src/day11.rs:46-53 | the first rendered item of a longer list is a digit run of its own, before the rest's |
| Day11.NumberLineParses | src/day11.rs:89-91 | a number line is read back by `find_int` |
| Day11.ItemsLineParses | src/day11.rs:46-53 | an items line is read back to its items |
| Day11.OperationLineParses | src/day11.rs:54-88 | an operation line is read back to its operation |
| Day11.LastIsDigit | src/day11.rs:127 | a rendered number ends in a digit |
| Day11.IdCaption | src/day11.rs:45 | the id caption holds no digit |
| Day11.DivisorCaption | src/day11.rs:89 | the divisor caption holds no digit |
| Day11.TrueCaption | src/day11.rs:90 | the true-target caption holds no digit |
| Day11.FalseCaption | src/day11.rs:91 | the false-target caption holds no digit |
| Day11.FromTextRoundTrip | src/day11.rs:42-101 | the six rendered lines of a monkey parse back to it, with no inspections |
| Day11.MonkeyLinesParse | src/day11.rs:42-101 | each of the six rendered lines is one line and is read back to its field |
| Day11.FromTextOfLines | src/day11.rs:42-101 | six lines that each read back to a monkey's field parse, joined, to that monkey with no inspections |
| Day11.MulNegate | src/day11.rs:142 | multiplying by a negated factor negates the product |
| Day11.TruncatedRemainder | src/day11.rs:142 | the remainder of a truncated quotient has the dividend's sign and is smaller than the divisor |
| Day11.RemainderNegPos | src/day11.rs:142 | a negative dividend and positive divisor leave a remainder in (-b, 0] |
| Day11.RemainderPosNeg | src/day11.rs:142 | a non-negative dividend and negative divisor leave a remainder in [0, -b) |
| Day11.RemainderNegNeg | src/day11.rs:142 | a negative dividend and negative divisor leave a remainder in (b, 0] |
| Day11.RemT | src/day11.rs:142 | Rust's `%`: `a == b * (a / b) + r`, the sign of `a`, below the divisor, the usual remainder for non-negative operands |
| Day11.DivOne | src/day11.rs:142 | dividing by 1 changes nothing |
| Day11.GetDestination | src/day11.rs:103-109 | the true target exactly when the divisor divides the worry level |
| Day11.MulAtLeast | src/day11.rs:142 | a positive multiple is at least the factor |
| Day11.ModUnique | src/day11.rs:142 | the remainder is the unique one in range |
| Day11.ReductionKeepsDestination | src/day11.rs:142 | reducing a non-negative worry level modulo a multiple of the divisor keeps the destination |
| Day11.ModuloDivisible | src/day11.rs:160 | every test divisor divides the product of all of them |
| Day11.ModuloPositive | src/day11.rs:160 | the product of positive divisors is positive |
| Day11.Inspect | src/day11.rs:111-113 | definition: the closure the operation line builds, squaring, doubling, multiplying or adding; `ParseOperationText` ties it to the line it is read from |
| Day11.Worry | src/day11.rs:142 | definition: inspected, reduced by Rust's `%` modulo `modulo`, divided by `divisor` with truncation; `RemT` states the remainder and `UnreducedDestination` the destination it leads to |
| Day11.UnreducedDestination | src/day11.rs:178-180 | with divisor 1 and the product as modulo, an item goes where its unreduced worry level would send it |
| Day11.Throw | src/day11.rs:141-144 | throwing keeps the number of buffers; it is defined whenever throwing does not panic (`Throws`): nothing is demanded of a monkey with nothing to throw, otherwise non-zero divisors and a destination inside the buffers for each item thrown |
| Day11.FitSafe | src/day11.rs:133-149 | monkeys whose ids and targets all index the slice, with no zero divisor, never make `round` panic |
| Day11.IdleMonkeysSafe | src/day11.rs:141-144 | a round of idle monkeys, one naming target 5 and divisor 0, with zero `divisor` and `modulo`, does not panic, although its monkeys are not all `Fit` |
| Day11.SafeBefore | src/day11.rs:135 | a round that does not panic up to monkey `k` does not panic up to any earlier monkey |
| Day11.Turn | src/day11.rs:135-145 | a turn keeps the number of monkeys and buffers; it is defined whenever the turn does not panic (`TurnSafe`: the id indexes the buffers and what the monkey then holds is thrown without a panic) |
| Day11.Turns | src/day11.rs:135-145 | the turns change only items and counts, and leave the monkeys after `j` untouched; defined whenever none of the first `j` turns panics (`Safe`) |
| Day11.AfterRound | src/day11.rs:133-149 | a round keeps every monkey's id, operation, divisor and targets, and so keeps `Fit`; defined whenever no turn panics |
| Day11.Receive | src/day11.rs:136-140 | the monkey counts its held items and takes the staged ones |
| Day11.ThrowAll | src/day11.rs:141-144 | the buffer becomes `Throw` of its old contents, for any monkey whose throws do not panic, including one with no items |
| Day11.TakeTurn | src/day11.rs:135-145 | one turn, as `Turn`, whenever the turn does not panic |
| Day11.Release | src/day11.rs:146-148 | each monkey's items become its staged ones |
| Day11.TakeTurns | src/day11.rs:135-145 | every monkey takes its turn in order; the monkeys and the staged buffers become those of `Turns` over all monkeys, whenever no turn panics |
| Day11.Round | src/day11.rs:133-149 | the monkeys become `AfterRound` of their old contents, for every slice on which `round` does not panic |
| Day11.AfterRoundOf | src/day11.rs:133-149 | the monkeys of all turns with their staged items released are `AfterRound` |
| Day11.ThrowSends | src/day11.rs:141-144 | each buffer gains exactly the items sent to it, in throw order |
| Day11.SumUpdate | src/day11.rs:133-149 | replacing one count changes the total by the difference |
| Day11.SumFront | src/day11.rs:133-149 | the total is the first count plus the rest |
| Day11.SumZeros | src/day11.rs:134 | empty buffers hold nothing |
| Day11.LensUpdate | src/day11.rs:140-143 | replacing one buffer changes the staged total by the difference |
| Day11.ThrowCount | src/day11.rs:141-144 | throwing stages one item per item held |
| Day11.TurnCount | src/day11.rs:135-145 | a turn stages as many items as the monkey held |
| Day11.TurnsCount | src/day11.rs:135-145 | items not yet taken plus staged items are all the items |
| Day11.NothingStaged | src/day11.rs:134 | before any turn all items are untaken and none is staged |
| Day11.TurnsStepCount | src/day11.rs:135-145 | turn `j` moves exactly its monkey's items from untaken to staged |
| Day11.TurnStaged | src/day11.rs:135-145 | turn `j` stages exactly the items its monkey held |
| Day11.CountsFront | src/day11.rs:133-149 | the untaken items from `j` on are monkey `j`'s plus those after it |
| Day11.RoundConservesItems | src/day11.rs:133-149 | a round neither loses nor creates items |
| Day11.TurnsKeep | src/day11.rs:135-145 | a monkey's entry is untouched by later turns |
| Day11.TurnKeeps | src/day11.rs:135-145 | one later turn leaves an earlier monkey's entry untouched |
| Day11.RoundInspections | src/day11.rs:136 | each monkey's inspections grow by its own items plus those thrown to it earlier in the round |
| Day11.RoundItems | src/day11.rs:133-149 | after a round each monkey holds exactly the items thrown to it from its own turn on, in throw order |
| Day11.TurnsSent | src/day11.rs:135-145 | after the first turns, a monkey's buffer holds what was thrown to it since its own turn, or since the start if its turn is to come |
| Day11.TurnSent | src/day11.rs:140-144 | a turn empties its monkey's buffer and appends to every buffer what the monkey sends there |
| Day11.TurnBuffer | src/day11.rs:135-145 | the buffer after a turn is the thrown items of what the monkey held, onto the buffer with its own entry cleared |
| Day11.SentShape | src/day11.rs:141-143 | where items go depends only on a monkey's operation, divisor and targets |
| Text.Lines | src/day1.rs:40 | `str::lines()`: no piece holds a '\n'; `LinesOfJoinLines` states that it splits joined plain lines back into those lines |
| Text.LinesOfJoinLines | src/day1.rs:40 | lines joined with '\n', none holding a line break or ending in '\r' and the last not empty, come back from `lines()` |
| Text.Words | src/day10.rs:24 | definition: `split_whitespace()` as the maximal non-space runs; `Runs` states each piece is non-empty and space-free, `RunsCons` how one piece is cut |
| Text.Runs | src/day11.rs:127-128 | every piece is a non-empty run of characters satisfying the predicate |
| Text.RunsCons | src/day10.rs:24 | a run followed by a character outside it comes out as one piece, before the rest's pieces |
| Text.RunsSkip | src/day11.rs:127-128 | characters outside the runs in front of a string do not change its runs |
| Text.Split | src/day4.rs:52-53 | `str::split(sep)`: at least one piece, none holding the separator |
| Text.SplitCons | src/day4.rs:52-53 | a piece without the separator, then the separator, then the rest splits into that piece and the rest's pieces |
| Text.ParseNat | src/day5.rs:42-44 | definition: `usize::from_str`, an optional '+' then at least one digit; `ParseNatRoundTrip` states that it reads a rendered number back |
| Text.ParseNatRoundTrip | src/day5.rs:42-44 | parsing a rendered natural number gives it back |
| Text.ParseInt | src/day1.rs:41 | definition: `i32::from_str`, an optional sign then at least one digit; `ParseIntRoundTrip` states that it reads a rendered integer back |
| Text.ParseIntRoundTrip | src/day1.rs:41 | parsing a rendered integer, negative ones included, gives it back |

## Left out

- Reading the input file is replaced by a `text` parameter; `src/main.rs` prints answers and `src/lib.rs` only declares modules, so neither is modelled.
- The sum loops of `puzzle1` and `puzzle2` of days 2, 3 and 4 are not modelled: they only add up `score`, `score_line`, the priorities of `find_duplicate`/`find_shared`, or count `mutual_contains`/`overlaps` line by line.
- Machine integers: `i32`, `i64` and `usize` are unbounded here, so overflow (including `abs_diff().pow(2)` of day 9) is not modelled.
- Unicode: strings are ASCII, so byte slicing (day 3), byte offsets (day 6), `is_numeric` (day 11) and `is_ascii_digit` (day 8) coincide with character positions and decimal digits.
- Day10.Puzzle1Reference: relates the loop to the trace only when every line is a valid instruction; a bad line is an error of `Execute` itself, stated by `Day10.Puzzle1`.
- Day10: `puzzle2` prints the CRT picture; printing is not modelled.
- Day10: the loop of `puzzle1` also loads an instruction after cycle 220, so a program of exactly 220 cycles reports "not enough instructions"; the model keeps that behaviour.
- Day11: the `Box<dyn Fn>` operation is the datatype `Operation` (square, double, multiply, add).
- Day11: splitting the file at "\n\r\n", the 20 and 10 000 rounds, and the product of the two largest inspection counts are not modelled; one `round` is.
- Day11.FromTextRoundTrip: covers monkeys whose items are not negative, the only ones a text can hold.
- Day11: the doctest of `Monkey::from` is not restated as a concrete lemma; the general round trip covers its layout.
- Day5: splitting the file at "\n\r\n" is modelled by `FindSeparator`, but only the first occurrence and the CRLF layout it assumes.
- Day7.Finder.Add: requires a new directory to be empty, which is what `parse` always passes.
- Day7.Finder.Cd: the child chosen among children with the same name depends on hash-set order; the model allows any of them.
- Day7: the loop of `puzzle1`/`puzzle2` that feeds every line to `parse` is not modelled, because whether "$ cd .." panics depends on the state reached; the queries are modelled over any well-formed arena.
- Day9: `do_move` and `follow` change a `Pos` through `&mut self`; as `Pos` is a plain value here, they return the new position.
- Day4.ParseLine: the panics on numbers that do not parse are preconditions.
- Day11.RoundItems: stated for monkeys listed in the order of their ids, as a parsed input lists them; otherwise `round` stages items by id and releases them by position.
- Day2: the unit test on the line "FGA432HL KNM43" is not restated as a concrete lemma; `Day2.ParseLine` states its case in general (`r.Err? <==> |Letters(line)| < 2`, with the message "Not enough arguments in line!").

## Findings

| source | as written | input that shows it | evidently intended | confidence | as-written member | corrected member |
|---|---|---|---|---|---|---|
| src/day4.rs:21-22 | `overlap` answers `None` whenever `self.start < other.end` or `self.end > other.start`, which for well-formed ranges is every pair but two equal one-section ranges | [1,5] and [3,7] share sections 3 to 5, and `overlap` answers `None` | `None` when `self.start > other.end` or `self.end < other.start`; otherwise the shared range | not executed | Day4.OverlapMissesSharedSections | Day4.Range.Intersection |

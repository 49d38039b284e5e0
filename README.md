# Advent of Code 2022 solutions, modelled in Dafny

This project models the puzzle solutions of the bg2b/aoc22 repository:
one C++ program per day, each reading its puzzle input from standard
input and printing the answer to part 1 or part 2. Every modelled day is
a Dafny module in its own file (`dayNN_<topic>.dfy`); `common.dfy` holds
the shared helpers (an `Option` type, C's truncating division, digit
strings and `atoi`, sums and sorted string sets) and `ordering.dfy` the
sortedness and maximum facts the day modules share.

Each program is modelled in its own form: the loops that read, scan,
search and simulate become methods whose loop invariants tie them to
specification functions, the recursive and pure helpers become functions,
and the puzzle promises (a breadth-first search finds shortest hop
counts, a parser reads back what a printer writes, a comparison is a
total order, a best pair of paths is best) are lemmas about those
functions. An assert in the source that the puzzle input always meets is
a precondition; a failure the program can reach on a malformed line is
`None`.

## Model

| member | source | states |
|---|---|---|
| Calories.RunLength | 01/doit.cc:19-29 | the run of an elf's lines stops at the first blank line or at the end, and no line before it is blank |
| Calories.Values | 01/doit.cc:28 | each line contributes its own value, position by position |
| Calories.GroupsNonEmpty | 01/doit.cc:24-28 | a new elf is started only together with its first value, so no elf is empty |
| Calories.GroupsFlatten | 01/doit.cc:19-29 | the elves' values, one elf after the other, are exactly the values of the non-blank lines in order |
| Calories.GroupsSnocBlank | 01/doit.cc:20-22 | a blank line adds no elf and no value |
| Calories.GroupsSnocStart | 01/doit.cc:24-27 | a value after a blank line, or first of all, starts a new elf holding just it |
| Calories.GroupsSnocJoin | 01/doit.cc:28 | a value after a value goes to the back of the last elf |
| Calories.Read | 01/doit.cc:15-31 | the reading loop with its next_elf flag groups the maximal runs of non-blank lines |
| Calories.MaxCalories | 01/doit.cc:35-37 | the result is at least 0, at least every elf's sum, and either 0 or some elf's sum |
| Calories.Part1 | 01/doit.cc:33-39 | part 1 gives the largest elf sum, or 0 |
| Calories.TopThree | 01/doit.cc:43-48 | the sum of the three first of the sums sorted descending is the sum of the three largest sums |
| Calories.Part2 | 01/doit.cc:41-50 | part 2 gives the sum of the three largest elf sums |
| CaloriesTop.Totals | 01/doit1.cc:15-25 | there is always at least one total, the last one pushed after the loop |
| CaloriesTop.AddToLast | 01/doit1.cc:23 | adding a value changes only the last total, by that value |
| CaloriesTop.TotalsCount | 01/doit1.cc:19-25 | there is one total per blank line plus one |
| CaloriesTop.TotalsSum | 01/doit1.cc:15-25 | the totals add up to the sum of all values |
| CaloriesTop.ReadTotals | 01/doit1.cc:15-25 | the reading loop with current_elf computes the totals |
| CaloriesTop.PrintTop | 01/doit1.cc:14-34 | print_top gives the sum of the n largest totals |
| CaloriesTop.PopLargest | 01/doit1.cc:28-32 | popping n values off the back of a sequence sums its last n, which for an ascending sort are the largest |
| CaloriesTop.Part1 | 01/doit1.cc:36 | part 1 gives the largest total |
| CaloriesTop.Part2 | 01/doit1.cc:38 | part 2 gives the sum of the three largest totals |
| CaloriesTop.TotalsOfPrefix | 01/doit1.cc:18-24 | on input without double blank lines the running totals are the group sums of the first version, with a trailing 0 after a blank line |
| CaloriesTop.TotalsAreGroupSums | 01/doit1.cc:15-25 | on well-spaced input the totals are exactly the elf sums of the first version |
| CaloriesTop.TotalsNonNegative | 01/doit1.cc:15-25 | with non-negative values every total is non-negative |
| CaloriesTop.AgreesWithFirstVersion | 01/doit1.cc:36 | on well-spaced non-negative input part 1 of this version gives what part 1 of the first version gives |
| Ordering.ReverseMultiset | 01/doit1.cc:26-32 | reversing keeps the multiset of values |
| Ordering.InsertDescSorted | 01/doit.cc:47 | inserting into a descending sequence keeps it descending and adds exactly the new value |
| Ordering.SortDescSorted | 01/doit.cc:47 | sort with greater() gives a descending permutation |
| Ordering.HeadIsLargest | 01/doit.cc:47-48 | the first of a descending sequence is at least every value |
| Ordering.SortedDescUnique | 01/doit.cc:47 | two descending permutations of the same values are equal, so the sort's result is determined |
| Ordering.SortAscReversed | 01/doit1.cc:26 | the ascending sort is the descending sort reversed |
| Ordering.LargestDominates | 01/doit.cc:48 | the n largest values are each at least every value left out |
| RockPaperScissors.ToRps | 02/doit.cc:13-18 | X to Z and A to C map onto the moves 0 to 2 by their offset from the first letter |
| RockPaperScissors.ToRpsSameMove | 02/doit.cc:13-18 | a letter of each column names the same move exactly when their offsets agree |
| RockPaperScissors.ChoicePoints | 02/doit.cc:20 | a move is worth 1 to 3 points |
| RockPaperScissors.Trichotomy | 02/doit.cc:22-30 | of two moves exactly one of: the first beats the second, the second beats the first, they are equal; so round_points' assert holds |
| RockPaperScissors.BeatsAsymmetric | 02/doit.cc:22 | no two moves beat each other |
| RockPaperScissors.RoundPoints | 02/doit.cc:24-31 | a round is worth 6 exactly on a win, 0 exactly on a loss and 3 exactly on a draw |
| RockPaperScissors.RoundScoreRange | 02/doit.cc:40 | a round scores between 1 and 9 points |
| RockPaperScissors.Play | 02/doit.cc:45-57 | part 1 plays the column as a move; part 2 picks the move that loses, draws or wins as the column says, the lambda's assert |
| RockPaperScissors.OutcomeRoundPoints | 02/doit.cc:50-56 | with the part 2 strategy, the round is worth 3 times the column |
| RockPaperScissors.TotalScoreBounds | 02/doit.cc:33-43 | the total is between 1 and 9 points per round |
| RockPaperScissors.Score | 02/doit.cc:33-43 | the scoring loop computes the total over the rounds, 1 to 9 points each |
| Rucksack.Priority | 03/doit.cc:23-28 | a to z have priorities 1 to 26 and A to Z have 27 to 52, by offset |
| Rucksack.PriorityInjective | 03/doit.cc:23-28 | two items have the same priority exactly when they are the same item |
| Rucksack.FindFirstOf | 03/doit.cc:38 | find_first_of gives the first position whose character occurs in the other string, or npos exactly when there is none |
| Rucksack.SharedItem | 03/doit.cc:34-40 | the item found occurs in both halves of the pack |
| Rucksack.SharedItemIsFirst | 03/doit.cc:38 | no item of the first half that is also in the second comes before the one found |
| Rucksack.SharedTotalBounds | 03/doit.cc:30-43 | the part 1 total is between 1 and 52 per pack |
| Rucksack.Part1 | 03/doit.cc:30-43 | the loop over packs sums the priorities of the shared items |
| Rucksack.InsertItemSorted | 03/doit.cc:139 | inserting into a sorted pack keeps it sorted and adds exactly the item |
| Rucksack.SortPack | 03/doit.cc:138-140 | sorting a pack gives a sorted permutation of its items |
| Rucksack.LargestCommon | 03/doit.cc:146-151 | the item found is common to the three packs and at least every common item; none exactly when there is no common item |
| Rucksack.LargestCommonSorted | 03/doit.cc:138-140 | sorting the packs first does not change the largest common item |
| Rucksack.PopLarger | 03/doit.cc:147-149 | each inner loop pops only items above both other packs' last items, never the common item |
| Rucksack.RoundShrinks | 03/doit.cc:146-150 | every round of the outer loop shortens the packs while their last items differ, so it ends |
| Rucksack.Round | 03/doit.cc:146-150 | a round keeps each pack a sorted prefix of itself that still holds the common item, and strictly shortens them together |
| Rucksack.Badge | 03/doit.cc:146-151 | the popping loop stops at the largest item common to the three sorted packs |
| Rucksack.GroupBadge | 03/doit.cc:142-151 | a group's badge is a letter common to its three packs |
| Rucksack.BadgeTotalBounds | 03/doit.cc:142-152 | the part 2 total is between 1 and 52 per group |
| Rucksack.SortAll | 03/doit.cc:138-140 | every pack is replaced by its sorted version |
| Rucksack.Part2 | 03/doit.cc:135-154 | the loop over groups sums the priorities of the largest common items of each group |
| CampCleanup.ContainsSymmetric | 04/doit.cc:27-30 | full containment does not depend on the order of the two elves |
| CampCleanup.OverlapsSymmetric | 04/doit.cc:34-37 | overlap does not depend on the order of the elves, and holds exactly when each range starts no later than the other ends |
| CampCleanup.ContainsIsSubset | 04/doit.cc:27-30 | the part 1 condition holds exactly when one range's sections are all sections of the other |
| CampCleanup.OverlapsIsSharedSection | 04/doit.cc:34-37 | the part 2 condition holds exactly when some section is in both ranges |
| CampCleanup.ContainsImpliesOverlaps | 04/doit.cc:26-37 | a pair counted by part 1 is counted by part 2 |
| CampCleanup.Count | 04/doit.cc:15-24 | no more pairs are counted than there are |
| CampCleanup.CountIsPositions | 04/doit.cc:18-22 | the count is the number of positions whose pair meets the condition |
| CampCleanup.ContainCountAtMostOverlap | 04/doit.cc:26-37 | the part 1 answer is at most the part 2 answer |
| CampCleanup.CountPairs | 04/doit.cc:15-24 | the loop counts the pairs meeting the condition, between 0 and the number of pairs |
| SupplyStacks.ColumnHasNoSpaces | 05/doit.cc:37-41 | no stack ever holds a space: blank drawing cells are skipped |
| SupplyStacks.ColumnBottom | 05/doit.cc:33-41 | the crate drawn in the bottom layer line for stack i is the bottom of stack i (layers are pushed bottom first) |
| SupplyStacks.ColumnsInside | 05/doit.cc:27-35 | with the asserted label length 4n-1, column 4i+1 of every stack lies inside every layer line |
| SupplyStacks.PushLayer | 05/doit.cc:37-41 | the inner loop appends the character at column 4i+1 of the line to stack i unless it is a space, for every stack |
| SupplyStacks.ReadStacks | 05/doit.cc:18-44 | (label length + 1)/4 stacks, and stack i is exactly the non-space column-4i+1 characters of the layer lines, bottom line first |
| SupplyStacks.MoveTouchesTwo | 05/doit.cc:54-81 | a move keeps the number of stacks and leaves every stack other than from and to unchanged |
| SupplyStacks.MoveKeepsCrates | 05/doit.cc:65-81 | a move keeps the total number of crates |
| SupplyStacks.CranesDiffer | 05/doit.cc:65-81 | both cranes leave from the same and land the same multiset of crates on to, but the 9000 puts the deepest moved crate on top and the 9001 keeps the old top on top |
| SupplyStacks.MoveOneMore | 05/doit.cc:66-71 | one more pop_back/push_back pass turns the result of moving i crates into the result of moving i + 1 |
| SupplyStacks.Move9000 | 05/doit.cc:64-72 | the part1 loop leaves exactly AfterMove with the 9000 crane: the top count crates of from land on to in reverse order; from == to changes nothing |
| SupplyStacks.Move9001 | 05/doit.cc:75-81 | the part2 move leaves exactly AfterMove with the 9001 crane: the top count crates land on to in their order |
| SupplyStacks.CallMove | 05/doit.cc:54 | the move parameter dispatches to the crane's move function |
| SupplyStacks.ApplyKeepsCrates | 05/doit.cc:50-54 | a move that passes the asserts keeps the stack count and the crate count |
| SupplyStacks.SimulateStep | 05/doit.cc:49-55 | the simulation of one more move is that move applied to the stacks the earlier moves left |
| SupplyStacks.SimulateStopped | 05/doit.cc:50-51 | once an assert has failed, the whole simulation fails whatever moves follow |
| SupplyStacks.SimulateKeepsCrates | 05/doit.cc:49-55 | a simulation that passes every assert keeps the number of stacks and of crates |
| SupplyStacks.StepMove | 05/doit.cc:50-54 | one pass of the move loop gives None exactly when a stack number is out of range or the move's own assert fails, and otherwise the moved stacks |
| SupplyStacks.ReadTops | 05/doit.cc:56-60 | the answer exists iff no stack is empty, and then it is the back of every stack in order |
| SupplyStacks.CraneSim | 05/doit.cc:46-61 | crane_sim gives the tops of the simulated stacks, and None when any assert fails |
| TuningTrouble.FirstFromSpec | 06/doit.cc:76-84 | the search result from p is the first position at or after p whose last n characters are distinct, or the line length when there is none |
| TuningTrouble.FirstSyncSpec | 06/doit.cc:76-84 | what find_sync prints is one past the first window of n distinct characters, or the line length when no window qualifies |
| TuningTrouble.NaiveSyncIsSyncAt | 06/doit.cc:19-25 | the naive sync test (all pairs i < j < n of characters back from pos differ) is the distinctness of the window ending at pos |
| TuningTrouble.NaiveFromAgrees | 06/doit.cc:26-28 | the naive search loop from pos returns the same position as the set-based search, or fails only when no window from there on qualifies |
| TuningTrouble.NaiveAgrees | 06/doit.cc:16-31 | when the naive version finds a sync, it prints what the set-based version prints; when its assert fails, the set-based version prints the line length |
| TuningTrouble.CharsBound | 06/doit.cc:72-81 | a window has at most as many distinct characters as it has characters, equally many exactly when they are pairwise distinct |
| TuningTrouble.DropStep | 06/doit.cc:77-78 | dropping the oldest character decrements its count and loses one distinct character exactly when that count was one |
| TuningTrouble.AddStep | 06/doit.cc:79-80 | adding a character increments its count and gains one distinct character exactly when it was absent |
| TuningTrouble.NotSyncStep | 06/doit.cc:76 | while fewer than n characters are distinct, the search goes on past the current position |
| TuningTrouble.StopSync | 06/doit.cc:76-84 | where the loop stops, with n distinct characters or at the end of the line, is the search result |
| TuningTrouble.Slide | 06/doit.cc:77-80 | one loop pass leaves occurrences counting the characters of the window line[max(0,i+1-n), i+1) and num_unique the number of distinct ones, at most n |
| TuningTrouble.FindSync | 06/doit.cc:68-85 | find_sync prints the first position whose last n characters are pairwise distinct, or the line length |
| TuningTrouble.Forget | 06/doit.cc:77-78 | the decrement leaves occurrences counting the window without its oldest character, and reports zero exactly when that character no longer occurs |
| TuningTrouble.Remember | 06/doit.cc:79-80 | the increment leaves occurrences counting the window with the new character, and reports a previous zero exactly when it was absent |
| FileTree.Find | 07/doit.cc:92-93 | looking a name up among a directory's entries gives an index holding that name, and fails exactly when no entry has it |
| FileTree.FindUnique | 07/doit.cc:40 | in a directory whose names are distinct, lookup finds the one entry with the name |
| FileTree.MakeEntrySpec | 07/doit.cc:39-42 | make_entry succeeds exactly when the name is not already present, and then adds one entry with that name and size, keeping the others |
| FileTree.FindSameNames | 07/doit.cc:92 | lookup depends only on the entries' names, so changing a subtree does not change where a name is found |
| FileTree.ReplaceAt | 07/doit.cc:101-107 | updating the directory at the working path leaves exactly the new directory at that path |
| FileTree.AtPrefix | 07/doit.cc:88-89 | every ancestor of the working directory exists, so going up always reaches a directory |
| FileTree.AtUnique | 07/doit.cc:39-42 | every subdirectory of a tree built by make_entry has distinct entry names |
| FileTree.ReplaceUnique | 07/doit.cc:39-42 | putting a tree with distinct names into one with distinct names keeps every directory's names distinct |
| FileTree.ScanSplits | 07/doit.cc:72-77 | scan succeeds exactly when the line starts with the prefix, and then leaves the rest of the line |
| FileTree.AddEntryValid | 07/doit.cc:99-107 | adding an entry in the working directory keeps the working path valid and all names distinct |
| FileTree.StepValid | 07/doit.cc:83-108 | each transcript line that passes its asserts leaves a working directory that exists in a tree with distinct names |
| FileTree.AtExtend | 07/doit.cc:90-94 | cd into an entry that was found gives a working path that exists |
| FileTree.ReadSpec | 07/doit.cc:79-110 | reading a transcript that passes its asserts yields a valid shell state |
| FileTree.Execute | 07/doit.cc:83-108 | one line of read: cd /, cd .., cd into a found child, ls, dir and file lines, with None where an assert fails |
| FileTree.Read | 07/doit.cc:79-110 | read builds the tree the transcript describes, with distinct names in every directory, or fails where an assert fails |
| FileTree.ReadStopped | 07/doit.cc:88-106 | once an assert has failed, no later line can recover |
| FileTree.TotalIsFileSum | 07/doit.cc:57-65 | total_size of a node is the sum of the sizes of all the files below it |
| FileTree.EntriesTotalIsFileSum | 07/doit.cc:60-62 | a directory's size adds up its entries' sizes, which is the sum of the files below them |
| FileTree.CallsBounded | 07/doit.cc:57-65 | every size passed to the callback is at most the node's total, and a directory's last callback is its own total |
| FileTree.EntriesCallsBounded | 07/doit.cc:61-62 | the callbacks made while sizing a directory's entries are all at most the sum of the entries' sizes |
| FileTree.SmallSpec | 07/doit.cc:116 | the sizes part 1 keeps are exactly the sizes at most 100000, each as often as it occurs |
| FileTree.SumSmall | 07/doit.cc:114-117 | the part 1 callback sums the directory sizes at most 100000, which is at most 100000 times their number |
| FileTree.SmallestFreeing | 07/doit.cc:126-132 | part 2 fails when the disk already has 30000000 free or more; otherwise the answer is at most the used space and is either that or the smallest directory size whose deletion frees enough |
| FileTree.Part1 | 07/doit.cc:112-119 | part 1 sums the small ones among the sizes of all directories |
| FileTree.Part2 | 07/doit.cc:121-134 | part 2 answers with a directory size (the root's at worst) that frees enough space and is no larger than any other that does |
| SizeStack.PopDir | 07/doit1.cc:21-29 | pop_dir removes the top running size, saves it as a completed size and leaves one fewer directory on the stack |
| SizeStack.PopDirTotal | 07/doit1.cc:21-29 | popping keeps the stack's total except when it completes the outermost directory, whose size leaves the stack |
| SizeStack.PopAll | 07/doit1.cc:53-54 | popping back to the root completes one size for every directory still on the stack |
| SizeStack.WalkedCounts | 07/doit1.cc:31-51 | every directory entered is either still on the stack or completed |
| SizeStack.ReadCounts | 07/doit1.cc:15-56 | read returns one size per cd into a directory |
| SizeStack.StackHoldsFiles | 07/doit1.cc:31-51 | while the walk stays inside its first directory, the running sizes add up to all the file sizes read so far |
| SizeStack.PopAllLast | 07/doit1.cc:53-54 | after popping back to the root, the last completed size is the total of the stack |
| SizeStack.RootIsFileTotal | 07/doit1.cc:72-73 | when the walk never leaves its first directory, the last size read returns is the root's, the sum of all file sizes |
| SizeStack.PopDirOf | 07/doit1.cc:21-29 | pop_dir on the two vectors does what PopDir describes |
| SizeStack.Read | 07/doit1.cc:15-56 | read returns the completed sizes of the walk, or fails where an assert fails |
| SizeStack.WalkedStopped | 07/doit1.cc:35-48 | once an assert has failed, no later line can recover |
| SizeStack.Part1 | 07/doit1.cc:58-65 | part 1 sums the completed sizes that are at most 100000 |
| SizeStack.Part2 | 07/doit1.cc:67-81 | part 2 fails on an empty result or when 30000000 is already free; otherwise it answers with a size that frees enough space and is no larger than any other that does |
| Treetop.AtZero | 08/doit.cc:22-31 | with no NUL in the rows, at yields NUL exactly off the grid and the tree's height on it |
| Treetop.Scan4Calls | 08/doit.cc:48-57 | scan4 makes two calls per row and two per column, each moving one step along an axis and each starting on the edge it scans from |
| Treetop.IndexCell | 08/doit.cc:64-69 | a cell lies k steps along a scan exactly when the scan loop reaches it after k moves of i += di, j += dj |
| Treetop.RayBefore | 08/doit.cc:64-69 | with no NUL in the rows, a scan walks every cell of its line up to any cell on the grid and sees each tree's own height there |
| Treetop.TallerIff | 08/doit.cc:63-67 | a tree is marked when it is taller than max_height, which is the largest of '0' - 1 and every height before it on the scan |
| Treetop.MarkStep | 08/doit.cc:65-66 | marking the k-th tree when it is taller turns the marks after k trees into the marks after k + 1 trees |
| Treetop.MarkTree | 08/doit.cc:64-69 | one turn of the part 1 scan loop: the marks and max_height go from their values after k trees to their values after k + 1, and (i, j) moves to the next cell of the scan |
| Treetop.ScanVisible | 08/doit.cc:62-71 | the part 1 callback leaves visible set exactly where it was set or where the tree is taller than every tree before it on the scan |
| Treetop.SeenEnds | 08/doit.cc:63-70 | before the scan loop no mark is added; when it stops, the marks added are exactly the trees the scan finds taller |
| Treetop.VisMapNone | 08/doit.cc:61 | visible starts false everywhere, the marks of no scan at all |
| Treetop.VisMapStep | 08/doit.cc:62 | each further call of the callback adds exactly its scan's marks |
| Treetop.VisAfterRows | 08/doit.cc:49-52 | the row scans mark a tree exactly when the scan from its row's left or right end finds it taller |
| Treetop.VisAfterCols | 08/doit.cc:53-56 | the column scans mark a tree exactly when the scan from its column's top or bottom end finds it taller |
| Treetop.VisAfterAppend | 08/doit.cc:48-57 | the marks of the row scans followed by the column scans are the union of both |
| Treetop.PassedLines | 08/doit.cc:48-57 | with no NUL in the rows, the four scans through a tree pass, before it, exactly the trees between it and each edge |
| Treetop.HitIff | 08/doit.cc:63-67 | a scan marks a tree exactly when its height is above '0' - 1 and every tree passed before it is shorter |
| Treetop.ScannedIsVisible | 08/doit.cc:59-71 | with no NUL in the rows, a tree is marked after scan4 exactly when it is visible: a height above '0' - 1 and all trees to some edge shorter |
| Treetop.EdgeVisible | 08/doit.cc:62-66 | every tree on the edge whose height is a digit is visible |
| Treetop.MarkedStep | 08/doit.cc:75 | counting one more cell adds one exactly when that cell is marked |
| Treetop.CountMarked | 08/doit.cc:72-75 | the count loop returns the number of marked cells |
| Treetop.Part1 | 08/doit.cc:59-77 | part1 fails exactly when a row differs in length from the first; otherwise it counts the cells some scan marked, which with no NUL in the rows are the visible trees |
| Treetop.ViewBackSpec | 08/doit.cc:83-98 | how far a tree sees back is 0 at the edge, otherwise up to and including the nearest tree at least as tall, or every tree when none is |
| Treetop.UpdateSeen | 08/doit.cc:92-98 | after a tree of height t, num_seen is 1 for heights up to t and one more than before for the taller ones |
| Treetop.ViewBackStep | 08/doit.cc:87-98 | num_seen holds, for every height, how far a tree of that height would see back over the trees scanned so far |
| Treetop.DigitsSnoc | 08/doit.cc:89-90 | every height the scan has passed its assert on is a digit |
| Treetop.MultiplyAt | 08/doit.cc:91 | scenic_score[i][j] *= num_seen[t] multiplies that one score and leaves every other |
| Treetop.ScoreStep | 08/doit.cc:91 | multiplying the k-th tree's score by num_seen for its height turns the scores after k trees into the scores after k + 1 trees |
| Treetop.ScoreTree | 08/doit.cc:88-100 | one turn of the part 2 scan loop: the scores and num_seen go from their values after k trees to their values after k + 1, and (i, j) moves to the next cell |
| Treetop.ScanScenic | 08/doit.cc:82-102 | the part 2 callback fails exactly when a height on its scan is not a digit, and otherwise multiplies each tree's score by how far it sees back along the scan |
| Treetop.FactorEnds | 08/doit.cc:87-101 | before the scan loop no score changes; when it stops, each score has been multiplied by the tree's view back along the scan |
| Treetop.ScoresAfterNone | 08/doit.cc:81 | scenic_score starts at 1 everywhere, the scores of no scan at all |
| Treetop.ScoresAfterStep | 08/doit.cc:82 | each further call of the callback multiplies the scores by its scan's views |
| Treetop.ScoreAfterAppend | 08/doit.cc:48-57 | the scores after the row scans then the column scans are the products of the two |
| Treetop.ScoreAfterRows | 08/doit.cc:49-52 | the row scans multiply a tree's score by its views from the left and the right end of its row |
| Treetop.ScoreAfterCols | 08/doit.cc:53-56 | the column scans multiply a tree's score by its views from the top and the bottom of its column |
| Treetop.ScoredIsScenic | 08/doit.cc:79-102 | with no NUL in the rows, a tree's score after scan4 is its scenic score: the product of how far it sees towards each of the four edges |
| Treetop.EdgeScenic | 08/doit.cc:85-91 | a tree on the edge has scenic score 0 |
| Treetop.RaysDigits | 08/doit.cc:88-90 | with no NUL in the rows, every scan passes its assert exactly when every height on the grid is a digit |
| Treetop.ScoreAll | 08/doit.cc:81-102 | the part 2 scans fail exactly when one of them meets a height that is not a digit, and otherwise leave the product of every scan's views |
| Treetop.MaxScore | 08/doit.cc:103-106 | the answer loop returns the largest score, or 0 |
| Treetop.Part2 | 08/doit.cc:79-108 | part2 fails exactly when a row differs in length or a scan meets a non-digit (with no NUL: some height is not a digit); otherwise it returns the largest score, which with no NUL in the rows is the largest scenic score |
| Rope.ToDir | 09/doit.cc:25-31 | step's switch accepts exactly the letters L, R, U and D, each as its own direction; any other letter fails the assert |
| Rope.Step | 09/doit.cc:24-33 | a step moves the knot exactly one unit; only L and R keep y; x grows only for R and y only for U |
| Rope.FollowSpec | 09/doit.cc:35-45 | a knot touching its leader stays; the closing assert holds exactly when the leader is within two on both axes; then the knot ends touching both its leader and its old place, no farther from the leader on either axis |
| Rope.DragChain | 09/doit.cc:63-67 | after the follow loop succeeds every knot touches the one before it, the first touching the head |
| Rope.DragHolds | 09/doit.cc:60-67 | when the knots touched their leaders and the head moves to a place touching where it was, no follow fails and each knot moves at most one unit on each axis |
| Rope.InitValid | 09/doit.cc:48-55 | the starting rope has all knots at the origin, touching, and tail_positions holding only the origin |
| Rope.MoveValid | 09/doit.cc:60-68 | from a whole rope a step never fails an assert and leaves the rope whole |
| Rope.MoveGrows | 09/doit.cc:68 | a step adds the tail's new place to tail_positions and forgets nothing |
| Rope.RepeatValid | 09/doit.cc:59-69 | from a whole rope every motion completes and leaves the rope whole |
| Rope.RepeatGrows | 09/doit.cc:59-69 | over a motion tail_positions only grows, by at most one place per step |
| Rope.RunValid | 09/doit.cc:58-70 | from a whole rope the input loop fails exactly when a motion with steps names an unknown direction; otherwise the rope stays whole and tail_positions grows by at most the total steps |
| Rope.AnswerBounds | 09/doit.cc:47-72 | rope_sim fails exactly on an unknown direction; otherwise it prints a count between one (the origin) and one more than the total steps |
| Rope.RepeatNext | 09/doit.cc:59-69 | one more pass of the step loop is one more move of the rope |
| Rope.RepeatClamp | 09/doit.cc:59 | a step count of zero or less runs the step loop no times |
| Rope.RepeatStopped | 09/doit.cc:59-69 | once a step fails the rest of the motion cannot succeed |
| Rope.RunStopped | 09/doit.cc:58-70 | once a motion fails the rest of the input cannot succeed |
| Rope.PrependStep | 09/doit.cc:63-67 | one pass of the follow loop is one knot of the drag |
| Rope.DragKnots | 09/doit.cc:62-67 | the follow loop over rest updates the knots in place to the drag of the old knots, and fails exactly when the drag does |
| Rope.StepRope | 09/doit.cc:60-68 | one pass of the step loop moves the head, drags the knots and records the tail, as one move of the rope |
| Rope.MoveRope | 09/doit.cc:59-69 | the step loop performs the motion's moves one after another |
| Rope.PerformMotion | 09/doit.cc:58-70 | one pass of the input loop performs one motion, looking at the direction only when there is a step |
| Rope.RopeSim | 09/doit.cc:47-72 | rope_sim returns the size of tail_positions after all motions from the starting rope, or fails when an assert does |
| CathodeRay.TraceShape | 10/doit.cc:12-28 | Xecute succeeds exactly when every word is noop or an addx followed by a number; the trace then starts at 1, has one entry per cycle plus the first (one per noop, two per addx) and ends at 1 plus all addx operands |
| CathodeRay.ExecCycles | 10/doit.cc:18-25 | a noop appends one copy of the last value; an addx appends a copy and then the last value plus its operand |
| CathodeRay.TraceStopped | 10/doit.cc:21-24 | once an assert fails the rest of the input cannot make Xecute succeed |
| CathodeRay.Xecute | 10/doit.cc:12-28 | the loop pushing onto xs computes the trace, or fails when an assert does |
| CathodeRay.StrengthGap | 10/doit.cc:33 | the probed cycles are 40 apart: no cycle strictly between two of them adds to the signal sum |
| CathodeRay.ProbedGap | 10/doit.cc:33 | after a probed cycle the next 39 are not probed |
| CathodeRay.StrengthProbe | 10/doit.cc:33-34 | one pass of the loop adds cycle i's strength and moves to the next probed cycle |
| CathodeRay.Part1 | 10/doit.cc:30-36 | part1 sums cycle times X during it over cycles 20, 60, ..., 220, which is the signal strength of every probed cycle up to 220 |
| CathodeRay.Pixel | 10/doit.cc:44 | a pixel in column c is lit exactly when X is within one of c |
| CathodeRay.Column | 10/doit.cc:40-47 | pixel 40 r + c of the screen is in column c |
| CathodeRay.OpenAt | 10/doit.cc:40-48 | pixel c of row r comes right after the previous one, with a newline before it only when it starts a row |
| CathodeRay.OpenNext | 10/doit.cc:42-46 | the next pixel drawn is in the column the inner loop is at |
| CathodeRay.RenderWithin | 10/doit.cc:40-48 | part of the way through row r the screen holds the complete rows before it and the first pixels of row r |
| CathodeRay.RenderRows | 10/doit.cc:40-48 | after m complete rows the screen is exactly those rows, each forty pixels and a newline |
| CathodeRay.DrawRow | 10/doit.cc:42-47 | the inner loop draws one row of forty pixels and a newline, or stops at the assert when the trace runs out |
| CathodeRay.Part2 | 10/doit.cc:38-50 | part2 draws six rows of forty pixels and succeeds exactly when the trace has 240 entries; otherwise it has printed the pixels up to the end of the trace |
| CathodeTicks.RunMatchesTrace | 10/doit1.cc:12-29 | the callback version runs to the end exactly when the vector version does; tick is then called once per noop and twice per addx, with t counting up from 1, and each call sees X as the vector version traces it for that cycle |
| CathodeTicks.RunStopped | 10/doit1.cc:19-25 | once an assert fails the ticks made so far are all there are |
| CathodeTicks.Xecute | 10/doit1.cc:12-29 | the loop over t and x makes the ticks of the program, up to a failed assert |
| CathodeTicks.Part1 | 10/doit1.cc:31-35 | part1's callback adds t times x over the ticks with (t + 20) % 40 == 0, and nothing is printed when an assert fails |
| CathodeTicks.SignalIsStrength | 10/doit1.cc:33 | ticks that follow the trace add up to the trace's signal strength over as many cycles |
| CathodeTicks.Part1Agrees | 10/doit1.cc:31-35 | on a program of 220 to 259 cycles both versions of part 1 give the same sum |
| CathodeTicks.ColumnNext | 10/doit1.cc:40 | the column counter moves to the next column and wraps to 0 after the fortieth |
| CathodeTicks.PictureNext | 10/doit1.cc:38-41 | each tick prints its pixel and, after every fortieth, a newline |
| CathodeTicks.Part2 | 10/doit1.cc:37-43 | part2's callback prints a pixel per tick with the column wrapping at 40, including the ticks made before a failed assert |
| CathodeTicks.PictureIsRender | 10/doit1.cc:38-41 | ticks that follow the trace draw the same screen as the vector version over as many pixels |
| CathodeTicks.Part2Agrees | 10/doit1.cc:37-43 | on a program of exactly 240 cycles both versions draw the same six rows of forty pixels |
| MonkeyMiddle.ExpectAllMeaning | 11/doit.cc:32-35 | a run of expects succeeds exactly when the next tokens are those words |
| MonkeyMiddle.NumbersShape | 11/doit.cc:39-48 | numbers reads one number per token, at least one, up to and including the first token not ending in a comma, each read by stoul |
| MonkeyMiddle.NumbersComplete | 11/doit.cc:39-48 | a run of tokens with commas after all but the last, each starting with digits, is read whole by numbers |
| MonkeyMiddle.ReadNumbers | 11/doit.cc:39-48 | the do-while loop of numbers computes the numbers and the position after them, or fails where stoul throws or the input runs out |
| MonkeyMiddle.Number | 11/doit.cc:51-55 | number succeeds exactly when numbers reads a list of one |
| MonkeyMiddle.StoulDecimal | 11/doit.cc:103 | stoul reads a written decimal back, whatever non-digit follows it |
| MonkeyMiddle.NumbersRoundTrip | 11/doit.cc:39-48 | numbers reads a written comma-separated list back, with the position just after it |
| MonkeyMiddle.OpRoundTrip | 11/doit.cc:92-106 | the three written forms of an update ("+ v", "* v", "* old") read back as that update |
| MonkeyMiddle.HeadAt | 11/doit.cc:89-90 | "Monkey N: Starting items:" and a written list read back as the items, the number being dropped |
| MonkeyMiddle.UpdateAt | 11/doit.cc:91-106 | "Operation: new = old" and a written update read back as that update |
| MonkeyMiddle.TestAt | 11/doit.cc:107-113 | the written test and its two "throw to monkey" clauses read back as the divisor and the two recipients |
| MonkeyMiddle.ParseMonkeyRoundTrip | 11/doit.cc:88-114 | the constructor reads a monkey's written notes back as that monkey, with nothing handled, and stops just after them |
| MonkeyMiddle.GcdDivides | 11/doit.cc:109 | the gcd of two numbers not both zero is positive and divides both |
| MonkeyMiddle.LcmMultiple | 11/doit.cc:109 | the lcm of two positive numbers is a positive multiple of both |
| MonkeyMiddle.LcmAllMultiple | 11/doit.cc:83-109 | folding lcm over positive divisors from 1 gives a positive common multiple of all of them |
| MonkeyMiddle.Read | 11/doit.cc:138-148 | the loop constructing monkeys until the input ends computes the monkeys and lcm_divisors, or fails with the first monkey that does not read |
| MonkeyMiddle.ReadLcm | 11/doit.cc:108-109 | after every monkey read, lcm_divisors is the lcm of the divisors read so far and the monkeys read before are kept in order |
| MonkeyMiddle.ReadCommonMultiple | 11/doit.cc:138-148 | when every divisor read is positive, the lcm read returns is a positive multiple of each monkey's divisor |
| MonkeyMiddle.Pass | 11/doit.cc:119-134 | one pass of the turn loop keeps every monkey's rules and removes the front item of the monkey taking its turn |
| MonkeyMiddle.PassResult | 11/doit.cc:119-134 | a pass goes through exactly when the recipient exists; the monkey loses its front item and counts one more handled, the recipient gets the inspected level at the back, and every other monkey is unchanged |
| MonkeyMiddle.PassInPlace | 11/doit.cc:121-133 | one pass on the array of monkeys updates it as the pass specifies, or reports the failed assert |
| MonkeyMiddle.TurnSpec | 11/doit.cc:118-135 | a turn keeps every monkey's rules |
| MonkeyMiddle.Turn | 11/doit.cc:118-135 | turn's loop on the array updates the monkeys as the turn specifies, or reports the failed assert |
| MonkeyMiddle.TurnDefined | 11/doit.cc:132 | a turn goes through exactly when every item it inspects is thrown to an existing monkey |
| MonkeyMiddle.TurnResult | 11/doit.cc:118-135 | after its turn a monkey holds nothing and has handled one more item per item it held; every other monkey has received at its back, in order, exactly the items thrown to it |
| MonkeyMiddle.ItemsUpdate | 11/doit.cc:74 | replacing one monkey changes the number of items by the difference in what it holds |
| MonkeyMiddle.PassKeepsItems | 11/doit.cc:121-133 | a pass keeps the number of items held by all monkeys |
| MonkeyMiddle.TurnKeepsItems | 11/doit.cc:118-135 | a turn keeps the number of items held by all monkeys |
| MonkeyMiddle.Turns | 11/doit.cc:153-154 | the turns of the first monkeys keep every monkey's rules |
| MonkeyMiddle.Round | 11/doit.cc:153-154 | a round keeps every monkey's rules, so the rules still fit afterwards |
| MonkeyMiddle.Rounds | 11/doit.cc:152-154 | any number of rounds keeps every monkey's rules |
| MonkeyMiddle.TurnsKeepItems | 11/doit.cc:153-154 | the turns of a round keep the number of items |
| MonkeyMiddle.RoundsKeepItems | 11/doit.cc:152-154 | rounds keep the number of items |
| MonkeyMiddle.PlayRound | 11/doit.cc:153-154 | the loop over the monkeys plays one round on the array, or reports the turn that failed |
| MonkeyMiddle.TurnsNext | 11/doit.cc:153-154 | the turns up to monkey k are those before it followed by k's own turn, and k's rule still fits |
| MonkeyMiddle.TurnsStopped | 11/doit.cc:153-154 | once a turn fails, the round fails |
| MonkeyMiddle.RoundsStopped | 11/doit.cc:152 | once a round fails, all later rounds fail |
| MonkeyMiddle.Activity | 11/doit.cc:155-157 | the activity lists each monkey's handled count, in order |
| MonkeyMiddle.TopTwoLargest | 11/doit.cc:158-160 | the answer is x times y for two of the counts with x >= y and no other count above y |
| MonkeyMiddle.MonkeyBusiness | 11/doit.cc:150-161 | the corrected program: the rounds played in place, reducing worry levels by the lcm only when the relief is 1, then the activity sorted descending, give the product of the two largest counts, or fail when a turn fails or fewer than two monkeys exist |
| MonkeyMiddle.ReducePreserves | 11/doit.cc:129-131 | reducing modulo a multiple of the divisor keeps the remainder by the divisor |
| MonkeyMiddle.ApplyCongruent | 11/doit.cc:125 | every update (add, multiply, square) respects remainders |
| MonkeyMiddle.InspectAlike | 11/doit.cc:125-131 | without relief, a reduced and an unreduced level equal modulo the lcm stay equal after inspection and are thrown to the same monkey |
| MonkeyMiddle.PassSimulates | 11/doit.cc:121-133 | a pass with reduction goes through exactly when one without does, and leaves the monkeys alike |
| MonkeyMiddle.TurnSimulates | 11/doit.cc:118-135 | a turn with reduction goes through exactly when one without does, and leaves the monkeys alike |
| MonkeyMiddle.TurnsSimulate | 11/doit.cc:153-154 | the turns of a round with reduction go through exactly when those without do, and leave the monkeys alike |
| MonkeyMiddle.RoundsSimulate | 11/doit.cc:152-154 | rounds with reduction go through exactly when those without do, and leave the monkeys alike |
| MonkeyMiddle.ReductionIsSound | 11/doit.cc:150-165 | reducing by a common multiple of the divisors, as corrected, gives the answer of unreduced worry levels for every relief and number of rounds |
| MonkeyMiddle.ReliefBreaksReduction | 11/doit.cc:127-129 | the program as written (BusinessAsWritten, which reduces by the lcm after dividing by relief 3) gives 2 on a three-monkey sample where unreduced levels give 1 |
| MonkeyMiddle.AsWrittenWithoutRelief | 11/doit.cc:127-129 | with relief 1, as in part 2, the program as written (BusinessAsWritten) gives the answer of unreduced worry levels |
| HillClimbing.KeepMeaning | 12/doit.cc:67-71 | consider keeps, in order and each once, exactly the candidates that are unvisited and at most one higher than p |
| HillClimbing.StepsFromMeaning | 12/doit.cc:65-77 | steps_from returns each unvisited neighbour of p that is at most one higher, and nothing else, with no repeats |
| HillClimbing.StaysOnGrid | 12/doit.cc:35-39 | because off the grid at gives z + 2, no step from a cell of height at most z leaves the grid |
| HillClimbing.ReplaceMeaning | 12/doit.cc:53-56 | replacing the first found S or E changes that one character and keeps the rest of the line |
| HillClimbing.ReplaceKeepsIndex | 12/doit.cc:52-58 | turning the S into a leaves the position where E is found unchanged |
| HillClimbing.MarkRowMeaning | 12/doit.cc:51-58 | the stored row is the line read with its first S made a and its first E made z, and is otherwise the same |
| HillClimbing.ReadFrom | 12/doit.cc:50-61 | the reading loop either fails a width assert or yields a rectangle with one row per line |
| HillClimbing.ReadFromRows | 12/doit.cc:50-61 | the rows read are the earlier rows followed by each remaining line as stored |
| HillClimbing.ReadMapShape | 12/doit.cc:48-63 | a map that passes both asserts is rectangular, has the lines as stored, and has the start on an a and the end on a z, both on the grid and different |
| HillClimbing.ReadHeightMap | 12/doit.cc:48-63 | the constructor yields a fresh map holding the rows, start and end that were read, and yields none exactly when an assert of the constructor fails |
| HillClimbing.HeightMap.Flip | 12/doit.cc:79-89 | flip swaps start and end and turns every height h into a + (z - h) in place |
| HillClimbing.HeightMap.FlipRowInPlace | 12/doit.cc:86-88 | the inner loop of flip flips every character of one row and leaves the other rows alone |
| HillClimbing.FlipShape | 12/doit.cc:85-88 | flipping keeps the grid's shape, keeps letters as letters, and maps every height h to a + z - h |
| HillClimbing.FlipTwice | 12/doit.cc:88 | flipping twice gives back every height below 256 |
| HillClimbing.FlipReverses | 12/doit.cc:80-84 | on the flipped map, a step climbs at most one exactly when the reverse step descends at most one on the original |
| HillClimbing.PeaksAreValleys | 12/doit.cc:117 | after flipping, the cells part 2 stops at (height z) are exactly the cells of height a before |
| HillClimbing.NextFlipped | 12/doit.cc:80-84 | one step forward on the flipped map is one step backward on the original |
| HillClimbing.WithinFlipped | 12/doit.cc:80-84 | searching the flipped map from e for n steps reaches exactly the cells that can climb to e in n steps |
| HillClimbing.ReachFlipped | 12/doit.cc:114-118 | for every step count, the search of the flipped map and the climb back to the end reach the same cells |
| HillClimbing.SearchStarts | 12/doit.cc:98 | after the start is visited, the loop invariant holds: the frontier is the start at count 0 |
| HillClimbing.SearchFound | 12/doit.cc:99-106 | when the head of the frontier is a goal, its count is the fewest steps to any goal |
| HillClimbing.Joining | 12/doit.cc:100-103 | the cells visited when the head is expanded are new, on the grid, exactly one step further than the head, and with the visited cells cover every climbable neighbour |
| HillClimbing.SearchStep | 12/doit.cc:99-105 | expanding a head that is no goal keeps the loop invariant: layered counts, exact distances, no repeats and closed visited cells |
| HillClimbing.StepOnce | 12/doit.cc:100-103 | the frontier after an expansion lists no cell twice |
| HillClimbing.StepOrder | 12/doit.cc:100-103 | the counts in the frontier stay non-decreasing and span at most one step after an expansion |
| HillClimbing.StepCovers | 12/doit.cc:99-105 | once the head's count moves on to d + 1, every cell within d + 1 steps has been visited |
| HillClimbing.Progress | 12/doit.cc:99-105 | every turn of the loop expands a cell of the grid that was not expanded before, so the loop ends |
| HillClimbing.SearchExhausted | 12/doit.cc:104 | when the frontier runs dry, the expanded cells hold everything within the head's count, are closed under steps and contain no goal |
| HillClimbing.Unreachable | 12/doit.cc:104 | a set of cells closed under steps, holding all within d steps and no goal, shows that no goal is reachable at all |
| HillClimbing.Closed | 12/doit.cc:99-105 | a set closed under steps that holds every cell within d steps holds every reachable cell |
| HillClimbing.Bfs | 12/doit.cc:91-107 | bfs answers the fewest steps from the start to a goal, and fails its assert only when no goal can ever be reached |
| HillClimbing.ExpandHead | 12/doit.cc:100-103 | one turn pops the head and visits, with one more step, the cells steps_from gives |
| HillClimbing.Visit | 12/doit.cc:94-97 | visit appends each cell to the frontier with its count and marks it visited |
| HillClimbing.Part1 | 12/doit.cc:109-112 | part 1 answers the fewest steps from S to E, or fails only when E cannot be reached |
| HillClimbing.Part2 | 12/doit.cc:114-118 | part 2 flips the map and answers the fewest steps from any cell of height a up to E, or fails only when none can reach E |
| DistressSignal.Wrap | 13/doit.cc:52-56 | wrap returns a list holding exactly the packet, one size larger |
| DistressSignal.AsLists | 13/doit.cc:69-87 | every comparison is the comparison of two item lists once an integer side is taken as the one-item list holding it |
| DistressSignal.IntegersCompare | 13/doit.cc:70-74 | two integers compare as undecided exactly when equal, and otherwise as l < r |
| DistressSignal.MixedWraps | 13/doit.cc:75-78 | an integer met by a list is compared as the list holding just that integer, on either side |
| DistressSignal.WrapBoth | 13/doit.cc:52-56 | wrapping both packets changes no comparison |
| DistressSignal.LexicographicMeaning | 13/doit.cc:79-86 | lists compare as undecided exactly when their lengths agree and every item pair is undecided; otherwise the outcome is that of the first deciding item pair, or of the lengths when the shorter list runs out |
| DistressSignal.Reflexive | 13/doit.cc:95-97 | every packet compares undecided with itself, so operator== holds of it |
| DistressSignal.Antisymmetric | 13/doit.cc:89-93 | swapping the packets negates the outcome |
| DistressSignal.Transitive | 13/doit.cc:115 | the order is a total preorder: before-or-level is transitive, and level only when both steps are, as sort needs of its comparator |
| DistressSignal.CompareMethod | 13/doit.cc:69-87 | the loop of right_order over the common items, returning at the first deciding pair, computes the comparison |
| DistressSignal.Parse | 13/doit.cc:35-50 | a successful parse ends strictly after where it started and within the line |
| DistressSignal.ParsePacket | 13/doit.cc:35-50 | the constructor's digit-skipping loop and item-pushing loop compute the parse, None where its assert on '[' fails |
| DistressSignal.SkipDigits | 13/doit.cc:37-39 | the digit loop stops just past the run of digits that atoi read |
| DistressSignal.Show | 13/doit.cc:17-33 | a packet's text starts with '[' or a digit |
| DistressSignal.ParseShow | 13/doit.cc:35-50 | the text of any packet with natural integers parses back to that packet, ending right after the text, inside any line where no digit follows |
| DistressSignal.ItemsShow | 13/doit.cc:40-48 | the comma-separated texts of items followed by ']' are read by the item loop as exactly those items, appended to the ones read so far |
| DistressSignal.LineRoundTrip | 13/doit.cc:35-50 | a line holding just a packet's text reads back as that packet, using the whole line |
| DistressSignal.ReadAll | 13/doit.cc:58-67 | reading every nonempty line yields at most one packet per line |
| DistressSignal.ReadShown | 13/doit.cc:58-67 | lines holding the packets' texts read back as exactly those packets |
| DistressSignal.ReadSkipsBlank | 13/doit.cc:61-62 | an empty line anywhere changes nothing that is read |
| DistressSignal.Less | 13/doit.cc:89-93 | operator< is undefined, its assert failing, exactly when operator== holds |
| DistressSignal.LessFlips | 13/doit.cc:89-93 | operator< fails on both orders or on neither, and otherwise gives opposite answers for the two orders; it holds exactly when the first packet orders strictly first |
| DistressSignal.SameIsEquivalence | 13/doit.cc:95-97 | operator== is reflexive, symmetric and transitive, and holds exactly when neither packet comes first |
| DistressSignal.PairsSumBounds | 13/doit.cc:99-105 | the part 1 sum over k pairs is between 0 and 1 + 2 + ... + k |
| DistressSignal.PairsSumSwapped | 13/doit.cc:99-105 | swapping the two packets of every pair keeps the sum undefined or turns it into the sum of the indices of the other pairs |
| DistressSignal.UndecidedStays | 13/doit.cc:101-102 | once a pair does not decide, no later pair makes the sum defined |
| DistressSignal.Part1 | 13/doit.cc:99-105 | the loop over pairs computes the sum of the indices, from 1, of the pairs in the right order; None for an odd count or an undecided pair |
| DistressSignal.Divider | 13/doit.cc:111-112 | a divider is an integer wrapped twice, [[n]] |
| DistressSignal.DividersOrdered | 13/doit.cc:111-112 | [[2]] comes before [[6]] and not the reverse, and the line [[2]] reads as the first divider |
| DistressSignal.BelowAppend | 13/doit.cc:113-114 | the count of packets before d is additive over concatenation |
| DistressSignal.InsertSorted | 13/doit.cc:115 | insertion keeps a sorted sequence sorted, adds exactly the new packet, and raises each count below d by one exactly when the new packet comes before d |
| DistressSignal.SortedPair | 13/doit.cc:115 | in a sorted sequence every earlier packet is before-or-level with every later one |
| DistressSignal.SortPackets | 13/doit.cc:115 | the sort returns a sorted permutation of the packets with the same count before every packet d |
| DistressSignal.Find | 13/doit.cc:116-117 | find returns the first position level with d under operator==, or the length when there is none |
| DistressSignal.FirstLevel | 13/doit.cc:116-117 | in a sorted sequence the first packet level with d stands at the number of packets before d |
| DistressSignal.Part2 | 13/doit.cc:107-119 | the key is (1 + the packets before [[2]]) times (2 + the packets before [[6]]) |
| DistressSignal.DividersBelow | 13/doit.cc:110-114 | with both dividers added, [[2]] has exactly the input packets before it ahead of it, and [[6]] those and [[2]] |
| DistressSignal.DividerTies | 13/doit.cc:89-93 | the input packets [2] and 2 are level with the divider [[2]], so operator< on them fails its assert |
| RegolithReservoir.TileAt | 14/doit.cc:34-37 | an unrecorded cell holds ' ', a recorded one its tile |
| RegolithReservoir.StepTo | 14/doit.cc:63 | the step towards the other end is the sign of the difference |
| RegolithReservoir.NextStraight | 14/doit.cc:67-71 | on a horizontal, vertical or diagonal segment each step keeps the per-axis step and brings the end one step closer, so the loop ends |
| RegolithReservoir.OnSegmentStep | 14/doit.cc:66-71 | the cells from c1 to c2 are c1 followed by the cells from the next step on |
| RegolithReservoir.DrawMarks | 14/doit.cc:62-72 | segment marks every cell from c1 to c2 inclusive with 'X' and changes no other cell |
| RegolithReservoir.FirstClear | 14/doit.cc:87-89 | the cell found is one row down, at one of the tried offsets, and empty |
| RegolithReservoir.FirstClearNone | 14/doit.cc:87-90 | no cell is found exactly when every tried cell below is occupied |
| RegolithReservoir.Fall | 14/doit.cc:85-95 | a resting grain stops above the abyss, within one column per row fallen, on an empty cell |
| RegolithReservoir.RestIsBlocked | 14/doit.cc:90-93 | a grain rests only where down, down-left and down-right are all occupied |
| RegolithReservoir.DropAddsOneGrain | 14/doit.cc:81-97 | reaches returns ' ', 'A' or the tile covering the source; on ' ' it adds one 'o' on an empty cell below the source and above the abyss, otherwise it changes nothing |
| RegolithReservoir.CoveredSource | 14/doit.cc:82-84 | a covered source is returned as is, with nothing changed |
| RegolithReservoir.DropShrinks | 14/doit.cc:90-92 | a resting grain fills exactly one more cell, one that was empty |
| RegolithReservoir.PourStops | 14/doit.cc:101 | sand stops with no further count when reaches returns the goal, and goes round for ever on anything else than ' ', the tiles staying put |
| RegolithReservoir.PourGoesOn | 14/doit.cc:101-102 | a grain that rests is counted and sand goes on from the new tiles |
| RegolithReservoir.PourCounts | 14/doit.cc:99-104 | the count is at most the number of empty cells a grain can reach, the filled cells grow by exactly the count, and no earlier tile changes |
| RegolithReservoir.AbyssNeverCovers | 14/doit.cc:99-108 | without a floor, a grain falling into the abyss never covers the source, so sand with goal 'o' never stops |
| RegolithReservoir.FloorCatches | 14/doit.cc:74-79 | with the floor row under the abyss level, no grain from the source falls into the abyss |
| RegolithReservoir.FloorStopsSand | 14/doit.cc:108 | with the floor in place, part 2's sand always stops |
| RegolithReservoir.PathDepthIsLowest | 14/doit.cc:50-60 | drawing a path deepens the abyss to the lowest point of the path, and no further |
| RegolithReservoir.PathAboveAbyss | 14/doit.cc:50-60 | every tile a path draws lies at or above the abyss level after it |
| RegolithReservoir.RocksAboveAbyss | 14/doit.cc:43-48 | after reading, every rock is at or above the abyss level, which is at least 0 |
| RegolithReservoir.Cave.constructor | 14/doit.cc:43-46 | the cave holds the rock of every input path, drawn in order, and the abyss at the lowest of them |
| RegolithReservoir.Cave.At | 14/doit.cc:34-37 | at reads the tile map, ' ' for nothing |
| RegolithReservoir.Cave.Rock | 14/doit.cc:30 | rock sets the tile to 'X' and raises the abyss to at least its y |
| RegolithReservoir.Cave.Segment | 14/doit.cc:62-72 | the stepping loop draws the segment and deepens the abyss to the lower end |
| RegolithReservoir.Cave.Path | 14/doit.cc:50-60 | one segment per pair of consecutive points, in order |
| RegolithReservoir.Cave.Floor | 14/doit.cc:74-79 | a rock row at abyss + 2 spanning 500 plus or minus (floor + 1), after which the abyss is at the floor and the floor row lies under every reachable column |
| RegolithReservoir.Cave.Reaches | 14/doit.cc:81-97 | the grain loop computes one drop: the covered source, 'A' at the abyss, or ' ' with the resting grain stored as 'o' |
| RegolithReservoir.Cave.Sand | 14/doit.cc:99-104 | the loop counts the calls of reaches before the one returning the goal, None where the source never stops |
| RegolithReservoir.Part1 | 14/doit.cc:106 | part 1 counts the grains before one falls into the abyss, None when the source is rock |
| RegolithReservoir.Part2 | 14/doit.cc:108 | part 2 counts the grains poured onto the floor before the source is covered, and fails only when the source is rock |
| BeaconExclusion.MergeOk | 15/doit.cc:30-35 | adding a range that starts no earlier than the last keeps the vector disjoint (sorted, no overlap, no abutting) and covers exactly the old cells plus the range's |
| BeaconExclusion.BuildOk | 15/doit.cc:20-35 | ranges added in order of their starts build a disjoint vector covering exactly their cells |
| BeaconExclusion.Onion | 15/doit.cc:25-41 | adding a well-formed range to a disjoint vector gives a disjoint vector holding exactly the old cells and the range's; an empty vector gives just the range |
| BeaconExclusion.Find | 15/doit.cc:63-64 | the first occurrence of the two-character pattern, or -1 when there is none |
| BeaconExclusion.RFind | 15/doit.cc:65-66 | the last occurrence of the two-character pattern, or -1 when there is none |
| BeaconExclusion.ParseSensor | 15/doit.cc:61-68 | the distance is the Manhattan distance from sensor to beacon, so the sensor covers its own beacon; only an empty line fails, where npos + 2 would point past its end |
| BeaconExclusion.SensorAdd | 15/doit.cc:70-74 | the vector stays disjoint and gains exactly the sensor's cells on the row; a sensor farther from the row than its beacon leaves it unchanged |
| BeaconExclusion.Coverage | 15/doit.cc:84-89 | the result is disjoint and covers a column exactly when some sensor rules that cell of the row out |
| BeaconExclusion.CovSetSize | 15/doit.cc:96-98 | disjoint ranges hold as many cells as their lengths add up to |
| BeaconExclusion.Part1 | 15/doit.cc:93-106 | the answer is the number of columns of row 2000000 that some sensor rules out and that hold no detected beacon |
| BeaconExclusion.ScanLeavesArea | 15/doit.cc:115-122 | as written, a range lying left of column 0 offers the column after it: one sensor at (-10, 0) with its beacon at (-8, 0) covers [-12, -8] of row 0, and column -7, outside the area, is reported |
| BeaconExclusion.ScanRow | 15/doit.cc:112-122 | with both bounds checked, every column tried is a gap cell (in the area, ruled out by no sensor, beside a ruled-out cell), and some column is tried whenever the row has a gap |
| BeaconExclusion.Part2 | 15/doit.cc:108-126 | an answer is the tuning frequency 4000000 x + y of a gap cell (x, y); no answer only when the area has no gap cell |
| BeaconExclusion.OnlyGap | 15/doit.cc:108-126 | when exactly one cell of the area is ruled out by no sensor, it is the only gap cell, so part2 reports its frequency |
| BeaconRows.InsertOk | 15/doit1.cc:215-222 | inserting into the ascending elements of a std::set keeps them ascending and adds exactly the new element |
| BeaconRows.ExitRowLeaves | 15/doit1.cc:130-166 | after both moves the point is on the diagonal through r's left corner, neither left of nor above s and still inside s's diamond; one step before the inserted row the diagonal is inside s's diamond and at it outside |
| BeaconRows.InterestingY | 15/doit1.cc:130-166 | inserts nothing unless r covers s's right corner and s covers r's left corner, and otherwise exactly the exit row |
| BeaconRows.LeftRowFlank | 15/doit1.cc:168-174 | for a sensor at a non-negative column, a left border row is the first row, going out from the sensor, whose cell in column 0 it no longer covers |
| BeaconRows.RightRowFlank | 15/doit1.cc:175-180 | for a sensor at a column up to 4000000, a right border row is the first row, going out from the sensor, whose cell in column 4000000 it no longer covers |
| BeaconRows.BorderYs | 15/doit1.cc:168-181 | the rows gained are exactly the sensor's left and right border rows |
| BeaconRows.InterestingRows | 15/doit1.cc:213-223 | the rows chosen are exactly 0, 4000000, every exit row of two linked sensors and every border row, ascending |
| BeaconRows.Part2 | 15/doit1.cc:213-243 | an answer is the tuning frequency of a gap cell; no answer only when no chosen row has a gap cell |
| Valves.AfterEquals | 16/doit.cc:35 | the text after the first '=' of the rate field, or the whole field when it has no '=' (find returns npos and npos + 1 wraps to 0) |
| Valves.StripComma | 16/doit.cc:38-39 | a trailing comma is removed and nothing else; a word without one is unchanged |
| Valves.ParseValve | 16/doit.cc:31-42 | the loop that pops trailing commas and pushes each tunnel word builds exactly the valve the whitespace-split line describes |
| Valves.SameTunnels | 16/doit.cc:37-41 | the tunnels are the words from the tenth on, each with its trailing comma removed |
| Valves.ParseRecord | 16/doit.cc:31-42 | a line printed from a valve's name, rate and tunnel names parses back to that valve |
| Valves.ParseFields | 16/doit.cc:34-35 | the name is the second word and the rate is atoi of what follows '=' in the fifth word |
| Valves.ParseTunnels | 16/doit.cc:37-41 | each tunnel written with its separating comma is read back without it |
| Valves.ParseRate | 16/doit.cc:35 | atoi after '=' of "rate=N;" recovers N |
| Valves.Topology | 16/doit.cc:134-136 | the graph the search walks: one node per valve, whose successors are that valve's tunnels |
| Valves.TopologyKeepsTunnels | 16/doit.cc:128 | storing a valve's shortest map leaves the tunnel graph unchanged, so later searches walk the same graph |
| Valves.HopCountUnique | 16/doit.cc:115-139 | a shortest hop count, when it exists, is unique |
| Valves.HopCountTriangle | 16/doit.cc:152 | shortest hop counts obey the triangle inequality, which makes opening valves along shortest paths sound |
| Valves.Visit | 16/doit.cc:121-129 | a visited valve is left alone; a new one is recorded with its step count and queued at the back |
| Valves.VisitTunnels | 16/doit.cc:135-136 | visiting all tunnels records every neighbour at steps + 1 unless already recorded, queueing exactly the new ones in tunnel order |
| Valves.SearchStep | 16/doit.cc:131-137 | one pop of the frontier keeps the breadth-first invariant (recorded counts exact, frontier ordered by level) and makes progress |
| Valves.Bfs | 16/doit.cc:119-137 | the breadth-first search from a valve records exactly the valves reachable from it, each with its shortest hop count, the valve itself at 0 |
| Valves.Extend | 16/doit.cc:64-72 | extending moves to the valve, spends the travel and opening time leaving a positive remainder, opens the valve once and adds remaining time times its rate to the total |
| Valves.IsDisjointWith | 16/doit.cc:74-79 | two paths are disjoint exactly when no valve is opened by both |
| Valves.DisjointSymmetric | 16/doit.cc:74-79 | disjointness does not depend on the order of the two paths |
| Valves.DisjointWithSelf | 16/doit.cc:182-184 | a path is disjoint with itself only when it opens nothing, which part 2's inner loop starting at j = i relies on |
| Valves.CompressedReady | 16/doit.cc:141-144 | after compression every working valve has a shortest distance from AA and from every working valve |
| Valves.Child | 16/doit.cc:152-156 | the extension by a viable working valve is a consistent path that opens that valve and stands at it |
| Valves.PathsFrom | 16/doit.cc:146-158 | the collected paths start with the path itself |
| Valves.PathsKeepInvariants | 16/doit.cc:146-158 | every collected path extends the start, opens more valves with less time left, and never lowers the total when rates are non-negative |
| Valves.PathsComplete | 16/doit.cc:148-157 | every viable extension of a collected path is collected too |
| Valves.PathsSound | 16/doit.cc:148-157 | every collected path other than the start is a viable extension of another collected path |
| Valves.Parsed | 16/doit.cc:106-107 | one valve per input line, parsed from that line |
| Valves.WorkingOf | 16/doit.cc:108-109 | the working names are kept sorted and without repeats, like std::set |
| Valves.WorkingOfHolds | 16/doit.cc:108-109 | the working set holds exactly the names of valves with positive flow rate |
| Valves.WorkingIsPositiveRate | 16/doit.cc:104-111 | with distinct names, a name is working exactly when its stored valve has positive rate |
| Valves.FirstValvesFirst | 16/doit.cc:110 | emplace keeps the first valve read under each name |
| Valves.ReadValves | 16/doit.cc:104-111 | the reading loop builds the map of first valves by name and the sorted working set |
| Valves.Volcano.constructor | 16/doit.cc:104-113 | the volcano holds the read valves, unchanged except for their computed shortest maps, and is compressed |
| Valves.Volcano.PathCompression | 16/doit.cc:115-139 | every valve gets the shortest hop counts to all valves reachable from it, and nothing else in the volcano changes |
| Valves.Volcano.ShortestIsHopCount | 16/doit.cc:141-144 | shortest_path returns the shortest hop count in the tunnel graph |
| Valves.Volcano.CollectPaths | 16/doit.cc:146-158 | the recursive collection appends exactly the paths reachable by viable extensions from p |
| Valves.Volcano.PathsOfLength | 16/doit.cc:160-167 | the paths from AA with the given time, as a permutation of all collected paths, sorted best total first |
| Valves.Volcano.BestSingle | 16/doit.cc:169-173 | part 1's answer is the greatest total among all paths |
| Valves.Volcano.BestPairOfLength | 16/doit.cc:175-190 | part 2's answer is the greatest total of two disjoint paths |
| Valves.InsertByTotal | 16/doit.cc:163-165 | insertion keeps the elements and adds one |
| Valves.InsertByTotalSorted | 16/doit.cc:163-165 | insertion into a list sorted by decreasing total keeps it sorted |
| Valves.SortByTotal | 16/doit.cc:163-165 | the sort is a permutation ordered by decreasing total |
| Valves.BestPair | 16/doit.cc:181-188 | on paths sorted by total, stopping at the first disjoint partner of each path still finds the best disjoint pair |
| Valves.BestPairOfSet | 16/doit.cc:181-188 | the best pair over the sorted list is the best pair over the set of paths |
| Valves.PairAtLeastSingle | 16/doit.cc:175-190 | the elephant's help never lowers the answer: the best pair is at least the best single path |
| PyroclasticFlow.RocksShaped | 17/doit.cc:16-38 | each of the five rocks, listed bottom row first, has rows of one width no wider than the chamber and a piece in its bottom row, and is at most four rows tall |
| PyroclasticFlow.Cycle | 17/doit.cc:89-99 | the index after i in a cycle of n stays below n |
| PyroclasticFlow.CycleMod | 17/doit.cc:89-99 | the cyclic step is (i + 1) % n, the update of next_rock and next_jet |
| PyroclasticFlow.Chamber.constructor | 17/doit.cc:40-87 | a new chamber holds the jets line, no rows, jet and rock 0, no rocks dropped and no sightings |
| PyroclasticFlow.Chamber.GetRock | 17/doit.cc:89-93 | get_rock returns rocks[next_rock] and advances next_rock cyclically |
| PyroclasticFlow.Chamber.GetJet | 17/doit.cc:95-99 | get_jet returns jets[next_jet] and advances next_jet cyclically |
| PyroclasticFlow.Trimmed | 17/doit.cc:101-104 | trimming keeps a prefix of the rows and drops only empty rows; what is left is empty or has a top row that is not empty |
| PyroclasticFlow.TrimmedKeeps | 17/doit.cc:101-104 | a row that is not empty survives the trim, and so do all rows below it |
| PyroclasticFlow.Chamber.Trim | 17/doit.cc:101-104 | trim's loop leaves exactly the trimmed chamber |
| PyroclasticFlow.Chamber.Fits | 17/doit.cc:106-114 | fits is true exactly when the rock at (x, y) is inside the walls, at or above the floor and on no filled cell |
| PyroclasticFlow.PlaceRowKeeps | 17/doit.cc:116-125 | writing a rock row over a chamber row keeps every filled cell filled |
| PyroclasticFlow.PlaceRowFills | 17/doit.cc:116-125 | every piece of the rock row ends up in its cell |
| PyroclasticFlow.Placed | 17/doit.cc:116-125 | writing the rock keeps the number of rows and their width |
| PyroclasticFlow.PlacedAll | 17/doit.cc:117-125 | once every rock row is written, the chamber is the rock placed at (x, y) |
| PyroclasticFlow.FinishRow | 17/doit.cc:118-125 | the inner loop of finish writes the rock row's pieces, and only those, into the chamber row |
| PyroclasticFlow.Chamber.Finish | 17/doit.cc:116-127 | finish writes the rock's pieces onto cells the fit left empty and counts one more rock |
| PyroclasticFlow.Shift | 17/doit.cc:138-140 | the push moves the rock by the jet's direction when it fits there and leaves it where it is otherwise; either way it fits |
| PyroclasticFlow.Fall | 17/doit.cc:137-145 | the rock comes to rest no higher than it started, at a place where it fits and from which it cannot drop a row |
| PyroclasticFlow.Drift | 17/doit.cc:141-144 | after the push the rock drops a row when it fits there and stops otherwise, at a place where it fits and cannot drop |
| PyroclasticFlow.FallStep | 17/doit.cc:137-145 | each round of the fall pushes, then drops a row and goes on, or stops with the next jet |
| PyroclasticFlow.Chamber.Land | 17/doit.cc:137-145 | the loop of drop_rock brings the rock to the rest of the fall and leaves the jet after the last push |
| PyroclasticFlow.Chamber.FallOnce | 17/doit.cc:138-144 | one pass of the loop: when the rock can drop, the rest of the fall from one row lower is the same; when not, it has come to rest |
| PyroclasticFlow.Chamber.Pushed | 17/doit.cc:138-140 | the jet is read and the rock moved only when it fits there |
| PyroclasticFlow.SpawnFits | 17/doit.cc:130-136 | the rock spawns at x = 2 three rows above the top, in rows padded empty for it, where it always fits |
| PyroclasticFlow.Chamber.PushEmpty | 17/doit.cc:130-136 | pushing n empty rows appends n rows of seven dots |
| PyroclasticFlow.Chamber.Spawned | 17/doit.cc:130-145 | drop_rock up to the rest: the chamber is padded, the next rock taken and advanced, and the rock comes to the rest of its fall |
| PyroclasticFlow.Landing | 17/doit.cc:130-145 | the rest of the next rock lies inside the walls and inside the padded rows |
| PyroclasticFlow.Settled | 17/doit.cc:146-147 | the chamber after finish and trim has rows seven wide, is no lower than before, and has a top row that is not empty |
| PyroclasticFlow.SettledShape | 17/doit.cc:146-147 | placing the rock where it rests and trimming keeps the rows seven wide, keeps every row up to the old top and the rock's bottom row, and leaves a top row that is not empty |
| PyroclasticFlow.PlacedBottom | 17/doit.cc:116-125 | the rock's bottom row is not empty once placed |
| PyroclasticFlow.PlacedFilled | 17/doit.cc:116-125 | placing a rock empties no row |
| PyroclasticFlow.PlacedKept | 17/doit.cc:146-147 | so the trim after finish keeps the rock's bottom row and the old top |
| PyroclasticFlow.Landed | 17/doit.cc:129-147 | after the rock lands the chamber is not empty |
| PyroclasticFlow.Chamber.Place | 17/doit.cc:146-147 | finish then trim leave the settled chamber and one more rock |
| PyroclasticFlow.Chamber.Settle | 17/doit.cc:129-147 | drop_rock up to check_for_repeats leaves the landed state: settled rows, the next jet and rock, one more rock, sightings unchanged |
| PyroclasticFlow.Chamber.CheckForRepeats | 17/doit.cc:151-167 | no floor reports (0, 0); the first floor seen with a next jet records the rocks and height; a later one reports the rocks and height since then |
| PyroclasticFlow.Chamber.DropRock | 17/doit.cc:129-149 | drop_rock takes the chamber to the next state and returns what check_for_repeats reports |
| PyroclasticFlow.DropGood | 17/doit.cc:129-149 | every drop keeps the chamber good (rows seven wide, a top row that is not empty, valid jet and rock), adds one rock, cycles the rock, never lowers the tower and never forgets a sighting |
| PyroclasticFlow.LandedGood | 17/doit.cc:129-147 | the landed state has the next rock, one more rock, rows seven wide, a top row that is not empty, no lower tower and the same sightings |
| PyroclasticFlow.RecordedKeeps | 17/doit.cc:156-163 | recording a sighting changes only the sightings, keeps every earlier one and keeps the state good |
| PyroclasticFlow.FoundShape | 17/doit.cc:156-167 | a drop reports no repeat, or a repeat of at least one rock that does not lower the tower |
| PyroclasticFlow.History | 17/doit.cc:169-185 | n drops from the empty chamber leave a good state with n rocks dropped, and the last report has the shape of a drop's report |
| PyroclasticFlow.RunNext | 17/doit.cc:172-185 | the state after n + 1 drops is one drop from the state after n |
| PyroclasticFlow.RepeatNext | 17/doit.cc:172-175 | the (n + 1)-th report is what a drop from the state after n drops returns |
| PyroclasticFlow.DropFrom | 17/doit.cc:173-183 | a drop on a chamber holding the state after n drops holds the state after n + 1 and returns the (n + 1)-th report |
| PyroclasticFlow.UntilRepeat | 17/doit.cc:172-175 | the do-while drops k rocks, 1 <= k <= n, none of the first k - 1 reporting a repeat; it stops early only on a repeat |
| PyroclasticFlow.QuietAll | 17/doit.cc:172-175 | no report among the first k is a repeat, counted step by step, exactly when none of them is |
| PyroclasticFlow.QuietBefore | 17/doit.cc:172-175 | the reports before the k-th are all (0, 0) |
| PyroclasticFlow.SkipRepeats | 17/doit.cc:176-181 | as many whole repeats as fit in the remaining rocks are skipped, the rest is left to drop and the skipped height is the repeats times the repeat's height; with no repeat nothing is skipped |
| PyroclasticFlow.DropMore | 17/doit.cc:182-185 | the last loop drops the remaining rocks one by one |
| PyroclasticFlow.Solve | 17/doit.cc:169-187 | solve(n) finds the first repeat k, skips (n - k) / rocks of it and drops the rest, so the rocks dropped plus the rocks skipped are n, and the answer is the height after the dropped rocks plus the skipped repeats' height |
| PyroclasticFlow.Part1 | 17/doit.cc:189 | part 1 is solve(2022) |
| PyroclasticFlow.Part2 | 17/doit.cc:190 | part 2 is solve(1000000000000) |
| BoilingBoulders.NeighboursAdjacent | 18/doit.cc:28-34 | add_cube's six candidate faces are exactly the cubes that share a face with the cube |
| BoilingBoulders.LoneOpen | 18/doit.cc:27-34 | a cube that touches no cube of the set adds all six faces |
| BoilingBoulders.CountOpen | 18/doit.cc:27-34 | add_cube adds one face for each neighbour that is not in the set |
| BoilingBoulders.CountFaces | 18/doit.cc:25-38 | count_faces is the sum, over the cubes of the set, of each cube's faces whose neighbour is not in the set |
| BoilingBoulders.FacesBound | 18/doit.cc:25-38 | count_faces is at most six per cube |
| BoilingBoulders.LoneCube | 18/doit.cc:25-38 | a single cube has six faces |
| BoilingBoulders.TwoCubes | 18/doit.cc:25-38 | two cubes side by side have ten faces: the shared face is hidden on both |
| BoilingBoulders.Part1 | 18/doit.cc:40-42 | part 1 is count_faces of the lava, at most six per cube |
| BoilingBoulders.Widen | 18/doit.cc:51-54 | one step of the bounds loop never shrinks the box and leaves a margin of one around the cube |
| BoilingBoulders.Bounds | 18/doit.cc:46-54 | the box leaves a margin of at least one around every cube of lava, and each of its six sides is exactly one beyond some cube |
| BoilingBoulders.Visit | 18/doit.cc:58-68 | visit adds a cube to both the outside and the frontier exactly when it is not lava, not explored and inside the bounds, and otherwise changes nothing |
| BoilingBoulders.Expand | 18/doit.cc:75-81 | popping a cube visits all six of its neighbours: every one in the box and not lava ends up explored, and the frontier only grows by newly explored cubes |
| BoilingBoulders.ReachStep | 18/doit.cc:75-81 | a face step from a reachable cube to air in the box reaches a cube that is reachable too |
| BoilingBoulders.ReachGrown | 18/doit.cc:75-81 | cubes the fill adds next to a reachable cube keep every cube it has explored reachable from ll |
| BoilingBoulders.PathInside | 18/doit.cc:70-82 | a closed set of air that holds ll, when ll is air, holds the end of every face-step walk from ll through air in the box |
| BoilingBoulders.ClosedHoldsReachable | 18/doit.cc:70-82 | a closed set of air that holds ll holds every cube reachable from ll |
| BoilingBoulders.FillStart | 18/doit.cc:70 | visit(ll) starts the loop invariant: explored air inside the box, apart from the lava, reachable from ll, holding ll when ll is air |
| BoilingBoulders.FillStep | 18/doit.cc:71-81 | one turn of the loop keeps the invariant, and either the explored air grows or the frontier shrinks, so the loop ends |
| BoilingBoulders.Fill | 18/doit.cc:56-82 | the flood fill from ll finds exactly the air reachable from ll by face steps inside the box: a cube is explored if and only if such a walk leads to it |
| BoilingBoulders.AirFace | 18/doit.cc:83-88 | for a cube of the filled air, count_faces counts exactly its faces against lava or against the box's walls |
| BoilingBoulders.AirFaces | 18/doit.cc:83-88 | count_faces of the filled air is the sum over the air of its faces against lava plus those against the walls |
| BoilingBoulders.FalseBoundaryCube | 18/doit.cc:84-87 | false_boundary of a one-cube box is that cube's six faces |
| BoilingBoulders.BlockedSplit | 18/doit.cc:27-34 | where no lava lies outside the box, a blocked neighbour is lava or beyond a wall, never both |
| BoilingBoulders.WallFaces | 18/doit.cc:27-34 | for a cube of the box, its neighbours beyond the box are exactly its faces against the six walls |
| BoilingBoulders.AirSplit | 18/doit.cc:83-88 | for a cube of the padded box, the faces count_faces counts for it in the air are its faces against lava plus its faces against the walls |
| BoilingBoulders.ShellIsAir | 18/doit.cc:46-54 | the padding keeps every cube touching a wall of the box free of lava |
| BoilingBoulders.ReachAlong | 18/doit.cc:44-45 | from a reachable cube on a wall, every cube of a straight walk along that wall is reachable |
| BoilingBoulders.ShellReachable | 18/doit.cc:44-45 | every cube of the box that touches a wall is reachable from ll, so the fill always finds the whole outer shell |
| BoilingBoulders.LineSize | 18/doit.cc:84-87 | a line of cubes from v0 to v1 holds v1 - v0 + 1 cubes |
| BoilingBoulders.RectSize | 18/doit.cc:84-87 | a rectangle of cubes holds the product of its two extents |
| BoilingBoulders.SideMembers | 18/doit.cc:84-87 | the cubes of the box on one of its planes form the rectangle spanning the other two axes |
| BoilingBoulders.PlaneSum | 18/doit.cc:84-87 | summed over the box, the cubes on one of its side planes are the product of the other two extents, one term of false_boundary |
| BoilingBoulders.FalseBoundarySides | 18/doit.cc:84-87 | false_boundary is twice the area of each pair of opposite sides of the box |
| BoilingBoulders.BoxWalls | 18/doit.cc:84-87 | false_boundary is exactly the number of faces the box's own cubes show against its six walls |
| BoilingBoulders.AirWalls | 18/doit.cc:83-88 | summed over the filled air, the faces against the walls add up to false_boundary, since the fill reaches the whole shell and only the shell touches a wall |
| BoilingBoulders.ExteriorSurface | 18/doit.cc:83-88 | count_faces of the filled air minus false_boundary is the number of faces of the filled air against the lava |
| BoilingBoulders.Part2 | 18/doit.cc:44-89 | part 2 is count_faces of the air reachable from ll in the padded box minus false_boundary, which is exactly the number of faces of that air against the lava: the droplet's exterior surface |
| NotEnoughMinerals.ParseBlueprint | 19/doit.cc:27-42 | a line too short for the stream is None; a parsed blueprint has a cost table of four rows of three and zero for every cost the sentences never name |
| NotEnoughMinerals.ParseDescribe | 19/doit.cc:34-40 | parsing the puzzle's sentence for a blueprint gives that blueprint back: id and the six costs are read from their places |
| NotEnoughMinerals.ParseAll | 19/doit.cc:44-50 | read yields one blueprint per line, each the parse of its line, or None exactly when some line fails to parse |
| NotEnoughMinerals.Initial | 19/doit.cc:71-77 | the start state has one ore robot, no robot of any other kind and no resources |
| NotEnoughMinerals.Advance | 19/doit.cc:79-83 | a step takes one minute off the time and adds each robot count to its resource, robots unchanged |
| NotEnoughMinerals.Advanced | 19/doit.cc:79-83 | the advance loop computes that step |
| NotEnoughMinerals.CanProduce | 19/doit.cc:132-135 | can_produce is true exactly when no cost exceeds the resources held before the step |
| NotEnoughMinerals.BuildRobot | 19/doit.cc:137-140 | the built state pays each cost out of the advanced resources and has one more robot of the kind built |
| NotEnoughMinerals.BuildKeepsResources | 19/doit.cc:131-141 | a robot built only when affordable leaves no resource negative and adds exactly one robot of its kind |
| NotEnoughMinerals.BestFromWaits | 19/doit.cc:144-145 | waiting is always among the choices, so the best over the choices is at least the best after waiting |
| NotEnoughMinerals.GeodesKept | 19/doit.cc:120-123 | with no negative robot counts, the most geodes reachable is at least the geodes already open |
| NotEnoughMinerals.NewFor | 19/doit.cc:98-108 | next_new is one more than the new robots so far exactly when the resource bounds could pay for that many robots of the kind |
| NotEnoughMinerals.NewRobots | 19/doit.cc:96-109 | next_new_robots holds that count for every kind |
| NotEnoughMinerals.Produce | 19/doit.cc:111-112 | every resource bound grows by the robots of its kind, old and possible new |
| NotEnoughMinerals.NextNewDominates | 19/doit.cc:97-109 | a child state, which has one extra robot and has paid for it, never counts more possible new robots than its parent beyond that robot |
| NotEnoughMinerals.Dominates | 19/doit.cc:94-115 | under that relation the child's relaxation over any number of minutes is at most the parent's |
| NotEnoughMinerals.ChildBound | 19/doit.cc:124-145 | the bound of every state the search moves to, built or waited, is at most the bound of the state it came from |
| NotEnoughMinerals.WithinBound | 19/doit.cc:85-117 | upper_bound is admissible: no sequence of build choices opens more geodes than it |
| NotEnoughMinerals.UpperBound | 19/doit.cc:85-117 | the loop computes the relaxation, starting from the resources held and no new robots, and the result is at least the most geodes reachable, hence at least the geodes open |
| NotEnoughMinerals.Search | 19/doit.cc:119-146 | best becomes the larger of best and the most geodes any sequence of build choices reaches from the state; the cut-off never loses the optimum and best never decreases |
| NotEnoughMinerals.Geodes | 19/doit.cc:152-153 | the most geodes from the start state is never negative |
| NotEnoughMinerals.GeodesFor | 19/doit.cc:152-153 | a search from the start with best 0 yields the most geodes reachable in the given minutes |
| NotEnoughMinerals.QualitySum | 19/doit.cc:150-155 | the sum of id times geodes in 24 minutes is never negative |
| NotEnoughMinerals.GeodeProduct | 19/doit.cc:162-167 | the product of the geode counts is never negative |
| NotEnoughMinerals.Part1 | 19/doit.cc:148-157 | the answer is the sum over the blueprints of id times the most geodes in 24 minutes |
| NotEnoughMinerals.Part2 | 19/doit.cc:159-169 | with at least three blueprints, the answer is the product of the most geodes of the first three in 32 minutes |
| GrovePositioning.Position | 20/doit.cc:44-45 | the item a mixing_order iterator designates is in the list and is the first carrying that iterator's id |
| GrovePositioning.ShiftCount | 20/doit.cc:17-22 | the count as written lies in 0 .. szm1 and is szm1 exactly for a negative value whose magnitude is a multiple of szm1 |
| GrovePositioning.ShiftCountLaps | 20/doit.cc:19-22 | the count as written differs from the value by a whole number of laps of szm1 |
| GrovePositioning.AsWrittenFails | 20/doit.cc:19-32 | as written, the walk of next ends on the moved node itself exactly when the value is negative and its magnitude a multiple of the list size less one |
| GrovePositioning.AsWrittenFailsOnTwo | 20/doit.cc:19-20 | for the numbers 0 and -1, moving -1 walks back onto itself |
| GrovePositioning.FixedCount | 20/doit.cc:17-25 | the corrected count lies in 0 .. szm1 - 1 and is congruent to the value modulo szm1 |
| GrovePositioning.Count | 20/doit.cc:17-25 | the count computation, with a whole lap brought down to 0, yields the corrected count |
| GrovePositioning.FixAgrees | 20/doit.cc:16-33 | wherever the shift as written is defined it gives the corrected shift's list |
| GrovePositioning.ShiftKeeps | 20/doit.cc:31-32 | erasing and re-inserting the number keeps the list's length and its multiset of items |
| GrovePositioning.ShiftMoves | 20/doit.cc:26-32 | the moved item stands at its new place and removing it there leaves the list with it removed at the old place, so the others keep their order |
| GrovePositioning.ShiftDistance | 20/doit.cc:17-30 | the new place minus the old is congruent to the value modulo the list size less one |
| GrovePositioning.FullCircleStays | 20/doit.cc:22-25 | a value that is a multiple of the list size less one leaves the list as it was |
| GrovePositioning.Shift | 20/doit.cc:16-33 | the count, the walk of next and the erase and insert give the corrected shift |
| GrovePositioning.Start | 20/doit.cc:38-42 | the list as read holds each number times the key, with the input positions as iterators |
| GrovePositioning.StartIds | 20/doit.cc:40-42 | every mixing_order iterator designates an item of the list as read |
| GrovePositioning.SameIds | 20/doit.cc:44-45 | a list with the same items has the same iterators, so the iterators stay valid through mixing |
| GrovePositioning.MixRound | 20/doit.cc:44-45 | a pass of shifts keeps the list's length and items |
| GrovePositioning.Mixed | 20/doit.cc:43-45 | num_iters passes keep the list's length and items |
| GrovePositioning.MixPass | 20/doit.cc:44-45 | the loop over mixing_order performs one pass |
| GrovePositioning.FindZero | 20/doit.cc:47 | find gives the first index holding 0, or the length when none does |
| GrovePositioning.Around | 20/doit.cc:50 | an offset taken modulo the size is a place of the circle |
| GrovePositioning.RotateAt | 20/doit.cc:46 | place i of the circle cut at r is place i + r, wrapped, of the original |
| GrovePositioning.ZeroAcrossCut | 20/doit.cc:47 | with exactly one 0, cutting the circle elsewhere moves the 0 back by the cut |
| GrovePositioning.OffsetAcrossCut | 20/doit.cc:49-50 | an offset from the 0 reaches the same number whichever way the circle is cut |
| GrovePositioning.GroveRotation | 20/doit.cc:46-50 | with exactly one 0 the grove coordinates do not depend on where the circle is cut, so placing a number at the front or the back of the list is the same |
| GrovePositioning.GroveSum | 20/doit.cc:48-50 | the loop over offsets 1000, 2000, 3000 after the 0 sums the grove coordinates |
| GrovePositioning.MixedFile | 20/doit.cc:43-46 | the mixed file has as many numbers as the input |
| GrovePositioning.Solve | 20/doit.cc:35-52 | solve's answer is the grove coordinates of the file mixed num_iters times |
| GrovePositioning.Part1 | 20/doit.cc:54 | part 1 mixes once with key 1 |
| GrovePositioning.Part2 | 20/doit.cc:55 | part 2 mixes ten times with key 811589153 |
| MonkeyMath.OpOf | 21/doit.cc:33-46 | the ops table has exactly the keys +, -, * and / |
| MonkeyMath.QuotExact | 21/doit.cc:41-45 | C++ division of an exact multiple by a nonzero factor gives back the other factor |
| MonkeyMath.SolveFirst | 21/doit.cc:34-42 | for + and -, and for * with a nonzero second operand, solve1 applied to eval's result and the second operand gives back the first |
| MonkeyMath.SolveSecond | 21/doit.cc:34-42 | for + and -, and for * with a nonzero first operand, solve2 applied to eval's result and the first operand gives back the second |
| MonkeyMath.SolveDivide | 21/doit.cc:43-45 | for /, eval and its inverses undo each other when the division is exact |
| MonkeyMath.DivideLosesRemainder | 21/doit.cc:43-44 | when the division is not exact solve1 does not give back the dividend: 7 / 2 is 3 and solve1 gives 6 |
| MonkeyMath.HumanFree | 21/doit.cc:108-115 | a monkey whose yell does not depend on the human yells the same whatever the human yells |
| MonkeyMath.WithHumanRanked | 21/doit.cc:117-119 | giving the human a number keeps the listening acyclic |
| MonkeyMath.SolveYieldsWanted | 21/doit.cc:117-133 | below the root, when every inversion on the path is exact, the troop with the human yelling solve's answer makes the monkey yell what was wanted |
| MonkeyMath.RootBalanced | 21/doit.cc:123-128 | at the root, with the human yelling solve's answer, the root's two operands yell the same number |
| MonkeyMath.ParseLine | 21/doit.cc:74-88 | a line is a name ending in ':' followed by a number that starts with a digit, or by a first name, an operator from the ops table and a second name; anything else fails |
| MonkeyMath.ReadKeeps | 21/doit.cc:72-90 | read never redefines a monkey, and every monkey it adds was named by a word ending in ':' |
| MonkeyMath.Read | 21/doit.cc:72-90 | the read loop gives the troop the line-by-line reading defines, or fails where an assert does |
| MonkeyMath.Part1 | 21/doit.cc:136-139 | part 1's answer is the root's yell when the input reads and has a root, and None otherwise |
| MonkeyMath.Part2 | 21/doit.cc:141-144 | part 2's answer is solve at the root, given 1, when the input reads and has a root, and None otherwise |
| MonkeyMap.FaceThenBoard | 22/doit.cc:47-57 | for a board position at row and column 1 or more, face_coord gives a face at or right of and below the origin and a local position within [0, side) on both axes, and board_coord gives the position back |
| MonkeyMap.BoardThenFace | 22/doit.cc:47-57 | face_coord recovers the face and the local position from board_coord for every face at or after the origin and every local position within the face |
| MonkeyMap.ToEdge | 22/doit.cc:173-181 | to_edge maps every position within a face to a place in [0, side) along the chosen edge |
| MonkeyMap.FromEdge | 22/doit.cc:183-191 | from_edge gives a position that to_edge reads back as the same place, and for a place in [0, side) the position lies on that edge of the face |
| MonkeyMap.EdgeRoundTrip | 22/doit.cc:173-191 | from_edge gives back every position on an edge from the place to_edge reads off it |
| MonkeyMap.Face.constructor | 22/doit.cc:122-125 | a new face has the side and face position given and no edge linked |
| MonkeyMap.Face.Link | 22/doit.cc:127-132 | link fills an empty slot with the link given and leaves a filled slot as it was; the assert of link holds exactly when the slot was empty or already held that link |
| MonkeyMap.Face.WrapIncoming | 22/doit.cc:165-171 | the new facing is (edge + 2) % 4, away from the edge entered; for a place within the edge the position lands on this face, on that edge, at that place |
| MonkeyMap.Face.Wrap | 22/doit.cc:150-163 | wrap reports true exactly when face_coord puts the position on this face; otherwise position and facing are unchanged; when it wraps, the facing is away from the linked edge, and from a board position it lands on the linked face at the reversed place along the edge |
| MonkeyMap.AtIn | 22/doit.cc:266-271 | at gives a space for any position outside the stored rows, and any other answer is the stored character at that position |
| MonkeyMap.PaddedTile | 22/doit.cc:220-229 | with the padding the constructor adds (an empty row 0 and a space before every row), every tile that is not a space lies at row and column 1 or more |
| MonkeyMap.FlatBackRun | 22/doit.cc:282-284 | the flat-wrap loop backs up some k steps, all onto tiles that are not spaces, and stops with a space behind it |
| MonkeyMap.FlatWrapFarthest | 22/doit.cc:280-284 | from a tile with a space ahead, flat wrapping lands on the farthest tile behind it reached through tiles that are not spaces, with a space beyond |
| MonkeyMap.CubeWrap | 22/doit.cc:285-289 | the facing stays a facing, and from a board position the cube wrap either leaves position and facing as they were or lands on one of the faces |
| MonkeyMap.CubeWrapCovered | 22/doit.cc:285-291 | when the board has a tile at every position of every face, the cube wrap lands on a tile or stays where it was |
| MonkeyMap.StepIn | 22/doit.cc:273-300 | a blocked step returns false with position and facing unchanged, and the facing always stays in 0..3 |
| MonkeyMap.StepOpen | 22/doit.cc:273-300 | on a padded board whose faces are all tiles, a step from an open tile ends on an open tile, never on a wall or a space |
| MonkeyMap.Board.Step | 22/doit.cc:273-300 | step moves and reports exactly as the step specification does, for both flat and cube wrapping |
| MonkeyMap.Board.FlatWrap | 22/doit.cc:282-284 | the flat-wrap loop ends where the backing-up specification ends |
| MonkeyMap.Board.CubeWrapAll | 22/doit.cc:285-289 | the loop over the faces stops at the first face that wraps and returns what the cube-wrap specification returns |
| MonkeyMap.Mark | 22/doit.cc:321 | the trail mark for a facing is neither a space nor a wall |
| MonkeyMap.MarkKeepsShape | 22/doit.cc:321 | marking an open tile keeps which tiles are spaces and which are walls, and the tile stays open |
| MonkeyMap.SameShapeStep | 22/doit.cc:273-300 | a step on a marked board moves exactly as on the board as read, so the trail marks never change the walk |
| MonkeyMap.Turn | 22/doit.cc:313 | a turn gives a facing in 0..3 |
| MonkeyMap.TurnsUndo | 22/doit.cc:313 | L followed by R and R followed by L leave the facing unchanged, four R turns come back to the start, and L is three R turns |
| MonkeyMap.ForwardNext | 22/doit.cc:320-321 | a count of steps stops at the first blocked step and otherwise continues from where the step moved |
| MonkeyMap.ForwardOpen | 22/doit.cc:320-321 | from an open tile the steps of a count end on an open tile |
| MonkeyMap.WalkTurn | 22/doit.cc:312-314 | a turn instruction changes only the facing and moves to the next instruction |
| MonkeyMap.WalkCount | 22/doit.cc:315-321 | a count instruction takes the steps atoi reads and continues after its last digit |
| MonkeyMap.WalkOpen | 22/doit.cc:309-323 | the walk from an open tile ends on an open tile |
| MonkeyMap.PasswordDecodes | 22/doit.cc:324 | 1000·row + 4·col + facing gives back the row, the column (below 250) and the facing |
| MonkeyMap.SkipDigits | 22/doit.cc:318-319 | the loop skipping a count stops after the count's last digit, past the first |
| MonkeyMap.Board.StepMark | 22/doit.cc:320-321 | one step moves as the step specification does on the board as read and marks the tile reached, keeping the board's shape |
| MonkeyMap.Board.Advance | 22/doit.cc:320-321 | the step loop ends where the count of steps ends on the board as read, on an open tile, with the board's shape kept |
| MonkeyMap.Follow | 22/doit.cc:310-322 | one instruction advances the path index and leaves the rest of the walk unchanged, keeping the board's shape |
| MonkeyMap.Simulate | 22/doit.cc:302-325 | simulate answers the password of the walk over the board as read, from the first open tile of row 1 facing right, and its trail marks leave spaces and walls as they were |
| UnstableDiffusion.Turn | 23/doit.cc:94 | the direction index (i + first_dir) % 4 is always one of the four directions |
| UnstableDiffusion.StayIffAlone | 23/doit.cc:31-34 | the stay check is clear exactly when none of the eight neighbours holds an elf, and an elf that stays proposes its own cell |
| UnstableDiffusion.DirectionStep | 23/doit.cc:37-40 | each of north, south, west and east checks three cells, the first of which is the one step it proposes |
| UnstableDiffusion.FirstClearStays | 23/doit.cc:93-95 | trying the directions from the i-th on leaves the proposal at pos exactly when none of them is clear; a moving proposal is one step away and onto a free cell |
| UnstableDiffusion.Rotation | 23/doit.cc:94 | the direction tried at turn d is directions[(d + first_dir) % 4] |
| UnstableDiffusion.ProposalMoves | 23/doit.cc:89-96 | an elf proposes another cell exactly when it has a neighbour and one of the four directions is clear; such a proposal is a free cell one step away |
| UnstableDiffusion.DestInjective | 23/doit.cc:98-100 | two different elves never end a round on the same cell |
| UnstableDiffusion.ImageSize | 23/doit.cc:98-100 | an injective destination map keeps the number of elves of any subset |
| UnstableDiffusion.ElfCount | 23/doit.cc:101-102 | a round loses no elf: the new set of positions is as large as the old, as the assert demands |
| UnstableDiffusion.StillIffNoneMoves | 23/doit.cc:103 | the positions are unchanged exactly when every elf's destination is its own cell, in particular when no elf proposes to move |
| UnstableDiffusion.StateCount | 23/doit.cc:124-125 | every round keeps the number of elves |
| UnstableDiffusion.ChangingAll | 23/doit.cc:132 | the rounds keep changing the positions up to n exactly when none of the first n rounds leaves them fixed |
| UnstableDiffusion.GridIsElves | 23/doit.cc:65-74 | a cell is in the grid exactly when its row (counted downwards from y = 0) has '#' at its column |
| UnstableDiffusion.Positions | 23/doit.cc:65-74 | the elves read from the lines are exactly the '#' cells, with y going down from 0 a line at a time |
| UnstableDiffusion.RowSize | 23/doit.cc:119 | a row of the rectangle from lo.x to hi.x holds hi.x - lo.x + 1 cells |
| UnstableDiffusion.BoxSize | 23/doit.cc:119 | the rectangle from lo to hi holds (hi.x - lo.x + 1) * (hi.y - lo.y + 1) cells |
| UnstableDiffusion.EmptyCells | 23/doit.cc:119 | for elves inside the rectangle, area minus the elf count is the number of empty cells of the rectangle and is never negative |
| UnstableDiffusion.BoundingBox | 23/doit.cc:110-118 | the minima and maxima found hold every elf inside and each is attained by some elf |
| UnstableDiffusion.Elves.constructor | 23/doit.cc:65-74 | the new elves are the grid's '#' cells and the first direction is north |
| UnstableDiffusion.Elves.Propose | 23/doit.cc:76-84 | the answer is true exactly when every check cell is free; then next is pos + delta, else next is left alone |
| UnstableDiffusion.Elves.ProposeFor | 23/doit.cc:90-95 | the proposal found is the elf's Proposal: its own cell when alone, else the first clear direction from first_dir, else its own cell |
| UnstableDiffusion.Elves.Proposals | 23/doit.cc:89-97 | proposals maps every elf to its Proposal and wanted counts, for every cell, the elves proposing it |
| UnstableDiffusion.Elves.Tally | 23/doit.cc:90-96 | one more elf's proposal is recorded and the count of its cell grows by one |
| UnstableDiffusion.Elves.Moves | 23/doit.cc:98-100 | the new positions are each elf's uncontested proposal or else its old cell, that is, Next of the old positions |
| UnstableDiffusion.Elves.Round | 23/doit.cc:86-107 | the elves move to Next of their positions, first_dir advances by one, the count is kept, and the answer is true exactly when the positions changed |
| UnstableDiffusion.Elves.CountEmpty | 23/doit.cc:109-120 | the rectangle found is the tight bounding box and the answer is the number of its empty cells |
| UnstableDiffusion.ImageAdd | 23/doit.cc:99-100 | adding one elf to the second loop adds its destination to the new positions |
| UnstableDiffusion.WantedGrows | 23/doit.cc:96 | ++wanted[proposal] keeps wanted equal to the proposer counts of the elves seen so far |
| UnstableDiffusion.ProposersGrow | 23/doit.cc:96 | one more elf adds itself to the proposers of its own proposal and of no other cell |
| UnstableDiffusion.Part1 | 23/doit.cc:122-127 | after ten rounds the answer is the number of empty cells in the tight bounding box of the elves |
| UnstableDiffusion.Part2 | 23/doit.cc:129-135 | the answer is one more than the index of the first round that leaves the elves where they are, every earlier round having moved some elf; None only when no such round comes within fuel rounds |
| UnstableDiffusion.RoundFrom | 23/doit.cc:132 | a round played on the elves after n rounds gives the state after n + 1 and reports a change exactly when round n is not still |
| UnstableDiffusion.StateStep | 23/doit.cc:104-105 | the positions after round n are Next of those before it, and round n is still exactly when they are unchanged |
| UnstableDiffusionMap.BusyAll | 23/doit1.cc:135 | the rounds pass a test up to n exactly when each of the first n rounds does |
| UnstableDiffusionMap.MovedAdd | 23/doit1.cc:103 | any_moved after one more elf is the old flag or that elf's proposal differing from its cell |
| UnstableDiffusionMap.QuietIsStill | 23/doit1.cc:98-104 | a round in which no elf proposes to move leaves the positions unchanged, so part2's answer is a still round |
| UnstableDiffusionMap.MovingIsProposing | 23/doit1.cc:98-104 | a round that changes the positions is one in which some elf proposed to move |
| UnstableDiffusionMap.Blank | 23/doit1.cc:75 | the map built from a set of cells has exactly those cells as keys |
| UnstableDiffusionMap.ScannedNone | 23/doit1.cc:98-99 | before the second loop the new map is empty and any_moved false, as the empty set of elves gives |
| UnstableDiffusionMap.Elves.constructor | 23/doit1.cc:68-78 | the keys are the grid's '#' cells, each with the (0, 0) placeholder, and the first direction is north |
| UnstableDiffusionMap.Elves.Propose | 23/doit1.cc:80-86 | returning at the first occupied check cell, the answer is true exactly when every check cell is free; then next is pos + delta |
| UnstableDiffusionMap.Elves.ProposeFor | 23/doit1.cc:91-95 | the proposal found is the same Proposal as the first version's |
| UnstableDiffusionMap.Elves.Tally | 23/doit1.cc:90-97 | the elf's own entry now holds its proposal and the count of that cell grows by one |
| UnstableDiffusionMap.Elves.Proposals | 23/doit1.cc:89-97 | every entry holds its elf's Proposal, the keys are unchanged, and wanted counts the proposers of every cell |
| UnstableDiffusionMap.Elves.Moves | 23/doit1.cc:98-104 | the new map's keys are Next of the positions, each with the placeholder, and any_moved is true exactly when some elf proposed a cell other than its own |
| UnstableDiffusionMap.Elves.MoveOne | 23/doit1.cc:100-104 | one more elf places its destination in the new map and updates any_moved |
| UnstableDiffusionMap.Elves.DestFor | 23/doit1.cc:102 | the cell emplaced is the elf's proposal when exactly one elf wants it, else its own cell: the first version's Dest |
| UnstableDiffusionMap.Elves.Round | 23/doit1.cc:88-109 | the keys become Next of the old keys, first_dir advances, the count is kept, and the answer is true exactly when some elf proposed to move |
| UnstableDiffusionMap.Elves.CountEmpty | 23/doit1.cc:111-123 | the rectangle found is the tight bounding box of the keys and the answer is its number of empty cells |
| UnstableDiffusionMap.Part1 | 23/doit1.cc:125-130 | after ten rounds the answer is the same empty-cell count as the first version's |
| UnstableDiffusionMap.RoundFrom | 23/doit1.cc:135 | a round on the elves after n rounds gives the state after n + 1 and reports true exactly when some elf of round n proposed to move |
| UnstableDiffusionMap.Part2 | 23/doit1.cc:132-138 | the answer is one more than the index of the first round in which no elf proposes to move; that round leaves the elves still and every earlier round had a proposal to move; None only when no such round comes within fuel rounds |
| BlizzardBasin.ReadValley | 24/doit.cc:38-47 | the valley exists exactly when there are at least three rows of one length, at least three long; the start is the first '.' of the top row and the goal the first '.' of the bottom row, or column -1 when the row has none |
| BlizzardBasin.UnsignedMod | 24/doit.cc:49-54 | for a positive modulus the result lies in [0, modulus) |
| BlizzardBasin.UnsignedModIsMod | 24/doit.cc:49-54 | unsigned_mod equals the mathematical remainder, so it is congruent to a for negative a too |
| BlizzardBasin.IsClear | 24/doit.cc:56-68 | a clear cell is on the map and not a wall, and an opening in the top or bottom wall is always clear |
| BlizzardBasin.FromAbove | 24/doit.cc:70 | the cell the 'v' lookup reads is an interior cell of pos's column |
| BlizzardBasin.FromBelow | 24/doit.cc:73 | the cell the '^' lookup reads is an interior cell of pos's column |
| BlizzardBasin.FromRight | 24/doit.cc:76 | the cell the '<' lookup reads is an interior cell of pos's row |
| BlizzardBasin.FromLeft | 24/doit.cc:79 | the cell the '>' lookup reads is an interior cell of pos's row |
| BlizzardBasin.DownOnto | 24/doit.cc:69-71 | a 'v' blizzard is on pos at minute t exactly when it starts on the cell the 'v' lookup reads |
| BlizzardBasin.UpOnto | 24/doit.cc:72-74 | a '^' blizzard is on pos at minute t exactly when it starts on the cell the '^' lookup reads |
| BlizzardBasin.LeftOnto | 24/doit.cc:75-77 | a '<' blizzard is on pos at minute t exactly when it starts on the cell the '<' lookup reads |
| BlizzardBasin.RightOnto | 24/doit.cc:78-80 | a '>' blizzard is on pos at minute t exactly when it starts on the cell the '>' lookup reads |
| BlizzardBasin.Unswept | 24/doit.cc:69-82 | when all four lookups find nothing, no blizzard of the map is on pos at minute t |
| BlizzardBasin.Found | 24/doit.cc:69-80 | when a lookup finds its arrow, some blizzard is on pos at minute t |
| BlizzardBasin.ClearIff | 24/doit.cc:56-83 | an interior cell that is not a wall is clear at minute t if and only if no blizzard, each drifting one cell a minute and wrapping inside the walls, is on it |
| BlizzardBasin.DriftPeriodic | 24/doit.cc:69-80 | every blizzard is back in the same place after (rows - 2) * (columns - 2) minutes |
| BlizzardBasin.ClearPeriodic | 24/doit.cc:56-83 | is_clear of any cell is unchanged by adding (rows - 2) * (columns - 2) to t |
| BlizzardBasin.MoveIff | 24/doit.cc:119-122 | the five deltas reach exactly the cells at Manhattan distance at most one, waiting included |
| BlizzardBasin.TripDistance | 24/doit.cc:22-24 | a trip covers at most one unit of Manhattan distance a minute, which is what makes the prune safe |
| BlizzardBasin.Delay | 24/doit.cc:139-143 | waiting on an opening is always possible, so a trip leaving it later can be had from an earlier minute |
| BlizzardBasin.Search | 24/doit.cc:85-129 | an arrival is the earliest: some trip reaches `to` in that many minutes and none in fewer; an empty queue with no arrival, where the assert fails, means no trip reaches `to` |
| BlizzardBasin.Expand | 24/doit.cc:119-125 | every clear cell one move away is visited at the next minute, nothing else is, and every newly visited state is queued |
| BlizzardBasin.Visit | 24/doit.cc:98-103 | a state already visited is not pushed again; a new one is marked visited and pushed once |
| BlizzardBasin.Walk | 24/doit.cc:106-126 | once the queue is empty, following any trip to `to` through its handled states shows best exists and is no later than that trip |
| BlizzardBasin.StillHandled | 24/doit.cc:112-117 | a popped state stays accounted for as best only comes down and visited only grows |
| BlizzardBasin.Part1 | 24/doit.cc:131-134 | part1 is the earliest arrival at the goal leaving the start at minute 0 |
| BlizzardBasin.Part2 | 24/doit.cc:136-145 | part2 sums three earliest trips, each leaving at the sum of the ones before |
| BlizzardBasin.LaterStart | 24/doit.cc:139-143 | the earliest arrival from an opening beats any trip leaving it later |
| BlizzardBasin.RoundTripBound | 24/doit.cc:136-145 | no goal, start, goal journey whose legs chain is shorter than part2's total |
| Snafu.ValueCons | 25/doit.cc:15-28 | the leading SNAFU digit is worth its value times 5 to the number of digits after it |
| Snafu.ToDecimal | 25/doit.cc:15-28 | the loop from the last character computes the balanced base-5 value of the string |
| Snafu.Rem5 | 25/doit.cc:33 | C's truncating remainder by 5 lies between -4 and 4 |
| Snafu.Next | 25/doit.cc:41 | the quotient plus carry shrinks in absolute value while non-zero, so the do-while ends |
| Snafu.ToSnafu | 25/doit.cc:30-45 | the written form has at least one digit, even for zero |
| Snafu.ToSnafuLoop | 25/doit.cc:30-45 | the do-while pushing digits least significant first, followed by the reverse, yields the digits most significant first |
| Snafu.ToSnafuZero | 25/doit.cc:32-42 | zero is written "0" |
| Snafu.ToSnafuChars | 25/doit.cc:33-39 | for a non-negative number only '=', '-', '0', '1' and '2' are written |
| Snafu.ToSnafuLeading | 25/doit.cc:30-45 | for a positive number the leading digit is 1 or 2, so there are no leading zeros |
| Snafu.RoundTrip | 25/doit.cc:15-45 | to_decimal reads back exactly the non-negative number to_snafu writes |
| Snafu.Part1 | 25/doit.cc:47-53 | the answer is the SNAFU form of the sum of the lines' values and, when that sum is non-negative, reads back as that sum |

## Left out

- Common.Atoi: skips leading spaces only; C's atoi skips every isspace character (tabs, newlines and the rest), which no line the model reads contains.
- Integers: the model's integers are unbounded. The source's fixed-width types are int for the calorie sums (01), size_t for the directory sizes (07), 64-bit num for worry levels and their products (11), int for the released pressure (16) and long for the SNAFU sum (25); their overflow is not modelled.
- Calories / CaloriesTop: reading standard input with getline is not modelled; each line is given as the Line datatype, Blank or the Number stoi reads from it, so a line stoi rejects (it throws) is not modelled.
- Calories.Part2: requires more than two elves, the assert of the source, instead of modelling its failure.
- CaloriesTop.PrintTop: requires n to be at most the number of elves, the assert of print_top.
- RockPaperScissors.Score: requires every line to be a round "<A-C> <X-Z>", the asserts on each line and letter, instead of modelling their failure.
- Rucksack.Part1: requires every pack to split into two halves sharing an item, the asserts of part1, instead of modelling their failure.
- Rucksack.Part2: requires the packs to come in groups of three with a common item, the asserts of part2, instead of modelling their failure; the bitmask and set-intersection variants of the source compute the same badge and are not modelled separately.
- CampCleanup.CountPairs: requires each record's ranges to be well formed, the assert of count_pairs; scanf's parsing of "s1-e1,s2-e2" is not modelled (records are given as numbers).
- SupplyStacks.ReadStacks: requires a well-drawn picture (non-empty, labels line of length 4k - 1, every row that long), the asserts of read_stacks; scanf's parsing of the move lines is not modelled (moves are given as numbers).
- TuningTrouble: the line read with getline is given as a string.
- FileTree.Stoul / SizeStack: stoul reads the leading decimal digits only; leading whitespace, a sign (a negative wraps around in size_t) and the out_of_range throw are not modelled.
- Treetop: a height character below '0' makes the source index its vector with a negative number past assert(t < num_heights), which is undefined; the model returns None for every non-digit height, the defined failure of a height above '9' included.
- Valves: reading lines from standard input and splitting them into words are not modelled; each line is given as its sequence of words.
- Valves.Volcano.constructor: requires every tunnel to lead to a valve of the input, which the source assumes when at() dereferences the map lookup.
- Valves.Volcano.PathsOfLength: requires Ready: AA and every working valve must have a stored hop count to every working valve. In the source an unreachable working valve makes shortest_path's find(to)->second (16/doit.cc:143) dereference end(), which is undefined behaviour; BestSingle and BestPairOfLength carry the same requirement.
- Valves.Volcano.PathsOfLength: list::sort is stable; the model states a permutation sorted by decreasing total, not the order among equal totals.
- Snafu: part2 prints a fixed message and is not modelled; reading lines from standard input is not modelled.
- Snafu.RoundTrip: proved for non-negative sums only; for a negative sum C's remainder can be -3, written as the character three below '0', which is '-' and reads back as -1.
- RegolithReservoir.Cave.Segment: requires the segment to be horizontal, vertical or at 45 degrees; on any other the source's loop steps past the end and never stops. Reading the path lines ("x,y -> x,y ...") with a stringstream is not modelled; each path is given as its points.
- RegolithReservoir.Cave.Sand: where the source's loop never ends (reaches returning neither the goal nor ' ', after which nothing changes), the model returns None.
- RegolithReservoir.Part1 / Part2: the constructor's assert that the source is not rock is modelled as None.
- Rope: the input loop reads pairs with `cin >> dir >> num_steps` until the first one that does not parse; the model takes the motions already parsed.
- Rope: coordinates and step counts are unbounded integers; int overflow of a knot's position is not modelled.
- Rope.RopeSim: requires at least two knots, the assert at the top of rope_sim, instead of modelling its failure.
- CathodeRay / CathodeTicks: instructions are taken as already read words (noop, addx with or without a number, anything else); reading them from standard input is not modelled.
- CathodeRay.Part1: requires at least 220 trace entries; with fewer, xs[i - 1] reads past the vector, which the source leaves undefined.
- CathodeTicks: the tick callbacks are modelled by the stream of (t, x) pairs they receive; part1 and part2 fold over that stream.
- CathodeRay / CathodeTicks: int overflow of X, t or the signal sum is not modelled.
- MonkeyMiddle: monkeys are values in an array of `Monkey` records; the `function<num(num)>` closure is the `Op` datatype and the static `lcm_divisors` is returned by Read alongside the monkeys.
- MonkeyMiddle: reading tokens from standard input and skipping whitespace are not modelled; the input is a sequence of tokens, and a failed assert or a throwing stoul is None.
- MonkeyMiddle.Stoul: reads the leading decimal digits only; stoul's acceptance of leading whitespace, a sign and other bases, and its out_of_range throw, are not modelled.
- MonkeyMiddle: the 64-bit unsigned worry levels and the 32-bit counts are unbounded naturals; their overflow is not modelled.
- MonkeyMiddle.LcmMultiple: proves the lcm a common multiple, not that it is the least one, which the reduction does not need.
- MonkeyMiddle.Turn: requires a monkey never to throw to itself (Fits, and Sane for PlayRound and MonkeyBusiness). The source accepts such a throw: the item goes to the back of the monkey's own list and is inspected again in the same turn, which ends only once every item lands elsewhere and can go on for ever; the model does not cover those turns.
- MonkeyMiddle.MonkeyBusiness: takes the rounds and the relief (20 and 3 for part 1, 10000 and 1 for part 2) and the monkeys read as parameters.
- MonkeyMiddle.ParseMonkeyRoundTrip: requires at least one starting item, since numbers always reads one; a monkey's "Monkey N:" number is read and dropped as in the source.
- HillClimbing.Bfs: requires every height to be at most z; a taller cell could step off the grid into an unbounded search, which a map of lowercase letters never does.
- HillClimbing.Part2: requires every height to be a letter a to z; flip's char arithmetic is kept to 8 bits, but a signed char comparison on codes above 127 is not modelled.
- Day 12: the done callback of bfs is modelled as a set of goal cells; reading standard input and printing the count are left out (the lines are a parameter, the count a result).
- DistressSignal.SortPackets: std::sort is modelled as an insertion sort whose comparator never fails; the source's operator< aborts when the sort compares two level packets (see Findings), and which pairs std::sort compares is not modelled.
- DistressSignal.Parse: atoi's overflow on digit runs wider than int is not modelled; integers are unbounded.
- DistressSignal.Part1: an odd number of packets gives None; the source dereferences an empty optional there.
- DistressSignal.ReadAll: getline and the input stream are not modelled; the lines are given as a sequence of strings.
- FileTree.Calls: entries are kept in creation order, while the source's std::map visits them by name; the calls agree only as a multiset, and both answers (a sum over the small sizes, a smallest size) do not depend on the order.
- BeaconExclusion / BeaconRows: reading the lines from standard input and printing the answers are not modelled; ParseSensor reads one line, and Part1 and Part2 take the sensors as parameters.
- BeaconExclusion / BeaconRows: int overflow of x ± span, of the distances and of the 64-bit tuning frequency is not modelled; integers are unbounded.
- BeaconExclusion.Part1: requires every sensor's distance to be its beacon's, as sensor::sensor sets it.
- BeaconExclusion.ScanRow: checks both bounds of each candidate column, the corrected scan (see Findings); the as-written scan is ScanAsWritten.
- BeaconRows: onion, sensor, sensor::add, coverage and part1 of 15/doit1.cc are the same as those of 15/doit.cc and are modelled once, in BeaconExclusion.
- BeaconRows.Part2: the row choice is a heuristic; the model proves every answer a gap cell and every chosen row scanned, not that the distress beacon's row is among the chosen rows.
- BeaconRows.LeftRowFlank: stated for sensors at a non-negative column only; for a sensor left of column 0, extra = dist - x puts the rows 2|x| farther out than where its diamond stops reaching column 0 (likewise RightRowFlank right of column 4000000).
- PyroclasticFlow: reading the jets line with getline is not modelled; the line is a parameter of the constructor and of Solve.
- PyroclasticFlow.Solve: the answer is shown to be the height after the rocks actually dropped plus the skipped repeats' height, as solve computes it; that a repeat seen on a floor-like top row really recurs, the heuristic of like_a_floor, is not proved, so the answer is not shown equal to the height after n rocks.
- PyroclasticFlow.Solve: requires n >= 1 and a nonempty jets line; with n = 0 the do-while still drops a rock and the size_t remaining wraps around, and an empty line makes get_jet divide by zero.
- PyroclasticFlow.Chamber.Finish: requires the rock to fit, the assert of finish, instead of modelling its failure.
- PyroclasticFlow: the size_t counts and the int coordinates are unbounded; their overflow is not modelled.
- BoilingBoulders: the source reads coordinates as doubles; they are always whole numbers and are modelled as integers. The size_t count and the int false_boundary are unbounded integers.
- NotEnoughMinerals.ParseBlueprint: the line is taken as its words; a number word is digits only and the id word is digits followed by one other character. The stream's reading of signs, and its realigning when a number runs into the next word, are not modelled: such lines are None.
- NotEnoughMinerals: the state struct is a value; advance and the build_robot copy are modelled as functions returning the new state, since search copies the state before each change.
- NotEnoughMinerals: int overflow of resources, bounds and the answers is not modelled; integers are unbounded.
- NotEnoughMinerals.Part2: requires three blueprints, the assert at the top of part2, instead of modelling its failure.
- NotEnoughMinerals: reading the lines from standard input and printing the answers are not modelled.
- GrovePositioning: reading the numbers from standard input is not modelled; they are given as a sequence. The list's iterators are modelled by the numbers' input positions, carried with each item.
- GrovePositioning: the source's 64-bit `long` is modelled as unbounded integers; the puzzle's numbers times the key 811589153 stay well inside 64 bits.
- GrovePositioning.Solve: requires at least two numbers, as the source does implicitly: with one number szm1 is 0 and the remainder by it is undefined.
- GrovePositioning.Shift: models the corrected count (see Findings); the count as written is GrovePositioning.ShiftAsWritten, a function with None where the source inserts at an erased iterator.
- MonkeyMath.Yell: the cache in `yelling` is not modelled; the source writes through a disengaged optional (21/doit.cc:103), which is undefined behaviour, so yell is modelled as plain recursive evaluation.
- MonkeyMath: the listening relation is required to be acyclic, witnessed by a rank map; on a cycle the source recurses without end. find's assert that a listened-to monkey exists is part of that requirement. The 64-bit `long` arithmetic is modelled on unbounded integers; division by zero, undefined in the source, is None.
- MonkeyMath.Solve: solve on a non-root monkey that yells a number is None (the source's assert(listening)). Solve is proved right only under Invertible, which states that exactly one operand depends on the human and that every inverse is exact; otherwise, as DivideLosesRemainder shows, truncating division can lose the answer.
- MonkeyMath: the input is modelled as its whitespace-separated words; 21/doit1.cc (evaluation with complex<double>) is floating point and is not part of this model.
- MonkeyMap: reading the board and the path from cin, the board's constructor (padding, the gcd side, starting_col, enumerating the faces), is not modelled; Simulate takes a board that is already padded, with its faces, and the path as parameters.
- MonkeyMap: board::fold and face::fold, the fixed point that links the edges of the cube face by face, are not modelled; the faces' links are taken as given, as long as every edge is linked to a face of the same side.
- MonkeyMap.Simulate: requires every character of the path to be L, R or a digit (the assert of simulate), and a board whose faces are all tiles.
- MonkeyMap: the double multiplication operator on coordinates is only used with integer sides and is modelled as integer multiplication; int overflow is not modelled.
- UnstableDiffusion / UnstableDiffusionMap: reading the grid from standard input is not modelled; the lines are a parameter and the answers results.
- UnstableDiffusion / UnstableDiffusionMap: first_dir is an unbounded natural; the source's unsigned wrap-around at 2^32 is harmless because 4 divides 2^32, so (i + first_dir) % 4 is unchanged.
- UnstableDiffusion / UnstableDiffusionMap: int overflow of the coordinates and of the rectangle's area is not modelled; integers are unbounded.
- UnstableDiffusion.Part2: takes a fuel bound and answers None when no still round comes within it; the source loops until the elves stop, which need not happen.
- UnstableDiffusionMap.Part2: takes the same fuel bound; the round it reports is the first with no proposal to move, which is a still round but need not be the first still round, since a round whose every proposal is contested reports a move without changing the positions.
- UnstableDiffusion / UnstableDiffusionMap: std::set and std::map visit the elves in coordinate order; the model picks them in any order, and both loops' results do not depend on it.
- UnstableDiffusion.Elves.CountEmpty / UnstableDiffusionMap.Elves.CountEmpty: require at least one elf, since *locs.begin() dereferences an empty set otherwise; Part1 requires the grid to hold an elf for the same reason.
- BlizzardBasin.Search: takes a step budget (fuel) and answers OutOfFuel when it runs out, because states carry an unbounded minute and nothing bounds the loop until an arrival exists; the source loops until the queue empties.
- BlizzardBasin.Search: the priority_queue's heuristic order is not modelled; the queue is a multiset popped in any order, and the proofs hold for every order, the heuristic one included.
- BlizzardBasin: int overflow of the minute counts is not modelled.
- BlizzardBasin.ReadValley: reading the lines from standard input and printing the answers are not modelled.

## Findings

| source | as written | input that shows it | evidently intended | confidence | as-written member | corrected member |
|---|---|---|---|---|---|---|
| 11/doit.cc:127-129 | every worry level is reduced modulo the lcm of the divisors, also in part 1 where it was first divided by the relief 3 | three monkeys testing divisibility by 2 (lcm 2): monkey 0 holds 15 and adds 0, throwing to monkey 1; monkey 1 adds 5 and throws to 2 when even, else to 0; monkey 2 holds 0 and throws to 0. One round gives 2 reduced and 1 unreduced | reduce only when there is no relief, since floor division does not respect remainders | not executed | MonkeyMiddle.ReliefBreaksReduction | MonkeyMiddle.ReductionIsSound |
| 13/doit.cc:89-93 | operator< asserts that every comparison std::sort makes decides, so part 2 aborts when two packets are level | an input line [2], or 2, is level with the divider [[2]]; a sort has to compare some two level packets to place them | the dividers are found whatever order level packets take, since find stops at the first packet level with the divider | not executed; puzzle inputs may never hold such a packet | DistressSignal.DividerTies | DistressSignal.Part2 |
| 20/doit.cc:19-20 | a negative value whose magnitude is a multiple of the list size less one gets the count szm1, so the walk of szm1 + 1 steps ends on the moved node itself, which erase invalidates before insert uses it | the two numbers 0 and -1: szm1 is 1, -1 gets the count 1, and the walk of two steps ends on the -1 | the count 0, as for a positive multiple, since a whole lap of the other numbers leaves the circle as it was | not executed | GrovePositioning.AsWrittenFailsOnTwo | GrovePositioning.FullCircleStays |
| 15/doit.cc:118-121 | the column after a range is tried when it is at most max_coord and the column before when it is at least 0, each checked on one side only | one sensor at (-10, 0) with its beacon at (-8, 0): row 0 is covered on [-12, -8], and the column -7 after it is tried, outside the area; a later row can so replace a true answer | try a column only when it lies in [0, max_coord] | not executed | BeaconExclusion.ScanLeavesArea | BeaconExclusion.ScanRow |
| 15/doit1.cc:235-238 | the same one-sided checks in the scan of the chosen rows | the same sensor at (-10, 0) with its beacon at (-8, 0): row 0 is always chosen, and column -7 is tried | try a column only when it lies in [0, max_coord] | not executed | BeaconExclusion.ScanLeavesArea | BeaconExclusion.ScanRow |

# Verified model of the lottery statistics server

The server answers questions about a lottery's history. It keeps the draw rows in a table, builds an in-memory
archive for a date window (a tree that counts every group of up to six numbers, and the set of six-number
combinations that have won), keeps up to eight such archives in an LRU cache, generates forms that have never won,
and backtests a form against the draws of a window. A scraper adds draws and prize amounts in the background and
invalidates the cached windows it touches.

This project models that core in Dafny and proves what it promises:

- the counting tree agrees with scanning every draw for every group, and every query answered from it agrees with
  the plain enumeration of groups it stands for;
- the combination loop lists every combination once, in order, and the binomial loop divides exactly;
- the backtracking search leaves its array as it found it or in front of it an unseen, never-won form, and a whole
  batch of forms keeps its guarantee, with its one exception, and when it delivers fewer forms than asked for, stated
  exactly and on data fixed before the call;
- the cache, calls run to completion, refines a recency list; after any run of successful requests it holds the eight
  most recently requested windows, and after any run at all at most eight, in request order, each kept and answered with
  one archive while at most seven other windows are requested and no invalidation reaches it;
- in every interleaving of requests, loads, writers and invalidations, no request is handed an archive older than
  a write whose invalidation returned before the request began, and a request that is neither cancelled nor hit by a
  failed read of its window can only be answered with an archive;
- a scrape run, however it ends, has invalidated a range holding the date of every row it committed, and so every
  such row is in the archives handed out afterwards;
- the backtest's enumeration equals the hypergeometric closed form, its books balance, and its loading of two date
  windows loses draws on exactly one family of windows.

Check it with `dafny verify dfyconfig.toml`, adding `--resource-limit 2000000` for a reproducible budget.

## Layout

| file | what it holds |
|---|---|
| `Options.dfy` | a value that may be missing |
| `Combinatorics.dfy` | binomials, number lists, `Combos` (the reference enumeration), lexicographic order, embeddings |
| `CombinationLoop.dfy` | the next-combination loop and the binomial loop |
| `ComboMask.dfy` | the 64-bit identity of a combination |
| `TreeModel.dfy` | the counting tree as a value; the counting theorem |
| `TreeQueries.dfy` | collecting, ranking and analysing, against plain lookup |
| `GroupStatistics.dfy` | canonical ranking, double counting, conservation of counts |
| `LotteryTree.dfy` | the tree on the heap |
| `DateWindow.dfy` | draws, date windows, the query, the union of two windows |
| `LotteryArchive.dfy` | the archive and its queries |
| `FormGenerator.dfy` | the search over an array and the batch it fills |
| `PastWinners.dfy` | when a batch emits a form that has won: exactly, by counting, and on concrete draws |
| `BatchLength.dfy` | when a batch delivers fewer forms than asked for, exactly, by counting, and on concrete draws |
| `LotteryManager.dfy` | the LRU cache: a map and a doubly linked list |
| `RecencyRuns.dfy` | what the cache answers and how long it keeps a window, over whole runs |
| `ArchiveProtocol.dfy` | the cache under concurrency, as a step-by-step protocol |
| `ArchiveAnswers.dfy` | who is served, with what, and who is turned away, over runs of the protocol |
| `ScrapeRunner.dfy` | inserting draws, backfilling prizes, one scrape run |
| `BackfillOrder.dfy` | in which order the backfill takes the draws that lack prizes |
| `ScrapeFreshness.dfy` | a scrape run replayed inside the protocol |
| `Simulate.dfy` | the backtest |
| `BacktestRecords.dfy` | what a backtest records, in closed form |

## Modelling choices

- Dates are integer days (0001-01-01 is day 1); the zero time is `Open`. A cache key is the normalized window itself,
  which is what the date-formatted string identifies at day granularity. Draw rows carry a real date: the scraper
  drops rows whose date does not parse.
- The draw table is a map from draw number to row (`ScrapeRunner`, `ArchiveProtocol`) or the rows in date order
  (`DateWindow`, `Simulate`).
- Counts are mathematical integers; money and heat are reals. The 64-bit mask is a sequence of 64 bits.
- `sort.Ints` and `sort.SliceStable` are functions (`SortInts`, `Ranked`) whose defining properties are proved: a
  rearrangement, in order, and for `Ranked` stable.
- Objects whose methods write fields are classes, loops are loops, arrays permuted in place are arrays. Each method is
  proved equal to a function of the old state, and the theorems are about that function.
- The two copies of the combination loop (`internal/lottery-tree/lottery_archive.go:269-307` and
  `internal/services/simulate.go:324-361`) are two methods, both proved equal to `Combos` for all inputs.
- Network and database failures are nondeterministic choices; the outcome of building an archive and the prize page
  the site has for each draw are parameters.

## Where the code and what is said of it differ

- `search` is described as alternating its branching. A failed search always makes an odd number of calls, so it
  leaves the parity flipped, and both recursive calls of a node advance the same cursor (`SearchTries`).
- "Forms that have already won are rejected" (`internal/lottery-tree/form_generator.go:39`) fails: `Generate` ignores
  the result of `search`, so when a search runs dry the regrouped base form is emitted, won or not. What a search can
  reach, and in which order, is fixed by the ranking, the pinned numbers and the parity on entry; `PastWinnerExactly`
  says when a batch of n forms emits a past winner in terms of those two fixed lists, `OneFormExactly` for one form in
  terms of cursor walks, and `FewFormsHoldNoPastWinner` and `ManyFormsHoldPastWinner` by counting what the walks reach.
  Searches run dry while clean forms remain: after any two draws that share five numbers, asking for two six-number
  forms gives one new form and then one of the two past draws, although four more clean forms of the same seven numbers
  exist (`TwoDrawsReturnPastWinner`; `TwoDrawsExample` has {1..6} and {1, 2, 3, 4, 6, 7}).
- "No further non-winning combination is reachable" (`internal/lottery-tree/form_generator.go:65`) is not what ends a
  batch. It ends when one search fails with the regrouped front already emitted, and a search is confined to the walks
  its parity on entry selects (`FirstMoveDecides`). Exactly when that happens within n rounds is
  `CleanFrontShortExactly` and `DirtyFrontShortExactly`; `FullBatch` says when it does not. After any two draws that
  share five numbers a batch of three or more stops at three forms, one of them a past draw, while walks reach five
  clean fronts (`TwoDrawsDeliverThree`, `ThreeFormsExample`).
- A load that fails at capacity has already evicted the least recently used archive (`LotteryManager.MissFailed`).
- A waiter that looks at the entry after a failed load has cleared its channel skips the error check and returns
  neither an archive nor an error (`NilArchiveReachable`); it takes a read error of another request for the same window
  (`NilArchiveNeedsReadError`), and it can happen from any reachable state in which the load waited on has not read its
  rows, and from no other (`EmptyHandedExactly`).
- `InsertNewDraws` counts a new draw twice if the batch lists it twice (`InsertedCountExample`,
  `InsertedCountExact`).
- The seeder's comment says draws are taken in ascending draw-number order (`internal/seeder/prize_seeder.go:34`); the
  query takes the latest first. Of two draws with rising numbers and dates the higher number comes first
  (`LaterDrawFirst`), and the comment holds exactly when, among the draws the query reaches, a larger number never
  comes with a later date (`AscendingNumbersExactly`).
- `Simulate` tests for six numbers before it removes duplicates, so a form of repeats is accepted and plays nothing
  (`CombinationsPlayed`, `RepeatsAccepted`).
- Loading the union of two windows loses draws dated before 2004-02-12 when the archive window is open below
  (`LosslessLoading`, `LossyExample`).

## Model

| member | source | states |
|---|---|---|
| CombinationLoop.BinomialCount | internal/lottery-tree/lottery_archive.go:312-327 | the accumulator loop, whose every division is exact, returns Pascal's C(n, k), and 0 outside 0..n |
| CombinationLoop.GenerateCombinations | internal/lottery-tree/lottery_archive.go:269-307 | returns exactly the k-element subsequences by position, C(n, k) of them, and nothing for k <= 0 or k > n |
| CombinationLoop.Advance | internal/lottery-tree/lottery_archive.go:293-304 | the in-place step reaches exactly the next position list, and reports the end exactly when none is left |
| Backtests.GenerateCombinations | internal/services/simulate.go:324-361 | the second copy of the loop gives the same list as the first, for all inputs |
| CombinationLoop.BumpedIsNext | internal/lottery-tree/lottery_archive.go:293-304 | bumping the rightmost position below its ceiling and refilling to its right is the successor in the enumeration |
| CombinationLoop.EveryPositionTuple | internal/lottery-tree/lottery_archive.go:286-305 | the loop's position lists are exactly the strictly increasing k-tuples of 0..n-1 |
| CombinationLoop.PositionTuplesInOrder | internal/lottery-tree/lottery_archive.go:293-304 | they come in strict lexicographic order, hence each once |
| Combinatorics.CombosCount | internal/lottery-tree/lottery_archive.go:309-311 | there are C(n, k) combinations |
| Combinatorics.CombosCoverSets | internal/lottery-tree/lottery_archive.go:267-269 | every set of entries of a list without repeats is the content of some combination |
| ComboMasks.ComboMask | internal/lottery-tree/lottery_archive.go:257-265 | the word has bit n set exactly for the listed numbers n in 1..63 |
| ComboMasks.MaskIsSet | internal/lottery-tree/lottery_archive.go:253-256 | for numbers in 1..63 two masks are equal exactly when the combinations are the same set |
| ComboMasks.MaskWidthMatters | internal/lottery-tree/lottery_archive.go:260 | 64 and 65 are not told apart: the range in the previous row is needed |
| LotteryTree.LoNode.Build | internal/lottery-tree/node.go:47-63 | the recursive in-place insertion refines `Insert` on the tree's value, and keeps the heap a tree |
| LotteryTree.LoTree.Build | internal/lottery-tree/tree.go:30-36 | inserting draw by draw refines `InsertAll` |
| TreeModel.InsertCounts | internal/lottery-tree/node.go:52-62 | one draw adds to the count of a path exactly the number of ways the path can be read off the draw |
| TreeModel.BuiltCounts | internal/lottery-tree/node.go:47-63 | after any draws, sorted or not, a path's count is the number of its embeddings over all draws |
| Combinatorics.EmbeddingsAreOccurrences | internal/lottery-tree/node.go:52-62 | the embeddings of a path in a draw are its occurrences among the draw's combinations |
| TreeModel.BuiltNodes | internal/lottery-tree/node.go:53-57 | a node exists exactly for the strictly increasing in-range paths, no longer than the depth, that are a subsequence of some draw |
| TreeModel.BuiltCountsDraws | internal/lottery-tree/tree.go:5-9 | for increasing draws the count is the number of draws containing the group |
| Combinatorics.EmbeddingsInDraw | internal/lottery-tree/tree.go:6-7 | an increasing draw reads a group once if it holds all its numbers, else never |
| LotteryTree.LoNode.CollectNodes | internal/lottery-tree/tree.go:77-91 | appends exactly the groups below the node to the shared list, keeping what was there |
| LotteryTree.LoTree.CollectNodes | internal/lottery-tree/tree.go:53-72 | the walk from the anchor, stably sorted by count for the mode |
| TreeQueries.CollectionIsHits | internal/lottery-tree/tree.go:59-63 | walking the tree to depth k is looking up every k-group of 1..L and keeping those that were met |
| TreeQueries.AnalyzedIsHits | internal/lottery-tree/lottery_archive.go:367-392 | the form traversal finds exactly the met k-subsequences of the form, in the form's order |
| TreeQueries.AnalysisIsFilteredCollection | internal/lottery-tree/lottery_archive.go:345-351 | for an increasing form the ranked analysis is the ranked collection cut down to the groups inside the form, as a sequence with counts |
| TreeQueries.RankedPermutes | internal/lottery-tree/tree.go:65-70 | ranking rearranges the entries and loses none |
| TreeQueries.RankedInOrder | internal/lottery-tree/tree.go:65-70 | ranking orders by count, by the mode |
| TreeQueries.RankedStable | internal/lottery-tree/tree.go:47-48 | among entries of equal count ranking changes nothing |
| LotteryTree.LoNode.AnalyzeBuild | internal/lottery-tree/lottery_archive.go:367-392 | one pass appends to every group array exactly that size's analysis and touches no other |
| LotteryTree.LoTree.AnalyzeArray | internal/lottery-tree/lottery_archive.go:339-357 | six groups, each the ranked analysis of its size |
| GroupStatistics.RankingIsCanonical | internal/lottery-tree/tree.go:44-48 | the ranking lists every met k-group exactly once with its count, by count, ties in lexicographic order |
| GroupStatistics.OmittedGroupsRankLower | internal/lottery-tree/lottery_archive.go:173-177 | every group of a prefix of the ranking comes before every met group left out |
| GroupStatistics.AnalysisSum | internal/lottery-tree/lottery_archive.go:209-211 | double counting: the analysis counts of size k add up to the sum over draws of C(shared numbers, k) |
| GroupStatistics.AnalysisReadings | internal/lottery-tree/lottery_archive.go:367-392 | for any form and draws, sorted or not, the analysis counts of size k add up to the readings of the form's k-selections off the draws |
| GroupStatistics.CollectionSum | internal/lottery-tree/tree.go:58-63 | conservation: the counts of all k-groups add up to the sum over draws of C(size, k) |
| LotteryArchives.LotteryArchive.constructor | internal/lottery-tree/lottery_archive.go:51-79 | the trees, the number rows and the winning set are those of the draws, short draws defining no winner |
| LotteryArchives.SortIntsIsSort | internal/lottery-tree/lottery_archive.go:70 | for any list, repeats included, the same numbers, each as often, in nondecreasing order |
| LotteryArchives.SortIntsSorts | internal/lottery-tree/form_generator.go:157 | without repeats, strictly increasing over the same set of numbers |
| LotteryArchives.LotteryArchive.RankNumbers | internal/lottery-tree/lottery_archive.go:114-131 | the ranking of single numbers, or 1..max when there are no draws |
| LotteryArchives.NumberRankingExact | internal/lottery-tree/lottery_archive.go:104-113 | with draws, the ranking lists exactly the in-range numbers that were drawn |
| LotteryArchives.NumberRankingDistinct | internal/lottery-tree/lottery_archive.go:114-131 | without repeats, and all in range |
| LotteryArchives.NumberRankingOrder | internal/lottery-tree/lottery_archive.go:104-105 | most (or least) often drawn first, the smaller number first among equals, for any draws |
| LotteryArchives.NoDrawsRanking | internal/lottery-tree/lottery_archive.go:117-123 | with no draws every number of the game is ranked, in ascending order |
| LotteryArchives.LotteryArchive.TopStrong | internal/lottery-tree/lottery_archive.go:137-164 | the lowest strong number 1..7 of greatest (least) count among those drawn, 0 exactly when there is none |
| LotteryArchives.StrongLookup | internal/lottery-tree/lottery_archive.go:76 | the strong tree's counts are the numbers of draws with that strong number |
| LotteryArchives.LotteryArchive.TopGroups | internal/lottery-tree/lottery_archive.go:169-178 | a prefix of the ranking, empty for sizes outside 1..6 |
| LotteryArchives.LotteryArchive.ScoreForm | internal/lottery-tree/lottery_archive.go:204-228 | for any form and draws, observed pair hits are the readings of the form's increasing in-range pairs off the draws; for increasing ones, the sum over draws of C(shared numbers, 2); the expectation never divides by zero |
| LotteryArchives.LotteryArchive.ExpectedExactly | internal/lottery-tree/lottery_archive.go:214-218 | the expectation times C(max, 2) is draws * C(n, 2) * 15, and positive exactly when there are draws and pairs |
| LotteryArchives.LotteryArchive.HeatExactly | internal/lottery-tree/lottery_archive.go:219-222 | heat is 100 exactly when the observed hits equal a positive expectation, more exactly when they exceed it, 0 without one |
| LotteryArchives.LotteryArchive.HasWon | internal/lottery-tree/lottery_archive.go:232-237 | whether the mask is one of the winning masks, empty set included |
| LotteryArchives.HasWonMeans | internal/lottery-tree/lottery_archive.go:230-231 | a combination has won exactly when its set of numbers is the first six of some complete draw |
| FormGenerators.FormGenerator.Search | internal/lottery-tree/form_generator.go:96-115 | the recursion terminates and ends as the reference search does, in array, parity and answer |
| FormGenerators.SearchContract | internal/lottery-tree/form_generator.go:93-95 | on success a permutation keeping the pinned front, whose leading numbers are unseen and contain no past winner; on failure the array exactly as before; success exactly when some sequence of cursor moves reaches such a form |
| FormGenerators.FirstIffWalk | internal/lottery-tree/form_generator.go:96-115 | the search misses no form that a walk of the two cursors can reach |
| FormGenerators.FormGenerator.NotInResults | internal/lottery-tree/form_generator.go:120-122 | whether the leading mask is unseen in the batch |
| FormGenerators.FormGenerator.AllFormsCheck | internal/lottery-tree/form_generator.go:127-134 | whether no six-number combination of the leading numbers has won |
| FormGenerators.CleanMeans | internal/lottery-tree/form_generator.go:124-126 | that is: no complete draw lies inside the form |
| FormGenerators.FormGenerator.Regroup | internal/lottery-tree/form_generator.go:74-91 | the in-place swaps and the skip count are those of the reference regrouping |
| FormGenerators.RegroupedPermutes | internal/lottery-tree/form_generator.go:84 | regrouping permutes the ranking |
| FormGenerators.RegroupedPins | internal/lottery-tree/form_generator.go:72-73 | the pinned front holds exactly the requested numbers that are in the ranking |
| FormGenerators.PinCount | internal/lottery-tree/form_generator.go:90 | the skip is the number of distinct requested numbers in the ranking |
| FormGenerators.RegroupedInOrder | internal/lottery-tree/form_generator.go:79-90 | the front lists the requested numbers that are ranked, in the order of the request, each once |
| FormGenerators.RegroupedKeepsRanks | internal/lottery-tree/form_generator.go:79-90 | behind the front every number that is not requested keeps its rank |
| FormGenerators.RegroupedOneMore | internal/lottery-tree/form_generator.go:84 | one request more exchanges exactly two numbers, or none if it is not ranked behind the front |
| FormGenerators.FirstFormIsTop | internal/lottery-tree/form_generator.go:54-67 | a clean regrouped front is the first form |
| FormGenerators.FormGenerator.AddResult | internal/lottery-tree/form_generator.go:149-170 | records the sorted form with its strong number exactly when its mask is unseen |
| FormGenerators.FormGenerator.Generate | internal/lottery-tree/form_generator.go:40-70 | the forms are those of the reference batch from the regrouped ranking, none when the ranking is too short; over the archive's draws they are at most howMany well-made, pairwise different forms, none holding a complete past draw except possibly the regrouped front |
| FormGenerators.GenerateGuarantee | internal/lottery-tree/form_generator.go:37-39 | at most howMany forms, each ascending, of formType ranked numbers plus the strong one, holding every requested ranked number, pairwise different sets, none a past winner except possibly the base form |
| FormGenerators.BatchDelivers | internal/lottery-tree/form_generator.go:37-39 | the same in terms of the draws instead of winning masks |
| FormGenerators.BatchMasksDiffer | internal/lottery-tree/form_generator.go:160-163 | no two forms of a batch share a mask |
| FormGenerators.DirtyExactly | internal/lottery-tree/form_generator.go:61-67 | a past winner is emitted exactly when the base form has won, is unseen, and the search of some round fails |
| PastWinners.SearchIsScan | internal/lottery-tree/form_generator.go:96-115 | the search is a scan of a list of candidates that depends on neither the forms emitted nor the winners |
| PastWinners.ReachIsWalks | internal/lottery-tree/form_generator.go:96-115 | what that list holds: the clean fronts that walks of the two cursors end on, the first move fixed by the parity |
| PastWinners.PastWinnerExactly | internal/lottery-tree/form_generator.go:58-68 | for any number of forms: a past winner is emitted exactly when the regrouped front has won and the two lists of clean candidates, fixed before the call, run out |
| PastWinners.OneFormExactly | internal/lottery-tree/form_generator.go:63-64 | for one form: exactly when no walk of the cursors, the empty one included, ends on a clean front |
| PastWinners.FewFormsHoldNoPastWinner | internal/lottery-tree/form_generator.go:39 | no past winner while no more forms are asked for than each parity's walks reach |
| PastWinners.ManyFormsHoldPastWinner | internal/lottery-tree/form_generator.go:58-68 | a past winner, if the regrouped front is one, once more are asked for than both parities' walks reach together |
| PastWinners.NarrowBatch | internal/lottery-tree/form_generator.go:63-64 | one number more than the form holds: two forms are the front with its first number exchanged, then the past winner |
| PastWinners.TwoDrawsReturnPastWinner | internal/lottery-tree/form_generator.go:63-64 | after any two draws sharing five numbers the second form is one of the two draws, while four clean unseen forms remain |
| PastWinners.TwoDrawsExample | internal/lottery-tree/form_generator.go:63-64 | after {1..6} and {1, 2, 3, 4, 6, 7} the two forms are {2..7} and {1..6} |
| PastWinners.SingleDrawReturnsPastWinner | internal/lottery-tree/form_generator.go:63-64 | for every archive of one six-number draw the batch is that past winner |
| BatchLengths.CleanFrontShortExactly | internal/lottery-tree/form_generator.go:58-68 | fewer forms than asked for, the regrouped front not having won, exactly when the two lists of clean candidates run out |
| BatchLengths.DirtyFrontShortExactly | internal/lottery-tree/form_generator.go:58-68 | the same when it has won: the lists run out, and run out again after the past winner is emitted and the other parity takes over |
| BatchLengths.FullBatch | internal/lottery-tree/form_generator.go:37 | every form asked for is delivered while each parity's walks reach as many clean sets as are emitted or still wanted |
| BatchLengths.FirstMoveDecides | internal/lottery-tree/form_generator.go:106-111 | a walk whose first move advances the second cursor always leaves out the first unpinned number, one whose first move advances the first always brings in the number after the front |
| BatchLengths.NoWalkIsCleanExactly | internal/lottery-tree/form_generator.go:96-115 | with one number more than the form holds, the fronts a search can end on leave out the last number, the first unpinned one, or, by parity, any other unpinned one; it fails exactly when all of these have won |
| BatchLengths.NarrowBatchStops | internal/lottery-tree/form_generator.go:63-67 | one number more than the form holds: three forms, the second a past winner, however many are asked for |
| BatchLengths.TwoDrawsDeliverThree | internal/lottery-tree/form_generator.go:65 | after any two draws sharing five numbers a batch of three or more holds three forms, one of them a past draw, though each of the five fronts without a shared number is clean and ends a walk |
| BatchLengths.ThreeFormsExample | internal/lottery-tree/form_generator.go:65 | after {1..6} and {1, 2, 3, 4, 6, 7} these are {2..7}, {1..6} and {1, 3, 4, 5, 6, 7} |
| DateWindow.OverlapIsSharedDay | internal/services/lottery_manager.go:203-216 | nonempty ranges overlap exactly when they share a day |
| DateWindow.FilterDrawsByWindow | internal/services/simulate.go:423-438 | keeps exactly the draws dated inside the window, in order |
| DateWindow.UnionIsLeast | internal/services/simulate.go:391-418 | the union takes the earliest lower and the latest upper bound, open bounds winning: the least window spanning both |
| DateWindow.LosslessLoading | internal/services/simulate.go:71-83 | loading the union and filtering by the simulate window is loading the simulate window, for every table, exactly on the stated windows |
| DateWindow.LossyExample | internal/services/lottery_manager.go:179-186 | a draw lost because the union's open bound is normalized to 2004-02-12 |
| LotteryManagers.LotteryManager.AddToFront | internal/services/lottery_manager.go:219-229 | the linked list gains the entry at its head, links consistent both ways |
| LotteryManagers.LotteryManager.Remove | internal/services/lottery_manager.go:232-245 | the linked list loses exactly that entry, wherever it is |
| LotteryManagers.LotteryManager.MoveToFront | internal/services/lottery_manager.go:248-254 | the entry comes first, the others keep their order |
| LotteryManagers.LotteryManager.Archive | internal/services/lottery_manager.go:74-126 | the recency list, map, links and answer are those of the reference `AfterRequest` and `Answer`, on hit, successful and failed miss, with and without eviction |
| LotteryManagers.LotteryManager.MissReady | internal/services/lottery_manager.go:98-125 | a successful miss enters the window first and at capacity drops exactly the least recently used one |
| LotteryManagers.LotteryManager.MissFailed | internal/services/lottery_manager.go:119-123 | a failed miss leaves no entry, but the eviction stands |
| LotteryManagers.LotteryManager.InvalidateRange | internal/services/lottery_manager.go:147-156 | the recency list filtered by non-overlap, whatever order the map is visited in |
| LotteryManagers.LotteryManager.InvalidateAll | internal/services/lottery_manager.go:160-166 | nothing stays resident |
| LotteryManagers.RunKeepsMostRecent | internal/services/lottery_manager.go:19-25 | after any run of successful requests the resident windows are the eight most recently requested distinct ones, most recent first |
| LotteryManagers.RunKeepsRequestOrder | internal/services/lottery_manager.go:25-34 | after any run, failed builds and invalidations included, the resident windows are at most eight, distinct, and in the order of their latest requests |
| RecencyRuns.AnsweredWithLatestBuild | internal/services/lottery_manager.go:79-95 | after any run a request for a resident window is answered with the archive that the latest request which found it absent built, whatever building now would come to |
| RecencyRuns.AbsentAnsweredWithLoad | internal/services/lottery_manager.go:107-125 | a request for an absent window is answered with what building it comes to |
| RecencyRuns.MissThenHit | internal/services/lottery_manager.go:79-95 | what a successful miss built answers the next request for the window |
| RecencyRuns.HitLoadIrrelevant | internal/services/lottery_manager.go:79-95 | what building would have come to on a hit changes nothing afterwards |
| RecencyRuns.KeptWhileRecent | internal/services/lottery_manager.go:19-25 | once requested and resident, a window stays resident with the same archive through any run in which no invalidation reaches it and at most seven other windows are requested, whatever fails |
| RecencyRuns.InvalidationExactly | internal/services/lottery_manager.go:147-156 | an invalidation takes out exactly the windows it reaches; the others keep what they hold |
| RecencyRuns.FailedMissEvictsLast | internal/services/lottery_manager.go:101-123 | a build that fails at capacity has evicted the least recently used window, and no other |
| ArchiveProtocol.StepKeeps | internal/services/lottery_manager.go:74-166 | every atomic step, of any party, keeps the protocol's invariant |
| ArchiveProtocol.FreshArchives | internal/services/lottery_manager.go:143-156 | a request begun after the invalidation of a range covering a write is only handed archives read after that write, exact for their version |
| ArchiveProtocol.FreshArchiveListsRow | internal/services/lottery_manager.go:33-34 | and such an archive holds the written row, unless a later write replaced it |
| ArchiveProtocol.FreshAfterInvalidateAll | internal/services/lottery_manager.go:158-166 | after a full invalidation no later request is handed anything older |
| ArchiveProtocol.RunAccounted | internal/services/lottery_manager.go:98-124 | per key, loads started are removals plus one if resident, in every reachable state |
| ArchiveProtocol.SingleFlight | internal/services/lottery_manager.go:29-31 | two loads of a key never start without a removal of that key in between |
| ArchiveProtocol.RunSoleBuilder | internal/services/lottery_manager.go:111-112 | no entry is built by two requests |
| ArchiveProtocol.NilArchiveReachable | internal/services/lottery_manager.go:82-95 | a run in which a waiter is handed neither an archive nor an error |
| ArchiveProtocol.NilArchiveNeedsReadError | internal/services/lottery_manager.go:82-95 | in any run, a request answered with neither was preceded by a read error of another request for the same window |
| ArchiveProtocol.EmptyHandedExactly | internal/services/lottery_manager.go:82-123 | from any reachable state, a waiting request can still be answered with neither in some continuation exactly when the load it waits on has not read its rows |
| ArchiveAnswers.ErrorNeedsCause | internal/services/lottery_manager.go:83-91 | in any run, a request answered with an error was cancelled, or a read for its window failed before |
| ArchiveAnswers.UndisturbedIsServed | internal/services/lottery_manager.go:74-126 | with neither, a request that is answered is answered with an archive |
| ArchiveAnswers.ServedWhatWasRead | internal/services/lottery_manager.go:92-95 | a request waiting on a load whose rows were read can only be handed that version and those rows, unless it is cancelled |
| ArchiveAnswers.ReadLoadServes | internal/services/lottery_manager.go:92-95 | and some continuation hands them over |
| ArchiveAnswers.ServableExactly | internal/services/lottery_manager.go:74-126 | from any reachable state an unanswered request can still be handed an archive exactly unless it holds an entry whose load failed |
| ArchiveAnswers.HitIsServed | internal/services/lottery_manager.go:79-95 | a request that finds its window resident and published is handed that archive without a load |
| ArchiveAnswers.ArchiveComesFromRead | internal/services/lottery_manager.go:108-113 | every archive handed out is what one read of the table, by a request for the same window, found there |
| ArchiveAnswers.ArchiveExactly | internal/services/lottery_manager.go:33-34 | it lists exactly the last writes, before it was read, of the draws dated inside its window |
| ArchiveAnswers.LeavesExactly | internal/services/lottery_manager.go:98-166 | a resident window leaves the cache by an invalidation that reaches it, its eviction or a failed load of it, and by nothing else |
| ArchiveAnswers.ReloadNeedsCause | internal/services/lottery_manager.go:29-31 | a window is loaded twice only if one of these came in between |
| ScrapeRunners.DateSpanIsLeast | internal/repository/lottery_result_repository.go:351-356 | the min/max fold is the least window holding every date, with both ends attained |
| ScrapeRunners.LotteryResultRepository.InsertNewDraws | internal/repository/lottery_result_repository.go:303-367 | all or nothing: every new number gets the row first fetched under it, none is overwritten, with count and span; on failure no change |
| ScrapeRunners.WithRowsAdds | internal/repository/lottery_result_repository.go:297-299 | existing rows are untouched, every new number is present, and the table grows by what was written |
| ScrapeRunners.InsertedRows | internal/repository/lottery_result_repository.go:329-346 | every number keeps its row, and a new one holds the row first fetched under it, as fetched |
| ScrapeRunners.WrittenExactly | internal/repository/lottery_result_repository.go:333-350 | the rows reported as committed are exactly the new entries of the table, each once |
| ScrapeRunners.InsertedCountExact | internal/repository/lottery_result_repository.go:350 | the reported count is the number of rows added exactly when no new draw number repeats in the batch |
| ScrapeRunners.InsertedCountExample | internal/repository/lottery_result_repository.go:333-350 | a new draw listed twice is counted twice and added once |
| ScrapeRunners.LotteryResultRepository.GetDrawsWithoutPrizeRefs | internal/repository/lottery_result_repository.go:444-468 | up to the limit, the latest draws lacking prizes, each once, latest first |
| ScrapeRunners.OnlyEligibleRows | internal/repository/lottery_result_repository.go:396-468 | the backfill changes only rows without prizes, with a strong number from 1 to 7, from draw 2982 and 2018-01-30 on, and of those only the prizes |
| BackfillOrder.AscendingNumbersExactly | internal/seeder/prize_seeder.go:33-35 | at distinct dates the draws are taken in ascending number order exactly when no larger number among those reached has a later date |
| BackfillOrder.LaterDrawFirst | internal/seeder/prize_seeder.go:33-35 | of two draws with rising numbers and dates the higher number is taken first, whatever the batch size |
| BackfillOrder.ListedIsReached | internal/repository/lottery_result_repository.go:445-448 | at distinct dates the query lists exactly the draws with fewer later ones than its size |
| ScrapeRunners.LotteryResultRepository.UpdatePrizeAmounts | internal/repository/lottery_result_repository.go:396-411 | one row gets its prizes and its date comes back, or nothing changes |
| ScrapeRunners.PrizeSeeder.SeedMissingPrizes | internal/seeder/prize_seeder.go:41-93 | count and span describe exactly the rows written, at most one batch; each written draw leaves the backlog with the amounts of its own page |
| ScrapeRunners.ScraperRunner.RunOnce | internal/services/scrape_runner.go:61-113 | however it ends, with an invalidator every committed row is dated inside a range invalidated afterwards; prizes written is the number of rows given prizes, the backlog shrinks by it, it is below 2050, and at most 2001 ranges are invalidated; with a seeder and nothing failing the backlog ends empty or the cap of 2000 is reached |
| ScrapeRunners.ScraperRunner.Drain | internal/services/scrape_runner.go:92-110 | the drain loop ends within 2000 writing rounds, and if nothing fails only with the backlog empty or the cap reached |
| ScrapeFreshness.CommittedRowSeen | internal/services/scrape_runner.go:85-106 | replayed among any other steps, every row a covered run committed was written before the reading of any archive handed to a later request whose window contains it |
| Backtests.MatchToTier | internal/services/simulate.go:295-320 | two tiers per number of matches from 6 down to 3, the one with the strong number first; no prize below 3 |
| Backtests.MatchesAreHypergeometric | internal/services/simulate.go:244-255 | for every list and draw, the k-combinations with j matches are C(m, j) * C(N - m, k - j) |
| Backtests.TierOfMatches | internal/services/simulate.go:251-254 | a tier collects exactly the combinations with its number of matches, and none under the other strong flag |
| Backtests.TierClosedForm | internal/services/simulate.go:235-255 | for a form without repeats the hits of the tier of j matches are C(m, j) * C(N - m, 6 - j), m the size of form and draw's intersection |
| Backtests.TiersCoverWins | internal/services/simulate.go:284-294 | the eight tiers together hold exactly the combinations with three matches or more |
| Backtests.SimulateDraw | internal/services/simulate.go:235-282 | lists the tiers that were hit with their amounts, and their sum; only odd tiers when the strong numbers agree, only even ones when not |
| BacktestRecords.DrawRecordExactly | internal/services/simulate.go:240-271 | for a form without repeats j matches are recorded under tier 13 - 2j when the strong numbers agree, else under 14 - 2j, with count C(m, j) * C(N - m, 6 - j), and not at all when that is 0 |
| BacktestRecords.TierTotalExactly | internal/services/simulate.go:179-183 | the total of each tier, from the intersection sizes and the strong numbers of the draws alone |
| BacktestRecords.TierMoneyExactly | internal/services/simulate.go:155-184 | the money of each tier is its hits times the prize in force, summed over the draws |
| BacktestRecords.ListedExactly | internal/services/simulate.go:188-197 | the draws listed are exactly those that paid more than nothing, in order, each with its own record |
| BacktestRecords.RealPrizesCount | internal/services/simulate.go:157-172 | the number of draws that carry eight prizes of their own |
| Backtests.HitListSorted | internal/services/simulate.go:257-271 | the list is in tier order and holds only tiers that were hit |
| Backtests.HitListComplete | internal/services/simulate.go:260-267 | every tier that was hit is listed with its count, price and total |
| Backtests.DedupAndSort | internal/services/simulate.go:364-375 | the same numbers, strictly increasing |
| Backtests.PlayedFormAscends | internal/services/simulate.go:101-110 | the form played is strictly increasing and has at most twelve numbers |
| BacktestRecords.PositivesExactly | internal/services/simulate.go:91-96 | cleaning keeps the positive numbers, each as often |
| BacktestRecords.PlayedFormExactly | internal/services/simulate.go:101-110 | of the distinct positive numbers the smallest twelve are played |
| Backtests.CombinationsPlayed | internal/services/simulate.go:96-115 | the form played has the distinct positive numbers up to twelve, C(N, 6) combinations, and none exactly when fewer than six are distinct |
| Backtests.RepeatsAccepted | internal/services/simulate.go:96-102 | one number repeated passes the length test and plays nothing |
| Backtests.Simulate | internal/services/simulate.go:66-232 | fails exactly when the load does, else rejects exactly the forms with fewer than six positive entries; otherwise the winning records and the whole summary are those of the draws in play, and the books balance |
| Backtests.AddHits | internal/services/simulate.go:179-185 | the running totals grow by exactly the draw's hits and amounts, tier by tier |
| Backtests.WonIsTierSum | internal/services/simulate.go:178-184 | money won is the sum of the eight tier totals |
| Backtests.WonIsWinningSum | internal/services/simulate.go:188-197 | with no negative prize, the trimmed list of winning draws still adds up to the money won |
| Backtests.HitsAreWinPairs | internal/services/simulate.go:179-183 | total hits are the (draw, combination) pairs with at least three matches |
| Backtests.WinPairsClosedForm | internal/lottery-tree/lottery_archive.go:309-311 | that number from the intersection sizes alone, without enumerating |
| Backtests.SummaryBalances | internal/services/simulate.go:210-218 | the books balance: money won is the sum over tiers and over the winning draws listed, hits follow from the numbers shared, money spent is draws * C(N, 6) * price |
| Backtests.MoneySpent | internal/services/simulate.go:119-124 | money spent is draws * C(N, 6) * ticket price |
| Backtests.DrawsInPlayAreWindow | internal/services/simulate.go:77-83 | on the lossless windows the draws in play are those of the simulate window |
| BacktestRecords.ArchiveWindowInPlay | internal/services/simulate.go:71-79 | without a simulate window the draws in play are the rows of the archive window, since 2004-02-12 if it is open below or unset |

## Left out

- The recency list and the bound of eight under concurrency: the code does not keep them (a waiter can relink a removed entry, an in-flight tail blocks eviction). They are proved for calls run to completion.
- A tree of size 3, whose children have other bounds and which no caller builds: the branch is modelled, the counting theorems exclude it.
- FormGenerators.FormGenerator.Generate: requires that no more ranked numbers are requested than the form holds; with more, the search starts past the end of the form and can leave the array's bounds, which the model does not follow.
- FormGenerators.BatchDelivers: numbers of 64 and above do not fit the mask, so the guarantees leave out the 1-70 game.
- BackfillOrder.AscendingNumbersExactly: draws on the same day come in an order the query leaves open, so the condition is stated for distinct dates.
- Floating-point rounding of money and heat, and narrowing to 32-bit integers in responses.
- Draws with a zero date, the order of rows with equal dates, row identifiers and timestamps, and the lottery type column.
- A commit or update that reports failure after taking effect; failures are modelled as changing nothing.
- ArchiveProtocol.FreshArchives: archives are the rows of their window, without order; the trees built from them are the subject of the other files.
- LotteryArchive.AnalyzeForm's group totals, which are `BinomialCount` of the game's size, and empty-archive responses.
- ScrapeRunners.ScraperRunner.RunOnce: the mutex that keeps two runs apart, phase callbacks and logging.
- Context deadlines other than a waiter giving up; the nil repository used in tests.
- The scraper's HTTP, HTML and CSV parsing, the queue consumer, the HTTP and gRPC servers, authentication, configuration, startup.

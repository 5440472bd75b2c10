# TSP genetic solver — Dafny model

A model of the core of a web service that solves the travelling salesman problem (TSP)
with a genetic algorithm. The service takes a plain-text list of points, with one `X Y`
pair per line. It checks the list and converts it to a `Map`. It then evolves a
population of candidate tours (`MapPath`s) and returns the cheapest one as text. Long
runs can be cancelled through a keyed registry of cancellation tokens.

Every C# class becomes immutable Dafny data. Every method becomes a pure function that
returns a `Result`, and every exception becomes an `Err` value.

- **Randomness.** `System.Random` is a `Rand.Random` value: an arbitrary stream of
  naturals and a position in it. `Next(lo, hi)` yields `lo` when `lo == hi`, and
  otherwise `lo + stream(pos)` when `stream(pos) < hi - lo` and `lo` when it is not. Every
  outcome of the real generator is therefore reachable. Lemmas that hold "for all random
  choices" quantify over the stream.
- **Floating-point library calls.** `Math.Sqrt`, `double.ToString` and `double.TryParse`
  are parameters `sqrt`, `show` and `parse`. Coordinates and costs are `real`.
- **Cancellation polling.** The `CancellationToken` polled after each epoch is a
  parameter `cancelled: nat -> bool`. It says, for each epoch index, whether a
  cancellation has been requested by the time of that poll.
- **Shared objects.** The engine's `List<MapPath>` holds references, and `Mutate`
  rewrites a member in place before re-adding the same reference. The model therefore
  keeps the population as a heap of tour objects plus a list of references into it
  (`Populations.Population`).
- **Module layout.** The modules follow the source:
  - `Points`, `Maps`, `MapPaths` (domain types);
  - `GeneticParameters`;
  - `Tours` (`GetCost`);
  - `OrderedCrossover`, `Mutation`, `Selection` and `Engine` (the genetic algorithm);
  - `Text`, `FormatChecker` and `Converter` (input);
  - `SolverService` (output);
  - `TokenManager`.

  `Results`, `Rand` and `Seqs` are shared helpers.

Main results:

- `Engine.GetPath` runs the corrected initialisation, with one list per member (see
  Findings). `Engine.GetPathSound` holds for a map of at least two distinct points,
  settings with no nulls, at least one tour and one tournament round, and no
  cancellation. Under those conditions, `GetPath` returns a tour that visits every point
  exactly once, and whose cached cost is its true closed-tour cost. With the shared list
  as written the cached cost can be stale (`Engine.SharedListStaleCost`).
- `Engine.GetPathCheapest`: after at least one epoch, the answer costs no more than any
  tour that the last natural selection ranked.
- `Engine.GetPathCancelled`: a cancellation seen at any poll ends the run with
  `OperationCanceledException`. `Engine.RunEpochsOnlyCancels` adds that from a sound
  population this is the only way the run can fail.
- `OrderedCrossover.CrossoverPermutation`: the ordered crossover of two orderings of the
  same distinct points is again an ordering of them. `CrossoverKeepsBlock` and
  `OffspringPermutation` add that it keeps parent 1's block in place and fills the other
  slots with parent 2's remaining points, in parent 2's order.
- `Converter.CheckedContentConverts` and `SolverService.OutputReadsBack`: text the
  checker accepts converts without failing. The service's own output converts back to the
  tour it printed, whenever every printed coordinate parses back to itself.
- `TokenManager.Create`, `Signal` and `Remove` have complete contracts, including each
  refusal. `RecreateIsFresh` walks through one request's life cycle.

## Model

| member | source | states |
|---|---|---|
| Points.Equals | TSP/Domain/Point.cs:31-37 | `Equals` is true exactly when the argument is a non-null `Point` with the same X and the same Y |
| Points.ToString | TSP/Domain/Point.cs:50-53 | the text starts with `Point(`, ends with `)`, and holds the two numbers' texts plus nine characters |
| Points.ToStringRoundTrip | TSP/Domain/Point.cs:50-53 | when X's text has no comma, the text `Point(X, Y)` reads back as the texts of X and Y |
| Points.CostTo | TSP/Domain/Point.cs:59-62 | for a true square root, the cost is non-negative and its square is the squared Euclidean distance |
| Points.CostToSymmetric | TSP/Domain/Point.cs:59-62 | `a.CostTo(b) == b.CostTo(a)` for any square-root function |
| Points.CostToSelf | TSP/Domain/Point.cs:61 | a point's cost to itself is 0 |
| Maps.Empty | TSP/Domain/Map.cs:15-17 | `new Map()` holds no points |
| Maps.Add | TSP/Domain/Map.cs:30-33 | `Add` puts the point last, grows the list by one and keeps every earlier point in place |
| Maps.AddAllAppends | TSP/Domain/Map.cs:30-33 | adding points one by one appends them in order |
| Maps.AddAllFromEmpty | TSP/Domain/Map.cs:15-17 | adding points one by one to `new Map()` gives exactly the map of that list |
| MapPaths.Empty | TSP/Domain/MapPath.cs:27-30 | `new MapPath()` has no points, null `Source` and `Destination` and cost 0 |
| MapPaths.FromPoints | TSP/Domain/MapPath.cs:35-43 | the list is kept, `Source` and `Destination` are its first and last point (both null for an empty list) |
| MapPaths.Add | TSP/Domain/MapPath.cs:50-58 | the point becomes the last one and the `Destination`; `Source` changes only when the path was empty |
| MapPaths.AddKeepsEndpoints | TSP/Domain/MapPath.cs:50-58 | `Add` keeps `Source` and `Destination` naming the first and the last point |
| MapPaths.FisherYates | TSP/Domain/MapPath.cs:67-75 | the swap loop from `n` down permutes the points and leaves every index at or past `n` untouched |
| MapPaths.Shuffle | TSP/Domain/MapPath.cs:63-81 | the result is a permutation of the points; 0 or 1 points stay as they are; afterwards `Source` and `Destination` are the new first and last point |
| MapPaths.RemoveFirst | TSP/Domain/MapPath.cs:98-99 | `List.Remove` takes away one occurrence when there is one and changes nothing otherwise |
| MapPaths.Generate | TSP/Domain/MapPath.cs:88-104 | a missing source or destination throws with the source's messages; otherwise the source comes first, the destination last and the other points in between, while the `Source`, `Destination` and cost fields are left as they were |
| MapPaths.GenerateLeavesStaleEndpoints | TSP/Domain/MapPath.cs:98-103 | on a two-point path, pinning the points in the other order leaves `Source` and `Destination` naming the wrong points |
| GeneticParameters.HasNulls | TSP/Solver/TspGeneticEvolutionParameters.cs:36-39 | `HasNulls` is false exactly when all five fields have values |
| GeneticParameters.HasNullsAnyField | TSP/Solver/TspGeneticEvolutionParameters.cs:36-39 | any single null field makes `HasNulls` true |
| GeneticParameters.Wrap32 | TSP/Solver/TspGeneticEvolution.cs:118 | 32-bit `int` arithmetic: the value is kept when it fits and otherwise wrapped modulo 2^32 |
| GeneticParameters.Trunc | TSP/Solver/TspGeneticEvolution.cs:118 | the `(int)` cast of a double truncates toward zero |
| GeneticParameters.CrossoverCount | TSP/Solver/TspGeneticEvolutionParameters.cs:21-25 | `CrossoverScale` 0 means no offspring |
| GeneticParameters.CrossoverScaleOne | TSP/Solver/TspGeneticEvolutionParameters.cs:21-25 | `CrossoverScale` 1 means C(P, 2) offspring, for every P up to 46341 |
| GeneticParameters.CrossoverCountOverflows | TSP/Solver/TspGeneticEvolution.cs:118 | at P = 46342 the 32-bit product overflows and the count turns negative |
| GeneticParameters.MutationCount | TSP/Solver/TspGeneticEvolutionParameters.cs:27-31 | `MutationScale` 0 means no mutations and 1 means P mutations |
| Rand.Next | TSP/Domain/MapPath.cs:71 | `Random.Next(lo, hi)` lies in `[lo, hi)`, gives `lo` when `lo == hi` and throws `ArgumentOutOfRangeException` when `lo > hi` |
| Tours.CostLoop | TSP/Solver/TspGeneticEvolution.cs:237-246 | for a true square root the running sum never decreases; with nothing left to visit, or only the first point, it is the sum so far |
| Tours.CostLoopIsPathLength | TSP/Solver/TspGeneticEvolution.cs:237-246 | the `foreach` sums `CostTo` over consecutive points |
| Tours.GetCost | TSP/Solver/TspGeneticEvolution.cs:235-249 | an empty path throws on `Points[0]`; otherwise the cost is the sum over consecutive points plus the closing edge |
| Tours.TourCostSinglePoint | TSP/Solver/TspGeneticEvolution.cs:235-249 | a one-point tour costs 0 |
| Tours.TourCostNonNegative | TSP/Solver/TspGeneticEvolution.cs:235-249 | a tour's cost is never negative |
| Tours.TourCostRotation | TSP/Solver/TspGeneticEvolution.cs:235-249 | the cost is the cost of the closed tour: starting it at its second point does not change it |
| OrderedCrossover.Window | TSP/Solver/TspGeneticEvolution.cs:68-69 | `start` lies in `[0, n-2]` and `end` in `[start+1, n-1]`; for n = 1, `end` is 1, past the last index; for n = 0 the first draw throws |
| OrderedCrossover.CopyLoop | TSP/Solver/TspGeneticEvolution.cs:72-78 | the copy loop keeps the list length, and completes only when `end` is a valid index (or the range is empty); `points[i]` past the end throws |
| OrderedCrossover.CopyLoopBlock | TSP/Solver/TspGeneticEvolution.cs:72-78 | the copy loop places parent 1's points `start..end` at their own indices and leaves every other slot null |
| OrderedCrossover.FirstHoleFrom | TSP/Solver/TspGeneticEvolution.cs:85-88 | the `while` loop stops at the first null slot from `k` on, or at the end |
| OrderedCrossover.Fill | TSP/Solver/TspGeneticEvolution.cs:80-95 | the fill loop keeps the list length, never changes a slot before `k` or a slot that holds a point, writes only points of parent 2 that were not inherited, and fails only with `ArgumentOutOfRangeException` |
| OrderedCrossover.FillIsOverlay | TSP/Solver/TspGeneticEvolution.cs:80-95 | the fill loop writes parent 2's points that were not copied, in parent 2's order, into the null slots from left to right; with more such points than null slots it throws |
| OrderedCrossover.FillKeepsTaken | TSP/Solver/TspGeneticEvolution.cs:82-95 | the fill loop never overwrites a slot that holds a point |
| OrderedCrossover.OverlayBlock | TSP/Solver/TspGeneticEvolution.cs:60-95 | filling the holes around a copied block gives the fill's first part, the block, then the rest of the fill |
| OrderedCrossover.NullableCost | TSP/Solver/TspGeneticEvolution.cs:97-99 | the cost of the built list throws `ArgumentOutOfRangeException` on an empty list and otherwise fails only with a null dereference |
| OrderedCrossover.NullableCostMeaning | TSP/Solver/TspGeneticEvolution.cs:97-99 | the cost of the built list fails on a null slot, and otherwise equals the tour cost of its points |
| OrderedCrossover.BuildSlotsKeepsBlock | TSP/Solver/TspGeneticEvolution.cs:68-95 | the built list keeps parent 1's point at every index `start..end` |
| OrderedCrossover.InheritedOrderPermutation | TSP/Solver/TspGeneticEvolution.cs:57-95 | for distinct points, the block plus parent 2's remaining points is a permutation of parent 1 |
| OrderedCrossover.Offspring | TSP/Solver/TspGeneticEvolution.cs:96-100 | a successful offspring is non-empty, its endpoints name its first and last point, and its cost is its tour cost |
| OrderedCrossover.Crossover | TSP/Solver/TspGeneticEvolution.cs:57-101 | fewer than two points throws; a result has consistent endpoints and cost, drawn with the window's random draws |
| OrderedCrossover.CrossoverKeepsBlock | TSP/Solver/TspGeneticEvolution.cs:68-78 | the offspring has parent 1's length and holds parent 1's points at indices `start..end` |
| OrderedCrossover.OffspringPermutation | TSP/Solver/TspGeneticEvolution.cs:57-100 | for distinct points and parent 2 a permutation of parent 1, the offspring exists and is the block at its place with parent 2's other points around it, a permutation of parent 1 |
| OrderedCrossover.CrossoverPermutation | TSP/Solver/TspGeneticEvolution.cs:57-101 | for n ≥ 2 distinct points the crossover never fails and its offspring is an ordering of the same points |
| OrderedCrossover.CrossoverDuplicatePointFails | TSP/Solver/TspGeneticEvolution.cs:71-95 | with value-equal points the `HashSet` drops a duplicate, a slot stays null and the cost computation throws |
| Mutation.MutationWindow | TSP/Solver/TspGeneticEvolution.cs:154-155 | `start` lies in `[0, n-2]` (0 for one point) and `end` in `[start, n-1]`; an empty path throws |
| Mutation.ShuffleDown | TSP/Solver/TspGeneticEvolution.cs:157-163 | the swap loop permutes the points and leaves every index outside `start..i` untouched |
| Mutation.Mutate | TSP/Solver/TspGeneticEvolution.cs:150-166 | the path's points are permuted only within `start..end`, the cost is recomputed, and `Source` and `Destination` are not updated |
| Mutation.MutateLeavesStaleEndpoints | TSP/Solver/TspGeneticEvolution.cs:157-165 | a mutation that swaps a two-point path leaves `Source` and `Destination` naming the wrong points |
| Selection.Champion | TSP/Solver/TspGeneticEvolution.cs:131-134 | the `winner1` update leaves a winner exactly when there was at least one candidate |
| Selection.Winners | TSP/Solver/TspGeneticEvolution.cs:123-139 | the tournament as written: both winners stay null exactly when there are no rounds |
| Selection.IntendedWinners | TSP/Solver/TspGeneticEvolution.cs:123-139 | the corrected tournament (`winner2 = candidate2`): both winners stay null exactly when there are no rounds |
| Selection.DrawRounds | TSP/Solver/TspGeneticEvolution.cs:127-130 | each tournament round draws two members of the population; an empty population throws |
| Selection.ChampionIsFirstMinimum | TSP/Solver/TspGeneticEvolution.cs:131-134 | the `<` update keeps the earliest candidate of minimal cost |
| Selection.WinnersFirstIsChampion | TSP/Solver/TspGeneticEvolution.cs:127-134 | `winner1` is the earliest `candidate1` draw of minimal cost |
| Selection.WinnersSecondIsFirstCandidate | TSP/Solver/TspGeneticEvolution.cs:135-138 | `winner2` is always one of the `candidate1` draws |
| Selection.OneRoundSelfCrossover | TSP/Solver/TspGeneticEvolution.cs:127-141 | with one round, both parents are `candidate1`, while the intended tournament picks `candidate2` as the second parent |
| Selection.IntendedWinnersAreChampions | TSP/Solver/TspGeneticEvolution.cs:127-139 | the corrected tournament picks the cheapest `candidate1` and the cheapest `candidate2` |
| Selection.SortBy | TSP/Solver/TspGeneticEvolution.cs:198 | sorting yields a permutation in non-decreasing cost |
| Selection.NaturalSelection | TSP/Solver/TspGeneticEvolution.cs:195-207 | exactly `PopulationSize` members remain, in non-decreasing cost, each taken from the previous population; too few members throw |
| Selection.SelectionKeepsCheapest | TSP/Solver/TspGeneticEvolution.cs:195-207 | no member that was dropped is cheaper than one that was kept |
| Selection.SelectionHeadCheapest | TSP/Solver/TspGeneticEvolution.cs:195-207 | the first survivor costs no more than any member of the population that was ranked |
| Engine.InitializePopulation | TSP/Solver/TspGeneticEvolution.cs:37-50 | corrected initialisation: `PopulationSize` tours, each a reordering of the map's points whose cost is its `GetCost`; an empty map throws |
| Engine.InitializeSharedList | TSP/Solver/TspGeneticEvolution.cs:37-50 | as written, all members share one list, so every member shows the same points |
| Engine.SharedListStaleCost | TSP/Solver/TspGeneticEvolution.cs:37-50 | as written, the first member's cached cost is not the cost of the points it shows once the second shuffle changes the shared list |
| Engine.CollinearOrdersDiffer | TSP/Solver/TspGeneticEvolution.cs:235-249 | the two orders of four collinear points used in the counterexample have different costs |
| Engine.CrossoverLoop | TSP/Solver/TspGeneticEvolution.cs:120-142 | each round adds exactly one new tour object and one reference to it; every earlier tour and reference stays as it was; offspring of sound parents are sound |
| Engine.CrossoverStep | TSP/Solver/TspGeneticEvolution.cs:123-141 | with no tournament rounds the null winners throw; otherwise one new tour is appended to the store and referenced last, and every earlier tour and reference stays as it was |
| Engine.NoRoundsThrows | TSP/Solver/TspGeneticEvolution.cs:123-141 | with no tournament rounds the winners stay null and the crossover throws |
| Engine.TournamentPicksMembers | TSP/Solver/TspGeneticEvolution.cs:127-139 | the tournament as written, of at least one round over a non-empty population, returns two members: the cheapest `candidate1` and one of the `candidate1` draws |
| Engine.Crossovers | TSP/Solver/TspGeneticEvolution.cs:106-143 | a null `PopulationSize` or `CrossoverScale` throws with the source's message before anything is added; otherwise exactly `(int)(((P-1)*P/2) * CrossoverScale)` offspring are appended (none when that is negative), each a new tour object, and every earlier tour and reference stays as it was |
| Engine.MutationStep | TSP/Solver/TspGeneticEvolution.cs:188 | a mutation picks an existing member, rewrites that tour in place with `Mutate`, leaves every other tour object as it was, and appends a second reference to it; no tour object is added |
| Engine.MutationLoop | TSP/Solver/TspGeneticEvolution.cs:185-189 | each iteration appends exactly one reference and no tour object, keeps the earlier references, and keeps a sound population sound |
| Engine.Mutations | TSP/Solver/TspGeneticEvolution.cs:171-190 | a null `PopulationSize` or `MutationScale` throws before anything is added; otherwise exactly `(int)(P * MutationScale)` references are appended after the earlier ones and no tour object is added |
| Engine.Breed | TSP/Solver/TspGeneticEvolution.cs:213-214 | the crossover and mutation stages only append references, keeping the earlier ones in place |
| Engine.BreedSound | TSP/Solver/TspGeneticEvolution.cs:213-214 | from a sound population with runnable settings the two stages never fail, keep every tour sound and leave at least `PopulationSize` members |
| Engine.Epoch | TSP/Solver/TspGeneticEvolution.cs:211-216 | an epoch ends with exactly `PopulationSize` members |
| Engine.EpochSound | TSP/Solver/TspGeneticEvolution.cs:211-216 | from a sound population with runnable settings an epoch never fails and keeps every member a reordering of the map with a correct cost |
| Engine.EpochCheapestFirst | TSP/Solver/TspGeneticEvolution.cs:211-216 | after an epoch the first member costs no more than any member the epoch bred |
| Engine.LastEpochCheapest | TSP/Solver/TspGeneticEvolution.cs:211-216 | for a sound population the first member after an epoch is a sound tour no dearer than any tour the epoch bred |
| Engine.NeverCancelledEveryPoll | TSP/Solver/TspGeneticEvolution.cs:222-230 | no cancellation at the polls of a range means no poll in it finds a request |
| Engine.RunEpochs | TSP/Solver/TspGeneticEvolution.cs:222-230 | the loop only completes if no poll finds a cancellation request |
| Engine.GetPath | TSP/Solver/TspGeneticEvolution.cs:218-233 | an empty map throws; a population of zero throws at `Population[0]`; a result means no poll found a cancellation request |
| Engine.GetPathNoEpochs | TSP/Solver/TspGeneticEvolution.cs:221-232 | with no epochs the answer is the first member of the initial population, with no selection by cost |
| Engine.RunEpochsSound | TSP/Solver/TspGeneticEvolution.cs:222-230 | without cancellation, the epochs of a sound population never fail and keep it sound and at `PopulationSize` |
| Engine.RunEpochsOnlyCancels | TSP/Solver/TspGeneticEvolution.cs:222-230 | from a sound population the loop fails exactly when a poll finds a cancellation request, and then always with `OperationCanceledException` |
| Engine.GetPathCancelled | TSP/Solver/TspGeneticEvolution.cs:218-230 | a cancellation request seen at any poll makes `GetPath` throw `OperationCanceledException` |
| Engine.GetPathSound | TSP/Solver/TspGeneticEvolution.cs:218-233 | without cancellation, for at least two distinct points and runnable settings, the answer is an ordering of the map's points whose cached cost is its tour cost |
| Engine.LastRanked | TSP/Solver/TspGeneticEvolution.cs:222-230 | the population the last natural selection of the epoch loop ranks is a well-formed population |
| Engine.RunEpochsCheapest | TSP/Solver/TspGeneticEvolution.cs:222-230 | without cancellation, the loop ends with a first member no dearer than any tour the last selection ranked |
| Engine.GetPathCheapest | TSP/Solver/TspGeneticEvolution.cs:218-233 | with at least one epoch and no cancellation, the answer costs no more than any tour the last natural selection ranked |
| TokenManager.NewManager | TSP/CancellationTokenManager/InMemoryCancellationTokenManager.cs:20-23 | the registry starts empty |
| TokenManager.KeySaved | TSP/CancellationTokenManager/InMemoryCancellationTokenManager.cs:36-39 | a saved key names a source, and no other key shares it |
| TokenManager.Create | TSP/CancellationTokenManager/InMemoryCancellationTokenManager.cs:26-34 | an unused key gets a new, uncancelled token, and every other entry and token is left unchanged; a used key throws with the source's message |
| TokenManager.Signal | TSP/CancellationTokenManager/InMemoryCancellationTokenManager.cs:42-49 | an absent key throws; a saved key's token becomes cancelled and no other token or entry changes |
| TokenManager.Remove | TSP/CancellationTokenManager/InMemoryCancellationTokenManager.cs:52-66 | an absent key throws; a saved key's entry alone is deleted, and every token keeps its state |
| TokenManager.RecreateIsFresh | TSP/CancellationTokenManager/InMemoryCancellationTokenManager.cs:26-66 | create, signal, remove, create on one key: the second token is a fresh, uncancelled one, and the first stays cancelled |
| Text.Split | TSP/InputVerification/FormatChecker.cs:41 | splitting on `'\n'` gives one piece more than there are line breaks, none holding a line break |
| Text.JoinSplit | TSP/InputVerification/FormatChecker.cs:41 | the pieces of a split, joined with the separator, give back the text |
| Text.SplitJoin | TSP/Service/TspSolverService.cs:32-39 | lines without line breaks, joined with `'\n'`, split back into the same lines |
| Text.SplitLastEmpty | TSP/InputVerification/FormatChecker.cs:41 | text that ends with the separator has an empty last piece |
| Text.Trim | TSP/InputVerification/FormatChecker.cs:49 | a trimmed line neither starts nor ends with white space |
| Text.TrimSplits | TSP/InputVerification/FormatChecker.cs:49 | a line is its white-space front, its trimmed text and its white-space back |
| Text.CollapseIsJoin | TSP/InputVerification/FormatChecker.cs:51 | collapsing the white-space runs of a trimmed line gives its words joined by single spaces |
| Text.TokensAreWords | TSP/InputVerification/FormatChecker.cs:49-53 | the tokens of a line are its white-space-separated words, or one empty token for a blank line |
| Text.TokensPadded | TSP/InputVerification/FormatChecker.cs:49-53 | white space around a line does not change its tokens |
| Text.TokensOfPair | TSP/InputVerification/FormatChecker.cs:49-53 | two words with any white space between them give exactly those two tokens |
| FormatChecker.CheckLines | TSP/InputVerification/FormatChecker.cs:46-64 | the loop answers true exactly when every remaining line is accepted |
| FormatChecker.SimpleXY | TSP/InputVerification/FormatChecker.cs:35-66 | the content is accepted exactly when it has at most `maxNumberOfLines` lines and every line has two tokens that both parse |
| FormatChecker.LineAcceptedIffTwoWords | TSP/InputVerification/FormatChecker.cs:49-63 | a line is accepted exactly when it holds two words that both parse |
| FormatChecker.PaddingKeepsVerdict | TSP/InputVerification/FormatChecker.cs:49-53 | extra white space around a line does not change its verdict |
| FormatChecker.PairAccepted | TSP/InputVerification/FormatChecker.cs:49-63 | two numbers separated by any white space make an accepted line |
| FormatChecker.BlankLineRejected | TSP/InputVerification/FormatChecker.cs:55-58 | a blank line rejects the whole content |
| FormatChecker.EmptyRejected | TSP/InputVerification/FormatChecker.cs:41-58 | empty content is rejected |
| FormatChecker.TrailingNewlineRejected | TSP/InputVerification/FormatChecker.cs:41-58 | content ending in `'\n'` is rejected |
| Converter.LinePoint | TSP/InputVerification/Converter.cs:48-57 | a line with fewer than two words throws `IndexOutOfRangeException`; otherwise its first two words become the point, an unparsable word giving 0 |
| Converter.ConvertLines | TSP/InputVerification/Converter.cs:45-58 | the loop fails exactly when some remaining line has fewer than two words, and otherwise adds one point per line |
| Converter.ConvertLinesPoints | TSP/InputVerification/Converter.cs:45-58 | the points already held stay, followed by each line's point in line order |
| Converter.SimpleXY | TSP/InputVerification/Converter.cs:37-61 | the conversion fails exactly when a line has fewer than two words, and otherwise yields one point per line |
| Converter.ConvertsLineByLine | TSP/InputVerification/Converter.cs:43-58 | point k comes from line k |
| Converter.CheckedContentConverts | TSP/InputVerification/Converter.cs:43-57 | content the checker accepts converts without failing into one point per line, made of the line's two parsed numbers |
| Converter.TrailingNewlineFails | TSP/InputVerification/Converter.cs:52-55 | content ending in `'\n'` fails on `numbers[1]` |
| SolverService.GetPath | TSP/Service/TspSolverService.cs:25-41 | whatever the strategy throws, cancellation included, propagates and no text is made; the strategy runs with the given parameters |
| SolverService.AppendLinesJoin | TSP/Service/TspSolverService.cs:32-39 | the loop appends the point lines joined by single line breaks, with none after the last |
| SolverService.FormatIsJoin | TSP/Service/TspSolverService.cs:29-39 | the output is the cost line and the point lines joined by `'\n'` |
| SolverService.EmptyPathFormat | TSP/Service/TspSolverService.cs:31 | an empty path gives only the cost line and its line break |
| SolverService.FormatLines | TSP/Service/TspSolverService.cs:29-39 | an n-point answer has exactly n + 1 lines: `Cost: ` and the cost, then the points in tour order |
| SolverService.PointLineReadsBack | TSP/Service/TspSolverService.cs:33 | when numbers print as one word and the point's coordinates parse back, its line is accepted by the checker and converts back to the point |
| SolverService.OutputReadsBack | TSP/Service/TspSolverService.cs:29-39 | when numbers print as one word and every point's coordinates parse back, the point lines of the output pass the checker and convert back to the tour's points |
| SolverService.ServiceAnswer | TSP/Service/TspSolverService.cs:25-41 | for a solvable map, the answer has one line per city plus the cost line, and its points read back as an ordering of the cities |

## Left out

- The controller (HTTP binding, reading the uploaded file, the order in which it calls the token registry), the UI, the DTOs and the singleton `Instance` getters. These are plumbing around the modelled core.
- `StreamReader` and `IFormFile`: both `SimpleXY` methods are modelled from the file content string on.
- The .NET `Regex` engine: `\s+` is modelled by `Text.Collapse` over `Text.IsWhiteSpace`, the characters `char.IsWhiteSpace` accepts.
- `String.Trim` is `Text.Trim` over the same set.
- Floating point: `Math.Sqrt`, `double.ToString` and the culture-dependent `double.TryParse` are parameters. Costs are exact reals, so NaN, infinities, rounding and ±0 are not modelled.
- Points.CostTo: non-negativity and the distance property are stated only for a `sqrt` that is a true square root (`Points.IsSqrt`). Symmetry holds for any `sqrt`.
- GeneticParameters.Trunc: the `(int)` cast of a double too large for `int` is not modelled; its result in .NET is unspecified.
- Concurrency: `ConcurrentDictionary` atomicity and the check-then-index race in `Signal` are not modelled. Neither are `CancellationTokenSource` threading and `Dispose`.
- TokenManager.Remove: a removed source is not disposed; its state stays readable through the tokens already handed out.
- `Point()`, the parameterless constructor, is not modelled. `Point(X, Y)` and `Map(list)` are the datatype constructors `Points.Point` and `Maps.Map`, so they hold exactly the given values by definition.
- `GetHashCode` (TSP/Domain/Point.cs:42-45) is not modelled: value equality of the datatype stands in for `HashSet` membership.
- MapPaths.Generate:
  - the comparer `random.Next(-1, 2)` passed to `List.Sort` is a parameter `arrange` that returns some reordering;
  - the `==` of `Points.Find` is reference equality in C#, which the model replaces by value equality.
- Selection.SortBy: `List.Sort` is not stable. The model sorts with a stable insertion sort, so the order among equal-cost tours is not modelled.
- Selection.NaturalSelection: an `InvalidOperationException` from the comparer is modelled only for the cost of an empty tour (`SortThrows`).
- Rand.Pick: `Random` is a stream of naturals, so the bias of the real generator is not modelled. The draws a lemma needs are fixed by the values of the stream.
- Cancellation: the token is polled only at the points the source polls. `cancelled(i)` says whether the poll after epoch `i` finds a request; when within the epoch the request arrived is not modelled.
- Engine.GetPathCancelled: it states that the run throws `OperationCanceledException`, not after exactly how many epochs. The model returns no count of the epochs that ran.
- Engine.GetPath: runs the corrected initialisation `InitializePopulation`, not the shared list of line 44 as written, whose effect `Engine.SharedListStaleCost` shows.
- Engine.GetPathSound: states its cost claim for `GetPath` with the corrected initialisation; as written, the cached cost can be stale.
- Engine.GetPathCheapest: states the cost ranking for `GetPath` with the corrected initialisation.
- Engine.EpochSound: starts from a sound population, which only the corrected initialisation provides.
- Engine.RunEpochsSound: starts from a sound population, which only the corrected initialisation provides.
- Engine.RunEpochsCheapest: starts from a sound population, which only the corrected initialisation provides.
- SolverService.ServiceAnswer: runs `Engine.GetPath`, so it uses the corrected initialisation.
- SolverService.OutputReadsBack: `double.ToString` followed by `double.TryParse` does not return every double unchanged, so the round trip is stated only for points whose printed coordinates parse back to themselves.
- Monotonic best cost is not stated. `Mutate` rewrites a live member in place, so an earlier best tour can be lost.

## Findings

| source | as written | input that shows it | evidently intended | confidence | as-written member | corrected member |
|---|---|---|---|---|---|---|
| TSP/Solver/TspGeneticEvolution.cs:44 | `new MapPath(map.Points)` hands the same `List<Point>` to every member, so each `Shuffle` reorders every member and all but the last have a stale `ManualCost` | map (0,0) (1,0) (2,0) (3,0), `PopulationSize` 2, a random stream that leaves the first shuffle as the identity and swaps the middle points in the second: member 0 shows the swapped order but carries the cost of the identity order | each member owns a copy of the points, so the population holds independent shuffles with correct costs | not executed | Engine.InitializeSharedList, Engine.SharedListStaleCost | Engine.InitializePopulation, Engine.GetPathSound |
| TSP/Solver/TspGeneticEvolution.cs:137 | `winner2 = candidate1;`: the second parent is always drawn from the `candidate1` draws, and with one round both parents are the same tour | `TournamentSize` 1, any draw `(c1, c2)`: both winners are `c1` | `winner2 = candidate2;`, the cheapest of the `candidate2` draws | not executed | Selection.Winners, Selection.WinnersSecondIsFirstCandidate, Selection.OneRoundSelfCrossover | Selection.IntendedWinners, Selection.IntendedWinnersAreChampions |

The engine follows the tournament as written (`Selection.Winners`), because the epoch's
soundness does not depend on which draw becomes the second parent. The corrected
tournament `Selection.IntendedWinners` is proved to pick both champions, but the engine
does not use it. The engine does use the corrected initialisation, because the shared
list breaks the cached costs that every later stage relies on.

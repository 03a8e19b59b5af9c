# A verified model of a breadth-first puzzle solver

The repository is a generic breadth-first puzzle solver (`Solver.java`) that
works on any `Configuration`. A configuration is a state with a goal test, a
neighbour enumeration and value equality. Three puzzles plug into it:

- sliding tiles (`SlideConfig.java`): a rectangular grid of numbers with one
  empty cell;
- a river crossing of pups and wolves (`CrossingConfiguration.java`);
- a string ladder (`StringsConfiguration.java`): one letter of a string moves
  cyclically up or down the alphabet per step, towards a finish string.

This project models that core in Dafny and proves what the code promises.

- `Configuration` (configuration.dfy): the `Configuration` interface as a
  datatype `Puzzle<T>` of two pure functions, `isSolution` and `neighbors`,
  over a type with value equality. Dafny's `==` on `T` plays the part of
  `equals`. It also defines paths, reachability within *j* moves, and closed
  sets of configurations.
- `Bfs` (bfs.dfy): a value-level `Search` state holding the frontier, the
  visited set, the predecessor map, the level of each visited configuration
  and the generated-neighbour counter. `DiscoverAll` is the inner `for` loop
  of `solve`, `Expand` one turn of the `while` loop, and `Run` the whole loop.
  `Run` is bounded by a finite closed "universe" of configurations, which
  makes it terminate.
- `BfsInvariant` (bfs_invariant.dfy): the loop invariant, and the proof that
  every turn keeps it.
- `BfsProperties` (bfs_properties.dfy): what a finished search guarantees.
  - Predecessor chains are shortest paths.
  - An exhausted search has visited everything reachable, and none of it is a
    solution.
  - The solution `solve` dequeues is a nearest one.
- `Solver` (solver.dfy): the class `Solver` itself, with the source's fields
  and loops. It is proved to compute exactly what `Run` describes, and path
  reconstruction is proved to follow the predecessor chain.
- `Slide`, `Crossing`, `Strings`: the three configurations. Each has its
  neighbour function and a `getNeighbors` method proved to build exactly it:
  the four `if`s of the slide, the loops of the crossing and of the strings.
  The crossing and the strings also have a closed universe, and a lemma shows
  that the solver's guarantees apply to them; the slide has no universe.
- `Findings` (findings.dfy): a four-configuration puzzle on which the
  as-written `getSolutionPath` may return a path that is not a shortest one.

The ghost `universe` argument of `Solve` is a finite set of configurations
that contains the start and is closed under moves; the model requires one,
and `Run` is defined only inside it. Without a reachable solution or a finite
reachable set, `solve` need not terminate. For the crossing the universe is
the configurations with the same animal totals; for strings, every string of
the start's length.

Java characters are 16-bit code units, and the `(char)` casts of the string
ladder wrap around; the model writes that arithmetic out modulo 2^16.

## Model

| member | source | states |
|---|---|---|
| Configuration.PathReaches | SlidesGameJava/src/puzzles/common/solver/Configuration.java:18-23 | a path of n moves from the start ends in a configuration reachable within n moves |
| Configuration.ClosedContainsReach | SlidesGameJava/src/puzzles/common/solver/Configuration.java:18-23 | everything reachable within j moves from a configuration of a closed set lies in that set |
| Bfs.DiscoverOne | SlidesGameJava/src/puzzles/common/solver/Solver.java:56-61 | (definition) one turn of the inner loop: count the neighbour; if it is not visited, visit and enqueue it and record its predecessor and level |
| Bfs.DiscoverAll | SlidesGameJava/src/puzzles/common/solver/Solver.java:55-62 | the inner loop raises the counter by the number of neighbours, duplicates included, and leaves every neighbour visited |
| Bfs.Fresh | SlidesGameJava/src/puzzles/common/solver/Solver.java:57-60 | the reference for what the inner loop enqueues: its elements are neighbours not seen before, distinct, and include every such neighbour |
| Bfs.DiscoverAllQueue | SlidesGameJava/src/puzzles/common/solver/Solver.java:57-60 | the inner loop appends to the frontier exactly the neighbours not visited before, each once, behind the old frontier |
| Bfs.DiscoverAllOrder | SlidesGameJava/src/puzzles/common/solver/Solver.java:55-60 | the appended neighbours are `Fresh(ns, visit)`: the neighbours not visited before, at their first occurrence, in the order `getNeighbors` lists them |
| Bfs.DiscoverAllPredecessors | SlidesGameJava/src/puzzles/common/solver/Solver.java:57-61 | a newly discovered neighbour gets the expanded configuration as its predecessor; existing predecessor entries never change |
| Bfs.DiscoverAllCount | SlidesGameJava/src/puzzles/common/solver/Solver.java:55-61 | the inner loop visits at most one new configuration per neighbour it generates |
| Bfs.DiscoverAllDepths | SlidesGameJava/src/puzzles/common/solver/Solver.java:57-61 | newly discovered neighbours are one level below the expanded configuration; old levels are kept |
| Bfs.Expand | SlidesGameJava/src/puzzles/common/solver/Solver.java:49-62 | (definition) one turn of the `while` loop on a non-solution head: dequeue it and run the inner loop over its neighbours one level deeper |
| Bfs.Run | SlidesGameJava/src/puzzles/common/solver/Solver.java:48-63 | (definition) the `while` loop: stop with no goal on an empty frontier, stop with the dequeued head if it is a solution, otherwise expand it and go on |
| Bfs.ExpandProgress | SlidesGameJava/src/puzzles/common/solver/Solver.java:48-63 | one turn stays inside a closed universe and stays well formed; if it visits nothing new, the frontier shrinks |
| Bfs.ExpandShrinks | SlidesGameJava/src/puzzles/common/solver/Solver.java:57-59 | a turn that visits something new leaves fewer unvisited configurations of the universe, so the loop terminates |
| Bfs.RunStop | SlidesGameJava/src/puzzles/common/solver/Solver.java:49-53 | helper (one unfolding of `Run`): a solution at the head of the frontier ends the loop with that solution, after it is dequeued |
| Bfs.SolvedAtStart | SlidesGameJava/src/puzzles/common/solver/Solver.java:45-53 | a start configuration that is a solution is reported on the first dequeue; nothing is expanded, the counter stays 0 and the predecessor map stays empty |
| Bfs.RunContinue | SlidesGameJava/src/puzzles/common/solver/Solver.java:48-63 | a non-solution head is expanded, and the search ends as it would from the expanded state |
| BfsInvariant.StartInv | SlidesGameJava/src/puzzles/common/solver/Solver.java:45-47 | the state before the loop satisfies the loop invariant |
| BfsInvariant.DepthBound | SlidesGameJava/src/puzzles/common/solver/Solver.java:48-63 | no visited configuration is more than one level below the head of the frontier |
| BfsInvariant.ExpandQueue | SlidesGameJava/src/puzzles/common/solver/Solver.java:49-60 | a turn removes the head and appends exactly the newly visited neighbours, each once (their order is `ExpandOrder`) |
| BfsInvariant.ExpandOrder | SlidesGameJava/src/puzzles/common/solver/Solver.java:49-60 | a turn leaves the old frontier without its head, followed by the head's fresh neighbours in `getNeighbors` order |
| BfsInvariant.ExpandMaps | SlidesGameJava/src/puzzles/common/solver/Solver.java:54-61 | a turn visits the head's neighbours, raises the counter by their number, links each newly visited one to the head one level deeper, and changes no earlier entry |
| BfsInvariant.ExpandChains | SlidesGameJava/src/puzzles/common/solver/Solver.java:57-61 | a turn keeps the predecessor keys exactly the visited configurations other than the start, each linked to a visited neighbour-of configuration one level up |
| BfsInvariant.ExpandCount | SlidesGameJava/src/puzzles/common/solver/Solver.java:55-60 | a turn adds no more predecessor entries than neighbours it counts, so the entries never outnumber the counter |
| BfsInvariant.ExpandLevels | SlidesGameJava/src/puzzles/common/solver/Solver.java:49-60 | a turn keeps the frontier duplicate-free, ordered by level, and spanning at most two levels |
| BfsInvariant.LevelsShift | SlidesGameJava/src/puzzles/common/solver/Solver.java:49-60 | helper: dropping the head and appending distinct configurations one level below it keeps the frontier ordered by level within two levels |
| BfsInvariant.ExpandHeadDeepens | SlidesGameJava/src/puzzles/common/solver/Solver.java:49-60 | after a turn the head of the frontier is no shallower than before |
| BfsInvariant.ExpandedHead | SlidesGameJava/src/puzzles/common/solver/Solver.java:50-62 | the configuration just expanded is no solution and has all its neighbours visited at most one level below it |
| BfsInvariant.ExpandedStays | SlidesGameJava/src/puzzles/common/solver/Solver.java:49-62 | configurations expanded earlier stay expanded |
| BfsInvariant.ExpandExpanded | SlidesGameJava/src/puzzles/common/solver/Solver.java:49-62 | after a turn every visited configuration off the frontier has been expanded |
| BfsInvariant.ExpandInv | SlidesGameJava/src/puzzles/common/solver/Solver.java:48-63 | every turn of the loop keeps the loop invariant |
| BfsProperties.FrontShallowest | SlidesGameJava/src/puzzles/common/solver/Solver.java:49 | the FIFO head is the shallowest configuration on the frontier |
| BfsProperties.LevelComplete | SlidesGameJava/src/puzzles/common/solver/Solver.java:48-63 | everything reachable within j moves is visited at level at most j, while the frontier has not passed level j |
| BfsProperties.AboveFrontExpanded | SlidesGameJava/src/puzzles/common/solver/Solver.java:48-63 | a configuration above the frontier's level has been expanded, and its neighbours are visited |
| BfsProperties.InvShortest | SlidesGameJava/src/puzzles/common/solver/Solver.java:48-63 | no visited configuration is reachable in fewer moves than its level |
| BfsProperties.AllShortest | SlidesGameJava/src/puzzles/common/solver/Solver.java:45-61 | the predecessor and level maps describe shortest paths |
| BfsProperties.ExhaustedComplete | SlidesGameJava/src/puzzles/common/solver/Solver.java:48-64 | when the frontier runs dry, everything reachable is visited and nothing visited is a solution |
| BfsProperties.HeadNearest | SlidesGameJava/src/puzzles/common/solver/Solver.java:49-53 | nothing reachable in fewer moves than the head's level is a solution |
| BfsProperties.ChainsWithQueue | SlidesGameJava/src/puzzles/common/solver/Solver.java:45-61 | the predecessor invariant does not depend on the frontier |
| BfsProperties.SoundWithQueue | SlidesGameJava/src/puzzles/common/solver/Solver.java:45-61 | shortest-chain and nearest-solution facts do not depend on the frontier |
| BfsProperties.FinishedWithQueue | SlidesGameJava/src/puzzles/common/solver/Solver.java:45-64 | the finished-search guarantee does not depend on the frontier |
| BfsProperties.RunKeepsChains | SlidesGameJava/src/puzzles/common/solver/Solver.java:45-64 | from any chained state, as on a repeated `solve`, the search keeps the predecessor chains, only adds to the visited set and the counter, and reports a true visited solution |
| BfsProperties.HeadIsNearest | SlidesGameJava/src/puzzles/common/solver/Solver.java:49-53 | a solution at the head of the frontier is a nearest solution |
| BfsProperties.FinishedAtGoal | SlidesGameJava/src/puzzles/common/solver/Solver.java:49-53 | stopping at a dequeued solution leaves shortest chains and a nearest solution |
| BfsProperties.FinishedExhausted | SlidesGameJava/src/puzzles/common/solver/Solver.java:48-64 | stopping with an empty frontier leaves shortest chains and an exhausted search |
| BfsProperties.RunFinished | SlidesGameJava/src/puzzles/common/solver/Solver.java:48-64 | from any state with the loop invariant, the search finishes with shortest chains and either a nearest solution or an exhausted search |
| BfsProperties.SearchFinished | SlidesGameJava/src/puzzles/common/solver/Solver.java:44-65 | the search `solve` runs ends with shortest chains, and either a nearest solution or the proof that no solution is reachable |
| BfsProperties.PathTo | SlidesGameJava/src/puzzles/common/solver/Solver.java:81-85 | following predecessor links gives a legal path from the start to the configuration, with one element more than its level, all of them visited |
| BfsProperties.PathToShortest | SlidesGameJava/src/puzzles/common/solver/Solver.java:45-61 | no path from the start to a visited configuration is shorter than its predecessor chain |
| BfsProperties.GoalPathShortest | SlidesGameJava/src/puzzles/common/solver/Solver.java:49-53 | the chain to the dequeued solution is no longer than any path from the start to any solution |
| BfsProperties.ExhaustedUnsolvable | SlidesGameJava/src/puzzles/common/solver/Solver.java:48-64 | after an exhausted search every path from the start ends in a visited non-solution |
| Solver.Reversed | SlidesGameJava/src/puzzles/common/solver/Solver.java:85 | the result holds the elements in reverse order |
| Solver.ReversedSnoc | SlidesGameJava/src/puzzles/common/solver/Solver.java:82-85 | adding at the back of the list puts the element at the front of its reversal |
| Solver.RestartSound | SlidesGameJava/src/puzzles/common/solver/Solver.java:45-47 | `solve` restarting from a previous call's state keeps the chains; from a fresh solver it finishes as `SearchFinished` says |
| Solver.ExpandUnfold | SlidesGameJava/src/puzzles/common/solver/Solver.java:54-62 | helper (one unfolding of `Expand`): a turn of the outer loop is the inner loop over the head's neighbours |
| Solver.Solver.constructor | SlidesGameJava/src/puzzles/common/solver/Solver.java:32-38 | empty visited set and predecessor map, counter 0, no solution; the invariant holds |
| Solver.Solver.Solve | SlidesGameJava/src/puzzles/common/solver/Solver.java:44-65 | the fields end as `Run` from the restarted state says; it returns whether a solution was found; on a fresh solver the state is a finished search: shortest chains, and a nearest solution or exhaustion |
| Solver.Solver.Explore | SlidesGameJava/src/puzzles/common/solver/Solver.java:48-63 | the `while` loop leaves the fields as `Run` says and records the solution it stops at |
| Solver.Solver.Step | SlidesGameJava/src/puzzles/common/solver/Solver.java:49-62 | one loop turn dequeues the head; if it is a solution, the turn stops with the outcome `Run` reports; otherwise the new state is exactly `Expand` of the old one, its search ends the same way, and it makes progress |
| Solver.Solver.Discover | SlidesGameJava/src/puzzles/common/solver/Solver.java:55-62 | the `for` loop over the neighbours updates the fields and the frontier exactly as `DiscoverAll` describes |
| Solver.Solver.ChainFrom | SlidesGameJava/src/puzzles/common/solver/Solver.java:81-85 | walking predecessors back and reversing gives the predecessor chain from the start |
| Solver.Solver.GetSolutionPath | SlidesGameJava/src/puzzles/common/solver/Solver.java:71-88 | empty when no solution was found; otherwise the predecessor chain to some visited solution, chosen as an iteration over the visited set chooses |
| Solver.Solver.GetShortestSolutionPath | SlidesGameJava/src/puzzles/common/solver/Solver.java:71-88 | empty when no solution was found; otherwise a legal path from the start to the dequeued solution, which is a shortest one |
| Solver.Solver.GetTotalConfigurations | SlidesGameJava/src/puzzles/common/solver/Solver.java:94-96 | the counter, which is at least the number of predecessor entries |
| Solver.Solver.GetUniqueConfigurations | SlidesGameJava/src/puzzles/common/solver/Solver.java:102-104 | the number of predecessor entries; at most the counter; one less than the visited count once a search has run |
| Slide.ZeroInRow | SlidesGameJava/src/puzzles/slide/model/SlideConfig.java:50-54 | a found column holds 0 |
| Slide.ZeroInRowFirst | SlidesGameJava/src/puzzles/slide/model/SlideConfig.java:50-54 | any 0 of the row is found, at or after the reported column |
| Slide.ZeroFrom | SlidesGameJava/src/puzzles/slide/model/SlideConfig.java:49-55 | a found cell is on the board, at or below the row, and holds 0 |
| Slide.ZeroFromFirst | SlidesGameJava/src/puzzles/slide/model/SlideConfig.java:49-55 | no 0 from that row on comes before the found cell in row-major order |
| Slide.FirstZero | SlidesGameJava/src/puzzles/slide/model/SlideConfig.java:48-57 | a found empty space is on the board and holds 0 |
| Slide.FirstZeroFirst | SlidesGameJava/src/puzzles/slide/model/SlideConfig.java:48-57 | every 0 of the board is at or after the found one, so a board with a 0 always has an empty space |
| Slide.FirstZeroUnique | SlidesGameJava/src/puzzles/slide/model/SlideConfig.java:48-57 | a 0 with no 0 before it is the one found |
| Slide.Slid | SlidesGameJava/src/puzzles/slide/model/SlideConfig.java:109-121 | (definition) `slideBlock`'s board: a copy with the tile written into the empty cell and 0 into the tile's cell |
| Slide.SlidCells | SlidesGameJava/src/puzzles/slide/model/SlideConfig.java:109-121 | a slide keeps the shape, puts 0 in the tile's cell and the tile in the empty space, and changes no other cell |
| Slide.SlidRectangular | SlidesGameJava/src/puzzles/slide/model/SlideConfig.java:110-116 | a slide keeps the board rectangular |
| Slide.Targets | SlidesGameJava/src/puzzles/slide/model/SlideConfig.java:80-98 | at most four target cells |
| Slide.TargetsExactly | SlidesGameJava/src/puzzles/slide/model/SlideConfig.java:80-98 | the targets are exactly the on-board cells at Manhattan distance 1 from the empty space |
| Slide.NeighborBoards | SlidesGameJava/src/puzzles/slide/model/SlideConfig.java:75-101 | at most four neighbours |
| Slide.NeighborBoardsSlides | SlidesGameJava/src/puzzles/slide/model/SlideConfig.java:75-101 | neighbour i slides the tile of target i (north, south, west, east) into the empty space |
| Slide.NeighborBoardsExactly | SlidesGameJava/src/puzzles/slide/model/SlideConfig.java:75-101 | a board is a neighbour iff it slides an adjacent on-board tile into the empty space |
| Slide.SlideReversible | SlidesGameJava/src/puzzles/slide/model/SlideConfig.java:109-121 | sliding keeps a single empty space, now at the tile's old cell; sliding back restores the board, which is a neighbour of the new one |
| Slide.Moved | SlidesGameJava/src/puzzles/slide/model/SlideConfig.java:141-152 | (definition) `movePiece`'s board: a copy with 0 in the source cell and the piece in the target cell |
| Slide.LegalMove | SlidesGameJava/src/puzzles/slide/model/SlideConfig.java:146 | (definition) a move is legal when the cells are at Manhattan distance 1 and the target holds 0 |
| Slide.MovedCells | SlidesGameJava/src/puzzles/slide/model/SlideConfig.java:146-149 | a user move empties the source, puts the piece on the target and changes nothing else |
| Slide.LegalMoveIsNeighbor | SlidesGameJava/src/puzzles/slide/model/SlideConfig.java:141-152 | with a single empty space, a legal user move targets it and yields one of the solver's neighbours |
| Slide.Solved | SlidesGameJava/src/puzzles/slide/model/SlideConfig.java:166-180 | (definition) the goal test: in row-major order the cells read 1, 2, ..., and the last cell holds the cell count or 0 |
| Slide.FlatPrefix | SlidesGameJava/src/puzzles/slide/model/SlideConfig.java:168-169 | reading more rows extends the row-major cell list |
| Slide.FlatLength | SlidesGameJava/src/puzzles/slide/model/SlideConfig.java:171 | a rectangular board has rows times columns cells |
| Slide.SlideConfig.FindEmptySpace | SlidesGameJava/src/puzzles/slide/model/SlideConfig.java:48-57 | the nested scan returns the first 0 in row-major order, or `None` where the program throws |
| Slide.SlideConfig.constructor | SlidesGameJava/src/puzzles/slide/model/SlideConfig.java:38-42 | keeps the board, records its first 0 as the empty space, last move successful |
| Slide.SlideConfig.Create | SlidesGameJava/src/puzzles/slide/model/SlideConfig.java:38-57 | construction fails exactly when the board has no 0; otherwise a new valid configuration over the board |
| Slide.SlideConfig.SlideBlock | SlidesGameJava/src/puzzles/slide/model/SlideConfig.java:109-121 | a new valid configuration whose board is the copy with the tile slid into the empty space |
| Slide.SlideConfig.GetNeighbors | SlidesGameJava/src/puzzles/slide/model/SlideConfig.java:75-101 | new valid configurations whose boards are exactly `NeighborBoards`, in order |
| Slide.SlideConfig.MatchesNeighbors | SlidesGameJava/src/puzzles/slide/model/SlideConfig.java:80-100 | the north, south, west and east slides together are the neighbour boards |
| Slide.SlideConfig.MatchesAppend | SlidesGameJava/src/puzzles/slide/model/SlideConfig.java:80-100 | appending slides to the list appends their targets |
| Slide.SlideConfig.SlideFrom | SlidesGameJava/src/puzzles/slide/model/SlideConfig.java:81-98 | one new valid configuration per cell of a direction's target list |
| Slide.SlideConfig.MovePiece | SlidesGameJava/src/puzzles/slide/model/SlideConfig.java:141-159 | a legal move gives a new valid configuration with the moved board; an illegal one returns this configuration with the last move marked unsuccessful |
| Slide.SlideConfig.IsSolution | SlidesGameJava/src/puzzles/slide/model/SlideConfig.java:166-180 | the early-exit scan decides `Solved`: cells 1, 2, ... in row-major order, with the last cell equal to the cell count or 0 |
| Slide.SlideConfig.Equals | SlidesGameJava/src/puzzles/slide/model/SlideConfig.java:188-197 | equal exactly when the boards hold the same cells |
| Crossing.Initial | SlidesGameJava/src/puzzles/crossing/CrossingConfiguration.java:52-54 | the start is solved iff there are no animals; with non-negative counts it is a non-negative configuration with the given totals |
| Crossing.IsSolution | SlidesGameJava/src/puzzles/crossing/CrossingConfiguration.java:42-44 | (definition) solved when no pup and no wolf is on the left bank |
| Crossing.SolutionIsAllAcross | SlidesGameJava/src/puzzles/crossing/CrossingConfiguration.java:42-44 | with non-negative counts, solved iff every animal is on the right bank |
| Crossing.Ferry | SlidesGameJava/src/puzzles/crossing/CrossingConfiguration.java:64-78 | a trip flips the boat, conserves both totals, and lands the load on the other bank |
| Crossing.PupTrips | SlidesGameJava/src/puzzles/crossing/CrossingConfiguration.java:67-70 | at most one trip per pup count |
| Crossing.PupTripsExactly | SlidesGameJava/src/puzzles/crossing/CrossingConfiguration.java:67-78 | the pup trips are the trips with an allowed pup count that is available at the boat |
| Crossing.Neighbors | SlidesGameJava/src/puzzles/crossing/CrossingConfiguration.java:61-82 | at most four neighbours |
| Crossing.NeighborsExactly | SlidesGameJava/src/puzzles/crossing/CrossingConfiguration.java:61-82 | the neighbours are exactly the trips with an allowed load: one wolf, or one or two pups, or from the right an empty boat, if that many wait at the boat |
| Crossing.NeighborsConserve | SlidesGameJava/src/puzzles/crossing/CrossingConfiguration.java:64-77 | every neighbour flips the boat, conserves the totals and keeps non-negative counts non-negative |
| Crossing.GetNeighbors | SlidesGameJava/src/puzzles/crossing/CrossingConfiguration.java:61-82 | the loops over pup counts build exactly `Neighbors`, in order |
| Crossing.Equals | SlidesGameJava/src/puzzles/crossing/CrossingConfiguration.java:91-102 | equal iff all five fields agree, which is value equality |
| Crossing.InStates | SlidesGameJava/src/puzzles/crossing/CrossingConfiguration.java:12-16 | the universe is exactly the configurations with non-negative counts and the given totals |
| Crossing.StatesClosed | SlidesGameJava/src/puzzles/crossing/CrossingConfiguration.java:61-82 | no move leaves that universe |
| Crossing.ReachConserves | SlidesGameJava/src/puzzles/crossing/CrossingConfiguration.java:61-82 | every configuration a search from the two-argument constructor reaches has non-negative counts and the start's totals |
| Crossing.CrossingSearchFinished | SlidesGameJava/src/puzzles/crossing/CrossingConfiguration.java:52-54 | a search from the two-argument constructor's configuration terminates with shortest chains and a nearest solution or exhaustion |
| Strings.Next | SlidesGameJava/src/puzzles/strings/StringsConfiguration.java:110-116 | no code unit is its own successor, so every neighbour changes its string; a letter's successor is a letter ('Z' wraps to 'A') |
| Strings.Prev | SlidesGameJava/src/puzzles/strings/StringsConfiguration.java:123-129 | no code unit is its own predecessor; a letter's predecessor is a letter ('A' wraps to 'Z') |
| Strings.IsSolution | SlidesGameJava/src/puzzles/strings/StringsConfiguration.java:42-44 | (definition) solved when the current string equals the finish string |
| Strings.PrevAfterNext | SlidesGameJava/src/puzzles/strings/StringsConfiguration.java:110-129 | stepping back undoes stepping forward, exactly except at '@' |
| Strings.NextAfterPrev | SlidesGameJava/src/puzzles/strings/StringsConfiguration.java:110-129 | stepping forward undoes stepping back, exactly except at '[' |
| Strings.LettersCycle | SlidesGameJava/src/puzzles/strings/StringsConfiguration.java:110-129 | on 'A'..'Z' both steps stay among the letters and are mutually inverse |
| Strings.NeighborsUpTo | SlidesGameJava/src/puzzles/strings/StringsConfiguration.java:54-64 | two neighbours per position: for position i, entry 2i is the next-character variant and entry 2i+1 the previous-character variant |
| Strings.Neighbors | SlidesGameJava/src/puzzles/strings/StringsConfiguration.java:51-66 | exactly twice the string length |
| Strings.NeighborsExactly | SlidesGameJava/src/puzzles/strings/StringsConfiguration.java:51-66 | a configuration is a neighbour iff it replaces one position by its next or previous character |
| Strings.NeighborShape | SlidesGameJava/src/puzzles/strings/StringsConfiguration.java:59-63 | a neighbour keeps the finish string and the length, differs at one position only, and keeps letters letters |
| Strings.GetNeighbors | SlidesGameJava/src/puzzles/strings/StringsConfiguration.java:51-66 | the loop with prefix, new character and suffix builds exactly `Neighbors` |
| Strings.Equals | SlidesGameJava/src/puzzles/strings/StringsConfiguration.java:75-84 | the finish is not compared; for configurations with the same finish, `equals` is value equality |
| Strings.ReachKeeps | SlidesGameJava/src/puzzles/strings/StringsConfiguration.java:59-63 | everything a search reaches keeps the start's finish string and length, and letters if the start has only letters |
| Strings.EqualsOnReach | SlidesGameJava/src/puzzles/strings/StringsConfiguration.java:75-84 | on configurations reached from one start, `equals` is full value equality, so deduplication by value is the program's |
| Strings.InWords | SlidesGameJava/src/puzzles/strings/StringsConfiguration.java:59-60 | the universe's words are exactly the strings of the given length |
| Strings.ConfigsClosed | SlidesGameJava/src/puzzles/strings/StringsConfiguration.java:51-66 | no move leaves the configurations of a fixed length and finish |
| Strings.StringsSearchFinished | SlidesGameJava/src/puzzles/strings/StringsConfiguration.java:32-35 | a search from any configuration terminates with shortest chains and a nearest solution or exhaustion |
| Findings.TwoGoalsClosed | SlidesGameJava/src/puzzles/common/solver/Solver.java:75-80 | the four configurations of the counterexample are closed under moves |
| Findings.ExpandZero | SlidesGameJava/src/puzzles/common/solver/Solver.java:54-62 | expanding 0 discovers 1 and 2 |
| Findings.DiscoverZero | SlidesGameJava/src/puzzles/common/solver/Solver.java:55-62 | helper: the inner loop over 1, 2 is two single discoveries |
| Findings.DiscoveredZero | SlidesGameJava/src/puzzles/common/solver/Solver.java:57-61 | helper: discovering 1 and then 2 from the start gives the state after expanding 0 |
| Findings.ExpandOne | SlidesGameJava/src/puzzles/common/solver/Solver.java:54-62 | expanding 1 then discovers 3 |
| Findings.RunFromStart | SlidesGameJava/src/puzzles/common/solver/Solver.java:48-63 | the search from 0 continues from the state after expanding 0 |
| Findings.RunFromZero | SlidesGameJava/src/puzzles/common/solver/Solver.java:48-63 | that search continues from the state after expanding 1 |
| Findings.RunFromOne | SlidesGameJava/src/puzzles/common/solver/Solver.java:49-53 | that search stops at solution 2 with 3 already visited |
| Findings.TwoGoalsRun | SlidesGameJava/src/puzzles/common/solver/Solver.java:44-65 | the search stops at 2 with both solutions visited |
| Findings.SolutionPathNotShortest | SlidesGameJava/src/puzzles/common/solver/Solver.java:75-84 | 2 and 3 are both visited solutions; the chain to 3 has two moves, the chain to the dequeued 2 has one |

## Left out

- The user interfaces (`SlideGUI.java`, `SlidePTUI.java`), the command-line drivers (`Slide.java`, `Crossing.java`, `Strings.java`) and `SlideModel.java`. They do file input, console and JavaFX output, and hold model references; none of it affects the search.
- `Coordinate.java` is not part of this model; a coordinate is a pair `(row, col)`.
- Observers, `notifyObservers`, `toString`, `getFormattedStringForPTUI` and the message `movePiece` prints: display plumbing.
- Concrete hash codes (`Arrays.deepHashCode`, `Objects.hash`, `String.hashCode`). Configurations are values compared with `==`, so any hash of the value agrees with equality. The `Equals` members show that each `equals` is that equality (for strings, on configurations one search reaches).
- Java `int` overflow. The crossing counts, the solver's counter and `expectedValue` in the slide goal test are unbounded integers. Overflow would need more than 2^31 animals, generated neighbours or cells.
- HashSet iteration order in `getSolutionPath`: modelled as an arbitrary choice among the remaining visited configurations.
- `getBoard`, `getString` and `isLastMoveSuccessful` are plain field reads. `getBoard` returns the board array itself, so a caller can alias it; a board here is an immutable value, so that aliasing is not modelled.
- Slide.SlideConfig.MovePiece: requires the source cell to be on the board, and the target cell too when the cells are adjacent. Otherwise the program raises `ArrayIndexOutOfBoundsException`.
- Slide.SlideConfig.SlideBlock: requires the tile's cell to be on the board, as every call from `getNeighbors` ensures; the program would raise an exception otherwise.
- Slide.SlideConfig.FindEmptySpace: requires a rectangular board; the scan reads `board[0].length` as the width of every row, so a jagged board would raise an exception or miss cells.
- Slide.SlideConfig.GetNeighbors: the neighbours are built by `SlideFrom`, one call per direction, instead of four `if` statements inline; the boards and their order are the same.
- Solver.Solver.Explore: the `while` loop of `solve` is its own method, and one turn of it (`Step`) and the inner `for` loop (`Discover`) are methods too.
- Solver.Solver.Solve: requires a finite set of configurations that contains the start and is closed under moves. Without a reachable solution or a finite reachable set, `solve` need not terminate. A search on an infinite graph with finitely many neighbours per configuration still stops when a solution is reachable; the model does not cover that case. The `depth` map and the `universe` are ghost bookkeeping that the program does not keep.
- Solver.Solver.Solve: a second `solve` on the same solver is modelled as the program does it: the old visited set, predecessor map and counter are kept and the start is queued again. The shortest-path guarantee is proved only for the first call.
- The sliding-tile puzzle has no universe and no search lemma: the set of boards of the start's shape holding the start's cells is finite and closed under slides, but it is not constructed here. The solver's guarantees apply to the slide puzzle only given such a set.
- Crossing.CrossingSearchFinished: covers only non-negative animal counts. The command-line driver accepts negative counts; every move conserves the totals, but the universe `States` holds only non-negative counts.
- Solver.Solver.GetShortestSolutionPath relies on the `goal` field, which the program does not have; it is the corrected `getSolutionPath` (see Findings).
- The repository's documentation counts unique configurations as the number of visited configurations. The code returns the size of the predecessor map, which is one less. The model follows the code.

## Findings

| source | as written | input that shows it | evidently intended | confidence | as-written member | corrected member |
|---|---|---|---|---|---|---|
| SlidesGameJava/src/puzzles/common/solver/Solver.java:75-80 | `getSolutionPath` takes the first solution it meets while iterating over the whole visited set, which includes configurations discovered but never dequeued | a puzzle with moves 0→1, 0→2, 1→3 and solutions 2 and 3: `solve` stops at 2 after visiting 3, and the path may follow 3's chain 0, 1, 3 instead of 0, 2 | the path to the solution `solve` dequeued, which is a shortest path to a solution | not executed; it shows only on a puzzle where a second solution is visited before the first is dequeued | Solver.Solver.GetSolutionPath, Findings.SolutionPathNotShortest | Solver.Solver.GetShortestSolutionPath, BfsProperties.GoalPathShortest |

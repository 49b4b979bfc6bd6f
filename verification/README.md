# Verified model of chess endgame table generation

The repository generates chess endgame tables by retrograde analysis: for every position
of a given material it stores whether the side to move wins, draws or loses, how many
plies it takes to leave the table (by mate, capture or promotion), and by which kind of
conversion. This project models its solver, indexer, consistency checker, frame cache,
frame codec, finalization and table identities in Dafny 4.11 and proves that they do what
the rest of the repository relies on. `dafny verify dfyconfig.toml` checks everything.

## How the parts fit together

The result the project builds up to is `Publishing.GeneratePair`: after solving a pair on
arrays of 16-bit words and storing it in frames, the cell read back for a position is a
win, loss or draw exactly when legal play forces it, at exactly that distance and
conversion type. With all stored counters below 8192, this holds if and only if legal play
decides no position beyond 8191 plies (`Checker.DepthFits` of the game), and the reported
maxima are below 8192 under the same condition; the published totals and histograms are
then the numbers of forced wins, losses and draws. It is composed of

1. **The checker** (`Outcomes`, `Checker`). Its equations have one solution, and that
   solution is the forced outcome. Forcing is defined by play alone, without reference
   to values. An assignment that meets the equations only up to a number of plies is
   right about everything that play forces within them.
2. **The solver** (`Propagation`, `Exactness`, `SolvedPair`, `Cells`, `WordRows`,
   `Summaries`, `Scans`, `Initialization`, `Retrograde`). The pair of tables is an
   abstract finite multigraph of quiet unmoves with multiplicity, plus the conversions of
   each position. Given that each initial counter equals the number of times its cell is
   emitted, every scan of unbounded cells keeps every cell exact (`Exactness`,
   `SolvedPair`), and after ply n the resolved cells are exactly what play forces within
   n plies. The loops work on words: `WordRows` says exactly when words follow
   cells, and `Retrograde` carries this through every update, scan and ply. Pruned scans
   miss no source, the loop ends, and what it leaves solves the checker's equations
   exactly if the game decides nothing beyond 8191 plies. `Interleaving` treats
   concurrent workers with compare-and-exchange loops on words within one scan, and
   `ConcurrentPlies` composes whole plies and whole runs of such scans, with snapshots
   taken while others update: under every schedule a run ends with what the sequential
   solver promises.
3. **Symmetry** (`Sums`, `Symmetry`, `Boards`, `SolvedTables`). Positions with both kings
   on a long diagonal stand for four positions, all others for eight. The symmetry
   adjusted move counter equals the number of emissions by a double counting over
   reflections; this discharges the hypothesis of the solver. `SolvedTables` carries the
   result from emissions back to legal forward moves: play on emissions forces exactly
   what legal play forces. For tables without pawns, `PawnlessBoards` gives the explicit
   board of all valid positions and proves from the rules of the game that its
   reflections carry quiet moves along, as the double counting asks.
4. **Storage** (`FrameCodec`, `Finalization`, `Publishing`). The byte transposition of
   frames, unknowns becoming draws, batches and statistics.

Beside this chain stand

- **Reverse moves** (`Chess`, `Positions`, `ReverseMoves`): on an explicit board with
  attacks, checks and en passant, the unmove generators emit every predecessor state
  exactly once and nothing else. Attacks are also given as walks over the board, and the
  checks of decoded positions accept exactly the valid states.
- **The indexer** (`Compaction`, `Combinadics`, `Sorting`, `PawnMaps`, `PawnReflections`,
  `KingPairs`, `Indexer`, `Placements`, `PositionIndexer`): a bijection between the
  indices of a table and canonical placements, for pawnless, symmetric-pawn and other
  tables, with the in-place loops proved against it, and the order it numbers them in.
  `PawnSetups` proves that the pawn configurations of a table are exactly the pawn
  structures with its words, and their en passant files those of possible captures.
- **The frame cache** (`CacheMemories`, `FrameCache`): the accounting record as a class,
  and the cache as a state machine of threads that take file locks, read, load, record,
  evict, insert, remove and resize in any order. Over all runs probes return stored frames,
  evictions take the least recently used frame, and an idle cache is within its limit.
- **Table identity** (`PawnKeys`, `TableNames`, `TableIds`, `BoardNames`): pawn colour
  words, twins, reflections, the name printer and parser, and the groups tables are
  generated in. `BoardNames` says what names and groups mean on boards: which letter and
  which mark stands for which piece.
- **Generation order** (`TableOrder`, `Conversions`, `BoardConversions`,
  `GenerationPlans`): the linear order of tables, where captures, en passant captures and
  promotions lead, and plans in which every selected prerequisite stands before the tables
  that need it. `BoardConversions` derives the setups that moves are routed by from boards
  and proves that playing a legal move on the board does to the setup what the conversion
  does.

Loops over arrays, buffers and fields are methods proved against specification functions;
expression code is functions. Where workers run in parallel the methods are sequential,
and `Interleaving`, `ConcurrentPlies` and `FrameCache` treat the interleavings.

## What turned out to be conditional

- Distances and counters have 13 bits and the solver has no depth guard. One update on a
  word is the update of its cell exactly if the ply fits or no distance is written
  (`Cells.WordUpdatesAreCellUpdates`), a list of updates exactly if all resulting cells
  fit (`WordRows.WordsFollowCells`), the start exactly if all stored counters fit
  (`Retrograde.InitialPairIsExact`), and then a whole run exactly if play decides no
  position beyond 8191 plies (`Retrograde.SolvePair`; on legal moves
  `SolvedTables.SolveLayout`), which the reported maxima tell. Beyond, distances wrap
  (`Cells.DeepUpdatesWrap`), positions with wide counters are lost too early
  (`Cells.WideCountersWrap`), concurrent wins race (`Interleaving.DeepMarksRace`), and the
  loop still ends, by ply 8194.
- At any depth, exactly the rejected indices end up invalid, and the published counts make
  up the index range, unless a stored counter is a positive multiple of 8192
  (`Retrograde.InitialRejections`, `Retrograde.SolvePair`, `Publishing.GeneratePair`).
- The frame codec loses a word of 256 or more whose low byte is 0 or 1, for instance an
  unresolved cell whose counter is a multiple of 32 (`FrameCodec.RoundTrip`,
  `FrameCodec.UnknownsAreNotAlwaysCodable`). Finalization turns unresolved cells into
  draws before it encodes, so stored tables are not affected.
- Losses of different conversion types commute on an unresolved cell exactly if its
  counter exceeds 2, so they cannot be propagated in one phase
  (`Interleaving.TypesNeedBarriers`).
- Two indices can stand for positions that are reflections of each other when both kings
  are on a long diagonal (`Placements.DiagonalSymmetricIs`); their outcomes are equal
  (`SolvedTables.OutcomesAreSymmetric`).

## Model

| member | source | states |
|---|---|---|
| `Outcomes.OrderIsLinear` | src/lib.rs:66-80 | The outcome order is a linear order in which only identical outcomes tie. |
| `Checker.BestIsBest` | src/lib.rs:492-520 | The best value over a list of moves is attained by a move and is not exceeded by any. |
| `Checker.BestIsUnique` | src/lib.rs:492-520 | Only one value is best, so the choice among equal moves does not matter. |
| `Checker.BestOutcome` | src/lib.rs:492-520 | The loop returns the best value exactly when every successor has a usable cell. |
| `Checker.WinsInOne` | src/lib.rs:560-579 | The value of a position is a win in one by mate exactly if a quiet move mates, else by capture exactly if some capture, promoting or not, reaches a lost table, else by promotion exactly if some plain promotion does. |
| `Checker.LosesInOne` | src/lib.rs:560-579 | The value is a loss in one exactly if every move loses at once, with the reverse preference: by promotion if some promotion loses, else by capture. |
| `Checker.VerifyBlock` | src/lib.rs:422-490 | The block passes exactly when every entry passes; otherwise the first failing index is reported with its reason. |
| `Checker.FailuresAreExclusive` | src/lib.rs:422-490 | An entry passes, or fails for exactly one of the reported reasons. |
| `Checker.PassingIsAcceptance` | src/lib.rs:422-490 | All entries pass exactly when the stored outcomes solve the checker's equations. |
| `Checker.AcceptanceIsUnique` | src/lib.rs:422-518 | For fixed dependencies the checker accepts at most one assignment of outcomes. |
| `Checker.AcceptedThresholds` | src/lib.rs:422-518 | An accepted value reaches a threshold exactly when play can force that threshold. |
| `Checker.ThresholdsWithin` | src/lib.rs:422-518 | An assignment that meets the equations as far as a number of plies reaches each threshold up to it exactly when play can force it. |
| `Checker.AcceptedWithinIsForced` | src/lib.rs:422-518 | Its wins and losses within that many plies are exactly the forced ones, at the optimal distance and conversion type. |
| `Checker.AcceptedValueIsForced` | src/lib.rs:422-518 | The accepted value is the forced conversion with the fewest (most) plies and the preferred type, and a draw exactly when neither side can force one. |
| `Cells.PackingIsExact` | src/egt_file.rs:26-104 | A cell is read back from its 16-bit word exactly when the distance or counter fits 13 bits and no counter is zero. |
| `Cells.UnpackingIsExact` | src/egt_file.rs:26-104 | Exactly which words equal the word of the cell they read as. |
| `Cells.PackedWords` | src/egt_file.rs:26-104 | The words as numbers: 0 invalid, 1 draw, eight times the counter, eight times the distance plus 2, 4 or 6 for wins and 3, 5 or 7 for losses by mate, capture and promotion. |
| `Cells.WordUpdatesAreCellUpdates` | src/retrograde.rs:143-181 | On words, marking a win and decrementing do what they do on cells exactly if the ply fits 13 bits or no distance is written. |
| `Cells.DeepUpdatesWrap` | src/retrograde.rs:143-181 | Without a depth guard, every win and loss written at any ply reads back with the ply modulo 8192. |
| `Cells.WideCountersWrap` | src/egt_file.rs:26-104 | Any counter of 8192 or more that is 1 modulo 8192 is lost at its first decrement. |
| `WordRows.WordsAreFittingRows` | src/egt_file.rs:26-104 | Rows of words and the rows of cells that fit them correspond one to one. |
| `WordRows.WordsFollowCells` | src/retrograde.rs:143-181 | Any list of updates does to the words what it does to their cells exactly if every cell it leaves fits its word. |
| `WordRows.ShallowWordsFollowCells` | src/retrograde.rs:143-181 | Words follow cells below ply 8192, and at any ply whose updates resolve nothing. |
| `WordRows.UnknownCountsAgree` | src/retrograde.rs:143-181 | At any ply, updates leave as many unresolved words as they leave unresolved cells, whatever distances are written. |
| `WordRows.StepKeepsInvalid` | src/retrograde.rs:143-181 | At any ply, no update makes or repairs an invalid word. |
| `WordRows.WordUpdatesFollowCells` | src/retrograde.rs:725-781 | Up to ply 8192, selecting words (wins by their whole word) selects the sources that the cells have. |
| `WordRows.ApplyKeepsSources` | src/retrograde.rs:279-301 | On words, at any ply, no update of a scan makes or touches a source of the scan. |
| `Propagation.MarksAre` | src/retrograde.rs:143-158 | A cell after any list of win marks: resolved once, upgraded to the best type only at its own ply. |
| `Propagation.DecrementsAre` | src/retrograde.rs:161-181 | A cell after any list of decrements: lost exactly when its counter is used up. |
| `Propagation.UpdatesCount` | src/retrograde.rs:726-781 | A scan updates a cell as often as its sources emit it, with multiplicity. |
| `Exactness.LossScanKeepsExact` | src/retrograde.rs:725-755 | Phase W keeps every cell at its exact minimax value up to the ply, counters included. |
| `Exactness.WinScanKeepsExact` | src/retrograde.rs:757-781 | Phase L keeps every cell exact, and the sub-phases give the loser's preferred type. |
| `Exactness.ApplyResolves` | src/retrograde.rs:143-181 | Updates only resolve cells at the current ply and never change earlier results. |
| `Exactness.SourcesAreStable` | src/retrograde.rs:279-301 | No update of a phase changes the sources the phase scans, even in a self-twin. |
| `Exactness.NextPly` | src/retrograde.rs:794-799 | Exactness carries over to the next ply. |
| `SolvedPair.ScanStep` | src/retrograde.rs:726-781 | One scan of one table advances the exactness of the whole pair. |
| `SolvedPair.PlyIsAccepted` | src/retrograde.rs:720-799 | After any ply, the cells with unknowns as draws meet the checker's equations as far as conversions within that many plies go. |
| `SolvedPair.PlyDecides` | src/retrograde.rs:720-799 | After ply n the resolved cells are exactly what play forces within n plies, at that distance and conversion type. |
| `SolvedPair.SolvedPairIsAccepted` | src/retrograde.rs:669-821 | When a ply resolves nothing, the cells with unknowns as draws solve the checker's equations at every position. |
| `Summaries.PlySummary.Record` | src/retrograde.rs:253-260 | Raises the bound of the one block of the index, and nothing else. |
| `Summaries.PlySummary.BlocksWith` | src/retrograde.rs:261-272 | Returns exactly the blocks whose bound admits the ply, clipped at the end of the table. |
| `Summaries.NoSourceOutside` | src/retrograde.rs:243-272 | While bounds hold, no cell of the kind and ply lies outside the returned blocks. |
| `Scans.WorkingPair.MarkWin` | src/retrograde.rs:144-160 | The word becomes the marked one, and the result says whether it was resolved, upgraded or left. |
| `Scans.WorkingPair.Decrement` | src/retrograde.rs:161-181 | The word is decremented, and the result says whether this resolved it. |
| `Scans.UpdateOne` | src/retrograde.rs:741-777 | One update applies the word update of the scan, keeps the block bounds, and counts newly resolved cells, at any ply. |
| `Scans.Collect` | src/retrograde.rs:279-301 | The snapshot of a block lists exactly its sources at the start of the scan. |
| `Scans.Process` | src/retrograde.rs:279-301 | Processing a snapshot applies exactly its updates, in order. |
| `Scans.ScanBlock` | src/retrograde.rs:279-301 | One block applies the updates of its sources, keeps the bounds and the books. |
| `Scans.ScanTable` | src/retrograde.rs:279-301 | Scanning pruned blocks that hold all sources has the effect on the words of a full scan; the counts are right for any blocks and any ply. |
| `Initialization.InitializeOpen` | src/retrograde.rs:598-640 | The value from conversions alone: best winning type, loss if all moves lose, else the counter left. |
| `Initialization.InitialTypes` | src/retrograde.rs:608-640 | An initial win is by capture exactly if some capture wins, else by promotion; an initial loss is by promotion exactly if all moves lose and some plain promotion does, else by capture. |
| `Initialization.InitialCellIsExact` | src/retrograde.rs:560-653 | Initial cells are exact before any quiet move is considered. |
| `Initialization.InitialWordIsExact` | src/retrograde.rs:598-640 | An initial word reads back as the initial cell exactly if the counter that is stored is below 8192. |
| `Initialization.InvalidInitialWord` | src/retrograde.rs:598-640 | An initial word is invalid exactly at rejected indices, unless the stored counter is a positive multiple of 8192; then exactly not. |
| `Initialization.InitializeBlock` | src/retrograde.rs:560-653 | One block: initial words, bounds above their plies, and the running counts. |
| `Initialization.InitializeTable` | src/retrograde.rs:560-653 | All blocks: initial words everywhere, bounded summary, and the counts of rejections, checkmates, stalemates and first results. |
| `Initialization.RejectionsByReason` | src/position.rs:24-40 | Each of the three counts is the number of indices rejected for that reason, one per pair of diagonal reflections. |
| `Retrograde.ScanRanges` | src/retrograde.rs:726-781 | Scanning blocks changes only the twin; if they hold all sources and nothing of 8192 plies is written, it is the full scan of the cells. |
| `Retrograde.ScanSlot` | src/retrograde.rs:726-770 | A table skipped for its count or its bounds had no sources; otherwise it is scanned. |
| `Retrograde.DeepFind` | src/retrograde.rs:726-781 | A scan of an exact pair that resolves a cell at ply 8192 or later shows that play decides a position beyond 8191 plies. |
| `Retrograde.PropagatePly` | src/retrograde.rs:725-781 | Phases W and L conserve resolved plus unresolved positions and invalid cells at any ply, leave the pair exact while words follow cells, and a find at ply 8192 shows that play decides a position beyond 8191 plies. |
| `Retrograde.UpdateLongest` | src/retrograde.rs:783-792 | The loop sets the maxima of the tables in which the ply found something. |
| `Retrograde.MaximaAreLongest` | src/retrograde.rs:783-792 | The running maxima stay the longest win and loss resolved so far. |
| `Retrograde.InitialPairIsExact` | src/retrograde.rs:560-653 | The propagation starts from exact cells exactly if all stored counters are below 8192. |
| `Retrograde.InitialRejections` | src/retrograde.rs:560-653 | After initialization exactly the rejected indices are invalid if and only if no stored counter is a positive multiple of 8192. |
| `Retrograde.Initialize` | src/retrograde.rs:689-712 | Both tables start bounded, with counts of plies 0 and 1 and of rejected indices, exact if and only if the counters fit, and invalid exactly where rejected if and only if no counter is a positive multiple of 8192. |
| `Retrograde.QuiescentPairIsSolved` | src/retrograde.rs:794-820 | Stopping when nothing is found is final: accepted values, invalid cells exactly where rejected, true maxima. |
| `Retrograde.SolvePly` | src/retrograde.rs:720-792 | A ply keeps bounds and invalid cells, leaves fewer unresolved cells if it finds something after ply 1, finds no wins after ply 8192, and keeps exactness while words follow cells. |
| `Retrograde.RunEnds` | src/retrograde.rs:794-799 | When a ply finds nothing, the words hold the solution if and only if play decides no position beyond 8191 plies, and this is so if and only if all maxima are below 8192. |
| `Retrograde.SolvePair` | src/retrograde.rs:669-821 | On 16-bit words, with stored counters below 8192: the loop ends by ply 8194, and its tables are solved if and only if play decides no position beyond 8191 plies, if and only if the reported maxima are below 8192. Solved means accepted by the checker, invalid exactly where initialization rejected, and true maxima. At any depth, exactly the rejected indices are invalid if and only if no counter is a positive multiple of 8192. |
| `Interleaving.OrderIsIrrelevant` | src/retrograde.rs:143-181 | Updates of one phase give the same cells in any order. |
| `Interleaving.TypesNeedBarriers` | src/retrograde.rs:757-781 | Decrements of two different types commute on an unresolved cell exactly when its counter exceeds 2, so the sub-phases need barriers. |
| `Interleaving.WordOrderIsIrrelevant` | src/retrograde.rs:143-181 | Updates of one phase give the same words in any order: decrements at any ply, wins below ply 8192. |
| `Interleaving.DeepMarksRace` | src/retrograde.rs:143-158 | Two types of wins commute on an unresolved word exactly below ply 8192; from there on workers race. |
| `Interleaving.NextKeepsInv` | src/retrograde.rs:143-181 | Every load, compare-exchange and record step on words, by every worker, at any ply, keeps the invariant of the phase. |
| `Interleaving.RunKeepsInv` | src/retrograde.rs:143-181 | The invariant holds throughout every interleaving. |
| `Interleaving.CompleteRunIsReordering` | src/retrograde.rs:143-181 | Every complete interleaving, at any ply, performs all updates in some order, counts each cell once, and leaves bounds above all plies. |
| `Interleaving.CompleteRunIsSequential` | src/retrograde.rs:143-181 | Every complete interleaving of a win scan, and of a loss scan below ply 8192, ends in the words and counts of the sequential scan; below ply 8192 these are those of the cells. |
| `Interleaving.SourcesStayVisible` | src/retrograde.rs:279-301 | At every moment of a phase, at any ply, its sources are those of its start; below ply 8192 so are the sources of every scan of the ply. |
| `ConcurrentPlies.SeenSources` | src/retrograde.rs:279-301 | Words read at any moments of a run that may be updating the same row show exactly the sources that were there before the scan. |
| `ConcurrentPlies.ExecutionIsScan` | src/retrograde.rs:279-301 | A scan by workers, with the blocks the solver gives them, snapshots taken during the run and any interleaving, does to the cells what the sequential scan does. |
| `ConcurrentPlies.PlyKeepsState` | src/retrograde.rs:725-781 | All phases of a ply, each scan by workers under any schedule, keep the state that the sequential ply keeps. |
| `ConcurrentPlies.ConcurrentRunSolves` | src/retrograde.rs:720-799 | Every run of concurrent plies ends with what the sequential solver promises: with stored counters below 8192, solved if and only if play decides no position beyond 8191 plies, and the maxima tell. |
| `ConcurrentPlies.RunsAgree` | src/retrograde.rs:720-799 | On a pair with stored counters below 8192 that play decides within 8191 plies, all runs end with the same finished cells and the same maxima, whatever the schedules. |
| `Symmetry.EmissionsMatchCounter` | src/retrograde.rs:454-529 | Summed over all canonical sources, an index is emitted exactly as often as its quiet counter says, diagonal positions included. |
| `Symmetry.EmittedIsSymmetric` | src/retrograde.rs:42-68 | Reflecting source and target along the diagonal keeps the number of emissions. |
| `Symmetry.EmittedMove` | src/retrograde.rs:454-495 | Whatever is emitted has a quiet move to the source or its diagonal reflection. |
| `Symmetry.MoveIsEmitted` | src/retrograde.rs:454-495 | Every quiet move to a representative of the source is emitted. |
| `Boards.RepIsUnique` | src/egt/indexer.rs:395-413 | Exactly one reflection brings a position to its representative. |
| `Boards.QuotientIsValid` | src/retrograde.rs:42-68 | A board whose reflections carry quiet moves along is an instance of the double counting. |
| `Boards.SymmetryAdjustedMoveCounter` | src/retrograde.rs:499-529 | The counter is the conversions plus the quiet moves, those to a position standing for four counted twice from one standing for eight. |
| `Boards.QuietUnmoves` | src/retrograde.rs:454-495 | The emission loop gives the index of every predecessor, and its diagonal reflection where due. |
| `Boards.EmissionsAreQuotients` | src/retrograde.rs:454-495 | The emissions of the loop are those of the double counting theorem. |
| `Boards.SuccessorEmits` | src/retrograde.rs:454-495 | Every quiet move is taken back from the index of its successor. |
| `Boards.EmittedHasSuccessor` | src/retrograde.rs:454-495 | Everything emitted has a quiet move into the emitting index or its reflection. |
| `SolvedTables.LayoutIsBalanced` | src/retrograde.rs:1-68 | For tables laid out from a board, initial counters equal emission counts: the solver's hypothesis holds. |
| `SolvedTables.OutcomesAreSymmetric` | src/egt/indexer.rs:524-572 | Final outcomes agree at an index and its diagonal reflection. |
| `SolvedTables.ReflectionsForceAlike` | src/lib.rs:422-518 | Play on emissions forces the same at an index and at its mirror. |
| `SolvedTables.GamesForceAlike` | src/lib.rs:422-518 | At every position and for every distance and type, play on emissions forces exactly what legal play forces. |
| `SolvedTables.ShallowForward` | src/retrograde.rs:669-821 | The emissions decide no position beyond 8191 plies if and only if legal play does not. |
| `SolvedTables.AcceptedForward` | src/lib.rs:422-518 | Values accepted on emissions are accepted on the legal moves of the board. |
| `SolvedTables.SolvedIsVerified` | src/lib.rs:422-490 | Every index of a solved pair passes verification against legal forward moves. |
| `SolvedTables.SolveLayout` | src/retrograde.rs:669-821 | With stored counters below 8192, the tables left for a board are solved, and pass verification, if and only if legal play decides no position beyond 8191 plies; the maxima are below 8192 under the same condition. |
| `SolvedTables.SolvedIsForced` | src/retrograde.rs:1-35 | An index of a solved pair holds a win, loss or draw exactly when legal play forces it, at that distance and type. |
| `Retrograde.MaximaBoundDepth` | src/retrograde.rs:783-792 | Distances fit their words exactly when the reported maxima are below 8192. |
| `Publishing.StoredIsForced` | src/finalization.rs:18-63 | The cell read back from the stored frames of solved words is the forced outcome. |
| `Publishing.StoredPairIsShallow` | src/finalization.rs:18-63 | Frames that hold the forced outcome of every position can only come from a game decided within 8191 plies. |
| `Publishing.RedundantOutcome` | src/finalization_stats.rs:25-39 | An index that the statistics skip stands for the reflection of a recorded position with a lower index and the same outcome. |
| `Publishing.PublishedCountsAddUp` | src/stats.rs:420-439 | At any depth, if exactly the rejected indices are invalid, published wins, draws, losses, redundant and invalid counts make up the index range, and histograms sum to wins and losses. |
| `Publishing.StatsForced` | src/finalization_stats.rs:25-57 | For a solved table, the published totals and histogram entries are the numbers of positions that legal play wins, loses or draws, in all and at each distance. |
| `Publishing.PublishedIndices` | src/finalization_stats.rs:25-57 | At any depth, the redundant count is that of skipped indices, and the three rejection counts are those of their reasons. |
| `Publishing.GeneratePair` | src/retrograde.rs:830-874 | With stored counters below 8192, the cell read back for every position of the stored tables is its forced outcome if and only if legal play decides no position beyond 8191 plies, if and only if the reported maxima are below 8192; then the published totals and histograms are the numbers of forced wins, losses and draws. At any depth the published counts make up the index range unless a counter is a positive multiple of 8192, and rejections are counted by reason. |
| `Chess.ReachesBack` | src/retrograde.rs:334-341 | Attacks of pieces are symmetric on boards that differ only at the two squares. |
| `Chess.ReachesAreWalks` | src/position.rs:69-74 | A piece attacks exactly the squares it meets first when it walks in its directions, given as displacements: one step for knights and kings, any number for the others. |
| `Chess.PawnAttacksAre` | src/position.rs:69-74 | White pawns attack the two squares diagonally above them, black pawns the two below. |
| `Chess.CheckIs` | src/position.rs:69-74 | The side not to move is in check exactly if a pawn stands diagonally before its king, on the side it comes from, or another piece walks to its king. |
| `Chess.EpCapturersAttack` | src/position.rs:42-66 | An en passant square is legal exactly if some pawn diagonally below it, seen by its side, can capture without leaving its king attacked. |
| `Positions.SetupIsChecked` | src/position.rs:42-89 | Among pawns inside the board exactly the valid states pass; opposite check is rejected first, then impossible en passant squares, last ones without a legal capture. |
| `ReverseMoves.UnmovesAreMoves` | src/retrograde.rs:325-412 | The moves taken back are exactly the legal quiet moves into the state, the forced double push for an EP state included. |
| `ReverseMoves.UnmoveIsUnique` | src/retrograde.rs:325-412 | A predecessor's board determines the move that was taken back. |
| `ReverseMoves.EmitPredecessors` | src/retrograde.rs:415-449 | All valid EP states of a board, each exactly once, none if the board is invalid. |
| `ReverseMoves.QuietUnmoves` | src/retrograde.rs:351-412 | Every valid state from which a legal quiet move leads here, each exactly once, and nothing else. |
| `ReverseMoves.PawnlessQuietUnmoves` | src/retrograde.rs:325-348 | The same for boards without pawns. |
| `PawnlessBoards.ReachesAlike` | src/retrograde.rs:334-341 | Attacks of all pieces but pawns are carried along by every reflection of the board. |
| `PawnlessBoards.CheckAlike` | src/position.rs:69-74 | Reflections of a pawnless board keep check. |
| `PawnlessBoards.StepsAlike` | src/retrograde.rs:325-348 | Legal quiet moves of a pawnless board are carried along by every reflection, in both directions. |
| `PawnlessBoards.PawnlessBoardIsRegular` | src/retrograde.rs:42-68 | The explicit board of all valid positions with given pieces and no pawns meets all that the symmetry argument asks: reflections act on positions, kings and quiet moves, and quiet moves stay on the board. |
| `PawnlessBoards.PredecessorsAreUnmoves` | src/retrograde.rs:325-348 | The predecessors on this board are exactly those from which the rules give a quiet move. |
| `PawnlessBoards.EmitUnmoves` | src/retrograde.rs:454-495 | Generator and diagonal adjustment together emit each canonical index exactly as often as the emission count says. |
| `PawnlessBoards.MovesAreListed` | src/retrograde.rs:499-529 | The legal moves of a position, in any order with conversions between, are distinct, lead to its quiet successors and move only the king they name, as the counter needs. |
| `Combinadics.BuildBinomials` | src/egt/indexer.rs:77-92 | The table filled by Pascal's rule holds the binomials. |
| `Combinadics.GroupDecodeIndex` | src/egt/indexer.rs:747-770 | Decoding the index of decreasing digits gives them back. |
| `Combinadics.GroupIndexDecode` | src/egt/indexer.rs:774-804 | A number below the binomial decodes to decreasing digits whose index it is. |
| `Combinadics.GroupIndexOrders` | src/egt/indexer.rs:747-773 | Groups are numbered in dictionary order of their decreasing digits. |
| `Combinadics.SearchFindsDigit` | src/egt/indexer.rs:784-790 | The binary search for x + 1 ends just above the greedy digit. |
| `Combinadics.MixedDecodeIndex` | src/egt/indexer.rs:747-804 | Decoding the mixed-radix index of a buffer gives its numbers back. |
| `Combinadics.MixedIndexDecode` | src/egt/indexer.rs:747-804 | Decoded numbers are digits of their groups, and their index is the number decoded. |
| `Combinadics.MixedIndexInRange` | src/egt/indexer.rs:747-770 | Indices stay below the leading range times the combinations. |
| `Combinadics.LeftoverInRange` | src/egt/indexer.rs:797-803 | Below the range, the number left over is a valid leading number. |
| `Combinadics.MixedIndexOrders` | src/egt/indexer.rs:747-773 | Indices order buffers by the leading number, then by the groups from first to last, each in dictionary order. |
| `Combinadics.CpidxToIndex` | src/egt/indexer.rs:747-770 | The encoding loop computes the mixed-radix index. |
| `Combinadics.IndexToCpidx` | src/egt/indexer.rs:774-804 | The decoding loop writes the digits in place and returns the leading number. |
| `Compaction.CompactIsInRange` | src/egt/indexer.rs:714-724 | Distinct numbers compact to v[i] < n - i. |
| `Compaction.UncompactCompact` | src/egt/indexer.rs:714-734 | Uncompacting undoes compacting. |
| `Compaction.CompactUncompact` | src/egt/indexer.rs:714-734 | Compacting undoes uncompacting, which gives distinct numbers in range. |
| `Compaction.CompactKeepsOrder` | src/egt/indexer.rs:714-724 | A group is strictly decreasing exactly when its compacted form is. |
| `Compaction.CompactPrefix` | src/egt/indexer.rs:492-505 | A compacted prefix does not depend on the numbers after it. |
| `Compaction.CompactPidx` | src/egt/indexer.rs:717-724 | The in-place loop compacts the first n numbers and leaves the rest. |
| `Compaction.UncompactCpidx` | src/egt/indexer.rs:726-734 | The in-place loop uncompacts the buffer. |
| `PawnMaps.RanksAreInjective` | src/egt/indexer.rs:217-227 | Different masks choose different ranks. |
| `PawnMaps.EnumerationIsExact` | src/egt/indexer.rs:217-244 | The recursion yields exactly the rank choices and EP states, an EP victim being the top pawn of its file on rank 5 beside a capturer. |
| `PawnMaps.EnumerationHasNoDuplicates` | src/egt/indexer.rs:217-244 | No configuration is enumerated twice. |
| `PawnMaps.EnumerationKeepsVariantsTogether` | src/egt/indexer.rs:217-244 | EP states stand directly after the same ranks. |
| `PawnMaps.MasksOrderRanks` | src/egt/indexer.rs:217-233 | Greater masks choose ranks that come later in dictionary order. |
| `PawnMaps.EnumerationAscends` | src/egt/indexer.rs:217-245 | The enumeration lists configurations in dictionary order of their ranks. |
| `PawnMaps.KeyIsInjective` | src/egt/indexer.rs:246-250 | Configurations of equally many pawns have different keys. |
| `PawnMaps.PawnMap.constructor` | src/egt/indexer.rs:207-215 | The map holds the enumeration and the last position of every key. |
| `PawnMaps.PawnMap.Insert` | src/egt/indexer.rs:258-262 | Appends a configuration and records its position. |
| `PawnMaps.PawnMap.EnumerateFrom` | src/egt/indexer.rs:217-244 | Appends exactly the configurations extending the chosen ranks. |
| `PawnMaps.PawnMap.Index` | src/egt/indexer.rs:252-256 | Exactly the configurations of the table are found, each at its own position. |
| `PawnReflections.ReflectedIsConfiguration` | src/egt/indexer.rs:574-592 | With symmetric pawns, the mirror image of a configuration is a configuration, EP included. |
| `PawnSetups.StructureIsConfiguration` | src/egt/indexer.rs:217-245 | The ranks of any pawn structure with the words of a table are one of its configurations; with an en passant file they are one exactly if a pawn on that file can be captured en passant in that structure. |
| `PawnSetups.ConfigurationIsStructure` | src/egt/indexer.rs:217-245 | Every configuration is that of exactly one pawn structure with the words of the table. |
| `KingPairs.ReducedPairs` | src/egt/indexer.rs:106-121 | Reduction gives a reduced pair, is the identity on reduced pairs, and keeps adjacency. |
| `KingPairs.ReducedInTriangle` | src/egt/indexer.rs:106-122 | A pair is reduced exactly if the first king stands on one of ten squares, a1 to d1, b2 to d2, c3, d3 and d4, and on the diagonal the second king stands on or to the right of it. |
| `KingPairs.CanonHasReducedKings` | src/egt/indexer.rs:653-671 | The representative that the symmetry argument picks has exactly the reduced kings that the indexer looks up. |
| `KingPairs.RepAmongPawns` | src/egt/indexer.rs:415-454 | Among symmetric pawns the representative has the king of the side to move on the higher square by files; among other pawns every position stands for itself. |
| `KingPairs.SymmetricPairsReduceAlike` | src/egt/indexer.rs:106-121 | All eight symmetric pairs reduce to the same pair. |
| `KingPairs.PairsAre` | src/egt/indexer.rs:147-175 | The table contains exactly the reduced pairs of kings that are not adjacent. |
| `KingPairs.PairsAreAscending` | src/egt/indexer.rs:147-178 | The table lists pairs by the square of the first king, then of the second. |
| `KingPairs.PairCount` | src/egt/indexer.rs:123-124 | There are 462 of them. |
| `KingPairs.KingIndexIsInverse` | src/egt/indexer.rs:130-145 | Numbers and pairs correspond one to one. |
| `KingPairs.KingsMap.constructor` | src/egt/indexer.rs:147-175 | The loops build the sorted table, its inverse and the diagonal marks. |
| `KingPairs.KingsMap.MapKings` | src/egt/indexer.rs:736-740 | A pair is found exactly when it is reduced and not adjacent, below 462. |
| `Indexer.DecodeEncode` | src/egt/indexer.rs:417-522 | Encoding a canonical placement stays in range and decoding gives the placement back. |
| `Indexer.EncodeDecode` | src/egt/indexer.rs:417-522 | Every index below the range decodes to a canonical placement that encodes to it. |
| `Sorting.SortForgetsOrder` | src/egt/indexer.rs:671-676 | Sorting equal pieces is insensitive to the order they were read in. |
| `Placements.DecodeIndex` | src/egt/indexer.rs:395-522 | Decoding the index of any placement gives its canonical representative. |
| `Placements.IndexDecode` | src/egt/indexer.rs:395-522 | Encoding the placement of any index gives the index. |
| `Placements.SameIndex` | src/egt/indexer.rs:395-454 | Placements share an index exactly when they have the same representative. |
| `Placements.SamePiecesShareIndex` | src/egt/indexer.rs:671-676 | The order in which equal pieces are read does not matter. |
| `Placements.ReflectedIsPlacement` | src/egt/indexer.rs:395-413 | The mirror image of a placement in a symmetric pawn table is a placement of the table, and reflects back. |
| `Placements.ReflectionsShareIndex` | src/egt/indexer.rs:395-413 | Both reflections of a placement in a symmetric pawn table share an index. |
| `Placements.SymmetriesShareIndex` | src/egt/indexer.rs:653-669 | All eight symmetric pawnless placements share an index unless both kings stand on a long diagonal; the reflections always do. |
| `Placements.DiagonalSymmetricIs` | src/egt/indexer.rs:524-572 | The diagonal index exists exactly for kings on a long diagonal and is the index of every transposed placement. |
| `Placements.DiagonalSymmetricTwice` | src/egt/indexer.rs:538-572 | Diagonal symmetry is an involution on indices. |
| `PositionIndexer.ReduceSymmetries` | src/egt/indexer.rs:653-669 | The in-place flips are the reducing symmetry of the kings. |
| `PositionIndexer.SortRepeated` | src/egt/indexer.rs:671-676 | Sorts the squares of each group from the highest number down. |
| `PositionIndexer.ComputePieceSquares` | src/egt/indexer.rs:371-383 | Each group chooses among the squares left by the pieces before it. |
| `PositionIndexer.SliceOfIndex` | src/egt/indexer.rs:486-491 | Quotient and remainder by the combinations are the slice and the index within it. |
| `PositionIndexer.Tables.constructor` | src/egt/indexer.rs:304-358 | Builds groups, combinations and lookup tables of a plan. |
| `PositionIndexer.Tables.PositionToIndex` | src/egt/indexer.rs:395-454 | The encoder computes the index of the placement in its coordinates. |
| `PositionIndexer.Tables.SetupFromIndex` | src/egt/indexer.rs:482-522 | The decoder writes the squares and the EP file of the index. |
| `PositionIndexer.Tables.DiagonalSymmetricOf` | src/egt/indexer.rs:538-572 | The fast path and the re-encoding compute the diagonal index. |
| `PositionIndexer.Tables.OnDiagonalFast` | src/egt/indexer.rs:543-549 | The leading number alone tells whether both decoded kings are on the diagonal. |
| `FrameCodec.TransposeFrame` | src/egt_file.rs:965-985 | Low bytes first, then the high bytes of the long words, then zeros. |
| `FrameCodec.DetransposeFrame` | src/egt_file.rs:988-1003 | Reads a frame back; the second cursor stays inside the buffer for any bytes. |
| `FrameCodec.RoundTrip` | src/egt_file.rs:965-1003 | A frame is read back exactly when every word is 0, 1 or has a low byte of at least 2. |
| `FrameCodec.UnknownsAreNotAlwaysCodable` | src/egt_file.rs:965-1003 | An unresolved cell is read back exactly when its counter is not a multiple of 32. |
| `Finalization.StoredTableReadsBack` | src/finalization.rs:30-48 | Every word of a working array is read back from its frame as its outcome, unknowns as draws. |
| `Finalization.FramesConcat` | src/finalization.rs:74-92 | Batches of whole frames give the frames of the whole table. |
| `Finalization.MergeIsSequential` | src/finalization_stats.rs:75-92 | Merging the statistics of consecutive batches is one sequential pass. |
| `Finalization.HistogramsSumToTotals` | src/finalization_stats.rs:25-60 | Each histogram sums to its total. |
| `Finalization.CandidatesAre` | src/finalization_stats.rs:55-58 | The examples are exactly the nonredundant indices of the longest wins and losses. |
| `Finalization.StatsCountIndices` | src/finalization_stats.rs:25-57 | The totals of wins, losses and draws, and every entry of both histograms, are the numbers of recorded indices with that outcome and distance. |
| `Finalization.StatsCountRedundant` | src/finalization_stats.rs:33-39 | The redundant total is the number of skipped indices. |
| `Finalization.OutcomesAddUp` | src/stats.rs:420-439 | Wins, draws, losses, redundant and rejected indices make up the table. |
| `Finalization.TableStats.RecordOutcome` | src/finalization_stats.rs:25-60 | One outcome enters the statistics as the specification records it. |
| `Finalization.TableStats.Merge` | src/finalization_stats.rs:75-92 | Adds the statistics of the next batch. |
| `Finalization.FinalizeBatch` | src/finalization.rs:18-63 | One batch gives its frames in order and its statistics, unknowns as draws. |
| `Finalization.FinalizeTable` | src/finalization.rs:65-98 | Refuses a wrong length; otherwise frames and statistics are those of one sequential pass, for any number of threads. |
| `CacheMemories.CacheMemory.RecordAccess` | src/egt_file.rs:391-427 | Stamps the frame, tracks it once, and reports an exceeded limit. |
| `CacheMemories.CacheMemory.Victim` | src/egt_file.rs:429-447 | A victim is chosen exactly above the limit, and it is the least recently used frame. |
| `CacheMemories.CacheMemory.RemoveUntouched` | src/egt_file.rs:452-486 | Removes an entry exactly if its stamp is the one it was chosen with; sizes stay the sum of the entries. |
| `CacheMemories.CacheMemory.ForgetFile` | src/egt_file.rs:490-507 | Drops exactly the entries of the file and their bytes. |
| `CacheMemories.OverLimitHasFrames` | src/egt_file.rs:448-452 | Above the limit there is always a frame to evict. |
| `CacheMemories.OldestIsLeastRecent` | src/egt_file.rs:391-448 | After any list of accesses, every other tracked frame was accessed later than the oldest one, or neither was and it has the older stamp. |
| `FrameCache.StepKeeps` | src/egt_file.rs:194-534 | Every step of every thread keeps accounting, residency, tracking and locks consistent. |
| `FrameCache.RunsKeepInvariant` | src/egt_file.rs:194-534 | The invariant holds in every state of every interleaving. |
| `FrameCache.TrackedIsResident` | src/egt_file.rs:391-486 | While nobody writes a registered file, exactly its tracked frames are in memory. |
| `FrameCache.ErrorsNeedUnstoredFiles` | src/egt_file.rs:448-482 | The internal errors of eviction are unreachable for disk-backed files. |
| `FrameCache.ProbesReturnStored` | src/egt_file.rs:240-349 | A probe that began with a lookup of a name and completes returns, for each frame asked for, what was stored in the file the name denoted then, whatever was evicted, replaced or removed meanwhile. |
| `FrameCache.StepServes` | src/egt_file.rs:240-349 | A thread works on the request it began with until it returns, whatever the others do. |
| `FrameCache.OldStampsAreUntouched` | src/egt_file.rs:391-427 | Entries with stamps from before a step are unchanged by it, and stored frames never change. |
| `FrameCache.EvictedIsUnused` | src/egt_file.rs:466-486 | A frame evicted with the stamp it was chosen with was neither used nor removed since. |
| `FrameCache.EvictedIsOldest` | src/egt_file.rs:429-488 | In every run, whatever the other threads do between choice and eviction, an evicted frame is the least recently used one when it goes. |
| `FrameCache.EnforcingReachesLimit` | src/egt_file.rs:429-448 | A thread stops evicting only with the resident bytes within the limit. |
| `FrameCache.IdleIsWithinLimit` | src/egt_file.rs:240-448 | In every run, whenever all threads are idle the resident bytes, the sum over the tracked frames, are within the limit. |
| `FrameCache.DroppedIsForgotten` | src/egt_file.rs:490-534 | In every run, a thread that removes or replaces a file forgets all its frames in its next step, whatever the other threads do until then, and the name no longer denotes the file. |
| `FrameCache.ResizeEnforces` | src/egt_file.rs:180-186 | A thread that sets a limit goes on to evict under it. |
| `PawnKeys.TwinAlgebra` | src/table_id.rs:392-414 | Twin and reflection are involutions that commute. |
| `PawnKeys.TwinPacked` | src/table_id.rs:402-414 | The bit loop computes the bits of the twin word. |
| `PawnKeys.FilesMirror` | src/table_id.rs:463-475 | Reflecting a key mirrors the sorted file lists of both sides. |
| `PawnKeys.CanonicalizedPicksOne` | src/table_id.rs:416-437 | Exactly one of a key and its reflection is canonical, and it stands for both. |
| `Wrappers.LessComesBefore` | src/table_id.rs:467-475 | Lists are compared at the first entry where they differ, a prefix before its extensions. |
| `PawnKeys.CanonicalIsLeast` | src/table_id.rs:416-437 | The canonical key is the smaller of a key and its mirror by the files of the pawns to move, at a tie by those of the other side, at a second tie by the packed words, each compared at the first entry where they differ. |
| `PawnKeys.LonePawn` | src/table_id.rs:416-437 | A lone pawn of either side is canonical exactly on the files a to d, and is seen there in the mirror from the others. |
| `PawnKeys.QuietMovesTwin` | src/table_id.rs:370-414 | Any quiet move takes the key of a position to the twin key, so quiet play stays in the pair. |
| `PawnKeys.PromotionKeepsPairs` | src/table_id.rs:117-125 | Taking the top pawn off its file keeps the opposing pairs. |
| `TableNames.FlagsDetermineWord` | src/table_id.rs:284-325 | The ordered flags of both sides determine the colours of all pawns of a file, for any length. |
| `TableNames.SidesAreMarkedAlike` | src/table_id.rs:117-125 | Both sides carry one mark for each opposing pair. |
| `TableNames.FindOrder` | src/table_id.rs:286-310 | The search over words finds the only word with the given flags. |
| `TableNames.ReadBack` | src/table_id.rs:236-272 | The text of a side is read back as its pieces and flags. |
| `TableNames.Parse` | src/table_id.rs:226-325 | Exactly the names of materials are accepted, each giving its material. |
| `TableIds.NamesAreDistinct` | src/table_id.rs:190-223 | Different materials have different names. |
| `BoardNames.LettersArePieces` | src/table_id.rs:190-223 | In the part of the name for a side, K, Q, R, B and N occur as often as the side has kings, queens, rooks, bishops and knights on the board, and each letter a to h as often as it has pawns on that file. |
| `BoardNames.PairsAreFacing` | src/table_id.rs:190-223 | The opposing pairs of a file are its pawns of the side to move whose next pawn ahead is an enemy. |
| `BoardNames.MarksAreOpposed` | src/table_id.rs:116-125 | The marks in either part of the name count the pawns of that side whose next pawn ahead on the file is an enemy, the same number for both sides. |
| `BoardNames.GroupOfBoard` | src/table_id.rs:110-147 | The group of a board is the larger and the smaller number of pieces of a side, its opposed pawns and its pawns. |
| `BoardNames.PositionTableName` | src/table_id.rs:150-171 | A board is routed exactly if it has at most eight pieces, to the name of the table of its pawns and pieces, which is a canonical one for a board with both kings. |
| `BoardNames.LonePawnTable` | src/table_id.rs:416-437 | King and pawn against king is the table KPa_K, KPb_K, KPc_K or KPd_K; the names with e to h are no tables. |
| `TableIds.FormatName` | src/table_id.rs:190-223 | The nested loops write the name of the material. |
| `TableIds.ParseTable` | src/table_id.rs:52-62 | Exactly the names of canonically oriented materials are accepted. |
| `TableIds.TwinTableTwice` | src/table_id.rs:92-109 | The twin of a table is a table of the same generation group, and its twin is the table. |
| `TableIds.PromotionStaysInGroup` | README.md:302-309 | A promotion without capture leads to the same pieces, split and opposing pairs with one pawn less. |
| `TableOrder.LettersAreCounts` | src/table_id.rs:110-116 | Counting upper-case letters and letters P of a name counts its pieces and pawns. |
| `TableOrder.LettersSort` | src/table_id.rs:24-48 | In the order of names, letters sort as K, Q, R, B, N, P, then the separator, then the files from a to h. |
| `TableOrder.MarksAreDropped` | src/table_id.rs:24-36 | The order of names ignores marks and keeps every other letter at its place. |
| `TableOrder.CompareIs` | src/table_id.rs:24-48 | The order of tables compares pieces, then pawns, then the names without marks in dictionary order, then the elements. |
| `TableOrder.ElementsAreSorted` | src/piece_set.rs:34-48 | The elements of a table by file, then by role and side, are strictly ascending in the element order. |
| `TableOrder.PawnFilesCompare` | src/piece_set.rs:34-48 | Equally many pawns on a file compare at the lowest pawn whose side differs, the side to move first. |
| `TableOrder.ElementsDiffer` | src/piece_set.rs:14-25 | The sorted elements determine the table. |
| `TableOrder.OrderIsLinear` | src/table_id.rs:25-49 | The order of tables is linear and antisymmetric, and only equal tables tie, although names are compared without their marks. |
| `TableOrder.SimplerComesFirst` | src/table_id.rs:25-49 | A table with fewer pieces, or as many pieces and fewer pawns, comes first. |
| `Conversions.RoutedTable` | src/table_id.rs:141-160 | The table a position is routed to is canonical and has the pieces, pawns and group of the position. |
| `Conversions.WordIsByRank` | src/table_id.rs:370-390 | A pawn stands in the word of its file after the pawns on lower ranks. |
| `BoardConversions.OtherSide` | src/table_id.rs:150-171 | The setup of a board seen by the other side is the setup with the move passed. |
| `BoardConversions.PackFile` | src/table_id.rs:370-390 | The loops over the pawns of a file compute the packed word: a marker above one bit per pawn, set for enemy pawns. |
| `BoardConversions.KeyOfBoard` | src/table_id.rs:370-390 | The packed words of all files of a board. |
| `BoardConversions.PiecesOnBoard` | src/table_id.rs:110-115 | The table of a board has as many pieces as the board. |
| `BoardConversions.MoveIsConversion` | src/retrograde.rs:608-613 | Playing any legal capture, en passant capture or promotion on a board does to the pawns of every file and rank and to the counts of all pieces exactly what its conversion does, and the opponent sees the successor. |
| `BoardConversions.MoveSimplifies` | src/table_id.rs:24-48 | After such a move the board belongs to a simpler table, with one piece less exactly for captures. |
| `BoardConversions.QuietMoveOnBoard` | src/table_id.rs:92-109 | A legal quiet move on a board pushes one pawn on its file over empty squares or leaves the pawns alone, and keeps all counts. |
| `BoardConversions.QuietMoveLeadsToTwin` | src/table_id.rs:92-171 | The board after a legal quiet move belongs to the twin table. |
| `Conversions.QuietLeadsToTwin` | src/table_id.rs:370-437 | Every quiet move leads to the twin of the table the position is routed to. |
| `Conversions.CaptureLosesPiece` | README.md:302-309 | A capture of any kind, by a piece or a pawn, en passant or with promotion, leads to a canonical table with exactly one piece less. |
| `Conversions.PromotionLosesPawn` | README.md:302-309 | On the board, a promotion without capture leads to a canonical table of the same pieces, split and opposing pairs with one pawn less. |
| `Conversions.ConversionSimplifies` | src/selection.rs:1-16 | Every conversion leads to a table with fewer pieces, or as many pieces and fewer pawns. |
| `GenerationPlans.TwinsShareAPair` | src/selection.rs:326-338 | Twins have one pair, the smaller table first; a self-twin stands alone. |
| `GenerationPlans.NewPlan` | src/selection.rs:326-344 | The loop builds exactly the pairs of the given tables, strictly ascending by their first table. |
| `GenerationPlans.PlanIsDetermined` | src/selection.rs:326-344 | A plan does not depend on the order of the tables, on duplicates, or on which twin was selected. |
| `GenerationPlans.PlanIsTopological` | src/selection.rs:8-16 | For any selection, the pair of a capture or promotion successor of a table or of its twin stands strictly before their pair. |
| `GenerationPlans.SelectedArePlanned` | src/selection.rs:326-344 | Every selected table and its twin are in the plan, in one pair. |

## Left out

- Zstandard compression, seek tables, object stores, uploads and hashing: a stored frame is the byte sequence the codec produces.
- Move generation of the chess library: the solver chain takes legal moves as sets that reflections carry along (`Boards.Regular`, `SolvedTables.Represents`). For boards without pawns the rules themselves give such a board (`PawnlessBoards.PawnlessBoardIsRegular`); for boards with pawns, where only the file reflection acts, `Boards.Regular` stays a hypothesis and the rules serve the reverse moves only.
- The link between `Placements` and `SolvedTables.Layout`: the chain takes the numbering of canonical positions as given by the layout, and the indexer is proved separately to be such a numbering of placements.
- FEN and square-set conversion: placements are lists of squares with colours and ranks normalized to the side to move, and the file of a legal en passant capture is an input.
- `reflected_position_to_index` for tables with asymmetric pawns: the mirrored position is the ordinary placement of the mirrored plan.
- Memory ordering below one atomic cell: each update touches one cell and phases join, so steps are atomic loads and exchanges.
- Concurrent initialization, and parallel collection of batches: each worker owns its chunk, so the loops are sequential here.
- Initialization.InitializeOpen: the move counter is an unbounded number until it is stored in a word, while the source counts legal moves in 16 bits.
- ConcurrentPlies.ConcurrentRunSolves: a run is a finite sequence of plies that ends with a quiet one; that workers finish their updates is not claimed, and from ply 8192 on different schedules may leave different words (`Interleaving.DeepMarksRace`).
- Failing reads of a whole block during verification, and the text of diagnostics: a successor that cannot be read is a failure of its entry.
- PositionIndexer.SortRepeated: the library sort is replaced by a specification of sorting that is written back in place.
- Indexer.EncodeDecode: the limit of eight pieces is not used; any plan that fits 64 squares is covered.
- FrameCache.StepKeeps: clearing the whole cache, which is documented to run only after workers have joined, is not a step; the 64-bit clock and sizes do not wrap; reads of several frames take any list of frames; poisoned locks are not modelled.
- FrameCache.RunsKeepInvariant: safety only; that an evictor ends while others keep loading is not claimed.
- TableNames.Parse: an element list is modelled as its contents, a colour word per file and counts per role and side, so sorting of elements and duplicate groups do not arise; only the reason of an error is kept, not its wording.
- Selectors: their grammar, the enumeration of tables that match one, and error wording; a plan is built from any list of tables.
- Conversions.CaptureLosesPiece: a conversion is given by the pawns and piece kinds it involves; squares of other pieces and checks are not needed, so moves that chess forbids for these reasons are included. `BoardConversions.MoveIsConversion` finds every move that is legal on a board among them.
- GenerationPlans.NewPlan: the ordered map of the library is a sorted list with insertion.
- Castling, command line, server, statistics files and their caches.

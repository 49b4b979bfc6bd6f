/** What generating a pair leaves in its stored tables and their statistics. */
module Publishing {
  import opened Boards
  import opened Cells
  import opened Checker
  import opened Finalization
  import opened FrameCodec
  import opened Initialization
  import opened Propagation
  import opened Retrograde
  import Scans
  import opened SolvedPair
  import opened SolvedTables
  import opened WordRows
  import opened Wrappers

  /** The cell an index is read back as from the stored frames of a table. */
  function StoredCell(frames: seq<seq<Byte>>, n: nat, size: nat, i: nat): Option<Cell>
    requires size > 0 && i < n
  {
    match ReadWord(frames, n, size, i)
    case None => None
    case Some(w) => Some(Unpack(w))
  }

  /** The outcome of an index is stored, and it is the forced one. */
  ghost predicate StoresForced<X(!new)>(l: Layout<X>, p: Pair, r: Ref, c: Option<Cell>)
    requires Represents(l, p) && WellFormed(ForwardGame(l, p)) && r in Positions(p)
  {
    c.Some? && IsForced(l, p, r, c.value)
  }

  /** The stored tables of solved words hold the forced outcomes of their positions. */
  lemma StoredIsForced<X(!new)>(l: Layout<X>, p: Pair, rows: Rows, ws: WordRow, maxWin: seq<nat>, maxLoss: seq<nat>,
                                size: nat, r: Ref)
    requires Represents(l, p) && p.Valid() && CountersBalanced(p) && Solved(p, rows, maxWin, maxLoss)
             && r in Positions(p)
    requires rows[r.slot] == Unpacked(ws) && size > 0
    ensures WellFormed(ForwardGame(l, p)) && r.index < |ws|
    ensures StoresForced(l, p, r, StoredCell(EncodedFrames(FinalWords(ws), size), |ws|, size, r.index))
  {
    hide Represents, CountersBalanced, IsForced, ForwardGame, WellFormed, Accepts, EncodedFrames, FinalWords;
    hide ReadWord, Unpack;
    SolvedIsForced(l, p, rows, maxWin, maxLoss, r);
    StoredTableReadsBack(ws, size, r.index);
  }

  /** Whether the statistics skip an index. */
  predicate IsRedundant(p: Pair, r: Ref) {
    && p.HasSlot(r.slot) && r.index < |p.tables[r.slot].diagonal|
    && Redundant(p.tables[r.slot].diagonal, r.index)
  }

  /** An index that the statistics skip stands for the reflection of a position whose
      index, a lower one, they record with the same outcome. */
  lemma RedundantOutcome<X(!new)>(l: Layout<X>, p: Pair, rows: Rows, maxWin: seq<nat>, maxLoss: seq<nat>, r: Ref)
    requires Represents(l, p) && p.Valid() && CountersBalanced(p) && Solved(p, rows, maxWin, maxLoss)
             && r in Positions(p)
    requires IsRedundant(p, r)
    ensures InLayout(l, r.slot, r.index)
    ensures ReflectedRef(l, r) in Positions(p) && !IsRedundant(p, ReflectedRef(l, r))
    ensures ReflectedRef(l, r).slot == r.slot && ReflectedRef(l, r).index < r.index
    ensures FinishedCells(p, rows)[ReflectedRef(l, r)] == FinishedCells(p, rows)[r]
  {
    hide Accepts, WellFormed, CountersBalanced, Represents, ReflectedRef, FinishedCells, Pair.Valid;
    PartnerIs(l, p, r);
    ReflectedRefIsPosition(l, p, r);
    PartnerIs(l, p, ReflectedRef(l, r));
    OutcomesAreSymmetric(l, p, Readings(FinishedCells(p, rows)), r);
    SameReading(p, rows, r, ReflectedRef(l, r));
  }

  lemma PartnerIs<X(!new)>(l: Layout<X>, p: Pair, r: Ref)
    requires Represents(l, p) && r in Positions(p)
    ensures p.HasSlot(r.slot) && r.index < |p.tables[r.slot].diagonal| && InLayout(l, r.slot, r.index)
    ensures p.tables[r.slot].diagonal[r.index].Some? ==>
              Ref(r.slot, p.tables[r.slot].diagonal[r.index].value) == ReflectedRef(l, r)
  {
    hide Regular, Indexed, Played, TableFits;
    PositionsAreLayout(l, p, r);
    FittingDiagonal(l, p, r.slot, r.index);
    ReflectedRefIsPosition(l, p, r);
  }

  /** Cells with equal outcomes are equal. */
  lemma SameReading(p: Pair, rows: Rows, r: Ref, r': Ref)
    requires p.Valid() && Shaped(p, rows) && r in Positions(p) && r' in Positions(p)
    requires Readings(FinishedCells(p, rows)).Keys == Positions(p)
    requires Readings(FinishedCells(p, rows))[r] == Readings(FinishedCells(p, rows))[r']
    ensures FinishedCells(p, rows)[r] == FinishedCells(p, rows)[r']
  {
  }

  datatype Published = Published(frames: seq<seq<Byte>>, stats: Stats, invalid: InvalidCounts)

  /** The counts published for a table make up its index range, and its histograms its
      wins and losses. */
  ghost predicate AddsUp(t: Published, n: nat) {
    && t.stats.win + t.stats.draw + t.stats.loss + t.stats.redundant + t.invalid.Total() == n
    && UpTo(t.stats.winPlies, 0x2000) == t.stats.win && UpTo(t.stats.lossPlies, 0x2000) == t.stats.loss
  }

  /** At any depth, counts add up if exactly the rejected indices are invalid. */
  lemma PublishedCountsAddUp(t: Table, row: Row, ws: WordRow, published: Published, info: TableInfo)
    requires row == Unpacked(ws) && RowRejects(t.entries, row) && TableCounted(t, published.invalid)
    requires info.diagonal == t.diagonal && published.stats == StatsOf(FinalWords(ws), 0, info)
    ensures AddsUp(published, |ws|)
  {
    hide FinalWords, StatsOf, RejectedBefore, Unpack;
    forall i | 0 <= i < |ws| ensures Unpack(ws[i]).Invalid? <==> t.entries[i].Rejected? {
      assert row[i] == Unpack(ws[i]);
    }
    OutcomesAddUp(t, ws, |ws|, info);
    assert ws[..|ws|] == ws;
    HistogramsSumToTotals(FinalWords(ws), 0, info);
  }

  /** The stored table holds the forced outcome of every position. */
  ghost predicate TableIsForced<X(!new)>(l: Layout<X>, p: Pair, slot: nat, size: nat, t: Published)
    requires Represents(l, p) && p.Valid() && p.HasSlot(slot) && size > 0 && WellFormed(ForwardGame(l, p))
  {
    forall r | r in Positions(p) && r.slot == slot ::
      StoresForced(l, p, r, StoredCell(t.frames, |p.tables[slot].entries|, size, r.index))
  }

  /** The stored tables hold the forced outcomes of all positions. */
  ghost predicate PairIsForced<X(!new)>(l: Layout<X>, p: Pair, size: nat, tables: seq<Published>)
    requires Represents(l, p) && p.Valid() && size > 0 && WellFormed(ForwardGame(l, p)) && |tables| == |p.tables|
  {
    forall slot | 0 <= slot < |tables| :: TableIsForced(l, p, slot, size, tables[slot])
  }

  /** No stored table holds an outcome at a distance that does not fit. */
  lemma StoredPairIsShallow<X(!new)>(l: Layout<X>, p: Pair, size: nat, tables: seq<Published>)
    requires Represents(l, p) && p.Valid() && size > 0 && WellFormed(ForwardGame(l, p)) && |tables| == |p.tables|
    requires PairIsForced(l, p, size, tables)
    ensures DepthFits(ForwardGame(l, p))
  {
    hide Represents, WellFormed, ForwardGame, ReadWord, BestForced, BestHeld, NothingForced, Unpack, Pair.Valid;
    GamesHavePositions(l, p);
    var g := ForwardGame(l, p);
    forall r, ct, n: nat | r in g && (BestForced(g, r, ct, n) || BestHeld(g, r, ct, n)) ensures n < 0x2000 {
      assert TableIsForced(l, p, r.slot, size, tables[r.slot]);
      var c := StoredCell(tables[r.slot].frames, |p.tables[r.slot].entries|, size, r.index);
      assert StoresForced(l, p, r, c);
      UnpackedFits(ReadWord(tables[r.slot].frames, |p.tables[r.slot].entries|, size, r.index).value);
    }
  }

  // ---------------------------------------------------------------------
  // What the published numbers count.

  /** Legal play decides the position so, or leaves it drawn. */
  ghost predicate PlayGives(g: Game<Ref>, r: Ref, kind: Kind)
    requires WellFormed(g) && r in g
  {
    match kind
    case OfWin => exists ct, n :: BestForced(g, r, ct, n)
    case OfLoss => exists ct, n :: BestHeld(g, r, ct, n)
    case OfDraw => NothingForced(g, r)
    case OfWinAt(n) => exists ct :: BestForced(g, r, ct, n)
    case OfLossAt(n) => exists ct :: BestHeld(g, r, ct, n)
  }

  /** The positions of a table that play decides so, one per pair of diagonal reflections. */
  ghost function ForcedIndices(g: Game<Ref>, slot: nat, diagonal: seq<Option<nat>>, kind: Kind): set<nat>
    requires WellFormed(g)
  {
    set i: nat | i < |diagonal| && !Redundant(diagonal, i) && Ref(slot, i) in g && PlayGives(g, Ref(slot, i), kind)
  }

  /** The published numbers are those of the wins, draws and losses that legal play forces,
      in all and per distance. */
  ghost predicate StatsAreForced(g: Game<Ref>, slot: nat, diagonal: seq<Option<nat>>, s: Stats)
    requires WellFormed(g)
  {
    && s.win == |ForcedIndices(g, slot, diagonal, OfWin)|
    && s.draw == |ForcedIndices(g, slot, diagonal, OfDraw)|
    && s.loss == |ForcedIndices(g, slot, diagonal, OfLoss)|
    && (forall n :: CountAt(s.winPlies, n) == |ForcedIndices(g, slot, diagonal, OfWinAt(n))|)
    && (forall n :: CountAt(s.lossPlies, n) == |ForcedIndices(g, slot, diagonal, OfLossAt(n))|)
  }

  /** A cell of the kind: the outcome read from a word of the kind. */
  predicate IsCellKind(c: Cell, kind: Kind) {
    match kind
    case OfWin => c.Won?
    case OfLoss => c.Lost?
    case OfDraw => c == Drawn
    case OfWinAt(n) => c.Won? && c.plies == n
    case OfLossAt(n) => c.Lost? && c.plies == n
  }

  lemma KindOfCell(w: CellWord, kind: Kind)
    ensures IsKind(FinalWord(w), kind) <==> IsCellKind(Finished(Unpack(w)), kind)
  {
    FinalWordOf(w);
  }

  lemma ForcedKind<X(!new)>(l: Layout<X>, p: Pair, r: Ref, c: Cell, kind: Kind)
    requires Represents(l, p) && WellFormed(ForwardGame(l, p)) && r in Positions(p) && r in ForwardGame(l, p)
    requires IsForced(l, p, r, c)
    ensures IsCellKind(c, kind) <==> PlayGives(ForwardGame(l, p), r, kind)
  {
    hide BestForced, BestHeld, NothingForced, ForwardGame, WellFormed, Represents;
    if c.Won? {
      assert c == Won(c.ct, c.plies);
    }
    if c.Lost? {
      assert c == Lost(c.ct, c.plies);
    }
  }

  /** The word written for an index is of a kind exactly if play gives its position. */
  lemma WrittenKind<X(!new)>(l: Layout<X>, p: Pair, rows: Rows, ws: WordRow, maxWin: seq<nat>, maxLoss: seq<nat>,
                             r: Ref, kind: Kind)
    requires Represents(l, p) && p.Valid() && CountersBalanced(p) && Solved(p, rows, maxWin, maxLoss)
    requires p.HasSlot(r.slot) && rows[r.slot] == Unpacked(ws) && r.index < |ws| == |p.tables[r.slot].entries|
    requires WellFormed(ForwardGame(l, p)) && ForwardGame(l, p).Keys == Positions(p)
    ensures IsKind(FinalWord(ws[r.index]), kind)
            <==> r in ForwardGame(l, p) && PlayGives(ForwardGame(l, p), r, kind)
  {
    hide Represents, CountersBalanced, Pair.Valid, ForwardGame, WellFormed, IsForced, PlayGives, Unpack, FinalWord;
    hide IsKind, Accepts, EmissionGame;
    var w := ws[r.index];
    assert rows[r.slot][r.index] == Unpack(w);
    KindOfCell(w, kind);
    if r in Positions(p) {
      SolvedIsForced(l, p, rows, maxWin, maxLoss, r);
      ForcedKind(l, p, r, Finished(Unpack(w)), kind);
    }
  }

  /** The statistics of a solved table count what legal play forces. */
  lemma StatsForced<X(!new)>(l: Layout<X>, p: Pair, rows: Rows, ws: WordRow, maxWin: seq<nat>, maxLoss: seq<nat>,
                             slot: nat, info: TableInfo)
    requires Represents(l, p) && p.Valid() && CountersBalanced(p) && Solved(p, rows, maxWin, maxLoss)
    requires p.HasSlot(slot) && rows[slot] == Unpacked(ws)
    requires |ws| == |p.tables[slot].entries| == |info.diagonal|
    requires WellFormed(ForwardGame(l, p)) && ForwardGame(l, p).Keys == Positions(p)
    ensures StatsAreForced(ForwardGame(l, p), slot, info.diagonal, StatsOf(FinalWords(ws), 0, info))
  {
    hide Represents, CountersBalanced, Solved, Pair.Valid, ForwardGame, WellFormed, PlayGives, StatsOf, FinalWord;
    hide IsKind, Redundant, Unpacked, Positions;
    var g := ForwardGame(l, p);
    var stats := StatsOf(FinalWords(ws), 0, info);
    forall kind ensures Recording(stats, kind) == |ForcedIndices(g, slot, info.diagonal, kind)| {
      StatsCountIndices(FinalWords(ws), 0, info, kind);
      forall i: nat | i < |ws|
        ensures IsKind(FinalWords(ws)[i], kind) <==> Ref(slot, i) in g && PlayGives(g, Ref(slot, i), kind)
      {
        WrittenKind(l, p, rows, ws, maxWin, maxLoss, Ref(slot, i), kind);
      }
      assert IndicesOf(FinalWords(ws), 0, info, kind) == ForcedIndices(g, slot, info.diagonal, kind);
    }
    KindsAreForced(g, slot, info.diagonal, stats);
  }

  lemma KindsAreForced(g: Game<Ref>, slot: nat, diagonal: seq<Option<nat>>, s: Stats)
    requires WellFormed(g)
    requires forall kind :: Recording(s, kind) == |ForcedIndices(g, slot, diagonal, kind)|
    ensures StatsAreForced(g, slot, diagonal, s)
  {
    hide ForcedIndices, WellFormed;
    assert Recording(s, OfWin) == s.win && Recording(s, OfDraw) == s.draw && Recording(s, OfLoss) == s.loss;
    forall n
      ensures CountAt(s.winPlies, n) == |ForcedIndices(g, slot, diagonal, OfWinAt(n))|
      ensures CountAt(s.lossPlies, n) == |ForcedIndices(g, slot, diagonal, OfLossAt(n))|
    {
      assert Recording(s, OfWinAt(n)) == CountAt(s.winPlies, n) && Recording(s, OfLossAt(n)) == CountAt(s.lossPlies, n);
    }
  }

  /** The published numbers of skipped indices and of rejections by reason. */
  ghost predicate CountsIndices(t: Published, table: Table)
    requires |table.entries| == |table.diagonal|
  {
    var n := |table.entries|;
    && t.stats.redundant == |RedundantIndices(table.diagonal, 0, n)|
    && t.invalid.oppositeCheck == |RejectedFor(table, n, Rejection.OppositeCheck)|
    && t.invalid.epSquaresOccupied == |RejectedFor(table, n, EpSquaresOccupied)|
    && t.invalid.illegalEpCapture == |RejectedFor(table, n, IllegalEpCapture)|
  }

  /** The published numbers of a table count what legal play forces. */
  ghost predicate NumbersAreForced<X(!new)>(l: Layout<X>, p: Pair, slot: nat, t: Published)
    requires Represents(l, p) && p.HasSlot(slot) && WellFormed(ForwardGame(l, p))
  {
    StatsAreForced(ForwardGame(l, p), slot, p.tables[slot].diagonal, t.stats)
  }

  lemma PublishedIndices(t: Table, ws: WordRow, published: Published, info: TableInfo)
    requires TableCounted(t, published.invalid) && |ws| == |t.entries| && info.diagonal == t.diagonal
    requires published.stats == StatsOf(FinalWords(ws), 0, info)
    ensures CountsIndices(published, t)
  {
    hide FinalWord, StatsOf, RejectedBefore, RedundantIndices, RejectedFor;
    StatsCountRedundant(FinalWords(ws), 0, info);
    RejectionsByReason(t, |t.entries|);
  }

  lemma PublishedTable<X(!new)>(l: Layout<X>, p: Pair, rows: Rows, ws: WordRow, maxWin: seq<nat>, maxLoss: seq<nat>,
                                slot: nat, size: nat, t: Published, invalid: seq<InvalidCounts>)
    requires Represents(l, p) && p.Valid() && CountersBalanced(p) && Shaped(p, rows) && InvalidCounted(p, invalid)
    requires slot < |rows| == |maxWin| == |maxLoss| && rows[slot] == Unpacked(ws) && size > 0
    requires |ws| == |p.tables[slot].entries| == |p.tables[slot].diagonal|
    requires var info := TableInfo(p.tables[slot].diagonal, maxWin[slot], maxLoss[slot]);
             t == Published(EncodedFrames(FinalWords(ws), size), StatsOf(FinalWords(ws), 0, info), invalid[slot])
    ensures WellFormed(ForwardGame(l, p))
    ensures Solved(p, rows, maxWin, maxLoss) ==> TableIsForced(l, p, slot, size, t) && NumbersAreForced(l, p, slot, t)
    ensures RejectsExactly(p, rows) ==> AddsUp(t, |p.tables[slot].entries|)
    ensures CountsIndices(t, p.tables[slot])
  {
    hide Represents, CountersBalanced, Solved, TableIsForced, AddsUp, TableCounted, RowRejects, EncodedFrames;
    hide FinalWords, StatsOf, StatsAreForced, CountsIndices;
    hide Unpacked, WellFormed, ForwardGame, Pair.Valid;
    ForwardGameIsWellFormed(l, p);
    var info := TableInfo(p.tables[slot].diagonal, maxWin[slot], maxLoss[slot]);
    if Solved(p, rows, maxWin, maxLoss) {
      ForcedTable(l, p, rows, ws, maxWin, maxLoss, slot, size, t);
      GamesHavePositions(l, p);
      StatsForced(l, p, rows, ws, maxWin, maxLoss, slot, info);
    }
    if RejectsExactly(p, rows) {
      PublishedCountsAddUp(p.tables[slot], rows[slot], ws, t, info);
    }
    PublishedIndices(p.tables[slot], ws, t, info);
  }

  method PublishSlot<X(!new)>(ghost l: Layout<X>, p: Pair, working: Scans.WorkingPair, maxWin: seq<nat>,
                              maxLoss: seq<nat>, invalid: seq<InvalidCounts>, slot: nat, size: nat, threads: nat)
    returns (t: Published)
    requires Represents(l, p) && p.Valid() && CountersBalanced(p) && working.Valid() && InvalidCounted(p, invalid)
    requires |working.values| == |p.tables| == |maxWin| == |maxLoss| && slot < |p.tables| && size > 0 && threads > 0
    requires Shaped(p, RowsOf(working.values))
    ensures WellFormed(ForwardGame(l, p))
    ensures Solved(p, RowsOf(working.values), maxWin, maxLoss) ==>
              TableIsForced(l, p, slot, size, t) && NumbersAreForced(l, p, slot, t)
    ensures RejectsExactly(p, RowsOf(working.values)) ==> AddsUp(t, |p.tables[slot].entries|)
    ensures |p.tables[slot].entries| == |p.tables[slot].diagonal| && CountsIndices(t, p.tables[slot])
  {
    hide Represents, CountersBalanced, Solved, TableIsForced, AddsUp, TableCounted, RowRejects, EncodedFrames;
    hide FinalWords, StatsOf, NumbersAreForced, CountsIndices;
    hide Unpacked, WellFormed, ForwardGame, Pair.Valid, RejectsExactly, InvalidCounted;
    ghost var rows := RowsOf(working.values);
    SlotFits(p, rows, slot);
    LengthsMatch(p, invalid);
    var info := TableInfo(p.tables[slot].diagonal, maxWin[slot], maxLoss[slot]);
    t := PublishTable(working.values[slot], size, threads, info, invalid[slot]);
    PublishedTable(l, p, rows, working.values[slot][..], maxWin, maxLoss, slot, size, t, invalid);
  }

  /** Solves a pair and stores its tables. If the stored counters fit, every stored outcome
      is the forced one exactly if legal play decides no position at a distance that does
      not fit, which the reported maxima tell; then the published numbers are those of the
      forced wins, draws and losses. At any depth the published counts add up, unless a
      stored counter is a multiple of 8192, and the rejections are counted by reason. */
  method GeneratePair<X(!new)>(ghost l: Layout<X>, p: Pair, size: nat, threads: nat)
    returns (tables: seq<Published>, maxWin: seq<nat>, maxLoss: seq<nat>)
    requires Represents(l, p) && size > 0 && threads > 0
    ensures p.Valid() && |tables| == |p.tables| && WellFormed(ForwardGame(l, p))
    ensures CountersFit(p) ==> (PairIsForced(l, p, size, tables) <==> DepthFits(ForwardGame(l, p)))
    ensures CountersFit(p) ==> (MaximaFit(maxWin, maxLoss) <==> DepthFits(ForwardGame(l, p)))
    ensures CountersFit(p) && DepthFits(ForwardGame(l, p)) ==>
              forall slot | 0 <= slot < |tables| :: NumbersAreForced(l, p, slot, tables[slot])
    ensures CountersKept(p) ==> forall slot | 0 <= slot < |tables| :: AddsUp(tables[slot], |p.tables[slot].entries|)
    ensures forall slot | 0 <= slot < |tables| ::
              |p.tables[slot].entries| == |p.tables[slot].diagonal| && CountsIndices(tables[slot], p.tables[slot])
  {
    hide CountersFit, CountersKept, MaximaFit, Solved, Verified, Represents, CountersBalanced, TableCounted, Unpacked;
    hide TableIsForced, AddsUp, DepthFits, RowRejects, WellFormed, RejectsExactly, InvalidCounted, ForwardGame, RowsOf;
    hide NumbersAreForced, CountsIndices;
    var working, invalid;
    working, maxWin, maxLoss, invalid := SolveLayout(l, p);
    ghost var rows := RowsOf(working.values);
    ghost var solved := CountersFit(p) && DepthFits(ForwardGame(l, p));
    tables := [];
    for slot := 0 to |p.tables|
      invariant |tables| == slot && rows == RowsOf(working.values)
      invariant solved ==> forall s | 0 <= s < slot ::
                  TableIsForced(l, p, s, size, tables[s]) && NumbersAreForced(l, p, s, tables[s])
      invariant CountersKept(p) ==> forall s | 0 <= s < slot :: AddsUp(tables[s], |p.tables[s].entries|)
      invariant forall s | 0 <= s < slot ::
                  |p.tables[s].entries| == |p.tables[s].diagonal| && CountsIndices(tables[s], p.tables[s])
    {
      var table := PublishSlot(l, p, working, maxWin, maxLoss, invalid, slot, size, threads);
      tables := tables + [table];
    }
    if CountersFit(p) && PairIsForced(l, p, size, tables) {
      StoredPairIsShallow(l, p, size, tables);
    }
  }

  lemma LengthsMatch(p: Pair, invalid: seq<InvalidCounts>)
    requires p.Valid() && InvalidCounted(p, invalid)
    ensures |invalid| == |p.tables|
    ensures forall slot | 0 <= slot < |p.tables| ::
              |p.tables[slot].diagonal| == |p.tables[slot].entries| && TableCounted(p.tables[slot], invalid[slot])
  {
  }

  method PublishTable(values: array<CellWord>, size: nat, threads: nat, info: TableInfo, invalid: InvalidCounts)
    returns (t: Published)
    requires size > 0 && threads > 0 && |info.diagonal| == values.Length
    ensures t == Published(EncodedFrames(FinalWords(values[..]), size), StatsOf(FinalWords(values[..]), 0, info),
                           invalid)
  {
    hide EncodedFrames, StatsOf, FinalWords;
    var frames, totals := FinalizeTable(values, values.Length, size, threads, info);
    t := Published(frames, totals.value.Value(), invalid);
  }

  lemma ForcedTable<X(!new)>(l: Layout<X>, p: Pair, rows: Rows, ws: WordRow, maxWin: seq<nat>, maxLoss: seq<nat>,
                             slot: nat, size: nat, t: Published)
    requires Represents(l, p) && p.Valid() && CountersBalanced(p) && Solved(p, rows, maxWin, maxLoss)
    requires slot < |rows| && rows[slot] == Unpacked(ws) && |ws| == |p.tables[slot].entries| && size > 0
    requires t.frames == EncodedFrames(FinalWords(ws), size)
    ensures WellFormed(ForwardGame(l, p)) && TableIsForced(l, p, slot, size, t)
  {
    hide Represents, CountersBalanced, Solved, StoresForced, EncodedFrames, FinalWords, StoredCell, ForwardGame;
    hide Unpacked;
    ForwardGameIsWellFormed(l, p);
    forall r | r in Positions(p) && r.slot == slot
      ensures StoresForced(l, p, r, StoredCell(t.frames, |p.tables[slot].entries|, size, r.index))
    {
      StoredIsForced(l, p, rows, ws, maxWin, maxLoss, size, r);
    }
  }
}

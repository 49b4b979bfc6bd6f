/** The solver of a table pair: initialization, then one ply after the other until
    a ply resolves nothing. */
module Retrograde {
  import opened Cells
  import opened Checker
  import opened Exactness
  import opened Initialization
  import opened Propagation
  import opened Scans
  import opened SolvedPair
  import opened Summaries
  import opened WordRows

  /** The cells that the words of the pair stand for. */
  ghost function RowsOf(values: seq<array<CellWord>>): (rows: Rows)
    requires 1 <= |values| <= 2
    reads values
    ensures |rows| == |values| && forall slot | 0 <= slot < |values| :: rows[slot] == Unpacked(values[slot][..])
  {
    if |values| == 1 then [Unpacked(values[0][..])] else [Unpacked(values[0][..]), Unpacked(values[1][..])]
  }

  ghost predicate SummariesMatch(working: WorkingPair, summaries: seq<PlySummary>) {
    && |summaries| == |working.values|
    && (forall slot | 0 <= slot < |summaries| ::
        summaries[slot].Valid() && summaries[slot].size == working.values[slot].Length)
    && (|summaries| == 2 ==> summaries[0].blocks != summaries[1].blocks)
  }

  ghost predicate AllBounded(working: WorkingPair, summaries: seq<PlySummary>)
    requires SummariesMatch(working, summaries)
    reads working.values, set slot | 0 <= slot < |summaries| :: summaries[slot].blocks
  {
    forall slot | 0 <= slot < |summaries| :: Bounded(Unpacked(working.values[slot][..]), summaries[slot].blocks[..])
  }

  /** The number of positions resolved at a ply, per slot. */
  ghost predicate CountsAt(found: seq<Found>, rows: Rows, plies: nat) {
    |found| == |rows| && forall slot | 0 <= slot < |rows| :: found[slot] == FoundAt(rows[slot], plies)
  }

  ghost predicate RowsResolveAt(rows: Rows, rows': Rows, plies: nat) {
    |rows'| == |rows| && forall slot | 0 <= slot < |rows| :: RowResolvesAt(rows[slot], rows'[slot], plies)
  }

  /** Unresolved positions of the pair. */
  function Remaining(rows: Rows): nat {
    if rows == [] then 0 else Remaining(rows[..|rows| - 1]) + Count(rows[|rows| - 1], Unresolved)
  }

  function TotalFound(found: seq<Found>): nat {
    if found == [] then 0 else TotalFound(found[..|found| - 1]) + found[|found| - 1].wins + found[|found| - 1].losses
  }

  // ---------------------------------------------------------------------
  // What a ply leaves alone, and what it counts.

  lemma {:induction false} EarlierCountsStay(row: Row, row': Row, plies: nat)
    requires RowResolvesAt(row, row', plies + 1)
    ensures FoundAt(row', plies) == FoundAt(row, plies)
  {
    if row != [] {
      var n := |row| - 1;
      EarlierCountsStay(row[..n], row'[..n], plies);
    }
  }

  /** A scan whose source count is zero has nothing to do. */
  lemma NoSources(row: Row, scan: Scan)
    requires scan.plies > 0
    requires if scan.Losses? then FoundAt(row, scan.plies - 1).losses == 0 else FoundAt(row, scan.plies - 1).wins == 0
    ensures forall i | 0 <= i < |row| :: !scan.IsSource(row[i])
  {
    CountIsZero(row, LostAt(scan.plies - 1));
    CountIsZero(row, WonAt(scan.plies - 1));
  }

  function SourceKind(scan: Scan): SummaryKind {
    if scan.Losses? then LossKind else WinKind(scan.ct)
  }

  lemma CoveredSources(ws: WordRow, blocks: seq<BlockSummary>, ranges: seq<(nat, nat)>, scan: Scan)
    requires Bounded(Unpacked(ws), blocks) && 0 < scan.plies <= 0x2000
    requires CoversBlocks(ranges, blocks, |ws|, SourceKind(scan), scan.plies - 1)
    ensures HoldSources(ranges, ws, scan)
  {
    hide Unpack, ShiftIn;
    forall i: nat | i < |ws| && scan.IsSourceWord(ws[i]) ensures InRanges(ranges, i) {
      SourceWords(scan, ws[i]);
      NoSourceOutside(Unpacked(ws), blocks, ranges, SourceKind(scan), scan.plies - 1, i);
    }
  }

  /** From ply 8193 on no word has a loss of the ply before. */
  lemma NoDeepLosses(ws: WordRow, plies: nat)
    requires plies > 0x2000
    ensures !HasSourceWord(ws, Losses(plies))
  {
  }

  /** Words follow cells as long as no distance of 8192 plies has been written. */
  predicate Shallow(plies: nat, found: Found) {
    plies < 0x2000 || (plies == 0x2000 && found.IsEmpty())
  }

  /** The words a scan leaves are those of its cells. */
  lemma ScannedWords(p: Pair, rows: Rows, slot: nat, scan: Scan, ws: WordRow, ws0: WordRow, now: WordRow, found: Found)
    requires p.Valid() && Shaped(p, rows) && p.HasSlot(slot) && 0 < scan.plies <= 0x2000
    requires rows[slot] == Unpacked(ws) && rows[p.Twin(slot)] == Unpacked(ws0) && |ws| == |p.tables[slot].unmoves|
    requires AppliedBefore(p.tables[slot].unmoves, ws, ws0, now, scan, |ws|)
    requires Books(ws0, now, scan.plies, found)
    ensures Count(Unpacked(now), Unresolved) == Count(Scanned(p, rows, slot, scan), Unresolved)
    ensures Shallow(scan.plies, found) ==>
              Unpacked(now) == Scanned(p, rows, slot, scan)
                && Conserves(rows[p.Twin(slot)], Unpacked(now), scan.plies, found)
  {
    hide Unpacked, Conserves, ApplyWords, Apply, WordUpdates, Updates, Count, SameInvalid;
    WordUpdatesFollowCells(p.tables[slot].unmoves, ws, scan, 0, |ws|);
    UnknownCountsAgree(ws0, WordUpdates(p.tables[slot].unmoves, ws, scan, 0, |ws|), scan);
    if Shallow(scan.plies, found) {
      ShallowWordsFollowCells(ws0, WordUpdates(p.tables[slot].unmoves, ws, scan, 0, |ws|), scan);
    }
  }

  /** Scans the given blocks of one table. `exact` tells whether they hold all
      sources. */
  method ScanRanges(p: Pair, working: WorkingPair, summaries: seq<PlySummary>, slot: nat, scan: Scan,
                    ranges: seq<(nat, nat)>, ghost exact: bool)
    returns (found: Found)
    requires p.Valid() && working.Valid() && SummariesMatch(working, summaries) && p.HasSlot(slot) && scan.plies > 0
    requires Shaped(p, RowsOf(working.values)) && AllBounded(working, summaries)
    requires Ascending(ranges, working.values[slot].Length)
    requires exact ==> scan.plies <= 0x2000 && HoldSources(ranges, working.values[slot][..], scan)
    modifies working.values[p.Twin(slot)], summaries[p.Twin(slot)].blocks
    ensures Scan1(p, old(RowsOf(working.values)), RowsOf(working.values), slot, scan, found, exact)
    ensures AllBounded(working, summaries)
    ensures found.IsEmpty() || HasSourceWord(old(working.values[slot][..]), scan)
  {
    hide Bounded, Books, Conserves, HoldSources, HasSourceWord, AppliedBefore, ValidEntries, Scanned, OneKind, Unpacked;
    var twin := p.Twin(slot);
    ghost var rows, ws, ws0 := RowsOf(working.values), working.values[slot][..], working.values[twin][..];
    assert p.ValidSlot(slot);
    found := ScanTable(p.tables[slot].unmoves, working, slot, twin, summaries[twin], ranges, scan);
    ghost var rows' := RowsOf(working.values);
    forall other | 0 <= other < |rows| && other != twin
      ensures rows'[other] == rows[other]
      ensures Bounded(Unpacked(working.values[other][..]), summaries[other].blocks[..])
    {
    }
    BooksOf(ws0, working.values[twin][..], scan.plies, found);
    if exact {
      ScannedWords(p, rows, slot, scan, ws, ws0, working.values[twin][..], found);
    }
    assert rows' == rows[twin := rows'[twin]];
  }

  lemma BooksOf(ws: WordRow, ws': WordRow, plies: nat, found: Found)
    requires Books(ws, ws', plies, found)
    ensures Count(Unpacked(ws'), Unresolved) + found.wins + found.losses == Count(Unpacked(ws), Unresolved)
    ensures SameInvalid(Unpacked(ws), Unpacked(ws'))
  {
  }

  /** What scanning the table in `slot` does to the pair: only its twin changes, its
      unknown cells become what is found, and invalid cells stay. If all sources were
      scanned, it leaves as many unknown cells as the full scan of the cells, and is that
      scan if words follow cells. */
  ghost predicate Scan1(p: Pair, rows: Rows, rows': Rows, slot: nat, scan: Scan, found: Found, exact: bool)
    requires p.Valid() && Shaped(p, rows) && p.HasSlot(slot)
  {
    var twin := p.Twin(slot);
    && Shaped(p, rows') && rows' == rows[twin := rows'[twin]]
    && Count(rows'[twin], Unresolved) + found.wins + found.losses == Count(rows[twin], Unresolved)
    && OneKind(found, scan) && SameInvalid(rows[twin], rows'[twin])
    && (exact ==> Count(rows'[twin], Unresolved) == Count(Scanned(p, rows, slot, scan), Unresolved))
    && (exact && Shallow(scan.plies, found) ==>
          rows'[twin] == Scanned(p, rows, slot, scan) && Conserves(rows[twin], rows'[twin], scan.plies, found))
  }

  function SourceCount(scan: Scan, previous: Found): nat {
    if scan.Losses? then previous.losses else previous.wins
  }

  /** One table of one phase: skipped when its counts or its block bounds show no
      source, and otherwise scanned over the bounded blocks only. */
  method ScanSlot(p: Pair, working: WorkingPair, summaries: seq<PlySummary>, slot: nat, scan: Scan, previous: Found,
                  ghost exact: bool)
    returns (found: Found)
    requires p.Valid() && working.Valid() && SummariesMatch(working, summaries) && p.HasSlot(slot) && scan.plies > 0
    requires Shaped(p, RowsOf(working.values)) && AllBounded(working, summaries)
    requires exact ==> scan.plies <= 0x2000 && previous == FoundAt(RowsOf(working.values)[slot], scan.plies - 1)
    modifies working.values[p.Twin(slot)], summaries[p.Twin(slot)].blocks
    ensures Scan1(p, old(RowsOf(working.values)), RowsOf(working.values), slot, scan, found, exact)
    ensures AllBounded(working, summaries)
    ensures SourceCount(scan, previous) == 0 || (scan.Losses? && scan.plies > 0x2000) ==> found.IsEmpty()
  {
    hide Scan1, Bounded, HoldSources, Ascending, HasSourceWord, FoundAt, Unpacked;
    ghost var rows, ws := RowsOf(working.values), working.values[slot][..];
    var ranges := SourceRanges(working, summaries, slot, scan, previous, exact);
    if ranges == [] {
      found := Found(0, 0);
      NothingScanned(p, rows, slot, scan, ws, exact);
    } else {
      found := ScanRanges(p, working, summaries, slot, scan, ranges, exact);
      if scan.Losses? && scan.plies > 0x2000 {
        NoDeepLosses(ws, scan.plies);
      }
    }
  }

  lemma NothingScanned(p: Pair, rows: Rows, slot: nat, scan: Scan, ws: WordRow, exact: bool)
    requires p.Valid() && Shaped(p, rows) && p.HasSlot(slot) && scan.plies > 0 && rows[slot] == Unpacked(ws)
    requires exact ==> scan.plies <= 0x2000 && HoldSources([], ws, scan)
    ensures Scan1(p, rows, rows, slot, scan, Found(0, 0), exact)
  {
    hide Conserves;
    NothingConserved(rows[p.Twin(slot)], scan.plies);
    assert SameInvalid(rows[p.Twin(slot)], rows[p.Twin(slot)]);
    if exact {
      SlotFits(p, rows, slot);
      UpdatesOfRange(p.tables[slot].unmoves, ws, scan, [], 0);
      WordUpdatesFollowCells(p.tables[slot].unmoves, ws, scan, 0, |ws|);
    }
  }

  lemma SlotFits(p: Pair, rows: Rows, slot: nat)
    requires p.Valid() && Shaped(p, rows) && p.HasSlot(slot)
    ensures |rows[slot]| == |p.tables[slot].unmoves| == |p.tables[slot].entries|
  {
    assert p.ValidSlot(slot);
  }

  lemma NothingConserved(row: Row, plies: nat)
    ensures Conserves(row, row, plies, Found(0, 0))
  {
  }

  /** The ranges to scan: none without sources, else the bounded blocks. */
  method SourceRanges(working: WorkingPair, summaries: seq<PlySummary>, slot: nat, scan: Scan, previous: Found,
                      ghost exact: bool)
    returns (ranges: seq<(nat, nat)>)
    requires working.Valid() && SummariesMatch(working, summaries) && slot < |summaries| && scan.plies > 0
    requires Bounded(Unpacked(working.values[slot][..]), summaries[slot].blocks[..])
    requires exact ==> scan.plies <= 0x2000 && previous == FoundAt(Unpacked(working.values[slot][..]), scan.plies - 1)
    ensures Ascending(ranges, working.values[slot].Length)
    ensures exact ==> HoldSources(ranges, working.values[slot][..], scan)
    ensures SourceCount(scan, previous) == 0 ==> ranges == []
  {
    hide Unpacked, HoldSources;
    ranges := [];
    ghost var ws := working.values[slot][..];
    if SourceCount(scan, previous) != 0 {
      ranges := summaries[slot].BlocksWith(SourceKind(scan), scan.plies - 1);
      if exact {
        CoveredSources(ws, summaries[slot].blocks[..], ranges, scan);
      }
    } else if exact {
      NoSourceWords(ws, scan, previous);
    }
  }

  lemma NoSourceWords(ws: WordRow, scan: Scan, previous: Found)
    requires 0 < scan.plies <= 0x2000 && previous == FoundAt(Unpacked(ws), scan.plies - 1)
             && SourceCount(scan, previous) == 0
    ensures HoldSources([], ws, scan)
  {
    hide Unpack, ShiftIn, FoundAt;
    NoSources(Unpacked(ws), scan);
    forall i: nat | i < |ws| ensures !scan.IsSourceWord(ws[i]) {
      SourceWords(scan, ws[i]);
      assert !scan.IsSource(Unpacked(ws)[i]);
    }
  }

  lemma ScannedResolves(p: Pair, rows: Rows, slot: nat, scan: Scan)
    requires p.Valid() && Shaped(p, rows) && p.HasSlot(slot)
    ensures RowResolvesAt(rows[p.Twin(slot)], Scanned(p, rows, slot, scan), scan.plies)
  {
    UpdatesAreGood(p.tables[slot].unmoves, rows[slot], scan, 0, |rows[slot]|, |rows[p.Twin(slot)]|);
    ApplyResolves(rows[p.Twin(slot)], Updates(p.tables[slot].unmoves, rows[slot], scan, 0, |rows[slot]|), scan);
  }

  // ---------------------------------------------------------------------
  // One ply.

  /** The phases of the tables once `done` tables have been scanned in a phase. */
  function PhasesAfter(tables: nat, phase: nat, done: nat): seq<nat> {
    seq(tables, w requires 0 <= w < tables => if tables - 1 - w < done then phase + 1 else phase)
  }

  /** The books of a ply that started from `rows0`. */
  ghost predicate Tally(rows0: Rows, rows: Rows, plies: nat, previous: seq<Found>, found: seq<Found>)
    requires plies > 0
  {
    && CountsAt(previous, rows, plies - 1)
    && CountsAt(found, rows, plies)
    && RowsResolveAt(rows0, rows, plies)
  }

  lemma RemainingOf(rows: Rows, found: seq<Found>)
    requires 1 <= |rows| == |found| <= 2
    ensures Remaining(rows) == Count(rows[0], Unresolved) + if |rows| == 2 then Count(rows[1], Unresolved) else 0
    ensures TotalFound(found)
            == found[0].wins + found[0].losses + if |found| == 2 then found[1].wins + found[1].losses else 0
  {
    assert rows[..1][..0] == [] && found[..1][..0] == [];
  }

  lemma TallyStep(rows0: Rows, rows: Rows, plies: nat, previous: seq<Found>, found: seq<Found>, w: nat, row': Row,
                  more: Found)
    requires plies > 0 && 1 <= |rows| <= 2 && w < |rows|
    requires Tally(rows0, rows, plies, previous, found)
    requires RowResolvesAt(rows[w], row', plies) && Conserves(rows[w], row', plies, more)
    ensures Tally(rows0, rows[w := row'], plies, previous, found[w := found[w].Merge(more)])
  {
    EarlierCountsStay(rows[w], row', plies - 1);
    ResolvesTransitive(rows0[w], rows[w], row', plies);
  }

  lemma NextPhase(tables: nat, phase: nat, slot: nat)
    requires slot < tables
    ensures PhasesAfter(tables, phase, slot)[tables - 1 - slot] == phase
    ensures PhasesAfter(tables, phase, slot)[tables - 1 - slot := phase + 1] == PhasesAfter(tables, phase, slot + 1)
  {
  }

  lemma PhaseStep(p: Pair, rows0: Rows, rows: Rows, plies: nat, phase: nat, slot: nat, previous: seq<Found>,
                  found: seq<Found>, more: Found)
    requires p.Valid() && CountersBalanced(p) && plies > 0 && phase <= 3 && p.HasSlot(slot)
    requires PairExact(p, rows, plies, PhasesAfter(|p.tables|, phase, slot))
    requires Tally(rows0, rows, plies, previous, found)
    requires Conserves(rows[p.Twin(slot)], Scanned(p, rows, slot, ScanAt(phase, plies)), plies, more)
    ensures var (twin, row') := (p.Twin(slot), Scanned(p, rows, slot, ScanAt(phase, plies)));
            && PairExact(p, rows[twin := row'], plies, PhasesAfter(|p.tables|, phase, slot + 1))
            && Tally(rows0, rows[twin := row'], plies, previous, found[twin := found[twin].Merge(more)])
  {
    hide CountersBalanced, SlotExact, Scanned, PhasesAfter, CountsAt, Conserves;
    var twin, phases := p.Twin(slot), PhasesAfter(|p.tables|, phase, slot);
    NextPhase(|p.tables|, phase, slot);
    ScanStep(p, rows, plies, phases, slot, phase);
    ScannedResolves(p, rows, slot, ScanAt(phase, plies));
    TallyStep(rows0, rows, plies, previous, found, twin, Scanned(p, rows, slot, ScanAt(phase, plies)), more);
  }

  /** No distance of 8192 plies has been written in this ply. */
  predicate StillShallow(plies: nat, found: seq<Found>) {
    plies < 0x2000 || (plies == 0x2000 && TotalFound(found) == 0)
  }

  predicate NoWins(found: seq<Found>) {
    forall s | 0 <= s < |found| :: found[s].wins == 0
  }

  predicate NoLosses(found: seq<Found>) {
    forall s | 0 <= s < |found| :: found[s].losses == 0
  }

  /** After ply 8192 no wins are found, and no losses either once a ply found no wins. */
  predicate LateFound(plies: nat, previous: seq<Found>, found: seq<Found>) {
    plies > 0x2000 ==> NoWins(found) && (NoWins(previous) ==> NoLosses(found))
  }

  ghost predicate SameInvalidRows(a: Rows, b: Rows) {
    |a| == |b| && forall slot | 0 <= slot < |a| :: SameInvalid(a[slot], b[slot])
  }

  /** The state of a ply that started from `rows0`: `balance` positions are either
      unresolved or resolved in this ply, invalid cells stay, and if the ply started
      `exact`, the cells are at their stage as long as words follow cells; if they do not,
      the pair is not shallow. */
  ghost predicate PlyState(p: Pair, rows0: Rows, rows: Rows, plies: nat, phases: seq<nat>, previous: seq<Found>,
                           found: seq<Found>, balance: nat, exact: bool)
    requires p.Valid() && plies > 0
  {
    && Shaped(p, rows) && |found| == |previous| == |rows|
    && Remaining(rows) + TotalFound(found) == balance && Remaining(rows) <= Remaining(rows0)
    && LateFound(plies, previous, found)
    && SameInvalidRows(rows0, rows)
    && (exact && StillShallow(plies, found) ==>
          PairExact(p, rows, plies, phases) && Tally(rows0, rows, plies, previous, found))
    && (exact && plies == 0x2000 && TotalFound(found) > 0 ==> !ShallowPair(p))
  }

  lemma PlyStateFacts(p: Pair, rows0: Rows, rows: Rows, plies: nat, phases: seq<nat>, previous: seq<Found>,
                      found: seq<Found>, balance: nat, exact: bool, slot: nat)
    requires p.Valid() && plies > 0 && p.HasSlot(slot)
    requires PlyState(p, rows0, rows, plies, phases, previous, found, balance, exact)
    ensures Shaped(p, rows) && |found| == |previous| == |rows|
    ensures exact && StillShallow(plies, found) ==> plies <= 0x2000 && previous[slot] == FoundAt(rows[slot], plies - 1)
  {
    hide PairExact, FoundAt;
  }

  /** What one more scan finds. */
  lemma MoreFound(rows: Rows, found: seq<Found>, rows': Rows, twin: nat, more: Found)
    requires 1 <= |rows| == |rows'| == |found| <= 2 && twin < |rows| && rows' == rows[twin := rows'[twin]]
    requires Count(rows'[twin], Unresolved) + more.wins + more.losses == Count(rows[twin], Unresolved)
    ensures var found' := found[twin := found[twin].Merge(more)];
            && Remaining(rows') + TotalFound(found') == Remaining(rows) + TotalFound(found)
            && TotalFound(found') == TotalFound(found) + more.wins + more.losses && Remaining(rows') <= Remaining(rows)
  {
    hide Count;
    RemainingOf(rows, found);
    RemainingOf(rows', found[twin := found[twin].Merge(more)]);
  }

  lemma LateFoundStep(plies: nat, previous: seq<Found>, found: seq<Found>, scan: Scan, slot: nat, twin: nat,
                      more: Found)
    requires scan.plies == plies && slot < |previous| && twin < |found|
    requires LateFound(plies, previous, found) && OneKind(more, scan)
    requires SourceCount(scan, previous[slot]) == 0 || (scan.Losses? && plies > 0x2000) ==> more.IsEmpty()
    ensures LateFound(plies, previous, found[twin := found[twin].Merge(more)])
  {
    hide Found.Merge, SourceCount;
    MergedCounts(found[twin], more);
    if plies > 0x2000 {
      NoSourceCount(scan, previous, slot);
    }
  }

  lemma NoSourceCount(scan: Scan, previous: seq<Found>, slot: nat)
    requires slot < |previous|
    ensures scan.Wins? && NoWins(previous) ==> SourceCount(scan, previous[slot]) == 0
  {
  }

  lemma PlyStep(p: Pair, rows0: Rows, rows: Rows, rows': Rows, plies: nat, phase: nat, slot: nat, previous: seq<Found>,
                found: seq<Found>, balance: nat, exact: bool, more: Found)
    requires p.Valid() && CountersBalanced(p) && plies > 0 && phase <= 3 && p.HasSlot(slot)
    requires PlyState(p, rows0, rows, plies, PhasesAfter(|p.tables|, phase, slot), previous, found, balance, exact)
    requires Shaped(p, rows)
    requires Scan1(p, rows, rows', slot, ScanAt(phase, plies), more, exact && StillShallow(plies, found))
    requires var scan := ScanAt(phase, plies);
             && |previous| == |rows|
             && (SourceCount(scan, previous[slot]) == 0 || (scan.Losses? && plies > 0x2000) ==> more.IsEmpty())
    ensures var twin := p.Twin(slot);
            |found| == |rows|
            && PlyState(p, rows0, rows', plies, PhasesAfter(|p.tables|, phase, slot + 1), previous,
                        found[twin := found[twin].Merge(more)], balance, exact)
  {
    hide CountersBalanced, PairExact, Tally, Scanned, PhasesAfter, Conserves, Remaining, TotalFound, LateFound;
    hide OneKind, SourceCount, Count, Pair.ValidSlot, ShallowPair, SameInvalidRows, SameInvalid;
    var twin := p.Twin(slot);
    MoreFound(rows, found, rows', twin, more);
    LateFoundStep(plies, previous, found, ScanAt(phase, plies), slot, twin, more);
    InvalidStep(rows0, rows, rows', twin);
    if exact && StillShallow(plies, found[twin := found[twin].Merge(more)]) {
      PhaseStep(p, rows0, rows, plies, phase, slot, previous, found, more);
    } else if exact && plies == 0x2000 && StillShallow(plies, found) {
      DeepFind(p, rows, plies, phase, slot);
    }
  }

  lemma InvalidStep(rows0: Rows, rows: Rows, rows': Rows, twin: nat)
    requires SameInvalidRows(rows0, rows) && twin < |rows| == |rows'| && rows' == rows[twin := rows'[twin]]
    requires SameInvalid(rows[twin], rows'[twin])
    ensures SameInvalidRows(rows0, rows')
  {
  }

  // ---------------------------------------------------------------------
  // A find that exceeds its word.

  /** The rest of a ply, on cells. */
  lemma CompletePly(p: Pair, rows: Rows, plies: nat, phase: nat, slot: nat) returns (rows': Rows)
    requires p.Valid() && CountersBalanced(p) && plies > 0
    requires phase <= 4 && slot <= |p.tables| && (phase == 4 ==> slot == 0)
    requires PairExact(p, rows, plies, PhasesAfter(|p.tables|, phase, slot))
    ensures PairExact(p, rows', plies, PhasesAfter(|p.tables|, 4, 0)) && RowsResolveAt(rows, rows', plies)
    decreases 4 - phase, |p.tables| - slot
  {
    hide PairExact, CountersBalanced, Pair.Valid, Scanned;
    if phase == 4 {
      rows' := rows;
    } else if slot == |p.tables| {
      assert PhasesAfter(|p.tables|, phase, slot) == PhasesAfter(|p.tables|, phase + 1, 0);
      rows' := CompletePly(p, rows, plies, phase + 1, 0);
    } else {
      var next := ScanCells(p, rows, plies, phase, slot);
      rows' := CompletePly(p, next, plies, phase, slot + 1);
      RowsResolveTransitive(rows, next, rows', plies);
    }
  }

  lemma ScanCells(p: Pair, rows: Rows, plies: nat, phase: nat, slot: nat) returns (rows': Rows)
    requires p.Valid() && CountersBalanced(p) && plies > 0 && phase < 4 && p.HasSlot(slot)
    requires PairExact(p, rows, plies, PhasesAfter(|p.tables|, phase, slot))
    ensures Shaped(p, rows) && rows' == rows[p.Twin(slot) := Scanned(p, rows, slot, ScanAt(phase, plies))]
    ensures PairExact(p, rows', plies, PhasesAfter(|p.tables|, phase, slot + 1)) && RowsResolveAt(rows, rows', plies)
  {
    hide SlotExact, CountersBalanced, Scanned;
    NextPhase(|p.tables|, phase, slot);
    ScanStep(p, rows, plies, PhasesAfter(|p.tables|, phase, slot), slot, phase);
    ScannedResolves(p, rows, slot, ScanAt(phase, plies));
    rows' := rows[p.Twin(slot) := Scanned(p, rows, slot, ScanAt(phase, plies))];
  }

  lemma RowsResolveTransitive(a: Rows, b: Rows, c: Rows, plies: nat)
    requires RowsResolveAt(a, b, plies) && RowsResolveAt(b, c, plies)
    ensures RowsResolveAt(a, c, plies)
  {
    forall slot | 0 <= slot < |a| ensures RowResolvesAt(a[slot], c[slot], plies) {
      ResolvesTransitive(a[slot], b[slot], c[slot], plies);
    }
  }

  lemma {:induction false} FewerUnknowns(a: Row, b: Row) returns (i: nat)
    requires |a| == |b| && Count(b, Unresolved) < Count(a, Unresolved)
    ensures i < |a| && a[i].Unknown? && !b[i].Unknown?
  {
    i := |a| - 1;
    if !(a[i].Unknown? && !b[i].Unknown?) {
      i := FewerUnknowns(a[..i], b[..i]);
    }
  }

  /** A scan of an exact pair that resolves a cell at ply 8192 finds a position that play
      decides at that very distance. */
  lemma DeepFind(p: Pair, rows: Rows, plies: nat, phase: nat, slot: nat)
    requires p.Valid() && CountersBalanced(p) && plies >= 0x2000 && phase <= 3 && p.HasSlot(slot)
    requires PairExact(p, rows, plies, PhasesAfter(|p.tables|, phase, slot)) && Shaped(p, rows)
    requires Count(Scanned(p, rows, slot, ScanAt(phase, plies)), Unresolved) < Count(rows[p.Twin(slot)], Unresolved)
    ensures !ShallowPair(p)
  {
    hide PairExact, CountersBalanced, Scanned, Count, BestForced, BestHeld, EmissionGame, WellFormed;
    var twin := p.Twin(slot);
    ScannedResolves(p, rows, slot, ScanAt(phase, plies));
    var i := FewerUnknowns(rows[twin], Scanned(p, rows, slot, ScanAt(phase, plies)));
    var next := ScanCells(p, rows, plies, phase, slot);
    var final := CompletePly(p, next, plies, phase, slot + 1);
    var c := final[twin][i];
    assert RowResolvesAt(next[twin], final[twin], plies) && ResolvesAt(next[twin][i], c, plies);
    ResolvedIsPosition(p, final, plies, twin, i);
    PlyDecides(p, final, plies, PhasesAfter(|p.tables|, 4, 0), Ref(twin, i), c.ct, plies);
  }

  lemma ResolvedIsPosition(p: Pair, rows: Rows, plies: nat, slot: nat, i: nat)
    requires p.Valid() && PairExact(p, rows, plies, PhasesAfter(|p.tables|, 4, 0)) && p.HasSlot(slot)
    requires i < |rows[slot]| && (rows[slot][i].Won? || rows[slot][i].Lost?)
    ensures Ref(slot, i) in Positions(p)
  {
    assert SlotExact(p, rows, slot, Stage(plies, 4));
    var twin := p.Twin(slot);
    assert CellExact(p.tables[slot].entries[i], rows[slot][i], i, p.tables[twin].unmoves, rows[twin], Stage(plies, 4));
  }

  /** Scans one table and enters what it resolved in the books. */
  method ScanNext(p: Pair, working: WorkingPair, summaries: seq<PlySummary>, plies: nat, phase: nat, slot: nat,
                  previous: seq<Found>, found0: seq<Found>, ghost rows0: Rows, ghost balance: nat, ghost exact: bool)
    returns (found: seq<Found>)
    requires p.Valid() && CountersBalanced(p) && working.Valid() && SummariesMatch(working, summaries) && plies > 0
             && phase <= 3
    requires |working.values| == |p.tables| && AllBounded(working, summaries) && p.HasSlot(slot)
    requires PlyState(p, rows0, RowsOf(working.values), plies, PhasesAfter(|p.tables|, phase, slot), previous, found0,
                      balance, exact)
    modifies working.values, set s | s in summaries :: s.blocks
    ensures AllBounded(working, summaries)
    ensures PlyState(p, rows0, RowsOf(working.values), plies, PhasesAfter(|p.tables|, phase, slot + 1), previous, found,
                     balance, exact)
  {
    hide PlyState, Bounded, CountersBalanced, Scan1, SourceCount, FoundAt, StillShallow, Unpacked;
    ghost var rows := RowsOf(working.values);
    PlyStateFacts(p, rows0, rows, plies, PhasesAfter(|p.tables|, phase, slot), previous, found0, balance, exact, slot);
    var twin := p.Twin(slot);
    var more := ScanSlot(p, working, summaries, slot, ScanAt(phase, plies), previous[slot],
                         exact && StillShallow(plies, found0));
    PlyStep(p, rows0, rows, RowsOf(working.values), plies, phase, slot, previous, found0, balance, exact, more);
    found := found0[twin := found0[twin].Merge(more)];
  }

  /** Scans all tables of the pair once. */
  method ScanPhase(p: Pair, working: WorkingPair, summaries: seq<PlySummary>, plies: nat, phase: nat,
                   previous: seq<Found>, found0: seq<Found>, ghost rows0: Rows, ghost balance: nat, ghost exact: bool)
    returns (found: seq<Found>)
    requires p.Valid() && CountersBalanced(p) && working.Valid() && SummariesMatch(working, summaries) && plies > 0
             && phase <= 3
    requires |working.values| == |p.tables| && AllBounded(working, summaries)
    requires PlyState(p, rows0, RowsOf(working.values), plies, PhasesAfter(|p.tables|, phase, 0), previous, found0,
                      balance, exact)
    modifies working.values, set s | s in summaries :: s.blocks
    ensures AllBounded(working, summaries)
    ensures PlyState(p, rows0, RowsOf(working.values), plies, PhasesAfter(|p.tables|, phase + 1, 0), previous, found,
                     balance, exact)
  {
    hide PlyState, Bounded, CountersBalanced, Pair.Valid;
    found := found0;
    for slot := 0 to |p.tables|
      invariant AllBounded(working, summaries)
      invariant PlyState(p, rows0, RowsOf(working.values), plies, PhasesAfter(|p.tables|, phase, slot), previous, found,
                         balance, exact)
    {
      found := ScanNext(p, working, summaries, plies, phase, slot, previous, found, rows0, balance, exact);
    }
    assert PhasesAfter(|p.tables|, phase, |p.tables|) == PhasesAfter(|p.tables|, phase + 1, 0);
  }

  /** Phase W, then phase L for Checkmate, Capture and Promotion. */
  method PropagatePly(p: Pair, working: WorkingPair, summaries: seq<PlySummary>, plies: nat, previous: seq<Found>,
                      found0: seq<Found>, ghost exact: bool)
    returns (found: seq<Found>)
    requires p.Valid() && CountersBalanced(p) && working.Valid() && SummariesMatch(working, summaries) && plies > 0
    requires |working.values| == |p.tables| && AllBounded(working, summaries)
    requires PlyState(p, RowsOf(working.values), RowsOf(working.values), plies, PhasesAfter(|p.tables|, 0, 0), previous,
                      found0, Remaining(RowsOf(working.values)) + TotalFound(found0), exact)
    modifies working.values, set s | s in summaries :: s.blocks
    ensures AllBounded(working, summaries)
    ensures PlyState(p, old(RowsOf(working.values)), RowsOf(working.values), plies, PhasesAfter(|p.tables|, 4, 0),
                     previous, found, old(Remaining(RowsOf(working.values))) + TotalFound(found0), exact)
  {
    hide PlyState, Bounded, CountersBalanced, Pair.Valid, Remaining, TotalFound;
    ghost var rows0 := RowsOf(working.values);
    ghost var balance := Remaining(rows0) + TotalFound(found0);
    found := found0;
    for phase := 0 to 4
      invariant AllBounded(working, summaries)
      invariant PlyState(p, rows0, RowsOf(working.values), plies, PhasesAfter(|p.tables|, phase, 0), previous, found,
                         balance, exact)
    {
      found := ScanPhase(p, working, summaries, plies, phase, previous, found, rows0, balance, exact);
    }
  }

  // ---------------------------------------------------------------------
  // Maximum distances.

  predicate Decided(c: Cell, won: bool) {
    if won then c.Won? else c.Lost?
  }

  /** `m` is the longest win (or loss) of fewer than `before` plies, 0 without any. */
  ghost predicate IsLongest(row: Row, m: nat, won: bool, before: nat) {
    && (forall i | 0 <= i < |row| && Decided(row[i], won) && row[i].plies < before :: row[i].plies <= m)
    && (m > 0 ==> exists i :: 0 <= i < |row| && Decided(row[i], won) && row[i].plies == m)
  }

  lemma LongestStep(row: Row, row': Row, m: nat, won: bool, plies: nat)
    requires RowResolvesAt(row, row', plies) && IsLongest(row, m, won, plies) && m < plies
    ensures var count := if won then FoundAt(row', plies).wins else FoundAt(row', plies).losses;
            IsLongest(row', if count > 0 then plies else m, won, plies + 1)
  {
    CountIsZero(row', WonAt(plies));
    CountIsZero(row', LostAt(plies));
    if m > 0 {
      var i :| 0 <= i < |row| && Decided(row[i], won) && row[i].plies == m;
      assert row'[i] == row[i];
    }
  }

  /** Per slot, the longest win and loss resolved before a ply. */
  ghost predicate AreLongest(rows: Rows, maxWin: seq<nat>, maxLoss: seq<nat>, before: nat) {
    && |maxWin| == |maxLoss| == |rows|
    && forall slot | 0 <= slot < |rows| ::
         && IsLongest(rows[slot], maxWin[slot], true, before)
         && IsLongest(rows[slot], maxLoss[slot], false, before)
         && (before > 0 ==> maxWin[slot] < before && maxLoss[slot] < before)
  }

  /** The maxima after a ply: the ply itself where it found something. */
  function MaximaAfter(maxima: seq<nat>, found: seq<Found>, plies: nat, won: bool): (r: seq<nat>)
    requires |maxima| == |found|
    ensures |r| == |maxima|
  {
    seq(|maxima|, s requires 0 <= s < |maxima| =>
      if (if won then found[s].wins else found[s].losses) > 0 then plies else maxima[s])
  }

  lemma MaximaAreLongest(rows: Rows, rows': Rows, maxWin: seq<nat>, maxLoss: seq<nat>, found: seq<Found>, plies: nat)
    requires plies > 0 && AreLongest(rows, maxWin, maxLoss, plies)
    requires RowsResolveAt(rows, rows', plies) && CountsAt(found, rows', plies)
    ensures AreLongest(rows', MaximaAfter(maxWin, found, plies, true), MaximaAfter(maxLoss, found, plies, false),
                       plies + 1)
  {
    hide IsLongest, FoundAt, RowResolvesAt;
    forall s | 0 <= s < |rows|
      ensures IsLongest(rows'[s], MaximaAfter(maxWin, found, plies, true)[s], true, plies + 1)
      ensures IsLongest(rows'[s], MaximaAfter(maxLoss, found, plies, false)[s], false, plies + 1)
    {
      LongestStep(rows[s], rows'[s], maxWin[s], true, plies);
      LongestStep(rows[s], rows'[s], maxLoss[s], false, plies);
    }
  }

  method UpdateLongest(maxWin0: seq<nat>, maxLoss0: seq<nat>, found: seq<Found>, plies: nat)
    returns (maxWin: seq<nat>, maxLoss: seq<nat>)
    requires |maxWin0| == |maxLoss0| == |found|
    ensures maxWin == MaximaAfter(maxWin0, found, plies, true) && maxLoss == MaximaAfter(maxLoss0, found, plies, false)
  {
    maxWin, maxLoss := maxWin0, maxLoss0;
    for slot := 0 to |found|
      invariant |maxWin| == |maxLoss| == |found|
      invariant forall s | 0 <= s < slot ::
                  && maxWin[s] == MaximaAfter(maxWin0, found, plies, true)[s]
                  && maxLoss[s] == MaximaAfter(maxLoss0, found, plies, false)[s]
      invariant maxWin[slot..] == maxWin0[slot..] && maxLoss[slot..] == maxLoss0[slot..]
    {
      assert maxWin[slot] == maxWin[slot..][0] && maxLoss[slot] == maxLoss[slot..][0];
      if found[slot].wins > 0 {
        maxWin := maxWin[slot := plies];
      }
      if found[slot].losses > 0 {
        maxLoss := maxLoss[slot := plies];
      }
      assert maxWin[slot + 1..] == maxWin0[slot..][1..] && maxLoss[slot + 1..] == maxLoss0[slot..][1..];
    }
  }

  // ---------------------------------------------------------------------
  // The start.

  /** The counters stored for a pair fit their words. */
  ghost predicate CountersFit(p: Pair) {
    forall slot, i | 0 <= slot < |p.tables| && 0 <= i < |p.tables[slot].entries| ::
      CounterFits(p.tables[slot].entries[i])
  }

  /** No stored counter is a positive multiple of 8192. */
  ghost predicate CountersKept(p: Pair) {
    forall slot, i | 0 <= slot < |p.tables| && 0 <= i < |p.tables[slot].entries| ::
      CounterKept(p.tables[slot].entries[i])
  }

  /** Exactly the rejected indices are invalid. */
  ghost predicate RejectsExactly(p: Pair, rows: Rows)
    requires |rows| == |p.tables|
  {
    forall slot | 0 <= slot < |rows| :: RowRejects(p.tables[slot].entries, rows[slot])
  }

  ghost predicate RowRejects(entries: seq<Entry>, row: Row) {
    |row| == |entries| && forall i | 0 <= i < |row| :: row[i].Invalid? <==> entries[i].Rejected?
  }

  lemma InitialRejections(p: Pair, rows: Rows, words: seq<WordRow>)
    requires |words| == |rows| == |p.tables|
    requires forall slot | 0 <= slot < |rows| ::
               rows[slot] == Unpacked(words[slot]) && InitialWordsOf(p.tables[slot].entries, words[slot])
    ensures RejectsExactly(p, rows) <==> CountersKept(p)
  {
    hide CounterKept, InitialWord, Unpack;
    forall slot, i | 0 <= slot < |rows| && 0 <= i < |rows[slot]|
      ensures (rows[slot][i].Invalid? <==> p.tables[slot].entries[i].Rejected?)
              <==> CounterKept(p.tables[slot].entries[i])
    {
      InvalidInitialWord(p.tables[slot].entries[i], words[slot][i]);
    }
    forall slot | 0 <= slot < |rows|
      ensures RowRejects(p.tables[slot].entries, rows[slot])
              <==> forall i | 0 <= i < |p.tables[slot].entries| :: CounterKept(p.tables[slot].entries[i])
    {
    }
  }

  /** Invalid indices stay what they are. */
  lemma RejectionsStay(p: Pair, rows: Rows, rows': Rows)
    requires |rows| == |p.tables| && SameInvalidRows(rows, rows')
    ensures RejectsExactly(p, rows') <==> RejectsExactly(p, rows)
  {
    forall slot | 0 <= slot < |rows|
      ensures RowRejects(p.tables[slot].entries, rows'[slot]) <==> RowRejects(p.tables[slot].entries, rows[slot])
    {
      assert SameInvalid(rows[slot], rows'[slot]);
    }
  }

  ghost predicate InitialWordsOf(entries: seq<Entry>, ws: WordRow) {
    |ws| == |entries| && forall i | 0 <= i < |ws| :: InitialWord(entries[i], ws[i])
  }

  /** The propagation starts from exact cells exactly if the stored counters fit. */
  lemma InitialPairIsExact(p: Pair, rows: Rows, words: seq<WordRow>)
    requires p.Valid() && CountersBalanced(p) && Shaped(p, rows) && |words| == |rows|
    requires forall slot | 0 <= slot < |rows| ::
               rows[slot] == Unpacked(words[slot]) && InitialWordsOf(p.tables[slot].entries, words[slot])
    ensures PairExact(p, rows, 1, PhasesAfter(|p.tables|, 0, 0)) <==> CountersFit(p)
  {
    hide SlotExact, CounterFits, InitialWordsOf, Unpacked, CountersBalanced, Pair.ValidSlot;
    InitialRowIsExact(p, rows, 0, words[0]);
    InitialRowIsExact(p, rows, |rows| - 1, words[|rows| - 1]);
  }

  lemma InitialRowIsExact(p: Pair, rows: Rows, slot: nat, ws: WordRow)
    requires p.Valid() && CountersBalanced(p) && Shaped(p, rows) && p.HasSlot(slot)
    requires rows[slot] == Unpacked(ws) && InitialWordsOf(p.tables[slot].entries, ws)
    ensures SlotExact(p, rows, slot, Stage(1, 0)) <==> forall i | 0 <= i < |p.tables[slot].entries| ::
              CounterFits(p.tables[slot].entries[i])
  {
    hide CounterFits, CellExact, InitialWord;
    var twin := p.Twin(slot);
    assert p.ValidSlot(twin) && BalancedSlot(p, slot);
    forall i | 0 <= i < |ws|
      ensures CellExact(p.tables[slot].entries[i], rows[slot][i], i, p.tables[twin].unmoves, rows[twin], Stage(1, 0))
              <==> CounterFits(p.tables[slot].entries[i])
    {
      InitialEntryIsExact(p.tables[slot].entries[i], ws[i], i, p.tables[twin].unmoves, rows[twin]);
    }
  }

  lemma InitialEntryIsExact(e: Entry, w: CellWord, i: nat, unmoves: seq<seq<nat>>, row: Row)
    requires |row| == |unmoves| && InitialWord(e, w)
    requires e.Open? ==> e.counter == |e.conversions| + TimesEmitted(unmoves, i)
    ensures CellExact(e, Unpack(w), i, unmoves, row, Stage(1, 0)) <==> CounterFits(e)
  {
    InitialWords(e, w);
    if CounterFits(e) {
      InitialCellIsExact(e, Unpack(w), i, unmoves, row);
    } else if CellExact(e, Unpack(w), i, unmoves, row, Stage(1, 0)) {
      NothingPassed(unmoves, row, i);
      MisfitIsNotExact(e, w, i, unmoves, row);
    }
  }

  lemma MisfitIsNotExact(e: Entry, w: CellWord, i: nat, unmoves: seq<seq<nat>>, row: Row)
    requires |row| == |unmoves| && InitialWord(e, w) && !CounterFits(e)
    requires TimesPassed(unmoves, row, Stage(1, 0), i) == 0
    ensures !CellExact(e, Unpack(w), i, unmoves, row, Stage(1, 0))
  {
    hide IsBestWin, IsBestLoss, WinExact, LossExact, Pack;
    var c :| InitialCell(e, c) && w == Pack(c);
    InitialWordIsExact(e, c);
    InitialKind(e, c);
    PackingIsExact(c);
  }

  lemma EntriesAreInitializable(p: Pair, slot: nat)
    requires p.Valid() && CountersBalanced(p) && p.HasSlot(slot)
    ensures forall i | 0 <= i < |p.tables[slot].entries| :: Initializable(p.tables[slot].entries[i])
  {
    assert p.ValidSlot(slot) && BalancedSlot(p, slot);
  }

  /** No position is resolved at ply 0 by a win. */
  lemma InitialCounts(entries: seq<Entry>, ws: WordRow)
    requires InitialWordsOf(entries, ws)
    ensures FoundAt(Unpacked(ws), 0).wins == 0
  {
    hide IsBestWin, IsBestLoss, Pack, Unpack;
    CountIsZero(Unpacked(ws), WonAt(0));
    forall i | 0 <= i < |ws| ensures !(Unpack(ws[i]).Won? && Unpack(ws[i]).plies == 0) {
      var c :| InitialCell(entries[i], c) && ws[i] == Pack(c);
      InitialKind(entries[i], c);
    }
  }

  /** Per slot, the reasons why indices were rejected. */
  ghost predicate InvalidCounted(p: Pair, invalid: seq<InvalidCounts>) {
    |invalid| == |p.tables| && forall slot | 0 <= slot < |invalid| :: TableCounted(p.tables[slot], invalid[slot])
  }

  ghost predicate TableCounted(t: Table, invalid: InvalidCounts) {
    |t.entries| == |t.diagonal| && invalid == RejectedBefore(t, |t.entries|)
  }

  lemma SlotLengths(p: Pair, slot: nat)
    requires p.Valid() && p.HasSlot(slot)
    ensures |p.tables[slot].unmoves| == |p.tables[slot].diagonal| == |p.tables[slot].entries|
  {
    assert p.ValidSlot(slot);
  }

  method Initialize(p: Pair)
    returns (working: WorkingPair, summaries: seq<PlySummary>, previous: seq<Found>, found: seq<Found>,
             invalid: seq<InvalidCounts>)
    requires p.Valid() && CountersBalanced(p)
    ensures fresh(working) && fresh(working.values) && forall s | s in summaries :: fresh(s.blocks)
    ensures working.Valid() && SummariesMatch(working, summaries) && AllBounded(working, summaries)
    ensures |working.values| == |p.tables|
    ensures Shaped(p, RowsOf(working.values))
    ensures PairExact(p, RowsOf(working.values), 1, PhasesAfter(|p.tables|, 0, 0)) <==> CountersFit(p)
    ensures RejectsExactly(p, RowsOf(working.values)) <==> CountersKept(p)
    ensures CountsAt(previous, RowsOf(working.values), 0) && CountsAt(found, RowsOf(working.values), 1)
    ensures InvalidCounted(p, invalid)
  {
    hide Bounded, InitialWordsOf, TableCounted, FoundAt, CountersBalanced, PairExact, CountersFit, CountersKept;
    hide Unpacked;
    hide RejectsExactly, Pair.ValidSlot;
    working := new WorkingPair(seq(|p.tables|, slot requires 0 <= slot < |p.tables| => |p.tables[slot].entries|));
    SlotLengths(p, 0);
    SlotLengths(p, |p.tables| - 1);
    var summary, previous0, found0, invalid0 := InitializeSlot(p, 0, working.values[0]);
    summaries, previous, found, invalid := [summary], [previous0], [found0], [invalid0];
    ghost var words := [working.values[0][..]];
    if |p.tables| == 2 {
      var summary', previous', found', invalid' := InitializeSlot(p, 1, working.values[1]);
      summaries, previous, found, invalid := [summary, summary'], [previous0, previous'], [found0, found'],
        [invalid0, invalid'];
      words := [working.values[0][..], working.values[1][..]];
    }
    InitialPairIsExact(p, RowsOf(working.values), words);
    InitialRejections(p, RowsOf(working.values), words);
  }

  method InitializeSlot(p: Pair, slot: nat, cells: array<CellWord>)
    returns (summary: PlySummary, previous: Found, found: Found, invalid: InvalidCounts)
    requires p.Valid() && CountersBalanced(p) && p.HasSlot(slot)
    requires cells.Length == |p.tables[slot].entries|
    modifies cells
    ensures fresh(summary) && fresh(summary.blocks) && summary.Valid() && summary.size == cells.Length
    ensures Bounded(Unpacked(cells[..]), summary.blocks[..])
    ensures InitialWordsOf(p.tables[slot].entries, cells[..])
    ensures previous == FoundAt(Unpacked(cells[..]), 0) && found == FoundAt(Unpacked(cells[..]), 1)
    ensures TableCounted(p.tables[slot], invalid)
  {
    hide InitialWord, Unpack;
    assert p.ValidSlot(slot);
    EntriesAreInitializable(p, slot);
    summary := new PlySummary(cells.Length);
    var counts := InitializeTable(p.tables[slot], cells, summary);
    InitialCounts(p.tables[slot].entries, cells[..]);
    assert Unpacked(cells[..])[..cells.Length] == Unpacked(cells[..]);
    previous, found, invalid := Found(0, counts.checkmates), counts.found, counts.invalid;
  }

  /** At the start of a later ply nothing is resolved at it. */
  lemma NothingFoundYet(p: Pair, rows: Rows, plies: nat)
    requires p.Valid() && plies > 1 && PairExact(p, rows, plies, PhasesAfter(|p.tables|, 0, 0))
    ensures CountsAt(seq(|rows|, _ => Found(0, 0)), rows, plies)
  {
    forall slot | 0 <= slot < |rows| ensures FoundAt(rows[slot], plies) == Found(0, 0) {
      assert SlotExact(p, rows, slot, Stage(plies, 0));
      CountIsZero(rows[slot], WonAt(plies));
      CountIsZero(rows[slot], LostAt(plies));
    }
  }

  lemma {:induction false} NoneFound(found: seq<Found>)
    ensures TotalFound(found) == 0 <==> forall slot | 0 <= slot < |found| :: found[slot].IsEmpty()
  {
    if found != [] {
      NoneFound(found[..|found| - 1]);
    }
  }

  lemma EmptyCountsAreQuiescent(rows: Rows, found: seq<Found>, plies: nat)
    requires CountsAt(found, rows, plies) && TotalFound(found) == 0
    ensures Quiescent(rows, plies)
  {
    NoneFound(found);
    forall slot: nat, i: nat | slot < |rows| && i < |rows[slot]|
      ensures !(rows[slot][i].Won? && rows[slot][i].plies == plies)
              && !(rows[slot][i].Lost? && rows[slot][i].plies == plies)
    {
      CountIsZero(rows[slot], WonAt(plies));
      CountIsZero(rows[slot], LostAt(plies));
    }
  }

  /** What a solved pair owes to its tables: the checker accepts it once unknowns
      are draws, exactly the rejected indices are invalid, and the reported maxima
      are the longest win and loss. */
  ghost predicate Solved(p: Pair, rows: Rows, maxWin: seq<nat>, maxLoss: seq<nat>)
    requires p.Valid()
  {
    && Shaped(p, rows)
    && |maxWin| == |maxLoss| == |rows|
    && WellFormed(EmissionGame(p))
    && Readings(FinishedCells(p, rows)).Keys == Positions(p)
    && Accepts(EmissionGame(p), Readings(FinishedCells(p, rows)))
    && forall slot: nat | slot < |rows| ::
         && |p.tables[slot].entries| == |rows[slot]|
         && (forall i | 0 <= i < |rows[slot]| :: rows[slot][i].Invalid? <==> p.tables[slot].entries[i].Rejected?)
         && LongestWith(rows[slot], maxWin[slot], true)
         && LongestWith(rows[slot], maxLoss[slot], false)
  }

  ghost predicate LongestWith(row: Row, m: nat, won: bool) {
    && (forall i | 0 <= i < |row| && Decided(row[i], won) :: row[i].plies <= m)
    && (m > 0 ==> exists i :: 0 <= i < |row| && Decided(row[i], won) && row[i].plies == m)
  }

  lemma QuiescentPairIsSolved(p: Pair, rows: Rows, plies: nat, found: seq<Found>, maxWin: seq<nat>, maxLoss: seq<nat>)
    requires p.Valid() && CountersBalanced(p) && PairExact(p, rows, plies, PhasesAfter(|p.tables|, 4, 0))
    requires CountsAt(found, rows, plies) && TotalFound(found) == 0 && plies > 0
    requires AreLongest(rows, maxWin, maxLoss, plies + 1)
    ensures Solved(p, rows, maxWin, maxLoss)
  {
    hide SlotExact, CountersBalanced, CountsAt, Quiescent, IsLongest, LongestWith, Accepts, WellFormed;
    hide FinishedCells, Pair.ValidSlot;
    EmptyCountsAreQuiescent(rows, found, plies);
    SolvedPairIsAccepted(p, rows, plies, PhasesAfter(|p.tables|, 4, 0));
    forall slot: nat | slot < |rows|
      ensures |p.tables[slot].entries| == |rows[slot]|
      ensures forall i | 0 <= i < |rows[slot]| :: rows[slot][i].Invalid? <==> p.tables[slot].entries[i].Rejected?
      ensures LongestWith(rows[slot], maxWin[slot], true) && LongestWith(rows[slot], maxLoss[slot], false)
    {
      SlotFacts(p, rows, slot, plies);
      LongestOfAll(rows[slot], maxWin[slot], true, plies);
      LongestOfAll(rows[slot], maxLoss[slot], false, plies);
    }
  }

  lemma LongestOfAll(row: Row, m: nat, won: bool, plies: nat)
    requires IsLongest(row, m, won, plies + 1)
    requires forall i | 0 <= i < |row| && (row[i].Won? || row[i].Lost?) :: row[i].plies <= plies
    ensures LongestWith(row, m, won)
  {
  }

  lemma SlotFacts(p: Pair, rows: Rows, slot: nat, plies: nat)
    requires p.Valid() && Shaped(p, rows) && p.HasSlot(slot) && SlotExact(p, rows, slot, Stage(plies, 4))
    ensures |p.tables[slot].entries| == |rows[slot]|
    ensures forall i | 0 <= i < |rows[slot]| ::
              && (rows[slot][i].Invalid? <==> p.tables[slot].entries[i].Rejected?)
              && (rows[slot][i].Won? || rows[slot][i].Lost? ==> rows[slot][i].plies <= plies)
  {
    var twin := p.Twin(slot);
    forall i | 0 <= i < |rows[slot]|
      ensures rows[slot][i].Invalid? <==> p.tables[slot].entries[i].Rejected?
      ensures rows[slot][i].Won? || rows[slot][i].Lost? ==> rows[slot][i].plies <= plies
    {
      assert CellExact(p.tables[slot].entries[i], rows[slot][i], i, p.tables[twin].unmoves, rows[twin],
                       Stage(plies, 4));
    }
  }

  lemma InitialLongest(rows: Rows)
    ensures AreLongest(rows, seq(|rows|, _ => 0), seq(|rows|, _ => 0), 1)
  {
  }

  lemma PlyTurns(p: Pair, rows: Rows, plies: nat)
    requires p.Valid() && PairExact(p, rows, plies, PhasesAfter(|p.tables|, 4, 0))
    ensures PairExact(p, rows, plies + 1, PhasesAfter(|p.tables|, 0, 0))
  {
    PairNextPly(p, rows, plies, PhasesAfter(|p.tables|, 4, 0), PhasesAfter(|p.tables|, 0, 0));
  }

  // ---------------------------------------------------------------------
  // Depth.

  /** The reported maxima fit the words of a table. */
  ghost predicate MaximaFit(maxWin: seq<nat>, maxLoss: seq<nat>) {
    && (forall s | 0 <= s < |maxWin| :: maxWin[s] < 0x2000)
    && (forall s | 0 <= s < |maxLoss| :: maxLoss[s] < 0x2000)
  }

  /** Distances fit their words exactly when the reported maxima do. */
  lemma MaximaBoundDepth(row: Row, maxWin: nat, maxLoss: nat)
    requires LongestWith(row, maxWin, true) && LongestWith(row, maxLoss, false)
    ensures (forall i | 0 <= i < |row| && (row[i].Won? || row[i].Lost?) :: Fits(row[i]))
            <==> maxWin < 0x2000 && maxLoss < 0x2000
  {
  }

  /** Words never hold a pair solved with deeper maxima. */
  lemma SolvedWordsFit(p: Pair, rows: Rows, words: seq<WordRow>, maxWin: seq<nat>, maxLoss: seq<nat>)
    requires p.Valid() && Solved(p, rows, maxWin, maxLoss) && |words| == |rows|
    requires forall slot | 0 <= slot < |rows| :: rows[slot] == Unpacked(words[slot])
    ensures MaximaFit(maxWin, maxLoss)
  {
    hide Accepts, WellFormed, FinishedCells, Unpacked, Fits, LongestWith, Pair.Valid;
    forall slot: nat | slot < |rows| ensures maxWin[slot] < 0x2000 && maxLoss[slot] < 0x2000 {
      WordsAreFittingRows(words[slot], rows[slot]);
      MaximaBoundDepth(rows[slot], maxWin[slot], maxLoss[slot]);
    }
  }

  /** Words never hold a pair solved that is decided at greater distances. */
  lemma SolvedWordsAreShallow(p: Pair, rows: Rows, words: seq<WordRow>, maxWin: seq<nat>, maxLoss: seq<nat>)
    requires p.Valid() && Solved(p, rows, maxWin, maxLoss) && |words| == |rows|
    requires forall slot | 0 <= slot < |rows| :: rows[slot] == Unpacked(words[slot])
    ensures ShallowPair(p)
  {
    hide BestForced, BestHeld, NothingForced, EmissionGame, WellFormed, Unpacked, Accepts, Pair.ValidSlot;
    var g, a := EmissionGame(p), Readings(FinishedCells(p, rows));
    GameHasPositions(p);
    forall r, ct, n: nat | r in g && (BestForced(g, r, ct, n) || BestHeld(g, r, ct, n)) ensures n < 0x2000 {
      AcceptedValueIsForced(g, a, r);
      WordsAreFittingRows(words[r.slot], rows[r.slot]);
      assert Fits(rows[r.slot][r.index]);
    }
  }

  /** The state between two plies. `exact` tells whether the words have followed the
      cells so far; if not although all counters fit, the pair is too deep, and the maxima
      show it. */
  ghost predicate RunState(p: Pair, rows: Rows, plies: nat, previous: seq<Found>, foundByConversion: seq<Found>,
                           maxWin: seq<nat>, maxLoss: seq<nat>, exact: bool)
    requires p.Valid()
  {
    && Shaped(p, rows) && |previous| == |foundByConversion| == |maxWin| == |maxLoss| == |rows|
    && (RejectsExactly(p, rows) <==> CountersKept(p))
    && 0 < plies <= 0x2002
    && (plies > 0x2001 ==> NoWins(previous))
    && (forall s | 0 <= s < |rows| :: maxWin[s] <= 0x2000 && maxLoss[s] <= 0x2001)
    && (exact ==>
          && plies <= 0x2000
          && PairExact(p, rows, plies, PhasesAfter(|p.tables|, 0, 0))
          && CountsAt(previous, rows, plies - 1)
          && (plies == 1 ==> CountsAt(foundByConversion, rows, 1))
          && AreLongest(rows, maxWin, maxLoss, plies))
    && (!exact && CountersFit(p) ==> plies > 0x2000 && !MaximaFit(maxWin, maxLoss) && !ShallowPair(p))
  }

  lemma InitialRunState(p: Pair, rows: Rows, previous: seq<Found>, found: seq<Found>, zeros: seq<nat>)
    requires p.Valid() && Shaped(p, rows) && zeros == seq(|rows|, _ => 0)
    requires PairExact(p, rows, 1, PhasesAfter(|p.tables|, 0, 0)) <==> CountersFit(p)
    requires RejectsExactly(p, rows) <==> CountersKept(p)
    requires CountsAt(previous, rows, 0) && CountsAt(found, rows, 1)
    ensures RunState(p, rows, 1, previous, found, zeros, zeros, CountersFit(p))
  {
    hide PairExact, CountersFit, CountersKept, RejectsExactly, FoundAt, IsLongest;
    InitialLongest(rows);
  }

  /** A ply has been completed. */
  ghost predicate PlyDone(p: Pair, rows: Rows, rows': Rows, plies: nat, previous: seq<Found>, found: seq<Found>,
                          maxWin: seq<nat>, maxLoss: seq<nat>, maxWin': seq<nat>, maxLoss': seq<nat>, exact: bool)
    requires p.Valid()
  {
    && Shaped(p, rows') && |found| == |maxWin| == |maxLoss| == |rows'|
    && LateFound(plies, previous, found)
    && maxWin' == MaximaAfter(maxWin, found, plies, true) && maxLoss' == MaximaAfter(maxLoss, found, plies, false)
    && (exact && StillShallow(plies, found) ==>
          && PairExact(p, rows', plies, PhasesAfter(|p.tables|, 4, 0))
          && CountsAt(found, rows', plies)
          && AreLongest(rows', maxWin', maxLoss', plies + 1))
    && SameInvalidRows(rows, rows')
    && (exact && plies == 0x2000 && TotalFound(found) > 0 ==> !ShallowPair(p))
    && Remaining(rows') <= Remaining(rows)
    && (plies > 1 && TotalFound(found) > 0 ==> Remaining(rows') < Remaining(rows))
  }

  /** The start of a ply. */
  lemma PlyStarts(p: Pair, rows: Rows, plies: nat, previous: seq<Found>, foundByConversion: seq<Found>,
                  maxWin: seq<nat>, maxLoss: seq<nat>, exact: bool, found: seq<Found>)
    requires p.Valid() && RunState(p, rows, plies, previous, foundByConversion, maxWin, maxLoss, exact)
    requires found == if plies == 1 then foundByConversion else seq(|p.tables|, _ => Found(0, 0))
    ensures PlyState(p, rows, rows, plies, PhasesAfter(|p.tables|, 0, 0), previous, found,
                     Remaining(rows) + TotalFound(found), exact)
    ensures plies > 1 ==> TotalFound(found) == 0
  {
    hide PairExact, CountersFit, FoundAt, AreLongest, MaximaFit;
    if plies > 1 {
      NoneFound(found);
      if exact {
        NothingFoundYet(p, rows, plies);
      }
    }
  }

  lemma PlyEnds(p: Pair, rows: Rows, rows': Rows, plies: nat, previous: seq<Found>, foundByConversion: seq<Found>,
                found: seq<Found>, maxWin: seq<nat>, maxLoss: seq<nat>, found0: seq<Found>, exact: bool)
    requires p.Valid() && RunState(p, rows, plies, previous, foundByConversion, maxWin, maxLoss, exact)
    requires PlyState(p, rows, rows', plies, PhasesAfter(|p.tables|, 4, 0), previous, found,
                      Remaining(rows) + TotalFound(found0), exact)
    requires plies > 1 ==> TotalFound(found0) == 0
    ensures PlyDone(p, rows, rows', plies, previous, found, maxWin, maxLoss,
                    MaximaAfter(maxWin, found, plies, true), MaximaAfter(maxLoss, found, plies, false), exact)
  {
    hide PairExact, CountersFit, CountsAt, AreLongest, MaximaFit, MaximaAfter, RowsResolveAt, LateFound, PhasesAfter;
    if exact && StillShallow(plies, found) {
      MaximaAreLongest(rows, rows', maxWin, maxLoss, found, plies);
    }
  }

  /** A ply that found something is followed by another. */
  lemma NextRunState(p: Pair, rows: Rows, rows': Rows, plies: nat, previous: seq<Found>, foundByConversion: seq<Found>,
                     found: seq<Found>, maxWin: seq<nat>, maxLoss: seq<nat>, maxWin': seq<nat>, maxLoss': seq<nat>,
                     exact: bool)
    requires p.Valid() && RunState(p, rows, plies, previous, foundByConversion, maxWin, maxLoss, exact)
    requires PlyDone(p, rows, rows', plies, previous, found, maxWin, maxLoss, maxWin', maxLoss', exact)
             && TotalFound(found) > 0
    ensures RunState(p, rows', plies + 1, found, foundByConversion, maxWin', maxLoss', exact && plies < 0x2000)
  {
    hide PairExact, CountersFit, CountersKept, RejectsExactly, CountsAt, AreLongest, PhasesAfter;
    hide SameInvalidRows, ShallowPair;
    RejectionsStay(p, rows, rows');
    NoneFound(found);
    var s :| 0 <= s < |found| && !found[s].IsEmpty();
    if plies >= 0x2000 {
      assert maxWin'[s] == plies || maxLoss'[s] == plies;
    }
    if exact && plies < 0x2000 {
      PlyTurns(p, rows', plies);
    }
  }

  /** When a ply finds nothing, the words hold the solution exactly if the pair is
      shallow, which the maxima tell. */
  lemma RunEnds(p: Pair, rows: Rows, rows': Rows, words: seq<WordRow>, plies: nat, previous: seq<Found>,
                foundByConversion: seq<Found>, found: seq<Found>, maxWin: seq<nat>, maxLoss: seq<nat>,
                maxWin': seq<nat>, maxLoss': seq<nat>, exact: bool)
    requires p.Valid() && CountersBalanced(p)
    requires RunState(p, rows, plies, previous, foundByConversion, maxWin, maxLoss, exact)
    requires PlyDone(p, rows, rows', plies, previous, found, maxWin, maxLoss, maxWin', maxLoss', exact)
             && TotalFound(found) == 0
    requires |words| == |rows'| && forall slot | 0 <= slot < |rows'| :: rows'[slot] == Unpacked(words[slot])
    ensures CountersFit(p) ==> (Solved(p, rows', maxWin', maxLoss') <==> ShallowPair(p))
    ensures CountersFit(p) ==> (MaximaFit(maxWin', maxLoss') <==> ShallowPair(p))
    ensures RejectsExactly(p, rows') <==> CountersKept(p)
    ensures Reported(p, maxWin', maxLoss')
  {
    hide PairExact, CountersFit, CountersBalanced, CountsAt, AreLongest, PhasesAfter, Solved, Pair.ValidSlot, Unpacked;
    hide RejectsExactly, CountersKept, SameInvalidRows, ShallowPair;
    NoneFound(found);
    RejectionsStay(p, rows, rows');
    assert maxWin' == maxWin && maxLoss' == maxLoss;
    if exact {
      QuiescentPairIsSolved(p, rows', plies, found, maxWin', maxLoss');
    }
    if Solved(p, rows', maxWin', maxLoss') {
      SolvedWordsFit(p, rows', words, maxWin', maxLoss');
      SolvedWordsAreShallow(p, rows', words, maxWin', maxLoss');
    }
  }

  /** The loop ends by ply 8194, so 16-bit plies do not wrap. */
  ghost predicate Reported(p: Pair, maxWin: seq<nat>, maxLoss: seq<nat>) {
    && |maxWin| == |maxLoss| == |p.tables|
    && forall s | 0 <= s < |maxWin| :: maxWin[s] <= 0x2000 && maxLoss[s] <= 0x2001
  }

  /** Solves a pair whose counters count its emissions. If the stored counters fit, the
      words left hold the solution exactly if no position is decided at a distance that
      does not fit, and the maxima tell. Invalid indices are the rejected ones unless a
      counter is a multiple of 8192. */
  method SolvePair(p: Pair)
    returns (working: WorkingPair, maxWin: seq<nat>, maxLoss: seq<nat>, invalid: seq<InvalidCounts>)
    requires p.Valid() && CountersBalanced(p)
    ensures fresh(working) && working.Valid() && |working.values| == |p.tables| && Shaped(p, RowsOf(working.values))
    ensures CountersFit(p) ==> (Solved(p, RowsOf(working.values), maxWin, maxLoss) <==> ShallowPair(p))
    ensures CountersFit(p) ==> (MaximaFit(maxWin, maxLoss) <==> ShallowPair(p))
    ensures RejectsExactly(p, RowsOf(working.values)) <==> CountersKept(p)
    ensures Reported(p, maxWin, maxLoss)
    ensures InvalidCounted(p, invalid)
  {
    hide PairExact, AllBounded, SummariesMatch, Solved, RunState, PlyDone, CountsAt, CountersBalanced;
    hide Pair.Valid, InvalidCounted, Remaining, TotalFound, CountersFit, MaximaFit, Reported, Unpacked;
    hide ShallowPair, RejectsExactly, CountersKept;
    var summaries: seq<PlySummary>, previous: seq<Found>, foundByConversion: seq<Found>;
    working, summaries, previous, foundByConversion, invalid := Initialize(p);
    maxWin := seq(|p.tables|, _ => 0);
    maxLoss := maxWin;
    var plies := 1;
    ghost var exact := CountersFit(p);
    InitialRunState(p, RowsOf(working.values), previous, foundByConversion, maxWin);
    while true
      invariant plies > 0 && AllBounded(working, summaries)
      invariant RunState(p, RowsOf(working.values), plies, previous, foundByConversion, maxWin, maxLoss, exact)
      decreases Remaining(RowsOf(working.values)) + if plies == 1 then 1 else 0
    {
      ghost var rows, maxWin0, maxLoss0 := RowsOf(working.values), maxWin, maxLoss;
      var found;
      found, maxWin, maxLoss := SolvePly(p, working, summaries, plies, previous, foundByConversion, maxWin, maxLoss,
                                         exact);
      NoneFound(found);
      if forall slot | 0 <= slot < |found| :: found[slot].IsEmpty() {
        RunEnds(p, rows, RowsOf(working.values), WordsOf(working.values), plies, previous, foundByConversion, found,
                maxWin0, maxLoss0, maxWin, maxLoss, exact);
        return;
      }
      NextRunState(p, rows, RowsOf(working.values), plies, previous, foundByConversion, found, maxWin0, maxLoss0,
                   maxWin, maxLoss, exact);
      PlyProgress(p, rows, RowsOf(working.values), plies, previous, found, maxWin0, maxLoss0, maxWin, maxLoss, exact);
      exact := exact && plies < 0x2000;
      previous := found;
      plies := plies + 1;
    }
  }

  lemma PlyProgress(p: Pair, rows: Rows, rows': Rows, plies: nat, previous: seq<Found>, found: seq<Found>,
                    maxWin: seq<nat>, maxLoss: seq<nat>, maxWin': seq<nat>, maxLoss': seq<nat>, exact: bool)
    requires p.Valid() && PlyDone(p, rows, rows', plies, previous, found, maxWin, maxLoss, maxWin', maxLoss', exact)
    ensures Remaining(rows') <= Remaining(rows)
    ensures plies > 1 && TotalFound(found) > 0 ==> Remaining(rows') < Remaining(rows)
  {
  }

  ghost function WordsOf(values: seq<array<CellWord>>): (words: seq<WordRow>)
    requires 1 <= |values| <= 2
    reads values
    ensures |words| == |values| && forall slot | 0 <= slot < |values| :: words[slot] == values[slot][..]
  {
    if |values| == 1 then [values[0][..]] else [values[0][..], values[1][..]]
  }

  lemma LengthsAgree(p: Pair, rows: Rows, rows': Rows, plies: nat, previous: seq<Found>, foundByConversion: seq<Found>,
                     maxWin: seq<nat>, maxLoss: seq<nat>, exact: bool, found: seq<Found>, balance: nat)
    requires p.Valid() && RunState(p, rows, plies, previous, foundByConversion, maxWin, maxLoss, exact)
    requires PlyState(p, rows, rows', plies, PhasesAfter(|p.tables|, 4, 0), previous, found, balance, exact)
    ensures |maxWin| == |maxLoss| == |found|
  {
  }

  /** One round of the main loop: the ply and the maxima. Every later ply leaves fewer
      positions unresolved, or is the last. */
  method SolvePly(p: Pair, working: WorkingPair, summaries: seq<PlySummary>, plies: nat, previous: seq<Found>,
                  foundByConversion: seq<Found>, maxWin0: seq<nat>, maxLoss0: seq<nat>, ghost exact: bool)
    returns (found: seq<Found>, maxWin: seq<nat>, maxLoss: seq<nat>)
    requires p.Valid() && CountersBalanced(p) && working.Valid() && SummariesMatch(working, summaries) && plies > 0
    requires |working.values| == |p.tables| && AllBounded(working, summaries)
    requires RunState(p, RowsOf(working.values), plies, previous, foundByConversion, maxWin0, maxLoss0, exact)
    modifies working.values, set s | s in summaries :: s.blocks
    ensures AllBounded(working, summaries)
    ensures PlyDone(p, old(RowsOf(working.values)), RowsOf(working.values), plies, previous, found, maxWin0, maxLoss0,
                    maxWin, maxLoss, exact)
  {
    hide RunState, PlyState, PlyDone, Bounded, CountersBalanced, Pair.Valid, Remaining, TotalFound, MaximaAfter;
    hide Unpacked;
    ghost var rows := RowsOf(working.values);
    found := if plies == 1 then foundByConversion else seq(|p.tables|, _ => Found(0, 0));
    ghost var found0 := found;
    PlyStarts(p, rows, plies, previous, foundByConversion, maxWin0, maxLoss0, exact, found);
    found := PropagatePly(p, working, summaries, plies, previous, found, exact);
    LengthsAgree(p, rows, RowsOf(working.values), plies, previous, foundByConversion, maxWin0, maxLoss0, exact, found,
                 Remaining(rows) + TotalFound(found0));
    maxWin, maxLoss := UpdateLongest(maxWin0, maxLoss0, found, plies);
    PlyEnds(p, rows, RowsOf(working.values), plies, previous, foundByConversion, found, maxWin0, maxLoss0, found0,
            exact);
  }
}

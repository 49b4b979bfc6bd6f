/** Whole plies carried out by workers: each scan is any complete run of its updates,
    with the sources read at any moments of that run. Whatever the schedules, a run of
    such plies ends as the sequential solver does. */
module ConcurrentPlies {
  import opened Cells
  import opened Checker
  import opened Interleaving
  import opened Propagation
  import opened Retrograde
  import opened Scans
  import opened SolvedPair
  import opened Summaries
  import opened WordRows

  /** The words and block bounds of a pair between two scans, and what the ply found. */
  datatype PairState = PairState(words: seq<WordRow>, blocks: seq<seq<BlockSummary>>, found: seq<Found>)

  ghost function CellsOf(words: seq<WordRow>): (rows: Rows)
    ensures |rows| == |words|
  {
    seq(|words|, slot requires 0 <= slot < |words| => Unpacked(words[slot]))
  }

  ghost predicate InShape(p: Pair, s: PairState)
    requires p.Valid()
  {
    && |s.words| == |s.blocks| == |s.found| == |p.tables|
    && Shaped(p, CellsOf(s.words))
    && forall slot | 0 <= slot < |s.words| :: Bounded(Unpacked(s.words[slot]), s.blocks[slot])
  }

  // ---------------------------------------------------------------------
  // One scan.

  /** A scan by workers: the blocks they are given, the words they saw there, the
      updates that follow from these in any order, and the run of the updates. */
  datatype Execution = Execution(ranges: seq<(nat, nat)>, seen: WordRow, us: seq<Update>, run: seq<State>)

  /** The updates that follow from the words seen in the given blocks. */
  function CollectedUpdates(unmoves: seq<seq<nat>>, seen: WordRow, scan: Scan, ranges: seq<(nat, nat)>): seq<Update>
    requires |seen| == |unmoves| && forall k | 0 <= k < |ranges| :: ranges[k].0 <= ranges[k].1 <= |seen|
  {
    if ranges == [] then []
    else
      var (start, end) := ranges[|ranges| - 1];
      CollectedUpdates(unmoves, seen, scan, ranges[..|ranges| - 1]) + WordUpdates(unmoves, seen, scan, start, end)
  }

  /** Each word was read at some moment of the run, which may be updating the same row. */
  ghost predicate ReadDuring(seen: WordRow, source: WordRow, shared: bool, run: seq<State>) {
    && |seen| == |source|
    && forall i | 0 <= i < |source| :: if shared then ReadAtSomeMoment(seen[i], i, run) else seen[i] == source[i]
  }

  ghost predicate ReadAtSomeMoment(w: CellWord, i: nat, run: seq<State>) {
    exists m :: 0 <= m < |run| && i < |run[m].row| && run[m].row[i] == w
  }

  /** The blocks to scan: none without sources, else those whose bound admits one. */
  ghost predicate GivenBlocks(ranges: seq<(nat, nat)>, blocks: seq<BlockSummary>, size: nat, scan: Scan,
                              previous: Found)
    requires scan.plies > 0
  {
    && |blocks| == NumBlocks(size)
    && if SourceCount(scan, previous) == 0 then ranges == []
       else CoversBlocks(ranges, blocks, size, SourceKind(scan), scan.plies - 1)
  }

  ghost predicate IsExecution(p: Pair, s: PairState, slot: nat, scan: Scan, previous: Found, x: Execution)
    requires p.Valid() && InShape(p, s) && p.HasSlot(slot)
  {
    var twin, unmoves := p.Twin(slot), p.tables[slot].unmoves;
    && |unmoves| == |s.words[slot]| && scan.plies > 0
    && GivenBlocks(x.ranges, s.blocks[slot], |unmoves|, scan, previous)
    && ReadDuring(x.seen, s.words[slot], twin == slot, x.run)
    && multiset(x.us) == multiset(CollectedUpdates(unmoves, x.seen, scan, x.ranges))
    && IsRun(x.run, s.words[twin], s.blocks[twin], x.us, scan) && Complete(x.run[|x.run| - 1])
  }

  function After(s: PairState, twin: nat, last: State): PairState
    requires twin < |s.words| == |s.blocks| == |s.found|
  {
    PairState(s.words[twin := last.row], s.blocks[twin := last.blocks],
              s.found[twin := s.found[twin].Merge(last.found)])
  }

  /** What was seen has the sources that were there before the scan. */
  lemma SeenSources(x: Execution, source: WordRow, target: WordRow, blocks: seq<BlockSummary>, shared: bool, scan: Scan)
    requires UpdatesInRange(x.us, |target|) && Bounded(Unpacked(target), blocks)
             && IsRun(x.run, target, blocks, x.us, scan)
    requires ReadDuring(x.seen, source, shared, x.run) && (shared ==> target == source)
    ensures SourcesKept(source, x.seen, scan)
  {
    hide Bounded, Unpacked, IsRun, Scan.IsSourceWord, SourcesKept;
    forall i | 0 <= i < |source|
      ensures x.seen[i] == source[i] || !(scan.IsSourceWord(source[i]) || scan.IsSourceWord(x.seen[i]))
    {
      if shared {
        assert ReadAtSomeMoment(x.seen[i], i, x.run);
        var m: nat :| m < |x.run| && i < |x.run[m].row| && x.run[m].row[i] == x.seen[i];
        SourcesStayVisible(x.run, target, blocks, x.us, scan, m);
        KeptWord(source, x.run[m].row, scan, i);
      }
    }
    AllKept(source, x.seen, scan);
  }

  lemma KeptWord(a: WordRow, b: WordRow, scan: Scan, i: nat)
    requires SourcesKept(a, b, scan) && i < |a|
    ensures b[i] == a[i] || !(scan.IsSourceWord(a[i]) || scan.IsSourceWord(b[i]))
  {
  }

  lemma AllKept(a: WordRow, b: WordRow, scan: Scan)
    requires |a| == |b|
    requires forall i | 0 <= i < |a| :: b[i] == a[i] || !(scan.IsSourceWord(a[i]) || scan.IsSourceWord(b[i]))
    ensures SourcesKept(a, b, scan)
  {
  }

  lemma {:induction false} KeptSourcesEmitAlike(unmoves: seq<seq<nat>>, a: WordRow, b: WordRow, scan: Scan, lo: nat,
                                                hi: nat)
    requires SourcesKept(a, b, scan) && lo <= hi <= |a| == |unmoves|
    ensures WordUpdates(unmoves, a, scan, lo, hi) == WordUpdates(unmoves, b, scan, lo, hi)
  {
    if lo < hi {
      KeptSourcesEmitAlike(unmoves, a, b, scan, lo, hi - 1);
      KeptWord(a, b, scan, hi - 1);
    }
  }

  /** Blocks that hold all sources collect the updates of the whole table. */
  lemma {:induction false} CollectedPrefix(unmoves: seq<seq<nat>>, ws: WordRow, scan: Scan, ranges: seq<(nat, nat)>,
                                           k: nat)
    requires |ws| == |unmoves| && Ascending(ranges, |ws|) && HoldSources(ranges, ws, scan) && k <= |ranges|
    ensures EndBefore(ranges, k) <= |ws|
    ensures CollectedUpdates(unmoves, ws, scan, ranges[..k]) == WordUpdates(unmoves, ws, scan, 0, EndBefore(ranges, k))
  {
    hide HoldSources, WordUpdates;
    if k == 0 {
      assert WordUpdates(unmoves, ws, scan, 0, 0) == [] by {
        UpdatesConcat(unmoves, ws, scan, 0, 0, 0);
      }
    } else {
      CollectedPrefix(unmoves, ws, scan, ranges, k - 1);
      UpdatesOfRange(unmoves, ws, scan, ranges, k - 1);
      assert ranges[..k][..k - 1] == ranges[..k - 1];
    }
  }

  lemma {:induction false} CollectedAlike(unmoves: seq<seq<nat>>, a: WordRow, b: WordRow, scan: Scan,
                                          ranges: seq<(nat, nat)>)
    requires SourcesKept(a, b, scan) && |a| == |unmoves| && forall k | 0 <= k < |ranges| ::
               ranges[k].0 <= ranges[k].1 <= |a|
    ensures CollectedUpdates(unmoves, a, scan, ranges) == CollectedUpdates(unmoves, b, scan, ranges)
  {
    hide SourcesKept, WordUpdates;
    if ranges != [] {
      var (start, end) := ranges[|ranges| - 1];
      CollectedAlike(unmoves, a, b, scan, ranges[..|ranges| - 1]);
      KeptSourcesEmitAlike(unmoves, a, b, scan, start, end);
    }
  }

  lemma {:induction false} CollectedInRange(unmoves: seq<seq<nat>>, ws: WordRow, scan: Scan, ranges: seq<(nat, nat)>,
                                            targets: nat)
    requires |ws| == |unmoves| && forall k | 0 <= k < |ranges| :: ranges[k].0 <= ranges[k].1 <= |ws|
    requires forall s | 0 <= s < |unmoves| :: InRange(unmoves[s], targets)
    ensures UpdatesInRange(CollectedUpdates(unmoves, ws, scan, ranges), targets)
  {
    if ranges != [] {
      var (start, end) := ranges[|ranges| - 1];
      CollectedInRange(unmoves, ws, scan, ranges[..|ranges| - 1], targets);
      WordUpdatesInRange(unmoves, ws, scan, start, end, targets);
    }
  }

  lemma {:induction false} NothingCollected(unmoves: seq<seq<nat>>, ws: WordRow, scan: Scan, ranges: seq<(nat, nat)>)
    requires |ws| == |unmoves| && forall k | 0 <= k < |ranges| :: ranges[k].0 <= ranges[k].1 <= |ws|
    requires ranges == [] || !HasSourceWord(ws, scan)
    ensures CollectedUpdates(unmoves, ws, scan, ranges) == []
  {
    if ranges != [] {
      var (start, end) := ranges[|ranges| - 1];
      NothingCollected(unmoves, ws, scan, ranges[..|ranges| - 1]);
      NoUpdates(unmoves, ws, scan, start, end);
    }
  }

  lemma ReorderedInRange(us: seq<Update>, vs: seq<Update>, n: nat)
    requires multiset(us) == multiset(vs) && UpdatesInRange(vs, n)
    ensures UpdatesInRange(us, n)
  {
    forall k | 0 <= k < |us| ensures us[k].index < n {
      assert us[k] in multiset(vs);
    }
  }

  lemma ReorderedOneType(us: seq<Update>, vs: seq<Update>, scan: Scan)
    requires multiset(us) == multiset(vs) && OneType(vs, scan)
    ensures OneType(us, scan)
  {
    forall k | 0 <= k < |us| && scan.Wins? ensures us[k].ct == scan.ct {
      assert us[k] in multiset(vs);
    }
  }

  /** The updates that follow from what was seen are those of the whole table, if the
      blocks given hold all its sources. */
  lemma ExecutedUpdates(p: Pair, s: PairState, slot: nat, scan: Scan, previous: Found, x: Execution)
    requires p.Valid() && InShape(p, s) && p.HasSlot(slot) && 0 < scan.plies <= 0x2000
    requires IsExecution(p, s, slot, scan, previous, x) && previous == FoundAt(Unpacked(s.words[slot]), scan.plies - 1)
    requires UpdatesInRange(x.us, |s.words[p.Twin(slot)]|)
    ensures |p.tables[slot].unmoves| == |s.words[slot]|
    ensures multiset(x.us) == multiset(WordUpdates(p.tables[slot].unmoves, s.words[slot], scan, 0, |s.words[slot]|))
  {
    hide Bounded, HoldSources, IsRun, Complete, SourcesKept, SourceCount, FoundAt, Unpacked, WordUpdates;
    hide CollectedUpdates;
    hide Pair.Valid, ReadDuring;
    var twin, ws, unmoves := p.Twin(slot), s.words[slot], p.tables[slot].unmoves;
    SeenSources(x, ws, s.words[twin], s.blocks[twin], twin == slot, scan);
    CollectedAlike(unmoves, ws, x.seen, scan, x.ranges);
    if SourceCount(scan, previous) == 0 {
      NoSourceWords(ws, scan, previous);
    } else {
      CoveredSources(ws, s.blocks[slot], x.ranges, scan);
    }
    CollectedPrefix(unmoves, ws, scan, x.ranges, |x.ranges|);
    UpdatesOfRange(unmoves, ws, scan, x.ranges, |x.ranges|);
    assert x.ranges[..|x.ranges|] == x.ranges;
  }

  lemma ExecutedInRange(p: Pair, s: PairState, slot: nat, scan: Scan, previous: Found, x: Execution)
    requires p.Valid() && InShape(p, s) && p.HasSlot(slot) && IsExecution(p, s, slot, scan, previous, x)
    ensures UpdatesInRange(x.us, |s.words[p.Twin(slot)]|)
    ensures SourceCount(scan, previous) == 0 || (scan.Losses? && scan.plies > 0x2000) ==> x.us == []
  {
    hide Bounded, IsRun, Complete, SourceCount, Unpacked, CollectedUpdates, HasSourceWord;
    assert p.ValidSlot(slot);
    var unmoves := p.tables[slot].unmoves;
    var collected := CollectedUpdates(unmoves, x.seen, scan, x.ranges);
    CollectedInRange(unmoves, x.seen, scan, x.ranges, |s.words[p.Twin(slot)]|);
    ReorderedInRange(x.us, collected, |s.words[p.Twin(slot)]|);
    if SourceCount(scan, previous) == 0 || (scan.Losses? && scan.plies > 0x2000) {
      if scan.Losses? && scan.plies > 0x2000 {
        NoDeepLosses(x.seen, scan.plies);
      }
      NothingCollected(unmoves, x.seen, scan, x.ranges);
      assert |multiset(x.us)| == 0;
    }
  }

  /** Words that result from the updates of a scan in any order are those of the scanned
      cells, as far as words follow cells. */
  lemma ReorderedScan(p: Pair, rows: Rows, slot: nat, scan: Scan, ws: WordRow, ws0: WordRow, vs: seq<Update>,
                      found: Found)
    requires p.Valid() && Shaped(p, rows) && p.HasSlot(slot) && 0 < scan.plies <= 0x2000
    requires rows[slot] == Unpacked(ws) && rows[p.Twin(slot)] == Unpacked(ws0) && |ws| == |p.tables[slot].unmoves|
    requires multiset(vs) == multiset(WordUpdates(p.tables[slot].unmoves, ws, scan, 0, |ws|))
    requires UpdatesInRange(vs, |ws0|) && Books(ws0, ApplyWords(ws0, vs, scan), scan.plies, found)
    ensures var now := Unpacked(ApplyWords(ws0, vs, scan));
            && Count(now, Unresolved) == Count(Scanned(p, rows, slot, scan), Unresolved)
            && (Shallow(scan.plies, found) ==>
                  now == Scanned(p, rows, slot, scan) && Conserves(rows[p.Twin(slot)], now, scan.plies, found))
  {
    hide Unpacked, Conserves, ApplyWords, Apply, WordUpdates, Updates, Count, SameInvalid, OneType, Pair.ValidSlot;
    var us := WordUpdates(p.tables[slot].unmoves, ws, scan, 0, |ws|);
    ScannedIsReordered(p, rows, slot, scan, vs, ws);
    UnknownCountsAgree(ws0, vs, scan);
    if Shallow(scan.plies, found) {
      ShallowWordsFollowCells(ws0, vs, scan);
    }
  }

  lemma ScannedIsReordered(p: Pair, rows: Rows, slot: nat, scan: Scan, vs: seq<Update>, ws: WordRow)
    requires p.Valid() && Shaped(p, rows) && p.HasSlot(slot) && 0 < scan.plies <= 0x2000
    requires rows[slot] == Unpacked(ws) && |ws| == |p.tables[slot].unmoves|
    requires multiset(vs) == multiset(WordUpdates(p.tables[slot].unmoves, ws, scan, 0, |ws|))
    requires UpdatesInRange(vs, |rows[p.Twin(slot)]|)
    ensures Scanned(p, rows, slot, scan) == Apply(rows[p.Twin(slot)], vs, scan)
  {
    hide Unpacked, Apply, WordUpdates, Updates;
    assert p.ValidSlot(slot);
    var unmoves := p.tables[slot].unmoves;
    var us := Updates(unmoves, rows[slot], scan, 0, |rows[slot]|);
    WordUpdatesFollowCells(unmoves, ws, scan, 0, |ws|);
    UpdatesAreGood(unmoves, rows[slot], scan, 0, |rows[slot]|, |rows[p.Twin(slot)]|);
    ReorderedOneType(vs, us, scan);
    OrderIsIrrelevant(rows[p.Twin(slot)], vs, us, scan);
  }

  /** A scan by workers does to the cells what a sequential scan does. */
  lemma ExecutionIsScan(p: Pair, s: PairState, slot: nat, scan: Scan, previous: Found, x: Execution, exact: bool)
    returns (last: State)
    requires p.Valid() && InShape(p, s) && p.HasSlot(slot) && IsExecution(p, s, slot, scan, previous, x)
    requires exact ==> scan.plies <= 0x2000 && previous == FoundAt(CellsOf(s.words)[slot], scan.plies - 1)
    ensures x.run != [] && last == x.run[|x.run| - 1] && InShape(p, After(s, p.Twin(slot), last))
    ensures Scan1(p, CellsOf(s.words), CellsOf(s.words[p.Twin(slot) := last.row]), slot, scan, last.found, exact)
    ensures SourceCount(scan, previous) == 0 || (scan.Losses? && scan.plies > 0x2000) ==> last.found.IsEmpty()
  {
    hide Bounded, Complete, SourceCount, FoundAt, Unpacked, WordUpdates, CollectedUpdates, ReadDuring, Books, Next;
    hide Conserves, Count, OneKind, Scanned, OneType, Pair.ValidSlot, GivenBlocks, ApplyWords, Scan1, Shallow;
    hide Found.IsEmpty;
    assert x.run != [];
    last := x.run[|x.run| - 1];
    var twin := p.Twin(slot);
    var ws0, rows := s.words[twin], CellsOf(s.words);
    ExecutedInRange(p, s, slot, scan, previous, x);
    var vs := CompleteRunIsReordering(x.run, ws0, s.blocks[twin], x.us, scan);
    NothingExecuted(ws0, vs, x.us, scan, last.found);
    if exact {
      ExecutedUpdates(p, s, slot, scan, previous, x);
      ReorderedScan(p, rows, slot, scan, s.words[slot], ws0, vs, last.found);
    }
    ExecutedRows(p, s, slot, scan, last, exact);
  }

  lemma ExecutedRows(p: Pair, s: PairState, slot: nat, scan: Scan, last: State, exact: bool)
    requires p.Valid() && InShape(p, s) && p.HasSlot(slot) && |last.row| == |s.words[p.Twin(slot)]|
    requires Books(s.words[p.Twin(slot)], last.row, scan.plies, last.found) && OneKind(last.found, scan)
    requires Bounded(Unpacked(last.row), last.blocks)
    requires exact ==> (
               && Count(Unpacked(last.row), Unresolved) == Count(Scanned(p, CellsOf(s.words), slot, scan), Unresolved)
               && (Shallow(scan.plies, last.found) ==>
                     && Unpacked(last.row) == Scanned(p, CellsOf(s.words), slot, scan)
                     && Conserves(CellsOf(s.words)[p.Twin(slot)], Unpacked(last.row), scan.plies, last.found)))
    ensures InShape(p, After(s, p.Twin(slot), last))
    ensures Scan1(p, CellsOf(s.words), CellsOf(s.words[p.Twin(slot) := last.row]), slot, scan, last.found, exact)
  {
    hide Bounded, Unpacked, Conserves, Count, OneKind, Scanned, Pair.ValidSlot, Shallow, Books, SameInvalid;
    var twin := p.Twin(slot);
    var rows, rows' := CellsOf(s.words), CellsOf(s.words[twin := last.row]);
    BooksOf(s.words[twin], last.row, scan.plies, last.found);
    assert rows' == rows[twin := rows'[twin]];
  }

  lemma NothingExecuted(ws: WordRow, vs: seq<Update>, us: seq<Update>, scan: Scan, found: Found)
    requires multiset(vs) == multiset(us) && UpdatesInRange(vs, |ws|)
    requires Books(ws, ApplyWords(ws, vs, scan), scan.plies, found)
    ensures us == [] ==> found.IsEmpty()
  {
    if us == [] {
      assert |multiset(vs)| == 0;
    }
  }

  // ---------------------------------------------------------------------
  // Plies and runs of the solver.

  ghost predicate ScanLeads(p: Pair, s: PairState, t: PairState, slot: nat, scan: Scan, previous: Found)
    requires p.Valid() && InShape(p, s) && p.HasSlot(slot)
  {
    exists x: Execution ::
      IsExecution(p, s, slot, scan, previous, x) && x.run != [] && t == After(s, p.Twin(slot), x.run[|x.run| - 1])
  }

  /** The rest of a ply leads from `s` to `end`: its phases one after the other, each
      scanning table by table. */
  ghost predicate PlyLeads(p: Pair, s: PairState, end: PairState, plies: nat, previous: seq<Found>, phase: nat,
                           slot: nat)
    requires p.Valid() && |previous| == |p.tables| && phase <= 4 && slot <= |p.tables|
    decreases 4 - phase, |p.tables| - slot
  {
    if phase == 4 then s == end
    else if slot == |p.tables| then PlyLeads(p, s, end, plies, previous, phase + 1, 0)
    else
      && InShape(p, s)
      && exists t: PairState ::
           && ScanLeads(p, s, t, slot, ScanAt(phase, plies), previous[slot])
           && PlyLeads(p, t, end, plies, previous, phase, slot + 1)
  }

  /** Concurrent plies keep the state that sequential ones keep. */
  lemma {:induction false} PlyKeepsState(p: Pair, rows0: Rows, s: PairState, end: PairState, plies: nat,
                                         previous: seq<Found>, phase: nat, slot: nat, balance: nat, exact: bool)
    requires p.Valid() && CountersBalanced(p) && plies > 0 && InShape(p, s)
    requires |previous| == |p.tables| && phase <= 4 && slot <= |p.tables| && (phase == 4 ==> slot == 0)
    requires PlyState(p, rows0, CellsOf(s.words), plies, PhasesAfter(|p.tables|, phase, slot), previous, s.found,
                      balance, exact)
    requires PlyLeads(p, s, end, plies, previous, phase, slot)
    ensures InShape(p, end)
    ensures PlyState(p, rows0, CellsOf(end.words), plies, PhasesAfter(|p.tables|, 4, 0), previous, end.found, balance,
                     exact)
    decreases 4 - phase, |p.tables| - slot
  {
    hide PlyState, CountersBalanced, Pair.Valid, InShape, ScanLeads;
    if phase == 4 {
    } else if slot == |p.tables| {
      assert PhasesAfter(|p.tables|, phase, slot) == PhasesAfter(|p.tables|, phase + 1, 0);
      PlyKeepsState(p, rows0, s, end, plies, previous, phase + 1, 0, balance, exact);
    } else {
      var t: PairState :| ScanLeads(p, s, t, slot, ScanAt(phase, plies), previous[slot])
                          && PlyLeads(p, t, end, plies, previous, phase, slot + 1);
      ScanKeepsState(p, rows0, s, t, plies, previous, phase, slot, balance, exact);
      PlyKeepsState(p, rows0, t, end, plies, previous, phase, slot + 1, balance, exact);
    }
  }

  lemma ScanKeepsState(p: Pair, rows0: Rows, s: PairState, t: PairState, plies: nat, previous: seq<Found>, phase: nat,
                       slot: nat, balance: nat, exact: bool)
    requires p.Valid() && CountersBalanced(p) && plies > 0 && phase <= 3 && InShape(p, s)
    requires p.HasSlot(slot) && |previous| == |p.tables|
    requires PlyState(p, rows0, CellsOf(s.words), plies, PhasesAfter(|p.tables|, phase, slot), previous, s.found,
                      balance, exact)
    requires ScanLeads(p, s, t, slot, ScanAt(phase, plies), previous[slot])
    ensures InShape(p, t)
    ensures PlyState(p, rows0, CellsOf(t.words), plies, PhasesAfter(|p.tables|, phase, slot + 1), previous, t.found,
                     balance, exact)
  {
    hide PlyState, CountersBalanced, Pair.Valid, IsExecution, Scan1, StillShallow, SourceCount, Found.IsEmpty;
    hide Found.Merge, FoundAt;
    var scan, twin := ScanAt(phase, plies), p.Twin(slot);
    var x: Execution :| IsExecution(p, s, slot, scan, previous[slot], x) && x.run != []
                        && t == After(s, twin, x.run[|x.run| - 1]);
    PlyStateFacts(p, rows0, CellsOf(s.words), plies, PhasesAfter(|p.tables|, phase, slot), previous, s.found, balance,
                  exact, slot);
    var last := ExecutionIsScan(p, s, slot, scan, previous[slot], x, exact && StillShallow(plies, s.found));
    PlyStep(p, rows0, CellsOf(s.words), CellsOf(t.words), plies, phase, slot, previous, s.found, balance, exact,
            last.found);
  }

  /** The solver between two plies: what the next ply starts from, what the previous one
      found, and the maxima so far. */
  datatype Point = Point(words: seq<WordRow>, blocks: seq<seq<BlockSummary>>, previous: seq<Found>,
                         maxWin: seq<nat>, maxLoss: seq<nat>)

  /** What initialization leaves. */
  ghost predicate IsStart(p: Pair, a: Point, byConversion: seq<Found>)
    requires p.Valid()
  {
    && InShape(p, PairState(a.words, a.blocks, byConversion))
    && (forall slot | 0 <= slot < |a.words| :: InitialWordsOf(p.tables[slot].entries, a.words[slot]))
    && CountsAt(a.previous, CellsOf(a.words), 0) && CountsAt(byConversion, CellsOf(a.words), 1)
    && a.maxWin == a.maxLoss == seq(|p.tables|, _ => 0)
  }

  function FoundBefore(p: Pair, plies: nat, byConversion: seq<Found>): seq<Found> {
    if plies == 1 then byConversion else seq(|p.tables|, _ => Found(0, 0))
  }

  ghost predicate PlyRuns(p: Pair, a: Point, b: Point, plies: nat, byConversion: seq<Found>)
    requires p.Valid()
  {
    && |a.previous| == |b.previous| == |a.maxWin| == |a.maxLoss| == |p.tables|
    && PlyLeads(p, PairState(a.words, a.blocks, FoundBefore(p, plies, byConversion)),
                PairState(b.words, b.blocks, b.previous), plies, a.previous, 0, 0)
    && b.maxWin == MaximaAfter(a.maxWin, b.previous, plies, true)
    && b.maxLoss == MaximaAfter(a.maxLoss, b.previous, plies, false)
  }

  /** A run of the solver: ply `n` leads from `run[n - 1]` to `run[n]`, and the last ply is
      the first that finds nothing. */
  ghost predicate IsSolverRun(p: Pair, run: seq<Point>, byConversion: seq<Found>)
    requires p.Valid()
  {
    && |run| > 1
    && IsStart(p, run[0], byConversion)
    && (forall n: nat | 0 < n < |run| :: PlyRuns(p, run[n - 1], run[n], n, byConversion))
    && (forall n | 0 < n < |run| - 1 :: TotalFound(run[n].previous) > 0)
    && TotalFound(run[|run| - 1].previous) == 0
  }

  ghost predicate PointState(p: Pair, a: Point, plies: nat, byConversion: seq<Found>)
    requires p.Valid()
  {
    && |byConversion| == |p.tables| && InShape(p, PairState(a.words, a.blocks, FoundBefore(p, plies, byConversion)))
    && RunState(p, CellsOf(a.words), plies, a.previous, byConversion, a.maxWin, a.maxLoss,
                CountersFit(p) && plies <= 0x2000)
  }

  lemma StartState(p: Pair, a: Point, byConversion: seq<Found>)
    requires p.Valid() && CountersBalanced(p) && IsStart(p, a, byConversion)
    ensures PointState(p, a, 1, byConversion)
  {
    hide CountersBalanced, Bounded, Pair.ValidSlot, PairExact, CountersFit, CountersKept, RejectsExactly, RunState;
    hide Unpacked;
    hide CountsAt, InitialWordsOf;
    InitialPairIsExact(p, CellsOf(a.words), a.words);
    InitialRejections(p, CellsOf(a.words), a.words);
    InitialRunState(p, CellsOf(a.words), a.previous, byConversion, a.maxWin);
  }

  /** What one ply of a run achieves. */
  lemma PlyIsDone(p: Pair, a: Point, b: Point, plies: nat, byConversion: seq<Found>)
    requires p.Valid() && CountersBalanced(p) && plies > 0
    requires PointState(p, a, plies, byConversion) && PlyRuns(p, a, b, plies, byConversion)
    ensures InShape(p, PairState(b.words, b.blocks, b.previous))
    ensures PlyDone(p, CellsOf(a.words), CellsOf(b.words), plies, a.previous, b.previous, a.maxWin, a.maxLoss, b.maxWin,
                    b.maxLoss, CountersFit(p) && plies <= 0x2000)
  {
    hide CountersBalanced, RunState, PlyState, PlyDone, PlyLeads, Remaining, TotalFound, MaximaAfter, CountersFit;
    hide Pair.Valid;
    var rows, exact, found0 := CellsOf(a.words), CountersFit(p) && plies <= 0x2000, FoundBefore(p, plies, byConversion);
    PlyStarts(p, rows, plies, a.previous, byConversion, a.maxWin, a.maxLoss, exact, found0);
    PlyKeepsState(p, rows, PairState(a.words, a.blocks, found0), PairState(b.words, b.blocks, b.previous), plies,
                  a.previous, 0, 0, Remaining(rows) + TotalFound(found0), exact);
    PlyEnds(p, rows, CellsOf(b.words), plies, a.previous, byConversion, b.previous, a.maxWin, a.maxLoss, found0, exact);
  }

  lemma {:induction false} RunKeepsState(p: Pair, run: seq<Point>, byConversion: seq<Found>, n: nat)
    requires p.Valid() && CountersBalanced(p) && IsSolverRun(p, run, byConversion) && n < |run| - 1
    ensures PointState(p, run[n], n + 1, byConversion)
  {
    hide CountersBalanced, RunState, PlyDone, PlyRuns, TotalFound, CountersFit, Pair.Valid, IsStart, Bounded, Unpacked;
    if n == 0 {
      StartState(p, run[0], byConversion);
    } else {
      var a, b := run[n - 1], run[n];
      RunKeepsState(p, run, byConversion, n - 1);
      PlyIsDone(p, a, b, n, byConversion);
      NextRunState(p, CellsOf(a.words), CellsOf(b.words), n, a.previous, byConversion, b.previous, a.maxWin, a.maxLoss,
                   b.maxWin, b.maxLoss, CountersFit(p) && n <= 0x2000);
    }
  }

  /** Every run of the solver, whatever the schedules of its scans, ends with what the
      sequential solver promises. */
  lemma ConcurrentRunSolves(p: Pair, run: seq<Point>, byConversion: seq<Found>)
    requires p.Valid() && CountersBalanced(p) && IsSolverRun(p, run, byConversion)
    ensures var (rows, last) := (CellsOf(run[|run| - 1].words), run[|run| - 1]);
            && Shaped(p, rows)
            && (CountersFit(p) ==> (Solved(p, rows, last.maxWin, last.maxLoss) <==> ShallowPair(p)))
            && (CountersFit(p) ==> (MaximaFit(last.maxWin, last.maxLoss) <==> ShallowPair(p)))
            && (RejectsExactly(p, rows) <==> CountersKept(p))
            && Reported(p, last.maxWin, last.maxLoss)
  {
    hide CountersBalanced, RunState, PlyDone, PlyRuns, TotalFound, CountersFit, Pair.Valid, IsStart, Bounded, Unpacked;
    hide RejectsExactly, CountersKept, Solved, MaximaFit, ShallowPair, Reported;
    var n := |run| - 1;
    var a, b := run[n - 1], run[n];
    RunKeepsState(p, run, byConversion, n - 1);
    PlyIsDone(p, a, b, n, byConversion);
    RunEnds(p, CellsOf(a.words), CellsOf(b.words), b.words, n, a.previous, byConversion, b.previous, a.maxWin,
            a.maxLoss, b.maxWin, b.maxLoss, CountersFit(p) && n <= 0x2000);
  }

  /** All runs on a shallow pair end with the same finished cells and the same maxima. */
  lemma RunsAgree(p: Pair, run: seq<Point>, run': seq<Point>, byConversion: seq<Found>, byConversion': seq<Found>)
    requires p.Valid() && CountersBalanced(p) && CountersFit(p) && ShallowPair(p)
    requires IsSolverRun(p, run, byConversion) && IsSolverRun(p, run', byConversion')
    ensures var (a, b) := (run[|run| - 1], run'[|run'| - 1]);
            && Shaped(p, CellsOf(a.words)) && Shaped(p, CellsOf(b.words))
            && FinishedCells(p, CellsOf(a.words)) == FinishedCells(p, CellsOf(b.words))
            && a.maxWin == b.maxWin && a.maxLoss == b.maxLoss
  {
    hide CountersBalanced, CountersFit, ShallowPair, Solved, PlyRuns, IsStart, TotalFound, Pair.Valid, MaximaFit;
    hide Reported;
    var a, b := run[|run| - 1], run'[|run'| - 1];
    ConcurrentRunSolves(p, run, byConversion);
    ConcurrentRunSolves(p, run', byConversion');
    SolutionsAgree(p, CellsOf(a.words), CellsOf(b.words), a.maxWin, b.maxWin, a.maxLoss, b.maxLoss);
  }

  lemma SolutionsAgree(p: Pair, a: Rows, b: Rows, maxWin: seq<nat>, maxWin': seq<nat>, maxLoss: seq<nat>,
                       maxLoss': seq<nat>)
    requires p.Valid() && Solved(p, a, maxWin, maxLoss) && Solved(p, b, maxWin', maxLoss')
    ensures FinishedCells(p, a) == FinishedCells(p, b) && maxWin == maxWin' && maxLoss == maxLoss'
  {
    hide EmissionGame, Accepts, WellFormed, Pair.Valid, LongestWith, Readings;
    AcceptanceIsUnique(EmissionGame(p), Readings(FinishedCells(p, a)), Readings(FinishedCells(p, b)));
    forall r | r in Positions(p) ensures Finished(a[r.slot][r.index]) == Finished(b[r.slot][r.index]) {
      ReadingsDetermine(FinishedCells(p, a), FinishedCells(p, b), r);
    }
    forall slot: nat | slot < |a| ensures maxWin[slot] == maxWin'[slot] && maxLoss[slot] == maxLoss'[slot] {
      forall i | 0 <= i < |a[slot]| ensures Finished(a[slot][i]) == Finished(b[slot][i]) {
        assert Ref(slot, i) in Positions(p) || (a[slot][i].Invalid? && b[slot][i].Invalid?);
      }
      LongestIsUnique(a[slot], b[slot], maxWin[slot], maxWin'[slot], true);
      LongestIsUnique(a[slot], b[slot], maxLoss[slot], maxLoss'[slot], false);
    }
  }

  lemma ReadingsDetermine<P>(a: map<P, Cell>, b: map<P, Cell>, r: P)
    requires r in a && r in b && r in Readings(a) && Readings(a) == Readings(b)
    ensures a[r] == b[r]
  {
  }

  lemma LongestIsUnique(a: Row, b: Row, m: nat, m': nat, won: bool)
    requires |a| == |b| && forall i | 0 <= i < |a| :: Finished(a[i]) == Finished(b[i])
    requires LongestWith(a, m, won) && LongestWith(b, m', won)
    ensures m == m'
  {
    forall i | 0 <= i < |a| ensures Decided(a[i], won) || Decided(b[i], won) ==> a[i] == b[i] {
    }
  }
}

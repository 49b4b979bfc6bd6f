/** The stages of a whole pair, and what the finished pair is: the one assignment
    that the checker accepts on the game given by the emissions. */
module SolvedPair {
  import opened Cells
  import opened Checker
  import opened Exactness
  import opened Outcomes
  import opened Propagation
  import opened Wrappers

  ghost predicate Shaped(p: Pair, rows: Rows)
    requires p.Valid()
  {
    && |rows| == |p.tables|
    && |rows[0]| == |p.tables[0].entries|
    && |rows[|rows| - 1]| == |p.tables[|rows| - 1].entries|
  }

  ghost predicate SlotExact(p: Pair, rows: Rows, slot: nat, st: Stage)
    requires p.Valid() && Shaped(p, rows) && p.HasSlot(slot)
  {
    var twin := p.Twin(slot);
    RowExact(p.tables[slot].entries, rows[slot], p.tables[twin].unmoves, rows[twin], st)
  }

  /** Each table is exact at its own stage of the same ply. */
  ghost predicate PairExact(p: Pair, rows: Rows, plies: nat, phases: seq<nat>)
    requires p.Valid()
  {
    && Shaped(p, rows)
    && |phases| == |p.tables|
    && SlotExact(p, rows, 0, Stage(plies, phases[0]))
    && SlotExact(p, rows, |rows| - 1, Stage(plies, phases[|rows| - 1]))
  }

  // ---------------------------------------------------------------------
  // One scan of one table.

  /** The twin's row after a full scan of the table in `slot`. */
  function Scanned(p: Pair, rows: Rows, slot: nat, scan: Scan): Row
    requires p.Valid() && Shaped(p, rows) && p.HasSlot(slot)
  {
    var us := Updates(p.tables[slot].unmoves, rows[slot], scan, 0, |rows[slot]|);
    UpdatesAreGood(p.tables[slot].unmoves, rows[slot], scan, 0, |rows[slot]|, |rows[p.Twin(slot)]|);
    Apply(rows[p.Twin(slot)], us, scan)
  }

  /** Replacing the row of `slot` by an update of this ply keeps the other table
      exact and moves this one to its new phase. */
  lemma RowReplaced(p: Pair, rows: Rows, plies: nat, phases: seq<nat>, slot: nat, row': Row, phase: nat)
    requires p.Valid() && PairExact(p, rows, plies, phases) && p.HasSlot(slot)
    requires RowResolvesAt(rows[slot], row', plies)
    requires RowExact(p.tables[slot].entries, row', p.tables[p.Twin(slot)].unmoves, rows[p.Twin(slot)],
                      Stage(plies, phase))
    ensures PairExact(p, rows[slot := row'], plies, phases[slot := phase])
  {
    var rows', phases' := rows[slot := row'], phases[slot := phase];
    var other := p.Twin(slot);
    SourcesAreStable(p.tables[other].entries, rows'[other], p.tables[slot].unmoves, rows[slot], row',
                     Stage(plies, phases'[other]));
  }

  /** The scans of a ply in order: losses, then wins of each type. */
  function ScanAt(phase: nat, plies: nat): Scan
    requires phase <= 3
  {
    if phase == 0 then Losses(plies) else Wins(TypeAt(phase), plies)
  }

  lemma ExactWinsHaveDistance(p: Pair, rows: Rows, slot: nat, st: Stage)
    requires p.Valid() && Shaped(p, rows) && p.HasSlot(slot) && SlotExact(p, rows, slot, st)
    ensures WinsHaveDistance(rows[slot])
  {
  }

  /** Scanning a table moves its twin to the next phase. */
  lemma ScanStep(p: Pair, rows: Rows, plies: nat, phases: seq<nat>, slot: nat, phase: nat)
    requires p.Valid() && CountersBalanced(p) && p.HasSlot(slot) && plies > 0 && phase <= 3
    requires PairExact(p, rows, plies, phases) && phases[p.Twin(slot)] == phase
    ensures PairExact(p, rows[p.Twin(slot) := Scanned(p, rows, slot, ScanAt(phase, plies))], plies,
                      phases[p.Twin(slot) := phase + 1])
  {
    hide RowExact, TimesEmitted, BalancedEntries;
    var w, scan := p.Twin(slot), ScanAt(phase, plies);
    var us := Updates(p.tables[slot].unmoves, rows[slot], scan, 0, |rows[slot]|);
    UpdatesAreGood(p.tables[slot].unmoves, rows[slot], scan, 0, |rows[slot]|, |rows[w]|);
    assert SlotExact(p, rows, w, Stage(plies, phase));
    assert SlotExact(p, rows, slot, Stage(plies, phases[slot]));
    if phase == 0 {
      LossScanKeepsExact(p.tables[w].entries, rows[w], p.tables[slot].unmoves, rows[slot], plies, us);
    } else {
      ExactWinsHaveDistance(p, rows, slot, Stage(plies, phases[slot]));
      WinScanKeepsExact(p.tables[w].entries, rows[w], p.tables[slot].unmoves, rows[slot], plies, phase, us);
    }
    ApplyResolves(rows[w], us, scan);
    RowReplaced(p, rows, plies, phases, w, Scanned(p, rows, slot, scan), phase + 1);
  }

  lemma PairNextPly(p: Pair, rows: Rows, plies: nat, phases: seq<nat>, start: seq<nat>)
    requires p.Valid() && PairExact(p, rows, plies, phases)
    requires |start| == |phases| && forall w | 0 <= w < |phases| :: phases[w] == 4 && start[w] == 0
    ensures PairExact(p, rows, plies + 1, start)
  {
    var last := |rows| - 1;
    NextPly(p.tables[0].entries, rows[0], p.tables[last].unmoves, rows[last], plies);
    NextPly(p.tables[last].entries, rows[last], p.tables[0].unmoves, rows[0], plies);
  }

  // ---------------------------------------------------------------------
  // The game played on the emissions.

  function QuietMoves(unmoves: seq<seq<nat>>, i: nat, slot: nat): seq<Move<Ref>> {
    if unmoves == [] then []
    else
      var n := |unmoves| - 1;
      QuietMoves(unmoves[..n], i, slot) + if i in unmoves[n] then [Quiet(Ref(slot, n))] else []
  }

  function QuietOf(p: Pair, r: Ref): seq<Move<Ref>>
    requires p.HasSlot(r.slot)
  {
    QuietMoves(p.tables[p.Twin(r.slot)].unmoves, r.index, p.Twin(r.slot))
  }

  /** The moves of an index: its conversions, and a quiet move to every position
      that emits it. */
  function MovesOf(p: Pair, r: Ref, conversions: seq<Move<Ref>>): seq<Move<Ref>>
    requires p.HasSlot(r.slot)
  {
    conversions + QuietOf(p, r)
  }

  function NodeOf(p: Pair, r: Ref): Node<Ref>
    requires p.HasSlot(r.slot) && r.index < |p.tables[r.slot].entries|
    requires !p.tables[r.slot].entries[r.index].Rejected?
  {
    match p.tables[r.slot].entries[r.index]
    case Final(check) => Terminal(check)
    case Open(_, conversions) => Playable(MovesOf(p, r, conversions))
  }

  predicate IsPosition(p: Pair, r: Ref) {
    && p.HasSlot(r.slot)
    && r.index < |p.tables[r.slot].entries|
    && !p.tables[r.slot].entries[r.index].Rejected?
  }

  function Positions(p: Pair): set<Ref> {
    set slot: nat, i: nat | slot < |p.tables| && i < |p.tables[slot].entries| && IsPosition(p, Ref(slot, i)) ::
      Ref(slot, i)
  }

  function EmissionGame(p: Pair): Game<Ref> {
    map r | r in Positions(p) :: NodeOf(p, r)
  }

  lemma {:induction false} QuietMovesAre(unmoves: seq<seq<nat>>, i: nat, slot: nat)
    ensures forall m :: m in QuietMoves(unmoves, i, slot) <==>
              m.Quiet? && m.to.slot == slot && Emits(unmoves, m.to.index, i)
  {
    if unmoves != [] {
      var n := |unmoves| - 1;
      QuietMovesAre(unmoves[..n], i, slot);
      forall m ensures m in QuietMoves(unmoves, i, slot) <==>
              m.Quiet? && m.to.slot == slot && Emits(unmoves, m.to.index, i)
      {
        if m.Quiet? && m.to.index < n {
          assert Emits(unmoves, m.to.index, i) <==> Emits(unmoves[..n], m.to.index, i);
        }
      }
    }
  }

  lemma EmissionGameIsWellFormed(p: Pair)
    requires p.Valid() && CountersBalanced(p)
    ensures WellFormed(EmissionGame(p))
  {
    var g := EmissionGame(p);
    forall r | r in g && g[r].Playable? ensures g[r].moves != [] && Covered(g[r].moves, g.Keys) {
      MovesAreCovered(p, r);
    }
  }

  /** A playable index has a move, and its quiet moves reach positions of the twin. */
  lemma MovesAreCovered(p: Pair, r: Ref)
    requires p.Valid() && CountersBalanced(p) && IsPosition(p, r) && p.tables[r.slot].entries[r.index].Open?
    ensures var moves := MovesOf(p, r, p.tables[r.slot].entries[r.index].conversions);
            moves != [] && Covered(moves, Positions(p))
  {
    var twin := p.Twin(r.slot);
    var e, unmoves := p.tables[r.slot].entries[r.index], p.tables[twin].unmoves;
    var quiet := QuietMoves(unmoves, r.index, twin);
    var moves := MovesOf(p, r, e.conversions);
    QuietMovesAre(unmoves, r.index, twin);
    assert forall k | 0 <= k < |e.conversions| :: moves[k] == e.conversions[k] && !moves[k].Quiet?;
    forall k | |e.conversions| <= k < |moves| ensures moves[k].to in Positions(p) {
      assert moves[k] == quiet[k - |e.conversions|];
      assert moves[k] in quiet;
    }
    if e.conversions == [] {
      var s := EmittingSource(unmoves, r.index);
      assert Quiet(Ref(twin, s)) in quiet;
    }
  }

  lemma {:induction false} EmittingSource(unmoves: seq<seq<nat>>, i: nat) returns (s: nat)
    requires TimesEmitted(unmoves, i) > 0
    ensures Emits(unmoves, s, i)
  {
    s := |unmoves| - 1;
    if i !in unmoves[s] {
      s := EmittingSource(unmoves[..s], i);
    }
  }

  // ---------------------------------------------------------------------
  // The finished pair.

  /** Finalization turns the cells left unknown into draws. */
  function Finished(c: Cell): Cell {
    if c.Unknown? then Drawn else c
  }

  function FinishedCells(p: Pair, rows: Rows): map<Ref, Cell>
    requires p.Valid() && Shaped(p, rows)
  {
    map r | r in Positions(p) :: Finished(rows[r.slot][r.index])
  }

  /** Nothing is resolved at a ply. */
  predicate Quiescent(rows: Rows, plies: nat) {
    forall slot: nat, i: nat | slot < |rows| && i < |rows[slot]| ::
      !(rows[slot][i].Won? && rows[slot][i].plies == plies) && !(rows[slot][i].Lost? && rows[slot][i].plies == plies)
  }

  /** After every ply, the pair with its unknowns turned into draws is accepted as far
      as conversions within that many plies go. */
  lemma PlyIsAccepted(p: Pair, rows: Rows, plies: nat, phases: seq<nat>)
    requires p.Valid() && CountersBalanced(p) && plies > 0
    requires PairExact(p, rows, plies, phases) && forall w | 0 <= w < |phases| :: phases[w] == 4
    ensures WellFormed(EmissionGame(p))
    ensures Readings(FinishedCells(p, rows)).Keys == Positions(p)
    ensures AcceptsWithin(EmissionGame(p), Readings(FinishedCells(p, rows)), plies)
  {
    hide BackedUp, AgreeWithin, WellFormed, CountersBalanced, SlotExact, CellExact, Pair.Valid;
    EmissionGameIsWellFormed(p);
    var g := EmissionGame(p);
    var a := Readings(FinishedCells(p, rows));
    forall r | r in g ensures r in a {
      FinishedIsRead(p, rows, plies, phases, r);
    }
    assert a.Keys == g.Keys;
    forall r | r in g ensures AgreeWithin(a[r], BackedUp(g[r], a), plies) {
      FinishedCellAgrees(p, rows, plies, phases, r, a);
    }
  }

  lemma FinishedIsRead(p: Pair, rows: Rows, plies: nat, phases: seq<nat>, r: Ref)
    requires p.Valid() && PairExact(p, rows, plies, phases) && r in Positions(p)
    ensures ToOutcome(FinishedCells(p, rows)[r]).Some?
  {
    assert SlotExact(p, rows, r.slot, Stage(plies, phases[r.slot]));
  }

  lemma FinishedCellAgrees(p: Pair, rows: Rows, plies: nat, phases: seq<nat>, r: Ref, a: Values<Ref>)
    requires p.Valid() && CountersBalanced(p) && WellFormed(EmissionGame(p)) && plies > 0
    requires PairExact(p, rows, plies, phases) && forall w | 0 <= w < |phases| :: phases[w] == 4
    requires a == Readings(FinishedCells(p, rows)) && a.Keys == EmissionGame(p).Keys && r in EmissionGame(p)
    ensures AgreeWithin(a[r], BackedUp(EmissionGame(p)[r], a), plies)
  {
    hide AtPlyEnd, CellExact, Best, Pair.ValidSlot, CountersBalanced, SlotExact;
    var e, c := p.tables[r.slot].entries[r.index], rows[r.slot][r.index];
    if e.Open? {
      var s := SourcesOf(p, rows, r, a);
      EndOfPly(p, rows, plies, phases, r, a);
      if c.Unknown? {
        UnresolvedIsUndecided(e, c, r.index, s, plies);
      } else {
        ResolvedIsBest(e, c, r.index, s, plies);
        BestIsUnique(e.conversions + s.quiet, a, a[r]);
      }
    } else {
      FinalCell(p, rows, plies, phases, r);
    }
  }

  lemma FinalCell(p: Pair, rows: Rows, plies: nat, phases: seq<nat>, r: Ref)
    requires p.Valid() && PairExact(p, rows, plies, phases) && r in Positions(p)
    ensures var e := p.tables[r.slot].entries[r.index];
            e.Final? ==> rows[r.slot][r.index] == if e.check then Lost(Checkmate, 0) else Drawn
  {
    assert SlotExact(p, rows, r.slot, Stage(plies, phases[r.slot]));
  }

  ghost function SourcesOf(p: Pair, rows: Rows, r: Ref, a: Values<Ref>): SourceRow
    requires p.Valid() && Shaped(p, rows) && r in Positions(p)
  {
    Sources(p.tables[p.Twin(r.slot)].unmoves, rows[p.Twin(r.slot)], p.Twin(r.slot), QuietOf(p, r), a)
  }

  lemma EndOfPly(p: Pair, rows: Rows, plies: nat, phases: seq<nat>, r: Ref, a: Values<Ref>)
    requires p.Valid() && CountersBalanced(p) && plies > 0
    requires PairExact(p, rows, plies, phases) && forall w | 0 <= w < |phases| :: phases[w] == 4
    requires a == Readings(FinishedCells(p, rows)) && a.Keys == Positions(p) && r in Positions(p)
    requires p.tables[r.slot].entries[r.index].Open?
    ensures AtPlyEnd(p.tables[r.slot].entries[r.index], rows[r.slot][r.index], r.index, SourcesOf(p, rows, r, a), plies)
    ensures EmissionGame(p)[r] == Playable(p.tables[r.slot].entries[r.index].conversions + QuietOf(p, r))
  {
    hide CellExact;
    assert SlotExact(p, rows, r.slot, Stage(plies, 4));
    QuietMovesReach(p, r);
    var quiet, s := QuietOf(p, r), SourcesOf(p, rows, r, a);
    forall k | 0 <= k < |quiet| ensures LeadsToSource(s, r.index, quiet[k]) {
      assert ReachesSource(p, r, quiet[k]);
    }
  }

  /** The sources of an index, with the quiet moves to them and their values. */
  datatype SourceRow = Sources(unmoves: seq<seq<nat>>, row: Row, twin: nat, quiet: seq<Move<Ref>>, values: Values<Ref>)

  /** The quiet moves of index `i` lead exactly to the sources that emit it. */
  ghost predicate LeadsToSources(s: SourceRow, i: nat) {
    && |s.row| == |s.unmoves|
    && (forall k | 0 <= k < |s.quiet| :: LeadsToSource(s, i, s.quiet[k]))
    && (forall n | Emits(s.unmoves, n, i) :: exists k :: 0 <= k < |s.quiet| && s.quiet[k] == Quiet(Ref(s.twin, n)))
  }

  ghost predicate LeadsToSource(s: SourceRow, i: nat, m: Move<Ref>)
    requires |s.row| == |s.unmoves|
  {
    && m.Quiet? && m.to in s.values && m.to.slot == s.twin && Emits(s.unmoves, m.to.index, i)
    && ToOutcome(Finished(s.row[m.to.index])) == Some(s.values[m.to])
  }

  /** What holds of the cell of an open entry at the end of a ply. */
  ghost predicate AtPlyEnd(e: Entry, c: Cell, i: nat, s: SourceRow, plies: nat) {
    && e.Open? && AllConversions(e.conversions) && plies > 0 && LeadsToSources(s, i)
    && e.counter == |e.conversions| + TimesEmitted(s.unmoves, i)
    && CellExact(e, c, i, s.unmoves, s.row, Stage(plies, 4))
    && Covered(e.conversions + s.quiet, s.values.Keys)
  }

  /** A resolved cell is the best of its conversions and of its quiet moves. */
  lemma ResolvedIsBest(e: Entry, c: Cell, i: nat, s: SourceRow, plies: nat)
    requires AtPlyEnd(e, c, i, s, plies) && !c.Unknown?
    ensures ToOutcome(c).Some? && IsBest(ToOutcome(c).value, e.conversions + s.quiet, s.values)
  {
    var moves := e.conversions + s.quiet;
    var v := ToOutcome(c).value;
    forall k | 0 <= k < |moves| ensures AtMost(Value(moves[k], s.values), v) {
      if k < |e.conversions| {
        assert moves[k] == e.conversions[k];
      } else {
        assert moves[k] == s.quiet[k - |e.conversions|];
        QuietValueAtMost(e, c, i, s, plies, moves[k]);
      }
    }
    var k := WitnessMove(e, c, i, s, plies);
    assert Value(moves[k], s.values) == v;
  }

  lemma QuietValueAtMost(e: Entry, c: Cell, i: nat, s: SourceRow, plies: nat, q: Move<Ref>)
    requires AtPlyEnd(e, c, i, s, plies) && !c.Unknown? && LeadsToSource(s, i, q)
    ensures ToOutcome(c).Some? && AtMost(Value(q, s.values), ToOutcome(c).value)
  {
    var source := s.row[q.to.index];
    assert source.Lost? && !LossPassed(source, Stage(plies, 4)) ==> source.plies >= plies;
  }

  /** A move that gives a resolved cell its value. */
  lemma WitnessMove(e: Entry, c: Cell, i: nat, s: SourceRow, plies: nat) returns (k: nat)
    requires AtPlyEnd(e, c, i, s, plies) && !c.Unknown?
    ensures k < |e.conversions + s.quiet| && Some(Value((e.conversions + s.quiet)[k], s.values)) == ToOutcome(c)
  {
    hide LeadsToSource;
    if c.Won? {
      if conv :| c.plies == 1 && 0 <= conv < |e.conversions| && WinningConversion(e.conversions[conv], c.ct) {
        return conv;
      }
      k := SourceMove(e, i, s, Lost(c.ct, c.plies - 1));
    } else {
      if conv :|
        c.plies == 1 && 0 <= conv < |e.conversions| && LosingConversion(e.conversions[conv])
          && e.conversions[conv].Type() == c.ct {
        return conv;
      }
      k := SourceMove(e, i, s, Won(c.ct, c.plies - 1));
    }
  }

  lemma SourceMove(e: Entry, i: nat, s: SourceRow, source: Cell) returns (k: nat)
    requires e.Open? && LeadsToSources(s, i) && HasSource(s.unmoves, s.row, i, source) && (source.Won? || source.Lost?)
    requires Covered(e.conversions + s.quiet, s.values.Keys)
    ensures k < |e.conversions + s.quiet|
    ensures var value := Value((e.conversions + s.quiet)[k], s.values);
            value == if source.Won? then Loss(source.ct, source.plies + 1) else Win(source.ct, source.plies + 1)
  {
    var n :| Emits(s.unmoves, n, i) && s.row[n] == source;
    var q :| 0 <= q < |s.quiet| && s.quiet[q] == Quiet(Ref(s.twin, n));
    assert LeadsToSource(s, i, s.quiet[q]);
    k := |e.conversions| + q;
    assert (e.conversions + s.quiet)[k] == s.quiet[q];
  }

  /** The moves of an unresolved cell neither win nor all lose within the ply. */
  lemma UnresolvedIsUndecided(e: Entry, c: Cell, i: nat, s: SourceRow, plies: nat)
    requires AtPlyEnd(e, c, i, s, plies) && c.Unknown?
    ensures var moves := e.conversions + s.quiet;
            moves != [] && !DecidedWithin(Best(moves, s.values), plies)
  {
    hide CellExact, LeadsToSources, Best;
    var moves := e.conversions + s.quiet;
    var k := EscapeMove(e, c, i, s, plies);
    BestIsBest(moves, s.values);
    var best := Best(moves, s.values);
    var b :| 0 <= b < |moves| && Value(moves[b], s.values) == best;
    NoMoveWins(e, c, i, s, plies, b);
    assert AtMost(Value(moves[k], s.values), best);
    LaterLossIsBetter(Value(moves[k], s.values), best, plies);
  }

  lemma LaterLossIsBetter(v: DtcOutcome, best: DtcOutcome, plies: nat)
    requires AtMost(v, best) && !LosesWithin(v, plies)
    ensures !LosesWithin(best, plies)
  {
  }

  lemma NoMoveWins(e: Entry, c: Cell, i: nat, s: SourceRow, plies: nat, b: nat)
    requires AtPlyEnd(e, c, i, s, plies) && c.Unknown? && b < |e.conversions + s.quiet|
    ensures var v := Value((e.conversions + s.quiet)[b], s.values); !(v.Win? && v.plies <= plies)
  {
    var m := (e.conversions + s.quiet)[b];
    if b < |e.conversions| {
      assert m == e.conversions[b];
    } else {
      assert m == s.quiet[b - |e.conversions|];
      assert LeadsToSource(s, i, m);
    }
  }

  predicate LosesWithin(v: DtcOutcome, plies: nat) {
    v.Loss? && v.plies <= plies
  }

  /** A counter that is not used up counts a move that is not known to lose. */
  lemma EscapeExists(e: Entry, c: Cell, i: nat, s: SourceRow, plies: nat)
    requires AtPlyEnd(e, c, i, s, plies) && c.Unknown?
    ensures (exists k :: 0 <= k < |e.conversions| && !LosingConversion(e.conversions[k]))
            || (exists n :: Emits(s.unmoves, n, i) && !WinPassed(s.row[n], Stage(plies, 4)))
  {
    hide LeadsToSource, Covered, LosingConversion, WinPassed, LossPassed;
    AllConversionsLose(e.conversions);
    PassedAtMostEmitted(s.unmoves, s.row, Stage(plies, 4), i);
  }

  /** A move of an unresolved cell that does not lose within the ply. */
  lemma EscapeMove(e: Entry, c: Cell, i: nat, s: SourceRow, plies: nat) returns (k: nat)
    requires AtPlyEnd(e, c, i, s, plies) && c.Unknown?
    ensures k < |e.conversions + s.quiet| && !LosesWithin(Value((e.conversions + s.quiet)[k], s.values), plies)
  {
    hide CellExact, LeadsToSource;
    EscapeExists(e, c, i, s, plies);
    if conv :| 0 <= conv < |e.conversions| && !LosingConversion(e.conversions[conv]) {
      assert (e.conversions + s.quiet)[conv] == e.conversions[conv];
      return conv;
    }
    var n :| Emits(s.unmoves, n, i) && !WinPassed(s.row[n], Stage(plies, 4));
    var q :| 0 <= q < |s.quiet| && s.quiet[q] == Quiet(Ref(s.twin, n));
    QuietEscapes(s, i, s.quiet[q], plies);
    k := |e.conversions| + q;
    assert (e.conversions + s.quiet)[k] == s.quiet[q];
  }

  lemma QuietEscapes(s: SourceRow, i: nat, q: Move<Ref>, plies: nat)
    requires |s.row| == |s.unmoves| && LeadsToSource(s, i, q) && !WinPassed(s.row[q.to.index], Stage(plies, 4))
    ensures !LosesWithin(Value(q, s.values), plies)
  {
  }

  /** When a whole ply resolves nothing, the pair is accepted by the checker. */
  lemma SolvedPairIsAccepted(p: Pair, rows: Rows, plies: nat, phases: seq<nat>)
    requires p.Valid() && CountersBalanced(p) && plies > 0
    requires PairExact(p, rows, plies, phases) && forall w | 0 <= w < |phases| :: phases[w] == 4
    requires Quiescent(rows, plies)
    ensures WellFormed(EmissionGame(p))
    ensures Readings(FinishedCells(p, rows)).Keys == Positions(p)
    ensures Accepts(EmissionGame(p), Readings(FinishedCells(p, rows)))
  {
    hide AcceptsWithin, WellFormed, EmissionGame, CountersBalanced;
    PlyIsAccepted(p, rows, plies, phases);
    var a := Readings(FinishedCells(p, rows));
    assert EmissionGame(p).Keys == Positions(p) by { GameHasPositions(p); }
    forall r | r in EmissionGame(p) && !a[r].Draw? ensures a[r].plies < plies {
      var twin := p.Twin(r.slot);
      assert SlotExact(p, rows, r.slot, Stage(plies, 4));
      assert CellExact(p.tables[r.slot].entries[r.index], rows[r.slot][r.index], r.index, p.tables[twin].unmoves,
                       rows[twin], Stage(plies, 4));
    }
    EarlyValuesAreAccepted(EmissionGame(p), a, plies);
  }

  /** After every ply, the resolved cells are exactly what play forces within that many
      plies, at that distance and conversion type. */
  lemma PlyDecides(p: Pair, rows: Rows, plies: nat, phases: seq<nat>, r: Ref, ct: ConversionType, n: nat)
    requires p.Valid() && CountersBalanced(p) && 0 < plies && n <= plies && r in Positions(p)
    requires PairExact(p, rows, plies, phases) && forall w | 0 <= w < |phases| :: phases[w] == 4
    ensures WellFormed(EmissionGame(p)) && r in EmissionGame(p)
    ensures rows[r.slot][r.index] == Won(ct, n) <==> BestForced(EmissionGame(p), r, ct, n)
    ensures rows[r.slot][r.index] == Lost(ct, n) <==> BestHeld(EmissionGame(p), r, ct, n)
  {
    hide AcceptsWithin, WellFormed, EmissionGame, CountersBalanced, SlotExact, BestForced, BestHeld;
    PlyIsAccepted(p, rows, plies, phases);
    GameHasPositions(p);
    AcceptedWithinIsForced(EmissionGame(p), Readings(FinishedCells(p, rows)), plies, r, ct, n);
    assert ToOutcome(FinishedCells(p, rows)[r]) == Some(Readings(FinishedCells(p, rows))[r]);
  }

  /** The pair's positions are decided, if at all, within 8191 plies. */
  ghost predicate ShallowPair(p: Pair)
    requires p.Valid()
  {
    WellFormed(EmissionGame(p)) && DepthFits(EmissionGame(p))
  }

  lemma GameHasPositions(p: Pair)
    ensures EmissionGame(p).Keys == Positions(p)
  {
  }

  /** The quiet moves of an index are exactly those to the positions that emit it. */
  lemma QuietMovesReach(p: Pair, r: Ref)
    requires p.Valid() && IsPosition(p, r)
    ensures forall k | 0 <= k < |QuietOf(p, r)| :: ReachesSource(p, r, QuietOf(p, r)[k])
    ensures forall s | Emits(p.tables[p.Twin(r.slot)].unmoves, s, r.index) ::
              exists k :: 0 <= k < |QuietOf(p, r)| && QuietOf(p, r)[k] == Quiet(Ref(p.Twin(r.slot), s))
  {
    var twin := p.Twin(r.slot);
    var unmoves := p.tables[twin].unmoves;
    var quiet := QuietOf(p, r);
    QuietMovesAre(unmoves, r.index, twin);
    forall k | 0 <= k < |quiet| ensures ReachesSource(p, r, quiet[k]) {
      assert quiet[k] in quiet;
    }
    forall s | Emits(unmoves, s, r.index) ensures exists k :: 0 <= k < |quiet| && quiet[k] == Quiet(Ref(twin, s)) {
      assert Quiet(Ref(twin, s)) in quiet;
    }
  }

  ghost predicate ReachesSource(p: Pair, r: Ref, m: Move<Ref>)
    requires p.HasSlot(r.slot)
  {
    && m.Quiet? && m.to in Positions(p)
    && m.to.slot == p.Twin(r.slot) && Emits(p.tables[p.Twin(r.slot)].unmoves, m.to.index, r.index)
  }
}

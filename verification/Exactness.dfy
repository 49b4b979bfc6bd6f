/** What holds of every cell at each stage of the propagation, and why each scan
    of a ply moves the table from one stage to the next. */
module Exactness {
  import opened Cells
  import opened Outcomes
  import opened Propagation

  /** A stage: `phase` scans of ply `plies` are done. Phase 0 is the start of the
      ply, 1 follows the loss scan, 2 to 4 follow the win scans of Checkmate,
      Capture and Promotion. */
  datatype Stage = Stage(plies: nat, phase: nat)

  function TypeAt(phase: nat): ConversionType
    requires 1 <= phase <= 3
  {
    if phase == 1 then Checkmate else if phase == 2 then Capture else Promotion
  }

  /** The phase after which wins of a type have been scanned. */
  function PhaseOf(ct: ConversionType): nat {
    4 - Preference(ct)
  }

  predicate LossPassed(c: Cell, st: Stage) {
    c.Lost? && (c.plies + 1 < st.plies || (c.plies + 1 == st.plies && 1 <= st.phase))
  }

  predicate WinPassed(c: Cell, st: Stage) {
    c.Won? && (c.plies + 1 < st.plies || (c.plies + 1 == st.plies && PhaseOf(c.ct) <= st.phase))
  }

  /** How often the winning sources already scanned emit `i`. */
  function TimesPassed(unmoves: seq<seq<nat>>, row: Row, st: Stage, i: nat): nat
    requires |row| == |unmoves|
  {
    if row == [] then 0
    else
      var n := |row| - 1;
      TimesPassed(unmoves[..n], row[..n], st, i) + if WinPassed(row[n], st) then Times(unmoves[n], i) else 0
  }

  // ---------------------------------------------------------------------
  // The stage invariant of one cell. `row` holds the sources, in the twin table.

  predicate WinningConversion(m: Move<Ref>, ct: ConversionType) {
    m.IsConversion() && m.dependency.Loss? && m.Type() == ct
  }

  predicate LosingConversion(m: Move<Ref>) {
    m.IsConversion() && m.dependency.Win?
  }

  function LosingConversions(moves: seq<Move<Ref>>): (n: nat)
    ensures n <= |moves|
  {
    if moves == [] then 0
    else LosingConversions(moves[..|moves| - 1]) + if LosingConversion(moves[|moves| - 1]) then 1 else 0
  }

  predicate NoWinningConversion(moves: seq<Move<Ref>>) {
    forall k | 0 <= k < |moves| && moves[k].IsConversion() :: !moves[k].dependency.Loss?
  }

  predicate Emits(unmoves: seq<seq<nat>>, s: int, i: nat) {
    0 <= s < |unmoves| && i in unmoves[s]
  }

  /** Some position emitting `i` holds `c`. */
  ghost predicate HasSource(unmoves: seq<seq<nat>>, row: Row, i: nat, c: Cell)
    requires |row| == |unmoves|
  {
    exists s :: Emits(unmoves, s, i) && row[s] == c
  }

  /** Nothing found so far wins, and the counter counts the moves not known to lose. */
  ghost predicate UnknownExact(e: Entry, counter: nat, i: nat, unmoves: seq<seq<nat>>, row: Row, st: Stage)
    requires e.Open? && |row| == |unmoves|
  {
    && counter > 0
    && NoWinningConversion(e.conversions)
    && (forall s | Emits(unmoves, s, i) :: !LossPassed(row[s], st))
    && counter + LosingConversions(e.conversions) + TimesPassed(unmoves, row, st, i) == e.counter
  }

  /** A move attains this win and none found so far is better. */
  ghost predicate WinExact(e: Entry, ct: ConversionType, n: nat, i: nat, unmoves: seq<seq<nat>>, row: Row, st: Stage)
    requires e.Open? && |row| == |unmoves|
  {
    && 1 <= n <= st.plies
    && ((n == 1 && exists k :: 0 <= k < |e.conversions| && WinningConversion(e.conversions[k], ct))
        || HasSource(unmoves, row, i, Lost(ct, n - 1)))
    && (forall k | 0 <= k < |e.conversions| && e.conversions[k].IsConversion() && e.conversions[k].dependency.Loss? ::
          AtMost(Win(e.conversions[k].Type(), 1), Win(ct, n)))
    && (forall s | Emits(unmoves, s, i) && LossPassed(row[s], st) ::
          AtMost(Win(row[s].ct, row[s].plies + 1), Win(ct, n)))
  }

  /** Every move loses, all of them are known to, and this is the best of them. */
  ghost predicate LossExact(e: Entry, ct: ConversionType, n: nat, i: nat, unmoves: seq<seq<nat>>, row: Row, st: Stage)
    requires e.Open? && |row| == |unmoves|
  {
    && 1 <= n <= st.plies
    && ((n == 1 && exists k ::
           0 <= k < |e.conversions| && LosingConversion(e.conversions[k]) && e.conversions[k].Type() == ct)
        || HasSource(unmoves, row, i, Won(ct, n - 1)))
    && (forall k | 0 <= k < |e.conversions| ::
          && LosingConversion(e.conversions[k])
          && AtMost(Loss(e.conversions[k].Type(), 1), Loss(ct, n)))
    && (forall s | Emits(unmoves, s, i) ::
          && WinPassed(row[s], st)
          && AtMost(Loss(row[s].ct, row[s].plies + 1), Loss(ct, n)))
  }

  /** At the start of a later ply nothing of that ply is resolved yet. */
  predicate Timely(n: nat, st: Stage, firstPhase: nat) {
    st.plies > 1 && st.phase < firstPhase ==> n < st.plies
  }

  ghost predicate CellExact(e: Entry, c: Cell, i: nat, unmoves: seq<seq<nat>>, row: Row, st: Stage)
    requires |row| == |unmoves|
  {
    match e
    case Rejected(_) => c == Invalid
    case Final(check) => c == if check then Lost(Checkmate, 0) else Drawn
    case Open(_, _) =>
      match c
      case Unknown(counter) => UnknownExact(e, counter, i, unmoves, row, st)
      case Won(ct, n) => Timely(n, st, 1) && WinExact(e, ct, n, i, unmoves, row, st)
      case Lost(ct, n) => Timely(n, st, 2) && LossExact(e, ct, n, i, unmoves, row, st)
      case _ => false
  }

  ghost predicate RowExact(entries: seq<Entry>, target: Row, unmoves: seq<seq<nat>>, row: Row, st: Stage)
    requires |row| == |unmoves|
  {
    && |target| == |entries|
    && forall i | 0 <= i < |entries| :: CellExact(entries[i], target[i], i, unmoves, row, st)
  }

  // ---------------------------------------------------------------------
  // Counting lemmas.

  lemma {:induction false} EmissionIsCounted(unmoves: seq<seq<nat>>, s: nat, i: nat)
    requires Emits(unmoves, s, i)
    ensures TimesEmitted(unmoves, i) > 0
  {
    if s < |unmoves| - 1 {
      EmissionIsCounted(unmoves[..|unmoves| - 1], s, i);
    }
  }

  /** Scanning one winning type moves exactly its emissions to the passed ones. */
  lemma {:induction false} ScanPasses(unmoves: seq<seq<nat>>, row: Row, plies: nat, phase: nat, i: nat)
    requires |row| == |unmoves| && 1 <= phase <= 3
    ensures TimesPassed(unmoves, row, Stage(plies, phase + 1), i)
         == TimesPassed(unmoves, row, Stage(plies, phase), i)
            + TimesScanned(unmoves, row, Wins(TypeAt(phase), plies), i)
  {
    if row != [] {
      var n := |row| - 1;
      ScanPasses(unmoves[..n], row[..n], plies, phase, i);
    }
  }

  lemma {:induction false} PassedDependsOnWins(unmoves: seq<seq<nat>>, row: Row, row': Row, st: Stage, st': Stage,
                                               i: nat)
    requires |row| == |row'| == |unmoves|
    requires forall s | 0 <= s < |row| :: WinPassed(row[s], st) == WinPassed(row'[s], st')
    ensures TimesPassed(unmoves, row, st, i) == TimesPassed(unmoves, row', st', i)
  {
    if row != [] {
      var n := |row| - 1;
      PassedDependsOnWins(unmoves[..n], row[..n], row'[..n], st, st', i);
    }
  }

  lemma {:induction false} PassedAtMostEmitted(unmoves: seq<seq<nat>>, row: Row, st: Stage, i: nat)
    requires |row| == |unmoves|
    ensures TimesPassed(unmoves, row, st, i) <= TimesEmitted(unmoves, i)
    ensures TimesPassed(unmoves, row, st, i) == TimesEmitted(unmoves, i) <==>
            forall s | Emits(unmoves, s, i) :: WinPassed(row[s], st)
  {
    if row != [] {
      var n := |row| - 1;
      PassedAtMostEmitted(unmoves[..n], row[..n], st, i);
      assert forall s | 0 <= s < n :: Emits(unmoves, s, i) <==> Emits(unmoves[..n], s, i);
      assert Times(unmoves[n], i) > 0 <==> Emits(unmoves, n, i);
    }
  }

  lemma {:induction false} ScannedSource(unmoves: seq<seq<nat>>, row: Row, scan: Scan, i: nat)
    returns (s: nat)
    requires |row| == |unmoves| && TimesScanned(unmoves, row, scan, i) > 0
    ensures Emits(unmoves, s, i) && scan.IsSource(row[s])
  {
    s := |row| - 1;
    if !(scan.IsSource(row[s]) && i in unmoves[s]) {
      s := ScannedSource(unmoves[..s], row[..s], scan, i);
    }
  }

  lemma {:induction false} AllConversionsLose(moves: seq<Move<Ref>>)
    requires AllConversions(moves)
    ensures LosingConversions(moves) == |moves| <==> forall k | 0 <= k < |moves| :: LosingConversion(moves[k])
  {
    if moves != [] {
      AllConversionsLose(moves[..|moves| - 1]);
    }
  }

  // ---------------------------------------------------------------------
  // The loss scan.

  lemma LossScanKeepsExact(entries: seq<Entry>, target: Row, unmoves: seq<seq<nat>>, row: Row, plies: nat,
                           us: seq<Update>)
    requires |row| == |unmoves| && plies > 0
    requires RowExact(entries, target, unmoves, row, Stage(plies, 0))
    requires us == Updates(unmoves, row, Losses(plies), 0, |row|) && UpdatesInRange(us, |target|)
    ensures RowExact(entries, Apply(target, us, Losses(plies)), unmoves, row, Stage(plies, 1))
  {
    forall i | 0 <= i < |entries|
      ensures CellExact(entries[i], Apply(target, us, Losses(plies))[i], i, unmoves, row, Stage(plies, 1))
    {
      LossScanKeepsCell(entries[i], target, i, unmoves, row, plies, us);
    }
  }

  lemma LossScanKeepsCell(e: Entry, target: Row, i: nat, unmoves: seq<seq<nat>>, row: Row, plies: nat, us: seq<Update>)
    requires |row| == |unmoves| && plies > 0 && i < |target|
    requires CellExact(e, target[i], i, unmoves, row, Stage(plies, 0))
    requires us == Updates(unmoves, row, Losses(plies), 0, |row|) && UpdatesInRange(us, |target|)
    ensures CellExact(e, Apply(target, us, Losses(plies))[i], i, unmoves, row, Stage(plies, 1))
  {
    MarksAre(target, us, plies, i);
    LossScanUpdates(unmoves, row, plies, i, us);
    PassedDependsOnWins(unmoves, row, row, Stage(plies, 0), Stage(plies, 1), i);
    CellAfterLossScan(e, target[i], Apply(target, us, Losses(plies))[i], i, unmoves, row, plies, us);
  }

  lemma LossScanUpdates(unmoves: seq<seq<nat>>, row: Row, plies: nat, i: nat, us: seq<Update>)
    requires |row| == |unmoves| && plies > 0
    requires us == Updates(unmoves, row, Losses(plies), 0, |row|)
    ensures LossesListed(us, unmoves, row, i, plies)
  {
    forall ct ensures HasUpdate(us, i, ct) <==> HasSource(unmoves, row, i, Lost(ct, plies - 1)) {
      UpdatesAre(unmoves, row, Losses(plies), 0, |row|, i, ct);
      if HasSource(unmoves, row, i, Lost(ct, plies - 1)) {
        var s :| Emits(unmoves, s, i) && row[s] == Lost(ct, plies - 1);
        assert 0 <= s < |row|;
      }
    }
  }

  /** What the updates of a loss scan say of the sources. */
  ghost predicate LossesListed(us: seq<Update>, unmoves: seq<seq<nat>>, row: Row, i: nat, plies: nat)
    requires |row| == |unmoves| && plies > 0
  {
    forall ct :: HasUpdate(us, i, ct) <==> HasSource(unmoves, row, i, Lost(ct, plies - 1))
  }

  lemma NewlyPassed(us: seq<Update>, unmoves: seq<seq<nat>>, row: Row, i: nat, plies: nat, s: int)
    requires |row| == |unmoves| && plies > 0 && LossesListed(us, unmoves, row, i, plies)
    requires Emits(unmoves, s, i) && LossPassed(row[s], Stage(plies, 1)) && !LossPassed(row[s], Stage(plies, 0))
    ensures HasUpdate(us, i, row[s].ct) && row[s].plies + 1 == plies
  {
    hide HasUpdate;
    assert row[s] == Lost(row[s].ct, plies - 1);
    assert HasSource(unmoves, row, i, Lost(row[s].ct, plies - 1));
  }

  lemma UnknownAfterLossScan(e: Entry, c: Cell, c': Cell, i: nat, unmoves: seq<seq<nat>>, row: Row, plies: nat,
                             us: seq<Update>)
    requires |row| == |unmoves| && plies > 0 && e.Open? && c.Unknown?
    requires UnknownExact(e, c.counter, i, unmoves, row, Stage(plies, 0))
    requires MarkedCell(c, c', us, i, plies) && LossesListed(us, unmoves, row, i, plies)
    requires TimesPassed(unmoves, row, Stage(plies, 0), i) == TimesPassed(unmoves, row, Stage(plies, 1), i)
    ensures CellExact(e, c', i, unmoves, row, Stage(plies, 1))
  {
    hide HasUpdate, TimesPassed, LosingConversions, HasSource;
    forall s | Emits(unmoves, s, i) && LossPassed(row[s], Stage(plies, 1))
      ensures HasUpdate(us, i, row[s].ct) && row[s].plies + 1 == plies
    {
      NewlyPassed(us, unmoves, row, i, plies, s);
    }
    if c' != c {
      assert HasUpdate(us, i, c'.ct);
    }
  }

  lemma WinAfterLossScan(e: Entry, c: Cell, c': Cell, i: nat, unmoves: seq<seq<nat>>, row: Row, plies: nat,
                         us: seq<Update>)
    requires |row| == |unmoves| && plies > 0 && e.Open? && c.Won?
    requires Timely(c.plies, Stage(plies, 0), 1) && WinExact(e, c.ct, c.plies, i, unmoves, row, Stage(plies, 0))
    requires MarkedCell(c, c', us, i, plies) && LossesListed(us, unmoves, row, i, plies)
    ensures CellExact(e, c', i, unmoves, row, Stage(plies, 1))
  {
    hide HasUpdate, HasSource;
    forall s | Emits(unmoves, s, i) && LossPassed(row[s], Stage(plies, 1)) && !LossPassed(row[s], Stage(plies, 0))
      ensures HasUpdate(us, i, row[s].ct) && row[s].plies + 1 == plies
    {
      NewlyPassed(us, unmoves, row, i, plies, s);
    }
    forall s | Emits(unmoves, s, i) && LossPassed(row[s], Stage(plies, 1))
      ensures AtMost(Win(row[s].ct, row[s].plies + 1), Win(c'.ct, c'.plies))
    {
      if LossPassed(row[s], Stage(plies, 0)) {
        assert AtMost(Win(row[s].ct, row[s].plies + 1), Win(c.ct, c.plies));
      }
    }
  }

  lemma CellAfterLossScan(e: Entry, c: Cell, c': Cell, i: nat, unmoves: seq<seq<nat>>, row: Row, plies: nat,
                          us: seq<Update>)
    requires |row| == |unmoves| && plies > 0
    requires CellExact(e, c, i, unmoves, row, Stage(plies, 0))
    requires MarkedCell(c, c', us, i, plies) && LossesListed(us, unmoves, row, i, plies)
    requires TimesPassed(unmoves, row, Stage(plies, 0), i) == TimesPassed(unmoves, row, Stage(plies, 1), i)
    ensures CellExact(e, c', i, unmoves, row, Stage(plies, 1))
  {
    hide UnknownExact, WinExact, HasUpdate, TimesPassed, LossesListed;
    if e.Open? && c.Unknown? {
      UnknownAfterLossScan(e, c, c', i, unmoves, row, plies, us);
    } else if e.Open? && c.Won? {
      WinAfterLossScan(e, c, c', i, unmoves, row, plies, us);
    }
  }

  // ---------------------------------------------------------------------
  // The win scans.

  lemma WinScanKeepsExact(entries: seq<Entry>, target: Row, unmoves: seq<seq<nat>>, row: Row, plies: nat, phase: nat,
                          us: seq<Update>)
    requires |row| == |unmoves| && 1 <= phase <= 3 && plies > 0
    requires BalancedEntries(entries, unmoves) && ValidEntries(entries)
    requires WinsHaveDistance(row)
    requires RowExact(entries, target, unmoves, row, Stage(plies, phase))
    requires us == Updates(unmoves, row, Wins(TypeAt(phase), plies), 0, |row|)
    requires UpdatesInRange(us, |target|) && SameType(us, TypeAt(phase))
    ensures RowExact(entries, Apply(target, us, Wins(TypeAt(phase), plies)), unmoves, row, Stage(plies, phase + 1))
  {
    var target' := Apply(target, us, Wins(TypeAt(phase), plies));
    forall i | 0 <= i < |entries|
      ensures CellExact(entries[i], target'[i], i, unmoves, row, Stage(plies, phase + 1))
    {
      DecrementsAre(target, us, TypeAt(phase), plies, i);
      UpdatesCount(unmoves, row, Wins(TypeAt(phase), plies), i);
      ScanPasses(unmoves, row, plies, phase, i);
      CellAfterWinScan(entries[i], target[i], i, unmoves, row, plies, phase);
    }
  }

  predicate WinsHaveDistance(row: Row) {
    forall s | 0 <= s < |row| && row[s].Won? :: row[s].plies > 0
  }

  lemma CellAfterWinScan(e: Entry, c: Cell, i: nat, unmoves: seq<seq<nat>>, row: Row, plies: nat, phase: nat)
    requires |row| == |unmoves| && 1 <= phase <= 3 && plies > 0
    requires e.Open? ==> e.counter == |e.conversions| + TimesEmitted(unmoves, i) && AllConversions(e.conversions)
    requires WinsHaveDistance(row)
    requires CellExact(e, c, i, unmoves, row, Stage(plies, phase))
    requires TimesPassed(unmoves, row, Stage(plies, phase + 1), i)
         == TimesPassed(unmoves, row, Stage(plies, phase), i)
            + TimesScanned(unmoves, row, Wins(TypeAt(phase), plies), i)
    ensures var count := TimesScanned(unmoves, row, Wins(TypeAt(phase), plies), i);
            CellExact(e, DecrementedCell(c, count, TypeAt(phase), plies), i, unmoves, row, Stage(plies, phase + 1))
  {
    hide TimesPassed, TimesScanned, TimesEmitted, LosingConversions;
    var count := TimesScanned(unmoves, row, Wins(TypeAt(phase), plies), i);
    var st := Stage(plies, phase + 1);
    if e.Open? && c.Unknown? && c.counter <= count {
      // The last escapes are gone: every move is a passed win of the opponent.
      PassedAtMostEmitted(unmoves, row, st, i);
      AllConversionsLose(e.conversions);
      var s := ScannedSource(unmoves, row, Wins(TypeAt(phase), plies), i);
      assert plies >= 2;
      forall k | 0 <= k < |e.conversions|
        ensures LosingConversion(e.conversions[k])
        ensures AtMost(Loss(e.conversions[k].Type(), 1), Loss(TypeAt(phase), plies))
      {
      }
    }
  }

  // ---------------------------------------------------------------------
  // Changes of the sources, and the turn of a ply.

  /** What any update of ply `plies` may do to a cell. */
  predicate ResolvesAt(c: Cell, c': Cell, plies: nat) {
    || c' == c
    || (c.Unknown? && c'.Unknown?)
    || (c.Unknown? && c'.Won? && c'.plies == plies)
    || (c.Unknown? && c'.Lost? && c'.plies == plies)
    || (c.Won? && c.plies == plies && c'.Won? && c'.plies == plies)
  }

  predicate RowResolvesAt(row: Row, row': Row, plies: nat) {
    |row'| == |row| && forall s | 0 <= s < |row| :: ResolvesAt(row[s], row'[s], plies)
  }

  lemma {:induction false} ApplyResolves(row: Row, us: seq<Update>, scan: Scan)
    requires UpdatesInRange(us, |row|)
    ensures RowResolvesAt(row, Apply(row, us, scan), scan.plies)
  {
    if us != [] {
      ApplyResolves(row, us[..|us| - 1], scan);
    }
  }

  /** No update of a ply touches a source that the ply scans or has scanned. */
  lemma SourcesAreStable(entries: seq<Entry>, target: Row, unmoves: seq<seq<nat>>, row: Row, row': Row, st: Stage)
    requires |row| == |row'| == |unmoves| && RowResolvesAt(row, row', st.plies)
    requires RowExact(entries, target, unmoves, row, st)
    ensures RowExact(entries, target, unmoves, row', st)
  {
    forall i | 0 <= i < |entries| ensures CellExact(entries[i], target[i], i, unmoves, row', st) {
      PassedDependsOnWins(unmoves, row, row', st, st, i);
      var e := entries[i];
      assert CellExact(e, target[i], i, unmoves, row, st);
      if e.Open? && target[i].Won? {
        var ct, n := target[i].ct, target[i].plies;
        forall s | Emits(unmoves, s, i) && LossPassed(row'[s], st) ensures row[s] == row'[s] {
        }
        if HasSource(unmoves, row, i, Lost(ct, n - 1)) {
          var s :| Emits(unmoves, s, i) && row[s] == Lost(ct, n - 1);
          assert row'[s] == row[s];
        }
      } else if e.Open? && target[i].Lost? {
        var ct, n := target[i].ct, target[i].plies;
        forall s | Emits(unmoves, s, i) ensures row'[s] == row[s] {
          assert WinPassed(row[s], st);
        }
      }
    }
  }

  lemma NextPly(entries: seq<Entry>, target: Row, unmoves: seq<seq<nat>>, row: Row, plies: nat)
    requires |row| == |unmoves|
    requires RowExact(entries, target, unmoves, row, Stage(plies, 4))
    ensures RowExact(entries, target, unmoves, row, Stage(plies + 1, 0))
  {
    forall i | 0 <= i < |entries| ensures CellExact(entries[i], target[i], i, unmoves, row, Stage(plies + 1, 0)) {
      PassedDependsOnWins(unmoves, row, row, Stage(plies, 4), Stage(plies + 1, 0), i);
      assert CellExact(entries[i], target[i], i, unmoves, row, Stage(plies, 4));
    }
  }
}

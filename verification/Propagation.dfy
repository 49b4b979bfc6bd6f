/** The propagation of one table pair, as functions on the rows of cells: what a
    scan emits, what a list of updates does, and the counts the counters hold. */
module Propagation {
  import opened Cells
  import opened Outcomes
  import opened Wrappers

  /** A position of the pair: slot of its table, index in the table. */
  datatype Ref = Ref(slot: nat, index: nat)

  datatype Rejection = OppositeCheck | EpSquaresOccupied | IllegalEpCapture

  /** What initialization finds at an index. `counter` is the (symmetry-adjusted)
      number of legal moves, conversions included. */
  datatype Entry =
    | Rejected(reason: Rejection)
    | Final(check: bool)
    | Open(counter: nat, conversions: seq<Move<Ref>>)

  /** `unmoves[i]` lists the indices of the twin table emitted as quiet
      predecessors of index `i`, with multiplicity; `diagonal[i]` is the index of
      its diagonal reflection when both kings stand on the diagonal. */
  datatype Table = Table(entries: seq<Entry>, unmoves: seq<seq<nat>>, diagonal: seq<Option<nat>>)

  /** One table if it is its own twin, else two. */
  datatype Pair = Pair(tables: seq<Table>) {
    predicate HasSlot(slot: nat) { slot < |tables| }

    function Twin(slot: nat): (twin: nat)
      requires HasSlot(slot)
      ensures HasSlot(twin)
    {
      |tables| - 1 - slot
    }

    /** Emitted indices exist, and only valid positions are asked for theirs. */
    ghost predicate Valid() {
      && 1 <= |tables| <= 2
      && ValidSlot(0)
      && ValidSlot(|tables| - 1)
    }

    ghost predicate ValidSlot(slot: nat)
      requires HasSlot(slot)
    {
      && ValidSources(tables[slot], |tables[Twin(slot)].entries|)
      && ValidEntries(tables[slot].entries)
    }
  }

  ghost predicate ValidSources(t: Table, targets: nat) {
    && |t.unmoves| == |t.diagonal| == |t.entries|
    && (forall s | 0 <= s < |t.entries| && t.entries[s].Rejected? :: t.unmoves[s] == [])
    && (forall s | 0 <= s < |t.unmoves| :: InRange(t.unmoves[s], targets))
  }

  ghost predicate InRange(xs: seq<nat>, n: nat) {
    forall k | 0 <= k < |xs| :: xs[k] < n
  }

  ghost predicate ValidEntries(entries: seq<Entry>) {
    forall i | 0 <= i < |entries| && entries[i].Open? ::
      entries[i].counter > 0 && AllConversions(entries[i].conversions)
  }

  predicate AllConversions(moves: seq<Move<Ref>>) {
    forall k | 0 <= k < |moves| :: moves[k].IsConversion()
  }

  type Row = seq<Cell>
  type Rows = seq<Row>

  // ---------------------------------------------------------------------
  // Counting emissions.

  function Times(xs: seq<nat>, i: nat): nat {
    multiset(xs)[i]
  }

  /** How often the sources emit `i`. */
  function TimesEmitted(unmoves: seq<seq<nat>>, i: nat): nat {
    if unmoves == [] then 0
    else TimesEmitted(unmoves[..|unmoves| - 1], i) + Times(unmoves[|unmoves| - 1], i)
  }

  /** A scan of ply `plies`: for the losses of the previous ply, whose predecessors
      win, or for its wins of one type, whose predecessors lose an escape. */
  datatype Scan = Losses(plies: nat) | Wins(ct: ConversionType, plies: nat) {
    predicate IsSource(c: Cell) {
      match this
      case Losses(n) => c.Lost? && c.plies + 1 == n
      case Wins(ct, n) => c.Won? && c.plies + 1 == n && c.ct == ct
    }

    /** What an emission by a source of type `ct` does to a cell. */
    function Step(c: Cell, ct: ConversionType): Cell {
      if Losses? then MarkWin(c, ct, plies) else Decrement(c, ct, plies)
    }

    /** A win is selected by comparing its whole word. */
    predicate IsSourceWord(w: Word) {
      match this
      case Losses(n) => IsLoss(w) && w / 8 + 1 == n
      case Wins(ct, n) => n > 0 && w == NewWin(ct, n - 1)
    }

    function StepWord(w: CellWord, ct: ConversionType): CellWord {
      if Losses? then MarkWinWord(w, ct, plies) else DecrementWord(w, ct, plies)
    }
  }

  /** How often the sources of a scan emit `i`. */
  function TimesScanned(unmoves: seq<seq<nat>>, row: Row, scan: Scan, i: nat): nat
    requires |row| == |unmoves|
  {
    if row == [] then 0
    else
      var n := |row| - 1;
      TimesScanned(unmoves[..n], row[..n], scan, i)
      + if scan.IsSource(row[n]) then Times(unmoves[n], i) else 0
  }

  /** Every counter counts each conversion once and each emission once: the
      hypothesis under which the counters are exact. */
  ghost predicate CountersBalanced(p: Pair)
    requires p.Valid()
  {
    BalancedSlot(p, 0) && BalancedSlot(p, |p.tables| - 1)
  }

  ghost predicate BalancedSlot(p: Pair, slot: nat)
    requires p.HasSlot(slot)
  {
    BalancedEntries(p.tables[slot].entries, p.tables[p.Twin(slot)].unmoves)
  }

  ghost predicate BalancedEntries(entries: seq<Entry>, unmoves: seq<seq<nat>>) {
    forall i | 0 <= i < |entries| && entries[i].Open? ::
      entries[i].counter == |entries[i].conversions| + TimesEmitted(unmoves, i)
  }

  // ---------------------------------------------------------------------
  // Updates of one row.

  datatype Update = Update(index: nat, ct: ConversionType)

  ghost predicate UpdatesInRange(us: seq<Update>, n: nat) {
    forall k | 0 <= k < |us| :: us[k].index < n
  }

  /** The row after performing the updates one by one. */
  function Apply(row: Row, us: seq<Update>, scan: Scan): (r: Row)
    requires UpdatesInRange(us, |row|)
    ensures |r| == |row|
  {
    if us == [] then row
    else
      var before := Apply(row, us[..|us| - 1], scan);
      var u := us[|us| - 1];
      before[u.index := scan.Step(before[u.index], u.ct)]
  }

  /** The updates a source emits, all carrying its conversion type. */
  function Emit(targets: seq<nat>, ct: ConversionType): (us: seq<Update>)
    ensures |us| == |targets|
  {
    seq(|targets|, k requires 0 <= k < |targets| => Update(targets[k], ct))
  }

  /** The updates of a scan of indices `lo..hi`. */
  function Updates(unmoves: seq<seq<nat>>, row: Row, scan: Scan, lo: nat, hi: nat): seq<Update>
    requires lo <= hi <= |row| == |unmoves|
  {
    if lo == hi then []
    else
      Updates(unmoves, row, scan, lo, hi - 1)
      + if scan.IsSource(row[hi - 1]) then Emit(unmoves[hi - 1], row[hi - 1].ct) else []
  }

  predicate HasUpdate(us: seq<Update>, i: nat, ct: ConversionType) {
    Update(i, ct) in us
  }

  function UpdatesAt(us: seq<Update>, i: nat): nat {
    if us == [] then 0
    else UpdatesAt(us[..|us| - 1], i) + if us[|us| - 1].index == i then 1 else 0
  }

  // ---------------------------------------------------------------------
  // What the updates of a scan are.

  lemma {:induction false} UpdatesAre(unmoves: seq<seq<nat>>, row: Row, scan: Scan, lo: nat, hi: nat, i: nat,
                                      ct: ConversionType)
    requires lo <= hi <= |row| == |unmoves|
    ensures HasUpdate(Updates(unmoves, row, scan, lo, hi), i, ct) <==>
            exists s :: lo <= s < hi && scan.IsSource(row[s]) && row[s].ct == ct && i in unmoves[s]
  {
    hide Emit, HasUpdate;
    if lo == hi {
      NoUpdate(i, ct);
    } else {
      var last := hi - 1;
      UpdatesAre(unmoves, row, scan, lo, last, i, ct);
      if scan.IsSource(row[last]) {
        HasUpdateConcat(Updates(unmoves, row, scan, lo, last), Emit(unmoves[last], row[last].ct), i, ct);
        EmitIs(unmoves[last], row[last].ct, i, ct);
      } else {
        assert Updates(unmoves, row, scan, lo, hi) == Updates(unmoves, row, scan, lo, last);
      }
    }
  }

  lemma NoUpdate(i: nat, ct: ConversionType)
    ensures !HasUpdate([], i, ct)
  {
  }

  lemma HasUpdateConcat(us: seq<Update>, vs: seq<Update>, i: nat, ct: ConversionType)
    ensures HasUpdate(us + vs, i, ct) <==> HasUpdate(us, i, ct) || HasUpdate(vs, i, ct)
  {
  }

  lemma EmitIs(targets: seq<nat>, ct: ConversionType, i: nat, ct': ConversionType)
    ensures HasUpdate(Emit(targets, ct), i, ct') <==> ct' == ct && i in targets
  {
    if ct' == ct && i in targets {
      var k :| 0 <= k < |targets| && targets[k] == i;
      assert Emit(targets, ct)[k] == Update(i, ct');
    }
  }

  lemma {:induction false} UpdatesCount(unmoves: seq<seq<nat>>, row: Row, scan: Scan, i: nat)
    requires |row| == |unmoves|
    ensures UpdatesAt(Updates(unmoves, row, scan, 0, |row|), i) == TimesScanned(unmoves, row, scan, i)
  {
    if row != [] {
      var n := |row| - 1;
      UpdatesCount(unmoves[..n], row[..n], scan, i);
      UpdatesPrefix(unmoves, row, scan, n);
      if scan.IsSource(row[n]) {
        UpdatesAtConcat(Updates(unmoves, row, scan, 0, n), Emit(unmoves[n], row[n].ct), i);
        EmitCount(unmoves[n], row[n].ct, i);
      } else {
        assert Updates(unmoves, row, scan, 0, |row|) == Updates(unmoves, row, scan, 0, n);
      }
    }
  }

  lemma {:induction false} UpdatesPrefix(unmoves: seq<seq<nat>>, row: Row, scan: Scan, n: nat)
    requires |row| == |unmoves| && n < |row|
    ensures Updates(unmoves[..|row| - 1], row[..|row| - 1], scan, 0, n) == Updates(unmoves, row, scan, 0, n)
  {
    if n > 0 {
      UpdatesPrefix(unmoves, row, scan, n - 1);
    }
  }

  lemma {:induction false} UpdatesAtConcat(us: seq<Update>, vs: seq<Update>, i: nat)
    ensures UpdatesAt(us + vs, i) == UpdatesAt(us, i) + UpdatesAt(vs, i)
  {
    if vs == [] {
      assert us + vs == us;
    } else {
      var n := |vs| - 1;
      assert (us + vs)[..|us + vs| - 1] == us + vs[..n];
      UpdatesAtConcat(us, vs[..n], i);
    }
  }

  lemma {:induction false} EmitCount(targets: seq<nat>, ct: ConversionType, i: nat)
    ensures UpdatesAt(Emit(targets, ct), i) == Times(targets, i)
  {
    if targets != [] {
      var n := |targets| - 1;
      EmitCount(targets[..n], ct, i);
      assert Emit(targets, ct)[..n] == Emit(targets[..n], ct);
      assert targets == targets[..n] + [targets[n]];
    }
  }

  /** All updates carry one conversion type, as in a scan for wins. */
  ghost predicate SameType(us: seq<Update>, ct: ConversionType) {
    forall k | 0 <= k < |us| :: us[k].ct == ct
  }

  lemma {:induction false} UpdatesAreGood(unmoves: seq<seq<nat>>, row: Row, scan: Scan, lo: nat, hi: nat, targets: nat)
    requires lo <= hi <= |row| == |unmoves|
    requires forall s | 0 <= s < |unmoves| :: InRange(unmoves[s], targets)
    ensures UpdatesInRange(Updates(unmoves, row, scan, lo, hi), targets)
    ensures scan.Wins? ==> SameType(Updates(unmoves, row, scan, lo, hi), scan.ct)
  {
    if lo < hi {
      UpdatesAreGood(unmoves, row, scan, lo, hi - 1, targets);
    }
  }

  lemma {:induction false} ApplyConcat(row: Row, us: seq<Update>, vs: seq<Update>, scan: Scan)
    requires UpdatesInRange(us, |row|) && UpdatesInRange(vs, |row|)
    ensures UpdatesInRange(us + vs, |row|)
    ensures Apply(Apply(row, us, scan), vs, scan) == Apply(row, us + vs, scan)
  {
    if vs == [] {
      assert us + vs == us;
    } else {
      var n := |vs| - 1;
      ApplyConcat(row, us, vs[..n], scan);
      assert (us + vs)[..|us + vs| - 1] == us + vs[..n];
    }
  }

  // ---------------------------------------------------------------------
  // What a list of updates does to a cell.

  /** The winning value a cell ends with, whatever the order of the updates. */
  ghost predicate MarkedCell(before: Cell, after: Cell, us: seq<Update>, i: nat, plies: nat) {
    if !(before.Unknown? || (before.Won? && before.plies == plies)) then
      after == before
    else if !exists ct :: HasUpdate(us, i, ct) then
      after == before
    else
      && after.Won? && after.plies == plies
      && (HasUpdate(us, i, after.ct) || after == before)
      && (before.Won? ==> Preference(before.ct) <= Preference(after.ct))
      && forall ct | HasUpdate(us, i, ct) :: Preference(ct) <= Preference(after.ct)
  }

  lemma {:induction false} MarksAre(row: Row, us: seq<Update>, plies: nat, i: nat)
    requires UpdatesInRange(us, |row|) && i < |row|
    ensures MarkedCell(row[i], Apply(row, us, Losses(plies))[i], us, i, plies)
  {
    if us != [] {
      var n := |us| - 1;
      var vs, u := us[..n], us[n];
      assert us == vs + [u];
      MarksAre(row, vs, plies, i);
      forall ct ensures HasUpdate(us, i, ct) <==> HasUpdate(vs, i, ct) || u == Update(i, ct) {
      }
      if u.index == i {
        assert HasUpdate(us, i, u.ct);
      }
    }
  }

  /** The value a cell ends with after updates of one type, whatever their order. */
  function DecrementedCell(before: Cell, count: nat, ct: ConversionType, plies: nat): Cell {
    if !before.Unknown? || count == 0 then before
    else if count < before.counter then Unknown(before.counter - count)
    else Lost(ct, plies)
  }

  lemma {:induction false} DecrementsAre(row: Row, us: seq<Update>, ct: ConversionType, plies: nat, i: nat)
    requires UpdatesInRange(us, |row|) && SameType(us, ct) && i < |row|
    ensures Apply(row, us, Wins(ct, plies))[i] == DecrementedCell(row[i], UpdatesAt(us, i), ct, plies)
  {
    if us != [] {
      DecrementsAre(row, us[..|us| - 1], ct, plies, i);
    }
  }
}

/** Concurrent execution of one scan. Workers perform the updates of the scan in
    any interleaving of atomic loads and compare-exchanges on single cells. */
module Interleaving {
  import opened Cells
  import opened Exactness
  import opened Outcomes
  import opened Propagation
  import opened Scans
  import opened Summaries
  import opened WordRows

  // ---------------------------------------------------------------------
  // The order of the updates of a scan does not matter.

  ghost predicate OneType(us: seq<Update>, scan: Scan) {
    scan.Wins? ==> SameType(us, scan.ct)
  }

  lemma MarkedCellIsUnique(before: Cell, after: Cell, after': Cell, us: seq<Update>, vs: seq<Update>, i: nat,
                           plies: nat)
    requires MarkedCell(before, after, us, i, plies) && MarkedCell(before, after', vs, i, plies)
    requires forall ct :: HasUpdate(us, i, ct) <==> HasUpdate(vs, i, ct)
    ensures after == after'
  {
  }

  lemma {:induction false} UpdatesAtIsMultiplicity(us: seq<Update>, ct: ConversionType, i: nat)
    requires SameType(us, ct)
    ensures UpdatesAt(us, i) == multiset(us)[Update(i, ct)]
  {
    if us != [] {
      var n := |us| - 1;
      UpdatesAtIsMultiplicity(us[..n], ct, i);
      assert us == us[..n] + [us[n]];
    }
  }

  /** Any two orders of the same updates of one scan give the same row. */
  lemma OrderIsIrrelevant(row: Row, us: seq<Update>, vs: seq<Update>, scan: Scan)
    requires UpdatesInRange(us, |row|) && UpdatesInRange(vs, |row|)
    requires OneType(us, scan) && OneType(vs, scan)
    requires multiset(us) == multiset(vs)
    ensures Apply(row, us, scan) == Apply(row, vs, scan)
  {
    forall i: nat | i < |row| ensures Apply(row, us, scan)[i] == Apply(row, vs, scan)[i] {
      if scan.Losses? {
        MarksAre(row, us, scan.plies, i);
        MarksAre(row, vs, scan.plies, i);
        forall ct ensures HasUpdate(us, i, ct) <==> HasUpdate(vs, i, ct) {
          assert Update(i, ct) in multiset(us) <==> Update(i, ct) in multiset(vs);
        }
        MarkedCellIsUnique(row[i], Apply(row, us, scan)[i], Apply(row, vs, scan)[i], us, vs, i, scan.plies);
      } else {
        DecrementsAre(row, us, scan.ct, scan.plies, i);
        DecrementsAre(row, vs, scan.ct, scan.plies, i);
        UpdatesAtIsMultiplicity(us, scan.ct, i);
        UpdatesAtIsMultiplicity(vs, scan.ct, i);
      }
    }
  }

  /** Decrements of different types commute exactly on cells that both leave unresolved:
      hence one sub-phase per type. */
  lemma TypesNeedBarriers(counter: nat, a: ConversionType, b: ConversionType, plies: nat)
    requires a != b
    ensures Decrement(Decrement(Unknown(counter), a, plies), b, plies)
            == Decrement(Decrement(Unknown(counter), b, plies), a, plies)
            <==> counter > 2
  {
  }

  /** The value a word ends with after decrements of one type, at any ply. */
  function DecrementedWord(w: CellWord, count: nat, ct: ConversionType, plies: nat): CellWord {
    if !IsUnknown(w) || count == 0 then w
    else if count < w / 8 then NewUnknown(w / 8 - count)
    else NewLoss(ct, plies)
  }

  lemma OneMoreDecrement(w: CellWord, count: nat, ct: ConversionType, plies: nat)
    ensures DecrementWord(DecrementedWord(w, count, ct, plies), ct, plies) == DecrementedWord(w, count + 1, ct, plies)
  {
    hide ShiftIn;
    TagAndDistance(TypeBits(ct) + 1, plies);
    if IsUnknown(w) && count < w / 8 {
      TagAndDistance(0, w / 8 - count);
    }
  }

  lemma {:induction false} WordDecrementsAre(ws: WordRow, us: seq<Update>, ct: ConversionType, plies: nat, i: nat)
    requires UpdatesInRange(us, |ws|) && SameType(us, ct) && i < |ws|
    ensures ApplyWords(ws, us, Wins(ct, plies))[i] == DecrementedWord(ws[i], UpdatesAt(us, i), ct, plies)
  {
    if us != [] {
      var n := |us| - 1;
      WordDecrementsAre(ws, us[..n], ct, plies, i);
      if us[n].index == i {
        OneMoreDecrement(ws[i], UpdatesAt(us[..n], i), ct, plies);
      }
    }
  }

  /** Scans whose updates commute on words: for wins at any ply, for losses below 8192. */
  predicate Orderly(scan: Scan) {
    scan.Wins? || scan.plies < 0x2000
  }

  /** The same holds of words. */
  lemma WordOrderIsIrrelevant(ws: WordRow, us: seq<Update>, vs: seq<Update>, scan: Scan)
    requires UpdatesInRange(us, |ws|) && UpdatesInRange(vs, |ws|) && Orderly(scan)
    requires OneType(us, scan) && OneType(vs, scan)
    requires multiset(us) == multiset(vs)
    ensures ApplyWords(ws, us, scan) == ApplyWords(ws, vs, scan)
  {
    if scan.Wins? {
      forall i: nat | i < |ws| ensures ApplyWords(ws, us, scan)[i] == ApplyWords(ws, vs, scan)[i] {
        WordDecrementsAre(ws, us, scan.ct, scan.plies, i);
        WordDecrementsAre(ws, vs, scan.ct, scan.plies, i);
        UpdatesAtIsMultiplicity(us, scan.ct, i);
        UpdatesAtIsMultiplicity(vs, scan.ct, i);
      }
    } else {
      ShallowWordsFollowCells(ws, us, scan);
      ShallowWordsFollowCells(ws, vs, scan);
      OrderIsIrrelevant(Unpacked(ws), us, vs, scan);
      WordsAreFittingRows(ApplyWords(ws, us, scan), []);
      WordsAreFittingRows(ApplyWords(ws, vs, scan), []);
    }
  }

  /** Wins of different types race for an unresolved word exactly from ply 8192 on: a
      distance that does not fit is not recognized as the one of this ply. */
  lemma DeepMarksRace(w: CellWord, a: ConversionType, b: ConversionType, plies: nat)
    requires IsUnknown(w) && a != b
    ensures MarkWinWord(MarkWinWord(w, a, plies), b, plies) == MarkWinWord(MarkWinWord(w, b, plies), a, plies)
            <==> plies < 0x2000
  {
    hide ShiftIn;
    TagAndDistance(TypeBits(a), plies);
    TagAndDistance(TypeBits(b), plies);
  }

  // ---------------------------------------------------------------------
  // The protocol of an update: load, compare-exchange until it succeeds or is
  // no longer needed, record the block bound of a new value.

  datatype Status = Pending | Loaded(raw: CellWord) | Recording | Done

  /** `log` lists the updates in the order in which they took effect. */
  datatype State = State(row: WordRow, blocks: seq<BlockSummary>, status: seq<Status>, log: seq<nat>, found: Found)

  predicate Changes(w: CellWord, u: Update, scan: Scan) {
    if scan.Losses? then MarkableWord(w, u.ct, scan.plies) else IsUnknown(w)
  }

  predicate Resolves(w: CellWord, u: Update, scan: Scan) {
    IsUnknown(w) && !IsUnknown(scan.StepWord(w, u.ct))
  }

  /** Values that must be recorded: new or upgraded wins, and new losses. */
  predicate Records(w: CellWord, u: Update, scan: Scan) {
    !IsUnknown(scan.StepWord(w, u.ct))
  }

  function Credit(found: Found, w: CellWord, u: Update, scan: Scan): Found {
    if !Resolves(w, u, scan) then found
    else found.Merge(if scan.Losses? then Found(1, 0) else Found(0, 1))
  }

  function RecordedKind(u: Update, scan: Scan): SummaryKind {
    if scan.Losses? then WinKind(u.ct) else LossKind
  }

  /** The worker has read `current`: it retries, or finds nothing to do. */
  function AfterRead(s: State, k: nat, u: Update, scan: Scan, current: CellWord): State
    requires k < |s.status|
  {
    if Changes(current, u, scan) then s.(status := s.status[k := Loaded(current)])
    else s.(status := s.status[k := Done], log := s.log + [k])
  }

  ghost predicate WellTyped(s: State, us: seq<Update>) {
    |s.status| == |us| && UpdatesInRange(us, |s.row|) && |s.blocks| == NumBlocks(|s.row|)
  }

  ghost predicate LoadStep(s: State, s': State, us: seq<Update>, scan: Scan, k: nat)
    requires WellTyped(s, us) && k < |us|
  {
    s.status[k] == Pending && s' == AfterRead(s, k, us[k], scan, s.row[us[k].index])
  }

  /** A weak compare-exchange succeeds only on the value read, and may fail even
      then; a failure returns the current value. */
  ghost predicate ExchangeStep(s: State, s': State, us: seq<Update>, scan: Scan, k: nat)
    requires WellTyped(s, us) && k < |us|
  {
    var u := us[k];
    var current := s.row[u.index];
    && s.status[k].Loaded?
    && (|| s' == AfterRead(s, k, u, scan, current)
        || (&& s.status[k].raw == current
            && s' == s.(row := s.row[u.index := scan.StepWord(current, u.ct)],
                        status := s.status[k := if Records(current, u, scan) then Recording else Done],
                        log := s.log + [k],
                        found := Credit(s.found, current, u, scan))))
  }

  ghost predicate RecordStep(s: State, s': State, us: seq<Update>, scan: Scan, k: nat)
    requires WellTyped(s, us) && k < |us|
  {
    var b := BlockOf(us[k].index);
    && s.status[k] == Recording
    && b < |s.blocks|
    && s' == s.(blocks := s.blocks[b := s.blocks[b].Raise(RecordedKind(us[k], scan), scan.plies + 1)],
                status := s.status[k := Done])
  }

  ghost predicate Next(s: State, s': State, us: seq<Update>, scan: Scan) {
    && WellTyped(s, us)
    && exists k: nat :: k < |us| && (LoadStep(s, s', us, scan, k) || ExchangeStep(s, s', us, scan, k)
                                     || RecordStep(s, s', us, scan, k))
  }

  function Initial(row: WordRow, blocks: seq<BlockSummary>, us: seq<Update>): State {
    State(row, blocks, seq(|us|, _ => Pending), [], Found(0, 0))
  }

  ghost predicate IsRun(run: seq<State>, row: WordRow, blocks: seq<BlockSummary>, us: seq<Update>, scan: Scan) {
    && run != []
    && run[0] == Initial(row, blocks, us)
    && forall n | 0 <= n < |run| - 1 :: Next(run[n], run[n + 1], us, scan)
  }

  ghost predicate Complete(s: State) {
    forall k | 0 <= k < |s.status| :: s.status[k] == Done
  }

  // ---------------------------------------------------------------------
  // The invariant of every reachable state.

  function Logged(us: seq<Update>, log: seq<nat>): seq<Update>
    requires forall n | 0 <= n < |log| :: log[n] < |us|
  {
    seq(|log|, n requires 0 <= n < |log| => us[log[n]])
  }

  predicate TookEffect(st: Status) { st == Recording || st == Done }

  /** The log lists each update that took effect once. */
  ghost predicate LogExact(s: State, us: seq<Update>) {
    && (forall n | 0 <= n < |s.log| :: s.log[n] < |us|)
    && (forall n, m | 0 <= n < m < |s.log| :: s.log[n] != s.log[m])
    && |s.status| == |us|
    && forall k: nat | k < |us| :: k in s.log <==> TookEffect(s.status[k])
  }

  /** A bound that is still too small is about to be recorded. */
  ghost predicate BoundPending(s: State, us: seq<Update>, scan: Scan, i: nat)
    requires WellTyped(s, us) && i < |s.row|
  {
    || CellBounded(Unpack(s.row[i]), s.blocks, BlockOf(i))
    || exists k: nat :: k < |us| && s.status[k] == Recording && Announces(us[k], scan, Unpack(s.row[i]), i)
  }

  predicate Announces(u: Update, scan: Scan, c: Cell, i: nat) {
    u.index == i && (c.Won? || c.Lost?) && c.plies <= scan.plies && KindOf(c) == RecordedKind(u, scan)
  }

  ghost predicate Inv(s: State, row: WordRow, us: seq<Update>, scan: Scan) {
    && WellTyped(s, us)
    && LogExact(s, us)
    && UpdatesInRange(Logged(us, s.log), |row|)
    && s.row == ApplyWords(row, Logged(us, s.log), scan)
    && (forall k | 0 <= k < |us| && s.status[k].Loaded? :: Changes(s.status[k].raw, us[k], scan))
    && Books(row, s.row, scan.plies, s.found) && OneKind(s.found, scan)
    && forall i: nat | i < |s.row| :: BoundPending(s, us, scan, i)
  }

  lemma InitialInv(row: WordRow, blocks: seq<BlockSummary>, us: seq<Update>, scan: Scan)
    requires UpdatesInRange(us, |row|) && Bounded(Unpacked(row), blocks)
    ensures Inv(Initial(row, blocks, us), row, us, scan)
  {
    hide Unpack;
    var s := Initial(row, blocks, us);
    forall k: nat | k < |us| ensures k in s.log <==> TookEffect(s.status[k]) {
      assert s.status[k] == Pending;
    }
    NoBooks(row, scan.plies);
    forall i: nat | i < |s.row| ensures BoundPending(s, us, scan, i) {
      assert CellBounded(Unpacked(row)[i], blocks, BlockOf(i));
    }
  }

  /** Appending to the log performs one more update. */
  lemma LogStep(row: WordRow, us: seq<Update>, log: seq<nat>, k: nat, scan: Scan)
    requires UpdatesInRange(us, |row|) && k < |us| && forall n | 0 <= n < |log| :: log[n] < |us|
    ensures UpdatesInRange(Logged(us, log), |row|) && UpdatesInRange(Logged(us, log + [k]), |row|)
    ensures var before := ApplyWords(row, Logged(us, log), scan);
            ApplyWords(row, Logged(us, log + [k]), scan)
              == before[us[k].index := scan.StepWord(before[us[k].index], us[k].ct)]
  {
    assert Logged(us, log + [k])[..|log|] == Logged(us, log);
  }

  lemma LogExactStep(s: State, s': State, us: seq<Update>, k: nat)
    requires LogExact(s, us) && k < |us| && !TookEffect(s.status[k]) && |s'.status| == |us|
    requires s'.log == s.log + [k] && TookEffect(s'.status[k])
    requires forall l: nat | l < |us| && l != k :: s'.status[l] == s.status[l]
    ensures LogExact(s', us)
  {
    assert k !in s.log;
    forall l: nat | l < |us| ensures l in s'.log <==> TookEffect(s'.status[l]) {
      assert l in s'.log <==> l in s.log || l == k;
    }
  }

  lemma ReadKeepsInv(s: State, row: WordRow, us: seq<Update>, scan: Scan, k: nat)
    requires Inv(s, row, us, scan) && k < |us| && (s.status[k].Pending? || s.status[k].Loaded?)
    ensures Inv(AfterRead(s, k, us[k], scan, s.row[us[k].index]), row, us, scan)
  {
    hide Unpack, Books, Changes, ApplyWords, Scan.StepWord, BoundPending;
    var u, current := us[k], s.row[us[k].index];
    var s' := AfterRead(s, k, u, scan, current);
    assert |s.row| == |row|;
    if !Changes(current, u, scan) {
      LogStep(row, us, s.log, k, scan);
      LogExactStep(s, s', us, k);
      NothingToDo(current, u, scan);
      assert s.row[u.index := current] == s.row;
    }
    forall i: nat | i < |s'.row| ensures BoundPending(s', us, scan, i) {
      ReadKeepsPending(s, us, scan, k, i);
    }
  }

  lemma NothingToDo(w: CellWord, u: Update, scan: Scan)
    requires !Changes(w, u, scan)
    ensures scan.StepWord(w, u.ct) == w
  {
  }

  lemma ReadKeepsPending(s: State, us: seq<Update>, scan: Scan, k: nat, i: nat)
    requires WellTyped(s, us) && k < |us| && (s.status[k].Pending? || s.status[k].Loaded?)
    requires i < |s.row| && BoundPending(s, us, scan, i)
    ensures BoundPending(AfterRead(s, k, us[k], scan, s.row[us[k].index]), us, scan, i)
  {
    hide Unpack, ShiftIn;
    var s' := AfterRead(s, k, us[k], scan, s.row[us[k].index]);
    if !CellBounded(Unpack(s.row[i]), s.blocks, BlockOf(i)) {
      var l: nat :| l < |us| && s.status[l] == Recording && Announces(us[l], scan, Unpack(s.row[i]), i);
      assert s'.status[l] == Recording;
    }
  }

  /** The word that a successful exchange stores. */
  lemma ExchangedWord(w: CellWord, u: Update, scan: Scan)
    requires Changes(w, u, scan)
    ensures var w' := scan.StepWord(w, u.ct);
            && (Records(w, u, scan) ==> Announces(u, scan, Unpack(w'), u.index))
            && (!Records(w, u, scan) ==> Unpack(w').Unknown?)
            && Resolves(w, u, scan) == (IsUnknown(w) && (if scan.Losses? then IsWin(w') else IsLoss(w')))
            && !(scan.Losses? && IsUnknown(w) && IsLoss(w')) && !(scan.Wins? && IsUnknown(w) && IsWin(w'))
  {
    hide ShiftIn;
    StepTags(w, u.ct, scan);
    TagAndDistance(TypeBits(u.ct), scan.plies);
    TagAndDistance(TypeBits(u.ct) + 1, scan.plies);
  }

  lemma CreditKeepsKind(found: Found, w: CellWord, u: Update, scan: Scan)
    requires OneKind(found, scan)
    ensures OneKind(Credit(found, w, u, scan), scan)
  {
    hide Resolves, Found.Merge;
    MergedCounts(found, if scan.Losses? then Found(1, 0) else Found(0, 1));
  }

  lemma ExchangeBooks(s: State, row: WordRow, scan: Scan, u: Update)
    requires u.index < |s.row| && Changes(s.row[u.index], u, scan)
    requires Books(row, s.row, scan.plies, s.found)
    ensures var current := s.row[u.index];
            Books(row, s.row[u.index := scan.StepWord(current, u.ct)], scan.plies, Credit(s.found, current, u, scan))
  {
    hide Books, ShiftIn;
    var current := s.row[u.index];
    var w := scan.StepWord(current, u.ct);
    ExchangedWord(current, u, scan);
    StepBooks(s.row, u.index, scan, u.ct);
    var more := Found(if IsUnknown(current) && IsWin(w) then 1 else 0,
                      if IsUnknown(current) && IsLoss(w) then 1 else 0);
    BooksTransitive(row, s.row, s.row[u.index := w], scan.plies, s.found, more);
    assert s.found.Merge(more) == Credit(s.found, current, u, scan);
  }

  lemma SuccessKeepsInv(s: State, s': State, row: WordRow, us: seq<Update>, scan: Scan, k: nat)
    requires Inv(s, row, us, scan) && k < |us| && s.status[k].Loaded?
    requires var current := s.row[us[k].index];
             && s.status[k].raw == current
             && s' == s.(row := s.row[us[k].index := scan.StepWord(current, us[k].ct)],
                         status := s.status[k := if Records(current, us[k], scan) then Recording else Done],
                         log := s.log + [k],
                         found := Credit(s.found, current, us[k], scan))
    ensures Inv(s', row, us, scan)
  {
    hide Unpack, ShiftIn, Books, Credit, Scan.StepWord, OneKind;
    var u, current := us[k], s.row[us[k].index];
    assert |s.row| == |row|;
    LogStep(row, us, s.log, k, scan);
    LogExactStep(s, s', us, k);
    ExchangeBooks(s, row, scan, u);
    CreditKeepsKind(s.found, current, u, scan);
    ExchangedWord(current, u, scan);
    forall i: nat | i < |s'.row| ensures BoundPending(s', us, scan, i) {
      assert BoundPending(s, us, scan, i);
      if i == u.index {
        if Records(current, u, scan) {
          assert s'.status[k] == Recording && Announces(u, scan, Unpack(s'.row[i]), i);
        }
      } else if !CellBounded(Unpack(s.row[i]), s.blocks, BlockOf(i)) {
        var l: nat :| l < |us| && s.status[l] == Recording && Announces(us[l], scan, Unpack(s.row[i]), i);
        assert s'.status[l] == Recording;
      }
    }
  }

  lemma RecordKeepsInv(s: State, s': State, row: WordRow, us: seq<Update>, scan: Scan, k: nat)
    requires Inv(s, row, us, scan) && k < |us| && RecordStep(s, s', us, scan, k)
    ensures Inv(s', row, us, scan)
  {
    hide Unpack, ShiftIn, Books;
    var b := BlockOf(us[k].index);
    forall i: nat | i < |s'.row| ensures BoundPending(s', us, scan, i) {
      assert BoundPending(s, us, scan, i);
      if CellBounded(Unpack(s.row[i]), s.blocks, BlockOf(i)) {
        assert CellBounded(Unpack(s'.row[i]), s'.blocks, BlockOf(i));
      } else {
        var l: nat :| l < |us| && s.status[l] == Recording && Announces(us[l], scan, Unpack(s.row[i]), i);
        if l == k {
          assert CellBounded(Unpack(s'.row[i]), s'.blocks, BlockOf(i));
        } else {
          assert s'.status[l] == Recording;
        }
      }
    }
    forall l: nat | l < |us| ensures l in s'.log <==> TookEffect(s'.status[l]) {
    }
  }

  /** Every atomic step keeps the invariant, at any ply. */
  lemma NextKeepsInv(s: State, s': State, row: WordRow, us: seq<Update>, scan: Scan)
    requires Inv(s, row, us, scan) && Next(s, s', us, scan)
    ensures Inv(s', row, us, scan)
  {
    hide Inv, ShiftIn, Credit, Scan.StepWord, AfterRead;
    assert WellTyped(s, us);
    var k: nat :| k < |us| && (LoadStep(s, s', us, scan, k) || ExchangeStep(s, s', us, scan, k)
                               || RecordStep(s, s', us, scan, k));
    if RecordStep(s, s', us, scan, k) {
      RecordKeepsInv(s, s', row, us, scan, k);
    } else if s' == AfterRead(s, k, us[k], scan, s.row[us[k].index]) {
      ReadKeepsInv(s, row, us, scan, k);
    } else {
      SuccessKeepsInv(s, s', row, us, scan, k);
    }
  }

  lemma {:induction false} RunKeepsInv(run: seq<State>, row: WordRow, blocks: seq<BlockSummary>, us: seq<Update>,
                                       scan: Scan, n: nat)
    requires UpdatesInRange(us, |row|) && Bounded(Unpacked(row), blocks)
    requires IsRun(run, row, blocks, us, scan) && n < |run|
    ensures Inv(run[n], row, us, scan)
  {
    hide Inv, Next;
    if n == 0 {
      InitialInv(row, blocks, us, scan);
    } else {
      RunKeepsInv(run, row, blocks, us, scan, n - 1);
      NextKeepsInv(run[n - 1], run[n], row, us, scan);
    }
  }

  // ---------------------------------------------------------------------
  // Every complete run ends alike.

  lemma LogWithoutLast(log: seq<nat>, k: nat, n: nat)
    requires n < |log| && log[n] == k
    requires forall m | 0 <= m < |log| :: log[m] <= k
    requires forall m, l | 0 <= m < l < |log| :: log[m] != log[l]
    requires forall l: nat | l <= k :: l in log
    ensures var rest := log[..n] + log[n + 1..];
            && (forall m | 0 <= m < |rest| :: rest[m] < k)
            && (forall m, l | 0 <= m < l < |rest| :: rest[m] != rest[l])
            && (forall l: nat | l < k :: l in rest)
  {
    var rest := log[..n] + log[n + 1..];
    forall l: nat | l < k ensures l in rest {
      assert l in log;
      var m :| 0 <= m < |log| && log[m] == l;
      assert rest[if m < n then m else m - 1] == l;
    }
  }

  /** A log of distinct updates that lists all of them is a reordering. */
  lemma {:induction false} FullLogIsPermutation(us: seq<Update>, log: seq<nat>)
    requires forall n | 0 <= n < |log| :: log[n] < |us|
    requires forall n, m | 0 <= n < m < |log| :: log[n] != log[m]
    requires forall k: nat | k < |us| :: k in log
    ensures multiset(Logged(us, log)) == multiset(us)
    decreases |us|
  {
    var first := if log == [] then 0 else log[0];
    assert log == [] || first < |us|;
    if us != [] {
      var k := |us| - 1;
      assert k in log;
      var n :| 0 <= n < |log| && log[n] == k;
      var rest := log[..n] + log[n + 1..];
      LogWithoutLast(log, k, n);
      FullLogIsPermutation(us[..k], rest);
      LoggedSplit(us, log, rest, k, n);
      assert us == us[..k] + [us[k]];
    }
  }

  lemma LoggedSplit(us: seq<Update>, log: seq<nat>, rest: seq<nat>, k: nat, n: nat)
    requires n < |log| && log[n] == k && |us| == k + 1 && rest == log[..n] + log[n + 1..]
    requires forall m | 0 <= m < |log| :: log[m] <= k
    requires forall m | 0 <= m < |rest| :: rest[m] < k
    ensures multiset(Logged(us, log)) == multiset(Logged(us[..k], rest)) + multiset{us[k]}
  {
    var head, tail := Logged(us, log)[..n], Logged(us, log)[n + 1..];
    assert Logged(us[..k], rest) == head + tail;
    assert Logged(us, log) == head + [us[k]] + tail;
  }

  /** A complete run performs all updates in some order, counts each newly resolved cell
      once, and leaves every block bound large enough. */
  lemma CompleteRunIsReordering(run: seq<State>, row: WordRow, blocks: seq<BlockSummary>, us: seq<Update>, scan: Scan)
    returns (vs: seq<Update>)
    requires UpdatesInRange(us, |row|) && Bounded(Unpacked(row), blocks)
    requires IsRun(run, row, blocks, us, scan) && Complete(run[|run| - 1])
    ensures multiset(vs) == multiset(us) && UpdatesInRange(vs, |row|) && (OneType(us, scan) ==> OneType(vs, scan))
    ensures var last := run[|run| - 1];
            && last.row == ApplyWords(row, vs, scan)
            && Books(row, last.row, scan.plies, last.found) && OneKind(last.found, scan)
            && Bounded(Unpacked(last.row), last.blocks)
  {
    hide Unpack, ShiftIn, Next, Books, ApplyWords, OneKind;
    var n := |run| - 1;
    var last := run[n];
    RunKeepsInv(run, row, blocks, us, scan, n);
    forall k: nat | k < |us| ensures k in last.log {
      assert last.status[k] == Done;
    }
    FullLogIsPermutation(us, last.log);
    vs := Logged(us, last.log);
    forall i: nat | i < |last.row| ensures CellBounded(Unpacked(last.row)[i], last.blocks, BlockOf(i)) {
      assert BoundPending(last, us, scan, i);
    }
  }

  /** Every complete run of a scan ends with the words of the sequential execution,
      counts each newly resolved cell once, and leaves every block bound large enough,
      whatever the schedule. Below ply 8192 these words are those of the cells. */
  lemma CompleteRunIsSequential(run: seq<State>, row: WordRow, blocks: seq<BlockSummary>, us: seq<Update>, scan: Scan)
    requires UpdatesInRange(us, |row|) && Bounded(Unpacked(row), blocks) && OneType(us, scan) && Orderly(scan)
    requires IsRun(run, row, blocks, us, scan) && Complete(run[|run| - 1])
    ensures var last := run[|run| - 1];
            && last.row == ApplyWords(row, us, scan)
            && Books(row, last.row, scan.plies, last.found)
            && Bounded(Unpacked(last.row), last.blocks)
            && (scan.plies < 0x2000 ==> Unpacked(last.row) == Apply(Unpacked(row), us, scan))
  {
    hide Unpacked, IsRun, Complete, Books, ApplyWords, Apply, OneType, Bounded;
    var vs := CompleteRunIsReordering(run, row, blocks, us, scan);
    WordOrderIsIrrelevant(row, vs, us, scan);
    if scan.plies < 0x2000 {
      ShallowWordsFollowCells(row, us, scan);
    }
  }

  /** At every moment of every run, at any ply, the sources of the scan are those it
      started with: no worker can see, or hide from another, a source of this scan.
      Below ply 8192 this holds of all scans of the ply. */
  lemma SourcesStayVisible(run: seq<State>, row: WordRow, blocks: seq<BlockSummary>, us: seq<Update>, scan: Scan,
                           n: nat)
    requires UpdatesInRange(us, |row|) && Bounded(Unpacked(row), blocks)
    requires IsRun(run, row, blocks, us, scan) && n < |run|
    ensures SourcesKept(row, run[n].row, scan)
    ensures 0 < scan.plies < 0x2000 ==> forall other: Scan | other.plies == scan.plies ::
              SourcesKept(row, run[n].row, other)
  {
    hide Unpack, ShiftIn, Next, ApplyWords, Apply, SourcesKept;
    RunKeepsInv(run, row, blocks, us, scan, n);
    ApplyKeepsSources(row, Logged(us, run[n].log), scan);
    if 0 < scan.plies < 0x2000 {
      forall other: Scan | other.plies == scan.plies ensures SourcesKept(row, run[n].row, other) {
        OtherSourcesStay(row, Logged(us, run[n].log), scan, other);
      }
    }
  }

  lemma OtherSourcesStay(ws: WordRow, us: seq<Update>, scan: Scan, other: Scan)
    requires UpdatesInRange(us, |ws|) && 0 < scan.plies < 0x2000 && other.plies == scan.plies
    ensures SourcesKept(ws, ApplyWords(ws, us, scan), other)
  {
    hide Unpack, ShiftIn, ApplyWords, Apply, Scan.IsSourceWord;
    var now := ApplyWords(ws, us, scan);
    ShallowWordsFollowCells(ws, us, scan);
    ApplyResolves(Unpacked(ws), us, scan);
    forall i | 0 <= i < |ws| ensures now[i] == ws[i] || !(other.IsSourceWord(ws[i]) || other.IsSourceWord(now[i])) {
      assert ResolvesAt(Unpacked(ws)[i], Unpacked(now)[i], scan.plies);
      SourceWords(other, ws[i]);
      SourceWords(other, now[i]);
      UnpackingIsExact(ws[i]);
      UnpackingIsExact(now[i]);
    }
  }
}

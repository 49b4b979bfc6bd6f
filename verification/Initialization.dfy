/** The initial value of every position of a table, before any propagation. */
module Initialization {
  import opened Cells
  import opened Exactness
  import opened Outcomes
  import opened Propagation
  import opened Summaries
  import opened WordRows
  import opened Wrappers

  // ---------------------------------------------------------------------
  // The best conversions.

  function BetterWin(a: Option<ConversionType>, b: ConversionType): Option<ConversionType> {
    if a.Some? && Preference(a.value) >= Preference(b) then a else Some(b)
  }

  /** The loser prefers Promotion, then Capture, then Checkmate. */
  function BetterLoss(a: Option<ConversionType>, b: ConversionType): (c: Option<ConversionType>)
    ensures c.Some?
  {
    if a.Some? && Preference(a.value) <= Preference(b) then a else Some(b)
  }

  ghost predicate IsBestWin(ct: Option<ConversionType>, moves: seq<Move<Ref>>)
    requires AllConversions(moves)
  {
    && (forall k | 0 <= k < |moves| && moves[k].dependency.Loss? ::
          ct.Some? && Preference(moves[k].Type()) <= Preference(ct.value))
    && (ct.Some? ==> exists k :: 0 <= k < |moves| && WinningConversion(moves[k], ct.value))
  }

  ghost predicate IsBestLoss(ct: Option<ConversionType>, moves: seq<Move<Ref>>)
    requires AllConversions(moves)
  {
    && (forall k | 0 <= k < |moves| && LosingConversion(moves[k]) ::
          ct.Some? && Preference(ct.value) <= Preference(moves[k].Type()))
    && (ct.Some? ==> exists k :: 0 <= k < |moves| && LosingConversion(moves[k]) && moves[k].Type() == ct.value)
  }

  /** What initialization owes to a cell: its exact value before any scan. */
  ghost predicate InitialCell(e: Entry, c: Cell) {
    match e
    case Rejected(_) => c == Invalid
    case Final(check) => c == if check then Lost(Checkmate, 0) else Drawn
    case Open(counter, conversions) =>
      AllConversions(conversions) && OpenInitialCell(counter, conversions, c)
  }

  ghost predicate OpenInitialCell(counter: nat, conversions: seq<Move<Ref>>, c: Cell)
    requires AllConversions(conversions)
  {
    match c
    case Won(ct, n) => n == 1 && IsBestWin(Some(ct), conversions)
    case Lost(ct, n) =>
      n == 1 && IsBestWin(None, conversions) && IsBestLoss(Some(ct), conversions)
        && counter == LosingConversions(conversions)
    case Unknown(left) =>
      left > 0 && IsBestWin(None, conversions) && counter == LosingConversions(conversions) + left
    case _ => false
  }

  /** The counter that is stored, if one is, fits its word. */
  predicate CounterFits(e: Entry) {
    e.Open? && NoWinningConversion(e.conversions) ==> e.counter - LosingConversions(e.conversions) < 0x2000
  }

  /** The counter that is stored, if one is, does not lose all its bits. */
  predicate CounterKept(e: Entry) {
    e.Open? && NoWinningConversion(e.conversions) && e.counter > LosingConversions(e.conversions) ==>
      (e.counter - LosingConversions(e.conversions)) % 0x2000 != 0
  }

  /** An initial word reads back as the initial cell exactly if the counter fits. */
  lemma InitialWordIsExact(e: Entry, c: Cell)
    requires InitialCell(e, c)
    ensures InitialCell(e, Unpack(Pack(c))) <==> CounterFits(e)
    ensures Fits(c) <==> CounterFits(e)
  {
    PackingIsExact(c);
    if c.Unknown? {
      ShiftRoundTrip(c.counter);
    }
  }

  /** Initialization establishes the first stage. */
  lemma InitialCellIsExact(e: Entry, c: Cell, i: nat, unmoves: seq<seq<nat>>, row: Row)
    requires |row| == |unmoves| && InitialCell(e, c)
    requires e.Open? ==> e.counter == |e.conversions| + TimesEmitted(unmoves, i)
    ensures CellExact(e, c, i, unmoves, row, Stage(1, 0))
  {
    if e.Open? {
      NothingPassed(unmoves, row, i);
      AllConversionsLose(e.conversions);
      if c.Lost? {
        forall s ensures !Emits(unmoves, s, i) {
          if Emits(unmoves, s, i) {
            EmissionIsCounted(unmoves, s, i);
          }
        }
      }
    }
  }

  lemma {:induction false} NothingPassed(unmoves: seq<seq<nat>>, row: Row, i: nat)
    requires |row| == |unmoves|
    ensures TimesPassed(unmoves, row, Stage(1, 0), i) == 0
  {
    if row != [] {
      NothingPassed(unmoves[..|row| - 1], row[..|row| - 1], i);
    }
  }

  // ---------------------------------------------------------------------
  // Counts of rejected indices.

  datatype InvalidCounts = InvalidCounts(oppositeCheck: nat, epSquaresOccupied: nat, illegalEpCapture: nat) {
    function Record(reason: Rejection): InvalidCounts {
      match reason
      case OppositeCheck => this.(oppositeCheck := oppositeCheck + 1)
      case EpSquaresOccupied => this.(epSquaresOccupied := epSquaresOccupied + 1)
      case IllegalEpCapture => this.(illegalEpCapture := illegalEpCapture + 1)
    }

    function Total(): nat { oppositeCheck + epSquaresOccupied + illegalEpCapture }
  }

  /** The second index of a diagonal pair, not counted by the statistics. */
  predicate Redundant(diagonal: seq<Option<nat>>, i: nat)
    requires i < |diagonal|
  {
    diagonal[i].Some? && i > diagonal[i].value
  }

  function RejectedBefore(t: Table, n: nat): InvalidCounts
    requires n <= |t.entries| == |t.diagonal|
  {
    if n == 0 then InvalidCounts(0, 0, 0)
    else
      var before := RejectedBefore(t, n - 1);
      if t.entries[n - 1].Rejected? && !Redundant(t.diagonal, n - 1) then before.Record(t.entries[n - 1].reason)
      else before
  }

  /** The indices rejected for one reason, one per pair of diagonal reflections. */
  ghost function RejectedFor(t: Table, n: nat, reason: Rejection): set<nat>
    requires n <= |t.entries| == |t.diagonal|
  {
    set i: nat | i < n && !Redundant(t.diagonal, i) && t.entries[i] == Rejected(reason)
  }

  /** Each count is the number of indices rejected for its reason. */
  lemma {:induction false} RejectionsByReason(t: Table, n: nat)
    requires n <= |t.entries| == |t.diagonal|
    ensures RejectedBefore(t, n).oppositeCheck == |RejectedFor(t, n, Rejection.OppositeCheck)|
    ensures RejectedBefore(t, n).epSquaresOccupied == |RejectedFor(t, n, EpSquaresOccupied)|
    ensures RejectedBefore(t, n).illegalEpCapture == |RejectedFor(t, n, IllegalEpCapture)|
  {
    if n > 0 {
      RejectionsByReason(t, n - 1);
      OneMoreRejection(t, n, Rejection.OppositeCheck);
      OneMoreRejection(t, n, EpSquaresOccupied);
      OneMoreRejection(t, n, IllegalEpCapture);
    }
  }

  lemma OneMoreRejection(t: Table, n: nat, reason: Rejection)
    requires 0 < n <= |t.entries| == |t.diagonal|
    ensures |RejectedFor(t, n, reason)| == |RejectedFor(t, n - 1, reason)|
              + if !Redundant(t.diagonal, n - 1) && t.entries[n - 1] == Rejected(reason) then 1 else 0
  {
    hide Redundant;
    var before := RejectedFor(t, n - 1, reason);
    assert RejectedFor(t, n, reason)
        == if !Redundant(t.diagonal, n - 1) && t.entries[n - 1] == Rejected(reason) then before + {n - 1} else before;
  }

  datatype InitCounts = InitCounts(invalid: InvalidCounts, checkmates: nat, stalemates: nat, found: Found)

  // ---------------------------------------------------------------------
  // Initializing a table.

  lemma {:induction false} LosingPrefix(moves: seq<Move<Ref>>, k: nat)
    requires k <= |moves|
    ensures LosingConversions(moves[..k]) <= LosingConversions(moves)
    ensures k > 0 ==> (
              LosingConversions(moves[..k])
              == LosingConversions(moves[..k - 1]) + if LosingConversion(moves[k - 1]) then 1 else 0)
  {
    if k < |moves| {
      LosingPrefix(moves[..|moves| - 1], k);
      assert moves[..|moves| - 1][..k] == moves[..k];
    } else {
      assert moves[..k] == moves;
    }
    if k > 0 {
      assert moves[..k][..k - 1] == moves[..k - 1];
    }
  }

  ghost predicate Initializable(e: Entry) {
    e.Open? ==> e.counter > 0 && AllConversions(e.conversions) && LosingConversions(e.conversions) <= e.counter
  }

  /** The value of a position with legal moves, from its conversions alone. */
  method InitializeOpen(counter: nat, conversions: seq<Move<Ref>>) returns (outcome: Cell)
    requires counter > 0 && AllConversions(conversions) && LosingConversions(conversions) <= counter
    ensures OpenInitialCell(counter, conversions, outcome)
  {
    hide IsBestWin, IsBestLoss, BetterWin, BetterLoss;
    var left := counter;
    NoneIsBest();
    assert conversions[..0] == [];
    var winConv: Option<ConversionType>, lossConv: Option<ConversionType> := None, None;
    for k := 0 to |conversions|
      invariant left + LosingConversions(conversions[..k]) == counter
      invariant lossConv.None? ==> left == counter
      invariant IsBestWin(winConv, conversions[..k])
      invariant IsBestLoss(lossConv, conversions[..k])
    {
      LosingPrefix(conversions, k + 1);
      var m := conversions[k];
      assert conversions[..k + 1] == conversions[..k] + [m];
      if m.dependency.Loss? {
        winConv := BetterWin(winConv, m.Type());
        BestWinExtends(conversions, k, winConv);
      } else if m.dependency.Win? {
        left := left - 1;
        lossConv := BetterLoss(lossConv, m.Type());
        BestLossExtends(conversions, k, lossConv);
      }
      OthersDoNotMatter(conversions, k);
    }
    assert conversions[..|conversions|] == conversions;
    outcome :=
      if winConv.Some? then Won(winConv.value, 1)
      else if left == 0 then Lost(lossConv.value, 1)
      else Unknown(left);
  }

  /** Some capture, promoting or not, or else some plain promotion, leads to a lost (or a
      won) table. */
  ghost predicate TakesInto(moves: seq<Move<Ref>>, lost: bool) {
    exists k :: 0 <= k < |moves| && moves[k].Capturing?
                && if lost then moves[k].dependency.Loss? else moves[k].dependency.Win?
  }

  ghost predicate PromotesInto(moves: seq<Move<Ref>>, lost: bool) {
    exists k :: 0 <= k < |moves| && moves[k].Promoting?
                && if lost then moves[k].dependency.Loss? else moves[k].dependency.Win?
  }

  /** The type of an initial win is a capture if one wins, else a promotion; that of an
      initial loss a promotion if one loses, else a capture. */
  lemma InitialTypes(counter: nat, conversions: seq<Move<Ref>>, c: Cell)
    requires counter > 0 && AllConversions(conversions) && OpenInitialCell(counter, conversions, c)
    ensures c == Won(Capture, 1) <==> TakesInto(conversions, true)
    ensures c == Won(Promotion, 1) <==> !TakesInto(conversions, true) && PromotesInto(conversions, true)
    ensures var lost := (
              && !TakesInto(conversions, true) && !PromotesInto(conversions, true)
              && counter == LosingConversions(conversions));
            && (c == Lost(Promotion, 1) <==> lost && PromotesInto(conversions, false))
            && (c == Lost(Capture, 1) <==> lost && !PromotesInto(conversions, false))
  {
    forall k | 0 <= k < |conversions| ensures conversions[k].IsConversion() && !conversions[k].Quiet? {
    }
  }

  lemma NoneIsBest()
    ensures IsBestWin(None, []) && IsBestLoss(None, [])
  {
  }

  /** Moves that do not win (or lose) leave the best type as it is. */
  lemma OthersDoNotMatter(moves: seq<Move<Ref>>, k: nat)
    requires k < |moves| && AllConversions(moves)
    ensures !moves[k].dependency.Loss? ==> forall ct | IsBestWin(ct, moves[..k]) :: IsBestWin(ct, moves[..k + 1])
    ensures !moves[k].dependency.Win? ==> forall ct | IsBestLoss(ct, moves[..k]) :: IsBestLoss(ct, moves[..k + 1])
  {
    if !moves[k].dependency.Loss? {
      forall ct | IsBestWin(ct, moves[..k]) ensures IsBestWin(ct, moves[..k + 1]) {
        if ct.Some? {
          var l :| 0 <= l < k && WinningConversion(moves[..k][l], ct.value);
          assert WinningConversion(moves[..k + 1][l], ct.value);
        }
      }
    }
    if !moves[k].dependency.Win? {
      forall ct | IsBestLoss(ct, moves[..k]) ensures IsBestLoss(ct, moves[..k + 1]) {
        if ct.Some? {
          var l :| 0 <= l < k && LosingConversion(moves[..k][l]) && moves[..k][l].Type() == ct.value;
          assert moves[..k + 1][l] == moves[..k][l];
        }
      }
    }
  }

  lemma BestWinExtends(moves: seq<Move<Ref>>, k: nat, ct: Option<ConversionType>)
    requires k < |moves| && AllConversions(moves) && moves[k].dependency.Loss?
    requires exists a :: IsBestWin(a, moves[..k]) && ct == BetterWin(a, moves[k].Type())
    ensures IsBestWin(ct, moves[..k + 1])
  {
    var a :| IsBestWin(a, moves[..k]) && ct == BetterWin(a, moves[k].Type());
    if ct == a {
      var l :| 0 <= l < k && WinningConversion(moves[..k][l], ct.value);
      assert WinningConversion(moves[..k + 1][l], ct.value);
    } else {
      assert WinningConversion(moves[..k + 1][k], ct.value);
    }
  }

  lemma BestLossExtends(moves: seq<Move<Ref>>, k: nat, ct: Option<ConversionType>)
    requires k < |moves| && AllConversions(moves) && moves[k].dependency.Win?
    requires exists a :: IsBestLoss(a, moves[..k]) && ct == BetterLoss(a, moves[k].Type())
    ensures IsBestLoss(ct, moves[..k + 1])
  {
    var a :| IsBestLoss(a, moves[..k]) && ct == BetterLoss(a, moves[k].Type());
    if ct == a {
      var l :| 0 <= l < k && LosingConversion(moves[..k][l]) && moves[..k][l].Type() == ct.value;
      assert moves[..k + 1][l] == moves[..k][l];
    } else {
      assert LosingConversion(moves[..k + 1][k]);
    }
  }

  /** The bound recorded for a resolved cell during initialization. */
  function RaisedBy(bounds: BlockSummary, c: Cell): BlockSummary {
    match c
    case Won(ct, _) => bounds.With(WinKind(ct), 2)
    case Lost(_, n) => if n == 0 then bounds.Raise(LossKind, 1) else bounds.With(LossKind, 2)
    case _ => bounds
  }

  predicate BoundedBy(c: Cell, bounds: BlockSummary) {
    c.Won? || c.Lost? ==> c.plies < bounds.Bound(KindOf(c))
  }

  function CountsOf(t: Table, row: Row, n: nat): InitCounts
    requires n <= |row| == |t.entries| == |t.diagonal|
  {
    InitCounts(RejectedBefore(t, n), Count(row[..n], LostAt(0)), Stalemates(t, n), FoundAt(row[..n], 1))
  }

  function Stalemates(t: Table, n: nat): nat
    requires n <= |t.entries|
  {
    if n == 0 then 0 else Stalemates(t, n - 1) + if t.entries[n - 1] == Final(false) then 1 else 0
  }

  function Counted(counts: InitCounts, e: Entry, redundant: bool, c: Cell): InitCounts {
    match e
    case Rejected(reason) => if redundant then counts else counts.(invalid := counts.invalid.Record(reason))
    case Final(check) =>
      if check then counts.(checkmates := counts.checkmates + 1) else counts.(stalemates := counts.stalemates + 1)
    case Open(_, _) =>
      match c
      case Won(_, _) => counts.(found := counts.found.Merge(Found(1, 0)))
      case Lost(_, _) => counts.(found := counts.found.Merge(Found(0, 1)))
      case _ => counts
  }

  lemma CountsStep(t: Table, row: Row, n: nat, c: Cell)
    requires n < |row| && |row| == |t.entries| == |t.diagonal|
    requires InitialCell(t.entries[n], c) && row[n] == Unpack(Pack(c))
    ensures CountsOf(t, row, n + 1) == Counted(CountsOf(t, row, n), t.entries[n], Redundant(t.diagonal, n), c)
  {
    hide IsBestWin, IsBestLoss, LosingConversions, Fits, Pack, Unpack, RejectedBefore;
    assert row[..n + 1][..n] == row[..n];
    InitialKind(t.entries[n], c);
    RejectedStep(t, n);
  }

  lemma RejectedStep(t: Table, n: nat)
    requires n < |t.entries| == |t.diagonal|
    ensures RejectedBefore(t, n + 1)
            == if t.entries[n].Rejected? && !Redundant(t.diagonal, n)
               then RejectedBefore(t, n).Record(t.entries[n].reason) else RejectedBefore(t, n)
  {
  }

  /** Only a counter can change when an initial cell is written as a word. */
  lemma InitialKind(e: Entry, c: Cell)
    requires InitialCell(e, c)
    ensures c.Unknown? || Unpack(Pack(c)) == c
    ensures c.Unknown? ==> !Unpack(Pack(c)).Won? && !Unpack(Pack(c)).Lost?
  {
    PackingIsExact(c);
    if c.Unknown? {
      ShiftRoundTrip(c.counter);
    }
  }

  /** What a table holds after its initialization, by index. */
  ghost predicate InitialWord(e: Entry, w: CellWord) {
    exists c :: InitialCell(e, c) && w == Pack(c)
  }

  /** A word is invalid exactly for a rejected index, unless a counter is lost. */
  lemma InvalidInitialWord(e: Entry, w: CellWord)
    requires InitialWord(e, w)
    ensures (Unpack(w).Invalid? <==> e.Rejected?) <==> CounterKept(e)
  {
    hide IsBestLoss;
    var c :| InitialCell(e, c) && w == Pack(c);
    InitialKind(e, c);
    if c.Unknown? {
      ShiftRoundTrip(c.counter);
    }
  }

  lemma InitialWords(e: Entry, w: CellWord)
    requires InitialWord(e, w)
    ensures InitialCell(e, Unpack(w)) <==> CounterFits(e)
  {
    var c :| InitialCell(e, c) && w == Pack(c);
    InitialWordIsExact(e, c);
  }

  method InitializeBlock(t: Table, cells: array<CellWord>, start: nat, end: nat, counts0: InitCounts)
    returns (counts: InitCounts, bounds: BlockSummary)
    requires start <= end <= cells.Length == |t.entries| == |t.diagonal|
    requires forall i | 0 <= i < |t.entries| :: Initializable(t.entries[i])
    requires counts0 == CountsOf(t, Unpacked(cells[..]), start)
    modifies cells
    ensures forall i | 0 <= i < start :: cells[i] == old(cells[i])
    ensures forall i | start <= i < end :: InitialWord(t.entries[i], cells[i]) && BoundedBy(Unpack(cells[i]), bounds)
    ensures counts == CountsOf(t, Unpacked(cells[..]), end)
  {
    hide InitialWord, BoundedBy, RaisedBy, Counted, Redundant, CountsOf, Pack, Unpack;
    counts, bounds := counts0, EMPTY_BLOCK;
    for idx := start to end
      invariant forall i | 0 <= i < start :: cells[i] == old(cells[i])
      invariant forall i | start <= i < idx ::
                  InitialWord(t.entries[i], cells[i]) && BoundedBy(Unpack(cells[i]), bounds)
      invariant counts == CountsOf(t, Unpacked(cells[..]), idx)
    {
      ghost var ws := cells[..];
      var e := t.entries[idx];
      var c := InitializeEntry(e);
      cells[idx] := Pack(c);
      IsInitialWord(e, c);
      EarlierCounts(t, Unpacked(ws), Unpacked(cells[..]), idx);
      CountsStep(t, Unpacked(cells[..]), idx, c);
      counts := Counted(counts, e, Redundant(t.diagonal, idx), c);
      RaiseKeepsBounds(bounds, e, c);
      bounds := RaisedBy(bounds, c);
    }
  }

  lemma IsInitialWord(e: Entry, c: Cell)
    requires InitialCell(e, c)
    ensures InitialWord(e, Pack(c))
  {
  }

  lemma EarlierCounts(t: Table, row: Row, row': Row, n: nat)
    requires n <= |row| == |row'| == |t.entries| == |t.diagonal|
    requires forall i | 0 <= i < n :: row'[i] == row[i]
    ensures CountsOf(t, row', n) == CountsOf(t, row, n)
  {
    assert row'[..n] == row[..n];
  }

  lemma RaiseKeepsBounds(bounds: BlockSummary, e: Entry, c: Cell)
    requires InitialCell(e, c)
    ensures BoundedBy(Unpack(Pack(c)), RaisedBy(bounds, c))
    ensures forall w: CellWord, e': Entry | BoundedBy(Unpack(w), bounds) && InitialWord(e', w) ::
              BoundedBy(Unpack(w), RaisedBy(bounds, c))
  {
    hide IsBestWin, IsBestLoss, LosingConversions, Pack, Unpack;
    InitialKind(e, c);
    forall w: CellWord, e': Entry | BoundedBy(Unpack(w), bounds) && InitialWord(e', w)
      ensures BoundedBy(Unpack(w), RaisedBy(bounds, c))
    {
      var d :| InitialCell(e', d) && w == Pack(d);
      InitialKind(e', d);
    }
  }

  method InitializeEntry(e: Entry) returns (c: Cell)
    requires Initializable(e)
    ensures InitialCell(e, c)
  {
    match e {
      case Rejected(_) => c := Invalid;
      case Final(check) => c := if check then Lost(Checkmate, 0) else Drawn;
      case Open(counter, conversions) => c := InitializeOpen(counter, conversions);
    }
  }

  /** Initializes a table chunk by chunk, one summary block each. */
  method InitializeTable(t: Table, cells: array<CellWord>, summary: PlySummary) returns (counts: InitCounts)
    requires cells.Length == |t.entries| == |t.diagonal| && summary.Valid() && summary.size == cells.Length
    requires forall i | 0 <= i < |t.entries| :: Initializable(t.entries[i])
    modifies cells, summary.blocks
    ensures forall i | 0 <= i < cells.Length :: InitialWord(t.entries[i], cells[i])
    ensures Bounded(Unpacked(cells[..]), summary.blocks[..])
    ensures counts == CountsOf(t, Unpacked(cells[..]), cells.Length)
  {
    hide InitialWord, CountsOf, BoundedBy, Bounded, Unpack;
    counts := InitCounts(InvalidCounts(0, 0, 0), 0, 0, Found(0, 0));
    NothingCounted(t, Unpacked(cells[..]));
    var start := 0;
    for b := 0 to summary.blocks.Length
      invariant start == if b * SUMMARY_BLOCK_SIZE < cells.Length then b * SUMMARY_BLOCK_SIZE else cells.Length
      invariant forall i | 0 <= i < start :: InitialWord(t.entries[i], cells[i])
      invariant forall i: nat | i < start :: BlockOf(i) < b && BoundedBy(Unpack(cells[i]), summary.blocks[BlockOf(i)])
      invariant counts == CountsOf(t, Unpacked(cells[..]), start)
    {
      var end := if start + SUMMARY_BLOCK_SIZE < cells.Length then start + SUMMARY_BLOCK_SIZE else cells.Length;
      var bounds;
      counts, bounds := InitializeBlock(t, cells, start, end, counts);
      summary.blocks[b] := bounds;
      forall i: nat | i < end ensures BlockOf(i) <= b && BoundedBy(Unpack(cells[i]), summary.blocks[BlockOf(i)]) {
        if i >= start {
          assert BlockOf(i) == b;
        }
      }
      start := end;
    }
    AllBounded(cells[..], summary.blocks[..]);
  }

  lemma NothingCounted(t: Table, row: Row)
    requires |row| == |t.entries| == |t.diagonal|
    ensures CountsOf(t, row, 0) == InitCounts(InvalidCounts(0, 0, 0), 0, 0, Found(0, 0))
  {
  }

  lemma AllBounded(ws: WordRow, blocks: seq<BlockSummary>)
    requires |blocks| == NumBlocks(|ws|)
    requires forall i: nat | i < |ws| :: BlockOf(i) < |blocks| && BoundedBy(Unpack(ws[i]), blocks[BlockOf(i)])
    ensures Bounded(Unpacked(ws), blocks)
  {
  }
}

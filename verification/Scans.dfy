/** The working arrays of a pair, and the pruned scans that update them. */
module Scans {
  import opened Cells
  import opened Exactness
  import opened Outcomes
  import opened Propagation
  import opened Summaries
  import opened WordRows

  datatype WinUpdate = Unchanged | NewlyResolved | Upgraded

  /** Mutable words of the current pair; a self-twin has one shared array. */
  class WorkingPair {
    const values: seq<array<CellWord>>

    ghost predicate Valid() {
      1 <= |values| <= 2 && (|values| == 2 ==> values[0] != values[1])
    }

    constructor (lengths: seq<nat>)
      requires 1 <= |lengths| <= 2
      ensures Valid() && |values| == |lengths|
      ensures forall slot | 0 <= slot < |values| :: fresh(values[slot]) && values[slot].Length == lengths[slot]
    {
      var a := new CellWord[lengths[0]](_ => INVALID);
      if |lengths| == 1 {
        values := [a];
      } else {
        var b := new CellWord[lengths[1]](_ => INVALID);
        values := [a, b];
      }
    }

    method MarkWin(slot: nat, idx: nat, ct: ConversionType, plies: nat) returns (update: WinUpdate)
      requires slot < |values| && idx < values[slot].Length
      modifies values[slot]
      ensures values[slot][..] == old(values[slot][..])[idx := MarkWinWord(old(values[slot][idx]), ct, plies)]
      ensures update == if IsUnknown(old(values[slot][idx])) then NewlyResolved
                        else if values[slot][idx] != old(values[slot][idx]) then Upgraded
                        else Unchanged
    {
      hide ShiftIn;
      var v: Word := values[slot][idx];
      TagAndDistance(TypeBits(ct), plies);
      var newlyResolved := IsUnknown(v);
      if !newlyResolved && !(IsWin(v) && v / 8 == plies && Preference(ct) > Preference(OutcomeType(v))) {
        return Unchanged;
      }
      values[slot][idx] := NewWin(ct, plies);
      update := if newlyResolved then NewlyResolved else Upgraded;
    }

    method Decrement(slot: nat, idx: nat, ct: ConversionType, plies: nat) returns (resolved: bool)
      requires slot < |values| && idx < values[slot].Length
      modifies values[slot]
      ensures values[slot][..] == old(values[slot][..])[idx := DecrementWord(old(values[slot][idx]), ct, plies)]
      ensures resolved <==> IsUnknown(old(values[slot][idx])) && IsLoss(values[slot][idx])
    {
      hide ShiftIn;
      var v: Word := values[slot][idx];
      TagAndDistance(TypeBits(ct) + 1, plies);
      if !IsUnknown(v) {
        return false;
      }
      var counter := v / 8;
      values[slot][idx] := if counter == 1 then NewLoss(ct, plies) else NewUnknown(counter - 1);
      resolved := counter == 1;
    }
  }

  // ---------------------------------------------------------------------
  // Bookkeeping.

  lemma ResolvesTransitive(a: Row, b: Row, c: Row, plies: nat)
    requires RowResolvesAt(a, b, plies) && RowResolvesAt(b, c, plies)
    ensures RowResolvesAt(a, c, plies)
  {
  }

  /** What the counts of a row lose in unknowns they gain at this ply. */
  ghost predicate Conserves(row: Row, row': Row, plies: nat, found: Found) {
    && Count(row', WonAt(plies)) == Count(row, WonAt(plies)) + found.wins
    && Count(row', LostAt(plies)) == Count(row, LostAt(plies)) + found.losses
    && Count(row', Unresolved) + found.wins + found.losses == Count(row, Unresolved)
  }

  lemma UpdateConserves(row: Row, i: nat, c: Cell, plies: nat)
    requires i < |row| && ResolvesAt(row[i], c, plies)
    ensures Conserves(row, row[i := c], plies,
                      Found(if row[i].Unknown? && c.Won? then 1 else 0, if row[i].Unknown? && c.Lost? then 1 else 0))
  {
    CountAfterUpdate(row, i, c, WonAt(plies));
    CountAfterUpdate(row, i, c, LostAt(plies));
    CountAfterUpdate(row, i, c, Unresolved);
  }

  /** The same for words. The newly resolved cells leave the unknown ones whatever is
      written for them; they are found at the ply only if its distance fits. */
  ghost predicate Books(ws: WordRow, ws': WordRow, plies: nat, found: Found) {
    && Count(Unpacked(ws'), Unresolved) + found.wins + found.losses == Count(Unpacked(ws), Unresolved)
    && (plies < 0x2000 || found.IsEmpty() ==> Conserves(Unpacked(ws), Unpacked(ws'), plies, found))
    && SameInvalid(Unpacked(ws), Unpacked(ws'))
  }

  lemma BooksTransitive(a: WordRow, b: WordRow, c: WordRow, plies: nat, f: Found, g: Found)
    requires Books(a, b, plies, f) && Books(b, c, plies, g)
    ensures Books(a, c, plies, f.Merge(g))
  {
  }

  lemma StepBooks(ws: WordRow, i: nat, scan: Scan, ct: ConversionType)
    requires i < |ws|
    ensures var w := scan.StepWord(ws[i], ct);
            Books(ws, ws[i := w], scan.plies,
                  Found(if IsUnknown(ws[i]) && IsWin(w) then 1 else 0, if IsUnknown(ws[i]) && IsLoss(w) then 1 else 0))
  {
    hide ShiftIn, Count;
    var w := scan.StepWord(ws[i], ct);
    StepWordCounts(ws, i, scan, ct);
    StepKeepsInvalid(scan, ws[i], ct);
    StepWordIs(scan, ws[i], ct);
    UnpackedUpdate(ws, i, w);
    if scan.plies < 0x2000 || IsUnknown(w) || !IsUnknown(ws[i]) {
      UpdateConserves(Unpacked(ws), i, Unpack(w), scan.plies);
    }
  }

  /** A recorded bound exceeds a distance that is written modulo 8192. */
  lemma StepKeepsBounded(ws: WordRow, blocks: seq<BlockSummary>, i: nat, scan: Scan, ct: ConversionType)
    requires Bounded(Unpacked(ws), blocks) && i < |ws|
    ensures BlockOf(i) < |blocks|
    ensures var w, kind := scan.StepWord(ws[i], ct), if scan.Losses? then WinKind(ct) else LossKind;
            && (w != ws[i] && !IsUnknown(w) ==>
                  Bounded(Unpacked(ws[i := w]), blocks[BlockOf(i) := blocks[BlockOf(i)].Raise(kind, scan.plies + 1)]))
            && (w == ws[i] || IsUnknown(w) ==> Bounded(Unpacked(ws[i := w]), blocks))
  {
    hide Bounded, Unpack, Unpacked, Scan.StepWord, IsUnknown, BlockSummary.Raise;
    var w, kind := scan.StepWord(ws[i], ct), if scan.Losses? then WinKind(ct) else LossKind;
    UnpackedUpdate(ws, i, w);
    SteppedCell(ws[i], ct, scan);
    if w == ws[i] {
      assert ws[i := w] == ws;
    } else if IsUnknown(w) {
      UnknownKeepsBounded(Unpacked(ws), blocks, i, Unpack(w));
    } else {
      RaisedKeepsBounded(Unpacked(ws), blocks, i, Unpack(w), kind, scan.plies + 1);
    }
    BoundedBlocks(Unpacked(ws), blocks, i);
  }

  lemma BoundedBlocks(row: Row, blocks: seq<BlockSummary>, i: nat)
    requires Bounded(row, blocks) && i < |row|
    ensures BlockOf(i) < |blocks|
  {
    BlockExists(i, |row|);
  }

  /** The cell of an updated word. */
  lemma SteppedCell(w: CellWord, ct: ConversionType, scan: Scan)
    ensures var w', kind := scan.StepWord(w, ct), if scan.Losses? then WinKind(ct) else LossKind;
            w' != w ==> (
              && (IsUnknown(w') ==> Unpack(w').Unknown?)
              && (!IsUnknown(w') ==>
                    (Unpack(w').Won? || Unpack(w').Lost?) && KindOf(Unpack(w')) == kind
                      && Unpack(w').plies <= scan.plies))
  {
    hide ShiftIn;
    TagAndDistance(TypeBits(ct), scan.plies);
    TagAndDistance(TypeBits(ct) + 1, scan.plies);
    if IsUnknown(w) && w / 8 > 1 {
      TagAndDistance(0, w / 8 - 1);
    }
  }

  // ---------------------------------------------------------------------
  // Propagating one source.

  /** One emission: the atomic update, its count and its block bound. */
  method UpdateOne(working: WorkingPair, slot: nat, summary: PlySummary, idx: nat, ct: ConversionType, scan: Scan)
    returns (found: Found)
    requires slot < |working.values| && idx < working.values[slot].Length
    requires summary.Valid() && summary.size == working.values[slot].Length
    requires Bounded(Unpacked(working.values[slot][..]), summary.blocks[..])
    modifies working.values[slot], summary.blocks
    ensures working.values[slot][..]
         == old(working.values[slot][..])[idx := scan.StepWord(old(working.values[slot][idx]), ct)]
    ensures Bounded(Unpacked(working.values[slot][..]), summary.blocks[..])
    ensures Books(old(working.values[slot][..]), working.values[slot][..], scan.plies, found)
    ensures OneKind(found, scan)
  {
    hide Bounded, Books, ShiftIn, Unpacked;
    ghost var ws, blocks := working.values[slot][..], summary.blocks[..];
    StepBooks(ws, idx, scan, ct);
    StepKeepsBounded(ws, blocks, idx, scan, ct);
    StepTags(ws[idx], ct, scan);
    if scan.Losses? {
      var update := working.MarkWin(slot, idx, ct, scan.plies);
      if update != Unchanged {
        summary.Record(idx, WinKind(ct), scan.plies);
      }
      found := Found(if update == NewlyResolved then 1 else 0, 0);
    } else {
      var resolved := working.Decrement(slot, idx, ct, scan.plies);
      if resolved {
        summary.Record(idx, LossKind, scan.plies);
      }
      found := Found(0, if resolved then 1 else 0);
    }
  }

  /** A scan of losses finds wins, and a scan of wins losses. */
  predicate OneKind(found: Found, scan: Scan) {
    if scan.Losses? then found.losses == 0 else found.wins == 0
  }

  lemma NothingFound(scan: Scan)
    ensures OneKind(Found(0, 0), scan)
  {
  }

  lemma MergeKinds(f: Found, g: Found, scan: Scan)
    requires OneKind(f, scan) && OneKind(g, scan)
    ensures OneKind(f.Merge(g), scan) && (f.IsEmpty() && g.IsEmpty() ==> f.Merge(g).IsEmpty())
  {
    hide Found.Merge;
    MergedCounts(f, g);
  }

  lemma StepTags(w: CellWord, ct: ConversionType, scan: Scan)
    ensures scan.Losses? && IsUnknown(w) ==> IsWin(scan.StepWord(w, ct)) && scan.StepWord(w, ct) != w
    ensures scan.Losses? ==> !IsLoss(scan.StepWord(w, ct)) || !IsUnknown(w)
    ensures scan.Losses? && scan.StepWord(w, ct) != w ==> !IsUnknown(scan.StepWord(w, ct))
    ensures scan.Wins? && scan.StepWord(w, ct) != w ==>
              IsUnknown(w) && (IsUnknown(scan.StepWord(w, ct)) || IsLoss(scan.StepWord(w, ct)))
    ensures !(IsUnknown(w) && (IsWin(w) || IsLoss(w))) && !(IsWin(w) && IsLoss(w))
  {
    hide ShiftIn;
    TagAndDistance(TypeBits(ct), scan.plies);
    TagAndDistance(TypeBits(ct) + 1, scan.plies);
    if IsUnknown(w) && w / 8 > 1 {
      TagAndDistance(0, w / 8 - 1);
    }
  }

  lemma EmitStep(targets: seq<nat>, ct: ConversionType, k: nat, n: nat)
    requires k < |targets| && InRange(targets, n)
    ensures Emit(targets, ct)[..k + 1] == Emit(targets, ct)[..k] + [Update(targets[k], ct)]
    ensures UpdatesInRange(Emit(targets, ct)[..k + 1], n) && UpdatesInRange(Emit(targets, ct)[..k], n)
  {
  }

  method UpdatePredecessors(working: WorkingPair, slot: nat, summary: PlySummary, targets: seq<nat>,
                            ct: ConversionType, scan: Scan)
    returns (found: Found)
    requires slot < |working.values| && InRange(targets, working.values[slot].Length)
    requires summary.Valid() && summary.size == working.values[slot].Length
    requires Bounded(Unpacked(working.values[slot][..]), summary.blocks[..])
    modifies working.values[slot], summary.blocks
    ensures UpdatesInRange(Emit(targets, ct), working.values[slot].Length)
    ensures working.values[slot][..] == ApplyWords(old(working.values[slot][..]), Emit(targets, ct), scan)
    ensures Bounded(Unpacked(working.values[slot][..]), summary.blocks[..])
    ensures Books(old(working.values[slot][..]), working.values[slot][..], scan.plies, found)
    ensures OneKind(found, scan)
  {
    hide Bounded, Books, Unpacked, Scan.StepWord;
    found := Found(0, 0);
    var cells := working.values[slot];
    NoBooks(cells[..], scan.plies);
    for k := 0 to |targets|
      invariant UpdatesInRange(Emit(targets, ct)[..k], cells.Length)
      invariant cells[..] == ApplyWords(old(cells[..]), Emit(targets, ct)[..k], scan)
      invariant Bounded(Unpacked(cells[..]), summary.blocks[..])
      invariant Books(old(cells[..]), cells[..], scan.plies, found) && OneKind(found, scan)
    {
      ghost var ws := cells[..];
      EmitStep(targets, ct, k, cells.Length);
      var more := UpdateOne(working, slot, summary, targets[k], ct, scan);
      BooksTransitive(old(cells[..]), ws, cells[..], scan.plies, found, more);
      found := found.Merge(more);
    }
    assert Emit(targets, ct)[..|targets|] == Emit(targets, ct);
  }

  lemma NoBooks(ws: WordRow, plies: nat)
    ensures Books(ws, ws, plies, Found(0, 0))
  {
  }

  // ---------------------------------------------------------------------
  // Scans.

  /** Ascending ranges of a row. */
  ghost predicate Ascending(ranges: seq<(nat, nat)>, n: nat) {
    && (forall k | 0 <= k < |ranges| :: ranges[k].0 <= ranges[k].1 <= n)
    && (forall k, l | 0 <= k < l < |ranges| :: ranges[k].1 <= ranges[l].0)
  }

  /** The ranges hold every source of a scan. */
  ghost predicate HoldSources(ranges: seq<(nat, nat)>, ws: WordRow, scan: Scan) {
    forall i: nat | i < |ws| && scan.IsSourceWord(ws[i]) :: InRanges(ranges, i)
  }

  lemma {:induction false} UpdatesConcat(unmoves: seq<seq<nat>>, ws: WordRow, scan: Scan, lo: nat, mid: nat, hi: nat)
    requires lo <= mid <= hi <= |ws| == |unmoves|
    ensures WordUpdates(unmoves, ws, scan, lo, hi) == WordUpdates(unmoves, ws, scan, lo, mid)
            + WordUpdates(unmoves, ws, scan, mid, hi)
  {
    if mid < hi {
      UpdatesConcat(unmoves, ws, scan, lo, mid, hi - 1);
    }
  }

  lemma {:induction false} NoUpdates(unmoves: seq<seq<nat>>, ws: WordRow, scan: Scan, lo: nat, hi: nat)
    requires lo <= hi <= |ws| == |unmoves|
    requires forall s | lo <= s < hi :: !scan.IsSourceWord(ws[s])
    ensures WordUpdates(unmoves, ws, scan, lo, hi) == []
  {
    if lo < hi {
      NoUpdates(unmoves, ws, scan, lo, hi - 1);
    }
  }

  ghost predicate GoodMatches(unmoves: seq<seq<nat>>, matches: seq<(nat, CellWord)>) {
    forall k | 0 <= k < |matches| :: matches[k].0 < |unmoves|
  }

  /** The updates of the sources collected from one block. */
  ghost function UpdatesOf(unmoves: seq<seq<nat>>, matches: seq<(nat, CellWord)>): seq<Update>
    requires GoodMatches(unmoves, matches)
  {
    if matches == [] then []
    else
      var n := |matches| - 1;
      UpdatesOf(unmoves, matches[..n]) + Emit(unmoves[matches[n].0], OutcomeType(matches[n].1))
  }

  lemma NoMatches(unmoves: seq<seq<nat>>, ws: WordRow, scan: Scan, start: nat)
    requires start <= |ws| == |unmoves|
    ensures UpdatesOf(unmoves, []) == WordUpdates(unmoves, ws, scan, start, start)
  {
  }

  /** Whether the word read at `idx` is a source is what it was before the scan. */
  lemma OneMoreMatch(unmoves: seq<seq<nat>>, ws: WordRow, source: WordRow, scan: Scan, start: nat, idx: nat,
                     matches: seq<(nat, CellWord)>)
    requires start <= idx < |ws| == |unmoves| && SourcesKept(ws, source, scan) && GoodMatches(unmoves, matches)
    requires UpdatesOf(unmoves, matches) == WordUpdates(unmoves, ws, scan, start, idx)
    ensures var more := if scan.IsSourceWord(source[idx]) then matches + [(idx, source[idx])] else matches;
            && GoodMatches(unmoves, more)
            && UpdatesOf(unmoves, more) == WordUpdates(unmoves, ws, scan, start, idx + 1)
    ensures scan.IsSourceWord(source[idx]) ==> HasSourceWord(ws, scan)
  {
    hide Scan.IsSourceWord, OutcomeType, Emit;
    assert (matches + [(idx, source[idx])])[..|matches|] == matches;
    if scan.IsSourceWord(source[idx]) {
      assert source[idx] == ws[idx];
    }
  }

  /** The sources among indices `start..end`. Updates made earlier in the same scan
      (`ws` holds the words before them) do not change the collection. */
  method Collect(source: array<CellWord>, start: nat, end: nat, scan: Scan, ghost unmoves: seq<seq<nat>>,
                 ghost ws: WordRow)
    returns (matches: seq<(nat, CellWord)>)
    requires start <= end <= source.Length == |ws| == |unmoves|
    requires SourcesKept(ws, source[..], scan)
    ensures GoodMatches(unmoves, matches)
    ensures UpdatesOf(unmoves, matches) == WordUpdates(unmoves, ws, scan, start, end)
    ensures matches != [] ==> HasSourceWord(ws, scan)
  {
    hide Scan.IsSourceWord, OutcomeType, Emit, SourcesKept, WordUpdates, UpdatesOf, HasSourceWord;
    matches := [];
    NoMatches(unmoves, ws, scan, start);
    for idx := start to end
      invariant GoodMatches(unmoves, matches)
      invariant UpdatesOf(unmoves, matches) == WordUpdates(unmoves, ws, scan, start, idx)
      invariant matches != [] ==> HasSourceWord(ws, scan)
    {
      var v := source[idx];
      assert v == source[..][idx];
      OneMoreMatch(unmoves, ws, source[..], scan, start, idx, matches);
      if scan.IsSourceWord(v) {
        matches := matches + [(idx, v)];
      }
    }
  }

  /** Propagates the sources collected from one block. */
  method Process(unmoves: seq<seq<nat>>, working: WorkingPair, twin: nat, summary: PlySummary,
                 matches: seq<(nat, CellWord)>, scan: Scan)
    returns (found: Found)
    requires twin < |working.values| && GoodMatches(unmoves, matches)
    requires forall s | 0 <= s < |unmoves| :: InRange(unmoves[s], working.values[twin].Length)
    requires summary.Valid() && summary.size == working.values[twin].Length
    requires Bounded(Unpacked(working.values[twin][..]), summary.blocks[..])
    modifies working.values[twin], summary.blocks
    ensures Bounded(Unpacked(working.values[twin][..]), summary.blocks[..])
    ensures UpdatesInRange(UpdatesOf(unmoves, matches), working.values[twin].Length)
    ensures working.values[twin][..] == ApplyWords(old(working.values[twin][..]), UpdatesOf(unmoves, matches), scan)
    ensures Books(old(working.values[twin][..]), working.values[twin][..], scan.plies, found)
    ensures OneKind(found, scan) && (matches == [] ==> found.IsEmpty())
  {
    hide Bounded, Books, Unpacked, Scan.StepWord, OutcomeType;
    found := Found(0, 0);
    var cells := working.values[twin];
    NoBooks(cells[..], scan.plies);
    for m := 0 to |matches|
      invariant UpdatesInRange(UpdatesOf(unmoves, matches[..m]), cells.Length)
      invariant cells[..] == ApplyWords(old(cells[..]), UpdatesOf(unmoves, matches[..m]), scan)
      invariant Bounded(Unpacked(cells[..]), summary.blocks[..])
      invariant Books(old(cells[..]), cells[..], scan.plies, found)
      invariant OneKind(found, scan) && (m == 0 ==> found.IsEmpty())
    {
      ghost var ws := cells[..];
      assert matches[..m + 1][..m] == matches[..m];
      var (idx, v) := matches[m];
      var more := UpdatePredecessors(working, twin, summary, unmoves[idx], OutcomeType(v), scan);
      ApplyWordsConcat(old(cells[..]), UpdatesOf(unmoves, matches[..m]), Emit(unmoves[idx], OutcomeType(v)), scan);
      BooksTransitive(old(cells[..]), ws, cells[..], scan.plies, found, more);
      found := found.Merge(more);
    }
    assert matches[..|matches|] == matches;
  }

  /** Where a range ends, with 0 before the first one. */
  function EndBefore(ranges: seq<(nat, nat)>, k: nat): nat
    requires k <= |ranges|
  {
    if k == 0 then 0 else ranges[k - 1].1
  }

  /** There is nothing to collect between two ranges, nor after the last one. */
  lemma UpdatesOfRange(unmoves: seq<seq<nat>>, ws: WordRow, scan: Scan, ranges: seq<(nat, nat)>, k: nat)
    requires |ws| == |unmoves| && Ascending(ranges, |ws|) && HoldSources(ranges, ws, scan) && k <= |ranges|
    ensures var next := if k < |ranges| then ranges[k].0 else |ws|;
            && EndBefore(ranges, k) <= next <= |ws|
            && WordUpdates(unmoves, ws, scan, 0, next) == WordUpdates(unmoves, ws, scan, 0, EndBefore(ranges, k))
    ensures k < |ranges| ==> (
              WordUpdates(unmoves, ws, scan, 0, ranges[k].1)
              == WordUpdates(unmoves, ws, scan, 0, EndBefore(ranges, k))
                + WordUpdates(unmoves, ws, scan, ranges[k].0, ranges[k].1))
  {
    var pos, next := EndBefore(ranges, k), if k < |ranges| then ranges[k].0 else |ws|;
    forall s | pos <= s < next ensures !scan.IsSourceWord(ws[s]) {
      forall l | 0 <= l < |ranges| ensures !(ranges[l].0 <= s < ranges[l].1) {
        assert l < k - 1 || l == k - 1 || l >= k;
      }
      assert !InRanges(ranges, s);
    }
    NoUpdates(unmoves, ws, scan, pos, next);
    UpdatesConcat(unmoves, ws, scan, 0, pos, next);
    if k < |ranges| {
      UpdatesConcat(unmoves, ws, scan, 0, next, ranges[k].1);
    }
  }

  /** Collects and propagates one block. */
  method ScanBlock(unmoves: seq<seq<nat>>, working: WorkingPair, slot: nat, twin: nat, summary: PlySummary,
                   start: nat, end: nat, scan: Scan, ghost ws: WordRow)
    returns (found: Found)
    requires slot < |working.values| && twin < |working.values|
    requires start <= end <= |ws| && |ws| == |unmoves| == working.values[slot].Length
    requires forall s | 0 <= s < |unmoves| :: InRange(unmoves[s], working.values[twin].Length)
    requires summary.Valid() && summary.size == working.values[twin].Length
    requires Bounded(Unpacked(working.values[twin][..]), summary.blocks[..])
    requires SourcesKept(ws, working.values[slot][..], scan)
    modifies working.values[twin], summary.blocks
    ensures SourcesKept(ws, working.values[slot][..], scan)
    ensures Bounded(Unpacked(working.values[twin][..]), summary.blocks[..])
    ensures UpdatesInRange(WordUpdates(unmoves, ws, scan, start, end), working.values[twin].Length)
    ensures working.values[twin][..]
         == ApplyWords(old(working.values[twin][..]), WordUpdates(unmoves, ws, scan, start, end), scan)
    ensures Books(old(working.values[twin][..]), working.values[twin][..], scan.plies, found)
    ensures OneKind(found, scan) && (found.IsEmpty() || HasSourceWord(ws, scan))
  {
    hide Bounded, Books, Unpacked, SourcesKept, Scan.IsSourceWord, Scan.StepWord;
    ghost var source, target := working.values[slot][..], working.values[twin][..];
    var matches := Collect(working.values[slot], start, end, scan, unmoves, ws);
    found := Process(unmoves, working, twin, summary, matches, scan);
    ApplyKeepsSources(target, UpdatesOf(unmoves, matches), scan);
    if working.values[slot] == working.values[twin] {
      SourcesKeptTransitive(ws, source, working.values[slot][..], scan);
    } else {
      assert working.values[slot][..] == source;
    }
  }

  /** The updates of the indices before `n` have been performed on `ws0`. */
  ghost predicate AppliedBefore(unmoves: seq<seq<nat>>, ws: WordRow, ws0: WordRow, now: WordRow, scan: Scan, n: nat)
    requires n <= |ws| == |unmoves|
  {
    var us := WordUpdates(unmoves, ws, scan, 0, n);
    UpdatesInRange(us, |ws0|) && now == ApplyWords(ws0, us, scan)
  }

  lemma NothingApplied(unmoves: seq<seq<nat>>, ws: WordRow, ws0: WordRow, scan: Scan)
    requires |ws| == |unmoves|
    ensures AppliedBefore(unmoves, ws, ws0, ws0, scan, 0)
  {
  }

  lemma AppliedRange(unmoves: seq<seq<nat>>, ws: WordRow, ws0: WordRow, now: WordRow, scan: Scan,
                     ranges: seq<(nat, nat)>, k: nat)
    requires |ws| == |unmoves| && Ascending(ranges, |ws|) && HoldSources(ranges, ws, scan) && k < |ranges|
    requires EndBefore(ranges, k) <= |ws| && AppliedBefore(unmoves, ws, ws0, now, scan, EndBefore(ranges, k))
    requires |now| == |ws0| && UpdatesInRange(WordUpdates(unmoves, ws, scan, ranges[k].0, ranges[k].1), |ws0|)
    ensures AppliedBefore(unmoves, ws, ws0,
                          ApplyWords(now, WordUpdates(unmoves, ws, scan, ranges[k].0, ranges[k].1), scan), scan,
                          ranges[k].1)
  {
    hide ApplyWords, WordUpdates, HoldSources, Scan.IsSourceWord;
    UpdatesOfRange(unmoves, ws, scan, ranges, k);
    ApplyWordsConcat(ws0, WordUpdates(unmoves, ws, scan, 0, EndBefore(ranges, k)),
                     WordUpdates(unmoves, ws, scan, ranges[k].0, ranges[k].1), scan);
  }

  lemma AllApplied(unmoves: seq<seq<nat>>, ws: WordRow, ws0: WordRow, now: WordRow, scan: Scan, ranges: seq<(nat, nat)>)
    requires |ws| == |unmoves| && Ascending(ranges, |ws|) && HoldSources(ranges, ws, scan)
    requires EndBefore(ranges, |ranges|) <= |ws|
             && AppliedBefore(unmoves, ws, ws0, now, scan, EndBefore(ranges, |ranges|))
    ensures AppliedBefore(unmoves, ws, ws0, now, scan, |ws|)
  {
    hide ApplyWords, WordUpdates, HoldSources, Scan.IsSourceWord;
    UpdatesOfRange(unmoves, ws, scan, ranges, |ranges|);
  }

  predicate HasSourceWord(ws: WordRow, scan: Scan) {
    exists i :: 0 <= i < |ws| && scan.IsSourceWord(ws[i])
  }

  /** A scan over the given ranges, if they hold all sources, performs the updates of
      a full scan, although blocks are skipped and a self-twin is updated while it is
      read. */
  method ScanTable(unmoves: seq<seq<nat>>, working: WorkingPair, slot: nat, twin: nat, summary: PlySummary,
                   ranges: seq<(nat, nat)>, scan: Scan)
    returns (found: Found)
    requires slot < |working.values| && twin < |working.values|
    requires |unmoves| == working.values[slot].Length
    requires forall s | 0 <= s < |unmoves| :: InRange(unmoves[s], working.values[twin].Length)
    requires summary.Valid() && summary.size == working.values[twin].Length
    requires Bounded(Unpacked(working.values[twin][..]), summary.blocks[..])
    requires Ascending(ranges, |unmoves|)
    modifies working.values[twin], summary.blocks
    ensures Bounded(Unpacked(working.values[twin][..]), summary.blocks[..])
    ensures HoldSources(ranges, old(working.values[slot][..]), scan) ==>
              AppliedBefore(unmoves, old(working.values[slot][..]), old(working.values[twin][..]),
                            working.values[twin][..], scan, |unmoves|)
    ensures Books(old(working.values[twin][..]), working.values[twin][..], scan.plies, found)
    ensures OneKind(found, scan) && (found.IsEmpty() || HasSourceWord(old(working.values[slot][..]), scan))
  {
    hide Bounded, Books, OneKind, Unpacked, HoldSources, SourcesKept, AppliedBefore, HasSourceWord, ApplyWords;
    hide WordUpdates;
    NothingFound(scan);
    ghost var ws, ws0 := working.values[slot][..], working.values[twin][..];
    ghost var complete := HoldSources(ranges, ws, scan);
    found := Found(0, 0);
    NoBooks(ws0, scan.plies);
    KeptAtFirst(ws, scan);
    NothingApplied(unmoves, ws, ws0, scan);
    for k := 0 to |ranges|
      invariant EndBefore(ranges, k) <= |ws|
      invariant complete ==> AppliedBefore(unmoves, ws, ws0, working.values[twin][..], scan, EndBefore(ranges, k))
      invariant SourcesKept(ws, working.values[slot][..], scan)
      invariant Bounded(Unpacked(working.values[twin][..]), summary.blocks[..])
      invariant Books(ws0, working.values[twin][..], scan.plies, found)
      invariant OneKind(found, scan) && (found.IsEmpty() || HasSourceWord(ws, scan))
    {
      var (start, end) := ranges[k];
      ghost var ws1 := working.values[twin][..];
      var more := ScanBlock(unmoves, working, slot, twin, summary, start, end, scan, ws);
      if complete {
        AppliedRange(unmoves, ws, ws0, ws1, scan, ranges, k);
      }
      BooksTransitive(ws0, ws1, working.values[twin][..], scan.plies, found, more);
      MergeKinds(found, more, scan);
      found := found.Merge(more);
    }
    if complete {
      AllApplied(unmoves, ws, ws0, working.values[twin][..], scan, ranges);
    }
  }

  lemma KeptAtFirst(ws: WordRow, scan: Scan)
    ensures SourcesKept(ws, ws, scan)
  {
  }
}

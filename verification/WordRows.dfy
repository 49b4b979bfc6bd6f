/** Rows of 16-bit words, as the working arrays hold them: what a scan does to them,
    and exactly when this is what it does to the cells they stand for. */
module WordRows {
  import opened Cells
  import opened Outcomes
  import opened Propagation
  import opened Summaries

  type WordRow = seq<CellWord>

  function Unpacked(ws: WordRow): (row: Row)
    ensures |row| == |ws|
  {
    seq(|ws|, i requires 0 <= i < |ws| => Unpack(ws[i]))
  }

  function Packed(row: Row): (ws: WordRow)
    ensures |ws| == |row|
  {
    seq(|row|, i requires 0 <= i < |row| => Pack(row[i]))
  }

  predicate AllFit(row: Row) {
    forall i | 0 <= i < |row| :: Fits(row[i])
  }

  /** Words and the rows that fit them correspond one to one. */
  lemma WordsAreFittingRows(ws: WordRow, row: Row)
    ensures AllFit(Unpacked(ws)) && Packed(Unpacked(ws)) == ws
    ensures Unpacked(Packed(row)) == row <==> AllFit(row)
  {
    hide Fits;
    forall i | 0 <= i < |ws| ensures Fits(Unpacked(ws)[i]) && Packed(Unpacked(ws))[i] == ws[i] {
      UnpackedFits(ws[i]);
      UnpackingIsExact(ws[i]);
    }
    forall i | 0 <= i < |row| ensures Unpacked(Packed(row))[i] == row[i] <==> Fits(row[i]) {
      PackingIsExact(row[i]);
    }
  }

  // ---------------------------------------------------------------------
  // Updates.

  /** The words after performing the updates one by one. */
  function ApplyWords(ws: WordRow, us: seq<Update>, scan: Scan): (r: WordRow)
    requires UpdatesInRange(us, |ws|)
    ensures |r| == |ws|
  {
    if us == [] then ws
    else
      var before := ApplyWords(ws, us[..|us| - 1], scan);
      var u := us[|us| - 1];
      before[u.index := scan.StepWord(before[u.index], u.ct)]
  }

  /** The updates of a scan of indices `lo..hi`. */
  function WordUpdates(unmoves: seq<seq<nat>>, ws: WordRow, scan: Scan, lo: nat, hi: nat): seq<Update>
    requires lo <= hi <= |ws| == |unmoves|
  {
    if lo == hi then []
    else
      WordUpdates(unmoves, ws, scan, lo, hi - 1)
      + if scan.IsSourceWord(ws[hi - 1]) then Emit(unmoves[hi - 1], OutcomeType(ws[hi - 1])) else []
  }

  lemma {:induction false} ApplyWordsConcat(ws: WordRow, us: seq<Update>, vs: seq<Update>, scan: Scan)
    requires UpdatesInRange(us, |ws|) && UpdatesInRange(vs, |ws|)
    ensures UpdatesInRange(us + vs, |ws|)
    ensures ApplyWords(ApplyWords(ws, us, scan), vs, scan) == ApplyWords(ws, us + vs, scan)
  {
    if vs == [] {
      assert us + vs == us;
    } else {
      var n := |vs| - 1;
      ApplyWordsConcat(ws, us, vs[..n], scan);
      assert (us + vs)[..|us + vs| - 1] == us + vs[..n];
    }
  }

  lemma UnpackedUpdate(ws: WordRow, i: nat, w: CellWord)
    requires i < |ws|
    ensures Unpacked(ws[i := w]) == Unpacked(ws)[i := Unpack(w)]
  {
  }

  // ---------------------------------------------------------------------
  // Words and cells.

  /** One update of a word is that of its cell exactly if the resulting cell fits. */
  lemma StepWordIs(scan: Scan, w: CellWord, ct: ConversionType)
    ensures Unpack(scan.StepWord(w, ct)) == scan.Step(Unpack(w), ct) <==> Fits(scan.Step(Unpack(w), ct))
    ensures scan.plies < 0x2000 || Unpack(scan.StepWord(w, ct)).Unknown? == Unpack(w).Unknown? ==>
              Fits(scan.Step(Unpack(w), ct))
  {
    hide ShiftIn;
    WordUpdatesAreCellUpdates(w, ct, scan.plies);
    if IsUnknown(w) {
      DeepUpdatesWrap(w, ct, scan.plies);
    }
  }

  /** A value that does not fit is never repaired by a later update. */
  lemma MisfitsStay(row: Row, us: seq<Update>, scan: Scan)
    requires UpdatesInRange(us, |row|) && us != [] && AllFit(row)
    ensures AllFit(Apply(row, us, scan)) ==> AllFit(Apply(row, us[..|us| - 1], scan))
  {
    var before := Apply(row, us[..|us| - 1], scan);
    var u := us[|us| - 1];
    if AllFit(Apply(row, us, scan)) {
      CountersFitOn(row, us[..|us| - 1], scan);
      forall i | 0 <= i < |row| ensures Fits(before[i]) {
        assert i != u.index ==> Apply(row, us, scan)[i] == before[i];
        assert i == u.index ==> Apply(row, us, scan)[i] == scan.Step(before[i], u.ct);
      }
    }
  }

  lemma {:induction false} CountersFitOn(row: Row, us: seq<Update>, scan: Scan)
    requires UpdatesInRange(us, |row|) && AllFit(row)
    ensures forall i | 0 <= i < |row| && Apply(row, us, scan)[i].Unknown? :: Fits(Apply(row, us, scan)[i])
  {
    if us != [] {
      CountersFitOn(row, us[..|us| - 1], scan);
    }
  }

  /** A list of updates on words is the list on cells exactly if all cells it leaves
      fit their words. */
  lemma {:induction false} WordsFollowCells(ws: WordRow, us: seq<Update>, scan: Scan)
    requires UpdatesInRange(us, |ws|)
    ensures Unpacked(ApplyWords(ws, us, scan)) == Apply(Unpacked(ws), us, scan)
            <==> AllFit(Apply(Unpacked(ws), us, scan))
  {
    hide Fits;
    var row := Unpacked(ws);
    WordsAreFittingRows(ws, row);
    WordsAreFittingRows(ApplyWords(ws, us, scan), row);
    if us != [] && AllFit(Apply(row, us, scan)) {
      var before := ApplyWords(ws, us[..|us| - 1], scan);
      var u := us[|us| - 1];
      MisfitsStay(row, us, scan);
      WordsFollowCells(ws, us[..|us| - 1], scan);
      StepWordIs(scan, before[u.index], u.ct);
      UnpackedUpdate(before, u.index, scan.StepWord(before[u.index], u.ct));
      assert Apply(row, us, scan)[u.index] == scan.Step(Unpacked(before)[u.index], u.ct);
    }
  }

  /** Unknown cells only become fewer. */
  lemma StepWordCounts(ws: WordRow, i: nat, scan: Scan, ct: ConversionType)
    requires i < |ws|
    ensures var w := scan.StepWord(ws[i], ct);
            Count(Unpacked(ws[i := w]), Unresolved)
            == Count(Unpacked(ws), Unresolved) - if Unpack(ws[i]).Unknown? && !Unpack(w).Unknown? then 1 else 0
  {
    hide ShiftIn;
    var w := scan.StepWord(ws[i], ct);
    UnpackedUpdate(ws, i, w);
    CountAfterUpdate(Unpacked(ws), i, Unpack(w), Unresolved);
    WordUpdatesAreCellUpdates(ws[i], ct, scan.plies);
    if IsUnknown(ws[i]) {
      DeepUpdatesWrap(ws[i], ct, scan.plies);
    }
  }

  lemma {:induction false} UnknownsShrink(ws: WordRow, us: seq<Update>, scan: Scan)
    requires UpdatesInRange(us, |ws|)
    ensures Count(Unpacked(ApplyWords(ws, us, scan)), Unresolved) <= Count(Unpacked(ws), Unresolved)
  {
    if us != [] {
      UnknownsShrink(ws, us[..|us| - 1], scan);
      var u := us[|us| - 1];
      StepWordCounts(ApplyWords(ws, us[..|us| - 1], scan), u.index, scan, u.ct);
    }
  }

  /** Below 8192 plies, or if nothing is resolved, words follow cells. */
  lemma {:induction false} ShallowWordsFollowCells(ws: WordRow, us: seq<Update>, scan: Scan)
    requires UpdatesInRange(us, |ws|)
    requires scan.plies < 0x2000 || Count(Unpacked(ApplyWords(ws, us, scan)), Unresolved)
             == Count(Unpacked(ws), Unresolved)
    ensures Unpacked(ApplyWords(ws, us, scan)) == Apply(Unpacked(ws), us, scan)
  {
    if us != [] {
      var before := ApplyWords(ws, us[..|us| - 1], scan);
      var u := us[|us| - 1];
      UnknownsShrink(ws, us[..|us| - 1], scan);
      StepWordCounts(before, u.index, scan, u.ct);
      ShallowWordsFollowCells(ws, us[..|us| - 1], scan);
      StepWordIs(scan, before[u.index], u.ct);
      UnpackedUpdate(before, u.index, scan.StepWord(before[u.index], u.ct));
    }
  }

  /** Words and cells become known together, whatever is written for them. */
  lemma {:induction false} UnknownsAgree(ws: WordRow, us: seq<Update>, scan: Scan, i: nat)
    requires UpdatesInRange(us, |ws|) && i < |ws|
    ensures var w, c := Unpack(ApplyWords(ws, us, scan)[i]), Apply(Unpacked(ws), us, scan)[i];
            w.Unknown? || c.Unknown? ==> w == c
  {
    if us != [] {
      var u := us[|us| - 1];
      var before := ApplyWords(ws, us[..|us| - 1], scan);
      UnknownsAgree(ws, us[..|us| - 1], scan, i);
      if u.index == i {
        StepUnknown(scan, before[i], Apply(Unpacked(ws), us[..|us| - 1], scan)[i], u.ct);
      }
    }
  }

  lemma StepUnknown(scan: Scan, w: CellWord, c: Cell, ct: ConversionType)
    requires Unpack(w).Unknown? || c.Unknown? ==> Unpack(w) == c
    ensures var w', c' := Unpack(scan.StepWord(w, ct)), scan.Step(c, ct); w'.Unknown? || c'.Unknown? ==> w' == c'
  {
    hide ShiftIn;
    WordUpdatesAreCellUpdates(w, ct, scan.plies);
    if IsUnknown(w) {
      DeepUpdatesWrap(w, ct, scan.plies);
    }
  }

  lemma {:induction false} SameUnknownsCount(a: Row, b: Row)
    requires |a| == |b| && forall i | 0 <= i < |a| :: a[i].Unknown? == b[i].Unknown?
    ensures Count(a, Unresolved) == Count(b, Unresolved)
  {
    if a != [] {
      SameUnknownsCount(a[..|a| - 1], b[..|a| - 1]);
    }
  }

  /** At any ply, as many words as cells are left unknown. */
  lemma UnknownCountsAgree(ws: WordRow, us: seq<Update>, scan: Scan)
    requires UpdatesInRange(us, |ws|)
    ensures Count(Unpacked(ApplyWords(ws, us, scan)), Unresolved) == Count(Apply(Unpacked(ws), us, scan), Unresolved)
  {
    hide Unpack, ApplyWords, Apply, Count;
    forall i | 0 <= i < |ws|
      ensures Unpacked(ApplyWords(ws, us, scan))[i].Unknown? == Apply(Unpacked(ws), us, scan)[i].Unknown?
    {
      UnknownsAgree(ws, us, scan, i);
    }
    SameUnknownsCount(Unpacked(ApplyWords(ws, us, scan)), Apply(Unpacked(ws), us, scan));
  }

  /** The same indices are invalid. */
  predicate SameInvalid(a: Row, b: Row) {
    |b| == |a| && forall i | 0 <= i < |a| :: a[i].Invalid? <==> b[i].Invalid?
  }

  /** No update, at any ply, makes or repairs an invalid word. */
  lemma StepKeepsInvalid(scan: Scan, w: CellWord, ct: ConversionType)
    ensures Unpack(scan.StepWord(w, ct)).Invalid? <==> Unpack(w).Invalid?
  {
    hide ShiftIn;
    WordUpdatesAreCellUpdates(w, ct, scan.plies);
    TagAndDistance(TypeBits(ct), scan.plies);
    TagAndDistance(TypeBits(ct) + 1, scan.plies);
  }

  /** Up to ply 8192 the selected words are those of the selected cells. */
  lemma SourceWords(scan: Scan, w: CellWord)
    requires 0 < scan.plies <= 0x2000
    ensures scan.IsSourceWord(w) <==> scan.IsSource(Unpack(w))
    ensures scan.IsSourceWord(w) ==> Unpack(w).ct == OutcomeType(w)
  {
    UnpackingIsExact(w);
    if scan.Wins? {
      PackingIsExact(Won(scan.ct, scan.plies - 1));
    }
  }

  lemma {:induction false} WordUpdatesFollowCells(unmoves: seq<seq<nat>>, ws: WordRow, scan: Scan, lo: nat, hi: nat)
    requires lo <= hi <= |ws| == |unmoves| && 0 < scan.plies <= 0x2000
    ensures WordUpdates(unmoves, ws, scan, lo, hi) == Updates(unmoves, Unpacked(ws), scan, lo, hi)
  {
    if lo < hi {
      WordUpdatesFollowCells(unmoves, ws, scan, lo, hi - 1);
      SourceWords(scan, ws[hi - 1]);
    }
  }

  lemma {:induction false} WordUpdatesInRange(unmoves: seq<seq<nat>>, ws: WordRow, scan: Scan, lo: nat, hi: nat,
                                              targets: nat)
    requires lo <= hi <= |ws| == |unmoves|
    requires forall s | 0 <= s < |unmoves| :: InRange(unmoves[s], targets)
    ensures UpdatesInRange(WordUpdates(unmoves, ws, scan, lo, hi), targets)
  {
    if lo < hi {
      WordUpdatesInRange(unmoves, ws, scan, lo, hi - 1, targets);
    }
  }

  /** No update of a scan makes, or touches, a word that a scan of its kind selects. */
  predicate SourcesKept(ws: WordRow, ws': WordRow, scan: Scan) {
    && |ws'| == |ws|
    && forall i | 0 <= i < |ws| :: ws'[i] == ws[i] || !(scan.IsSourceWord(ws[i]) || scan.IsSourceWord(ws'[i]))
  }

  lemma {:induction false} ApplyKeepsSources(ws: WordRow, us: seq<Update>, scan: Scan)
    requires UpdatesInRange(us, |ws|)
    ensures SourcesKept(ws, ApplyWords(ws, us, scan), scan)
  {
    if us != [] {
      var before, u := ApplyWords(ws, us[..|us| - 1], scan), us[|us| - 1];
      ApplyKeepsSources(ws, us[..|us| - 1], scan);
      StepKeepsSource(before[u.index], u.ct, scan);
    }
  }

  lemma SourcesKeptTransitive(a: WordRow, b: WordRow, c: WordRow, scan: Scan)
    requires SourcesKept(a, b, scan) && SourcesKept(b, c, scan)
    ensures SourcesKept(a, c, scan)
  {
  }

  lemma StepKeepsSource(w: CellWord, ct: ConversionType, scan: Scan)
    ensures scan.StepWord(w, ct) == w || !(scan.IsSourceWord(w) || scan.IsSourceWord(scan.StepWord(w, ct)))
  {
  }
}

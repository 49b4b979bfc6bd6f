/** Turning a solved table into frames and statistics, batch by batch. */
module Finalization {
  import opened Cells
  import opened FrameCodec
  import opened Initialization
  import opened Propagation
  import opened SolvedPair
  import opened WordRows
  import opened Wrappers

  // ---------------------------------------------------------------------
  // Statistics.

  /** Occurrences per ply. */
  type Histogram = map<nat, nat>

  function CountAt(h: Histogram, ply: nat): nat {
    if ply in h then h[ply] else 0
  }

  function Bump(h: Histogram, ply: nat, n: nat): Histogram {
    h[ply := CountAt(h, ply) + n]
  }

  function AddHistograms(a: Histogram, b: Histogram): Histogram {
    map k | k in a.Keys + b.Keys :: CountAt(a, k) + CountAt(b, k)
  }

  function UpTo(h: Histogram, n: nat): nat {
    if n == 0 then 0 else UpTo(h, n - 1) + CountAt(h, n - 1)
  }

  datatype Stats = Stats(win: nat, draw: nat, loss: nat, redundant: nat,
                         winPlies: Histogram, lossPlies: Histogram,
                         winCandidates: seq<nat>, lossCandidates: seq<nat>)

  const NO_STATS := Stats(0, 0, 0, 0, map[], map[], [], [])

  /** Diagonal partners of a table's indices, and its longest win and loss. */
  datatype TableInfo = TableInfo(diagonal: seq<Option<nat>>, maxWin: nat, maxLoss: nat)

  function Recorded(s: Stats, w: Word, i: nat, info: TableInfo): Stats
    requires i < |info.diagonal|
  {
    var ply: nat := w / 8;
    if Redundant(info.diagonal, i) then s.(redundant := s.redundant + 1)
    else if IsWin(w) then
      s.(win := s.win + 1, winPlies := Bump(s.winPlies, ply, 1),
         winCandidates := if ply == info.maxWin && info.maxWin > 0 then s.winCandidates + [i] else s.winCandidates)
    else if IsLoss(w) then
      s.(loss := s.loss + 1, lossPlies := Bump(s.lossPlies, ply, 1),
         lossCandidates := if ply == info.maxLoss then s.lossCandidates + [i] else s.lossCandidates)
    else if w == DRAW then s.(draw := s.draw + 1)
    else s
  }

  /** The statistics of one pass over the words from index `start` on. */
  function StatsOf(v: seq<Word>, start: nat, info: TableInfo): Stats
    requires start + |v| <= |info.diagonal|
  {
    if v == [] then NO_STATS
    else Recorded(StatsOf(v[..|v| - 1], start, info), v[|v| - 1], start + |v| - 1, info)
  }

  function Merged(a: Stats, b: Stats): Stats {
    Stats(a.win + b.win, a.draw + b.draw, a.loss + b.loss, a.redundant + b.redundant,
          AddHistograms(a.winPlies, b.winPlies), AddHistograms(a.lossPlies, b.lossPlies),
          a.winCandidates + b.winCandidates, a.lossCandidates + b.lossCandidates)
  }

  lemma AddBumped(a: Histogram, b: Histogram, ply: nat)
    ensures AddHistograms(a, Bump(b, ply, 1)) == Bump(AddHistograms(a, b), ply, 1)
  {
  }

  lemma MergeRecorded(a: Stats, b: Stats, w: Word, i: nat, info: TableInfo)
    requires i < |info.diagonal|
    ensures Merged(a, Recorded(b, w, i, info)) == Recorded(Merged(a, b), w, i, info)
  {
    hide Redundant;
    hide AddHistograms, Bump, IsWin, IsLoss;
    var ply: nat := w / 8;
    AddBumped(a.winPlies, b.winPlies, ply);
    AddBumped(a.lossPlies, b.lossPlies, ply);
    if !Redundant(info.diagonal, i) && IsWin(w) {
      assert a.winCandidates + (b.winCandidates + [i]) == a.winCandidates + b.winCandidates + [i];
    } else if !Redundant(info.diagonal, i) && IsLoss(w) {
      assert a.lossCandidates + (b.lossCandidates + [i]) == a.lossCandidates + b.lossCandidates + [i];
    }
  }

  lemma MergeNothing(a: Stats)
    ensures Merged(a, NO_STATS) == a
  {
    assert AddHistograms(a.winPlies, map[]) == a.winPlies;
    assert AddHistograms(a.lossPlies, map[]) == a.lossPlies;
  }

  /** Merging the statistics of consecutive batches is one sequential pass. */
  lemma {:induction false} MergeIsSequential(v: seq<Word>, w: seq<Word>, start: nat, info: TableInfo)
    requires start + |v| + |w| <= |info.diagonal|
    ensures Merged(StatsOf(v, start, info), StatsOf(w, start + |v|, info)) == StatsOf(v + w, start, info)
  {
    hide Recorded, Merged;
    if w == [] {
      assert v + w == v;
      MergeNothing(StatsOf(v, start, info));
    } else {
      var n := |w| - 1;
      MergeIsSequential(v, w[..n], start, info);
      MergeRecorded(StatsOf(v, start, info), StatsOf(w[..n], start + |v|, info), w[n], start + |v| + n, info);
      assert (v + w)[..|v + w| - 1] == v + w[..n];
    }
  }

  lemma {:induction false} BumpCounts(h: Histogram, ply: nat, n: nat)
    ensures UpTo(Bump(h, ply, 1), n) == UpTo(h, n) + if ply < n then 1 else 0
  {
    if n > 0 {
      BumpCounts(h, ply, n - 1);
    }
  }

  lemma RecordedHistograms(s: Stats, w: Word, i: nat, info: TableInfo)
    requires i < |info.diagonal| && UpTo(s.winPlies, 0x2000) == s.win && UpTo(s.lossPlies, 0x2000) == s.loss
    ensures var r := Recorded(s, w, i, info); UpTo(r.winPlies, 0x2000) == r.win && UpTo(r.lossPlies, 0x2000) == r.loss
  {
    hide UpTo, Bump, IsWin, IsLoss, Redundant;
    var ply: nat := w / 8;
    BumpCounts(s.winPlies, ply, 0x2000);
    BumpCounts(s.lossPlies, ply, 0x2000);
  }

  /** Each histogram sums to its total. */
  lemma {:induction false} HistogramsSumToTotals(v: seq<Word>, start: nat, info: TableInfo)
    requires start + |v| <= |info.diagonal|
    ensures var s := StatsOf(v, start, info); UpTo(s.winPlies, 0x2000) == s.win && UpTo(s.lossPlies, 0x2000) == s.loss
  {
    hide UpTo, Recorded;
    if v == [] {
      NothingCounted(0x2000);
    } else {
      var n := |v| - 1;
      HistogramsSumToTotals(v[..n], start, info);
      RecordedHistograms(StatsOf(v[..n], start, info), v[n], start + n, info);
    }
  }

  lemma {:induction false} NothingCounted(n: nat)
    ensures UpTo(map[], n) == 0
  {
    if n > 0 {
      NothingCounted(n - 1);
    }
  }

  /** The examples are the indices of the longest wins and losses, in order. */
  predicate IsExample(w: Word, i: nat, info: TableInfo, won: bool)
    requires i < |info.diagonal|
  {
    && !Redundant(info.diagonal, i)
    && if won then IsWin(w) && w / 8 == info.maxWin && info.maxWin > 0 else IsLoss(w) && w / 8 == info.maxLoss
  }

  lemma {:induction false} CandidatesAre(v: seq<Word>, start: nat, info: TableInfo, i: nat)
    requires start + |v| <= |info.diagonal|
    ensures i in StatsOf(v, start, info).winCandidates
            <==> start <= i < start + |v| && IsExample(v[i - start], i, info, true)
    ensures i in StatsOf(v, start, info).lossCandidates
            <==> start <= i < start + |v| && IsExample(v[i - start], i, info, false)
  {
    hide Recorded, IsExample;
    if v != [] {
      CandidatesAre(v[..|v| - 1], start, info, i);
      RecordedCandidates(StatsOf(v[..|v| - 1], start, info), v[|v| - 1], start + |v| - 1, info, i);
    }
  }

  lemma RecordedCandidates(s: Stats, w: Word, at: nat, info: TableInfo, i: nat)
    requires at < |info.diagonal|
    ensures i in Recorded(s, w, at, info).winCandidates
            <==> i in s.winCandidates || (i == at && IsExample(w, at, info, true))
    ensures i in Recorded(s, w, at, info).lossCandidates
            <==> i in s.lossCandidates || (i == at && IsExample(w, at, info, false))
  {
    hide Bump;
  }

  // ---------------------------------------------------------------------
  // What the statistics count.

  /** Recorded outcomes: wins, losses and draws, or wins and losses at one distance. */
  datatype Kind = OfWin | OfLoss | OfDraw | OfWinAt(plies: nat) | OfLossAt(plies: nat)

  predicate IsKind(w: Word, kind: Kind) {
    match kind
    case OfWin => IsWin(w)
    case OfLoss => IsLoss(w)
    case OfDraw => w == DRAW
    case OfWinAt(n) => IsWin(w) && w / 8 == n
    case OfLossAt(n) => IsLoss(w) && w / 8 == n
  }

  /** The indices of a kind, one per pair of diagonal reflections. */
  ghost function IndicesOf(v: seq<Word>, start: nat, info: TableInfo, kind: Kind): set<nat>
    requires start + |v| <= |info.diagonal|
  {
    set i: nat | start <= i < start + |v| && !Redundant(info.diagonal, i) && IsKind(v[i - start], kind)
  }

  ghost function RedundantIndices(diagonal: seq<Option<nat>>, start: nat, end: nat): set<nat>
    requires start <= end <= |diagonal|
  {
    set i: nat | start <= i < end && Redundant(diagonal, i)
  }

  function Recording(s: Stats, kind: Kind): nat {
    match kind
    case OfWin => s.win
    case OfLoss => s.loss
    case OfDraw => s.draw
    case OfWinAt(n) => CountAt(s.winPlies, n)
    case OfLossAt(n) => CountAt(s.lossPlies, n)
  }

  lemma RecordedKind(s: Stats, w: Word, i: nat, info: TableInfo, kind: Kind)
    requires i < |info.diagonal|
    ensures Recording(Recorded(s, w, i, info), kind)
            == Recording(s, kind) + if !Redundant(info.diagonal, i) && IsKind(w, kind) then 1 else 0
  {
  }

  lemma OneMoreIndex(v: seq<Word>, start: nat, info: TableInfo, kind: Kind)
    requires v != [] && start + |v| <= |info.diagonal|
    ensures var (n, last) := (|v| - 1, start + |v| - 1);
            |IndicesOf(v, start, info, kind)| == |IndicesOf(v[..n], start, info, kind)|
              + if !Redundant(info.diagonal, last) && IsKind(v[n], kind) then 1 else 0
  {
    hide Redundant, IsKind;
    var n, last := |v| - 1, start + |v| - 1;
    var before := IndicesOf(v[..n], start, info, kind);
    forall i: nat
      ensures i in IndicesOf(v, start, info, kind) <==>
                i in before || (i == last && !Redundant(info.diagonal, last) && IsKind(v[n], kind))
    {
      assert start <= i < last ==> v[..n][i - start] == v[i - start];
    }
    OneMore(before, IndicesOf(v, start, info, kind), last, !Redundant(info.diagonal, last) && IsKind(v[n], kind));
  }

  lemma OneMore(before: set<nat>, after: set<nat>, last: nat, added: bool)
    requires last !in before && forall i: nat :: i in after <==> i in before || (i == last && added)
    ensures |after| == |before| + if added then 1 else 0
  {
    assert after == if added then before + {last} else before;
  }

  /** Each total and each histogram entry is the number of its indices. */
  lemma {:induction false} StatsCountIndices(v: seq<Word>, start: nat, info: TableInfo, kind: Kind)
    requires start + |v| <= |info.diagonal|
    ensures Recording(StatsOf(v, start, info), kind) == |IndicesOf(v, start, info, kind)|
  {
    hide Recorded, Redundant, IsKind;
    if v == [] {
      NothingRecordedYet(kind);
    } else {
      var n := |v| - 1;
      StatsCountIndices(v[..n], start, info, kind);
      RecordedKind(StatsOf(v[..n], start, info), v[n], start + n, info, kind);
      OneMoreIndex(v, start, info, kind);
    }
  }

  lemma NothingRecordedYet(kind: Kind)
    ensures Recording(NO_STATS, kind) == 0
  {
  }

  lemma {:induction false} StatsCountRedundant(v: seq<Word>, start: nat, info: TableInfo)
    requires start + |v| <= |info.diagonal|
    ensures StatsOf(v, start, info).redundant == |RedundantIndices(info.diagonal, start, start + |v|)|
  {
    if v != [] {
      var n := |v| - 1;
      StatsCountRedundant(v[..n], start, info);
      OneMore(RedundantIndices(info.diagonal, start, start + n), RedundantIndices(info.diagonal, start, start + |v|),
              start + n, Redundant(info.diagonal, start + n));
    }
  }

  class TableStats {
    var win: nat
    var draw: nat
    var loss: nat
    var redundant: nat
    var winPlies: Histogram
    var lossPlies: Histogram
    var winCandidates: seq<nat>
    var lossCandidates: seq<nat>

    function Value(): Stats
      reads this
    {
      Stats(win, draw, loss, redundant, winPlies, lossPlies, winCandidates, lossCandidates)
    }

    constructor ()
      ensures Value() == NO_STATS
    {
      win, draw, loss, redundant := 0, 0, 0, 0;
      winPlies, lossPlies, winCandidates, lossCandidates := map[], map[], [], [];
    }

    method RecordOutcome(outcome: Word, i: nat, info: TableInfo)
      requires i < |info.diagonal|
      modifies this
      ensures Value() == Recorded(old(Value()), outcome, i, info)
    {
      if info.diagonal[i].Some? && i > info.diagonal[i].value {
        redundant := redundant + 1;
        return;
      }
      var ply: nat := outcome / 8;
      if IsWin(outcome) {
        win := win + 1;
        winPlies := Bump(winPlies, ply, 1);
        if ply == info.maxWin && info.maxWin > 0 {
          winCandidates := winCandidates + [i];
        }
      } else if IsLoss(outcome) {
        loss := loss + 1;
        lossPlies := Bump(lossPlies, ply, 1);
        if ply == info.maxLoss {
          lossCandidates := lossCandidates + [i];
        }
      } else if outcome == DRAW {
        draw := draw + 1;
      }
    }

    /** Adds the statistics of the next batch. */
    method Merge(part: TableStats)
      requires part != this
      modifies this
      ensures Value() == Merged(old(Value()), part.Value())
    {
      win, draw, loss := win + part.win, draw + part.draw, loss + part.loss;
      redundant := redundant + part.redundant;
      winPlies := MergeHistogram(winPlies, part.winPlies);
      lossPlies := MergeHistogram(lossPlies, part.lossPlies);
      winCandidates := winCandidates + part.winCandidates;
      lossCandidates := lossCandidates + part.lossCandidates;
    }
  }

  /** The entries of `b` outside `rest` have been added to `a`. */
  ghost predicate AddedBut(h: Histogram, a: Histogram, b: Histogram, rest: set<nat>) {
    && (forall k: nat :: k in h <==> k in a || (k in b && k !in rest))
    && (forall k: nat :: CountAt(h, k) == CountAt(a, k) + if k in rest then 0 else CountAt(b, k))
  }

  lemma AddOne(h: Histogram, a: Histogram, b: Histogram, rest: set<nat>, ply: nat)
    requires AddedBut(h, a, b, rest) && ply in rest && ply in b
    ensures AddedBut(Bump(h, ply, b[ply]), a, b, rest - {ply})
  {
  }

  lemma AllAdded(h: Histogram, a: Histogram, b: Histogram)
    requires AddedBut(h, a, b, {})
    ensures h == AddHistograms(a, b)
  {
    forall k: nat | k in h ensures h[k] == AddHistograms(a, b)[k] {
      assert CountAt(h, k) == h[k];
    }
  }

  method MergeHistogram(a: Histogram, b: Histogram) returns (h: Histogram)
    ensures h == AddHistograms(a, b)
  {
    hide AddedBut;
    h := a;
    var rest := b.Keys;
    NothingAdded(a, b);
    while rest != {}
      invariant rest <= b.Keys && AddedBut(h, a, b, rest)
      decreases |rest|
    {
      var ply :| ply in rest;
      AddOne(h, a, b, rest, ply);
      h := Bump(h, ply, b[ply]);
      rest := rest - {ply};
    }
    AllAdded(h, a, b);
  }

  lemma NothingAdded(a: Histogram, b: Histogram)
    ensures AddedBut(a, a, b, b.Keys)
  {
  }

  // ---------------------------------------------------------------------
  // Frames.

  /** Cells left unknown are draws. */
  function FinalWord(w: Word): Word {
    if IsUnknown(w) then DRAW else w
  }

  function FinalWords(v: seq<Word>): (f: seq<Word>)
    ensures |f| == |v|
  {
    seq(|v|, i requires 0 <= i < |v| => FinalWord(v[i]))
  }

  function FrameLength(n: nat, size: nat): nat {
    if n < size then n else size
  }

  /** The encoded frames of a table, the last one unpadded. */
  function EncodedFrames(v: seq<Word>, size: nat): seq<seq<Byte>>
    requires size > 0
  {
    if v == [] then []
    else
      var n := FrameLength(|v|, size);
      [Transposed(v[..n])] + EncodedFrames(v[n..], size)
  }

  predicate WholeFrames(n: nat, size: nat)
    requires size > 0
  {
    n == 0 || (size <= n && WholeFrames(n - size, size))
  }

  lemma {:induction false} MultiplesAreWhole(frames: nat, size: nat)
    requires size > 0
    ensures WholeFrames(frames * size, size)
  {
    if frames > 0 {
      MultiplesAreWhole(frames - 1, size);
      assert frames * size == size + (frames - 1) * size;
    }
  }

  lemma FirstEncoded(v: seq<Word>, size: nat)
    requires 0 < size <= |v|
    ensures EncodedFrames(v, size) == [Transposed(v[..size])] + EncodedFrames(v[size..], size)
  {
    hide Transposed;
  }

  /** Batches of whole frames give the frames of the whole table. */
  lemma {:induction false} FramesConcat(v: seq<Word>, w: seq<Word>, size: nat)
    requires size > 0 && WholeFrames(|v|, size)
    ensures EncodedFrames(v + w, size) == EncodedFrames(v, size) + EncodedFrames(w, size)
    decreases |v|
  {
    hide Transposed;
    if v == [] {
      assert v + w == w;
    } else {
      ConcatStep(v, w, size);
    }
  }

  lemma {:induction false} ConcatStep(v: seq<Word>, w: seq<Word>, size: nat)
    requires 0 < size <= |v| && WholeFrames(|v| - size, size)
    ensures EncodedFrames(v + w, size) == EncodedFrames(v, size) + EncodedFrames(w, size)
    decreases |v|, 0
  {
    hide Transposed, EncodedFrames;
    FramesConcat(v[size..], w, size);
    FirstEncoded(v, size);
    FirstEncoded(v + w, size);
    assert (v + w)[..size] == v[..size] && (v + w)[size..] == v[size..] + w;
  }

  /** The word of an index, read from its frame. */
  function ReadWord(frames: seq<seq<Byte>>, n: nat, size: nat, i: nat): Option<Word>
    requires size > 0 && i < n
  {
    if frames == [] then None
    else if i < size then
      if |frames[0]| < 2 * FrameLength(n, size) then None
      else Some(Detransposed(frames[0], FrameLength(n, size))[i])
    else ReadWord(frames[1..], n - size, size, i - size)
  }

  lemma {:induction false} FramesReadBack(v: seq<Word>, size: nat, i: nat)
    requires size > 0 && i < |v| && AllCodable(v)
    ensures ReadWord(EncodedFrames(v, size), |v|, size, i) == Some(v[i])
    decreases |v|
  {
    var n := FrameLength(|v|, size);
    RoundTrip(v[..n]);
    assert EncodedFrames(v, size)[1..] == EncodedFrames(v[n..], size);
    if i >= size {
      FramesReadBack(v[n..], size, i - size);
    }
  }

  /** Finalization writes words that the codec keeps, with the outcomes of the cells. */
  lemma FinalWordOf(w: CellWord)
    ensures Codable(FinalWord(w)) && Unpack(FinalWord(w)) == Finished(Unpack(w))
    ensures IsWin(FinalWord(w)) <==> Unpack(w).Won?
    ensures IsLoss(FinalWord(w)) <==> Unpack(w).Lost?
    ensures FinalWord(w) == DRAW <==> Unpack(w).Drawn? || Unpack(w).Unknown?
  {
    if IsWin(w) || IsLoss(w) {
      ResolvedIsCodable(w);
    }
  }

  /** Every value of a solved table is read back from its frame, unknowns as draws. */
  lemma StoredTableReadsBack(ws: WordRow, size: nat, i: nat)
    requires size > 0 && i < |ws|
    ensures var r := ReadWord(EncodedFrames(FinalWords(ws), size), |ws|, size, i);
            r.Some? && Unpack(r.value) == Finished(Unpack(ws[i]))
  {
    hide FinalWord, Unpack, Codable;
    forall k | 0 <= k < |ws| ensures Codable(FinalWords(ws)[k]) {
      FinalWordOf(ws[k]);
    }
    FinalWordOf(ws[i]);
    FramesReadBack(FinalWords(ws), size, i);
  }

  // ---------------------------------------------------------------------
  // Conservation.

  function Recordings(s: Stats): nat { s.win + s.draw + s.loss + s.redundant }

  /** Every index is recorded once, or rejected. */
  lemma OneIndex(t: Table, ws: WordRow, n: nat, s: Stats, info: TableInfo)
    requires n < |ws| == |t.entries| == |t.diagonal| && info.diagonal == t.diagonal
    requires Unpack(ws[n]).Invalid? <==> t.entries[n].Rejected?
    ensures Recordings(Recorded(s, FinalWord(ws[n]), n, info)) + RejectedBefore(t, n + 1).Total()
            == Recordings(s) + RejectedBefore(t, n).Total() + 1
  {
    hide Recorded, Unpack, FinalWord, IsWin, IsLoss, RejectedBefore, Recordings, InvalidCounts.Total;
    FinalWordOf(ws[n]);
    RecordedAddsOne(s, FinalWord(ws[n]), n, info);
    RejectedNext(t, n);
  }

  lemma RejectedNext(t: Table, n: nat)
    requires n < |t.entries| == |t.diagonal|
    ensures RejectedBefore(t, n + 1).Total()
            == RejectedBefore(t, n).Total() + if t.entries[n].Rejected? && !Redundant(t.diagonal, n) then 1 else 0
  {
  }

  lemma LastWord(ws: seq<Word>, n: nat)
    requires n < |ws|
    ensures FinalWords(ws[..n + 1]) == FinalWords(ws[..n]) + [FinalWord(ws[n])]
  {
  }

  lemma StatsOfLast(v: seq<Word>, w: Word, info: TableInfo)
    requires |v| < |info.diagonal|
    ensures StatsOf(v + [w], 0, info) == Recorded(StatsOf(v, 0, info), w, |v|, info)
  {
    assert (v + [w])[..|v|] == v;
  }

  /** Wins, draws, losses, the second halves of diagonal pairs and the rejected
      indices make up the table. */
  lemma {:induction false} OutcomesAddUp(t: Table, ws: WordRow, n: nat, info: TableInfo)
    requires n <= |ws| == |t.entries| == |t.diagonal| && info.diagonal == t.diagonal
    requires forall i | 0 <= i < |ws| :: Unpack(ws[i]).Invalid? <==> t.entries[i].Rejected?
    ensures Recordings(StatsOf(FinalWords(ws[..n]), 0, info)) + RejectedBefore(t, n).Total() == n
  {
    hide Recorded, Unpack, FinalWord, RejectedBefore, FinalWords;
    if n == 0 {
      NoOutcomes(t, ws, info);
    } else {
      OutcomesAddUp(t, ws, n - 1, info);
      LastWord(ws, n - 1);
      StatsOfLast(FinalWords(ws[..n - 1]), FinalWord(ws[n - 1]), info);
      OneIndex(t, ws, n - 1, StatsOf(FinalWords(ws[..n - 1]), 0, info), info);
    }
  }

  lemma NoStats(v: seq<Word>, info: TableInfo)
    requires |v| == 0
    ensures Recordings(StatsOf(v, 0, info)) == 0
  {
  }

  lemma NoneRejected(t: Table)
    requires |t.entries| == |t.diagonal|
    ensures RejectedBefore(t, 0).Total() == 0
  {
  }

  lemma NoOutcomes(t: Table, ws: WordRow, info: TableInfo)
    requires |t.entries| == |t.diagonal|
    ensures Recordings(StatsOf(FinalWords(ws[..0]), 0, info)) + RejectedBefore(t, 0).Total() == 0
  {
    hide FinalWord, FinalWords, StatsOf, RejectedBefore, Recordings, InvalidCounts.Total;
    NoStats(FinalWords(ws[..0]), info);
    NoneRejected(t);
  }

  lemma RecordedAddsOne(s: Stats, w: Word, i: nat, info: TableInfo)
    requires i < |info.diagonal|
    ensures Recordings(Recorded(s, w, i, info))
            == Recordings(s) + if Redundant(info.diagonal, i) || IsWin(w) || IsLoss(w) || w == DRAW then 1 else 0
  {
  }

  // ---------------------------------------------------------------------
  // Finalization.

  /** The statistics of the batch that starts at `start` have reached index `at`. */
  ghost predicate Reached(stats: TableStats, values: array<CellWord>, start: nat, at: nat, info: TableInfo)
    reads stats, values
  {
    && start <= at <= values.Length == |info.diagonal|
    && stats.Value() == StatsOf(FinalWords(values[start..at]), start, info)
  }

  lemma NextWord(v: seq<Word>, start: nat, at: nat, info: TableInfo)
    requires start <= at < |v| <= |info.diagonal|
    ensures StatsOf(FinalWords(v[start..at + 1]), start, info)
            == Recorded(StatsOf(FinalWords(v[start..at]), start, info), FinalWord(v[at]), at, info)
  {
    var f := FinalWords(v[start..at + 1]);
    assert f[..|f| - 1] == FinalWords(v[start..at]);
  }

  /** The words of a frame, and their statistics. */
  method FinalizeFrame(values: array<CellWord>, lo: nat, hi: nat, info: TableInfo, stats: TableStats, ghost start: nat)
    returns (plain: array<Word>)
    requires lo <= hi <= values.Length == |info.diagonal| && Reached(stats, values, start, lo, info)
    modifies stats
    ensures fresh(plain) && plain[..] == FinalWords(values[lo..hi])
    ensures Reached(stats, values, start, hi, info)
  {
    hide StatsOf, Recorded;
    plain := new Word[hi - lo](_ => 0);
    for i := lo to hi
      invariant forall k | 0 <= k < i - lo :: plain[k] == FinalWord(values[lo + k])
      invariant Reached(stats, values, start, i, info)
    {
      var raw := values[i];
      var outcome := if IsUnknown(raw) then DRAW else raw;
      plain[i - lo] := outcome;
      NextWord(values[..], start, i, info);
      assert values[..][start..i] == values[start..i] && values[..][start..i + 1] == values[start..i + 1];
      stats.RecordOutcome(outcome, i, info);
    }
  }

  /** One batch: its frames in order, and its statistics. */
  method FinalizeBatch(values: array<CellWord>, lo: nat, hi: nat, size: nat, info: TableInfo)
    returns (frames: seq<seq<Byte>>, stats: TableStats)
    requires lo <= hi <= values.Length == |info.diagonal| && size > 0
    ensures fresh(stats)
    ensures frames == EncodedFrames(FinalWords(values[lo..hi]), size)
    ensures stats.Value() == StatsOf(FinalWords(values[lo..hi]), lo, info)
  {
    hide StatsOf, Recorded, Transposed, FinalWords, EncodedFrames;
    frames := [];
    stats := new TableStats();
    var at := lo;
    NothingRecorded(values[..], lo, info);
    assert values[..][lo..lo] == values[lo..lo];
    while at < hi
      invariant lo <= at <= hi && Reached(stats, values, lo, at, info) && fresh(stats)
      invariant EncodedFrames(FinalWords(values[lo..hi]), size)
                == frames + EncodedFrames(FinalWords(values[at..hi]), size)
      decreases hi - at
    {
      var end := at + FrameLength(hi - at, size);
      var plain := FinalizeFrame(values, at, end, info, stats, lo);
      var encoded := TransposeFrame(plain);
      FirstFrame(values[..], at, end, hi, size);
      assert values[..][at..hi] == values[at..hi] && values[..][at..end] == values[at..end]
             && values[..][end..hi] == values[end..hi];
      frames := frames + [encoded[..]];
      at := end;
    }
    NoBatch(values[..], size, info);
    assert values[hi..hi] == values[..][..0];
  }

  lemma NothingRecorded(v: seq<Word>, start: nat, info: TableInfo)
    requires start <= |v| <= |info.diagonal|
    ensures StatsOf(FinalWords(v[start..start]), start, info) == NO_STATS
  {
  }

  lemma FirstFrame(v: seq<Word>, at: nat, end: nat, hi: nat, size: nat)
    requires at < hi <= |v| && size > 0 && end == at + FrameLength(hi - at, size)
    ensures EncodedFrames(FinalWords(v[at..hi]), size)
            == [Transposed(FinalWords(v[at..end]))] + EncodedFrames(FinalWords(v[end..hi]), size)
  {
    var f := FinalWords(v[at..hi]);
    assert f[..end - at] == FinalWords(v[at..end]) && f[end - at..] == FinalWords(v[end..hi]);
  }

  function CeilDiv(a: nat, b: nat): nat
    requires b > 0
  {
    (a + b - 1) / b
  }

  /** All batches; frames and statistics do not depend on how many threads there are. */
  method FinalizeTable(values: array<CellWord>, range: nat, size: nat, threads: nat, info: TableInfo)
    returns (frames: seq<seq<Byte>>, totals: Option<TableStats>)
    requires size > 0 && threads > 0 && |info.diagonal| == values.Length
    ensures totals.Some? <==> values.Length == range
    ensures totals.Some? ==> fresh(totals.value)
    ensures totals.Some? ==> (
              && frames == EncodedFrames(FinalWords(values[..]), size)
              && totals.value.Value() == StatsOf(FinalWords(values[..]), 0, info))
  {
    if values.Length != range {
      return [], None;
    }
    var count := CeilDiv(CeilDiv(values.Length, size), threads);
    var batch := if count > 0 then count else 1;
    MultiplesAreWhole(batch, size);
    var stats;
    frames, stats := FinalizeBatches(values, size, batch * size, info);
    totals := Some(stats);
  }

  method FinalizeBatches(values: array<CellWord>, size: nat, batch: nat, info: TableInfo)
    returns (frames: seq<seq<Byte>>, stats: TableStats)
    requires size > 0 && batch > 0 && WholeFrames(batch, size) && |info.diagonal| == values.Length
    ensures fresh(stats)
    ensures frames == EncodedFrames(FinalWords(values[..]), size)
    ensures stats.Value() == StatsOf(FinalWords(values[..]), 0, info)
  {
    hide StatsOf, Recorded, Merged, EncodedFrames, WholeFrames;
    stats := new TableStats();
    frames := [];
    var at := 0;
    NoBatch(values[..], size, info);
    while at < values.Length
      invariant at <= values.Length && fresh(stats)
      invariant at < values.Length ==> WholeFrames(at, size)
      invariant frames == EncodedFrames(FinalWords(values[..][..at]), size)
      invariant stats.Value() == StatsOf(FinalWords(values[..][..at]), 0, info)
      decreases values.Length - at
    {
      var end := at + FrameLength(values.Length - at, batch);
      var batchFrames, part := FinalizeBatch(values, at, end, size, info);
      NextBatch(values[..], at, end, size, info);
      assert values[..][at..end] == values[at..end];
      stats.Merge(part);
      frames := frames + batchFrames;
      WholeSum(at, batch, size);
      at := end;
    }
    assert values[..][..values.Length] == values[..];
  }

  lemma NoBatch(v: seq<Word>, size: nat, info: TableInfo)
    requires size > 0
    ensures EncodedFrames(FinalWords(v[..0]), size) == [] && StatsOf(FinalWords(v[..0]), 0, info) == NO_STATS
    ensures WholeFrames(0, size)
  {
  }

  lemma {:induction false} WholeSum(m: nat, n: nat, size: nat)
    requires size > 0 && WholeFrames(n, size)
    ensures WholeFrames(m, size) ==> WholeFrames(m + n, size)
  {
    if m > 0 && WholeFrames(m, size) {
      WholeSum(m - size, n, size);
    }
  }

  lemma FinalSplit(v: seq<Word>, at: nat, end: nat)
    requires at <= end <= |v|
    ensures |FinalWords(v[..at])| == at && |FinalWords(v[at..end])| == end - at
    ensures FinalWords(v[..end]) == FinalWords(v[..at]) + FinalWords(v[at..end])
  {
  }

  lemma NextBatch(v: seq<Word>, at: nat, end: nat, size: nat, info: TableInfo)
    requires at <= end <= |v| == |info.diagonal| && size > 0 && WholeFrames(at, size)
    ensures EncodedFrames(FinalWords(v[..end]), size)
            == EncodedFrames(FinalWords(v[..at]), size) + EncodedFrames(FinalWords(v[at..end]), size)
    ensures StatsOf(FinalWords(v[..end]), 0, info)
            == Merged(StatsOf(FinalWords(v[..at]), 0, info), StatsOf(FinalWords(v[at..end]), at, info))
  {
    hide EncodedFrames, StatsOf, Merged, WholeFrames;
    var head, tail := FinalWords(v[..at]), FinalWords(v[at..end]);
    FinalSplit(v, at, end);
    FramesConcat(head, tail, size);
    MergeIsSequential(head, tail, 0, info);
  }
}

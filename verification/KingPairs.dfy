/** Pairs of kings up to the eight symmetries of a pawnless board. */
module KingPairs {
  import opened Boards
  import opened Wrappers

  /** Squares are numbered rank by rank. */
  function At(i: nat): Square { Square(i / 8, i % 8) }

  function Number(s: Square): (i: nat)
    requires s.OnBoard()
    ensures i < 64 && At(i) == s
  {
    8 * s.rank + s.file
  }

  predicate AdjacentOrSame(a: Square, b: Square) {
    -1 <= a.rank - b.rank <= 1 && -1 <= a.file - b.file <= 1
  }

  /** One of the eight symmetries: reflections, then possibly a transposition. */
  datatype Turn = Turn(flip: Flip, transpose: bool) {
    function Of(s: Square): Square {
      if transpose then s.Flipped(flip).Transposed() else s.Flipped(flip)
    }
  }

  /** The symmetry that reduces a pair of kings: the first king goes to ranks and
      files 1-4, and the first king off the diagonal goes above it. */
  function Reducing(a: Square, b: Square): Turn {
    var flip := Flip(a.rank > 3, a.file > 3);
    var a', b' := a.Flipped(flip), b.Flipped(flip);
    Turn(flip, a'.rank > a'.file || (a'.rank == a'.file && b'.rank > b'.file))
  }

  predicate IsReduced(a: Square, b: Square) {
    a.rank <= 3 && a.file <= 3 && (a.rank < a.file || (a.rank == a.file && b.rank <= b.file))
  }

  function ReducePair(a: Square, b: Square): (Square, Square) {
    (Reducing(a, b).Of(a), Reducing(a, b).Of(b))
  }

  lemma ReducedPairs(a: Square, b: Square)
    requires a.OnBoard() && b.OnBoard()
    ensures ReducePair(a, b).0.OnBoard() && ReducePair(a, b).1.OnBoard()
    ensures IsReduced(ReducePair(a, b).0, ReducePair(a, b).1)
    ensures AdjacentOrSame(ReducePair(a, b).0, ReducePair(a, b).1) <==> AdjacentOrSame(a, b)
    ensures IsReduced(a, b) <==> Reducing(a, b) == Turn(Flip(false, false), false)
  {
  }

  /** The squares a1, b1, c1, d1, b2, c2, d2, c3, d3 and d4. */
  const TRIANGLE: set<nat> := {0, 1, 2, 3, 9, 10, 11, 18, 19, 27}

  /** In a reduced pair the first king stands in the triangle, and with it on the diagonal
      the second one does not stand above the diagonal towards the a-file. */
  lemma ReducedInTriangle(a: Square, b: Square)
    requires a.OnBoard() && b.OnBoard()
    ensures IsReduced(a, b) <==> Number(a) in TRIANGLE && (a.rank == a.file ==> b.rank <= b.file)
  {
    InTriangle(a);
  }

  lemma InTriangle(a: Square)
    requires a.OnBoard()
    ensures Number(a) in TRIANGLE <==> a.rank <= a.file <= 3
  {
  }

  /** The representative of a pawnless position has its kings where the table of pairs
      looks them up. */
  lemma CanonHasReducedKings<X(!new)>(b: Board<X>, x: X)
    requires Regular(b) && b.kind == Pawnless && x in b.positions
    ensures (b.stm(Canon(b, x)), b.sntm(Canon(b, x))) == ReducePair(b.stm(x), b.sntm(x))
  {
    var flip := Reduction(b, x);
    assert flip in Flips(b.kind);
    var y := Rep(b, x);
    assert y in b.positions;
    assert b.stm(y) == b.stm(x).Flipped(flip) && b.sntm(y) == b.sntm(x).Flipped(flip);
  }

  /** Among symmetric pawns the representative has the king of the side to move on the
      square with the higher index by files; other pawns leave every position alone. */
  lemma RepAmongPawns<X(!new)>(b: Board<X>, x: X)
    requires Regular(b) && b.kind != Pawnless && x in b.positions
    ensures b.kind == SymmetricPawns ==> b.stm(Canon(b, x)).FileIndex() > b.sntm(Canon(b, x)).FileIndex()
    ensures b.kind == OtherPawns ==> Canon(b, x) == x
  {
    var flip := Reduction(b, x);
    assert flip in Flips(b.kind);
    var y := Rep(b, x);
    assert b.stm(y) == b.stm(x).Flipped(flip) && b.sntm(y) == b.sntm(x).Flipped(flip);
    FileIndexIsInjective(b.stm(x), b.sntm(x));
  }

  lemma FileIndexIsInjective(a: Square, b: Square)
    requires a.OnBoard() && b.OnBoard() && a != b
    ensures a.FileIndex() != b.FileIndex()
    ensures a.Flipped(Flip(false, true)).FileIndex() < b.Flipped(Flip(false, true)).FileIndex()
            <==> a.FileIndex() > b.FileIndex()
  {
  }

  lemma SymmetriesReduceAlike(a: Square, b: Square, t: Turn)
    requires a.OnBoard() && b.OnBoard()
    ensures ReducePair(t.Of(a), t.Of(b)) == ReducePair(a, b)
  {
    if t.transpose {
      assert Reducing(t.Of(a), t.Of(b)).flip == Reducing(a, b).flip.Then(t.flip).Swapped();
    } else {
      assert Reducing(t.Of(a), t.Of(b)).flip == Reducing(a, b).flip.Then(t.flip);
    }
  }

  /** Pairs that are symmetric to each other reduce to the same pair, and off the
      diagonals only one symmetry does it. */
  lemma SymmetricPairsReduceAlike(a: Square, b: Square, t: Turn)
    requires a.OnBoard() && b.OnBoard()
    ensures t.Of(a).OnBoard() && t.Of(b).OnBoard()
    ensures ReducePair(t.Of(a), t.Of(b)) == ReducePair(a, b)
    ensures AdjacentOrSame(t.Of(a), t.Of(b)) <==> AdjacentOrSame(a, b)
    ensures OnLongDiagonal(t.Of(a), t.Of(b)) <==> OnLongDiagonal(a, b)
  {
    hide ReducePair;
    SymmetriesReduceAlike(a, b, t);
  }

  lemma OneSymmetryReduces(a: Square, b: Square, t: Turn, s: Square)
    requires a.OnBoard() && b.OnBoard()
    requires !t.transpose || !OnLongDiagonal(a, b)
    ensures Reducing(t.Of(a), t.Of(b)).Of(t.Of(s)) == Reducing(a, b).Of(s)
  {
    var r := Reducing(a, b);
    var a', b' := a.Flipped(r.flip), b.Flipped(r.flip);
    if t.transpose {
      assert Reducing(t.Of(a), t.Of(b)).flip == r.flip.Then(t.flip).Swapped();
      assert a'.rank == a'.file ==> b'.rank != b'.file;
    }
  }

  // ---------------------------------------------------------------------
  // The table of pairs.

  predicate IsPairOf(w: Square, b: Square) {
    IsReduced(w, b) && !AdjacentOrSame(w, b)
  }

  predicate IsPair(w: nat, b: nat) {
    IsPairOf(At(w), At(b))
  }

  /** The number of the second king's square, without the first king's square. */
  function Second(w: nat, b: nat): nat { if w <= b && b > 0 then b - 1 else b }

  function Raised(w: nat, c: nat): nat { if w <= c then c + 1 else c }

  predicate IsPairCode(w: nat, c: nat) {
    w < 64 && c < 63 && IsPair(w, Raised(w, c))
  }

  /** The reduced pairs with key below `limit`, in increasing order. */
  function PairsBelow(limit: nat): seq<(nat, nat)> {
    if limit == 0 then []
    else
      var w, b := (limit - 1) / 64, (limit - 1) % 64;
      PairsBelow(limit - 1) + if IsPair(w, b) then [(w, Second(w, b))] else []
  }

  function Pairs(): seq<(nat, nat)> { PairsBelow(4096) }

  lemma KingsDiffer(w: nat, b: nat)
    ensures IsPair(w, b) ==> w != b
  {
  }

  lemma {:induction false} PairsBelowAre(limit: nat, w: nat, c: nat)
    requires limit <= 4096
    ensures (w, c) in PairsBelow(limit) <==>
            IsPairCode(w, c) && 64 * w + Raised(w, c) < limit
  {
    hide IsPairOf, At;
    if limit > 0 {
      PairsBelowAre(limit - 1, w, c);
      var w', b' := (limit - 1) / 64, (limit - 1) % 64;
      KingsDiffer(w', b');
      assert 64 * w + Raised(w, c) == limit - 1 && Raised(w, c) < 64 ==> w == w' && Raised(w, c) == b';
    }
  }

  /** Every reduced pair of kings that are not adjacent is in the table. */
  lemma PairsAre(w: nat, c: nat)
    ensures (w, c) in Pairs() <==> IsPairCode(w, c)
  {
    PairsBelowAre(4096, w, c);
  }

  predicate DistinctPairs(s: seq<(nat, nat)>) {
    forall i, j | 0 <= i < j < |s| :: s[i] != s[j]
  }

  lemma {:induction false} PairsBelowAreDistinct(limit: nat)
    requires limit <= 4096
    ensures DistinctPairs(PairsBelow(limit))
  {
    if limit > 0 {
      PairsBelowAreDistinct(limit - 1);
      var w, b := (limit - 1) / 64, (limit - 1) % 64;
      PairsBelowAre(limit - 1, w, Second(w, b));
    }
  }

  /** The pairs in the order of the squares of the first king, then of the second. */
  predicate PairsAscend(s: seq<(nat, nat)>) {
    forall i, j | 0 <= i < j < |s| ::
      s[i].0 < s[j].0 || (s[i].0 == s[j].0 && Raised(s[i].0, s[i].1) < Raised(s[j].0, s[j].1))
  }

  lemma {:induction false} PairsBelowAscend(limit: nat)
    requires limit <= 4096
    ensures PairsAscend(PairsBelow(limit))
  {
    hide IsPairOf, At;
    if limit > 0 {
      PairsBelowAscend(limit - 1);
      var (w, b) := ((limit - 1) / 64, (limit - 1) % 64);
      KingsDiffer(w, b);
      var before := PairsBelow(limit - 1);
      forall i | 0 <= i < |before|
        ensures before[i].0 < w || (before[i].0 == w && Raised(before[i].0, before[i].1) < b)
      {
        PairsBelowAre(limit - 1, before[i].0, before[i].1);
      }
    }
  }

  lemma PairsAreAscending()
    ensures PairsAscend(Pairs())
  {
    PairsBelowAscend(4096);
  }

  // ---------------------------------------------------------------------
  // There are 462 pairs.

  function InRow(w: Square, n: nat): nat {
    if n == 0 then 0 else InRow(w, n - 1) + if IsPairOf(w, At(n - 1)) then 1 else 0
  }

  lemma {:induction false} OneRow(w: nat, n: nat)
    requires n <= 64
    ensures |PairsBelow(64 * w + n)| == |PairsBelow(64 * w)| + InRow(At(w), n)
  {
    hide IsPairOf;
    if n > 0 {
      OneRow(w, n - 1);
      assert (64 * w + n - 1) / 64 == w && (64 * w + n - 1) % 64 == n - 1;
    }
  }

  lemma {:induction false} EmptyRow(w: Square, n: nat)
    requires w.rank > 3 || w.file > 3 || w.rank > w.file
    ensures InRow(w, n) == 0
  {
    if n > 0 {
      EmptyRow(w, n - 1);
    }
  }

  function Clamp(x: int, top: int): int { if x < 0 then 0 else if x < top then x else top }

  /** Of the `m` first squares of a rank, those that make a pair: from the diagonal
      on if the first king is on it, and not beside the first king. */
  function OnRank(w: Square, rank: nat, m: nat): int {
    var first := if w.rank == w.file then rank else 0;
    var near := if w.file - 1 < first then first else w.file - 1;
    Clamp(m - first, 8) - if -1 <= rank - w.rank <= 1 then Clamp(m - near, w.file + 2 - near) else 0
  }

  lemma AtRank(rank: nat, file: nat)
    requires file < 8
    ensures At(8 * rank + file) == Square(rank, file)
  {
  }

  lemma {:induction false} OnRankIs(w: Square, rank: nat, m: nat)
    requires 0 <= w.rank <= w.file <= 3 && rank < 8 && m <= 8
    ensures InRow(w, 8 * rank + m) == InRow(w, 8 * rank) + OnRank(w, rank, m)
  {
    hide At;
    if m > 0 {
      OnRankIs(w, rank, m - 1);
      AtRank(rank, m - 1);
    }
  }

  function RowSize(w: Square): nat {
    if !(0 <= w.rank <= w.file <= 3) then 0
    else (if w.rank == w.file then 30 else 55) + if w.rank == 0 then 3 else 0
  }

  function OnRanks(w: Square, ranks: nat): int
    requires ranks <= 8
  {
    if ranks == 0 then 0 else OnRanks(w, ranks - 1) + OnRank(w, ranks - 1, 8)
  }

  lemma {:induction false} OnRanksAre(w: Square, ranks: nat)
    requires 0 <= w.rank <= w.file <= 3 && ranks <= 8
    ensures InRow(w, 8 * ranks) == OnRanks(w, ranks)
  {
    hide OnRank;
    if ranks > 0 {
      OnRanksAre(w, ranks - 1);
      OnRankIs(w, ranks - 1, 8);
    }
  }

  lemma RowIs(w: Square)
    requires w.OnBoard()
    ensures InRow(w, 64) == RowSize(w)
  {
    hide InRow, OnRank;
    if 0 <= w.rank <= w.file <= 3 {
      OnRanksAre(w, 8);
      RanksAddUp(w.rank, w.file);
    } else {
      EmptyRow(w, 64);
    }
  }

  lemma RanksAddUp(r: int, f: int)
    requires 0 <= r <= f <= 3
    ensures OnRanks(Square(r, f), 8) == RowSize(Square(r, f))
  {
    var w := Square(r, f);
    forall rank: nat | rank < 8
      ensures OnRank(w, rank, 8)
              == if r == f then 8 - rank - (if -1 <= rank - r <= 1 then 2 + r - rank else 0)
                 else 8 - if -1 <= rank - r <= 1 then 3 else 0
    {
    }
    assert OnRanks(w, 4) == OnRank(w, 0, 8) + OnRank(w, 1, 8) + OnRank(w, 2, 8) + OnRank(w, 3, 8);
  }

  function RowSizes(w: nat): nat {
    if w == 0 then 0 else RowSizes(w - 1) + RowSize(At(w - 1))
  }

  lemma {:induction false} RowsAre(w: nat)
    requires w <= 64
    ensures |PairsBelow(64 * w)| == RowSizes(w)
  {
    hide RowSize, InRow, PairsBelow;
    if w == 0 {
      NothingBelow();
    } else {
      RowsAre(w - 1);
      OneRow(w - 1, 64);
      RowIs(At(w - 1));
    }
  }

  lemma {:induction false} NoMoreRows(w: nat)
    requires 32 <= w
    ensures RowSizes(w) == RowSizes(32)
  {
    hide RowSize, At;
    if w > 32 {
      NoMoreRows(w - 1);
      EmptyRowSize(w - 1);
    }
  }

  lemma EmptyRowSize(w: nat)
    requires 32 <= w
    ensures RowSize(At(w)) == 0
  {
    assert At(w).rank > 3;
  }

  lemma RowStep(r: nat, file: nat)
    requires file < 8
    ensures RowSizes(8 * r + file + 1) == RowSizes(8 * r + file) + RowSize(Square(r, file))
  {
    hide RowSize;
    AtRank(r, file);
  }

  /** The sizes of the rows of one rank. */
  lemma RankSize(r: nat)
    requires r < 8
    ensures RowSizes(8 * r + 8) == RowSizes(8 * r)
            + RowSize(Square(r, 0)) + RowSize(Square(r, 1)) + RowSize(Square(r, 2)) + RowSize(Square(r, 3))
  {
    hide RowSizes, RowSize;
    RowStep(r, 0);
    RowStep(r, 1);
    RowStep(r, 2);
    RowStep(r, 3);
    RowStep(r, 4);
    RowStep(r, 5);
    RowStep(r, 6);
    RowStep(r, 7);
    FarRowsAreEmpty(r);
  }

  lemma FarRowsAreEmpty(rank: int)
    ensures forall file | 4 <= file < 8 :: RowSize(Square(rank, file)) == 0
  {
  }

  /** There are 462 pairs. */
  lemma PairCount()
    ensures |Pairs()| == 462
  {
    hide PairsBelow, RowSizes, RowSize;
    RowsAre(64);
    NoMoreRows(64);
    FirstRanks();
  }

  lemma FirstRanks()
    ensures RowSizes(32) == 462
  {
    hide RowSizes, At;
    assert RowSizes(0) == 0 by {
      NoRows();
    }
    RankSize(0);
    RankSize(1);
    RankSize(2);
    RankSize(3);
  }

  lemma NoRows()
    ensures RowSizes(0) == 0
  {
  }

  // ---------------------------------------------------------------------
  // The map.

  /** The last position of a pair. */
  function PositionIn(s: seq<(nat, nat)>, p: (nat, nat)): (r: Option<nat>)
    ensures r.Some? ==> r.value < |s| && s[r.value] == p
    ensures r.Some? <==> p in s
  {
    if s == [] then None
    else if s[|s| - 1] == p then Some(|s| - 1)
    else PositionIn(s[..|s| - 1], p)
  }

  function KingIndex(w: nat, c: nat): (i: nat)
    requires IsPairCode(w, c)
    ensures i < |Pairs()| && Pairs()[i] == (w, c)
  {
    PairsAre(w, c);
    PositionIn(Pairs(), (w, c)).value
  }

  /** Numbers and pairs correspond one to one. */
  lemma KingIndexIsInverse(i: nat)
    requires i < |Pairs()|
    ensures IsPairCode(Pairs()[i].0, Pairs()[i].1)
    ensures KingIndex(Pairs()[i].0, Pairs()[i].1) == i
  {
    var p := Pairs()[i];
    PairsAre(p.0, p.1);
    PairsBelowAreDistinct(4096);
    var j := KingIndex(p.0, p.1);
    assert Pairs()[j] == p;
  }

  /** The reduced forms of all pairs of kings that are not adjacent. */
  method CollectPairs() returns (unique: set<(nat, nat)>)
    ensures forall w: nat, b: nat :: (w, b) in unique <==> w < 64 && b < 64 && IsPair(w, b)
  {
    hide IsReduced, AdjacentOrSame, Reducing;
    unique := {};
    for wk: nat := 0 to 64
      invariant forall w: nat, b: nat | (w, b) in unique :: w < 64 && b < 64 && IsPair(w, b)
      invariant forall w: nat, b: nat | w < wk && b < 64 && IsPair(w, b) :: (w, b) in unique
    {
      for bk: nat := 0 to 64
        invariant forall w: nat, b: nat | (w, b) in unique :: w < 64 && b < 64 && IsPair(w, b)
        invariant forall w: nat, b: nat | w < wk && b < 64 && IsPair(w, b) :: (w, b) in unique
        invariant forall b: nat | b < bk && IsPair(wk, b) :: (wk, b) in unique
      {
        unique := InsertReduced(unique, wk, bk);
      }
    }
  }

  method InsertReduced(unique: set<(nat, nat)>, wk: nat, bk: nat) returns (more: set<(nat, nat)>)
    requires wk < 64 && bk < 64
    ensures unique <= more
    ensures forall w: nat, b: nat | (w, b) in more :: (w, b) in unique || (w < 64 && b < 64 && IsPair(w, b))
    ensures IsPair(wk, bk) ==> (wk, bk) in more
  {
    more := unique;
    if !AdjacentOrSame(At(wk), At(bk)) {
      ReducedPairs(At(wk), At(bk));
      var pair := ReducePair(At(wk), At(bk));
      more := more + {(Number(pair.0), Number(pair.1))};
      if IsPair(wk, bk) {
        NumberAt(wk);
        NumberAt(bk);
      }
    }
  }

  lemma NumberAt(i: nat)
    requires i < 64
    ensures At(i).OnBoard() && Number(At(i)) == i
    ensures At(i).Flipped(Flip(false, false)) == At(i)
  {
  }

  lemma NothingBelow()
    ensures PairsBelow(0) == []
  {
  }

  lemma PairsStep(key: nat)
    ensures var (w, b) := (key / 64, key % 64);
            && PairsBelow(key + 1) == PairsBelow(key) + (if IsPair(w, b) then [(w, Second(w, b))] else [])
            && (IsPair(w, b) ==> w != b)
  {
    KingsDiffer(key / 64, key % 64);
  }

  class KingsMap {
    const toIndex: array<Option<nat>>
    var fromIndex: seq<(nat, nat)>
    var onDiagonal: seq<bool>

    ghost predicate Recorded()
      reads this, toIndex
    {
      && toIndex.Length == 4096
      && forall key: nat | key < 4096 :: toIndex[key] == PositionIn(fromIndex, (key / 64, key % 64))
    }

    /** Whether a pair is on the diagonal is read off its reduced form. */
    ghost predicate Marked()
      reads this
    {
      && |onDiagonal| == |fromIndex|
      && forall i: nat | i < |fromIndex| :: onDiagonal[i] <==> OnDiagonal(fromIndex[i])
    }

    /** The table of all pairs and its inverse. */
    ghost predicate Valid()
      reads this, toIndex
    {
      Recorded() && Marked() && fromIndex == Pairs()
    }

    constructor ()
      ensures Valid() && fresh(toIndex)
    {
      hide PairsBelow, IsPair, Second, OnDiagonal;
      toIndex := new Option<nat>[4096](_ => None);
      fromIndex, onDiagonal := [], [];
      new;
      var unique := CollectPairs();
      NothingBelow();
      for key: nat := 0 to 4096
        invariant Recorded() && Marked() && fromIndex == PairsBelow(key)
      {
        PairsStep(key);
        if (key / 64, key % 64) in unique {
          Insert(key / 64, key % 64);
        }
      }
    }

    method Insert(wk: nat, bk: nat)
      requires Recorded() && Marked() && wk < 64 && bk < 64 && wk != bk
      modifies this`fromIndex, this`onDiagonal, toIndex
      ensures Recorded() && Marked() && fromIndex == old(fromIndex) + [(wk, Second(wk, bk))]
    {
      var c := Second(wk, bk);
      toIndex[wk * 64 + c] := Some(|fromIndex|);
      fromIndex := fromIndex + [(wk, c)];
      onDiagonal := onDiagonal + [wk / 8 == wk % 8 && bk / 8 == bk % 8];
      assert fromIndex[..|fromIndex| - 1] == old(fromIndex);
      forall key: nat | key < 4096 ensures toIndex[key] == PositionIn(fromIndex, (key / 64, key % 64)) {
        assert (wk * 64 + c) / 64 == wk && (wk * 64 + c) % 64 == c;
      }
      SecondIsInverse(wk, bk);
    }

    /** The number of a pair of kings, given by the compacted squares. */
    method MapKings(w: nat, c: nat) returns (i: Option<nat>)
      requires Valid() && w < 64 && c < 64
      ensures i.Some? <==> IsPairCode(w, c)
      ensures i.Some? ==> i.value == KingIndex(w, c) < 462
    {
      assert (w * 64 + c) / 64 == w && (w * 64 + c) % 64 == c;
      i := toIndex[w * 64 + c];
      PairsAre(w, c);
      PairCount();
    }
  }

  lemma SecondIsInverse(w: nat, b: nat)
    requires w != b
    ensures Raised(w, Second(w, b)) == b
  {
  }

  predicate OnDiagonal(p: (nat, nat)) {
    var b := Raised(p.0, p.1);
    p.0 / 8 == p.0 % 8 && b / 8 == b % 8
  }
}

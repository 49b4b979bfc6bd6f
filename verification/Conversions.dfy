/** Moves that leave a table pair, and where they lead: captures of all kinds to
    tables with a piece less, promotions to tables with a pawn less. */
module Conversions {
  import opened PawnKeys
  import opened PawnMaps
  import opened TableIds
  import opened TableNames
  import opened TableOrder
  import opened Wrappers

  /** The pawns of a position, by file and rank of the side to move, and the counts of
      the other pieces. */
  datatype Setup = Setup(pawns: Pawns, stm: Counts, sntm: Counts)

  predicate IsSetup(s: Setup) {
    && s.stm[0] == s.sntm[0] == 1
    && (forall f | 0 <= f < 8 :: s.pawns[f][0].None? && s.pawns[f][7].None?)
    && Pieces(MaterialOf(s)) <= 8
  }

  function MaterialOf(s: Setup): Material {
    Material(KeyOf(s.pawns), s.stm, s.sntm)
  }

  /** The table a position is routed to. */
  function TableOf(s: Setup): Material {
    Material(Canonicalized(KeyOf(s.pawns)).0, s.stm, s.sntm)
  }

  // ---------------------------------------------------------------------
  // Moves.

  /** Files and ranks of pawns, and the kinds of the pieces that enter or leave; a pawn
      promotes from the seventh rank. */
  datatype Conversion =
    | PieceTakesPiece(taken: nat)
    | PieceTakesPawn(file: nat, rank: nat)
    | PawnTakesPiece(from: nat, rank: nat, to: nat, taken: nat)
    | PawnTakesPawn(from: nat, rank: nat, to: nat)
    | EnPassant(from: nat, to: nat)
    | Promotion(file: nat, role: nat)
    | TakesAndPromotes(file: nat, taken: nat, role: nat)
  {
    predicate IsCapture() { !Promotion? }
  }

  predicate Adjacent(f: nat, g: nat) { f + 1 == g || g + 1 == f }

  predicate Holds(p: Pawns, f: nat, r: nat, s: Side) {
    f < 8 && r < 8 && p[f][r] == Some(s)
  }

  predicate IsFree(p: Pawns, f: nat, r: nat) {
    f < 8 && r < 8 && p[f][r] == None
  }

  /** Queen, rook, bishop or knight. */
  predicate IsPiece(role: nat) { 0 < role < 5 }

  predicate CanTake(s: Setup, role: nat) { IsPiece(role) && s.sntm[role] > 0 }

  /** What a conversion needs of pawns and counts. */
  predicate Legal(s: Setup, c: Conversion) {
    match c
    case PieceTakesPiece(taken) => CanTake(s, taken)
    case PieceTakesPawn(f, r) => Holds(s.pawns, f, r, SideNotToMove)
    case PawnTakesPiece(f, r, g, taken) =>
      Holds(s.pawns, f, r, SideToMove) && r < 6 && Adjacent(f, g) && IsFree(s.pawns, g, r + 1) && CanTake(s, taken)
    case PawnTakesPawn(f, r, g) =>
      Holds(s.pawns, f, r, SideToMove) && Adjacent(f, g) && Holds(s.pawns, g, r + 1, SideNotToMove)
    case EnPassant(f, g) =>
      && Holds(s.pawns, f, 4, SideToMove) && Adjacent(f, g) && Holds(s.pawns, g, 4, SideNotToMove)
      && IsFree(s.pawns, g, 5) && IsFree(s.pawns, g, 6)
    case Promotion(f, role) => Holds(s.pawns, f, 6, SideToMove) && IsPiece(role)
    case TakesAndPromotes(f, taken, role) => Holds(s.pawns, f, 6, SideToMove) && CanTake(s, taken) && IsPiece(role)
  }

  function Put(p: Pawns, f: nat, r: nat, x: Option<Side>): Pawns
    requires f < 8 && r < 8
  {
    p[f := p[f][r := x]]
  }

  function Without(s: Setup, taken: nat): Counts
    requires CanTake(s, taken)
  {
    s.sntm[taken := s.sntm[taken] - 1]
  }

  /** The position after the move, still seen by the side that played it. */
  function After(s: Setup, c: Conversion): Setup
    requires Legal(s, c)
  {
    match c
    case PieceTakesPiece(taken) => s.(sntm := Without(s, taken))
    case PieceTakesPawn(f, r) => s.(pawns := Put(s.pawns, f, r, None))
    case PawnTakesPiece(f, r, g, taken) =>
      Setup(Put(Put(s.pawns, f, r, None), g, r + 1, Some(SideToMove)), s.stm, Without(s, taken))
    case PawnTakesPawn(f, r, g) => s.(pawns := Put(Put(s.pawns, f, r, None), g, r + 1, Some(SideToMove)))
    case EnPassant(f, g) => s.(pawns := Put(Put(Put(s.pawns, f, 4, None), g, 4, None), g, 5, Some(SideToMove)))
    case Promotion(f, role) => Setup(Put(s.pawns, f, 6, None), s.stm[role := s.stm[role] + 1], s.sntm)
    case TakesAndPromotes(f, taken, role) =>
      Setup(Put(s.pawns, f, 6, None), s.stm[role := s.stm[role] + 1], Without(s, taken))
  }

  /** The position seen by the other side. */
  function Passed(s: Setup): Setup {
    Setup(TurnedPawns(s.pawns), s.sntm, s.stm)
  }

  function Successor(s: Setup, c: Conversion): Setup
    requires Legal(s, c)
  {
    Passed(After(s, c))
  }

  // ---------------------------------------------------------------------
  // Counting pawns on the board.

  function PawnsUpTo(o: FilePawns, n: nat): nat
    requires n <= 8
  {
    if n == 0 then 0 else PawnsUpTo(o, n - 1) + if o[n - 1].Some? then 1 else 0
  }

  lemma {:induction false} WordLength(o: FilePawns, n: nat)
    requires n <= 8
    ensures |WordUpTo(o, n)| == PawnsUpTo(o, n) <= n
  {
    if n > 0 {
      WordLength(o, n - 1);
    }
  }

  lemma {:induction false} WordPrefix(o: FilePawns, r: nat, n: nat)
    requires r <= n <= 8
    ensures WordUpTo(o, r) <= WordUpTo(o, n)
  {
    if r < n {
      WordPrefix(o, r, n - 1);
    }
  }

  /** A pawn stands in its file's word after the pawns on lower ranks. */
  lemma WordIsByRank(o: FilePawns, r: nat)
    requires r < 8 && o[r].Some?
    ensures PawnsUpTo(o, r) < |WordOf(o)| && WordOf(o)[PawnsUpTo(o, r)] == o[r].value
  {
    WordLength(o, r);
    WordPrefix(o, r + 1, 8);
    assert WordUpTo(o, r + 1)[|WordUpTo(o, r)|] == o[r].value;
  }

  lemma {:induction false} PawnsAfterPut(o: FilePawns, r: nat, x: Option<Side>, n: nat)
    requires r < 8 && n <= 8
    ensures PawnsUpTo(o[r := x], n) + (if r < n && o[r].Some? then 1 else 0)
            == PawnsUpTo(o, n) + if r < n && x.Some? then 1 else 0
  {
    if n > 0 {
      PawnsAfterPut(o, r, x, n - 1);
    }
  }

  lemma {:induction false} KeyAfterPut(p: Pawns, f: nat, r: nat, x: Option<Side>, n: nat)
    requires f < 8 && r < 8 && n <= 8
    ensures PawnsOn(KeyOf(Put(p, f, r, x)), n) + (if f < n && p[f][r].Some? then 1 else 0)
            == PawnsOn(KeyOf(p), n) + if f < n && x.Some? then 1 else 0
  {
    hide WordOf;
    if n > 0 {
      KeyAfterPut(p, f, r, x, n - 1);
      if f == n - 1 {
        PawnsAfterPut(p[f], r, x, 8);
        FileLength(p[f]);
        FileLength(p[f][r := x]);
      }
    }
  }

  lemma FileLength(o: FilePawns)
    ensures |WordOf(o)| == PawnsUpTo(o, 8)
  {
    WordLength(o, 8);
  }

  /** Putting or taking one pawn. */
  lemma PawnsPut(p: Pawns, f: nat, r: nat, x: Option<Side>)
    requires f < 8 && r < 8
    ensures PawnsOn(KeyOf(Put(p, f, r, x)), 8) + (if p[f][r].Some? then 1 else 0)
            == PawnsOn(KeyOf(p), 8) + if x.Some? then 1 else 0
  {
    KeyAfterPut(p, f, r, x, 8);
  }

  lemma {:induction false} SumWithout(s: seq<nat>, k: nat)
    requires k < |s| && s[k] > 0
    ensures Sum(s[k := s[k] - 1]) + 1 == Sum(s)
  {
    var n := |s| - 1;
    if k < n {
      SumWithout(s[..n], k);
      assert s[k := s[k] - 1][..n] == s[..n][k := s[k] - 1];
    } else {
      assert s[k := s[k] - 1][..n] == s[..n];
    }
  }

  /** A capture takes exactly one piece or pawn off the board, and a promotion turns one
      pawn into a piece. */
  lemma AfterCounts(s: Setup, c: Conversion)
    requires Legal(s, c)
    ensures Pieces(MaterialOf(After(s, c))) + (if c.IsCapture() then 1 else 0) == Pieces(MaterialOf(s))
    ensures c.Promotion? ==> PawnsOn(MaterialOf(After(s, c)).key, 8) + 1 == PawnsOn(MaterialOf(s).key, 8)
  {
    hide KeyOf, PawnsOn, Sum;
    match c
    case PieceTakesPiece(taken) => SumWithout(s.sntm, taken);
    case PieceTakesPawn(f, r) => PawnsPut(s.pawns, f, r, None);
    case PawnTakesPiece(f, r, g, taken) =>
      PawnMoves(s.pawns, f, r, g, r + 1);
      SumWithout(s.sntm, taken);
    case PawnTakesPawn(f, r, g) => PawnMoves(s.pawns, f, r, g, r + 1);
    case EnPassant(f, g) =>
      PawnsPut(s.pawns, f, 4, None);
      PawnMoves(Put(s.pawns, f, 4, None), g, 4, g, 5);
    case Promotion(f, role) =>
      PawnsPut(s.pawns, f, 6, None);
      SumWith(s.stm, role, 1);
    case TakesAndPromotes(f, taken, role) =>
      PawnsPut(s.pawns, f, 6, None);
      SumWith(s.stm, role, 1);
      SumWithout(s.sntm, taken);
  }

  /** A pawn leaves one square and one stands on another. */
  lemma PawnMoves(p: Pawns, f: nat, r: nat, g: nat, q: nat)
    requires f < 8 && r < 8 && g < 8 && q < 8 && (f, r) != (g, q) && p[f][r].Some?
    ensures PawnsOn(KeyOf(Put(Put(p, f, r, None), g, q, Some(SideToMove))), 8) + (if p[g][q].Some? then 1 else 0)
            == PawnsOn(KeyOf(p), 8)
  {
    hide KeyOf, PawnsOn;
    PawnsPut(p, f, r, None);
    PawnsPut(Put(p, f, r, None), g, q, Some(SideToMove));
    assert Put(p, f, r, None)[g][q] == p[g][q];
  }

  // ---------------------------------------------------------------------
  // The tables moves lead to.

  lemma ShortWords(s: Setup)
    requires IsSetup(s)
    ensures IsMaterial(MaterialOf(s))
  {
    forall f | 0 <= f < 8 ensures |KeyOf(s.pawns)[f]| <= 6 {
      var o := s.pawns[f];
      WordLength(o, 7);
      PawnsAfterPut(o, 0, Some(SideToMove), 7);
      WordLength(o[0 := Some(SideToMove)], 7);
      assert WordUpTo(o, 8) == WordUpTo(o, 7);
    }
  }

  /** The pieces, pawns and group of a position are those of its table. */
  lemma RoutedTable(s: Setup)
    requires IsSetup(s)
    ensures IsTable(TableOf(s)) && GroupOf(TableOf(s)) == GroupOf(MaterialOf(s))
    ensures Pieces(TableOf(s)) == Pieces(MaterialOf(s)) && PawnsOn(TableOf(s).key, 8) == PawnsOn(KeyOf(s.pawns), 8)
  {
    hide Canonicalized, KeyOf, PawnsOn, Sum, OpposingPairs, SidePawns;
    ShortWords(s);
    CanonicalizedPicksOne(KeyOf(s.pawns));
    ReflectedKeepsCounts(KeyOf(s.pawns));
    forall f | 0 <= f < 8 ensures |TableOf(s).key[f]| <= 6 {
      assert TableOf(s).key[f] == KeyOf(s.pawns)[f] || TableOf(s).key[f] == KeyOf(s.pawns)[7 - f];
    }
  }

  lemma TurnedKey(p: Pawns)
    ensures KeyOf(TurnedPawns(p)) == Twin(KeyOf(p))
  {
    hide WordOf, Turned, TwinWord;
    forall f | 0 <= f < 8 ensures KeyOf(TurnedPawns(p))[f] == Twin(KeyOf(p))[f] {
      TurnedIsTwin(p[f]);
    }
  }

  /** Passing the move leads to the twin of the table, whichever way its files face. */
  lemma PassedIsTwin(s: Setup)
    requires IsSetup(s)
    ensures IsSetup(Passed(s)) && TableOf(Passed(s)) == TwinTable(TableOf(s)).0 == TwinTable(MaterialOf(s)).0
  {
    hide Canonicalized, KeyOf, PawnsOn, Sum;
    TurnedKey(s.pawns);
    PassedPieces(s);
    var k := KeyOf(s.pawns);
    TwinAlgebra(k);
    CanonicalizedPicksOne(k);
    CanonicalizedPicksOne(Twin(k));
  }

  lemma PassedPieces(s: Setup)
    ensures Pieces(MaterialOf(Passed(s))) == Pieces(MaterialOf(s))
  {
    hide PawnsOn, Sum, KeyOf;
    TurnedKey(s.pawns);
    TwinKeyCounts(KeyOf(s.pawns), 8);
  }

  /** Every quiet move leads to the twin table. */
  lemma QuietLeadsToTwin(s: Setup, pawns: Pawns)
    requires IsSetup(s) && IsQuiet(s.pawns, pawns)
    ensures TableOf(Passed(s.(pawns := pawns))) == TwinTable(TableOf(s)).0
  {
    hide Canonicalized, KeyOf, IsQuiet;
    QuietMovesTwin(s.pawns, pawns);
    PassedIsTwin(s);
    TurnedKey(s.pawns);
  }

  lemma AfterIsSetup(s: Setup, c: Conversion)
    requires IsSetup(s) && Legal(s, c)
    ensures IsSetup(After(s, c))
  {
    hide KeyOf, PawnsOn, Sum;
    AfterCounts(s, c);
  }

  /** A capture of any kind, en passant and with promotion included, leads to a table
      with one piece less. */
  lemma CaptureLosesPiece(s: Setup, c: Conversion)
    requires IsSetup(s) && Legal(s, c) && c.IsCapture()
    ensures IsSetup(Successor(s, c)) && IsTable(TableOf(Successor(s, c)))
    ensures Pieces(TableOf(Successor(s, c))) + 1 == Pieces(TableOf(s))
  {
    hide Legal, After, TableOf, MaterialOf, IsTable, IsSetup, Pieces;
    AfterIsSetup(s, c);
    AfterCounts(s, c);
    PassedIsTwin(After(s, c));
    PassedPieces(After(s, c));
    RoutedTable(s);
    RoutedTable(Successor(s, c));
  }

  /** The pawn that promotes is the top of its file's word. */
  lemma TopPawn(o: FilePawns)
    requires o[6].Some? && o[7].None?
    ensures WordOf(o) != [] && WordOf(o) == WordOf(o[6 := None]) + [o[6].value]
  {
    WordBelow(o, 6, None, 6);
    assert WordUpTo(o, 8) == WordUpTo(o, 7) && WordUpTo(o[6 := None], 8) == WordUpTo(o[6 := None], 7);
    assert WordUpTo(o, 7) == WordUpTo(o, 6) + [o[6].value] && WordUpTo(o[6 := None], 7) == WordUpTo(o[6 := None], 6);
  }

  lemma {:induction false} WordBelow(o: FilePawns, r: nat, x: Option<Side>, n: nat)
    requires n <= r < 8
    ensures WordUpTo(o[r := x], n) == WordUpTo(o, n)
  {
    if n > 0 {
      WordBelow(o, r, x, n - 1);
    }
  }

  /** A promotion without capture leads to a table of the same pieces, split and opposing
      pairs with one pawn less. */
  lemma PromotionLosesPawn(s: Setup, c: Conversion)
    requires IsSetup(s) && Legal(s, c) && c.Promotion?
    ensures IsSetup(Successor(s, c)) && IsTable(TableOf(Successor(s, c))) && GroupOf(TableOf(s)).pawns > 0
    ensures GroupOf(TableOf(Successor(s, c))) == GroupOf(TableOf(s)).(pawns := GroupOf(TableOf(s)).pawns - 1)
    ensures Pieces(TableOf(Successor(s, c))) == Pieces(TableOf(s))
  {
    hide TableOf, IsTable, IsSetup, IsMaterial, Pieces, GroupOf, WordOf, TwinTable;
    AfterIsSetup(s, c);
    AfterCounts(s, c);
    PassedIsTwin(After(s, c));
    PassedPieces(After(s, c));
    RoutedTable(s);
    RoutedTable(Successor(s, c));
    ShortWords(s);
    PromotedMaterial(s, c);
    PromotionStaysInGroup(MaterialOf(s), c.file, c.role);
  }

  lemma PromotedMaterial(s: Setup, c: Conversion)
    requires IsSetup(s) && Legal(s, c) && c.Promotion?
    ensures var m := MaterialOf(s);
            && m.key[c.file] != [] && m.key[c.file][|m.key[c.file]| - 1] == SideToMove
            && MaterialOf(After(s, c)) == Promoted(m, c.file, c.role)
  {
    hide WordOf, Pieces;
    TopPawn(s.pawns[c.file]);
    var k, l := KeyOf(s.pawns), KeyOf(After(s, c).pawns);
    assert l == k[c.file := k[c.file][..|k[c.file]| - 1]];
  }

  /** Every conversion leads to a simpler table. */
  lemma ConversionSimplifies(s: Setup, c: Conversion)
    requires IsSetup(s) && Legal(s, c)
    ensures IsSetup(Successor(s, c)) && IsTable(TableOf(Successor(s, c)))
    ensures Simpler(TableOf(Successor(s, c)), TableOf(s))
  {
    hide Legal, Successor, TableOf, IsTable, IsSetup, Pieces, PawnsOn;
    if c.IsCapture() {
      CaptureLosesPiece(s, c);
    } else {
      PromotionLosesPawn(s, c);
    }
  }
}

/** What the letters of a table's name say about the boards of the table. */
module BoardNames {
  import opened BoardConversions
  import opened Boards
  import opened Chess
  import opened Conversions
  import opened PawnKeys
  import opened PawnMaps
  import opened TableIds
  import opened TableNames
  import opened TableOrder
  import opened Wrappers

  // ---------------------------------------------------------------------
  // Opposed pawns.

  /** A pawn of the side to move whose next pawn ahead on its file, below rank `n`, is an
      enemy. */
  predicate FacesEnemy(o: FilePawns, r: nat, n: nat) {
    r < n <= 8 && o[r] == Some(SideToMove)
    && exists q :: r < q < n && o[q] == Some(SideNotToMove) && forall t | r < t < q :: o[t].None?
  }

  ghost function FacingRanks(o: FilePawns, n: nat): set<nat> {
    set r: nat | r < n && FacesEnemy(o, r, n)
  }

  /** The last pawn below a rank. */
  predicate IsLastPawn(o: FilePawns, r: nat, n: nat) {
    r < n <= 8 && o[r].Some? && forall t | r < t < n :: o[t].None?
  }

  lemma {:induction false} LastPawn(o: FilePawns, n: nat) returns (r: nat)
    requires n <= 8 && WordUpTo(o, n) != []
    ensures IsLastPawn(o, r, n) && WordUpTo(o, n)[|WordUpTo(o, n)| - 1] == o[r].value
  {
    if o[n - 1].Some? {
      r := n - 1;
    } else {
      r := LastPawn(o, n - 1);
    }
  }

  lemma {:induction false} NoPawnBelow(o: FilePawns, n: nat)
    requires n <= 8 && WordUpTo(o, n) == []
    ensures forall r | 0 <= r < n :: o[r].None?
  {
    if n > 0 {
      NoPawnBelow(o, n - 1);
    }
  }

  lemma EnemyFaces(o: FilePawns, n: nat)
    requires n < 8
    ensures forall r: nat | r < n :: FacesEnemy(o, r, n + 1) <==>
              FacesEnemy(o, r, n) || (o[n] == Some(SideNotToMove) && IsLastPawn(o, r, n) && o[r] == Some(SideToMove))
    ensures !FacesEnemy(o, n, n + 1)
  {
  }

  lemma LastFacesNone(o: FilePawns, r: nat, n: nat)
    requires IsLastPawn(o, r, n)
    ensures !FacesEnemy(o, r, n)
    ensures forall q: nat | IsLastPawn(o, q, n) :: q == r
  {
  }

  lemma NextFacing(w: ColorWord, x: Side)
    ensures PairsIn(w + [x]) == Facing(w + [x], |w|)
  {
  }

  /** The opposing pairs of a file's word are its pawns of the side to move that face an
      enemy pawn. */
  lemma {:induction false} PairsAreFacing(o: FilePawns, n: nat)
    requires n <= 8
    ensures PairsIn(WordUpTo(o, n)) == |FacingRanks(o, n)|
  {
    hide FacingRanks, Facing;
    if n == 0 {
      NoFacingRanks(o);
    } else {
      var w := WordUpTo(o, n - 1);
      PairsAreFacing(o, n - 1);
      if o[n - 1].Some? {
        FacingPrefix(w, o[n - 1].value, |w|);
        NextFacing(w, o[n - 1].value);
        if w != [] {
          var r := LastPawn(o, n - 1);
          MoreFacingRanks(o, n - 1, r);
        } else {
          SameFacingRanks(o, n - 1);
        }
      } else {
        SameFacingRanks(o, n - 1);
        assert WordUpTo(o, n) == w;
      }
    }
  }

  lemma NoFacingRanks(o: FilePawns)
    ensures FacingRanks(o, 0) == {} && PairsIn([]) == 0
  {
  }

  lemma SameFacingRanks(o: FilePawns, n: nat)
    requires n < 8 && (o[n].None? || WordUpTo(o, n) == [])
    ensures FacingRanks(o, n + 1) == FacingRanks(o, n)
  {
    hide FacesEnemy;
    EnemyFaces(o, n);
    if WordUpTo(o, n) == [] {
      NoPawnBelow(o, n);
    }
  }

  lemma MoreFacingRanks(o: FilePawns, n: nat, r: nat)
    requires n < 8 && o[n].Some? && IsLastPawn(o, r, n)
    ensures |FacingRanks(o, n + 1)|
            == |FacingRanks(o, n)| + if o[r] == Some(SideToMove) && o[n] == Some(SideNotToMove) then 1 else 0
  {
    hide FacesEnemy;
    EnemyFaces(o, n);
    LastFacesNone(o, r, n);
    var more := o[r] == Some(SideToMove) && o[n] == Some(SideNotToMove);
    assert FacingRanks(o, n + 1) == if more then FacingRanks(o, n) + {r} else FacingRanks(o, n);
  }

  // ---------------------------------------------------------------------
  // Letters.

  const FILES := "abcdefgh"

  function LetterOf(role: Role): char {
    match role
    case King => 'K'
    case Queen => 'Q'
    case Rook => 'R'
    case Bishop => 'B'
    case Knight => 'N'
    case Pawn => 'P'
  }

  function Occurrences(text: string, c: char): nat { multiset(text)[c] }

  lemma OccurrencesConcat(a: string, b: string, c: char)
    ensures Occurrences(a + b, c) == Occurrences(a, c) + Occurrences(b, c)
  {
  }

  lemma {:induction false} OccurrencesRepeated(d: char, n: nat, c: char)
    ensures Occurrences(Repeated(d, n), c) == if c == d then n else 0
  {
    if n > 0 {
      OccurrencesRepeated(d, n - 1, c);
    }
  }

  /** The pieces of a side are written king, queens, rooks, bishops, knights. */
  lemma PieceTextIs(counts: Counts)
    ensures PieceText(counts, 5)
            == Repeated('K', counts[0]) + Repeated('Q', counts[1]) + Repeated('R', counts[2])
               + Repeated('B', counts[3]) + Repeated('N', counts[4])
  {
    hide Repeated;
    assert PieceText(counts, 1) == Repeated('K', counts[0]);
    assert PieceText(counts, 3) == Repeated('K', counts[0]) + Repeated('Q', counts[1]) + Repeated('R', counts[2]);
  }

  lemma PieceLetters(counts: Counts, c: char)
    ensures Occurrences(PieceText(counts, 5), c)
            == match c
               case 'K' => counts[0]
               case 'Q' => counts[1]
               case 'R' => counts[2]
               case 'B' => counts[3]
               case 'N' => counts[4]
               case _ => 0
  {
    hide Repeated, PieceText, Occurrences;
    PieceTextIs(counts);
    var (k, q, r) := (Repeated('K', counts[0]), Repeated('Q', counts[1]), Repeated('R', counts[2]));
    var (b, n) := (Repeated('B', counts[3]), Repeated('N', counts[4]));
    OccurrencesRepeated('K', counts[0], c);
    OccurrencesRepeated('Q', counts[1], c);
    OccurrencesRepeated('R', counts[2], c);
    OccurrencesRepeated('B', counts[3], c);
    OccurrencesRepeated('N', counts[4], c);
    OccurrencesConcat(k, q, c);
    OccurrencesConcat(k + q, r, c);
    OccurrencesConcat(k + q + r, b, c);
    OccurrencesConcat(k + q + r + b, n, c);
  }

  lemma MarkLetters(f: nat, opposed: bool, c: char)
    requires f < 8
    ensures Occurrences(PawnMark(f, opposed), c)
            == if c == 'P' || c == FILES[f] || (c == 'o' && opposed) then 1 else 0
  {
  }

  lemma {:induction false} FileLetters(f: nat, flags: seq<bool>, c: char)
    requires f < 8
    ensures Occurrences(FileText(f, flags), c)
            == if c == 'P' || c == FILES[f] then |flags| else if c == 'o' then Marks(flags) else 0
  {
    hide Occurrences, PawnMark;
    if flags == [] {
      assert Occurrences("", c) == 0 by { NoOccurrences(c); }
    } else {
      var n := |flags| - 1;
      FileLetters(f, flags[..n], c);
      MarkLetters(f, flags[n], c);
      OccurrencesConcat(FileText(f, flags[..n]), PawnMark(f, flags[n]), c);
    }
  }

  lemma NoOccurrences(c: char)
    ensures Occurrences("", c) == 0
  {
  }

  function MarksOn(flags: Flags, n: nat): nat
    requires n <= 8
  {
    if n == 0 then 0 else MarksOn(flags, n - 1) + Marks(flags[n - 1])
  }

  lemma {:induction false} PawnTextLetters(flags: Flags, n: nat, c: char)
    requires n <= 8
    ensures c == 'P' ==> Occurrences(PawnText(flags, n), c) == FlagCount(flags, n)
    ensures c == 'o' ==> Occurrences(PawnText(flags, n), c) == MarksOn(flags, n)
    ensures c in "KQRBN" ==> Occurrences(PawnText(flags, n), c) == 0
  {
    hide Occurrences, FileText, Marks;
    if n == 0 {
      NoOccurrences(c);
    } else {
      PawnTextLetters(flags, n - 1, c);
      FileLetters(n - 1, flags[n - 1], c);
      OccurrencesConcat(PawnText(flags, n - 1), FileText(n - 1, flags[n - 1]), c);
    }
  }

  lemma {:induction false} FileOccurrences(flags: Flags, n: nat, f: nat)
    requires n <= 8 && f < 8
    ensures Occurrences(PawnText(flags, n), FILES[f]) == if f < n then |flags[f]| else 0
  {
    hide Occurrences, FileText, Marks;
    if n == 0 {
      NoOccurrences(FILES[f]);
    } else {
      FileOccurrences(flags, n - 1, f);
      FileLetters(n - 1, flags[n - 1], FILES[f]);
      OccurrencesConcat(PawnText(flags, n - 1), FileText(n - 1, flags[n - 1]), FILES[f]);
    }
  }

  // ---------------------------------------------------------------------
  // The name of a board's material.

  /** The part of the name that names the pieces of `c`. */
  function SideName(board: Position, turn: Color, c: Color): string {
    SideText(CountsOf(board, c), AllFlags(KeyOf(PawnsOf(board, turn)), SideOf(c, turn)))
  }

  lemma NameIs(board: Position, turn: Color)
    ensures Name(MaterialOf(SetupOf(board, turn)))
            == SideName(board, turn, turn) + "_" + SideName(board, turn, turn.Other())
  {
  }

  /** The pawns of one side on a file. */
  ghost function SidePawnsOn(board: Position, c: Color, f: nat): set<Square> {
    set s | s in board && board[s] == Piece(Pawn, c) && s.file == f
  }

  ghost function SidePawnsBelow(board: Position, turn: Color, c: Color, f: nat, n: nat): set<Square> {
    set s | s in board && board[s] == Piece(Pawn, c) && s.file == f && turn.Rank(s.rank) < n
  }

  lemma NextSidePawn(board: Position, turn: Color, c: Color, f: nat, n: nat)
    requires f < 8 && n < 8
    ensures |SidePawnsBelow(board, turn, c, f, n + 1)|
            == |SidePawnsBelow(board, turn, c, f, n)|
               + if PawnsOf(board, turn)[f][n] == Some(SideOf(c, turn)) then 1 else 0
  {
    var s := Square(turn.Rank(n), f);
    var here := if PawnOn(board, s, turn) == Some(SideOf(c, turn)) then {s} else {};
    forall t | t in SidePawnsBelow(board, turn, c, f, n + 1) && t !in SidePawnsBelow(board, turn, c, f, n)
      ensures t == s
    {
    }
    Partition(SidePawnsBelow(board, turn, c, f, n + 1), SidePawnsBelow(board, turn, c, f, n), here);
  }

  lemma {:induction false} SidePawnsCounted(board: Position, turn: Color, c: Color, f: nat, n: nat)
    requires f < 8 && n <= 8
    ensures CountOf(WordUpTo(PawnsOf(board, turn)[f], n), SideOf(c, turn)) == |SidePawnsBelow(board, turn, c, f, n)|
  {
    hide PawnsOf, SideOf, SidePawnsBelow;
    if n == 0 {
      NoneBelow(board, turn, c, f);
    } else {
      SidePawnsCounted(board, turn, c, f, n - 1);
      NextSidePawn(board, turn, c, f, n - 1);
      var (o, w) := (PawnsOf(board, turn)[f], WordUpTo(PawnsOf(board, turn)[f], n - 1));
      if o[n - 1].Some? {
        assert (w + [o[n - 1].value])[..|w|] == w;
      } else {
        assert w + [] == w;
      }
    }
  }

  lemma NoneBelow(board: Position, turn: Color, c: Color, f: nat)
    ensures SidePawnsBelow(board, turn, c, f, 0) == {}
  {
  }

  lemma {:induction false} StmFlagCount(w: ColorWord, n: nat)
    requires n <= |w|
    ensures |FlagsUpTo(w, n)| == CountOf(w[..n], SideToMove)
  {
    if n > 0 {
      StmFlagCount(w, n - 1);
      assert w[..n][..n - 1] == w[..n - 1];
    }
  }

  lemma FlagsAreCounted(w: ColorWord)
    ensures |StmFlags(w)| == CountOf(w, SideToMove) && |SntmFlags(w)| == CountOf(w, SideNotToMove)
  {
    StmFlagCount(w, |w|);
    StmFlagCount(TwinWord(w), |w|);
    TwinCounts(w, SideToMove);
    assert w[..|w|] == w && TwinWord(w)[..|w|] == TwinWord(w);
  }

  lemma FlagsOfFile(board: Position, turn: Color, c: Color, f: nat)
    requires f < 8
    ensures |AllFlags(KeyOf(PawnsOf(board, turn)), SideOf(c, turn))[f]| == |SidePawnsOn(board, c, f)|
  {
    hide StmFlags, SntmFlags, PawnsOf, CountOf, WordUpTo;
    SidePawnsCounted(board, turn, c, f, 8);
    FlagsAreCounted(WordOf(PawnsOf(board, turn)[f]));
    assert SidePawnsBelow(board, turn, c, f, 8) == SidePawnsOn(board, c, f);
  }

  /** The capital letters of a side's name are those of its pieces on the board, and the
      small ones those of the files of its pawns. */
  lemma LettersArePieces(board: Position, turn: Color, c: Color)
    ensures Name(MaterialOf(SetupOf(board, turn)))
            == SideName(board, turn, turn) + "_" + SideName(board, turn, turn.Other())
    ensures forall role | role != Pawn ::
              Occurrences(SideName(board, turn, c), LetterOf(role)) == |Places(board, Piece(role, c))|
    ensures forall f | 0 <= f < 8 ::
              Occurrences(SideName(board, turn, c), FILES[f]) == |SidePawnsOn(board, c, f)|
  {
    hide Occurrences, PieceText, PawnText, PawnsOf, KeyOf, AllFlags;
    NameIs(board, turn);
    var (counts, flags) := (CountsOf(board, c), AllFlags(KeyOf(PawnsOf(board, turn)), SideOf(c, turn)));
    forall role | role != Pawn
      ensures Occurrences(SideName(board, turn, c), LetterOf(role)) == |Places(board, Piece(role, c))|
    {
      PieceLetters(counts, LetterOf(role));
      PawnTextLetters(flags, 8, LetterOf(role));
      OccurrencesConcat(PieceText(counts, 5), PawnText(flags, 8), LetterOf(role));
      assert counts[RoleIndex(role)] == |Places(board, Piece(role, c))|;
    }
    forall f | 0 <= f < 8 ensures Occurrences(SideName(board, turn, c), FILES[f]) == |SidePawnsOn(board, c, f)| {
      PieceLetters(counts, FILES[f]);
      FileOccurrences(flags, 8, f);
      OccurrencesConcat(PieceText(counts, 5), PawnText(flags, 8), FILES[f]);
      FlagsOfFile(board, turn, c, f);
    }
  }

  // ---------------------------------------------------------------------
  // Marks.

  /** The pawns of a side, on the first `n` files, whose next pawn ahead is an enemy. */
  ghost function OpposedPawns(board: Position, c: Color, n: nat): nat
    requires n <= 8
  {
    if n == 0 then 0 else OpposedPawns(board, c, n - 1) + |FacingRanks(PawnsOf(board, c)[n - 1], 8)|
  }

  lemma {:induction false} MarksArePairs(k: Key, s: Side, n: nat)
    requires n <= 8
    ensures MarksOn(AllFlags(k, s), n) == OpposingPairs(k, n)
  {
    hide StmFlags, SntmFlags, Marks;
    if n > 0 {
      MarksArePairs(k, s, n - 1);
      SidesAreMarkedAlike(k[n - 1]);
    }
  }

  lemma {:induction false} PairsOnBoard(board: Position, turn: Color, n: nat)
    requires n <= 8
    ensures OpposingPairs(KeyOf(PawnsOf(board, turn)), n) == OpposedPawns(board, turn, n)
  {
    hide StmFlags, SntmFlags, Marks, PawnsOf, FacingRanks, PairsIn, WordUpTo;
    if n > 0 {
      PairsOnBoard(board, turn, n - 1);
      var o := PawnsOf(board, turn)[n - 1];
      PairsAreFacing(o, 8);
      SidesAreMarkedAlike(WordOf(o));
    }
  }

  /** The marks of a side's name are its opposed pawns, as many as the opposing pairs of
      the table's group. */
  lemma MarksAreOpposed(board: Position, turn: Color, c: Color)
    ensures Occurrences(SideName(board, turn, c), 'o') == OpposedPawns(board, c, 8)
    ensures Occurrences(SideName(board, turn, c), 'o') == GroupOf(MaterialOf(SetupOf(board, turn))).pairs
  {
    hide Occurrences, PieceText, PawnText, PawnsOf, KeyOf, AllFlags, OpposingPairs, OpposedPawns, MarksOn, CountsOf;
    hide TurnedPawns, Twin, SidePawns;
    var (counts, k) := (CountsOf(board, c), KeyOf(PawnsOf(board, turn)));
    var flags := AllFlags(k, SideOf(c, turn));
    PieceLetters(counts, 'o');
    PawnTextLetters(flags, 8, 'o');
    OccurrencesConcat(PieceText(counts, 5), PawnText(flags, 8), 'o');
    MarksArePairs(k, SideOf(c, turn), 8);
    PairsOnBoard(board, c, 8);
    OtherSide(board, turn);
    TurnedKey(PawnsOf(board, turn));
    TwinKeyCounts(k, 8);
  }

  // ---------------------------------------------------------------------
  // The group of a board.

  /** The squares of one side's pieces and pawns. */
  ghost function SquaresOfSide(board: Position, c: Color): set<Square> {
    set s | s in board && board[s].color == c
  }

  ghost function SidePawnsUpTo(board: Position, c: Color, n: nat): set<Square> {
    set s | s in board && board[s] == Piece(Pawn, c) && s.file < n
  }

  lemma NextSideFile(board: Position, c: Color, n: nat)
    requires n < 8
    ensures |SidePawnsUpTo(board, c, n + 1)| == |SidePawnsUpTo(board, c, n)| + |SidePawnsOn(board, c, n)|
  {
    Partition(SidePawnsUpTo(board, c, n + 1), SidePawnsUpTo(board, c, n), SidePawnsOn(board, c, n));
  }

  lemma {:induction false} SidePawnsAreSquares(board: Position, turn: Color, c: Color, n: nat)
    requires n <= 8
    ensures SidePawns(KeyOf(PawnsOf(board, turn)), SideOf(c, turn), n) == |SidePawnsUpTo(board, c, n)|
  {
    hide PawnsOf, SideOf, CountOf, WordUpTo, SidePawnsOn, SidePawnsBelow;
    if n == 0 {
      assert SidePawnsUpTo(board, c, 0) == {};
    } else {
      SidePawnsAreSquares(board, turn, c, n - 1);
      SidePawnsCounted(board, turn, c, n - 1, 8);
      AllBelow(board, turn, c, n - 1);
      NextSideFile(board, c, n - 1);
    }
  }

  lemma AllBelow(board: Position, turn: Color, c: Color, f: nat)
    ensures SidePawnsBelow(board, turn, c, f, 8) == SidePawnsOn(board, c, f)
  {
  }

  lemma SideIsCounted(board: Position, turn: Color, c: Color)
    ensures Sum(CountsOf(board, c)) + SidePawns(KeyOf(PawnsOf(board, turn)), SideOf(c, turn), 8)
            == |SquaresOfSide(board, c)|
  {
    hide PawnsOf, CountsOf, KeyOf, SidePawns, SideOf, Sum;
    CountsAreSquares(board, c, 5);
    assert CountsOf(board, c)[..5] == CountsOf(board, c);
    SidePawnsAreSquares(board, turn, c, 8);
    SideSquares(board, c);
  }

  lemma SideSquares(board: Position, c: Color)
    ensures |SquaresOfSide(board, c)| == |PiecesOf(board, c, 5)| + |SidePawnsUpTo(board, c, 8)|
  {
    var (all, pieces, pawns) := (SquaresOfSide(board, c), PiecesOf(board, c, 5), SidePawnsUpTo(board, c, 8));
    assert ROLES[..5] == ROLES && Pawn !in ROLES;
    forall s | s in all ensures s in pieces || s in pawns {
      var role := board[s].role;
      assert role != Pawn ==> ROLES[RoleIndex(role)] == role;
    }
    Partition(all, pieces, pawns);
  }

  /** The group of a board's table: the pieces of the stronger and of the weaker side, the
      opposed pawns of either side, and all pawns. */
  lemma GroupOfBoard(board: Position, turn: Color)
    requires IsSetup(SetupOf(board, turn))
    ensures var (g, white, black) :=
              (GroupOf(TableOf(SetupOf(board, turn))), |SquaresOfSide(board, White)|, |SquaresOfSide(board, Black)|);
            && g.max == (if white < black then black else white) && g.min == (if white < black then white else black)
            && g.pairs == OpposedPawns(board, White, 8) == OpposedPawns(board, Black, 8)
            && g.pawns == |PawnSquares(board, 8)|
  {
    hide PawnsOf, CountsOf, KeyOf, SidePawns, Sum, OpposedPawns, PawnSquares, SquaresOfSide, SideName, OpposingPairs;
    hide PawnsOn, TableOf, IsSetup;
    RoutedTable(SetupOf(board, turn));
    SideIsCounted(board, turn, White);
    SideIsCounted(board, turn, Black);
    MarksAreOpposed(board, turn, White);
    MarksAreOpposed(board, turn, Black);
    PawnsAreSquares(board, turn, 8);
  }

  /** Routes a position to the name of its table, unless it has more than eight pieces. */
  method PositionTableName(board: Position, turn: Color) returns (name: Option<string>)
    ensures name.Some? <==> |board| <= 8
    ensures name.Some? ==> name.value == Name(TableOf(SetupOf(board, turn)))
    ensures IsEndgame(board) ==> IsTable(TableOf(SetupOf(board, turn)))
  {
    hide SetupOf, TableOf, IsTable, Name, IsEndgame;
    if IsEndgame(board) {
      EndgameIsSetup(board, turn);
      RoutedTable(SetupOf(board, turn));
    }
    if |board| > 8 {
      return None;
    }
    var text := FormatName(TableOf(SetupOf(board, turn)));
    name := Some(text);
  }

  // ---------------------------------------------------------------------
  // A lone pawn.

  const NO_PAWNS: Key := [[], [], [], [], [], [], [], []]

  const KING_ONLY: Counts := [1, 0, 0, 0, 0]

  /** The table of a king and a pawn against a king has its pawn on one of the files a to
      d, and its name says on which. */
  lemma LonePawnTable(f: nat)
    requires f < 8
    ensures var m := Material(NO_PAWNS[f := [SideToMove]], KING_ONLY, KING_ONLY);
            && Name(m) == "KP" + [FILES[f]] + "_K"
            && (IsTable(m) <==> FILES[f] in "abcd")
  {
    hide Name, IsTable;
    LonePawnName(f);
    LonePawnIsTable(f);
  }

  lemma LonePawnIsTable(f: nat)
    requires f < 8
    ensures IsTable(Material(NO_PAWNS[f := [SideToMove]], KING_ONLY, KING_ONLY)) <==> FILES[f] in "abcd"
  {
    hide Canonicalized, PawnsOn, Sum;
    LonePawn(NO_PAWNS[f := [SideToMove]], f, SideToMove);
    LonePawnCount(f, 8);
    KingOnlySum();
  }

  lemma LonePawnName(f: nat)
    requires f < 8
    ensures Name(Material(NO_PAWNS[f := [SideToMove]], KING_ONLY, KING_ONLY)) == "KP" + [FILES[f]] + "_K"
  {
    hide FlagsUpTo, PieceText, PawnText;
    var k := NO_PAWNS[f := [SideToMove]];
    KingOnlyText();
    LoneFlags();
    LonePawnText(AllFlags(k, SideToMove), f, 8);
    NoPawnText(AllFlags(k, SideNotToMove), 8);
  }

  lemma {:induction false} LonePawnCount(f: nat, n: nat)
    requires f < 8 && n <= 8
    ensures PawnsOn(NO_PAWNS[f := [SideToMove]], n) == if f < n then 1 else 0
  {
    if n > 0 {
      LonePawnCount(f, n - 1);
    }
  }

  lemma KeepsSum(s: seq<nat>)
    ensures Sum(s + [0]) == Sum(s)
  {
    assert (s + [0])[..|s|] == s;
  }

  lemma KingOnlySum()
    ensures Sum(KING_ONLY) == 1
  {
    KeepsSum([1, 0, 0, 0]);
    KeepsSum([1, 0, 0]);
    KeepsSum([1, 0]);
    KeepsSum([1]);
    assert KING_ONLY == [1, 0, 0, 0] + [0] && [1, 0, 0, 0] == [1, 0, 0] + [0];
    assert [1, 0, 0] == [1, 0] + [0] && [1, 0] == [1] + [0];
    assert Sum([1]) == 1;
  }

  lemma KingOnlyText()
    ensures PieceText(KING_ONLY, 5) == "K"
  {
    PieceTextIs(KING_ONLY);
    assert Repeated('K', 1) == "K";
  }

  lemma LoneFlags()
    ensures StmFlags([SideToMove]) == [false] && SntmFlags([SideToMove]) == []
    ensures StmFlags([]) == [] && SntmFlags([]) == []
  {
    FlagCounts([SideToMove]);
    assert FlagsUpTo([SideToMove], 1) == [false];
  }

  lemma FileLetterIs(f: nat)
    requires f < 8
    ensures FileLetter(f) == FILES[f]
  {
  }

  lemma LoneFileText(f: nat)
    requires f < 8
    ensures FileText(f, [false]) == ['P', FileLetter(f)] && FileText(f, []) == ""
  {
    assert [false][..0] == [];
    assert FileText(f, [false]) == "" + PawnMark(f, false);
  }

  lemma {:induction false} LonePawnText(flags: Flags, f: nat, n: nat)
    requires f < 8 && n <= 8 && flags[f] == [false] && forall g | 0 <= g < 8 && g != f :: flags[g] == []
    ensures PawnText(flags, n) == if f < n then ['P', FILES[f]] else ""
  {
    hide FileText, FileLetter;
    if n > 0 {
      LonePawnText(flags, f, n - 1);
      LoneFileText(n - 1);
      FileLetterIs(n - 1);
    }
  }

  lemma {:induction false} NoPawnText(flags: Flags, n: nat)
    requires n <= 8 && forall g | 0 <= g < 8 :: flags[g] == []
    ensures PawnText(flags, n) == ""
  {
    if n > 0 {
      NoPawnText(flags, n - 1);
    }
  }
}

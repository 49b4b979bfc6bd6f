/** The setup of a board, and the captures and promotions played on boards: what they do
    to the pawns of every file and to the counts of the pieces. */
module BoardConversions {
  import opened Boards
  import opened Chess
  import opened Conversions
  import opened PawnKeys
  import opened PawnMaps
  import opened TableIds
  import opened TableNames
  import opened TableOrder
  import opened Wrappers

  // ---------------------------------------------------------------------
  // Boards as setups.

  function SideOf(c: Color, turn: Color): Side {
    if c == turn then SideToMove else SideNotToMove
  }

  function PawnOn(board: Position, s: Square, turn: Color): Option<Side> {
    if s in board && board[s].role == Pawn then Some(SideOf(board[s].color, turn)) else None
  }

  /** The pawns of the board by file, and by rank from the first one of `turn` on. */
  function PawnsOf(board: Position, turn: Color): Pawns {
    seq(8, f requires 0 <= f < 8 =>
      seq(8, r requires 0 <= r < 8 => PawnOn(board, Square(turn.Rank(r), f), turn)))
  }

  const ROLES: seq<Role> := [King, Queen, Rook, Bishop, Knight]

  function RoleIndex(role: Role): (k: nat)
    requires role != Pawn
    ensures k < 5 && ROLES[k] == role
  {
    match role
    case King => 0
    case Queen => 1
    case Rook => 2
    case Bishop => 3
    case Knight => 4
  }

  function CountsOf(board: Position, c: Color): Counts {
    seq(5, k requires 0 <= k < 5 => |Places(board, Piece(ROLES[k], c))|)
  }

  function SetupOf(board: Position, turn: Color): Setup {
    Setup(PawnsOf(board, turn), CountsOf(board, turn), CountsOf(board, turn.Other()))
  }

  /** The other side sees the setup with the move passed. */
  lemma OtherSide(board: Position, turn: Color)
    ensures SetupOf(board, turn.Other()) == Passed(SetupOf(board, turn))
  {
    var p, q := PawnsOf(board, turn.Other()), TurnedPawns(PawnsOf(board, turn));
    forall f, r | 0 <= f < 8 && 0 <= r < 8 ensures p[f][r] == q[f][r] {
      assert turn.Other().Rank(r) == turn.Rank(7 - r);
    }
    forall f | 0 <= f < 8 ensures p[f] == q[f] {
    }
  }

  // ---------------------------------------------------------------------
  // Packing the pawns of a board.

  /** The packed word of a file: a marker above one bit per pawn, set for enemy pawns. */
  method PackFile(board: Position, turn: Color, f: nat) returns (word: nat)
    requires f < 8
    ensures word == Code(WordOf(PawnsOf(board, turn)[f]))
  {
    hide WordOf, Code, PawnsOf, Upper, Pow2;
    ghost var o := PawnsOf(board, turn)[f];
    ghost var w := WordOf(o);
    var count := 0;
    for r := 0 to 8
      invariant count == PawnsUpTo(o, r)
    {
      PawnOnRank(board, turn, f, r);
      if PawnOn(board, Square(turn.Rank(r), f), turn).Some? {
        count := count + 1;
      }
    }
    FileLength(o);
    CodeIsSumOfBits(w);
    NothingUpper(w);
    word := Pow2(count);
    var i := 0;
    for r := 0 to 8
      invariant i == PawnsUpTo(o, r) <= count == |w|
      invariant word + Upper(w, i) == Code(w)
    {
      PawnOnRank(board, turn, f, r);
      var pawn := PawnOn(board, Square(turn.Rank(r), f), turn);
      if pawn.Some? {
        WordIsByRank(o, r);
        UpperBit(w, i);
        if pawn.value == SideNotToMove {
          word := word + Pow2(i);
        }
        i := i + 1;
      }
    }
  }

  lemma UpperBit(w: ColorWord, i: nat)
    requires i < |w|
    ensures Upper(w, i) == Upper(w, i + 1) + if w[i] == SideNotToMove then Pow2(i) else 0
  {
  }

  lemma PawnOnRank(board: Position, turn: Color, f: nat, r: nat)
    requires f < 8 && r < 8
    ensures PawnsOf(board, turn)[f][r] == PawnOn(board, Square(turn.Rank(r), f), turn)
    ensures PawnsUpTo(PawnsOf(board, turn)[f], r + 1)
            == PawnsUpTo(PawnsOf(board, turn)[f], r) + if PawnsOf(board, turn)[f][r].Some? then 1 else 0
  {
  }

  /** The packed words of all files. */
  method KeyOfBoard(board: Position, turn: Color) returns (files: seq<nat>)
    ensures files == Codes(KeyOf(PawnsOf(board, turn)))
  {
    hide Code, WordOf, PawnsOf;
    files := [];
    for f := 0 to 8
      invariant |files| == f
      invariant forall g | 0 <= g < f :: files[g] == Code(WordOf(PawnsOf(board, turn)[g]))
    {
      var word := PackFile(board, turn, f);
      files := files + [word];
    }
  }

  // ---------------------------------------------------------------------
  // One piece less or more on a board.

  function Lifted(board: Position, s: Square): Position {
    board - {s}
  }

  function Placed(board: Position, s: Square, pc: Piece): Position
    requires s.OnBoard()
  {
    board[s := pc]
  }

  function RankOf(s: Square, turn: Color): (r: nat)
    requires s.OnBoard()
    ensures r < 8 && s.rank == turn.Rank(r)
  {
    turn.Rank(s.rank)
  }

  lemma {:induction false} PawnsWithPut(p: Pawns, p': Pawns, f: nat, r: nat, x: Option<Side>)
    requires f < 8 && r < 8
    requires forall g, q | 0 <= g < 8 && 0 <= q < 8 :: p'[g][q] == if (g, q) == (f, r) then x else p[g][q]
    ensures p' == Put(p, f, r, x)
  {
    forall g | 0 <= g < 8 ensures p'[g] == Put(p, f, r, x)[g] {
    }
  }

  lemma PawnsLifted(board: Position, s: Square, turn: Color)
    requires s.OnBoard()
    ensures PawnsOf(Lifted(board, s), turn) == Put(PawnsOf(board, turn), s.file, RankOf(s, turn), None)
  {
    PawnsWithPut(PawnsOf(board, turn), PawnsOf(Lifted(board, s), turn), s.file, RankOf(s, turn), None);
  }

  function PawnSide(pc: Piece, turn: Color): Option<Side> {
    if pc.role == Pawn then Some(SideOf(pc.color, turn)) else None
  }

  lemma PawnsPlaced(board: Position, s: Square, pc: Piece, turn: Color)
    requires s.OnBoard()
    ensures PawnsOf(Placed(board, s, pc), turn)
            == Put(PawnsOf(board, turn), s.file, RankOf(s, turn), PawnSide(pc, turn))
  {
    PawnsWithPut(PawnsOf(board, turn), PawnsOf(Placed(board, s, pc), turn), s.file, RankOf(s, turn),
                 PawnSide(pc, turn));
  }

  lemma PlacesLifted(board: Position, s: Square, pc: Piece)
    requires s in board
    ensures |Places(board, pc)| == |Places(Lifted(board, s), pc)| + if board[s] == pc then 1 else 0
  {
    var here := if board[s] == pc then {s} else {};
    Partition(Places(board, pc), Places(Lifted(board, s), pc), here);
  }

  lemma CountsLifted(board: Position, s: Square, c: Color)
    requires s in board
    ensures board[s].role == Pawn || board[s].color != c ==> CountsOf(Lifted(board, s), c) == CountsOf(board, c)
    ensures board[s].role != Pawn && board[s].color == c ==>
              var k := RoleIndex(board[s].role);
              && CountsOf(board, c)[k] > 0
              && CountsOf(Lifted(board, s), c) == CountsOf(board, c)[k := CountsOf(board, c)[k] - 1]
  {
    hide Places, Lifted;
    forall k | 0 <= k < 5
      ensures CountsOf(board, c)[k]
              == CountsOf(Lifted(board, s), c)[k] + if board[s] == Piece(ROLES[k], c) then 1 else 0
    {
      PlacesLifted(board, s, Piece(ROLES[k], c));
    }
  }

  lemma PlacesPlaced(board: Position, s: Square, pc: Piece, other: Piece)
    requires s.OnBoard() && s !in board
    ensures |Places(Placed(board, s, pc), other)| == |Places(board, other)| + if pc == other then 1 else 0
  {
    var here := if pc == other then {s} else {};
    Partition(Places(Placed(board, s, pc), other), Places(board, other), here);
  }

  lemma CountsPlaced(board: Position, s: Square, pc: Piece, c: Color)
    requires s.OnBoard() && s !in board
    ensures pc.role == Pawn || pc.color != c ==> CountsOf(Placed(board, s, pc), c) == CountsOf(board, c)
    ensures pc.role != Pawn && pc.color == c ==>
              var k := RoleIndex(pc.role);
              CountsOf(Placed(board, s, pc), c) == CountsOf(board, c)[k := CountsOf(board, c)[k] + 1]
  {
    hide Places, Placed;
    forall k | 0 <= k < 5
      ensures CountsOf(Placed(board, s, pc), c)[k]
              == CountsOf(board, c)[k] + if pc == Piece(ROLES[k], c) then 1 else 0
    {
      PlacesPlaced(board, s, pc, Piece(ROLES[k], c));
    }
  }

  // ---------------------------------------------------------------------
  // Captures and promotions on a board.

  datatype BoardMove = BoardMove(from: Square, to: Square, promotion: Option<Role>)

  predicate Takes(p: State, m: BoardMove) {
    && m.from in p.board && m.to in p.board
    && p.board[m.to].color == p.turn.Other() && Attacks(p.board, m.from, m.to)
  }

  predicate TakesEp(p: State, m: BoardMove) {
    && m.from in p.board && p.board[m.from].role == Pawn
    && p.ep == Some(m.to) && PawnAttacks(p.turn, m.from, m.to)
  }

  predicate Advances(p: State, m: BoardMove) {
    && m.from in p.board && p.board[m.from].role == Pawn
    && m.to == Ahead(m.from, p.turn, 1) && m.to !in p.board && m.promotion.Some?
  }

  /** A legal capture or promotion. */
  predicate IsConversionMove(p: State, m: BoardMove) {
    && m.from in p.board && m.to.OnBoard() && p.board[m.from].color == p.turn
    && (Takes(p, m) || TakesEp(p, m) || Advances(p, m))
    && (m.promotion.Some? <==> p.board[m.from].role == Pawn && m.to.rank == p.turn.Rank(7))
    && (m.promotion.Some? ==> m.promotion.value != Pawn && m.promotion.value != King)
    && !OppositeCheck(Played(p, m), p.turn.Other())
  }

  /** The piece that arrives. */
  function Arriving(p: State, m: BoardMove): Piece
    requires m.from in p.board
  {
    if m.promotion.Some? then Piece(m.promotion.value, p.turn) else p.board[m.from]
  }

  function Played(p: State, m: BoardMove): Position
    requires m.from in p.board && m.to.OnBoard()
  {
    if TakesEp(p, m) then CapturedEp(p.board, p.turn, m.to, m.from)
    else Placed(Moved(p.board, m.from, m.to), m.to, Arriving(p, m))
  }

  /** What a capture or promotion on the board is to the pawns and counts. */
  function ConversionOf(p: State, m: BoardMove): Conversion
    requires ValidState(p) && IsConversionMove(p, m)
  {
    var (f, r, g) := (m.from.file, RankOf(m.from, p.turn), m.to.file);
    if TakesEp(p, m) then EnPassant(f, g)
    else if m.to !in p.board then Conversion.Promotion(f, RoleIndex(m.promotion.value))
    else
      var taken := p.board[m.to].role;
      if m.promotion.Some? then
        LastRankIsFree(p, m);
        TakesAndPromotes(f, RoleIndex(taken), RoleIndex(m.promotion.value))
      else if p.board[m.from].role == Pawn then
        if taken == Pawn then PawnTakesPawn(f, r, g) else PawnTakesPiece(f, r, g, RoleIndex(taken))
      else
        if taken == Pawn then PieceTakesPawn(g, RankOf(m.to, p.turn)) else PieceTakesPiece(RoleIndex(taken))
  }

  lemma LastRankIsFree(p: State, m: BoardMove)
    requires ValidState(p) && IsConversionMove(p, m) && m.promotion.Some? && m.to in p.board
    ensures p.board[m.to].role != Pawn
  {
  }

  lemma KingIsNotTaken(p: State, m: BoardMove)
    requires ValidState(p) && IsConversionMove(p, m) && m.to in p.board
    ensures p.board[m.to].color == p.turn.Other() && p.board[m.to].role != King
    ensures Attacks(p.board, m.from, m.to) && m.from != m.to
  {
    hide LegalEp;
  }

  lemma PutSame(p: Pawns, f: nat, r: nat)
    requires f < 8 && r < 8
    ensures Put(p, f, r, p[f][r]) == p
  {
    assert p[f][r := p[f][r]] == p[f];
  }

  lemma PutElsewhere(p: Pawns, f: nat, r: nat, x: Option<Side>, g: nat, q: nat)
    requires f < 8 && r < 8 && g < 8 && q < 8 && (f, r) != (g, q)
    ensures Put(p, f, r, x)[g][q] == p[g][q]
  {
  }

  lemma PutTwice(p: Pawns, f: nat, r: nat, x: Option<Side>, y: Option<Side>)
    requires f < 8 && r < 8
    ensures Put(Put(p, f, r, x), f, r, y) == Put(p, f, r, y)
  {
    assert p[f][r := x][r := y] == p[f][r := y];
  }

  /** A piece that leaves one square and arrives on another, perhaps promoted. */
  lemma OwnCounts(board: Position, from: Square, rest: Position, to: Square, pc: Piece, c: Color)
    requires from in board && board[from].color == c == pc.color && to.OnBoard() && to !in rest
    requires CountsOf(rest, c) == CountsOf(Lifted(board, from), c)
    ensures pc == board[from] ==> CountsOf(Placed(rest, to, pc), c) == CountsOf(board, c)
    ensures board[from].role == Pawn && pc.role != Pawn ==>
              var k := RoleIndex(pc.role);
              CountsOf(Placed(rest, to, pc), c) == CountsOf(board, c)[k := CountsOf(board, c)[k] + 1]
  {
    hide CountsOf;
    CountsLifted(board, from, c);
    CountsPlaced(rest, to, pc, c);
  }

  lemma TakenBoard(p: State, m: BoardMove)
    requires ValidState(p) && IsConversionMove(p, m) && m.to in p.board
    ensures Played(p, m) == Placed(Lifted(Lifted(p.board, m.from), m.to), m.to, Arriving(p, m))
  {
    hide OppositeCheck, LegalEp;
    EpIsFree(p);
  }

  /** The pawns after a capture that is not en passant. */
  lemma TakenPawns(p: State, m: BoardMove)
    requires ValidState(p) && IsConversionMove(p, m) && m.to in p.board
    ensures PawnsOf(Played(p, m), p.turn)
            == Put(Put(PawnsOf(p.board, p.turn), m.from.file, RankOf(m.from, p.turn), None),
                   m.to.file, RankOf(m.to, p.turn), PawnSide(Arriving(p, m), p.turn))
  {
    hide PawnsOf, ValidState, Put, Played, OppositeCheck, Attacks, TakesEp, RankOf, Advances;
    TakenBoard(p, m);
    var one := Lifted(p.board, m.from);
    PawnsLifted(p.board, m.from, p.turn);
    PawnsLifted(one, m.to, p.turn);
    PawnsPlaced(Lifted(one, m.to), m.to, Arriving(p, m), p.turn);
    PutTwice(PawnsOf(one, p.turn), m.to.file, RankOf(m.to, p.turn), None, PawnSide(Arriving(p, m), p.turn));
  }

  /** The counts after a capture that is not en passant. */
  lemma TakenCounts(p: State, m: BoardMove)
    requires ValidState(p) && IsConversionMove(p, m) && m.to in p.board
    ensures var (s, s') := (SetupOf(p.board, p.turn), SetupOf(Played(p, m), p.turn));
            var taken := p.board[m.to].role;
            && taken != King
            && (taken == Pawn ==> s'.sntm == s.sntm)
            && (taken != Pawn ==> CanTake(s, RoleIndex(taken)) && s'.sntm == Without(s, RoleIndex(taken)))
            && (m.promotion.None? ==> s'.stm == s.stm)
            && (m.promotion.Some? ==>
                  var k := RoleIndex(m.promotion.value); s'.stm == s.stm[k := s.stm[k] + 1])
  {
    hide CountsOf, PawnsOf, ValidState, Played, OppositeCheck, Attacks, TakesEp, Advances;
    TakenBoard(p, m);
    KingIsNotTaken(p, m);
    var one := Lifted(p.board, m.from);
    var two := Lifted(one, m.to);
    var pc := Arriving(p, m);
    CountsLifted(one, m.to, p.turn);
    OwnCounts(p.board, m.from, two, m.to, pc, p.turn);
    CountsLifted(p.board, m.from, p.turn.Other());
    CountsLifted(one, m.to, p.turn.Other());
    CountsPlaced(two, m.to, pc, p.turn.Other());
  }

  lemma EpIsFree(p: State)
    requires ValidState(p)
    ensures p.ep.Some? ==> p.ep.value !in p.board
  {
  }

  lemma PawnAt(board: Position, s: Square, turn: Color)
    requires s.OnBoard()
    ensures PawnsOf(board, turn)[s.file][RankOf(s, turn)] == PawnOn(board, s, turn)
  {
  }

  lemma PawnCaptures(turn: Color, from: Square, to: Square)
    requires PawnAttacks(turn, from, to) && from.OnBoard() && to.OnBoard()
    ensures RankOf(to, turn) == RankOf(from, turn) + 1 && Conversions.Adjacent(from.file, to.file)
  {
  }

  lemma TakesIsConversion(p: State, m: BoardMove)
    requires ValidState(p) && IsConversionMove(p, m) && m.to in p.board
    ensures var (s, c) := (SetupOf(p.board, p.turn), ConversionOf(p, m));
            Conversions.Legal(s, c) && SetupOf(Played(p, m), p.turn) == After(s, c)
  {
    hide CountsOf, PawnsOf, ValidState, Put, OppositeCheck;
    TakenPawns(p, m);
    TakenCounts(p, m);
    EpIsFree(p);
    KingIsNotTaken(p, m);
    PawnAt(p.board, m.from, p.turn);
    PawnAt(p.board, m.to, p.turn);
    var pawns := PawnsOf(p.board, p.turn);
    var (f, r, g, q) := (m.from.file, RankOf(m.from, p.turn), m.to.file, RankOf(m.to, p.turn));
    if p.board[m.from].role == Pawn {
      PawnCaptures(p.turn, m.from, m.to);
      if m.promotion.Some? {
        LastRankIsFree(p, m);
        PutElsewhere(pawns, f, r, None, g, q);
        PutSame(Put(pawns, f, r, None), g, q);
      }
    } else {
      PutSame(pawns, f, r);
      PutSame(pawns, g, q);
    }
  }

  lemma EpIsConversion(p: State, m: BoardMove)
    requires ValidState(p) && IsConversionMove(p, m) && TakesEp(p, m)
    ensures var (s, c) := (SetupOf(p.board, p.turn), ConversionOf(p, m));
            Conversions.Legal(s, c) && SetupOf(Played(p, m), p.turn) == After(s, c)
  {
    hide CountsOf, PawnsOf, ValidState, Put, OppositeCheck, LegalEp;
    EpSquares(p);
    var taken := Ahead(m.to, p.turn, -1);
    var ahead := Ahead(m.to, p.turn, 1);
    PawnCaptures(p.turn, m.from, m.to);
    PawnAt(p.board, m.from, p.turn);
    PawnAt(p.board, taken, p.turn);
    PawnAt(p.board, m.to, p.turn);
    PawnAt(p.board, ahead, p.turn);
    var one := Lifted(p.board, m.from);
    var two := Lifted(one, taken);
    var pc := p.board[m.from];
    assert Played(p, m) == Placed(two, m.to, pc) by {
      assert p.board - {m.from, taken} == two;
    }
    PawnsLifted(p.board, m.from, p.turn);
    PawnsLifted(one, taken, p.turn);
    PawnsPlaced(two, m.to, pc, p.turn);
    CountsLifted(one, taken, p.turn);
    OwnCounts(p.board, m.from, two, m.to, pc, p.turn);
    CountsLifted(p.board, m.from, p.turn.Other());
    CountsLifted(one, taken, p.turn.Other());
    CountsPlaced(two, m.to, pc, p.turn.Other());
  }

  lemma EpSquares(p: State)
    requires ValidState(p) && p.ep.Some?
    ensures var (e, us) := (p.ep.value, p.turn);
            && e.OnBoard() && RankOf(e, us) == 5 && e !in p.board
            && Ahead(e, us, -1) in p.board && p.board[Ahead(e, us, -1)] == Piece(Pawn, us.Other())
            && RankOf(Ahead(e, us, -1), us) == 4
            && Ahead(e, us, 1).OnBoard() && RankOf(Ahead(e, us, 1), us) == 6 && Ahead(e, us, 1) !in p.board
  {
    hide OppositeCheck, LegalEp;
  }

  lemma AdvanceIsConversion(p: State, m: BoardMove)
    requires ValidState(p) && IsConversionMove(p, m) && m.to !in p.board && !TakesEp(p, m)
    ensures var (s, c) := (SetupOf(p.board, p.turn), ConversionOf(p, m));
            Conversions.Legal(s, c) && SetupOf(Played(p, m), p.turn) == After(s, c)
  {
    hide CountsOf, PawnsOf, ValidState, Put, OppositeCheck, LegalEp;
    PawnAt(p.board, m.from, p.turn);
    PawnAt(p.board, m.to, p.turn);
    var one := Lifted(p.board, m.from);
    var pc := Arriving(p, m);
    assert Played(p, m) == Placed(one, m.to, pc);
    PawnsLifted(p.board, m.from, p.turn);
    PawnsPlaced(one, m.to, pc, p.turn);
    PawnAt(one, m.to, p.turn);
    PutSame(PawnsOf(one, p.turn), m.to.file, RankOf(m.to, p.turn));
    OwnCounts(p.board, m.from, one, m.to, pc, p.turn);
    CountsLifted(p.board, m.from, p.turn.Other());
    CountsPlaced(one, m.to, pc, p.turn.Other());
  }

  /** Playing a legal capture or promotion on the board does to the setup what its
      conversion does, and the opponent sees the successor. */
  lemma MoveIsConversion(p: State, m: BoardMove)
    requires ValidState(p) && IsConversionMove(p, m)
    ensures var (s, c) := (SetupOf(p.board, p.turn), ConversionOf(p, m));
            && Conversions.Legal(s, c) && SetupOf(Played(p, m), p.turn) == After(s, c)
            && SetupOf(Played(p, m), p.turn.Other()) == Successor(s, c)
            && (c.IsCapture() <==> Takes(p, m) || TakesEp(p, m))
  {
    hide CountsOf, PawnsOf, ValidState, Put, OppositeCheck, LegalEp, SetupOf, After, Played, Conversions.Legal;
    OtherSide(Played(p, m), p.turn);
    EpIsFree(p);
    if m.to in p.board {
      TakesIsConversion(p, m);
    } else if TakesEp(p, m) {
      EpIsConversion(p, m);
    } else {
      AdvanceIsConversion(p, m);
    }
  }

  // ---------------------------------------------------------------------
  // Quiet moves on a board.

  /** A quiet move on the board pushes a pawn of the setup or leaves its pawns, and keeps
      its counts. */
  lemma QuietMoveOnBoard(p: State, from: Square, to: Square, s: State)
    requires ValidState(p) && IsQuietMove(p, from, to, s)
    ensures IsQuiet(PawnsOf(p.board, p.turn), PawnsOf(s.board, p.turn))
    ensures SetupOf(s.board, s.turn) == Passed(SetupOf(p.board, p.turn).(pawns := PawnsOf(s.board, p.turn)))
  {
    hide CountsOf, PawnsOf, Put, OppositeCheck, LegalEp, ValidState, EpAfter, IsQuiet, Reaches;
    OtherSide(s.board, p.turn);
    var pc := p.board[from];
    var one := Lifted(p.board, from);
    assert s.board == Placed(one, to, pc);
    OwnCounts(p.board, from, one, to, pc, p.turn);
    CountsLifted(p.board, from, p.turn.Other());
    CountsPlaced(one, to, pc, p.turn.Other());
    PawnsLifted(p.board, from, p.turn);
    PawnsPlaced(one, to, pc, p.turn);
    PawnAt(p.board, from, p.turn);
    PawnAt(p.board, to, p.turn);
    PawnAt(one, to, p.turn);
    var pawns := PawnsOf(p.board, p.turn);
    if pc.role == Pawn {
      PushedFile(p, from, to, s);
    } else {
      PutSame(pawns, from.file, RankOf(from, p.turn));
      PutSame(PawnsOf(one, p.turn), to.file, RankOf(to, p.turn));
      Unpushed(pawns);
    }
  }

  lemma Unpushed(pawns: Pawns)
    ensures IsQuiet(pawns, pawns)
  {
  }

  lemma PushedFile(p: State, from: Square, to: Square, s: State)
    requires ValidState(p) && IsQuietMove(p, from, to, s) && p.board[from].role == Pawn
    ensures IsQuiet(PawnsOf(p.board, p.turn), PawnsOf(s.board, p.turn))
  {
    hide CountsOf, OppositeCheck, LegalEp, ValidState, EpAfter, IsQuiet, Reaches, Put;
    var (pawns, pawns') := (PawnsOf(p.board, p.turn), PawnsOf(s.board, p.turn));
    var (f, r, q) := (from.file, RankOf(from, p.turn), RankOf(to, p.turn));
    assert to.file == f && r < q;
    forall g, t | 0 <= g < 8 && 0 <= t < 8
      ensures pawns'[g][t] == if (g, t) == (f, r) then None else if (g, t) == (f, q) then pawns[f][r] else pawns[g][t]
    {
    }
    forall t | r < t <= q ensures pawns[f][t].None? {
      assert Square(p.turn.Rank(t), f) !in p.board;
    }
    PushedIsQuiet(pawns, pawns', f, r, q);
  }

  lemma PushedIsQuiet(pawns: Pawns, pawns': Pawns, f: nat, r: nat, q: nat)
    requires f < 8 && r < q < 8 && pawns[f][r].Some? && forall t | r < t <= q :: pawns[f][t].None?
    requires forall g, t | 0 <= g < 8 && 0 <= t < 8 ::
               pawns'[g][t] == if (g, t) == (f, r) then None else if (g, t) == (f, q) then pawns[f][r] else pawns[g][t]
    ensures IsQuiet(pawns, pawns')
  {
    assert pawns'[f] == pawns[f][r := None][q := pawns[f][r]];
    forall g | 0 <= g < 8 ensures pawns'[g] == pawns[f := pawns'[f]][g] {
    }
    assert PushesOn(pawns, f, r, q, pawns');
  }

  // ---------------------------------------------------------------------
  // The tables of boards.

  /** The squares of one side's pieces of the first `n` kinds. */
  ghost function PiecesOf(board: Position, c: Color, n: nat): set<Square>
    requires n <= 5
  {
    set s | s in board && board[s].color == c && board[s].role in ROLES[..n]
  }

  lemma Partition<T>(all: set<T>, a: set<T>, b: set<T>)
    requires (forall x :: x in all <==> x in a || x in b) && forall x | x in a :: x !in b
    ensures |all| == |a| + |b|
  {
    assert all == a + b && a !! b;
  }

  lemma NextPieces(board: Position, c: Color, n: nat)
    requires n < 5
    ensures |PiecesOf(board, c, n + 1)| == |PiecesOf(board, c, n)| + |Places(board, Piece(ROLES[n], c))|
  {
    var here := Places(board, Piece(ROLES[n], c));
    assert ROLES[..n + 1] == ROLES[..n] + [ROLES[n]];
    assert ROLES[n] !in ROLES[..n];
    Partition(PiecesOf(board, c, n + 1), PiecesOf(board, c, n), here);
  }

  lemma {:induction false} CountsAreSquares(board: Position, c: Color, n: nat)
    requires n <= 5
    ensures Sum(CountsOf(board, c)[..n]) == |PiecesOf(board, c, n)|
  {
    hide Places;
    if n == 0 {
      assert PiecesOf(board, c, 0) == {};
    } else {
      CountsAreSquares(board, c, n - 1);
      NextPieces(board, c, n - 1);
      assert CountsOf(board, c)[..n][..n - 1] == CountsOf(board, c)[..n - 1];
    }
  }

  /** The squares of the pawns on the first `n` files. */
  ghost function PawnSquares(board: Position, n: nat): set<Square> {
    set s | s in board && board[s].role == Pawn && s.file < n
  }

  ghost function PawnSquaresOnFile(board: Position, turn: Color, f: nat, n: nat): set<Square> {
    set s | s in board && board[s].role == Pawn && s.file == f && turn.Rank(s.rank) < n
  }

  lemma NextPawn(board: Position, turn: Color, f: nat, n: nat)
    requires f < 8 && n < 8
    ensures |PawnSquaresOnFile(board, turn, f, n + 1)|
            == |PawnSquaresOnFile(board, turn, f, n)| + if PawnsOf(board, turn)[f][n].Some? then 1 else 0
  {
    var s := Square(turn.Rank(n), f);
    var here := if PawnOn(board, s, turn).Some? then {s} else {};
    forall t | t in PawnSquaresOnFile(board, turn, f, n + 1) && t !in PawnSquaresOnFile(board, turn, f, n)
      ensures t == s
    {
    }
    Partition(PawnSquaresOnFile(board, turn, f, n + 1), PawnSquaresOnFile(board, turn, f, n), here);
  }

  lemma {:induction false} PawnsOnFile(board: Position, turn: Color, f: nat, n: nat)
    requires f < 8 && n <= 8
    ensures PawnsUpTo(PawnsOf(board, turn)[f], n) == |PawnSquaresOnFile(board, turn, f, n)|
  {
    hide PawnsOf;
    if n == 0 {
      NoPawnsOnFile(board, turn, f);
    } else {
      PawnsOnFile(board, turn, f, n - 1);
      NextPawn(board, turn, f, n - 1);
    }
  }

  lemma NoPawnsOnFile(board: Position, turn: Color, f: nat)
    ensures PawnSquaresOnFile(board, turn, f, 0) == {}
  {
  }

  lemma NextFilePawns(board: Position, turn: Color, n: nat)
    requires n < 8
    ensures |PawnSquares(board, n + 1)| == |PawnSquares(board, n)| + |PawnSquaresOnFile(board, turn, n, 8)|
  {
    Partition(PawnSquares(board, n + 1), PawnSquares(board, n), PawnSquaresOnFile(board, turn, n, 8));
  }

  lemma {:induction false} PawnsAreSquares(board: Position, turn: Color, n: nat)
    requires n <= 8
    ensures PawnsOn(KeyOf(PawnsOf(board, turn)), n) == |PawnSquares(board, n)|
  {
    hide PawnsOf, PawnSquaresOnFile, WordOf;
    if n == 0 {
      assert PawnSquares(board, 0) == {};
    } else {
      PawnsAreSquares(board, turn, n - 1);
      PawnsOnFile(board, turn, n - 1, 8);
      FileLength(PawnsOf(board, turn)[n - 1]);
      NextFilePawns(board, turn, n - 1);
    }
  }

  lemma AllSquares(board: Position, turn: Color)
    ensures |board| == |PiecesOf(board, turn, 5)| + |PiecesOf(board, turn.Other(), 5)| + |PawnSquares(board, 8)|
  {
    var (a, b, pawns) := (PiecesOf(board, turn, 5), PiecesOf(board, turn.Other(), 5), PawnSquares(board, 8));
    assert ROLES[..5] == ROLES;
    forall s | s in board ensures s in a + b || s in pawns {
      var role := board[s].role;
      assert role != Pawn ==> ROLES[RoleIndex(role)] == role;
    }
    assert Pawn !in ROLES;
    Partition(board.Keys, a + b, pawns);
    Partition(a + b, a, b);
    assert |board| == |board.Keys|;
  }

  /** The table has as many pieces as the board. */
  lemma PiecesOnBoard(board: Position, turn: Color)
    ensures Pieces(MaterialOf(SetupOf(board, turn))) == |board|
  {
    hide PawnsOf, CountsOf, Sum, PawnsOn, KeyOf, PiecesOf, PawnSquares;
    CountsAreSquares(board, turn, 5);
    CountsAreSquares(board, turn.Other(), 5);
    PawnsAreSquares(board, turn, 8);
    AllSquares(board, turn);
    assert CountsOf(board, turn)[..5] == CountsOf(board, turn);
    assert CountsOf(board, turn.Other())[..5] == CountsOf(board, turn.Other());
  }

  /** One king of each side, and at most eight pieces. */
  predicate IsEndgame(board: Position) {
    && |Places(board, Piece(King, White))| == |Places(board, Piece(King, Black))| == 1
    && PawnsInside(board) && |board| <= 8
  }

  lemma EndgameIsSetup(board: Position, turn: Color)
    requires IsEndgame(board)
    ensures IsSetup(SetupOf(board, turn))
  {
    hide CountsOf, Pieces;
    PiecesOnBoard(board, turn);
    assert CountsOf(board, turn)[0] == |Places(board, Piece(King, turn))| by { KingCount(board, turn); }
    assert CountsOf(board, turn.Other())[0] == |Places(board, Piece(King, turn.Other()))| by {
      KingCount(board, turn.Other());
    }
  }

  lemma KingCount(board: Position, c: Color)
    ensures CountsOf(board, c)[0] == |Places(board, Piece(King, c))|
  {
  }

  lemma MoveIsOnBoard(p: State, m: BoardMove)
    requires IsConversionMove(p, m)
    ensures m.from in p.board && m.to.OnBoard()
  {
  }

  /** The table of the position after a capture or promotion is simpler; a capture leaves
      one piece less on the board. */
  lemma MoveSimplifies(p: State, m: BoardMove)
    requires ValidState(p) && IsConversionMove(p, m) && IsEndgame(p.board)
    ensures var (t, t') := (TableOf(SetupOf(p.board, p.turn)), TableOf(SetupOf(Played(p, m), p.turn.Other())));
            && IsTable(t) && IsTable(t') && Simpler(t', t)
            && Pieces(t) == |p.board| && Pieces(t') == |Played(p, m)|
            && |Played(p, m)| == |p.board| - if Takes(p, m) || TakesEp(p, m) then 1 else 0
  {
    hide ValidState, IsConversionMove, IsEndgame, SetupOf, Successor, After, Conversions.Legal, IsSetup, IsTable;
    hide Simpler, Pieces, Played, Takes, TakesEp, TableOf, MaterialOf;
    MoveIsOnBoard(p, m);
    MoveIsConversion(p, m);
    EndgameIsSetup(p.board, p.turn);
    var (s, c) := (SetupOf(p.board, p.turn), ConversionOf(p, m));
    ConversionSimplifies(s, c);
    RoutedTable(s);
    RoutedTable(Successor(s, c));
    PiecesOnBoard(p.board, p.turn);
    PiecesOnBoard(Played(p, m), p.turn.Other());
    if c.IsCapture() {
      CaptureLosesPiece(s, c);
    } else {
      PromotionLosesPawn(s, c);
    }
  }

  /** The position after a quiet move belongs to the twin table. */
  lemma QuietMoveLeadsToTwin(p: State, from: Square, to: Square, s: State)
    requires ValidState(p) && IsQuietMove(p, from, to, s) && IsEndgame(p.board)
    ensures TableOf(SetupOf(s.board, s.turn)) == TwinTable(TableOf(SetupOf(p.board, p.turn))).0
  {
    hide ValidState, IsQuietMove, IsEndgame, IsQuiet, PawnsOf, CountsOf, TableOf, TwinTable, Passed, IsSetup;
    EndgameIsSetup(p.board, p.turn);
    QuietMoveOnBoard(p, from, to, s);
    QuietLeadsToTwin(SetupOf(p.board, p.turn), PawnsOf(s.board, p.turn));
  }
}

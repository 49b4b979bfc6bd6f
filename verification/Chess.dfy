/** Boards, quiet moves, and the states of a game without castling. */
module Chess {
  import opened Boards
  import opened Wrappers

  datatype Color = White | Black {
    function Other(): Color { if this == White then Black else White }

    /** A rank counted from this side's first rank. */
    function Rank(r: int): int { if this == White then r else 7 - r }

    function Forward(): int { if this == White then 1 else -1 }
  }

  datatype Role = Pawn | Knight | Bishop | Rook | Queen | King

  datatype Piece = Piece(role: Role, color: Color)

  type Position = b: map<Square, Piece> | forall s | s in b :: s.OnBoard()

  function Places(board: Position, pc: Piece): set<Square> {
    set s | s in board && board[s] == pc
  }

  function Ahead(s: Square, c: Color, n: int): Square {
    Square(s.rank + n * c.Forward(), s.file)
  }

  // ---------------------------------------------------------------------
  // Attacks.

  function Sign(x: int): int { if x > 0 then 1 else if x < 0 then -1 else 0 }

  function Size(x: int): nat { if x < 0 then -x else x }

  function Distance(a: Square, b: Square): nat {
    var dr, df := Size(b.rank - a.rank), Size(b.file - a.file);
    if dr < df then df else dr
  }

  /** The k-th square on the way from `a` to `b`. */
  function Along(a: Square, b: Square, k: nat): Square {
    Square(a.rank + k * Sign(b.rank - a.rank), a.file + k * Sign(b.file - a.file))
  }

  predicate OnLine(a: Square, b: Square) {
    a != b && (a.rank == b.rank || a.file == b.file)
  }

  predicate OnDiagonal(a: Square, b: Square) {
    a != b && Size(b.rank - a.rank) == Size(b.file - a.file)
  }

  predicate IsClear(board: Position, a: Square, b: Square) {
    forall k: nat | 0 < k < Distance(a, b) :: Along(a, b, k) !in board
  }

  /** Whether a piece other than a pawn attacks `b` from `a`. */
  predicate Reaches(role: Role, board: Position, a: Square, b: Square) {
    match role
    case Pawn => false
    case Knight => Size(b.rank - a.rank) * Size(b.file - a.file) == 2
    case King => Distance(a, b) == 1
    case Bishop => OnDiagonal(a, b) && IsClear(board, a, b)
    case Rook => OnLine(a, b) && IsClear(board, a, b)
    case Queen => (OnLine(a, b) || OnDiagonal(a, b)) && IsClear(board, a, b)
  }

  predicate PawnAttacks(c: Color, a: Square, b: Square) {
    b.rank == a.rank + c.Forward() && Size(b.file - a.file) == 1
  }

  predicate Attacks(board: Position, a: Square, b: Square)
    requires a in board
  {
    if board[a].role == Pawn then PawnAttacks(board[a].color, a, b) else Reaches(board[a].role, board, a, b)
  }

  /** The king of the side that is not to move is attacked. */
  predicate OppositeCheck(board: Position, turn: Color) {
    exists k, a | k in board && a in board ::
      board[k] == Piece(King, turn.Other()) && board[a].color == turn && Attacks(board, a, k)
  }

  // ---------------------------------------------------------------------
  // States.

  /** `ep` is the target of a legal EP capture. */
  datatype State = State(board: Position, turn: Color, ep: Option<Square>)

  function CapturedEp(board: Position, turn: Color, e: Square, from: Square): Position
    requires from in board && e.OnBoard()
  {
    var rest: Position := board - {from, Ahead(e, turn, -1)};
    rest[e := board[from]]
  }

  /** Some pawn can capture on `e` without leaving its king attacked. */
  predicate LegalEp(board: Position, turn: Color, e: Square)
    requires e.OnBoard()
  {
    exists from | from in board ::
      && board[from] == Piece(Pawn, turn) && PawnAttacks(turn, from, e)
      && !OppositeCheck(CapturedEp(board, turn, e, from), turn.Other())
  }

  /** An enemy pawn may just have passed `e`, and can be captured there. */
  predicate EpPossible(board: Position, turn: Color, e: Square) {
    && e.OnBoard() && e.rank == turn.Rank(5)
    && Ahead(e, turn, -1) in board && board[Ahead(e, turn, -1)] == Piece(Pawn, turn.Other())
    && e !in board && Ahead(e, turn, 1) !in board
    && LegalEp(board, turn, e)
  }

  predicate PawnsInside(board: Position) {
    forall s | s in board && board[s].role == Pawn :: s.rank != 0 && s.rank != 7
  }

  predicate ValidState(s: State) {
    && PawnsInside(s.board)
    && !OppositeCheck(s.board, s.turn)
    && (s.ep.Some? ==> EpPossible(s.board, s.turn, s.ep.value))
  }

  // ---------------------------------------------------------------------
  // Quiet moves.

  function Moved(board: Position, from: Square, to: Square): Position
    requires from in board && to.OnBoard()
  {
    var rest: Position := board - {from};
    rest[to := board[from]]
  }

  /** The EP state a double push over `mid` leaves. */
  function EpAfter(board: Position, turn: Color, mid: Square): Option<Square> {
    if EpPossible(board, turn, mid) then Some(mid) else None
  }

  /** A legal move without capture or promotion. */
  predicate IsQuietMove(p: State, from: Square, to: Square, s: State) {
    && from in p.board && to.OnBoard() && to !in p.board && p.board[from].color == p.turn
    && s.board == Moved(p.board, from, to) && s.turn == p.turn.Other()
    && !OppositeCheck(s.board, s.turn)
    && if p.board[from].role != Pawn then
         Reaches(p.board[from].role, p.board, from, to) && s.ep == None
       else if to == Ahead(from, p.turn, 1) then
         to.rank != p.turn.Rank(7) && s.ep == None
       else
         && from.rank == p.turn.Rank(1) && to == Ahead(from, p.turn, 2) && Ahead(from, p.turn, 1) !in p.board
         && s.ep == EpAfter(s.board, s.turn, Ahead(from, p.turn, 1))
  }

  ghost predicate IsPredecessor(s: State, p: State) {
    ValidState(p) && exists from, to :: IsQuietMove(p, from, to, s)
  }

  // ---------------------------------------------------------------------
  // Attacks are symmetric.

  lemma AlongIsSymmetric(a: Square, b: Square, k: nat)
    requires OnLine(a, b) || OnDiagonal(a, b)
    requires k <= Distance(a, b)
    ensures Distance(b, a) == Distance(a, b)
    ensures Along(b, a, Distance(a, b) - k) == Along(a, b, k)
    ensures 0 < k < Distance(a, b) ==> Along(a, b, k) != a && Along(a, b, k) != b
  {
  }

  /** A piece that reaches a square reaches back, on a board that differs only at the
      two squares. */
  lemma ReachesBack(role: Role, board: Position, board': Position, a: Square, b: Square)
    requires forall s | s != a && s != b :: s in board <==> s in board'
    ensures Reaches(role, board, a, b) ==> Reaches(role, board', b, a)
  {
    if (OnLine(a, b) || OnDiagonal(a, b)) && IsClear(board, a, b) {
      forall k: nat | 0 < k < Distance(b, a) ensures Along(b, a, k) !in board' {
        AlongIsSymmetric(a, b, Distance(a, b) - k);
      }
    }
  }

  // ---------------------------------------------------------------------
  // Attacks as walks over the board.

  datatype Direction = Direction(ranks: int, files: int)

  function Walk(s: Square, d: Direction, n: nat): Square {
    Square(s.rank + n * d.ranks, s.file + n * d.files)
  }

  const STRAIGHT: set<Direction> := {Direction(1, 0), Direction(-1, 0), Direction(0, 1), Direction(0, -1)}

  const OBLIQUE: set<Direction> := {Direction(1, 1), Direction(1, -1), Direction(-1, 1), Direction(-1, -1)}

  const JUMPS: set<Direction> := {
    Direction(1, 2), Direction(1, -2), Direction(-1, 2), Direction(-1, -2),
    Direction(2, 1), Direction(2, -1), Direction(-2, 1), Direction(-2, -1)}

  /** The directions a piece other than a pawn moves in. */
  function Directions(role: Role): set<Direction> {
    match role
    case Pawn => {}
    case Knight => JUMPS
    case Bishop => OBLIQUE
    case Rook => STRAIGHT
    case Queen => STRAIGHT + OBLIQUE
    case King => STRAIGHT + OBLIQUE
  }

  /** `b` is met walking from `a`, by a single step for knights and kings, before any
      other piece. */
  ghost predicate WalksTo(role: Role, board: Position, a: Square, b: Square, d: Direction, n: nat) {
    && d in Directions(role) && n > 0 && (role == Knight || role == King ==> n == 1)
    && b == Walk(a, d, n)
    && forall k: nat | 0 < k < n :: Walk(a, d, k) !in board
  }

  lemma WalkIsLine(a: Square, d: Direction, n: nat)
    requires d in STRAIGHT + OBLIQUE && n > 0
    ensures var b := Walk(a, d, n);
            && Distance(a, b) == n && (forall k: nat :: Along(a, b, k) == Walk(a, d, k))
            && (OnLine(a, b) <==> d in STRAIGHT) && (OnDiagonal(a, b) <==> d in OBLIQUE)
  {
    var b := Walk(a, d, n);
    assert Sign(b.rank - a.rank) == d.ranks && Sign(b.file - a.file) == d.files;
  }

  lemma LineIsWalk(a: Square, b: Square) returns (d: Direction)
    requires OnLine(a, b) || OnDiagonal(a, b)
    ensures d in (if OnLine(a, b) then STRAIGHT else OBLIQUE)
    ensures Distance(a, b) > 0 && b == Walk(a, d, Distance(a, b))
  {
    d := Direction(Sign(b.rank - a.rank), Sign(b.file - a.file));
  }

  lemma ReachedIsWalk(role: Role, board: Position, a: Square, b: Square) returns (d: Direction, n: nat)
    requires Reaches(role, board, a, b)
    ensures WalksTo(role, board, a, b, d, n)
  {
    if role == Knight || role == King {
      d, n := Direction(b.rank - a.rank, b.file - a.file), 1;
    } else {
      d := LineIsWalk(a, b);
      n := Distance(a, b);
      WalkIsLine(a, d, n);
    }
  }

  lemma WalkReaches(role: Role, board: Position, a: Square, b: Square, d: Direction, n: nat)
    requires WalksTo(role, board, a, b, d, n)
    ensures Reaches(role, board, a, b)
  {
    hide Along;
    if role != Knight {
      WalkIsLine(a, d, n);
    }
  }

  /** A piece attacks exactly the squares it walks to. */
  lemma ReachesAreWalks(role: Role, board: Position, a: Square, b: Square)
    ensures Reaches(role, board, a, b) <==> exists d, n: nat :: WalksTo(role, board, a, b, d, n)
  {
    hide Reaches, WalksTo;
    if Reaches(role, board, a, b) {
      var d, n := ReachedIsWalk(role, board, a, b);
    }
    if d, n: nat :| WalksTo(role, board, a, b, d, n) {
      WalkReaches(role, board, a, b, d, n);
    }
  }

  /** White pawns attack the two squares diagonally above them, black ones those below. */
  lemma PawnAttacksAre(board: Position, a: Square, b: Square)
    requires a in board && board[a].role == Pawn
    ensures Attacks(board, a, b) <==>
              && b.rank == a.rank + (if board[a].color == White then 1 else -1)
              && (b.file == a.file - 1 || b.file == a.file + 1)
  {
  }

  /** Whether a piece of `turn` on `a` gives check on `k`. */
  ghost predicate GivesCheck(board: Position, turn: Color, a: Square, k: Square)
    requires a in board
  {
    if board[a].role == Pawn then
      && k.rank == a.rank + (if turn == White then 1 else -1)
      && (k.file == a.file - 1 || k.file == a.file + 1)
    else
      exists d, n: nat :: WalksTo(board[a].role, board, a, k, d, n)
  }

  /** The side not to move is in check exactly by a pawn diagonally before its king, or by
      a piece that walks there. */
  lemma CheckIs(board: Position, turn: Color)
    ensures OppositeCheck(board, turn) <==> exists k, a | k in board && a in board ::
              board[k] == Piece(King, turn.Other()) && board[a].color == turn && GivesCheck(board, turn, a, k)
  {
    hide Reaches, WalksTo;
    forall k, a | k in board && a in board && board[a].color == turn
      ensures Attacks(board, a, k) <==> GivesCheck(board, turn, a, k)
    {
      if board[a].role == Pawn {
        PawnAttacksAre(board, a, k);
      } else {
        ReachesAreWalks(board[a].role, board, a, k);
      }
    }
  }

  /** The capturers of a legal en passant capture attack its target. */
  lemma EpCapturersAttack(board: Position, turn: Color, e: Square)
    requires e.OnBoard()
    ensures LegalEp(board, turn, e) <==> exists from | from in board ::
              && board[from] == Piece(Pawn, turn) && GivesCheck(board, turn, from, e)
              && !OppositeCheck(CapturedEp(board, turn, e, from), turn.Other())
  {
    hide OppositeCheck, CapturedEp;
    forall from | from in board && board[from] == Piece(Pawn, turn)
      ensures PawnAttacks(turn, from, e) <==> GivesCheck(board, turn, from, e)
    {
      PawnAttacksAre(board, from, e);
    }
  }
}

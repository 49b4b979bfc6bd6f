/** Validation of decoded positions, with the reason of a rejection. */
module Positions {
  import opened Boards
  import opened Chess
  import opened Propagation
  import opened ReverseMoves
  import opened Wrappers

  datatype SetupError = NoGeometricCapturer

  /** The pawn that may have passed the square stands behind it, and the squares it passed
      are empty. */
  predicate ValidEpSquare(board: Position, turn: Color, ep: Option<Square>) {
    ep.Some? ==>
      var (e, sixth, fifth, seventh) := (ep.value, turn.Rank(5), turn.Rank(4), turn.Rank(6));
      && e.rank == sixth
      && Square(fifth, e.file) in board && board[Square(fifth, e.file)] == Piece(Pawn, turn.Other())
      && e !in board && Square(seventh, e.file) !in board
  }

  /** The checks of a decoded setup in their order. */
  function PositionFromSetup(board: Position, turn: Color, ep: Option<Square>)
    : (r: Result<Result<State, Rejection>, SetupError>)
    requires ep.Some? ==> ep.value.OnBoard()
  {
    if Chess.OppositeCheck(board, turn) then Success(Failure(Rejection.OppositeCheck))
    else if ep.Some? && !HasCapturer(board, turn, ep.value) then Failure(NoGeometricCapturer)
    else if !ValidEpSquare(board, turn, ep) then Success(Failure(EpSquaresOccupied))
    else if ep.Some? && !LegalEp(board, turn, ep.value) then Success(Failure(IllegalEpCapture))
    else Success(Success(State(board, turn, ep)))
  }

  lemma LegalHasCapturer(board: Position, turn: Color, e: Square)
    requires e.OnBoard() && LegalEp(board, turn, e)
    ensures HasCapturer(board, turn, e)
  {
    hide Chess.OppositeCheck;
    var from :| from in board && board[from] == Piece(Pawn, turn) && PawnAttacks(turn, from, e);
  }

  /** Among pawns inside the board exactly the valid states pass. A side to move that could
      take the king is rejected first; then an en passant square that no double push can
      have left, and last one where every capture would leave the own king attacked. */
  lemma SetupIsChecked(board: Position, turn: Color, ep: Option<Square>)
    requires PawnsInside(board) && (ep.Some? ==> ep.value.OnBoard())
    ensures var r := PositionFromSetup(board, turn, ep);
            && (ValidState(State(board, turn, ep)) <==> r == Success(Success(State(board, turn, ep))))
            && (r == Success(Failure(Rejection.OppositeCheck)) <==>
                  exists k, a | k in board && a in board ::
                    board[k] == Piece(King, turn.Other()) && board[a].color == turn && GivesCheck(board, turn, a, k))
            && (r == Success(Failure(IllegalEpCapture)) ==>
                  ep.Some? && HasCapturer(board, turn, ep.value) && !LegalEp(board, turn, ep.value))
  {
    hide Chess.OppositeCheck, HasCapturer, LegalEp, PawnsInside, GivesCheck;
    CheckIs(board, turn);
    if ep.Some? && LegalEp(board, turn, ep.value) {
      LegalHasCapturer(board, turn, ep.value);
    }
    if ep.Some? {
      EpSquareIs(board, turn, ep.value);
    }
  }

  lemma EpSquareIs(board: Position, turn: Color, e: Square)
    requires e.OnBoard()
    ensures EpPossible(board, turn, e) <==> ValidEpSquare(board, turn, Some(e)) && LegalEp(board, turn, e)
  {
    hide LegalEp;
  }
}

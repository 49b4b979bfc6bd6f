/** The generators of quiet predecessors. */
module ReverseMoves {
  import opened Boards
  import opened Chess
  import opened KingPairs
  import opened Wrappers

  /** The board before the last move, with its piece back on its origin. */
  function Unmoved(board: Position, from: Square, to: Square): Position
    requires to in board && from.OnBoard()
  {
    Moved(board, to, from)
  }

  /** A move that may have led to the state: any quiet move if nothing can be captured
      en passant, otherwise only the double push that allows the capture. */
  predicate IsUnmove(s: State, from: Square, to: Square) {
    var us := s.turn.Other();
    && to in s.board && s.board[to].color == us && from.OnBoard() && from !in s.board
    && match s.ep
       case Some(e) =>
         s.board[to].role == Pawn && to == Ahead(e, us, 1) && from == Ahead(e, us, -1) && e !in s.board
       case None =>
         if s.board[to].role != Pawn then Reaches(s.board[to].role, s.board, to, from)
         else
           || from == Ahead(to, us, -1)
           || (to.rank == us.Rank(3) && from == Ahead(to, us, -2) && Ahead(to, us, -1) !in s.board
               && !LegalEp(s.board, s.turn, Ahead(to, us, -1)))
  }

  predicate Precedes(s: State, from: Square, to: Square, p: State) {
    IsUnmove(s, from, to) && p.turn == s.turn.Other() && p.board == Unmoved(s.board, from, to) && ValidState(p)
  }

  lemma MoveIsUnmove(s: State, p: State, from: Square, to: Square)
    requires ValidState(s) && ValidState(p) && IsQuietMove(p, from, to, s)
    ensures Precedes(s, from, to, p)
  {
    assert Unmoved(s.board, from, to) == p.board;
    ReachesBack(p.board[from].role, p.board, s.board, from, to);
  }

  lemma UnmoveIsMove(s: State, p: State, from: Square, to: Square)
    requires ValidState(s) && Precedes(s, from, to, p)
    ensures IsQuietMove(p, from, to, s)
  {
    assert s.board == Moved(p.board, from, to);
    ReachesBack(s.board[to].role, s.board, p.board, to, from);
  }

  /** The moves taken back are exactly the quiet moves into the state. */
  lemma UnmovesAreMoves(s: State, p: State)
    requires ValidState(s)
    ensures IsPredecessor(s, p) <==> exists from, to :: Precedes(s, from, to, p)
  {
    if IsPredecessor(s, p) {
      var from, to :| IsQuietMove(p, from, to, s);
      MoveIsUnmove(s, p, from, to);
    }
    if from, to :| Precedes(s, from, to, p) {
      UnmoveIsMove(s, p, from, to);
    }
  }

  /** A predecessor's board tells which move led to the state. */
  lemma UnmoveIsUnique(s: State, p: State, from: Square, to: Square, from': Square, to': Square)
    requires Precedes(s, from, to, p) && Precedes(s, from', to', p)
    ensures from == from' && to == to'
  {
    assert from in p.board && from !in s.board;
    assert to in s.board && to !in p.board;
  }

  // ---------------------------------------------------------------------
  // The states of one board.

  predicate IsStateOf(board: Position, turn: Color, p: State) {
    p.board == board && p.turn == turn && ValidState(p)
  }

  /** The EP file is one of the first `f`. */
  predicate EpBelow(p: State, f: int) {
    p.ep.Some? ==> p.ep.value.file < f
  }

  ghost predicate EmittedStates(out: seq<State>, board: Position, turn: Color, f: int) {
    forall p :: multiset(out)[p] == if IsStateOf(board, turn, p) && EpBelow(p, f) then 1 else 0
  }

  predicate HasCapturer(board: Position, turn: Color, e: Square) {
    exists from | from in board :: board[from] == Piece(Pawn, turn) && PawnAttacks(turn, from, e)
  }

  /** All valid EP states of a board, each once. */
  method EmitPredecessors(board: Position, turn: Color) returns (out: seq<State>)
    ensures forall p :: multiset(out)[p] == if IsStateOf(board, turn, p) then 1 else 0
  {
    hide OppositeCheck, LegalEp, PawnsInside;
    if !PawnsInside(board) || OppositeCheck(board, turn) {
      return [];
    }
    out := [State(board, turn, None)];
    FirstState(board, turn, out);
    for f := 0 to 8
      invariant EmittedStates(out, board, turn, f)
    {
      var inactive := turn.Other();
      var pawn, ep, start := Square(inactive.Rank(3), f), Square(inactive.Rank(2), f), Square(inactive.Rank(1), f);
      var possible := pawn in board && board[pawn] == Piece(Pawn, inactive)
                      && ep !in board && start !in board && HasCapturer(board, turn, ep) && LegalEp(board, turn, ep);
      PossibleOnFile(board, turn, f);
      NextFile(out, board, turn, f);
      if possible {
        out := out + [State(board, turn, Some(ep))];
      }
    }
    forall p: State | IsStateOf(board, turn, p) ensures EpBelow(p, 8) {
    }
  }

  lemma FirstState(board: Position, turn: Color, out: seq<State>)
    requires out == [State(board, turn, None)] && PawnsInside(board) && !OppositeCheck(board, turn)
    ensures EmittedStates(out, board, turn, 0)
  {
    forall p: State ensures multiset(out)[p] == if IsStateOf(board, turn, p) && EpBelow(p, 0) then 1 else 0 {
      if p.board == board && p.turn == turn && p.ep.None? {
        assert p == out[0];
      }
    }
  }

  lemma PossibleOnFile(board: Position, turn: Color, f: int)
    requires 0 <= f < 8
    ensures var inactive := turn.Other();
            var pawn, ep, start := Square(inactive.Rank(3), f), Square(inactive.Rank(2), f),
                                   Square(inactive.Rank(1), f);
            EpPossible(board, turn, ep) <==>
              pawn in board && board[pawn] == Piece(Pawn, inactive) && ep !in board && start !in board
              && HasCapturer(board, turn, ep) && LegalEp(board, turn, ep)
  {
    var inactive := turn.Other();
    var ep := Square(inactive.Rank(2), f);
    assert Ahead(ep, turn, -1) == Square(inactive.Rank(3), f) && Ahead(ep, turn, 1) == Square(inactive.Rank(1), f);
    if LegalEp(board, turn, ep) {
      var from :| from in board && board[from] == Piece(Pawn, turn) && PawnAttacks(turn, from, ep)
                  && !OppositeCheck(CapturedEp(board, turn, ep, from), turn.Other());
      assert HasCapturer(board, turn, ep);
    }
  }

  /** The only further state with its EP file next. */
  lemma NextFile(out: seq<State>, board: Position, turn: Color, f: int)
    requires EmittedStates(out, board, turn, f) && 0 <= f < 8 && PawnsInside(board) && !OppositeCheck(board, turn)
    ensures var ep := Square(turn.Other().Rank(2), f);
            var next := if EpPossible(board, turn, ep) then out + [State(board, turn, Some(ep))] else out;
            EmittedStates(next, board, turn, f + 1)
  {
    hide EpPossible, OppositeCheck, PawnsInside;
    var ep := Square(turn.Other().Rank(2), f);
    var next := State(board, turn, Some(ep));
    forall p: State
      ensures IsStateOf(board, turn, p) && EpBelow(p, f + 1)
              <==> (IsStateOf(board, turn, p) && EpBelow(p, f)) || (p == next && EpPossible(board, turn, ep))
    {
      if IsStateOf(board, turn, p) && p.ep.Some? && p.ep.value.file == f {
        EpRank(board, turn, p.ep.value);
      }
    }
  }

  lemma EpRank(board: Position, turn: Color, e: Square)
    requires EpPossible(board, turn, e)
    ensures e.rank == turn.Other().Rank(2)
  {
  }

  // ---------------------------------------------------------------------
  // The moves of one state.

  type Move = (Square, Square)

  predicate HasMove(s: State, moves: set<Move>, p: State) {
    exists m | m in moves :: Precedes(s, m.0, m.1, p)
  }

  /** Exactly the predecessors by the given moves, each once. */
  ghost predicate Emitted(out: seq<State>, s: State, moves: set<Move>) {
    forall p :: multiset(out)[p] == if HasMove(s, moves, p) then 1 else 0
  }

  /** Takes back one move. */
  method Emit(out: seq<State>, s: State, from: Square, to: Square, ghost moves: set<Move>) returns (more: seq<State>)
    requires Emitted(out, s, moves) && IsUnmove(s, from, to) && (from, to) !in moves
    ensures Emitted(more, s, moves + {(from, to)})
  {
    hide Precedes, ValidState;
    var states := EmitPredecessors(Unmoved(s.board, from, to), s.turn.Other());
    more := out + states;
    forall p: State ensures multiset(more)[p] == if HasMove(s, moves + {(from, to)}, p) then 1 else 0 {
      OneMove(s, from, to, moves, p);
    }
  }

  lemma OneMove(s: State, from: Square, to: Square, moves: set<Move>, p: State)
    requires IsUnmove(s, from, to) && (from, to) !in moves
    ensures IsStateOf(Unmoved(s.board, from, to), s.turn.Other(), p) <==> Precedes(s, from, to, p)
    ensures HasMove(s, moves + {(from, to)}, p) <==> HasMove(s, moves, p) || Precedes(s, from, to, p)
    ensures !(HasMove(s, moves, p) && Precedes(s, from, to, p))
  {
    if HasMove(s, moves, p) {
      var m :| m in moves && Precedes(s, m.0, m.1, p);
      assert m in moves + {(from, to)};
      if Precedes(s, from, to, p) {
        UnmoveIsUnique(s, p, m.0, m.1, from, to);
      }
    }
    assert (from, to) in moves + {(from, to)};
    if HasMove(s, moves + {(from, to)}, p) {
      var m :| m in moves + {(from, to)} && Precedes(s, m.0, m.1, p);
    }
  }

  /** Moves that do not lead to the state add nothing. */
  lemma OtherMoves(out: seq<State>, s: State, moves: set<Move>, all: set<Move>)
    requires Emitted(out, s, moves) && moves <= all
    requires forall m | m in all - moves :: !IsUnmove(s, m.0, m.1)
    ensures Emitted(out, s, all)
  {
    forall p ensures HasMove(s, all, p) <==> HasMove(s, moves, p) {
      if HasMove(s, all, p) {
        var m :| m in all && Precedes(s, m.0, m.1, p);
        assert m in moves;
      }
      if HasMove(s, moves, p) {
        var m :| m in moves && Precedes(s, m.0, m.1, p);
        assert m in all;
      }
    }
  }

  ghost function MovesTo(i: nat): set<Move>
    requires i <= 64
  {
    set t: nat, f: nat | t < i && f < 64 :: (At(f), At(t))
  }

  ghost function MovesFrom(i: nat, j: nat): set<Move>
    requires i < 64 && j <= 64
  {
    MovesTo(i) + set f: nat | f < j :: (At(f), At(i))
  }

  lemma NextFrom(i: nat, j: nat)
    requires i < 64 && j < 64
    ensures (At(j), At(i)) !in MovesFrom(i, j)
    ensures MovesFrom(i, j + 1) == MovesFrom(i, j) + {(At(j), At(i))}
  {
    forall k: nat ensures (At(k) == At(i) ==> k == i) && (At(k) == At(j) ==> k == j) {
      AtIsInjective(k, i);
      AtIsInjective(k, j);
    }
  }

  lemma AtIsInjective(i: nat, j: nat)
    ensures At(i) == At(j) ==> i == j
  {
    assert i == 8 * (i / 8) + i % 8 && j == 8 * (j / 8) + j % 8;
  }

  lemma NextTo(i: nat)
    requires i < 64
    ensures MovesFrom(i, 0) == MovesTo(i) && MovesFrom(i, 64) == MovesTo(i + 1)
  {
    forall m ensures m in MovesFrom(i, 64) <==> m in MovesTo(i + 1) {
      if m in MovesTo(i + 1) {
        var t: nat, f: nat :| t < i + 1 && f < 64 && m == (At(f), At(t));
        assert t < i || m in set f: nat | f < 64 :: (At(f), At(i));
      }
    }
  }

  lemma NotThere(i: nat, from: Square)
    requires i < 64
    ensures (from, At(i)) !in MovesTo(i)
  {
    forall t: nat ensures At(t) == At(i) ==> t == i {
      AtIsInjective(t, i);
    }
  }

  lemma InRow(i: nat, m: Move)
    requires i < 64 && m in MovesTo(i + 1)
    ensures m in MovesTo(i) || m.1 == At(i)
  {
  }

  /** Takes back the moves of a piece from all squares it can have come from. */
  method PieceUnmoves(out: seq<State>, s: State, i: nat) returns (more: seq<State>)
    requires i < 64 && Emitted(out, s, MovesTo(i)) && s.ep.None?
    requires At(i) in s.board && s.board[At(i)].color == s.turn.Other() && s.board[At(i)].role != Pawn
    ensures Emitted(more, s, MovesTo(i + 1))
  {
    hide Emitted, Reaches, MovesTo, MovesFrom, LegalEp, OppositeCheck;
    more := out;
    NextTo(i);
    for j := 0 to 64
      invariant Emitted(more, s, MovesFrom(i, j))
    {
      NextFrom(i, j);
      if At(j) !in s.board && Reaches(s.board[At(i)].role, s.board, At(i), At(j)) {
        more := Emit(more, s, At(j), At(i), MovesFrom(i, j));
      } else {
        OtherMoves(more, s, MovesFrom(i, j), MovesFrom(i, j + 1));
      }
    }
  }

  /** Takes back single pushes, and double pushes that allow no capture. */
  method PawnUnmoves(out: seq<State>, s: State, i: nat) returns (more: seq<State>)
    requires i < 64 && Emitted(out, s, MovesTo(i)) && s.ep.None?
    requires At(i) in s.board && s.board[At(i)].color == s.turn.Other() && s.board[At(i)].role == Pawn
    ensures Emitted(more, s, MovesTo(i + 1))
  {
    hide Emitted, LegalEp, MovesTo, At;
    more := out;
    var us, to := s.turn.Other(), At(i);
    var from, start := Ahead(to, us, -1), Ahead(to, us, -2);
    ghost var moves := MovesTo(i);
    NotThere(i, from);
    NotThere(i, start);
    if from.OnBoard() && from !in s.board {
      more := Emit(more, s, from, to, moves);
      moves := moves + {(from, to)};
      if to.rank == us.Rank(3) && start !in s.board && !LegalEp(s.board, s.turn, from) {
        more := Emit(more, s, start, to, moves);
        moves := moves + {(start, to)};
      }
    }
    RowCovers(i, moves, s);
    OtherMoves(more, s, moves, MovesTo(i + 1));
  }

  lemma RowCovers(i: nat, moves: set<Move>, s: State)
    requires i < 64 && MovesTo(i) <= moves
    requires forall m | m in moves - MovesTo(i) :: m.0.OnBoard() && m.1 == At(i)
    requires forall from | IsUnmove(s, from, At(i)) :: (from, At(i)) in moves
    ensures moves <= MovesTo(i + 1)
    ensures forall m | m in MovesTo(i + 1) - moves :: !IsUnmove(s, m.0, m.1)
  {
    forall m | m in moves ensures m in MovesTo(i + 1) {
      if m in MovesTo(i) {
        var t: nat, f: nat :| t < i && f < 64 && m == (At(f), At(t));
      } else {
        assert m == (At(Number(m.0)), At(i));
      }
    }
    forall m | m in MovesTo(i + 1) - moves ensures !IsUnmove(s, m.0, m.1) {
      InRow(i, m);
    }
  }

  lemma AllMovesEmitted(out: seq<State>, s: State, moves: set<Move>)
    requires ValidState(s) && Emitted(out, s, moves)
    requires forall from, to | IsUnmove(s, from, to) :: (from, to) in moves
    ensures forall p :: multiset(out)[p] == if IsPredecessor(s, p) then 1 else 0
  {
    forall p ensures HasMove(s, moves, p) <==> IsPredecessor(s, p) {
      UnmovesAreMoves(s, p);
      if from, to :| Precedes(s, from, to, p) {
        assert (from, to) in moves;
        assert HasMove(s, moves, p) by {
          var m := (from, to);
          assert m in moves && Precedes(s, m.0, m.1, p);
        }
      }
    }
  }

  lemma AllSquares(from: Square, to: Square)
    requires from.OnBoard() && to.OnBoard()
    ensures (from, to) in MovesTo(64)
  {
    assert (from, to) == (At(Number(from)), At(Number(to)));
  }

  /** Every valid state from which a legal quiet move leads here, each exactly once. */
  method QuietUnmoves(s: State) returns (out: seq<State>)
    requires ValidState(s)
    ensures forall p :: multiset(out)[p] == if IsPredecessor(s, p) then 1 else 0
  {
    hide LegalEp, OppositeCheck, PawnsInside, Emitted, Reaches, IsPredecessor;
    out := [];
    NothingEmitted(s);
    var us := s.turn.Other();
    if s.ep.Some? {
      var e := s.ep.value;
      var to, from := Ahead(e, us, 1), Ahead(e, us, -1);
      ghost var moves := {};
      if to in s.board && s.board[to] == Piece(Pawn, us) && from !in s.board && e !in s.board {
        out := Emit(out, s, from, to, moves);
        moves := moves + {(from, to)};
      }
      AllMovesEmitted(out, s, moves);
      return;
    }
    for i := 0 to 64
      invariant Emitted(out, s, MovesTo(i))
    {
      if At(i) in s.board && s.board[At(i)].color == us {
        if s.board[At(i)].role != Pawn {
          out := PieceUnmoves(out, s, i);
        } else {
          out := PawnUnmoves(out, s, i);
        }
      } else {
        NoMovesTo(i, s);
        OtherMoves(out, s, MovesTo(i), MovesTo(i + 1));
      }
    }
    forall from, to | IsUnmove(s, from, to) ensures (from, to) in MovesTo(64) {
      AllSquares(from, to);
    }
    AllMovesEmitted(out, s, MovesTo(64));
  }

  lemma NothingEmitted(s: State)
    ensures Emitted([], s, {}) && MovesTo(0) == {}
  {
  }

  lemma NoMovesTo(i: nat, s: State)
    requires i < 64 && !(At(i) in s.board && s.board[At(i)].color == s.turn.Other())
    ensures MovesTo(i) <= MovesTo(i + 1)
    ensures forall m | m in MovesTo(i + 1) - MovesTo(i) :: !IsUnmove(s, m.0, m.1)
  {
    RowCovers(i, MovesTo(i), s);
  }

  // ---------------------------------------------------------------------
  // Boards without pawns.

  predicate NoPawns(board: Position) {
    forall s | s in board :: board[s].role != Pawn
  }

  lemma PawnlessStates(board: Position, turn: Color, p: State)
    requires NoPawns(board)
    ensures IsStateOf(board, turn, p) <==> p == State(board, turn, None) && !OppositeCheck(board, turn)
  {
    hide OppositeCheck, LegalEp;
  }

  method EmitPawnless(out: seq<State>, s: State, from: Square, to: Square, ghost moves: set<Move>)
    returns (more: seq<State>)
    requires NoPawns(s.board) && Emitted(out, s, moves) && IsUnmove(s, from, to) && (from, to) !in moves
    ensures Emitted(more, s, moves + {(from, to)})
  {
    hide Precedes, IsStateOf, OppositeCheck;
    var board := Unmoved(s.board, from, to);
    more := if OppositeCheck(board, s.turn.Other()) then out else out + [State(board, s.turn.Other(), None)];
    forall p: State ensures multiset(more)[p] == if HasMove(s, moves + {(from, to)}, p) then 1 else 0 {
      OneMove(s, from, to, moves, p);
      PawnlessStates(board, s.turn.Other(), p);
    }
  }

  method PawnlessPieceUnmoves(out: seq<State>, s: State, i: nat) returns (more: seq<State>)
    requires NoPawns(s.board) && i < 64 && Emitted(out, s, MovesTo(i)) && s.ep.None?
    requires At(i) in s.board && s.board[At(i)].color == s.turn.Other()
    ensures Emitted(more, s, MovesTo(i + 1))
  {
    hide Emitted, Reaches, MovesTo, MovesFrom, LegalEp, OppositeCheck;
    more := out;
    NextTo(i);
    for j := 0 to 64
      invariant Emitted(more, s, MovesFrom(i, j))
    {
      NextFrom(i, j);
      if At(j) !in s.board && Reaches(s.board[At(i)].role, s.board, At(i), At(j)) {
        more := EmitPawnless(more, s, At(j), At(i), MovesFrom(i, j));
      } else {
        OtherMoves(more, s, MovesFrom(i, j), MovesFrom(i, j + 1));
      }
    }
  }

  /** The generator for tables without pawns. */
  method PawnlessQuietUnmoves(s: State) returns (out: seq<State>)
    requires ValidState(s) && NoPawns(s.board)
    ensures forall p :: multiset(out)[p] == if IsPredecessor(s, p) then 1 else 0
  {
    hide LegalEp, OppositeCheck, PawnsInside, Emitted, Reaches, IsPredecessor;
    PawnlessStates(s.board, s.turn, s);
    out := [];
    NothingEmitted(s);
    for i := 0 to 64
      invariant Emitted(out, s, MovesTo(i))
    {
      if At(i) in s.board && s.board[At(i)].color == s.turn.Other() {
        out := PawnlessPieceUnmoves(out, s, i);
      } else {
        NoMovesTo(i, s);
        OtherMoves(out, s, MovesTo(i), MovesTo(i + 1));
      }
    }
    forall from, to | IsUnmove(s, from, to) ensures (from, to) in MovesTo(64) {
      AllSquares(from, to);
    }
    AllMovesEmitted(out, s, MovesTo(64));
  }
}

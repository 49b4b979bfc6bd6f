/** The boards of a pawnless table pair: the explicit instance of `Board` given by the
    rules of the game. Its reflections carry quiet moves along. */
module PawnlessBoards {
  import opened Boards
  import opened Chess
  import opened KingPairs
  import ReverseMoves
  import opened Symmetry
  import opened Wrappers

  // ---------------------------------------------------------------------
  // The symmetries of the board.

  /** A transposition or none, and then a flip. */
  datatype Isometry = Isometry(transpose: bool, flip: Flip) {
    function Send(s: Square): Square {
      (if transpose then s.Transposed() else s).Flipped(flip)
    }

    function Back(): Isometry {
      if transpose then Isometry(true, flip.Swapped()) else this
    }
  }

  lemma SendBack(g: Isometry, s: Square)
    ensures g.Back().Send(g.Send(s)) == s && g.Send(g.Back().Send(s)) == s && g.Back().Back() == g
    ensures g.Send(s).OnBoard() <==> s.OnBoard()
  {
  }

  lemma SendIsInjective(g: Isometry, s: Square, t: Square)
    ensures g.Send(s) == g.Send(t) <==> s == t
  {
    hide Isometry.Send, Isometry.Back;
    SendBack(g, s);
    SendBack(g, t);
  }

  function Sent(g: Isometry, squares: set<Square>): (sent: set<Square>)
    ensures forall s :: g.Send(s) in sent <==> s in squares
    ensures forall t | t in sent :: g.Back().Send(t) in squares && (g.Back().Send(t).OnBoard() ==> t.OnBoard())
  {
    hide Isometry.Send, Isometry.Back, Square.OnBoard;
    var sent := set s | s in squares :: g.Send(s);
    forall s ensures g.Send(s) in sent <==> s in squares {
      forall t ensures g.Send(t) == g.Send(s) <==> t == s {
        SendIsInjective(g, t, s);
      }
    }
    forall t | t in sent ensures g.Back().Send(t) in squares && (g.Back().Send(t).OnBoard() ==> t.OnBoard()) {
      var s :| s in squares && g.Send(s) == t;
      SendBack(g, s);
    }
    sent
  }

  /** The board with every piece sent along. */
  function Image(g: Isometry, x: Position): (y: Position)
    ensures forall s :: g.Send(s) in y <==> s in x
    ensures forall s | s in x :: y[g.Send(s)] == x[s]
  {
    hide Isometry.Send, Isometry.Back, Square.OnBoard;
    forall s ensures g.Back().Send(g.Send(s)) == s {
      SendBack(g, s);
    }
    map t | t in Sent(g, x.Keys) :: x[g.Back().Send(t)]
  }

  lemma SentBack(g: Isometry, t: Square) returns (s: Square)
    ensures g.Send(s) == t && (s.OnBoard() <==> t.OnBoard())
  {
    s := g.Back().Send(t);
    SendBack(g, t);
    SendBack(g, s);
  }

  /** A board is known by what stands where. */
  lemma SameBoard(g: Isometry, x: Position, y: Position)
    requires forall s :: g.Send(s) in y <==> s in x
    requires forall s | s in x :: y[g.Send(s)] == x[s]
    ensures y == Image(g, x)
  {
    hide Isometry.Send, Isometry.Back, Image, Square.OnBoard;
    forall t ensures t in y <==> t in Image(g, x)
      ensures t in y ==> y[t] == Image(g, x)[t]
    {
      var s := SentBack(g, t);
      assert g.Send(s) == t;
    }
  }

  lemma ImageTwice(g: Isometry, h: Isometry, k: Isometry, x: Position)
    requires forall s: Square :: g.Send(h.Send(s)) == k.Send(s)
    ensures Image(g, Image(h, x)) == Image(k, x)
  {
    hide Isometry.Send, Isometry.Back, Image, Square.OnBoard;
    SameBoard(k, x, Image(g, Image(h, x)));
  }

  lemma NothingSent(s: Square)
    ensures Isometry(false, Flip(false, false)).Send(s) == s
  {
  }

  lemma ImageBack(g: Isometry, x: Position)
    ensures Image(g.Back(), Image(g, x)) == x
  {
    hide Isometry.Send, Isometry.Back, Image, Square.OnBoard;
    var id := Isometry(false, Flip(false, false));
    forall s: Square ensures g.Back().Send(g.Send(s)) == s && id.Send(s) == s {
      SendBack(g, s);
      NothingSent(s);
    }
    ImageTwice(g.Back(), g, id, x);
    SameBoard(id, x, x);
  }

  // ---------------------------------------------------------------------
  // Attacks and moves are carried along.

  lemma SendsSteps(g: Isometry, a: Square, b: Square)
    ensures var (dr, df) := (Size(b.rank - a.rank), Size(b.file - a.file));
            var (dr', df') := (Size(g.Send(b).rank - g.Send(a).rank), Size(g.Send(b).file - g.Send(a).file));
            if g.transpose then dr' == df && df' == dr else dr' == dr && df' == df
  {
  }

  lemma OppositeSteps(d: int, k: nat)
    ensures Sign(-d) == -Sign(d) && k * Sign(-d) == -(k * Sign(d))
  {
  }

  lemma SendsAlong(g: Isometry, a: Square, b: Square, k: nat)
    ensures Along(g.Send(a), g.Send(b), k) == g.Send(Along(a, b, k))
  {
    OppositeSteps(b.rank - a.rank, k);
    OppositeSteps(b.file - a.file, k);
  }

  lemma SendsLines(g: Isometry, a: Square, b: Square)
    ensures Distance(g.Send(a), g.Send(b)) == Distance(a, b)
    ensures Size(g.Send(b).rank - g.Send(a).rank) * Size(g.Send(b).file - g.Send(a).file)
         == Size(b.rank - a.rank) * Size(b.file - a.file)
    ensures OnLine(g.Send(a), g.Send(b)) <==> OnLine(a, b)
    ensures Chess.OnDiagonal(g.Send(a), g.Send(b)) <==> Chess.OnDiagonal(a, b)
  {
    hide Isometry.Send;
    SendsSteps(g, a, b);
    SendBack(g, a);
    SendBack(g, b);
  }

  lemma ReachesAlike(g: Isometry, role: Role, x: Position, a: Square, b: Square)
    ensures Reaches(role, Image(g, x), g.Send(a), g.Send(b)) <==> Reaches(role, x, a, b)
  {
    hide Isometry.Send, Along, Image;
    SendsLines(g, a, b);
    forall k: nat ensures Along(g.Send(a), g.Send(b), k) in Image(g, x) <==> Along(a, b, k) in x {
      SendsAlong(g, a, b, k);
    }
  }

  predicate NoPawns(x: Position) { ReverseMoves.NoPawns(x) }

  /** Reflections keep check. */
  lemma CheckAlike(g: Isometry, x: Position, turn: Color)
    requires NoPawns(x)
    ensures NoPawns(Image(g, x))
    ensures OppositeCheck(Image(g, x), turn) <==> OppositeCheck(x, turn)
  {
    hide Reaches, Isometry.Send, Isometry.Back, Image;
    var y := Image(g, x);
    forall t | t in y ensures y[t].role != Pawn {
      var s := SentBack(g, t);
    }
    if OppositeCheck(x, turn) {
      var k, a :| k in x && a in x && x[k] == Piece(King, turn.Other()) && x[a].color == turn && Attacks(x, a, k);
      ReachesAlike(g, x[a].role, x, a, k);
      assert y[g.Send(k)] == Piece(King, turn.Other()) && Attacks(y, g.Send(a), g.Send(k));
    }
    if OppositeCheck(y, turn) {
      var k', a' :| k' in y && a' in y && y[k'] == Piece(King, turn.Other()) && y[a'].color == turn
                    && Attacks(y, a', k');
      var k := SentBack(g, k');
      var a := SentBack(g, a');
      ReachesAlike(g, x[a].role, x, a, k);
      assert x[k] == Piece(King, turn.Other()) && Attacks(x, a, k);
    }
  }

  lemma MovedAlike(g: Isometry, x: Position, from: Square, to: Square)
    requires from in x && to.OnBoard()
    ensures g.Send(from) in Image(g, x) && g.Send(to).OnBoard()
    ensures Moved(Image(g, x), g.Send(from), g.Send(to)) == Image(g, Moved(x, from, to))
  {
    hide Isometry.Send, Isometry.Back, Image, Square.OnBoard;
    SendBack(g, to);
    var y := Moved(Image(g, x), g.Send(from), g.Send(to));
    forall s ensures g.Send(s) in y <==> s in Moved(x, from, to)
      ensures s in Moved(x, from, to) ==> y[g.Send(s)] == Moved(x, from, to)[s]
    {
      SendIsInjective(g, s, to);
      SendIsInjective(g, s, from);
    }
    SameBoard(g, Moved(x, from, to), y);
  }

  // ---------------------------------------------------------------------
  // Steps of the side to move, here always White.

  /** The successor has its colours swapped, so that White is to move again. */
  function Recoloured(x: Position): Position {
    map s | s in x :: Piece(x[s].role, x[s].color.Other())
  }

  predicate IsStep(x: Position, from: Square, to: Square) {
    from in x && to.OnBoard() && IsQuietMove(State(x, White, None), from, to, State(Moved(x, from, to), Black, None))
  }

  function Step(x: Position, from: Square, to: Square): Position
    requires from in x && to.OnBoard()
  {
    Recoloured(Moved(x, from, to))
  }

  lemma StepAlike(g: Isometry, x: Position, from: Square, to: Square)
    requires NoPawns(x) && from in x && to.OnBoard()
    ensures g.Send(from) in Image(g, x) && g.Send(to).OnBoard()
    ensures IsStep(Image(g, x), g.Send(from), g.Send(to)) <==> IsStep(x, from, to)
    ensures Step(Image(g, x), g.Send(from), g.Send(to)) == Image(g, Step(x, from, to))
  {
    hide Isometry.Send, Isometry.Back, Image, Square.OnBoard, Reaches, OppositeCheck;
    MovedAlike(g, x, from, to);
    ReachesAlike(g, x[from].role, x, from, to);
    CheckAlike(g, Moved(x, from, to), Black);
    SameBoard(g, Step(x, from, to), Step(Image(g, x), g.Send(from), g.Send(to)));
  }

  function Steps(x: Position): set<Position> {
    set f: nat, t: nat | f < 64 && t < 64 && IsStep(x, At(f), At(t)) :: Step(x, At(f), At(t))
  }

  ghost predicate LeadsTo(x: Position, from: Square, to: Square, z: Position) {
    IsStep(x, from, to) && z == Step(x, from, to)
  }

  lemma StepsAre(x: Position, z: Position)
    ensures z in Steps(x) <==> exists from, to :: LeadsTo(x, from, to, z)
  {
    hide IsQuietMove, Moved, Recoloured;
    if z in Steps(x) {
      var f: nat, t: nat :| f < 64 && t < 64 && IsStep(x, At(f), At(t)) && z == Step(x, At(f), At(t));
      assert LeadsTo(x, At(f), At(t), z);
    }
    if from, to :| LeadsTo(x, from, to, z) {
      assert At(Number(from)) == from && At(Number(to)) == to;
    }
  }

  lemma StepsForward(g: Isometry, x: Position, z: Position)
    requires NoPawns(x) && z in Steps(x)
    ensures Image(g, z) in Steps(Image(g, x))
  {
    hide IsStep, Step, Steps, Image, Isometry.Send;
    StepsAre(x, z);
    var from, to :| LeadsTo(x, from, to, z);
    assert IsStep(x, from, to);
    StepOnBoard(x, from, to);
    StepAlike(g, x, from, to);
    assert LeadsTo(Image(g, x), g.Send(from), g.Send(to), Image(g, z));
    StepsAre(Image(g, x), Image(g, z));
  }

  lemma StepOnBoard(x: Position, from: Square, to: Square)
    requires IsStep(x, from, to)
    ensures from in x && to.OnBoard()
  {
  }

  /** Quiet steps are carried along by every symmetry of the board. */
  lemma StepsAlike(g: Isometry, x: Position, z: Position)
    requires NoPawns(x)
    ensures NoPawns(Image(g, x))
    ensures Image(g, z) in Steps(Image(g, x)) <==> z in Steps(x)
  {
    hide Steps, Image, Isometry.Send, Isometry.Back;
    CheckAlike(g, x, White);
    if z in Steps(x) {
      StepsForward(g, x, z);
    }
    if Image(g, z) in Steps(Image(g, x)) {
      StepsForward(g.Back(), Image(g, x), Image(g, z));
      ImageBack(g, x);
      ImageBack(g, z);
    }
  }

  // ---------------------------------------------------------------------
  // Material and kings.

  type Material = Piece -> nat

  ghost predicate HasMaterial(x: Position, m: Material) {
    forall pc :: |Places(x, pc)| == m(pc)
  }

  function Swapped(pc: Piece): Piece { Piece(pc.role, pc.color.Other()) }

  lemma PlacesAlike(g: Isometry, x: Position, pc: Piece)
    ensures Places(Image(g, x), pc) == set s | s in Places(x, pc) :: g.Send(s)
    ensures |Places(Image(g, x), pc)| == |Places(x, pc)|
  {
    hide Isometry.Send, Isometry.Back, Image;
    forall t | t in Places(Image(g, x), pc) ensures t in set s | s in Places(x, pc) :: g.Send(s) {
      var s := SentBack(g, t);
      assert s in Places(x, pc);
    }
    forall s, t | s in Places(x, pc) && t in Places(x, pc) && g.Send(s) == g.Send(t) ensures s == t {
      SendIsInjective(g, s, t);
    }
    Injected(Places(x, pc), Places(Image(g, x), pc), (s: Square) => g.Send(s));
  }

  lemma PlacesAfterStep(x: Position, from: Square, to: Square, pc: Piece)
    requires from in x && to.OnBoard() && to !in x
    ensures |Places(Step(x, from, to), pc)| == |Places(x, Swapped(pc))|
    ensures Places(Step(x, from, to), pc)
         == if x[from] == Swapped(pc) then Places(x, Swapped(pc)) - {from} + {to} else Places(x, Swapped(pc))
  {
    assert Places(Step(x, from, to), pc) == Places(Moved(x, from, to), Swapped(pc));
    assert Places(Moved(x, from, to), Swapped(pc))
        == if x[from] == Swapped(pc) then Places(x, Swapped(pc)) - {from} + {to} else Places(x, Swapped(pc));
  }

  ghost function KingOf(x: Position, c: Color): Square {
    if s :| s in Places(x, Piece(King, c)) then s else Square(0, 0)
  }

  lemma OnlyKing(x: Position, c: Color, s: Square)
    requires |Places(x, Piece(King, c))| == 1 && s in Places(x, Piece(King, c))
    ensures KingOf(x, c) == s
  {
    assert KingOf(x, c) in Places(x, Piece(King, c));
    assert Places(x, Piece(King, c)) == {s} by {
      assert |Places(x, Piece(King, c)) - {s}| == 0;
    }
  }

  /** The pieces of a table without pawns. */
  ghost predicate IsPawnless(m: Material) {
    forall c :: m(Piece(King, c)) == 1 && m(Piece(Pawn, c)) == 0
  }

  /** A valid position of the table with White to move, or of its twin. */
  ghost predicate IsPosition(x: Position, m: Material) {
    && NoPawns(x) && !OppositeCheck(x, White)
    && (HasMaterial(x, m) || HasMaterial(x, pc => m(Swapped(pc))))
  }

  lemma KingIsThere(x: Position, m: Material, c: Color)
    requires IsPawnless(m) && IsPosition(x, m)
    ensures |Places(x, Piece(King, c))| == 1 && KingOf(x, c) in Places(x, Piece(King, c))
  {
    var pc := Piece(King, c);
    assert m(pc) == 1 && m(Swapped(pc)) == 1;
    assert |Places(x, pc)| == 1;
    assert Places(x, pc) != {};
  }

  lemma KingAlike(g: Isometry, x: Position, m: Material, c: Color)
    requires IsPawnless(m) && IsPosition(x, m)
    ensures KingOf(Image(g, x), c) == g.Send(KingOf(x, c))
  {
    hide Isometry.Send, Image, IsPosition, Places;
    KingIsThere(x, m, c);
    PlacesAlike(g, x, Piece(King, c));
    OnlyKing(Image(g, x), c, g.Send(KingOf(x, c)));
  }

  lemma PositionAlike(g: Isometry, x: Position, m: Material)
    requires IsPosition(x, m)
    ensures IsPosition(Image(g, x), m)
  {
    hide Image, Places, OppositeCheck;
    CheckAlike(g, x, White);
    forall pc ensures |Places(Image(g, x), pc)| == |Places(x, pc)| {
      PlacesAlike(g, x, pc);
    }
  }

  lemma RecolouredCheck(x: Position, turn: Color)
    requires NoPawns(x)
    ensures NoPawns(Recoloured(x)) && Recoloured(Recoloured(x)) == x
    ensures OppositeCheck(Recoloured(x), turn.Other()) <==> OppositeCheck(x, turn)
  {
    hide OppositeCheck;
    assert Recoloured(Recoloured(x)) == x;
    assert turn.Other().Other() == turn;
    if OppositeCheck(x, turn) {
      CheckSwaps(x, turn);
    }
    if OppositeCheck(Recoloured(x), turn.Other()) {
      CheckSwaps(Recoloured(x), turn.Other());
    }
  }

  lemma CheckSwaps(x: Position, turn: Color)
    requires NoPawns(x) && OppositeCheck(x, turn)
    ensures OppositeCheck(Recoloured(x), turn.Other())
  {
    hide Reaches;
    var k, a :| k in x && a in x && x[k] == Piece(King, turn.Other()) && x[a].color == turn && Attacks(x, a, k);
    RecolouredReaches(x[a].role, x, a, k);
    assert Recoloured(x)[k] == Piece(King, turn) && Attacks(Recoloured(x), a, k);
  }

  lemma RecolouredReaches(role: Role, x: Position, a: Square, b: Square)
    ensures Reaches(role, Recoloured(x), a, b) <==> Reaches(role, x, a, b)
  {
    assert forall s :: s in Recoloured(x) <==> s in x;
  }

  lemma StepIsPosition(x: Position, m: Material, from: Square, to: Square)
    requires IsPosition(x, m) && IsStep(x, from, to)
    ensures IsPosition(Step(x, from, to), m)
  {
    hide OppositeCheck, Reaches, Places, Recoloured;
    RecolouredCheck(Moved(x, from, to), Black);
    forall pc ensures |Places(Step(x, from, to), pc)| == |Places(x, Swapped(pc))| && Swapped(Swapped(pc)) == pc {
      PlacesAfterStep(x, from, to, pc);
    }
  }

  function AllPieces(): (pieces: set<Piece>) {
    set r: Role, c: Color | true :: Piece(r, c)
  }

  function Placed(x: Position, s: Square, pc: Piece): Position
    requires s.OnBoard()
  {
    x[s := pc]
  }

  ghost function Extended(boards: set<Position>, s: Square): set<Position>
    requires s.OnBoard()
  {
    set x, pc | x in boards && pc in AllPieces() :: Placed(x, s, pc)
  }

  /** All boards with pieces on the first `n` squares only. */
  ghost function AllBoards(n: nat): set<Position>
    requires n <= 64
  {
    if n == 0 then {map[]} else AllBoards(n - 1) + Extended(AllBoards(n - 1), At(n - 1))
  }

  lemma {:induction false} AllBoardsAreListed(x: Position, n: nat)
    requires n <= 64 && forall s | s in x :: Number(s) < n
    ensures x in AllBoards(n)
  {
    if n == 0 {
      assert x == map[];
    } else {
      var s := At(n - 1);
      var rest: Position := x - {s};
      forall t | t in rest ensures Number(t) < n - 1 {
        assert At(Number(t)) == t;
      }
      AllBoardsAreListed(rest, n - 1);
      if s in x {
        ExtendsRest(AllBoards(n - 1), x, s);
      } else {
        assert rest == x;
      }
    }
  }

  lemma ExtendsRest(boards: set<Position>, x: Position, s: Square)
    requires s in x && x - {s} in boards
    ensures x in Extended(boards, s)
  {
    var rest: Position := x - {s};
    assert x[s] == Piece(x[s].role, x[s].color);
    assert x[s] in AllPieces();
    assert Placed(rest, s, x[s]) == x;
  }

  /** The board of a pawnless pair. */
  ghost function PawnlessBoard(m: Material): Board<Position> {
    Board(Pawnless, set x | x in AllBoards(64) && IsPosition(x, m),
          (h: Flip, x: Position) => Image(Isometry(false, h), x),
          (x: Position) => Image(Isometry(true, Flip(false, false)), x),
          (x: Position) => KingOf(x, White), (x: Position) => KingOf(x, Black),
          (x: Position) => Steps(x))
  }

  lemma PositionsAre(m: Material, x: Position)
    ensures x in PawnlessBoard(m).positions <==> IsPosition(x, m)
  {
    hide IsPosition;
    AllBoardsAreListed(x, 64);
  }

  lemma KingsOnBoard(m: Material)
    requires IsPawnless(m)
    ensures Kings(PawnlessBoard(m))
  {
    hide IsPosition, KingOf;
    var b := PawnlessBoard(m);
    forall x | x in b.positions ensures b.stm(x).OnBoard() && b.sntm(x).OnBoard() && b.stm(x) != b.sntm(x) {
      PositionsAre(m, x);
      KingIsThere(x, m, White);
      KingIsThere(x, m, Black);
    }
  }

  lemma BoardFlips(m: Material)
    requires IsPawnless(m)
    ensures FlipsAct(PawnlessBoard(m))
  {
    hide IsPosition, KingOf, Image, Steps, AllBoards;
    var b := PawnlessBoard(m);
    forall x, h | x in b.positions && h in Flips(b.kind)
      ensures b.flip(h, x) in b.positions
      ensures b.stm(b.flip(h, x)) == b.stm(x).Flipped(h)
      ensures b.sntm(b.flip(h, x)) == b.sntm(x).Flipped(h)
    {
      ImageIsPosition(m, Isometry(false, h), x);
    }
    forall x | x in b.positions ensures b.flip(Flip(false, false), x) == x {
      SameBoard(Isometry(false, Flip(false, false)), x, x);
    }
    forall x, g, h | x in b.positions && g in Flips(b.kind) && h in Flips(b.kind)
      ensures b.flip(g, b.flip(h, x)) == b.flip(g.Then(h), x)
    {
      ImageTwice(Isometry(false, g), Isometry(false, h), Isometry(false, g.Then(h)), x);
    }
    forall x, z, h | x in b.positions && z in b.positions && h in Flips(b.kind)
      ensures b.flip(h, z) in b.quiet(b.flip(h, x)) <==> z in b.quiet(x)
    {
      PositionsAre(m, x);
      PositionHasNoPawns(x, m);
      StepsAlike(Isometry(false, h), x, z);
    }
  }

  lemma PositionHasNoPawns(x: Position, m: Material)
    requires IsPosition(x, m)
    ensures NoPawns(x)
  {
  }

  lemma ImageIsPosition(m: Material, g: Isometry, x: Position)
    requires IsPawnless(m) && x in PawnlessBoard(m).positions
    ensures Image(g, x) in PawnlessBoard(m).positions
    ensures KingOf(Image(g, x), White) == g.Send(KingOf(x, White))
            && KingOf(Image(g, x), Black) == g.Send(KingOf(x, Black))
  {
    hide IsPosition, KingOf, Image, AllBoards, Isometry.Send;
    PositionsAre(m, x);
    PositionsAre(m, Image(g, x));
    PositionAlike(g, x, m);
    KingAlike(g, x, m, White);
    KingAlike(g, x, m, Black);
  }

  lemma BoardTransposes(m: Material)
    requires IsPawnless(m)
    ensures TransposeActs(PawnlessBoard(m))
  {
    hide IsPosition, KingOf, Image, Steps, AllBoards;
    var b, g := PawnlessBoard(m), Isometry(true, Flip(false, false));
    forall x | x in b.positions
      ensures b.transpose(x) in b.positions
      ensures b.transpose(b.transpose(x)) == x
      ensures b.stm(b.transpose(x)) == b.stm(x).Transposed()
      ensures b.sntm(b.transpose(x)) == b.sntm(x).Transposed()
    {
      ImageIsPosition(m, g, x);
      ImageBack(g, x);
    }
    forall x, h | x in b.positions && h in Flips(b.kind)
      ensures b.transpose(b.flip(h, x)) == b.flip(h.Swapped(), b.transpose(x))
    {
      ImageTwice(g, Isometry(false, h), Isometry(true, h.Swapped()), x);
      ImageTwice(Isometry(false, h.Swapped()), g, Isometry(true, h.Swapped()), x);
    }
    forall x, z | x in b.positions && z in b.positions
      ensures b.transpose(z) in b.quiet(b.transpose(x)) <==> z in b.quiet(x)
    {
      PositionsAre(m, x);
      PositionHasNoPawns(x, m);
      StepsAlike(g, x, z);
    }
  }

  /** The board of a pawnless pair meets all that the symmetry argument asks of it. */
  lemma PawnlessBoardIsRegular(m: Material)
    requires IsPawnless(m)
    ensures Regular(PawnlessBoard(m))
  {
    hide Kings, FlipsAct, TransposeActs, IsPosition, Steps, AllBoards;
    var b := PawnlessBoard(m);
    KingsOnBoard(m);
    BoardFlips(m);
    BoardTransposes(m);
    forall x, z | x in b.positions && z in b.quiet(x) ensures z in b.positions {
      PositionsAre(m, x);
      PositionsAre(m, z);
      StepsAre(x, z);
      var from, to :| LeadsTo(x, from, to, z);
      StepIsPosition(x, m, from, to);
    }
  }

  // ---------------------------------------------------------------------
  // Unmoves.

  /** Moves of the other colour, seen with the colours swapped. */
  lemma RecolouredMove(x: Position, from: Square, to: Square)
    requires NoPawns(x) && from in x && to.OnBoard()
    ensures IsStep(x, from, to)
            <==> IsQuietMove(State(Recoloured(x), Black, None), from, to, State(Step(x, from, to), White, None))
  {
    hide Reaches, OppositeCheck;
    RecolouredReaches(x[from].role, x, from, to);
    RecolouredCheck(Moved(x, from, to), Black);
    assert Moved(Recoloured(x), from, to) == Step(x, from, to);
  }

  /** A quiet move between two boards, given the one it ends on, comes from a position of
      the pair. */
  lemma UnmovedIsPosition(x: Position, m: Material, from: Square, to: Square)
    requires from in x && to.OnBoard() && to !in x && IsPosition(Step(x, from, to), m)
    ensures NoPawns(x)
    ensures HasMaterial(x, m) || HasMaterial(x, pc => m(Swapped(pc)))
  {
    hide OppositeCheck, Places;
    var s := Step(x, from, to);
    forall t | t in x ensures x[t].role != Pawn {
      assert s[if t == from then to else t].role == x[t].role;
    }
    forall pc ensures |Places(s, pc)| == |Places(x, Swapped(pc))| && Swapped(Swapped(pc)) == pc {
      PlacesAfterStep(x, from, to, pc);
    }
    forall pc ensures |Places(x, pc)| == |Places(s, Swapped(pc))| {
      assert Swapped(Swapped(pc)) == pc;
    }
  }

  lemma StepIsUnmove(m: Material, x: Position, from: Square, to: Square)
    requires IsPosition(x, m) && IsStep(x, from, to)
    ensures IsPredecessor(State(Step(x, from, to), White, None), State(Recoloured(x), Black, None))
  {
    hide IsQuietMove, IsStep, OppositeCheck, Recoloured, HasMaterial, Step;
    StepOnBoard(x, from, to);
    RecolouredMove(x, from, to);
    RecolouredCheck(x, White);
  }

  lemma UnmoveIsStep(m: Material, s: Position, x: Position)
    requires IsPosition(s, m) && IsPredecessor(State(s, White, None), State(Recoloured(x), Black, None))
    ensures IsPosition(x, m) && s in Steps(x)
  {
    hide IsStep, OppositeCheck, HasMaterial, Steps, Step, Recoloured, IsQuietMove;
    var p, t := State(Recoloured(x), Black, None), State(s, White, None);
    var from, to :| IsQuietMove(p, from, to, t);
    MovedFrom(x, s, from, to);
    UnmovedIsPosition(x, m, from, to);
    RecolouredCheck(x, White);
    RecolouredMove(x, from, to);
    assert LeadsTo(x, from, to, s);
    StepsAre(x, s);
  }

  lemma MovedFrom(x: Position, s: Position, from: Square, to: Square)
    requires IsQuietMove(State(Recoloured(x), Black, None), from, to, State(s, White, None))
    ensures from in x && to.OnBoard() && to !in x && s == Step(x, from, to)
  {
    hide Reaches, OppositeCheck;
    assert Moved(Recoloured(x), from, to) == Step(x, from, to);
  }

  /** The predecessors on the board are those that the rules give. */
  lemma PredecessorsAreUnmoves(m: Material, s: Position, x: Position)
    requires IsPawnless(m) && IsPosition(s, m)
    ensures x in Predecessors(PawnlessBoard(m), s)
            <==> IsPredecessor(State(s, White, None), State(Recoloured(x), Black, None))
  {
    hide IsQuietMove, IsStep, Steps, AllBoards, IsPosition, IsPredecessor, Recoloured;
    PositionsAre(m, x);
    if x in Predecessors(PawnlessBoard(m), s) {
      StepsAre(x, s);
      var from, to :| LeadsTo(x, from, to, s);
      StepIsUnmove(m, x, from, to);
    }
    if IsPredecessor(State(s, White, None), State(Recoloured(x), Black, None)) {
      UnmoveIsStep(m, s, x);
    }
  }

  /** A pawn that can be captured en passant survives the move. */
  lemma PawnSurvives(x: Position, e: Square, from: Square, to: Square)
    requires EpPossible(x, Black, e) && from in x && x[from].color == Black && to.OnBoard() && to !in x
    ensures !NoPawns(Moved(x, from, to))
  {
    hide LegalEp;
    var pawn := Ahead(e, Black, -1);
    assert Moved(x, from, to)[pawn].role == Pawn;
  }

  lemma PredecessorState(s: Position, p: State)
    requires NoPawns(s) && IsPredecessor(State(s, White, None), p)
    ensures p == State(p.board, Black, None)
  {
    hide Reaches, OppositeCheck, EpPossible, Moved, NoPawns;
    var from, to :| IsQuietMove(p, from, to, State(s, White, None));
    if p.ep.Some? {
      PawnSurvives(p.board, p.ep.value, from, to);
    }
  }

  /** The boards of the states before `s`, with the colours swapped. */
  function BoardsOf(states: seq<State>): (preds: seq<Position>)
    ensures |preds| == |states|
  {
    seq(|states|, k requires 0 <= k < |states| => Recoloured(states[k].board))
  }

  lemma OnceEach<T>(xs: seq<T>, k: nat, l: nat)
    requires k < l < |xs| && multiset(xs)[xs[k]] <= 1
    ensures xs[k] != xs[l]
  {
    assert xs == xs[..l] + [xs[l]] + xs[l + 1..];
    assert xs[k] == xs[..l][k];
  }

  lemma BoardsArePredecessors(m: Material, s: Position, states: seq<State>)
    requires IsPawnless(m) && IsPosition(s, m)
    requires forall p :: multiset(states)[p] == if IsPredecessor(State(s, White, None), p) then 1 else 0
    ensures Elements(BoardsOf(states)) == Predecessors(PawnlessBoard(m), s)
    ensures forall k, l | 0 <= k < l < |states| :: BoardsOf(states)[k] != BoardsOf(states)[l]
  {
    hide IsPredecessor, IsPosition, Steps, AllBoards, Recoloured, OppositeCheck;
    PositionHasNoPawns(s, m);
    forall k | 0 <= k < |states|
      ensures IsPredecessor(State(s, White, None), states[k])
              && states[k] == State(Recoloured(BoardsOf(states)[k]), Black, None)
    {
      assert states[k] in multiset(states);
      PredecessorState(s, states[k]);
      RecolouredTwice(states[k].board);
    }
    forall x ensures x in Elements(BoardsOf(states)) <==> x in Predecessors(PawnlessBoard(m), s) {
      PredecessorsAreUnmoves(m, s, x);
      RecolouredTwice(x);
      var p := State(Recoloured(x), Black, None);
      if IsPredecessor(State(s, White, None), p) {
        assert p in multiset(states);
        var k :| 0 <= k < |states| && states[k] == p;
        assert BoardsOf(states)[k] == x;
      }
    }
    forall k, l | 0 <= k < l < |states| ensures BoardsOf(states)[k] != BoardsOf(states)[l] {
      OnceEach(states, k, l);
    }
  }

  lemma RecolouredTwice(x: Position)
    ensures Recoloured(Recoloured(x)) == x
  {
  }

  /** Emits the indices of the quiet predecessors of a canonical position: the generator
      of the rules, followed by the diagonal adjustment. */
  method EmitUnmoves(b: Board<Position>, ghost m: Material, s: Position) returns (emitted: seq<Position>)
    requires IsPawnless(m) && b == PawnlessBoard(m) && s in Canonical(AsQuotient(b))
    ensures forall i | i in Canonical(AsQuotient(b)) :: Occurrences(emitted, i) == Emitted(AsQuotient(b), s, i)
  {
    hide Emitted, EmittedFrom, Canon, Regular, AllBoards, Steps, Image, KingOf, IsPosition, IsPredecessor, BoardsOf;
    hide Occurrences;
    hide Predecessors, OppositeCheck;
    CanonicalIsPosition(m, s);
    var states := ReverseMoves.PawnlessQuietUnmoves(State(s, White, None));
    BoardsArePredecessors(m, s, states);
    emitted := Boards.QuietUnmoves(b, s, BoardsOf(states));
    PawnlessBoardIsRegular(m);
    forall i | i in Canonical(AsQuotient(b)) ensures Occurrences(emitted, i) == Emitted(AsQuotient(b), s, i) {
      EmissionsAreQuotients(b, s, i);
    }
  }

  lemma CanonicalIsPosition(m: Material, s: Position)
    requires s in Canonical(AsQuotient(PawnlessBoard(m)))
    ensures IsPosition(s, m) && NoPawns(s) && ReverseMoves.NoPawns(s) && ValidState(State(s, White, None))
  {
    hide OppositeCheck, HasMaterial, Steps, AllBoards, Image, KingOf;
    PositionsAre(m, s);
  }

  // ---------------------------------------------------------------------
  // The list of moves.

  /** Only the king that moves changes its place. */
  lemma StepMovesKings(m: Material, x: Position, from: Square, to: Square)
    requires IsPawnless(m) && IsPosition(x, m) && IsStep(x, from, to)
    ensures MovesKings(PawnlessBoard(m), x, QuietLegal(x[from].role == King, to, Step(x, from, to)))
  {
    hide OppositeCheck, Reaches, KingOf, IsPosition, Places, Moved, Recoloured;
    var z := Step(x, from, to);
    KingIsThere(x, m, White);
    KingIsThere(x, m, Black);
    PlacesAfterStep(x, from, to, Piece(King, White));
    PlacesAfterStep(x, from, to, Piece(King, Black));
    KingSteps(x, from, to, White);
    KingSteps(x, from, to, Black);
  }

  lemma KingSteps(x: Position, from: Square, to: Square, c: Color)
    requires from in x && to.OnBoard() && to !in x && x[from].color == White
    requires |Places(x, Piece(King, c))| == 1 && KingOf(x, c) in Places(x, Piece(King, c))
    ensures KingOf(Step(x, from, to), c.Other()) == if x[from] == Piece(King, c) then to else KingOf(x, c)
  {
    hide Step, KingOf;
    var pc := Piece(King, c.Other());
    PlacesAfterStep(x, from, to, pc);
    if x[from] == Piece(King, c) {
      assert from in Places(x, Piece(King, c));
      OnlyKing(x, c, from);
      OnlyKing(Step(x, from, to), c.Other(), to);
    } else {
      OnlyKing(Step(x, from, to), c.Other(), KingOf(x, c));
    }
  }

  /** Different steps lead to different positions. */
  lemma StepsDiffer(x: Position, from: Square, to: Square, from': Square, to': Square)
    requires IsStep(x, from, to) && IsStep(x, from', to') && Step(x, from, to) == Step(x, from', to')
    ensures from == from' && to == to'
  {
    hide OppositeCheck, Reaches;
    assert from in x && from !in Step(x, from, to) && to !in x && to in Step(x, from, to);
  }

  /** The moves of a position: quiet steps, and conversions in between. */
  ghost predicate AllMoves(x: Position, moves: seq<Option<(Square, Square)>>) {
    && (forall k | 0 <= k < |moves| && moves[k].Some? :: IsStep(x, moves[k].value.0, moves[k].value.1))
    && (forall k, l | 0 <= k < l < |moves| && moves[k].Some? :: moves[k] != moves[l])
    && (forall from, to | IsStep(x, from, to) :: Some((from, to)) in moves)
  }

  function LegalsOf(x: Position, moves: seq<Option<(Square, Square)>>): (legals: seq<Legal<Position>>)
    requires forall k | 0 <= k < |moves| && moves[k].Some? :: IsStep(x, moves[k].value.0, moves[k].value.1)
    ensures |legals| == |moves|
  {
    seq(|moves|, k requires 0 <= k < |moves| => LegalOf(x, moves[k]))
  }

  function LegalOf(x: Position, move: Option<(Square, Square)>): Legal<Position>
    requires move.Some? ==> IsStep(x, move.value.0, move.value.1)
  {
    if move.None? then ConversionLegal
    else QuietLegal(x[move.value.0].role == King, move.value.1, Step(x, move.value.0, move.value.1))
  }

  /** One of the first `n` moves leads to `z`. */
  ghost predicate Listed(x: Position, moves: seq<Option<(Square, Square)>>, n: nat, z: Position)
    requires n <= |moves|
  {
    exists k :: 0 <= k < n && moves[k].Some? && LeadsTo(x, moves[k].value.0, moves[k].value.1, z)
  }

  lemma ListedStep(x: Position, moves: seq<Option<(Square, Square)>>, n: nat, z: Position)
    requires AllMoves(x, moves) && n < |moves|
    ensures Listed(x, moves, n + 1, z) <==>
              Listed(x, moves, n, z) || (moves[n].Some? && LeadsTo(x, moves[n].value.0, moves[n].value.1, z))
    ensures Listed(x, moves, n, z) ==> !(moves[n].Some? && LeadsTo(x, moves[n].value.0, moves[n].value.1, z))
  {
    hide IsStep, Step;
    if Listed(x, moves, n, z) && moves[n].Some? && LeadsTo(x, moves[n].value.0, moves[n].value.1, z) {
      var k :| 0 <= k < n && moves[k].Some? && LeadsTo(x, moves[k].value.0, moves[k].value.1, z);
      StepsDiffer(x, moves[k].value.0, moves[k].value.1, moves[n].value.0, moves[n].value.1);
    }
  }

  lemma LegalLeads(x: Position, move: Option<(Square, Square)>, z: Position)
    requires move.Some? ==> IsStep(x, move.value.0, move.value.1)
    ensures LegalOf(x, move).QuietLegal? <==> move.Some?
    ensures move.Some? ==> (LegalOf(x, move).successor == z <==> LeadsTo(x, move.value.0, move.value.1, z))
  {
    hide IsQuietMove, Step;
  }

  lemma LegalKind(x: Position, move: Option<(Square, Square)>)
    requires move.Some? ==> IsStep(x, move.value.0, move.value.1)
    ensures LegalOf(x, move).QuietLegal? <==> move.Some?
  {
  }

  lemma OneMoreLegal(legals: seq<Legal<Position>>, m: Legal<Position>)
    requires Distinct(legals) && (m.QuietLegal? ==> m.successor !in QuietTargets(legals))
    ensures Distinct(legals + [m])
    ensures QuietTargets(legals + [m]) == QuietTargets(legals) + if m.QuietLegal? then {m.successor} else {}
  {
    assert (legals + [m])[..|legals|] == legals;
  }

  /** The first `n` legal moves lead to different positions, exactly the listed ones. */
  ghost predicate TargetsListed(x: Position, moves: seq<Option<(Square, Square)>>, n: nat)
    requires AllMoves(x, moves) && n <= |moves|
  {
    var legals := LegalsOf(x, moves)[..n];
    Distinct(legals) && forall z :: z in QuietTargets(legals) <==> Listed(x, moves, n, z)
  }

  lemma NextTarget(x: Position, moves: seq<Option<(Square, Square)>>, n: nat)
    requires AllMoves(x, moves) && n < |moves| && TargetsListed(x, moves, n)
    ensures TargetsListed(x, moves, n + 1)
  {
    hide IsStep, Listed, LegalOf, LeadsTo, Distinct, QuietTargets;
    var legals, m := LegalsOf(x, moves)[..n], LegalsOf(x, moves)[n];
    assert LegalsOf(x, moves)[..n + 1] == legals + [m];
    LegalKind(x, moves[n]);
    if m.QuietLegal? {
      LegalLeads(x, moves[n], m.successor);
      ListedStep(x, moves, n, m.successor);
    }
    OneMoreLegal(legals, m);
    forall z ensures z in QuietTargets(legals + [m]) <==> Listed(x, moves, n + 1, z) {
      LegalLeads(x, moves[n], z);
      ListedStep(x, moves, n, z);
    }
  }

  lemma {:induction false} ListedTargets(x: Position, moves: seq<Option<(Square, Square)>>, n: nat)
    requires AllMoves(x, moves) && n <= |moves|
    ensures TargetsListed(x, moves, n)
  {
    hide IsStep, Listed;
    if n == 0 {
      forall z ensures !Listed(x, moves, 0, z) {
        NothingListed(x, moves, z);
      }
    } else {
      ListedTargets(x, moves, n - 1);
      NextTarget(x, moves, n - 1);
    }
  }

  lemma NothingListed(x: Position, moves: seq<Option<(Square, Square)>>, z: Position)
    ensures !Listed(x, moves, 0, z)
  {
  }

  lemma TargetsAreSteps(x: Position, moves: seq<Option<(Square, Square)>>)
    requires AllMoves(x, moves)
    ensures Distinct(LegalsOf(x, moves)) && QuietTargets(LegalsOf(x, moves)) == Steps(x)
  {
    hide IsStep, Steps, Step, Distinct, QuietTargets;
    ListedTargets(x, moves, |moves|);
    assert LegalsOf(x, moves)[..|moves|] == LegalsOf(x, moves);
    forall z ensures z in QuietTargets(LegalsOf(x, moves)) <==> z in Steps(x) {
      StepsAre(x, z);
      if from, to :| LeadsTo(x, from, to, z) {
        var k :| 0 <= k < |moves| && moves[k] == Some((from, to));
      }
    }
  }

  /** The legal moves of a position, in any order, are what its counter needs them to be. */
  lemma MovesAreListed(m: Material, x: Position, moves: seq<Option<(Square, Square)>>)
    requires IsPawnless(m) && IsPosition(x, m) && AllMoves(x, moves)
    ensures ListsLegals(PawnlessBoard(m), x, LegalsOf(x, moves))
  {
    hide IsStep, Step, IsPosition, KingOf, MovesKings, Distinct, QuietTargets, Steps, AllBoards;
    var b, legals := PawnlessBoard(m), LegalsOf(x, moves);
    TargetsAreSteps(x, moves);
    forall k | 0 <= k < |legals| ensures MovesKings(b, x, legals[k]) {
      if moves[k].Some? {
        StepMovesKings(m, x, moves[k].value.0, moves[k].value.1);
      } else {
        ConversionMovesNothing(b, x);
      }
    }
  }

  lemma ConversionMovesNothing(b: Board<Position>, x: Position)
    ensures MovesKings(b, x, ConversionLegal)
  {
  }
}

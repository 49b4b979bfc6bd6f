/** Positions of a table pair on the board, their reflections, and the loops that
    count moves and emit unmoves. The rules of the game enter as the sets of quiet
    successors, which reflections of the board carry along. */
module Boards {
  import opened Sums
  import opened Symmetry

  datatype Square = Square(rank: int, file: int) {
    predicate OnBoard() { 0 <= rank < 8 && 0 <= file < 8 }

    function Flipped(flip: Flip): Square {
      Square(if flip.ranks then 7 - rank else rank, if flip.files then 7 - file else file)
    }

    function Transposed(): Square { Square(file, rank) }

    /** Numbering of symmetric pawn tables: a file reflection sends i to 63 - i. */
    function FileIndex(): int {
      8 * file + if file < 4 then rank else 7 - rank
    }
  }

  datatype Flip = Flip(ranks: bool, files: bool) {
    function Then(next: Flip): Flip {
      Flip(ranks != next.ranks, files != next.files)
    }

    function Swapped(): Flip { Flip(files, ranks) }
  }

  datatype TableKind = Pawnless | SymmetricPawns | OtherPawns

  /** Positions have the colours normalized to the side to move; `quiet` gives the
      positions after each legal quiet move, again normalized. */
  datatype Board<!X> = Board(
    kind: TableKind,
    positions: set<X>,
    flip: (Flip, X) -> X,
    transpose: X -> X,
    stm: X -> Square,
    sntm: X -> Square,
    quiet: X -> set<X>)

  function Flips(kind: TableKind): set<Flip> {
    match kind
    case Pawnless => {Flip(false, false), Flip(false, true), Flip(true, false), Flip(true, true)}
    case SymmetricPawns => {Flip(false, false), Flip(false, true)}
    case OtherPawns => {Flip(false, false)}
  }

  ghost predicate Kings<X(!new)>(b: Board<X>) {
    forall x | x in b.positions :: b.stm(x).OnBoard() && b.sntm(x).OnBoard() && b.stm(x) != b.sntm(x)
  }

  /** Reflections act on positions, kings and quiet moves. */
  ghost predicate FlipsAct<X(!new)>(b: Board<X>) {
    && (forall x, h | x in b.positions && h in Flips(b.kind) ::
          && b.flip(h, x) in b.positions
          && b.stm(b.flip(h, x)) == b.stm(x).Flipped(h)
          && b.sntm(b.flip(h, x)) == b.sntm(x).Flipped(h))
    && (forall x | x in b.positions :: b.flip(Flip(false, false), x) == x)
    && (forall x, g, h | x in b.positions && g in Flips(b.kind) && h in Flips(b.kind) ::
          b.flip(g, b.flip(h, x)) == b.flip(g.Then(h), x))
    && (forall x, z, h | x in b.positions && z in b.positions && h in Flips(b.kind) ::
          b.flip(h, z) in b.quiet(b.flip(h, x)) <==> z in b.quiet(x))
  }

  ghost predicate TransposeActs<X(!new)>(b: Board<X>) {
    && (forall x | x in b.positions ::
          && b.transpose(x) in b.positions
          && b.transpose(b.transpose(x)) == x
          && b.stm(b.transpose(x)) == b.stm(x).Transposed()
          && b.sntm(b.transpose(x)) == b.sntm(x).Transposed())
    && (forall x, h | x in b.positions && h in Flips(b.kind) ::
          b.transpose(b.flip(h, x)) == b.flip(h.Swapped(), b.transpose(x)))
    && (forall x, z | x in b.positions && z in b.positions ::
          b.transpose(z) in b.quiet(b.transpose(x)) <==> z in b.quiet(x))
  }

  ghost predicate Regular<X(!new)>(b: Board<X>) {
    && Kings(b)
    && FlipsAct(b)
    && (b.kind == Pawnless ==> TransposeActs(b))
    && forall x, z | x in b.positions && z in b.quiet(x) :: z in b.positions
  }

  // ---------------------------------------------------------------------
  // Reducing symmetries.

  /** The reflection that brings a position to its representative: the king of the
      side to move goes to files and ranks 1-4, or above the other king in the
      numbering of symmetric pawn tables. */
  function Reduction<X>(b: Board<X>, x: X): Flip {
    match b.kind
    case Pawnless => Flip(b.stm(x).rank > 3, b.stm(x).file > 3)
    case SymmetricPawns => Flip(false, b.stm(x).FileIndex() < b.sntm(x).FileIndex())
    case OtherPawns => Flip(false, false)
  }

  function Rep<X>(b: Board<X>, x: X): X {
    b.flip(Reduction(b, x), x)
  }

  predicate IsRep<X>(b: Board<X>, x: X) {
    Reduction(b, x) == Flip(false, false)
  }

  predicate OnLongDiagonal(a: Square, b: Square) {
    (a.rank == a.file && b.rank == b.file) || (a.rank == 7 - a.file && b.rank == 7 - b.file)
  }

  /** Whether an index stands for four positions; pawnful tables never adjust. */
  predicate IsDiagonal<X>(b: Board<X>, x: X) {
    b.kind != Pawnless || OnLongDiagonal(b.stm(x), b.sntm(x))
  }

  /** No diagonal reflection is due: the first king that is off the diagonal is
      on the upper side of it. */
  predicate IsUpright<X>(b: Board<X>, x: X) {
    b.kind != Pawnless
    || !(b.stm(x).rank > b.stm(x).file || (b.stm(x).rank == b.stm(x).file && b.sntm(x).rank > b.sntm(x).file))
  }

  function Mirror<X>(b: Board<X>, x: X): X {
    if b.kind == Pawnless then b.transpose(x) else x
  }

  /** The position an index decodes to, from any of its equivalents. */
  function Canon<X>(b: Board<X>, x: X): X {
    if IsUpright(b, Rep(b, x)) then Rep(b, x) else Mirror(b, Rep(b, x))
  }

  /** How many reflections of `z` follow `y` by a quiet move. */
  ghost function MovesTo<X(!new)>(b: Board<X>, y: X, z: X): nat {
    |FlipsTo(b, y, z)|
  }

  ghost function FlipsTo<X(!new)>(b: Board<X>, y: X, z: X): set<Flip> {
    set h | h in Flips(b.kind) && b.flip(h, z) in b.quiet(y)
  }

  ghost function Reps<X(!new)>(b: Board<X>): set<X> {
    set x | x in b.positions && IsRep(b, x)
  }

  ghost function AsQuotient<X(!new)>(b: Board<X>): Quotient<X> {
    Quotient(Reps(b), x => Mirror(b, x), x => IsDiagonal(b, x), x => IsUpright(b, x), (y, z) => MovesTo(b, y, z))
  }

  lemma FlipFacts<X(!new)>(b: Board<X>, x: X, h: Flip)
    requires Regular(b) && x in b.positions && h in Flips(b.kind)
    ensures Reduction(b, x) in Flips(b.kind)
    ensures Reduction(b, b.flip(h, x)) == Reduction(b, x).Then(h)
    ensures b.flip(h, b.flip(h, x)) == x
    ensures h.Then(h) == Flip(false, false)
  {
    hide TransposeActs;
    assert b.stm(b.flip(h, x)) == b.stm(x).Flipped(h);
    assert b.sntm(b.flip(h, x)) == b.sntm(x).Flipped(h);
    if b.kind == SymmetricPawns {
      FileIndexFlips(b.stm(x));
      FileIndexFlips(b.sntm(x));
      FileIndexInjective(b.stm(x), b.sntm(x));
    }
  }

  lemma FileIndexFlips(s: Square)
    requires s.OnBoard()
    ensures s.Flipped(Flip(false, true)).FileIndex() == 63 - s.FileIndex()
  {
  }

  lemma FileIndexInjective(s: Square, t: Square)
    requires s.OnBoard() && t.OnBoard()
    ensures s.FileIndex() == t.FileIndex() ==> s == t
  {
  }

  /** A position is brought to a representative by exactly one reflection. */
  lemma RepIsUnique<X(!new)>(b: Board<X>, x: X, h: Flip)
    requires Regular(b) && x in b.positions && h in Flips(b.kind)
    ensures Rep(b, x) in b.positions && IsRep(b, Rep(b, x))
    ensures IsRep(b, b.flip(h, x)) <==> h == Reduction(b, x)
    ensures Rep(b, b.flip(h, x)) == Rep(b, x)
  {
    FlipFacts(b, x, h);
    FlipFacts(b, x, Reduction(b, x));
    FlipFacts(b, b.flip(h, x), h);
    var r := Reduction(b, x);
    assert r.Then(h).Then(h) == r;
    assert r.Then(h) in Flips(b.kind);
    assert b.flip(r.Then(h), b.flip(h, x)) == b.flip(r.Then(h).Then(h), x);
  }

  lemma QuotientIsValid<X(!new)>(b: Board<X>)
    requires Regular(b)
    ensures Valid(AsQuotient(b))
  {
    var q := AsQuotient(b);
    if b.kind == Pawnless {
      forall y | y in q.reps
        ensures q.mirror(y) in q.reps && q.mirror(q.mirror(y)) == y
        ensures q.diagonal(q.mirror(y)) == q.diagonal(y)
        ensures q.diagonal(y) ==> q.canonical(y)
        ensures !q.diagonal(y) ==> q.canonical(q.mirror(y)) != q.canonical(y)
      {
        assert b.stm(b.transpose(y)) == b.stm(y).Transposed();
        assert b.sntm(b.transpose(y)) == b.sntm(y).Transposed();
      }
      forall y, z | y in q.reps && z in q.reps ensures q.moves(q.mirror(y), q.mirror(z)) == q.moves(y, z) {
        MirroredMoves(b, y, z);
      }
    }
  }

  lemma MirroredMoves<X(!new)>(b: Board<X>, y: X, z: X)
    requires Regular(b) && b.kind == Pawnless && y in b.positions && z in b.positions
    ensures MovesTo(b, b.transpose(y), b.transpose(z)) == MovesTo(b, y, z)
  {
    hide Regular, FlipsTo;
    var s, t := FlipsTo(b, y, z), FlipsTo(b, b.transpose(y), b.transpose(z));
    forall h ensures h in s <==> h.Swapped() in t {
      MirroredFlip(b, y, z, h);
    }
    forall h | h in t ensures h in set g | g in s :: g.Swapped() {
      assert h.Swapped().Swapped() == h;
    }
    Injected(s, t, (h: Flip) => h.Swapped());
  }

  lemma MirroredFlip<X(!new)>(b: Board<X>, y: X, z: X, h: Flip)
    requires Regular(b) && b.kind == Pawnless && y in b.positions && z in b.positions
    ensures h in FlipsTo(b, y, z) <==> h.Swapped() in FlipsTo(b, b.transpose(y), b.transpose(z))
  {
    if h in Flips(b.kind) {
      assert b.transpose(b.flip(h, z)) == b.flip(h.Swapped(), b.transpose(z));
      assert b.flip(h, z) in b.positions;
    }
  }

  /** An injection preserves the number of elements. */
  lemma {:induction false} Injected<T(!new), U(!new)>(s: set<T>, t: set<U>, to: T -> U)
    requires forall x, y | x in s && y in s && to(x) == to(y) :: x == y
    requires t == set x | x in s :: to(x)
    ensures |s| == |t|
  {
    if s != {} {
      var x :| x in s;
      assert to(x) in t;
      assert t - {to(x)} == set y | y in s - {x} :: to(y);
      Injected(s - {x}, t - {to(x)}, to);
    }
  }

  // ---------------------------------------------------------------------
  // Counting concrete moves by representative.

  /** The positions of a set with a given representative, or a given index. */
  ghost function RepClass<X(!new)>(b: Board<X>, s: set<X>, y: X): set<X> {
    set p | p in s && Rep(b, p) == y
  }

  ghost function IndexClass<X(!new)>(b: Board<X>, s: set<X>, i: X): set<X> {
    set p | p in s && Canon(b, p) == i
  }

  /** The sizes of the classes add up. */
  lemma SumOfRepClasses<X(!new)>(b: Board<X>, s: set<X>, reps: set<X>, size: X -> nat)
    requires forall p | p in s :: Rep(b, p) in reps
    requires forall y | y in reps :: size(y) == |RepClass(b, s, y)|
    ensures Sum(reps, size) == |s|
  {
    var rep := (p: X) => Rep(b, p);
    forall y | y in reps ensures size(y) == |Fibre(s, rep, y)| {
      assert Fibre(s, rep, y) == RepClass(b, s, y);
    }
    SumOfFibres(s, reps, rep, size);
  }

  lemma RepsExist<X(!new)>(b: Board<X>, p: X)
    requires Regular(b) && p in b.positions
    ensures Rep(b, p) in Reps(b)
  {
    FlipFacts(b, p, Reduction(b, p));
    RepIsUnique(b, p, Reduction(b, p));
  }

  lemma RepFlipsBack<X(!new)>(b: Board<X>, p: X)
    requires Regular(b) && p in b.positions
    ensures Reduction(b, p) in Flips(b.kind) && b.flip(Reduction(b, p), Rep(b, p)) == p
  {
    FlipFacts(b, p, Reduction(b, p));
  }

  lemma FlippedRep<X(!new)>(b: Board<X>, y: X, h: Flip)
    requires Regular(b) && y in Reps(b) && h in Flips(b.kind)
    ensures b.flip(h, y) in b.positions && Rep(b, b.flip(h, y)) == y
  {
    RepIsUnique(b, y, h);
    FlipFacts(b, y, Flip(false, false));
  }

  /** The quiet successors with a given representative. */
  lemma SuccessorClass<X(!new)>(b: Board<X>, x: X, z: X)
    requires Regular(b) && x in b.positions && z in Reps(b)
    ensures |RepClass(b, b.quiet(x), z)| == MovesTo(b, x, z)
  {
    hide Flips, Reduction, Rep, FlipsAct, TransposeActs, Kings;
    var hs := FlipsTo(b, x, z);
    var to := (h: Flip) => b.flip(h, z);
    FlipIsInjective(b, z);
    forall h | h in Flips(b.kind) ensures Rep(b, b.flip(h, z)) == z {
      FlippedRep(b, z, h);
    }
    assert RepClass(b, b.quiet(x), z) == set h | h in hs :: to(h) by {
      forall p | p in RepClass(b, b.quiet(x), z) ensures p in set h | h in hs :: to(h) {
        RepFlipsBack(b, p);
        assert to(Reduction(b, p)) == p;
      }
    }
    Injected(hs, RepClass(b, b.quiet(x), z), to);
  }

  lemma FlipIsInjective<X(!new)>(b: Board<X>, z: X)
    requires Regular(b) && z in b.positions
    ensures forall g, h | g in Flips(b.kind) && h in Flips(b.kind) && b.flip(g, z) == b.flip(h, z) :: g == h
  {
    hide Regular, Flips, Reduction, Flip.Then;
    forall g, h | g in Flips(b.kind) && h in Flips(b.kind) && b.flip(g, z) == b.flip(h, z) ensures g == h {
      FlipFacts(b, z, g);
      FlipFacts(b, z, h);
      ThenIsInjective(Reduction(b, z), g, h);
    }
  }

  lemma ThenIsInjective(r: Flip, g: Flip, h: Flip)
    ensures r.Then(g) == r.Then(h) ==> g == h
  {
  }

  /** The positions with a quiet move to `s`. */
  ghost function Predecessors<X(!new)>(b: Board<X>, s: X): set<X> {
    set x | x in b.positions && s in b.quiet(x)
  }

  lemma FlipMovesBack<X(!new)>(b: Board<X>, s: X, y: X, h: Flip)
    requires Regular(b) && s in b.positions && y in b.positions && h in Flips(b.kind)
    ensures b.flip(h, s) in b.quiet(y) <==> s in b.quiet(b.flip(h, y))
  {
    FlipFacts(b, s, h);
    assert b.flip(h, s) in b.positions;
    assert b.flip(h, b.flip(h, s)) in b.quiet(b.flip(h, y)) <==> b.flip(h, s) in b.quiet(y);
  }

  lemma PredecessorClass<X(!new)>(b: Board<X>, s: X, y: X)
    requires Regular(b) && s in b.positions && y in Reps(b)
    ensures |RepClass(b, Predecessors(b, s), y)| == MovesTo(b, y, s)
  {
    hide Regular, Flips, Reduction, Rep;
    var hs := FlipsTo(b, y, s);
    var to := (h: Flip) => b.flip(h, y);
    FlipIsInjective(b, y);
    forall h | h in Flips(b.kind)
      ensures h in hs <==> s in b.quiet(b.flip(h, y))
      ensures b.flip(h, y) in b.positions && Rep(b, b.flip(h, y)) == y
    {
      FlipMovesBack(b, s, y, h);
      FlippedRep(b, y, h);
    }
    assert RepClass(b, Predecessors(b, s), y) == set h | h in hs :: to(h) by {
      forall p | p in RepClass(b, Predecessors(b, s), y) ensures p in set h | h in hs :: to(h) {
        RepFlipsBack(b, p);
        assert to(Reduction(b, p)) == p;
      }
    }
    Injected(hs, RepClass(b, Predecessors(b, s), y), to);
  }

  // ---------------------------------------------------------------------
  // The move counter.

  /** A legal move as the counter sees it: quiet moves name their target square if
      the king moves, and their successor. */
  datatype Legal<+X> =
    | QuietLegal(king: bool, to: Square, successor: X)
    | ConversionLegal

  /** The quiet successors among the first moves of a list. */
  function QuietTargets<X>(legals: seq<Legal<X>>): set<X> {
    if legals == [] then {}
    else
      var m := legals[|legals| - 1];
      QuietTargets(legals[..|legals| - 1]) + if m.QuietLegal? then {m.successor} else {}
  }

  /** No quiet successor is listed twice. */
  predicate Distinct<X(==)>(legals: seq<Legal<X>>) {
    legals == []
    || (var m := legals[|legals| - 1];
        Distinct(legals[..|legals| - 1]) && (m.QuietLegal? ==> m.successor !in QuietTargets(legals[..|legals| - 1])))
  }

  /** Only the king moved by a king move changes place. */
  ghost predicate MovesKings<X>(b: Board<X>, x: X, m: Legal<X>) {
    m.QuietLegal? ==>
      b.stm(m.successor) == b.sntm(x) && b.sntm(m.successor) == if m.king then m.to else b.stm(x)
  }

  /** The list of legal moves of `x`. */
  ghost predicate ListsLegals<X(!new)>(b: Board<X>, x: X, legals: seq<Legal<X>>) {
    && Distinct(legals)
    && QuietTargets(legals) == b.quiet(x)
    && forall k | 0 <= k < |legals| :: MovesKings(b, x, legals[k])
  }

  function Conversions<X>(legals: seq<Legal<X>>): nat {
    if legals == [] then 0
    else Conversions(legals[..|legals| - 1]) + if legals[|legals| - 1].ConversionLegal? then 1 else 0
  }

  /** Successors that stand for four positions. */
  ghost function DiagonalTargets<X(!new)>(b: Board<X>, targets: set<X>): set<X> {
    set p | p in targets && IsDiagonal(b, p)
  }

  /** The counter: one per legal move, and one more per quiet king move from a
      position standing for eight to one standing for four. */
  method SymmetryAdjustedMoveCounter<X(!new)>(b: Board<X>, x: X, legals: seq<Legal<X>>) returns (counter: nat)
    requires Regular(b) && x in Reps(b) && ListsLegals(b, x, legals)
    ensures counter == Conversions(legals) + Counter(AsQuotient(b), x)
  {
    hide Regular, AsQuotient, Counter, DiagonalTargets, QuietTargets, Conversions, Distinct, IsDiagonal;
    CounterCountsMoves(b, x);
    DiagonalOfRep(b, x);
    NothingCounted(b, legals[..0]);
    if b.kind != Pawnless || OnLongDiagonal(b.stm(x), b.sntm(x)) {
      LegalsAreCounted(legals);
      return |legals|;
    }
    counter := 0;
    for k := 0 to |legals|
      invariant Distinct(legals[..k])
      invariant counter
             == Conversions(legals[..k]) + |QuietTargets(legals[..k])| + |DiagonalTargets(b, QuietTargets(legals[..k]))|
    {
      var m := legals[k];
      var adjust := m.QuietLegal? && m.king && OnLongDiagonal(m.to, b.sntm(x));
      counter := counter + if adjust then 2 else 1;
      DistinctPrefix(legals, k + 1);
      LegalsStep(b, legals, k);
      TargetsStep(b, x, QuietTargets(legals[..k]), m);
    }
    assert legals[..|legals|] == legals;
  }

  lemma {:induction false} DistinctPrefix<X>(legals: seq<Legal<X>>, k: nat)
    requires Distinct(legals) && k <= |legals|
    ensures Distinct(legals[..k])
  {
    if k < |legals| {
      DistinctPrefix(legals[..|legals| - 1], k);
      assert legals[..|legals| - 1][..k] == legals[..k];
    } else {
      assert legals[..k] == legals;
    }
  }

  lemma DiagonalOfRep<X(!new)>(b: Board<X>, x: X)
    ensures IsDiagonal(b, x) <==> b.kind != Pawnless || OnLongDiagonal(b.stm(x), b.sntm(x))
  {
  }

  lemma NothingCounted<X(!new)>(b: Board<X>, legals: seq<Legal<X>>)
    requires legals == []
    ensures Distinct(legals) && Conversions(legals) == |QuietTargets(legals)|
            == |DiagonalTargets(b, QuietTargets(legals))| == 0
  {
    assert DiagonalTargets(b, {}) == {};
  }

  /** What one more legal move adds. */
  lemma LegalsStep<X(!new)>(b: Board<X>, legals: seq<Legal<X>>, k: nat)
    requires k < |legals| && Distinct(legals[..k + 1])
    ensures var m := legals[k];
            if m.QuietLegal? then
              && Conversions(legals[..k + 1]) == Conversions(legals[..k])
              && QuietTargets(legals[..k + 1]) == QuietTargets(legals[..k]) + {m.successor}
              && m.successor !in QuietTargets(legals[..k])
            else
              && Conversions(legals[..k + 1]) == Conversions(legals[..k]) + 1
              && QuietTargets(legals[..k + 1]) == QuietTargets(legals[..k])
  {
    assert legals[..k + 1][..k] == legals[..k];
  }

  lemma TargetsStep<X(!new)>(b: Board<X>, x: X, before: set<X>, m: Legal<X>)
    requires b.kind == Pawnless && !OnLongDiagonal(b.stm(x), b.sntm(x)) && MovesKings(b, x, m)
    requires m.QuietLegal? ==> m.successor !in before
    ensures m.QuietLegal? ==> (
              |DiagonalTargets(b, before + {m.successor})|
              == |DiagonalTargets(b, before)| + if m.king && OnLongDiagonal(m.to, b.sntm(x)) then 1 else 0)
  {
    if m.QuietLegal? {
      var after := DiagonalTargets(b, before + {m.successor});
      if IsDiagonal(b, m.successor) {
        assert after == DiagonalTargets(b, before) + {m.successor};
      } else {
        assert after == DiagonalTargets(b, before);
      }
    }
  }

  lemma {:induction false} LegalsAreCounted<X(!new)>(legals: seq<Legal<X>>)
    requires Distinct(legals)
    ensures |legals| == Conversions(legals) + |QuietTargets(legals)|
  {
    if legals != [] {
      LegalsAreCounted(legals[..|legals| - 1]);
    }
  }

  /** The quotient's counter counts the concrete quiet moves, those that need the
      adjustment twice. */
  lemma CounterCountsMoves<X(!new)>(b: Board<X>, x: X)
    requires Regular(b) && x in Reps(b)
    ensures Counter(AsQuotient(b), x)
         == |b.quiet(x)| + if IsDiagonal(b, x) then 0 else |DiagonalTargets(b, b.quiet(x))|
  {
    hide Regular, IsDiagonal, Counter, MovesTo;
    var direct := (z: X) => MovesTo(b, x, z);
    var doubled := (z: X) => if !IsDiagonal(b, x) && IsDiagonal(b, z) then MovesTo(b, x, z) else 0;
    QuietIsCounted(b, x, direct);
    if IsDiagonal(b, x) {
      SumZero(Reps(b), doubled);
    } else {
      DiagonalIsCounted(b, x, doubled);
    }
    WeightsAdd(b, x, direct, doubled);
  }

  lemma WeightsAdd<X(!new)>(b: Board<X>, x: X, direct: X -> nat, doubled: X -> nat)
    requires forall z | z in Reps(b) :: direct(z) == MovesTo(b, x, z)
    requires forall z | z in Reps(b) ::
               doubled(z) == if !IsDiagonal(b, x) && IsDiagonal(b, z) then MovesTo(b, x, z) else 0
    ensures Counter(AsQuotient(b), x) == Sum(Reps(b), direct) + Sum(Reps(b), doubled)
  {
    var weights := (z: X) => direct(z) + doubled(z);
    SumPlus(Reps(b), direct, doubled, weights);
    CounterIsSum(AsQuotient(b), x, weights);
  }

  lemma QuietIsCounted<X(!new)>(b: Board<X>, x: X, direct: X -> nat)
    requires Regular(b) && x in Reps(b) && forall z | z in Reps(b) :: direct(z) == MovesTo(b, x, z)
    ensures Sum(Reps(b), direct) == |b.quiet(x)|
  {
    forall p | p in b.quiet(x) ensures Rep(b, p) in Reps(b) {
      RepsExist(b, p);
    }
    forall z | z in Reps(b) ensures direct(z) == |RepClass(b, b.quiet(x), z)| {
      SuccessorClass(b, x, z);
    }
    SumOfRepClasses(b, b.quiet(x), Reps(b), direct);
  }

  lemma DiagonalIsCounted<X(!new)>(b: Board<X>, x: X, doubled: X -> nat)
    requires Regular(b) && x in Reps(b)
    requires forall z | z in Reps(b) :: doubled(z) == if IsDiagonal(b, z) then MovesTo(b, x, z) else 0
    ensures Sum(Reps(b), doubled) == |DiagonalTargets(b, b.quiet(x))|
  {
    var targets := DiagonalTargets(b, b.quiet(x));
    forall p | p in b.quiet(x) ensures Rep(b, p) in Reps(b) && IsDiagonal(b, Rep(b, p)) == IsDiagonal(b, p) {
      RepsExist(b, p);
      RepIsDiagonal(b, p);
    }
    forall z | z in Reps(b) ensures doubled(z) == |RepClass(b, targets, z)| {
      if IsDiagonal(b, z) {
        assert RepClass(b, targets, z) == RepClass(b, b.quiet(x), z);
        SuccessorClass(b, x, z);
      } else {
        assert RepClass(b, targets, z) == {};
      }
    }
    SumOfRepClasses(b, targets, Reps(b), doubled);
  }

  lemma RepIsDiagonal<X(!new)>(b: Board<X>, p: X)
    requires Regular(b) && p in b.positions
    ensures IsDiagonal(b, Rep(b, p)) == IsDiagonal(b, p)
  {
    hide Reduction, TransposeActs;
    FlipFacts(b, p, Flip(false, false));
    assert b.stm(Rep(b, p)) == b.stm(p).Flipped(Reduction(b, p));
    assert b.sntm(Rep(b, p)) == b.sntm(p).Flipped(Reduction(b, p));
  }

  // ---------------------------------------------------------------------
  // Unmoves.

  /** How often `i` occurs in the list of emitted indices. */
  function Occurrences<X(==)>(xs: seq<X>, i: X): nat {
    multiset(xs)[i]
  }

  /** The predecessors whose index is emitted a second time, reflected to `i`. */
  ghost function ReflectedClass<X(!new)>(b: Board<X>, s: set<X>, i: X): set<X> {
    set p | p in s && IsDiagonal(b, Canon(b, p)) && Mirror(b, Canon(b, p)) == i
  }

  /** Whether the diagonal adjustment applies to the unmoves of `s`. */
  predicate UsesDiagonal<X>(b: Board<X>, s: X) {
    b.kind == Pawnless && !OnLongDiagonal(b.stm(s), b.sntm(s))
  }

  ghost function EmittedFrom<X(!new)>(b: Board<X>, s: X, preds: set<X>, i: X): nat {
    |IndexClass(b, preds, i)| + if UsesDiagonal(b, s) then |ReflectedClass(b, preds, i)| else 0
  }

  function Elements<X>(xs: seq<X>): set<X> {
    set x | x in xs
  }

  /** Emits the index of every quiet predecessor of `s`, and the diagonal
      reflection of that index when it stands for four positions and `s` for eight. */
  method QuietUnmoves<X(==, !new)>(b: Board<X>, s: X, preds: seq<X>) returns (emitted: seq<X>)
    requires forall k, l | 0 <= k < l < |preds| :: preds[k] != preds[l]
    ensures forall i :: Occurrences(emitted, i) == EmittedFrom(b, s, Elements(preds), i)
  {
    emitted := [];
    for k := 0 to |preds|
      invariant forall i :: Occurrences(emitted, i) == EmittedFrom(b, s, Elements(preds[..k]), i)
    {
      ghost var before := emitted;
      var index := Canon(b, preds[k]);
      emitted := emitted + [index];
      if UsesDiagonal(b, s) && IsDiagonal(b, index) {
        emitted := emitted + [Mirror(b, index)];
      }
      assert Elements(preds[..k + 1]) == Elements(preds[..k]) + {preds[k]};
      forall i ensures Occurrences(emitted, i) == EmittedFrom(b, s, Elements(preds[..k + 1]), i) {
        EmitOneMore(b, s, Elements(preds[..k]), preds[k], i);
        assert Occurrences(before, i) == EmittedFrom(b, s, Elements(preds[..k]), i);
      }
    }
    assert preds[..|preds|] == preds;
  }

  lemma EmitOneMore<X(!new)>(b: Board<X>, s: X, done: set<X>, p: X, i: X)
    requires p !in done
    ensures EmittedFrom(b, s, done + {p}, i)
         == EmittedFrom(b, s, done, i) + (if Canon(b, p) == i then 1 else 0)
            + if UsesDiagonal(b, s) && IsDiagonal(b, Canon(b, p)) && Mirror(b, Canon(b, p)) == i then 1 else 0
  {
    hide Canon, Mirror, IsDiagonal, UsesDiagonal;
    OneMoreIndex(b, done, p, i);
    OneMoreReflected(b, done, p, i);
  }

  lemma OneMoreIndex<X(!new)>(b: Board<X>, done: set<X>, p: X, i: X)
    requires p !in done
    ensures |IndexClass(b, done + {p}, i)| == |IndexClass(b, done, i)| + if Canon(b, p) == i then 1 else 0
  {
    hide Canon;
    assert IndexClass(b, done + {p}, i) == IndexClass(b, done, i) + if Canon(b, p) == i then {p} else {};
  }

  lemma OneMoreReflected<X(!new)>(b: Board<X>, done: set<X>, p: X, i: X)
    requires p !in done
    ensures |ReflectedClass(b, done + {p}, i)| == |ReflectedClass(b, done, i)|
              + if IsDiagonal(b, Canon(b, p)) && Mirror(b, Canon(b, p)) == i then 1 else 0
  {
    hide Canon, IsDiagonal, Mirror;
    assert ReflectedClass(b, done + {p}, i) == ReflectedClass(b, done, i)
        + if IsDiagonal(b, Canon(b, p)) && Mirror(b, Canon(b, p)) == i then {p} else {};
  }

  /** The predecessors of `s` with index `i`, counted by representative. */
  lemma IndexClassSize<X(!new)>(b: Board<X>, s: X, i: X)
    requires Regular(b) && s in b.positions
    ensures |IndexClass(b, Predecessors(b, s), i)| == MovesInto(AsQuotient(b), Preimage(AsQuotient(b), i), s)
  {
    var reps := Preimage(AsQuotient(b), i);
    var preds := IndexClass(b, Predecessors(b, s), i);
    var counts := (y: X) => MovesTo(b, y, s);
    forall p | p in preds ensures Rep(b, p) in reps {
      RepsExist(b, p);
    }
    forall y | y in reps ensures counts(y) == |RepClass(b, preds, y)| {
      PredecessorClass(b, s, y);
      assert RepClass(b, preds, y) == RepClass(b, Predecessors(b, s), y);
    }
    SumOfRepClasses(b, preds, reps, counts);
    MovesIntoIsSum(AsQuotient(b), reps, s, counts);
  }

  /** The emissions of a canonical position are those of the quotient. */
  lemma EmissionsAreQuotients<X(!new)>(b: Board<X>, s: X, i: X)
    requires Regular(b) && s in Canonical(AsQuotient(b)) && i in Canonical(AsQuotient(b))
    ensures EmittedFrom(b, s, Predecessors(b, s), i) == Emitted(AsQuotient(b), s, i)
  {
    IndexClassSize(b, s, i);
    if UsesDiagonal(b, s) {
      ReflectedClassSize(b, s, i);
    }
  }

  lemma CanonIsCanonical<X(!new)>(b: Board<X>, p: X)
    requires Regular(b) && p in b.positions
    ensures Canon(b, p) in Canonical(AsQuotient(b)) && Canon(b, p) in b.positions
  {
    QuotientIsValid(b);
    RepsExist(b, p);
    var q := AsQuotient(b);
    var y := Rep(b, p);
    assert q.mirror(y) in q.reps;
    assert q.diagonal(y) ==> q.canonical(y);
  }

  lemma ReflectedClassSize<X(!new)>(b: Board<X>, s: X, i: X)
    requires Regular(b) && s in b.positions && b.kind == Pawnless && i in Canonical(AsQuotient(b))
    ensures |ReflectedClass(b, Predecessors(b, s), i)|
         == if IsDiagonal(b, i) then MovesInto(AsQuotient(b), Preimage(AsQuotient(b), Mirror(b, i)), s) else 0
  {
    var preds := Predecessors(b, s);
    forall p | p in preds
      ensures p in ReflectedClass(b, preds, i) <==> IsDiagonal(b, i) && Canon(b, p) == Mirror(b, i)
    {
      CanonIsCanonical(b, p);
      MirrorFacts(b, Canon(b, p));
      MirrorFacts(b, i);
    }
    if IsDiagonal(b, i) {
      assert ReflectedClass(b, preds, i) == IndexClass(b, preds, Mirror(b, i));
      IndexClassSize(b, s, Mirror(b, i));
    } else {
      assert ReflectedClass(b, preds, i) == {};
    }
  }

  lemma MirrorFacts<X(!new)>(b: Board<X>, x: X)
    requires Regular(b) && x in b.positions
    ensures Mirror(b, Mirror(b, x)) == x && IsDiagonal(b, Mirror(b, x)) == IsDiagonal(b, x)
  {
  }

  // ---------------------------------------------------------------------
  // Emissions and forward moves.

  lemma SuccessorIsCounted<X(!new)>(b: Board<X>, x: X, z: X)
    requires Regular(b) && x in b.positions && z in b.quiet(x)
    ensures MovesTo(b, x, Rep(b, z)) > 0
  {
    var h := Reduction(b, z);
    FlipFacts(b, z, h);
    assert h in FlipsTo(b, x, Rep(b, z));
  }

  /** A canonical position emits every position that moves to an equivalent of it. */
  lemma SuccessorEmits<X(!new)>(b: Board<X>, x: X, z: X)
    requires Regular(b) && x in Canonical(AsQuotient(b)) && z in b.quiet(x)
    ensures Canon(b, z) in Canonical(AsQuotient(b))
    ensures Emitted(AsQuotient(b), Canon(b, z), x) > 0
  {
    CanonIsCanonical(b, z);
    RepsExist(b, z);
    SuccessorIsCounted(b, x, z);
    QuotientIsValid(b);
    var q := AsQuotient(b);
    assert q.moves(x, Rep(b, z)) > 0;
    MoveIsEmitted(q, Canon(b, z), x, Rep(b, z));
  }

  /** Conversely an emitted position moves to an equivalent of the source or of
      its diagonal reflection. */
  lemma EmittedHasSuccessor<X(!new)>(b: Board<X>, s: X, x: X) returns (z: X)
    requires Regular(b) && s in Canonical(AsQuotient(b)) && x in Canonical(AsQuotient(b))
    requires Emitted(AsQuotient(b), s, x) > 0
    ensures z in b.quiet(x)
    ensures Canon(b, z) == s || Canon(b, z) == Reflected(AsQuotient(b), s)
  {
    var q := AsQuotient(b);
    QuotientIsValid(b);
    var y := EmittedMove(q, s, x);
    z := FlippedSuccessor(b, x, y);
  }

  lemma FlippedSuccessor<X(!new)>(b: Board<X>, x: X, y: X) returns (z: X)
    requires Regular(b) && x in b.positions && y in Reps(b) && MovesTo(b, x, y) > 0
    ensures z in b.quiet(x) && Rep(b, z) == y
  {
    var h :| h in FlipsTo(b, x, y);
    z := b.flip(h, y);
    RepIsUnique(b, y, h);
    FlipFacts(b, y, Flip(false, false));
  }
}

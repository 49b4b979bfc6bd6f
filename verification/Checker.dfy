/** The consistency checker of a table pair, and what its acceptance means. */
module Checker {
  import opened Cells
  import opened Outcomes
  import opened Wrappers

  /** A valid position: no legal move (checkmate or stalemate), or some. */
  datatype Node<+P> =
    | Terminal(check: bool)
    | Playable(moves: seq<Move<P>>)

  type Game<P> = map<P, Node<P>>
  type Values<P> = map<P, DtcOutcome>

  predicate Covered<P>(moves: seq<Move<P>>, domain: set<P>) {
    forall i | 0 <= i < |moves| && moves[i].Quiet? :: moves[i].to in domain
  }

  /** Quiet play stays inside the game, and playable positions have a move. */
  ghost predicate WellFormed<P(!new)>(g: Game<P>) {
    forall p | p in g && g[p].Playable? :: g[p].moves != [] && Covered(g[p].moves, g.Keys)
  }

  function Value<P>(m: Move<P>, a: Values<P>): DtcOutcome
    requires m.Quiet? ==> m.to in a
  {
    MoveValue(m, if m.Quiet? then a[m.to] else m.dependency)
  }

  /** The running maximum after all of `moves`; ties keep the earlier move. */
  function Best<P>(moves: seq<Move<P>>, a: Values<P>): DtcOutcome
    requires moves != [] && Covered(moves, a.Keys)
  {
    var last := Value(moves[|moves| - 1], a);
    if |moves| == 1 then
      last
    else
      var best := Best(moves[..|moves| - 1], a);
      if Compare(last, best) == Greater then last else best
  }

  /** `v` is attained by a move and no move does better. */
  ghost predicate IsBest<P>(v: DtcOutcome, moves: seq<Move<P>>, a: Values<P>)
    requires Covered(moves, a.Keys)
  {
    && (exists i :: 0 <= i < |moves| && Value(moves[i], a) == v)
    && (forall i | 0 <= i < |moves| :: AtMost(Value(moves[i], a), v))
  }

  lemma {:induction false} BestIsBest<P>(moves: seq<Move<P>>, a: Values<P>)
    requires moves != [] && Covered(moves, a.Keys)
    ensures IsBest(Best(moves, a), moves, a)
  {
    var n := |moves| - 1;
    if n > 0 {
      var rest := moves[..n];
      BestIsBest(rest, a);
      var last, best := Value(moves[n], a), Best(rest, a);
      var k :| 0 <= k < |rest| && Value(rest[k], a) == best;
      assert Value(moves[k], a) == best;
      forall i | 0 <= i < |moves| ensures AtMost(Value(moves[i], a), Best(moves, a)) {
        if i < n {
          assert rest[i] == moves[i];
          OrderIsLinear(Value(moves[i], a), best, last);
          OrderIsLinear(last, best, best);
        }
      }
      assert Value(moves[n], a) == last;
    } else {
      assert Value(moves[0], a) == Best(moves, a);
    }
  }

  lemma BestIsUnique<P>(moves: seq<Move<P>>, a: Values<P>, v: DtcOutcome)
    requires moves != [] && Covered(moves, a.Keys) && IsBest(v, moves, a)
    ensures v == Best(moves, a)
  {
    BestIsBest(moves, a);
    OrderIsLinear(v, Best(moves, a), v);
  }

  /** The value the rules and the successors' values give to a position. */
  function BackedUp<P>(node: Node<P>, a: Values<P>): DtcOutcome
    requires node.Playable? ==> node.moves != [] && Covered(node.moves, a.Keys)
  {
    match node
    case Terminal(check) => if check then Loss(Checkmate, 0) else Draw
    case Playable(moves) => Best(moves, a)
  }

  /** Every entry of the pair passes verification. */
  ghost predicate Accepts<P(!new)>(g: Game<P>, a: Values<P>)
    requires WellFormed(g)
  {
    a.Keys == g.Keys && forall p | p in g :: a[p] == BackedUp(g[p], a)
  }

  predicate DecidedWithin(o: DtcOutcome, n: nat) {
    !o.Draw? && o.plies <= n
  }

  /** Outcomes that cannot be told apart within `n` plies. */
  predicate AgreeWithin(v: DtcOutcome, w: DtcOutcome, n: nat) {
    DecidedWithin(v, n) || DecidedWithin(w, n) ==> v == w
  }

  /** Every entry passes as far as conversions within `n` plies go. */
  ghost predicate AcceptsWithin<P(!new)>(g: Game<P>, a: Values<P>, n: nat)
    requires WellFormed(g)
  {
    a.Keys == g.Keys && forall p | p in g :: AgreeWithin(a[p], BackedUp(g[p], a), n)
  }

  // ---------------------------------------------------------------------
  // The accepted value is the one forced by play.

  /** The side to move can force a favourable conversion (or mate) within `n`
      plies, one of a type at least `ct` if the opponent can delay it to ply `n`. */
  ghost predicate Forces<P(!new)>(g: Game<P>, p: P, ct: ConversionType, n: nat)
    requires WellFormed(g) && p in g
    decreases n
  {
    && n > 0
    && g[p].Playable?
    && exists i :: 0 <= i < |g[p].moves| && Carries(g, g[p].moves[i], ct, n)
  }

  ghost predicate Carries<P(!new)>(g: Game<P>, m: Move<P>, ct: ConversionType, n: nat)
    requires WellFormed(g) && 0 < n && (m.Quiet? ==> m.to in g)
    decreases n, 0
  {
    if m.Quiet? then
      IsHeld(g, m.to, ct, n - 1)
    else
      m.dependency.Loss? && (n == 1 ==> Preference(ct) <= Preference(m.Type()))
  }

  /** Whatever the side to move plays, the opponent forces a favourable
      conversion (or mate) within `n` plies, in the same sense. */
  ghost predicate IsHeld<P(!new)>(g: Game<P>, p: P, ct: ConversionType, n: nat)
    requires WellFormed(g) && p in g
    decreases n, 1
  {
    match g[p]
    case Terminal(check) => check
    case Playable(moves) =>
      n > 0 && forall i | 0 <= i < |moves| :: Concedes(g, moves[i], ct, n)
  }

  ghost predicate Concedes<P(!new)>(g: Game<P>, m: Move<P>, ct: ConversionType, n: nat)
    requires WellFormed(g) && 0 < n && (m.Quiet? ==> m.to in g)
    decreases n, 0
  {
    if m.Quiet? then
      Forces(g, m.to, ct, n - 1)
    else
      m.dependency.Win? && (n == 1 ==> Preference(ct) <= Preference(m.Type()))
  }

  /** Values accepted within a depth reach a winning threshold of that depth exactly
      when it can be forced, and stay below a losing one exactly when it is imposed. */
  lemma {:induction false} ThresholdsWithin<P(!new)>(g: Game<P>, a: Values<P>, depth: nat, p: P, ct: ConversionType,
                                                     n: nat)
    requires WellFormed(g) && AcceptsWithin(g, a, depth) && p in g && n <= depth
    ensures Forces(g, p, ct, n) <==> AtMost(Win(ct, n), a[p])
    ensures IsHeld(g, p, ct, n) <==> AtMost(a[p], Loss(ct, n))
    decreases n
  {
    var best := BackedUp(g[p], a);
    SameThresholds(a[p], best, depth, ct, n);
    if g[p].Playable? {
      var moves := g[p].moves;
      if n > 0 {
        forall i | 0 <= i < |moves|
          ensures Carries(g, moves[i], ct, n) <==> AtMost(Win(ct, n), Value(moves[i], a))
          ensures Concedes(g, moves[i], ct, n) <==> AtMost(Value(moves[i], a), Loss(ct, n))
        {
          if moves[i].Quiet? {
            ThresholdsWithin(g, a, depth, moves[i].to, ct, n - 1);
          }
          MoveThreshold(g, a, moves[i], ct, n);
        }
        PlayedThreshold(g, a, p, ct, n);
      } else {
        BestIsBest(moves, a);
      }
    }
  }

  lemma SameThresholds(v: DtcOutcome, w: DtcOutcome, depth: nat, ct: ConversionType, n: nat)
    requires AgreeWithin(v, w, depth) && n <= depth
    ensures AtMost(Win(ct, n), v) <==> AtMost(Win(ct, n), w)
    ensures AtMost(v, Loss(ct, n)) <==> AtMost(w, Loss(ct, n))
  {
  }

  /** The same at any depth, for values that pass everywhere. */
  lemma AcceptedThresholds<P(!new)>(g: Game<P>, a: Values<P>, p: P, ct: ConversionType, n: nat)
    requires WellFormed(g) && Accepts(g, a) && p in g
    ensures Forces(g, p, ct, n) <==> AtMost(Win(ct, n), a[p])
    ensures IsHeld(g, p, ct, n) <==> AtMost(a[p], Loss(ct, n))
  {
    hide Forces, IsHeld, BackedUp, AtMost;
    ThresholdsWithin(g, a, n, p, ct, n);
  }

  /** One ply of a threshold. */
  lemma MoveThreshold<P(!new)>(g: Game<P>, a: Values<P>, m: Move<P>, ct: ConversionType, n: nat)
    requires WellFormed(g) && a.Keys == g.Keys && n > 0 && (m.Quiet? ==> m.to in g)
    requires m.Quiet? ==>
               && (Forces(g, m.to, ct, n - 1) <==> AtMost(Win(ct, n - 1), a[m.to]))
               && (IsHeld(g, m.to, ct, n - 1) <==> AtMost(a[m.to], Loss(ct, n - 1)))
    ensures Carries(g, m, ct, n) <==> AtMost(Win(ct, n), Value(m, a))
    ensures Concedes(g, m, ct, n) <==> AtMost(Value(m, a), Loss(ct, n))
  {
    hide Forces, IsHeld, WellFormed;
  }

  lemma PlayedThreshold<P(!new)>(g: Game<P>, a: Values<P>, p: P, ct: ConversionType, n: nat)
    requires WellFormed(g) && a.Keys == g.Keys && p in g && g[p].Playable? && n > 0
    requires forall i | 0 <= i < |g[p].moves| ::
               && (Carries(g, g[p].moves[i], ct, n) <==> AtMost(Win(ct, n), Value(g[p].moves[i], a)))
               && (Concedes(g, g[p].moves[i], ct, n) <==> AtMost(Value(g[p].moves[i], a), Loss(ct, n)))
    ensures Forces(g, p, ct, n) <==> AtMost(Win(ct, n), BackedUp(g[p], a))
    ensures IsHeld(g, p, ct, n) <==> AtMost(BackedUp(g[p], a), Loss(ct, n))
  {
    hide Best, AtMost, Value, Carries, Concedes;
    BestAgainstThreshold(g[p].moves, a, Win(ct, n));
    BestAgainstThreshold(g[p].moves, a, Loss(ct, n));
  }

  lemma BestAgainstThreshold<P>(moves: seq<Move<P>>, a: Values<P>, t: DtcOutcome)
    requires moves != [] && Covered(moves, a.Keys)
    ensures AtMost(t, Best(moves, a)) <==> exists i :: 0 <= i < |moves| && AtMost(t, Value(moves[i], a))
    ensures AtMost(Best(moves, a), t) <==> forall i | 0 <= i < |moves| :: AtMost(Value(moves[i], a), t)
  {
    BestIsBest(moves, a);
    var best := Best(moves, a);
    var k :| 0 <= k < |moves| && Value(moves[k], a) == best;
    forall i | 0 <= i < |moves|
      ensures AtMost(t, Value(moves[i], a)) ==> AtMost(t, best)
      ensures AtMost(best, t) ==> AtMost(Value(moves[i], a), t)
    {
      OrderIsLinear(t, Value(moves[i], a), best);
      OrderIsLinear(Value(moves[i], a), best, t);
    }
  }

  /** The best conversion that can be forced. */
  ghost predicate BestForced<P(!new)>(g: Game<P>, p: P, ct: ConversionType, n: nat)
    requires WellFormed(g) && p in g
  {
    Forces(g, p, ct, n) && forall ct', n' | Forces(g, p, ct', n') :: AtMost(Win(ct', n'), Win(ct, n))
  }

  /** The latest conversion that the side to move can be held to. */
  ghost predicate BestHeld<P(!new)>(g: Game<P>, p: P, ct: ConversionType, n: nat)
    requires WellFormed(g) && p in g
  {
    IsHeld(g, p, ct, n) && forall ct', n' | IsHeld(g, p, ct', n') :: AtMost(Loss(ct, n), Loss(ct', n'))
  }

  ghost predicate NothingForced<P(!new)>(g: Game<P>, p: P)
    requires WellFormed(g) && p in g
  {
    forall ct, n :: !Forces(g, p, ct, n) && !IsHeld(g, p, ct, n)
  }

  lemma AcceptedKeys<P(!new)>(g: Game<P>, a: Values<P>)
    requires WellFormed(g) && Accepts(g, a)
    ensures a.Keys == g.Keys
  {
  }

  /** The accepted value is exactly the best that can be forced: the shortest
      win with its best type, the longest loss, and a draw when neither side
      can force a conversion. */
  lemma AcceptedValueIsForced<P(!new)>(g: Game<P>, a: Values<P>, p: P)
    requires WellFormed(g) && Accepts(g, a) && p in g
    ensures forall ct, n :: a[p] == Win(ct, n) <==> BestForced(g, p, ct, n)
    ensures forall ct, n :: a[p] == Loss(ct, n) <==> BestHeld(g, p, ct, n)
    ensures a[p] == Draw <==> NothingForced(g, p)
  {
    hide WellFormed, Accepts, Forces, IsHeld;
    AcceptedKeys(g, a);
    forall ct, n
      ensures Forces(g, p, ct, n) <==> AtMost(Win(ct, n), a[p])
      ensures IsHeld(g, p, ct, n) <==> AtMost(a[p], Loss(ct, n))
    {
      AcceptedThresholds(g, a, p, ct, n);
    }
    match a[p]
    case Win(ct, n) => assert Forces(g, p, ct, n);
    case Loss(ct, n) => assert IsHeld(g, p, ct, n);
    case Draw =>
  }

  /** Values accepted within a depth are, as far as it goes, the forced ones. */
  lemma AcceptedWithinIsForced<P(!new)>(g: Game<P>, a: Values<P>, depth: nat, p: P, ct: ConversionType, n: nat)
    requires WellFormed(g) && AcceptsWithin(g, a, depth) && p in g && n <= depth
    ensures a[p] == Win(ct, n) <==> BestForced(g, p, ct, n)
    ensures a[p] == Loss(ct, n) <==> BestHeld(g, p, ct, n)
  {
    hide Forces, IsHeld, BackedUp, WellFormed;
    forall ct', n': nat | n' <= depth
      ensures Forces(g, p, ct', n') <==> AtMost(Win(ct', n'), a[p])
      ensures IsHeld(g, p, ct', n') <==> AtMost(a[p], Loss(ct', n'))
    {
      ThresholdsWithin(g, a, depth, p, ct', n');
    }
    if BestForced(g, p, ct, n) {
      assert Forces(g, p, a[p].ct, a[p].plies);
    }
    if BestHeld(g, p, ct, n) {
      assert IsHeld(g, p, a[p].ct, a[p].plies);
    }
  }

  /** No position is decided at a greater distance. */
  ghost predicate DepthFits<P(!new)>(g: Game<P>)
    requires WellFormed(g)
  {
    forall p, ct, n | p in g && (BestForced(g, p, ct, n) || BestHeld(g, p, ct, n)) :: n < 0x2000
  }

  // ---------------------------------------------------------------------
  // Games with the same forced outcomes.

  /** Two moves of two games carry and concede alike. */
  ghost predicate SameMove<P(!new)>(g: Game<P>, m: Move<P>, g': Game<P>, m': Move<P>, ct: ConversionType, n: nat)
    requires WellFormed(g) && WellFormed(g') && n > 0
    requires (m.Quiet? ==> m.to in g) && (m'.Quiet? ==> m'.to in g')
  {
    && (Carries(g, m, ct, n) <==> Carries(g', m', ct, n))
    && (Concedes(g, m, ct, n) <==> Concedes(g', m', ct, n))
  }

  /** Every move of one position is like a move of the other. */
  ghost predicate MovesWithin<P(!new)>(g: Game<P>, p: P, g': Game<P>, p': P, ct: ConversionType, n: nat)
    requires WellFormed(g) && WellFormed(g') && n > 0
    requires p in g && g[p].Playable? && p' in g' && g'[p'].Playable?
  {
    forall k | 0 <= k < |g[p].moves| :: HasSameMove(g, g[p].moves[k], g', p', ct, n)
  }

  ghost predicate HasSameMove<P(!new)>(g: Game<P>, m: Move<P>, g': Game<P>, p': P, ct: ConversionType, n: nat)
    requires WellFormed(g) && WellFormed(g') && n > 0 && (m.Quiet? ==> m.to in g)
    requires p' in g' && g'[p'].Playable?
  {
    exists k :: 0 <= k < |g'[p'].moves| && SameMove(g, m, g', g'[p'].moves[k], ct, n)
  }

  /** The same conversions are forced in positions of two games. */
  ghost predicate ForcesAlike<P(!new)>(g: Game<P>, p: P, g': Game<P>, p': P, ct: ConversionType, n: nat)
    requires WellFormed(g) && WellFormed(g') && p in g && p' in g'
  {
    && (Forces(g, p, ct, n) <==> Forces(g', p', ct, n))
    && (IsHeld(g, p, ct, n) <==> IsHeld(g', p', ct, n))
  }

  lemma MatchingPositionsForceAlike<P(!new)>(g: Game<P>, p: P, g': Game<P>, p': P, ct: ConversionType, n: nat)
    requires WellFormed(g) && WellFormed(g') && p in g && p' in g' && g[p].Playable? && g'[p'].Playable?
    requires n > 0 ==> MovesWithin(g, p, g', p', ct, n) && MovesWithin(g', p', g, p, ct, n)
    ensures ForcesAlike(g, p, g', p', ct, n)
  {
    if n > 0 {
      ForcesCarriesOver(g, p, g', p', ct, n);
      ForcesCarriesOver(g', p', g, p, ct, n);
    }
  }

  lemma ForcesCarriesOver<P(!new)>(g: Game<P>, p: P, g': Game<P>, p': P, ct: ConversionType, n: nat)
    requires WellFormed(g) && WellFormed(g') && p in g && p' in g' && g[p].Playable? && g'[p'].Playable? && n > 0
    requires MovesWithin(g, p, g', p', ct, n)
    ensures Forces(g, p, ct, n) ==> Forces(g', p', ct, n)
    ensures IsHeld(g', p', ct, n) ==> IsHeld(g, p, ct, n)
  {
    hide Carries, Concedes;
    if Forces(g, p, ct, n) {
      var k :| 0 <= k < |g[p].moves| && Carries(g, g[p].moves[k], ct, n);
      assert HasSameMove(g, g[p].moves[k], g', p', ct, n);
    }
    if IsHeld(g', p', ct, n) {
      forall k | 0 <= k < |g[p].moves| ensures Concedes(g, g[p].moves[k], ct, n) {
        assert HasSameMove(g, g[p].moves[k], g', p', ct, n);
      }
    }
  }

  lemma MovesStayInGame<P(!new)>(g: Game<P>, p: P)
    requires WellFormed(g) && p in g && g[p].Playable?
    ensures Covered(g[p].moves, g.Keys)
  {
  }

  /** Quiet moves to positions that force alike are alike. */
  lemma QuietMovesAlike<P(!new)>(g: Game<P>, m: Move<P>, g': Game<P>, m': Move<P>, ct: ConversionType, n: nat)
    requires WellFormed(g) && WellFormed(g') && n > 0 && m.Quiet? && m'.Quiet? && m.to in g && m'.to in g'
    requires ForcesAlike(g, m.to, g', m'.to, ct, n - 1)
    ensures SameMove(g, m, g', m', ct, n)
  {
  }

  /** A conversion carries and concedes alike in every game. */
  lemma ConversionsAlike<P(!new)>(g: Game<P>, m: Move<P>, g': Game<P>, ct: ConversionType, n: nat)
    requires WellFormed(g) && WellFormed(g') && n > 0 && m.IsConversion()
    ensures SameMove(g, m, g', m, ct, n)
  {
  }

  /** For fixed dependency values the checker accepts at most one assignment. */
  lemma AcceptanceIsUnique<P(!new)>(g: Game<P>, a: Values<P>, b: Values<P>)
    requires WellFormed(g) && Accepts(g, a) && Accepts(g, b)
    ensures a == b
  {
    hide BestForced, BestHeld, NothingForced, BackedUp, WellFormed;
    forall p | p in g ensures a[p] == b[p] {
      AcceptedValueIsForced(g, a, p);
      AcceptedValueIsForced(g, b, p);
      match a[p]
      case Win(ct, n) => assert BestForced(g, p, ct, n);
      case Loss(ct, n) => assert BestHeld(g, p, ct, n);
      case Draw =>
    }
  }

  /** Values that are decided earlier than the depth they are accepted for are accepted. */
  lemma EarlyValuesAreAccepted<P(!new)>(g: Game<P>, a: Values<P>, depth: nat)
    requires WellFormed(g) && AcceptsWithin(g, a, depth) && depth > 0
    requires forall p | p in g && !a[p].Draw? :: a[p].plies < depth
    ensures Accepts(g, a)
  {
    forall p | p in g ensures a[p] == BackedUp(g[p], a) {
      if g[p].Playable? {
        BestIsBest(g[p].moves, a);
        var i :| 0 <= i < |g[p].moves| && Value(g[p].moves[i], a) == BackedUp(g[p], a);
        assert !BackedUp(g[p], a).Draw? ==> BackedUp(g[p], a).plies <= depth;
      }
    }
  }

  // ---------------------------------------------------------------------
  // Decisions in one ply, move by move.

  /** The move wins at once by `ct`: it mates, or it leaves for a lost table by a capture
      of any kind or by a plain promotion. */
  predicate WinsAtOnce<P>(m: Move<P>, a: Values<P>, ct: ConversionType)
    requires m.Quiet? ==> m.to in a
  {
    match m
    case Quiet(to) => a[to] == Loss(ct, 0)
    case Capturing(_, dependency) => ct == Capture && dependency.Loss?
    case Promoting(dependency) => ct == Promotion && dependency.Loss?
  }

  /** The move loses at once by `ct`. */
  predicate LosesAtOnce<P>(m: Move<P>, a: Values<P>, ct: ConversionType)
    requires m.Quiet? ==> m.to in a
  {
    match m
    case Quiet(to) => a[to] == Win(ct, 0)
    case Capturing(_, dependency) => ct == Capture && dependency.Win?
    case Promoting(dependency) => ct == Promotion && dependency.Win?
  }

  ghost predicate SomeWins<P>(moves: seq<Move<P>>, a: Values<P>, ct: ConversionType)
    requires Covered(moves, a.Keys)
  {
    exists i :: 0 <= i < |moves| && WinsAtOnce(moves[i], a, ct)
  }

  ghost predicate SomeLoses<P>(moves: seq<Move<P>>, a: Values<P>, ct: ConversionType)
    requires Covered(moves, a.Keys)
  {
    exists i :: 0 <= i < |moves| && LosesAtOnce(moves[i], a, ct)
  }

  ghost predicate AllLose<P>(moves: seq<Move<P>>, a: Values<P>)
    requires Covered(moves, a.Keys)
  {
    forall i | 0 <= i < |moves| ::
      LosesAtOnce(moves[i], a, Checkmate) || LosesAtOnce(moves[i], a, Capture) || LosesAtOnce(moves[i], a, Promotion)
  }

  lemma AtOnceIsValue<P>(m: Move<P>, a: Values<P>, ct: ConversionType)
    requires m.Quiet? ==> m.to in a
    ensures WinsAtOnce(m, a, ct) <==> Value(m, a) == Win(ct, 1)
    ensures LosesAtOnce(m, a, ct) <==> Value(m, a) == Loss(ct, 1)
    ensures Value(m, a) != Win(ct, 0) && Value(m, a) != Loss(ct, 0)
  {
  }

  /** What attains and bounds the best value, if it is a win in one ply. */
  lemma BestWinInOne<P>(moves: seq<Move<P>>, a: Values<P>, ct: ConversionType)
    requires moves != [] && Covered(moves, a.Keys)
    ensures Best(moves, a) == Win(ct, 1) <==>
              && SomeWins(moves, a, ct)
              && forall other | SomeWins(moves, a, other) :: AtMost(Win(other, 1), Win(ct, 1))
  {
    hide WinsAtOnce, LosesAtOnce, Value, Best, Compare;
    BestIsBest(moves, a);
    var v := Best(moves, a);
    var k :| 0 <= k < |moves| && Value(moves[k], a) == v;
    NeverZero(moves[k], a);
    forall i, other | 0 <= i < |moves| ensures WinsAtOnce(moves[i], a, other) <==> Value(moves[i], a) == Win(other, 1) {
      AtOnceIsValue(moves[i], a, other);
    }
    AboveOne(v);
    forall w ensures AtMost(v, w) && AtMost(w, v) ==> v == w {
      OrderIsLinear(v, w, v);
    }
  }

  /** The same for a loss in one ply. */
  lemma BestLossInOne<P>(moves: seq<Move<P>>, a: Values<P>, ct: ConversionType)
    requires moves != [] && Covered(moves, a.Keys)
    ensures Best(moves, a) == Loss(ct, 1) <==>
              && AllLose(moves, a) && SomeLoses(moves, a, ct)
              && forall other | SomeLoses(moves, a, other) :: AtMost(Loss(other, 1), Loss(ct, 1))
  {
    hide WinsAtOnce, LosesAtOnce, Value, Best, Compare;
    BestIsBest(moves, a);
    var v := Best(moves, a);
    var k :| 0 <= k < |moves| && Value(moves[k], a) == v;
    forall i, other | 0 <= i < |moves|
      ensures LosesAtOnce(moves[i], a, other) <==> Value(moves[i], a) == Loss(other, 1)
    {
      AtOnceIsValue(moves[i], a, other);
    }
    if v == Loss(ct, 1) {
      forall i | 0 <= i < |moves|
        ensures Value(moves[i], a) == Loss(Checkmate, 1) || Value(moves[i], a) == Loss(Capture, 1)
                || Value(moves[i], a) == Loss(Promotion, 1)
      {
        NeverZero(moves[i], a);
        BelowOne(Value(moves[i], a), ct);
      }
      assert AllLose(moves, a);
    } else if AllLose(moves, a) && SomeLoses(moves, a, ct) {
      assert LosesAtOnce(moves[k], a, Checkmate) || LosesAtOnce(moves[k], a, Capture)
             || LosesAtOnce(moves[k], a, Promotion);
      AtOnceIsValue(moves[k], a, Checkmate);
      AtOnceIsValue(moves[k], a, Capture);
      AtOnceIsValue(moves[k], a, Promotion);
      assert v.Loss?;
      assert v == Loss(v.ct, 1) && LosesAtOnce(moves[k], a, v.ct);
      assert SomeLoses(moves, a, v.ct) && AtMost(Loss(ct, 1), v);
      OrderIsLinear(v, Loss(ct, 1), v);
    }
  }

  predicate Zero(v: DtcOutcome) { !v.Draw? && v.plies == 0 }

  lemma NeverZero<P>(m: Move<P>, a: Values<P>)
    requires m.Quiet? ==> m.to in a
    ensures !Zero(Value(m, a))
  {
  }

  lemma AboveOne(v: DtcOutcome)
    requires !Zero(v)
    ensures (exists ct :: AtMost(Win(ct, 1), v)) ==> v.Win? && v.plies == 1
  {
  }

  lemma BelowOne(w: DtcOutcome, ct: ConversionType)
    requires !Zero(w) && AtMost(w, Loss(ct, 1))
    ensures w == Loss(Checkmate, 1) || w == Loss(Capture, 1) || w == Loss(Promotion, 1)
  {
  }

  /** A position is won at once by mate if some move mates, else by a capture if some
      capture, promoting or not, wins, else by a promotion if one wins. */
  lemma WinsInOne<P>(moves: seq<Move<P>>, a: Values<P>)
    requires moves != [] && Covered(moves, a.Keys)
    ensures var v := BackedUp(Playable(moves), a);
            && (v == Win(Checkmate, 1) <==> SomeWins(moves, a, Checkmate))
            && (v == Win(Capture, 1) <==> !SomeWins(moves, a, Checkmate) && SomeWins(moves, a, Capture))
            && (v == Win(Promotion, 1) <==>
                  && !SomeWins(moves, a, Checkmate) && !SomeWins(moves, a, Capture)
                  && SomeWins(moves, a, Promotion))
  {
    hide SomeWins, SomeLoses, AllLose, Best;
    BestWinInOne(moves, a, Checkmate);
    BestWinInOne(moves, a, Capture);
    BestWinInOne(moves, a, Promotion);
  }

  /** It is lost at once if every move loses at once: by a promotion if one loses so, else
      by a capture if one does, and by mate only if all moves allow it. */
  lemma LosesInOne<P>(moves: seq<Move<P>>, a: Values<P>)
    requires moves != [] && Covered(moves, a.Keys)
    ensures var v := BackedUp(Playable(moves), a);
            && (v == Loss(Promotion, 1) <==> AllLose(moves, a) && SomeLoses(moves, a, Promotion))
            && (v == Loss(Capture, 1) <==>
                  AllLose(moves, a) && !SomeLoses(moves, a, Promotion) && SomeLoses(moves, a, Capture))
            && (v == Loss(Checkmate, 1) <==>
                  AllLose(moves, a) && !SomeLoses(moves, a, Promotion) && !SomeLoses(moves, a, Capture))
  {
    hide SomeWins, SomeLoses, AllLose, Best;
    BestLossInOne(moves, a, Checkmate);
    BestLossInOne(moves, a, Capture);
    BestLossInOne(moves, a, Promotion);
    if AllLose(moves, a) {
      FirstLoses(moves, a);
    }
  }

  lemma FirstLoses<P>(moves: seq<Move<P>>, a: Values<P>)
    requires moves != [] && Covered(moves, a.Keys) && AllLose(moves, a)
    ensures SomeLoses(moves, a, Checkmate) || SomeLoses(moves, a, Capture) || SomeLoses(moves, a, Promotion)
  {
    assert LosesAtOnce(moves[0], a, Checkmate) || LosesAtOnce(moves[0], a, Capture)
           || LosesAtOnce(moves[0], a, Promotion);
  }

  // ---------------------------------------------------------------------
  // The checker itself, over the cells of the pair.

  /** The outcomes that can be read back; other cells are reported as corrupt. */
  function Readings<P>(cells: map<P, Cell>): Values<P> {
    map p | p in cells && ToOutcome(cells[p]).Some? :: ToOutcome(cells[p]).value
  }

  /** The best outcome over `moves`; `None` when a successor cannot be read. */
  method BestOutcome<P(==)>(moves: seq<Move<P>>, cells: map<P, Cell>) returns (r: Option<DtcOutcome>)
    requires moves != []
    ensures r.Some? <==> Covered(moves, Readings(cells).Keys)
    ensures r.Some? ==> IsBest(r.value, moves, Readings(cells))
  {
    ghost var a := Readings(cells);
    var best: Option<DtcOutcome> := None;
    for i := 0 to |moves|
      invariant Covered(moves[..i], a.Keys)
      invariant best.None? <==> i == 0
      invariant best.Some? ==> best.value == Best(moves[..i], a)
    {
      assert moves[..i + 1][..i] == moves[..i];
      var m := moves[i];
      var successor: DtcOutcome;
      if m.Quiet? {
        if m.to !in cells || ToOutcome(cells[m.to]).None? {
          return None;
        }
        successor := ToOutcome(cells[m.to]).value;
      } else {
        successor := m.dependency;
      }
      var v := MoveValue(m, successor);
      match best
      case Some(b) =>
        if Compare(v, b) == Greater {
          best := Some(v);
        }
      case None =>
        best := Some(v);
    }
    assert moves[..|moves|] == moves;
    BestIsBest(moves, a);
    r := best;
  }

  /** An index passes when it is invalid and stored as such, or holds the outcome
      backed up from its successors. */
  ghost predicate EntryPasses<P(!new)>(g: Game<P>, cells: map<P, Cell>, position: Option<P>, stored: Cell)
    requires WellFormed(g) && (position.Some? ==> position.value in g)
  {
    match position
    case None => stored.Invalid?
    case Some(p) =>
      var a := Readings(cells);
      && ToOutcome(stored).Some?
      && (g[p].Playable? ==> Covered(g[p].moves, a.Keys))
      && ToOutcome(stored).value == BackedUp(g[p], a)
  }

  /** Why an entry fails. */
  datatype Failure =
    | NotInvalid | UnexpectedlyInvalid | Corrupt | WrongCheckmate | WrongStalemate | UnreadableSuccessor | NotBest

  ghost predicate IsFailure<P(!new)>(g: Game<P>, cells: map<P, Cell>, position: Option<P>, stored: Cell, why: Failure)
    requires WellFormed(g) && (position.Some? ==> position.value in g)
  {
    var a, outcome := Readings(cells), ToOutcome(stored);
    match why
    case NotInvalid => position.None? && !stored.Invalid?
    case UnexpectedlyInvalid => position.Some? && stored.Invalid?
    case Corrupt => position.Some? && stored.Unknown?
    case WrongCheckmate =>
      position.Some? && g[position.value] == Terminal(true) && outcome.Some? && outcome.value != Loss(Checkmate, 0)
    case WrongStalemate =>
      position.Some? && g[position.value] == Terminal(false) && outcome.Some? && outcome.value != Draw
    case UnreadableSuccessor =>
      position.Some? && g[position.value].Playable? && outcome.Some? && !Covered(g[position.value].moves, a.Keys)
    case NotBest =>
      && position.Some? && g[position.value].Playable? && outcome.Some? && Covered(g[position.value].moves, a.Keys)
      && !IsBest(outcome.value, g[position.value].moves, a)
  }

  /** An entry passes, or fails for exactly one reason. */
  lemma FailuresAreExclusive<P(!new)>(g: Game<P>, cells: map<P, Cell>, position: Option<P>, stored: Cell, why: Failure,
                                      why': Failure)
    requires WellFormed(g) && (position.Some? ==> position.value in g)
    ensures EntryPasses(g, cells, position, stored) <==> forall w :: !IsFailure(g, cells, position, stored, w)
    ensures IsFailure(g, cells, position, stored, why) && IsFailure(g, cells, position, stored, why') ==> why == why'
  {
    hide IsBest, Covered, Readings;
    var a := Readings(cells);
    if position.Some? && ToOutcome(stored).Some? && g[position.value].Playable?
      && Covered(g[position.value].moves, a.Keys) {
      BestIsBest(g[position.value].moves, a);
      if IsBest(ToOutcome(stored).value, g[position.value].moves, a) {
        BestIsUnique(g[position.value].moves, a, ToOutcome(stored).value);
      }
    }
    if !EntryPasses(g, cells, position, stored) {
      assert exists w :: IsFailure(g, cells, position, stored, w) by {
        var w := FailureOf(g, cells, position, stored);
        assert IsFailure(g, cells, position, stored, w);
      }
    }
  }

  ghost function FailureOf<P(!new)>(g: Game<P>, cells: map<P, Cell>, position: Option<P>, stored: Cell): Failure
    requires WellFormed(g) && (position.Some? ==> position.value in g)
  {
    if position.None? then NotInvalid
    else if stored.Invalid? then UnexpectedlyInvalid
    else if ToOutcome(stored).None? then Corrupt
    else
      match g[position.value]
      case Terminal(check) => if check then WrongCheckmate else WrongStalemate
      case Playable(moves) => if Covered(moves, Readings(cells).Keys) then NotBest else UnreadableSuccessor
  }

  /** One entry against its position. */
  method VerifyEntry<P(==, !new)>(g: Game<P>, cells: map<P, Cell>, position: Option<P>, stored: Cell)
    returns (failure: Option<Failure>)
    requires WellFormed(g) && (position.Some? ==> position.value in g)
    ensures failure.Some? ==> IsFailure(g, cells, position, stored, failure.value)
    ensures failure.None? ==> forall w :: !IsFailure(g, cells, position, stored, w)
  {
    if position.None? {
      return if stored.Invalid? then None else Some(NotInvalid);
    }
    if stored.Invalid? {
      return Some(UnexpectedlyInvalid);
    }
    if ToOutcome(stored).None? {
      return Some(Corrupt);
    }
    var outcome := ToOutcome(stored).value;
    match g[position.value]
    case Terminal(check) =>
      if check {
        failure := if outcome != Loss(Checkmate, 0) then Some(WrongCheckmate) else None;
      } else {
        failure := if outcome != Draw then Some(WrongStalemate) else None;
      }
    case Playable(moves) =>
      var best := BestOutcome(moves, cells);
      if best.None? {
        return Some(UnreadableSuccessor);
      }
      BestIsUnique(moves, Readings(cells), best.value);
      if best.value != outcome {
        if IsBest(outcome, moves, Readings(cells)) {
          BestIsUnique(moves, Readings(cells), outcome);
        }
        return Some(NotBest);
      }
      failure := None;
  }

  /** Scans a block of one table and stops at its first failing index, with the reason. */
  method VerifyBlock<P(==, !new)>(g: Game<P>, cells: map<P, Cell>, decode: seq<Option<P>>, stored: seq<Cell>,
                                  start: nat, end: nat)
    returns (failure: Option<(nat, Failure)>)
    requires WellFormed(g)
    requires forall i | 0 <= i < |decode| && decode[i].Some? :: decode[i].value in g
    requires |stored| == |decode| && start <= end <= |decode|
    ensures failure.None? <==> forall i | start <= i < end :: EntryPasses(g, cells, decode[i], stored[i])
    ensures failure.Some? ==>
      var (at, why) := failure.value;
      && start <= at < end
      && IsFailure(g, cells, decode[at], stored[at], why)
      && forall i | start <= i < at :: EntryPasses(g, cells, decode[i], stored[i])
  {
    hide EntryPasses, IsFailure, WellFormed;
    for i := start to end
      invariant forall k | start <= k < i :: EntryPasses(g, cells, decode[k], stored[k])
    {
      var why := VerifyEntry(g, cells, decode[i], stored[i]);
      FailuresAreExclusive(g, cells, decode[i], stored[i], NotBest, NotBest);
      if why.Some? {
        return Some((i, why.value));
      }
    }
    failure := None;
  }

  /** Every valid index of a pair passes exactly when the outcomes read from the
      pair form an accepted assignment. */
  lemma PassingIsAcceptance<P(!new)>(g: Game<P>, cells: map<P, Cell>)
    requires WellFormed(g) && cells.Keys == g.Keys
    ensures (forall p | p in g :: EntryPasses(g, cells, Some(p), cells[p])) <==> Accepts(g, Readings(cells))
  {
    var a := Readings(cells);
    if forall p | p in g :: EntryPasses(g, cells, Some(p), cells[p]) {
      forall p | p in g ensures p in a && a[p] == BackedUp(g[p], a) {
        assert EntryPasses(g, cells, Some(p), cells[p]);
      }
      assert a.Keys == g.Keys;
    }
  }
}

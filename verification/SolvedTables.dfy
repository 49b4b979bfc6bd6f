/** A pair of tables laid out over a board: its counters are balanced, and what the
    solver leaves passes the checker on the legal moves of every position. */
module SolvedTables {
  import opened Boards
  import opened Cells
  import opened Checker
  import opened Exactness
  import opened Initialization
  import opened Outcomes
  import opened Propagation
  import opened Retrograde
  import opened Scans
  import opened SolvedPair
  import opened Sums
  import opened Symmetry
  import opened WordRows
  import opened Wrappers

  /** `decode` gives the valid position of each index, `index` its inverse on
      canonical positions; `successors` lists the quiet successors. */
  datatype Layout<!X> = Layout(
    board: Board<X>,
    decode: seq<seq<Option<X>>>,
    slot: X -> nat,
    index: X -> nat,
    check: X -> bool,
    conversions: X -> seq<Move<Ref>>,
    successors: X -> seq<X>)

  predicate InLayout<X>(l: Layout<X>, slot: nat, i: nat) {
    slot < |l.decode| && i < |l.decode[slot]| && l.decode[slot][i].Some?
  }

  function At<X>(l: Layout<X>, r: Ref): X
    requires InLayout(l, r.slot, r.index)
  {
    l.decode[r.slot][r.index].value
  }

  function RefOf<X>(l: Layout<X>, x: X): Ref {
    Ref(l.slot(x), l.index(x))
  }

  ghost predicate IsCanonical<X(!new)>(l: Layout<X>, x: X) {
    x in Canonical(AsQuotient(l.board))
  }

  /** Decoding and indexing are inverse on canonical positions. */
  ghost predicate Indexed<X(!new)>(l: Layout<X>) {
    && (forall slot: nat, i: nat | InLayout(l, slot, i) ::
          IsCanonical(l, At(l, Ref(slot, i))) && RefOf(l, At(l, Ref(slot, i))) == Ref(slot, i))
    && (forall x | IsCanonical(l, x) :: InLayout(l, l.slot(x), l.index(x)) && At(l, RefOf(l, x)) == x)
  }

  /** Quiet moves lead to the twin table, whose positions reflect like their images;
      reflected positions have the same conversions and the same check. */
  ghost predicate Played<X(!new)>(l: Layout<X>) {
    && 1 <= |l.decode| <= 2
    && (forall x, h | x in l.board.positions && h in Flips(l.board.kind) :: l.slot(l.board.flip(h, x)) == l.slot(x))
    && (forall x, z | x in l.board.positions && z in l.board.quiet(x) :: l.slot(x) + l.slot(z) == |l.decode| - 1)
    && (forall x | x in l.board.positions ::
          && l.slot(Mirror(l.board, x)) == l.slot(x)
          && l.check(Mirror(l.board, x)) == l.check(x)
          && Elements(l.conversions(Mirror(l.board, x))) == Elements(l.conversions(x))
          && AllConversions(l.conversions(x))
          && Elements(l.successors(x)) == l.board.quiet(x))
  }

  ghost predicate EntryFits<X(!new)>(l: Layout<X>, e: Entry, position: Option<X>) {
    match position
    case None => e.Rejected?
    case Some(x) =>
      if l.board.quiet(x) == {} && l.conversions(x) == [] then
        e == Final(l.check(x))
      else
        e == Open(Counter(AsQuotient(l.board), x) + |l.conversions(x)|, l.conversions(x))
  }

  /** `emitted` holds the indices of the twin that the unmoves of a position emit. */
  ghost predicate UnmovesFit<X(!new)>(l: Layout<X>, emitted: seq<nat>, slot: nat, position: Option<X>)
    requires slot < |l.decode|
  {
    var twin := |l.decode| - 1 - slot;
    match position
    case None => emitted == []
    case Some(s) =>
      && InRange(emitted, |l.decode[twin]|)
      && forall i: nat | InLayout(l, twin, i) ::
           Times(emitted, i) == EmittedFrom(l.board, s, Predecessors(l.board, s), At(l, Ref(twin, i)))
  }

  /** Exactly the positions with both kings on a long diagonal have a partner, the index
      of their reflection; rejected indices are paired with rejected ones. */
  ghost predicate DiagonalFits<X(!new)>(l: Layout<X>, diagonal: seq<Option<nat>>, slot: nat, i: nat)
    requires slot < |l.decode| && i < |diagonal| == |l.decode[slot]|
  {
    match l.decode[slot][i]
    case Some(x) =>
      diagonal[i] == if l.board.kind == Pawnless && OnLongDiagonal(l.board.stm(x), l.board.sntm(x))
                     then Some(l.index(l.board.transpose(x))) else None
    case None =>
      diagonal[i].Some? ==>
        var j := diagonal[i].value; j < |diagonal| && l.decode[slot][j].None? && diagonal[j] == Some(i)
  }

  ghost predicate TableFits<X(!new)>(l: Layout<X>, t: Table, slot: nat)
    requires slot < |l.decode|
  {
    && |t.entries| == |t.unmoves| == |t.diagonal| == |l.decode[slot]|
    && (forall i: nat | i < |t.entries| ::
          && EntryFits(l, t.entries[i], l.decode[slot][i])
          && UnmovesFit(l, t.unmoves[i], slot, l.decode[slot][i]))
    && (forall i: nat | i < |t.diagonal| :: DiagonalFits(l, t.diagonal, slot, i))
  }

  /** The pair handed to the solver describes the positions of the layout. */
  ghost predicate Represents<X(!new)>(l: Layout<X>, p: Pair) {
    && Regular(l.board) && Indexed(l) && Played(l)
    && |p.tables| == |l.decode|
    && TableFits(l, p.tables[0], 0)
    && TableFits(l, p.tables[|p.tables| - 1], |p.tables| - 1)
  }

  // ---------------------------------------------------------------------
  // The counters are balanced.

  ghost function DecodedBefore<X(!new)>(l: Layout<X>, slot: nat, n: nat): set<X>
    requires slot < |l.decode| && n <= |l.decode[slot]|
  {
    set i: nat | i < n && l.decode[slot][i].Some? :: l.decode[slot][i].value
  }

  /** Emissions counted index by index are a sum over positions. */
  lemma {:induction false} EmissionsAsSum<X(!new)>(l: Layout<X>, slot: nat, unmoves: seq<seq<nat>>, n: nat, i: nat,
                                                   emitted: X -> nat)
    requires Indexed(l) && slot < |l.decode| && n <= |l.decode[slot]| && n <= |unmoves|
    requires forall j: nat | j < n && l.decode[slot][j].None? :: unmoves[j] == []
    requires forall j: nat | j < n && l.decode[slot][j].Some? ::
               Times(unmoves[j], i) == emitted(l.decode[slot][j].value)
    ensures TimesEmitted(unmoves[..n], i) == Sum(DecodedBefore(l, slot, n), emitted)
  {
    hide Indexed;
    if n == 0 {
      assert DecodedBefore(l, slot, 0) == {};
    } else {
      EmissionsAsSum(l, slot, unmoves, n - 1, i, emitted);
      assert unmoves[..n][..n - 1] == unmoves[..n - 1];
      NextDecoded(l, slot, n - 1);
      if l.decode[slot][n - 1].Some? {
        SumRemove(DecodedBefore(l, slot, n), emitted, l.decode[slot][n - 1].value);
      }
    }
  }

  lemma NextDecoded<X(!new)>(l: Layout<X>, slot: nat, n: nat)
    requires Indexed(l) && slot < |l.decode| && n < |l.decode[slot]|
    ensures var d, before := l.decode[slot][n], DecodedBefore(l, slot, n);
            && (d.Some? ==>
                  d.value in DecodedBefore(l, slot, n + 1) && DecodedBefore(l, slot, n + 1) - {d.value} == before)
            && (d.None? ==> DecodedBefore(l, slot, n + 1) == before)
  {
    var before := DecodedBefore(l, slot, n);
    if l.decode[slot][n].Some? {
      var x := l.decode[slot][n].value;
      assert InLayout(l, slot, n) && At(l, Ref(slot, n)) == x;
      forall j: nat | j < n && l.decode[slot][j].Some? ensures l.decode[slot][j].value != x {
        assert InLayout(l, slot, j) && RefOf(l, At(l, Ref(slot, j))) == Ref(slot, j);
      }
      assert DecodedBefore(l, slot, n + 1) == before + {x};
    } else {
      assert DecodedBefore(l, slot, n + 1) == before;
    }
  }

  /** Only positions of the twin emit an index. */
  lemma OtherSlotEmitsNothing<X(!new)>(l: Layout<X>, s: X, x: X)
    requires Regular(l.board) && Played(l) && IsCanonical(l, s) && IsCanonical(l, x)
    requires l.slot(s) + l.slot(x) != |l.decode| - 1
    ensures Emitted(AsQuotient(l.board), s, x) == 0
  {
    var b := l.board;
    QuotientIsValid(b);
    EmittedIs(AsQuotient(b), s, x);
    NoMovesAcross(l, x, s);
    NoMovesAcross(l, x, Mirror(b, s));
  }

  lemma NoMovesAcross<X(!new)>(l: Layout<X>, x: X, z: X)
    requires Regular(l.board) && Played(l) && x in l.board.positions && z in l.board.positions
    requires l.slot(z) + l.slot(x) != |l.decode| - 1
    ensures MovesTo(l.board, x, z) == 0
  {
    var b := l.board;
    forall h | h in Flips(b.kind) ensures b.flip(h, z) !in b.quiet(x) {
      assert l.slot(b.flip(h, z)) == l.slot(z);
    }
    assert FlipsTo(b, x, z) == {};
  }

  /** The emissions of an index over its twin table are its counter's quiet part. */
  lemma EmissionsOfIndex<X(!new)>(l: Layout<X>, p: Pair, slot: nat, i: nat)
    requires Represents(l, p) && p.HasSlot(slot) && InLayout(l, slot, i)
    ensures TimesEmitted(p.tables[p.Twin(slot)].unmoves, i) == Counter(AsQuotient(l.board), At(l, Ref(slot, i)))
  {
    hide Emitted, Counter, TimesEmitted;
    var twin := p.Twin(slot);
    var q := AsQuotient(l.board);
    var x := At(l, Ref(slot, i));
    var emitted := (s: X) => Emitted(q, s, x);
    var unmoves := p.tables[twin].unmoves;
    var n := |l.decode[twin]|;
    assert TableFits(l, p.tables[twin], twin);
    forall j: nat | j < n && l.decode[twin][j].Some? ensures Times(unmoves[j], i) == emitted(l.decode[twin][j].value) {
      TimesIsEmitted(l, p, slot, i, j);
    }
    EmissionsAsSum(l, twin, unmoves, n, i, emitted);
    assert unmoves[..n] == unmoves;
    QuotientIsValid(l.board);
    EmissionsMatchCounter(q, x, emitted);
    AllSourcesAreInTwin(l, twin, x, emitted);
  }

  lemma FittingUnmoves<X(!new)>(l: Layout<X>, p: Pair, slot: nat, j: nat)
    requires Represents(l, p) && p.HasSlot(slot) && j < |l.decode[slot]|
    ensures |p.tables[slot].unmoves| == |p.tables[slot].entries| == |l.decode[slot]|
    ensures UnmovesFit(l, p.tables[slot].unmoves[j], slot, l.decode[slot][j])
    ensures EntryFits(l, p.tables[slot].entries[j], l.decode[slot][j])
  {
    assert TableFits(l, p.tables[slot], slot);
  }

  lemma FittingDiagonal<X(!new)>(l: Layout<X>, p: Pair, slot: nat, j: nat)
    requires Represents(l, p) && p.HasSlot(slot) && j < |l.decode[slot]|
    ensures |p.tables[slot].diagonal| == |p.tables[slot].entries| == |l.decode[slot]|
    ensures DiagonalFits(l, p.tables[slot].diagonal, slot, j)
  {
    assert TableFits(l, p.tables[slot], slot);
  }

  /** The emissions in a table's list are those of the quotient. */
  lemma TimesIsEmitted<X(!new)>(l: Layout<X>, p: Pair, slot: nat, i: nat, j: nat)
    requires Represents(l, p) && p.HasSlot(slot) && InLayout(l, slot, i) && InLayout(l, p.Twin(slot), j)
    ensures j < |p.tables[p.Twin(slot)].unmoves|
    ensures Times(p.tables[p.Twin(slot)].unmoves[j], i)
         == Emitted(AsQuotient(l.board), At(l, Ref(p.Twin(slot), j)), At(l, Ref(slot, i)))
  {
    hide TableFits, Regular, Valid, Emitted, EmittedFrom, AsQuotient, EntryFits, Played;
    var twin := p.Twin(slot);
    var s, x := At(l, Ref(twin, j)), At(l, Ref(slot, i));
    FittingUnmoves(l, p, twin, j);
    assert |l.decode| - 1 - twin == slot;
    assert IsCanonical(l, s) && IsCanonical(l, x);
    EmissionsAreQuotients(l.board, s, x);
  }

  lemma AllSourcesAreInTwin<X(!new)>(l: Layout<X>, twin: nat, x: X, emitted: X -> nat)
    requires Regular(l.board) && Indexed(l) && Played(l) && twin < |l.decode| && IsCanonical(l, x)
    requires l.slot(x) + twin == |l.decode| - 1
    requires forall s | IsCanonical(l, s) :: emitted(s) == Emitted(AsQuotient(l.board), s, x)
    ensures Sum(Canonical(AsQuotient(l.board)), emitted) == Sum(DecodedBefore(l, twin, |l.decode[twin]|), emitted)
  {
    var all := Canonical(AsQuotient(l.board));
    var here := DecodedBefore(l, twin, |l.decode[twin]|);
    forall s | s in here ensures s in all && l.slot(s) == twin {
      var j: nat :| j < |l.decode[twin]| && l.decode[twin][j].Some? && l.decode[twin][j].value == s;
      assert InLayout(l, twin, j) && At(l, Ref(twin, j)) == s;
    }
    forall s | s in all && l.slot(s) == twin ensures s in here {
      assert IsCanonical(l, s);
      assert l.decode[twin][l.index(s)].value == s;
    }
    forall s | s in all - here ensures emitted(s) == 0 {
      assert IsCanonical(l, s);
      OtherSlotEmitsNothing(l, s, x);
    }
    SumZero(all - here, emitted);
    assert all == here + (all - here);
    SumUnion(here, all - here, emitted);
  }

  /** The counters that initialization computes on a layout satisfy the solver's
      hypothesis. */
  lemma LayoutIsBalanced<X(!new)>(l: Layout<X>, p: Pair)
    requires Represents(l, p)
    ensures p.Valid() && CountersBalanced(p)
  {
    SlotIsBalanced(l, p, 0);
    SlotIsBalanced(l, p, |p.tables| - 1);
  }

  lemma SlotIsBalanced<X(!new)>(l: Layout<X>, p: Pair, slot: nat)
    requires Represents(l, p) && p.HasSlot(slot)
    ensures p.ValidSlot(slot) && BalancedSlot(p, slot)
  {
    var t := p.tables[slot];
    var twin := p.Twin(slot);
    assert TableFits(l, t, slot) && TableFits(l, p.tables[twin], twin);
    forall i: nat | i < |t.entries| && t.entries[i].Open?
      ensures t.entries[i].counter > 0 && AllConversions(t.entries[i].conversions)
      ensures t.entries[i].counter == |t.entries[i].conversions| + TimesEmitted(p.tables[twin].unmoves, i)
    {
      assert EntryFits(l, t.entries[i], l.decode[slot][i]);
      assert InLayout(l, slot, i);
      EmissionsOfIndex(l, p, slot, i);
      CounterCountsMoves(l.board, At(l, Ref(slot, i)));
    }
    forall s | 0 <= s < |t.unmoves|
      ensures InRange(t.unmoves[s], |p.tables[twin].entries|)
      ensures t.entries[s].Rejected? ==> t.unmoves[s] == []
    {
      assert EntryFits(l, t.entries[s], l.decode[slot][s]);
      assert UnmovesFit(l, t.unmoves[s], slot, l.decode[slot][s]);
    }
  }

  // ---------------------------------------------------------------------
  // Moves with the same values.

  ghost predicate HasValue<P>(moves: seq<Move<P>>, a: Values<P>, v: DtcOutcome)
    requires Covered(moves, a.Keys)
  {
    exists k :: 0 <= k < |moves| && Value(moves[k], a) == v
  }

  /** Every value of one list of moves is a value of the other. */
  ghost predicate ValuesWithin<P>(moves: seq<Move<P>>, a: Values<P>, moves': seq<Move<P>>, a': Values<P>)
    requires Covered(moves, a.Keys) && Covered(moves', a'.Keys)
  {
    forall k | 0 <= k < |moves| :: HasValue(moves', a', Value(moves[k], a))
  }

  /** Lists with the same values have the same best value. */
  lemma BestTransfers<P>(moves: seq<Move<P>>, a: Values<P>, moves': seq<Move<P>>, a': Values<P>)
    requires Covered(moves, a.Keys) && Covered(moves', a'.Keys) && moves != [] && moves' != []
    requires ValuesWithin(moves, a, moves', a') && ValuesWithin(moves', a', moves, a)
    ensures Best(moves, a) == Best(moves', a')
  {
    BestIsBest(moves, a);
    BestIsBest(moves', a');
    var v, v' := Best(moves, a), Best(moves', a');
    var k :| 0 <= k < |moves| && Value(moves[k], a) == v;
    assert HasValue(moves', a', v);
    var k' :| 0 <= k' < |moves'| && Value(moves'[k'], a') == v';
    assert HasValue(moves, a, v');
    OrderIsLinear(v, v', v);
  }

  lemma ValuesConcat<P>(c: seq<Move<P>>, m: seq<Move<P>>, a: Values<P>, c': seq<Move<P>>, m': seq<Move<P>>,
                        a': Values<P>)
    requires Covered(c, a.Keys) && Covered(m, a.Keys) && Covered(c', a'.Keys) && Covered(m', a'.Keys)
    requires ValuesWithin(c, a, c', a') && ValuesWithin(m, a, m', a')
    ensures Covered(c + m, a.Keys) && Covered(c' + m', a'.Keys)
    ensures ValuesWithin(c + m, a, c' + m', a')
  {
    var moves, moves' := c + m, c' + m';
    assert forall k | 0 <= k < |c'| :: moves'[k] == c'[k];
    forall v | HasValue(c', a', v) || HasValue(m', a', v) ensures HasValue(moves', a', v) {
      if HasValue(c', a', v) {
        var l :| 0 <= l < |c'| && Value(c'[l], a') == v;
        assert Value(moves'[l], a') == v;
      } else {
        var l :| 0 <= l < |m'| && Value(m'[l], a') == v;
        assert Value(moves'[|c'| + l], a') == v;
      }
    }
    forall k | 0 <= k < |moves| ensures HasValue(moves', a', Value(moves[k], a)) {
      if k < |c| {
        assert HasValue(c', a', Value(c[k], a));
      } else {
        assert HasValue(m', a', Value(m[k - |c|], a));
      }
    }
  }

  lemma ConversionValues(c: seq<Move<Ref>>, a: Values<Ref>, c': seq<Move<Ref>>, a': Values<Ref>)
    requires AllConversions(c) && AllConversions(c') && Elements(c) == Elements(c')
    ensures Covered(c, a.Keys) && Covered(c', a'.Keys)
    ensures ValuesWithin(c, a, c', a')
  {
    forall k | 0 <= k < |c| ensures HasValue(c', a', Value(c[k], a)) {
      assert c[k] in Elements(c');
      var k' :| 0 <= k' < |c'| && c'[k'] == c[k];
      assert Value(c'[k'], a') == Value(c[k], a);
    }
  }

  // ---------------------------------------------------------------------
  // Reflected indices have equal outcomes.

  ghost function ReflectedRef<X(!new)>(l: Layout<X>, r: Ref): Ref
    requires InLayout(l, r.slot, r.index)
  {
    RefOf(l, Reflected(AsQuotient(l.board), At(l, r)))
  }

  lemma ReflectedRefFacts<X(!new)>(l: Layout<X>, r: Ref)
    requires Regular(l.board) && Indexed(l) && Played(l) && InLayout(l, r.slot, r.index)
    ensures var r' := ReflectedRef(l, r);
            && r'.slot == r.slot && InLayout(l, r'.slot, r'.index)
            && At(l, r') == Reflected(AsQuotient(l.board), At(l, r))
            && ReflectedRef(l, r') == r
  {
    var q, x := AsQuotient(l.board), At(l, r);
    assert IsCanonical(l, x) && RefOf(l, x) == r;
    QuotientIsValid(l.board);
    EmittedIsSymmetric(q, x, x);
    MirrorFacts(l.board, x);
    assert IsCanonical(l, Reflected(q, x));
  }

  lemma PositionsAreLayout<X(!new)>(l: Layout<X>, p: Pair, r: Ref)
    requires Represents(l, p)
    ensures IsPosition(p, r) <==> InLayout(l, r.slot, r.index)
  {
    if p.HasSlot(r.slot) {
      assert TableFits(l, p.tables[r.slot], r.slot);
      if r.index < |l.decode[r.slot]| {
        FittingUnmoves(l, p, r.slot, r.index);
      }
    }
  }

  /** The assignment that gives every index the value of its reflection. */
  ghost function ReflectedValues<X(!new)>(l: Layout<X>, p: Pair, a: Values<Ref>): Values<Ref>
    requires Represents(l, p) && a.Keys == Positions(p)
  {
    map r | r in Positions(p) ::
      (PositionsAreLayout(l, p, r);
       ReflectedRefFacts(l, r);
       PositionsAreLayout(l, p, ReflectedRef(l, r));
       a[ReflectedRef(l, r)])
  }

  lemma EmitsMeansEmitted<X(!new)>(l: Layout<X>, p: Pair, slot: nat, i: nat, s: nat)
    requires Represents(l, p) && p.HasSlot(slot) && InLayout(l, slot, i) && InLayout(l, p.Twin(slot), s)
    ensures Emits(p.tables[p.Twin(slot)].unmoves, s, i)
       <==> Emitted(AsQuotient(l.board), At(l, Ref(p.Twin(slot), s)), At(l, Ref(slot, i))) > 0
  {
    TimesIsEmitted(l, p, slot, i, s);
  }

  /** Emissions commute with reflection, so quiet moves do. */
  lemma EmitsIsSymmetric<X(!new)>(l: Layout<X>, p: Pair, r: Ref, s: nat)
    requires Represents(l, p) && InLayout(l, r.slot, r.index) && InLayout(l, p.Twin(r.slot), s)
    ensures var twin := p.Twin(r.slot);
            Emits(p.tables[twin].unmoves, s, r.index)
            <==> Emits(p.tables[twin].unmoves, ReflectedRef(l, Ref(twin, s)).index, ReflectedRef(l, r).index)
  {
    var twin := p.Twin(r.slot);
    var src := Ref(twin, s);
    ReflectedRefFacts(l, r);
    ReflectedRefFacts(l, src);
    EmitsMeansEmitted(l, p, r.slot, r.index, s);
    EmitsMeansEmitted(l, p, r.slot, ReflectedRef(l, r).index, ReflectedRef(l, src).index);
    QuotientIsValid(l.board);
    EmittedIsSymmetric(AsQuotient(l.board), At(l, src), At(l, r));
  }

  lemma QuietIsCovered(p: Pair, r: Ref)
    requires p.Valid() && IsPosition(p, r)
    ensures Covered(QuietOf(p, r), Positions(p))
  {
    QuietMovesReach(p, r);
    assert forall k | 0 <= k < |QuietOf(p, r)| :: ReachesSource(p, r, QuietOf(p, r)[k]);
  }

  /** The quiet values of an index under the reflected assignment are those of the
      reflected index. */
  lemma QuietReflects<X(!new)>(l: Layout<X>, p: Pair, a: Values<Ref>, r: Ref)
    requires Represents(l, p) && p.Valid() && a.Keys == Positions(p) && r in Positions(p)
    ensures InLayout(l, r.slot, r.index) && ReflectedRef(l, r) in Positions(p)
    ensures Covered(QuietOf(p, r), a.Keys) && Covered(QuietOf(p, ReflectedRef(l, r)), a.Keys)
    ensures ValuesWithin(QuietOf(p, r), ReflectedValues(l, p, a), QuietOf(p, ReflectedRef(l, r)), a)
  {
    hide Represents, Regular, Indexed, Played, AsQuotient;
    PositionsAreLayout(l, p, r);
    ReflectedRefIsPosition(l, p, r);
    var r' := ReflectedRef(l, r);
    QuietIsCovered(p, r);
    QuietIsCovered(p, r');
    var quiet, a' := QuietOf(p, r), ReflectedValues(l, p, a);
    forall k | 0 <= k < |quiet| ensures HasValue(QuietOf(p, r'), a, Value(quiet[k], a')) {
      var k' := ReflectedMove(l, p, r, k);
      assert Value(QuietOf(p, r')[k'], a) == Value(quiet[k], a');
    }
  }

  lemma ReflectedRefIsPosition<X(!new)>(l: Layout<X>, p: Pair, r: Ref)
    requires Represents(l, p) && r in Positions(p)
    ensures InLayout(l, r.slot, r.index) && ReflectedRef(l, r) in Positions(p) && ReflectedRef(l, r).slot == r.slot
    ensures ReflectedRef(l, ReflectedRef(l, r)) == r
  {
    PositionsAreLayout(l, p, r);
    ReflectedRefFacts(l, r);
    PositionsAreLayout(l, p, ReflectedRef(l, r));
  }

  /** The reflection of a quiet move is a quiet move of the reflected index. */
  lemma ReflectedMove<X(!new)>(l: Layout<X>, p: Pair, r: Ref, k: nat) returns (k': nat)
    requires Represents(l, p) && p.Valid() && r in Positions(p) && InLayout(l, r.slot, r.index)
    requires ReflectedRef(l, r) in Positions(p) && ReflectedRef(l, r).slot == r.slot
    requires k < |QuietOf(p, r)|
    ensures k' < |QuietOf(p, ReflectedRef(l, r))|
    ensures QuietOf(p, r)[k].Quiet? && QuietOf(p, r)[k].to in Positions(p)
    ensures InLayout(l, QuietOf(p, r)[k].to.slot, QuietOf(p, r)[k].to.index)
    ensures QuietOf(p, ReflectedRef(l, r))[k'] == Quiet(ReflectedRef(l, QuietOf(p, r)[k].to))
  {
    hide Represents, Regular, Indexed, Played, AsQuotient;
    var r', twin := ReflectedRef(l, r), p.Twin(r.slot);
    QuietMovesReach(p, r);
    QuietMovesReach(p, r');
    assert ReachesSource(p, r, QuietOf(p, r)[k]);
    var to := QuietOf(p, r)[k].to;
    ReflectedRefIsPosition(l, p, to);
    EmitsIsSymmetric(l, p, r, to.index);
    assert Emits(p.tables[twin].unmoves, ReflectedRef(l, to).index, r'.index);
    k' :| 0 <= k' < |QuietOf(p, r')| && QuietOf(p, r')[k'] == Quiet(Ref(twin, ReflectedRef(l, to).index));
  }

  lemma ReflectedTwice<X(!new)>(l: Layout<X>, p: Pair, a: Values<Ref>)
    requires Represents(l, p) && a.Keys == Positions(p)
    ensures ReflectedValues(l, p, ReflectedValues(l, p, a)) == a
  {
    hide Represents, ReflectedRef, Positions;
    forall r | r in Positions(p) ensures ReflectedValues(l, p, ReflectedValues(l, p, a))[r] == a[r] {
      ReflectedRefIsPosition(l, p, r);
    }
  }

  /** A position and its reflection are terminal, or playable, alike. */
  lemma ReflectedEntries<X(!new)>(l: Layout<X>, p: Pair, r: Ref)
    requires Represents(l, p) && r in Positions(p)
    requires InLayout(l, r.slot, r.index) && ReflectedRef(l, r) in Positions(p)
    ensures var e, e' := p.tables[r.slot].entries[r.index],
              p.tables[ReflectedRef(l, r).slot].entries[ReflectedRef(l, r).index];
            && (e.Final? ==> e' == e)
            && (e.Open? ==> e'.Open? && AllConversions(e.conversions) && AllConversions(e'.conversions)
                            && Elements(e.conversions) == Elements(e'.conversions))
  {
    var r' := ReflectedRef(l, r);
    ReflectedRefFacts(l, r);
    FittingUnmoves(l, p, r.slot, r.index);
    FittingUnmoves(l, p, r'.slot, r'.index);
    var x := At(l, r);
    assert IsCanonical(l, x);
    MirrorHasMoves(l.board, x);
    assert Elements(l.conversions(Mirror(l.board, x))) == Elements(l.conversions(x));
    EmptyElements(l.conversions(x));
    EmptyElements(l.conversions(Mirror(l.board, x)));
  }

  lemma EmptyElements<T>(xs: seq<T>)
    ensures Elements(xs) == {} <==> xs == []
  {
    if xs != [] {
      assert xs[0] in Elements(xs);
    }
  }

  lemma MirrorHasMoves<X(!new)>(b: Board<X>, x: X)
    requires Regular(b) && x in b.positions
    ensures b.quiet(Mirror(b, x)) == {} <==> b.quiet(x) == {}
  {
    if b.kind == Pawnless {
      forall z | z in b.quiet(x) ensures b.transpose(z) in b.quiet(b.transpose(x)) {
      }
      forall z | z in b.quiet(b.transpose(x)) ensures b.transpose(z) in b.quiet(x) {
        assert b.transpose(z) in b.positions && b.transpose(b.transpose(z)) == z;
      }
    }
  }

  lemma ReflectedIsBackedUp<X(!new)>(l: Layout<X>, p: Pair, a: Values<Ref>, r: Ref)
    requires Represents(l, p) && p.Valid() && CountersBalanced(p) && a.Keys == Positions(p) && r in Positions(p)
    requires WellFormed(EmissionGame(p)) && Accepts(EmissionGame(p), a)
    ensures ReflectedValues(l, p, a)[r] == BackedUp(EmissionGame(p)[r], ReflectedValues(l, p, a))
  {
    hide Represents, Regular, Indexed, Played, AsQuotient, CountersBalanced;
    ReflectedRefIsPosition(l, p, r);
    ReflectedEntries(l, p, r);
    var r', a' := ReflectedRef(l, r), ReflectedValues(l, p, a);
    var e, e' := p.tables[r.slot].entries[r.index], p.tables[r'.slot].entries[r'.index];
    assert a[r'] == BackedUp(EmissionGame(p)[r'], a);
    if e.Open? {
      ConversionValues(e.conversions, a', e'.conversions, a);
      ConversionValues(e'.conversions, a, e.conversions, a');
      QuietReflects(l, p, a, r);
      QuietReflects(l, p, a', r');
      ReflectedTwice(l, p, a);
      ValuesConcat(e.conversions, QuietOf(p, r), a', e'.conversions, QuietOf(p, r'), a);
      ValuesConcat(e'.conversions, QuietOf(p, r'), a, e.conversions, QuietOf(p, r), a');
      BestTransfers(EmissionGame(p)[r].moves, a', EmissionGame(p)[r'].moves, a);
    }
  }

  /** In a solved pair an index and its diagonal reflection have one outcome. */
  lemma OutcomesAreSymmetric<X(!new)>(l: Layout<X>, p: Pair, a: Values<Ref>, r: Ref)
    requires Represents(l, p) && p.Valid() && CountersBalanced(p) && a.Keys == Positions(p) && r in Positions(p)
    requires WellFormed(EmissionGame(p)) && Accepts(EmissionGame(p), a)
    ensures InLayout(l, r.slot, r.index) && ReflectedRef(l, r) in a
    ensures a[r] == a[ReflectedRef(l, r)]
  {
    var a' := ReflectedValues(l, p, a);
    forall s | s in Positions(p) ensures a'[s] == BackedUp(EmissionGame(p)[s], a') {
      ReflectedIsBackedUp(l, p, a, s);
    }
    AcceptanceIsUnique(EmissionGame(p), a, a');
    ReflectedRefIsPosition(l, p, r);
  }

  // ---------------------------------------------------------------------
  // The game of legal moves.

  /** The moves of a position as forward play sees them: each quiet successor is
      looked up at the index of its canonical equivalent. */
  ghost function ForwardQuiet<X(!new)>(l: Layout<X>, x: X): seq<Move<Ref>> {
    var successors := l.successors(x);
    seq(|successors|, k requires 0 <= k < |successors| => Quiet(RefOf(l, Canon(l.board, successors[k]))))
  }

  ghost function ForwardNode<X(!new)>(l: Layout<X>, x: X): Node<Ref> {
    if l.successors(x) == [] && l.conversions(x) == [] then Terminal(l.check(x))
    else Playable(l.conversions(x) + ForwardQuiet(l, x))
  }

  ghost function ForwardGame<X(!new)>(l: Layout<X>, p: Pair): Game<Ref>
    requires Represents(l, p)
  {
    map r | r in Positions(p) :: (PositionsAreLayout(l, p, r); ForwardNode(l, At(l, r)))
  }

  /** Quiet successors of an index, canonicalized, are positions of the twin. */
  lemma SuccessorIsPosition<X(!new)>(l: Layout<X>, p: Pair, r: Ref, z: X)
    requires Represents(l, p) && InLayout(l, r.slot, r.index) && z in l.board.quiet(At(l, r))
    ensures z in l.board.positions && IsCanonical(l, Canon(l.board, z))
    ensures RefOf(l, Canon(l.board, z)) in Positions(p)
    ensures RefOf(l, Canon(l.board, z)).slot == p.Twin(r.slot)
  {
    var b, x := l.board, At(l, r);
    assert IsCanonical(l, x) && RefOf(l, x) == r;
    CanonIsCanonical(b, z);
    RepsExist(b, z);
    FlipFacts(b, z, Reduction(b, z));
    assert l.slot(Rep(b, z)) == l.slot(z);
    assert l.slot(Canon(b, z)) == l.slot(z);
    PositionsAreLayout(l, p, RefOf(l, Canon(b, z)));
  }

  lemma ForwardQuietIsCovered<X(!new)>(l: Layout<X>, p: Pair, r: Ref)
    requires Represents(l, p) && InLayout(l, r.slot, r.index)
    ensures Covered(ForwardQuiet(l, At(l, r)), Positions(p))
  {
    var x := At(l, r);
    assert IsCanonical(l, x);
    forall k | 0 <= k < |l.successors(x)| ensures ForwardQuiet(l, x)[k].to in Positions(p) {
      assert l.successors(x)[k] in Elements(l.successors(x));
      SuccessorIsPosition(l, p, r, l.successors(x)[k]);
    }
  }

  /** A forward move is an emission of its canonical successor. */
  lemma ForwardIsEmitted<X(!new)>(l: Layout<X>, p: Pair, r: Ref, z: X)
    requires Represents(l, p) && InLayout(l, r.slot, r.index) && z in l.board.quiet(At(l, r))
    ensures Emits(p.tables[p.Twin(r.slot)].unmoves, RefOf(l, Canon(l.board, z)).index, r.index)
  {
    var src := RefOf(l, Canon(l.board, z));
    assert IsCanonical(l, At(l, r)) && RefOf(l, At(l, r)) == r;
    SuccessorEmits(l.board, At(l, r), z);
    assert IsCanonical(l, Canon(l.board, z));
    SuccessorIsPosition(l, p, r, z);
    EmitsMeansEmitted(l, p, r.slot, r.index, src.index);
  }

  /** An emission is a forward move to the source or to its reflection. */
  lemma EmittedIsForward<X(!new)>(l: Layout<X>, p: Pair, r: Ref, s: nat) returns (z: X)
    requires Represents(l, p) && InLayout(l, r.slot, r.index) && InLayout(l, p.Twin(r.slot), s)
    requires Emits(p.tables[p.Twin(r.slot)].unmoves, s, r.index)
    ensures z in l.board.quiet(At(l, r))
    ensures var src := Ref(p.Twin(r.slot), s);
            RefOf(l, Canon(l.board, z)) == src || RefOf(l, Canon(l.board, z)) == ReflectedRef(l, src)
  {
    var src := Ref(p.Twin(r.slot), s);
    assert IsCanonical(l, At(l, r)) && IsCanonical(l, At(l, src)) && RefOf(l, At(l, src)) == src;
    EmitsMeansEmitted(l, p, r.slot, r.index, s);
    z := EmittedHasSuccessor(l.board, At(l, src), At(l, r));
  }

  /** The values of the emitted sources are those of the forward moves. */
  lemma ForwardValues<X(!new)>(l: Layout<X>, p: Pair, a: Values<Ref>, r: Ref)
    requires Represents(l, p) && p.Valid() && CountersBalanced(p) && a.Keys == Positions(p) && r in Positions(p)
    requires WellFormed(EmissionGame(p)) && Accepts(EmissionGame(p), a) && InLayout(l, r.slot, r.index)
    ensures Covered(QuietOf(p, r), a.Keys) && Covered(ForwardQuiet(l, At(l, r)), a.Keys)
    ensures ValuesWithin(QuietOf(p, r), a, ForwardQuiet(l, At(l, r)), a)
    ensures ValuesWithin(ForwardQuiet(l, At(l, r)), a, QuietOf(p, r), a)
  {
    hide Represents, Regular, Indexed, Played, AsQuotient, CountersBalanced;
    var x := At(l, r);
    QuietIsCovered(p, r);
    ForwardQuietIsCovered(l, p, r);
    forall k | 0 <= k < |QuietOf(p, r)| ensures HasValue(ForwardQuiet(l, x), a, Value(QuietOf(p, r)[k], a)) {
      EmittedValueIsForward(l, p, a, r, k);
    }
    forall k | 0 <= k < |ForwardQuiet(l, x)| ensures HasValue(QuietOf(p, r), a, Value(ForwardQuiet(l, x)[k], a)) {
      ForwardValueIsEmitted(l, p, a, r, k);
    }
  }

  lemma EmittedValueIsForward<X(!new)>(l: Layout<X>, p: Pair, a: Values<Ref>, r: Ref, k: nat)
    requires Represents(l, p) && p.Valid() && CountersBalanced(p) && a.Keys == Positions(p) && r in Positions(p)
    requires WellFormed(EmissionGame(p)) && Accepts(EmissionGame(p), a) && InLayout(l, r.slot, r.index)
    requires Covered(QuietOf(p, r), a.Keys) && Covered(ForwardQuiet(l, At(l, r)), a.Keys) && k < |QuietOf(p, r)|
    ensures HasValue(ForwardQuiet(l, At(l, r)), a, Value(QuietOf(p, r)[k], a))
  {
    hide Accepts, WellFormed, CountersBalanced, Regular, TableFits, Pair.Valid, EmissionGame, Emits, Canon;
    QuietMovesReach(p, r);
    assert ReachesSource(p, r, QuietOf(p, r)[k]);
    var to := QuietOf(p, r)[k].to;
    PositionsAreLayout(l, p, to);
    var z := EmittedIsForward(l, p, r, to.index);
    OutcomesAreSymmetric(l, p, a, to);
    var n := ForwardMoveTo(l, r, z);
    assert a[ForwardQuiet(l, At(l, r))[n].to] == a[to];
    assert Value(ForwardQuiet(l, At(l, r))[n], a) == Value(QuietOf(p, r)[k], a);
  }

  lemma ForwardMoveTo<X(!new)>(l: Layout<X>, r: Ref, z: X) returns (n: nat)
    requires Indexed(l) && Played(l) && InLayout(l, r.slot, r.index) && z in l.board.quiet(At(l, r))
    ensures n < |ForwardQuiet(l, At(l, r))| && ForwardQuiet(l, At(l, r))[n] == Quiet(RefOf(l, Canon(l.board, z)))
  {
    var x := At(l, r);
    assert IsCanonical(l, x);
    assert z in Elements(l.successors(x));
    n :| n < |l.successors(x)| && l.successors(x)[n] == z;
  }

  lemma ForwardValueIsEmitted<X(!new)>(l: Layout<X>, p: Pair, a: Values<Ref>, r: Ref, k: nat)
    requires Represents(l, p) && p.Valid() && a.Keys == Positions(p) && r in Positions(p)
    requires InLayout(l, r.slot, r.index)
    requires Covered(QuietOf(p, r), a.Keys) && Covered(ForwardQuiet(l, At(l, r)), a.Keys)
             && k < |ForwardQuiet(l, At(l, r))|
    ensures HasValue(QuietOf(p, r), a, Value(ForwardQuiet(l, At(l, r))[k], a))
  {
    var x := At(l, r);
    var z := l.successors(x)[k];
    assert IsCanonical(l, x);
    assert z in Elements(l.successors(x));
    SuccessorIsPosition(l, p, r, z);
    ForwardIsEmitted(l, p, r, z);
    QuietMovesReach(p, r);
    var n :| 0 <= n < |QuietOf(p, r)|
             && QuietOf(p, r)[n] == Quiet(Ref(p.Twin(r.slot), RefOf(l, Canon(l.board, z)).index));
    assert QuietOf(p, r)[n] == ForwardQuiet(l, x)[k];
    assert Value(QuietOf(p, r)[n], a) == Value(ForwardQuiet(l, x)[k], a);
  }

  lemma ForwardGameIsWellFormed<X(!new)>(l: Layout<X>, p: Pair)
    requires Represents(l, p)
    ensures WellFormed(ForwardGame(l, p))
  {
    hide Represents, ForwardNode;
    var g := ForwardGame(l, p);
    forall r | r in g && g[r].Playable? ensures g[r].moves != [] && Covered(g[r].moves, g.Keys) {
      PositionsAreLayout(l, p, r);
      ForwardNodeIsCovered(l, p, r);
    }
  }

  lemma ForwardNodeIsCovered<X(!new)>(l: Layout<X>, p: Pair, r: Ref)
    requires Represents(l, p) && InLayout(l, r.slot, r.index)
    ensures var node := ForwardNode(l, At(l, r)); node.Playable? ==>
              node.moves != [] && Covered(node.moves, Positions(p))
  {
    hide Regular, Indexed, TableFits, Positions;
    var x := At(l, r);
    var c, quiet := l.conversions(x), ForwardQuiet(l, x);
    SuccessorsListed(l, r);
    ForwardQuietIsCovered(l, p, r);
    var moves: seq<Move<Ref>> := c + quiet;
    assert forall k | 0 <= k < |c| :: moves[k] == c[k];
    assert forall k | |c| <= k < |moves| :: moves[k] == quiet[k - |c|];
  }

  /** What the solver leaves is accepted on the legal moves of the board. */
  lemma AcceptedForward<X(!new)>(l: Layout<X>, p: Pair, a: Values<Ref>)
    requires Represents(l, p) && p.Valid() && CountersBalanced(p)
    requires WellFormed(EmissionGame(p)) && Accepts(EmissionGame(p), a)
    ensures WellFormed(ForwardGame(l, p)) && Accepts(ForwardGame(l, p), a)
  {
    ForwardGameIsWellFormed(l, p);
    forall r | r in Positions(p) ensures a[r] == BackedUp(ForwardGame(l, p)[r], a) {
      PositionsAreLayout(l, p, r);
      ForwardBackedUp(l, p, a, r);
    }
  }

  lemma ForwardBackedUp<X(!new)>(l: Layout<X>, p: Pair, a: Values<Ref>, r: Ref)
    requires Represents(l, p) && p.Valid() && CountersBalanced(p)
    requires WellFormed(EmissionGame(p)) && Accepts(EmissionGame(p), a)
    requires r in Positions(p) && InLayout(l, r.slot, r.index) && WellFormed(ForwardGame(l, p))
    ensures ForwardGame(l, p)[r].Playable? ==> Covered(ForwardGame(l, p)[r].moves, a.Keys)
    ensures a[r] == BackedUp(ForwardGame(l, p)[r], a)
  {
    hide Regular, Indexed, AsQuotient, CountersBalanced, TableFits;
    FittingUnmoves(l, p, r.slot, r.index);
    SuccessorsListed(l, r);
    assert a[r] == BackedUp(EmissionGame(p)[r], a);
    if p.tables[r.slot].entries[r.index].Open? {
      ForwardBest(l, p, a, r);
    }
  }

  lemma ForwardBest<X(!new)>(l: Layout<X>, p: Pair, a: Values<Ref>, r: Ref)
    requires Represents(l, p) && p.Valid() && CountersBalanced(p)
    requires WellFormed(EmissionGame(p)) && Accepts(EmissionGame(p), a)
    requires r in Positions(p) && InLayout(l, r.slot, r.index)
    ensures var c, x := l.conversions(At(l, r)), At(l, r);
            && Covered(c + QuietOf(p, r), a.Keys) && Covered(c + ForwardQuiet(l, x), a.Keys)
            && (c + QuietOf(p, r) != [] && c + ForwardQuiet(l, x) != [] ==>
                  Best(c + QuietOf(p, r), a) == Best(c + ForwardQuiet(l, x), a))
  {
    hide Regular, Indexed, AsQuotient, CountersBalanced, TableFits;
    var x := At(l, r);
    var c := l.conversions(x);
    SuccessorsListed(l, r);
    ForwardValues(l, p, a, r);
    ConversionValues(c, a, c, a);
    ValuesConcat(c, QuietOf(p, r), a, c, ForwardQuiet(l, x), a);
    ValuesConcat(c, ForwardQuiet(l, x), a, c, QuietOf(p, r), a);
    if c + QuietOf(p, r) != [] && c + ForwardQuiet(l, x) != [] {
      BestTransfers(c + QuietOf(p, r), a, c + ForwardQuiet(l, x), a);
    }
  }

  lemma SuccessorsListed<X(!new)>(l: Layout<X>, r: Ref)
    requires Indexed(l) && Played(l) && InLayout(l, r.slot, r.index)
    ensures l.successors(At(l, r)) == [] <==> l.board.quiet(At(l, r)) == {}
    ensures AllConversions(l.conversions(At(l, r)))
  {
    assert IsCanonical(l, At(l, r));
    EmptyElements(l.successors(At(l, r)));
  }

  // ---------------------------------------------------------------------
  // The same conversions are forced on emissions and by legal moves.

  /** A position and its reflection force alike on emissions. */
  lemma {:induction false} ReflectionsForceAlike<X(!new)>(l: Layout<X>, p: Pair, r: Ref, ct: ConversionType, n: nat)
    requires Represents(l, p) && p.Valid() && WellFormed(EmissionGame(p)) && r in Positions(p)
    ensures InLayout(l, r.slot, r.index) && ReflectedRef(l, r) in Positions(p)
    ensures ForcesAlike(EmissionGame(p), r, EmissionGame(p), ReflectedRef(l, r), ct, n)
    decreases n, 0
  {
    hide Represents, ReflectedRef, ForcesAlike, WellFormed, MovesWithin, EmissionGame, ReflectionsAlike;
    var g := EmissionGame(p);
    GameHasPositions(p);
    ReflectedRefIsPosition(l, p, r);
    var r' := ReflectedRef(l, r);
    ReflectedRefIsPosition(l, p, r');
    ReflectedNodes(l, p, r);
    if g[r].Playable? {
      if n > 0 {
        AllReflectionsAlike(l, p, ct, n - 1);
        ReflectedMovesWithin(l, p, r, ct, n);
        ReflectedMovesWithin(l, p, r', ct, n);
      }
      MatchingPositionsForceAlike(g, r, g, r', ct, n);
    } else {
      EndsForceAlike(g, r, g, r', ct, n);
    }
  }

  lemma {:induction false} AllReflectionsAlike<X(!new)>(l: Layout<X>, p: Pair, ct: ConversionType, n: nat)
    requires Represents(l, p) && p.Valid() && WellFormed(EmissionGame(p))
    ensures ReflectionsAlike(l, p, ct, n)
    decreases n, 1
  {
    hide Represents, ReflectedRef, ForcesAlike, WellFormed, EmissionGame, Positions;
    GameHasPositions(p);
    forall to | to in Positions(p) && InLayout(l, to.slot, to.index) && ReflectedRef(l, to) in Positions(p)
      ensures ForcesAlike(EmissionGame(p), to, EmissionGame(p), ReflectedRef(l, to), ct, n)
    {
      ReflectionsForceAlike(l, p, to, ct, n);
    }
  }

  lemma ReflectedNodes<X(!new)>(l: Layout<X>, p: Pair, r: Ref)
    requires Represents(l, p) && p.Valid() && r in Positions(p)
    requires InLayout(l, r.slot, r.index) && ReflectedRef(l, r) in Positions(p)
    ensures var g, r' := EmissionGame(p), ReflectedRef(l, r);
            && (g[r].Playable? <==> g[r'].Playable?)
            && (g[r].Terminal? ==> g[r'] == g[r])
  {
    hide Represents, ReflectedRef, QuietOf;
    ReflectedEntries(l, p, r);
    ReflectedRefIsPosition(l, p, r);
    ReflectedRefIsPosition(l, p, ReflectedRef(l, r));
    ReflectedEntries(l, p, ReflectedRef(l, r));
  }

  lemma EndsForceAlike<P(!new)>(g: Game<P>, p: P, g': Game<P>, p': P, ct: ConversionType, n: nat)
    requires WellFormed(g) && WellFormed(g') && p in g && p' in g' && g[p].Terminal? && g'[p'] == g[p]
    ensures ForcesAlike(g, p, g', p', ct, n)
  {
  }

  lemma ReflectedMovesWithin<X(!new)>(l: Layout<X>, p: Pair, r: Ref, ct: ConversionType, n: nat)
    requires Represents(l, p) && p.Valid() && WellFormed(EmissionGame(p)) && r in Positions(p) && n > 0
    requires InLayout(l, r.slot, r.index) && ReflectedRef(l, r) in Positions(p)
    requires EmissionGame(p)[r].Playable? && EmissionGame(p)[ReflectedRef(l, r)].Playable?
    requires ReflectionsAlike(l, p, ct, n - 1)
    ensures MovesWithin(EmissionGame(p), r, EmissionGame(p), ReflectedRef(l, r), ct, n)
  {
    hide Represents, ReflectedRef, ForcesAlike, WellFormed, SameMove, EmissionGame, QuietOf, ReflectionsAlike;
    var g, r' := EmissionGame(p), ReflectedRef(l, r);
    GameHasPositions(p);
    EmittedMoves(l, p, r);
    EmittedMoves(l, p, r');
    ReflectedConversions(l, p, r);
    var c, c' := l.conversions(At(l, r)), l.conversions(At(l, r'));
    MovesStayInGame(g, r);
    forall k | 0 <= k < |g[r].moves| ensures HasSameMove(g, g[r].moves[k], g, r', ct, n) {
      var m := g[r].moves[k];
      if k < |c| {
        assert m == c[k] && m in Elements(c);
        var k' :| 0 <= k' < |c'| && c'[k'] == m;
        assert g[r'].moves[k'] == m;
        ConversionsAlike(g, m, g, ct, n);
      } else {
        assert m == QuietOf(p, r)[k - |c|];
        var k' := ReflectedAlike(l, p, r, k - |c|, ct, n - 1);
        assert g[r'].moves[|c'| + k'] == QuietOf(p, r')[k'];
        QuietMovesAlike(g, m, g, g[r'].moves[|c'| + k'], ct, n);
      }
    }
  }

  /** All positions force like their reflections. */
  ghost predicate ReflectionsAlike<X(!new)>(l: Layout<X>, p: Pair, ct: ConversionType, n: nat)
    requires WellFormed(EmissionGame(p))
  {
    forall to | to in Positions(p) && InLayout(l, to.slot, to.index) && ReflectedRef(l, to) in Positions(p) ::
      ForcesAlike(EmissionGame(p), to, EmissionGame(p), ReflectedRef(l, to), ct, n)
  }

  /** A quiet move has a reflected move to a position that forces alike. */
  lemma ReflectedAlike<X(!new)>(l: Layout<X>, p: Pair, r: Ref, k: nat, ct: ConversionType, n: nat) returns (k': nat)
    requires Represents(l, p) && p.Valid() && WellFormed(EmissionGame(p)) && r in Positions(p)
    requires InLayout(l, r.slot, r.index) && ReflectedRef(l, r) in Positions(p) && k < |QuietOf(p, r)|
    requires ReflectionsAlike(l, p, ct, n)
    ensures k' < |QuietOf(p, ReflectedRef(l, r))|
    ensures var m, m' := QuietOf(p, r)[k], QuietOf(p, ReflectedRef(l, r))[k'];
            && m.Quiet? && m.to in EmissionGame(p) && m'.Quiet? && m'.to in EmissionGame(p)
            && ForcesAlike(EmissionGame(p), m.to, EmissionGame(p), m'.to, ct, n)
  {
    hide Represents, WellFormed, EmissionGame, QuietOf, ReflectedRef, Forces, IsHeld, ForcesAlike;
    GameHasPositions(p);
    ReflectedRefIsPosition(l, p, r);
    k' := ReflectedMove(l, p, r, k);
    ReflectedRefIsPosition(l, p, QuietOf(p, r)[k].to);
  }

  /** The moves of an index on emissions. */
  lemma EmittedMoves<X(!new)>(l: Layout<X>, p: Pair, r: Ref)
    requires Represents(l, p) && p.Valid() && r in Positions(p)
    ensures InLayout(l, r.slot, r.index) && AllConversions(l.conversions(At(l, r))) && r in EmissionGame(p)
    ensures EmissionGame(p)[r].Playable? ==> EmissionGame(p)[r].moves == l.conversions(At(l, r)) + QuietOf(p, r)
  {
    hide Regular, Indexed, TableFits, ForwardQuiet;
    PositionsAreLayout(l, p, r);
    FittingUnmoves(l, p, r.slot, r.index);
    SuccessorsListed(l, r);
  }

  lemma ReflectedConversions<X(!new)>(l: Layout<X>, p: Pair, r: Ref)
    requires Represents(l, p) && p.Valid() && r in Positions(p)
    ensures InLayout(l, r.slot, r.index) && InLayout(l, ReflectedRef(l, r).slot, ReflectedRef(l, r).index)
    ensures Elements(l.conversions(At(l, ReflectedRef(l, r)))) == Elements(l.conversions(At(l, r)))
  {
    hide Regular, TableFits;
    PositionsAreLayout(l, p, r);
    ReflectedRefFacts(l, r);
    assert IsCanonical(l, At(l, r));
    assert Elements(l.conversions(Mirror(l.board, At(l, r)))) == Elements(l.conversions(At(l, r)));
  }

  /** The moves of an index in both games. */
  lemma BothGames<X(!new)>(l: Layout<X>, p: Pair, r: Ref)
    requires Represents(l, p) && p.Valid() && r in Positions(p)
    ensures InLayout(l, r.slot, r.index) && AllConversions(l.conversions(At(l, r)))
    ensures var x := At(l, r);
            && (EmissionGame(p)[r].Playable? <==> ForwardGame(l, p)[r].Playable?)
            && (EmissionGame(p)[r].Terminal? ==> EmissionGame(p)[r] == ForwardGame(l, p)[r])
            && (EmissionGame(p)[r].Playable? ==>
                  && EmissionGame(p)[r].moves == l.conversions(x) + QuietOf(p, r)
                  && ForwardGame(l, p)[r].moves == l.conversions(x) + ForwardQuiet(l, x))
  {
    hide Regular, Indexed, TableFits, ForwardQuiet;
    PositionsAreLayout(l, p, r);
    FittingUnmoves(l, p, r.slot, r.index);
    SuccessorsListed(l, r);
  }

  /** Play on emissions forces exactly what legal play forces. */
  lemma {:induction false} GamesForceAlike<X(!new)>(l: Layout<X>, p: Pair, r: Ref, ct: ConversionType, n: nat)
    requires Represents(l, p) && p.Valid() && WellFormed(EmissionGame(p)) && WellFormed(ForwardGame(l, p))
             && r in Positions(p)
    ensures ForcesAlike(EmissionGame(p), r, ForwardGame(l, p), r, ct, n)
    decreases n
  {
    hide Represents, ForcesAlike, WellFormed, MovesWithin, ForwardGame, EmissionGame, QuietOf, ForwardQuiet;
    var e, f := EmissionGame(p), ForwardGame(l, p);
    GamesHavePositions(l, p);
    BothGames(l, p, r);
    if e[r].Playable? {
      if n > 0 {
        forall to | to in Positions(p) ensures ForcesAlike(e, to, f, to, ct, n - 1) {
          GamesForceAlike(l, p, to, ct, n - 1);
        }
        EmittedMovesWithin(l, p, r, ct, n);
        ForwardMovesWithin(l, p, r, ct, n);
      }
      MatchingPositionsForceAlike(e, r, f, r, ct, n);
    } else {
      EndsForceAlike(e, r, f, r, ct, n);
    }
  }

  lemma GamesHavePositions<X(!new)>(l: Layout<X>, p: Pair)
    requires Represents(l, p)
    ensures EmissionGame(p).Keys == ForwardGame(l, p).Keys == Positions(p)
  {
    hide Represents;
  }

  lemma EmittedMovesWithin<X(!new)>(l: Layout<X>, p: Pair, r: Ref, ct: ConversionType, n: nat)
    requires Represents(l, p) && p.Valid() && WellFormed(EmissionGame(p)) && WellFormed(ForwardGame(l, p))
             && r in Positions(p)
    requires EmissionGame(p)[r].Playable? && ForwardGame(l, p)[r].Playable? && n > 0
    requires forall to | to in Positions(p) :: ForcesAlike(EmissionGame(p), to, ForwardGame(l, p), to, ct, n - 1)
    ensures MovesWithin(EmissionGame(p), r, ForwardGame(l, p), r, ct, n)
  {
    hide Represents, ForcesAlike, WellFormed, SameMove, ForwardGame, EmissionGame, QuietOf, ForwardQuiet, ReflectedRef;
    var e, f := EmissionGame(p), ForwardGame(l, p);
    GamesHavePositions(l, p);
    BothGames(l, p, r);
    var c := l.conversions(At(l, r));
    MovesStayInGame(e, r);
    forall k | 0 <= k < |e[r].moves| ensures HasSameMove(e, e[r].moves[k], f, r, ct, n) {
      var m := e[r].moves[k];
      if k < |c| {
        assert m == c[k] && f[r].moves[k] == m;
        ConversionsAlike(e, m, f, ct, n);
      } else {
        assert m == QuietOf(p, r)[k - |c|];
        var k' := EmittedLikeForward(l, p, r, k - |c|, ct, n - 1);
        assert f[r].moves[|c| + k'] == ForwardQuiet(l, At(l, r))[k'];
        QuietMovesAlike(e, m, f, f[r].moves[|c| + k'], ct, n);
      }
    }
  }

  /** A quiet move on emissions has a legal move to a position that forces alike. */
  lemma EmittedLikeForward<X(!new)>(l: Layout<X>, p: Pair, r: Ref, k: nat, ct: ConversionType, n: nat) returns (k': nat)
    requires Represents(l, p) && p.Valid() && WellFormed(EmissionGame(p)) && WellFormed(ForwardGame(l, p))
             && r in Positions(p)
    requires forall to | to in Positions(p) :: ForcesAlike(EmissionGame(p), to, ForwardGame(l, p), to, ct, n)
    requires k < |QuietOf(p, r)| && InLayout(l, r.slot, r.index)
    ensures k' < |ForwardQuiet(l, At(l, r))|
    ensures var m, m' := QuietOf(p, r)[k], ForwardQuiet(l, At(l, r))[k'];
            && m.Quiet? && m.to in EmissionGame(p) && m'.Quiet? && m'.to in ForwardGame(l, p)
            && ForcesAlike(EmissionGame(p), m.to, ForwardGame(l, p), m'.to, ct, n)
  {
    hide Represents, WellFormed, ForwardGame, EmissionGame, QuietOf, ForwardQuiet, ReflectedRef, Forces, IsHeld;
    GamesHavePositions(l, p);
    QuietMovesReach(p, r);
    assert ReachesSource(p, r, QuietOf(p, r)[k]);
    var to := QuietOf(p, r)[k].to;
    PositionsAreLayout(l, p, to);
    var z := EmittedIsForward(l, p, r, to.index);
    ReflectionsForceAlike(l, p, to, ct, n);
    k' := LegalMoveTo(l, p, r, z);
  }

  lemma LegalMoveTo<X(!new)>(l: Layout<X>, p: Pair, r: Ref, z: X) returns (k: nat)
    requires Represents(l, p) && InLayout(l, r.slot, r.index) && z in l.board.quiet(At(l, r))
    ensures k < |ForwardQuiet(l, At(l, r))| && ForwardQuiet(l, At(l, r))[k] == Quiet(RefOf(l, Canon(l.board, z)))
    ensures RefOf(l, Canon(l.board, z)) in Positions(p)
  {
    k := ForwardMoveTo(l, r, z);
    SuccessorIsPosition(l, p, r, z);
  }

  lemma ForwardMovesWithin<X(!new)>(l: Layout<X>, p: Pair, r: Ref, ct: ConversionType, n: nat)
    requires Represents(l, p) && p.Valid() && WellFormed(EmissionGame(p)) && WellFormed(ForwardGame(l, p))
             && r in Positions(p)
    requires EmissionGame(p)[r].Playable? && ForwardGame(l, p)[r].Playable? && n > 0
    requires forall to | to in Positions(p) :: ForcesAlike(EmissionGame(p), to, ForwardGame(l, p), to, ct, n - 1)
    ensures MovesWithin(ForwardGame(l, p), r, EmissionGame(p), r, ct, n)
  {
    hide Represents, WellFormed, SameMove, ForwardGame, EmissionGame, QuietOf, ForwardQuiet, Forces, IsHeld;
    var e, f := EmissionGame(p), ForwardGame(l, p);
    GamesHavePositions(l, p);
    BothGames(l, p, r);
    var c := l.conversions(At(l, r));
    MovesStayInGame(f, r);
    forall k | 0 <= k < |f[r].moves| ensures HasSameMove(f, f[r].moves[k], e, r, ct, n) {
      var m := f[r].moves[k];
      if k < |c| {
        assert m == c[k] && e[r].moves[k] == m;
        ConversionsAlike(f, m, e, ct, n);
      } else {
        assert m == ForwardQuiet(l, At(l, r))[k - |c|];
        var k' := ForwardIsQuiet(l, p, r, k - |c|);
        assert e[r].moves[|c| + k'] == m;
        QuietMovesAlike(f, m, e, m, ct, n);
      }
    }
  }

  /** A legal move is a quiet move on emissions. */
  lemma ForwardIsQuiet<X(!new)>(l: Layout<X>, p: Pair, r: Ref, k: nat) returns (k': nat)
    requires Represents(l, p) && p.Valid() && r in Positions(p)
    requires InLayout(l, r.slot, r.index) && k < |ForwardQuiet(l, At(l, r))|
    ensures k' < |QuietOf(p, r)| && QuietOf(p, r)[k'] == ForwardQuiet(l, At(l, r))[k]
    ensures QuietOf(p, r)[k'].Quiet? && QuietOf(p, r)[k'].to in Positions(p)
  {
    var x := At(l, r);
    var z := l.successors(x)[k];
    assert IsCanonical(l, x) && z in Elements(l.successors(x));
    SuccessorIsPosition(l, p, r, z);
    ForwardIsEmitted(l, p, r, z);
    QuietMovesReach(p, r);
    k' :| 0 <= k' < |QuietOf(p, r)|
          && QuietOf(p, r)[k'] == Quiet(Ref(p.Twin(r.slot), RefOf(l, Canon(l.board, z)).index));
  }

  /** The pair is shallow exactly if legal play decides every position within 8191 plies. */
  lemma ShallowForward<X(!new)>(l: Layout<X>, p: Pair)
    requires Represents(l, p) && p.Valid() && CountersBalanced(p)
    ensures WellFormed(ForwardGame(l, p))
    ensures ShallowPair(p) <==> DepthFits(ForwardGame(l, p))
  {
    hide Represents, WellFormed, ForwardGame, EmissionGame, Forces, IsHeld, CountersBalanced, Pair.Valid;
    ForwardGameIsWellFormed(l, p);
    EmissionGameIsWellFormed(p);
    GamesHavePositions(l, p);
    var e, f := EmissionGame(p), ForwardGame(l, p);
    forall r, ct, n: nat | r in Positions(p)
      ensures BestForced(e, r, ct, n) <==> BestForced(f, r, ct, n)
      ensures BestHeld(e, r, ct, n) <==> BestHeld(f, r, ct, n)
    {
      BestAlike(l, p, r, ct, n);
    }
  }

  lemma BestAlike<X(!new)>(l: Layout<X>, p: Pair, r: Ref, ct: ConversionType, n: nat)
    requires Represents(l, p) && p.Valid() && WellFormed(EmissionGame(p)) && WellFormed(ForwardGame(l, p))
    requires r in Positions(p) && r in EmissionGame(p) && r in ForwardGame(l, p)
    ensures BestForced(EmissionGame(p), r, ct, n) <==> BestForced(ForwardGame(l, p), r, ct, n)
    ensures BestHeld(EmissionGame(p), r, ct, n) <==> BestHeld(ForwardGame(l, p), r, ct, n)
  {
    hide Represents, WellFormed, ForwardGame, EmissionGame, Forces, IsHeld, AtMost, Pair.Valid;
    var e, f := EmissionGame(p), ForwardGame(l, p);
    forall ct', n': nat
      ensures Forces(e, r, ct', n') <==> Forces(f, r, ct', n')
      ensures IsHeld(e, r, ct', n') <==> IsHeld(f, r, ct', n')
    {
      GamesForceAlike(l, p, r, ct', n');
    }
  }

  // ---------------------------------------------------------------------
  // The whole chain.

  /** Every index passes verification against the legal moves of its position:
      rejected indices hold the invalid cell, the others their backed-up outcome. */
  ghost predicate Verified<X(!new)>(l: Layout<X>, p: Pair, rows: Rows)
    requires Represents(l, p) && p.Valid() && Shaped(p, rows)
  {
    && WellFormed(ForwardGame(l, p))
    && (forall r | r in Positions(p) ::
          EntryPasses(ForwardGame(l, p), FinishedCells(p, rows), Some(r), FinishedCells(p, rows)[r]))
    && (forall slot: nat, i: nat | slot < |rows| && i < |rows[slot]| && !IsPosition(p, Ref(slot, i)) ::
          EntryPasses(ForwardGame(l, p), FinishedCells(p, rows), None, Finished(rows[slot][i])))
  }

  lemma SolvedIsVerified<X(!new)>(l: Layout<X>, p: Pair, rows: Rows, maxWin: seq<nat>, maxLoss: seq<nat>)
    requires Represents(l, p) && p.Valid() && CountersBalanced(p) && Solved(p, rows, maxWin, maxLoss)
    ensures Verified(l, p, rows)
  {
    AcceptedForward(l, p, Readings(FinishedCells(p, rows)));
    PassingIsAcceptance(ForwardGame(l, p), FinishedCells(p, rows));
    forall slot: nat, i: nat | slot < |rows| && i < |rows[slot]| && !IsPosition(p, Ref(slot, i))
      ensures EntryPasses(ForwardGame(l, p), FinishedCells(p, rows), None, Finished(rows[slot][i]))
    {
      assert p.tables[slot].entries[i].Rejected?;
    }
  }

  /** Verification never passes words for positions decided at greater distances. */
  lemma VerifiedWordsAreShallow<X(!new)>(l: Layout<X>, p: Pair, rows: Rows, words: seq<WordRow>)
    requires Represents(l, p) && p.Valid() && Shaped(p, rows) && Verified(l, p, rows) && |words| == |rows|
    requires forall slot | 0 <= slot < |rows| :: rows[slot] == Unpacked(words[slot])
    ensures DepthFits(ForwardGame(l, p))
  {
    hide Represents, BestForced, BestHeld, NothingForced, WellFormed, ForwardGame, Unpacked, Accepts, Verified;
    hide Readings, FinishedCells;
    var g, a := ForwardGame(l, p), Readings(FinishedCells(p, rows));
    VerifiedIsAccepted(l, p, rows);
    GamesHavePositions(l, p);
    forall r, ct, n: nat | r in g && (BestForced(g, r, ct, n) || BestHeld(g, r, ct, n)) ensures n < 0x2000 {
      AcceptedValueIsForced(g, a, r);
      ReadingsFit(p, rows, words, r);
    }
  }

  lemma VerifiedIsAccepted<X(!new)>(l: Layout<X>, p: Pair, rows: Rows)
    requires Represents(l, p) && p.Valid() && Shaped(p, rows) && Verified(l, p, rows)
    ensures WellFormed(ForwardGame(l, p)) && Accepts(ForwardGame(l, p), Readings(FinishedCells(p, rows)))
    ensures Readings(FinishedCells(p, rows)).Keys == Positions(p)
  {
    hide Represents, WellFormed, ForwardGame, EntryPasses, Readings;
    GamesHavePositions(l, p);
    PassingIsAcceptance(ForwardGame(l, p), FinishedCells(p, rows));
  }

  lemma ReadingsFit(p: Pair, rows: Rows, words: seq<WordRow>, r: Ref)
    requires p.Valid() && Shaped(p, rows) && |words| == |rows| && r in Readings(FinishedCells(p, rows))
    requires forall slot | 0 <= slot < |rows| :: rows[slot] == Unpacked(words[slot])
    ensures var v := Readings(FinishedCells(p, rows))[r]; v.Draw? || v.plies < 0x2000
  {
    hide Unpacked, Pair.ValidSlot;
    WordsAreFittingRows(words[r.slot], rows[r.slot]);
    assert Fits(rows[r.slot][r.index]);
  }

  /** Solving the pair of a layout, if the stored counters fit, leaves tables that
      verification passes exactly if legal play decides no position at a distance that
      does not fit, and the reported maxima tell. */
  method SolveLayout<X(!new)>(ghost l: Layout<X>, p: Pair)
    returns (working: WorkingPair, maxWin: seq<nat>, maxLoss: seq<nat>, invalid: seq<InvalidCounts>)
    requires Represents(l, p)
    ensures fresh(working) && working.Valid() && |working.values| == |p.tables|
    ensures p.Valid() && CountersBalanced(p) && Shaped(p, RowsOf(working.values)) && WellFormed(ForwardGame(l, p))
    ensures CountersFit(p) ==> (Solved(p, RowsOf(working.values), maxWin, maxLoss) <==> DepthFits(ForwardGame(l, p)))
    ensures CountersFit(p) ==> (Verified(l, p, RowsOf(working.values)) <==> DepthFits(ForwardGame(l, p)))
    ensures CountersFit(p) ==> (MaximaFit(maxWin, maxLoss) <==> DepthFits(ForwardGame(l, p)))
    ensures RejectsExactly(p, RowsOf(working.values)) <==> CountersKept(p)
    ensures Reported(p, maxWin, maxLoss) && InvalidCounted(p, invalid)
  {
    hide CountersFit, CountersKept, MaximaFit, Solved, Verified, Represents, CountersBalanced, InvalidCounted;
    hide RejectsExactly, ShallowPair;
    hide DepthFits, Unpacked;
    LayoutIsBalanced(l, p);
    ShallowForward(l, p);
    working, maxWin, maxLoss, invalid := SolvePair(p);
    if Solved(p, RowsOf(working.values), maxWin, maxLoss) {
      SolvedIsVerified(l, p, RowsOf(working.values), maxWin, maxLoss);
    }
    if Verified(l, p, RowsOf(working.values)) {
      VerifiedWordsAreShallow(l, p, RowsOf(working.values), WordsOf(working.values));
    }
  }

  /** The cell is the outcome that legal play forces from the position, at that
      distance and conversion type. */
  ghost predicate IsForced<X(!new)>(l: Layout<X>, p: Pair, r: Ref, c: Cell)
    requires Represents(l, p) && WellFormed(ForwardGame(l, p)) && r in Positions(p)
  {
    && (forall ct, n :: c == Won(ct, n) <==> BestForced(ForwardGame(l, p), r, ct, n))
    && (forall ct, n :: c == Lost(ct, n) <==> BestHeld(ForwardGame(l, p), r, ct, n))
    && (c == Drawn <==> NothingForced(ForwardGame(l, p), r))
  }

  /** A solved table is a map of the game: an index holds a win, loss or draw exactly
      when legal play from its position forces it, at that distance and type. */
  lemma SolvedIsForced<X(!new)>(l: Layout<X>, p: Pair, rows: Rows, maxWin: seq<nat>, maxLoss: seq<nat>, r: Ref)
    requires Represents(l, p) && p.Valid() && CountersBalanced(p) && Solved(p, rows, maxWin, maxLoss)
             && r in Positions(p)
    ensures WellFormed(ForwardGame(l, p)) && IsForced(l, p, r, FinishedCells(p, rows)[r])
  {
    hide Represents, CountersBalanced, Pair.Valid, BestForced, BestHeld, NothingForced, ForwardGame, EmissionGame;
    hide WellFormed, Accepts;
    var cells := FinishedCells(p, rows);
    AcceptedForward(l, p, Readings(cells));
    AcceptedValueIsForced(ForwardGame(l, p), Readings(cells), r);
    assert r in Readings(cells);
    SameKind(cells[r], Readings(cells)[r]);
  }

  lemma SameKind(c: Cell, v: DtcOutcome)
    requires ToOutcome(c) == Some(v)
    ensures forall ct, n :: c == Won(ct, n) <==> v == Win(ct, n)
    ensures forall ct, n :: c == Lost(ct, n) <==> v == Loss(ct, n)
    ensures c == Drawn <==> v == Draw
  {
  }
}

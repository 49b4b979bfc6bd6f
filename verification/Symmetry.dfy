/** Move counters under the diagonal symmetry quotient. Positions are taken up to
    the free reflections; the remaining diagonal reflection may fix positions. */
module Symmetry {
  import opened Sums

  /** `moves(y, z)` counts the quiet moves from `y` to representatives of `z`.
      `diagonal` positions have both kings on the diagonal: they keep an index of
      their own beside their reflection. Of any other two reflected positions
      exactly one is canonical. */
  datatype Quotient<!Y> = Quotient(reps: set<Y>, mirror: Y -> Y, diagonal: Y -> bool, canonical: Y -> bool,
                                   moves: (Y, Y) -> nat)

  ghost predicate Valid<Y(!new)>(q: Quotient<Y>) {
    && (forall y | y in q.reps :: q.mirror(y) in q.reps && q.mirror(q.mirror(y)) == y)
    && (forall y | y in q.reps :: q.diagonal(q.mirror(y)) == q.diagonal(y))
    && (forall y | y in q.reps && q.diagonal(y) :: q.canonical(y))
    && (forall y | y in q.reps && !q.diagonal(y) :: q.canonical(q.mirror(y)) != q.canonical(y))
    && (forall y, z | y in q.reps && z in q.reps :: q.moves(q.mirror(y), q.mirror(z)) == q.moves(y, z))
  }

  /** The canonical position sharing an index with `y`. */
  function Index<Y>(q: Quotient<Y>, y: Y): Y {
    if q.canonical(y) then y else q.mirror(y)
  }

  ghost function Canonical<Y(!new)>(q: Quotient<Y>): set<Y> {
    set y | y in q.reps && q.canonical(y)
  }

  ghost function Preimage<Y(!new)>(q: Quotient<Y>, i: Y): set<Y> {
    set y | y in q.reps && Index(q, y) == i
  }

  /** How often the unmoves of the canonical position `s` emit the index `i`: once
      per predecessor of that index, and once more per predecessor whose diagonal
      reflection it is, when `s` stands for eight positions and `i` for four. */
  ghost function Emitted<Y(!new)>(q: Quotient<Y>, s: Y, i: Y): nat {
    MovesInto(q, Preimage(q, i), s)
    + if !q.diagonal(s) && q.diagonal(i) then MovesInto(q, Preimage(q, q.mirror(i)), s) else 0
  }

  /** The moves from a set of positions to `s`. */
  ghost function MovesInto<Y(!new)>(q: Quotient<Y>, from: set<Y>, s: Y): nat {
    Sum(from, y => q.moves(y, s))
  }

  /** What the moves from `i` to one position contribute to its counter. */
  function Weight<Y>(q: Quotient<Y>, i: Y, z: Y): nat {
    if !q.diagonal(i) && q.diagonal(z) then 2 * q.moves(i, z) else q.moves(i, z)
  }

  /** The quiet part of the symmetry-adjusted counter of `i`. */
  ghost function Counter<Y(!new)>(q: Quotient<Y>, i: Y): nat {
    Sum(q.reps, z => Weight(q, i, z))
  }

  lemma MovesIntoIsSum<Y(!new)>(q: Quotient<Y>, from: set<Y>, s: Y, counts: Y -> nat)
    requires forall y | y in from :: counts(y) == q.moves(y, s)
    ensures MovesInto(q, from, s) == Sum(from, counts)
  {
    SumSame(from, counts, y => q.moves(y, s));
  }

  lemma CounterIsSum<Y(!new)>(q: Quotient<Y>, i: Y, weights: Y -> nat)
    requires forall z | z in q.reps :: weights(z) == Weight(q, i, z)
    ensures Counter(q, i) == Sum(q.reps, weights)
  {
    SumSame(q.reps, weights, z => Weight(q, i, z));
  }

  lemma PreimageIs<Y(!new)>(q: Quotient<Y>, i: Y)
    requires Valid(q) && i in Canonical(q)
    ensures Preimage(q, i) == if q.diagonal(i) then {i} else {i, q.mirror(i)}
  {
    forall y | y in Preimage(q, i) && y != i ensures y == q.mirror(i) && !q.diagonal(i) {
      assert q.mirror(y) == i;
    }
  }

  lemma SumOfOne<Y(!new)>(y: Y, f: Y -> nat)
    ensures Sum({y}, f) == f(y)
  {
    SumRemove({y}, f, y);
  }

  lemma SumOfTwo<Y(!new)>(y: Y, z: Y, f: Y -> nat)
    requires y != z
    ensures Sum({y, z}, f) == f(y) + f(z)
  {
    SumRemove({y, z}, f, y);
    assert {y, z} - {y} == {z};
    SumOfOne(z, f);
  }

  /** A single emission count in terms of the moves of `i`. */
  lemma EmittedIs<Y(!new)>(q: Quotient<Y>, s: Y, i: Y)
    requires Valid(q) && s in Canonical(q) && i in Canonical(q)
    ensures Emitted(q, s, i)
         == q.moves(i, s) + if q.diagonal(i) && q.diagonal(s) then 0 else q.moves(i, q.mirror(s))
  {
    var f := (y: Y) => q.moves(y, s);
    assert q.moves(q.mirror(i), s) == q.moves(i, q.mirror(s)) by {
      assert q.mirror(q.mirror(i)) == i;
    }
    PreimageIs(q, i);
    if q.diagonal(i) {
      SumOfOne(i, f);
      assert q.mirror(i) in Canonical(q);
      PreimageIs(q, q.mirror(i));
      SumOfOne(q.mirror(i), f);
    } else {
      assert q.mirror(i) != i;
      SumOfTwo(i, q.mirror(i), f);
    }
  }

  ghost function OnDiagonal<Y(!new)>(q: Quotient<Y>): set<Y> {
    set y | y in q.reps && q.diagonal(y)
  }

  /** Of each other reflected pair, the canonical position, or the other one. */
  ghost function OffDiagonal<Y(!new)>(q: Quotient<Y>, canonical: bool): set<Y> {
    set y | y in q.reps && !q.diagonal(y) && q.canonical(y) == canonical
  }

  lemma Mirrored<Y(!new)>(q: Quotient<Y>)
    requires Valid(q)
    ensures OnDiagonal(q) == set y | y in OnDiagonal(q) :: q.mirror(y)
    ensures OffDiagonal(q, false) == set y | y in OffDiagonal(q, true) :: q.mirror(y)
    ensures forall y, z | y in q.reps && z in q.reps && q.mirror(y) == q.mirror(z) :: y == z
  {
    forall z | z in OnDiagonal(q) ensures z in set y | y in OnDiagonal(q) :: q.mirror(y) {
      assert q.mirror(q.mirror(z)) == z && q.mirror(z) in OnDiagonal(q);
    }
    forall z | z in OffDiagonal(q, false) ensures z in set y | y in OffDiagonal(q, true) :: q.mirror(y) {
      assert q.mirror(q.mirror(z)) == z && q.mirror(z) in OffDiagonal(q, true);
    }
    forall y, z | y in q.reps && z in q.reps && q.mirror(y) == q.mirror(z) ensures y == z {
      assert q.mirror(q.mirror(y)) == q.mirror(q.mirror(z));
    }
  }

  /** Sources that stand for eight positions emit once per move to either form. */
  lemma OffDiagonalSum<Y(!new)>(q: Quotient<Y>, i: Y, emitted: Y -> nat, direct: Y -> nat)
    requires Valid(q) && i in Canonical(q)
    requires forall s | s in Canonical(q) :: emitted(s) == Emitted(q, s, i)
    requires forall z | z in q.reps :: direct(z) == q.moves(i, z)
    ensures Sum(OffDiagonal(q, true), emitted) == Sum(OffDiagonal(q, true), direct) + Sum(OffDiagonal(q, false), direct)
  {
    var mirrored := (z: Y) => q.moves(i, q.mirror(z));
    var chosen := OffDiagonal(q, true);
    forall s | s in chosen ensures emitted(s) == direct(s) + mirrored(s) {
      EmittedIs(q, s, i);
    }
    SumPlus(chosen, direct, mirrored, emitted);
    Mirrored(q);
    SumReindex(chosen, OffDiagonal(q, false), mirrored, direct, q.mirror);
  }

  /** Sources that stand for four positions emit twice per move exactly when the
      index stands for eight. */
  lemma OnDiagonalSum<Y(!new)>(q: Quotient<Y>, i: Y, emitted: Y -> nat, weighted: Y -> nat)
    requires Valid(q) && i in Canonical(q)
    requires forall s | s in Canonical(q) :: emitted(s) == Emitted(q, s, i)
    requires forall z | z in OnDiagonal(q) :: weighted(z) == Weight(q, i, z)
    ensures Sum(OnDiagonal(q), emitted) == Sum(OnDiagonal(q), weighted)
  {
    var direct := (z: Y) => q.moves(i, z);
    var mirrored := (z: Y) => q.moves(i, q.mirror(z));
    forall s | s in OnDiagonal(q) ensures emitted(s) == if q.diagonal(i) then direct(s) else direct(s) + mirrored(s) {
      EmittedIs(q, s, i);
    }
    if q.diagonal(i) {
      SumSame(OnDiagonal(q), emitted, weighted);
    } else {
      SumPlus(OnDiagonal(q), direct, mirrored, emitted);
      SumPlus(OnDiagonal(q), direct, direct, weighted);
      Mirrored(q);
      SumReindex(OnDiagonal(q), OnDiagonal(q), mirrored, direct, q.mirror);
    }
  }

  /** Over all canonical sources, an index is emitted exactly as often as its
      counter says, whether it or its successors stand for four or eight positions. */
  lemma EmissionsMatchCounter<Y(!new)>(q: Quotient<Y>, i: Y, emitted: Y -> nat)
    requires Valid(q) && i in Canonical(q)
    requires forall s | s in Canonical(q) :: emitted(s) == Emitted(q, s, i)
    ensures Sum(Canonical(q), emitted) == Counter(q, i)
  {
    var weighted := (z: Y) => Weight(q, i, z);
    var direct := (z: Y) => q.moves(i, z);
    assert Canonical(q) == OnDiagonal(q) + OffDiagonal(q, true);
    SumUnion(OnDiagonal(q), OffDiagonal(q, true), emitted);
    OnDiagonalSum(q, i, emitted, weighted);
    OffDiagonalSum(q, i, emitted, direct);
    CounterSplits(q, i, weighted, direct);
  }

  lemma CounterSplits<Y(!new)>(q: Quotient<Y>, i: Y, weighted: Y -> nat, direct: Y -> nat)
    requires forall z | z in q.reps :: weighted(z) == Weight(q, i, z) && direct(z) == q.moves(i, z)
    ensures Counter(q, i)
         == Sum(OnDiagonal(q), weighted) + Sum(OffDiagonal(q, true), direct) + Sum(OffDiagonal(q, false), direct)
  {
    var chosen, others := OffDiagonal(q, true), OffDiagonal(q, false);
    assert q.reps == OnDiagonal(q) + (chosen + others);
    SumUnion(chosen, others, weighted);
    SumUnion(OnDiagonal(q), chosen + others, weighted);
    SumSame(chosen, weighted, direct);
    SumSame(others, weighted, direct);
    CounterIsSum(q, i, weighted);
  }

  /** The reflection of an index: `diagonal_symmetric` where it is defined. */
  function Reflected<Y>(q: Quotient<Y>, i: Y): Y {
    if q.diagonal(i) then q.mirror(i) else i
  }

  /** Emissions do not change when source and target indices are both reflected. */
  lemma EmittedIsSymmetric<Y(!new)>(q: Quotient<Y>, s: Y, i: Y)
    requires Valid(q) && s in Canonical(q) && i in Canonical(q)
    ensures Reflected(q, s) in Canonical(q) && Reflected(q, i) in Canonical(q)
    ensures Emitted(q, Reflected(q, s), Reflected(q, i)) == Emitted(q, s, i)
  {
    EmittedIs(q, s, i);
    EmittedIs(q, Reflected(q, s), Reflected(q, i));
    assert q.mirror(q.mirror(s)) == s && q.mirror(q.mirror(i)) == i;
    assert q.moves(q.mirror(i), s) == q.moves(i, q.mirror(s)) by {
      assert q.moves(q.mirror(q.mirror(i)), q.mirror(s)) == q.moves(q.mirror(i), s);
    }
  }

  /** A position emitted by `s` has a quiet move to a position indexed by `s` or by
      the reflection of `s`. */
  lemma EmittedMove<Y(!new)>(q: Quotient<Y>, s: Y, i: Y) returns (z: Y)
    requires Valid(q) && s in Canonical(q) && i in Canonical(q) && Emitted(q, s, i) > 0
    ensures z in q.reps && q.moves(i, z) > 0 && (Index(q, z) == s || Index(q, z) == Reflected(q, s))
  {
    EmittedIs(q, s, i);
    z := if q.moves(i, s) > 0 then s else q.mirror(s);
    if z != s && !q.diagonal(s) {
      assert q.mirror(z) == s;
    }
  }

  /** A quiet move to a position indexed by `s` makes `s` emit. */
  lemma MoveIsEmitted<Y(!new)>(q: Quotient<Y>, s: Y, i: Y, z: Y)
    requires Valid(q) && s in Canonical(q) && i in Canonical(q)
    requires z in q.reps && q.moves(i, z) > 0 && Index(q, z) == s
    ensures Emitted(q, s, i) > 0
  {
    EmittedIs(q, s, i);
    if z != s {
      assert q.mirror(z) == s && q.mirror(s) == z;
    }
  }
}

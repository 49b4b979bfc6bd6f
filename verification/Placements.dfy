/** The representative of a placement, and the indices of all placements. */
module Placements {
  import opened Boards
  import opened Combinadics
  import opened Compaction
  import opened Indexer
  import opened KingPairs
  import opened PawnMaps
  import opened PawnReflections
  import opened Sorting
  import opened Wrappers

  const MIRROR := Flip(false, true)

  /** Groups whose pieces are equal, and the first of their slots. */
  function RepeatedStart(plan: Plan): nat {
    if plan.kind == SymmetricPawns then plan.Start() + 2 else plan.Start()
  }

  function Repeated(plan: Plan): seq<Group>
    requires ValidPlan(plan)
  {
    Place(if plan.kind == OtherPawns then plan.sizes else plan.sizes[1..], RepeatedStart(plan))
  }

  /** Pairs of kings are not sorted; all other groups are. */
  lemma {:induction false} PlaceRest(sizes: seq<nat>, start: nat)
    requires sizes != []
    ensures Place(sizes, start) == [Group(start, start + sizes[0], if start <= 64 then 64 - start else 0)]
            + Place(sizes[1..], start + sizes[0])
    ensures End(Place(sizes, start), start) == End(Place(sizes[1..], start + sizes[0]), start + sizes[0])
  {
    hide Place;
    var n := |sizes| - 1;
    PlaceLast(sizes, start);
    PlaceNone(start);
    PlaceNone(start + sizes[0]);
    if n == 0 {
      assert sizes[..0] == [] && sizes[1..] == [];
    } else {
      PlaceRest(sizes[..n], start);
      assert sizes[..n][1..] == sizes[1..][..n - 1];
      PlaceLast(sizes[1..], start + sizes[0]);
    }
  }

  lemma PlaceNone(start: nat)
    ensures Place([], start) == []
  {
  }

  lemma PlaceLast(sizes: seq<nat>, start: nat)
    requires sizes != []
    ensures var head := Place(sizes[..|sizes| - 1], start);
            Place(sizes, start) == head + [Group(End(head, start), End(head, start) + sizes[|sizes| - 1],
                                                 if End(head, start) <= 64 then 64 - End(head, start) else 0)]
  {
  }

  lemma RepeatedFacts(plan: Plan)
    requires ValidPlan(plan)
    ensures Consecutive(Repeated(plan), RepeatedStart(plan))
    ensures plan.Start() <= RepeatedStart(plan) <= plan.Pieces() == End(Repeated(plan), RepeatedStart(plan))
    ensures forall g | g in Repeated(plan) :: RepeatedStart(plan) <= g.lo <= g.hi <= plan.Pieces()
    ensures plan.kind != SymmetricPawns ==> Repeated(plan) == plan.Groups()
    ensures plan.kind == SymmetricPawns ==>
              plan.Groups() == [Group(plan.Start(), plan.Start() + 2, 64 - plan.Start())] + Repeated(plan)
  {
    hide Place, Consecutive, Decodable, ValidGroups;
    GroupsFacts(plan);
    PlaceFacts(if plan.kind == OtherPawns then plan.sizes else plan.sizes[1..], RepeatedStart(plan));
    if plan.kind == SymmetricPawns {
      PlaceRest(plan.sizes, plan.Start());
      assert plan.Groups()[0] in plan.Groups();
    }
    ConsecutiveFacts(Repeated(plan), RepeatedStart(plan));
  }

  // ---------------------------------------------------------------------
  // Symmetries of a placement.

  function TurnedSquares(t: Turn, squares: seq<Square>): (s: seq<Square>)
    ensures |s| == |squares|
  {
    seq(|squares|, i requires 0 <= i < |squares| => t.Of(squares[i]))
  }

  /** The placement under a symmetry of the board. */
  function Turned(t: Turn, p: Placement): Placement {
    Placement(TurnedSquares(t, p.squares), p.ep)
  }

  /** The slot whose piece a file reflection brings to slot `i`. */
  function Source(plan: Plan, i: nat): nat
    requires ValidPlan(plan) && Symmetric(plan.pawns)
  {
    if i < GroupsEnd(plan.pawns) then MirrorSlot(plan.pawns, i) else i
  }

  lemma SourceIsInvolution(plan: Plan, i: nat)
    requires ValidPlan(plan) && Symmetric(plan.pawns)
    ensures Source(plan, Source(plan, i)) == i
    ensures i < GroupsEnd(plan.pawns) <==> Source(plan, i) < GroupsEnd(plan.pawns)
  {
    if i < GroupsEnd(plan.pawns) {
      SlotInGroup(plan.pawns, i);
      MirrorSlots(plan.pawns, SlotGroup(plan.pawns, i), i);
    }
  }

  lemma SourceInRange(plan: Plan, i: nat, n: nat)
    requires ValidPlan(plan) && Symmetric(plan.pawns) && i < n && GroupsEnd(plan.pawns) <= n
    ensures Source(plan, i) < n
  {
    SourceIsInvolution(plan, i);
  }

  /** The placement seen in a mirror, with the pawns of each file taken from its
      mirror file. */
  function Reflected(plan: Plan, p: Placement): (r: Placement)
    requires ValidPlan(plan) && Symmetric(plan.pawns) && GroupsEnd(plan.pawns) <= |p.squares|
    ensures |r.squares| == |p.squares|
  {
    Placement(
      seq(|p.squares|, i requires 0 <= i < |p.squares| =>
        SourceInRange(plan, i, |p.squares|);
        p.squares[Source(plan, i)].Flipped(MIRROR)),
      ReflectFile(p.ep))
  }

  // ---------------------------------------------------------------------
  // The representative.

  predicate IsReflected(plan: Plan, p: Placement)
    requires ValidPlan(plan) && plan.kind == SymmetricPawns && |p.squares| >= plan.Start() + 2
  {
    p.squares[plan.Start()].FileIndex() < p.squares[plan.Start() + 1].FileIndex()
  }

  /** Plans of symmetric tables have symmetric pawns. */
  predicate ProperPlan(plan: Plan) {
    ValidPlan(plan) && (plan.kind == SymmetricPawns ==> Symmetric(plan.pawns))
  }

  /** Brings the kings to their canonical squares by a symmetry. */
  ghost function Normalized(plan: Plan, p: Placement): (r: Placement)
    requires ProperPlan(plan) && IsPlacement(plan, p)
    ensures |r.squares| == |p.squares|
  {
    RepeatedFacts(plan);
    match plan.kind
    case Pawnless => Turned(Reducing(p.squares[0], p.squares[1]), p)
    case SymmetricPawns => if IsReflected(plan, p) then Reflected(plan, p) else p
    case OtherPawns => p
  }

  function SortPieces(plan: Plan, p: Placement): (r: Placement)
    requires ValidPlan(plan) && |p.squares| == plan.Pieces() && OnBoard(p.squares)
    ensures |r.squares| == |p.squares|
  {
    RepeatedFacts(plan);
    Placement(SquaresOf(plan, SortGroups(Repeated(plan), Numbers(plan, p.squares))), p.ep)
  }

  lemma TurnedIsPlacement(plan: Plan, p: Placement, t: Turn)
    requires ValidPlan(plan) && plan.kind == Pawnless && IsPlacement(plan, p)
    ensures IsPlacement(plan, Turned(t, p))
  {
    var s := TurnedSquares(t, p.squares);
    forall i | 0 <= i < |s| ensures s[i].OnBoard() {
    }
    SymmetricPairsReduceAlike(p.squares[0], p.squares[1], t);
    assert PawnSquares(plan.pawns, Ranks(s, 0)) == s[..0];
  }

  /** The pawns of a reflected placement are the reflected configuration. */
  lemma ReflectedPawns(plan: Plan, p: Placement)
    requires ValidPlan(plan) && Symmetric(plan.pawns) && plan.kind == SymmetricPawns && IsPlacement(plan, p)
    ensures GroupsEnd(plan.pawns) <= |p.squares| && OnBoard(Reflected(plan, p).squares)
    ensures PawnsMatch(plan, Reflected(plan, p))
  {
    hide IsConfiguration, ValidGroups, Symmetric, MirrorSlot, Chosen;
    GroupsFacts(plan);
    var n := GroupsEnd(plan.pawns);
    var ranks, r := Ranks(p.squares, n), Reflected(plan, p);
    ReflectedIsConfiguration(plan.pawns, (ranks, p.ep));
    forall i | 0 <= i < |r.squares| ensures r.squares[i].OnBoard() {
      SourceInRange(plan, i, |p.squares|);
    }
    forall i | 0 <= i < n
      ensures r.squares[i].rank == ReflectRanks(plan.pawns, ranks)[i] && r.squares[i].file == FileOf(plan.pawns, i)
    {
      SlotInGroup(plan.pawns, i);
      MirrorSlots(plan.pawns, SlotGroup(plan.pawns, i), i);
      FilesMirror(plan.pawns, i);
      assert p.squares[..n][MirrorSlot(plan.pawns, i)] == p.squares[MirrorSlot(plan.pawns, i)];
    }
    assert Ranks(r.squares, n) == ReflectRanks(plan.pawns, ranks);
  }

  lemma {:induction false} FileIsFileOfGroup(pawns: seq<PawnGroup>, i: nat)
    requires ValidGroups(pawns) && i < GroupsEnd(pawns)
    ensures pawns != [] && FileOf(pawns, i) == pawns[SlotGroup(pawns, i)].file
  {
    var n := |pawns| - 1;
    if n == 0 {
      assert pawns[..0] == [];
    } else if i < pawns[n].lo {
      FileIsFileOfGroup(pawns[..n], i);
    }
  }

  lemma FilesMirror(pawns: seq<PawnGroup>, i: nat)
    requires ValidGroups(pawns) && Symmetric(pawns) && i < GroupsEnd(pawns)
    ensures MirrorSlot(pawns, i) < GroupsEnd(pawns) && FileOf(pawns, MirrorSlot(pawns, i)) == 7 - FileOf(pawns, i)
  {
    SlotInGroup(pawns, i);
    var g := SlotGroup(pawns, i);
    MirrorSlots(pawns, g, i);
    SpanFacts(pawns, MirrorOf(pawns, g));
    SlotGroupIs(pawns, MirrorOf(pawns, g), MirrorSlot(pawns, i));
    FileIsFileOfGroup(pawns, i);
    FileIsFileOfGroup(pawns, MirrorSlot(pawns, i));
    MirrorIsInvolution(pawns, g);
  }

  lemma ReflectedIsPlacement(plan: Plan, p: Placement)
    requires ValidPlan(plan) && Symmetric(plan.pawns) && plan.kind == SymmetricPawns && IsPlacement(plan, p)
    ensures GroupsEnd(plan.pawns) <= |p.squares|
    ensures IsPlacement(plan, Reflected(plan, p))
    ensures Reflected(plan, Reflected(plan, p)) == p
  {
    hide IsConfiguration, ValidGroups, Symmetric, MirrorSlot, Chosen, PawnsMatch;
    GroupsFacts(plan);
    ReflectedPawns(plan, p);
    var s := Reflected(plan, p).squares;
    forall i, j | 0 <= i < j < |s| ensures s[i] != s[j] {
      SourceInRange(plan, i, |s|);
      SourceInRange(plan, j, |s|);
      SourceIsInvolution(plan, i);
      SourceIsInvolution(plan, j);
    }
    forall i | 0 <= i < |s| ensures Reflected(plan, Reflected(plan, p)).squares[i] == p.squares[i] {
      SourceInRange(plan, i, |s|);
      SourceIsInvolution(plan, i);
    }
    EpOnBoard(plan, p);
  }

  lemma EpOnBoard(plan: Plan, p: Placement)
    requires ValidPlan(plan) && PawnsMatch(plan, p)
    ensures p.ep.Some? ==> p.ep.value < 8
    ensures ReflectFile(ReflectFile(p.ep)) == p.ep
  {
    if plan.kind != Pawnless {
      ConfigurationIsStorable(plan.pawns, (Ranks(p.squares, GroupsEnd(plan.pawns)), p.ep));
    }
  }

  /** Kings stand on their canonical squares. */
  ghost predicate KingsReduced(plan: Plan, p: Placement)
    requires ValidPlan(plan) && IsPlacement(plan, p)
  {
    RepeatedFacts(plan);
    match plan.kind
    case Pawnless => IsReduced(p.squares[0], p.squares[1])
    case SymmetricPawns => p.squares[plan.Start()].FileIndex() > p.squares[plan.Start() + 1].FileIndex()
    case OtherPawns => true
  }

  lemma NormalizedIsPlacement(plan: Plan, p: Placement)
    requires ProperPlan(plan) && IsPlacement(plan, p)
    ensures IsPlacement(plan, Normalized(plan, p))
    ensures KingsReduced(plan, Normalized(plan, p))
  {
    hide PawnsMatch, ValidGroups, Symmetric;
    RepeatedFacts(plan);
    if plan.kind == Pawnless {
      TurnedIsPlacement(plan, p, Reducing(p.squares[0], p.squares[1]));
      ReducedPairs(p.squares[0], p.squares[1]);
    } else if plan.kind == SymmetricPawns {
      KingIndicesFlip(plan, p);
      if IsReflected(plan, p) {
        ReflectedIsPlacement(plan, p);
      }
    }
  }

  /** A reflection exchanges the order of the kings. */
  lemma KingIndicesFlip(plan: Plan, p: Placement)
    requires ProperPlan(plan) && plan.kind == SymmetricPawns && IsPlacement(plan, p)
    ensures plan.Start() + 2 <= plan.Pieces()
    ensures p.squares[plan.Start()].FileIndex() != p.squares[plan.Start() + 1].FileIndex()
    ensures IsReflected(plan, Reflected(plan, p)) <==> !IsReflected(plan, p)
  {
    hide PawnsMatch, ValidGroups, Symmetric;
    RepeatedFacts(plan);
    var stm, sntm := p.squares[plan.Start()], p.squares[plan.Start() + 1];
    FileIndexInjective(stm, sntm);
    FileIndexFlips(stm);
    FileIndexFlips(sntm);
  }

  lemma DistinctIsKept(v: seq<nat>, w: seq<nat>)
    requires Compaction.Distinct(v) && Below(v, 64) && multiset(v) == multiset(w)
    ensures Compaction.Distinct(w) && Below(w, 64)
  {
    OnceEach(v);
    forall i | 0 <= i < |w| ensures w[i] < 64 {
      assert w[i] in multiset(w);
      assert w[i] in v;
    }
    forall i, j | 0 <= i < j < |w| ensures w[i] != w[j] {
      TwiceCounts(w, i, j);
    }
  }

  lemma TwiceCounts(w: seq<nat>, i: nat, j: nat)
    requires i < j < |w|
    ensures w[i] == w[j] ==> multiset(w)[w[i]] >= 2
  {
    assert w == w[..i] + [w[i]] + w[i + 1..j] + [w[j]] + w[j + 1..];
  }

  lemma {:induction false} OnceEach(v: seq<nat>)
    requires Compaction.Distinct(v)
    ensures forall x :: multiset(v)[x] <= 1
  {
    if v != [] {
      OnceEach(v[1..]);
      assert v == [v[0]] + v[1..];
      assert v[0] !in v[1..];
    }
  }

  /** The numbers of a placement after sorting. */
  function SortedNumbers(plan: Plan, p: Placement): (w: seq<nat>)
    requires ValidPlan(plan) && |p.squares| == plan.Pieces() && OnBoard(p.squares)
    ensures |w| == |p.squares|
  {
    RepeatedFacts(plan);
    SortGroups(Repeated(plan), Numbers(plan, p.squares))
  }

  lemma SortedNumbersFacts(plan: Plan, p: Placement)
    requires ValidPlan(plan) && IsPlacement(plan, p)
    ensures Compaction.Distinct(SortedNumbers(plan, p)) && Below(SortedNumbers(plan, p), 64)
    ensures OnBoard(SortPieces(plan, p).squares) && Apart(SortPieces(plan, p).squares)
    ensures Numbers(plan, SortPieces(plan, p).squares) == SortedNumbers(plan, p)
    ensures RepeatedStart(plan) <= |p.squares|
    ensures SortPieces(plan, p).squares[..RepeatedStart(plan)] == p.squares[..RepeatedStart(plan)]
    ensures Sorted(Repeated(plan), SortedNumbers(plan, p))
  {
    hide PawnsMatch, SortGroups, ValidPlan, Compaction.Distinct, Consecutive;
    RepeatedFacts(plan);
    var v, w := Numbers(plan, p.squares), SortedNumbers(plan, p);
    NumbersAreDistinct(plan, p.squares);
    SortKeepsNumbers(Repeated(plan), v);
    DistinctIsKept(v, w);
    SquaresAreDistinct(plan, w);
    NumbersAreDistinct(plan, SortPieces(plan, p).squares);
    SortGroupsSorts(Repeated(plan), RepeatedStart(plan), v);
    forall i | 0 <= i < RepeatedStart(plan) ensures SortPieces(plan, p).squares[i] == p.squares[i] {
      assert w[i] == v[i];
      SquaresAreNumbered(plan, p.squares[i]);
    }
    forall g | g in Repeated(plan) ensures Decreasing(w, g.lo, g.hi) {
      DescendingDistinct(w, g.lo, g.hi);
    }
  }

  lemma DescendingDistinct(w: seq<nat>, lo: nat, hi: nat)
    requires lo <= hi <= |w| && Compaction.Distinct(w) && Descending(w[lo..hi])
    ensures Decreasing(w, lo, hi)
  {
    forall i, j | lo <= i < j < hi ensures w[i] > w[j] {
      assert w[lo..hi][i - lo] >= w[lo..hi][j - lo];
    }
  }

  lemma SortedIsCanonical(plan: Plan, p: Placement)
    requires ValidPlan(plan) && IsPlacement(plan, p) && KingsReduced(plan, p)
    ensures IsCanonical(plan, SortPieces(plan, p))
  {
    hide SortPieces, SortedNumbers, ValidGroups, IsConfiguration, Numbers, Repeated;
    RepeatedFacts(plan);
    SortedNumbersFacts(plan, p);
    SortKeepsEp(plan, p);
    var q, n := SortPieces(plan, p), RepeatedStart(plan);
    forall i | 0 <= i < n ensures q.squares[i] == p.squares[i] {
      assert q.squares[i] == q.squares[..n][i] && p.squares[i] == p.squares[..n][i];
    }
    var pawns := GroupsEnd(plan.pawns);
    assert Ranks(q.squares, pawns) == Ranks(p.squares, pawns);
    assert q.squares[..pawns] == p.squares[..pawns];
    if plan.kind == SymmetricPawns {
      KingPairSorted(plan, q.squares);
    }
  }

  lemma SortKeepsEp(plan: Plan, p: Placement)
    requires ValidPlan(plan) && |p.squares| == plan.Pieces() && OnBoard(p.squares)
    ensures SortPieces(plan, p).ep == p.ep
  {
  }

  lemma KingPairSorted(plan: Plan, squares: seq<Square>)
    requires ValidPlan(plan) && plan.kind == SymmetricPawns && |squares| >= plan.Start() + 2 && OnBoard(squares)
    requires squares[plan.Start()].FileIndex() > squares[plan.Start() + 1].FileIndex()
    ensures Decreasing(Numbers(plan, squares), plan.Start(), plan.Start() + 2)
  {
  }

  /** The representative of a placement. */
  ghost function Canonical(plan: Plan, p: Placement): (c: Placement)
    requires ProperPlan(plan) && IsPlacement(plan, p)
    ensures IsCanonical(plan, c)
  {
    NormalizedIsPlacement(plan, p);
    SortedIsCanonical(plan, Normalized(plan, p));
    SortPieces(plan, Normalized(plan, p))
  }

  lemma IdentityTurn(p: Placement)
    ensures Turned(Turn(Flip(false, false), false), p) == p
  {
  }

  lemma CanonicalSquares(plan: Plan, p: Placement)
    requires ProperPlan(plan) && IsCanonical(plan, p)
    ensures Normalized(plan, p) == p
  {
    hide PawnsMatch, ValidGroups, Symmetric, Numbers;
    RepeatedFacts(plan);
    if plan.kind == Pawnless {
      ReducedPairs(p.squares[0], p.squares[1]);
      IdentityTurn(p);
    } else if plan.kind == SymmetricPawns {
      var g := plan.Groups()[0];
      assert g in plan.Groups() && Decreasing(Numbers(plan, p.squares), g.lo, g.hi);
      NumbersAt(plan, p.squares, g.lo);
      NumbersAt(plan, p.squares, g.lo + 1);
    }
  }

  lemma NumbersAt(plan: Plan, squares: seq<Square>, i: nat)
    requires OnBoard(squares) && i < |squares|
    ensures Numbers(plan, squares)[i] == plan.SquareIndex(squares[i])
  {
  }

  /** A canonical placement represents itself. */
  lemma CanonicalIsFixed(plan: Plan, p: Placement)
    requires ProperPlan(plan) && IsCanonical(plan, p)
    ensures Canonical(plan, p) == p
  {
    hide PawnsMatch, ValidGroups, Symmetric, Numbers, Normalized, SortGroups;
    RepeatedFacts(plan);
    CanonicalSquares(plan, p);
    var v := Numbers(plan, p.squares);
    forall g | g in Repeated(plan) ensures Descending(v[g.lo..g.hi]) {
      assert g in plan.Groups();
    }
    SortKeepsSorted(Repeated(plan), RepeatedStart(plan), v);
    NumbersAreDistinct(plan, p.squares);
  }

  // ---------------------------------------------------------------------
  // Indices of all placements.

  ghost function Index(plan: Plan, p: Placement): nat
    requires ProperPlan(plan) && IsPlacement(plan, p)
  {
    Encode(plan, Canonical(plan, p))
  }

  /** Decoding the index of a placement gives its representative. */
  lemma DecodeIndex(plan: Plan, p: Placement)
    requires ProperPlan(plan) && IsPlacement(plan, p)
    ensures Index(plan, p) < Range(plan)
    ensures Decode(plan, Index(plan, p)) == Canonical(plan, p)
  {
    hide Encode, Decode, Range, Canonical, IsPlacement, IsCanonical;
    DecodeEncode(plan, Canonical(plan, p));
  }

  /** Encoding the placement of an index gives the index. */
  lemma IndexDecode(plan: Plan, x: nat)
    requires ProperPlan(plan) && x < Range(plan)
    ensures IsCanonical(plan, Decode(plan, x)) && Index(plan, Decode(plan, x)) == x
  {
    hide Encode, Decode, Range, Canonical, IsPlacement;
    EncodeDecode(plan, x);
    CanonicalIsFixed(plan, Decode(plan, x));
  }

  /** Placements share an index exactly when they have the same representative. */
  lemma SameIndex(plan: Plan, p: Placement, q: Placement)
    requires ProperPlan(plan) && IsPlacement(plan, p) && IsPlacement(plan, q)
    ensures Index(plan, p) == Index(plan, q) <==> Canonical(plan, p) == Canonical(plan, q)
  {
    hide Encode, Decode, Range, Canonical, IsPlacement, IsCanonical;
    DecodeIndex(plan, p);
    DecodeIndex(plan, q);
  }

  /** Both reflections of a placement in a symmetric table share an index. */
  lemma ReflectionsShareIndex(plan: Plan, p: Placement)
    requires ProperPlan(plan) && plan.kind == SymmetricPawns && IsPlacement(plan, p)
    ensures GroupsEnd(plan.pawns) <= |p.squares| && IsPlacement(plan, Reflected(plan, p))
    ensures Index(plan, Reflected(plan, p)) == Index(plan, p)
  {
    hide SortPieces, PawnsMatch, ValidGroups, Symmetric, IsReflected, Encode, IsCanonical;
    ReflectedIsPlacement(plan, p);
    KingIndicesFlip(plan, p);
  }

  lemma TurnTwice(p: Placement, t: Turn, r: Turn, q: Turn)
    requires forall i | 0 <= i < |p.squares| :: r.Of(t.Of(p.squares[i])) == q.Of(p.squares[i])
    ensures Turned(r, Turned(t, p)) == Turned(q, p)
  {
  }

  /** All reflections of a pawnless placement share an index, and all eight symmetric
      ones do unless both kings stand on a long diagonal. */
  lemma SymmetriesShareIndex(plan: Plan, p: Placement, t: Turn)
    requires ProperPlan(plan) && plan.kind == Pawnless && IsPlacement(plan, p)
    requires !t.transpose || !OnLongDiagonal(p.squares[0], p.squares[1])
    ensures IsPlacement(plan, Turned(t, p))
    ensures Index(plan, Turned(t, p)) == Index(plan, p)
  {
    hide SortPieces, PawnsMatch, ValidGroups, Encode, IsCanonical, Reducing;
    TurnedIsPlacement(plan, p, t);
    var a, b := p.squares[0], p.squares[1];
    forall i | 0 <= i < |p.squares|
      ensures Reducing(t.Of(a), t.Of(b)).Of(t.Of(p.squares[i])) == Reducing(a, b).Of(p.squares[i])
    {
      OneSymmetryReduces(a, b, t, p.squares[i]);
    }
    TurnTwice(p, t, Reducing(t.Of(a), t.Of(b)), Reducing(a, b));
  }

  // ---------------------------------------------------------------------
  // Equal pieces can be exchanged.

  function Map(f: nat -> nat, s: seq<nat>): (r: seq<nat>)
    ensures |r| == |s|
  {
    seq(|s|, i requires 0 <= i < |s| => f(s[i]))
  }

  lemma WithoutOne(t: seq<nat>, j: nat)
    requires j < |t|
    ensures multiset(t[..j] + t[j + 1..]) == multiset(t) - multiset{t[j]}
  {
    assert t == t[..j] + [t[j]] + t[j + 1..];
  }

  lemma MapWithoutOne(f: nat -> nat, t: seq<nat>, j: nat)
    requires j < |t|
    ensures multiset(Map(f, t)) == multiset{f(t[j])} + multiset(Map(f, t[..j] + t[j + 1..]))
  {
    var u := Map(f, t);
    assert u == u[..j] + [f(t[j])] + u[j + 1..];
    assert Map(f, t[..j] + t[j + 1..]) == u[..j] + u[j + 1..];
  }

  lemma {:induction false} MapKeepsSame(f: nat -> nat, s: seq<nat>, t: seq<nat>)
    requires multiset(s) == multiset(t)
    ensures multiset(Map(f, s)) == multiset(Map(f, t))
  {
    hide Map;
    assert |multiset(s)| == |multiset(t)|;
    if s == [] {
      assert t == [];
    } else {
      var j := SameFirst(s, t);
      MapKeepsSame(f, s[1..], t[..j] + t[j + 1..]);
      MapWithoutOne(f, s, 0);
      MapWithoutOne(f, t, j);
      assert s[..0] + s[0 + 1..] == s[1..];
    }
  }

  lemma FirstIsThere(s: seq<nat>, t: seq<nat>)
    requires s != [] && multiset(s) == multiset(t)
    ensures s[0] in t
  {
    assert s[0] in multiset(s);
  }

  lemma SameFirst(s: seq<nat>, t: seq<nat>) returns (j: nat)
    requires s != [] && multiset(s) == multiset(t)
    ensures j < |t| && t[j] == s[0] && multiset(s[1..]) == multiset(t[..j] + t[j + 1..])
  {
    FirstIsThere(s, t);
    j :| 0 <= j < |t| && t[j] == s[0];
    WithoutFirst(s);
    WithoutOne(t, j);
  }

  lemma WithoutFirst(s: seq<nat>)
    requires s != []
    ensures multiset(s[1..]) == multiset(s) - multiset{s[0]}
  {
    assert s == [s[0]] + s[1..];
  }

  /** The placements differ only in the order of equal pieces. */
  predicate SamePieces(plan: Plan, p: Placement, q: Placement)
    requires ValidPlan(plan) && |p.squares| == plan.Pieces() && OnBoard(p.squares) && OnBoard(q.squares)
  {
    RepeatedFacts(plan);
    p.ep == q.ep && SameGroups(Repeated(plan), RepeatedStart(plan), Numbers(plan, p.squares), Numbers(plan, q.squares))
  }

  lemma SortOfSamePieces(plan: Plan, p: Placement, q: Placement)
    requires ValidPlan(plan) && |p.squares| == plan.Pieces() && OnBoard(p.squares) && OnBoard(q.squares)
    requires SamePieces(plan, p, q)
    ensures |q.squares| == |p.squares| && SortPieces(plan, p) == SortPieces(plan, q)
  {
    RepeatedFacts(plan);
    SortForgetsOrder(Repeated(plan), RepeatedStart(plan), Numbers(plan, p.squares), Numbers(plan, q.squares));
  }

  /** What a symmetry does to the numbers of squares. */
  function TurnedNumber(plan: Plan, t: Turn, n: nat): nat {
    var s := t.Of(plan.SquareAt(n));
    if s.OnBoard() then plan.SquareIndex(s) else 0
  }

  /** Symmetries that agree on the pieces before the repeated ones keep placements
      with the same pieces alike. */
  lemma TurnedSamePieces(plan: Plan, p: Placement, q: Placement, t: Turn, p': Placement, q': Placement)
    requires ValidPlan(plan) && |p.squares| == plan.Pieces() == |p'.squares| == |q'.squares| && p'.ep == q'.ep
    requires OnBoard(p.squares) && OnBoard(q.squares) && OnBoard(p'.squares) && OnBoard(q'.squares)
    requires SamePieces(plan, p, q)
    requires forall i | 0 <= i < |p.squares| && i < RepeatedStart(plan) :: p'.squares[i] == q'.squares[i]
    requires |q.squares| == |p.squares|
    requires forall i | RepeatedStart(plan) <= i < |p.squares| ::
               p'.squares[i] == t.Of(p.squares[i]) && q'.squares[i] == t.Of(q.squares[i])
    ensures SamePieces(plan, p', q')
  {
    hide ValidPlan, Repeated, Consecutive, RepeatedStart;
    RepeatedFacts(plan);
    var f := (n: nat) => TurnedNumber(plan, t, n);
    forall g | g in Repeated(plan)
      ensures multiset(Numbers(plan, p'.squares)[g.lo..g.hi]) == multiset(Numbers(plan, q'.squares)[g.lo..g.hi])
    {
      TurnedSlice(plan, p.squares, t, p'.squares, f, g.lo, g.hi);
      TurnedSlice(plan, q.squares, t, q'.squares, f, g.lo, g.hi);
      MapKeepsSame(f, Numbers(plan, p.squares)[g.lo..g.hi], Numbers(plan, q.squares)[g.lo..g.hi]);
    }
  }

  lemma TurnedSlice(plan: Plan, s: seq<Square>, t: Turn, s': seq<Square>, f: nat -> nat, lo: nat, hi: nat)
    requires lo <= hi <= |s| == |s'| && OnBoard(s) && OnBoard(s')
    requires forall i | lo <= i < hi :: s'[i] == t.Of(s[i])
    requires forall n: nat :: f(n) == TurnedNumber(plan, t, n)
    ensures Numbers(plan, s')[lo..hi] == Map(f, Numbers(plan, s)[lo..hi])
  {
    hide At, Number;
    forall i | lo <= i < hi ensures Numbers(plan, s')[i] == f(Numbers(plan, s)[i]) {
      SquaresAreNumbered(plan, s[i]);
    }
  }

  lemma SameFirstSlots(plan: Plan, p: Placement, q: Placement)
    requires ValidPlan(plan) && |p.squares| == plan.Pieces() && OnBoard(p.squares) && OnBoard(q.squares)
    requires SamePieces(plan, p, q)
    ensures |q.squares| == |p.squares| >= RepeatedStart(plan)
    ensures forall i | 0 <= i < RepeatedStart(plan) :: p.squares[i] == q.squares[i]
  {
    hide ValidPlan, Repeated, Consecutive, At, Number;
    RepeatedFacts(plan);
    forall i | 0 <= i < RepeatedStart(plan) ensures p.squares[i] == q.squares[i] {
      assert Numbers(plan, p.squares)[i] == Numbers(plan, q.squares)[i];
      SquaresAreNumbered(plan, p.squares[i]);
      SquaresAreNumbered(plan, q.squares[i]);
    }
  }

  lemma ReflectedAlike(plan: Plan, p: Placement, q: Placement)
    requires ValidPlan(plan) && Symmetric(plan.pawns)
    requires GroupsEnd(plan.pawns) <= RepeatedStart(plan) <= |p.squares| == |q.squares|
    requires forall i | 0 <= i < RepeatedStart(plan) :: p.squares[i] == q.squares[i]
    requires p.ep == q.ep
    ensures forall i | 0 <= i < RepeatedStart(plan) :: Reflected(plan, p).squares[i] == Reflected(plan, q).squares[i]
    ensures Reflected(plan, p).ep == Reflected(plan, q).ep
  {
    hide Source, ValidPlan, Symmetric;
    forall i | 0 <= i < RepeatedStart(plan) ensures Reflected(plan, p).squares[i] == Reflected(plan, q).squares[i] {
      SourceInRange(plan, i, RepeatedStart(plan));
    }
  }

  lemma ReflectedPieces(plan: Plan, p: Placement)
    requires ValidPlan(plan) && Symmetric(plan.pawns) && GroupsEnd(plan.pawns) <= |p.squares|
    ensures forall i | GroupsEnd(plan.pawns) <= i < |p.squares| ::
              Reflected(plan, p).squares[i] == Turn(MIRROR, false).Of(p.squares[i])
  {
    hide ValidPlan, Symmetric;
  }

  lemma ReflectedSamePieces(plan: Plan, p: Placement, q: Placement)
    requires ProperPlan(plan) && plan.kind == SymmetricPawns && IsPlacement(plan, p) && IsPlacement(plan, q)
    requires SamePieces(plan, p, q)
    ensures GroupsEnd(plan.pawns) <= plan.Pieces()
    ensures IsPlacement(plan, Reflected(plan, p)) && IsPlacement(plan, Reflected(plan, q))
    ensures SamePieces(plan, Reflected(plan, p), Reflected(plan, q))
  {
    hide PawnsMatch, ValidGroups, Symmetric, SamePieces, Reflected, Plan.Groups;
    GroupsFacts(plan);
    RepeatedFacts(plan);
    SameFirstSlots(plan, p, q);
    ReflectedIsPlacement(plan, p);
    ReflectedIsPlacement(plan, q);
    SameEp(plan, p, q);
    ReflectedAlike(plan, p, q);
    ReflectedPieces(plan, p);
    ReflectedPieces(plan, q);
    TurnedSamePieces(plan, p, q, Turn(MIRROR, false), Reflected(plan, p), Reflected(plan, q));
  }

  lemma SameEp(plan: Plan, p: Placement, q: Placement)
    requires ValidPlan(plan) && |p.squares| == plan.Pieces() && OnBoard(p.squares) && OnBoard(q.squares)
    requires SamePieces(plan, p, q)
    ensures p.ep == q.ep
  {
  }

  lemma TurnedPlacementsSamePieces(plan: Plan, p: Placement, q: Placement, t: Turn)
    requires ProperPlan(plan) && plan.kind == Pawnless && IsPlacement(plan, p) && IsPlacement(plan, q)
    requires SamePieces(plan, p, q)
    ensures IsPlacement(plan, Turned(t, p)) && IsPlacement(plan, Turned(t, q))
    ensures SamePieces(plan, Turned(t, p), Turned(t, q))
  {
    hide PawnsMatch, ValidGroups, SamePieces;
    SameFirstSlots(plan, p, q);
    SameEp(plan, p, q);
    TurnedIsPlacement(plan, p, t);
    TurnedIsPlacement(plan, q, t);
    TurnedSamePieces(plan, p, q, t, Turned(t, p), Turned(t, q));
  }

  /** The order in which equal pieces are read off the board does not matter. */
  lemma SamePiecesShareIndex(plan: Plan, p: Placement, q: Placement)
    requires ProperPlan(plan) && IsPlacement(plan, p) && IsPlacement(plan, q) && SamePieces(plan, p, q)
    ensures Index(plan, p) == Index(plan, q)
  {
    hide PawnsMatch, ValidGroups, Symmetric, SamePieces, SortPieces, Encode, IsCanonical;
    SameFirstSlots(plan, p, q);
    NormalizedIsPlacement(plan, p);
    NormalizedIsPlacement(plan, q);
    if plan.kind == Pawnless {
      TurnedPlacementsSamePieces(plan, p, q, Reducing(p.squares[0], p.squares[1]));
    } else if plan.kind == SymmetricPawns && IsReflected(plan, p) {
      ReflectedSamePieces(plan, p, q);
    }
    SortOfSamePieces(plan, Normalized(plan, p), Normalized(plan, q));
  }

  // ---------------------------------------------------------------------
  // The diagonal reflection.

  const DIAGONAL := Turn(Flip(false, false), true)

  /** The index of the diagonal reflection, for the indices with both kings on the
      long diagonal. */
  ghost function DiagonalSymmetric(plan: Plan, x: nat): Option<nat>
    requires ProperPlan(plan) && x < Range(plan)
  {
    IndexDecode(plan, x);
    var p := Decode(plan, x);
    if plan.kind != Pawnless || p.squares[0].rank != p.squares[0].file
      || p.squares[1].rank != p.squares[1].file then None
    else
      TurnedIsPlacement(plan, p, DIAGONAL);
      Some(Index(plan, Turned(DIAGONAL, p)))
  }

  /** Sorting gives the same pieces. */
  lemma SortedSamePieces(plan: Plan, p: Placement)
    requires ValidPlan(plan) && IsPlacement(plan, p)
    ensures |SortPieces(plan, p).squares| == plan.Pieces() && OnBoard(SortPieces(plan, p).squares)
    ensures SamePieces(plan, p, SortPieces(plan, p))
  {
    hide PawnsMatch, ValidGroups, SortGroups, Repeated, Consecutive;
    RepeatedFacts(plan);
    SortedNumbersFacts(plan, p);
    SortGroupsSorts(Repeated(plan), RepeatedStart(plan), Numbers(plan, p.squares));
  }

  /** The kings of an index on the long diagonal, from any placement with it. */
  lemma DiagonalKings(a: Square, b: Square)
    requires a.OnBoard() && b.OnBoard()
    ensures var (a', b') := ReducePair(a, b);
            OnLongDiagonal(a, b) <==> a'.rank == a'.file && b'.rank == b'.file
    ensures OnLongDiagonal(a, b) ==> !Reducing(a, b).transpose
  {
  }

  lemma TransposeAfterReflection(p: Placement, t: Turn, r: Turn)
    requires t.transpose && !r.transpose && OnBoard(p.squares)
    ensures Turned(DIAGONAL, Turned(r, p)) == Turned(Turn(r.flip, true), p)
    ensures Turned(t, p) == Turned(Turn(t.flip.Then(r.flip).Swapped(), false), Turned(Turn(r.flip, true), p))
  {
    TurnTwice(p, r, DIAGONAL, Turn(r.flip, true));
    TurnTwice(p, Turn(r.flip, true), Turn(t.flip.Then(r.flip).Swapped(), false), t);
  }

  /** The kings of the placement an index decodes to. */
  lemma DecodedKings(plan: Plan, p: Placement)
    requires ProperPlan(plan) && plan.kind == Pawnless && IsPlacement(plan, p)
    ensures Index(plan, p) < Range(plan)
    ensures var c := Decode(plan, Index(plan, p));
            && |c.squares| >= 2
            && (c.squares[0], c.squares[1]) == ReducePair(p.squares[0], p.squares[1])
  {
    hide PawnsMatch, ValidGroups, SortPieces, Decode, Index;
    DecodeIndex(plan, p);
    NormalizedIsPlacement(plan, p);
    SortedNumbersFacts(plan, Normalized(plan, p));
    var n, c := Normalized(plan, p), Canonical(plan, p);
    assert n.squares[0] == n.squares[..2][0] == c.squares[..2][0] == c.squares[0];
    assert n.squares[1] == n.squares[..2][1] == c.squares[..2][1] == c.squares[1];
  }

  /** The placements symmetric to one with both kings on a long diagonal have its
      index or the diagonally symmetric one. */
  lemma DiagonalSymmetricIs(plan: Plan, p: Placement, t: Turn)
    requires ProperPlan(plan) && plan.kind == Pawnless && IsPlacement(plan, p) && t.transpose
    ensures Index(plan, p) < Range(plan) && IsPlacement(plan, Turned(t, p))
    ensures DiagonalSymmetric(plan, Index(plan, p)) ==
            if OnLongDiagonal(p.squares[0], p.squares[1]) then Some(Index(plan, Turned(t, p))) else None
  {
    hide PawnsMatch, ValidGroups, SortPieces, Decode, Index, Reducing, SamePieces, Repeated;
    TurnedIsPlacement(plan, p, t);
    DecodedKings(plan, p);
    var a, b := p.squares[0], p.squares[1];
    DiagonalKings(a, b);
    if OnLongDiagonal(a, b) {
      DecodeIndex(plan, p);
      var r, n, c := Reducing(a, b), Normalized(plan, p), Canonical(plan, p);
      NormalizedIsPlacement(plan, p);
      SortedIsCanonical(plan, n);
      SortedSamePieces(plan, n);
      TurnedPlacementsSamePieces(plan, n, c, DIAGONAL);
      SamePiecesShareIndex(plan, Turned(DIAGONAL, n), Turned(DIAGONAL, c));
      TransposeAfterReflection(p, t, r);
      SymmetriesShareIndex(plan, Turned(Turn(r.flip, true), p), Turn(t.flip.Then(r.flip).Swapped(), false));
    }
  }

  /** Diagonal symmetry pairs the indices with both kings on the diagonal. */
  lemma DiagonalSymmetricTwice(plan: Plan, x: nat)
    requires ProperPlan(plan) && x < Range(plan) && DiagonalSymmetric(plan, x).Some?
    ensures DiagonalSymmetric(plan, x).value < Range(plan)
    ensures DiagonalSymmetric(plan, DiagonalSymmetric(plan, x).value) == Some(x)
  {
    hide PawnsMatch, ValidGroups, SortPieces, Decode, Index, Range;
    IndexDecode(plan, x);
    var p := Decode(plan, x);
    TurnedIsPlacement(plan, p, DIAGONAL);
    var q := Turned(DIAGONAL, p);
    DiagonalSymmetricIs(plan, q, DIAGONAL);
    DecodeIndex(plan, q);
    TurnTwice(p, DIAGONAL, DIAGONAL, Turn(Flip(false, false), false));
    IdentityTurn(p);
  }
}

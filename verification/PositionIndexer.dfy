/** The in-place encoding and decoding of positions. */
module PositionIndexer {
  import opened Boards
  import opened Combinadics
  import opened Compaction
  import opened Indexer
  import opened KingPairs
  import opened PawnMaps
  import opened PawnReflections
  import opened Placements
  import opened Sorting
  import opened Wrappers

  method FlipAll(coord: array<Square>, flip: Flip)
    modifies coord
    ensures coord[..] == TurnedSquares(Turn(flip, false), old(coord[..]))
  {
    for i := 0 to coord.Length
      invariant forall j | 0 <= j < i :: coord[j] == Turn(flip, false).Of(old(coord[j]))
      invariant forall j | i <= j < coord.Length :: coord[j] == old(coord[j])
    {
      coord[i] := coord[i].Flipped(flip);
    }
  }

  method TransposeAll(coord: array<Square>)
    modifies coord
    ensures coord[..] == TurnedSquares(DIAGONAL, old(coord[..]))
  {
    for i := 0 to coord.Length
      invariant forall j | 0 <= j < i :: coord[j] == DIAGONAL.Of(old(coord[j]))
      invariant forall j | i <= j < coord.Length :: coord[j] == old(coord[j])
    {
      coord[i] := Square(coord[i].file, coord[i].rank);
    }
  }

  /** Brings the kings of a pawnless placement to their canonical squares. */
  method ReduceSymmetries(coord: array<Square>)
    requires coord.Length >= 2
    modifies coord
    ensures coord[..] == TurnedSquares(Reducing(old(coord[0]), old(coord[1])), old(coord[..]))
  {
    ghost var p := Placement(coord[..], None);
    ghost var turn := Reducing(coord[0], coord[1]);
    ghost var t := Turn(Flip(false, false), false);
    IdentityTurn(p);
    if coord[0].rank > 3 {
      FlipAll(coord, Flip(true, false));
      t := Turn(Flip(true, false), false);
    }
    assert coord[..] == TurnedSquares(t, p.squares);
    if coord[0].file > 3 {
      FlipAll(coord, Flip(false, true));
      TurnTwice(p, t, Turn(Flip(false, true), false), Turn(Flip(t.flip.ranks, true), false));
      t := Turn(Flip(t.flip.ranks, true), false);
    }
    assert coord[..] == TurnedSquares(t, p.squares);
    assert t.flip == turn.flip;
    if coord[0].rank > coord[0].file || (coord[0].rank == coord[0].file && coord[1].rank > coord[1].file) {
      TransposeAll(coord);
      TurnTwice(p, t, DIAGONAL, turn);
    }
  }

  /** The squares seen in a mirror, pawns by the slots of their target files. */
  method ReadReflected(plan: Plan, coord: array<Square>) returns (r: array<Square>)
    requires ValidPlan(plan) && Symmetric(plan.pawns) && GroupsEnd(plan.pawns) <= coord.Length
    ensures fresh(r) && r[..] == Reflected(plan, Placement(coord[..], None)).squares
  {
    r := new Square[coord.Length](i => Square(0, 0));
    for i := 0 to coord.Length
      invariant forall j | 0 <= j < i :: r[j] == Reflected(plan, Placement(coord[..], None)).squares[j]
    {
      SourceInRange(plan, i, coord.Length);
      r[i] := coord[Source(plan, i)].Flipped(MIRROR);
    }
  }

  lemma ReflectedParts(plan: Plan, p: Placement)
    requires ValidPlan(plan) && Symmetric(plan.pawns) && GroupsEnd(plan.pawns) <= |p.squares|
    ensures Reflected(plan, p) == Placement(Reflected(plan, Placement(p.squares, None)).squares, ReflectFile(p.ep))
  {
  }

  /** Sorts the squares of each group by descending number. */
  method SortRepeated(plan: Plan, groups: seq<Group>, coord: array<Square>)
    requires OnBoard(coord[..])
    requires forall g | g in groups :: g.lo <= g.hi <= coord.Length
    modifies coord
    ensures OnBoard(coord[..]) && Numbers(plan, coord[..]) == SortGroups(groups, old(Numbers(plan, coord[..])))
  {
    hide Numbers;
    ghost var v := Numbers(plan, coord[..]);
    for n := 0 to |groups|
      invariant forall g | g in groups[..n] :: g.lo <= g.hi <= |v|
      invariant OnBoard(coord[..]) && Numbers(plan, coord[..]) == SortGroups(groups[..n], v)
    {
      assert groups[..n + 1][..n] == groups[..n];
      SortSpan(plan, groups[n], coord);
    }
    assert groups[..|groups|] == groups;
  }

  method SortSpan(plan: Plan, g: Group, coord: array<Square>)
    requires OnBoard(coord[..]) && g.lo <= g.hi <= coord.Length
    modifies coord
    ensures OnBoard(coord[..])
    ensures var u := old(Numbers(plan, coord[..]));
            Numbers(plan, coord[..]) == u[..g.lo] + SortDown(u[g.lo..g.hi]) + u[g.hi..]
  {
    hide SortDown, Number, At;
    ghost var before := coord[..];
    ghost var u := Numbers(plan, before);
    var slice := coord[g.lo..g.hi];
    var sorted := SquaresOf(plan, SortDown(Numbers(plan, slice)));
    SortedSquares(plan, slice);
    SortDownSorts(Numbers(plan, slice));
    for i := 0 to |sorted|
      invariant forall j | 0 <= j < i :: coord[g.lo + j] == sorted[j]
      invariant forall j | 0 <= j < coord.Length && (j < g.lo || g.lo + i <= j) :: coord[j] == before[j]
    {
      coord[g.lo + i] := sorted[i];
    }
    SpanReplaced(plan, before, sorted, coord[..], g.lo);
    assert u[g.lo..g.hi] == Numbers(plan, slice);
  }

  lemma SpanReplaced(plan: Plan, before: seq<Square>, sorted: seq<Square>, after: seq<Square>, lo: nat)
    requires OnBoard(before) && OnBoard(sorted) && lo + |sorted| <= |before|
    requires after == before[..lo] + sorted + before[lo + |sorted|..]
    ensures OnBoard(after)
    ensures Numbers(plan, after) == Numbers(plan, before)[..lo] + Numbers(plan, sorted)
            + Numbers(plan, before)[lo + |sorted|..]
  {
    hide Number, At;
    forall i | 0 <= i < |after|
      ensures after[i].OnBoard()
      ensures after[i] == if i < lo || lo + |sorted| <= i then before[i] else sorted[i - lo]
    {
    }
  }

  lemma SortedSquares(plan: Plan, slice: seq<Square>)
    requires OnBoard(slice)
    ensures var s := SquaresOf(plan, SortDown(Numbers(plan, slice)));
            OnBoard(s) && Numbers(plan, s) == SortDown(Numbers(plan, slice)) && |s| == |slice|
  {
    hide SortDown, Number, At;
    var v := Numbers(plan, slice);
    SortDownSorts(v);
    NumbersAreDistinct(plan, slice);
    forall i | 0 <= i < |SortDown(v)| ensures SortDown(v)[i] < 64 {
      assert SortDown(v)[i] in multiset(SortDown(v));
      assert SortDown(v)[i] in v;
    }
    SquaresAreDistinct(plan, SortDown(v));
  }

  method CoordToPidx(plan: Plan, coord: array<Square>) returns (pidx: array<nat>)
    requires OnBoard(coord[..])
    ensures fresh(pidx) && pidx[..] == Numbers(plan, coord[..])
  {
    hide Number, At, Plan.SquareIndex;
    ghost var s := coord[..];
    pidx := new nat[coord.Length](_ => 0);
    for i := 0 to coord.Length
      invariant forall j | 0 <= j < i :: s[j].OnBoard() && pidx[j] == plan.SquareIndex(s[j])
    {
      assert coord[i] == s[i];
      pidx[i] := plan.SquareIndex(coord[i]);
    }
    assert pidx[..] == Numbers(plan, s);
  }

  method PawnRanks(coord: array<Square>, n: nat) returns (ranks: seq<nat>)
    requires n <= coord.Length && OnBoard(coord[..])
    ensures ranks == Ranks(coord[..], n)
  {
    ranks := [];
    for i := 0 to n
      invariant ranks == Ranks(coord[..], i)
    {
      assert coord[..][i] == coord[i];
      ranks := ranks + [coord[i].rank];
    }
  }

  // ---------------------------------------------------------------------
  // Slices of equal pawn configuration.

  /** Numbering with a leading number is numbering within its slice. */
  lemma {:induction false} LeadIsSlice(first: nat, groups: seq<Group>, v: seq<nat>)
    requires forall g | g in groups :: g.lo <= g.hi <= |v|
    ensures MixedIndex(first, groups, v) == first * Product(groups) + MixedIndex(0, groups, v)
  {
    hide Scaled, Choose, GroupIndex;
    if groups == [] {
    } else {
      var head, g := groups[..|groups| - 1], groups[|groups| - 1];
      LeadIsSlice(first, head, v);
      ScaledSum(first, Product(head), MixedIndex(0, head, v), g.Combinations(), GroupIndex(v[g.lo..g.hi]));
    }
  }

  lemma ScaledSum(first: nat, p: nat, x: nat, c: nat, r: nat)
    ensures Scaled(first * p + x, c, r) == first * (p * c) + Scaled(x, c, r)
  {
    assert (first * p + x) * c == first * (p * c) + x * c;
  }

  /** An index is its slice and the index within it. */
  lemma SliceOfIndex(groups: seq<Group>, x: nat, start: nat)
    requires Consecutive(groups, start) && Decodable(groups)
    ensures Product(groups) > 0
    ensures Quotient(x, Product(groups)) == MixedDecode(groups, x).0
    ensures MixedDecode(groups, Remainder(x, Product(groups))) == (0, MixedDecode(groups, x).1)
  {
    hide MixedDecode, MixedIndex, Consecutive, Quotient, Remainder, Product, Decodable;
    var before := seq(start, _ => 0);
    MixedIndexDecode(groups, x, start, before);
    var (lead, digits) := MixedDecode(groups, x);
    var v := before + digits;
    LeadIsSlice(lead, groups, v);
    MixedIndexInRange(0, 1, groups, v);
    SplitScaled(lead, Product(groups), MixedIndex(0, groups, v));
    MixedDecodeIndex(0, groups, v, start);
    assert v[start..End(groups, start)] == digits;
  }

  lemma {:induction false} IndexIgnoresStart(first: nat, groups: seq<Group>, start: nat, v: seq<nat>, w: seq<nat>)
    requires Consecutive(groups, start) && |v| == |w| && start <= |v| && v[start..] == w[start..]
    requires forall g | g in groups :: g.lo <= g.hi <= |v|
    ensures MixedIndex(first, groups, v) == MixedIndex(first, groups, w)
    ensures MixedDigits(groups, v) <==> MixedDigits(groups, w)
  {
    ConsecutiveFacts(groups, start);
    forall g | g in groups ensures v[g.lo..g.hi] == w[g.lo..g.hi] {
      assert v[g.lo..g.hi] == v[start..][g.lo - start..g.hi - start];
      assert w[g.lo..g.hi] == w[start..][g.lo - start..g.hi - start];
    }
    if groups != [] {
      IndexIgnoresStart(first, groups[..|groups| - 1], start, v, w);
    }
  }

  // ---------------------------------------------------------------------
  // What the steps of an encoding compute.

  lemma AtLeastOnePiece(plan: Plan)
    requires ValidPlan(plan)
    ensures plan.Pieces() >= 1
  {
    GroupsFacts(plan);
    if plan.kind != Pawnless {
      PlaceRest(plan.sizes, plan.Start());
      assert plan.Groups()[0] in plan.Groups();
    }
  }

  lemma LeadOfSorted(plan: Plan, q: Placement)
    requires ProperPlan(plan) && plan.kind != Pawnless && IsPlacement(plan, q) && KingsReduced(plan, q)
    ensures IsCanonical(plan, SortPieces(plan, q)) && GroupsEnd(plan.pawns) <= |q.squares|
    ensures Lead(plan, SortPieces(plan, q)) == PawnIndex(plan.pawns, (Ranks(q.squares, GroupsEnd(plan.pawns)), q.ep))
  {
    hide SortPieces, ValidGroups, Numbers, SortedNumbers, Repeated, PawnIndex, Compact, IsConfiguration, IsCanonical;
    RepeatedFacts(plan);
    SortedIsCanonical(plan, q);
    SortedNumbersFacts(plan, q);
    SortKeepsEp(plan, q);
    var n, c := GroupsEnd(plan.pawns), SortPieces(plan, q);
    forall i | 0 <= i < n ensures c.squares[i] == q.squares[i] {
      assert c.squares[i] == c.squares[..RepeatedStart(plan)][i] == q.squares[i];
    }
    assert Ranks(c.squares, n) == Ranks(q.squares, n);
  }

  // ---------------------------------------------------------------------
  // The indexer.

  /** Each group chooses among the squares left by the pieces before it. */
  method ComputePieceSquares(sizes: seq<nat>, start: nat) returns (groups: seq<Group>)
    requires End(Place(sizes, start), start) <= 64
    ensures groups == Place(sizes, start)
  {
    hide Place;
    groups := [];
    var available := 64 - start;
    PlaceFacts(sizes, start);
    ConsecutiveFacts(Place(sizes, start), start);
    PlaceFacts([], start);
    assert sizes[..|sizes|] == sizes;
    assert sizes[..0] == [];
    for n := 0 to |sizes|
      invariant groups == Place(sizes[..n], start)
      invariant End(groups, start) <= 64 && available == 64 - End(groups, start)
    {
      PlaceOne(sizes, start, n);
      PlacePrefix(sizes, start, n + 1);
      groups := groups + [Group(64 - available, 64 - available + sizes[n], available)];
      available := available - sizes[n];
    }
  }

  lemma PlaceOne(sizes: seq<nat>, start: nat, n: nat)
    requires n < |sizes|
    ensures var lo := End(Place(sizes[..n], start), start);
            Place(sizes[..n + 1], start) == Place(sizes[..n], start)
              + [Group(lo, lo + sizes[n], if lo <= 64 then 64 - lo else 0)]
  {
    assert sizes[..n + 1][..n] == sizes[..n];
  }

  lemma {:induction false} PlacePrefix(sizes: seq<nat>, start: nat, n: nat)
    requires n <= |sizes|
    ensures End(Place(sizes[..n], start), start) <= End(Place(sizes, start), start)
  {
    if n < |sizes| {
      PlacePrefix(sizes[..|sizes| - 1], start, n);
      assert sizes[..|sizes| - 1][..n] == sizes[..n];
    } else {
      assert sizes[..n] == sizes;
    }
  }

  method CountCombinations(c: array2<nat>, groups: seq<Group>) returns (product: nat)
    requires IsTable(c, 64, 64) && forall g | g in groups :: g.lo <= g.hi <= 64 && g.squares <= 64
    ensures product == Product(groups)
  {
    product := 1;
    for n := 0 to |groups|
      invariant forall g | g in groups[..n] :: g.lo <= g.hi
      invariant product == Product(groups[..n])
    {
      assert groups[..n + 1][..n] == groups[..n];
      product := product * c[groups[n].hi - groups[n].lo, groups[n].squares];
    }
    assert groups[..|groups|] == groups;
  }

  class Tables {
    const plan: Plan
    const groups: seq<Group>
    const combinations: nat
    const binomials: array2<nat>
    const kings: KingsMap
    const pawnMap: PawnMap

    ghost predicate Valid()
      reads kings, kings.toIndex, pawnMap, pawnMap.toIndex, binomials
    {
      && ProperPlan(plan)
      && groups == plan.Groups() && combinations == Combinations(plan)
      && IsTable(binomials, 64, 64)
      && kings.Valid()
      && pawnMap.Valid() && pawnMap.pawns == GroupsEnd(plan.pawns)
      && pawnMap.fromIndex == Enumerate(plan.pawns, 0, [])
    }

    /** Builds the indexing plan and its tables. */
    constructor (plan: Plan)
      requires ProperPlan(plan)
      ensures Valid() && this.plan == plan
    {
      GroupsFacts(plan);
      var c := BuildBinomials(64, 64);
      var kings := new KingsMap();
      var pawnMap := new PawnMap(plan.pawns);
      var placed := ComputePieceSquares(if plan.kind == Pawnless then plan.sizes[1..] else plan.sizes, plan.Start());
      var product := CountCombinations(c, placed);
      this.plan, this.groups, this.combinations := plan, placed, product;
      this.binomials, this.kings, this.pawnMap := c, kings, pawnMap;
    }

    lemma PlanIsProper()
      requires Valid()
      ensures ProperPlan(plan) && ValidPlan(plan)
    {
    }

    lemma GroupsFit()
      requires Valid()
      ensures Consecutive(groups, plan.Start()) && Decodable(groups) && Fits(groups, binomials)
      ensures plan.Start() <= plan.Pieces() == End(groups, plan.Start())
      ensures forall g | g in groups :: plan.Start() <= g.lo <= g.hi <= plan.Pieces()
    {
      GroupsFacts(plan);
      forall g | g in groups ensures IsTable(binomials, g.Size(), g.squares) {
      }
    }

    /** The index of a placement, with its coordinates read into `coord`. */
    method PositionToIndex(coord: array<Square>, ep: Option<nat>) returns (index: nat)
      requires Valid() && IsPlacement(plan, Placement(coord[..], ep))
      modifies coord
      ensures index == Index(plan, Placement(old(coord[..]), ep))
    {
      hide Valid, ProperPlan, Encode, SortPieces, Normalized, IsCanonical, PawnsMatch, Canonical, Reflected;
      PlanIsProper();
      ghost var p := Placement(coord[..], ep);
      RepeatedFacts(plan);
      if plan.kind == SymmetricPawns
         && coord[plan.Start()].FileIndex() < coord[plan.Start() + 1].FileIndex() {
        KingIndicesFlip(plan, p);
        ReflectionsShareIndex(plan, p);
        var reflected := ReadReflected(plan, coord);
        ReflectedParts(plan, p);
        assert Reflected(plan, p) == Placement(reflected[..], ReflectFile(ep));
        index := EncodePosition(reflected, ReflectFile(ep));
      } else {
        index := EncodePosition(coord, ep);
      }
    }

    lemma AtLeastTwo(plan: Plan, p: Placement)
      requires ValidPlan(plan) && IsPlacement(plan, p) && plan.kind == Pawnless
      ensures |p.squares| >= 2
    {
    }

    /** Encodes a placement in the orientation it is read in. */
    method EncodePosition(coord: array<Square>, ep: Option<nat>) returns (index: nat)
      requires Valid() && IsPlacement(plan, Placement(coord[..], ep))
      requires plan.kind == SymmetricPawns ==> (RepeatedFacts(plan); !IsReflected(plan, Placement(coord[..], ep)))
      modifies coord
      ensures index == Index(plan, Placement(old(coord[..]), ep))
    {
      hide SortPieces, Encode, Lead, PawnsMatch, KingsReduced, PawnIndex, IsReflected, ValidPlan;
      ghost var p := Placement(coord[..], ep);
      NormalizedIsPlacement(plan, p);
      var pawnIndex := FindPawns(coord, ep);
      if plan.kind == Pawnless {
        AtLeastTwo(plan, p);
        ReduceSymmetries(coord);
      } else {
        LeadOfSorted(plan, p);
      }
      assert Placement(coord[..], ep) == Normalized(plan, p);
      var within := EncodeReduced(coord, ep);
      index := pawnIndex * combinations + within;
    }

    /** The pawn configuration of a placement, zero without pawns. */
    method FindPawns(coord: array<Square>, ep: Option<nat>) returns (index: nat)
      requires Valid() && IsPlacement(plan, Placement(coord[..], ep))
      ensures plan.kind == Pawnless ==> index == 0
      ensures plan.kind != Pawnless ==>
                GroupsEnd(plan.pawns) <= coord.Length
                && index == PawnIndex(plan.pawns, (Ranks(coord[..], GroupsEnd(plan.pawns)), ep))
    {
      if plan.kind == Pawnless {
        return 0;
      }
      var ranks := PawnRanks(coord, GroupsEnd(plan.pawns));
      ConfigurationIsStorable(plan.pawns, (ranks, ep));
      var found := pawnMap.Index(plan.pawns, (ranks, ep));
      index := found.value;
      PawnIndexIsInverse(plan.pawns, index);
    }

    /** The rest of the encoding, once the kings are reduced. */
    method EncodeReduced(coord: array<Square>, ep: Option<nat>) returns (within: nat)
      requires Valid() && IsPlacement(plan, Placement(coord[..], ep)) && KingsReduced(plan, Placement(coord[..], ep))
      modifies coord
      ensures var q := Placement(old(coord[..]), ep);
              && IsCanonical(plan, SortPieces(plan, q))
              && Encode(plan, SortPieces(plan, q))
                 == within + if plan.kind == Pawnless then 0 else Lead(plan, SortPieces(plan, q)) * combinations
    {
      hide SortPieces, Encode, Lead, Numbers, SortGroups, Compact, PawnsMatch, KingsReduced, IsCanonical, Valid;
      hide ProperPlan, ValidPlan;
      PlanIsProper();
      ghost var q := Placement(coord[..], ep);
      SortedIsCanonical(plan, q);
      SortedNumbersFacts(plan, q);
      ghost var c := SortPieces(plan, q);
      var pidx := SortedPidx(coord, q);
      assert pidx[..pidx.Length] == pidx[..] == Numbers(plan, c.squares);
      CompactPidx(pidx, pidx.Length);
      assert pidx[..pidx.Length] == pidx[..];
      within := NumberOf(pidx, c);
    }

    method SortedPidx(coord: array<Square>, ghost q: Placement) returns (pidx: array<nat>)
      requires Valid() && IsPlacement(plan, q) && q.squares == coord[..]
      modifies coord
      ensures fresh(pidx) && pidx.Length >= 1 && pidx[..] == SortedNumbers(plan, q)
    {
      hide Numbers, SortGroups, PawnsMatch, Repeated;
      RepeatedFacts(plan);
      AtLeastOnePiece(plan);
      SortRepeated(plan, if plan.kind == SymmetricPawns then groups[1..] else groups, coord);
      pidx := CoordToPidx(plan, coord);
    }

    /** Decodes an index into the squares of all pieces and an EP file. */
    method SetupFromIndex(x: nat) returns (coord: array<Square>, ep: Option<nat>)
      requires Valid() && x < Range(plan)
      ensures fresh(coord) && Placement(coord[..], ep) == Decode(plan, x)
    {
      hide Valid, Decode, Range, DecodedCode, DecodedNumbers, DecodedLead, SquaresOf, PawnSquares, Enumerate, Uncompact;
      PlanIsProper();
      DecodedCodeFacts(plan, x);
      AtLeastOnePiece(plan);
      coord := new Square[plan.Pieces()](i => Square(0, 0));
      var pidx;
      if plan.kind == Pawnless {
        pidx := DecodeKings(x);
        ep := None;
      } else {
        pidx, ep := DecodePawns(x, coord);
      }
      UncompactCpidx(pidx);
      PlaceNonpawns(pidx, coord, DecodedNumbers(plan, x));
      assert coord[..] == Decode(plan, x).squares;
    }

    /** The index of the diagonal reflection, if both kings are on the diagonal. */
    method DiagonalSymmetricOf(x: nat) returns (r: Option<nat>)
      requires Valid() && x < Range(plan)
      ensures r == DiagonalSymmetric(plan, x)
    {
      hide Range, Decode, DecodedLead, Encode, SortPieces, PawnsMatch, Sorted, Numbers, Pairs;
      if plan.kind != Pawnless {
        return None;
      }
      var diagonal := OnDiagonalFast(x);
      if !diagonal {
        return None;
      }
      IndexDecode(plan, x);
      var coord, ep := SetupFromIndex(x);
      ghost var p := Decode(plan, x);
      TransposeAll(coord);
      TurnedIsPlacement(plan, p, DIAGONAL);
      ghost var q := Turned(DIAGONAL, p);
      assert Placement(coord[..], ep) == q;
      NormalizedIsFixed(plan, q);
      var index := EncodeReduced(coord, ep);
      r := Some(index);
    }

    /** Whether both kings are on the diagonal, from the leading number alone. */
    method OnDiagonalFast(x: nat) returns (diagonal: bool)
      requires Valid() && plan.kind == Pawnless && x < Range(plan)
      ensures |Decode(plan, x).squares| >= 2
      ensures diagonal <==> Decode(plan, x).squares[0].rank == Decode(plan, x).squares[0].file
                            && Decode(plan, x).squares[1].rank == Decode(plan, x).squares[1].file
    {
      hide Range, Decode, Choose, Pairs, PairsBelow;
      GroupsFit();
      SliceOfIndex(groups, x, 2);
      KingsOfLead(plan, x);
      diagonal := kings.onDiagonal[Quotient(x, combinations)];
    }

    /** The squares after those of the pawns. */
    method PlaceNonpawns(pidx: array<nat>, coord: array<Square>, ghost v: seq<nat>)
      requires pidx[..] == v && coord.Length == pidx.Length >= plan.PawnCount()
      requires coord[..plan.PawnCount()] == SquaresOf(plan, v)[..plan.PawnCount()]
      modifies coord
      ensures coord[..] == SquaresOf(plan, v)
    {
      for i := plan.PawnCount() to coord.Length
        invariant forall j | 0 <= j < i :: coord[j] == SquaresOf(plan, v)[j]
      {
        coord[i] := plan.SquareAt(pidx[i]);
      }
    }

    /** The compacted numbers of a pawnless index. */
    method DecodeKings(x: nat) returns (pidx: array<nat>)
      requires Valid() && plan.kind == Pawnless && x < Range(plan)
      ensures fresh(pidx) && pidx[..] == DecodedCode(plan, x)
    {
      hide MixedDecode, IsTable, Consecutive, Decodable, Range, DecodedCode, DecodedLead, Pairs;
      GroupsFit();
      KingsCode(plan, x);
      pidx := new nat[plan.Pieces()](_ => 0);
      var lead := IndexToCpidx(binomials, groups, pidx, x, 2);
      pidx[0], pidx[1] := kings.fromIndex[lead].0, kings.fromIndex[lead].1;
      assert pidx[..] == pidx[..2] + pidx[2..];
    }

    /** The slice of a pawnful index, and the numbers within the slice. */
    method DecodeSlice(x: nat) returns (pidx: array<nat>, lead: nat)
      requires Valid() && plan.kind != Pawnless && x < Range(plan)
      ensures fresh(pidx) && lead == DecodedLead(plan, x)
      ensures Decodable(plan.Groups()) && plan.Start() <= pidx.Length == plan.Pieces()
      ensures pidx[plan.Start()..] == MixedDecode(plan.Groups(), x).1
    {
      hide MixedDecode, IsTable, Consecutive, Decodable, Fits, ProperPlan, Enumerate, Quotient, Remainder, Choose;
      GroupsFit();
      pidx := new nat[plan.Pieces()](_ => 0);
      SliceOfIndex(groups, x, plan.Start());
      var zero := IndexToCpidx(binomials, groups, pidx, Remainder(x, combinations), plan.Start());
      lead := Quotient(x, combinations);
    }

    /** The compacted numbers of a pawnful index; places the pawns. */
    method DecodePawns(x: nat, coord: array<Square>) returns (pidx: array<nat>, ep: Option<nat>)
      requires Valid() && plan.kind != Pawnless && x < Range(plan) && coord.Length == plan.Pieces()
      modifies coord
      ensures fresh(pidx) && pidx[..] == DecodedCode(plan, x)
      ensures plan.Start() <= coord.Length
      ensures var c := Enumerate(plan.pawns, 0, [])[DecodedLead(plan, x)];
              ep == c.1 && coord[..plan.Start()] == PawnSquares(plan.pawns, c.0)
    {
      hide MixedDecode, PawnSquares, Enumerate, Compact, Range, Numbers, IsConfiguration, Choose, Consecutive;
      hide Decodable;
      var lead;
      pidx, lead := DecodeSlice(x);
      var c := pawnMap.fromIndex[lead];
      PawnPrefix(plan, lead);
      PlacePawns(c.0, coord, pidx);
      CompactPidx(pidx, plan.Start());
      ep := c.1;
      assert pidx[..] == pidx[..plan.Start()] + pidx[plan.Start()..];
    }

    method PlacePawns(ranks: seq<nat>, coord: array<Square>, pidx: array<nat>)
      requires ValidGroups(plan.pawns) && |ranks| == GroupsEnd(plan.pawns) <= coord.Length == pidx.Length
      requires OnBoard(PawnSquares(plan.pawns, ranks))
      modifies coord, pidx
      ensures coord[..|ranks|] == PawnSquares(plan.pawns, ranks)
      ensures pidx[..|ranks|] == Numbers(plan, PawnSquares(plan.pawns, ranks))
              && pidx[|ranks|..] == old(pidx[|ranks|..])
    {
      ghost var squares := PawnSquares(plan.pawns, ranks);
      var i := 0;
      assert plan.pawns[..|plan.pawns|] == plan.pawns;
      for g := 0 to |plan.pawns|
        invariant i == GroupsEnd(plan.pawns[..g]) <= |ranks|
        invariant forall j | 0 <= j < i :: coord[j] == squares[j] && pidx[j] == plan.SquareIndex(squares[j])
        invariant forall j | |ranks| <= j < pidx.Length :: pidx[j] == old(pidx[j])
      {
        SpanFacts(plan.pawns, g);
        while i < plan.pawns[g].hi
          invariant plan.pawns[g].lo <= i <= plan.pawns[g].hi <= |ranks|
          invariant forall j | 0 <= j < i :: coord[j] == squares[j] && pidx[j] == plan.SquareIndex(squares[j])
          invariant forall j | |ranks| <= j < pidx.Length :: pidx[j] == old(pidx[j])
        {
          SlotGroupIs(plan.pawns, g, i);
          FileIsFileOfGroup(plan.pawns, i);
          coord[i] := Square(ranks[i], plan.pawns[g].file);
          assert coord[i] == squares[i];
          pidx[i] := plan.SquareIndex(coord[i]);
          i := i + 1;
        }
      }
    }

    method NumberOf(pidx: array<nat>, ghost c: Placement) returns (within: nat)
      requires Valid() && IsCanonical(plan, c)
      requires pidx[..] == Compact(Numbers(plan, c.squares))
      modifies pidx
      ensures Encode(plan, c) == within + if plan.kind == Pawnless then 0 else Lead(plan, c) * combinations
    {
      GroupsFit();
      CompactedDigits(plan, c);
      if plan.kind == Pawnless {
        ghost var v := pidx[..];
        KingsOfPlacement(plan, c);
        var pair := kings.MapKings(pidx[0], pidx[1]);
        pidx[0], pidx[1] := pair.value, 0;
        IndexIgnoresStart(pidx[0], groups, 2, v, pidx[..]);
        within := CpidxToIndex(binomials, groups, pidx, pidx[0]);
      } else {
        within := CpidxToIndex(binomials, groups, pidx, 0);
        LeadIsSlice(Lead(plan, c), groups, pidx[..]);
      }
    }
  }

  /** The compacted numbers of an index. */
  function DecodedCode(plan: Plan, x: nat): seq<nat>
    requires ValidPlan(plan) && x < Range(plan)
  {
    GroupsFacts(plan);
    LeftoverInRange(plan.Groups(), x, LeadRange(plan));
    var (lead, digits) := MixedDecode(plan.Groups(), x);
    Prefix(plan, lead) + digits
  }

  function DecodedLead(plan: Plan, x: nat): (lead: nat)
    requires ValidPlan(plan) && x < Range(plan)
    ensures lead < LeadRange(plan)
  {
    GroupsFacts(plan);
    LeftoverInRange(plan.Groups(), x, LeadRange(plan));
    MixedDecode(plan.Groups(), x).0
  }

  /** The code of a pawnless index starts with a pair of the table of kings. */
  lemma KingsCode(plan: Plan, x: nat)
    requires ValidPlan(plan) && x < Range(plan) && plan.kind == Pawnless
    ensures Decodable(plan.Groups())
    ensures var (lead, digits) := MixedDecode(plan.Groups(), x);
            lead < |Pairs()| && DecodedCode(plan, x) == [Pairs()[lead].0, Pairs()[lead].1] + digits
  {
    GroupsFacts(plan);
    LeftoverInRange(plan.Groups(), x, LeadRange(plan));
  }

  lemma DecodedCodeFacts(plan: Plan, x: nat)
    requires ValidPlan(plan) && x < Range(plan)
    ensures |DecodedCode(plan, x)| == plan.Pieces() >= plan.Start()
    ensures Uncompact(DecodedCode(plan, x)) == DecodedNumbers(plan, x)
    ensures Decode(plan, x).squares == SquaresOf(plan, DecodedNumbers(plan, x))
    ensures Decode(plan, x).ep == if plan.kind == Pawnless then None
            else Enumerate(plan.pawns, 0, [])[DecodedLead(plan, x)].1
    ensures plan.kind != Pawnless ==>
              var c := Enumerate(plan.pawns, 0, [])[DecodedLead(plan, x)];
              plan.Start() == |c.0| && PawnSquares(plan.pawns, c.0) == Decode(plan, x).squares[..plan.Start()]
  {
    hide Compact, Uncompact, Prefix, MixedIndex, MixedDecode, Consecutive, MixedDigits, Pairs, Enumerate, Range;
    hide Decodable;
    DecodedNumbersFacts(plan, x);
    if plan.kind != Pawnless {
      PawnsOfPrefix(plan, DecodedLead(plan, x), DecodedNumbers(plan, x));
    }
  }

  /** The kings of an index are those of its leading pair. */
  lemma KingsOfLead(plan: Plan, x: nat)
    requires ProperPlan(plan) && plan.kind == Pawnless && x < Range(plan)
    ensures var pair := Pairs()[DecodedLead(plan, x)];
            var s := Decode(plan, x).squares;
            |s| >= 2 && s[0] == At(pair.0) && s[1] == At(Raised(pair.0, pair.1))
  {
    hide Compact, Uncompact, MixedIndex, MixedDecode, Consecutive, MixedDigits, Pairs, Range, Decodable;
    DecodedNumbersFacts(plan, x);
    var v := DecodedNumbers(plan, x);
    KingsOfPrefix(plan, DecodedLead(plan, x), v);
    var prefix := Prefix(plan, DecodedLead(plan, x));
    assert Compact(v)[0] == prefix[0] && Compact(v)[1] == prefix[1];
    CompactKeepsFirst(v);
  }

  lemma CompactKeepsFirst(v: seq<nat>)
    requires v != []
    ensures Compact(v)[0] == v[0]
  {
  }

  /** Reduced kings stay where they are. */
  lemma NormalizedIsFixed(plan: Plan, p: Placement)
    requires ProperPlan(plan) && plan.kind == Pawnless && IsPlacement(plan, p) && KingsReduced(plan, p)
    ensures Normalized(plan, p) == p
  {
    ReducedPairs(p.squares[0], p.squares[1]);
    IdentityTurn(p);
  }

  lemma CompactedDigits(plan: Plan, c: Placement)
    requires ProperPlan(plan) && IsCanonical(plan, c)
    ensures var v := Compact(Numbers(plan, c.squares));
            && |v| == plan.Pieces() && (forall g | g in plan.Groups() :: g.lo <= g.hi <= |v|)
            && MixedDigits(plan.Groups(), v)
  {
    GroupsFacts(plan);
    NumbersAreDistinct(plan, c.squares);
    CompactGivesDigits(plan, Numbers(plan, c.squares));
  }
}

/** The numbering of canonical placements of pieces. */
module Indexer {
  import opened Boards
  import opened Combinadics
  import opened Compaction
  import opened KingPairs
  import opened PawnMaps
  import opened Sorting
  import opened Wrappers

  /** The groups of a table: pawns by file, then kings (one group of two unless
      `OtherPawns`, where each is its own group), then repeated pieces. */
  datatype Plan = Plan(kind: TableKind, pawns: seq<PawnGroup>, sizes: seq<nat>) {
    /** The first slot whose number enters a combination. */
    function Start(): nat {
      if kind == Pawnless then 2 else GroupsEnd(pawns)
    }

    function PawnCount(): nat { GroupsEnd(pawns) }

    function Groups(): seq<Group>
      requires kind == Pawnless ==> sizes != []
    {
      Place(if kind == Pawnless then sizes[1..] else sizes, Start())
    }

    function Pieces(): nat
      requires kind == Pawnless ==> sizes != []
    {
      End(Groups(), Start())
    }

    function SquareIndex(s: Square): nat
      requires s.OnBoard()
    {
      if kind == SymmetricPawns then s.FileIndex() else Number(s)
    }

    function SquareAt(i: nat): Square {
      if kind == SymmetricPawns then Square(if i / 8 < 4 then i % 8 else 7 - i % 8, i / 8) else At(i)
    }
  }

  /** Groups of the given sizes, each on the squares left by those before. */
  function Place(sizes: seq<nat>, start: nat): seq<Group> {
    if sizes == [] then []
    else
      var n := |sizes| - 1;
      var lo := End(Place(sizes[..n], start), start);
      Place(sizes[..n], start) + [Group(lo, lo + sizes[n], if lo <= 64 then 64 - lo else 0)]
  }

  predicate ValidPlan(plan: Plan) {
    && ValidGroups(plan.pawns)
    && (plan.kind == Pawnless <==> plan.pawns == [])
    && plan.sizes != []
    && (plan.kind != OtherPawns ==> plan.sizes[0] == 2)
    && (plan.kind == OtherPawns ==> |plan.sizes| >= 2 && plan.sizes[0] == plan.sizes[1] == 1)
    && plan.Pieces() <= 64
  }

  lemma {:induction false} PlaceFacts(sizes: seq<nat>, start: nat)
    ensures Consecutive(Place(sizes, start), start)
    ensures |Place(sizes, start)| == |sizes|
    ensures forall g | g in Place(sizes, start) ::
              start <= g.lo <= g.hi <= End(Place(sizes, start), start) && (g.lo <= 64 ==> g.squares == 64 - g.lo)
  {
    if sizes != [] {
      var n := |sizes| - 1;
      PlaceFacts(sizes[..n], start);
      var head := Place(sizes[..n], start);
      assert Place(sizes, start)[..n] == head;
      ConsecutiveFacts(head, start);
      ConsecutiveFacts(Place(sizes, start), start);
    }
  }

  lemma {:induction false} ChooseIsPositive(k: nat, n: nat)
    requires k <= n
    ensures Choose(k, n) > 0
  {
    if k > 0 {
      ChooseIsPositive(k - 1, n - 1);
    }
  }

  lemma GroupsFacts(plan: Plan)
    requires ValidPlan(plan)
    ensures Consecutive(plan.Groups(), plan.Start()) && Decodable(plan.Groups())
    ensures plan.Start() <= plan.Pieces() == End(plan.Groups(), plan.Start())
    ensures forall g | g in plan.Groups() :: plan.Start() <= g.lo <= g.hi <= plan.Pieces() && g.squares == 64 - g.lo
  {
    var groups := plan.Groups();
    PlaceFacts(if plan.kind == Pawnless then plan.sizes[1..] else plan.sizes, plan.Start());
    ConsecutiveFacts(groups, plan.Start());
    forall g | g in groups ensures g.lo <= g.hi && g.Combinations() > 0 {
      ChooseIsPositive(g.Size(), g.squares);
    }
  }

  lemma SquaresAreNumbered(plan: Plan, s: Square)
    requires s.OnBoard()
    ensures plan.SquareIndex(s) < 64 && plan.SquareAt(plan.SquareIndex(s)) == s
  {
  }

  lemma NumbersAreSquares(plan: Plan, i: nat)
    requires i < 64
    ensures plan.SquareAt(i).OnBoard() && plan.SquareIndex(plan.SquareAt(i)) == i
  {
  }

  // ---------------------------------------------------------------------
  // Placements.

  /** The squares of all pieces by slot, colours normalized to the side to move, and
      the file of a legal EP capture. */
  datatype Placement = Placement(squares: seq<Square>, ep: Option<nat>)

  predicate OnBoard(squares: seq<Square>) {
    forall i | 0 <= i < |squares| :: squares[i].OnBoard()
  }

  predicate Apart(squares: seq<Square>) {
    forall i, j | 0 <= i < j < |squares| :: squares[i] != squares[j]
  }

  function Numbers(plan: Plan, squares: seq<Square>): (v: seq<nat>)
    requires OnBoard(squares)
    ensures |v| == |squares|
  {
    seq(|squares|, i requires 0 <= i < |squares| => plan.SquareIndex(squares[i]))
  }

  function SquaresOf(plan: Plan, v: seq<nat>): (s: seq<Square>)
    ensures |s| == |v|
  {
    seq(|v|, i requires 0 <= i < |v| => plan.SquareAt(v[i]))
  }

  /** Ranks of the pawns, those of slots below `n`. */
  function Ranks(squares: seq<Square>, n: nat): (r: seq<nat>)
    requires OnBoard(squares) && n <= |squares|
    ensures |r| == n
  {
    seq(n, i requires 0 <= i < n => squares[i].rank as nat)
  }

  /** The squares of pawns with the given ranks. */
  function PawnSquares(pawns: seq<PawnGroup>, ranks: seq<nat>): (s: seq<Square>)
    ensures |s| == |ranks|
  {
    seq(|ranks|, i requires 0 <= i < |ranks| => Square(ranks[i], FileOf(pawns, i)))
  }

  /** The file of the pawn in slot `i`. */
  function FileOf(pawns: seq<PawnGroup>, i: nat): nat {
    if pawns == [] then 0
    else if pawns[|pawns| - 1].lo <= i then pawns[|pawns| - 1].file
    else FileOf(pawns[..|pawns| - 1], i)
  }

  /** Pawns stand on their files in a configuration of the table. */
  ghost predicate PawnsMatch(plan: Plan, p: Placement)
    requires ValidGroups(plan.pawns)
  {
    var n := GroupsEnd(plan.pawns);
    && OnBoard(p.squares) && n <= |p.squares|
    && PawnSquares(plan.pawns, Ranks(p.squares, n)) == p.squares[..n]
    && (plan.kind == Pawnless ==> p.ep == None)
    && (plan.kind != Pawnless ==> IsConfiguration(plan.pawns, (Ranks(p.squares, n), p.ep)))
  }

  /** A placement with the material of the plan; adjacent kings only among pawns. */
  ghost predicate IsPlacement(plan: Plan, p: Placement)
    requires ValidPlan(plan)
  {
    && |p.squares| == plan.Pieces() && OnBoard(p.squares) && Apart(p.squares)
    && (plan.kind == Pawnless ==> plan.Pieces() >= 2 && !AdjacentOrSame(p.squares[0], p.squares[1]))
    && PawnsMatch(plan, p)
  }

  predicate Sorted(groups: seq<Group>, v: seq<nat>) {
    forall g | g in groups :: g.lo <= g.hi <= |v| && Decreasing(v, g.lo, g.hi)
  }

  /** The representative of a placement: kings reduced, equal pieces from the highest
      square down. */
  ghost predicate IsCanonical(plan: Plan, p: Placement)
    requires ValidPlan(plan)
  {
    && IsPlacement(plan, p)
    && (plan.kind == Pawnless ==> IsReduced(p.squares[0], p.squares[1]))
    && Sorted(plan.Groups(), Numbers(plan, p.squares))
  }

  lemma NumbersAreDistinct(plan: Plan, squares: seq<Square>)
    requires OnBoard(squares)
    ensures SquaresOf(plan, Numbers(plan, squares)) == squares
    ensures Below(Numbers(plan, squares), 64)
    ensures Apart(squares) <==> Compaction.Distinct(Numbers(plan, squares))
  {
    hide Number, At;
    var v := Numbers(plan, squares);
    forall i | 0 <= i < |squares| ensures v[i] < 64 && plan.SquareAt(v[i]) == squares[i] {
      SquaresAreNumbered(plan, squares[i]);
    }
  }

  lemma SquaresAreDistinct(plan: Plan, v: seq<nat>)
    requires Below(v, 64)
    ensures OnBoard(SquaresOf(plan, v)) && Numbers(plan, SquaresOf(plan, v)) == v
  {
    forall i | 0 <= i < |v| ensures plan.SquareAt(v[i]).OnBoard() && plan.SquareIndex(plan.SquareAt(v[i])) == v[i] {
      NumbersAreSquares(plan, v[i]);
    }
  }

  // ---------------------------------------------------------------------
  // The index of a canonical placement.

  /** How many values the leading number of an index has. */
  function LeadRange(plan: Plan): nat
    requires ValidPlan(plan)
  {
    if plan.kind == Pawnless then |Pairs()| else |Enumerate(plan.pawns, 0, [])|
  }

  function Range(plan: Plan): nat
    requires ValidPlan(plan)
  {
    ProductIsNatural(LeadRange(plan), Combinations(plan));
    LeadRange(plan) * Combinations(plan)
  }

  lemma ProductIsNatural(a: nat, b: nat)
    ensures a * b >= 0
  {
  }

  /** The combinations of the groups after the leading number. */
  function Combinations(plan: Plan): nat
    requires ValidPlan(plan)
  {
    GroupsFacts(plan);
    Product(plan.Groups())
  }

  /** The position of a configuration in the pawn map. */
  ghost function PawnIndex(pawns: seq<PawnGroup>, c: Configuration): (i: nat)
    requires ValidGroups(pawns) && IsConfiguration(pawns, c)
    ensures i < |Enumerate(pawns, 0, [])| && Enumerate(pawns, 0, [])[i] == c
  {
    var s := Enumerate(pawns, 0, []);
    EnumerationIsStorable(pawns, 0, []);
    ConfigurationIsStorable(pawns, c);
    EnumerationHasNoDuplicates(pawns, 0, []);
    EnumerationIsExact(pawns, 0, [], c);
    LastIsOnly(GroupsEnd(pawns), s, c);
    LastAt(GroupsEnd(pawns), s, PawnMaps.Key(c)).value
  }

  /** A position in the map belongs to the configuration stored there only. */
  lemma PawnIndexIsInverse(pawns: seq<PawnGroup>, i: nat)
    requires ValidGroups(pawns) && i < |Enumerate(pawns, 0, [])|
    ensures IsConfiguration(pawns, Enumerate(pawns, 0, [])[i])
    ensures PawnIndex(pawns, Enumerate(pawns, 0, [])[i]) == i
  {
    var s := Enumerate(pawns, 0, []);
    EnumerationIsExact(pawns, 0, [], s[i]);
    EnumerationHasNoDuplicates(pawns, 0, []);
    var j := PawnIndex(pawns, s[i]);
    assert s[j] == s[i];
  }

  lemma KingsOfPlacement(plan: Plan, p: Placement)
    requires ValidPlan(plan) && plan.kind == Pawnless && IsCanonical(plan, p)
    ensures var v := Numbers(plan, p.squares);
            |v| >= 2 && Compact(v)[0] == v[0] && IsPairCode(v[0], Compact(v)[1]) && Compact(v)[1] == Second(v[0], v[1])
  {
    hide Compact, PawnsMatch, Sorted, ValidGroups;
    var v := Numbers(plan, p.squares);
    NumbersAreDistinct(plan, p.squares);
    assert At(v[0]) == p.squares[0] && At(v[1]) == p.squares[1];
    FirstTwo(v);
  }

  lemma FirstTwo(v: seq<nat>)
    requires |v| >= 2
    ensures Compact(v)[0] == v[0] && Compact(v)[1] == Lower(v[0], v[1])
  {
    assert Compact(v)[1] == LowerAll(v[0], v[1..])[0];
  }

  /** The leading number: the pair of kings, or the pawn configuration. */
  ghost function Lead(plan: Plan, p: Placement): (i: nat)
    requires ValidPlan(plan) && IsCanonical(plan, p)
    ensures i < LeadRange(plan)
  {
    if plan.kind == Pawnless then
      KingsOfPlacement(plan, p);
      var c := Compact(Numbers(plan, p.squares));
      KingIndex(c[0], c[1])
    else
      PawnIndex(plan.pawns, (Ranks(p.squares, GroupsEnd(plan.pawns)), p.ep))
  }

  ghost function Encode(plan: Plan, p: Placement): nat
    requires ValidPlan(plan) && IsCanonical(plan, p)
  {
    GroupsFacts(plan);
    MixedIndex(Lead(plan, p), plan.Groups(), Compact(Numbers(plan, p.squares)))
  }

  /** The compacted numbers of the pieces before the first group. */
  function Prefix(plan: Plan, lead: nat): (v: seq<nat>)
    requires ValidPlan(plan) && lead < LeadRange(plan)
  {
    if plan.kind == Pawnless then
      [Pairs()[lead].0, Pairs()[lead].1]
    else
      var pawns := PawnSquares(plan.pawns, Enumerate(plan.pawns, 0, [])[lead].0);
      if OnBoard(pawns) then Compact(Numbers(plan, pawns)) else []
  }

  function Decode(plan: Plan, x: nat): Placement
    requires ValidPlan(plan) && x < Range(plan)
  {
    GroupsFacts(plan);
    LeftoverInRange(plan.Groups(), x, LeadRange(plan));
    var (lead, digits) := MixedDecode(plan.Groups(), x);
    Placement(SquaresOf(plan, Uncompact(Prefix(plan, lead) + digits)),
              if plan.kind == Pawnless then None else Enumerate(plan.pawns, 0, [])[lead].1)
  }

  // ---------------------------------------------------------------------
  // Encoding and decoding are inverse.

  /** Compacting sorted groups gives digits. */
  lemma CompactGivesDigits(plan: Plan, v: seq<nat>)
    requires ValidPlan(plan) && |v| == plan.Pieces()
    requires Compaction.Distinct(v) && Below(v, 64) && Sorted(plan.Groups(), v)
    ensures MixedDigits(plan.Groups(), Compact(v))
  {
    GroupsFacts(plan);
    CompactIsInRange(v, 64);
    var c := Compact(v);
    forall g | g in plan.Groups() ensures GroupDigits(c[g.lo..g.hi], g.squares) {
      CompactKeepsOrder(v, g.lo, g.hi);
      OrderedSlice(c, g.lo, g.hi, 64);
    }
  }

  lemma OrderedSlice(c: seq<nat>, lo: nat, hi: nat, n: nat)
    requires lo <= hi <= |c| && lo <= n && Compacted(c, n) && Decreasing(c, lo, hi)
    ensures GroupDigits(c[lo..hi], n - lo)
  {
  }

  /** Decreasing digits leave room for the pieces before them. */
  lemma {:induction false} DigitsAreCompacted(c: seq<nat>, lo: nat, hi: nat, n: nat, i: nat)
    requires lo <= i < hi <= |c| && lo <= n && GroupDigits(c[lo..hi], n - lo)
    ensures Decreasing(c, lo, hi) && c[i] < n - i
  {
    forall a, b | lo <= a < b < hi ensures c[a] > c[b] {
      assert c[lo..hi][a - lo] > c[lo..hi][b - lo];
    }
    assert c[lo..hi][i - lo] == c[i];
    if lo < i {
      DigitsAreCompacted(c, lo, hi, n, i - 1);
    }
  }

  /** Uncompacting digits gives sorted groups of distinct squares. */
  lemma DigitsGiveSorted(plan: Plan, c: seq<nat>)
    requires ValidPlan(plan) && |c| == plan.Pieces()
    requires plan.Start() <= |c| && Compacted(c[..plan.Start()], 64)
    requires (GroupsFacts(plan); MixedDigits(plan.Groups(), c))
    ensures Compacted(c, 64)
    ensures Compaction.Distinct(Uncompact(c)) && Below(Uncompact(c), 64) && Compact(Uncompact(c)) == c
    ensures Sorted(plan.Groups(), Uncompact(c))
  {
    GroupsFacts(plan);
    forall i | 0 <= i < |c| ensures c[i] < 64 - i {
      if i < plan.Start() {
        assert c[i] == c[..plan.Start()][i];
      } else {
        var g := GroupAt(plan.Groups(), plan.Start(), i);
        DigitsAreCompacted(c, g.lo, g.hi, 64, i);
      }
    }
    CompactUncompact(c, 64);
    forall g | g in plan.Groups() ensures Decreasing(Uncompact(c), g.lo, g.hi) {
      if g.lo < g.hi {
        DigitsAreCompacted(c, g.lo, g.hi, 64, g.lo);
      }
      CompactKeepsOrder(Uncompact(c), g.lo, g.hi);
    }
  }

  lemma PrefixOfPlacement(plan: Plan, p: Placement)
    requires ValidPlan(plan) && IsCanonical(plan, p)
    ensures plan.Start() <= plan.Pieces()
    ensures Prefix(plan, Lead(plan, p)) == Compact(Numbers(plan, p.squares))[..plan.Start()]
  {
    hide Enumerate, Pairs, Compact, ValidPlan;
    GroupsFacts(plan);
    var v := Numbers(plan, p.squares);
    if plan.kind == Pawnless {
      KingsOfPlacement(plan, p);
    } else {
      var n := GroupsEnd(plan.pawns);
      CompactPrefix(v, n);
      assert v[..n] == Numbers(plan, p.squares[..n]);
    }
  }

  /** Decoding the index of a canonical placement gives the placement. */
  lemma DecodeEncode(plan: Plan, p: Placement)
    requires ValidPlan(plan) && IsCanonical(plan, p)
    ensures Encode(plan, p) < Range(plan)
    ensures Decode(plan, Encode(plan, p)) == p
  {
    hide Compact, Uncompact, Prefix, MixedIndex, MixedDecode, Consecutive, Decodable, MixedDigits, Sorted;
    hide Product, Numbers, SquaresOf, Pairs, Enumerate, Below, Compaction.Distinct, GroupDigits;
    GroupsFacts(plan);
    var v := Numbers(plan, p.squares);
    NumbersAreDistinct(plan, p.squares);
    CompactGivesDigits(plan, v);
    MixedIndexInRange(Lead(plan, p), LeadRange(plan), plan.Groups(), Compact(v));
    MixedDecodeIndex(Lead(plan, p), plan.Groups(), Compact(v), plan.Start());
    PrefixOfPlacement(plan, p);
    assert Compact(v) == Compact(v)[..plan.Start()] + Compact(v)[plan.Start()..plan.Pieces()];
    UncompactCompact(v);
  }

  /** The pawn prefix of an index, and the squares it stands for. */
  lemma PawnPrefix(plan: Plan, lead: nat)
    requires ValidPlan(plan) && plan.kind != Pawnless && lead < LeadRange(plan)
    ensures var c := Enumerate(plan.pawns, 0, [])[lead];
            var squares := PawnSquares(plan.pawns, c.0);
            && IsConfiguration(plan.pawns, c) && |squares| == plan.Start() == GroupsEnd(plan.pawns)
            && OnBoard(squares) && Apart(squares) && Ranks(squares, plan.Start()) == c.0
            && Prefix(plan, lead) == Compact(Numbers(plan, squares))
  {
    var c := Enumerate(plan.pawns, 0, [])[lead];
    EnumerationIsExact(plan.pawns, 0, [], c);
    ConfigurationIsStorable(plan.pawns, c);
    PawnsAreApart(plan.pawns, c.0);
  }

  /** Slots belong to the group around them. */
  lemma {:induction false} FileOfSlot(pawns: seq<PawnGroup>, ranks: seq<nat>, i: nat) returns (g: nat)
    requires ValidGroups(pawns) && Chosen(pawns, |pawns|, ranks) && i < |ranks|
    ensures g < |pawns| && FileOf(pawns, i) == pawns[g].file < 8 && pawns[g].lo <= i < pawns[g].hi <= |ranks|
  {
    var n := |pawns| - 1;
    if pawns[n].lo <= i {
      g := n;
    } else {
      var lo := pawns[n].lo;
      ChosenOfPrefix(pawns, n, ranks[..lo]);
      g := FileOfSlot(pawns[..n], ranks[..lo], i);
    }
  }

  /** A choice for the first groups does not depend on the later ones. */
  lemma {:induction false} ChosenOfPrefix(pawns: seq<PawnGroup>, g: nat, ranks: seq<nat>)
    requires ValidGroups(pawns) && g <= |pawns| && Chosen(pawns, g, ranks)
    ensures ValidGroups(pawns[..g]) && Chosen(pawns[..g], g, ranks)
  {
    ValidPrefix(pawns, g);
    if g > 0 {
      ChosenOfPrefix(pawns, g - 1, ranks[..pawns[g - 1].lo]);
      ChosenMore(pawns, g, g - 1, ranks[..pawns[g - 1].lo]);
    }
  }

  lemma {:induction false} ChosenMore(pawns: seq<PawnGroup>, n: nat, g: nat, ranks: seq<nat>)
    requires ValidGroups(pawns) && g <= n <= |pawns| && ValidGroups(pawns[..n]) && Chosen(pawns, g, ranks)
    ensures Chosen(pawns[..n], g, ranks)
  {
    if g > 0 {
      ChosenMore(pawns, n, g - 1, ranks[..pawns[g - 1].lo]);
    }
  }

  lemma {:induction false} PawnsAreApart(pawns: seq<PawnGroup>, ranks: seq<nat>)
    requires ValidGroups(pawns) && Chosen(pawns, |pawns|, ranks)
    ensures OnBoard(PawnSquares(pawns, ranks)) && Apart(PawnSquares(pawns, ranks))
  {
    var s := PawnSquares(pawns, ranks);
    ChosenInRange(pawns, |pawns|, ranks);
    forall i | 0 <= i < |s| ensures s[i].OnBoard() {
      var g := FileOfSlot(pawns, ranks, i);
    }
    forall i, j | 0 <= i < j < |s| ensures s[i] != s[j] {
      var g := FileOfSlot(pawns, ranks, i);
      var h := FileOfSlot(pawns, ranks, j);
      if g == h {
        ChosenPart(pawns, |pawns|, ranks, g);
        var part := ranks[pawns[g].lo..pawns[g].hi];
        assert part[i - pawns[g].lo] > part[j - pawns[g].lo];
      } else if g < h {
        FilesDiffer(pawns, g, h);
      } else {
        FilesDiffer(pawns, h, g);
      }
    }
  }

  lemma PrefixIsCompacted(plan: Plan, lead: nat)
    requires ValidPlan(plan) && lead < LeadRange(plan)
    ensures |Prefix(plan, lead)| == plan.Start() && Compacted(Prefix(plan, lead), 64)
  {
    hide Pairs, Enumerate, Compact;
    if plan.kind == Pawnless {
      KingIndexIsInverse(lead);
    } else {
      PawnPrefix(plan, lead);
      var c := Enumerate(plan.pawns, 0, [])[lead];
      var squares := PawnSquares(plan.pawns, c.0);
      NumbersAreDistinct(plan, squares);
      CompactIsInRange(Numbers(plan, squares), 64);
    }
  }

  /** Distinct numbers whose compacted form starts with a prefix have the pawns or
      kings of the prefix. */
  lemma PawnsOfPrefix(plan: Plan, lead: nat, v: seq<nat>)
    requires ValidPlan(plan) && plan.kind != Pawnless && lead < LeadRange(plan)
    requires Compaction.Distinct(v) && Below(v, 64) && plan.Start() <= |v|
    requires Compact(v)[..plan.Start()] == Prefix(plan, lead)
    ensures OnBoard(SquaresOf(plan, v))
    ensures var c := Enumerate(plan.pawns, 0, [])[lead];
            && IsConfiguration(plan.pawns, c) && Ranks(SquaresOf(plan, v), plan.Start()) == c.0
            && PawnSquares(plan.pawns, c.0) == SquaresOf(plan, v)[..plan.Start()]
  {
    hide Enumerate, Compact, Uncompact, Prefix, ValidGroups, IsConfiguration, PawnSquares;
    var n := plan.Start();
    PawnPrefix(plan, lead);
    var c := Enumerate(plan.pawns, 0, [])[lead];
    var squares := PawnSquares(plan.pawns, c.0);
    CompactPrefix(v, n);
    NumbersAreDistinct(plan, squares);
    UncompactCompact(Numbers(plan, squares));
    UncompactCompact(v[..n]);
    assert v[..n] == Numbers(plan, squares);
    SquaresAreDistinct(plan, v);
    assert SquaresOf(plan, v)[..n] == SquaresOf(plan, v[..n]);
    assert Ranks(SquaresOf(plan, v), n) == Ranks(squares, n);
  }

  lemma KingsOfPrefix(plan: Plan, lead: nat, v: seq<nat>)
    requires ValidPlan(plan) && plan.kind == Pawnless && lead < LeadRange(plan)
    requires Compaction.Distinct(v) && Below(v, 64) && 2 <= |v|
    requires Compact(v)[..2] == Prefix(plan, lead)
    ensures IsPair(v[0], v[1]) && v[1] == Raised(v[0], Compact(v)[1])
  {
    hide Pairs, Compact, IsPairOf, At;
    KingIndexIsInverse(lead);
    assert Compact(v)[0] == Compact(v)[..2][0] && Compact(v)[1] == Compact(v)[..2][1];
    FirstTwo(v);
    KingsDiffer(v[0], Raised(v[0], Compact(v)[1]));
  }

  /** The numbers an index decodes to. */
  function DecodedNumbers(plan: Plan, x: nat): seq<nat>
    requires ValidPlan(plan) && x < Range(plan)
  {
    GroupsFacts(plan);
    LeftoverInRange(plan.Groups(), x, LeadRange(plan));
    var (lead, digits) := MixedDecode(plan.Groups(), x);
    Uncompact(Prefix(plan, lead) + digits)
  }

  lemma DecodedNumbersFacts(plan: Plan, x: nat)
    requires ValidPlan(plan) && x < Range(plan)
    ensures var v := DecodedNumbers(plan, x);
            var groups := plan.Groups();
            && |v| == plan.Pieces() >= plan.Start() && Compaction.Distinct(v) && Below(v, 64) && Sorted(groups, v)
            && Decodable(groups) && (forall g | g in groups :: g.hi <= |v|)
            && MixedIndex(MixedDecode(groups, x).0, groups, Compact(v)) == x
            && MixedDecode(groups, x).0 < LeadRange(plan)
            && Compact(v)[..plan.Start()] == Prefix(plan, MixedDecode(groups, x).0)
  {
    hide Compact, Uncompact, Prefix, MixedIndex, MixedDecode, Consecutive, MixedDigits, LeadRange, Product;
    GroupsFacts(plan);
    LeftoverInRange(plan.Groups(), x, LeadRange(plan));
    var (lead, digits) := MixedDecode(plan.Groups(), x);
    PrefixIsCompacted(plan, lead);
    MixedIndexDecode(plan.Groups(), x, plan.Start(), Prefix(plan, lead));
    var c := Prefix(plan, lead) + digits;
    assert c[..plan.Start()] == Prefix(plan, lead);
    DigitsGiveSorted(plan, c);
  }

  /** Every index decodes to a canonical placement. */
  lemma DecodedIsCanonical(plan: Plan, x: nat)
    requires ValidPlan(plan) && x < Range(plan)
    ensures IsCanonical(plan, Decode(plan, x))
    ensures Numbers(plan, Decode(plan, x).squares) == DecodedNumbers(plan, x)
  {
    hide Compact, Uncompact, Prefix, MixedIndex, MixedDecode, Consecutive, MixedDigits, Pairs, Enumerate, Range;
    hide Decodable;
    DecodedNumbersFacts(plan, x);
    var lead := MixedDecode(plan.Groups(), x).0;
    var v := DecodedNumbers(plan, x);
    SquaresAreDistinct(plan, v);
    NumbersAreDistinct(plan, SquaresOf(plan, v));
    if plan.kind == Pawnless {
      KingsOfPrefix(plan, lead, v);
    } else {
      PawnsOfPrefix(plan, lead, v);
    }
  }

  lemma LeadOfDecoded(plan: Plan, x: nat)
    requires ValidPlan(plan) && x < Range(plan) && IsCanonical(plan, Decode(plan, x))
    requires Numbers(plan, Decode(plan, x).squares) == DecodedNumbers(plan, x)
    ensures Decodable(plan.Groups()) && Lead(plan, Decode(plan, x)) == MixedDecode(plan.Groups(), x).0
  {
    hide Compact, Uncompact, MixedIndex, MixedDecode, Consecutive, MixedDigits, Pairs, Enumerate, Range, Decodable;
    hide IsConfiguration, Chosen, ValidGroups, Sorted, Numbers;
    DecodedNumbersFacts(plan, x);
    var lead := MixedDecode(plan.Groups(), x).0;
    if plan.kind == Pawnless {
      KingIndexIsInverse(lead);
      assert Prefix(plan, lead) == [Pairs()[lead].0, Pairs()[lead].1];
      var c := Compact(DecodedNumbers(plan, x));
      assert c[0] == c[..2][0] && c[1] == c[..2][1];
    } else {
      PawnsOfPrefix(plan, lead, DecodedNumbers(plan, x));
      PawnIndexIsInverse(plan.pawns, lead);
    }
  }

  /** Encoding the placement of an index gives the index. */
  lemma EncodeDecode(plan: Plan, x: nat)
    requires ValidPlan(plan) && x < Range(plan)
    ensures IsCanonical(plan, Decode(plan, x)) && Encode(plan, Decode(plan, x)) == x
  {
    hide Compact, Uncompact, Prefix, MixedIndex, MixedDecode, Consecutive, MixedDigits, Decodable, Lead, Decode;
    hide DecodedNumbers;
    DecodedIsCanonical(plan, x);
    DecodedNumbersFacts(plan, x);
    LeadOfDecoded(plan, x);
  }
}

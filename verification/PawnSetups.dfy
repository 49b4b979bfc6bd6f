/** The pawn configurations of a table as the pawn structures of its boards. */
module PawnSetups {
  import opened Conversions
  import opened PawnKeys
  import opened PawnMaps
  import opened TableNames
  import opened Wrappers

  // ---------------------------------------------------------------------
  // The ranks of the pawns on a file.

  /** The ranks of the pawns below rank `n`, from the highest down. */
  function RanksBelow(o: FilePawns, n: nat): (ranks: seq<nat>)
    requires n <= 8
  {
    if n == 0 then [] else (if o[n - 1].Some? then [n - 1] else []) + RanksBelow(o, n - 1)
  }

  predicate Inside(o: FilePawns) { o[0].None? && o[7].None? }

  /** The ranks are those of the pawns, whose sides the word lists from the lowest pawn up. */
  lemma {:induction false} RanksAre(o: FilePawns, n: nat)
    requires n <= 8
    ensures var (w, ranks) := (WordUpTo(o, n), RanksBelow(o, n));
            && |ranks| == |w|
            && (forall i | 0 <= i < |ranks| :: ranks[i] < n && o[ranks[i]] == Some(w[|w| - 1 - i]))
            && (forall i, j | 0 <= i < j < |ranks| :: ranks[i] > ranks[j])
            && (forall r | 0 <= r < n && o[r].Some? :: r in ranks)
  {
    if n > 0 {
      RanksAre(o, n - 1);
    }
  }

  lemma RanksInside(o: FilePawns)
    requires Inside(o)
    ensures DescendingRanks(RanksBelow(o, 8), 0, 6) && |RanksBelow(o, 8)| == |WordOf(o)|
  {
    hide WordUpTo, RanksBelow;
    RanksAre(o, 8);
  }

  // ---------------------------------------------------------------------
  // The configuration of a pawn structure.

  /** The pawns stand inside the board, with the words of the groups on their files and no
      pawns on the others. */
  ghost predicate HasGroups(p: Pawns, groups: seq<PawnGroup>) {
    && (forall f | 0 <= f < 8 :: Inside(p[f]))
    && (forall n | 0 <= n < |groups| :: groups[n].file < 8 && WordOf(p[groups[n].file]) == groups[n].order)
    && (forall f | 0 <= f < 8 && (forall n | 0 <= n < |groups| :: groups[n].file != f) :: WordOf(p[f]) == [])
  }

  function RanksFor(p: Pawns, groups: seq<PawnGroup>, n: nat): seq<nat>
    requires n <= |groups| && forall g | g in groups :: g.file < 8
  {
    if n == 0 then [] else RanksFor(p, groups, n - 1) + RanksBelow(p[groups[n - 1].file], 8)
  }

  /** Every structure with the words of the groups is one of their rank choices. */
  lemma {:induction false} StructureIsChosen(p: Pawns, groups: seq<PawnGroup>, n: nat)
    requires ValidGroups(groups) && HasGroups(p, groups) && n <= |groups|
    requires forall g | g in groups :: g.file < 8
    ensures Chosen(groups, n, RanksFor(p, groups, n))
    ensures |RanksFor(p, groups, n)| == GroupsEnd(groups[..n])
  {
    hide WordUpTo, RanksBelow, DescendingRanks, ValidGroups, GroupsEnd, Chosen;
    if n == 0 {
      NoGroupsEnd(groups);
    } else {
      StructureIsChosen(p, groups, n - 1);
      GroupIs(groups, n - 1);
      GroupEnd(groups, n - 1);
      var g := groups[n - 1];
      RanksInside(p[g.file]);
      ChooseNext(groups, n - 1, RanksFor(p, groups, n - 1), RanksBelow(p[g.file], 8));
    }
  }

  lemma {:induction false} GroupIs(groups: seq<PawnGroup>, n: nat)
    requires ValidGroups(groups) && n < |groups|
    ensures groups[n].lo == GroupsEnd(groups[..n]) && groups[n].hi == groups[n].lo + |groups[n].order|
    ensures 1 <= |groups[n].order| <= 6
  {
    var last := |groups| - 1;
    if n < last {
      GroupIs(groups[..last], n);
      assert groups[..last][..n] == groups[..n];
    }
  }

  lemma Slices(ranks: seq<nat>, lo: nat, hi: nat)
    requires lo <= hi <= |ranks|
    ensures ranks[..hi][..lo] == ranks[..lo] && ranks[..hi][lo..] == ranks[lo..hi]
    ensures ranks[..lo] + ranks[lo..hi] == ranks[..hi]
  {
  }

  lemma PrefixSlice(a: seq<nat>, b: seq<nat>, lo: nat, hi: nat)
    requires lo <= hi <= |a|
    ensures (a + b)[lo..hi] == a[lo..hi] && (a + b)[|a|..] == b
  {
  }

  lemma GroupEnd(groups: seq<PawnGroup>, n: nat)
    requires n < |groups|
    ensures GroupsEnd(groups[..n + 1]) == groups[n].hi
  {
  }

  lemma NoGroupsEnd(groups: seq<PawnGroup>)
    requires ValidGroups(groups)
    ensures GroupsEnd(groups[..0]) == 0 && Chosen(groups, 0, [])
  {
  }

  lemma {:induction false} RanksOfGroup(p: Pawns, groups: seq<PawnGroup>, n: nat, k: nat)
    requires ValidGroups(groups) && HasGroups(p, groups) && k < n <= |groups|
    requires forall g | g in groups :: g.file < 8
    ensures groups[k].lo < groups[k].hi <= |RanksFor(p, groups, n)|
    ensures RanksFor(p, groups, n)[groups[k].lo..groups[k].hi] == RanksBelow(p[groups[k].file], 8)
  {
    hide WordUpTo, RanksBelow, Chosen, DescendingRanks, ValidGroups, GroupsEnd;
    GroupIs(groups, k);
    StructureIsChosen(p, groups, n - 1);
    RanksInside(p[groups[k].file]);
    var before := RanksFor(p, groups, n - 1);
    if k < n - 1 {
      RanksOfGroup(p, groups, n - 1, k);
      PrefixSlice(before, RanksBelow(p[groups[n - 1].file], 8), groups[k].lo, groups[k].hi);
    } else {
      PrefixSlice(before, RanksBelow(p[groups[k].file], 8), 0, 0);
    }
  }

  // ---------------------------------------------------------------------
  // En passant.

  /** The ranks of the group's pawns in the configuration of the structure. */
  predicate GroupMatches(p: Pawns, group: PawnGroup, ranks: seq<nat>) {
    && group.file < 8 && group.lo < group.hi <= |ranks| && group.hi - group.lo == |group.order|
    && group.order == WordOf(p[group.file]) && Inside(p[group.file])
    && ranks[group.lo..group.hi] == RanksBelow(p[group.file], 8)
  }

  lemma GroupsMatch(p: Pawns, groups: seq<PawnGroup>, k: nat)
    requires ValidGroups(groups) && HasGroups(p, groups) && k < |groups|
    ensures forall g | g in groups :: g.file < 8
    ensures GroupMatches(p, groups[k], RanksFor(p, groups, |groups|))
  {
    hide WordUpTo, RanksBelow, RanksFor, ValidGroups, Chosen;
    GroupsHaveFiles(groups);
    StructureIsChosen(p, groups, |groups|);
    RanksOfGroup(p, groups, |groups|, k);
    GroupIs(groups, k);
  }

  lemma CapturerIs(p: Pawns, group: PawnGroup, ranks: seq<nat>)
    requires GroupMatches(p, group, ranks)
    ensures HasCapturer(group, ranks) <==> p[group.file][4] == Some(SideToMove)
  {
    hide WordUpTo, RanksBelow;
    var (o, list) := (p[group.file], ranks[group.lo..group.hi]);
    RanksAre(o, 8);
    forall k | 0 <= k < |group.order|
      ensures IsCapturer(group, ranks, k) <==> list[k] == 4 && o[4] == Some(SideToMove)
    {
    }
    if o[4] == Some(SideToMove) {
      assert 4 in list;
      var k: nat :| k < |list| && list[k] == 4;
      assert IsCapturer(group, ranks, k);
    }
  }

  /** The highest pawn of the group is an enemy pawn on the fifth rank. */
  lemma HighestIs(p: Pawns, group: PawnGroup, ranks: seq<nat>)
    requires GroupMatches(p, group, ranks)
    ensures ranks[group.lo] == 4 && group.order[|group.order| - 1] == SideNotToMove
            <==> var o := p[group.file]; o[4] == Some(SideNotToMove) && o[5].None? && o[6].None?
  {
    hide WordUpTo, RanksBelow;
    var (o, list) := (p[group.file], ranks[group.lo..group.hi]);
    RanksAre(o, 8);
    assert list[0] == ranks[group.lo];
    if o[4] == Some(SideNotToMove) && o[5].None? && o[6].None? {
      assert 4 in list;
      assert list[0] != 5 && list[0] != 6 && list[0] != 7;
    }
    if list[0] == 4 {
      assert 5 !in list && 6 !in list;
    }
  }

  lemma PawnHasGroup(p: Pawns, groups: seq<PawnGroup>, f: nat, r: nat)
    requires HasGroups(p, groups) && f < 8 && r < 8 && p[f][r].Some?
    ensures exists n :: 0 <= n < |groups| && groups[n].file == f
  {
    WordIsByRank(p[f], r);
  }

  /** The victims of a configuration are the pawns that an en passant capture may take on
      the boards of that structure. */
  lemma VictimIsEnPassant(p: Pawns, groups: seq<PawnGroup>, k: nat, stm: Counts, sntm: Counts)
    requires ValidGroups(groups) && HasGroups(p, groups) && k < |groups|
    ensures forall g | g in groups :: g.file < 8
    ensures var ranks := RanksFor(p, groups, |groups|);
            && InSpan(groups, ranks)
            && (IsVictim(groups, groups[k], ranks)
                <==> exists f :: Legal(Setup(p, stm, sntm), EnPassant(f, groups[k].file)))
  {
    hide WordUpTo, RanksBelow, RanksFor, ValidGroups, Chosen, HasCapturer, HasGroups, GroupMatches;
    GroupsMatch(p, groups, k);
    var ranks := RanksFor(p, groups, |groups|);
    forall n | 0 <= n < |groups|
      ensures GroupMatches(p, groups[n], ranks)
      ensures InSpan([groups[n]], ranks)
      ensures HasCapturer(groups[n], ranks) <==> p[groups[n].file][4] == Some(SideToMove)
    {
      GroupsMatch(p, groups, n);
      MatchSpans(p, groups[n], ranks);
      CapturerIs(p, groups[n], ranks);
    }
    AllSpans(groups, ranks);
    HighestIs(p, groups[k], ranks);
    if f :| Legal(Setup(p, stm, sntm), EnPassant(f, groups[k].file)) {
      PawnHasGroup(p, groups, f, 4);
      var n :| 0 <= n < |groups| && groups[n].file == f;
      assert HasCapturer(groups[n], ranks);
    }
    if IsVictim(groups, groups[k], ranks) {
      var n :| 0 <= n < |groups| && PawnMaps.Adjacent(groups[k].file, groups[n].file) && HasCapturer(groups[n], ranks);
      assert Legal(Setup(p, stm, sntm), EnPassant(groups[n].file, groups[k].file));
    }
  }

  lemma MatchSpans(p: Pawns, group: PawnGroup, ranks: seq<nat>)
    requires GroupMatches(p, group, ranks)
    ensures InSpan([group], ranks) && group.file < 8
  {
    hide WordUpTo, RanksBelow;
  }

  lemma AllSpans(groups: seq<PawnGroup>, ranks: seq<nat>)
    requires forall n | 0 <= n < |groups| :: InSpan([groups[n]], ranks)
    ensures InSpan(groups, ranks)
  {
    forall g | g in groups ensures InSpan([g], ranks) && g in [g] {
      var n :| 0 <= n < |groups| && groups[n] == g;
    }
  }

  // ---------------------------------------------------------------------
  // Configurations and structures correspond.

  lemma FileIsDetermined(o: FilePawns, o': FilePawns)
    requires WordOf(o) == WordOf(o') && RanksBelow(o, 8) == RanksBelow(o', 8)
    ensures o == o'
  {
    hide WordUpTo, RanksBelow;
    RanksAre(o, 8);
    RanksAre(o', 8);
    forall r | 0 <= r < 8 ensures o[r] == o'[r] {
      assert o[r].Some? <==> r in RanksBelow(o, 8);
      assert o'[r].Some? <==> r in RanksBelow(o', 8);
    }
  }

  lemma NoPawnsOnFile(o: FilePawns)
    requires WordOf(o) == []
    ensures RanksBelow(o, 8) == []
  {
    hide WordUpTo, RanksBelow;
    RanksAre(o, 8);
  }

  /** Structures with the same words and configuration are the same. */
  lemma StructureIsDetermined(p: Pawns, q: Pawns, groups: seq<PawnGroup>)
    requires ValidGroups(groups) && HasGroups(p, groups) && HasGroups(q, groups)
    requires forall g | g in groups :: g.file < 8
    requires RanksFor(p, groups, |groups|) == RanksFor(q, groups, |groups|)
    ensures p == q
  {
    hide WordUpTo, RanksBelow, RanksFor, ValidGroups;
    forall f | 0 <= f < 8 ensures p[f] == q[f] {
      if k :| 0 <= k < |groups| && groups[k].file == f {
        GroupsMatch(p, groups, k);
        GroupsMatch(q, groups, k);
      } else {
        NoPawnsOnFile(p[f]);
        NoPawnsOnFile(q[f]);
      }
      FileIsDetermined(p[f], q[f]);
    }
  }

  /** The pawn on a rank, given the sides from the lowest and the ranks from the highest. */
  function SideAt(order: seq<Side>, ranks: seq<nat>, r: nat): Option<Side>
    requires |order| == |ranks|
  {
    if ranks == [] then None
    else if ranks[0] == r then Some(order[|order| - 1])
    else SideAt(order[..|order| - 1], ranks[1..], r)
  }

  lemma {:induction false} SideAtIs(order: seq<Side>, ranks: seq<nat>, r: nat)
    requires |order| == |ranks| && forall i, j | 0 <= i < j < |ranks| :: ranks[i] > ranks[j]
    ensures SideAt(order, ranks, r).Some? <==> r in ranks
    ensures forall i | 0 <= i < |ranks| && ranks[i] == r :: SideAt(order, ranks, r) == Some(order[|order| - 1 - i])
  {
    if ranks != [] && ranks[0] != r {
      SideAtIs(order[..|order| - 1], ranks[1..], r);
      forall i | 0 <= i < |ranks| && ranks[i] == r
        ensures SideAt(order, ranks, r) == Some(order[|order| - 1 - i])
      {
        assert ranks[1..][i - 1] == r;
      }
    }
  }

  function FileFrom(order: seq<Side>, ranks: seq<nat>): FilePawns
    requires |order| == |ranks|
  {
    seq(8, r requires 0 <= r < 8 => SideAt(order, ranks, r))
  }

  lemma SomeElement(s: seq<nat>)
    ensures s == [] || exists x :: x in s
  {
    if s != [] {
      assert s[0] in s;
    }
  }

  lemma {:induction false} DescendingIsDetermined(a: seq<nat>, b: seq<nat>)
    requires forall i, j | 0 <= i < j < |a| :: a[i] > a[j]
    requires forall i, j | 0 <= i < j < |b| :: b[i] > b[j]
    requires forall x :: x in a <==> x in b
    ensures a == b
  {
    if a != [] {
      assert a[0] in b;
      assert b[0] in a;
      assert a[0] == b[0];
      assert a == [a[0]] + a[1..] && b == [b[0]] + b[1..];
      forall x ensures x in a[1..] <==> x in b[1..] {
        assert x in a[1..] <==> x in a && x != a[0];
        assert x in b[1..] <==> x in b && x != b[0];
      }
      DescendingIsDetermined(a[1..], b[1..]);
    } else {
      SomeElement(b);
    }
  }

  lemma FileHasPawns(order: seq<Side>, ranks: seq<nat>)
    requires |order| == |ranks| && DescendingRanks(ranks, 0, 6)
    ensures Inside(FileFrom(order, ranks))
    ensures RanksBelow(FileFrom(order, ranks), 8) == ranks && WordOf(FileFrom(order, ranks)) == order
  {
    hide WordUpTo, RanksBelow, SideAt;
    var o := FileFrom(order, ranks);
    forall r: nat ensures SideAt(order, ranks, r).Some? <==> r in ranks {
      SideAtIs(order, ranks, r);
    }
    RanksAre(o, 8);
    DescendingIsDetermined(RanksBelow(o, 8), ranks);
    var w := WordOf(o);
    forall i | 0 <= i < |order| ensures w[i] == order[i] {
      var j: nat := |order| - 1 - i;
      SideAtIs(order, ranks, ranks[j]);
      assert o[ranks[j]] == Some(w[|w| - 1 - j]);
    }
  }

  const NO_STRUCTURE: Pawns :=
    [EMPTY_FILE, EMPTY_FILE, EMPTY_FILE, EMPTY_FILE, EMPTY_FILE, EMPTY_FILE, EMPTY_FILE, EMPTY_FILE]

  function StructureFor(groups: seq<PawnGroup>, ranks: seq<nat>, n: nat): Pawns
    requires n <= |groups| && InSpan(groups, ranks) && forall g | g in groups :: g.file < 8
  {
    if n == 0 then NO_STRUCTURE
    else
      var g := groups[n - 1];
      StructureFor(groups, ranks, n - 1)[g.file := FileFrom(g.order, ranks[g.lo..g.hi])]
  }

  lemma FilesDiffer(groups: seq<PawnGroup>, n: nat)
    requires ValidGroups(groups) && n < |groups|
    ensures groups[n].file < 8 && forall i | 0 <= i < n :: groups[i].file != groups[n].file
    decreases |groups|
  {
    var last := |groups| - 1;
    if n < last {
      FilesDiffer(groups[..last], n);
    }
  }

  lemma {:induction false} OtherFilesSame(p: Pawns, q: Pawns, groups: seq<PawnGroup>, n: nat)
    requires n <= |groups| && forall g | g in groups :: g.file < 8
    requires forall i | 0 <= i < n :: p[groups[i].file] == q[groups[i].file]
    ensures RanksFor(p, groups, n) == RanksFor(q, groups, n)
  {
    if n > 0 {
      OtherFilesSame(p, q, groups, n - 1);
    }
  }

  lemma EmptyFile()
    ensures Inside(EMPTY_FILE) && WordOf(EMPTY_FILE) == []
  {
    WordUpToEmpty(8);
  }

  lemma {:induction false} WordUpToEmpty(n: nat)
    requires n <= 8
    ensures WordUpTo(EMPTY_FILE, n) == []
  {
    if n > 0 {
      WordUpToEmpty(n - 1);
    }
  }

  lemma NoGroups(groups: seq<PawnGroup>)
    ensures HasGroups(NO_STRUCTURE, groups[..0])
  {
    hide WordUpTo;
    EmptyFile();
  }

  lemma OneMoreGroup(before: Pawns, p: Pawns, groups: seq<PawnGroup>, n: nat)
    requires n < |groups| && groups[n].file < 8 && forall i | 0 <= i < n :: groups[i].file != groups[n].file
    requires HasGroups(before, groups[..n]) && p == before[groups[n].file := p[groups[n].file]]
    requires Inside(p[groups[n].file]) && WordOf(p[groups[n].file]) == groups[n].order
    ensures HasGroups(p, groups[..n + 1])
  {
    hide WordUpTo;
    var (first, more) := (groups[..n], groups[..n + 1]);
    forall k | 0 <= k < |more| ensures more[k].file < 8 && WordOf(p[more[k].file]) == more[k].order {
      assert k < n ==> more[k] == first[k];
    }
    forall f | 0 <= f < 8 && forall k | 0 <= k < |more| :: more[k].file != f ensures WordOf(p[f]) == [] {
      assert more[n].file != f;
      forall k | 0 <= k < |first| ensures first[k].file != f {
        assert more[k] == first[k];
      }
    }
  }

  /** The structure of the first groups. */
  lemma {:induction false} StructureHasGroups(groups: seq<PawnGroup>, ranks: seq<nat>, n: nat)
    requires ValidGroups(groups) && InSpan(groups, ranks) && n <= |groups|
    requires forall g | g in groups :: g.file < 8
    requires Chosen(groups, n, ranks[..GroupsEnd(groups[..n])]) && GroupsEnd(groups[..n]) <= |ranks|
    ensures var p := StructureFor(groups, ranks, n);
            HasGroups(p, groups[..n]) && RanksFor(p, groups, n) == ranks[..GroupsEnd(groups[..n])]
  {
    hide WordUpTo, RanksBelow, FileFrom, ValidGroups, HasGroups, Inside, DescendingRanks, GroupsEnd;
    if n == 0 {
      NoGroups(groups);
    } else {
      var g := groups[n - 1];
      GroupIs(groups, n - 1);
      GroupEnd(groups, n - 1);
      FilesDiffer(groups, n - 1);
      Slices(ranks, g.lo, g.hi);
      StructureHasGroups(groups, ranks, n - 1);
      FileHasPawns(g.order, ranks[g.lo..g.hi]);
      var (before, p) := (StructureFor(groups, ranks, n - 1), StructureFor(groups, ranks, n));
      OneMoreGroup(before, p, groups, n - 1);
      OtherFilesSame(before, p, groups, n - 1);
    }
  }

  lemma GroupsHaveFiles(groups: seq<PawnGroup>)
    requires ValidGroups(groups)
    ensures forall g | g in groups :: g.file < 8
  {
    hide ValidGroups;
    forall g | g in groups ensures g.file < 8 {
      var n :| 0 <= n < |groups| && groups[n] == g;
      FilesDiffer(groups, n);
    }
  }

  /** The configuration of a structure is one of the table's; with an en passant file it is
      one exactly if a pawn on that file may be captured en passant. */
  lemma StructureIsConfiguration(p: Pawns, groups: seq<PawnGroup>, g: nat, stm: Counts, sntm: Counts)
    requires ValidGroups(groups) && HasGroups(p, groups)
    ensures forall group | group in groups :: group.file < 8
    ensures IsConfiguration(groups, (RanksFor(p, groups, |groups|), None))
    ensures IsConfiguration(groups, (RanksFor(p, groups, |groups|), Some(g)))
            <==> exists f :: Legal(Setup(p, stm, sntm), EnPassant(f, g))
  {
    hide WordUpTo, RanksBelow, RanksFor, ValidGroups, Chosen, HasGroups, IsVictim;
    GroupsHaveFiles(groups);
    StructureIsChosen(p, groups, |groups|);
    var ranks := RanksFor(p, groups, |groups|);
    ChosenSpans(groups, ranks);
    forall k | 0 <= k < |groups|
      ensures IsVictim(groups, groups[k], ranks)
              <==> exists f :: Legal(Setup(p, stm, sntm), EnPassant(f, groups[k].file))
    {
      VictimIsEnPassant(p, groups, k, stm, sntm);
    }
    if f :| Legal(Setup(p, stm, sntm), EnPassant(f, g)) {
      PawnHasGroup(p, groups, g, 4);
    }
  }

  /** Every configuration of a table is that of exactly one structure with its words. */
  lemma ConfigurationIsStructure(groups: seq<PawnGroup>, c: Configuration)
    requires ValidGroups(groups) && IsConfiguration(groups, c)
    ensures forall g | g in groups :: g.file < 8
    ensures exists p :: HasGroups(p, groups) && RanksFor(p, groups, |groups|) == c.0
                        && forall q | HasGroups(q, groups) && RanksFor(q, groups, |groups|) == c.0 :: q == p
  {
    hide WordUpTo, RanksBelow, RanksFor, ValidGroups, Chosen, HasGroups, IsVictim, StructureFor;
    GroupsHaveFiles(groups);
    ChosenSpans(groups, c.0);
    ChosenEnd(groups, c.0);
    assert c.0[..|c.0|] == c.0 && groups[..|groups|] == groups;
    StructureHasGroups(groups, c.0, |groups|);
    var p := StructureFor(groups, c.0, |groups|);
    forall q | HasGroups(q, groups) && RanksFor(q, groups, |groups|) == c.0 ensures q == p {
      StructureIsDetermined(p, q, groups);
    }
  }

  lemma ChosenEnd(groups: seq<PawnGroup>, ranks: seq<nat>)
    requires ValidGroups(groups) && Chosen(groups, |groups|, ranks)
    ensures GroupsEnd(groups) == |ranks|
  {
  }
}

/** Reflection of pawn configurations whose files and orders are symmetric. */
module PawnReflections {
  import opened PawnMaps
  import opened Wrappers

  /** The group on a file, or the number of groups if there is none. */
  function GroupOn(groups: seq<PawnGroup>, file: int): (g: nat)
    ensures g <= |groups|
    ensures g < |groups| ==> groups[g].file == file
  {
    if groups == [] then 0
    else
      var n := |groups| - 1;
      var g := GroupOn(groups[..n], file);
      if g < n then g else if groups[n].file == file then n else n + 1
  }

  function MirrorOf(groups: seq<PawnGroup>, g: nat): nat
    requires g < |groups|
  {
    GroupOn(groups, 7 - groups[g].file)
  }

  /** Every file has a mirror file with the same order of pawns. */
  predicate Symmetric(groups: seq<PawnGroup>) {
    forall g | 0 <= g < |groups| ::
      MirrorOf(groups, g) < |groups| && groups[MirrorOf(groups, g)].order == groups[g].order
  }

  /** The group of a slot. */
  function SlotGroup(groups: seq<PawnGroup>, i: nat): (g: nat)
    requires groups != []
    ensures g < |groups|
  {
    var n := |groups| - 1;
    if n == 0 || groups[n].lo <= i then n else SlotGroup(groups[..n], i)
  }

  /** The slot with the same place on the mirror file. */
  function MirrorSlot(groups: seq<PawnGroup>, i: nat): nat
    requires Symmetric(groups)
  {
    if groups == [] then i
    else
      var g := SlotGroup(groups, i);
      groups[MirrorOf(groups, g)].lo + if groups[g].lo <= i then i - groups[g].lo else 0
  }

  lemma {:induction false} SpanFacts(groups: seq<PawnGroup>, g: nat)
    requires ValidGroups(groups) && g < |groups|
    ensures groups[g].lo < groups[g].hi <= GroupsEnd(groups) && groups[g].hi - groups[g].lo == |groups[g].order|
    ensures groups[g].file < 8 && groups[g].lo == GroupsEnd(groups[..g])
  {
    var n := |groups| - 1;
    if g < n {
      SpanFacts(groups[..n], g);
      assert groups[..n][..g] == groups[..g];
    }
  }

  lemma {:induction false} SpanOrder(groups: seq<PawnGroup>, g: nat, h: nat)
    requires ValidGroups(groups) && g < h < |groups|
    ensures groups[g].hi <= groups[h].lo
  {
    ValidPrefix(groups, h);
    SpanFacts(groups[..h], g);
    SpanFacts(groups, h);
  }

  lemma {:induction false} SlotGroupIs(groups: seq<PawnGroup>, g: nat, i: nat)
    requires ValidGroups(groups) && g < |groups| && groups[g].lo <= i < groups[g].hi
    ensures SlotGroup(groups, i) == g
  {
    var n := |groups| - 1;
    if g < n {
      SpanOrder(groups, g, n);
      SlotGroupIs(groups[..n], g, i);
    }
  }

  lemma MirrorIsInvolution(groups: seq<PawnGroup>, g: nat)
    requires ValidGroups(groups) && Symmetric(groups) && g < |groups|
    ensures MirrorOf(groups, g) < |groups| && MirrorOf(groups, MirrorOf(groups, g)) == g
    ensures groups[MirrorOf(groups, g)].file == 7 - groups[g].file
  {
    var m := MirrorOf(groups, g);
    var k := MirrorOf(groups, m);
    SpanFacts(groups, g);
    if k < g {
      FilesDiffer(groups, k, g);
    } else if g < k {
      FilesDiffer(groups, g, k);
    }
  }

  /** A slot in a group, its group, and its mirror. */
  lemma MirrorSlots(groups: seq<PawnGroup>, g: nat, i: nat)
    requires ValidGroups(groups) && Symmetric(groups) && g < |groups| && groups[g].lo <= i < groups[g].hi
    ensures MirrorOf(groups, g) < |groups|
    ensures var m := groups[MirrorOf(groups, g)];
            MirrorSlot(groups, i) == m.lo + i - groups[g].lo < m.hi <= GroupsEnd(groups)
    ensures MirrorSlot(groups, MirrorSlot(groups, i)) == i
  {
    var m := MirrorOf(groups, g);
    SlotGroupIs(groups, g, i);
    SpanFacts(groups, g);
    SpanFacts(groups, m);
    MirrorIsInvolution(groups, g);
    SlotGroupIs(groups, m, MirrorSlot(groups, i));
  }

  lemma {:induction false} SlotInGroup(groups: seq<PawnGroup>, i: nat)
    requires ValidGroups(groups) && i < GroupsEnd(groups)
    ensures groups != [] && groups[SlotGroup(groups, i)].lo <= i < groups[SlotGroup(groups, i)].hi
  {
    var n := |groups| - 1;
    if n > 0 && i < groups[n].lo {
      SlotInGroup(groups[..n], i);
    } else if n == 0 {
      assert groups[..0] == [];
    }
  }

  function ReflectRanks(groups: seq<PawnGroup>, ranks: seq<nat>): (r: seq<nat>)
    requires ValidGroups(groups) && Symmetric(groups) && |ranks| == GroupsEnd(groups)
    ensures |r| == |ranks|
  {
    seq(|ranks|, i requires 0 <= i < |ranks| =>
      SlotInGroup(groups, i);
      MirrorSlots(groups, SlotGroup(groups, i), i);
      ranks[MirrorSlot(groups, i)])
  }

  function ReflectFile(ep: Option<nat>): Option<nat> {
    if ep.Some? && ep.value < 8 then Some(7 - ep.value) else ep
  }

  lemma SlicesAgree(r: seq<nat>, lo: nat, hi: nat, ranks: seq<nat>, lo': nat)
    requires lo <= hi <= |r| && lo' + hi - lo <= |ranks|
    requires forall i | lo <= i < hi :: r[i] == ranks[lo' + i - lo]
    ensures r[lo..hi] == ranks[lo'..lo' + hi - lo]
  {
  }

  lemma SameOrder(groups: seq<PawnGroup>, g: nat)
    requires Symmetric(groups) && g < |groups|
    ensures MirrorOf(groups, g) < |groups| && groups[MirrorOf(groups, g)].order == groups[g].order
  {
  }

  /** The ranks of a file come from the mirror file. */
  lemma ReflectPart(groups: seq<PawnGroup>, ranks: seq<nat>, g: nat)
    requires ValidGroups(groups) && Symmetric(groups) && |ranks| == GroupsEnd(groups) && g < |groups|
    ensures MirrorOf(groups, g) < |groups|
    ensures groups[g].lo < groups[g].hi <= |ranks|
    ensures var m := groups[MirrorOf(groups, g)];
            m.lo < m.hi <= |ranks| && ReflectRanks(groups, ranks)[groups[g].lo..groups[g].hi] == ranks[m.lo..m.hi]
  {
    hide ValidGroups, Symmetric, MirrorOf, MirrorSlot;
    MirrorIsInvolution(groups, g);
    SpanFacts(groups, g);
    SpanFacts(groups, MirrorOf(groups, g));
    SameOrder(groups, g);
    var r, lo, m := ReflectRanks(groups, ranks), groups[g].lo, groups[MirrorOf(groups, g)];
    forall i | lo <= i < groups[g].hi ensures r[i] == ranks[m.lo + i - lo] {
      MirrorSlots(groups, g, i);
    }
    SlicesAgree(r, lo, groups[g].hi, ranks, m.lo);
  }

  lemma {:induction false} ChosenFromParts(groups: seq<PawnGroup>, n: nat, ranks: seq<nat>)
    requires ValidGroups(groups) && n <= |groups| && |ranks| == GroupsEnd(groups)
    requires forall g | 0 <= g < |groups| ::
               groups[g].lo <= groups[g].hi <= |ranks| && DescendingRanks(ranks[groups[g].lo..groups[g].hi], 0, 6)
    ensures GroupsEnd(groups[..n]) <= |ranks| && Chosen(groups, n, ranks[..GroupsEnd(groups[..n])])
  {
    if n > 0 {
      ChosenFromParts(groups, n - 1, ranks);
      SpanFacts(groups, n - 1);
      var g := groups[n - 1];
      assert ranks[..g.hi][..g.lo] == ranks[..g.lo];
      assert ranks[..g.hi][g.lo..] == ranks[g.lo..g.hi];
    }
  }

  /** Reflected ranks are a choice of ranks for the same groups. */
  lemma ReflectedIsChosen(groups: seq<PawnGroup>, ranks: seq<nat>)
    requires ValidGroups(groups) && Symmetric(groups) && Chosen(groups, |groups|, ranks)
    ensures |ranks| == GroupsEnd(groups) && Chosen(groups, |groups|, ReflectRanks(groups, ranks))
  {
    hide DescendingRanks, Symmetric, MirrorOf;
    ChosenInRange(groups, |groups|, ranks);
    assert groups[..|groups|] == groups;
    var r := ReflectRanks(groups, ranks);
    forall g | 0 <= g < |groups|
      ensures groups[g].lo <= groups[g].hi <= |r| && DescendingRanks(r[groups[g].lo..groups[g].hi], 0, 6)
    {
      ReflectPart(groups, ranks, g);
      ChosenPart(groups, |groups|, ranks, MirrorOf(groups, g));
    }
    ChosenFromParts(groups, |groups|, r);
    assert r[..|r|] == r;
  }

  /** Capturers on a file are those on the mirror file before the reflection. */
  lemma ReflectCapturer(groups: seq<PawnGroup>, ranks: seq<nat>, g: nat)
    requires ValidGroups(groups) && Symmetric(groups) && |ranks| == GroupsEnd(groups) && g < |groups|
    ensures MirrorOf(groups, g) < |groups|
    ensures InSpan(groups, ranks) && InSpan(groups, ReflectRanks(groups, ranks))
    ensures HasCapturer(groups[g], ReflectRanks(groups, ranks)) <==> HasCapturer(groups[MirrorOf(groups, g)], ranks)
  {
    hide ValidGroups, Symmetric, MirrorOf, ReflectRanks;
    forall h | 0 <= h < |groups|
      ensures groups[h].lo < groups[h].hi <= |ranks| && groups[h].hi - groups[h].lo == |groups[h].order|
    {
      SpanFacts(groups, h);
    }
    SameOrder(groups, g);
    ReflectPart(groups, ranks, g);
    var r, m := ReflectRanks(groups, ranks), groups[MirrorOf(groups, g)];
    forall k | 0 <= k < |m.order|
      ensures IsCapturer(groups[g], r, k) <==> IsCapturer(m, ranks, k)
    {
      assert r[groups[g].lo + k] == r[groups[g].lo..groups[g].hi][k];
    }
  }

  lemma ReflectVictim(groups: seq<PawnGroup>, ranks: seq<nat>, g: nat)
    requires ValidGroups(groups) && Symmetric(groups) && |ranks| == GroupsEnd(groups) && g < |groups|
    requires InSpan(groups, ranks) && InSpan(groups, ReflectRanks(groups, ranks))
    requires MirrorOf(groups, g) < |groups| && IsVictim(groups, groups[MirrorOf(groups, g)], ranks)
    ensures IsVictim(groups, groups[g], ReflectRanks(groups, ranks))
  {
    var m := MirrorOf(groups, g);
    ReflectPart(groups, ranks, g);
    assert ReflectRanks(groups, ranks)[groups[g].lo] == ReflectRanks(groups, ranks)[groups[g].lo..groups[g].hi][0];
    var n :| 0 <= n < |groups| && Adjacent(groups[m].file, groups[n].file) && HasCapturer(groups[n], ranks);
    MirrorIsInvolution(groups, n);
    MirrorIsInvolution(groups, g);
    SpanFacts(groups, n);
    SpanFacts(groups, g);
    ReflectCapturer(groups, ranks, MirrorOf(groups, n));
    assert Adjacent(groups[g].file, groups[MirrorOf(groups, n)].file);
  }

  /** The reflection of a configuration is a configuration of the same pawns. */
  lemma ReflectedIsConfiguration(groups: seq<PawnGroup>, c: Configuration)
    requires ValidGroups(groups) && Symmetric(groups) && IsConfiguration(groups, c)
    ensures |c.0| == GroupsEnd(groups)
    ensures IsConfiguration(groups, (ReflectRanks(groups, c.0), ReflectFile(c.1)))
  {
    hide Chosen, DescendingRanks, ValidGroups, IsVictim, Symmetric, MirrorOf;
    ReflectedIsChosen(groups, c.0);
    ChosenSpans(groups, c.0);
    ChosenSpans(groups, ReflectRanks(groups, c.0));
    if c.1.Some? {
      var n :| 0 <= n < |groups| && groups[n].file == c.1.value && IsVictim(groups, groups[n], c.0);
      MirrorIsInvolution(groups, n);
      SpanFacts(groups, n);
      ReflectVictim(groups, c.0, MirrorOf(groups, n));
    }
  }
}

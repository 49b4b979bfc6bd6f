/** The enumeration of pawn ranks and en passant states of a table with fixed pawn
    files and colour orders. */
module PawnMaps {
  import opened Wrappers

  datatype Side = SideToMove | SideNotToMove

  /** The pawns of one file at slots `lo..hi` of the rank list. `order` gives their
      sides by ascending rank, the rank list is descending. */
  datatype PawnGroup = PawnGroup(file: nat, order: seq<Side>, lo: nat, hi: nat)

  /** Ranks of all pawns (0-based, 1 to 6), and the file of a legal EP capture. */
  type Configuration = (seq<nat>, Option<nat>)

  function GroupsEnd(groups: seq<PawnGroup>): nat {
    if groups == [] then 0 else groups[|groups| - 1].hi
  }

  /** Groups follow one another, one file each. */
  predicate ValidGroups(groups: seq<PawnGroup>) {
    groups == []
    || (var n := |groups| - 1;
        && ValidGroups(groups[..n])
        && groups[n].lo == GroupsEnd(groups[..n])
        && groups[n].hi == groups[n].lo + |groups[n].order|
        && 1 <= |groups[n].order| <= 6
        && groups[n].file < 8
        && forall i | 0 <= i < n :: groups[i].file != groups[n].file)
  }

  // ---------------------------------------------------------------------
  // Masks of ranks.

  function Pow2(n: nat): nat {
    if n == 0 then 1 else 2 * Pow2(n - 1)
  }

  /** The mask with its `b` lowest bits shifted out. */
  function Shift(mask: nat, b: nat): nat {
    if b == 0 then mask else Shift(mask, b - 1) / 2
  }

  /** The ranks of `n` bits above `base`, highest first. */
  function RanksOf(mask: nat, base: nat, n: nat): seq<nat>
    decreases n
  {
    if n == 0 then []
    else RanksOf(mask / 2, base + 1, n - 1) + if mask % 2 == 1 then [base + 1] else []
  }

  predicate DescendingRanks(ranks: seq<nat>, base: nat, top: nat) {
    && (forall i | 0 <= i < |ranks| :: base < ranks[i] <= top)
    && (forall i, j | 0 <= i < j < |ranks| :: ranks[i] > ranks[j])
  }

  lemma {:induction false} RanksAreDescending(mask: nat, base: nat, n: nat)
    ensures DescendingRanks(RanksOf(mask, base, n), base, base + n)
    decreases n
  {
    if n > 0 {
      RanksAreDescending(mask / 2, base + 1, n - 1);
    }
  }

  /** Different masks choose different ranks. */
  lemma {:induction false} RanksAreInjective(mask: nat, mask': nat, base: nat, n: nat)
    requires mask < Pow2(n) && mask' < Pow2(n)
    requires RanksOf(mask, base, n) == RanksOf(mask', base, n)
    ensures mask == mask'
    decreases n
  {
    if n > 0 {
      var high, high' := RanksOf(mask / 2, base + 1, n - 1), RanksOf(mask' / 2, base + 1, n - 1);
      RanksAreDescending(mask / 2, base + 1, n - 1);
      RanksAreDescending(mask' / 2, base + 1, n - 1);
      if mask % 2 == 1 {
        assert RanksOf(mask', base, n)[|high|] == base + 1;
      }
      if mask' % 2 == 1 {
        assert RanksOf(mask, base, n)[|high'|] == base + 1;
      }
      assert mask % 2 == mask' % 2;
      assert high == RanksOf(mask, base, n)[..|high|] && high' == RanksOf(mask', base, n)[..|high'|];
      RanksAreInjective(mask / 2, mask' / 2, base + 1, n - 1);
    }
  }

  /** Every descending choice of ranks has a mask. */
  lemma {:induction false} RanksAreSurjective(ranks: seq<nat>, base: nat, n: nat) returns (mask: nat)
    requires DescendingRanks(ranks, base, base + n)
    ensures mask < Pow2(n) && RanksOf(mask, base, n) == ranks
    decreases n
  {
    var first := if ranks == [] then base + 1 else ranks[0];
    assert base < first <= base + n || ranks == [];
    if n == 0 {
      mask := 0;
    } else if |ranks| > 0 && ranks[|ranks| - 1] == base + 1 {
      var m := RanksAreSurjective(ranks[..|ranks| - 1], base + 1, n - 1);
      mask := NextBit(m, 1);
      NextBitRanks(m, 1, base, n);
    } else {
      DescendingFrom(ranks, base, base + n);
      var m := RanksAreSurjective(ranks, base + 1, n - 1);
      mask := NextBit(m, 0);
      NextBitRanks(m, 0, base, n);
    }
  }

  /** The mask with one more bit below its lowest. */
  function NextBit(mask: nat, bit: nat): nat {
    2 * mask + bit
  }

  lemma NextBitRanks(mask: nat, bit: nat, base: nat, n: nat)
    requires bit < 2 && n > 0 && mask < Pow2(n - 1)
    ensures NextBit(mask, bit) < Pow2(n)
    ensures RanksOf(NextBit(mask, bit), base, n) == RanksOf(mask, base + 1, n - 1) + if bit == 1 then [base + 1] else []
  {
    assert NextBit(mask, bit) / 2 == mask && NextBit(mask, bit) % 2 == bit;
  }

  /** Without the rank above `base`, a choice of ranks starts one higher. */
  lemma DescendingFrom(ranks: seq<nat>, base: nat, top: nat)
    requires DescendingRanks(ranks, base, top) && (ranks == [] || ranks[|ranks| - 1] != base + 1)
    ensures DescendingRanks(ranks, base + 1, top)
  {
    forall i | 0 <= i < |ranks| ensures base + 1 < ranks[i] {
      var last := |ranks| - 1;
      assert i < last ==> ranks[i] > ranks[last];
    }
  }

  /** Appends the ranks of a mask, highest first. */
  method AppendRanks(ranks: seq<nat>, mask: nat) returns (extended: seq<nat>)
    ensures extended == ranks + RanksOf(mask, 0, 6)
  {
    extended := ranks;
    for rank: nat := 6 downto 0
      invariant extended == ranks + RanksOf(Shift(mask, rank), rank, 6 - rank)
    {
      // The bit of the rank above `rank`.
      if Shift(mask, rank) % 2 == 1 {
        extended := extended + [rank + 1];
      }
    }
    assert Shift(mask, 0) == mask;
  }

  // ---------------------------------------------------------------------
  // En passant states of a choice of ranks.

  /** Some pawn of the side to move stands on rank 5 in the group. */
  predicate HasCapturer(group: PawnGroup, ranks: seq<nat>)
    requires group.lo <= group.hi <= |ranks| && group.hi - group.lo == |group.order|
  {
    exists k :: 0 <= k < |group.order| && IsCapturer(group, ranks, k)
  }

  /** The k-th pawn of the file from the top can capture on rank 6. */
  predicate IsCapturer(group: PawnGroup, ranks: seq<nat>, k: int)
    requires group.lo <= group.hi <= |ranks| && group.hi - group.lo == |group.order| && 0 <= k < |group.order|
  {
    ranks[group.lo + k] == 4 && group.order[|group.order| - 1 - k] == SideToMove
  }

  predicate Adjacent(a: nat, b: nat) {
    a == b + 1 || b == a + 1
  }

  predicate InSpan(groups: seq<PawnGroup>, ranks: seq<nat>) {
    forall g | g in groups :: g.lo < g.hi <= |ranks| && g.hi - g.lo == |g.order|
  }

  /** The highest pawn of the file is an enemy pawn on rank 5, beside a pawn of the
      side to move on rank 5. */
  predicate IsVictim(groups: seq<PawnGroup>, victim: PawnGroup, ranks: seq<nat>)
    requires InSpan(groups, ranks) && victim in groups
  {
    && ranks[victim.lo] == 4
    && victim.order[|victim.order| - 1] == SideNotToMove
    && exists n :: 0 <= n < |groups| && Adjacent(victim.file, groups[n].file) && HasCapturer(groups[n], ranks)
  }

  function EpVariants(groups: seq<PawnGroup>, ranks: seq<nat>, n: nat): seq<Configuration>
    requires InSpan(groups, ranks) && n <= |groups|
  {
    if n == 0 then []
    else
      EpVariants(groups, ranks, n - 1)
      + if IsVictim(groups, groups[n - 1], ranks) then [(ranks, Some(groups[n - 1].file))] else []
  }

  /** A choice of ranks without EP, followed by its EP states. */
  function Variants(groups: seq<PawnGroup>, ranks: seq<nat>): seq<Configuration>
    requires InSpan(groups, ranks)
  {
    [(ranks, None)] + EpVariants(groups, ranks, |groups|)
  }

  // ---------------------------------------------------------------------
  // The enumeration.

  /** Ranks chosen for the first `g` groups. */
  predicate Chosen(groups: seq<PawnGroup>, g: nat, ranks: seq<nat>)
    requires ValidGroups(groups) && g <= |groups|
  {
    if g == 0 then ranks == []
    else
      var group := groups[g - 1];
      && group.lo < group.hi == |ranks|
      && Chosen(groups, g - 1, ranks[..group.lo])
      && |group.order| == group.hi - group.lo
      && DescendingRanks(ranks[group.lo..], 0, 6)
  }

  /** The part of a choice that belongs to the first groups, and to the next one. */
  lemma {:induction false} ChosenPart(groups: seq<PawnGroup>, n: nat, ranks: seq<nat>, g: nat)
    requires ValidGroups(groups) && g < n <= |groups| && Chosen(groups, n, ranks)
    ensures groups[g].lo < groups[g].hi <= |ranks| && groups[g].hi - groups[g].lo == |groups[g].order|
    ensures Chosen(groups, g, ranks[..groups[g].lo])
    ensures DescendingRanks(ranks[groups[g].lo..groups[g].hi], 0, 6)
    decreases n
  {
    if g < n - 1 {
      ChosenPart(groups, n - 1, ranks[..groups[n - 1].lo], g);
      assert ranks[..groups[n - 1].lo][..groups[g].lo] == ranks[..groups[g].lo];
      assert ranks[..groups[n - 1].lo][groups[g].lo..groups[g].hi] == ranks[groups[g].lo..groups[g].hi];
    } else {
      assert ranks[groups[g].lo..groups[g].hi] == ranks[groups[g].lo..];
    }
  }

  lemma ChosenSpans(groups: seq<PawnGroup>, ranks: seq<nat>)
    requires ValidGroups(groups) && Chosen(groups, |groups|, ranks)
    ensures InSpan(groups, ranks)
  {
    forall i | 0 <= i < |groups|
      ensures groups[i].lo < groups[i].hi <= |ranks| && groups[i].hi - groups[i].lo == |groups[i].order|
    {
      ChosenPart(groups, |groups|, ranks, i);
    }
  }

  lemma {:induction false} ChosenLength(groups: seq<PawnGroup>, g: nat, ranks: seq<nat>)
    requires ValidGroups(groups) && g < |groups| && Chosen(groups, g, ranks)
    ensures |ranks| == groups[g].lo && groups[g].hi == groups[g].lo + |groups[g].order| && |groups[g].order| > 0
  {
    ValidPrefix(groups, g + 1);
    assert groups[..g + 1][..g] == groups[..g];
  }

  /** Choosing the ranks of one more group. */
  lemma ChooseNext(groups: seq<PawnGroup>, g: nat, ranks: seq<nat>, more: seq<nat>)
    requires ValidGroups(groups) && g < |groups| && Chosen(groups, g, ranks)
    requires DescendingRanks(more, 0, 6) && |more| == |groups[g].order|
    ensures Chosen(groups, g + 1, ranks + more)
  {
    ChosenLength(groups, g, ranks);
    assert (ranks + more)[groups[g].lo..] == more && (ranks + more)[..groups[g].lo] == ranks;
  }

  lemma {:induction false} ValidPrefix(groups: seq<PawnGroup>, g: nat)
    requires ValidGroups(groups) && g <= |groups|
    ensures ValidGroups(groups[..g])
  {
    if g < |groups| {
      ValidPrefix(groups[..|groups| - 1], g);
      assert groups[..|groups| - 1][..g] == groups[..g];
    } else {
      assert groups[..g] == groups;
    }
  }

  /** All configurations extending `ranks`, by mask of group `g`, then of the next. */
  function Enumerate(groups: seq<PawnGroup>, g: nat, ranks: seq<nat>): seq<Configuration>
    requires ValidGroups(groups) && g <= |groups| && Chosen(groups, g, ranks)
    decreases |groups| - g, 65
  {
    if g == |groups| then
      (ChosenSpans(groups, ranks); Variants(groups, ranks))
    else
      EnumerateMasks(groups, g, ranks, 64)
  }

  /** The configurations whose group `g` has the ranks of one mask. */
  function EnumerateMask(groups: seq<PawnGroup>, g: nat, ranks: seq<nat>, mask: nat): seq<Configuration>
    requires ValidGroups(groups) && g < |groups| && Chosen(groups, g, ranks)
    decreases |groups| - g, 0
  {
    var more := RanksOf(mask, 0, 6);
    if |more| != |groups[g].order| then []
    else
      (RanksAreDescending(mask, 0, 6); ChooseNext(groups, g, ranks, more); Enumerate(groups, g + 1, ranks + more))
  }

  /** The part of the enumeration with masks of group `g` below `limit`. */
  function EnumerateMasks(groups: seq<PawnGroup>, g: nat, ranks: seq<nat>, limit: nat): seq<Configuration>
    requires ValidGroups(groups) && g < |groups| && Chosen(groups, g, ranks) && limit <= 64
    decreases |groups| - g, limit
  {
    if limit == 0 then []
    else EnumerateMasks(groups, g, ranks, limit - 1) + EnumerateMask(groups, g, ranks, limit - 1)
  }

  /** The configurations the map must contain. */
  ghost predicate IsConfiguration(groups: seq<PawnGroup>, c: Configuration)
    requires ValidGroups(groups)
  {
    && Chosen(groups, |groups|, c.0)
    && (ChosenSpans(groups, c.0);
        c.1.Some? ==> exists n :: 0 <= n < |groups| && groups[n].file == c.1.value && IsVictim(groups, groups[n], c.0))
  }

  lemma {:induction false} EpVariantsAre(groups: seq<PawnGroup>, ranks: seq<nat>, n: nat, c: Configuration)
    requires InSpan(groups, ranks) && n <= |groups|
    ensures c in EpVariants(groups, ranks, n) <==>
            c.0 == ranks && exists m :: 0 <= m < n && c.1 == Some(groups[m].file) && IsVictim(groups, groups[m], ranks)
  {
    if n > 0 {
      EpVariantsAre(groups, ranks, n - 1, c);
    }
  }

  lemma VariantsAre(groups: seq<PawnGroup>, ranks: seq<nat>, c: Configuration)
    requires ValidGroups(groups) && Chosen(groups, |groups|, ranks)
    ensures InSpan(groups, ranks)
    ensures c in Variants(groups, ranks) <==> c.0 == ranks && IsConfiguration(groups, c)
  {
    ChosenSpans(groups, ranks);
    EpVariantsAre(groups, ranks, |groups|, c);
    if c.0 == ranks && IsConfiguration(groups, c) && c.1.Some? {
      var n :| 0 <= n < |groups| && groups[n].file == c.1.value && IsVictim(groups, groups[n], c.0);
      assert c.1 == Some(groups[n].file);
    }
  }

  /** The ranks a configuration gives to group `g`, after those in `ranks`. */
  lemma NextRanks(groups: seq<PawnGroup>, g: nat, ranks: seq<nat>, full: seq<nat>)
    requires ValidGroups(groups) && g < |groups| && Chosen(groups, g, ranks)
    requires Chosen(groups, |groups|, full) && ranks <= full
    ensures groups[g].lo == |ranks| && groups[g].lo < groups[g].hi <= |full|
    ensures DescendingRanks(full[groups[g].lo..groups[g].hi], 0, 6)
    ensures groups[g].hi - groups[g].lo == |groups[g].order|
    ensures ranks + full[groups[g].lo..groups[g].hi] <= full
  {
    hide ValidGroups, Chosen, DescendingRanks;
    ChosenPart(groups, |groups|, full, g);
    ChosenLength(groups, g, ranks);
    assert ranks + full[groups[g].lo..groups[g].hi] == full[..groups[g].hi];
  }

  /** The enumeration contains exactly the configurations extending `ranks`. */
  lemma {:induction false} EnumerationIsExact(groups: seq<PawnGroup>, g: nat, ranks: seq<nat>, c: Configuration)
    requires ValidGroups(groups) && g <= |groups| && Chosen(groups, g, ranks)
    ensures c in Enumerate(groups, g, ranks) <==> IsConfiguration(groups, c) && ranks <= c.0
    decreases |groups| - g, 65
  {
    hide RanksOf, DescendingRanks;
    if g == |groups| {
      VariantsAre(groups, ranks, c);
      if IsConfiguration(groups, c) && ranks <= c.0 {
        SameLength(groups, ranks, c.0);
      }
    } else {
      MasksAreExact(groups, g, ranks, 64, c);
      if IsConfiguration(groups, c) && ranks <= c.0 {
        NextRanks(groups, g, ranks, c.0);
        var mask := RanksAreSurjective(c.0[groups[g].lo..groups[g].hi], 0, 6);
        PowerOfSix();
        assert FitsMask(groups, g, ranks, mask, c.0);
      }
    }
  }

  lemma PowerOfSix()
    ensures Pow2(6) == 64
  {
  }

  lemma SameLength(groups: seq<PawnGroup>, ranks: seq<nat>, full: seq<nat>)
    requires ValidGroups(groups) && Chosen(groups, |groups|, ranks) && Chosen(groups, |groups|, full) && ranks <= full
    ensures ranks == full
  {
  }

  /** The configuration's ranks start with `ranks` and the ranks of the mask. */
  predicate FitsMask(groups: seq<PawnGroup>, g: nat, ranks: seq<nat>, mask: nat, full: seq<nat>)
    requires g < |groups|
  {
    |RanksOf(mask, 0, 6)| == |groups[g].order| && ranks + RanksOf(mask, 0, 6) <= full
  }

  lemma MaskIsExact(groups: seq<PawnGroup>, g: nat, ranks: seq<nat>, mask: nat, c: Configuration)
    requires ValidGroups(groups) && g < |groups| && Chosen(groups, g, ranks)
    ensures c in EnumerateMask(groups, g, ranks, mask) <==>
              IsConfiguration(groups, c) && FitsMask(groups, g, ranks, mask, c.0)
    decreases |groups| - g, 0
  {
    hide RanksOf, DescendingRanks, Chosen;
    var more := RanksOf(mask, 0, 6);
    if |more| == |groups[g].order| {
      RanksAreDescending(mask, 0, 6);
      ChooseNext(groups, g, ranks, more);
      EnumerationIsExact(groups, g + 1, ranks + more, c);
    }
  }

  lemma {:induction false} MasksAreExact(groups: seq<PawnGroup>, g: nat, ranks: seq<nat>, limit: nat, c: Configuration)
    requires ValidGroups(groups) && g < |groups| && Chosen(groups, g, ranks) && limit <= 64
    ensures c in EnumerateMasks(groups, g, ranks, limit) <==>
            IsConfiguration(groups, c) && exists mask: nat :: mask < limit && FitsMask(groups, g, ranks, mask, c.0)
    decreases |groups| - g, limit
  {
    hide RanksOf, DescendingRanks, Chosen, EnumerateMask;
    if limit > 0 {
      MasksAreExact(groups, g, ranks, limit - 1, c);
      MaskIsExact(groups, g, ranks, limit - 1, c);
    }
  }

  // ---------------------------------------------------------------------
  // Each configuration occurs once, EP states directly after their base.

  predicate NoDuplicates(s: seq<Configuration>) {
    forall i, j | 0 <= i < j < |s| :: s[i] != s[j]
  }

  lemma DisjointParts(s: seq<Configuration>, t: seq<Configuration>)
    requires NoDuplicates(s) && NoDuplicates(t)
    requires forall c | c in s :: c !in t
    ensures NoDuplicates(s + t)
  {
    forall i, j | 0 <= i < j < |s + t| ensures (s + t)[i] != (s + t)[j] {
      if i < |s| <= j {
        assert s[i] in s && t[j - |s|] in t;
      }
    }
  }

  lemma {:induction false} FilesDiffer(groups: seq<PawnGroup>, i: nat, j: nat)
    requires ValidGroups(groups) && i < j < |groups|
    ensures groups[i].file != groups[j].file && groups[j].file < 8
  {
    ValidPrefix(groups, j + 1);
    assert groups[..j + 1][i] == groups[i];
  }

  lemma {:induction false} EpVariantsDiffer(groups: seq<PawnGroup>, ranks: seq<nat>, n: nat)
    requires ValidGroups(groups) && InSpan(groups, ranks) && n <= |groups|
    ensures NoDuplicates(EpVariants(groups, ranks, n))
  {
    hide ValidGroups, InSpan;
    if n > 0 {
      EpVariantsDiffer(groups, ranks, n - 1);
      var last := (ranks, Some(groups[n - 1].file));
      EpVariantsAre(groups, ranks, n - 1, last);
      forall m | 0 <= m < n - 1 ensures groups[m].file != groups[n - 1].file {
        FilesDiffer(groups, m, n - 1);
      }
    }
  }

  lemma VariantsDiffer(groups: seq<PawnGroup>, ranks: seq<nat>)
    requires ValidGroups(groups) && InSpan(groups, ranks)
    ensures NoDuplicates(Variants(groups, ranks))
  {
    EpVariantsDiffer(groups, ranks, |groups|);
    EpVariantsAre(groups, ranks, |groups|, (ranks, None));
  }

  lemma MasksDiffer(groups: seq<PawnGroup>, g: nat, ranks: seq<nat>, mask: nat, mask': nat, full: seq<nat>)
    requires g < |groups| && mask < 64 && mask' < 64
    requires FitsMask(groups, g, ranks, mask, full) && FitsMask(groups, g, ranks, mask', full)
    ensures mask == mask'
  {
    PowerOfSix();
    var more, more' := RanksOf(mask, 0, 6), RanksOf(mask', 0, 6);
    assert more == (ranks + more)[|ranks|..] == full[|ranks|..|ranks| + |more|];
    assert more' == (ranks + more')[|ranks|..] == full[|ranks|..|ranks| + |more'|];
    RanksAreInjective(mask, mask', 0, 6);
  }

  /** No configuration is enumerated twice. */
  lemma {:induction false} EnumerationHasNoDuplicates(groups: seq<PawnGroup>, g: nat, ranks: seq<nat>)
    requires ValidGroups(groups) && g <= |groups| && Chosen(groups, g, ranks)
    ensures NoDuplicates(Enumerate(groups, g, ranks))
    decreases |groups| - g, 65
  {
    hide RanksOf, NoDuplicates;
    if g == |groups| {
      ChosenSpans(groups, ranks);
      VariantsDiffer(groups, ranks);
    } else {
      MasksHaveNoDuplicates(groups, g, ranks, 64);
    }
  }

  lemma {:induction false} MasksHaveNoDuplicates(groups: seq<PawnGroup>, g: nat, ranks: seq<nat>, limit: nat)
    requires ValidGroups(groups) && g < |groups| && Chosen(groups, g, ranks) && limit <= 64
    ensures NoDuplicates(EnumerateMasks(groups, g, ranks, limit))
    decreases |groups| - g, limit
  {
    hide RanksOf, DescendingRanks, Chosen;
    if limit > 0 {
      MasksHaveNoDuplicates(groups, g, ranks, limit - 1);
      var more := RanksOf(limit - 1, 0, 6);
      if |more| == |groups[g].order| {
        RanksAreDescending(limit - 1, 0, 6);
        ChooseNext(groups, g, ranks, more);
        EnumerationHasNoDuplicates(groups, g + 1, ranks + more);
      }
      var below := EnumerateMasks(groups, g, ranks, limit - 1);
      forall c | c in below
        ensures c !in EnumerateMask(groups, g, ranks, limit - 1)
      {
        NewMask(groups, g, ranks, limit - 1, c);
      }
      DisjointParts(EnumerateMasks(groups, g, ranks, limit - 1), EnumerateMask(groups, g, ranks, limit - 1));
    }
  }

  lemma NewMask(groups: seq<PawnGroup>, g: nat, ranks: seq<nat>, limit: nat, c: Configuration)
    requires ValidGroups(groups) && g < |groups| && Chosen(groups, g, ranks) && limit < 64
    requires c in EnumerateMasks(groups, g, ranks, limit)
    ensures c !in EnumerateMask(groups, g, ranks, limit)
  {
    hide RanksOf, DescendingRanks, Chosen, EnumerateMask, EnumerateMasks, FitsMask;
    MasksAreExact(groups, g, ranks, limit, c);
    MaskIsExact(groups, g, ranks, limit, c);
    var mask: nat :| mask < limit && FitsMask(groups, g, ranks, mask, c.0);
    if FitsMask(groups, g, ranks, limit, c.0) {
      MasksDiffer(groups, g, ranks, mask, limit, c.0);
    }
  }

  /** EP states stand directly after the same ranks without EP or with another EP file. */
  predicate EpFollowsBase(s: seq<Configuration>) {
    forall i | 0 <= i < |s| && s[i].1.Some? :: 0 < i && s[i - 1].0 == s[i].0
  }

  lemma {:induction false} EpVariantsKeepRanks(groups: seq<PawnGroup>, ranks: seq<nat>, n: nat)
    requires InSpan(groups, ranks) && n <= |groups|
    ensures forall c | c in EpVariants(groups, ranks, n) :: c.0 == ranks
  {
    if n > 0 {
      EpVariantsKeepRanks(groups, ranks, n - 1);
    }
  }

  lemma {:induction false} EnumerationKeepsVariantsTogether(groups: seq<PawnGroup>, g: nat, ranks: seq<nat>)
    requires ValidGroups(groups) && g <= |groups| && Chosen(groups, g, ranks)
    ensures EpFollowsBase(Enumerate(groups, g, ranks))
    decreases |groups| - g, 65
  {
    if g == |groups| {
      ChosenSpans(groups, ranks);
      EpVariantsKeepRanks(groups, ranks, |groups|);
    } else {
      MasksKeepVariantsTogether(groups, g, ranks, 64);
    }
  }

  lemma {:induction false} MasksKeepVariantsTogether(groups: seq<PawnGroup>, g: nat, ranks: seq<nat>, limit: nat)
    requires ValidGroups(groups) && g < |groups| && Chosen(groups, g, ranks) && limit <= 64
    ensures EpFollowsBase(EnumerateMasks(groups, g, ranks, limit))
    decreases |groups| - g, limit
  {
    hide RanksOf, DescendingRanks, Chosen;
    if limit > 0 {
      MasksKeepVariantsTogether(groups, g, ranks, limit - 1);
      var more := RanksOf(limit - 1, 0, 6);
      if |more| == |groups[g].order| {
        RanksAreDescending(limit - 1, 0, 6);
        ChooseNext(groups, g, ranks, more);
        EnumerationKeepsVariantsTogether(groups, g + 1, ranks + more);
      }
    }
  }

  // ---------------------------------------------------------------------
  // The order of the configurations.

  lemma {:induction false} CompareExtended(a: seq<nat>, b: seq<nat>, x: seq<nat>, y: seq<nat>)
    requires |a| == |b| && CompareLists(a, b) == Less
    ensures CompareLists(a + x, b + y) == Less
  {
    assert (a + x)[1..] == a[1..] + x && (b + y)[1..] == b[1..] + y;
    if a[0] == b[0] {
      CompareExtended(a[1..], b[1..], x, y);
    }
  }

  lemma {:induction false} SamePrefix(prefix: seq<nat>, a: seq<nat>, b: seq<nat>)
    ensures CompareLists(prefix + a, prefix + b) == CompareLists(a, b)
  {
    if prefix == [] {
      assert prefix + a == a && prefix + b == b;
    } else {
      SamePrefix(prefix[1..], a, b);
      assert (prefix + a)[1..] == prefix[1..] + a && (prefix + b)[1..] == prefix[1..] + b;
    }
  }

  /** Lower ranks appended to two lists of higher ones do not change their order. */
  lemma {:induction false} AppendedLower(a: seq<nat>, b: seq<nat>, x: seq<nat>, y: seq<nat>, low: nat)
    requires CompareLists(a, b) == Less && (forall i | 0 <= i < |b| :: low < b[i])
    requires (x == [] || x == [low]) && (y == [] || y == [low])
    ensures CompareLists(a + x, b + y) == Less
  {
    assert (b + y)[0] == b[0];
    if a == [] {
      assert a + x == x;
    } else {
      assert (a + x)[1..] == a[1..] + x && (b + y)[1..] == b[1..] + y;
      if a[0] == b[0] {
        AppendedLower(a[1..], b[1..], x, y, low);
      }
    }
  }

  /** Greater masks choose ranks that come later. */
  lemma {:induction false} MasksOrderRanks(mask: nat, mask': nat, base: nat, n: nat)
    requires mask < mask' < Pow2(n)
    ensures CompareLists(RanksOf(mask, base, n), RanksOf(mask', base, n)) == Less
    decreases n
  {
    if n > 0 {
      var (high, high') := (RanksOf(mask / 2, base + 1, n - 1), RanksOf(mask' / 2, base + 1, n - 1));
      var (x, y) := (if mask % 2 == 1 then [base + 1] else [], if mask' % 2 == 1 then [base + 1] else []);
      if mask / 2 < mask' / 2 {
        MasksOrderRanks(mask / 2, mask' / 2, base + 1, n - 1);
        RanksAreDescending(mask' / 2, base + 1, n - 1);
        AppendedLower(high, high', x, y, base + 1);
      } else {
        assert mask / 2 == mask' / 2 && mask % 2 == 0 && mask' % 2 == 1;
        SamePrefix(high, x, y);
      }
    }
  }

  /** Configurations are listed by their ranks, in dictionary order. */
  predicate RanksAscend(s: seq<Configuration>) {
    forall i, j | 0 <= i < j < |s| :: s[i].0 == s[j].0 || CompareLists(s[i].0, s[j].0) == Less
  }

  lemma AscendingParts(s: seq<Configuration>, t: seq<Configuration>)
    requires RanksAscend(s) && RanksAscend(t)
    requires forall c, d | c in s && d in t :: CompareLists(c.0, d.0) == Less
    ensures RanksAscend(s + t)
  {
    hide CompareLists;
    forall i, j | 0 <= i < j < |s + t|
      ensures (s + t)[i].0 == (s + t)[j].0 || CompareLists((s + t)[i].0, (s + t)[j].0) == Less
    {
      if i < |s| <= j {
        assert s[i] in s && t[j - |s|] in t;
      }
    }
  }

  lemma {:induction false} EnumerationAscends(groups: seq<PawnGroup>, g: nat, ranks: seq<nat>)
    requires ValidGroups(groups) && g <= |groups| && Chosen(groups, g, ranks)
    ensures RanksAscend(Enumerate(groups, g, ranks))
    decreases |groups| - g, 65
  {
    hide CompareLists, ValidGroups, Chosen;
    if g == |groups| {
      ChosenSpans(groups, ranks);
      EpVariantsKeepRanks(groups, ranks, |groups|);
    } else {
      MasksAscend(groups, g, ranks, 64);
    }
  }

  lemma {:induction false} MasksAscend(groups: seq<PawnGroup>, g: nat, ranks: seq<nat>, limit: nat)
    requires ValidGroups(groups) && g < |groups| && Chosen(groups, g, ranks) && limit <= 64
    ensures RanksAscend(EnumerateMasks(groups, g, ranks, limit))
    decreases |groups| - g, limit
  {
    hide RanksOf, DescendingRanks, Chosen, CompareLists, ValidGroups, EnumerateMask;
    if limit > 0 {
      MasksAscend(groups, g, ranks, limit - 1);
      MaskAscends(groups, g, ranks, limit - 1);
      var (below, here) := (EnumerateMasks(groups, g, ranks, limit - 1), EnumerateMask(groups, g, ranks, limit - 1));
      forall c, d | c in below && d in here ensures CompareLists(c.0, d.0) == Less {
        LaterMask(groups, g, ranks, limit - 1, c, d);
      }
      AscendingParts(below, here);
    }
  }

  lemma MaskAscends(groups: seq<PawnGroup>, g: nat, ranks: seq<nat>, mask: nat)
    requires ValidGroups(groups) && g < |groups| && Chosen(groups, g, ranks)
    ensures RanksAscend(EnumerateMask(groups, g, ranks, mask))
    decreases |groups| - g, 0
  {
    hide RanksOf, DescendingRanks, Chosen, CompareLists, ValidGroups;
    var more := RanksOf(mask, 0, 6);
    if |more| == |groups[g].order| {
      RanksAreDescending(mask, 0, 6);
      ChooseNext(groups, g, ranks, more);
      EnumerationAscends(groups, g + 1, ranks + more);
    }
  }

  lemma LaterMask(groups: seq<PawnGroup>, g: nat, ranks: seq<nat>, limit: nat, c: Configuration, d: Configuration)
    requires ValidGroups(groups) && g < |groups| && Chosen(groups, g, ranks) && limit < 64
    requires c in EnumerateMasks(groups, g, ranks, limit) && d in EnumerateMask(groups, g, ranks, limit)
    ensures CompareLists(c.0, d.0) == Less
  {
    hide RanksOf, DescendingRanks, Chosen, CompareLists, ValidGroups, EnumerateMask, EnumerateMasks;
    MasksAreExact(groups, g, ranks, limit, c);
    MaskIsExact(groups, g, ranks, limit, d);
    var mask: nat :| mask < limit && FitsMask(groups, g, ranks, mask, c.0);
    PowerOfSix();
    MasksOrderRanks(mask, limit, 0, 6);
    var (a, b) := (RanksOf(mask, 0, 6), RanksOf(limit, 0, 6));
    SamePrefix(ranks, a, b);
    CompareExtended(ranks + a, ranks + b, c.0[|ranks + a|..], d.0[|ranks + b|..]);
    assert c.0 == ranks + a + c.0[|ranks + a|..] && d.0 == ranks + b + d.0[|ranks + b|..];
  }

  // ---------------------------------------------------------------------
  // Keys.

  function Pow6(n: nat): nat {
    if n == 0 then 1 else 6 * Pow6(n - 1)
  }

  predicate RanksInRange(ranks: seq<nat>) {
    forall i | 0 <= i < |ranks| :: 1 <= ranks[i] <= 6
  }

  /** A configuration whose key can be computed. */
  predicate HasKey(c: Configuration) {
    RanksInRange(c.0) && (c.1.Some? ==> c.1.value < 8)
  }

  function RankKey(ranks: seq<nat>): nat
    requires RanksInRange(ranks)
  {
    if ranks == [] then 0 else RankKey(ranks[..|ranks| - 1]) * 6 + ranks[|ranks| - 1] - 1
  }

  function Key(c: Configuration): nat
    requires HasKey(c)
  {
    RankKey(c.0) * 9 + if c.1.Some? then c.1.value + 1 else 0
  }

  lemma {:induction false} RankKeyInRange(ranks: seq<nat>)
    requires RanksInRange(ranks)
    ensures RankKey(ranks) < Pow6(|ranks|)
  {
    if ranks != [] {
      RankKeyInRange(ranks[..|ranks| - 1]);
    }
  }

  lemma KeyInRange(c: Configuration)
    requires HasKey(c)
    ensures Key(c) < 9 * Pow6(|c.0|)
  {
    RankKeyInRange(c.0);
  }

  lemma {:induction false} RankKeyIsInjective(r: seq<nat>, s: seq<nat>)
    requires RanksInRange(r) && RanksInRange(s) && |r| == |s| && RankKey(r) == RankKey(s)
    ensures r == s
  {
    if r != [] {
      RankKeyIsInjective(r[..|r| - 1], s[..|s| - 1]);
      assert r == r[..|r| - 1] + [r[|r| - 1]] && s == s[..|s| - 1] + [s[|s| - 1]];
    }
  }

  /** Configurations of equally many pawns have different keys. */
  lemma KeyIsInjective(c: Configuration, d: Configuration)
    requires HasKey(c) && HasKey(d) && |c.0| == |d.0| && Key(c) == Key(d)
    ensures c == d
  {
    RankKeyIsInjective(c.0, d.0);
  }

  // ---------------------------------------------------------------------
  // The map.

  /** Configurations a map for `n` pawns can hold. */
  predicate Storable(n: nat, c: Configuration) {
    HasKey(c) && |c.0| == n
  }

  predicate AllStorable(n: nat, s: seq<Configuration>) {
    forall i | 0 <= i < |s| :: Storable(n, s[i])
  }

  /** The last position with a key. */
  function LastAt(n: nat, s: seq<Configuration>, key: nat): Option<nat>
    requires AllStorable(n, s)
  {
    if s == [] then None
    else if Key(s[|s| - 1]) == key then Some(|s| - 1)
    else LastAt(n, s[..|s| - 1], key)
  }

  /** Without duplicates, the key of a configuration leads back to its position. */
  lemma {:induction false} LastIsOnly(n: nat, s: seq<Configuration>, c: Configuration)
    requires AllStorable(n, s) && Storable(n, c) && NoDuplicates(s)
    ensures var r := LastAt(n, s, Key(c));
            && (r.Some? <==> c in s)
            && (r.Some? ==> r.value < |s| && s[r.value] == c)
  {
    if s != [] {
      LastIsOnly(n, s[..|s| - 1], c);
      assert s == s[..|s| - 1] + [s[|s| - 1]];
      if Key(s[|s| - 1]) == Key(c) {
        KeyIsInjective(s[|s| - 1], c);
      }
    }
  }

  lemma {:induction false} ChosenInRange(groups: seq<PawnGroup>, g: nat, ranks: seq<nat>)
    requires ValidGroups(groups) && g <= |groups| && Chosen(groups, g, ranks)
    ensures RanksInRange(ranks) && |ranks| == GroupsEnd(groups[..g])
  {
    if g > 0 {
      ChosenInRange(groups, g - 1, ranks[..groups[g - 1].lo]);
      var lo := groups[g - 1].lo;
      forall i | 0 <= i < |ranks| ensures 1 <= ranks[i] <= 6 {
        assert ranks[i] == if i < lo then ranks[..lo][i] else ranks[lo..][i - lo];
      }
    }
  }

  lemma ConfigurationIsStorable(groups: seq<PawnGroup>, c: Configuration)
    requires ValidGroups(groups) && IsConfiguration(groups, c)
    ensures Storable(GroupsEnd(groups), c)
  {
    FullChoice(groups, c.0);
  }

  lemma EnumerationIsStorable(groups: seq<PawnGroup>, g: nat, ranks: seq<nat>)
    requires ValidGroups(groups) && g <= |groups| && Chosen(groups, g, ranks)
    ensures AllStorable(GroupsEnd(groups), Enumerate(groups, g, ranks))
  {
    hide Enumerate, Chosen, ValidGroups, Storable, IsConfiguration;
    var s := Enumerate(groups, g, ranks);
    forall i | 0 <= i < |s| ensures Storable(GroupsEnd(groups), s[i]) {
      EnumerationIsExact(groups, g, ranks, s[i]);
      ConfigurationIsStorable(groups, s[i]);
    }
  }

  lemma FullChoice(groups: seq<PawnGroup>, ranks: seq<nat>)
    requires ValidGroups(groups) && Chosen(groups, |groups|, ranks)
    ensures InSpan(groups, ranks) && Storable(GroupsEnd(groups), (ranks, None))
    ensures forall n | 0 <= n < |groups| :: groups[n].file < 8
  {
    ChosenSpans(groups, ranks);
    ChosenInRange(groups, |groups|, ranks);
    assert groups[..|groups|] == groups;
    forall n | 0 <= n < |groups| ensures groups[n].file < 8 {
      ValidPrefix(groups, n + 1);
      assert groups[..n + 1][n] == groups[n];
    }
  }

  method FindCapturer(group: PawnGroup, ranks: seq<nat>) returns (found: bool)
    requires group.lo <= group.hi <= |ranks| && group.hi - group.lo == |group.order|
    ensures found == HasCapturer(group, ranks)
  {
    found := false;
    var k := 0;
    while k < |group.order|
      invariant 0 <= k <= |group.order|
      invariant found == exists m :: 0 <= m < k && IsCapturer(group, ranks, m)
    {
      if ranks[group.lo + k] == 4 && group.order[|group.order| - 1 - k] == SideToMove {
        assert IsCapturer(group, ranks, k);
        found := true;
      }
      k := k + 1;
    }
  }

  method FindVictim(groups: seq<PawnGroup>, victim: PawnGroup, ranks: seq<nat>) returns (found: bool)
    requires InSpan(groups, ranks) && victim in groups
    ensures found == IsVictim(groups, victim, ranks)
  {
    if ranks[victim.lo] != 4 || victim.order[|victim.order| - 1] != SideNotToMove {
      return false;
    }
    found := false;
    var n := 0;
    while n < |groups|
      invariant 0 <= n <= |groups|
      invariant found == exists m ::
                  0 <= m < n && Adjacent(victim.file, groups[m].file) && HasCapturer(groups[m], ranks)
    {
      if Adjacent(victim.file, groups[n].file) {
        var capturer := FindCapturer(groups[n], ranks);
        found := found || capturer;
      }
      n := n + 1;
    }
  }

  class PawnMap {
    const pawns: nat
    var toIndex: array<Option<nat>>
    var fromIndex: seq<Configuration>

    /** `toIndex` records the last position of every key. */
    ghost predicate Valid()
      reads this, toIndex
    {
      && toIndex.Length == 9 * Pow6(pawns)
      && AllStorable(pawns, fromIndex)
      && forall key | 0 <= key < toIndex.Length :: toIndex[key] == LastAt(pawns, fromIndex, key)
    }

    /** Enumerates all configurations of the pawns. */
    constructor (groups: seq<PawnGroup>)
      requires ValidGroups(groups)
      ensures Valid() && fresh(toIndex)
      ensures pawns == GroupsEnd(groups)
      ensures fromIndex == Enumerate(groups, 0, [])
    {
      pawns := GroupsEnd(groups);
      toIndex := new Option<nat>[9 * Pow6(GroupsEnd(groups))](_ => None);
      fromIndex := [];
      new;
      EnumerateFrom(groups, 0, []);
    }

    method Insert(c: Configuration)
      requires Valid() && Storable(pawns, c)
      modifies this`fromIndex, toIndex
      ensures Valid() && fromIndex == old(fromIndex) + [c]
    {
      KeyInRange(c);
      toIndex[Key(c)] := Some(|fromIndex|);
      fromIndex := fromIndex + [c];
      assert fromIndex[..|fromIndex| - 1] == old(fromIndex);
    }

    /** Adds the EP state of one file, if it has a victim. */
    method InsertVictim(groups: seq<PawnGroup>, ranks: seq<nat>, n: nat)
      requires Valid() && Storable(pawns, (ranks, None)) && InSpan(groups, ranks)
      requires n < |groups| && groups[n].file < 8
      modifies this`fromIndex, toIndex
      ensures Valid()
      ensures fromIndex == old(fromIndex)
                           + if IsVictim(groups, groups[n], ranks) then [(ranks, Some(groups[n].file))] else []
    {
      hide LastAt, Valid, IsVictim;
      var victim := FindVictim(groups, groups[n], ranks);
      if victim {
        Insert((ranks, Some(groups[n].file)));
      }
    }

    method InsertVariants(groups: seq<PawnGroup>, ranks: seq<nat>)
      requires Valid() && Storable(pawns, (ranks, None)) && InSpan(groups, ranks)
      requires forall n | 0 <= n < |groups| :: groups[n].file < 8
      modifies this`fromIndex, toIndex
      ensures Valid() && fromIndex == old(fromIndex) + Variants(groups, ranks)
    {
      hide LastAt, Valid, IsVictim, Storable, InSpan;
      Insert((ranks, None));
      var n := 0;
      while n < |groups|
        invariant 0 <= n <= |groups|
        invariant Valid() && fromIndex == old(fromIndex) + ([(ranks, None)] + EpVariants(groups, ranks, n))
      {
        InsertVictim(groups, ranks, n);
        n := n + 1;
      }
    }

    /** Adds the configurations whose group `g` has the ranks of one mask. */
    method EnumerateOne(groups: seq<PawnGroup>, g: nat, ranks: seq<nat>, mask: nat)
      requires Valid() && ValidGroups(groups) && pawns == GroupsEnd(groups)
      requires g < |groups| && Chosen(groups, g, ranks)
      modifies this`fromIndex, toIndex
      ensures Valid() && fromIndex == old(fromIndex) + EnumerateMask(groups, g, ranks, mask)
      decreases |groups| - g, 0
    {
      hide LastAt, Valid, RanksOf, DescendingRanks, ValidGroups, Chosen, Enumerate;
      var extended := AppendRanks(ranks, mask);
      if |extended| - |ranks| == |groups[g].order| {
        RanksAreDescending(mask, 0, 6);
        ChooseNext(groups, g, ranks, RanksOf(mask, 0, 6));
        EnumerateFrom(groups, g + 1, extended);
      }
    }

    /** Adds all configurations extending `ranks`. */
    method EnumerateFrom(groups: seq<PawnGroup>, g: nat, ranks: seq<nat>)
      requires Valid() && ValidGroups(groups) && pawns == GroupsEnd(groups)
      requires g <= |groups| && Chosen(groups, g, ranks)
      modifies this`fromIndex, toIndex
      ensures Valid() && fromIndex == old(fromIndex) + Enumerate(groups, g, ranks)
      decreases |groups| - g, 1
    {
      hide LastAt, Valid, RanksOf, DescendingRanks, ValidGroups, Chosen, EnumerateMask, Variants;
      if g < |groups| {
        var mask := 0;
        while mask < 64
          invariant 0 <= mask <= 64 && Valid()
          invariant fromIndex == old(fromIndex) + EnumerateMasks(groups, g, ranks, mask)
        {
          EnumerateOne(groups, g, ranks, mask);
          mask := mask + 1;
        }
        return;
      }
      FullChoice(groups, ranks);
      InsertVariants(groups, ranks);
    }

    /** Exactly the configurations of the pawns are found, each at its own position. */
    method Index(ghost groups: seq<PawnGroup>, c: Configuration) returns (index: Option<nat>)
      requires Valid() && ValidGroups(groups) && fromIndex == Enumerate(groups, 0, []) && pawns == GroupsEnd(groups)
      requires Storable(pawns, c)
      ensures index.Some? <==> IsConfiguration(groups, c)
      ensures index.Some? ==> index.value < |fromIndex| && fromIndex[index.value] == c
    {
      KeyInRange(c);
      index := toIndex[Key(c)];
      EnumerationHasNoDuplicates(groups, 0, []);
      EnumerationIsExact(groups, 0, [], c);
      LastIsOnly(pawns, fromIndex, c);
    }
  }
}

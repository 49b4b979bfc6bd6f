/** The combinatorial number system, group by group, in mixed radix. */
module Combinadics {
  import opened Compaction
  import opened Wrappers

  /** C(n, k), as tabulated by row `k` and column `n`. */
  function Choose(k: nat, n: nat): nat {
    if k == 0 then 1
    else if n == 0 then 0
    else Choose(k - 1, n - 1) + Choose(k, n - 1)
  }

  ghost predicate RowIs(c: array2<nat>, k: nat)
    requires k < c.Length0
    reads c
  {
    forall n | 0 <= n < c.Length1 :: c[k, n] == Choose(k, n)
  }

  ghost predicate RowIsClear(c: array2<nat>, k: nat)
    requires k < c.Length0
    reads c
  {
    forall n | 0 <= n < c.Length1 :: c[k, n] == 0
  }

  lemma NextChoose(k: nat, n: nat)
    requires k > 0 && n > 0
    ensures Choose(k, n) == Choose(k - 1, n - 1) + Choose(k, n - 1)
  {
  }

  method FillRow(c: array2<nat>, k: nat)
    requires 0 < k < c.Length0 && RowIs(c, k - 1) && RowIsClear(c, k)
    modifies c
    ensures RowIs(c, k)
    ensures forall j: nat | j < c.Length0 && j != k && old(RowIs(c, j)) :: RowIs(c, j)
    ensures forall j: nat | j < c.Length0 && j != k && old(RowIsClear(c, j)) :: RowIsClear(c, j)
  {
    hide Choose;
    SmallChooseIsZero(k);
    for n := if k < c.Length1 then k else c.Length1 to c.Length1
      invariant forall m | 0 <= m < n :: c[k, m] == Choose(k, m)
      invariant forall m | n <= m < c.Length1 :: c[k, m] == 0
      invariant forall j, m | 0 <= j < c.Length0 && j != k && 0 <= m < c.Length1 :: c[j, m] == old(c[j, m])
    {
      assert c[k - 1, n - 1] == Choose(k - 1, n - 1);
      NextChoose(k, n);
      c[k, n] := c[k - 1, n - 1] + c[k, n - 1];
    }
  }

  /** Fills the table row by row with Pascal's rule. */
  method BuildBinomials(maxK: nat, maxN: nat) returns (c: array2<nat>)
    ensures fresh(c) && c.Length0 == maxK + 1 && c.Length1 == maxN + 1
    ensures forall k, n | 0 <= k <= maxK && 0 <= n <= maxN :: c[k, n] == Choose(k, n)
  {
    c := new nat[maxK + 1, maxN + 1]((_, _) => 0);
    for n := 0 to maxN + 1
      invariant forall m | 0 <= m < n :: c[0, m] == 1
      invariant forall k, m | 0 < k <= maxK && 0 <= m <= maxN :: c[k, m] == 0
    {
      c[0, n] := 1;
    }
    for k: nat := 1 to maxK + 1
      invariant forall j: nat | j < k :: RowIs(c, j)
      invariant forall j: nat | k <= j <= maxK :: RowIsClear(c, j)
    {
      assert RowIs(c, k - 1) && RowIsClear(c, k);
      FillRow(c, k);
    }
    forall k, n | 0 <= k <= maxK && 0 <= n <= maxN ensures c[k, n] == Choose(k, n) {
      assert RowIs(c, k);
    }
  }

  lemma {:induction false} SmallChooseIsZero(k: nat)
    ensures forall n: nat | n < k :: Choose(k, n) == 0
    ensures Choose(k, k) == 1
  {
    if k > 0 {
      SmallChooseIsZero(k - 1);
      ZeroBelow(k, k - 1);
    }
  }

  lemma {:induction false} ZeroBelow(k: nat, n: nat)
    requires n < k
    ensures forall m: nat | m <= n :: Choose(k, m) == 0
  {
    if n > 0 {
      ZeroBelow(k, n - 1);
      ZeroBelow(k - 1, n - 1);
    }
  }

  lemma {:induction false} ChooseIsMonotone(k: nat, m: nat, n: nat)
    requires m <= n
    ensures Choose(k, m) <= Choose(k, n)
  {
    if m < n {
      ChooseIsMonotone(k, m, n - 1);
    }
  }

  // ---------------------------------------------------------------------
  // One group: strictly decreasing numbers.

  function GroupIndex(c: seq<nat>): nat {
    if c == [] then 0 else Choose(|c|, c[0]) + GroupIndex(c[1..])
  }

  /** The largest number below `n` whose binomial does not exceed `x`. */
  function Digit(k: nat, n: nat, x: nat): (m: nat)
    requires k > 0 && x < Choose(k, n)
    ensures m < n && Choose(k, m) <= x < Choose(k, m + 1)
  {
    if Choose(k, n - 1) <= x then n - 1 else Digit(k, n - 1, x)
  }

  function GroupDecode(k: nat, n: nat, x: nat): (c: seq<nat>)
    requires x < Choose(k, n)
    ensures |c| == k
  {
    if k == 0 then []
    else
      var m := Digit(k, n, x);
      [m] + GroupDecode(k - 1, m, x - Choose(k, m))
  }

  predicate GroupDigits(c: seq<nat>, n: nat) {
    Decreasing(c, 0, |c|) && Below(c, n)
  }

  lemma GroupTail(c: seq<nat>, n: nat)
    requires GroupDigits(c, n) && c != []
    ensures GroupDigits(c[1..], c[0])
  {
  }

  lemma {:induction false} GroupIndexInRange(c: seq<nat>, n: nat)
    requires GroupDigits(c, n)
    ensures GroupIndex(c) < Choose(|c|, n)
  {
    if c != [] {
      GroupTail(c, n);
      GroupIndexInRange(c[1..], c[0]);
      assert Choose(|c|, c[0] + 1) == Choose(|c| - 1, c[0]) + Choose(|c|, c[0]);
      ChooseIsMonotone(|c|, c[0] + 1, n);
    }
  }

  /** Decoding gives decreasing digits whose index is the number decoded. */
  lemma {:induction false} GroupIndexDecode(k: nat, n: nat, x: nat)
    requires x < Choose(k, n)
    ensures GroupDigits(GroupDecode(k, n, x), n)
    ensures GroupIndex(GroupDecode(k, n, x)) == x
  {
    if k > 0 {
      var m := Digit(k, n, x);
      GroupIndexDecode(k - 1, m, x - Choose(k, m));
      var rest := GroupDecode(k - 1, m, x - Choose(k, m));
      assert GroupDecode(k, n, x)[1..] == rest;
    }
  }

  /** Groups are numbered in dictionary order. */
  lemma {:induction false} GroupIndexOrders(c: seq<nat>, d: seq<nat>, n: nat)
    requires GroupDigits(c, n) && GroupDigits(d, n) && |c| == |d|
    ensures CompareNat(GroupIndex(c), GroupIndex(d)) == CompareLists(c, d)
  {
    if c != [] {
      GroupTail(c, n);
      GroupTail(d, n);
      if c[0] == d[0] {
        GroupIndexOrders(c[1..], d[1..], c[0]);
      } else if c[0] < d[0] {
        LowerFirstDigit(c, d, n);
      } else {
        LowerFirstDigit(d, c, n);
      }
    }
  }

  lemma LowerFirstDigit(c: seq<nat>, d: seq<nat>, n: nat)
    requires GroupDigits(c, n) && GroupDigits(d, n) && |c| == |d| > 0 && c[0] < d[0]
    ensures GroupIndex(c) < GroupIndex(d)
  {
    GroupTail(c, n);
    GroupIndexInRange(c[1..], c[0]);
    NextChoose(|c|, c[0] + 1);
    ChooseIsMonotone(|c|, c[0] + 1, d[0]);
  }

  lemma FirstDigit(c: seq<nat>, n: nat)
    requires GroupDigits(c, n) && c != [] && GroupIndex(c) < Choose(|c|, n)
    requires GroupIndex(c[1..]) < Choose(|c| - 1, c[0])
    ensures Digit(|c|, n, GroupIndex(c)) == c[0]
  {
    hide Choose, Digit, Compaction.Below, Compaction.Decreasing;
    assert GroupIndex(c) == Choose(|c|, c[0]) + GroupIndex(c[1..]);
    NextChoose(|c|, c[0] + 1);
    DigitIsUnique(|c|, n, GroupIndex(c), c[0]);
  }

  /** Decoding the index of decreasing digits gives them back. */
  lemma {:induction false} GroupDecodeIndex(c: seq<nat>, n: nat)
    requires GroupDigits(c, n)
    ensures GroupIndex(c) < Choose(|c|, n)
    ensures GroupDecode(|c|, n, GroupIndex(c)) == c
  {
    hide Choose, Digit;
    GroupIndexInRange(c, n);
    if c != [] {
      GroupTail(c, n);
      GroupIndexInRange(c[1..], c[0]);
      FirstDigit(c, n);
      GroupDecodeIndex(c[1..], c[0]);
    }
  }

  lemma DigitIsUnique(k: nat, n: nat, x: nat, m: nat)
    requires k > 0 && x < Choose(k, n) && Choose(k, m) <= x < Choose(k, m + 1)
    ensures Digit(k, n, x) == m
  {
    var d := Digit(k, n, x);
    if d < m {
      ChooseIsMonotone(k, d + 1, m);
    } else if m < d {
      ChooseIsMonotone(k, m + 1, d);
    }
  }

  // ---------------------------------------------------------------------
  // Several groups.

  /** Positions `lo..hi` of the buffer, numbers below `squares`. */
  datatype Group = Group(lo: nat, hi: nat, squares: nat) {
    function Size(): nat
      requires lo <= hi
    {
      hi - lo
    }

    function Combinations(): nat
      requires lo <= hi
    {
      Choose(Size(), squares)
    }
  }

  /** Groups follow one another from `start`. */
  predicate Consecutive(groups: seq<Group>, start: nat) {
    if groups == [] then true
    else
      var n := |groups| - 1;
      && Consecutive(groups[..n], start)
      && groups[n].lo == End(groups[..n], start) && groups[n].lo <= groups[n].hi
  }

  function End(groups: seq<Group>, start: nat): nat {
    if groups == [] then start else groups[|groups| - 1].hi
  }

  function Product(groups: seq<Group>): nat
    requires forall g | g in groups :: g.lo <= g.hi
  {
    if groups == [] then 1 else Product(groups[..|groups| - 1]) * groups[|groups| - 1].Combinations()
  }

  lemma {:induction false} ConsecutiveFacts(groups: seq<Group>, start: nat)
    requires Consecutive(groups, start)
    ensures start <= End(groups, start)
    ensures forall g | g in groups :: start <= g.lo <= g.hi <= End(groups, start)
  {
    if groups != [] {
      var n := |groups| - 1;
      ConsecutiveFacts(groups[..n], start);
      assert groups == groups[..n] + [groups[n]];
    }
  }

  /** The index of a buffer, continuing from a leading number `first`. */
  function MixedIndex(first: nat, groups: seq<Group>, v: seq<nat>): nat
    requires forall g | g in groups :: g.lo <= g.hi <= |v|
  {
    if groups == [] then first
    else
      var g := groups[|groups| - 1];
      Scaled(MixedIndex(first, groups[..|groups| - 1], v), g.Combinations(), GroupIndex(v[g.lo..g.hi]))
  }

  predicate MixedDigits(groups: seq<Group>, v: seq<nat>)
    requires forall g | g in groups :: g.lo <= g.hi <= |v|
  {
    forall g | g in groups :: GroupDigits(v[g.lo..g.hi], g.squares)
  }

  predicate Decodable(groups: seq<Group>) {
    forall g | g in groups :: g.lo <= g.hi && g.Combinations() > 0
  }

  /** The numbers of all groups, from the last group up, and what is left over. */
  function MixedDecode(groups: seq<Group>, x: nat): (r: (nat, seq<nat>))
    requires Decodable(groups)
  {
    if groups == [] then (x, [])
    else
      var n := |groups| - 1;
      var g := groups[n];
      var (first, head) := MixedDecode(groups[..n], Quotient(x, g.Combinations()));
      (first, head + GroupDecode(g.Size(), g.squares, Remainder(x, g.Combinations())))
  }

  lemma MultiplesAreApart(a: nat, b: nat, c: nat)
    requires a < b
    ensures a * c + c <= b * c
  {
    var rest := b - a - 1;
    assert b * c == (a + 1 + rest) * c == a * c + c + rest * c;
  }

  lemma DivisionIsUnique(c: nat, q: nat, r: nat, d: nat, m: nat)
    requires r < c && m < c && q * c + r == d * c + m
    ensures q == d && r == m
  {
    if q < d {
      MultiplesAreApart(q, d, c);
    } else if d < q {
      MultiplesAreApart(d, q, c);
    }
  }

  lemma DivideBack(q: nat, c: nat, r: nat)
    requires r < c
    ensures (q * c + r) / c == q && (q * c + r) % c == r
  {
    var x := q * c + r;
    DivisionIsUnique(c, q, r, x / c, x % c);
  }

  /** Splitting a number into quotient and remainder, and back. */
  function Quotient(x: nat, c: nat): nat
    requires c > 0
  {
    x / c
  }

  function Remainder(x: nat, c: nat): (r: nat)
    requires c > 0
    ensures r < c
  {
    x % c
  }

  function Scaled(q: nat, c: nat, r: nat): nat { q * c + r }

  lemma ScaledOrders(q: nat, q': nat, c: nat, r: nat, r': nat)
    requires r < c && r' < c
    ensures CompareNat(Scaled(q, c, r), Scaled(q', c, r')) == CompareNat(q, q').Then(CompareNat(r, r'))
  {
    if q < q' {
      MultiplesAreApart(q, q', c);
    } else if q' < q {
      MultiplesAreApart(q', q, c);
    }
  }

  /** Two buffers group by group. */
  function CompareGroups(groups: seq<Group>, v: seq<nat>, w: seq<nat>): Ordering
    requires forall g | g in groups :: g.lo <= g.hi <= |v| && g.hi <= |w|
  {
    if groups == [] then Equal
    else
      var g := groups[|groups| - 1];
      CompareGroups(groups[..|groups| - 1], v, w).Then(CompareLists(v[g.lo..g.hi], w[g.lo..g.hi]))
  }

  /** Buffers are numbered by their leading numbers, then by their groups from the first
      to the last, each in dictionary order. */
  lemma {:induction false} MixedIndexOrders(first: nat, first': nat, groups: seq<Group>, v: seq<nat>, w: seq<nat>)
    requires forall g | g in groups :: g.lo <= g.hi <= |v| && g.hi <= |w|
    requires MixedDigits(groups, v) && MixedDigits(groups, w)
    ensures CompareNat(MixedIndex(first, groups, v), MixedIndex(first', groups, w))
            == CompareNat(first, first').Then(CompareGroups(groups, v, w))
  {
    hide GroupDigits, Choose, GroupIndex, CompareLists;
    if groups != [] {
      var (n, g) := (|groups| - 1, groups[|groups| - 1]);
      assert g in groups;
      MixedIndexOrders(first, first', groups[..n], v, w);
      GroupIndexInRange(v[g.lo..g.hi], g.squares);
      GroupIndexInRange(w[g.lo..g.hi], g.squares);
      GroupIndexOrders(v[g.lo..g.hi], w[g.lo..g.hi], g.squares);
      ScaledOrders(MixedIndex(first, groups[..n], v), MixedIndex(first', groups[..n], w), g.Combinations(),
                   GroupIndex(v[g.lo..g.hi]), GroupIndex(w[g.lo..g.hi]));
    }
  }

  lemma SplitScaled(q: nat, c: nat, r: nat)
    requires r < c
    ensures Quotient(Scaled(q, c, r), c) == q && Remainder(Scaled(q, c, r), c) == r
  {
    DivideBack(q, c, r);
  }

  lemma ScaledSplit(x: nat, c: nat)
    requires c > 0
    ensures Scaled(Quotient(x, c), c, Remainder(x, c)) == x
  {
  }

  /** Decoding a buffer's index gives its numbers back. */
  lemma {:induction false} MixedDecodeIndex(first: nat, groups: seq<Group>, v: seq<nat>, start: nat)
    requires Consecutive(groups, start) && End(groups, start) <= |v|
    requires forall g | g in groups :: g.lo <= g.hi <= |v|
    requires MixedDigits(groups, v)
    ensures start <= End(groups, start) && Decodable(groups)
    ensures MixedDecode(groups, MixedIndex(first, groups, v)) == (first, v[start..End(groups, start)])
  {
    hide Quotient, Remainder, Scaled, Choose, GroupIndex, GroupDecode, GroupDigits, Compaction.Below;
    hide Compaction.Decreasing;
    ConsecutiveFacts(groups, start);
    if groups == [] {
      assert v[start..start] == [];
    } else {
      var n := |groups| - 1;
      var g := groups[n];
      assert groups == groups[..n] + [g];
      ConsecutiveFacts(groups[..n], start);
      var c := v[g.lo..g.hi];
      GroupDecodeIndex(c, g.squares);
      MixedDecodeIndex(first, groups[..n], v, start);
      SplitScaled(MixedIndex(first, groups[..n], v), g.Combinations(), GroupIndex(c));
      assert v[start..g.hi] == v[start..g.lo] + c;
    }
  }

  /** Decoded numbers are digits of their groups, and their index is the number. */
  lemma {:induction false} MixedIndexDecode(groups: seq<Group>, x: nat, start: nat, before: seq<nat>)
    requires Consecutive(groups, start) && Decodable(groups) && |before| == start
    ensures var (first, digits) := MixedDecode(groups, x);
            && start + |digits| == End(groups, start)
            && (forall g | g in groups :: g.lo <= g.hi <= |before + digits|)
            && MixedDigits(groups, before + digits)
            && MixedIndex(first, groups, before + digits) == x
  {
    hide Quotient, Remainder, Scaled, Choose, GroupIndex, GroupDecode, GroupDigits, Compaction.Below;
    hide Compaction.Decreasing;
    if groups != [] {
      var n := |groups| - 1;
      var g := groups[n];
      assert groups == groups[..n] + [g];
      ConsecutiveFacts(groups, start);
      ConsecutiveFacts(groups[..n], start);
      MixedIndexDecode(groups[..n], Quotient(x, g.Combinations()), start, before);
      var (first, head) := MixedDecode(groups[..n], Quotient(x, g.Combinations()));
      var c := GroupDecode(g.Size(), g.squares, Remainder(x, g.Combinations()));
      GroupIndexDecode(g.Size(), g.squares, Remainder(x, g.Combinations()));
      ScaledSplit(x, g.Combinations());
      var v := before + (head + c);
      assert v == (before + head) + c && v[g.lo..g.hi] == c;
      PrefixDigits(first, groups[..n], before + head, c, start);
    }
  }

  /** Numbers after the last group do not matter. */
  lemma {:induction false} PrefixDigits(first: nat, groups: seq<Group>, v: seq<nat>, w: seq<nat>, start: nat)
    requires Consecutive(groups, start) && End(groups, start) <= |v|
    requires forall g | g in groups :: g.lo <= g.hi <= |v|
    ensures forall g | g in groups :: g.lo <= g.hi <= |v + w|
    ensures MixedDigits(groups, v + w) <==> MixedDigits(groups, v)
    ensures MixedIndex(first, groups, v + w) == MixedIndex(first, groups, v)
  {
    forall g | g in groups ensures (v + w)[g.lo..g.hi] == v[g.lo..g.hi] {
    }
    if groups != [] {
      var n := |groups| - 1;
      ConsecutiveFacts(groups[..n], start);
      assert groups[n] in groups;
      PrefixDigits(first, groups[..n], v, w, start);
    }
  }

  /** The index stays below the leading range times the combinations. */
  lemma {:induction false} MixedIndexInRange(first: nat, limit: nat, groups: seq<Group>, v: seq<nat>)
    requires first < limit
    requires forall g | g in groups :: g.lo <= g.hi <= |v|
    requires MixedDigits(groups, v)
    ensures MixedIndex(first, groups, v) < limit * Product(groups)
  {
    hide Quotient, Remainder, Scaled;
    if groups != [] {
      var n := |groups| - 1;
      var g := groups[n];
      MixedIndexInRange(first, limit, groups[..n], v);
      GroupIndexInRange(v[g.lo..g.hi], g.squares);
      ScaledInRange(MixedIndex(first, groups[..n], v), limit, Product(groups[..n]), g.Combinations(),
                    GroupIndex(v[g.lo..g.hi]));
    }
  }

  lemma ScaledInRange(i: nat, limit: nat, p: nat, c: nat, r: nat)
    requires i < limit * p && r < c
    ensures Scaled(i, c, r) < limit * (p * c)
  {
    MultiplesAreApart(i, limit * p, c);
    assert limit * p * c == limit * (p * c);
  }

  lemma QuotientInRange(x: nat, limit: nat, p: nat, c: nat)
    requires c > 0 && x < limit * (p * c)
    ensures Quotient(x, c) < limit * p
  {
    var q := Quotient(x, c);
    assert q * c <= x;
    assert limit * p * c == limit * (p * c);
    if limit * p < q {
      MultiplesAreApart(limit * p, q, c);
    }
  }

  /** Below the range, the number left over is below the leading range. */
  lemma {:induction false} LeftoverInRange(groups: seq<Group>, x: nat, limit: nat)
    requires Decodable(groups) && x < limit * Product(groups)
    ensures MixedDecode(groups, x).0 < limit
  {
    hide Quotient, Remainder, Scaled;
    if groups != [] {
      var n := |groups| - 1;
      QuotientInRange(x, limit, Product(groups[..n]), groups[n].Combinations());
      LeftoverInRange(groups[..n], Quotient(x, groups[n].Combinations()), limit);
    }
  }

  // ---------------------------------------------------------------------
  // The encoding and decoding loops.

  ghost predicate IsTable(c: array2<nat>, maxK: nat, maxN: nat)
    reads c
  {
    && c.Length0 > maxK && c.Length1 > maxN
    && forall k, n | 0 <= k <= maxK && 0 <= n <= maxN :: c[k, n] == Choose(k, n)
  }

  ghost predicate Fits(groups: seq<Group>, c: array2<nat>)
    reads c
  {
    forall g | g in groups :: g.lo <= g.hi && IsTable(c, g.Size(), g.squares)
  }

  /** One group, from its last number up. */
  method EncodeGroup(c: array2<nat>, g: Group, v: array<nat>) returns (index: nat)
    requires g.lo <= g.hi <= v.Length && IsTable(c, g.Size(), g.squares)
    requires GroupDigits(v[g.lo..g.hi], g.squares)
    ensures index == GroupIndex(v[g.lo..g.hi])
  {
    index := 0;
    var i := g.hi;
    for k := 1 to g.hi - g.lo + 1
      invariant i == g.hi - (k - 1)
      invariant index == GroupIndex(v[i..g.hi])
    {
      i := i - 1;
      ghost var rest := v[i..g.hi];
      assert rest[1..] == v[i + 1..g.hi] && |rest| == k;
      assert v[i] == v[g.lo..g.hi][i - g.lo];
      if k == 1 {
        ChooseOne(v[i]);
        index := index + v[i];
      } else {
        index := index + c[k, v[i]];
      }
    }
  }

  lemma {:induction false} ChooseOne(n: nat)
    ensures Choose(1, n) == n
  {
    if n > 0 {
      ChooseOne(n - 1);
    }
  }

  /** The index of the numbers in the buffer, after a leading number. */
  method CpidxToIndex(c: array2<nat>, groups: seq<Group>, v: array<nat>, first: nat) returns (index: nat)
    requires Fits(groups, c)
    requires forall g | g in groups :: g.lo <= g.hi <= v.Length
    requires MixedDigits(groups, v[..])
    ensures index == MixedIndex(first, groups, v[..])
  {
    index := first;
    for n := 0 to |groups|
      invariant forall g | g in groups[..n] :: g.lo <= g.hi <= v.Length
      invariant index == MixedIndex(first, groups[..n], v[..])
    {
      var g := groups[n];
      assert groups[..n + 1][..n] == groups[..n];
      assert v[..][g.lo..g.hi] == v[g.lo..g.hi];
      index := index * c[g.hi - g.lo, g.squares];
      var x := EncodeGroup(c, g, v);
      index := index + x;
    }
    assert groups[..|groups|] == groups;
  }

  /** Where a key is, or would be inserted, in a sorted row. */
  datatype Search = Found(at: nat) | Absent(at: nat)

  method BinarySearch(c: array2<nat>, k: nat, n: nat, key: nat) returns (r: Search)
    requires IsTable(c, k, n)
    ensures r.at <= n
    ensures r.Found? ==> r.at < n && Choose(k, r.at) == key
    ensures r.Absent? ==>
      && (r.at > 0 ==> Choose(k, r.at - 1) < key)
      && (r.at < n ==> Choose(k, r.at) > key)
  {
    var lo, hi := 0, n;
    while lo < hi
      invariant 0 <= lo <= hi <= n
      invariant lo > 0 ==> Choose(k, lo - 1) < key
      invariant hi < n ==> Choose(k, hi) > key
    {
      var mid := (lo + hi) / 2;
      if c[k, mid] == key {
        return Found(mid);
      } else if c[k, mid] < key {
        lo := mid + 1;
      } else {
        hi := mid;
      }
    }
    r := Absent(lo);
  }

  /** The search for `x + 1` ends just above the digit of `x`. */
  lemma SearchFindsDigit(k: nat, n: nat, x: nat, r: Search)
    requires k > 0 && x < Choose(k, n) && r.at <= n
    requires r.Found? ==> Choose(k, r.at) == x + 1
    requires r.Absent? ==> (r.at > 0 ==> Choose(k, r.at - 1) < x + 1) && (r.at < n ==> Choose(k, r.at) > x + 1)
    ensures r.at > 0 && r.at - 1 == Digit(k, n, x)
  {
    var d := Digit(k, n, x);
    if r.at <= d {
      ChooseIsMonotone(k, r.at, d);
    } else if r.at > d + 1 {
      ChooseIsMonotone(k, d + 1, r.at - 1);
      if r.Found? {
        ChooseGrows(k, d + 1, r.at);
      }
    }
  }

  /** Positive binomials of a row increase strictly. */
  lemma {:induction false} ChooseGrows(k: nat, m: nat, n: nat)
    requires k > 0 && m < n && Choose(k, m) > 0
    ensures Choose(k, m) < Choose(k, n)
  {
    ChooseIsMonotone(k, m, n - 1);
    ChoosePositive(k, n - 1);
  }

  lemma {:induction false} ChoosePositive(k: nat, n: nat)
    requires k > 0 && Choose(k, n) > 0
    ensures Choose(k - 1, n) > 0
  {
    if k > 1 && n > 0 {
      if Choose(k - 1, n - 1) > 0 {
        ChoosePositive(k - 1, n - 1);
      } else {
        ChoosePositive(k, n - 1);
      }
    }
  }

  /** The leading number of a group of `k` below `n` with index `x`. */
  method NextDigit(c: array2<nat>, k: nat, n: nat, x: nat) returns (m: nat)
    requires k > 0 && x < Choose(k, n) && IsTable(c, k, n)
    ensures m == Digit(k, n, x)
  {
    if k == 1 {
      ChooseOne(x);
      ChooseOne(x + 1);
      DigitIsUnique(1, n, x, x);
      return x;
    }
    var r := BinarySearch(c, k, n, x + 1);
    SearchFindsDigit(k, n, x, r);
    m := r.at - 1;
  }

  /** The digit at one place of a group, read off the table of binomials. */
  method DigitAt(c: array2<nat>, g: Group, k: nat, n: nat, x: nat) returns (m: nat, rest: nat)
    requires g.lo <= g.hi && IsTable(c, g.Size(), g.squares)
    requires 0 < k <= g.Size() && n <= g.squares && x < Choose(k, n)
    ensures m < n && rest < Choose(k - 1, m)
    ensures GroupDecode(k, n, x)[0] == m && GroupDecode(k, n, x)[1..] == GroupDecode(k - 1, m, rest)
  {
    m := NextDigit(c, k, n, x);
    GroupDecodeUnfolds(k, n, x);
    rest := x - c[k, m];
  }

  /** One group of the decoder: the greedy digits, found by binary search. */
  method DecodeGroup(c: array2<nat>, g: Group, v: array<nat>, x0: nat)
    requires g.lo <= g.hi <= v.Length && IsTable(c, g.Size(), g.squares) && x0 < g.Combinations()
    modifies v
    ensures v[..g.lo] == old(v[..g.lo]) && v[g.hi..] == old(v[g.hi..])
    ensures v[g.lo..g.hi] == GroupDecode(g.Size(), g.squares, x0)
  {
    hide Choose, Digit, GroupDecode, IsTable;
    var x: nat, n: nat, k: nat := x0, g.squares, g.hi - g.lo;
    ghost var all := GroupDecode(k, n, x);
    while k > 0
      invariant 0 <= k <= g.Size() && n <= g.squares && x < Choose(k, n) && IsTable(c, g.Size(), g.squares)
      invariant forall l | 0 <= l < g.lo || g.hi <= l < v.Length :: v[l] == old(v[l])
      invariant forall l | g.lo <= l < g.hi - k :: v[l] == all[l - g.lo]
      invariant GroupDecode(k, n, x) == all[g.Size() - k..]
    {
      var m, rest := DigitAt(c, g, k, n, x);
      assert all[g.Size() - k..][0] == all[g.Size() - k];
      assert all[g.Size() - k..][1..] == all[g.Size() - (k - 1)..];
      v[g.hi - k] := m;
      n, x, k := m, rest, k - 1;
    }
  }

  lemma GroupDecodeUnfolds(k: nat, n: nat, x: nat)
    requires k > 0 && x < Choose(k, n)
    ensures var m := Digit(k, n, x);
            && m < n && Choose(k, m) <= x && x - Choose(k, m) < Choose(k - 1, m)
            && GroupDecode(k, n, x)[0] == m
            && GroupDecode(k, n, x)[1..] == GroupDecode(k - 1, m, x - Choose(k, m))
  {
  }

  /** The first groups of a decoding are the decoding of the quotient. */
  lemma MixedDecodeUnfolds(groups: seq<Group>, x: nat, start: nat)
    requires groups != [] && Decodable(groups) && Consecutive(groups, start)
    ensures var n := |groups| - 1;
            var g := groups[n];
            var (first, digits) := MixedDecode(groups, x);
            && Decodable(groups[..n]) && start <= g.lo
            && start + |digits| == g.hi
            && MixedDecode(groups[..n], Quotient(x, g.Combinations())) == (first, digits[..g.lo - start])
            && digits[g.lo - start..] == GroupDecode(g.Size(), g.squares, Remainder(x, g.Combinations()))
  {
    hide Quotient, Remainder, Choose, GroupDecode;
    var n := |groups| - 1;
    var g := groups[n];
    assert groups == groups[..n] + [g];
    MixedIndexDecode(groups[..n], Quotient(x, g.Combinations()), start, seq(start, _ => 0));
    ConsecutiveFacts(groups, start);
    ConsecutiveFacts(groups[..n], start);
  }

  /** What remains to be decoded is the head of the whole decoding. */
  ghost predicate Decoding(groups: seq<Group>, start: nat, first: nat, all: (nat, seq<nat>)) {
    && Consecutive(groups, start) && Decodable(groups)
    && start <= End(groups, start) <= start + |all.1|
    && MixedDecode(groups, first) == (all.0, all.1[..End(groups, start) - start])
  }

  lemma DecodingStarts(groups: seq<Group>, start: nat, x: nat)
    requires Consecutive(groups, start) && Decodable(groups)
    ensures Decoding(groups, start, x, MixedDecode(groups, x))
    ensures start + |MixedDecode(groups, x).1| == End(groups, start)
  {
    MixedIndexDecode(groups, x, start, seq(start, _ => 0));
    ConsecutiveFacts(groups, start);
    var all := MixedDecode(groups, x);
    assert all.1[..|all.1|] == all.1;
  }

  /** Decodes the last of the remaining groups. */
  method DecodeLast(c: array2<nat>, groups: seq<Group>, v: array<nat>, first: nat, ghost start: nat,
                    ghost all: (nat, seq<nat>))
    returns (rest: nat)
    requires groups != [] && Fits(groups, c) && Decoding(groups, start, first, all) && start + |all.1| <= v.Length
    requires forall l | End(groups, start) <= l < start + |all.1| :: v[l] == all.1[l - start]
    modifies v
    ensures Decoding(groups[..|groups| - 1], start, rest, all)
    ensures forall l | 0 <= l < start || start + |all.1| <= l < v.Length :: v[l] == old(v[l])
    ensures forall l | End(groups[..|groups| - 1], start) <= l < start + |all.1| :: v[l] == all.1[l - start]
  {
    var n := |groups| - 1;
    var g := groups[n];
    MixedDecodeUnfolds(groups, first, start);
    ConsecutiveFacts(groups[..n], start);
    assert all.1[..End(groups, start) - start][..g.lo - start] == all.1[..g.lo - start];
    DecodeOne(c, g, v, first, all.1, start, start + |all.1|);
    rest := Quotient(first, c[g.hi - g.lo, g.squares]);
  }

  /** The numbers of an index, last group first; returns the leading number. */
  method IndexToCpidx(c: array2<nat>, groups: seq<Group>, v: array<nat>, index: nat, ghost start: nat)
    returns (first: nat)
    requires Fits(groups, c) && Decodable(groups) && Consecutive(groups, start) && End(groups, start) <= v.Length
    modifies v
    ensures start <= End(groups, start)
    ensures v[..start] == old(v[..start]) && v[End(groups, start)..] == old(v[End(groups, start)..])
    ensures (first, v[start..End(groups, start)]) == MixedDecode(groups, index)
  {
    hide MixedDecode, Choose, GroupDecode, IsTable, Decodable, Consecutive;
    first := index;
    var n := |groups|;
    ghost var all := MixedDecode(groups, index);
    DecodingStarts(groups, start, index);
    assert groups[..n] == groups;
    while n > 0
      invariant 0 <= n <= |groups| && Fits(groups[..n], c) && Decoding(groups[..n], start, first, all)
      invariant forall l | 0 <= l < start || start + |all.1| <= l < v.Length :: v[l] == old(v[l])
      invariant forall l | End(groups[..n], start) <= l < start + |all.1| :: v[l] == all.1[l - start]
    {
      assert groups[..n][..n - 1] == groups[..n - 1];
      first := DecodeLast(c, groups[..n], v, first, start, all);
      n := n - 1;
    }
    NothingLeft(groups[..n], first, all);
    assert v[start..End(groups, start)] == all.1;
  }

  lemma NothingLeft(groups: seq<Group>, first: nat, all: (nat, seq<nat>))
    requires groups == [] && MixedDecode(groups, first) == (all.0, [])
    ensures first == all.0
  {
  }

  /** Writes the numbers of one group of a decoding into place. */
  method DecodeOne(c: array2<nat>, g: Group, v: array<nat>, x: nat, ghost digits: seq<nat>, ghost start: nat,
                   ghost end: nat)
    requires start <= g.lo <= g.hi <= end <= v.Length && |digits| == end - start
    requires IsTable(c, g.Size(), g.squares) && g.Combinations() > 0
    requires digits[g.lo - start..g.hi - start] == GroupDecode(g.Size(), g.squares, Remainder(x, g.Combinations()))
    requires forall l | g.hi <= l < end :: v[l] == digits[l - start]
    modifies v
    ensures forall l | 0 <= l < start || end <= l < v.Length :: v[l] == old(v[l])
    ensures forall l | g.lo <= l < end :: v[l] == digits[l - start]
  {
    ghost var before := v[..];
    DecodeGroup(c, g, v, Remainder(x, c[g.hi - g.lo, g.squares]));
    forall l | 0 <= l < start || end <= l < v.Length ensures v[l] == before[l] {
      if l < start {
        assert v[l] == v[..g.lo][l];
      } else {
        assert v[l] == v[g.hi..][l - g.hi];
      }
    }
    forall l | g.lo <= l < end ensures v[l] == digits[l - start] {
      if l < g.hi {
        assert v[l] == v[g.lo..g.hi][l - g.lo];
      } else {
        assert v[l] == v[g.hi..][l - g.hi];
      }
    }
  }
}

/** Groups of equal pieces, sorted from the highest square down. */
module Sorting {
  import opened Combinadics

  predicate Descending(s: seq<nat>) {
    forall i, j | 0 <= i < j < |s| :: s[i] >= s[j]
  }

  function Insert(x: nat, s: seq<nat>): seq<nat> {
    if s == [] || x >= s[0] then [x] + s else [s[0]] + Insert(x, s[1..])
  }

  function SortDown(s: seq<nat>): seq<nat> {
    if s == [] then [] else Insert(s[0], SortDown(s[1..]))
  }

  lemma Prepend(x: nat, s: seq<nat>)
    requires Descending(s) && forall y | y in s :: x >= y
    ensures Descending([x] + s)
  {
    var t := [x] + s;
    forall i, j | 0 <= i < j < |t| ensures t[i] >= t[j] {
      assert t[j] == s[j - 1] && s[j - 1] in s;
    }
  }

  lemma TailDescends(s: seq<nat>)
    requires Descending(s) && s != []
    ensures s == [s[0]] + s[1..] && Descending(s[1..])
    ensures forall y | y in s :: s[0] >= y
    ensures forall y | y in s[1..] :: s[0] >= y
    ensures multiset(s[1..]) == multiset(s) - multiset{s[0]}
  {
    assert s == [s[0]] + s[1..];
  }

  lemma SameFirst(s: seq<nat>, t: seq<nat>)
    requires s != [] && multiset(s) == multiset(t) && (forall y | y in s :: s[0] >= y)
    requires t != [] ==> forall y | y in t :: t[0] >= y
    ensures t != [] && s[0] == t[0]
  {
    assert |multiset(s)| == |multiset(t)|;
    assert s[0] in multiset(s) && t[0] in multiset(t);
    assert s[0] in t && t[0] in s;
  }

  lemma {:induction false} InsertSorts(x: nat, s: seq<nat>)
    requires Descending(s)
    ensures Descending(Insert(x, s)) && multiset(Insert(x, s)) == multiset{x} + multiset(s)
    ensures forall y | y in Insert(x, s) :: y == x || y in s
  {
    hide Descending;
    if s == [] {
      Prepend(x, s);
    } else {
      TailDescends(s);
      if x >= s[0] {
        Prepend(x, s);
      } else {
        InsertSorts(x, s[1..]);
        forall y | y in Insert(x, s[1..]) ensures s[0] >= y {
        }
        Prepend(s[0], Insert(x, s[1..]));
      }
    }
  }

  lemma {:induction false} SortDownSorts(s: seq<nat>)
    ensures Descending(SortDown(s)) && multiset(SortDown(s)) == multiset(s) && |SortDown(s)| == |s|
  {
    if s != [] {
      SortDownSorts(s[1..]);
      InsertSorts(s[0], SortDown(s[1..]));
      assert s == [s[0]] + s[1..];
      assert |multiset(SortDown(s))| == |multiset(s)|;
    }
  }

  /** A descending order of the same numbers is unique. */
  lemma {:induction false} DescendingIsUnique(s: seq<nat>, t: seq<nat>)
    requires Descending(s) && Descending(t) && multiset(s) == multiset(t)
    ensures s == t
  {
    hide Descending;
    assert |multiset(s)| == |multiset(t)|;
    if s != [] {
      TailDescends(s);
      TailDescends(t);
      SameFirst(s, t);
      DescendingIsUnique(s[1..], t[1..]);
    }
  }

  /** Sorts the numbers of every group. */
  function SortGroups(groups: seq<Group>, v: seq<nat>): (w: seq<nat>)
    requires forall g | g in groups :: g.lo <= g.hi <= |v|
    ensures |w| == |v|
  {
    if groups == [] then v
    else
      var g := groups[|groups| - 1];
      var u := SortGroups(groups[..|groups| - 1], v);
      SortDownSorts(u[g.lo..g.hi]);
      u[..g.lo] + SortDown(u[g.lo..g.hi]) + u[g.hi..]
  }

  /** Equal up to the order inside the groups. */
  predicate SameGroups(groups: seq<Group>, start: nat, v: seq<nat>, w: seq<nat>)
    requires forall g | g in groups :: g.lo <= g.hi <= |v|
  {
    && |v| == |w|
    && (forall i | 0 <= i < |v| && (i < start || End(groups, start) <= i) :: v[i] == w[i])
    && forall g | g in groups :: multiset(v[g.lo..g.hi]) == multiset(w[g.lo..g.hi])
  }

  predicate GroupsDescend(groups: seq<Group>, v: seq<nat>)
    requires forall g | g in groups :: g.lo <= g.hi <= |v|
  {
    forall g | g in groups :: Descending(v[g.lo..g.hi])
  }

  lemma {:induction false} SortGroupsSorts(groups: seq<Group>, start: nat, v: seq<nat>)
    requires Consecutive(groups, start) && End(groups, start) <= |v|
    requires forall g | g in groups :: g.lo <= g.hi <= |v|
    ensures GroupsDescend(groups, SortGroups(groups, v))
    ensures SameGroups(groups, start, v, SortGroups(groups, v))
  {
    hide Descending, SortDown;
    if groups != [] {
      var n := |groups| - 1;
      var head, g := groups[..n], groups[n];
      ConsecutiveFacts(head, start);
      SortGroupsSorts(head, start, v);
      SortLast(head, g, start, v, SortGroups(head, v));
      assert groups == head + [g];
    }
  }

  /** Sorting one more group. */
  lemma SortLast(head: seq<Group>, g: Group, start: nat, v: seq<nat>, u: seq<nat>)
    requires End(head, start) == g.lo <= g.hi <= |v| && start <= g.lo && |u| == |v|
    requires forall f | f in head :: f.lo <= f.hi <= g.lo
    requires GroupsDescend(head, u) && SameGroups(head, start, v, u)
    ensures var w := u[..g.lo] + SortDown(u[g.lo..g.hi]) + u[g.hi..];
            |w| == |v| && GroupsDescend(head + [g], w) && SameGroups(head + [g], start, v, w)
  {
    hide SortDown, Descending;
    SortDownSorts(u[g.lo..g.hi]);
    var w := u[..g.lo] + SortDown(u[g.lo..g.hi]) + u[g.hi..];
    assert w[g.lo..g.hi] == SortDown(u[g.lo..g.hi]);
    assert u[g.lo..g.hi] == v[g.lo..g.hi];
    forall f | f in head ensures w[f.lo..f.hi] == u[f.lo..f.hi] {
    }
  }

  /** Sorted groups are determined by their contents. */
  lemma {:induction false} SortedGroupsAreUnique(groups: seq<Group>, start: nat, v: seq<nat>, w: seq<nat>)
    requires Consecutive(groups, start) && End(groups, start) <= |v|
    requires forall g | g in groups :: g.lo <= g.hi <= |v|
    requires SameGroups(groups, start, v, w) && GroupsDescend(groups, v) && GroupsDescend(groups, w)
    ensures v == w
  {
    ConsecutiveFacts(groups, start);
    forall i | 0 <= i < |v| ensures v[i] == w[i] {
      if start <= i < End(groups, start) {
        var g := GroupAt(groups, start, i);
        DescendingIsUnique(v[g.lo..g.hi], w[g.lo..g.hi]);
        assert v[i] == v[g.lo..g.hi][i - g.lo] && w[i] == w[g.lo..g.hi][i - g.lo];
      }
    }
  }

  /** Every slot of the groups is in one of them. */
  lemma {:induction false} GroupAt(groups: seq<Group>, start: nat, i: nat) returns (g: Group)
    requires Consecutive(groups, start) && start <= i < End(groups, start)
    ensures g in groups && g.lo <= i < g.hi
  {
    var n := |groups| - 1;
    if groups[n].lo <= i {
      g := groups[n];
    } else {
      g := GroupAt(groups[..n], start, i);
    }
  }

  /** Sorting is insensitive to the order inside the groups. */
  lemma SortForgetsOrder(groups: seq<Group>, start: nat, v: seq<nat>, w: seq<nat>)
    requires Consecutive(groups, start) && End(groups, start) <= |v|
    requires forall g | g in groups :: g.lo <= g.hi <= |v|
    requires SameGroups(groups, start, v, w)
    ensures SortGroups(groups, v) == SortGroups(groups, w)
  {
    hide SortGroups, GroupsDescend, Consecutive;
    SortGroupsSorts(groups, start, v);
    SortGroupsSorts(groups, start, w);
    SortedGroupsAreUnique(groups, start, SortGroups(groups, v), SortGroups(groups, w));
  }

  /** Numbers that already descend stay as they are. */
  lemma SortKeepsSorted(groups: seq<Group>, start: nat, v: seq<nat>)
    requires Consecutive(groups, start) && End(groups, start) <= |v|
    requires forall g | g in groups :: g.lo <= g.hi <= |v|
    requires GroupsDescend(groups, v)
    ensures SortGroups(groups, v) == v
  {
    hide SortGroups, GroupsDescend, Consecutive;
    SortGroupsSorts(groups, start, v);
    SortedGroupsAreUnique(groups, start, SortGroups(groups, v), v);
  }

  /** Sorting keeps the numbers, in other slots. */
  lemma {:induction false} SortKeepsNumbers(groups: seq<Group>, v: seq<nat>)
    requires forall g | g in groups :: g.lo <= g.hi <= |v|
    ensures multiset(SortGroups(groups, v)) == multiset(v)
  {
    hide SortDown, Descending;
    if groups != [] {
      var g := groups[|groups| - 1];
      SortKeepsNumbers(groups[..|groups| - 1], v);
      var u := SortGroups(groups[..|groups| - 1], v);
      SortDownSorts(u[g.lo..g.hi]);
      SpanKeepsNumbers(u, g.lo, g.hi, SortDown(u[g.lo..g.hi]));
    }
  }

  lemma SpanKeepsNumbers(u: seq<nat>, lo: nat, hi: nat, t: seq<nat>)
    requires lo <= hi <= |u| && multiset(t) == multiset(u[lo..hi])
    ensures multiset(u[..lo] + t + u[hi..]) == multiset(u)
  {
    assert u == u[..lo] + u[lo..hi] + u[hi..];
  }
}

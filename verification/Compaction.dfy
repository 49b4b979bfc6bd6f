/** Compaction of distinct square numbers: each number is lowered by the number of
    preceding numbers below it, so that later pieces choose among fewer squares. */
module Compaction {

  /** The number `x` once square `p` is taken out, and back. */
  function Lower(p: nat, x: nat): nat { if p < x then x - 1 else x }
  function Raise(p: nat, x: nat): nat { if p <= x then x + 1 else x }

  function LowerAll(p: nat, v: seq<nat>): (w: seq<nat>)
    ensures |w| == |v|
  {
    seq(|v|, i requires 0 <= i < |v| => Lower(p, v[i]))
  }

  function RaiseAll(p: nat, v: seq<nat>): (w: seq<nat>)
    ensures |w| == |v|
  {
    seq(|v|, i requires 0 <= i < |v| => Raise(p, v[i]))
  }

  function Compact(v: seq<nat>): (c: seq<nat>)
    ensures |c| == |v|
    decreases |v|
  {
    if v == [] then [] else [v[0]] + Compact(LowerAll(v[0], v[1..]))
  }

  function Uncompact(c: seq<nat>): (v: seq<nat>)
    ensures |v| == |c|
  {
    if c == [] then [] else [c[0]] + RaiseAll(c[0], Uncompact(c[1..]))
  }

  predicate Distinct(v: seq<nat>) {
    forall i, j | 0 <= i < j < |v| :: v[i] != v[j]
  }

  predicate Below(v: seq<nat>, n: nat) {
    forall i | 0 <= i < |v| :: v[i] < n
  }

  /** The i-th number is one of the n - i squares left. */
  predicate Compacted(c: seq<nat>, n: nat) {
    forall i | 0 <= i < |c| :: c[i] < n - i
  }

  predicate Decreasing(v: seq<nat>, lo: nat, hi: nat)
    requires lo <= hi <= |v|
  {
    forall i, j | lo <= i < j < hi :: v[i] > v[j]
  }

  lemma {:induction false} CompactIsInRange(v: seq<nat>, n: nat)
    requires Distinct(v) && Below(v, n)
    ensures Compacted(Compact(v), n)
    decreases |v|
  {
    if v != [] {
      var tail := LowerAll(v[0], v[1..]);
      assert Below(tail, n - 1) by {
        forall i | 0 <= i < |tail| ensures tail[i] < n - 1 {
          assert v[i + 1] != v[0];
        }
      }
      LowerKeepsDistinct(v);
      CompactIsInRange(tail, n - 1);
    }
  }

  lemma LowerKeepsDistinct(v: seq<nat>)
    requires Distinct(v) && v != []
    ensures Distinct(LowerAll(v[0], v[1..]))
    ensures RaiseAll(v[0], LowerAll(v[0], v[1..])) == v[1..]
  {
    var tail := LowerAll(v[0], v[1..]);
    forall i | 0 <= i < |tail| ensures Raise(v[0], tail[i]) == v[1..][i] {
      assert v[i + 1] != v[0];
    }
    forall i, j | 0 <= i < j < |tail| ensures tail[i] != tail[j] {
      assert v[i + 1] != v[0] && v[j + 1] != v[0] && v[i + 1] != v[j + 1];
    }
  }

  /** Compaction of distinct numbers is undone by uncompaction. */
  lemma {:induction false} UncompactCompact(v: seq<nat>)
    requires Distinct(v)
    ensures Uncompact(Compact(v)) == v
    decreases |v|
  {
    if v != [] {
      var tail := LowerAll(v[0], v[1..]);
      LowerKeepsDistinct(v);
      UncompactCompact(tail);
      assert Compact(v)[1..] == Compact(tail);
    }
  }

  /** Uncompaction yields distinct numbers in range, and is undone by compaction. */
  lemma {:induction false} CompactUncompact(c: seq<nat>, n: nat)
    requires Compacted(c, n)
    ensures Distinct(Uncompact(c)) && Below(Uncompact(c), n)
    ensures Compact(Uncompact(c)) == c
  {
    if c != [] {
      var tail := c[1..];
      assert c[0] < n;
      assert Compacted(tail, n - 1) by {
        forall i | 0 <= i < |tail| ensures tail[i] < n - 1 - i {
          assert tail[i] == c[i + 1];
        }
      }
      CompactUncompact(tail, n - 1);
      RaiseIsInverse(c[0], Uncompact(tail), n);
      assert Uncompact(c)[1..] == RaiseAll(c[0], Uncompact(tail));
    }
  }

  lemma RaiseIsInverse(p: nat, w: seq<nat>, n: nat)
    requires p < n && Distinct(w) && Below(w, n - 1)
    ensures LowerAll(p, RaiseAll(p, w)) == w
    ensures Distinct([p] + RaiseAll(p, w)) && Below([p] + RaiseAll(p, w), n)
  {
    var v := [p] + RaiseAll(p, w);
    forall i, j | 0 <= i < j < |v| ensures v[i] != v[j] {
      if i > 0 {
        assert w[i - 1] != w[j - 1];
      }
    }
  }

  /** Decreasing groups stay decreasing, and come from decreasing groups. */
  lemma {:induction false} CompactKeepsOrder(v: seq<nat>, lo: nat, hi: nat)
    requires Distinct(v) && lo <= hi <= |v|
    ensures Decreasing(Compact(v), lo, hi) <==> Decreasing(v, lo, hi)
    decreases |v|
  {
    hide LowerAll;
    if v != [] && hi > 1 {
      var tail := LowerAll(v[0], v[1..]);
      LowerKeepsDistinct(v);
      var lo' := if lo == 0 then 0 else lo - 1;
      CompactKeepsOrder(tail, lo', hi - 1);
      TailOrder(Compact(v), Compact(tail), lo, hi);
      if Decreasing(v, lo, hi) {
        OrderUp(v, tail, lo, hi);
        if lo == 0 {
          AllBelowFirst(v, hi);
        }
      }
      if Decreasing(Compact(v), lo, hi) {
        if lo == 0 {
          FirstIsAbove(v, hi);
        }
        OrderDown(v, tail, lo, hi);
      }
    }
  }

  lemma TailOrder(c: seq<nat>, tail: seq<nat>, lo: nat, hi: nat)
    requires c != [] && c[1..] == tail && lo <= hi <= |c| && 1 < hi
    ensures var lo' := if lo == 0 then 0 else lo - 1;
            Decreasing(c, lo, hi) <==>
              Decreasing(tail, lo', hi - 1) && (lo == 0 ==> forall i | 0 < i < hi :: c[i] < c[0])
  {
    forall i | 0 < i < |c| ensures c[i] == tail[i - 1] {
    }
    if Decreasing(tail, if lo == 0 then 0 else lo - 1, hi - 1) {
      forall i, j | lo <= i < j < hi ensures i > 0 ==> c[i] > c[j] {
        assert i > 0 ==> tail[i - 1] > tail[j - 1];
      }
    }
  }

  lemma OrderUp(v: seq<nat>, tail: seq<nat>, lo: nat, hi: nat)
    requires Distinct(v) && v != [] && tail == LowerAll(v[0], v[1..]) && lo <= hi <= |v| && 1 < hi
             && Decreasing(v, lo, hi)
    ensures Decreasing(tail, if lo == 0 then 0 else lo - 1, hi - 1)
  {
    forall i, j | (if lo == 0 then 0 else lo - 1) <= i < j < hi - 1 ensures tail[i] > tail[j] {
      assert v[i + 1] > v[j + 1] && v[i + 1] != v[0] && v[j + 1] != v[0];
    }
  }

  lemma OrderDown(v: seq<nat>, tail: seq<nat>, lo: nat, hi: nat)
    requires Distinct(v) && v != [] && tail == LowerAll(v[0], v[1..]) && lo <= hi <= |v| && 1 < hi
    requires Decreasing(tail, if lo == 0 then 0 else lo - 1, hi - 1)
    requires lo == 0 ==> forall i | 0 < i < hi :: v[0] > v[i]
    ensures Decreasing(v, lo, hi)
  {
    forall i, j | lo <= i < j < hi ensures v[i] > v[j] {
      if i > 0 {
        assert tail[i - 1] > tail[j - 1];
      }
    }
  }

  /** When the first number is the largest of its group nothing in it is lowered. */
  lemma {:induction false} AllBelowFirst(v: seq<nat>, hi: nat)
    requires Distinct(v) && 1 < hi <= |v| && Decreasing(v, 0, hi)
    ensures forall i | 0 < i < hi :: Compact(v)[i] < v[0]
  {
    CompactAtMost(v);
    forall i | 0 < i < hi ensures Compact(v)[i] < v[0] {
      assert Compact(v)[i] <= v[i];
    }
  }

  lemma {:induction false} CompactAtMost(v: seq<nat>)
    ensures forall i | 0 <= i < |v| :: Compact(v)[i] <= v[i]
    decreases |v|
  {
    if v != [] {
      var tail := LowerAll(v[0], v[1..]);
      CompactAtMost(tail);
      forall i | 0 < i < |v| ensures Compact(v)[i] <= v[i] {
        assert Compact(v)[i] == Compact(tail)[i - 1] && tail[i - 1] <= v[i];
      }
    }
  }

  lemma {:induction false} FirstIsAbove(v: seq<nat>, hi: nat)
    requires Distinct(v) && 1 < hi <= |v| && Decreasing(Compact(v), 0, hi)
    ensures forall i | 0 < i < hi :: v[0] > v[i]
  {
    UncompactCompact(v);
    UncompactStaysBelow(Compact(v), hi);
  }

  lemma {:induction false} UncompactStaysBelow(c: seq<nat>, hi: nat)
    requires 0 < hi <= |c| && Decreasing(c, 0, hi)
    ensures forall i | 0 < i < hi :: Uncompact(c)[i] == c[i]
  {
    if hi > 1 {
      var tail := c[1..];
      assert Decreasing(tail, 0, hi - 1);
      UncompactStaysBelow(tail, hi - 1);
      forall i | 0 < i < hi ensures Uncompact(c)[i] == c[i] {
        assert Uncompact(c)[i] == Raise(c[0], Uncompact(tail)[i - 1]);
        assert Uncompact(tail)[i - 1] == tail[i - 1] == c[i];
      }
    }
  }

  /** Compacting a prefix does not depend on what follows it. */
  lemma {:induction false} CompactPrefix(v: seq<nat>, k: nat)
    requires k <= |v|
    ensures Compact(v)[..k] == Compact(v[..k])
    decreases |v|
  {
    if k > 0 {
      var tail := LowerAll(v[0], v[1..]);
      CompactPrefix(tail, k - 1);
      assert v[..k][1..] == v[1..][..k - 1];
      assert LowerAll(v[0], v[1..][..k - 1]) == tail[..k - 1];
    }
  }

  // ---------------------------------------------------------------------
  // The in-place loops.

  /** The inner loop of compaction: lowers the numbers after position `i`. */
  method LowerAfter(v: array<nat>, i: nat, n: nat)
    requires i < n <= v.Length
    modifies v
    ensures v[..i + 1] == old(v[..i + 1]) && v[n..] == old(v[n..])
    ensures v[i + 1..n] == LowerAll(v[i], old(v[i + 1..n]))
  {
    for j := i + 1 to n
      invariant forall l | 0 <= l <= i || j <= l < v.Length :: v[l] == old(v[l])
      invariant forall l | i < l < j :: v[l] == Lower(v[i], old(v[l]))
    {
      if v[i] < v[j] {
        v[j] := v[j] - 1;
      }
    }
  }

  method RaiseAfter(v: array<nat>, i: nat)
    requires i < v.Length
    modifies v
    ensures v[..i + 1] == old(v[..i + 1])
    ensures v[i + 1..] == RaiseAll(v[i], old(v[i + 1..]))
  {
    for j := i + 1 to v.Length
      invariant forall l | 0 <= l <= i || j <= l < v.Length :: v[l] == old(v[l])
      invariant forall l | i < l < j :: v[l] == Raise(v[i], old(v[l]))
    {
      if v[i] <= v[j] {
        v[j] := v[j] + 1;
      }
    }
  }

  /** Compacts the first `n` numbers of the buffer. */
  method CompactPidx(v: array<nat>, n: nat)
    requires 1 <= n <= v.Length
    modifies v
    ensures v[..n] == Compact(old(v[..n]))
    ensures v[n..] == old(v[n..])
  {
    ghost var all := Compact(v[..n]);
    for i := 0 to n - 1
      invariant v[..i] + Compact(v[i..n]) == all
      invariant v[n..] == old(v[n..])
    {
      ghost var head, rest, tail := v[..i], v[i..n], v[i + 1..n];
      assert rest[1..] == tail;
      LowerAfter(v, i, n);
      assert v[..i] == head && v[i] == rest[0] by {
        assert v[..i + 1] == head + [rest[0]];
      }
      CompactUnfolds(head, rest, v[..i], v[i], v[i + 1..n]);
      assert v[..i + 1] == v[..i] + [v[i]];
    }
    LastIsCompact(v[n - 1..n]);
    assert v[..n] == v[..n - 1] + v[n - 1..n];
  }

  lemma CompactUnfolds(head: seq<nat>, rest: seq<nat>, head': seq<nat>, first: nat, tail: seq<nat>)
    requires head' == head && rest != [] && first == rest[0] && tail == LowerAll(first, rest[1..])
    ensures head + Compact(rest) == (head' + [first]) + Compact(tail)
  {
  }

  lemma LastIsCompact(v: seq<nat>)
    requires |v| == 1
    ensures Compact(v) == v
  {
    assert LowerAll(v[0], v[1..]) == [];
  }

  method UncompactCpidx(v: array<nat>)
    requires v.Length >= 1
    modifies v
    ensures v[..] == Uncompact(old(v[..]))
  {
    var n := v.Length;
    ghost var c := v[..];
    LastIsUncompact(c[n - 1..]);
    for i := n - 1 downto 0
      invariant v[..i] == c[..i]
      invariant v[i..] == Uncompact(c[i..])
    {
      ghost var before := v[..];
      assert before[i + 1..] == v[i + 1..] && before[i] == c[i];
      RaiseAfter(v, i);
      assert v[i] == c[i] by {
        assert v[..i + 1][i] == before[..i + 1][i];
      }
      assert v[..i] == c[..i] by {
        assert v[..i] == v[..i + 1][..i] && before[..i] == before[..i + 1][..i];
      }
      UncompactUnfolds(c[i..], v[i..]);
    }
  }

  lemma UncompactUnfolds(c: seq<nat>, v: seq<nat>)
    requires c != [] && |v| == |c| && v[0] == c[0] && v[1..] == RaiseAll(c[0], Uncompact(c[1..]))
    ensures v == Uncompact(c)
  {
    assert v == [v[0]] + v[1..];
  }

  lemma LastIsUncompact(c: seq<nat>)
    requires |c| == 1
    ensures Uncompact(c) == c
  {
    assert RaiseAll(c[0], Uncompact(c[1..])) == [];
  }
}

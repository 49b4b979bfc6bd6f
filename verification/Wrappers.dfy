/** Result types and orderings shared by the models. */
module Wrappers {
  datatype Option<+T> = None | Some(value: T)

  datatype Result<+T, +E> = Success(value: T) | Failure(error: E)

  datatype Ordering = Less | Equal | Greater {
    /** The next comparison decides ties. */
    function Then(next: Ordering): Ordering {
      if this == Equal then next else this
    }

    function Reversed(): Ordering {
      match this
      case Less => Greater
      case Equal => Equal
      case Greater => Less
    }
  }

  function CompareNat(a: nat, b: nat): Ordering {
    if a < b then Less else if a == b then Equal else Greater
  }

  // ---------------------------------------------------------------------
  // Lists in dictionary order.

  function CompareLists(a: seq<nat>, b: seq<nat>): Ordering {
    if a == [] && b == [] then Equal
    else if a == [] then Less
    else if b == [] then Greater
    else if a[0] < b[0] then Less
    else if a[0] > b[0] then Greater
    else CompareLists(a[1..], b[1..])
  }

  lemma {:induction false} ComparisonReverses(a: seq<nat>, b: seq<nat>)
    ensures CompareLists(b, a) == CompareLists(a, b).Reversed()
    ensures CompareLists(a, b) == Equal <==> a == b
  {
    if a != [] && b != [] {
      ComparisonReverses(a[1..], b[1..]);
      assert a == [a[0]] + a[1..] && b == [b[0]] + b[1..];
    }
  }

  /** The lists agree on `n` entries, then the first ends or goes on with a smaller entry. */
  predicate ComesBeforeAt(a: seq<nat>, b: seq<nat>, n: nat) {
    && n <= |a| && n < |b| && a[..n] == b[..n]
    && (n < |a| ==> a[n] < b[n])
  }

  ghost predicate ComesBefore(a: seq<nat>, b: seq<nat>) {
    exists n :: ComesBeforeAt(a, b, n)
  }

  /** Lists are compared at the first entry where they differ. */
  lemma {:induction false} LessComesBefore(a: seq<nat>, b: seq<nat>)
    ensures CompareLists(a, b) == Less <==> ComesBefore(a, b)
    ensures CompareLists(a, b) == Greater <==> ComesBefore(b, a)
  {
    ComparisonReverses(a, b);
    if a == [] || b == [] || a[0] != b[0] {
      assert a != b ==> ComesBeforeAt(a, b, 0) || ComesBeforeAt(b, a, 0);
    } else {
      LessComesBefore(a[1..], b[1..]);
      LongerComesBefore(a, b);
      LongerComesBefore(b, a);
    }
  }

  lemma LongerComesBefore(a: seq<nat>, b: seq<nat>)
    requires a != [] && b != [] && a[0] == b[0]
    ensures ComesBefore(a, b) <==> ComesBefore(a[1..], b[1..])
  {
    forall n: nat ensures ComesBeforeAt(a, b, n + 1) <==> ComesBeforeAt(a[1..], b[1..], n) {
      if n < |a| && n < |b| {
        assert a[..n + 1] == [a[0]] + a[1..][..n] && b[..n + 1] == [b[0]] + b[1..][..n];
      }
    }
    assert !ComesBeforeAt(a, b, 0);
    if ComesBefore(a, b) {
      var n: nat :| ComesBeforeAt(a, b, n);
      var m: nat := n - 1;
      assert ComesBeforeAt(a, b, m + 1);
      assert ComesBeforeAt(a[1..], b[1..], m);
    }
    if ComesBefore(a[1..], b[1..]) {
      var n: nat :| ComesBeforeAt(a[1..], b[1..], n);
      assert ComesBeforeAt(a, b, n + 1);
    }
  }

  lemma Ordered(a: seq<nat>, b: seq<nat>)
    ensures CompareLists(a, b) == Less <==> ComesBefore(a, b)
    ensures CompareLists(a, b) == Equal <==> a == b
  {
    LessComesBefore(a, b);
    ComparisonReverses(a, b);
  }
}

/** Sums of natural numbers over finite sets. */
module Sums {
  ghost function Sum<T(!new)>(s: set<T>, f: T -> nat): nat {
    if s == {} then 0
    else
      var x :| x in s;
      f(x) + Sum(s - {x}, f)
  }

  lemma {:induction false} SumRemove<T(!new)>(s: set<T>, f: T -> nat, x: T)
    requires x in s
    ensures Sum(s, f) == f(x) + Sum(s - {x}, f)
  {
    var y :| y in s && Sum(s, f) == f(y) + Sum(s - {y}, f);
    if y != x {
      SumRemove(s - {y}, f, x);
      SumRemove(s - {x}, f, y);
      assert s - {y} - {x} == s - {x} - {y};
    }
  }

  lemma {:induction false} SumUnion<T(!new)>(s: set<T>, t: set<T>, f: T -> nat)
    requires s !! t
    ensures Sum(s + t, f) == Sum(s, f) + Sum(t, f)
  {
    if s == {} {
      assert s + t == t;
    } else {
      var x :| x in s;
      SumRemove(s, f, x);
      SumRemove(s + t, f, x);
      assert s + t - {x} == (s - {x}) + t;
      SumUnion(s - {x}, t, f);
    }
  }

  lemma {:induction false} SumPlus<T(!new)>(s: set<T>, f: T -> nat, g: T -> nat, h: T -> nat)
    requires forall x | x in s :: h(x) == f(x) + g(x)
    ensures Sum(s, h) == Sum(s, f) + Sum(s, g)
  {
    if s != {} {
      var x :| x in s;
      SumRemove(s, f, x);
      SumRemove(s, g, x);
      SumRemove(s, h, x);
      SumPlus(s - {x}, f, g, h);
    }
  }

  lemma {:induction false} SumSame<T(!new)>(s: set<T>, f: T -> nat, g: T -> nat)
    requires forall x | x in s :: f(x) == g(x)
    ensures Sum(s, f) == Sum(s, g)
  {
    if s != {} {
      var x :| x in s;
      SumRemove(s, f, x);
      SumRemove(s, g, x);
      SumSame(s - {x}, f, g);
    }
  }

  lemma {:induction false} SumZero<T(!new)>(s: set<T>, f: T -> nat)
    ensures Sum(s, f) == 0 <==> forall x | x in s :: f(x) == 0
  {
    if s != {} {
      var x :| x in s;
      SumRemove(s, f, x);
      SumZero(s - {x}, f);
    }
  }

  /** Renaming the elements of the domain by an injection. */
  lemma {:induction false} SumReindex<T(!new), U(!new)>(s: set<T>, t: set<U>, f: T -> nat, g: U -> nat, to: T -> U)
    requires forall x, y | x in s && y in s && to(x) == to(y) :: x == y
    requires t == set x | x in s :: to(x)
    requires forall x | x in s :: f(x) == g(to(x))
    ensures Sum(s, f) == Sum(t, g)
  {
    if s != {} {
      var x :| x in s;
      assert to(x) in t;
      SumRemove(s, f, x);
      SumRemove(t, g, to(x));
      assert t - {to(x)} == set y | y in s - {x} :: to(y);
      SumReindex(s - {x}, t - {to(x)}, f, g, to);
    } else {
      assert t == {};
    }
  }

  ghost function Fibre<T(!new), U(!new)>(s: set<T>, to: T -> U, u: U): set<T> {
    set x | x in s && to(x) == u
  }

  /** Counting a set by the value of a function on it. */
  lemma {:induction false} SumOfFibres<T(!new), U(!new)>(s: set<T>, t: set<U>, to: T -> U, f: U -> nat)
    requires forall x | x in s :: to(x) in t
    requires forall u | u in t :: f(u) == |Fibre(s, to, u)|
    ensures Sum(t, f) == |s|
  {
    hide Sum;
    if s == {} {
      forall u | u in t ensures f(u) == 0 {
        assert Fibre(s, to, u) == {};
      }
      SumZero(t, f);
    } else {
      var x :| x in s;
      var s' := s - {x};
      var g := (u: U) => |Fibre(s', to, u)|;
      SumOfFibres(s', t, to, g);
      SumRemove(t, f, to(x));
      SumRemove(t, g, to(x));
      assert Fibre(s, to, to(x)) == Fibre(s', to, to(x)) + {x};
      forall u | u in t - {to(x)} ensures f(u) == g(u) {
        assert Fibre(s, to, u) == Fibre(s', to, u);
      }
      SumSame(t - {to(x)}, f, g);
    }
  }
}

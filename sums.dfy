/** Sums over finite sets, in whatever order the elements are taken: the
    accumulations over dict keys in the profile scorer are such sums. */
module Sums {
  import opened Sets

  /** The sum of `f` over `s`. */
  ghost function SumOf<T>(s: set<T>, f: T -> real): real
    decreases |s|
  {
    if s == {} then 0.0
    else
      var x := Pick(s);
      f(x) + SumOf(s - {x}, f)
  }

  /** Any element can be taken out first. */
  lemma {:induction false} SumRemove<T>(s: set<T>, f: T -> real, x: T)
    requires x in s
    ensures SumOf(s, f) == f(x) + SumOf(s - {x}, f)
    decreases |s|
  {
    var y := Pick(s);
    if y != x {
      SumRemove(s - {y}, f, x);
      SumRemove(s - {x}, f, y);
      assert s - {y} - {x} == s - {x} - {y};
    }
  }

  /** Adding an element adds its term. */
  lemma SumInsert<T>(s: set<T>, f: T -> real, x: T)
    requires x !in s
    ensures SumOf(s + {x}, f) == SumOf(s, f) + f(x)
  {
    SumRemove(s + {x}, f, x);
    assert s + {x} - {x} == s;
  }

  /** Sums of functions that agree on the set agree. */
  lemma {:induction false} SumExt<T>(s: set<T>, f: T -> real, g: T -> real)
    requires forall x | x in s :: f(x) == g(x)
    ensures SumOf(s, f) == SumOf(s, g)
    decreases |s|
  {
    if s != {} {
      var x := Pick(s);
      SumExt(s - {x}, f, g);
    }
  }

  /** Terms that are zero can be left out of the set. */
  lemma {:induction false} SumRestrict<T>(s: set<T>, t: set<T>, f: T -> real)
    requires forall x | x in s && x !in t :: f(x) == 0.0
    ensures SumOf(s, f) == SumOf(s * t, f)
    decreases |s|
  {
    if s != {} {
      var x := Pick(s);
      SumRestrict(s - {x}, t, f);
      if x in t {
        SumRemove(s * t, f, x);
        assert (s - {x}) * t == s * t - {x};
      } else {
        assert (s - {x}) * t == s * t;
      }
    }
  }

  /** A sum of non-negative terms is non-negative, and it is zero exactly
      when every term is. */
  lemma {:induction false} SumNonneg<T>(s: set<T>, f: T -> real)
    requires forall x | x in s :: f(x) >= 0.0
    ensures SumOf(s, f) >= 0.0
    ensures SumOf(s, f) == 0.0 <==> forall x | x in s :: f(x) == 0.0
    decreases |s|
  {
    if s != {} {
      var x := Pick(s);
      SumNonneg(s - {x}, f);
    }
  }

  /** A sum of terms in [0, 1] lies in [0, |s|]. */
  lemma {:induction false} SumUnitBounds<T>(s: set<T>, f: T -> real)
    requires forall x | x in s :: 0.0 <= f(x) <= 1.0
    ensures 0.0 <= SumOf(s, f) <= |s| as real
    decreases |s|
  {
    if s != {} {
      var x := Pick(s);
      SumUnitBounds(s - {x}, f);
    }
  }
}

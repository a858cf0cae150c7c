/** Sums over finite sets, as SUM and AVG compute them. */
module Sums {

  ghost function Pick<T(!new)>(s: set<T>): (x: T)
    requires s != {}
    ensures x in s
  {
    var x :| x in s;
    x
  }

  ghost function Sum<T(!new)>(s: set<T>, f: T -> real): real
    decreases |s|
  {
    if s == {} then 0.0 else f(Pick(s)) + Sum(s - {Pick(s)}, f)
  }

  /** The order in which the elements are added does not matter. */
  lemma {:induction false} SumRemove<T(!new)>(s: set<T>, f: T -> real, x: T)
    requires x in s
    ensures Sum(s, f) == f(x) + Sum(s - {x}, f)
    decreases |s|
  {
    var y := Pick(s);
    if y != x {
      SumRemove(s - {y}, f, x);
      SumRemove(s - {x}, f, y);
      assert s - {y} - {x} == s - {x} - {y};
    }
  }

  lemma {:induction false} SumUnion<T(!new)>(a: set<T>, b: set<T>, f: T -> real)
    requires a !! b
    ensures Sum(a + b, f) == Sum(a, f) + Sum(b, f)
    decreases |a|
  {
    if a == {} {
      assert a + b == b;
    } else {
      var x := Pick(a);
      SumRemove(a + b, f, x);
      assert a + b - {x} == (a - {x}) + b;
      SumUnion(a - {x}, b, f);
    }
  }

  lemma {:induction false} SumCongruence<T(!new)>(s: set<T>, f: T -> real, g: T -> real)
    requires forall x | x in s :: f(x) == g(x)
    ensures Sum(s, f) == Sum(s, g)
    decreases |s|
  {
    if s != {} {
      SumCongruence(s - {Pick(s)}, f, g);
    }
  }

  lemma {:induction false} SumRange<T(!new)>(s: set<T>, f: T -> real)
    requires forall x | x in s :: 0.0 <= f(x) <= 1.0
    ensures 0.0 <= Sum(s, f) <= |s| as real
    decreases |s|
  {
    if s != {} {
      SumRange(s - {Pick(s)}, f);
      assert |s| == |s - {Pick(s)}| + 1;
    }
  }

  lemma {:induction false} SumOfOnes<T(!new)>(s: set<T>, f: T -> real)
    requires forall x | x in s :: f(x) == 1.0
    ensures Sum(s, f) == |s| as real
    decreases |s|
  {
    if s != {} {
      SumOfOnes(s - {Pick(s)}, f);
      assert |s| == |s - {Pick(s)}| + 1;
    }
  }

  /** GROUP BY: the elements that `h` sends to `b`. */
  ghost function Fibre<T(!new), U>(s: set<T>, h: T -> U, b: U): set<T> {
    set x | x in s && h(x) == b
  }

  ghost function FibreSum<T(!new), U(!new)>(s: set<T>, f: T -> real, h: T -> U): U -> real {
    b => Sum(Fibre(s, h, b), f)
  }

  lemma OtherFibres<T(!new), U(!new)>(s: set<T>, h: T -> U, b: U, c: U)
    requires b != c
    ensures Fibre(s - Fibre(s, h, b), h, c) == Fibre(s, h, c)
  {
  }

  /** Adding up per group and then over the groups is adding up everything. */
  lemma {:induction false} SumFibres<T(!new), U(!new)>(s: set<T>, f: T -> real, h: T -> U, groups: set<U>)
    requires forall x | x in s :: h(x) in groups
    ensures Sum(s, f) == Sum(groups, FibreSum(s, f, h))
    decreases |groups|
  {
    if groups == {} {
      assert s == {};
    } else {
      var b := Pick(groups);
      var first := Fibre(s, h, b);
      var rest := s - first;
      SumUnion(first, rest, f);
      assert Sum(s, f) == Sum(first, f) + Sum(rest, f) by {
        assert s == first + rest;
      }
      SumFibres(rest, f, h, groups - {b});
      forall c | c in groups - {b} ensures FibreSum(rest, f, h)(c) == FibreSum(s, f, h)(c) {
        OtherFibres(s, h, b, c);
      }
      SumCongruence(groups - {b}, FibreSum(rest, f, h), FibreSum(s, f, h));
    }
  }

  /** AVG over the elements, NULL for none. */
  ghost function Average<T(!new)>(s: set<T>, f: T -> real): real
    requires s != {}
  {
    Sum(s, f) / |s| as real
  }

  lemma AverageRange<T(!new)>(s: set<T>, f: T -> real)
    requires s != {} && forall x | x in s :: 0.0 <= f(x) <= 1.0
    ensures 0.0 <= Average(s, f) <= 1.0
  {
    SumRange(s, f);
    assert |s| > 0;
  }

  /** Renaming the elements one-to-one changes neither sum nor count. */
  lemma {:induction false} SumImage<T(!new), U(!new)>(s: set<T>, image: set<U>, g: T -> U, f: T -> real, f': U -> real)
    requires image == set x | x in s :: g(x)
    requires forall x, y | x in s && y in s :: g(x) == g(y) ==> x == y
    requires forall x | x in s :: f'(g(x)) == f(x)
    ensures Sum(image, f') == Sum(s, f)
    ensures |image| == |s|
    decreases |s|
  {
    if s != {} {
      var x := Pick(s);
      var smaller := image - {g(x)};
      assert smaller == set y | y in s - {x} :: g(y);
      SumImage(s - {x}, smaller, g, f, f');
      SumRemove(image, f', g(x));
      assert image == smaller + {g(x)};
      assert |s| == |s - {x}| + 1;
    }
  }

  /** Elements that add nothing can be left out. */
  lemma SumSupport<T(!new)>(s: set<T>, part: set<T>, f: T -> real)
    requires part <= s && forall x | x in s - part :: f(x) == 0.0
    ensures Sum(s, f) == Sum(part, f)
  {
    assert s == part + (s - part);
    SumUnion(part, s - part, f);
    SumZero(s - part, f);
  }

  lemma {:induction false} SumZero<T(!new)>(s: set<T>, f: T -> real)
    requires forall x | x in s :: f(x) == 0.0
    ensures Sum(s, f) == 0.0
    decreases |s|
  {
    if s != {} {
      SumZero(s - {Pick(s)}, f);
    }
  }
}

/** ORDER BY over finite sets: the sorted sequence, its uniqueness, ranks and reversal. */
module Ordering {
  import opened Common

  ghost predicate StrictTotal<T(!new)>(less: (T, T) -> bool, s: set<T>) {
    && (forall x | x in s :: !less(x, x))
    && (forall x, y, z | x in s && y in s && z in s :: less(x, y) && less(y, z) ==> less(x, z))
    && (forall x, y | x in s && y in s :: x == y || less(x, y) || less(y, x))
  }

  ghost predicate Increasing<T(!new)>(r: seq<T>, less: (T, T) -> bool) {
    forall i, j | 0 <= i < j < |r| :: less(r[i], r[j])
  }

  ghost predicate IsLeast<T(!new)>(x: T, s: set<T>, less: (T, T) -> bool) {
    x in s && forall y | y in s && y != x :: less(x, y)
  }

  lemma {:induction false} LeastExists<T(!new)>(s: set<T>, less: (T, T) -> bool)
    requires s != {} && StrictTotal(less, s)
    ensures exists x :: IsLeast(x, s, less)
    decreases |s|
  {
    var a :| a in s;
    var rest := s - {a};
    if rest == {} {
      assert s == {a};
      assert IsLeast(a, s, less);
    } else {
      LeastExists(rest, less);
      var b :| IsLeast(b, rest, less);
      assert IsLeast(if less(a, b) then a else b, s, less);
    }
  }

  lemma PrependLeast<T(!new)>(s: set<T>, less: (T, T) -> bool, x: T, r: seq<T>)
    requires IsLeast(x, s, less) && Elements(r) == s - {x} && Increasing(r, less) && Distinct(r)
    ensures Elements([x] + r) == s && Increasing([x] + r, less) && Distinct([x] + r)
  {
    assert forall i | 0 <= i < |r| :: r[i] in Elements(r);
    assert Elements([x] + r) == {x} + Elements(r);
  }

  /** The rows of `s` in increasing order. */
  ghost function Sorted<T(!new)>(s: set<T>, less: (T, T) -> bool): (r: seq<T>)
    requires StrictTotal(less, s)
    ensures Elements(r) == s && Increasing(r, less) && Distinct(r)
    decreases |s|
  {
    if s == {} then []
    else
      LeastExists(s, less);
      var x :| IsLeast(x, s, less);
      var r := Sorted(s - {x}, less);
      PrependLeast(s, less, x, r);
      [x] + r
  }

  /** Only one sequence lists `s` in increasing order. */
  lemma {:induction false} SortedUnique<T(!new)>(a: seq<T>, b: seq<T>, less: (T, T) -> bool)
    requires StrictTotal(less, Elements(a)) && Elements(a) == Elements(b)
    requires Increasing(a, less) && Increasing(b, less)
    ensures a == b
    decreases |a|
  {
    EmptyElements(a);
    EmptyElements(b);
    if a != [] {
      FirstIsLeast(a, less);
      FirstIsLeast(b, less);
      LeastIsUnique(Elements(a), less, a[0], b[0]);
      TailElements(a, less);
      TailElements(b, less);
      SortedUnique(a[1..], b[1..], less);
    }
  }

  lemma EmptyElements<T>(s: seq<T>)
    ensures Elements(s) == {} <==> s == []
  {
    if s != [] {
      assert s[0] in Elements(s);
    }
  }

  lemma FirstIsLeast<T(!new)>(a: seq<T>, less: (T, T) -> bool)
    requires a != [] && Increasing(a, less)
    ensures IsLeast(a[0], Elements(a), less)
  {
  }

  lemma LeastIsUnique<T(!new)>(s: set<T>, less: (T, T) -> bool, x: T, y: T)
    requires StrictTotal(less, s) && IsLeast(x, s, less) && IsLeast(y, s, less)
    ensures x == y
  {
  }

  lemma TailElements<T(!new)>(a: seq<T>, less: (T, T) -> bool)
    requires a != [] && Increasing(a, less) && StrictTotal(less, Elements(a))
    ensures Elements(a[1..]) == Elements(a) - {a[0]}
  {
    forall i | 1 <= i < |a| ensures a[i] != a[0] {
      assert a[0] in Elements(a) && less(a[0], a[i]);
    }
  }

  function Select<T>(s: set<T>, p: T -> bool): set<T> {
    set x | x in s && p(x)
  }

  /** Dropping rows from a sorted listing is sorting what is left. */
  lemma SortedFilter<T(!new)>(s: set<T>, less: (T, T) -> bool, p: T -> bool)
    requires StrictTotal(less, s)
    ensures StrictTotal(less, Select(s, p))
    ensures Filter(Sorted(s, less), p) == Sorted(Select(s, p), less)
  {
    var r := Sorted(s, less);
    FilterIncreasing(r, less, p);
    assert forall x | x in r :: x in Elements(r);
    assert Elements(Filter(r, p)) == Select(s, p);
    SortedUnique(Filter(r, p), Sorted(Select(s, p), less), less);
  }

  lemma {:induction false} FilterIncreasing<T(!new)>(r: seq<T>, less: (T, T) -> bool, p: T -> bool)
    requires Increasing(r, less)
    ensures Increasing(Filter(r, p), less)
  {
    if r != [] {
      FilterIncreasing(r[1..], less, p);
      forall x | x in Filter(r[1..], p) ensures less(r[0], x) {
        var i :| 0 <= i < |r[1..]| && r[1..][i] == x;
        assert less(r[0], r[i + 1]);
      }
    }
  }

  function Reverse<T>(s: seq<T>): (r: seq<T>)
    ensures |r| == |s|
  {
    seq(|s|, i requires 0 <= i < |s| => s[|s| - 1 - i])
  }

  lemma ReverseElements<T>(s: seq<T>)
    ensures Elements(Reverse(s)) == Elements(s)
  {
    var r := Reverse(s);
    forall i | 0 <= i < |s| ensures s[i] in r && r[i] in s {
      assert r[|s| - 1 - i] == s[i] && s[|s| - 1 - i] == r[i];
    }
  }

  lemma ReverseIncreasing<T(!new)>(s: seq<T>, less: (T, T) -> bool, more: (T, T) -> bool)
    requires Increasing(s, less) && forall x, y | x in s && y in s :: more(x, y) == less(y, x)
    ensures Increasing(Reverse(s), more)
  {
    var r := Reverse(s);
    forall i, j | 0 <= i < j < |r| ensures more(r[i], r[j]) {
      assert less(s[|s| - 1 - j], s[|s| - 1 - i]);
    }
  }

  lemma OppositeIsTotal<T(!new)>(s: set<T>, less: (T, T) -> bool, more: (T, T) -> bool)
    requires StrictTotal(less, s) && forall x, y | x in s && y in s :: more(x, y) == less(y, x)
    ensures StrictTotal(more, s)
  {
  }

  /** Sorting by the opposite order gives the reverse. */
  lemma SortedReverse<T(!new)>(s: set<T>, less: (T, T) -> bool, more: (T, T) -> bool)
    requires StrictTotal(less, s)
    requires forall x, y | x in s && y in s :: more(x, y) == less(y, x)
    ensures StrictTotal(more, s)
    ensures Sorted(s, more) == Reverse(Sorted(s, less))
  {
    var a := Sorted(s, less);
    OppositeIsTotal(s, less, more);
    assert forall x | x in a :: x in Elements(a);
    ReverseElements(a);
    ReverseIncreasing(a, less, more);
    SortedUnique(Sorted(s, more), Reverse(a), more);
  }

  /** How many rows come before `x`; ROW_NUMBER() is one more. */
  ghost function Position<T(!new)>(s: set<T>, less: (T, T) -> bool, x: T): nat {
    |set y | y in s && less(y, x)|
  }

  /** What comes before a row is the part of the listing before it. */
  lemma BeforeIsPrefix<T(!new)>(r: seq<T>, less: (T, T) -> bool, i: nat)
    requires StrictTotal(less, Elements(r)) && Increasing(r, less) && i < |r|
    ensures (set y | y in Elements(r) && less(y, r[i])) == Elements(r[..i])
  {
    assert r[i] in Elements(r);
    forall j | 0 <= j < |r| ensures less(r[j], r[i]) <==> j < i {
      assert r[j] in Elements(r);
    }
    forall y | y in Elements(r) && less(y, r[i]) ensures y in r[..i] {
      var j :| 0 <= j < |r| && r[j] == y;
      assert y == r[..i][j];
    }
  }

  /** The position of a row is its index in the sorted listing. */
  lemma PositionIsIndex<T(!new)>(s: set<T>, less: (T, T) -> bool, i: nat)
    requires StrictTotal(less, s) && i < |Sorted(s, less)|
    ensures Position(s, less, Sorted(s, less)[i]) == i
  {
    var r := Sorted(s, less);
    BeforeIsPrefix(r, less, i);
    DistinctCardinality(r[..i]);
  }

  /** A row is among the first `n` of the listing iff fewer than `n` rows come before it. */
  lemma AmongFirst<T(!new)>(s: set<T>, less: (T, T) -> bool, n: nat, x: T)
    requires StrictTotal(less, s) && x in s
    ensures x in Sorted(s, less)[..Min(n, |Sorted(s, less)|)] <==> Position(s, less, x) < n
  {
    var r := Sorted(s, less);
    assert x in Elements(r);
    var i :| 0 <= i < |r| && r[i] == x;
    PositionIsIndex(s, less, i);
    var first := r[..Min(n, |r|)];
    if i < n {
      assert first[i] == x;
    }
    if x in first {
      var j :| 0 <= j < |first| && first[j] == x;
      assert r[j] == r[i];
    }
  }

  /** What sorts before stands before. */
  lemma StandsBefore<T(!new)>(s: set<T>, less: (T, T) -> bool, x: T, y: T)
    requires StrictTotal(less, s) && x in s && y in s && less(x, y)
    ensures exists i, j | 0 <= i < j < |Sorted(s, less)| :: Sorted(s, less)[i] == x && Sorted(s, less)[j] == y
  {
    var r := Sorted(s, less);
    assert x in Elements(r) && y in Elements(r);
    var i :| 0 <= i < |r| && r[i] == x;
    var j :| 0 <= j < |r| && r[j] == y;
    forall m, n | 0 <= m < n < |r| ensures !less(r[n], r[m]) {
      assert less(r[m], r[n]) && r[m] in Elements(r) && r[n] in Elements(r);
    }
  }

  /** Keeping the first `n` positions keeps min(n, |s|) rows. */
  lemma FirstPositions<T(!new)>(s: set<T>, less: (T, T) -> bool, n: nat)
    requires StrictTotal(less, s)
    ensures |set x | x in s && Position(s, less, x) < n| == if n <= |s| then n else |s|
  {
    var r := Sorted(s, less);
    DistinctCardinality(r);
    var m := if n <= |s| then n else |s|;
    var kept := set x | x in s && Position(s, less, x) < n;
    assert kept == Elements(r[..m]) by {
      forall x | x in s ensures x in kept <==> x in r[..m] {
        assert x in Elements(r);
        var i :| 0 <= i < |r| && r[i] == x;
        PositionIsIndex(s, less, i);
        assert i < m ==> r[..m][i] == x;
        assert forall j | 0 <= j < m :: r[..m][j] == r[j];
      }
    }
    DistinctCardinality(r[..m]);
  }

  lemma PositionIs<T(!new)>(s: set<T>, less: (T, T) -> bool, x: T, before: set<T>)
    requires forall y :: y in before <==> y in s && less(y, x)
    ensures Position(s, less, x) == |before|
  {
    assert (set y | y in s && less(y, x)) == before;
  }

  lemma PositionCongruence<T(!new)>(s: set<T>, less: (T, T) -> bool, less': (T, T) -> bool, x: T)
    requires forall y | y in s :: less(y, x) == less'(y, x)
    ensures Position(s, less, x) == Position(s, less', x)
  {
    assert (set y | y in s && less(y, x)) == (set y | y in s && less'(y, x));
  }

  /** An earlier row has a smaller position, so positions never tie. */
  lemma PositionIncreases<T(!new)>(s: set<T>, less: (T, T) -> bool, x: T, y: T)
    requires StrictTotal(less, s) && x in s && y in s && less(x, y)
    ensures Position(s, less, x) < Position(s, less, y)
  {
    var a, b := set z | z in s && less(z, x), set z | z in s && less(z, y);
    assert a <= b - {x};
    assert b == a + (b - a) && x in b - a;
  }

  /** Orders that agree on the rows sort them alike. */
  lemma SortedCongruence<T(!new)>(s: set<T>, less: (T, T) -> bool, less': (T, T) -> bool)
    requires StrictTotal(less, s)
    requires forall x, y | x in s && y in s :: less(x, y) == less'(x, y)
    ensures StrictTotal(less', s)
    ensures Sorted(s, less) == Sorted(s, less')
  {
    var r := Sorted(s, less);
    assert forall i | 0 <= i < |r| :: r[i] in Elements(r);
    SortedUnique(r, Sorted(s, less'), less');
  }
}

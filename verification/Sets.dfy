// Finite sets: least elements and cardinalities.
module Sets {

  lemma Pick<T>(s: set<T>) returns (x: T)
    requires s != {}
    ensures x in s
  {
    assert |s| != 0;
    x :| x in s;
  }

  lemma {:induction false} SubsetIsSmaller<T>(a: set<T>, b: set<T>)
    requires a <= b
    ensures |a| <= |b|
  {
    if a != {} {
      var x := Pick(a);
      SubsetIsSmaller(a - {x}, b - {x});
    }
  }

  lemma SingletonHasOne<T>(s: set<T>)
    requires |s| == 1
    ensures exists x :: s == {x}
  {
    var x := Pick(s);
    if y :| y in s && y != x {
      SubsetIsSmaller({x, y}, s);
    }
    assert s == {x};
  }

  function SoleElement<T>(s: set<T>): (x: T)
    requires |s| == 1
    ensures s == {x}
  {
    SingletonHasOne(s);
    var x :| s == {x};
    x
  }

  predicate IsLeast(s: set<int>, x: int) {
    x in s && forall y :: y in s ==> x <= y
  }

  lemma {:induction false} HasLeast(s: set<int>)
    requires s != {}
    ensures exists x :: IsLeast(s, x)
    decreases |s|
  {
    var z := Pick(s);
    if s - {z} == {} {
      assert s == {z};
      assert IsLeast(s, z);
    } else {
      HasLeast(s - {z});
      var x :| IsLeast(s - {z}, x);
      assert forall y :: y in s ==> y == z || y in s - {z};
      assert IsLeast(s, if x <= z then x else z);
    }
  }

  function Least(s: set<int>): (x: int)
    requires s != {}
    ensures IsLeast(s, x)
  {
    HasLeast(s);
    var x :| IsLeast(s, x);
    x
  }

  // The sum of f over s.
  function Total(s: set<int>, f: int -> nat): nat
    decreases |s|
  {
    if s == {} then 0
    else
      var x := Least(s);
      f(x) + Total(s - {x}, f)
  }

  lemma {:induction false} TotalSplits(s: set<int>, f: int -> nat, x: int)
    requires x in s
    ensures Total(s, f) == f(x) + Total(s - {x}, f)
    decreases |s|
  {
    var y := Least(s);
    if x != y {
      TotalSplits(s - {y}, f, x);
      TotalSplits(s - {x}, f, y);
      assert s - {x} - {y} == s - {y} - {x};
    }
  }

  // If g is nowhere more than f, and less on b, then its sum is less by at least the size of b.
  lemma {:induction false} TotalDrops(s: set<int>, b: set<int>, f: int -> nat, g: int -> nat)
    requires forall x :: x in s ==> g(x) <= f(x)
    requires b <= s && forall x :: x in b ==> g(x) < f(x)
    ensures Total(s, g) + |b| <= Total(s, f)
    decreases |s|
  {
    if s != {} {
      var x := Least(s);
      TotalSplits(s, g, x);
      TotalDrops(s - {x}, b - {x}, f, g);
    }
  }
}

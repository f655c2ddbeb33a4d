/** Names in the order in which `std::map` and `std::set` keep strings. */
module NameOrder {
  predicate Before(a: string, b: string) {
    b != [] && (a == [] || a[0] < b[0] || (a[0] == b[0] && Before(a[1..], b[1..])))
  }

  /** Where two names part, the smaller character comes first; a name comes before its extensions. */
  lemma {:induction false} BeforeAtFirstDifference(a: string, b: string)
    ensures Before(a, b) <==>
            exists i: nat :: i <= |a| && i < |b| && a[..i] == b[..i] && (i < |a| ==> a[i] < b[i])
  {
    if b != [] && a != [] {
      var x, y := a[1..], b[1..];
      BeforeAtFirstDifference(x, y);
      if a[0] == b[0] && Before(x, y) {
        var i: nat :| i <= |x| && i < |y| && x[..i] == y[..i] && (i < |x| ==> x[i] < y[i]);
        assert a[..i + 1] == [a[0]] + x[..i] && b[..i + 1] == [b[0]] + y[..i];
      }
      if i: nat :| i <= |a| && i < |b| && a[..i] == b[..i] && (i < |a| ==> a[i] < b[i]) {
        if i > 0 {
          assert a[..i][0] == b[..i][0];
          assert x[..i - 1] == a[..i][1..] && y[..i - 1] == b[..i][1..];
          assert i - 1 <= |x| && i - 1 < |y| && x[..i - 1] == y[..i - 1] && (i - 1 < |x| ==> x[i - 1] < y[i - 1]);
        }
      }
      if a[0] < b[0] {
        assert a[..0] == b[..0];
      }
    } else if b != [] {
      assert a[..0] == b[..0];
    }
  }

  predicate Least(n: string, names: set<string>) {
    n in names && forall x | x in names :: x == n || Before(n, x)
  }

  lemma {:induction false} Transitive(a: string, b: string, c: string)
    requires Before(a, b) && Before(b, c)
    ensures Before(a, c)
  {
    if a != [] && a[0] == b[0] == c[0] {
      Transitive(a[1..], b[1..], c[1..]);
    }
  }

  lemma {:induction false} Total(a: string, b: string)
    ensures a == b || Before(a, b) || Before(b, a)
    ensures !(Before(a, b) && Before(b, a)) && !Before(a, a)
  {
    if a != [] && b != [] {
      Total(a[1..], b[1..]);
      assert a == [a[0]] + a[1..] && b == [b[0]] + b[1..];
    }
    if a != [] {
      Total(a[1..], a[1..]);
    }
  }

  lemma OneLeast(m: string, n: string, names: set<string>)
    requires Least(m, names) && Least(n, names)
    ensures m == n
  {
    Total(m, n);
  }

  lemma {:induction false} LeastExists(names: set<string>)
    requires names != {}
    ensures exists n :: Least(n, names)
  {
    var x :| x in names;
    if names == {x} {
      assert Least(x, names);
    } else {
      LeastExists(names - {x});
      var n :| Least(n, names - {x});
      Total(n, x);
      if Before(x, n) {
        forall y | y in names && y != x && y != n ensures Before(x, y) {
          Transitive(x, n, y);
        }
        assert Least(x, names);
      } else {
        assert Least(n, names);
      }
    }
  }

  ghost function LeastOf(names: set<string>): (n: string)
    requires names != {}
    ensures Least(n, names)
  {
    LeastExists(names);
    var n :| Least(n, names);
    n
  }

  /** `*names.begin()`. */
  method First(names: set<string>) returns (n: string)
    requires names != {}
    ensures Least(n, names)
  {
    n :| n in names;
    var rest := names - {n};
    while rest != {}
      invariant n in names && rest <= names
      invariant forall x | x in names - rest :: x == n || Before(n, x)
      decreases rest
    {
      var x :| x in rest;
      Total(n, x);
      if Before(x, n) {
        forall y | y in names - rest && y != n ensures Before(x, y) {
          Transitive(x, n, y);
        }
        n := x;
      }
      rest := rest - {x};
    }
  }

  /** A sequence longer than the set its elements come from repeats one of them. */
  lemma {:induction false} Pigeonhole(left: set<string>, w: seq<string>) returns (i: nat, j: nat)
    requires (forall k | 0 <= k < |w| :: w[k] in left) && |w| > |left|
    ensures i < j < |w| && w[i] == w[j]
    decreases |w|
  {
    var n := |w| - 1;
    if k :| 0 <= k < n && w[k] == w[n] {
      i, j := k, n;
    } else {
      i, j := Pigeonhole(left - {w[n]}, w[..n]);
    }
  }
}

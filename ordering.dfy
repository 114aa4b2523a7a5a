/**
 * Python's ordering of strings (`a < b`: code points compared left to right,
 * a proper prefix first) and `sorted()` of a set of strings.
 */
module Ordering {

  /** `a < b` on Python strings. */
  predicate Below(a: string, b: string)
  {
    if a == [] then b != []
    else b != [] && (a[0] < b[0] || (a[0] == b[0] && Below(a[1..], b[1..])))
  }

  lemma {:induction false} BelowIrreflexive(a: string)
    ensures !Below(a, a)
    decreases |a|
  {
    if a != [] {
      BelowIrreflexive(a[1..]);
    }
  }

  lemma {:induction false} BelowTransitive(a: string, b: string, c: string)
    requires Below(a, b) && Below(b, c)
    ensures Below(a, c)
    decreases |a|
  {
    if a != [] && a[0] == b[0] && b[0] == c[0] {
      BelowTransitive(a[1..], b[1..], c[1..]);
    }
  }

  /** Any two different strings are ordered one way or the other. */
  lemma {:induction false} BelowTotal(a: string, b: string)
    requires a != b
    ensures Below(a, b) || Below(b, a)
    decreases |a|
  {
    if a != [] && b != [] && a[0] == b[0] {
      assert a == [a[0]] + a[1..] && b == [b[0]] + b[1..];
      BelowTotal(a[1..], b[1..]);
    }
  }

  lemma BelowAsymmetric(a: string, b: string)
    requires Below(a, b)
    ensures !Below(b, a)
  {
    if Below(b, a) {
      BelowTransitive(a, b, a);
      BelowIrreflexive(a);
    }
  }

  /** Strictly increasing, so also free of repetitions. */
  predicate Ascending(q: seq<string>)
  {
    forall i, j :: 0 <= i < j < |q| ==> Below(q[i], q[j])
  }

  function Elements(q: seq<string>): set<string>
  {
    set x | x in q
  }

  /** `m` is the least element of `s`. */
  predicate Least(m: string, s: set<string>)
  {
    m in s && forall x :: x in s && x != m ==> Below(m, x)
  }

  lemma {:induction false} LeastExists(s: set<string>)
    requires s != {}
    ensures exists m :: Least(m, s)
    decreases |s|
  {
    var x :| x in s;
    var rest := s - {x};
    if rest == {} {
      forall z | z in s ensures z == x {
        assert z !in rest;
      }
      assert Least(x, s);
    } else {
      LeastExists(rest);
      var y :| Least(y, rest);
      if Below(x, y) {
        forall z | z in s && z != x ensures Below(x, z) {
          if z != y {
            BelowTransitive(x, y, z);
          }
        }
        assert Least(x, s);
      } else {
        BelowTotal(x, y);
        forall z | z in s && z != y ensures Below(y, z) {
        }
        assert Least(y, s);
      }
    }
  }

  lemma {:induction false} SortedExists(s: set<string>)
    ensures exists q :: Ascending(q) && Elements(q) == s
    decreases |s|
  {
    if s == {} {
      assert Ascending([]) && Elements([]) == s;
    } else {
      LeastExists(s);
      var m :| Least(m, s);
      SortedExists(s - {m});
      var q :| Ascending(q) && Elements(q) == s - {m};
      forall x | x in Elements(q) ensures Below(m, x) {
        assert x in s && x != m;
      }
      ConsAscending(m, q);
      ElementsCons(m, q);
    }
  }

  lemma ConsAscending(m: string, q: seq<string>)
    requires Ascending(q) && forall x :: x in Elements(q) ==> Below(m, x)
    ensures Ascending([m] + q)
  {
    var q' := [m] + q;
    forall i, j | 0 <= i < j < |q'| ensures Below(q'[i], q'[j]) {
      if i == 0 {
        assert q'[j] == q[j - 1] && q[j - 1] in Elements(q);
      } else {
        assert q'[i] == q[i - 1] && q'[j] == q[j - 1];
      }
    }
  }

  lemma ElementsEmpty(q: seq<string>)
    ensures Elements(q) == {} ==> q == []
  {
    if q != [] {
      assert q[0] in Elements(q);
    }
  }

  lemma ElementsCons(m: string, q: seq<string>)
    ensures Elements([m] + q) == {m} + Elements(q)
  {
  }

  lemma ElementsSnoc(q: seq<string>, m: string)
    ensures Elements(q + [m]) == Elements(q) + {m}
  {
  }

  /** `sorted(s)`: the ascending sequence of the elements of `s`. */
  ghost function Sorted(s: set<string>): (q: seq<string>)
    ensures Ascending(q) && Elements(q) == s
  {
    SortedExists(s);
    var q :| Ascending(q) && Elements(q) == s;
    q
  }

  /** The first element of an ascending sequence is the least of its elements. */
  lemma HeadIsLeast(q: seq<string>)
    requires Ascending(q) && q != []
    ensures Least(q[0], Elements(q))
    ensures Elements(q[1..]) == Elements(q) - {q[0]}
  {
    forall x | x in Elements(q) && x != q[0] ensures Below(q[0], x) {
      var k :| 0 <= k < |q| && q[k] == x;
    }
    forall x ensures x in Elements(q[1..]) <==> x in Elements(q) - {q[0]} {
      if x in Elements(q[1..]) {
        var k :| 0 <= k < |q[1..]| && q[1..][k] == x;
        assert q[k + 1] == x;
        BelowIrreflexive(q[0]);
      }
      if x in Elements(q) - {q[0]} {
        var k :| 0 <= k < |q| && q[k] == x;
        assert q[1..][k - 1] == x;
      }
    }
  }

  /** Only one ascending sequence lists a given set: `sorted` is determined. */
  lemma {:induction false} AscendingUnique(p: seq<string>, q: seq<string>)
    requires Ascending(p) && Ascending(q) && Elements(p) == Elements(q)
    ensures p == q
    decreases |p|
  {
    if p == [] {
      ElementsEmpty(q);
    } else {
      assert q != [] by {
        assert p[0] in Elements(p);
      }
      HeadIsLeast(p);
      HeadIsLeast(q);
      if p[0] != q[0] {
        BelowAsymmetric(p[0], q[0]);
      }
      AscendingUnique(p[1..], q[1..]);
      assert p == [p[0]] + p[1..] && q == [q[0]] + q[1..];
    }
  }

  /** One selection step keeps the invariant of `Sort`. */
  lemma SortStep(s: set<string>, q: seq<string>, rest: set<string>, m: string)
    requires Ascending(q) && Elements(q) + rest == s && Elements(q) !! rest
    requires forall i, x :: 0 <= i < |q| && x in rest ==> Below(q[i], x)
    requires Least(m, rest)
    ensures Ascending(q + [m]) && Elements(q + [m]) + (rest - {m}) == s && Elements(q + [m]) !! rest - {m}
    ensures forall i, x :: 0 <= i < |q + [m]| && x in rest - {m} ==> Below((q + [m])[i], x)
  {
    ElementsSnoc(q, m);
    var q' := q + [m];
    forall i, j | 0 <= i < j < |q'| ensures Below(q'[i], q'[j]) {
      if j == |q| {
        assert q'[i] == q[i] && q'[j] == m;
      } else {
        assert q'[i] == q[i] && q'[j] == q[j];
      }
    }
    forall i, x | 0 <= i < |q'| && x in rest - {m} ensures Below(q'[i], x) {
      if i == |q| {
        assert q'[i] == m;
      } else {
        assert q'[i] == q[i];
      }
    }
  }

  /** Selection of the least remaining element, one at a time. */
  method Sort(s: set<string>) returns (q: seq<string>)
    ensures q == Sorted(s)
  {
    var rest := s;
    q := [];
    while rest != {}
      invariant Ascending(q) && Elements(q) + rest == s && Elements(q) !! rest
      invariant forall i, x :: 0 <= i < |q| && x in rest ==> Below(q[i], x)
      decreases |rest|
    {
      LeastExists(rest);
      var m :| Least(m, rest);
      SortStep(s, q, rest, m);
      q := q + [m];
      rest := rest - {m};
    }
    AscendingUnique(q, Sorted(s));
  }
}

/**
 * Optional values and results with an error, standing for Python's `None`
 * returns and raised exceptions, and the values present in a list of
 * optional ones (a loop that appends only what it found) and the first
 * position holding one (a search that stops at the first match).
 */
module Wrappers {

  datatype Option<T> = None | Some(value: T)

  datatype Result<T, E> = Success(value: T) | Failure(error: E)

  /** The values present in a list of optional values, in order. */
  function Present<T>(ps: seq<Option<T>>): (r: seq<T>)
    ensures |r| <= |ps|
  {
    if ps == [] then []
    else Present(ps[..|ps| - 1]) + (if ps[|ps| - 1].Some? then [ps[|ps| - 1].value] else [])
  }

  lemma {:induction false} PresentConcat<T>(p: seq<Option<T>>, q: seq<Option<T>>)
    ensures Present(p + q) == Present(p) + Present(q)
    decreases |q|
  {
    if q == [] {
      assert p + q == p;
      assert Present(p) + [] == Present(p);
    } else {
      var c := p + q;
      var front := q[..|q| - 1];
      assert c[..|c| - 1] == p + front;
      assert c[|c| - 1] == q[|q| - 1];
      PresentConcat(p, front);
    }
  }

  /** A value is present exactly when some position holds it. */
  lemma {:induction false} PresentMembers<T>(ps: seq<Option<T>>, e: T)
    ensures e in Present(ps) <==> exists j :: 0 <= j < |ps| && ps[j] == Some(e)
    decreases |ps|
  {
    if ps != [] {
      var front := ps[..|ps| - 1];
      PresentMembers(front, e);
      assert forall j :: 0 <= j < |front| ==> front[j] == ps[j];
      if exists j :: 0 <= j < |ps| && ps[j] == Some(e) {
        var j :| 0 <= j < |ps| && ps[j] == Some(e);
        if j < |front| {
          assert front[j] == Some(e);
        }
      }
    }
  }

  lemma {:induction false} PresentNone<T>(ps: seq<Option<T>>)
    requires forall j :: 0 <= j < |ps| ==> ps[j].None?
    ensures Present(ps) == []
    decreases |ps|
  {
    if ps != [] {
      PresentNone(ps[..|ps| - 1]);
    }
  }

  /** The first position at or after `k` holding a value. */
  function FirstSome<T>(rs: seq<Option<T>>, k: nat): (r: Option<nat>)
    requires k <= |rs|
    ensures r.Some? ==> k <= r.value < |rs| && rs[r.value].Some?
    ensures r.Some? ==> forall j :: k <= j < r.value ==> rs[j].None?
    ensures r.None? ==> forall j :: k <= j < |rs| ==> rs[j].None?
    decreases |rs| - k
  {
    if k == |rs| then None
    else if rs[k].Some? then Some(k)
    else FirstSome(rs, k + 1)
  }

  /** A position holding a value with none before it is the one found. */
  lemma {:induction false} FirstSomeIs<T>(rs: seq<Option<T>>, from: nat, k: nat)
    requires from <= k < |rs| && rs[k].Some?
    requires forall j :: from <= j < k ==> rs[j].None?
    ensures FirstSome(rs, from) == Some(k)
    decreases k - from
  {
    if from < k {
      FirstSomeIs(rs, from + 1, k);
    }
  }
}

/** Sequences without repetition and their element sets. */
module Sequences {

  function Elems<T>(s: seq<T>): set<T> {
    set x | x in s
  }

  predicate Distinct<T(==)>(s: seq<T>) {
    forall i, j :: 0 <= i < j < |s| ==> s[i] != s[j]
  }

  lemma ElemsAppend<T>(a: seq<T>, b: seq<T>)
    ensures Elems(a + b) == Elems(a) + Elems(b)
  {
  }

  lemma {:induction false} ElemsTake<T>(s: seq<T>, k: nat)
    requires k < |s|
    ensures Elems(s[..k + 1]) == Elems(s[..k]) + {s[k]}
    ensures Distinct(s) ==> s[k] !in Elems(s[..k])
  {
    assert s[..k + 1] == s[..k] + [s[k]];
  }

  lemma DistinctAppend<T>(a: seq<T>, b: seq<T>)
    ensures Distinct(a + b) <==> Distinct(a) && Distinct(b) && Elems(a) !! Elems(b)
  {
    if Distinct(a + b) {
      forall i, j | 0 <= i < |a| && 0 <= j < |b|
        ensures a[i] != b[j]
      {
        assert (a + b)[i] == a[i] && (a + b)[|a| + j] == b[j];
      }
      assert forall i, j :: 0 <= i < j < |a| ==> (a + b)[i] == a[i] && (a + b)[j] == a[j];
      assert forall i, j :: 0 <= i < j < |b| ==> (a + b)[|a| + i] == b[i] && (a + b)[|a| + j] == b[j];
    }
    if Distinct(a) && Distinct(b) && Elems(a) !! Elems(b) {
      forall i, j | 0 <= i < j < |a + b|
        ensures (a + b)[i] != (a + b)[j]
      {
        if i < |a| <= j {
          assert a[i] in Elems(a) && b[j - |a|] in Elems(b);
        }
      }
    }
  }

  lemma {:induction false} DistinctSize<T>(s: seq<T>)
    requires Distinct(s)
    ensures |Elems(s)| == |s|
  {
    if s == [] {
      assert Elems(s) == {};
    } else {
      var n := |s| - 1;
      ElemsTake(s, n);
      DistinctTake(s, n);
      assert s[..n + 1] == s;
      hide Distinct, Elems;
      DistinctSize(s[..n]);
    }
  }

  lemma DistinctTake<T>(s: seq<T>, k: nat)
    requires Distinct(s) && k <= |s|
    ensures Distinct(s[..k])
  {
  }

  function Reverse<T>(s: seq<T>): (r: seq<T>)
    ensures |r| == |s|
  {
    seq(|s|, i requires 0 <= i < |s| => s[|s| - 1 - i])
  }

  lemma ReverseTwice<T>(s: seq<T>)
    ensures Reverse(Reverse(s)) == s
  {
  }

  /** The elements of s that are not in t, in order. */
  function Without<T(==)>(s: seq<T>, t: set<T>): (r: seq<T>) {
    if s == [] then []
    else if s[|s| - 1] in t then Without(s[..|s| - 1], t)
    else Without(s[..|s| - 1], t) + [s[|s| - 1]]
  }

  lemma {:induction false} WithoutElems<T>(s: seq<T>, t: set<T>)
    ensures Elems(Without(s, t)) == Elems(s) - t
    ensures Distinct(s) ==> Distinct(Without(s, t))
  {
    if s != [] {
      var r, x := s[..|s| - 1], s[|s| - 1];
      WithoutElems(r, t);
      assert s == r + [x];
      ElemsAppend(r, [x]);
      ElemsAppend(Without(r, t), [x]);
      DistinctAppend(r, [x]);
      DistinctAppend(Without(r, t), [x]);
      assert Elems([x]) == {x};
    }
  }

  lemma {:induction false} WithoutAppend<T>(a: seq<T>, b: seq<T>, t: set<T>)
    ensures Without(a + b, t) == Without(a, t) + Without(b, t)
  {
    if b == [] {
      assert a + b == a;
    } else {
      WithoutAppend(a, b[..|b| - 1], t);
      assert (a + b)[..|a + b| - 1] == a + b[..|b| - 1];
    }
  }

  lemma {:induction false} WithoutNothing<T>(s: seq<T>, t: set<T>)
    requires Elems(s) !! t
    ensures Without(s, t) == s
  {
    if s != [] {
      assert s[|s| - 1] in s && s[..|s| - 1] + [s[|s| - 1]] == s;
      WithoutNothing(s[..|s| - 1], t);
    }
  }

  lemma {:induction false} WithoutAll<T>(s: seq<T>, t: set<T>)
    requires Elems(s) <= t
    ensures Without(s, t) == []
  {
    if s != [] {
      assert s[|s| - 1] in s;
      WithoutAll(s[..|s| - 1], t);
    }
  }

  lemma {:induction false} WithoutTwice<T>(s: seq<T>, t: set<T>, u: set<T>)
    ensures Without(Without(s, t), u) == Without(s, t + u)
  {
    if s != [] {
      var r, x := s[..|s| - 1], s[|s| - 1];
      WithoutTwice(r, t, u);
      var w := Without(r, t);
      if x !in t {
        assert (w + [x])[..|w + [x]| - 1] == w;
      }
    }
  }

  lemma LeastExists(s: set<nat>)
    requires s != {}
    ensures exists x :: x in s && forall y :: y in s ==> x <= y
  {
    var x := LeastOf(s);
  }

  lemma {:induction false} LeastOf(s: set<nat>) returns (x: nat)
    requires s != {}
    ensures x in s && forall y :: y in s ==> x <= y
    decreases s
  {
    x :| x in s;
    var rest := s - {x};
    assert forall y :: y in s ==> y == x || y in rest;
    if rest != {} {
      var z := LeastOf(rest);
      x := if z < x then z else x;
    }
  }

  function First(s: set<nat>): (x: nat)
    requires s != {}
    ensures x in s && forall y :: y in s ==> x <= y
  {
    LeastExists(s);
    var x :| x in s && forall y :: y in s ==> x <= y;
    x
  }
}

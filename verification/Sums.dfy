/** Order-independent sums and unions. */
module Sums {

  ghost function Sum<T(!new)>(s: set<T>, f: T -> nat): nat {
    if s == {} then 0
    else
      var x :| x in s;
      f(x) + Sum(s - {x}, f)
  }

  /** Any element may be taken out first. */
  lemma {:induction false} SumTakes<T(!new)>(s: set<T>, f: T -> nat, y: T)
    requires y in s
    ensures Sum(s, f) == f(y) + Sum(s - {y}, f)
    decreases |s|
  {
    var x :| x in s && Sum(s, f) == f(x) + Sum(s - {x}, f);
    if x != y {
      SumTakes(s - {x}, f, y);
      SumTakes(s - {y}, f, x);
      assert s - {x} - {y} == s - {y} - {x};
    }
  }

  ghost function Union<T>(s: seq<set<T>>): set<T> {
    if s == [] then {} else Union(s[..|s| - 1]) + s[|s| - 1]
  }

  lemma {:induction false} UnionIs<T>(s: seq<set<T>>, x: T)
    ensures x in Union(s) <==> exists i | 0 <= i < |s| :: x in s[i]
  {
    if s != [] { UnionIs(s[..|s| - 1], x); }
  }

  /** Enlarging one part enlarges the union by the same elements. */
  lemma UnionGrows<T(!new)>(s: seq<set<T>>, i: nat, more: set<T>)
    requires i < |s|
    ensures Union(s[i := s[i] + more]) == Union(s) + more
  {
    var t := s[i := s[i] + more];
    forall x ensures x in Union(t) <==> x in Union(s) + more {
      UnionIs(s, x);
      UnionIs(t, x);
      if j :| 0 <= j < |s| && x in s[j] { assert x in t[j]; }
      if x in more { assert x in t[i]; }
      if j :| 0 <= j < |t| && x in t[j] { assert j != i ==> x in s[j]; }
    }
  }

  /** Emptying one part loses nothing that is added elsewhere. */
  lemma UnionHandsOver<T(!new)>(s: seq<set<T>>, i: nat)
    requires i < |s|
    ensures Union(s[i := {}]) + s[i] == Union(s)
  {
    var t := s[i := {}];
    forall x ensures x in Union(t) + s[i] <==> x in Union(s) {
      UnionIs(s, x);
      UnionIs(t, x);
      if j :| 0 <= j < |s| && x in s[j] { assert j != i ==> x in t[j]; }
      if j :| 0 <= j < |t| && x in t[j] { assert x in s[j]; }
    }
  }
}

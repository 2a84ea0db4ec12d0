/** Owner names as label sequences, leftmost label first; the root is the empty sequence. */
module Names {
  import opened Bytes

  type Label = Bytes
  type Name = seq<Label>

  function Parent(name: Name): Name {
    if |name| <= 1 then [] else name[1..]
  }

  /** At or under `origin`. */
  predicate IsSubdomain(name: Name, origin: Name) {
    |origin| <= |name| && name[|name| - |origin|..] == origin
  }

  // ---------------------------------------------------------------------------
  // Canonical order (section 6.1 of RFC 4034)
  // ---------------------------------------------------------------------------

  function Init(name: Name): Name
    requires name != []
  {
    name[..|name| - 1]
  }

  function Last(name: Name): Label
    requires name != []
  {
    name[|name| - 1]
  }

  /** Compares label by label from the right; a name that runs out of labels comes first. */
  function CanonicalCmp(a: Name, b: Name): int {
    if a == [] || b == [] then |a| - |b|
    else if Last(a) == Last(b) then CanonicalCmp(Init(a), Init(b))
    else if Less(Last(a), Last(b)) then -1
    else 1
  }

  predicate Before(a: Name, b: Name) {
    CanonicalCmp(a, b) < 0
  }

  lemma Split(a: Name)
    requires a != []
    ensures a == Init(a) + [Last(a)]
  {
  }

  /** Comparing in the other direction gives the opposite sign, and only equal names compare equal. */
  lemma {:induction false} CmpAntisymmetric(a: Name, b: Name)
    ensures CanonicalCmp(a, b) == 0 <==> a == b
    ensures CanonicalCmp(a, b) < 0 <==> CanonicalCmp(b, a) > 0
  {
    if a != [] && b != [] {
      Split(a);
      Split(b);
      LessTotal(Last(a), Last(b));
      if Less(Last(a), Last(b)) && Less(Last(b), Last(a)) {
        LessTransitive(Last(a), Last(b), Last(a));
      }
      LessIrreflexive(Last(a));
      CmpAntisymmetric(Init(a), Init(b));
    }
  }

  lemma {:induction false} BeforeTransitive(a: Name, b: Name, c: Name)
    requires Before(a, b) && Before(b, c)
    ensures Before(a, c)
  {
    if a != [] && b != [] && c != [] {
      var x, y, z := Last(a), Last(b), Last(c);
      if x == y && y == z {
        BeforeTransitive(Init(a), Init(b), Init(c));
      } else if x != y && y != z {
        LessTransitive(x, y, z);
        LessIrreflexive(x);
      }
    }
  }

  /** `CanonicalCmp` is a strict total order on names. */
  lemma BeforeIsTotalOrder()
    ensures forall a: Name :: !Before(a, a)
    ensures forall a: Name, b: Name, c: Name :: Before(a, b) && Before(b, c) ==> Before(a, c)
    ensures forall a: Name, b: Name :: Before(a, b) || a == b || Before(b, a)
  {
    forall a: Name ensures !Before(a, a) { CmpAntisymmetric(a, a); }
    forall a: Name, b: Name, c: Name | Before(a, b) && Before(b, c) ensures Before(a, c) { BeforeTransitive(a, b, c); }
    forall a: Name, b: Name ensures Before(a, b) || a == b || Before(b, a) {
      CmpAntisymmetric(a, b);
      CmpAntisymmetric(b, a);
    }
  }

  /** The names share their last `k` labels, and in front of these the left one has the smaller label or none. */
  predicate SplitsAt(a: Name, b: Name, k: nat) {
    && k <= |a| && k < |b| && a[|a| - k..] == b[|b| - k..]
    && (k == |a| || Less(a[|a| - 1 - k], b[|b| - 1 - k]))
  }

  lemma SameLast(a: Name, b: Name, k: nat)
    requires SplitsAt(a, b, k)
    ensures k > 0 ==> a != [] && b != [] && Last(a) == Last(b)
  {
    assert k > 0 ==> a[|a| - k..][k - 1] == Last(a) && b[|b| - k..][k - 1] == Last(b);
  }

  lemma SplitsOneFurther(a: Name, b: Name, k: nat)
    requires a != [] && b != [] && Last(a) == Last(b)
    ensures SplitsAt(a, b, k + 1) <==> SplitsAt(Init(a), Init(b), k)
    ensures !SplitsAt(a, b, 0)
  {
    hide Less;
    LessIrreflexive(Last(a));
    if k < |a| && k < |b| { OneMoreShared(a, b, k); }
  }

  /** What comes first is a proper suffix, or has the smaller label where the names differ first from the right. */
  lemma {:induction false} BeforeMeans(a: Name, b: Name)
    ensures Before(a, b) <==> exists k: nat :: SplitsAt(a, b, k)
  {
    hide SplitsAt, Less;
    if a != [] && b != [] && Last(a) == Last(b) {
      BeforeMeans(Init(a), Init(b));
      forall k: nat ensures SplitsAt(a, b, k + 1) <==> SplitsAt(Init(a), Init(b), k) { SplitsOneFurther(a, b, k); }
      SplitsOneFurther(a, b, 0);
      if k: nat :| SplitsAt(a, b, k) {
        var j: nat := k - 1;
        assert SplitsAt(a, b, j + 1) && SplitsAt(Init(a), Init(b), j);
      }
    } else {
      SplitsAtOnce(a, b);
    }
  }

  lemma SplitsAtOnce(a: Name, b: Name)
    requires a == [] || b == [] || Last(a) != Last(b)
    ensures (exists k: nat :: SplitsAt(a, b, k)) <==> b != [] && (a == [] || Less(Last(a), Last(b)))
  {
    hide Less;
    forall k: nat | SplitsAt(a, b, k) ensures k == 0 { SameLast(a, b, k); }
    assert SplitsAt(a, b, 0) <==> b != [] && (a == [] || Less(Last(a), Last(b)));
  }

  lemma OneMoreShared(a: Name, b: Name, k: nat)
    requires k < |a| && k < |b| && Last(a) == Last(b)
    ensures a[|a| - k - 1..] == b[|b| - k - 1..] <==> Init(a)[|Init(a)| - k..] == Init(b)[|Init(b)| - k..]
  {
    var x, y := Init(a)[|Init(a)| - k..], Init(b)[|Init(b)| - k..];
    assert a[|a| - k - 1..] == x + [Last(a)] && b[|b| - k - 1..] == y + [Last(b)];
    assert (x + [Last(a)])[..k] == x && (y + [Last(b)])[..k] == y;
  }

  lemma SubdomainInit(name: Name, origin: Name)
    requires name != [] && origin != []
    ensures IsSubdomain(name, origin) <==> Last(name) == Last(origin) && IsSubdomain(Init(name), Init(origin))
  {
    var k := |name| - |origin|;
    if k >= 0 {
      if IsSubdomain(name, origin) {
        assert name[k..][|origin| - 1] == Last(name);
        assert Init(name)[k..] == Init(name[k..]);
      }
      if Last(name) == Last(origin) && IsSubdomain(Init(name), Init(origin)) {
        Split(name);
        Split(origin);
        assert name[k..] == Init(name)[k..] + [Last(name)];
      }
    }
  }

  /** A name sorts before everything below it. */
  lemma {:induction false} AncestorFirst(name: Name, origin: Name)
    requires IsSubdomain(name, origin) && name != origin
    ensures Before(origin, name)
  {
    if origin != [] && name != [] {
      SubdomainInit(name, origin);
      Split(name);
      Split(origin);
      AncestorFirst(Init(name), Init(origin));
    }
  }

  /** The names at and under a common ancestor form one contiguous block of the order. */
  lemma {:induction false} SubtreeContiguous(top: Name, a: Name, b: Name, c: Name)
    requires Before(a, b) && Before(b, c)
    requires IsSubdomain(a, top) && IsSubdomain(c, top)
    ensures IsSubdomain(b, top)
  {
    if top == [] {
      assert b[|b|..] == [];
    } else {
      SubdomainInit(a, top);
      SubdomainInit(c, top);
      assert b != [];
      SubdomainInit(b, top);
      if Last(b) != Last(top) {
        LessTransitive(Last(top), Last(b), Last(top));
        LessIrreflexive(Last(top));
        assert false;
      }
      SubtreeContiguous(Init(top), Init(a), Init(b), Init(c));
    }
  }

  // ---------------------------------------------------------------------------
  // Sorted enumeration and cyclic successor
  // ---------------------------------------------------------------------------

  ghost predicate SortedNames(s: seq<Name>) {
    forall i, j | 0 <= i < j < |s| :: Before(s[i], s[j])
  }

  predicate IsFirst(names: set<Name>, m: Name) {
    m in names && forall n | n in names :: m == n || Before(m, n)
  }

  /** `m` follows `n`: the next name in canonical order, or the first one after the last. */
  ghost predicate IsNextName(names: set<Name>, n: Name, m: Name) {
    && m in names
    && if exists k :: k in names && Before(n, k)
       then Before(n, m) && forall k | k in names && Before(n, k) :: m == k || Before(m, k)
       else IsFirst(names, m)
  }

  lemma NextNameUnique(names: set<Name>, n: Name, a: Name, b: Name)
    requires IsNextName(names, n, a) && IsNextName(names, n, b)
    ensures a == b
  {
    BeforeIsTotalOrder();
  }

  lemma NextNameInside(names: set<Name>, s: seq<Name>, i: nat)
    requires SortedNames(s) && (forall k :: k in s <==> k in names) && i + 1 < |s|
    ensures IsNextName(names, s[i], s[i + 1])
  {
    hide Before;
    assert Before(s[i], s[i + 1]) && s[i + 1] in s;
    forall k | k in names && Before(s[i], k) ensures s[i + 1] == k || Before(s[i + 1], k) {
      var j :| 0 <= j < |s| && s[j] == k;
      NotEarlier(s, i, j);
    }
  }

  /** A later name stands later. */
  lemma NotEarlier(s: seq<Name>, i: nat, j: nat)
    requires SortedNames(s) && i < |s| && j < |s| && Before(s[i], s[j])
    ensures i < j
  {
    hide Before;
    BeforeIsTotalOrder();
  }

  lemma FirstNameAfterLast(names: set<Name>, s: seq<Name>)
    requires SortedNames(s) && (forall k :: k in s <==> k in names) && s != []
    ensures IsNextName(names, s[|s| - 1], s[0])
  {
    hide Before;
    assert s[0] in s;
    forall k | k in names ensures !Before(s[|s| - 1], k) && (s[0] == k || Before(s[0], k)) {
      var j :| 0 <= j < |s| && s[j] == k;
      if Before(s[|s| - 1], s[j]) { NotEarlier(s, |s| - 1, j); }
    }
  }

  lemma NextNameInSorted(names: set<Name>, s: seq<Name>, i: nat)
    requires SortedNames(s) && (forall k :: k in s <==> k in names) && i < |s|
    ensures IsNextName(names, s[i], s[(i + 1) % |s|])
  {
    hide IsNextName, SortedNames;
    if i + 1 < |s| {
      NextNameInside(names, s, i);
    } else {
      FirstNameAfterLast(names, s);
    }
  }

  lemma {:induction false} FirstExists(names: set<Name>) returns (m: Name)
    requires names != {}
    ensures IsFirst(names, m)
    decreases |names|
  {
    var k :| k in names;
    if names == {k} {
      m := k;
    } else {
      assert names - {k} != {};
      var low := FirstExists(names - {k});
      BeforeIsTotalOrder();
      m := if Before(k, low) then k else low;
      forall x | x in names ensures m == x || Before(m, x) {
        assert x == k || low == x || Before(low, x);
      }
    }
  }

  function First(names: set<Name>): (m: Name)
    requires names != {}
    ensures IsFirst(names, m)
  {
    assert exists x :: IsFirst(names, x) by { var m := FirstExists(names); }
    assert forall x, y | IsFirst(names, x) && IsFirst(names, y) :: x == y by { BeforeIsTotalOrder(); }
    var x :| x in names && IsFirst(names, x);
    x
  }

  /** The names in canonical order. */
  function InOrder(names: set<Name>): (s: seq<Name>)
    ensures SortedNames(s)
    ensures forall k :: k in s <==> k in names
    decreases |names|
  {
    if names == {} then []
    else
      var low := First(names);
      var rest := InOrder(names - {low});
      assert forall k | k in rest :: Before(low, k);
      [low] + rest
  }

  // ---------------------------------------------------------------------------
  // Walking up towards the origin
  // ---------------------------------------------------------------------------

  /** Whether `p` or an ancestor of it strictly below `origin` (or below the root, for a name outside the zone) is one
      of `cuts`. */
  predicate AtOrUnderCut(cuts: set<Name>, origin: Name, p: Name)
    decreases |p|
  {
    p != origin && p != [] && (p in cuts || AtOrUnderCut(cuts, origin, Parent(p)))
  }

  /** What the walk finds: a suffix of the name that is a cut, met before the origin. */
  lemma {:induction false} CutIsProperAncestor(cuts: set<Name>, origin: Name, p: Name)
    ensures AtOrUnderCut(cuts, origin, p) <==>
            exists k | 0 <= k < |p| :: p[k..] in cuts && forall j | 0 <= j <= k :: p[j..] != origin
    decreases |p|
  {
    if p != [] && p != origin {
      assert p[0..] == p;
      var q := Parent(p);
      CutIsProperAncestor(cuts, origin, q);
      if |p| == 1 {
        assert p[1..] == [];
      } else {
        forall j | 0 <= j < |q| ensures q[j..] == p[j + 1..] {}
      }
      if AtOrUnderCut(cuts, origin, q) {
        var k :| 0 <= k < |q| && q[k..] in cuts && forall j | 0 <= j <= k :: q[j..] != origin;
        forall j | 0 <= j <= k + 1 ensures p[j..] != origin {
          if j > 0 { assert q[j - 1..] == p[j..]; }
        }
        assert p[k + 1..] in cuts;
      }
      if k :| 0 <= k < |p| && p[k..] in cuts && forall j | 0 <= j <= k :: p[j..] != origin {
        if k > 0 {
          assert q[k - 1..] in cuts;
          forall j | 0 <= j <= k - 1 ensures q[j..] != origin { assert q[j..] == p[j + 1..]; }
        }
      }
    } else {
      assert p == origin ==> p[0..] == origin;
    }
  }

  /** Whether some proper ancestor below the origin is a cut. */
  predicate UnderCut(cuts: set<Name>, origin: Name, name: Name) {
    AtOrUnderCut(cuts, origin, Parent(name))
  }

  /** Only cuts at proper ancestors matter. */
  lemma UnderCutDependsOnAncestors(cuts: set<Name>, cuts': set<Name>, origin: Name, name: Name)
    requires forall k | 1 <= k < |name| :: name[k..] in cuts <==> name[k..] in cuts'
    ensures UnderCut(cuts, origin, name) == UnderCut(cuts', origin, name)
  {
    if |name| > 1 { SuffixWalk(cuts, cuts', origin, name, 1); }
  }

  lemma {:induction false} SuffixWalk(cuts: set<Name>, cuts': set<Name>, origin: Name, name: Name, k: nat)
    requires 1 <= k <= |name|
    requires forall k | 1 <= k < |name| :: name[k..] in cuts <==> name[k..] in cuts'
    ensures AtOrUnderCut(cuts, origin, name[k..]) == AtOrUnderCut(cuts', origin, name[k..])
    decreases |name| - k
  {
    if k < |name| {
      assert Parent(name[k..]) == name[k + 1..];
      SuffixWalk(cuts, cuts', origin, name, k + 1);
    }
  }
}

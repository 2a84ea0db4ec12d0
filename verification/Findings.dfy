/** Findings and the merge that retires and keeps them. */
module Findings {
  import opened Bytes
  import opened Names
  import Text

  datatype Severity = Error | Warning

  datatype Code =
    | RRSIG_MISSING | RRSIG_INVALID | RRSIG_EXPIRED | RRSIG_NOT_YET_VALID | RRSIG_UNKNOWN_KEY | RRSIG_LABELS_MISMATCH
    | RRSIG_TTL_MISMATCH | RRSIG_EXPIRING_SOON | DNSKEY_NOT_SIGNED_BY_KSK
    | NSEC_MISSING | NSEC3_MISSING | NSEC_BITMAP_MISMATCH | NSEC3_BITMAP_MISMATCH
    | NSEC_CHAIN_BROKEN | NSEC3_CHAIN_BROKEN | NSEC3_OPTOUT_VIOLATION | NSEC3PARAM_MISMATCH
    | KEYTAG_COLLISION_LIMIT | ZONEMD_MISMATCH | ZONEMD_MISSING | SOA_SERIAL_MISMATCH
    | IXFR_APPLY_FAILED | SERIAL_SKEW | DS_MISMATCH | INSECURE_DELEGATION

  /** What identifies a finding. */
  datatype Key = Key(code: Code, owner: Name, rtype: nat)

  datatype Finding = Finding(key: Key, severity: Severity, firstSeen: nat)

  type ByKey = map<Key, Finding>

  ghost predicate Keyed(m: ByKey) {
    forall k | k in m :: m[k].key == k
  }

  predicate HasErrors(m: ByKey) {
    exists k | k in m :: m[k].severity == Error
  }

  function Added(m: ByKey, f: Finding): ByKey {
    m[f.key := if f.key in m then f.(firstSeen := m[f.key].firstSeen) else f]
  }

  /** Whether the merge leaves findings of this owner alone; an empty owner set leaves none alone. */
  predicate Untouched(owners: set<Name>, owner: Name) {
    owners != {} && owner !in owners
  }

  /** The merged collection: what was found now, and what was known before about untouched owners. */
  function Merged(prev: ByKey, next: ByKey, owners: set<Name>): ByKey {
    map k | k in prev.Keys + next.Keys && (k in next || Untouched(owners, k.owner)) ::
      if k in prev && Untouched(owners, k.owner) then prev[k]
      else if k in prev then next[k].(firstSeen := prev[k].firstSeen)
      else next[k]
  }

  ghost function OpenedKeys(prev: ByKey, next: ByKey, owners: set<Name>): set<Key> {
    Merged(prev, next, owners).Keys - prev.Keys
  }

  ghost function ClosedKeys(prev: ByKey, next: ByKey, owners: set<Name>): set<Key> {
    set k | k in prev && !Untouched(owners, k.owner) && k !in next
  }

  /** The new findings after the previous ones with keys in `done` were looked at. */
  ghost function Kept(prev: ByKey, next: ByKey, owners: set<Name>, done: set<Key>): ByKey {
    map k | k in next.Keys + (prev.Keys * done) && (k in next || Untouched(owners, k.owner)) ::
      if k in prev && k in done && Untouched(owners, k.owner)
      then if k in next then prev[k].(firstSeen := next[k].firstSeen) else prev[k]
      else next[k]
  }

  /** `m` with the first sighting of the keys in `done` taken from `prev`. */
  ghost function Inherited(prev: ByKey, m: ByKey, done: set<Key>): ByKey {
    map k | k in m :: if k in prev && k in done then m[k].(firstSeen := prev[k].firstSeen) else m[k]
  }

  lemma KeptStep(prev: ByKey, next: ByKey, owners: set<Name>, done: set<Key>, k: Key)
    requires Keyed(prev) && Keyed(next) && k in prev && k !in done
    ensures Keyed(Kept(prev, next, owners, done))
    ensures Untouched(owners, k.owner) ==>
      Kept(prev, next, owners, done + {k}) == Added(Kept(prev, next, owners, done), prev[k])
    ensures !Untouched(owners, k.owner) ==> Kept(prev, next, owners, done + {k}) == Kept(prev, next, owners, done)
    ensures !Untouched(owners, k.owner) ==> (k in Kept(prev, next, owners, done) <==> k in next)
  {
  }

  ghost function ClosedIn(prev: ByKey, next: ByKey, owners: set<Name>, done: set<Key>): set<Key> {
    set k | k in done && !Untouched(owners, k.owner) && k !in next
  }

  lemma ClosedStep(prev: ByKey, next: ByKey, owners: set<Name>, done: set<Key>, k: Key)
    requires k !in done
    ensures |ClosedIn(prev, next, owners, done + {k})| ==
            |ClosedIn(prev, next, owners, done)| + if !Untouched(owners, k.owner) && k !in next then 1 else 0
  {
    var more := ClosedIn(prev, next, owners, done + {k});
    if !Untouched(owners, k.owner) && k !in next {
      assert more == ClosedIn(prev, next, owners, done) + {k};
    } else {
      assert more == ClosedIn(prev, next, owners, done);
    }
  }

  lemma InheritedStep(prev: ByKey, m: ByKey, done: set<Key>, k: Key)
    requires Keyed(m) && k in m && k !in done
    ensures Keyed(Inherited(prev, m, done)) && k in Inherited(prev, m, done)
    ensures k in prev ==>
      Inherited(prev, m, done + {k}) ==
        (var part := Inherited(prev, m, done); part[k := part[k].(firstSeen := prev[k].firstSeen)])
    ensures k !in prev ==> Inherited(prev, m, done + {k}) == Inherited(prev, m, done)
  {
  }

  lemma MergedInSteps(prev: ByKey, next: ByKey, owners: set<Name>)
    requires Keyed(prev) && Keyed(next)
    ensures Kept(prev, next, owners, {}) == next && Keyed(Kept(prev, next, owners, prev.Keys))
    ensures ClosedIn(prev, next, owners, {}) == {}
    ensures ClosedIn(prev, next, owners, prev.Keys) == ClosedKeys(prev, next, owners)
    ensures var m := Kept(prev, next, owners, prev.Keys); Inherited(prev, m, m.Keys) == Merged(prev, next, owners)
  {
  }

  class Set {
    var byKey: ByKey

    ghost predicate Valid()
      reads this
    {
      Keyed(byKey)
    }

    constructor ()
      ensures Valid() && byKey == map[]
    {
      byKey := map[];
    }

    method Add(f: Finding)
      requires Valid()
      modifies this
      ensures Valid() && byKey == Added(old(byKey), f)
    {
      var g := f;
      if f.key in byKey {
        g := f.(firstSeen := byKey[f.key].firstSeen);
      }
      byKey := byKey[f.key := g];
    }
  }

  /** Merges a new pass into the previous findings, in place, and counts what appeared and what went away. */
  method MergeReplace(prev: Set, next: Set, owners: set<Name>) returns (appeared: nat, retired: nat)
    requires prev != next && prev.Valid() && next.Valid()
    modifies prev, next
    ensures prev.Valid() && prev.byKey == Merged(old(prev.byKey), old(next.byKey), owners)
    ensures appeared == |OpenedKeys(old(prev.byKey), old(next.byKey), owners)|
    ensures retired == |ClosedKeys(old(prev.byKey), old(next.byKey), owners)|
  {
    ghost var p, n := prev.byKey, next.byKey;
    MergedInSteps(p, n, owners);
    retired := KeepUntouched(prev, next, owners);
    ghost var mid := next.byKey;
    appeared := InheritFirstSeen(prev, next);
    assert mid.Keys == Merged(p, n, owners).Keys;
    prev.byKey := next.byKey;
  }

  /** Copies the findings of untouched owners over and counts those that are gone. */
  method KeepUntouched(prev: Set, next: Set, owners: set<Name>) returns (retired: nat)
    requires prev != next && prev.Valid() && next.Valid()
    modifies next
    ensures next.Valid() && next.byKey == Kept(prev.byKey, old(next.byKey), owners, prev.byKey.Keys)
    ensures retired == |ClosedKeys(prev.byKey, old(next.byKey), owners)|
  {
    ghost var p, n := prev.byKey, next.byKey;
    MergedInSteps(p, n, owners);
    retired := 0;
    var restrict := owners != {};
    var todo := prev.byKey.Keys;
    ghost var done: set<Key> := {};
    while todo != {}
      invariant done !! todo && done + todo == p.Keys
      invariant next.byKey == Kept(p, n, owners, done)
      invariant retired == |ClosedIn(p, n, owners, done)|
      decreases todo
    {
      var k :| k in todo;
      KeptStep(p, n, owners, done, k);
      ClosedStep(p, n, owners, done, k);
      var f := prev.byKey[k];
      if restrict && f.key.owner !in owners {
        next.Add(f);
      } else if k !in next.byKey {
        retired := retired + 1;
      }
      MoveKey(todo, done, k);
      todo := todo - {k};
      done := done + {k};
    }
    assert done == p.Keys;
  }

  /** Takes the first sighting over from the previous pass and counts the findings that are new. */
  method InheritFirstSeen(prev: Set, next: Set) returns (appeared: nat)
    requires prev != next && prev.Valid() && next.Valid()
    modifies next
    ensures next.Valid() && next.byKey == Inherited(prev.byKey, old(next.byKey), old(next.byKey.Keys))
    ensures appeared == |old(next.byKey).Keys - prev.byKey.Keys|
  {
    ghost var p, mid := prev.byKey, next.byKey;
    appeared := 0;
    var todo := next.byKey.Keys;
    ghost var done: set<Key> := {};
    assert done - p.Keys == {} && Inherited(p, mid, {}) == mid;
    while todo != {}
      invariant done !! todo && done + todo == mid.Keys
      invariant next.byKey == Inherited(p, mid, done)
      invariant appeared == |done - p.Keys|
      decreases todo
    {
      var k :| k in todo;
      InheritedStep(p, mid, done, k);
      NewKeysStep(done, p.Keys, k);
      if k in prev.byKey {
        next.byKey := next.byKey[k := next.byKey[k].(firstSeen := prev.byKey[k].firstSeen)];
      } else {
        appeared := appeared + 1;
      }
      MoveKey(todo, done, k);
      todo := todo - {k};
      done := done + {k};
    }
    assert done == mid.Keys;
  }

  lemma MoveKey(todo: set<Key>, done: set<Key>, k: Key)
    requires k in todo && done !! todo
    ensures (done + {k}) !! (todo - {k}) && (done + {k}) + (todo - {k}) == done + todo
  {
  }

  lemma NewKeysStep(done: set<Key>, p: set<Key>, k: Key)
    requires k !in done
    ensures |(done + {k}) - p| == |done - p| + if k in p then 0 else 1
  {
    if k in p {
      assert (done + {k}) - p == done - p;
    } else {
      assert (done + {k}) - p == (done - p) + {k};
    }
  }

  /** The merge conserves: the result is the new findings and the old ones of untouched owners, every finding known
      before keeps its first sighting, and the sizes balance. */
  lemma MergeConserves(prev: ByKey, next: ByKey, owners: set<Name>)
    requires Keyed(prev) && Keyed(next)
    ensures var m := Merged(prev, next, owners);
            && (forall k :: k in m <==> k in next || (k in prev && Untouched(owners, k.owner)))
            && (forall k | k in m && k in prev :: m[k].firstSeen == prev[k].firstSeen)
            && (forall k | k in m && k !in prev :: m[k] == next[k])
            && |prev| + |OpenedKeys(prev, next, owners)| - |ClosedKeys(prev, next, owners)| == |m|
  {
    var m := Merged(prev, next, owners);
    assert ClosedKeys(prev, next, owners) == prev.Keys - m.Keys;
    SizesBalance(prev.Keys, m.Keys, OpenedKeys(prev, next, owners), ClosedKeys(prev, next, owners));
  }

  lemma SizesBalance(p: set<Key>, m: set<Key>, appeared: set<Key>, retired: set<Key>)
    requires appeared == m - p && retired == p - m
    ensures |p| + |appeared| - |retired| == |m|
  {
    assert m == (p - retired) + appeared;
    assert |p - retired| == |p| - |retired|;
    assert |(p - retired) + appeared| == |p - retired| + |appeared|;
  }

  // ---------------------------------------------------------------------------
  // The textual key
  // ---------------------------------------------------------------------------

  const BAR: byte := 124

  /** Code, owner and type number joined by bars. */
  function KeyText(code: Bytes, owner: Bytes, rtype: nat): Bytes {
    code + [BAR] + owner + [BAR] + Text.Decimal(rtype)
  }

  lemma {:induction false} FirstBar(a: Bytes, b: Bytes, x: Bytes, y: Bytes)
    requires BAR !in a && BAR !in b && a + [BAR] + x == b + [BAR] + y
    ensures a == b && x == y
  {
    var s, t := a + [BAR] + x, b + [BAR] + y;
    assert a != [] ==> s[0] == a[0] && s[1..] == a[1..] + [BAR] + x;
    assert b != [] ==> t[0] == b[0] && t[1..] == b[1..] + [BAR] + y;
    assert a == [] ==> s[0] == BAR && s[1..] == x;
    assert b == [] ==> t[0] == BAR && t[1..] == y;
    if a != [] && b != [] {
      FirstBar(a[1..], b[1..], x, y);
      assert a == [a[0]] + a[1..] && b == [b[0]] + b[1..];
    }
  }

  lemma {:induction false} LastBar(a: Bytes, b: Bytes, x: Bytes, y: Bytes)
    requires BAR !in x && BAR !in y && a + [BAR] + x == b + [BAR] + y
    ensures a == b && x == y
  {
    var s, t := a + [BAR] + x, b + [BAR] + y;
    var last := |s| - 1;
    assert x != [] ==> s[last] == x[|x| - 1] && s[..last] == a + [BAR] + x[..|x| - 1];
    assert y != [] ==> t[last] == y[|y| - 1] && t[..last] == b + [BAR] + y[..|y| - 1];
    assert x == [] ==> s[last] == BAR && s[..last] == a;
    assert y == [] ==> t[last] == BAR && t[..last] == b;
    if x != [] && y != [] {
      LastBar(a, b, x[..|x| - 1], y[..|y| - 1]);
      assert x == x[..|x| - 1] + [x[|x| - 1]] && y == y[..|y| - 1] + [y[|y| - 1]];
    }
  }

  lemma {:induction false} DecimalInjective(u: nat, v: nat)
    requires Text.Decimal(u) == Text.Decimal(v)
    ensures u == v
  {
    var s, t := Text.Decimal(u), Text.Decimal(v);
    if u >= 10 { assert s == Text.Decimal(u / 10) + [48 + u % 10]; }
    if v >= 10 { assert t == Text.Decimal(v / 10) + [48 + v % 10]; }
    if u >= 10 && v >= 10 {
      assert s[..|s| - 1] == Text.Decimal(u / 10) && t[..|t| - 1] == Text.Decimal(v / 10);
      assert s[|s| - 1] == 48 + u % 10 && t[|t| - 1] == 48 + v % 10;
      DecimalInjective(u / 10, v / 10);
    } else {
      assert |s| == 1 <==> u < 10;
      assert |t| == 1 <==> v < 10;
    }
  }

  /** The textual key identifies code, owner and type as long as codes contain no bar; the owner may contain any. */
  lemma KeyTextInjective(c: Bytes, o: Bytes, t: nat, c': Bytes, o': Bytes, t': nat)
    requires BAR !in c && BAR !in c' && KeyText(c, o, t) == KeyText(c', o', t')
    ensures c == c' && o == o' && t == t'
  {
    var d, d' := Text.Decimal(t), Text.Decimal(t');
    LastBar(c + [BAR] + o, c' + [BAR] + o', d, d');
    FirstBar(c, c', o, o');
    DecimalInjective(t, t');
  }

  /** With a bar in a code two different findings share a key. */
  lemma KeyTextCollision()
    ensures KeyText([65, BAR, 66], [67], 1) == KeyText([65], [66, BAR, 67], 1)
  {
    assert [65, BAR, 66] + [BAR] + [67] == [65] + [BAR] + [66, BAR, 67];
  }
}

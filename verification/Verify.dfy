/** The checks on one node and on the NSEC3 chain. */
module Verify {
  import opened Bytes
  import opened Names
  import opened Records
  import opened StoreSpec
  import opened Store
  import opened Ring
  import opened Findings
  import opened Signatures
  import opened Sums

  // ---------------------------------------------------------------------------
  // Authority
  // ---------------------------------------------------------------------------

  function Cuts(v: StoreView): set<Name> {
    set n | n in v.nodes && v.nodes[n].isDelegation
  }

  /** The apex, and every name without a delegation strictly above it. */
  predicate Authoritative(v: StoreView, name: Name) {
    name == v.origin || !UnderCut(Cuts(v), v.origin, name)
  }

  lemma KnownNode(st: Store, n: Node)
    requires st.Valid() && n.name in st.nodes && st.nodes[n.name] == n
    ensures n.Valid() && n.name in st.state.nodes && st.state.nodes[n.name] == n.View()
  {
  }

  lemma KnownStore(st: Store)
    requires st.Valid()
    ensures st.NodesMatch(st.state.nodes) && st.state.origin == st.origin && st.state.nsec3 == st.nsec3
  {
  }

  lemma CutsAreDelegations(st: Store, n: Name)
    requires st.Valid()
    ensures n in Cuts(st.state) <==> n in st.nodes && st.nodes[n].isDelegation
  {
    if n in st.nodes { assert st.state.nodes[n] == st.nodes[n].View(); }
  }

  method IsAuthoritative(st: Store, name: Name) returns (authoritative: bool)
    requires st.Valid()
    ensures authoritative == Authoritative(st.state, name)
  {
    if name == st.origin {
      return true;
    }
    ghost var cuts := Cuts(st.state);
    var parent := Parent(name);
    while parent != st.origin && parent != [] && parent != name
      invariant AtOrUnderCut(cuts, st.origin, parent) == UnderCut(cuts, st.origin, name)
      invariant name != [] ==> |parent| < |name|
      decreases |parent|
    {
      CutsAreDelegations(st, parent);
      if parent in st.nodes && st.nodes[parent].isDelegation {
        return false;
      }
      parent := Parent(parent);
    }
    return true;
  }

  // ---------------------------------------------------------------------------
  // Bitmaps
  // ---------------------------------------------------------------------------

  function Elements(s: seq<nat>): set<nat> {
    set t | t in s
  }

  /** The types an NSEC or NSEC3 bitmap should list for a node. */
  function ExpectedTypes(node: NodeView, nsec3: bool): set<nat> {
    if nsec3 then node.sets.Keys - {NSEC3} else node.sets.Keys
  }

  method ExpectedBitmap(n: Node, nsec3: bool) returns (out: seq<nat>)
    requires n.Valid()
    ensures Elements(out) == ExpectedTypes(n.View(), nsec3) && NoDuplicates(out)
  {
    out := [];
    var i := 0;
    while i < |n.sets|
      invariant 0 <= i <= |n.sets| && NoDuplicates(out)
      invariant forall t :: t in out <==> (t != NSEC3 || !nsec3) && exists j | 0 <= j < i :: n.sets[j].rtype == t
    {
      var t := n.sets[i].rtype;
      if !(nsec3 && t == NSEC3) && t !in out {
        out := out + [t];
      }
      i := i + 1;
    }
  }

  function Insert(s: seq<nat>, x: nat): seq<nat> {
    if s == [] || x < s[0] then [x] + s
    else if x == s[0] then s
    else [s[0]] + Insert(s[1..], x)
  }

  /** Sorted without duplicates. */
  function SortCompact(s: seq<nat>): seq<nat> {
    if s == [] then [] else Insert(SortCompact(s[1..]), s[0])
  }

  ghost predicate Ascending(s: seq<nat>) {
    forall i, j | 0 <= i < j < |s| :: s[i] < s[j]
  }

  lemma AscendingCons(x: nat, s: seq<nat>)
    requires Ascending(s) && forall t | t in s :: x < t
    ensures Ascending([x] + s)
  {
    forall i, j | 0 <= i < j < |s| + 1 ensures ([x] + s)[i] < ([x] + s)[j] {
      assert ([x] + s)[j] == s[j - 1] && s[j - 1] in s;
      if i > 0 { assert ([x] + s)[i] == s[i - 1]; }
    }
  }

  lemma {:induction false} InsertFacts(s: seq<nat>, x: nat)
    requires Ascending(s)
    ensures Ascending(Insert(s, x))
    ensures forall t :: t in Insert(s, x) <==> t in s || t == x
  {
    if s != [] && x > s[0] {
      var tail := s[1..];
      assert Ascending(tail) && forall t | t in tail :: s[0] < t;
      InsertFacts(tail, x);
      assert s == [s[0]] + tail;
      AscendingCons(s[0], Insert(tail, x));
    } else if s == [] || x < s[0] {
      AscendingCons(x, s);
    }
  }

  lemma {:induction false} SortCompactFacts(s: seq<nat>)
    ensures Ascending(SortCompact(s)) && Elements(SortCompact(s)) == Elements(s)
  {
    if s != [] {
      SortCompactFacts(s[1..]);
      var tail := SortCompact(s[1..]);
      InsertFacts(tail, s[0]);
      assert s == [s[0]] + s[1..];
      assert forall t :: t in tail <==> t in Elements(tail);
      assert forall t :: t in s[1..] <==> t in Elements(s[1..]);
    }
  }

  lemma {:induction false} AscendingUnique(a: seq<nat>, b: seq<nat>)
    requires Ascending(a) && Ascending(b) && Elements(a) == Elements(b)
    ensures a == b
  {
    EmptyElements(a);
    EmptyElements(b);
    if a != [] {
      assert a[0] in Elements(b);
      assert b[0] in Elements(a);
      assert a[0] == b[0];
      var x, y := a[1..], b[1..];
      forall t ensures t in Elements(x) <==> t in Elements(y) {
        assert t in Elements(x) <==> t in Elements(a) && t != a[0];
        assert t in Elements(y) <==> t in Elements(b) && t != b[0];
      }
      AscendingUnique(x, y);
    }
  }

  lemma EmptyElements(s: seq<nat>)
    ensures Elements(s) == {} <==> s == []
  {
    if s != [] { assert s[0] in Elements(s); }
  }

  /** Bitmaps are compared as sets, whatever their order and repetitions. */
  lemma BitmapEqualMeaning(a: seq<nat>, b: seq<nat>)
    ensures SortCompact(a) == SortCompact(b) <==> Elements(a) == Elements(b)
  {
    SortCompactFacts(a);
    SortCompactFacts(b);
    if Elements(a) == Elements(b) { AscendingUnique(SortCompact(a), SortCompact(b)); }
  }

  // ---------------------------------------------------------------------------
  // Denial of existence at one node
  // ---------------------------------------------------------------------------

  /** Characters and length an NSEC3 owner label has. */
  predicate LooksHashed(lab: Label) {
    |lab| >= 20 && forall c | c in lab :: 48 <= c <= 57 || 97 <= c <= 118 || 65 <= c <= 86
  }

  predicate IsNSEC3Owner(name: Name, origin: Name) {
    name != origin && name != [] && IsSubdomain(name, origin) && Parent(name) == origin && LooksHashed(name[0])
  }

  /** What the NSEC check at one name reports. */
  function NSECCode(v: StoreView, name: Name): Option<Code>
    requires name in v.nodes
  {
    var sets := v.nodes[name].sets;
    if NSEC3 in sets || !Authoritative(v, name) then None
    else if NSEC !in sets || sets[NSEC].rdata == [] then Some(NSEC_MISSING)
    else
      var first := Unpack(sets[NSEC])[0];
      if first.data.NSECData? && Elements(first.data.bitmap) != ExpectedTypes(v.nodes[name], false)
      then Some(NSEC_BITMAP_MISMATCH) else None
  }

  function KeyOf(c: Option<Code>, name: Name, rtype: nat): set<Key> {
    match c case Some(code) => {Key(code, name, rtype)} case None => {}
  }

  predicate NeedsNSEC3(v: StoreView, name: Name)
    requires name in v.nodes
  {
    name == v.origin || (Authoritative(v, name) && !(v.nodes[name].isDelegation && !v.nodes[name].hasDS))
  }

  /** What the NSEC3 check at one name reports. */
  function NSEC3Code(env: Env, v: StoreView, param: RR, name: Name): Option<Code>
    requires name in v.nodes
  {
    if IsNSEC3Owner(name, v.origin) || !NeedsNSEC3(v, name) then None
    else
      var hash := env.hash(name, param);
      if hash !in v.nsec3 then
        Some(if v.nodes[name].isDelegation && v.nodes[name].hasDS then NSEC3_OPTOUT_VIOLATION else NSEC3_MISSING)
      else if Elements(v.nsec3[hash].bitmap) != ExpectedTypes(v.nodes[name], true) then Some(NSEC3_BITMAP_MISMATCH)
      else None
  }

  method CheckNSECPresence(env: Env, st: Store, n: Node, findings: Set)
    requires st.Valid() && n.name in st.nodes && st.nodes[n.name] == n
    requires Reports(findings.byKey, findings.byKey.Keys)
    modifies findings
    ensures Reports(findings.byKey, old(findings.byKey.Keys) + KeyOf(NSECCode(st.state, n.name), n.name, NSEC))
  {
    hide Store.Valid, NSECCode;
    KnownNode(st, n);
    var code := DecideNSEC(st, n);
    if code.Some? {
      Report(findings, env, code.value, n.name, NSEC);
    }
  }

  method DecideNSEC(st: Store, n: Node) returns (code: Option<Code>)
    requires st.Valid() && n.name in st.nodes && st.nodes[n.name] == n
    ensures code == NSECCode(st.state, n.name)
  {
    assert st.state.nodes[n.name] == n.View();
    var i := FindSet(n, NSEC3);
    if i < |n.sets| {
      return None;
    }
    var authoritative := IsAuthoritative(st, n.name);
    if !authoritative {
      return None;
    }
    i := FindSet(n, NSEC);
    if i == |n.sets| || |n.sets[i].rdata| == 0 {
      return Some(NSEC_MISSING);
    }
    var nsec := Unpack(n.sets[i])[0];
    if !nsec.data.NSECData? {
      return None;
    }
    var want := ExpectedBitmap(n, false);
    BitmapEqualMeaning(want, nsec.data.bitmap);
    return if SortCompact(want) != SortCompact(nsec.data.bitmap) then Some(NSEC_BITMAP_MISMATCH) else None;
  }

  method CheckNSEC3Presence(env: Env, st: Store, n: Node, param: RR, findings: Set)
    requires st.Valid() && n.name in st.nodes && st.nodes[n.name] == n
    requires Reports(findings.byKey, findings.byKey.Keys)
    modifies findings
    ensures Reports(findings.byKey, old(findings.byKey.Keys) +
            KeyOf(NSEC3Code(env, st.state, param, n.name), n.name, NSEC3))
  {
    hide Store.Valid, NSEC3Code;
    KnownNode(st, n);
    var code := DecideNSEC3(env, st, n, param);
    if code.Some? {
      Report(findings, env, code.value, n.name, NSEC3);
    }
  }

  method DecideNSEC3(env: Env, st: Store, n: Node, param: RR) returns (code: Option<Code>)
    requires st.Valid() && n.name in st.nodes && st.nodes[n.name] == n
    ensures code == NSEC3Code(env, st.state, param, n.name)
  {
    assert st.state.nodes[n.name] == n.View();
    assert NodeOk(st.origin, n.name, st.state.nodes[n.name]);
    if IsNSEC3Owner(n.name, st.origin) {
      return None;
    }
    if n.name != st.origin {
      var authoritative := IsAuthoritative(st, n.name);
      if !authoritative || (n.isDelegation && !n.hasDS) {
        return None;
      }
    }
    assert NeedsNSEC3(st.state, n.name);
    var hash := env.hash(n.name, param);
    if hash !in st.nsec3 {
      if n.isDelegation && !n.hasDS {
        // The opt-out exemption would be granted here; an insecure delegation never gets this far.
        assert false;
      }
      return Some(if n.isDelegation && n.hasDS then NSEC3_OPTOUT_VIOLATION else NSEC3_MISSING);
    }
    var want := ExpectedBitmap(n, true);
    BitmapEqualMeaning(want, st.nsec3[hash].bitmap);
    return if SortCompact(want) != SortCompact(st.nsec3[hash].bitmap) then Some(NSEC3_BITMAP_MISMATCH) else None;
  }

  /** Position of the RRset of a type. */
  method FindSet(n: Node, rrtype: nat) returns (i: nat)
    requires n.Valid()
    ensures i <= |n.sets|
    ensures i < |n.sets| <==> rrtype in n.View().sets
    ensures i < |n.sets| ==> n.View().sets[rrtype] == n.sets[i]
  {
    i := 0;
    while i < |n.sets| && n.sets[i].rtype != rrtype
      invariant 0 <= i <= |n.sets|
      invariant forall j | 0 <= j < i :: n.sets[j].rtype != rrtype
    {
      i := i + 1;
    }
  }

  // ---------------------------------------------------------------------------
  // One node
  // ---------------------------------------------------------------------------

  /** The first apex NSEC3PARAM, which decides between NSEC and NSEC3 denial. */
  function Param(v: StoreView): Option<RR> {
    var rr := ApexFirst(v, NSEC3PARAM);
    if rr.Some? && rr.value.data.NSEC3PARAMData? then rr else None
  }

  predicate Checked(t: nat) {
    t != RRSIG && t != NSEC3
  }

  function SignatureKeys(env: Env, keys: seq<CachedKey>, name: Name, node: NodeView, types: set<nat>): set<Key> {
    set t, k | t in types && t in node.sets && Checked(t) && k in RRSetKeys(env, keys, name, node, node.sets[t]) :: k
  }

  function DenialKeys(env: Env, v: StoreView, name: Name): set<Key>
    requires name in v.nodes
  {
    match Param(v)
    case Some(p) => KeyOf(NSEC3Code(env, v, p, name), name, NSEC3)
    case None => if IsNSEC3Owner(name, v.origin) then {} else KeyOf(NSECCode(v, name), name, NSEC)
  }

  function AuthorityKeys(env: Env, v: StoreView, keys: seq<CachedKey>, name: Name): set<Key>
    requires name in v.nodes
  {
    if Authoritative(v, name) then SignatureKeys(env, keys, name, v.nodes[name], v.nodes[name].sets.Keys) else {}
  }

  /** Everything a pass reports at one name. */
  function NodeKeys(env: Env, v: StoreView, keys: seq<CachedKey>, name: Name): set<Key>
    requires name in v.nodes
  {
    AuthorityKeys(env, v, keys, name) + DenialKeys(env, v, name)
  }

  function SetTries(env: Env, keys: seq<CachedKey>, name: Name, node: NodeView, t: nat): nat {
    if t in node.sets && Checked(t)
    then TotalTries(env, keys, name, node.sets[t], SignaturesCovering(node.sets, node.sets[t].rtype)) else 0
  }

  ghost predicate SetUses(env: Env, keys: seq<CachedKey>, name: Name, node: NodeView, t: nat, i: nat) {
    && t in node.sets && Checked(t)
    && UsedBy(env, keys, name, node.sets[t], SignaturesCovering(node.sets, node.sets[t].rtype), i)
  }

  ghost predicate AnyUses(env: Env, keys: seq<CachedKey>, name: Name, node: NodeView, types: set<nat>, i: nat) {
    exists t | t in types :: SetUses(env, keys, name, node, t, i)
  }

  ghost function TypesTries(env: Env, keys: seq<CachedKey>, name: Name, node: NodeView): nat -> nat {
    t => SetTries(env, keys, name, node, t)
  }

  ghost function NodeTries(env: Env, v: StoreView, keys: seq<CachedKey>, name: Name): nat {
    if name in v.nodes && Authoritative(v, name)
    then Sum(v.nodes[name].sets.Keys, TypesTries(env, keys, name, v.nodes[name])) else 0
  }

  ghost predicate NodeUses(env: Env, v: StoreView, keys: seq<CachedKey>, name: Name, i: nat) {
    name in v.nodes && Authoritative(v, name) && AnyUses(env, keys, name, v.nodes[name], v.nodes[name].sets.Keys, i)
  }

  ghost function TypesOf(sets: seq<RRSet>): set<nat> {
    set j | 0 <= j < |sets| :: sets[j].rtype
  }

  function SetKeys(env: Env, keys: seq<CachedKey>, name: Name, node: NodeView, t: nat): set<Key> {
    if t in node.sets && Checked(t) then RRSetKeys(env, keys, name, node, node.sets[t]) else {}
  }

  /** Signatures and NSEC3 records are not checked as RRsets of their own. */
  method VerifySet(env: Env, name: Name, node: NodeView, s: RRSet, keys: seq<CachedKey>, used: array<bool>,
          findings: Set)
    returns (checked: nat)
    requires s.rtype in node.sets && node.sets[s.rtype] == s
    requires used.Length == |keys| && Reports(findings.byKey, findings.byKey.Keys)
    modifies used, findings
    ensures Reports(findings.byKey, old(findings.byKey.Keys) + SetKeys(env, keys, name, node, s.rtype))
    ensures checked == SetTries(env, keys, name, node, s.rtype)
    ensures forall i | 0 <= i < |keys| :: used[i] == (old(used[i]) || SetUses(env, keys, name, node, s.rtype, i))
  {
    if s.rtype == RRSIG {
      return 0;
    }
    if s.rtype == NSEC3 {
      return 0;
    }
    checked := VerifyRRSet(env, name, node, s, keys, used, findings);
  }

  /** Checks the signatures of all RRsets of one authoritative node. */
  method VerifySets(env: Env, n: Node, keys: seq<CachedKey>, used: array<bool>, findings: Set) returns (checked: nat)
    requires n.Valid() && used.Length == |keys| && Reports(findings.byKey, findings.byKey.Keys)
    modifies used, findings
    ensures var node := n.View();
            && Reports(findings.byKey, old(findings.byKey.Keys) +
                SignatureKeys(env, keys, n.name, node, node.sets.Keys))
            && checked == Sum(node.sets.Keys, TypesTries(env, keys, n.name, node))
            && forall i | 0 <= i < |keys| ::
                 used[i] == (old(used[i]) || AnyUses(env, keys, n.name, node, node.sets.Keys, i))
  {
    hide SignatureKeys, AnyUses, SetKeys, SetTries, SetUses, TypesOf, Sum, TypesTries, ToMap, DistinctTypes;
    ghost var node := n.View();
    ghost var before := findings.byKey.Keys;
    ghost var was := used[..];
    ghost var f := TypesTries(env, keys, n.name, node);
    checked := 0;
    var i := 0;
    NoTypes(env, keys, n.name, node, n.sets);
    while i < |n.sets|
      invariant 0 <= i <= |n.sets|
      invariant Reports(findings.byKey, before + SignatureKeys(env, keys, n.name, node, TypesOf(n.sets[..i])))
      invariant checked == Sum(TypesOf(n.sets[..i]), f)
      invariant forall j | 0 <= j < |keys| ::
                  used[j] == (was[j] || AnyUses(env, keys, n.name, node, TypesOf(n.sets[..i]), j))
    {
      FiledByType(n.sets, i);
      OneMoreType(env, keys, n.name, node, n.sets, i);
      UnionAssociative(before, SignatureKeys(env, keys, n.name, node, TypesOf(n.sets[..i])),
                       SetKeys(env, keys, n.name, node, n.sets[i].rtype));
      var tried := VerifySet(env, n.name, n.View(), n.sets[i], keys, used, findings);
      checked := checked + tried;
      i := i + 1;
    }
    assert n.sets[..i] == n.sets;
    AllTypes(n.sets);
  }

  lemma NoTypes(env: Env, keys: seq<CachedKey>, name: Name, node: NodeView, sets: seq<RRSet>)
    ensures var none := TypesOf(sets[..0]);
            && SignatureKeys(env, keys, name, node, none) == {} && Sum(none, TypesTries(env, keys, name, node)) == 0
            && forall j: nat :: !AnyUses(env, keys, name, node, none, j)
  {
  }

  lemma AllTypes(sets: seq<RRSet>)
    requires DistinctTypes(sets)
    ensures TypesOf(sets) == ToMap(sets).Keys
  {
  }

  lemma OneMoreType(env: Env, keys: seq<CachedKey>, name: Name, node: NodeView, sets: seq<RRSet>, i: nat)
    requires i < |sets| && DistinctTypes(sets) && sets[i].rtype in node.sets
    ensures var t, before, after := sets[i].rtype, TypesOf(sets[..i]), TypesOf(sets[..i + 1]);
            && SignatureKeys(env, keys, name, node, after) == SignatureKeys(env, keys, name, node, before) +
                 SetKeys(env, keys, name, node, t)
            && Sum(after, TypesTries(env, keys, name, node)) ==
                 Sum(before, TypesTries(env, keys, name, node)) + SetTries(env, keys, name, node, t)
            && forall j: nat :: AnyUses(env, keys, name, node, after, j) <==>
                 AnyUses(env, keys, name, node, before, j) || SetUses(env, keys, name, node, t, j)
  {
    var t, before, after := sets[i].rtype, TypesOf(sets[..i]), TypesOf(sets[..i + 1]);
    TypesSnoc(sets, i);
    SumTakes(after, TypesTries(env, keys, name, node), t);
    assert after - {t} == before;
    forall j: nat ensures AnyUses(env, keys, name, node, after, j) <==>
        AnyUses(env, keys, name, node, before, j) || SetUses(env, keys, name, node, t, j) {
      if u :| u in before && SetUses(env, keys, name, node, u, j) { assert u in after; }
      if SetUses(env, keys, name, node, t, j) { assert t in after; }
    }
  }

  lemma TypesSnoc(sets: seq<RRSet>, i: nat)
    requires i < |sets| && DistinctTypes(sets)
    ensures TypesOf(sets[..i + 1]) == TypesOf(sets[..i]) + {sets[i].rtype}
    ensures sets[i].rtype !in TypesOf(sets[..i])
  {
    forall t ensures t in TypesOf(sets[..i + 1]) <==> t in TypesOf(sets[..i]) || t == sets[i].rtype {
      if t in TypesOf(sets[..i + 1]) {
        var j :| 0 <= j < i + 1 && sets[..i + 1][j].rtype == t;
        if j < i { assert sets[..i][j].rtype == t; }
      }
      if t in TypesOf(sets[..i]) {
        var j :| 0 <= j < i && sets[..i][j].rtype == t;
        assert sets[..i + 1][j].rtype == t;
      }
      assert sets[..i + 1][i].rtype == sets[i].rtype;
    }
  }

  /** Checks one node; returns how many signature verifications were tried. */
  method VerifyNode(env: Env, st: Store, n: Node, keys: seq<CachedKey>, used: array<bool>,
          findings: Set) returns (checked: nat)
    requires st.Valid() && n.name in st.nodes && st.nodes[n.name] == n
    requires used.Length == |keys| && Reports(findings.byKey, findings.byKey.Keys)
    modifies used, findings
    ensures Reports(findings.byKey, old(findings.byKey.Keys) + NodeKeys(env, st.state, keys, n.name))
    ensures checked == NodeTries(env, st.state, keys, n.name)
    ensures forall i | 0 <= i < |keys| :: used[i] == (old(used[i]) || NodeUses(env, st.state, keys, n.name, i))
  {
    hide Store.Valid, Authoritative, AuthorityKeys, DenialKeys, NodeTries, NodeUses;
    KnownNode(st, n);
    UnionAssociative(findings.byKey.Keys, AuthorityKeys(env, st.state, keys, n.name),
        DenialKeys(env, st.state, n.name));
    checked := VerifyAuthority(env, st, n, keys, used, findings);
    CheckDenial(env, st, n, findings);
  }

  lemma UnionAssociative(a: set<Key>, b: set<Key>, c: set<Key>)
    ensures (a + b) + c == a + (b + c)
  {
  }

  method VerifyAuthority(env: Env, st: Store, n: Node, keys: seq<CachedKey>, used: array<bool>,
          findings: Set) returns (checked: nat)
    requires st.Valid() && n.name in st.nodes && st.nodes[n.name] == n
    requires used.Length == |keys| && Reports(findings.byKey, findings.byKey.Keys)
    modifies used, findings
    ensures Reports(findings.byKey, old(findings.byKey.Keys) + AuthorityKeys(env, st.state, keys, n.name))
    ensures checked == NodeTries(env, st.state, keys, n.name)
    ensures forall i | 0 <= i < |keys| :: used[i] == (old(used[i]) || NodeUses(env, st.state, keys, n.name, i))
  {
    hide Store.Valid, Node.Valid, Authoritative;
    KnownNode(st, n);
    checked := 0;
    var authoritative := IsAuthoritative(st, n.name);
    if authoritative {
      checked := VerifySets(env, n, keys, used, findings);
    }
  }

  method CheckDenial(env: Env, st: Store, n: Node, findings: Set)
    requires st.Valid() && n.name in st.nodes && st.nodes[n.name] == n
    requires Reports(findings.byKey, findings.byKey.Keys)
    modifies findings
    ensures Reports(findings.byKey, old(findings.byKey.Keys) + DenialKeys(env, st.state, n.name))
  {
    hide Store.Valid, Store.NodesMatch, IsNSEC3Owner, ApexFirst, NSEC3Code, NSECCode;
    KnownNode(st, n);
    KnownStore(st);
    var param := st.ApexRR(NSEC3PARAM, st.state);
    if param.Some? && param.value.data.NSEC3PARAMData? {
      CheckNSEC3Presence(env, st, n, param.value, findings);
    } else if !IsNSEC3Owner(n.name, st.origin) {
      CheckNSECPresence(env, st, n, findings);
    }
  }

  // ---------------------------------------------------------------------------
  // The denial chain as a whole
  // ---------------------------------------------------------------------------

  ghost predicate IterationsDiffer(index: Index, param: RR) {
    param.data.NSEC3PARAMData? && exists h | h in index :: index[h].iterations != param.data.paramIterations
  }

  /** Records that do not point at their ring successor. */
  ghost function Broken(index: Index): set<Bytes> {
    set h | h in index && !IsNext(index.Keys, h, index[h].next)
  }

  ghost function NSEC3ChainKeys(v: StoreView, param: RR): set<Key> {
    (if IterationsDiffer(v.nsec3, param) then {Key(NSEC3PARAM_MISMATCH, v.origin, NSEC3PARAM)} else {}) +
    OwnersOf(v.nsec3, Broken(v.nsec3))
  }

  method VerifyNSEC3Chain(env: Env, st: Store, param: RR, findings: Set)
    requires st.Valid() && param.data.NSEC3PARAMData? && Reports(findings.byKey, findings.byKey.Keys)
    modifies findings
    ensures Reports(findings.byKey, old(findings.byKey.Keys) + NSEC3ChainKeys(st.state, param))
  {
    hide Store.Valid, IterationsDiffer, Broken, OwnersOf;
    KnownStore(st);
    var mismatch := CheckIterations(st.nsec3, param);
    if mismatch {
      Report(findings, env, NSEC3PARAM_MISMATCH, st.origin, NSEC3PARAM);
    }
    WalkRing(env, st.nsec3, findings);
  }

  method CheckIterations(index: Index, param: RR) returns (mismatch: bool)
    requires param.data.NSEC3PARAMData?
    ensures mismatch <==> IterationsDiffer(index, param)
  {
    var hashes := Scan(index.Keys);
    var i := 0;
    while i < |hashes|
      invariant 0 <= i <= |hashes|
      invariant forall j | 0 <= j < i :: hashes[j] in index && index[hashes[j]].iterations == param.data.paramIterations
    {
      assert hashes[i] in index;
      if index[hashes[i]].iterations != param.data.paramIterations {
        return true;
      }
      i := i + 1;
    }
    forall h | h in index ensures index[h].iterations == param.data.paramIterations {
      var j :| 0 <= j < |hashes| && hashes[j] == h;
    }
    return false;
  }

  /** Compares every record's next hash with the following one in sorted order, cyclically. */
  method WalkRing(env: Env, index: Index, findings: Set)
    requires Reports(findings.byKey, findings.byKey.Keys)
    modifies findings
    ensures Reports(findings.byKey, old(findings.byKey.Keys) + OwnersOf(index, Broken(index)))
  {
    ghost var before := findings.byKey.Keys;
    var hashes := Scan(index.Keys);
    var i := 0;
    assert OwnersOf(index, {}) == {};
    assert HashesUpTo(hashes, 0) * Broken(index) == {};
    while i < |hashes|
      invariant 0 <= i <= |hashes|
      invariant Reports(findings.byKey, before + OwnersOf(index, HashesUpTo(hashes, i) * Broken(index)))
    {
      assert hashes[i] in hashes;
      OwnersStep(index, hashes, i, before);
      CheckSuccessor(env, index, hashes, i, findings);
      i := i + 1;
    }
    AllDone(index, hashes);
  }

  method CheckSuccessor(env: Env, index: Index, hashes: seq<Bytes>, i: nat, findings: Set)
    requires Sorted(hashes) && (forall k :: k in hashes <==> k in index.Keys) && i < |hashes| && hashes[i] in index
    requires Reports(findings.byKey, findings.byKey.Keys)
    modifies findings
    ensures Reports(findings.byKey, old(findings.byKey.Keys) +
              if hashes[i] in Broken(index) then {Key(NSEC3_CHAIN_BROKEN, index[hashes[i]].owner, NSEC3)} else {})
  {
    var rec := index[hashes[i]];
    var wantNext := hashes[(i + 1) % |hashes|];
    NextInSorted(index.Keys, hashes, i);
    SuccessorDecides(index.Keys, hashes[i], wantNext, rec.next);
    if rec.next != wantNext {
      Report(findings, env, NSEC3_CHAIN_BROKEN, rec.owner, NSEC3);
    }
  }

  lemma SuccessorDecides(keys: set<Bytes>, h: Bytes, want: Bytes, next: Bytes)
    requires IsNext(keys, h, want)
    ensures IsNext(keys, h, next) <==> next == want
  {
    if IsNext(keys, h, next) { NextUnique(keys, h, next, want); }
  }

  ghost function HashesUpTo(hashes: seq<Bytes>, i: nat): set<Bytes>
    requires i <= |hashes|
  {
    set j | 0 <= j < i :: hashes[j]
  }

  lemma AllDone(index: Index, hashes: seq<Bytes>)
    requires forall k :: k in hashes <==> k in index
    ensures HashesUpTo(hashes, |hashes|) * Broken(index) == Broken(index)
  {
    forall h | h in Broken(index) ensures h in HashesUpTo(hashes, |hashes|) { assert h in hashes; }
  }

  ghost function OwnersOf(index: Index, hashes: set<Bytes>): set<Key> {
    set h | h in hashes && h in index :: Key(NSEC3_CHAIN_BROKEN, index[h].owner, NSEC3)
  }

  lemma OwnersStep(index: Index, hashes: seq<Bytes>, i: nat, before: set<Key>)
    requires i < |hashes| && hashes[i] in index
    ensures var h := hashes[i];
            before + OwnersOf(index, HashesUpTo(hashes, i + 1) * Broken(index)) ==
            (before + OwnersOf(index, HashesUpTo(hashes, i) * Broken(index))) +
            if h in Broken(index) then {Key(NSEC3_CHAIN_BROKEN, index[h].owner, NSEC3)} else {}
  {
    var h := hashes[i];
    var part := HashesUpTo(hashes, i) * Broken(index);
    assert HashesUpTo(hashes, i + 1) == HashesUpTo(hashes, i) + {h};
    if h in Broken(index) {
      assert HashesUpTo(hashes, i + 1) * Broken(index) == part + {h};
      assert OwnersOf(index, part + {h}) == OwnersOf(index, part) + {Key(NSEC3_CHAIN_BROKEN, index[h].owner, NSEC3)};
    } else {
      assert HashesUpTo(hashes, i + 1) * Broken(index) == part;
    }
  }

  /** The pass accepts the ring as a whole exactly when every record points at its successor. */
  lemma ChainSilentMeansClosed(v: StoreView, param: RR)
    ensures (forall k | k in NSEC3ChainKeys(v, param) :: k.code != NSEC3_CHAIN_BROKEN) <==> Closed(v.nsec3)
  {
    if Closed(v.nsec3) {
      NothingBroken(v.nsec3);
    } else {
      var h :| h in v.nsec3 && !IsNext(v.nsec3.Keys, h, v.nsec3[h].next);
      BrokenIsReported(v.nsec3, h);
    }
  }

  lemma NothingBroken(index: Index)
    requires Closed(index)
    ensures OwnersOf(index, Broken(index)) == {}
  {
    assert Broken(index) == {};
  }

  lemma BrokenIsReported(index: Index, h: Bytes)
    requires h in index && !IsNext(index.Keys, h, index[h].next)
    ensures Key(NSEC3_CHAIN_BROKEN, index[h].owner, NSEC3) in OwnersOf(index, Broken(index))
  {
    assert h in Broken(index);
  }
}

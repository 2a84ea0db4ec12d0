/** The full pass: key checks at the apex, a pool of workers over all nodes, and the denial chain. */
module FullPass {
  import opened Bytes
  import opened Names
  import opened Records
  import opened StoreSpec
  import opened Store
  import opened Findings
  import opened Signatures
  import opened Sums
  import opened Verify

  // ---------------------------------------------------------------------------
  // NSEC chain
  // ---------------------------------------------------------------------------

  function NSECNames(v: StoreView): set<Name> {
    set n | n in v.nodes && NSEC in v.nodes[n].sets
  }

  /** The name the first NSEC at an owner points at. */
  function NSECNext(v: StoreView, n: Name): Option<Name> {
    if NSEC in SetsAt(v, n) && SetsAt(v, n)[NSEC].rdata != [] then
      var first := Unpack(SetsAt(v, n)[NSEC])[0];
      if first.data.NSECData? then Some(first.data.nextName) else None
    else None
  }

  ghost predicate NSECBroken(v: StoreView, n: Name) {
    NSECNext(v, n).Some? && !IsNextName(NSECNames(v), n, NSECNext(v, n).value)
  }

  ghost function NSECChainKeys(v: StoreView, names: set<Name>): set<Key> {
    set n | n in names && NSECBroken(v, n) :: Key(NSEC_CHAIN_BROKEN, n, NSEC)
  }

  lemma NSECChainGrows(v: StoreView, names: set<Name>, n: Name)
    ensures NSECChainKeys(v, names + {n}) ==
            NSECChainKeys(v, names) + if NSECBroken(v, n) then {Key(NSEC_CHAIN_BROKEN, n, NSEC)} else {}
  {
  }

  ghost predicate IsDone(names: seq<Name>, i: nat, done: set<Name>) {
    i <= |names| && forall n :: n in done <==> n in names[..i]
  }

  lemma DoneGrows(names: seq<Name>, i: nat, done: set<Name>)
    requires i < |names| && IsDone(names, i, done)
    ensures IsDone(names, i + 1, done + {names[i]})
  {
    assert names[..i + 1] == names[..i] + [names[i]];
  }

  /** Compares every NSEC with the next owner in canonical order, cyclically. */
  method VerifyNSECChain(env: Env, st: Store, findings: Set)
    requires st.Valid() && Reports(findings.byKey, findings.byKey.Keys)
    modifies findings
    ensures Reports(findings.byKey, old(findings.byKey.Keys) + NSECChainKeys(st.state, NSECNames(st.state)))
  {
    hide Store.Valid, NSECBroken, NSECNames, NSECChainKeys, SortedNames, IsDone, NSECNext;
    var names := OwnersOfNSEC(st);
    var before := findings.byKey.Keys;
    var i := 0;
    ghost var done: set<Name> := {};
    NothingDone(st.state, names);
    while i < |names|
      invariant 0 <= i <= |names| && IsDone(names, i, done)
      invariant Reports(findings.byKey, before + NSECChainKeys(st.state, done))
    {
      DoneGrows(names, i, done);
      NSECChainGrows(st.state, done, names[i]);
      var broken := PointsAstray(st, names, i);
      if broken {
        Report(findings, env, NSEC_CHAIN_BROKEN, names[i], NSEC);
      }
      done := done + {names[i]};
      i := i + 1;
    }
    EverythingDone(names, done, NSECNames(st.state));
  }

  lemma NothingDone(v: StoreView, names: seq<Name>)
    ensures NSECChainKeys(v, {}) == {} && IsDone(names, 0, {})
  {
  }

  lemma EverythingDone(names: seq<Name>, done: set<Name>, all: set<Name>)
    requires IsDone(names, |names|, done) && forall n :: n in names <==> n in all
    ensures done == all
  {
    assert names[..|names|] == names;
  }

  method OwnersOfNSEC(st: Store) returns (names: seq<Name>)
    requires st.Valid()
    ensures SortedNames(names) && forall n :: n in names <==> n in NSECNames(st.state)
  {
    hide Store.Valid, SortedNames;
    KnownNames(st);
    var found: set<Name> := {};
    var todo := st.nodes.Keys;
    ghost var done: set<Name> := {};
    while todo != {}
      invariant done !! todo && done + todo == st.state.nodes.Keys
      invariant forall n :: n in found <==> n in done && n in NSECNames(st.state)
      decreases todo
    {
      var n :| n in todo;
      var has := HasType(st, n, NSEC);
      if has {
        found := found + {n};
      }
      todo := todo - {n};
      done := done + {n};
    }
    names := InOrder(found);
  }

  lemma KnownNames(st: Store)
    requires st.Valid()
    ensures st.nodes.Keys == st.state.nodes.Keys && st.state.origin == st.origin
  {
  }

  method HasType(st: Store, n: Name, t: nat) returns (has: bool)
    requires st.Valid() && n in st.state.nodes
    ensures has <==> t in st.state.nodes[n].sets
  {
    hide Store.Valid, ToMap;
    KnownNames(st);
    assert n in st.nodes;
    FiledUnderName(st, n);
    KnownNode(st, st.nodes[n]);
    has := st.nodes[n].Has(t);
  }

  lemma FiledUnderName(st: Store, name: Name)
    requires st.Valid() && name in st.nodes
    ensures st.nodes[name].name == name && name in st.state.nodes
  {
  }

  /** Whether an NSEC points anywhere but at the next owner. */
  method PointsAstray(st: Store, names: seq<Name>, i: nat) returns (broken: bool)
    requires st.Valid() && SortedNames(names) && (forall n :: n in names <==> n in NSECNames(st.state)) && i < |names|
    ensures broken <==> NSECBroken(st.state, names[i])
  {
    hide SortedNames, IsNextName, Shape;
    ghost var v := st.state;
    assert names[i] in names;
    var n := st.nodes[names[i]];
    KnownNode(st, n);
    var j := FindSet(n, NSEC);
    if |n.sets[j].rdata| == 0 {
      return false;
    }
    var first := Unpack(n.sets[j])[0];
    if !first.data.NSECData? {
      return false;
    }
    var next := names[(i + 1) % |names|];
    NextNameInSorted(NSECNames(v), names, i);
    if first.data.nextName == next {
      return false;
    }
    NextNameDecides(NSECNames(v), names[i], next, first.data.nextName);
    return true;
  }

  lemma NextNameDecides(names: set<Name>, n: Name, want: Name, next: Name)
    requires IsNextName(names, n, want) && next != want
    ensures !IsNextName(names, n, next)
  {
    if IsNextName(names, n, next) { NextNameUnique(names, n, next, want); }
  }

  // ---------------------------------------------------------------------------
  // Keys at the apex
  // ---------------------------------------------------------------------------

  function KeyRecordsIn(rrs: seq<RR>): seq<RR> {
    if rrs == [] then []
    else KeyRecordsIn(rrs[..|rrs| - 1]) +
         if rrs[|rrs| - 1].data.DNSKEYData? then [rrs[|rrs| - 1]] else []
  }

  /** The DNSKEY records of the zone. */
  function KeyRecords(v: StoreView): seq<RR> {
    var sets := SetsAt(v, v.origin);
    if DNSKEY in sets then KeyRecordsIn(Unpack(sets[DNSKEY])) else []
  }

  function MakeKey(rr: RR): CachedKey
    requires rr.data.DNSKEYData?
  {
    CachedKey(rr, rr.data.keyTag, rr.data.algorithm, rr.data.keyFlags % 2 == 1, (rr.data.keyFlags / 256) % 2 == 1)
  }

  /** The usable keys; `None` as soon as one public key does not parse. */
  function CachedKeys(env: Env, rrs: seq<RR>): Option<seq<CachedKey>> {
    if exists rr | rr in rrs :: rr.data.DNSKEYData? && !env.parses(rr) then None
    else Some(KeysMade(rrs))
  }

  function KeysMade(rrs: seq<RR>): (keys: seq<CachedKey>)
  {
    if rrs == [] then []
    else
      var last := rrs[|rrs| - 1];
      KeysMade(rrs[..|rrs| - 1]) + if last.data.DNSKEYData? then [MakeKey(last)] else []
  }

  method CacheKeys(env: Env, rrs: seq<RR>) returns (keys: Option<seq<CachedKey>>)
    requires forall rr | rr in rrs :: rr.data.DNSKEYData?
    ensures keys == CachedKeys(env, rrs)
  {
    var out: seq<CachedKey> := [];
    var i := 0;
    while i < |rrs|
      invariant 0 <= i <= |rrs|
      invariant out == KeysMade(rrs[..i])
      invariant forall j | 0 <= j < i :: env.parses(rrs[j])
    {
      assert rrs[..i + 1][..i] == rrs[..i] && rrs[i] in rrs;
      if !env.parses(rrs[i]) {
        return None;
      }
      out := out + [MakeKey(rrs[i])];
      i := i + 1;
    }
    assert rrs[..i] == rrs;
    return Some(out);
  }

  method ReadKeyRecords(st: Store) returns (rrs: seq<RR>)
    requires st.Valid()
    ensures rrs == KeyRecords(st.state)
    ensures forall rr | rr in rrs :: rr.data.DNSKEYData?
  {
    hide Store.Valid, ToMap, KeyRecordsIn;
    KnownNames(st);
    if st.origin !in st.nodes {
      return [];
    }
    FiledUnderName(st, st.origin);
    var n := st.nodes[st.origin];
    KnownNode(st, n);
    var j := FindSet(n, DNSKEY);
    if j == |n.sets| {
      return [];
    }
    rrs := OnlyKeys(Unpack(n.sets[j]));
  }

  method OnlyKeys(all: seq<RR>) returns (rrs: seq<RR>)
    ensures rrs == KeyRecordsIn(all)
    ensures forall rr | rr in rrs :: rr.data.DNSKEYData?
  {
    rrs := [];
    var i := 0;
    while i < |all|
      invariant 0 <= i <= |all|
      invariant rrs == KeyRecordsIn(all[..i])
      invariant forall rr | rr in rrs :: rr.data.DNSKEYData?
    {
      assert all[..i + 1][..i] == all[..i];
      if all[i].data.DNSKEYData? {
        rrs := rrs + [all[i]];
      }
      i := i + 1;
    }
    assert all[..i] == all;
  }

  function TagCount(keys: seq<CachedKey>, tag: nat): nat {
    if keys == [] then 0
    else TagCount(keys[..|keys| - 1], tag) + if keys[|keys| - 1].keyTag == tag then 1 else 0
  }

  predicate TagsCollide(keys: seq<CachedKey>) {
    exists k | k in keys :: TagCount(keys, k.keyTag) > 3
  }

  method CheckKeytagCollisions(keys: seq<CachedKey>) returns (collide: bool)
    ensures collide <==> TagsCollide(keys)
  {
    var byTag: map<nat, nat> := map[];
    var i := 0;
    while i < |keys|
      invariant 0 <= i <= |keys|
      invariant forall t: nat :: (if t in byTag then byTag[t] else 0) == TagCount(keys[..i], t)
      invariant forall t: nat :: t in byTag <==> exists j | 0 <= j < i :: keys[j].keyTag == t
    {
      assert keys[..i + 1][..i] == keys[..i];
      var t := keys[i].keyTag;
      byTag := byTag[t := (if t in byTag then byTag[t] else 0) + 1];
      i := i + 1;
    }
    assert keys[..i] == keys;
    collide := exists t | t in byTag :: byTag[t] > 3;
    if collide {
      var t :| t in byTag && byTag[t] > 3;
      var j :| 0 <= j < |keys| && keys[j].keyTag == t;
      assert keys[j] in keys;
    }
  }

  /** A key-signing key whose tag is named by a signature over the DNSKEY RRset, and that verifies it. */
  predicate SignsKeys(env: Env, name: Name, set_: RRSet, k: CachedKey, s: Signature) {
    k.isKSK && k.keyTag == s.keyTag && env.verifies(name, set_.ttl, s, k.rr, Unpack(set_))
  }

  ghost predicate KSKUses(env: Env, name: Name, sets: Sets, keys: seq<CachedKey>, i: nat) {
    && i < |keys| && DNSKEY in sets
    && exists s | s in SignaturesCovering(sets, DNSKEY) :: SignsKeys(env, name, sets[DNSKEY], keys[i], s)
  }

  ghost predicate SignedByKSK(env: Env, name: Name, sets: Sets, keys: seq<CachedKey>) {
    exists i: nat :: KSKUses(env, name, sets, keys, i)
  }

  /** Tries every key-signing key on every signature over the keys; marks all that verify one. */
  method CheckSignedByKSK(env: Env, name: Name, sets: Sets, keys: seq<CachedKey>, used: array<bool>) returns (ok: bool)
    requires DNSKEY in sets && used.Length == |keys|
    modifies used
    ensures ok <==> SignedByKSK(env, name, sets, keys)
    ensures forall i | 0 <= i < |keys| :: used[i] == (old(used[i]) || KSKUses(env, name, sets, keys, i))
  {
    var sigs := SignaturesCovering(sets, DNSKEY);
    var set_ := sets[DNSKEY];
    ok := false;
    var i := 0;
    while i < |sigs|
      invariant 0 <= i <= |sigs|
      invariant ok <==> exists s, k | s in sigs[..i] && k in keys :: SignsKeys(env, name, set_, k, s)
      invariant forall j | 0 <= j < |keys| ::
                  used[j] == (old(used[j]) || exists s | s in sigs[..i] :: SignsKeys(env, name, set_, keys[j], s))
    {
      assert sigs[..i + 1] == sigs[..i] + [sigs[i]];
      var matched := MarkSigners(env, name, set_, keys, sigs[i], used);
      ok := ok || matched;
      i := i + 1;
    }
    assert sigs[..i] == sigs;
    if ok {
      var s, k :| s in sigs && k in keys && SignsKeys(env, name, set_, k, s);
      var j: nat :| j < |keys| && keys[j] == k;
      assert KSKUses(env, name, sets, keys, j);
    }
  }

  method MarkSigners(env: Env, name: Name, set_: RRSet, keys: seq<CachedKey>, s: Signature,
          used: array<bool>) returns (matched: bool)
    requires used.Length == |keys|
    modifies used
    ensures matched <==> exists k | k in keys :: SignsKeys(env, name, set_, k, s)
    ensures forall j | 0 <= j < |keys| :: used[j] == (old(used[j]) || SignsKeys(env, name, set_, keys[j], s))
  {
    hide SignsKeys;
    matched := false;
    var i := 0;
    while i < |keys|
      invariant 0 <= i <= |keys|
      invariant matched <==> exists j | 0 <= j < i :: SignsKeys(env, name, set_, keys[j], s)
      invariant forall j | 0 <= j < i :: used[j] == (old(used[j]) || SignsKeys(env, name, set_, keys[j], s))
      invariant forall j | i <= j < |keys| :: used[j] == old(used[j])
    {
      if SignsKeys(env, name, set_, keys[i], s) {
        matched := true;
        used[i] := true;
      }
      i := i + 1;
    }
  }

  // ---------------------------------------------------------------------------
  // The worker pool
  // ---------------------------------------------------------------------------

  /** What the nodes of these names contribute: findings, verifications tried, NSEC3 nodes counted, keys used. */
  ghost function KeysIn(env: Env, v: StoreView, keys: seq<CachedKey>, names: set<Name>): set<Key> {
    set n, k | n in names && n in v.nodes && k in NodeKeys(env, v, keys, n) :: k
  }

  ghost function Tried(env: Env, v: StoreView, keys: seq<CachedKey>): Name -> nat {
    n => NodeTries(env, v, keys, n)
  }

  function NSEC3Count(v: StoreView, n: Name): nat {
    if Param(v).Some? && !IsNSEC3Owner(n, v.origin) then 1 else 0
  }

  ghost function CountsAsNSEC3(v: StoreView): Name -> nat {
    n => NSEC3Count(v, n)
  }

  ghost predicate UsedIn(env: Env, v: StoreView, keys: seq<CachedKey>, names: set<Name>, i: nat) {
    exists n | n in names :: NodeUses(env, v, keys, n, i)
  }

  lemma NoNames(env: Env, v: StoreView, keys: seq<CachedKey>)
    ensures KeysIn(env, v, keys, {}) == {}
    ensures Sum({}, Tried(env, v, keys)) == 0 && Sum({}, CountsAsNSEC3(v)) == 0
    ensures forall i: nat :: !UsedIn(env, v, keys, {}, i)
  {
  }

  lemma OneMoreName(env: Env, v: StoreView, keys: seq<CachedKey>, names: set<Name>, n: Name)
    requires n !in names && n in v.nodes
    ensures KeysIn(env, v, keys, names + {n}) == KeysIn(env, v, keys, names) + NodeKeys(env, v, keys, n)
    ensures Sum(names + {n}, Tried(env, v, keys)) == Sum(names, Tried(env, v, keys)) + NodeTries(env, v, keys, n)
    ensures Sum(names + {n}, CountsAsNSEC3(v)) == Sum(names, CountsAsNSEC3(v)) + NSEC3Count(v, n)
  {
    hide NodeKeys, NodeTries;
    SumTakes(names + {n}, Tried(env, v, keys), n);
    SumTakes(names + {n}, CountsAsNSEC3(v), n);
    assert names + {n} - {n} == names;
  }

  lemma UsedGrows(env: Env, v: StoreView, keys: seq<CachedKey>, names: set<Name>, n: Name)
    ensures forall i: nat :: UsedIn(env, v, keys, names + {n}, i) <==>
              UsedIn(env, v, keys, names, i) || NodeUses(env, v, keys, n, i)
  {
    hide NodeUses;
    forall i: nat ensures UsedIn(env, v, keys, names + {n}, i) <==>
              UsedIn(env, v, keys, names, i) || NodeUses(env, v, keys, n, i) {
      if m :| m in names && NodeUses(env, v, keys, m, i) { assert m in names + {n}; }
      if NodeUses(env, v, keys, n, i) { assert n in names + {n}; }
    }
  }

  /** The local findings of the workers: separate collections, those of finished workers counted as handed over. */
  ghost predicate Locals(locals: seq<Set>, alive: set<nat>, parts: seq<set<Key>>, findings: Set)
    reads locals
  {
    && |parts| == |locals|
    && (forall w | w in alive :: w < |locals|)
    && (forall i, j | 0 <= i < j < |locals| :: locals[i] != locals[j])
    && (forall w | 0 <= w < |locals| :: locals[w] != findings)
    && (forall w | w in alive :: Reports(locals[w].byKey, parts[w]))
  }

  /** One worker takes one node from the queue. */
  method ProcessNode(env: Env, st: Store, name: Name, keys: seq<CachedKey>, used: array<bool>, local: Set)
    returns (checked: nat, counted: nat)
    requires st.Valid() && name in st.nodes
    requires used.Length == |keys| && Reports(local.byKey, local.byKey.Keys)
    modifies used, local
    ensures name in st.state.nodes
    ensures Reports(local.byKey, old(local.byKey.Keys) + NodeKeys(env, st.state, keys, name))
    ensures checked == NodeTries(env, st.state, keys, name) && counted == NSEC3Count(st.state, name)
    ensures forall i | 0 <= i < |keys| :: used[i] == (old(used[i]) || NodeUses(env, st.state, keys, name, i))
  {
    hide Store.Valid, Store.NodesMatch, NodeKeys, NodeTries, NodeUses, IsNSEC3Owner, ApexFirst;
    FiledUnderName(st, name);
    var n := st.nodes[name];
    KnownNode(st, n);
    KnownStore(st);
    checked := VerifyNode(env, st, n, keys, used, local);
    var param := st.ApexRR(NSEC3PARAM, st.state);
    counted := if param.Some? && param.value.data.NSEC3PARAMData? && !IsNSEC3Owner(name, st.origin) then 1 else 0;
  }

  /** A finished worker adds its findings to the result. */
  method Collect(local: Set, findings: Set)
    requires local != findings && Reports(local.byKey, local.byKey.Keys) && Reports(findings.byKey, findings.byKey.Keys)
    modifies findings
    ensures Reports(findings.byKey, old(findings.byKey.Keys) + local.byKey.Keys)
  {
    ghost var before := findings.byKey.Keys;
    var todo := local.byKey.Keys;
    ghost var done: set<Key> := {};
    while todo != {}
      invariant done !! todo && done + todo == local.byKey.Keys
      invariant Reports(findings.byKey, before + done)
      decreases todo
    {
      var k :| k in todo;
      findings.Add(local.byKey[k]);
      todo := todo - {k};
      done := done + {k};
    }
    assert done == local.byKey.Keys;
  }

  /** A pool in flight: nodes done, findings in the result and in the local collections, counters. */
  datatype Ledger = Ledger(done: set<Name>, merged: set<Key>, parts: seq<set<Key>>, verified: nat, counted: nat)

  /** What has been found so far, in the result and in the local collections together, is what the nodes done so far
      contribute. */
  ghost predicate Balanced(env: Env, v: StoreView, keys: seq<CachedKey>, before: set<Key>, l: Ledger) {
    && l.merged + Union(l.parts) == before + KeysIn(env, v, keys, l.done)
    && l.verified == Sum(l.done, Tried(env, v, keys))
    && l.counted == Sum(l.done, CountsAsNSEC3(v))
  }

  lemma BalancedAfterNode(env: Env, v: StoreView, keys: seq<CachedKey>, before: set<Key>, l: Ledger, w: nat, name: Name)
    returns (l': Ledger)
    requires Balanced(env, v, keys, before, l) && w < |l.parts| && name !in l.done && name in v.nodes
    ensures Balanced(env, v, keys, before, l')
    ensures l'.done == l.done + {name} && l'.merged == l.merged
    ensures l'.parts == l.parts[w := l.parts[w] + NodeKeys(env, v, keys, name)]
    ensures l'.verified == l.verified + NodeTries(env, v, keys, name) && l'.counted == l.counted + NSEC3Count(v, name)
  {
    hide NodeKeys, NodeTries, KeysIn, Union, CountsAsNSEC3, NSEC3Count, Tried;
    var more := NodeKeys(env, v, keys, name);
    OneMoreName(env, v, keys, l.done, name);
    UnionGrows(l.parts, w, more);
    MoreFindings(l.merged, Union(l.parts), before, KeysIn(env, v, keys, l.done), more);
    l' := Ledger(l.done + {name}, l.merged, l.parts[w := l.parts[w] + more],
                 l.verified + NodeTries(env, v, keys, name), l.counted + NSEC3Count(v, name));
  }

  lemma BalancedAfterCollect(env: Env, v: StoreView, keys: seq<CachedKey>, before: set<Key>, l: Ledger, w: nat)
    returns (l': Ledger)
    requires Balanced(env, v, keys, before, l) && w < |l.parts|
    ensures Balanced(env, v, keys, before, l')
    ensures l' == l.(merged := l.merged + l.parts[w], parts := l.parts[w := {}])
  {
    hide KeysIn, Union, CountsAsNSEC3, Tried;
    UnionHandsOver(l.parts, w);
    HandedOver(l.merged, Union(l.parts[w := {}]), l.parts[w], Union(l.parts));
    l' := l.(merged := l.merged + l.parts[w], parts := l.parts[w := {}]);
  }

  lemma BalancedAtFirst(env: Env, v: StoreView, keys: seq<CachedKey>, before: set<Key>,
          workers: nat) returns (l: Ledger)
    ensures Balanced(env, v, keys, before, l)
    ensures l == Ledger({}, before, seq(workers, _ => {}), 0, 0)
    ensures forall was: seq<bool> | |was| == |keys| :: Marked(env, v, keys, was, was, {})
  {
    hide KeysIn, Union, CountsAsNSEC3, Tried, UsedIn;
    l := Ledger({}, before, seq(workers, _ => {}), 0, 0);
    NoNames(env, v, keys);
    EmptyParts(l.parts);
  }

  lemma BalancedAtLast(env: Env, v: StoreView, keys: seq<CachedKey>, before: set<Key>, l: Ledger)
    requires Balanced(env, v, keys, before, l)
    requires forall i | 0 <= i < |l.parts| :: l.parts[i] == {}
    ensures l.merged == before + KeysIn(env, v, keys, l.done)
    ensures l.verified == Sum(l.done, Tried(env, v, keys)) && l.counted == Sum(l.done, CountsAsNSEC3(v))
  {
    hide KeysIn, Union;
    EmptyParts(l.parts);
  }

  /** The keys marked as used, given the marks before and the nodes done. */
  ghost predicate Marked(env: Env, v: StoreView, keys: seq<CachedKey>, was: seq<bool>, now: seq<bool>,
          done: set<Name>) {
    |was| == |now| == |keys| && forall i | 0 <= i < |keys| :: now[i] == (was[i] || UsedIn(env, v, keys, done, i))
  }

  /** A worker takes a node from the queue and checks it into its own collection. */
  method TakeJob(env: Env, st: Store, name: Name, keys: seq<CachedKey>, used: array<bool>, locals: seq<Set>, w: nat,
                 ghost alive: set<nat>, findings: Set, ghost before: set<Key>, ghost was: seq<bool>, ghost l: Ledger)
    returns (checked: nat, counted: nat, ghost l': Ledger)
    requires st.Valid() && name in st.state.nodes && name !in l.done && used.Length == |keys|
    requires Locals(locals, alive, l.parts, findings) && w in alive
    requires Balanced(env, st.state, keys, before, l) && Marked(env, st.state, keys, was, used[..], l.done)
    modifies used, locals[w]
    ensures Locals(locals, alive, l'.parts, findings) && LedgerMoves(l, l', name, w)
    ensures l'.verified == l.verified + checked && l'.counted == l.counted + counted
    ensures Balanced(env, st.state, keys, before, l') && Marked(env, st.state, keys, was, used[..], l'.done)
  {
    hide Store.Valid, NodeKeys, NodeTries, NodeUses, NSEC3Count, Reports, Balanced, UsedIn;
    KnownNames(st);
    SizeIs(locals[w].byKey, l.parts[w]);
    UsedGrows(env, st.state, keys, l.done, name);
    l' := BalancedAfterNode(env, st.state, keys, before, l, w, name);
    checked, counted := ProcessNode(env, st, name, keys, used, locals[w]);
  }

  ghost predicate LedgerMoves(l: Ledger, l': Ledger, name: Name, w: nat) {
    && l'.done == l.done + {name} && l'.merged == l.merged
    && |l'.parts| == |l.parts| && forall u | 0 <= u < |l.parts| && u != w :: l'.parts[u] == l.parts[u]
  }

  /** A worker that finds the queue empty adds its findings to the result. */
  method HandOver(locals: seq<Set>, w: nat, ghost alive: set<nat>, findings: Set, ghost l: Ledger)
    requires Locals(locals, alive, l.parts, findings) && w in alive && Reports(findings.byKey, l.merged)
    modifies findings
    ensures Locals(locals, alive - {w}, l.parts[w := {}], findings)
    ensures Reports(findings.byKey, l.merged + l.parts[w])
  {
    hide Reports;
    SizeIs(locals[w].byKey, l.parts[w]);
    SizeIs(findings.byKey, l.merged);
    Collect(locals[w], findings);
  }

  lemma LocalsFacts(locals: seq<Set>, w: nat, alive: set<nat>, parts: seq<set<Key>>, findings: Set)
    requires Locals(locals, alive, parts, findings) && w in alive
    ensures w < |locals| == |parts|
  {
  }

  lemma LocalsBegin(locals: seq<Set>, alive: set<nat>, parts: seq<set<Key>>, findings: Set)
    requires |parts| == |locals| && (forall w: nat :: w in alive <==> w < |locals|)
    requires forall i, j | 0 <= i < j < |locals| :: locals[i] != locals[j]
    requires forall w | 0 <= w < |locals| :: locals[w] != findings && Reports(locals[w].byKey, {}) && parts[w] == {}
    ensures Locals(locals, alive, parts, findings)
  {
  }

  /** Any number of workers, any assignment of queued nodes, any order of finishing: the result is always the union,
      the sum and the disjunction of what the nodes contribute one by one. */
  method RunPool(env: Env, st: Store, keys: seq<CachedKey>, used: array<bool>, workers: nat, findings: Set)
    returns (verified: nat, nsec3Checked: nat)
    requires st.Valid() && workers > 0
    requires used.Length == |keys| && Reports(findings.byKey, findings.byKey.Keys)
    modifies used, findings
    ensures Reports(findings.byKey, old(findings.byKey.Keys) + KeysIn(env, st.state, keys, st.state.nodes.Keys))
    ensures verified == Sum(st.state.nodes.Keys, Tried(env, st.state, keys))
    ensures nsec3Checked == Sum(st.state.nodes.Keys, CountsAsNSEC3(st.state))
    ensures Marked(env, st.state, keys, old(used[..]), used[..], st.state.nodes.Keys)
  {
    hide Store.Valid, NodeKeys, NodeTries, NodeUses, KeysIn, UsedIn, Sum, Tried, CountsAsNSEC3, NSEC3Count, Reports,
         Union, Locals, Balanced, Marked, LedgerMoves, InFlight;
    KnownNames(st);
    ghost var v, before, was := st.state, findings.byKey.Keys, used[..];
    ghost var l := BalancedAtFirst(env, v, keys, before, workers);
    var locals := NewSets(workers);
    verified, nsec3Checked := 0, 0;
    var alive := UpTo(workers);
    var jobs := st.nodes.Keys;
    LocalsBegin(locals, alive, l.parts, findings);
    assert 0 in alive;
    Queued(l, alive, jobs);
    while alive != {}
      invariant InFlight(l, alive, jobs, v.nodes.Keys)
      invariant Locals(locals, alive, l.parts, findings) && fresh(locals)
      invariant Reports(findings.byKey, l.merged)
      invariant Balanced(env, v, keys, before, l) && verified == l.verified && nsec3Checked == l.counted
      invariant Marked(env, v, keys, was, used[..], l.done)
      decreases alive, jobs
    {
      var w :| w in alive;
      LocalsFacts(locals, w, alive, l.parts, findings);
      if jobs != {} {
        var name :| name in jobs;
        NameQueued(l, alive, jobs, v.nodes.Keys, name);
        ghost var before' := l;
        var checked, counted;
        checked, counted, l := TakeJob(env, st, name, keys, used, locals, w, alive, findings, before, was, l);
        verified, nsec3Checked := verified + checked, nsec3Checked + counted;
        JobTaken(before', l, alive, jobs, v.nodes.Keys, name, w);
        jobs := jobs - {name};
      } else {
        HandOver(locals, w, alive, findings, l);
        WorkerDone(l, alive, v.nodes.Keys, w);
        l := BalancedAfterCollect(env, v, keys, before, l, w);
        alive := alive - {w};
      }
    }
    Drained(l, jobs, v.nodes.Keys);
    BalancedAtLast(env, v, keys, before, l);
  }

  /** Every name is done or queued; finished workers have handed over; the queue is empty when all have finished. */
  ghost predicate InFlight(l: Ledger, alive: set<nat>, jobs: set<Name>, all: set<Name>) {
    && l.done !! jobs && l.done + jobs == all
    && (forall w | 0 <= w < |l.parts| && w !in alive :: l.parts[w] == {})
    && (alive != {} || jobs == {})
  }

  lemma Queued(l: Ledger, alive: set<nat>, jobs: set<Name>)
    requires l.done == {} && alive != {} && forall w | 0 <= w < |l.parts| :: l.parts[w] == {}
    ensures InFlight(l, alive, jobs, jobs)
  {
  }

  lemma NameQueued(l: Ledger, alive: set<nat>, jobs: set<Name>, all: set<Name>, name: Name)
    requires InFlight(l, alive, jobs, all) && name in jobs
    ensures name in all && name !in l.done
  {
  }

  lemma JobTaken(l: Ledger, l': Ledger, alive: set<nat>, jobs: set<Name>, all: set<Name>, name: Name, w: nat)
    requires InFlight(l, alive, jobs, all) && name in jobs && w in alive && LedgerMoves(l, l', name, w)
    ensures InFlight(l', alive, jobs - {name}, all) && l'.merged == l.merged
  {
  }

  lemma WorkerDone(l: Ledger, alive: set<nat>, all: set<Name>, w: nat)
    requires InFlight(l, alive, {}, all) && w < |l.parts|
    ensures InFlight(l.(merged := l.merged + l.parts[w], parts := l.parts[w := {}]), alive - {w}, {}, all)
  {
  }

  lemma Drained(l: Ledger, jobs: set<Name>, all: set<Name>)
    requires InFlight(l, {}, jobs, all)
    ensures l.done == all && forall w | 0 <= w < |l.parts| :: l.parts[w] == {}
  {
  }

  function UpTo(n: nat): (s: set<nat>)
    ensures forall w: nat :: w in s <==> w < n
  {
    if n == 0 then {} else UpTo(n - 1) + {n - 1}
  }

  lemma SizeIs(m: ByKey, keys: set<Key>)
    requires Reports(m, keys)
    ensures m.Keys == keys
  {
  }

  lemma EmptyParts(parts: seq<set<Key>>)
    requires forall i | 0 <= i < |parts| :: parts[i] == {}
    ensures Union(parts) == {}
  {
    hide Union;
    forall x ensures x !in Union(parts) { UnionIs(parts, x); }
  }

  lemma MoreFindings(merged: set<Key>, u: set<Key>, before: set<Key>, found: set<Key>, more: set<Key>)
    requires merged + u == before + found
    ensures merged + (u + more) == before + (found + more)
  {
    assert merged + (u + more) == (merged + u) + more;
    assert before + (found + more) == (before + found) + more;
  }

  lemma HandedOver(merged: set<Key>, rest: set<Key>, part: set<Key>, u: set<Key>)
    requires rest + part == u
    ensures (merged + part) + rest == merged + u
  {
  }

  method NewSets(n: nat) returns (sets: seq<Set>)
    ensures |sets| == n && fresh(sets)
    ensures forall i, j | 0 <= i < j < n :: sets[i] != sets[j]
    ensures forall i | 0 <= i < n :: Reports(sets[i].byKey, {})
  {
    sets := [];
    while |sets| < n
      invariant |sets| <= n && fresh(sets)
      invariant forall i, j | 0 <= i < j < |sets| :: sets[i] != sets[j]
      invariant forall i | 0 <= i < |sets| :: Reports(sets[i].byKey, {})
    {
      var s := new Set();
      sets := sets + [s];
    }
  }

  // ---------------------------------------------------------------------------
  // The pass
  // ---------------------------------------------------------------------------

  /** What a pass returns besides its findings. */
  datatype Outcome = Outcome(valid: bool, unsigned: bool, verified: nat, nsec3Checked: nat)

  /** Findings about the key set itself. */
  ghost function ApexKeys(env: Env, v: StoreView, keys: seq<CachedKey>): set<Key> {
    (if TagsCollide(keys) then {Key(KEYTAG_COLLISION_LIMIT, v.origin, DNSKEY)} else {}) +
    (if SignedByKSK(env, v.origin, SetsAt(v, v.origin), keys) then {}
        else {Key(DNSKEY_NOT_SIGNED_BY_KSK, v.origin, DNSKEY)})
  }

  ghost function ChainKeys(v: StoreView): set<Key> {
    match Param(v)
    case Some(p) => NSEC3ChainKeys(v, p)
    case None => NSECChainKeys(v, NSECNames(v))
  }

  ghost function SignedZoneKeys(env: Env, v: StoreView, keys: seq<CachedKey>): set<Key> {
    ApexKeys(env, v, keys) + KeysIn(env, v, keys, v.nodes.Keys) + ChainKeys(v)
  }

  /** Everything a full pass reports. */
  ghost function FullKeys(env: Env, v: StoreView): set<Key> {
    if SOA !in SetsAt(v, v.origin) then {Key(SOA_SERIAL_MISMATCH, v.origin, SOA)}
    else if KeyRecords(v) == [] then {}
    else match CachedKeys(env, KeyRecords(v))
         case None => {Key(RRSIG_INVALID, v.origin, DNSKEY)}
         case Some(keys) => SignedZoneKeys(env, v, keys)
  }

  ghost predicate NoErrors(keys: set<Key>) {
    forall k | k in keys :: SeverityOf(k.code) == Warning
  }

  /** What a full pass returns: a function of the zone and the environment alone, whatever the workers do. */
  ghost function FullOutcome(env: Env, v: StoreView): Outcome {
    if SOA !in SetsAt(v, v.origin) then Outcome(false, false, 0, 0)
    else if KeyRecords(v) == [] then Outcome(true, true, 0, 0)
    else match CachedKeys(env, KeyRecords(v))
         case None => Outcome(false, false, 0, 0)
         case Some(keys) =>
           Outcome(NoErrors(SignedZoneKeys(env, v, keys)), false,
                   Sum(v.nodes.Keys, Tried(env, v, keys)), Sum(v.nodes.Keys, CountsAsNSEC3(v)))
  }

  /** The verdict is valid exactly when nothing was reported that counts as an error. */
  lemma ValidMeansNoErrors(env: Env, v: StoreView)
    ensures FullOutcome(env, v).valid <==> NoErrors(FullKeys(env, v))
    ensures FullOutcome(env, v).unsigned ==> FullKeys(env, v) == {}
  {
    hide SignedZoneKeys, CachedKeys, KeyRecords;
    ErrorReported(SOA_SERIAL_MISMATCH, v.origin, SOA);
    ErrorReported(RRSIG_INVALID, v.origin, DNSKEY);
  }

  lemma ErrorReported(code: Code, owner: Name, rtype: nat)
    requires SeverityOf(code) == Error
    ensures !NoErrors({Key(code, owner, rtype)})
  {
    assert Key(code, owner, rtype) in {Key(code, owner, rtype)};
  }

  lemma ErrorsByCode(m: ByKey, keys: set<Key>)
    requires Reports(m, keys)
    ensures HasErrors(m) <==> !NoErrors(keys)
  {
  }

  method CheckApexKeys(env: Env, st: Store, keys: seq<CachedKey>, used: array<bool>, findings: Set)
    requires st.Valid() && DNSKEY in SetsAt(st.state, st.state.origin)
    requires used.Length == |keys| && Reports(findings.byKey, findings.byKey.Keys)
    modifies used, findings
    ensures Reports(findings.byKey, old(findings.byKey.Keys) + ApexKeys(env, st.state, keys))
  {
    hide Store.Valid, ToMap, TagsCollide, SignedByKSK, KSKUses;
    KnownNames(st);
    FiledUnderName(st, st.origin);
    var apex := st.nodes[st.origin];
    KnownNode(st, apex);
    var origin, sets := st.origin, apex.View().sets;
    var collide := CheckKeytagCollisions(keys);
    ReportIf(collide, findings, env, KEYTAG_COLLISION_LIMIT, origin, DNSKEY);
    var signed := CheckSignedByKSK(env, origin, sets, keys, used);
    ReportIf(!signed, findings, env, DNSKEY_NOT_SIGNED_BY_KSK, origin, DNSKEY);
  }

  method CheckChain(env: Env, st: Store, findings: Set)
    requires st.Valid() && Reports(findings.byKey, findings.byKey.Keys)
    modifies findings
    ensures Reports(findings.byKey, old(findings.byKey.Keys) + ChainKeys(st.state))
  {
    hide Store.Valid, Store.NodesMatch, Reports, NSEC3ChainKeys, NSECChainKeys, NSECNames, ApexFirst;
    KnownStore(st);
    var param := st.ApexRR(NSEC3PARAM, st.state);
    if param.Some? && param.value.data.NSEC3PARAMData? {
      VerifyNSEC3Chain(env, st, param.value, findings);
    } else {
      VerifyNSECChain(env, st, findings);
    }
  }

  /** Verifies the entire zone. */
  method Full(env: Env, st: Store, workers: nat) returns (findings: Set, res: Outcome)
    requires st.Valid() && workers > 0
    ensures fresh(findings) && Reports(findings.byKey, FullKeys(env, st.state))
    ensures res == FullOutcome(env, st.state) && (res.valid <==> !HasErrors(findings.byKey))
  {
    hide Store.Valid, SignedZoneKeys, KeyRecords, CachedKeys, NoErrors, Sum, Tried, CountsAsNSEC3;
    KnownNames(st);
    findings := new Set();
    Empty();
    var soa := false;
    if st.origin in st.nodes {
      soa := HasType(st, st.origin, SOA);
    }
    if !soa {
      Report(findings, env, SOA_SERIAL_MISMATCH, st.origin, SOA);
      return findings, Outcome(false, false, 0, 0);
    }
    var rrs := ReadKeyRecords(st);
    if |rrs| == 0 {
      return findings, Outcome(true, true, 0, 0);
    }
    var keys := CacheKeys(env, rrs);
    if keys.None? {
      Report(findings, env, RRSIG_INVALID, st.origin, DNSKEY);
      return findings, Outcome(false, false, 0, 0);
    }
    HasKeys(st.state);
    var verified, nsec3Checked := VerifySigned(env, st, keys.value, workers, findings);
    ErrorsByCode(findings.byKey, SignedZoneKeys(env, st.state, keys.value));
    res := Outcome(!HasErrors(findings.byKey), false, verified, nsec3Checked);
  }

  lemma Empty()
    ensures Reports(map[], {})
  {
  }

  lemma HasKeys(v: StoreView)
    requires KeyRecords(v) != []
    ensures DNSKEY in SetsAt(v, v.origin)
  {
  }

  method VerifySigned(env: Env, st: Store, keys: seq<CachedKey>, workers: nat, findings: Set)
    returns (verified: nat, nsec3Checked: nat)
    requires st.Valid() && workers > 0 && DNSKEY in SetsAt(st.state, st.state.origin) && findings.byKey == map[]
    modifies findings
    ensures Reports(findings.byKey, SignedZoneKeys(env, st.state, keys))
    ensures verified == Sum(st.state.nodes.Keys, Tried(env, st.state, keys))
    ensures nsec3Checked == Sum(st.state.nodes.Keys, CountsAsNSEC3(st.state))
  {
    hide Store.Valid, ApexKeys, KeysIn, ChainKeys, Sum, Tried, CountsAsNSEC3, Marked, Reports;
    var used := new bool[|keys|];
    Empty();
    CheckApexKeys(env, st, keys, used, findings);
    SizeIs(findings.byKey, {} + ApexKeys(env, st.state, keys));
    verified, nsec3Checked := RunPool(env, st, keys, used, workers, findings);
    SizeIs(findings.byKey, {} + ApexKeys(env, st.state, keys) + KeysIn(env, st.state, keys, st.state.nodes.Keys));
    CheckChain(env, st, findings);
    assert {} + ApexKeys(env, st.state, keys) == ApexKeys(env, st.state, keys);
  }
}

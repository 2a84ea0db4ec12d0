/** The incremental pass over touched names and hashes, and how far it refines the full pass. */
module Incremental {
  import opened Bytes
  import opened Names
  import opened Records
  import opened StoreSpec
  import opened Store
  import opened Ring
  import opened Findings
  import opened Signatures
  import opened Sums
  import opened Verify
  import opened FullPass

  // ---------------------------------------------------------------------------
  // What the pass finds
  // ---------------------------------------------------------------------------

  /** Records before `h` in the ring that do not point at it. */
  ghost function AstrayBefore(index: Index, h: Bytes): set<Bytes> {
    set p | p in index && IsPrev(index.Keys, h, p) && index[p].next != h
  }

  ghost function LinkKeys(v: StoreView, h: Bytes): set<Key> {
    if h !in v.nsec3 then {Key(NSEC3_CHAIN_BROKEN, v.origin, NSEC3)}
    else
      (if IsNext(v.nsec3.Keys, h, v.nsec3[h].next) then {} else {Key(NSEC3_CHAIN_BROKEN, v.nsec3[h].owner, NSEC3)}) +
      OwnersOf(v.nsec3, AstrayBefore(v.nsec3, h))
  }

  /** The node and RRset whose signatures are checked for a touched hash. */
  function HashSet(v: StoreView, h: Bytes): Option<RRSet> {
    if h in v.nsec3 then SetAt(v, v.nsec3[h].owner, NSEC3) else None
  }

  function HashSignatureKeys(env: Env, v: StoreView, keys: seq<CachedKey>, h: Bytes): set<Key> {
    match HashSet(v, h)
    case Some(s) => RRSetKeys(env, keys, v.nsec3[h].owner, v.nodes[v.nsec3[h].owner], s)
    case None => {}
  }

  function HashTries(env: Env, v: StoreView, keys: seq<CachedKey>, h: Bytes): nat {
    match HashSet(v, h)
    case Some(s) =>
      TotalTries(env, keys, v.nsec3[h].owner, s, SignaturesCovering(v.nodes[v.nsec3[h].owner].sets, s.rtype))
    case None => 0
  }

  ghost function HashKeys(env: Env, v: StoreView, keys: seq<CachedKey>, h: Bytes): set<Key> {
    LinkKeys(v, h) + HashSignatureKeys(env, v, keys, h)
  }

  ghost function HashesKeys(env: Env, v: StoreView, keys: seq<CachedKey>, hashes: set<Bytes>): set<Key> {
    set h, k | h in hashes && k in HashKeys(env, v, keys, h) :: k
  }

  ghost function HashesTried(env: Env, v: StoreView, keys: seq<CachedKey>): Bytes -> nat {
    h => HashTries(env, v, keys, h)
  }

  ghost function HashesPresent(v: StoreView): Bytes -> nat {
    h => if h in v.nsec3 then 1 else 0
  }

  ghost function Found(env: Env, v: StoreView, keys: seq<CachedKey>, t: Touched): set<Key> {
    KeysIn(env, v, keys, t.names) + if Param(v).Some? then HashesKeys(env, v, keys, t.nsec3) else {}
  }

  /** The owners whose findings the pass replaces. */
  function Owners(v: StoreView, t: Touched): set<Name> {
    t.names + set h | h in t.nsec3 && h in v.nsec3 :: v.nsec3[h].owner
  }

  ghost function MergedKeys(prev: set<Key>, next: set<Key>, owners: set<Name>): set<Key> {
    next + set k | k in prev && Untouched(owners, k.owner)
  }

  // ---------------------------------------------------------------------------
  // Touched hashes
  // ---------------------------------------------------------------------------

  method CheckLinks(env: Env, st: Store, h: Bytes, findings: Set)
    requires st.Valid() && FiledByHash(st.state.nsec3) && h in st.state.nsec3 &&
             Reports(findings.byKey, findings.byKey.Keys)
    modifies findings
    ensures Reports(findings.byKey, old(findings.byKey.Keys) + LinkKeys(st.state, h))
  {
    hide Store.Valid, IsNext, IsPrev, OwnersOf, AstrayBefore, FiledByHash;
    KnownStore(st);
    var broken := NextBroken(st, h);
    var owner := st.nsec3[h].owner;
    var astray := PredBroken(st, h);
    ReportBroken(env, findings, if broken then Some(owner) else None);
    ReportBroken(env, findings, astray);
  }

  function BrokenAt(owner: Option<Name>): set<Key> {
    if owner.Some? then {Key(NSEC3_CHAIN_BROKEN, owner.value, NSEC3)} else {}
  }

  method ReportBroken(env: Env, findings: Set, owner: Option<Name>)
    requires Reports(findings.byKey, findings.byKey.Keys)
    modifies findings
    ensures Reports(findings.byKey, old(findings.byKey.Keys) + BrokenAt(owner))
  {
    if owner.Some? {
      Report(findings, env, NSEC3_CHAIN_BROKEN, owner.value, NSEC3);
    }
  }

  /** Whether a record fails to point at its successor. */
  method NextBroken(st: Store, h: Bytes) returns (broken: bool)
    requires st.Valid() && FiledByHash(st.state.nsec3) && h in st.state.nsec3
    ensures broken <==> !IsNext(st.state.nsec3.Keys, h, st.state.nsec3[h].next)
  {
    hide Store.Valid, IsNext, FiledByHash;
    KnownStore(st);
    var next := st.NextNSEC3(h);
    NextDecides(st.state.nsec3, h, next);
    return next.None? || st.nsec3[h].next != next.value.hash;
  }

  /** The owner of a predecessor that does not point at the record. */
  method PredBroken(st: Store, h: Bytes) returns (owner: Option<Name>)
    requires st.Valid() && FiledByHash(st.state.nsec3) && h in st.state.nsec3
    ensures OwnersOf(st.state.nsec3, AstrayBefore(st.state.nsec3, h)) == BrokenAt(owner)
  {
    hide Store.Valid, IsPrev, OwnersOf, AstrayBefore, FiledByHash;
    KnownStore(st);
    var pred := st.PredNSEC3(h);
    PredDecides(st.state.nsec3, h, pred);
    return if pred.Some? && pred.value.next != st.nsec3[h].hash then Some(pred.value.owner) else None;
  }

  lemma NextDecides(index: Index, h: Bytes, next: Option<NSEC3Rec>)
    requires FiledByHash(index) && h in index && (next.None? <==> index == map[])
    requires next.Some? ==> exists n | n in index :: IsNext(index.Keys, h, n) && next.value == index[n]
    ensures next.Some? && (index[h].next == next.value.hash <==> IsNext(index.Keys, h, index[h].next))
  {
    hide IsNext;
    var n :| n in index && IsNext(index.Keys, h, n) && next.value == index[n];
    SuccessorDecides(index.Keys, h, n, index[h].next);
  }

  lemma PredDecides(index: Index, h: Bytes, pred: Option<NSEC3Rec>)
    requires FiledByHash(index) && h in index && (pred.None? <==> index == map[])
    requires pred.Some? ==> exists p | p in index :: IsPrev(index.Keys, h, p) && pred.value == index[p]
    ensures pred.Some? && index[h].hash == h
    ensures OwnersOf(index, AstrayBefore(index, h)) ==
            if pred.value.next != index[h].hash then {Key(NSEC3_CHAIN_BROKEN, pred.value.owner, NSEC3)} else {}
  {
    hide IsPrev;
    var p :| p in index && IsPrev(index.Keys, h, p) && pred.value == index[p];
    forall q | q in index && IsPrev(index.Keys, h, q) ensures q == p { PrevUnique(index.Keys, h, p, q); }
    assert AstrayBefore(index, h) == if index[p].next != h then {p} else {};
  }

  method CheckHash(env: Env, st: Store, h: Bytes, keys: seq<CachedKey>, used: array<bool>, findings: Set)
    returns (present: bool, checked: nat)
    requires st.Valid() && FiledByHash(st.state.nsec3)
    requires used.Length == |keys| && Reports(findings.byKey, findings.byKey.Keys)
    modifies findings, used
    ensures Reports(findings.byKey, old(findings.byKey.Keys) + HashKeys(env, st.state, keys, h))
    ensures present == (h in st.state.nsec3) && checked == HashTries(env, st.state, keys, h)
  {
    hide Store.Valid, FiledByHash, SetAt, RRSetKeys;
    KnownStore(st);
    if h !in st.nsec3 {
      Report(findings, env, NSEC3_CHAIN_BROKEN, st.origin, NSEC3);
      return false, 0;
    }
    ghost var before := findings.byKey.Keys;
    CheckLinks(env, st, h, findings);
    checked := CheckHashSet(env, st, h, keys, used, findings);
    present := true;
    UnionAssociative(before, LinkKeys(st.state, h), HashSignatureKeys(env, st.state, keys, h));
  }

  method CheckHashSet(env: Env, st: Store, h: Bytes, keys: seq<CachedKey>, used: array<bool>, findings: Set)
    returns (checked: nat)
    requires st.Valid() && h in st.state.nsec3
    requires used.Length == |keys| && Reports(findings.byKey, findings.byKey.Keys)
    modifies findings, used
    ensures Reports(findings.byKey, old(findings.byKey.Keys) + HashSignatureKeys(env, st.state, keys, h))
    ensures checked == HashTries(env, st.state, keys, h)
  {
    hide Store.Valid, ToMap, RRSetKeys, TotalTries, SignaturesCovering;
    KnownStore(st);
    KnownNames(st);
    var rec := st.nsec3[h];
    checked := 0;
    if rec.owner in st.nodes {
      FiledUnderName(st, rec.owner);
      var n := st.nodes[rec.owner];
      KnownNode(st, n);
      var i := FindSet(n, NSEC3);
      if i < |n.sets| {
        checked := VerifyRRSet(env, rec.owner, n.View(), n.sets[i], keys, used, findings);
      }
    }
  }

  lemma OneMoreHash(env: Env, v: StoreView, keys: seq<CachedKey>, done: set<Bytes>, h: Bytes, before: set<Key>)
    requires h !in done
    ensures before + HashesKeys(env, v, keys, done + {h}) ==
            (before + HashesKeys(env, v, keys, done)) + HashKeys(env, v, keys, h)
    ensures Sum(done + {h}, HashesTried(env, v, keys)) == Sum(done, HashesTried(env, v, keys)) +
            HashTries(env, v, keys, h)
    ensures Sum(done + {h}, HashesPresent(v)) == Sum(done, HashesPresent(v)) + if h in v.nsec3 then 1 else 0
  {
    hide HashKeys, HashTries;
    SumTakes(done + {h}, HashesTried(env, v, keys), h);
    SumTakes(done + {h}, HashesPresent(v), h);
    assert done + {h} - {h} == done;
  }

  lemma NoHashes(env: Env, v: StoreView, keys: seq<CachedKey>)
    ensures HashesKeys(env, v, keys, {}) == {} && Sum({}, HashesTried(env, v, keys)) == 0 &&
            Sum({}, HashesPresent(v)) == 0
  {
  }

  method CheckHashes(env: Env, st: Store, hashes: set<Bytes>, keys: seq<CachedKey>, used: array<bool>, findings: Set)
    returns (verified: nat, checked: nat)
    requires st.Valid() && FiledByHash(st.state.nsec3)
    requires used.Length == |keys| && Reports(findings.byKey, findings.byKey.Keys)
    modifies findings, used
    ensures Reports(findings.byKey, old(findings.byKey.Keys) + HashesKeys(env, st.state, keys, hashes))
    ensures verified == Sum(hashes, HashesTried(env, st.state, keys)) && checked == Sum(hashes, HashesPresent(st.state))
  {
    hide Store.Valid, FiledByHash, HashesKeys, HashKeys, HashTries, HashesTried, HashesPresent, Sum;
    ghost var v, before := st.state, findings.byKey.Keys;
    var todo := hashes;
    ghost var done: set<Bytes> := {};
    verified, checked := 0, 0;
    NoHashes(env, v, keys);
    while todo != {}
      invariant done !! todo && done + todo == hashes
      invariant Reports(findings.byKey, before + HashesKeys(env, v, keys, done))
      invariant verified == Sum(done, HashesTried(env, v, keys)) && checked == Sum(done, HashesPresent(v))
      decreases todo
    {
      var h :| h in todo;
      OneMoreHash(env, v, keys, done, h, before);
      var present, tried := CheckHash(env, st, h, keys, used, findings);
      verified := verified + tried;
      if present {
        checked := checked + 1;
      }
      todo := todo - {h};
      done := done + {h};
    }
    assert done == hashes;
  }

  // ---------------------------------------------------------------------------
  // Touched names
  // ---------------------------------------------------------------------------

  lemma OneMoreTouched(env: Env, v: StoreView, keys: seq<CachedKey>, done: set<Name>, n: Name, before: set<Key>)
    requires n !in done
    ensures before + KeysIn(env, v, keys, done + {n}) ==
            (before + KeysIn(env, v, keys, done)) + if n in v.nodes then NodeKeys(env, v, keys, n) else {}
    ensures Sum(done + {n}, Tried(env, v, keys)) == Sum(done, Tried(env, v, keys)) + NodeTries(env, v, keys, n)
  {
    hide NodeKeys, NodeTries;
    SumTakes(done + {n}, Tried(env, v, keys), n);
    assert done + {n} - {n} == done;
  }

  lemma AbsentTries(env: Env, v: StoreView, keys: seq<CachedKey>, n: Name)
    requires n !in v.nodes
    ensures NodeTries(env, v, keys, n) == 0
  {
  }

  method CheckNames(env: Env, st: Store, names: set<Name>, keys: seq<CachedKey>, used: array<bool>, findings: Set)
    returns (verified: nat)
    requires st.Valid() && used.Length == |keys| && Reports(findings.byKey, findings.byKey.Keys)
    modifies findings, used
    ensures Reports(findings.byKey, old(findings.byKey.Keys) + KeysIn(env, st.state, keys, names))
    ensures verified == Sum(names, Tried(env, st.state, keys))
  {
    hide Store.Valid, KeysIn, NodeKeys, NodeTries, NodeUses, Sum, Tried;
    KnownNames(st);
    ghost var v, before := st.state, findings.byKey.Keys;
    var todo := names;
    ghost var done: set<Name> := {};
    verified := 0;
    NoNames(env, v, keys);
    while todo != {}
      invariant done !! todo && done + todo == names
      invariant Reports(findings.byKey, before + KeysIn(env, v, keys, done))
      invariant verified == Sum(done, Tried(env, v, keys))
      decreases todo
    {
      var name :| name in todo;
      OneMoreTouched(env, v, keys, done, name, before);
      todo := todo - {name};
      done := done + {name};
      if name !in st.nodes {
        AbsentTries(env, v, keys, name);
        continue;
      }
      FiledUnderName(st, name);
      var c := VerifyNode(env, st, st.nodes[name], keys, used, findings);
      verified := verified + c;
    }
    assert done == names;
  }

  // ---------------------------------------------------------------------------
  // The pass
  // ---------------------------------------------------------------------------

  predicate Escalates(touched: Option<Touched>) {
    touched.Some? && (touched.value.dnskey || touched.value.nsec3param)
  }

  /** What the pass leaves as the findings of the zone. */
  ghost function IncrementalKeys(env: Env, v: StoreView, prev: set<Key>, touched: Option<Touched>): set<Key> {
    if Escalates(touched) then FullKeys(env, v)
    else if KeyRecords(v) == [] then {}
    else match CachedKeys(env, KeyRecords(v))
         case None => {Key(RRSIG_INVALID, v.origin, DNSKEY)}
         case Some(keys) =>
           match touched
           case None => FullKeys(env, v)
           case Some(t) => MergedKeys(prev, Found(env, v, keys, t), Owners(v, t))
  }

  ghost function IncrementalOutcome(env: Env, v: StoreView, prev: set<Key>, touched: Option<Touched>): Outcome {
    if Escalates(touched) then FullOutcome(env, v)
    else if KeyRecords(v) == [] then Outcome(true, true, 0, 0)
    else match CachedKeys(env, KeyRecords(v))
         case None => Outcome(false, false, 0, 0)
         case Some(keys) =>
           match touched
           case None => FullOutcome(env, v)
           case Some(t) =>
             Outcome(NoErrors(MergedKeys(prev, Found(env, v, keys, t), Owners(v, t))), false,
                     Sum(t.names, Tried(env, v, keys)) +
                       (if Param(v).Some? then Sum(t.nsec3, HashesTried(env, v, keys)) else 0),
                     if Param(v).Some? then Sum(t.nsec3, HashesPresent(v)) else 0)
  }

  /** The verdict is valid exactly when no error finding is left; a zone is unsigned when it has no keys. */
  lemma VerdictMeansNoErrors(env: Env, v: StoreView, prev: set<Key>, touched: Option<Touched>)
    ensures IncrementalOutcome(env, v, prev, touched).valid <==> NoErrors(IncrementalKeys(env, v, prev, touched))
    ensures SOA in SetsAt(v, v.origin) ==>
              (IncrementalOutcome(env, v, prev, touched).unsigned <==> KeyRecords(v) == [])
  {
    hide FullKeys, NoErrors, MergedKeys, Found, CachedKeys, KeyRecords;
    ValidMeansNoErrors(env, v);
    ErrorReported(RRSIG_INVALID, v.origin, DNSKEY);
    NothingIsNoError();
  }

  lemma NothingIsNoError()
    ensures NoErrors({})
  {
  }

  lemma MergedReports(prev: ByKey, next: ByKey, owners: set<Name>, p: set<Key>, n: set<Key>)
    requires Reports(prev, p) && Reports(next, n)
    ensures Reports(Merged(prev, next, owners), MergedKeys(p, n, owners))
  {
  }

  /** Checks touched names and hashes into a new collection. */
  method CheckTouched(env: Env, st: Store, keys: seq<CachedKey>, t: Touched) returns (found: Set, verified: nat,
          checked: nat)
    requires st.Valid() && FiledByHash(st.state.nsec3)
    ensures fresh(found) && Reports(found.byKey, Found(env, st.state, keys, t))
    ensures verified == Sum(t.names, Tried(env, st.state, keys)) +
              (if Param(st.state).Some? then Sum(t.nsec3, HashesTried(env, st.state, keys)) else 0)
    ensures checked == if Param(st.state).Some? then Sum(t.nsec3, HashesPresent(st.state)) else 0
  {
    hide Store.Valid, Store.NodesMatch, FiledByHash, KeysIn, HashesKeys, Sum, Tried, HashesTried, HashesPresent,
         ApexFirst;
    found := new Set();
    var used := new bool[|keys|];
    verified := CheckNames(env, st, t.names, keys, used, found);
    checked := 0;
    KnownStore(st);
    var param := st.ApexRR(NSEC3PARAM, st.state);
    if param.Some? && param.value.data.NSEC3PARAMData? {
      var more;
      more, checked := CheckHashes(env, st, t.nsec3, keys, used, found);
      verified := verified + more;
    }
  }

  method MergeInto(prev: Set?, found: Set, owners: set<Name>, ghost p: set<Key>,
          ghost n: set<Key>) returns (findings: Set)
    requires prev != found && Reports(found.byKey, n)
    requires if prev == null then p == {} else Reports(prev.byKey, p)
    modifies prev, found
    ensures findings == (if prev == null then found else prev)
    ensures Reports(findings.byKey, MergedKeys(p, n, owners))
  {
    if prev == null {
      return found;
    }
    MergedReports(prev.byKey, found.byKey, owners, p, n);
    var opened_, closed := MergeReplace(prev, found, owners);
    return prev;
  }

  method OwnersTouched(st: Store, t: Touched) returns (owners: set<Name>)
    requires st.Valid()
    ensures owners == Owners(st.state, t)
  {
    hide Store.Valid;
    KnownStore(st);
    owners := t.names;
    var todo := t.nsec3;
    ghost var done: set<Bytes> := {};
    while todo != {}
      invariant done !! todo && done + todo == t.nsec3
      invariant owners == t.names + set h | h in done && h in st.state.nsec3 :: st.state.nsec3[h].owner
      decreases todo
    {
      var h :| h in todo;
      if h in st.nsec3 {
        owners := owners + {st.nsec3[h].owner};
      }
      todo := todo - {h};
      done := done + {h};
    }
    assert done == t.nsec3;
  }

  /** Re-verifies what is touched; key and parameter changes escalate to a full pass. */
  method Incremental(env: Env, st: Store, workers: nat, prev: Set?, touched: Option<Touched>)
    returns (findings: Set, res: Outcome)
    requires st.Valid() && FiledByHash(st.state.nsec3) && workers > 0
    requires prev != null ==> Reports(prev.byKey, prev.byKey.Keys)
    modifies prev
    ensures var p := if prev == null then {} else old(prev.byKey.Keys);
            && Reports(findings.byKey, IncrementalKeys(env, st.state, p, touched))
            && res == IncrementalOutcome(env, st.state, p, touched)
    ensures res.valid <==> !HasErrors(findings.byKey)
  {
    hide Store.Valid, FiledByHash, Reports, KeyRecords, CachedKeys, NoErrors, Sum, Tried, HashesTried, HashesPresent,
         Found, Owners, MergedKeys, FullKeys, FullOutcome;
    ghost var p: set<Key> := if prev == null then {} else prev.byKey.Keys;
    ghost var v := st.state;
    if Escalates(touched) {
      findings, res := Full(env, st, workers);
      return;
    }
    var rrs := ReadKeyRecords(st);
    if |rrs| == 0 {
      findings := CloseAll(prev, p);
      return findings, Outcome(true, true, 0, 0);
    }
    var keys := CacheKeys(env, rrs);
    if keys.None? {
      findings := Unparsable(env, st.origin);
      KnownStore(st);
      return findings, Outcome(false, false, 0, 0);
    }
    if touched.None? {
      findings, res := Full(env, st, workers);
      return;
    }
    var t := touched.value;
    var found, verified, checked := CheckTouched(env, st, keys.value, t);
    var owners := OwnersTouched(st, t);
    findings := MergeInto(prev, found, owners, p, Found(env, v, keys.value, t));
    ErrorsByCode(findings.byKey, MergedKeys(p, Found(env, v, keys.value, t), Owners(v, t)));
    res := Outcome(!HasErrors(findings.byKey), false, verified, checked);
  }

  /** Without keys the zone is unsigned, and all previous findings are closed. */
  method CloseAll(prev: Set?, ghost p: set<Key>) returns (findings: Set)
    requires if prev == null then p == {} else Reports(prev.byKey, p)
    modifies prev
    ensures Reports(findings.byKey, {})
  {
    var none := new Set();
    findings := MergeInto(prev, none, {}, p, {});
    assert MergedKeys(p, {}, {}) == {};
  }

  method Unparsable(env: Env, origin: Name) returns (findings: Set)
    ensures fresh(findings) && Reports(findings.byKey, {Key(RRSIG_INVALID, origin, DNSKEY)})
    ensures HasErrors(findings.byKey)
  {
    findings := new Set();
    Report(findings, env, RRSIG_INVALID, origin, DNSKEY);
    assert {} + {Key(RRSIG_INVALID, origin, DNSKEY)} == {Key(RRSIG_INVALID, origin, DNSKEY)};
    assert Key(RRSIG_INVALID, origin, DNSKEY) in findings.byKey;
  }
}

/** Signature checks on one RRset: what is reported, which keys count as used, how many verifications are tried. */
module Signatures {
  import opened Bytes
  import opened Names
  import opened Records
  import opened StoreSpec
  import opened Findings

  /** Configuration, clock and the foreign parts of a verification pass: signature check, key parsing, name hash. */
  datatype Env = Env(
    clock: nat,
    now: u32,
    skew: u32,
    warn: u32,
    ttlWarning: bool,
    verifies: (Name, nat, Signature, RR, seq<RR>) -> bool,
    parses: RR -> bool,
    hash: (Name, RR) -> Bytes)

  datatype CachedKey = CachedKey(rr: RR, keyTag: nat, algorithm: nat, isKSK: bool, isZone: bool)

  function SeverityOf(c: Code): Severity {
    match c
    case RRSIG_TTL_MISMATCH | RRSIG_EXPIRING_SOON | SERIAL_SKEW | INSECURE_DELEGATION => Warning
    case _ => Error
  }

  /** A collection holding exactly these keys, each with the severity of its code. */
  ghost predicate Reports(m: ByKey, keys: set<Key>) {
    m.Keys == keys && Keyed(m) && forall k | k in m :: m[k].severity == SeverityOf(k.code)
  }

  method Report(findings: Set, env: Env, code: Code, owner: Name, rtype: nat)
    requires Reports(findings.byKey, findings.byKey.Keys)
    modifies findings
    ensures Reports(findings.byKey, old(findings.byKey.Keys) + {Key(code, owner, rtype)})
  {
    findings.Add(Finding(Key(code, owner, rtype), SeverityOf(code), env.clock));
  }

  /** Reports a code if something is wrong. */
  method ReportIf(wrong: bool, findings: Set, env: Env, code: Code, owner: Name, rtype: nat)
    requires Reports(findings.byKey, findings.byKey.Keys)
    modifies findings
    ensures Reports(findings.byKey, old(findings.byKey.Keys) + if wrong then {Key(code, owner, rtype)} else {})
  {
    if wrong {
      Report(findings, env, code, owner, rtype);
    }
  }

  // ---------------------------------------------------------------------------
  // One signature
  // ---------------------------------------------------------------------------

  const STAR: byte := 42

  predicate IsWildcardOwner(name: Name) {
    |name| > 1 && name[0] == [STAR]
  }

  /** Labels a signature over this owner must count: a leading wildcard does not count. */
  function WantLabels(name: Name): nat {
    if IsWildcardOwner(name) then |name| - 1 else |name|
  }

  predicate NotYetValid(env: Env, s: Signature) {
    Add32(env.now, env.skew) < s.inception
  }

  predicate Expired(env: Env, s: Signature) {
    env.now > Add32(s.expiration, env.skew)
  }

  predicate Current(env: Env, s: Signature) {
    !NotYetValid(env, s) && !Expired(env, s)
  }

  predicate ExpiringSoon(env: Env, s: Signature) {
    env.warn > 0 && s.expiration > env.now && Sub32(s.expiration, env.now) <= env.warn
  }

  predicate Candidate(k: CachedKey, s: Signature) {
    k.keyTag == s.keyTag && k.algorithm == s.algorithm && k.isZone
  }

  predicate Accepts(env: Env, k: CachedKey, name: Name, set_: RRSet, s: Signature) {
    Candidate(k, s) && env.verifies(name, set_.ttl, s, k.rr, Unpack(set_))
  }

  /** The first key, from `from` on, that accepts the signature; the number of keys when none does. */
  function FirstAccepting(env: Env, keys: seq<CachedKey>, name: Name, set_: RRSet, s: Signature, from: nat): (i: nat)
    requires from <= |keys|
    ensures from <= i <= |keys|
    ensures i < |keys| ==> Accepts(env, keys[i], name, set_, s)
    ensures forall j | from <= j < i :: !Accepts(env, keys[j], name, set_, s)
    decreases |keys| - from
  {
    if from == |keys| || Accepts(env, keys[from], name, set_, s) then from
    else FirstAccepting(env, keys, name, set_, s, from + 1)
  }

  /** Verifications tried for one signature: the candidates up to and including the first that accepts it. */
  function Tries(env: Env, keys: seq<CachedKey>, name: Name, set_: RRSet, s: Signature, from: nat): nat
    requires from <= |keys|
    decreases |keys| - from
  {
    if from == |keys| then 0
    else if !Candidate(keys[from], s) then Tries(env, keys, name, set_, s, from + 1)
    else if env.verifies(name, set_.ttl, s, keys[from].rr, Unpack(set_)) then 1
    else 1 + Tries(env, keys, name, set_, s, from + 1)
  }

  function TriesOf(env: Env, keys: seq<CachedKey>, name: Name, set_: RRSet, s: Signature): nat {
    if Current(env, s) then Tries(env, keys, name, set_, s, 0) else 0
  }

  predicate Verified(env: Env, keys: seq<CachedKey>, name: Name, set_: RRSet, s: Signature) {
    Current(env, s) && FirstAccepting(env, keys, name, set_, s, 0) < |keys|
  }

  lemma {:induction false} NoTries(env: Env, keys: seq<CachedKey>, name: Name, set_: RRSet, s: Signature, from: nat)
    requires from <= |keys|
    ensures Tries(env, keys, name, set_, s, from) == 0 <==> forall i | from <= i < |keys| :: !Candidate(keys[i], s)
    decreases |keys| - from
  {
    if from < |keys| { NoTries(env, keys, name, set_, s, from + 1); }
  }

  /** The keys a signature is tried with: those that fit it, up to the first that accepts it. */
  ghost function TriedWith(env: Env, keys: seq<CachedKey>, name: Name, set_: RRSet, s: Signature, from: nat): set<nat>
    requires from <= |keys|
  {
    set i: nat | from <= i < |keys| && Candidate(keys[i], s) &&
      forall j | from <= j < i :: !Accepts(env, keys[j], name, set_, s)
  }

  lemma TriedNext(env: Env, keys: seq<CachedKey>, name: Name, set_: RRSet, s: Signature, from: nat)
    requires from < |keys|
    ensures var tried, rest := TriedWith(env, keys, name, set_, s, from), TriedWith(env, keys, name, set_, s, from + 1);
            && from !in rest
            && tried == if Accepts(env, keys[from], name, set_, s) then {from}
                        else if Candidate(keys[from], s) then rest + {from} else rest
  {
    hide Accepts, Candidate;
    AcceptsFits(env, keys[from], name, set_, s);
    var tried, rest := TriedWith(env, keys, name, set_, s, from), TriedWith(env, keys, name, set_, s, from + 1);
    forall i: nat
      ensures i in tried <==> if i == from then Candidate(keys[from], s)
                              else i in rest && !Accepts(env, keys[from], name, set_, s)
    {
    }
  }

  lemma AcceptsFits(env: Env, k: CachedKey, name: Name, set_: RRSet, s: Signature)
    ensures Accepts(env, k, name, set_, s) ==> Candidate(k, s)
  {
  }

  lemma {:induction false} TriesMean(env: Env, keys: seq<CachedKey>, name: Name, set_: RRSet, s: Signature, from: nat)
    requires from <= |keys|
    ensures Tries(env, keys, name, set_, s, from) == |TriedWith(env, keys, name, set_, s, from)|
    decreases |keys| - from
  {
    hide Candidate, TriedWith;
    if from == |keys| {
      NoneTried(env, keys, name, set_, s);
    } else {
      TriesMean(env, keys, name, set_, s, from + 1);
      TriedNext(env, keys, name, set_, s, from);
    }
  }

  lemma NoneTried(env: Env, keys: seq<CachedKey>, name: Name, set_: RRSet, s: Signature)
    ensures TriedWith(env, keys, name, set_, s, |keys|) == {}
  {
  }

  // ---------------------------------------------------------------------------
  // One RRset
  // ---------------------------------------------------------------------------

  function Covering(rdata: seq<RR>, rtype: nat): (sigs: seq<Signature>) {
    if rdata == [] then []
    else
      var rest := Covering(rdata[..|rdata| - 1], rtype);
      var last := rdata[|rdata| - 1];
      if last.data.RRSIGData? && last.data.sig.covered == rtype then rest + [last.data.sig] else rest
  }

  /** The signatures at a node that cover a type. */
  function SignaturesCovering(sets: Sets, rtype: nat): seq<Signature> {
    if RRSIG in sets then Covering(sets[RRSIG].rdata, rtype) else []
  }

  /** At a delegation only DS, NSEC and NSEC3 have to be signed. */
  predicate MayBeUnsigned(node: NodeView, rtype: nat) {
    node.isDelegation && rtype != DS && rtype != NSEC && rtype != NSEC3
  }

  /** No signature names a usable key, although all of them are in their validity period. */
  predicate OnlyUnknownKeys(env: Env, keys: seq<CachedKey>, sigs: seq<Signature>) {
    forall s | s in sigs :: Current(env, s) && forall k | k in keys :: !Candidate(k, s)
  }

  /** When a code is reported for an RRset. */
  predicate ReportsCode(env: Env, keys: seq<CachedKey>, name: Name, node: NodeView, set_: RRSet, c: Code) {
    var sigs := SignaturesCovering(node.sets, set_.rtype);
    match c
    case RRSIG_MISSING => sigs == [] && !MayBeUnsigned(node, set_.rtype)
    case RRSIG_LABELS_MISMATCH => exists s | s in sigs :: s.labels != WantLabels(name)
    case RRSIG_NOT_YET_VALID => exists s | s in sigs :: NotYetValid(env, s)
    case RRSIG_EXPIRED => exists s | s in sigs :: !NotYetValid(env, s) && Expired(env, s)
    case RRSIG_TTL_MISMATCH => env.ttlWarning && exists s | s in sigs :: Current(env, s) && s.origTtl != set_.ttl
    case RRSIG_EXPIRING_SOON => exists s | s in sigs :: Current(env, s) && ExpiringSoon(env, s)
    case RRSIG_UNKNOWN_KEY => sigs != [] && OnlyUnknownKeys(env, keys, sigs)
    case RRSIG_INVALID =>
      && sigs != [] && !OnlyUnknownKeys(env, keys, sigs)
      && forall s | s in sigs :: !Verified(env, keys, name, set_, s)
    case _ => false
  }

  const CODES: set<Code> := {RRSIG_MISSING, RRSIG_LABELS_MISMATCH, RRSIG_NOT_YET_VALID, RRSIG_EXPIRED,
    RRSIG_TTL_MISMATCH, RRSIG_EXPIRING_SOON, RRSIG_UNKNOWN_KEY, RRSIG_INVALID}

  function RRSetKeys(env: Env, keys: seq<CachedKey>, name: Name, node: NodeView, set_: RRSet): set<Key> {
    set c | c in CODES && ReportsCode(env, keys, name, node, set_, c) :: Key(c, name, set_.rtype)
  }

  function TotalTries(env: Env, keys: seq<CachedKey>, name: Name, set_: RRSet, sigs: seq<Signature>): nat {
    if sigs == [] then 0
    else TotalTries(env, keys, name, set_, sigs[..|sigs| - 1]) + TriesOf(env, keys, name, set_, sigs[|sigs| - 1])
  }

  /** The keys credited with verifying something in this RRset: for every signature the first that accepts it. */
  ghost predicate UsedBy(env: Env, keys: seq<CachedKey>, name: Name, set_: RRSet, sigs: seq<Signature>, i: nat) {
    i < |keys| && exists s | s in sigs :: Current(env, s) && FirstAccepting(env, keys, name, set_, s, 0) == i
  }

  lemma {:induction false} NoTotalTries(env: Env, keys: seq<CachedKey>, name: Name, set_: RRSet, sigs: seq<Signature>)
    ensures TotalTries(env, keys, name, set_, sigs) == 0 <==>
            forall s | s in sigs :: Current(env, s) ==> forall k | k in keys :: !Candidate(k, s)
  {
    if sigs != [] {
      var init, s := sigs[..|sigs| - 1], sigs[|sigs| - 1];
      NoTotalTries(env, keys, name, set_, init);
      NoTries(env, keys, name, set_, s, 0);
      assert sigs == init + [s];
      assert (forall k | k in keys :: !Candidate(k, s)) <==> (forall i | 0 <= i < |keys| :: !Candidate(keys[i], s));
    }
  }

  /** Walks the keys for one signature; marks the first that accepts it. */
  method TryKeys(env: Env, keys: seq<CachedKey>, name: Name, set_: RRSet, sig: Signature, used: array<bool>)
    returns (matched: bool, checked: nat)
    requires used.Length == |keys|
    modifies used
    ensures matched <==> FirstAccepting(env, keys, name, set_, sig, 0) < |keys|
    ensures checked == Tries(env, keys, name, set_, sig, 0)
    ensures forall i | 0 <= i < |keys| ::
              used[i] == (old(used[i]) || i == FirstAccepting(env, keys, name, set_, sig, 0))
  {
    checked := 0;
    var i := 0;
    while i < |keys|
      invariant 0 <= i <= |keys|
      invariant FirstAccepting(env, keys, name, set_, sig, 0) == FirstAccepting(env, keys, name, set_, sig, i)
      invariant Tries(env, keys, name, set_, sig, 0) == checked + Tries(env, keys, name, set_, sig, i)
      invariant forall j | 0 <= j < |keys| :: used[j] == old(used[j])
    {
      if !Candidate(keys[i], sig) {
        i := i + 1;
        continue;
      }
      checked := checked + 1;
      if env.verifies(name, set_.ttl, sig, keys[i].rr, Unpack(set_)) {
        used[i] := true;
        return true, checked;
      }
      i := i + 1;
    }
    return false, checked;
  }

  /** What the walk over the signatures reports for one of them. */
  function SigCodes(env: Env, name: Name, set_: RRSet, s: Signature): set<Code> {
    (if s.labels != WantLabels(name) then {RRSIG_LABELS_MISMATCH} else {}) +
    (if NotYetValid(env, s) then {RRSIG_NOT_YET_VALID}
     else if Expired(env, s) then {RRSIG_EXPIRED}
     else (if env.ttlWarning && s.origTtl != set_.ttl then {RRSIG_TTL_MISMATCH} else {}) +
          (if ExpiringSoon(env, s) then {RRSIG_EXPIRING_SOON} else {}))
  }

  function KeysFor(codes: set<Code>, name: Name, rtype: nat): set<Key> {
    set c | c in codes :: Key(c, name, rtype)
  }

  function WalkCodes(env: Env, name: Name, set_: RRSet, sigs: seq<Signature>): set<Code> {
    if sigs == [] then {}
    else WalkCodes(env, name, set_, sigs[..|sigs| - 1]) + SigCodes(env, name, set_, sigs[|sigs| - 1])
  }

  lemma {:induction false} WalkCodesMeaning(env: Env, name: Name, set_: RRSet, sigs: seq<Signature>, c: Code)
    ensures c in WalkCodes(env, name, set_, sigs) <==> exists s | s in sigs :: c in SigCodes(env, name, set_, s)
  {
    if sigs != [] {
      WalkCodesMeaning(env, name, set_, sigs[..|sigs| - 1], c);
      assert sigs == sigs[..|sigs| - 1] + [sigs[|sigs| - 1]];
    }
  }

  predicate AnyVerified(env: Env, keys: seq<CachedKey>, name: Name, set_: RRSet, sigs: seq<Signature>) {
    exists s | s in sigs :: Verified(env, keys, name, set_, s)
  }

  predicate AllUnmatched(env: Env, keys: seq<CachedKey>, name: Name, set_: RRSet, sigs: seq<Signature>) {
    forall s | s in sigs :: Current(env, s) && !Verified(env, keys, name, set_, s)
  }

  lemma VerdictStep(env: Env, keys: seq<CachedKey>, name: Name, set_: RRSet, sigs: seq<Signature>, i: nat)
    requires i < |sigs|
    ensures AnyVerified(env, keys, name, set_, sigs[..i + 1]) <==>
            AnyVerified(env, keys, name, set_, sigs[..i]) || Verified(env, keys, name, set_, sigs[i])
    ensures AllUnmatched(env, keys, name, set_, sigs[..i + 1]) <==>
            AllUnmatched(env, keys, name, set_, sigs[..i]) && Current(env, sigs[i]) &&
                !Verified(env, keys, name, set_, sigs[i])
    ensures forall j: nat :: UsedBy(env, keys, name, set_, sigs[..i + 1], j) <==>
            UsedBy(env, keys, name, set_, sigs[..i], j) ||
            (j < |keys| && Current(env, sigs[i]) && FirstAccepting(env, keys, name, set_, sigs[i], 0) == j)
  {
    var longer := sigs[..i + 1];
    assert longer == sigs[..i] + [sigs[i]];
    assert forall s :: s in longer <==> s in sigs[..i] || s == sigs[i];
    forall j: nat ensures UsedBy(env, keys, name, set_, longer, j) <==>
            UsedBy(env, keys, name, set_, sigs[..i], j) ||
            (j < |keys| && Current(env, sigs[i]) && FirstAccepting(env, keys, name, set_, sigs[i], 0) == j)
    {
      if j < |keys| {
        if s :| s in longer && Current(env, s) && FirstAccepting(env, keys, name, set_, s, 0) == j {
          assert s in sigs[..i] || s == sigs[i];
        }
        if s :| s in sigs[..i] && Current(env, s) && FirstAccepting(env, keys, name, set_, s, 0) == j {
          assert s in longer;
        }
        assert sigs[i] in longer;
      }
    }
  }

  /** The verdict after the walk. */
  function VerdictCodes(env: Env, keys: seq<CachedKey>, name: Name, set_: RRSet, sigs: seq<Signature>): set<Code> {
    if AnyVerified(env, keys, name, set_, sigs) then {}
    else if OnlyUnknownKeys(env, keys, sigs) then {RRSIG_UNKNOWN_KEY}
    else {RRSIG_INVALID}
  }

  lemma WalkAndVerdict(env: Env, keys: seq<CachedKey>, name: Name, node: NodeView, set_: RRSet, sigs: seq<Signature>)
    requires sigs == SignaturesCovering(node.sets, set_.rtype) && sigs != []
    ensures KeysFor(WalkCodes(env, name, set_, sigs) + VerdictCodes(env, keys, name, set_, sigs), name, set_.rtype)
            == RRSetKeys(env, keys, name, node, set_)
  {
    hide WalkCodes, NotYetValid, Expired, ExpiringSoon, WantLabels, FirstAccepting, SignaturesCovering;
    var codes := WalkCodes(env, name, set_, sigs) + VerdictCodes(env, keys, name, set_, sigs);
    forall c ensures c in codes <==> c in CODES && ReportsCode(env, keys, name, node, set_, c) {
      WalkCodesMeaning(env, name, set_, sigs, c);
      if OnlyUnknownKeys(env, keys, sigs) { UnknownIsUnverified(env, keys, name, set_, sigs); }
    }
    assert codes == set c | c in CODES && ReportsCode(env, keys, name, node, set_, c);
  }

  lemma UnknownIsUnverified(env: Env, keys: seq<CachedKey>, name: Name, set_: RRSet, sigs: seq<Signature>)
    requires OnlyUnknownKeys(env, keys, sigs)
    ensures forall s | s in sigs :: !Verified(env, keys, name, set_, s)
  {
    forall s | s in sigs ensures !Verified(env, keys, name, set_, s) {
      assert forall i | 0 <= i < |keys| :: keys[i] in keys;
    }
  }

  /** Checks all signatures over one RRset and reports what is wrong. */
  method VerifyRRSet(env: Env, name: Name, node: NodeView, set_: RRSet, keys: seq<CachedKey>, used: array<bool>,
          findings: Set)
    returns (checked: nat)
    requires used.Length == |keys| && Reports(findings.byKey, findings.byKey.Keys)
    modifies used, findings
    ensures Reports(findings.byKey, old(findings.byKey.Keys) + RRSetKeys(env, keys, name, node, set_))
    ensures var sigs := SignaturesCovering(node.sets, set_.rtype);
            && checked == TotalTries(env, keys, name, set_, sigs)
            && forall i | 0 <= i < |keys| :: used[i] == (old(used[i]) || UsedBy(env, keys, name, set_, sigs, i))
  {
    hide SignaturesCovering, RRSetKeys, WalkCodes, TotalTries, AnyVerified, AllUnmatched, UsedBy, Current,
         MayBeUnsigned, FirstAccepting, Tries, OnlyUnknownKeys, SigCodes, KeysFor;
    var sigs := SignaturesCovering(node.sets, set_.rtype);
    ghost var before := findings.byKey.Keys;
    checked := 0;
    NothingWalked(env, keys, name, set_);
    if |sigs| == 0 {
      Unsigned(env, keys, name, node, set_);
      if MayBeUnsigned(node, set_.rtype) {
        return;
      }
      Report(findings, env, RRSIG_MISSING, name, set_.rtype);
      return;
    }
    var unknown: nat := 0;
    var ok := false;
    var i := 0;
    assert sigs[..0] == [];
    while i < |sigs|
      invariant 0 <= i <= |sigs|
      invariant Reports(findings.byKey, before + KeysFor(WalkCodes(env, name, set_, sigs[..i]), name, set_.rtype))
      invariant checked == TotalTries(env, keys, name, set_, sigs[..i])
      invariant ok <==> AnyVerified(env, keys, name, set_, sigs[..i])
      invariant unknown <= i && (unknown == i <==> AllUnmatched(env, keys, name, set_, sigs[..i]))
      invariant forall j | 0 <= j < |keys| :: used[j] == (old(used[j]) || UsedBy(env, keys, name, set_, sigs[..i], j))
    {
      var sig := sigs[i];
      PrefixStep(sigs, i);
      VerdictStep(env, keys, name, set_, sigs, i);
      TriesStep(env, keys, name, set_, sigs, i);
      WalkStep(env, name, set_, sigs, i, before);
      i := i + 1;
      var current := CheckSignature(env, name, set_, sig, findings);
      if !current {
        continue;
      }
      var matched, tried := TryKeys(env, keys, name, set_, sig, used);
      checked := checked + tried;
      if matched {
        ok := true;
      } else {
        unknown := unknown + 1;
      }
    }
    assert sigs[..i] == sigs;
    WalkAndVerdict(env, keys, name, node, set_, sigs);
    VerdictFromCounters(env, keys, name, set_, sigs, unknown == |sigs|, checked);
    ghost var verdict := VerdictCodes(env, keys, name, set_, sigs);
    KeysForUnion(WalkCodes(env, name, set_, sigs), verdict, name, set_.rtype, before);
    if !ok {
      if unknown == |sigs| && checked == 0 {
        Report(findings, env, RRSIG_UNKNOWN_KEY, name, set_.rtype);
      } else {
        Report(findings, env, RRSIG_INVALID, name, set_.rtype);
      }
    }
  }

  lemma NothingWalked(env: Env, keys: seq<CachedKey>, name: Name, set_: RRSet)
    ensures KeysFor(WalkCodes(env, name, set_, []), name, set_.rtype) == {} &&
            TotalTries(env, keys, name, set_, []) == 0
    ensures !AnyVerified(env, keys, name, set_, []) && AllUnmatched(env, keys, name, set_, [])
    ensures forall j: nat :: !UsedBy(env, keys, name, set_, [], j)
  {
  }

  lemma Unsigned(env: Env, keys: seq<CachedKey>, name: Name, node: NodeView, set_: RRSet)
    requires SignaturesCovering(node.sets, set_.rtype) == []
    ensures RRSetKeys(env, keys, name, node, set_) ==
            if MayBeUnsigned(node, set_.rtype) then {} else {Key(RRSIG_MISSING, name, set_.rtype)}
  {
  }

  lemma KeysForUnion(a: set<Code>, b: set<Code>, name: Name, rtype: nat, before: set<Key>)
    ensures before + KeysFor(a + b, name, rtype) == (before + KeysFor(a, name, rtype)) + KeysFor(b, name, rtype)
    ensures forall c :: KeysFor({c}, name, rtype) == {Key(c, name, rtype)}
    ensures KeysFor({}, name, rtype) == {}
  {
  }

  /** Reports what is wrong with one signature on its own; tells whether it is in its validity period. */
  method CheckSignature(env: Env, name: Name, set_: RRSet, sig: Signature, findings: Set) returns (current: bool)
    requires Reports(findings.byKey, findings.byKey.Keys)
    modifies findings
    ensures Reports(findings.byKey, old(findings.byKey.Keys) +
            KeysFor(SigCodes(env, name, set_, sig), name, set_.rtype))
    ensures current <==> Current(env, sig)
  {
    hide SigCodes, KeysFor, NotYetValid, Expired, ExpiringSoon, WantLabels;
    SigKeysUnfold(env, name, set_, sig);
    ReportIf(sig.labels != WantLabels(name), findings, env, RRSIG_LABELS_MISMATCH, name, set_.rtype);
    if NotYetValid(env, sig) {
      Report(findings, env, RRSIG_NOT_YET_VALID, name, set_.rtype);
      return false;
    }
    if Expired(env, sig) {
      Report(findings, env, RRSIG_EXPIRED, name, set_.rtype);
      return false;
    }
    ReportIf(env.ttlWarning && sig.origTtl != set_.ttl, findings, env, RRSIG_TTL_MISMATCH, name, set_.rtype);
    ReportIf(ExpiringSoon(env, sig), findings, env, RRSIG_EXPIRING_SOON, name, set_.rtype);
    return true;
  }

  lemma SigKeysUnfold(env: Env, name: Name, set_: RRSet, s: Signature)
    ensures var t := set_.rtype;
            KeysFor(SigCodes(env, name, set_, s), name, t) ==
              (if s.labels != WantLabels(name) then {Key(RRSIG_LABELS_MISMATCH, name, t)} else {}) +
              (if NotYetValid(env, s) then {Key(RRSIG_NOT_YET_VALID, name, t)}
               else if Expired(env, s) then {Key(RRSIG_EXPIRED, name, t)}
               else (if env.ttlWarning && s.origTtl != set_.ttl then {Key(RRSIG_TTL_MISMATCH, name, t)} else {}) +
                    (if ExpiringSoon(env, s) then {Key(RRSIG_EXPIRING_SOON, name, t)} else {}))
  {
  }

  lemma VerdictFromCounters(env: Env, keys: seq<CachedKey>, name: Name, set_: RRSet, sigs: seq<Signature>,
          allUnknown: bool, checked: nat)
    requires allUnknown <==> AllUnmatched(env, keys, name, set_, sigs)
    requires checked == TotalTries(env, keys, name, set_, sigs)
    ensures allUnknown && checked == 0 <==> OnlyUnknownKeys(env, keys, sigs)
  {
    NoTotalTries(env, keys, name, set_, sigs);
    if OnlyUnknownKeys(env, keys, sigs) { UnknownIsUnverified(env, keys, name, set_, sigs); }
  }

  lemma PrefixStep(sigs: seq<Signature>, i: nat)
    requires i < |sigs|
    ensures sigs[..i + 1] == sigs[..i] + [sigs[i]]
    ensures sigs[..i + 1][..i] == sigs[..i] && sigs[..i + 1][i] == sigs[i]
  {
  }

  lemma TriesStep(env: Env, keys: seq<CachedKey>, name: Name, set_: RRSet, sigs: seq<Signature>, i: nat)
    requires i < |sigs|
    ensures TotalTries(env, keys, name, set_, sigs[..i + 1]) ==
            TotalTries(env, keys, name, set_, sigs[..i]) + TriesOf(env, keys, name, set_, sigs[i])
  {
    PrefixStep(sigs, i);
  }

  lemma WalkStep(env: Env, name: Name, set_: RRSet, sigs: seq<Signature>, i: nat, before: set<Key>)
    requires i < |sigs|
    ensures before + KeysFor(WalkCodes(env, name, set_, sigs[..i + 1]), name, set_.rtype)
         == (before + KeysFor(WalkCodes(env, name, set_, sigs[..i]), name, set_.rtype))
            + KeysFor(SigCodes(env, name, set_, sigs[i]), name, set_.rtype)
  {
    PrefixStep(sigs, i);
    assert WalkCodes(env, name, set_, sigs[..i + 1]) == WalkCodes(env, name, set_, sigs[..i]) +
           SigCodes(env, name, set_, sigs[i]);
  }
}

/** The expiry sweep over the ordered signature index, against the expiry conditions of the signature check. */
module Expiry {
  import opened Bytes
  import opened Names
  import opened Records
  import opened StoreSpec
  import opened Store
  import opened Findings
  import opened Signatures
  import Text

  function Cutoff(env: Env): u32 {
    Add32(Add32(env.now, env.skew), env.warn)
  }

  /** What the sweep says about an expiration it gets to see. */
  function SweepCode(env: Env, expiration: u32): Option<Code> {
    if Add32(expiration, env.skew) < env.now then Some(RRSIG_EXPIRED)
    else if expiration > env.now && Sub32(expiration, env.now) <= env.warn then Some(RRSIG_EXPIRING_SOON)
    else None
  }

  /** The findings for a set of index entries. */
  ghost function EntryKeys(env: Env, index: map<Bytes, ExpiryRec>, entries: set<Bytes>): set<Key> {
    set k | k in entries && k in index && SweepCode(env, index[k].expiration).Some? ::
      Key(SweepCode(env, index[k].expiration).value, index[k].owner, index[k].covered)
  }

  ghost function UpToCutoff(env: Env, index: map<Bytes, ExpiryRec>): set<Bytes> {
    set k | k in index && index[k].expiration <= Cutoff(env)
  }

  lemma OneMoreEntry(env: Env, index: map<Bytes, ExpiryRec>, entries: set<Bytes>, k: Bytes, before: set<Key>)
    requires k in index
    ensures var code := SweepCode(env, index[k].expiration);
            before + EntryKeys(env, index, entries + {k}) ==
            (before + EntryKeys(env, index, entries)) +
            if code.Some? then {Key(code.value, index[k].owner, index[k].covered)} else {}
  {
    hide SweepCode;
  }

  ghost function KeysUpTo(keys: seq<Bytes>, i: nat): set<Bytes>
    requires i <= |keys|
  {
    set j | 0 <= j < i :: keys[j]
  }

  /** Adds what the index says about expired and expiring signatures; returns how many findings are new. */
  method SweepExpiry(env: Env, st: Store, findings: Set) returns (appeared: int)
    requires st.Valid() && KeyedIndex(st.expiry)
    requires Reports(findings.byKey, findings.byKey.Keys)
    modifies findings
    ensures Reports(findings.byKey, old(findings.byKey.Keys) + EntryKeys(env, st.expiry, UpToCutoff(env, st.expiry)))
    ensures appeared == |findings.byKey| - |old(findings.byKey)|
  {
    hide Store.Valid, KeyedByExpiration, EntryKeys, SweepCode, IsScanUpTo, UpToCutoff, KeysUpTo, Reports;
    var recs := st.ExpiringBefore(Cutoff(env));
    ghost var keys: seq<Bytes> :| IsScanUpTo(st.expiry, Cutoff(env), keys, recs);
    ScanFacts(env, st.expiry, keys, recs);
    var count := |findings.byKey|;
    SweepRecords(env, st.expiry, keys, recs, findings);
    appeared := |findings.byKey| - count;
  }

  method SweepRecords(env: Env, ghost index: map<Bytes, ExpiryRec>, ghost keys: seq<Bytes>, recs: seq<ExpiryRec>,
          findings: Set)
    requires |recs| == |keys| && forall i | 0 <= i < |keys| :: keys[i] in index && recs[i] == index[keys[i]]
    requires Reports(findings.byKey, findings.byKey.Keys)
    modifies findings
    ensures Reports(findings.byKey, old(findings.byKey.Keys) + EntryKeys(env, index, KeysUpTo(keys, |keys|)))
  {
    hide EntryKeys, SweepCode, KeysUpTo;
    ghost var before := findings.byKey.Keys;
    var i := 0;
    NoEntries(env, index, keys);
    while i < |recs|
      invariant 0 <= i <= |recs|
      invariant Reports(findings.byKey, before + EntryKeys(env, index, KeysUpTo(keys, i)))
    {
      OneMoreEntry(env, index, KeysUpTo(keys, i), keys[i], before);
      NextKey(keys, i);
      var rec := recs[i];
      var code := SweepCode(env, rec.expiration);
      if code.Some? {
        Report(findings, env, code.value, rec.owner, rec.covered);
      }
      i := i + 1;
    }
  }

  lemma NextKey(keys: seq<Bytes>, i: nat)
    requires i < |keys|
    ensures KeysUpTo(keys, i + 1) == KeysUpTo(keys, i) + {keys[i]}
  {
  }

  lemma NoEntries(env: Env, index: map<Bytes, ExpiryRec>, keys: seq<Bytes>)
    ensures EntryKeys(env, index, KeysUpTo(keys, 0)) == {}
  {
  }

  lemma ScanFacts(env: Env, index: map<Bytes, ExpiryRec>, keys: seq<Bytes>, recs: seq<ExpiryRec>)
    requires IsScanUpTo(index, Cutoff(env), keys, recs)
    ensures |recs| == |keys| && (forall i | 0 <= i < |keys| :: keys[i] in index && recs[i] == index[keys[i]])
    ensures KeysUpTo(keys, |keys|) == UpToCutoff(env, index)
  {
    hide Sorted;
    assert forall k :: k in keys <==> k in KeysUpTo(keys, |keys|);
  }

  ghost predicate KeyedIndex(index: map<Bytes, ExpiryRec>) {
    forall k | k in index :: KeyedByExpiration(k, index[k])
  }

  lemma StepKeepsKeyed(v: StoreView, c: Change)
    requires KeyedIndex(v.expiry) && Step(v, c).Some?
    ensures KeyedIndex(Step(v, c).value.expiry)
  {
    hide Text.ExpiryKey, AddedNode, RemovedNode;
    match c {
      case Add(rr) => if rr.ClassAccepted() { AddSteps(v, rr); }
      case Remove(rr) => if rr.name in v.nodes { RemoveSteps(v, rr); }
    }
  }

  /** Whatever is added and removed, every entry stays filed under a key that starts with its expiration. */
  lemma {:induction false} RunKeepsKeyed(v: StoreView, cs: seq<Change>)
    requires KeyedIndex(v.expiry)
    ensures KeyedIndex(Steps(v, cs).0.expiry)
    decreases |cs|
  {
    hide KeyedIndex, Step;
    if cs != [] && Step(v, cs[0]).Some? {
      StepKeepsKeyed(v, cs[0]);
      RunKeepsKeyed(Step(v, cs[0]).value, cs[1..]);
    }
  }

  // ---------------------------------------------------------------------------
  // Against a naive scan of all records
  // ---------------------------------------------------------------------------

  /** The sweep stops in front of this expiration although its conditions would flag it: it is past the cut-off, and
      either long past (before the clock even with the skew, which may itself wrap around) or inside the warning
      period. */
  predicate Overlooked(env: Env, expiration: u32) {
    && expiration > Cutoff(env)
    && (|| expiration + env.skew < env.now
        || 0x1_0000_0000 <= expiration + env.skew < 0x1_0000_0000 + env.now
        || env.now < expiration <= env.now + env.warn)
  }

  /** The entries overlooked are exactly the flagged ones past the cut-off. */
  lemma CutoffLosesOnlyOverlooked(env: Env, expiration: u32)
    ensures SweepCode(env, expiration).Some? && expiration > Cutoff(env) <==> Overlooked(env, expiration)
  {
  }

  /** Where clock, skew and warning period stay clear of the end of the 32-bit range, only an expiration so late that
      the skew wraps it around is overlooked. */
  lemma OverlookedWithoutWrap(env: Env, expiration: u32)
    requires env.now + env.skew + env.warn < 0x1_0000_0000
    ensures Overlooked(env, expiration) <==>
            expiration > Cutoff(env) && 0x1_0000_0000 <= expiration + env.skew < 0x1_0000_0000 + env.now
  {
  }

  /** The findings of a scan over the whole index. */
  ghost function NaiveKeys(env: Env, index: map<Bytes, ExpiryRec>): set<Key> {
    EntryKeys(env, index, index.Keys)
  }

  ghost function FlaggedEntries(env: Env, index: map<Bytes, ExpiryRec>): set<Bytes> {
    set k | k in index && SweepCode(env, index[k].expiration).Some?
  }

  /** The sweep sees every entry its own conditions would flag exactly when no entry is overlooked. */
  lemma SweepSeesAllFlagged(env: Env, index: map<Bytes, ExpiryRec>)
    ensures FlaggedEntries(env, index) <= UpToCutoff(env, index) <==>
            forall k | k in index :: !Overlooked(env, index[k].expiration)
  {
    hide SweepCode, Cutoff, Overlooked;
    forall k | k in index
      ensures SweepCode(env, index[k].expiration).Some? && index[k].expiration > Cutoff(env) <==>
              Overlooked(env, index[k].expiration)
    {
      CutoffLosesOnlyOverlooked(env, index[k].expiration);
    }
    if k :| k in index && Overlooked(env, index[k].expiration) {
      assert k in FlaggedEntries(env, index) && k !in UpToCutoff(env, index);
    }
  }

  /** What two entries report is the same finding. */
  predicate SameFinding(env: Env, a: ExpiryRec, b: ExpiryRec) {
    SweepCode(env, a.expiration) == SweepCode(env, b.expiration) && a.owner == b.owner && a.covered == b.covered
  }

  /** Every overlooked entry repeats what one that is not overlooked says. */
  ghost predicate OverlooksRepetitions(env: Env, index: map<Bytes, ExpiryRec>) {
    forall k | k in index && Overlooked(env, index[k].expiration) ::
      exists j | j in index && !Overlooked(env, index[j].expiration) :: SameFinding(env, index[j], index[k])
  }

  /** The sweep's findings are those of the naive scan exactly when it overlooks nothing but repetitions. */
  lemma SweepIsNaiveScan(env: Env, index: map<Bytes, ExpiryRec>)
    ensures EntryKeys(env, index, UpToCutoff(env, index)) == NaiveKeys(env, index) <==> OverlooksRepetitions(env, index)
  {
    hide SweepCode, Cutoff, Overlooked, EntryKeys;
    forall k | k in index
      ensures SweepCode(env, index[k].expiration).Some? && index[k].expiration > Cutoff(env) <==>
              Overlooked(env, index[k].expiration)
    {
      CutoffLosesOnlyOverlooked(env, index[k].expiration);
    }
    var swept, naive := EntryKeys(env, index, UpToCutoff(env, index)), NaiveKeys(env, index);
    forall key ensures key in swept <==> exists k | k in UpToCutoff(env, index) && k in index ::
        Tells(env, index[k], key)
               ensures key in naive <==> exists k | k in index.Keys && k in index :: Tells(env, index[k], key)
    {
      EntryKeysMembers(env, index, UpToCutoff(env, index), key);
      EntryKeysMembers(env, index, index.Keys, key);
    }
    if swept == naive {
      forall k | k in index && Overlooked(env, index[k].expiration)
        ensures exists j | j in index && !Overlooked(env, index[j].expiration) :: SameFinding(env, index[j], index[k])
      {
        var key := Key(SweepCode(env, index[k].expiration).value, index[k].owner, index[k].covered);
        assert Tells(env, index[k], key) && key in naive;
        var j :| j in UpToCutoff(env, index) && j in index && Tells(env, index[j], key);
        assert SameFinding(env, index[j], index[k]);
      }
    }
    if OverlooksRepetitions(env, index) {
      forall key | key in naive ensures key in swept {
        var k :| k in index && Tells(env, index[k], key);
        if Overlooked(env, index[k].expiration) {
          var j :| j in index && !Overlooked(env, index[j].expiration) && SameFinding(env, index[j], index[k]);
          assert Tells(env, index[j], key) && j in UpToCutoff(env, index);
        } else {
          assert k in UpToCutoff(env, index);
        }
      }
    }
  }

  lemma EntryKeysMembers(env: Env, index: map<Bytes, ExpiryRec>, entries: set<Bytes>, key: Key)
    ensures key in EntryKeys(env, index, entries) <==>
            exists k | k in entries && k in index :: Tells(env, index[k], key)
  {
  }

  /** What an entry reports is this finding. */
  predicate Tells(env: Env, rec: ExpiryRec, key: Key) {
    SweepCode(env, rec.expiration) == Some(key.code) && key == Key(key.code, rec.owner, rec.covered)
  }

  lemma OneEntry(env: Env, k: Bytes, rec: ExpiryRec)
    requires SweepCode(env, rec.expiration) == Some(RRSIG_EXPIRED) && rec.expiration > Cutoff(env)
    ensures EntryKeys(env, map[k := rec], UpToCutoff(env, map[k := rec])) == {}
    ensures NaiveKeys(env, map[k := rec]) == {Key(RRSIG_EXPIRED, rec.owner, rec.covered)}
  {
    var index := map[k := rec];
    var key := Key(RRSIG_EXPIRED, rec.owner, rec.covered);
    forall x ensures x in NaiveKeys(env, index) <==> x == key
             ensures x !in EntryKeys(env, index, UpToCutoff(env, index))
    {
      EntryKeysMembers(env, index, index.Keys, x);
      EntryKeysMembers(env, index, UpToCutoff(env, index), x);
      assert k in index.Keys && index[k] == rec;
    }
  }

  /** When the cut-off itself wraps around, a signature that expired long ago can be missed. */
  lemma WrappedCutoffMisses(env: Env, k: Bytes, owner: Name, covered: nat)
    requires env.now == 0xFFFF_FF00 && env.skew == 0x80 && env.warn == 0x100
    ensures var index := map[k := ExpiryRec(1000, owner, covered, 1)];
            && EntryKeys(env, index, UpToCutoff(env, index)) == {}
            && NaiveKeys(env, index) == {Key(RRSIG_EXPIRED, owner, covered)}
  {
    OneEntry(env, k, ExpiryRec(1000, owner, covered, 1));
  }

  /** And without that, one that the skew wraps around. */
  lemma WrappedSkewMisses(env: Env, k: Bytes, owner: Name, covered: nat)
    requires env.now == 1000 && env.skew == 300 && env.warn == 100
    ensures var index := map[k := ExpiryRec(0xFFFF_FF00, owner, covered, 1)];
            && EntryKeys(env, index, UpToCutoff(env, index)) == {}
            && NaiveKeys(env, index) == {Key(RRSIG_EXPIRED, owner, covered)}
  {
    OneEntry(env, k, ExpiryRec(0xFFFF_FF00, owner, covered, 1));
  }

  // ---------------------------------------------------------------------------
  // Against the signature check
  // ---------------------------------------------------------------------------

  /** The sweep's conditions are those of the signature check, leaving out the inception time. */
  lemma SameExpiryTests(env: Env, s: Signature)
    ensures SweepCode(env, s.expiration) == Some(RRSIG_EXPIRED) <==> Expired(env, s)
    ensures SweepCode(env, s.expiration) == Some(RRSIG_EXPIRING_SOON) <==> !Expired(env, s) && ExpiringSoon(env, s)
  {
  }

  /** The signatures over an RRset that are before their inception. */
  ghost function EarlySignatures(env: Env, v: StoreView, n: Name, t: nat): set<Signature>
    requires n in v.nodes
  {
    set s | s in SignaturesCovering(v.nodes[n].sets, t) && NotYetValid(env, s)
  }

  lemma {:induction false} CoveringMembers(rdata: seq<RR>, rtype: nat, s: Signature)
    ensures s in Covering(rdata, rtype) <==>
            exists rr | rr in rdata :: rr.data.RRSIGData? && rr.data.sig == s && s.covered == rtype
  {
    if rdata != [] {
      CoveringMembers(rdata[..|rdata| - 1], rtype, s);
      assert rdata == rdata[..|rdata| - 1] + [rdata[|rdata| - 1]];
    }
  }

  /** The signatures at a name that cover a type are the RRSIG records of the zone with that owner and covered type. */
  lemma CoveringIsRecords(v: StoreView, n: Name, t: nat, s: Signature)
    requires NodesOk(v) && n in v.nodes
    ensures s in SignaturesCovering(v.nodes[n].sets, t) <==>
            exists rr | rr in RecordsOf(v) :: rr.data.RRSIGData? && rr.name == n && rr.data.sig == s && s.covered == t
  {
    hide RecordsOf, Covering;
    RecordsAreStored(v);
    assert NodeOk(v.origin, n, v.nodes[n]);
    var sets := v.nodes[n].sets;
    if RRSIG in sets { CoveringMembers(sets[RRSIG].rdata, t, s); }
    if rr :| rr in RecordsOf(v) && rr.data.RRSIGData? && rr.name == n && rr.data.sig == s && s.covered == t {
      assert Stored(v, rr) && rr.Type() == RRSIG && rr in sets[RRSIG].rdata;
    }
    if s in SignaturesCovering(sets, t) {
      var rr :| rr in sets[RRSIG].rdata && rr.data.RRSIGData? && rr.data.sig == s && s.covered == t;
      assert Stored(v, rr) && rr.name == n;
    }
  }

  /** Where index and records agree, the naive scan reports a code at a name and type exactly when one of the
      signatures there calls for it. */
  lemma NaiveScanIsPerSignature(env: Env, v: StoreView, n: Name, t: nat, c: Code)
    requires NodesOk(v) && Agree(v) && n in v.nodes
    ensures Key(c, n, t) in NaiveKeys(env, v.expiry) <==>
            exists s | s in SignaturesCovering(v.nodes[n].sets, t) :: SweepCode(env, s.expiration) == Some(c)
  {
    hide SweepCode, RecordsOf, SignaturesCovering, NodesOk;
    var entries := ExpiryEntries(RecordsOf(v));
    if Key(c, n, t) in NaiveKeys(env, v.expiry) {
      var k :| k in v.expiry && SweepCode(env, v.expiry[k].expiration) == Some(c) && v.expiry[k].owner == n &&
          v.expiry[k].covered == t;
      assert (k, v.expiry[k]) in entries;
      var rr :| rr in RecordsOf(v) && rr.data.RRSIGData? && MakeExpiryRec(rr) == v.expiry[k];
      CoveringIsRecords(v, n, t, rr.data.sig);
    }
    if s :| s in SignaturesCovering(v.nodes[n].sets, t) && SweepCode(env, s.expiration) == Some(c) {
      CoveringIsRecords(v, n, t, s);
      var rr :| rr in RecordsOf(v) && rr.data.RRSIGData? && rr.name == n && rr.data.sig == s && s.covered == t;
      assert (SignatureKey(rr), MakeExpiryRec(rr)) in entries;
    }
  }

  /** Where nothing is overlooked, the sweep reports expiry exactly where the signature check does or a signature
      before its inception calls for it: that one the signature check reports as not yet valid instead. */
  lemma SweepAgreesWithSignatureCheck(env: Env, v: StoreView, keys: seq<CachedKey>, n: Name, set_: RRSet)
    requires NodesOk(v) && Agree(v) && n in v.nodes
    requires forall k | k in v.expiry :: !Overlooked(env, v.expiry[k].expiration)
    ensures var swept := EntryKeys(env, v.expiry, UpToCutoff(env, v.expiry));
            var early := EarlySignatures(env, v, n, set_.rtype);
            && (Key(RRSIG_EXPIRED, n, set_.rtype) in swept <==>
                ReportsCode(env, keys, n, v.nodes[n], set_, RRSIG_EXPIRED) || exists s | s in early :: Expired(env, s))
            && (Key(RRSIG_EXPIRING_SOON, n, set_.rtype) in swept <==>
                || ReportsCode(env, keys, n, v.nodes[n], set_, RRSIG_EXPIRING_SOON)
                || exists s | s in early :: !Expired(env, s) && ExpiringSoon(env, s))
  {
    hide NodesOk, Agree, Overlooked, EntryKeys, UpToCutoff, NaiveKeys, SweepCode, SignaturesCovering, Expired,
         ExpiringSoon, NotYetValid, MayBeUnsigned, OnlyUnknownKeys;
    SweepIsNaiveScan(env, v.expiry);
    NaiveScanIsPerSignature(env, v, n, set_.rtype, RRSIG_EXPIRED);
    NaiveScanIsPerSignature(env, v, n, set_.rtype, RRSIG_EXPIRING_SOON);
    forall s: Signature
      ensures SweepCode(env, s.expiration) == Some(RRSIG_EXPIRED) <==> Expired(env, s)
      ensures SweepCode(env, s.expiration) == Some(RRSIG_EXPIRING_SOON) <==> !Expired(env, s) && ExpiringSoon(env, s)
    {
      SameExpiryTests(env, s);
    }
  }
}

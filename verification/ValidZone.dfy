/** A zone the generator made and signed is valid: the full pass reports no error on it. */
module ValidZone {
  import opened Bytes
  import opened Names
  import opened Records
  import opened StoreSpec
  import opened Findings
  import opened Signatures
  import opened Verify
  import opened FullPass
  import opened Generate
  import opened Xfr
  import opened Denial
  import Expiry

  // ---------------------------------------------------------------------------
  // What signing and verifying have to do with each other
  // ---------------------------------------------------------------------------

  /** The records of an RRset with their TTLs left out, as signatures see them. */
  ghost function Erased(rrs: seq<RR>): set<RR> {
    set rr | rr in rrs :: rr.(ttl := 0)
  }

  /** Verifying accepts what signing made, in whatever order and with whatever TTLs the RRset is presented. */
  ghost predicate SignsRight(env: Env, opt: Options, base: seq<RR>) {
    forall n, t: nat, rr | ShouldSign(opt.origin, base, n, t) && IsSignature(opt, base, n, t, rr) ::
      Accepted(env, opt, base, n, t, rr.data.sig)
  }

  ghost predicate Accepted(env: Env, opt: Options, base: seq<RR>, n: Name, t: nat, s: Signature) {
    && s.labels == WantLabels(n)
    && forall ttl: nat, members: seq<RR> | Erased(members) == Erased(Group(base, n, t)) ::
         env.verifies(n, ttl, s, SigningKey(opt, n, t), members)
  }

  /** The zone holds its SOA and the two keys of the generator, and no others; the keys are what they should be. */
  ghost predicate GoodKeys(env: Env, opt: Options, base: seq<RR>) {
    && SOA in TypesAt(base, opt.origin) && IsKey(env, opt, base, opt.ksk) && IsKey(env, opt, base, opt.zsk)
    && opt.ksk.data.keyFlags % 2 == 1
    && forall rr | rr in base && rr.name == opt.origin && rr.Type() == DNSKEY :: rr == opt.ksk || rr == opt.zsk
  }

  ghost predicate IsKey(env: Env, opt: Options, base: seq<RR>, key: RR) {
    && key in base && key.name == opt.origin && key.data.DNSKEYData? && key.ttl != 0
    && env.parses(key) && (key.data.keyFlags / 256) % 2 == 1
  }

  /** The clock is inside the validity period of the signatures. */
  predicate InTime(env: Env, opt: Options) {
    Add32(env.now, env.skew) >= opt.inception && env.now <= Add32(opt.expiration, env.skew)
  }

  /** A zone with all its signatures in a store. */
  ghost predicate SignedZone(opt: Options, base: seq<RR>, all: seq<RR>, v: StoreView) {
    && IsSigned(opt, base, all) && LoadedFrom(v, opt.origin, all)
    && forall rr | rr in base :: rr.Type() != RRSIG
  }

  /** The keys the pass works with. */
  function ZoneKeys(env: Env, v: StoreView): seq<CachedKey> {
    if CachedKeys(env, KeyRecords(v)).Some? then CachedKeys(env, KeyRecords(v)).value else []
  }

  // ---------------------------------------------------------------------------
  // Signatures in the store
  // ---------------------------------------------------------------------------

  lemma SignatureRecord(opt: Options, base: seq<RR>, all: seq<RR>, v: StoreView, rr: RR)
    requires SignedZone(opt, base, all, v) && rr.data.RRSIGData?
    ensures rr in RecordsOf(v) ==>
              ShouldSign(opt.origin, base, rr.name, rr.data.sig.covered) &&
                  IsSignature(opt, base, rr.name, rr.data.sig.covered, rr)
  {
    hide RecordsOf, ShouldSign, Group, SigningKey;
    if rr in RecordsOf(v) {
      assert rr in Elems(all) && rr in all;
      assert all == base + all[|base|..];
      assert rr in all[|base|..];
      var n, t: nat :| ShouldSign(opt.origin, base, n, t) && IsSignature(opt, base, n, t, rr);
    }
  }

  /** The signatures at a name are those the signer made. */
  lemma SignaturesAre(opt: Options, base: seq<RR>, all: seq<RR>, v: StoreView, n: Name, t: nat,
          s: Signature) returns (rr: RR)
    requires SignedZone(opt, base, all, v) && n in v.nodes && s in SignaturesCovering(v.nodes[n].sets, t)
    ensures ShouldSign(opt.origin, base, n, t) && IsSignature(opt, base, n, t, rr) && rr.data.sig == s
  {
    hide RecordsOf, ShouldSign, IsSignature, IsSigned, NodesOk, SignaturesCovering;
    Expiry.CoveringIsRecords(v, n, t, s);
    rr :| rr in RecordsOf(v) && rr.data.RRSIGData? && rr.name == n && rr.data.sig == s && s.covered == t;
    SignatureRecord(opt, base, all, v, rr);
  }

  /** What should be signed is. */
  lemma SignatureThere(opt: Options, base: seq<RR>, all: seq<RR>, v: StoreView, n: Name, t: nat) returns (s: Signature)
    requires SignedZone(opt, base, all, v) && n in v.nodes && ShouldSign(opt.origin, base, n, t)
    ensures s in SignaturesCovering(v.nodes[n].sets, t)
  {
    hide RecordsOf, ShouldSign, NodesOk, SignaturesCovering, Pairs, Group, SigningKey;
    SignedArePairs(opt.origin, base);
    var rr :| rr in all[|base|..] && IsSignature(opt, base, n, t, rr);
    assert rr in all && rr in Elems(all);
    s := rr.data.sig;
    Expiry.CoveringIsRecords(v, n, t, s);
  }

  /** An RRset in the store has the members its signature was made over. */
  lemma MembersAre(opt: Options, base: seq<RR>, all: seq<RR>, v: StoreView, n: Name, t: nat)
    requires SignedZone(opt, base, all, v) && n in v.nodes && t in v.nodes[n].sets && t != RRSIG
    ensures v.nodes[n].sets[t].rtype == t && t in TypesAt(base, n)
    ensures forall rr :: rr in v.nodes[n].sets[t].rdata <==> rr in Group(base, n, t)
    ensures Erased(Unpack(v.nodes[n].sets[t])) == Erased(Group(base, n, t))
  {
    hide RecordsOf, Group, SigsFor, TypesAt;
    RecordsAreStored(v);
    GroupIs(base, n, t);
    assert NodeOk(v.origin, n, v.nodes[n]);
    var set_ := v.nodes[n].sets[t];
    assert all == base + all[|base|..];
    forall rr ensures rr in set_.rdata <==> rr in Group(base, n, t) {
      if rr in set_.rdata {
        assert rr.name == n && rr.Type() == t && Stored(v, rr) && rr in Elems(all) && rr in all;
        NotASignature(opt, base, all, rr);
      }
      if rr in Group(base, n, t) { assert rr in all && rr in Elems(all) && Stored(v, rr); }
    }
    assert set_.rdata[0] in Group(base, n, t);
    ErasedIgnoresTTL(set_, Group(base, n, t));
  }

  lemma NotASignature(opt: Options, base: seq<RR>, all: seq<RR>, rr: RR)
    requires IsSigned(opt, base, all) && rr in all && rr.Type() != RRSIG
    ensures rr in base
  {
    hide ShouldSign, Group, SigningKey;
    assert all == base + all[|base|..];
  }

  lemma ErasedIgnoresTTL(set_: RRSet, group: seq<RR>)
    requires forall rr :: rr in set_.rdata <==> rr in group
    ensures Erased(Unpack(set_)) == Erased(group)
  {
    var read := Unpack(set_);
    forall x ensures x in Erased(read) <==> x in Erased(group) {
      if x in Erased(read) {
        var i :| 0 <= i < |read| && read[i].(ttl := 0) == x;
        assert set_.rdata[i] in set_.rdata && set_.rdata[i].(ttl := 0) == x;
      }
      if x in Erased(group) {
        var rr :| rr in group && rr.(ttl := 0) == x;
        var i :| 0 <= i < |set_.rdata| && set_.rdata[i] == rr;
        assert read[i] in read && read[i].(ttl := 0) == x;
      }
    }
  }

  // ---------------------------------------------------------------------------
  // Keys
  // ---------------------------------------------------------------------------

  lemma {:induction false} KeyRecordsMembers(rrs: seq<RR>)
    ensures forall rr :: rr in KeyRecordsIn(rrs) <==> rr in rrs && rr.data.DNSKEYData?
    ensures |KeyRecordsIn(rrs)| <= |rrs|
  {
    if rrs != [] {
      KeyRecordsMembers(rrs[..|rrs| - 1]);
      assert rrs == rrs[..|rrs| - 1] + [rrs[|rrs| - 1]];
    }
  }

  lemma {:induction false} KeysMadeMembers(rrs: seq<RR>)
    ensures forall rr | rr in rrs && rr.data.DNSKEYData? :: MakeKey(rr) in KeysMade(rrs)
    ensures |KeysMade(rrs)| <= |rrs|
  {
    if rrs != [] {
      KeysMadeMembers(rrs[..|rrs| - 1]);
      assert rrs == rrs[..|rrs| - 1] + [rrs[|rrs| - 1]];
    }
  }

  lemma {:induction false} TagCountBound(keys: seq<CachedKey>, tag: nat)
    ensures TagCount(keys, tag) <= |keys|
  {
    if keys != [] { TagCountBound(keys[..|keys| - 1], tag); }
  }

  lemma {:induction false} FitsIn<T>(s: seq<T>, within: set<T>)
    requires NoDuplicates(s) && forall x | x in s :: x in within
    ensures |s| <= |within|
  {
    if s != [] {
      var init, last := s[..|s| - 1], s[|s| - 1];
      FitsIn(init, within - {last});
    }
  }

  /** The pass works with exactly the two keys. */
  lemma KeysAre(env: Env, opt: Options, base: seq<RR>, all: seq<RR>, v: StoreView)
    requires SignedZone(opt, base, all, v) && GoodKeys(env, opt, base)
    ensures KeyRecords(v) != [] && CachedKeys(env, KeyRecords(v)).Some?
    ensures var keys := ZoneKeys(env, v); MakeKey(opt.ksk) in keys && MakeKey(opt.zsk) in keys && |keys| <= 2
    ensures DNSKEY in SetsAt(v, v.origin)
  {
    hide SignedZone, KeysMade, KeyRecordsIn, Unpack;
    KeySetIs(env, opt, base, all, v);
    var rdata := SetsAt(v, v.origin)[DNSKEY].rdata;
    FitsIn(rdata, {opt.ksk, opt.zsk});
    KeyRecordsMembers(rdata);
    KeysMadeMembers(KeyRecordsIn(rdata));
    assert opt.ksk in KeyRecords(v) && opt.zsk in KeyRecords(v);
  }

  lemma KeySetIs(env: Env, opt: Options, base: seq<RR>, all: seq<RR>, v: StoreView)
    requires SignedZone(opt, base, all, v) && GoodKeys(env, opt, base)
    ensures v.origin == opt.origin && DNSKEY in SetsAt(v, v.origin)
    ensures var set_ := SetsAt(v, v.origin)[DNSKEY];
            && NoDuplicates(set_.rdata) && Unpack(set_) == set_.rdata
            && forall rr :: rr in set_.rdata <==> rr == opt.ksk || rr == opt.zsk
  {
    hide RecordsOf, Group, SigsFor;
    LoadedNodes(v, opt.origin, all, opt.origin);
    KeyTypes(env, opt, base, all);
    MembersAre(opt, base, all, v, opt.origin, DNSKEY);
    GroupIs(base, opt.origin, DNSKEY);
    assert NodeOk(v.origin, opt.origin, v.nodes[opt.origin]);
    NoZeroReads(v.nodes[opt.origin].sets[DNSKEY]);
  }

  lemma KeyTypes(env: Env, opt: Options, base: seq<RR>, all: seq<RR>)
    requires GoodKeys(env, opt, base) && base <= all
    ensures DNSKEY in TypesAt(all, opt.origin) && SOA in TypesAt(all, opt.origin) && opt.origin in NamesOf(all)
  {
    assert all == base + all[|base|..];
    assert opt.ksk in all && opt.ksk.Type() == DNSKEY;
    var soa :| soa in base && soa.name == opt.origin && soa.Type() == SOA;
    assert soa in all;
  }

  lemma NoZeroReads(set_: RRSet)
    requires forall rr | rr in set_.rdata :: rr.ttl != 0
    ensures Unpack(set_) == set_.rdata
  {
  }

  /** The key that signed an RRset is among those, fits the signature and accepts it. */
  lemma KeyAccepts(env: Env, opt: Options, base: seq<RR>, all: seq<RR>, v: StoreView, n: Name, t: nat, s: Signature)
    requires SignedZone(opt, base, all, v) && GoodKeys(env, opt, base) && SignsRight(env, opt, base)
    requires n in v.nodes && t in v.nodes[n].sets && t != RRSIG && s in SignaturesCovering(v.nodes[n].sets, t)
    ensures var k := MakeKey(SigningKey(opt, n, t));
            && k in ZoneKeys(env, v) && Accepts(env, k, n, v.nodes[n].sets[t], s)
            && s.labels == WantLabels(n) && s.inception == opt.inception && s.expiration == opt.expiration
  {
    hide SignedZone, ShouldSign, IsSignature, SignaturesCovering, ZoneKeys, Group, Erased, WantLabels, SigningKey;
    KeysAre(env, opt, base, all, v);
    var rr := SignaturesAre(opt, base, all, v, n, t, s);
    MembersAre(opt, base, all, v, n, t);
    assert Accepted(env, opt, base, n, t, s);
    SameKey(opt, base, n, t, rr);
    SignerIsKey(env, opt, base, n, t);
  }

  lemma SignerIsKey(env: Env, opt: Options, base: seq<RR>, n: Name, t: nat)
    requires GoodKeys(env, opt, base)
    ensures SigningKey(opt, n, t) == opt.ksk || SigningKey(opt, n, t) == opt.zsk
    ensures SigningKey(opt, n, t).data.DNSKEYData? && MakeKey(SigningKey(opt, n, t)).isZone
  {
  }

  lemma SameKey(opt: Options, base: seq<RR>, n: Name, t: nat, rr: RR)
    requires IsSignature(opt, base, n, t, rr)
    ensures var s := rr.data.sig;
            && s.keyTag == TagOf(SigningKey(opt, n, t)) && s.algorithm == AlgorithmOf(SigningKey(opt, n, t))
            && s.inception == opt.inception && s.expiration == opt.expiration
  {
    hide Group;
  }

  // ---------------------------------------------------------------------------
  // No errors
  // ---------------------------------------------------------------------------

  lemma AcceptsIsVerified(env: Env, keys: seq<CachedKey>, k: CachedKey, name: Name, set_: RRSet, s: Signature)
    requires k in keys && Accepts(env, k, name, set_, s) && Current(env, s)
    ensures Verified(env, keys, name, set_, s)
  {
    hide Accepts;
    var i :| 0 <= i < |keys| && keys[i] == k;
  }

  /** No RRset at an authoritative name draws an error. */
  lemma RRsetIsFine(env: Env, opt: Options, base: seq<RR>, all: seq<RR>, v: StoreView, n: Name, t: nat, c: Code)
    requires SignedZone(opt, base, all, v) && GoodKeys(env, opt, base) && SignsRight(env, opt, base) && InTime(env, opt)
    requires n in v.nodes && t in v.nodes[n].sets && Checked(t) && Authoritative(v, n) && CutsOf(all) == CutsOf(base)
    requires c in CODES && SeverityOf(c) == Error
    ensures !ReportsCode(env, ZoneKeys(env, v), n, v.nodes[n], v.nodes[n].sets[t], c)
  {
    hide SignedZone, SignaturesCovering, ZoneKeys, Group, WantLabels, SignsRight, GoodKeys, ReportsCode, Current,
         Verified, Candidate, Authoritative, TypesAt, CutsOf, Accepts, InTime;
    var node, keys := v.nodes[n], ZoneKeys(env, v);
    var set_, sigs := node.sets[t], SignaturesCovering(node.sets, t);
    MembersAre(opt, base, all, v, n, t);
    forall s | s in sigs ensures IsFine(env, keys, n, set_, s) {
      KeyAccepts(env, opt, base, all, v, n, t, s);
      SignerIsKey(env, opt, base, n, t);
      AcceptedIsFine(env, opt, keys, MakeKey(SigningKey(opt, n, t)), n, set_, s);
    }
    if sigs == [] { UnsignedIsCut(opt, base, all, v, n, t); }
    FineDrawsNoError(env, keys, n, node, set_, c);
  }

  ghost predicate IsFine(env: Env, keys: seq<CachedKey>, name: Name, set_: RRSet, s: Signature) {
    && s.labels == WantLabels(name) && Current(env, s) && Verified(env, keys, name, set_, s)
    && exists k | k in keys :: Candidate(k, s)
  }

  lemma AcceptedIsFine(env: Env, opt: Options, keys: seq<CachedKey>, k: CachedKey, name: Name, set_: RRSet,
          s: Signature)
    requires k in keys && Accepts(env, k, name, set_, s) && s.labels == WantLabels(name) && InTime(env, opt)
    requires s.inception == opt.inception && s.expiration == opt.expiration
    ensures IsFine(env, keys, name, set_, s)
  {
    hide WantLabels, Accepts;
    AcceptsIsVerified(env, keys, k, name, set_, s);
    AcceptsIsCandidate(env, k, name, set_, s);
  }

  lemma FineDrawsNoError(env: Env, keys: seq<CachedKey>, name: Name, node: NodeView, set_: RRSet, c: Code)
    requires var sigs := SignaturesCovering(node.sets, set_.rtype);
             && (forall s | s in sigs :: IsFine(env, keys, name, set_, s))
             && (sigs == [] ==> MayBeUnsigned(node, set_.rtype))
    requires c in CODES && SeverityOf(c) == Error
    ensures !ReportsCode(env, keys, name, node, set_, c)
  {
    hide WantLabels, Verified, Candidate, SignaturesCovering, MayBeUnsigned;
    var sigs := SignaturesCovering(node.sets, set_.rtype);
    if sigs != [] { assert sigs[0] in sigs; }
  }

  lemma AcceptsIsCandidate(env: Env, k: CachedKey, name: Name, set_: RRSet, s: Signature)
    requires Accepts(env, k, name, set_, s)
    ensures Candidate(k, s)
  {
  }

  /** What is not signed at an authoritative name is a delegation. */
  lemma UnsignedIsCut(opt: Options, base: seq<RR>, all: seq<RR>, v: StoreView, n: Name, t: nat)
    requires SignedZone(opt, base, all, v) && n in v.nodes && t in v.nodes[n].sets && t != RRSIG
    requires Authoritative(v, n) && CutsOf(all) == CutsOf(base) && SignaturesCovering(v.nodes[n].sets, t) == []
    ensures MayBeUnsigned(v.nodes[n], t)
  {
    hide RecordsOf, IsSigned, SignaturesCovering, Group, TypesAt, CutsOf, UnderCut, LoadedFrom;
    MembersAre(opt, base, all, v, n, t);
    LoadedAuthority(v, opt.origin, all, base, n);
    LoadedNodes(v, opt.origin, all, n);
    if ShouldSign(opt.origin, base, n, t) {
      var s := SignatureThere(opt, base, all, v, n, t);
    }
    assert t == NS && n != opt.origin;
  }

  /** The full pass calls such a zone valid, given that its denial records draw nothing. */
  lemma SignedZoneIsValid(env: Env, opt: Options, base: seq<RR>, all: seq<RR>, v: StoreView)
    requires SignedZone(opt, base, all, v) && GoodKeys(env, opt, base) && SignsRight(env, opt, base) && InTime(env, opt)
    requires CutsOf(all) == CutsOf(base) && DenialSilent(env, v)
    ensures NoErrors(FullKeys(env, v)) && FullOutcome(env, v).valid && !FullOutcome(env, v).unsigned
  {
    hide RecordsOf, IsSigned, SignaturesCovering, Group, CutsOf, GoodKeys, SignsRight, ReportsCode, LoadedFrom,
         CachedKeys, KeyRecords, TagsCollide, SignedByKSK, Authoritative, ChainKeys, DenialKeys;
    KeysAre(env, opt, base, all, v);
    SOAIsThere(env, opt, base, all, v);
    var keys := ZoneKeys(env, v);
    ApexIsFine(env, opt, base, all, v, keys);
    forall k | k in SignedZoneKeys(env, v, keys) ensures SeverityOf(k.code) == Warning {
      var n :| n in v.nodes && k in NodeKeys(env, v, keys, n);
      var t: nat :| t in v.nodes[n].sets && Checked(t) && k in RRSetKeys(env, keys, n, v.nodes[n], v.nodes[n].sets[t]);
      if SeverityOf(k.code) == Error { RRsetIsFine(env, opt, base, all, v, n, t, k.code); }
    }
  }

  lemma SOAIsThere(env: Env, opt: Options, base: seq<RR>, all: seq<RR>, v: StoreView)
    requires SignedZone(opt, base, all, v) && GoodKeys(env, opt, base)
    ensures SOA in SetsAt(v, v.origin) && v.origin == opt.origin
  {
    hide RecordsOf, SigsFor;
    KeyTypes(env, opt, base, all);
    LoadedNodes(v, opt.origin, all, opt.origin);
  }

  lemma ApexIsFine(env: Env, opt: Options, base: seq<RR>, all: seq<RR>, v: StoreView, keys: seq<CachedKey>)
    requires SignedZone(opt, base, all, v) && GoodKeys(env, opt, base) && SignsRight(env, opt, base)
    requires keys == ZoneKeys(env, v)
    ensures ApexKeys(env, v, keys) == {}
  {
    hide RecordsOf, IsSigned, SignaturesCovering, Group, SignsRight, LoadedFrom, CachedKeys, KeyRecords, TypesAt;
    KeysAre(env, opt, base, all, v);
    SOAIsThere(env, opt, base, all, v);
    forall k | k in keys ensures TagCount(keys, k.keyTag) <= 3 { TagCountBound(keys, k.keyTag); }
    MembersAre(opt, base, all, v, opt.origin, DNSKEY);
    assert ShouldSign(opt.origin, base, opt.origin, DNSKEY);
    var s := SignatureThere(opt, base, all, v, opt.origin, DNSKEY);
    KeyAccepts(env, opt, base, all, v, opt.origin, DNSKEY, s);
    var i :| 0 <= i < |keys| && keys[i] == MakeKey(opt.ksk);
    assert KSKUses(env, opt.origin, v.nodes[opt.origin].sets, keys, i);
  }

  // ---------------------------------------------------------------------------
  // Generated zones
  // ---------------------------------------------------------------------------

  /** Every generated NSEC3 zone is valid under the full pass. */
  lemma NSEC3ZoneIsValid(env: Env, opt: Options, rrs: seq<RR>, param: RData, names: seq<Name>, out: seq<RR>,
          all: seq<RR>, v: StoreView)
    requires IsNSEC3Zone(opt, rrs, param, names, out, all) && LoadedFrom(v, opt.origin, all)
    requires forall n, rr: RR | rr.data == param :: env.hash(n, rr) == opt.hash(n)
    requires GoodKeys(env, opt, rrs + out) && SignsRight(env, opt, rrs + out) && InTime(env, opt)
    ensures NoErrors(FullKeys(env, v)) && FullOutcome(env, v).valid && !FullOutcome(env, v).unsigned
  {
    hide IsNSEC3Chain, GoodHash, GoodParam, IsSigned, LoadedFrom, SignsRight, GoodKeys, FullKeys, FullOutcome,
         DenialSilent;
    forall rr | rr in out ensures rr.Type() == NSEC3 { var i := NSEC3sOf(opt, rrs, names, out, rr); }
    CutsAfterSigning(opt, rrs, out, all);
    SameCuts(rrs, out);
    NSEC3ZoneIsSilent(env, opt, rrs, param, names, out, all, v);
    SignedZoneIsValid(env, opt, rrs + out, all, v);
  }

  lemma NSEC3sOf(opt: Options, rrs: seq<RR>, names: seq<Name>, out: seq<RR>, rr: RR) returns (i: nat)
    requires IsNSEC3Chain(opt, rrs, names, out) && rr in out
    ensures rr.Type() == NSEC3
  {
    i :| 0 <= i < |out| && out[i] == rr;
  }

  /** Every generated NSEC zone is, too. */
  lemma NSECZoneIsValid(env: Env, opt: Options, rrs: seq<RR>, names: seq<Name>, out: seq<RR>, all: seq<RR>,
          v: StoreView)
    requires IsNSECZone(opt, rrs, names, out, all) && LoadedFrom(v, opt.origin, all)
    requires GoodKeys(env, opt, rrs + out) && SignsRight(env, opt, rrs + out) && InTime(env, opt)
    ensures NoErrors(FullKeys(env, v)) && FullOutcome(env, v).valid && !FullOutcome(env, v).unsigned
  {
    hide IsNSECChain, IsSigned, LoadedFrom, SignsRight, GoodKeys, FullKeys, FullOutcome, DenialSilent;
    forall rr | rr in out ensures rr.Type() == NSEC { var i := NSECsAre(opt, rrs, names, out, rr); }
    SameCuts(rrs, out);
    CutsAfterSigning(opt, rrs, out, all);
    NSECZoneIsSilent(env, opt, rrs, names, out, all, v);
    SignedZoneIsValid(env, opt, rrs + out, all, v);
  }
}

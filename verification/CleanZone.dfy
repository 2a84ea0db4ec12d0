/** What the findings of a full pass mean in terms of the zone's records, and what a valid verdict is worth. */
module CleanZone {
  import opened Bytes
  import opened Names
  import opened Records
  import opened StoreSpec
  import opened Ring
  import opened Findings
  import opened Signatures
  import opened Sums
  import opened Verify
  import opened FullPass
  import opened PrimaryServer
  import opened Refinement
  import opened WholePass
  import Expiry
  import Loading

  // ---------------------------------------------------------------------------
  // The zone in terms of its records
  // ---------------------------------------------------------------------------

  ghost predicate Has(v: StoreView, n: Name, t: nat) {
    exists rr | rr in RecordsOf(v) :: rr.name == n && rr.Type() == t
  }

  ghost predicate Delegated(v: StoreView, n: Name) {
    n != v.origin && Has(v, n, NS)
  }

  /** Some name above this one, met before the origin on the way up, is delegated. */
  ghost predicate BelowDelegation(v: StoreView, n: Name) {
    exists k | 1 <= k < |n| :: Delegated(v, n[k..]) && forall j | 1 <= j <= k :: n[j..] != v.origin
  }

  ghost predicate InAuthority(v: StoreView, n: Name) {
    n == v.origin || !BelowDelegation(v, n)
  }

  /** A child of the origin whose label has twenty or more base32hex digits. */
  predicate LooksLikeHash(v: StoreView, n: Name) {
    && |n| == |v.origin| + 1 && n[1..] == v.origin && |n[0]| >= 20
    && forall c | c in n[0] :: 48 <= c <= 57 || 97 <= c <= 118 || 65 <= c <= 86
  }

  /** A signature record of the zone over this name and type. */
  ghost predicate Covers(v: StoreView, n: Name, t: nat, s: Signature) {
    s.covered == t && exists rr | rr in RecordsOf(v) :: rr.name == n && rr.data == RRSIGData(s)
  }

  /** The records of an RRset as they are read, and the TTL they are read with. */
  function Members(v: StoreView, n: Name, t: nat): seq<RR> {
    if t in SetsAt(v, n) then Unpack(SetsAt(v, n)[t]) else []
  }

  function TTLOf(v: StoreView, n: Name, t: nat): nat {
    if t in SetsAt(v, n) then SetsAt(v, n)[t].ttl else 0
  }

  ghost predicate ApexKey(v: StoreView, k: RR) {
    k in UnpackedOf(v) && k.name == v.origin && k.data.DNSKEYData?
  }

  /** A zone key with the tag and algorithm of this signature. */
  predicate Named(k: RR, s: Signature) {
    && k.data.DNSKEYData? && k.data.keyFlags / 256 % 2 == 1
    && k.data.keyTag == s.keyTag && k.data.algorithm == s.algorithm
  }

  /** The clock, give or take the skew, is between inception and expiration. */
  predicate InPeriod(env: Env, s: Signature) {
    && s.inception <= (env.now + env.skew) % 0x1_0000_0000
    && env.now <= (s.expiration + env.skew) % 0x1_0000_0000
  }

  predicate Early(env: Env, s: Signature) {
    (env.now + env.skew) % 0x1_0000_0000 < s.inception
  }

  function LabelCount(n: Name): nat {
    if |n| > 1 && n[0] == [42] then |n| - 1 else |n|
  }

  /** Some zone key that the signature names verifies it over the RRset. */
  ghost predicate VerifiedByZoneKey(env: Env, v: StoreView, n: Name, t: nat, s: Signature) {
    InPeriod(env, s) &&
    exists k | ApexKey(v, k) :: Named(k, s) && env.verifies(n, TTLOf(v, n, t), s, k, Members(v, n, t))
  }

  // ---------------------------------------------------------------------------
  // Nodes, cuts, signatures and keys are those of the records
  // ---------------------------------------------------------------------------

  lemma TypesMean(v: StoreView, n: Name)
    requires NodesOk(v)
    ensures forall t :: t in SetsAt(v, n) <==> Has(v, n, t)
    ensures n in v.nodes <==> exists t :: Has(v, n, t)
    ensures n in v.nodes ==> v.nodes[n].isDelegation == Delegated(v, n) && v.nodes[n].hasDS == Has(v, n, DS)
  {
    hide RecordsOf;
    RecordsAreStored(v);
    forall t ensures t in SetsAt(v, n) <==> Has(v, n, t) {
      if t in SetsAt(v, n) {
        assert NodeOk(v.origin, n, v.nodes[n]);
        var rr := SetsAt(v, n)[t].rdata[0];
        assert rr in SetsAt(v, n)[t].rdata && Stored(v, rr);
      }
      if rr :| rr in RecordsOf(v) && rr.name == n && rr.Type() == t { assert Stored(v, rr); }
    }
    if n in v.nodes {
      assert NodeOk(v.origin, n, v.nodes[n]);
      var t :| t in v.nodes[n].sets;
      assert Has(v, n, t);
    }
  }

  lemma CutsMean(v: StoreView, n: Name)
    requires NodesOk(v)
    ensures n in Cuts(v) <==> Delegated(v, n)
  {
    hide RecordsOf, NodesOk;
    TypesMean(v, n);
  }

  lemma AuthorityMeans(v: StoreView, n: Name)
    requires NodesOk(v)
    ensures Authoritative(v, n) <==> InAuthority(v, n)
  {
    hide NodesOk, Delegated, Cuts;
    forall m ensures m in Cuts(v) <==> Delegated(v, m) { CutsMean(v, m); }
    CutAbove(Cuts(v), v.origin, n);
  }

  lemma CutAbove(cuts: set<Name>, origin: Name, n: Name)
    ensures UnderCut(cuts, origin, n) <==>
            exists k | 1 <= k < |n| :: n[k..] in cuts && forall j | 1 <= j <= k :: n[j..] != origin
  {
    var p := Parent(n);
    CutIsProperAncestor(cuts, origin, p);
    assert forall k | 1 <= k < |n| :: n[k..] == p[k - 1..];
    if k :| 0 <= k < |p| && p[k..] in cuts && forall j | 0 <= j <= k :: p[j..] != origin {
      assert n[k + 1..] in cuts;
      forall j | 1 <= j <= k + 1 ensures n[j..] != origin { assert n[j..] == p[j - 1..]; }
    }
    if k :| 1 <= k < |n| && n[k..] in cuts && forall j | 1 <= j <= k :: n[j..] != origin {
      assert p[k - 1..] in cuts;
      forall j | 0 <= j <= k - 1 ensures p[j..] != origin { assert n[j + 1..] == p[j..]; }
    }
  }

  lemma HashedMeans(v: StoreView, n: Name)
    ensures IsNSEC3Owner(n, v.origin) <==> LooksLikeHash(v, n)
  {
    if |n| > 0 && |n| == |v.origin| + 1 {
      assert n[|n| - |v.origin|..] == n[1..];
      if |n| == 1 { assert n[1..] == []; }
    }
  }

  lemma CoversMean(v: StoreView, n: Name, t: nat, s: Signature)
    requires NodesOk(v) && n in v.nodes
    ensures s in SignaturesCovering(v.nodes[n].sets, t) <==> Covers(v, n, t, s)
  {
    hide RecordsOf, NodesOk, SignaturesCovering;
    Expiry.CoveringIsRecords(v, n, t, s);
  }

  lemma {:induction false} KeysMadeAre(rrs: seq<RR>)
    ensures forall k :: k in KeysMade(rrs) <==> exists rr | rr in rrs :: rr.data.DNSKEYData? && MakeKey(rr) == k
  {
    if rrs != [] {
      var init, last := rrs[..|rrs| - 1], rrs[|rrs| - 1];
      KeysMadeAre(init);
      assert rrs == init + [last];
    }
  }

  lemma {:induction false} KeyRecordsAre(rrs: seq<RR>)
    ensures forall rr :: rr in KeyRecordsIn(rrs) <==> rr in rrs && rr.data.DNSKEYData?
  {
    if rrs != [] {
      KeyRecordsAre(rrs[..|rrs| - 1]);
      assert rrs == rrs[..|rrs| - 1] + [rrs[|rrs| - 1]];
    }
  }

  /** The key records are the DNSKEY records of the apex. */
  lemma ApexKeysAre(v: StoreView)
    requires NodesOk(v)
    ensures forall rr :: rr in KeyRecords(v) <==> ApexKey(v, rr)
  {
    hide KeyRecordsIn, Unpack, UnpackedOf;
    if DNSKEY in SetsAt(v, v.origin) { KeyRecordsAre(Unpack(SetsAt(v, v.origin)[DNSKEY])); }
    forall rr: RR | rr.data.DNSKEYData? && rr.name == v.origin
      ensures rr in UnpackedOf(v) <==> DNSKEY in SetsAt(v, v.origin) && rr in Unpack(SetsAt(v, v.origin)[DNSKEY])
    {
      ReadHere(v, rr);
    }
    if DNSKEY in SetsAt(v, v.origin) {
      assert NodeOk(v.origin, v.origin, v.nodes[v.origin]);
      ReadsOwnType(v.origin, v.nodes[v.origin].sets, DNSKEY);
    }
  }

  /** A record is read from the RRset of its own name and type. */
  lemma ReadHere(v: StoreView, rr: RR)
    requires NodesOk(v)
    ensures rr in UnpackedOf(v) <==> rr.Type() in SetsAt(v, rr.name) && rr in Unpack(SetsAt(v, rr.name)[rr.Type()])
  {
    hide Unpack;
    if rr in UnpackedOf(v) {
      var n, t :| n in v.nodes && t in v.nodes[n].sets && rr in Unpack(v.nodes[n].sets[t]);
      assert NodeOk(v.origin, n, v.nodes[n]);
      ReadsOwnType(n, v.nodes[n].sets, t);
    }
  }

  lemma KeysMean(env: Env, v: StoreView, keys: seq<CachedKey>)
    requires NodesOk(v) && SignedWith(env, v, keys)
    ensures forall k :: k in keys <==> exists rr | ApexKey(v, rr) :: MakeKey(rr) == k
    ensures (exists rr :: ApexKey(v, rr)) && forall rr | ApexKey(v, rr) :: env.parses(rr)
  {
    hide NodesOk, KeyRecords, ApexKey;
    ApexKeysAre(v);
    ApexKeyIsKey(v);
    KeysMadeAre(KeyRecords(v));
    assert keys == KeysMade(KeyRecords(v));
    assert KeyRecords(v)[0] in KeyRecords(v);
  }

  lemma ApexKeyIsKey(v: StoreView)
    ensures forall rr | ApexKey(v, rr) :: rr.data.DNSKEYData?
  {
  }

  // ---------------------------------------------------------------------------
  // Signature findings
  // ---------------------------------------------------------------------------

  /** When an RRset in authority draws a signature finding. */
  ghost predicate SignatureFinding(env: Env, v: StoreView, n: Name, t: nat, c: Code) {
    match c
    case RRSIG_MISSING =>
      (forall s :: !Covers(v, n, t, s)) && !(Delegated(v, n) && t != DS && t != NSEC && t != NSEC3)
    case RRSIG_LABELS_MISMATCH => exists s | Covers(v, n, t, s) :: s.labels != LabelCount(n)
    case RRSIG_NOT_YET_VALID => exists s | Covers(v, n, t, s) :: Early(env, s)
    case RRSIG_EXPIRED =>
      exists s | Covers(v, n, t, s) :: !Early(env, s) && env.now > (s.expiration + env.skew) % 0x1_0000_0000
    case RRSIG_TTL_MISMATCH =>
      env.ttlWarning && exists s | Covers(v, n, t, s) :: InPeriod(env, s) && s.origTtl != TTLOf(v, n, t)
    case RRSIG_EXPIRING_SOON =>
      exists s | Covers(v, n, t, s) :: InPeriod(env, s) && env.now < s.expiration <= env.now + env.warn
    case RRSIG_UNKNOWN_KEY => NoKeyForAny(env, v, n, t) && exists s :: Covers(v, n, t, s)
    case RRSIG_INVALID =>
      && !NoKeyForAny(env, v, n, t) && (exists s :: Covers(v, n, t, s))
      && forall s | Covers(v, n, t, s) :: !VerifiedByZoneKey(env, v, n, t, s)
    case _ => false
  }

  /** All signatures are in their period, and no zone key has the tag and algorithm of any. */
  ghost predicate NoKeyForAny(env: Env, v: StoreView, n: Name, t: nat) {
    forall s | Covers(v, n, t, s) :: InPeriod(env, s) && forall k | ApexKey(v, k) :: !Named(k, s)
  }

  lemma PeriodMeans(env: Env, s: Signature)
    ensures Current(env, s) <==> InPeriod(env, s)
    ensures NotYetValid(env, s) <==> Early(env, s)
    ensures Expired(env, s) <==> env.now > (s.expiration + env.skew) % 0x1_0000_0000
    ensures ExpiringSoon(env, s) <==> env.now < s.expiration <= env.now + env.warn
  {
  }

  lemma NamedMeans(env: Env, v: StoreView, keys: seq<CachedKey>, s: Signature)
    requires NodesOk(v) && SignedWith(env, v, keys)
    ensures (forall k | k in keys :: !Candidate(k, s)) <==> forall rr | ApexKey(v, rr) :: !Named(rr, s)
  {
    hide NodesOk, ApexKey, SignedWith;
    KeysMean(env, v, keys);
    ApexKeyIsKey(v);
    forall rr | ApexKey(v, rr) ensures Candidate(MakeKey(rr), s) <==> Named(rr, s) {}
  }

  lemma VerifiedMeans(env: Env, v: StoreView, keys: seq<CachedKey>, n: Name, t: nat, s: Signature)
    requires NodesOk(v) && SignedWith(env, v, keys) && t in SetsAt(v, n)
    ensures Verified(env, keys, n, SetsAt(v, n)[t], s) <==> VerifiedByZoneKey(env, v, n, t, s)
  {
    hide NodesOk, ApexKey, SignedWith, Current, InPeriod;
    PeriodMeans(env, s);
    KeysMean(env, v, keys);
    ApexKeyIsKey(v);
    var set_ := SetsAt(v, n)[t];
    var i := FirstAccepting(env, keys, n, set_, s, 0);
    forall rr | ApexKey(v, rr)
      ensures Accepts(env, MakeKey(rr), n, set_, s) <==>
              Named(rr, s) && env.verifies(n, TTLOf(v, n, t), s, rr, Members(v, n, t))
    {
    }
    if i < |keys| {
      assert keys[i] in keys;
      var rr :| ApexKey(v, rr) && MakeKey(rr) == keys[i];
    }
    if rr :| ApexKey(v, rr) && Named(rr, s) && env.verifies(n, TTLOf(v, n, t), s, rr, Members(v, n, t)) {
      assert MakeKey(rr) in keys;
      var j :| 0 <= j < |keys| && keys[j] == MakeKey(rr);
      assert Accepts(env, keys[j], n, set_, s);
    }
  }

  lemma LabelsMean(n: Name)
    ensures WantLabels(n) == LabelCount(n)
  {
  }

  lemma CodeMeans(env: Env, v: StoreView, keys: seq<CachedKey>, n: Name, t: nat, c: Code)
    requires NodesOk(v) && SignedWith(env, v, keys) && n in v.nodes && t in v.nodes[n].sets && c in CODES
    requires v.nodes[n].sets[t].rtype == t
    ensures ReportsCode(env, keys, n, v.nodes[n], v.nodes[n].sets[t], c) <==> SignatureFinding(env, v, n, t, c)
  {
    hide NodesOk, SignedWith, Covers, SignaturesCovering, Current, InPeriod, NotYetValid, Early, Expired, ExpiringSoon,
         Candidate, Named, Verified, VerifiedByZoneKey, WantLabels, LabelCount, ApexKey, Delegated, Has,
         OnlyUnknownKeys, NoKeyForAny;
    var set_ := v.nodes[n].sets[t];
    var sigs := SignaturesCovering(v.nodes[n].sets, t);
    TypesMean(v, n);
    LabelsMean(n);
    forall s ensures s in sigs <==> Covers(v, n, t, s) { CoversMean(v, n, t, s); }
    assert sigs != [] <==> exists s :: Covers(v, n, t, s) by { if sigs != [] { assert sigs[0] in sigs; } }
    forall s: Signature
      ensures Current(env, s) <==> InPeriod(env, s)
      ensures NotYetValid(env, s) <==> Early(env, s)
      ensures Expired(env, s) <==> env.now > (s.expiration + env.skew) % 0x1_0000_0000
      ensures ExpiringSoon(env, s) <==> env.now < s.expiration <= env.now + env.warn
    {
      PeriodMeans(env, s);
    }
    forall s: Signature ensures Verified(env, keys, n, set_, s) <==> VerifiedByZoneKey(env, v, n, t, s) {
      VerifiedMeans(env, v, keys, n, t, s);
    }
    assert set_.ttl == TTLOf(v, n, t);
    UnknownMeans(env, v, keys, n, t, sigs);
  }

  lemma UnknownMeans(env: Env, v: StoreView, keys: seq<CachedKey>, n: Name, t: nat, sigs: seq<Signature>)
    requires NodesOk(v) && SignedWith(env, v, keys) && forall s :: s in sigs <==> Covers(v, n, t, s)
    ensures OnlyUnknownKeys(env, keys, sigs) <==> NoKeyForAny(env, v, n, t)
  {
    hide NodesOk, SignedWith, Covers, Current, InPeriod, Candidate, Named, ApexKey;
    forall s: Signature
      ensures Current(env, s) <==> InPeriod(env, s)
      ensures (forall k | k in keys :: !Candidate(k, s)) <==> forall rr | ApexKey(v, rr) :: !Named(rr, s)
    {
      PeriodMeans(env, s);
      NamedMeans(env, v, keys, s);
    }
  }

  // ---------------------------------------------------------------------------
  // Denial findings
  // ---------------------------------------------------------------------------

  /** The first NSEC3PARAM record of the apex, as it is read. */
  function ApexParam(v: StoreView): Option<RR> {
    if Members(v, v.origin, NSEC3PARAM) == [] then None else Some(Members(v, v.origin, NSEC3PARAM)[0])
  }

  ghost function TypesOf(v: StoreView, n: Name): set<nat> {
    set rr | rr in RecordsOf(v) && rr.name == n :: rr.Type()
  }

  /** The first NSEC of a name, as it is read, lists exactly the types there. */
  ghost predicate NSECListsTypes(v: StoreView, n: Name) {
    && Members(v, n, NSEC) != [] && Members(v, n, NSEC)[0].data.NSECData?
    && Elements(Members(v, n, NSEC)[0].data.bitmap) == TypesOf(v, n)
  }

  ghost predicate AtHash(v: StoreView, h: Bytes, rr: RR) {
    rr in RecordsOf(v) && rr.data.NSEC3Data? && NSEC3Key(rr.name) == h
  }

  /** The names that need an NSEC3: all in authority but delegations without DS. */
  ghost predicate NeedsHash(v: StoreView, n: Name) {
    n == v.origin || (InAuthority(v, n) && !(Delegated(v, n) && !Has(v, n, DS)))
  }

  ghost predicate DenialFinding(env: Env, v: StoreView, n: Name, t: nat, c: Code) {
    TypesOf(v, n) != {} && !LooksLikeHash(v, n) &&
    match ApexParam(v)
    case None =>
      && t == NSEC && InAuthority(v, n) && !Has(v, n, NSEC3)
      && if Has(v, n, NSEC) then c == NSEC_BITMAP_MISMATCH && !NSECListsTypes(v, n) else c == NSEC_MISSING
    case Some(p) =>
      var h := env.hash(n, p);
      && t == NSEC3 && NeedsHash(v, n)
      && if exists rr :: AtHash(v, h, rr) then
           c == NSEC3_BITMAP_MISMATCH && exists rr | AtHash(v, h, rr) ::
             Elements(rr.data.bitmap) != TypesOf(v, n) - {NSEC3}
         else c == if Delegated(v, n) && Has(v, n, DS) then NSEC3_OPTOUT_VIOLATION else NSEC3_MISSING
  }

  lemma TypesOfMean(v: StoreView, n: Name)
    requires NodesOk(v)
    ensures TypesOf(v, n) == SetsAt(v, n).Keys && (TypesOf(v, n) != {} <==> n in v.nodes)
    ensures forall t :: Has(v, n, t) <==> t in TypesOf(v, n)
  {
    hide NodesOk, RecordsOf;
    TypesMean(v, n);
    forall t ensures t in TypesOf(v, n) <==> t in SetsAt(v, n) { assert t in SetsAt(v, n) <==> Has(v, n, t); }
    if n in v.nodes {
      var t :| Has(v, n, t);
      assert t in TypesOf(v, n);
    } else {
      assert SetsAt(v, n).Keys == {};
    }
  }

  /** The first record of an RRset has the type it is filed under, in its own form. */
  lemma FirstMember(v: StoreView, n: Name, t: nat)
    requires NodesOk(v)
    ensures Has(v, n, t) <==> Members(v, n, t) != []
    ensures Members(v, n, t) != [] ==> var rr := Members(v, n, t)[0]; rr.name == n && rr.Type() == t && rr.Packs()
  {
    hide RecordsOf, Has;
    TypesMean(v, n);
    if t in SetsAt(v, n) {
      assert NodeOk(v.origin, n, v.nodes[n]);
      var first := SetsAt(v, n)[t].rdata[0];
      assert first in SetsAt(v, n)[t].rdata && Members(v, n, t)[0] == UnpackOne(SetsAt(v, n)[t].ttl, first);
    }
  }

  lemma ParamMeans(v: StoreView)
    requires NodesOk(v)
    ensures Param(v) == ApexParam(v)
    ensures Param(v).Some? ==> Param(v).value.data.NSEC3PARAMData?
  {
    hide NodesOk;
    FirstMember(v, v.origin, NSEC3PARAM);
  }

  lemma NSECMeans(v: StoreView, n: Name)
    requires NodesOk(v) && n in v.nodes
    ensures NSECCode(v, n) ==
            if !InAuthority(v, n) || Has(v, n, NSEC3) then None
            else if !Has(v, n, NSEC) then Some(NSEC_MISSING)
            else if !NSECListsTypes(v, n) then Some(NSEC_BITMAP_MISMATCH) else None
  {
    hide NodesOk, Authoritative, InAuthority, Has, TypesOf;
    AuthorityMeans(v, n);
    TypesMean(v, n);
    TypesOfMean(v, n);
    FirstMember(v, n, NSEC);
  }

  /** The hash index is what the records say. */
  ghost predicate HashesAgree(v: StoreView) {
    IndexIs(v.nsec3, NSEC3Entries(RecordsOf(v)))
  }

  lemma HashMeans(v: StoreView, h: Bytes)
    requires HashesAgree(v)
    ensures h in v.nsec3 <==> exists rr :: AtHash(v, h, rr)
    ensures forall rr | AtHash(v, h, rr) :: h in v.nsec3 && v.nsec3[h] == MakeNSEC3Rec(rr)
  {
    hide RecordsOf, NSEC3Key, MakeNSEC3Rec;
    forall rr | AtHash(v, h, rr) ensures h in v.nsec3 && v.nsec3[h] == MakeNSEC3Rec(rr) {
      assert (NSEC3Key(rr.name), MakeNSEC3Rec(rr)) in NSEC3Entries(RecordsOf(v));
    }
    if h in v.nsec3 {
      assert (h, v.nsec3[h]) in NSEC3Entries(RecordsOf(v));
      var rr :| rr in RecordsOf(v) && rr.data.NSEC3Data? && NSEC3Key(rr.name) == h;
      assert AtHash(v, h, rr);
    }
  }

  lemma NeedsMeans(v: StoreView, n: Name)
    requires NodesOk(v) && n in v.nodes
    ensures NeedsNSEC3(v, n) <==> NeedsHash(v, n)
  {
    hide NodesOk, Authoritative, InAuthority, Has, Delegated;
    AuthorityMeans(v, n);
    TypesMean(v, n);
  }

  lemma NSEC3Means(env: Env, v: StoreView, p: RR, n: Name, c: Code)
    requires NodesOk(v) && HashesAgree(v) && n in v.nodes
    ensures NSEC3Code(env, v, p, n) == Some(c) <==>
            var h := env.hash(n, p);
            && !LooksLikeHash(v, n) && NeedsHash(v, n)
            && if exists rr :: AtHash(v, h, rr) then
                 c == NSEC3_BITMAP_MISMATCH && exists rr | AtHash(v, h, rr) ::
                   Elements(rr.data.bitmap) != TypesOf(v, n) - {NSEC3}
               else c == if Delegated(v, n) && Has(v, n, DS) then NSEC3_OPTOUT_VIOLATION else NSEC3_MISSING
  {
    hide NodesOk, HashesAgree, NeedsNSEC3, NeedsHash, LooksLikeHash, IsNSEC3Owner, Has, Delegated, TypesOf, AtHash,
         NSEC3Key;
    var h := env.hash(n, p);
    HashedMeans(v, n);
    NeedsMeans(v, n);
    TypesMean(v, n);
    TypesOfMean(v, n);
    HashMeans(v, h);
    HashBitmaps(v, h);
  }

  lemma HashBitmaps(v: StoreView, h: Bytes)
    requires HashesAgree(v)
    ensures forall rr | AtHash(v, h, rr) ::
              h in v.nsec3 && rr.data.NSEC3Data? && v.nsec3[h].bitmap == rr.data.bitmap
  {
    hide RecordsOf, HashesAgree, NSEC3Key;
    HashMeans(v, h);
  }

  lemma DenialMeans(env: Env, v: StoreView, n: Name, t: nat, c: Code)
    requires NodesOk(v) && HashesAgree(v)
    ensures n in v.nodes && Key(c, n, t) in DenialKeys(env, v, n) <==> DenialFinding(env, v, n, t, c)
  {
    hide NodesOk, HashesAgree, NSECCode, NSEC3Code, InAuthority, LooksLikeHash, IsNSEC3Owner, Has, Delegated, TypesOf,
         NSECListsTypes, AtHash, NeedsHash, Param, ApexParam;
    TypesOfMean(v, n);
    ParamMeans(v);
    HashedMeans(v, n);
    if n in v.nodes {
      match Param(v) {
        case None => NSECMeans(v, n);
        case Some(p) => NSEC3Means(env, v, p, n, c);
      }
    }
  }

  // ---------------------------------------------------------------------------
  // Chain findings
  // ---------------------------------------------------------------------------

  ghost function NSECOwners(v: StoreView): set<Name> {
    set rr | rr in RecordsOf(v) && rr.Type() == NSEC :: rr.name
  }

  ghost function OwnerHashes(v: StoreView): set<Bytes> {
    set rr | rr in RecordsOf(v) && rr.data.NSEC3Data? :: NSEC3Key(rr.name)
  }

  /** The hash an NSEC3 record points at: its next field decoded, or as it is when it does not decode. */
  function PointsAt(rr: RR): Bytes
    requires rr.data.NSEC3Data?
  {
    MakeNSEC3Rec(rr).next
  }

  ghost predicate ChainFinding(v: StoreView, n: Name, t: nat, c: Code) {
    match ApexParam(v)
    case None =>
      && c == NSEC_CHAIN_BROKEN && t == NSEC && Members(v, n, NSEC) != [] && Members(v, n, NSEC)[0].data.NSECData?
      && !IsNextName(NSECOwners(v), n, Members(v, n, NSEC)[0].data.nextName)
    case Some(p) =>
      || (c == NSEC3_CHAIN_BROKEN && t == NSEC3 &&
          exists rr | rr in RecordsOf(v) && rr.data.NSEC3Data? && rr.name == n ::
            !IsNext(OwnerHashes(v), NSEC3Key(n), PointsAt(rr)))
      || (c == NSEC3PARAM_MISMATCH && t == NSEC3PARAM && n == v.origin && p.data.NSEC3PARAMData? &&
          exists rr | rr in RecordsOf(v) && rr.data.NSEC3Data? :: rr.data.iterations != p.data.paramIterations)
  }

  lemma OwnersMean(v: StoreView)
    requires NodesOk(v)
    ensures NSECNames(v) == NSECOwners(v)
  {
    hide NodesOk, RecordsOf;
    forall n ensures n in NSECNames(v) <==> n in NSECOwners(v) {
      TypesMean(v, n);
      assert n in NSECOwners(v) <==> Has(v, n, NSEC);
    }
  }

  lemma HashesMean(v: StoreView)
    requires HashesAgree(v)
    ensures v.nsec3.Keys == OwnerHashes(v)
  {
    hide HashesAgree, RecordsOf, NSEC3Key;
    forall h ensures h in v.nsec3 <==> h in OwnerHashes(v) {
      HashMeans(v, h);
      if h in OwnerHashes(v) {
        var rr :| rr in RecordsOf(v) && rr.data.NSEC3Data? && NSEC3Key(rr.name) == h;
        assert AtHash(v, h, rr);
      }
    }
  }

  lemma NSECChainMeans(v: StoreView, n: Name, t: nat, c: Code)
    requires NodesOk(v) && ApexParam(v).None?
    ensures Key(c, n, t) in NSECChainKeys(v, NSECNames(v)) <==> ChainFinding(v, n, t, c)
  {
    hide NodesOk, IsNextName, Has, NSECOwners, NSECNames;
    OwnersMean(v);
    FirstMember(v, n, NSEC);
    TypesMean(v, n);
    NSECOwner(v, n);
  }

  lemma NSECOwner(v: StoreView, n: Name)
    requires NodesOk(v)
    ensures n in NSECNames(v) <==> NSEC in SetsAt(v, n)
    ensures Has(v, n, NSEC) <==> NSEC in SetsAt(v, n)
  {
    hide RecordsOf, NodesOk;
    TypesMean(v, n);
  }

  lemma NSEC3ChainMeans(v: StoreView, p: RR, n: Name, t: nat, c: Code)
    requires NodesOk(v) && HashesAgree(v) && ApexParam(v) == Some(p) && p.data.NSEC3PARAMData?
    ensures Key(c, n, t) in NSEC3ChainKeys(v, p) <==> ChainFinding(v, n, t, c)
  {
    hide NodesOk, HashesAgree, IsNext, RecordsOf, NSEC3Key, MakeNSEC3Rec, OwnerHashes;
    HashesMean(v);
    AstrayMeans(v, n);
    DifferMeans(v, p);
    assert Key(c, n, t) in OwnersOf(v.nsec3, Broken(v.nsec3)) <==>
           c == NSEC3_CHAIN_BROKEN && t == NSEC3 &&
           Key(NSEC3_CHAIN_BROKEN, n, NSEC3) in OwnersOf(v.nsec3, Broken(v.nsec3));
  }

  lemma AstrayMeans(v: StoreView, n: Name)
    requires HashesAgree(v)
    ensures Key(NSEC3_CHAIN_BROKEN, n, NSEC3) in OwnersOf(v.nsec3, Broken(v.nsec3)) <==>
            exists rr | rr in RecordsOf(v) && rr.data.NSEC3Data? && rr.name == n ::
              !IsNext(OwnerHashes(v), NSEC3Key(n), PointsAt(rr))
  {
    hide IsNext, RecordsOf, NSEC3Key, OwnerHashes;
    HashesMean(v);
    if Key(NSEC3_CHAIN_BROKEN, n, NSEC3) in OwnersOf(v.nsec3, Broken(v.nsec3)) {
      var h :| h in Broken(v.nsec3) && h in v.nsec3 && v.nsec3[h].owner == n;
      HashMeans(v, h);
      var rr :| AtHash(v, h, rr);
      assert rr in RecordsOf(v) && rr.data.NSEC3Data? && rr.name == n;
    }
    if rr :| rr in RecordsOf(v) && rr.data.NSEC3Data? && rr.name == n &&
             !IsNext(OwnerHashes(v), NSEC3Key(n), PointsAt(rr)) {
      HashMeans(v, NSEC3Key(n));
      assert AtHash(v, NSEC3Key(n), rr);
      assert NSEC3Key(n) in Broken(v.nsec3);
    }
  }

  lemma DifferMeans(v: StoreView, p: RR)
    requires HashesAgree(v) && p.data.NSEC3PARAMData?
    ensures IterationsDiffer(v.nsec3, p) <==>
            exists rr | rr in RecordsOf(v) && rr.data.NSEC3Data? :: rr.data.iterations != p.data.paramIterations
  {
    hide RecordsOf, NSEC3Key, HashesAgree;
    if h :| h in v.nsec3 && v.nsec3[h].iterations != p.data.paramIterations {
      HashMeans(v, h);
      var rr :| AtHash(v, h, rr);
    }
    if rr :| rr in RecordsOf(v) && rr.data.NSEC3Data? && rr.data.iterations != p.data.paramIterations {
      HashMeans(v, NSEC3Key(rr.name));
      assert AtHash(v, NSEC3Key(rr.name), rr);
    }
  }

  lemma ChainMeans(v: StoreView, n: Name, t: nat, c: Code)
    requires NodesOk(v) && HashesAgree(v)
    ensures Key(c, n, t) in ChainKeys(v) <==> ChainFinding(v, n, t, c)
  {
    hide NodesOk, HashesAgree, Param, ApexParam, ChainFinding, NSECChainKeys, NSEC3ChainKeys, NSECNames;
    ParamMeans(v);
    match Param(v) {
      case None => NSECChainMeans(v, n, t, c);
      case Some(p) => NSEC3ChainMeans(v, p, n, t, c);
    }
  }

  // ---------------------------------------------------------------------------
  // Findings about the keys
  // ---------------------------------------------------------------------------

  /** How many DNSKEY records have this tag. */
  ghost function WithTag(v: StoreView, tag: nat): set<nat> {
    set i: nat | i < |Members(v, v.origin, DNSKEY)| && Members(v, v.origin, DNSKEY)[i].data.DNSKEYData? &&
      Members(v, v.origin, DNSKEY)[i].data.keyTag == tag
  }

  /** A key-signing key whose tag a signature over the keys names, and that verifies it. */
  ghost predicate SignedByKeySigner(env: Env, v: StoreView) {
    exists k, s | ApexKey(v, k) && Covers(v, v.origin, DNSKEY, s) :: SignsAsKeySigner(env, v, k, s)
  }

  predicate SignsAsKeySigner(env: Env, v: StoreView, k: RR, s: Signature) {
    && k.data.DNSKEYData? && k.data.keyFlags % 2 == 1 && k.data.keyTag == s.keyTag
    && env.verifies(v.origin, TTLOf(v, v.origin, DNSKEY), s, k, Members(v, v.origin, DNSKEY))
  }

  ghost predicate ApexFinding(env: Env, v: StoreView, n: Name, t: nat, c: Code) {
    && n == v.origin && t == DNSKEY
    && match c
       case KEYTAG_COLLISION_LIMIT => exists tag: nat :: |WithTag(v, tag)| > 3
       case DNSKEY_NOT_SIGNED_BY_KSK => !SignedByKeySigner(env, v)
       case _ => false
  }

  ghost function TaggedIn(keys: seq<CachedKey>, tag: nat): set<nat> {
    set i: nat | i < |keys| && keys[i].keyTag == tag
  }

  lemma {:induction false} TagCountIs(keys: seq<CachedKey>, tag: nat)
    ensures TagCount(keys, tag) == |TaggedIn(keys, tag)|
  {
    if keys == [] {
      assert TaggedIn(keys, tag) == {};
    } else {
      var init, last := keys[..|keys| - 1], |keys| - 1;
      TagCountIs(init, tag);
      assert TaggedIn(keys, tag) == TaggedIn(init, tag) + if keys[last].keyTag == tag then {last} else {};
    }
  }

  lemma {:induction false} KeysInPlace(rrs: seq<RR>)
    requires forall rr | rr in rrs :: rr.data.DNSKEYData?
    ensures KeyRecordsIn(rrs) == rrs && |KeysMade(rrs)| == |rrs|
    ensures forall i | 0 <= i < |rrs| :: rrs[i].data.DNSKEYData? && KeysMade(rrs)[i] == MakeKey(rrs[i])
  {
    if rrs != [] {
      var init, last := rrs[..|rrs| - 1], rrs[|rrs| - 1];
      assert rrs == init + [last];
      KeysInPlace(init);
      forall i | 0 <= i < |rrs| ensures rrs[i].data.DNSKEYData? && KeysMade(rrs)[i] == MakeKey(rrs[i]) {
        assert i < |init| ==> rrs[i] == init[i];
      }
    }
  }

  lemma KeyMembers(v: StoreView)
    requires NodesOk(v)
    ensures forall rr | rr in Members(v, v.origin, DNSKEY) :: rr.data.DNSKEYData?
    ensures KeyRecords(v) == Members(v, v.origin, DNSKEY)
  {
    hide Unpack;
    if DNSKEY in SetsAt(v, v.origin) {
      assert NodeOk(v.origin, v.origin, v.nodes[v.origin]);
      ReadsOwnType(v.origin, v.nodes[v.origin].sets, DNSKEY);
      forall rr | rr in Members(v, v.origin, DNSKEY) ensures rr.data.DNSKEYData? {
        Loading.PackedMembers(v, v.origin, DNSKEY, rr);
      }
      KeysInPlace(Members(v, v.origin, DNSKEY));
    }
  }

  lemma TagsMean(env: Env, v: StoreView, keys: seq<CachedKey>)
    requires NodesOk(v) && SignedWith(env, v, keys)
    ensures TagsCollide(keys) <==> exists tag: nat :: |WithTag(v, tag)| > 3
  {
    hide NodesOk, KeysMade, KeyRecordsIn, Members;
    KeyMembers(v);
    KeysInPlace(Members(v, v.origin, DNSKEY));
    forall tag: nat ensures TagCount(keys, tag) == |WithTag(v, tag)| {
      TagCountIs(keys, tag);
      assert TaggedIn(keys, tag) == WithTag(v, tag);
    }
    if tag: nat :| |WithTag(v, tag)| > 3 {
      var i :| i in WithTag(v, tag);
      assert keys[i] in keys;
    }
  }

  lemma KeySignerMeans(env: Env, v: StoreView, keys: seq<CachedKey>)
    requires NodesOk(v) && SignedWith(env, v, keys)
    ensures SignedByKSK(env, v.origin, SetsAt(v, v.origin), keys) <==> SignedByKeySigner(env, v)
  {
    hide NodesOk, ApexKey, SignedWith, Covers, SignaturesCovering, Unpack;
    KeysMean(env, v, keys);
    ApexKeyIsKey(v);
    HasApexKeys(env, v, keys);
    var sets := SetsAt(v, v.origin);
    forall s ensures s in SignaturesCovering(sets, DNSKEY) <==> Covers(v, v.origin, DNSKEY, s) {
      CoversMean(v, v.origin, DNSKEY, s);
    }
    if i: nat :| KSKUses(env, v.origin, sets, keys, i) {
      assert keys[i] in keys;
      var k :| ApexKey(v, k) && MakeKey(k) == keys[i];
      var s :| s in SignaturesCovering(sets, DNSKEY) && SignsKeys(env, v.origin, sets[DNSKEY], keys[i], s);
    }
    if k, s :| ApexKey(v, k) && Covers(v, v.origin, DNSKEY, s) && SignsAsKeySigner(env, v, k, s) {
      assert MakeKey(k) in keys;
      var i: nat :| i < |keys| && keys[i] == MakeKey(k);
      assert SignsKeys(env, v.origin, sets[DNSKEY], keys[i], s);
      assert KSKUses(env, v.origin, sets, keys, i);
    }
  }

  lemma HasApexKeys(env: Env, v: StoreView, keys: seq<CachedKey>)
    requires SignedWith(env, v, keys)
    ensures DNSKEY in SetsAt(v, v.origin) && v.origin in v.nodes
  {
  }

  lemma ApexMeans(env: Env, v: StoreView, keys: seq<CachedKey>, n: Name, t: nat, c: Code)
    requires NodesOk(v) && SignedWith(env, v, keys)
    ensures Key(c, n, t) in ApexKeys(env, v, keys) <==> ApexFinding(env, v, n, t, c)
  {
    hide NodesOk, SignedWith, TagsCollide, SignedByKSK, SignedByKeySigner, WithTag;
    TagsMean(env, v, keys);
    KeySignerMeans(env, v, keys);
  }

  // ---------------------------------------------------------------------------
  // All findings, and the verdict
  // ---------------------------------------------------------------------------

  /** What a full pass has to report on a signed zone. */
  ghost predicate Finding(env: Env, v: StoreView, n: Name, t: nat, c: Code) {
    || (t != RRSIG && t != NSEC3 && Has(v, n, t) && InAuthority(v, n) && SignatureFinding(env, v, n, t, c))
    || DenialFinding(env, v, n, t, c) || ChainFinding(v, n, t, c) || ApexFinding(env, v, n, t, c)
  }

  lemma RRSetMeans(env: Env, v: StoreView, keys: seq<CachedKey>, n: Name, t: nat, c: Code)
    requires NodesOk(v) && SignedWith(env, v, keys)
    ensures n in v.nodes && Key(c, n, t) in AuthorityKeys(env, v, keys, n) <==>
            t != RRSIG && t != NSEC3 && Has(v, n, t) && InAuthority(v, n) && SignatureFinding(env, v, n, t, c)
  {
    hide NodesOk, SignedWith, Has, InAuthority, Authoritative, SignatureFinding, ReportsCode;
    AuthorityMeans(v, n);
    TypesMean(v, n);
    if c !in CODES { OtherCodes(env, v, n, t, c); }
    if n in v.nodes {
      FiledTypes(v, n);
      SignatureKeysMember(env, keys, n, v.nodes[n], t, c);
      if t in v.nodes[n].sets && c in CODES { CodeMeans(env, v, keys, n, t, c); }
    } else {
      assert !Has(v, n, t);
    }
  }

  lemma SignatureKeysMember(env: Env, keys: seq<CachedKey>, n: Name, node: NodeView, t: nat, c: Code)
    requires forall u | u in node.sets :: node.sets[u].rtype == u
    ensures Key(c, n, t) in SignatureKeys(env, keys, n, node, node.sets.Keys) <==>
            t in node.sets && t != RRSIG && t != NSEC3 && c in CODES && ReportsCode(env, keys, n, node, node.sets[t], c)
  {
    hide ReportsCode;
    if t in node.sets && t != RRSIG && t != NSEC3 && c in CODES && ReportsCode(env, keys, n, node, node.sets[t], c) {
      assert Key(c, n, t) in RRSetKeys(env, keys, n, node, node.sets[t]);
    }
  }

  lemma FiledTypes(v: StoreView, n: Name)
    requires NodesOk(v) && n in v.nodes
    ensures forall t | t in v.nodes[n].sets :: v.nodes[n].sets[t].rtype == t
  {
    assert NodeOk(v.origin, n, v.nodes[n]);
  }

  lemma OtherCodes(env: Env, v: StoreView, n: Name, t: nat, c: Code)
    requires c !in CODES
    ensures !SignatureFinding(env, v, n, t, c)
  {
  }

  /** On a signed zone with usable keys, a full pass reports exactly these findings. */
  lemma FindingsMean(env: Env, v: StoreView, keys: seq<CachedKey>, n: Name, t: nat, c: Code)
    requires NodesOk(v) && HashesAgree(v) && SignedWith(env, v, keys)
    ensures Key(c, n, t) in FullKeys(env, v) <==> Finding(env, v, n, t, c)
  {
    hide NodesOk, HashesAgree, SignedWith, FullKeys, AuthorityKeys, DenialKeys, ChainKeys, ApexKeys, DenialFinding,
         ChainFinding, ApexFinding, SignatureFinding, Has, InAuthority;
    FullHas(env, v, keys, Key(c, n, t));
    RRSetMeans(env, v, keys, n, t, c);
    DenialMeans(env, v, n, t, c);
    ChainMeans(v, n, t, c);
    ApexMeans(env, v, keys, n, t, c);
  }

  /** A zone with its SOA and keys that all parse. */
  ghost predicate Keyed(env: Env, v: StoreView) {
    && Has(v, v.origin, SOA) && (exists k :: ApexKey(v, k))
    && forall k | ApexKey(v, k) :: env.parses(k)
  }

  lemma KeyedMeans(env: Env, v: StoreView)
    requires NodesOk(v)
    ensures SOA in SetsAt(v, v.origin) <==> Has(v, v.origin, SOA)
    ensures KeyRecords(v) != [] <==> exists k :: ApexKey(v, k)
    ensures CachedKeys(env, KeyRecords(v)).Some? <==> forall k | ApexKey(v, k) :: env.parses(k)
  {
    hide NodesOk, KeysMade, KeyRecords, Has, ApexKey;
    TypesMean(v, v.origin);
    ApexKeysAre(v);
    ApexKeyIsKey(v);
    if KeyRecords(v) != [] { assert KeyRecords(v)[0] in KeyRecords(v); }
  }

  /** The verdict on a zone with keys is valid exactly when all there is to report are the two warnings; a zone is
      unsigned when it has no keys. */
  lemma VerdictMeans(env: Env, v: StoreView)
    requires NodesOk(v) && HashesAgree(v)
    ensures FullOutcome(env, v).unsigned <==> Has(v, v.origin, SOA) && forall k :: !ApexKey(v, k)
    ensures FullOutcome(env, v).valid && !FullOutcome(env, v).unsigned <==>
            && Keyed(env, v)
            && forall n, t, c | Finding(env, v, n, t, c) :: c == RRSIG_TTL_MISMATCH || c == RRSIG_EXPIRING_SOON
  {
    hide NodesOk, HashesAgree, CachedKeys, KeyRecords, SignedZoneKeys, NoErrors, Has, ApexKey, Finding;
    KeyedMeans(env, v);
    if Keyed(env, v) {
      var keys := CachedKeys(env, KeyRecords(v)).value;
      forall n, t, c ensures Key(c, n, t) in SignedZoneKeys(env, v, keys) <==> Finding(env, v, n, t, c) {
        FindingsMean(env, v, keys, n, t, c);
      }
      WarningsOnly(env, v, SignedZoneKeys(env, v, keys));
    }
  }

  lemma FindingCodes(env: Env, v: StoreView, n: Name, t: nat, c: Code)
    requires Finding(env, v, n, t, c)
    ensures SeverityOf(c) == Warning <==> c == RRSIG_TTL_MISMATCH || c == RRSIG_EXPIRING_SOON
  {
    hide Has, InAuthority, Covers, NoKeyForAny, VerifiedByZoneKey, TypesOf, NSECListsTypes, LooksLikeHash, NeedsHash,
         ApexParam, IsNextName, IsNext, WithTag, SignedByKeySigner, Early, InPeriod;
  }

  lemma WarningsOnly(env: Env, v: StoreView, keys: set<Key>)
    requires forall n, t, c :: Key(c, n, t) in keys <==> Finding(env, v, n, t, c)
    ensures NoErrors(keys) <==>
            forall n, t, c | Finding(env, v, n, t, c) :: c == RRSIG_TTL_MISMATCH || c == RRSIG_EXPIRING_SOON
  {
    hide Finding;
    forall n, t, c | Finding(env, v, n, t, c)
      ensures SeverityOf(c) == Warning <==> c == RRSIG_TTL_MISMATCH || c == RRSIG_EXPIRING_SOON
    {
      FindingCodes(env, v, n, t, c);
    }
    forall k | k in keys ensures Finding(env, v, k.owner, k.rtype, k.code) {
      assert k == Key(k.code, k.owner, k.rtype);
    }
    if NoErrors(keys) {
      forall n, t, c | Finding(env, v, n, t, c) ensures c == RRSIG_TTL_MISMATCH || c == RRSIG_EXPIRING_SOON {
        assert Key(c, n, t) in keys;
      }
    }
  }

  /** The names whose NSEC3 was looked at, among these. */
  ghost function Denied(v: StoreView, names: set<Name>): set<Name> {
    set n | n in names && ApexParam(v).Some? && !LooksLikeHash(v, n)
  }

  lemma {:induction false} SumCounts(v: StoreView, names: set<Name>)
    requires NodesOk(v)
    ensures Sum(names, CountsAsNSEC3(v)) == |Denied(v, names)|
    decreases names
  {
    hide NodesOk, LooksLikeHash, ApexParam, Param, IsNSEC3Owner;
    if names == {} {
      assert Denied(v, names) == {};
    } else {
      var n :| n in names;
      SumTakes(names, CountsAsNSEC3(v), n);
      SumCounts(v, names - {n});
      ParamMeans(v);
      HashedMeans(v, n);
      assert Denied(v, names) == Denied(v, names - {n}) + Denied(v, {n});
      assert Denied(v, {n}) == if ApexParam(v).Some? && !LooksLikeHash(v, n) then {n} else {};
    }
  }

  /** A pass over a zone with keys counts the names whose NSEC3 it looked at. */
  lemma CountersMean(env: Env, v: StoreView)
    requires NodesOk(v) && Keyed(env, v)
    ensures FullOutcome(env, v).nsec3Checked == |Denied(v, v.nodes.Keys)|
  {
    hide NodesOk, CachedKeys, KeyRecords, Has, ApexKey, SignedZoneKeys, NoErrors;
    KeyedMeans(env, v);
    SumCounts(v, v.nodes.Keys);
  }

  // ---------------------------------------------------------------------------
  // What a valid verdict is worth
  // ---------------------------------------------------------------------------

  ghost predicate FoundValid(env: Env, v: StoreView) {
    FullOutcome(env, v).valid && !FullOutcome(env, v).unsigned
  }

  lemma NoSuchFinding(env: Env, v: StoreView, n: Name, t: nat, c: Code)
    requires NodesOk(v) && HashesAgree(v) && FoundValid(env, v)
    requires c != RRSIG_TTL_MISMATCH && c != RRSIG_EXPIRING_SOON
    ensures !Finding(env, v, n, t, c)
  {
    hide NodesOk, HashesAgree, FullOutcome, Finding;
    VerdictMeans(env, v);
  }

  /** In a zone found valid every RRset in authority that needs a signature has one that is in its period and that a
      zone key of the apex with its tag and algorithm verifies; and every signature there counts the labels right and
      is in its period. */
  lemma ValidMeansSigned(env: Env, v: StoreView, n: Name, t: nat)
    requires NodesOk(v) && HashesAgree(v) && FoundValid(env, v)
    requires t != RRSIG && t != NSEC3 && Has(v, n, t) && InAuthority(v, n)
    ensures !(Delegated(v, n) && t != DS && t != NSEC) || (exists s :: Covers(v, n, t, s)) ==>
              exists s | Covers(v, n, t, s) :: VerifiedByZoneKey(env, v, n, t, s)
    ensures forall s | Covers(v, n, t, s) :: s.labels == LabelCount(n) && InPeriod(env, s)
  {
    hide NodesOk, HashesAgree, FoundValid, Has, Delegated, InAuthority, Covers, VerifiedByZoneKey, LabelCount,
         DenialFinding, ChainFinding, ApexFinding, NoKeyForAny;
    NoSuchFinding(env, v, n, t, RRSIG_MISSING);
    NoSuchFinding(env, v, n, t, RRSIG_UNKNOWN_KEY);
    NoSuchFinding(env, v, n, t, RRSIG_INVALID);
    NoSuchFinding(env, v, n, t, RRSIG_LABELS_MISMATCH);
    NoSuchFinding(env, v, n, t, RRSIG_NOT_YET_VALID);
    NoSuchFinding(env, v, n, t, RRSIG_EXPIRED);
  }

  /** In an NSEC zone found valid every name in authority without NSEC3 records has an NSEC with exactly its types, and
      every NSEC points at the next owner. */
  lemma ValidMeansNSEC(env: Env, v: StoreView, n: Name)
    requires NodesOk(v) && HashesAgree(v) && FoundValid(env, v) && ApexParam(v).None?
    ensures TypesOf(v, n) != {} && InAuthority(v, n) && !LooksLikeHash(v, n) && !Has(v, n, NSEC3) ==>
              NSECListsTypes(v, n)
    ensures Has(v, n, NSEC) ==>
              && Members(v, n, NSEC)[0].data.NSECData?
              && IsNextName(NSECOwners(v), n, Members(v, n, NSEC)[0].data.nextName)
  {
    hide NodesOk, HashesAgree, FoundValid, TypesOf, InAuthority, LooksLikeHash, NSECListsTypes, Has, NSECOwners,
         IsNextName, Members, ApexParam, SignatureFinding, ApexFinding;
    NoSuchFinding(env, v, n, NSEC, NSEC_MISSING);
    NoSuchFinding(env, v, n, NSEC, NSEC_BITMAP_MISMATCH);
    NoSuchFinding(env, v, n, NSEC, NSEC_CHAIN_BROKEN);
    FirstMember(v, n, NSEC);
  }

  /** In an NSEC3 zone found valid every name that needs one has an NSEC3 under its hash with exactly its types, and
      every NSEC3 points at the next hash. */
  lemma ValidMeansNSEC3(env: Env, v: StoreView, p: RR)
    requires NodesOk(v) && HashesAgree(v) && FoundValid(env, v) && ApexParam(v) == Some(p)
    ensures forall n | TypesOf(v, n) != {} && NeedsHash(v, n) && !LooksLikeHash(v, n) ::
              && (exists rr :: AtHash(v, env.hash(n, p), rr))
              && forall rr | AtHash(v, env.hash(n, p), rr) :: Elements(rr.data.bitmap) == TypesOf(v, n) - {NSEC3}
    ensures forall rr | rr in RecordsOf(v) && rr.data.NSEC3Data? ::
              IsNext(OwnerHashes(v), NSEC3Key(rr.name), PointsAt(rr))
  {
    hide NodesOk, HashesAgree, FoundValid, TypesOf, NeedsHash, LooksLikeHash, AtHash, Has, Delegated, RecordsOf, IsNext,
         OwnerHashes, NSEC3Key, PointsAt, ApexParam, SignatureFinding, ApexFinding;
    AtHashIsNSEC3(v);
    forall n | TypesOf(v, n) != {} && NeedsHash(v, n) && !LooksLikeHash(v, n)
      ensures exists rr :: AtHash(v, env.hash(n, p), rr)
      ensures forall rr | AtHash(v, env.hash(n, p), rr) :: Elements(rr.data.bitmap) == TypesOf(v, n) - {NSEC3}
    {
      NoSuchFinding(env, v, n, NSEC3, NSEC3_MISSING);
      NoSuchFinding(env, v, n, NSEC3, NSEC3_OPTOUT_VIOLATION);
      NoSuchFinding(env, v, n, NSEC3, NSEC3_BITMAP_MISMATCH);
    }
    forall rr | rr in RecordsOf(v) && rr.data.NSEC3Data?
      ensures IsNext(OwnerHashes(v), NSEC3Key(rr.name), PointsAt(rr))
    {
      NoSuchFinding(env, v, rr.name, NSEC3, NSEC3_CHAIN_BROKEN);
    }
  }

  lemma AtHashIsNSEC3(v: StoreView)
    ensures forall h, rr | AtHash(v, h, rr) :: rr.data.NSEC3Data?
  {
  }
}

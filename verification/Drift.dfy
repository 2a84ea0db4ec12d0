/** Inputs on which indexes and incremental passes go wrong: each is a zone and a change the code accepts. */
module Drift {
  import opened Bytes
  import opened Names
  import opened Records
  import opened StoreSpec
  import opened Ring
  import opened Findings
  import opened Signatures
  import opened Verify
  import opened FullPass
  import opened Incremental
  import opened Refinement
  import opened WholePass
  import opened Xfr
  import opened Loading
  import opened Replication
  import Base32

  // ---------------------------------------------------------------------------
  // Small zones
  // ---------------------------------------------------------------------------

  function SOAAt(o: Name): RR {
    RR(o, CLASS_IN, 300, SOAData(1, []))
  }

  /** A zone-signing key. */
  function KeyAt(o: Name): RR {
    RR(o, CLASS_IN, 300, DNSKEYData(256, 13, 7, [1]))
  }

  function AddressAt(n: Name): RR {
    RR(n, CLASS_IN, 300, OtherData(A, [1]))
  }

  function ServerAt(n: Name): RR {
    RR(n, CLASS_IN, 300, OtherData(NS, [1]))
  }

  function NSECAt(n: Name, next: Name): RR {
    RR(n, CLASS_IN, 300, NSECData(next, []))
  }

  function NSEC3At(n: Name, flags: nat, next: Bytes): RR {
    RR(n, CLASS_IN, 300, NSEC3Data(flags, 0, [], next, []))
  }

  function ParamAt(o: Name): RR {
    RR(o, CLASS_IN, 300, NSEC3PARAMData(1, 0, []))
  }

  /** The label of the one-byte hash 7. */
  function Seven(): Bytes {
    Base32.Encoded([7])
  }

  function Load(o: Name, rrs: seq<RR>): StoreView {
    Steps(EmptyStore(o), Changes(rrs, [])).0
  }

  lemma LoadIsZone(o: Name, rrs: seq<RR>)
    requires Consistent(o, Elems(rrs)) && forall rr | rr in rrs :: Addable(rr)
    ensures IsZone(Load(o, rrs), o, Elems(rrs))
  {
    hide RecordsOf, Agree, Shape, Consistent, Steps;
    EmptyIsGood(o);
    assert Effect(RecordsOf(EmptyStore(o)), rrs, []) == Elems(rrs);
    BatchKeepsGood(EmptyStore(o), rrs, []);
  }

  /** One more record. */
  lemma OneMore(v: StoreView, o: Name, recs: set<RR>, rr: RR)
    requires IsZone(v, o, recs) && Addable(rr) && Consistent(o, recs + {rr})
    ensures Steps(v, [Add(rr)]) == (Steps(v, [Add(rr)]).0, true) && IsZone(Steps(v, [Add(rr)]).0, o, recs + {rr})
    ensures Applied(v, [Add(rr)]) && AddSpec(v, rr) == Some(Steps(v, [Add(rr)]).0)
  {
    hide RecordsOf, Good, Consistent;
    PackedAdds(v, rr);
    StepKeepsGood(v, Add(rr));
    var v' := AddSpec(v, rr).value;
    assert [Add(rr)][1..] == [];
    assert AdmissibleRun(v', []) && Steps(v', []) == (v', true);
  }

  /** The types at a name are those of its records. */
  lemma TypesAre(v: StoreView, o: Name, recs: set<RR>, n: Name)
    requires IsZone(v, o, recs)
    ensures forall t :: t in SetsAt(v, n) <==> exists rr | rr in recs :: rr.name == n && rr.Type() == t
    ensures n in v.nodes <==> exists rr | rr in recs :: rr.name == n
    ensures n in v.nodes ==> v.nodes[n].isDelegation == (n != o && NS in SetsAt(v, n))
  {
    hide RecordsOf, Agree, SerialAgrees, Consistent;
    RecordsAreStored(v);
    forall t ensures t in SetsAt(v, n) <==> exists rr | rr in recs :: rr.name == n && rr.Type() == t {
      if t in SetsAt(v, n) {
        assert NodeOk(v.origin, n, v.nodes[n]);
        var rr := SetsAt(v, n)[t].rdata[0];
        assert rr in SetsAt(v, n)[t].rdata && Stored(v, rr);
      }
      if rr :| rr in recs && rr.name == n && rr.Type() == t { assert Stored(v, rr); }
    }
    if n in v.nodes {
      assert NodeOk(v.origin, n, v.nodes[n]);
      var t :| t in v.nodes[n].sets;
    }
    if rr :| rr in recs && rr.name == n { assert Stored(v, rr); }
  }

  // ---------------------------------------------------------------------------
  // A removal that drops another record's index entry
  // ---------------------------------------------------------------------------

  /** Removing an NSEC3 that is not stored takes away the entry of the one that is, whose owner it shares. */
  lemma RemovalDropsForeignEntry(o: Name)
    ensures var n := [Seven()] + o;
            var v := Load(o, [NSEC3At(n, 0, Seven())]);
            var v' := RemoveSpec(v, NSEC3At(n, 1, Seven()));
            && Good(v) && v'.Some? && NSEC3At(n, 0, Seven()) in RecordsOf(v'.value)
            && v'.value.nsec3 == map[] && !Agree(v'.value)
  {
    hide RecordsOf, Agree, Shape, Steps, Base32.HashFromBase32, Base32.Encoded;
    var n := [Seven()] + o;
    var x, y := NSEC3At(n, 0, Seven()), NSEC3At(n, 1, Seven());
    Base32.DecodeOfEncode([7]);
    assert HashFromOwner(n) == Some([7]);
    var v := Load(o, [x]);
    LoadIsZone(o, [x]);
    assert Elems([x]) == {x};
    TypesAre(v, o, {x}, n);
    GoodNodes(v);
    UnloadOneRecord(v, y);
    assert SameEntry(x, y);
    RemoveKeepsAgreement(v, y);
    assert x in RecordsOf(v);
    OneIndexEntry(v, x);
  }

  lemma OneIndexEntry(v: StoreView, x: RR)
    requires Agree(v) && RecordsOf(v) == {x} && x.data.NSEC3Data?
    ensures v.nsec3 == map[NSEC3Key(x.name) := MakeNSEC3Rec(x)]
  {
    hide NSEC3Key, MakeNSEC3Rec, RecordsOf;
    var e := (NSEC3Key(x.name), MakeNSEC3Rec(x));
    assert e in NSEC3Entries({x});
    forall k | k in v.nsec3 ensures k == e.0 && v.nsec3[k] == e.1 { assert (k, v.nsec3[k]) in NSEC3Entries({x}); }
  }

  // ---------------------------------------------------------------------------
  // A new delegation above an untouched name
  // ---------------------------------------------------------------------------

  /** The zone: SOA, key, and an unsigned address two labels below the origin. */
  function Host(o: Name): Name {
    [[97]] + ([[98]] + o)
  }

  function WithHost(o: Name): seq<RR> {
    [SOAAt(o), KeyAt(o), AddressAt(Host(o))]
  }

  /** A delegation appears above the host; its missing signature stays reported although a full pass drops it. */
  lemma NewCutKeepsFinding(env: Env, o: Name)
    requires forall rr: RR :: env.parses(rr)
    ensures var v, cs := Load(o, WithHost(o)), [Add(ServerAt([[98]] + o))];
            var v', t := Steps(v, cs).0, TouchedBy(v, NOTHING, cs);
            && Applied(v, cs) && !Refines(env, v, cs)
            && Key(RRSIG_MISSING, Host(o), A) in IncrementalKeys(env, v', FullKeys(env, v), Some(t))
            && Key(RRSIG_MISSING, Host(o), A) !in FullKeys(env, v')
  {
    hide RecordsOf, Good, Steps, FullKeys, Refines, Applied, Consistent, KeyRecords, CachedKeys, Local,
         IncrementalKeys;
    var cut, host, ns := [[98]] + o, Host(o), ServerAt([[98]] + o);
    var base := {SOAAt(o), KeyAt(o), AddressAt(host)};
    var v := Load(o, WithHost(o));
    assert Elems(WithHost(o)) == base;
    HostZones(o);
    LoadIsZone(o, WithHost(o));
    OneMore(v, o, base, ns);
    var v' := Steps(v, [Add(ns)]).0;
    UsableZone(env, v, o, base);
    UsableZone(env, v', o, base + {ns});
    var keys := CachedKeys(env, KeyRecords(v)).value;
    var keys' := CachedKeys(env, KeyRecords(v')).value;
    HostIsReported(env, v, o, keys);
    HostIsNotReported(env, v', o, keys');
    OneTouched(v, ns);
    KeptFinding(env, v, v', keys, keys', cut, Key(RRSIG_MISSING, host, A));
    if Refines(env, v, [Add(ns)]) {
      IncrementalRefinesFull(env, v, [Add(ns)], FullKeys(env, v));
      LocalMember(IncrementalKeys(env, v', FullKeys(env, v), Some(TouchedBy(v, NOTHING, [Add(ns)]))), FullKeys(env, v'),
                  Key(RRSIG_MISSING, host, A));
    }
  }

  lemma HostZones(o: Name)
    ensures Consistent(o, Elems(WithHost(o))) && forall rr | rr in WithHost(o) :: Addable(rr)
    ensures Consistent(o, {SOAAt(o), KeyAt(o), AddressAt(Host(o))} + {ServerAt([[98]] + o)})
  {
    assert Elems(WithHost(o)) == {SOAAt(o), KeyAt(o), AddressAt(Host(o))};
  }

  lemma UsableZone(env: Env, v: StoreView, o: Name, recs: set<RR>)
    requires IsZone(v, o, recs) && SOAAt(o) in recs && KeyAt(o) in recs && forall rr: RR :: env.parses(rr)
    requires forall rr | rr in recs && rr.Type() == DNSKEY :: rr == KeyAt(o)
    ensures SOA in SetsAt(v, o) && Usable(env, v) && SignedWith(env, v, CachedKeys(env, KeyRecords(v)).value)
  {
    hide RecordsOf, Good, KeysMade;
    TypesAre(v, o, recs, o);
    assert SOAAt(o).Type() == SOA && KeyAt(o).Type() == DNSKEY;
    var rrs := Unpack(SetsAt(v, o)[DNSKEY]);
    KeySetReads(v, o, recs);
    assert rrs != [] && rrs[|rrs| - 1].data.DNSKEYData?;
  }

  lemma KeySetReads(v: StoreView, o: Name, recs: set<RR>)
    requires IsZone(v, o, recs) && DNSKEY in SetsAt(v, o)
    requires forall rr | rr in recs && rr.Type() == DNSKEY :: rr == KeyAt(o)
    ensures SetsAt(v, o)[DNSKEY].rdata != [] && forall rr | rr in Unpack(SetsAt(v, o)[DNSKEY]) :: rr.data.DNSKEYData?
  {
    hide RecordsOf, Agree;
    RecordsAreStored(v);
    assert NodeOk(v.origin, o, v.nodes[o]);
    forall rr | rr in SetsAt(v, o)[DNSKEY].rdata ensures rr == KeyAt(o) { assert Stored(v, rr); }
  }

  lemma HostIsReported(env: Env, v: StoreView, o: Name, keys: seq<CachedKey>)
    requires IsZone(v, o, {SOAAt(o), KeyAt(o), AddressAt(Host(o))})
    ensures Host(o) in v.nodes && Key(RRSIG_MISSING, Host(o), A) in NodeKeys(env, v, keys, Host(o))
  {
    hide RecordsOf, Good, DenialKeys;
    var host, recs := Host(o), {SOAAt(o), KeyAt(o), AddressAt(Host(o))};
    TypesAre(v, o, recs, host);
    assert AddressAt(host) in recs && AddressAt(host).Type() == A;
    forall n ensures n !in Cuts(v) { TypesAre(v, o, recs, n); }
    CutIsProperAncestor(Cuts(v), o, Parent(host));
    SetIsFiled(v, host, A);
    assert !exists rr | rr in recs :: rr.name == host && rr.Type() == RRSIG;
    var node := v.nodes[host];
    assert A in node.sets && RRSIG !in node.sets && NS !in node.sets;
    assert ReportsCode(env, keys, host, node, node.sets[A], RRSIG_MISSING);
    assert Key(RRSIG_MISSING, host, A) in RRSetKeys(env, keys, host, node, node.sets[A]);
    assert Key(RRSIG_MISSING, host, A) in SignatureKeys(env, keys, host, node, node.sets.Keys);
  }

  lemma SetIsFiled(v: StoreView, n: Name, t: nat)
    requires Good(v) && t in SetsAt(v, n)
    ensures SetsAt(v, n)[t].rtype == t
  {
    assert NodeOk(v.origin, n, v.nodes[n]);
  }

  lemma HostIsNotReported(env: Env, v: StoreView, o: Name, keys: seq<CachedKey>)
    requires IsZone(v, o, {SOAAt(o), KeyAt(o), AddressAt(Host(o))} + {ServerAt([[98]] + o)})
    ensures Host(o) in v.nodes ==> Key(RRSIG_MISSING, Host(o), A) !in NodeKeys(env, v, keys, Host(o))
  {
    hide RecordsOf, Good, SignatureKeys;
    var host, cut, recs := Host(o), [[98]] + o, {SOAAt(o), KeyAt(o), AddressAt(Host(o))} + {ServerAt([[98]] + o)};
    TypesAre(v, o, recs, cut);
    assert ServerAt(cut) in recs && ServerAt(cut).Type() == NS;
    assert |cut| == |o| + 1 && |host| == |o| + 2;
    assert cut in Cuts(v) && Parent(host) == cut;
    assert !Authoritative(v, host);
  }

  lemma OneTouched(v: StoreView, rr: RR)
    requires rr.Type() == NS || rr.Type() == NSEC
    ensures TouchedBy(v, NOTHING, [Add(rr)]).names == {rr.name} && TouchedBy(v, NOTHING, [Add(rr)]).nsec3 == {}
    ensures !Escalates(Some(TouchedBy(v, NOTHING, [Add(rr)])))
  {
    assert [Add(rr)][1..] == [];
  }

  /** A finding at an untouched name outlives an incremental pass, and a full pass has it only if the name does. */
  lemma KeptFinding(env: Env, v: StoreView, v': StoreView, keys: seq<CachedKey>, keys': seq<CachedKey>, touched: Name,
          k: Key)
    requires SignedWith(env, v, keys) && SignedWith(env, v', keys') && k.owner != touched && IsLocal(k)
    requires k.owner in v.nodes && k in NodeKeys(env, v, keys, k.owner)
    requires k.owner in v'.nodes ==> k !in NodeKeys(env, v', keys', k.owner)
    ensures k !in FullKeys(env, v')
    ensures forall t: Touched | t.names == {touched} && t.nsec3 == {} && !Escalates(Some(t)) ::
              k in IncrementalKeys(env, v', FullKeys(env, v), Some(t))
  {
    hide NodeKeys, KeyRecords, CachedKeys, FullKeys, Found;
    LocalOfFull(env, v, keys);
    LocalOfFull(env, v', keys');
    LocalOverIs(env, v, keys, v.nodes.Keys, k);
    LocalOverIs(env, v', keys', v'.nodes.Keys, k);
    assert k in FullKeys(env, v);
  }

  lemma LocalMember(a: set<Key>, b: set<Key>, k: Key)
    requires Local(a) == Local(b) && k in a && k !in b
    ensures !IsLocal(k)
  {
    assert k in Local(a) <==> IsLocal(k);
  }

  // ---------------------------------------------------------------------------
  // An NSEC3 whose owner does not decode
  // ---------------------------------------------------------------------------

  /** A closed ring of one record, to which an NSEC3 with an undecodable owner is added: the ring is closed no more,
      and the incremental pass says nothing. */
  lemma UndecodableOwnerSlipsThrough(env: Env, o: Name, keys: seq<CachedKey>)
    ensures var v := Load(o, [ParamAt(o), NSEC3At([Seven()] + o, 0, Seven())]);
            var cs := [Add(NSEC3At([[33]] + o, 0, Seven()))];
            var v', t := Steps(v, cs).0, TouchedBy(v, NOTHING, cs);
            && Good(v) && Closed(v.nsec3) && Steps(v, cs).1 && Param(v').Some?
            && ChainSilent(Found(env, v', keys, t)) && !Closed(v'.nsec3)
  {
    hide RecordsOf, Good, Steps, Found, Closed, Base32.HashFromBase32, Base32.Encoded, Param;
    var n, bad := [Seven()] + o, NSEC3At([[33]] + o, 0, Seven());
    var x, param := NSEC3At(n, 0, Seven()), ParamAt(o);
    Base32.DecodeOfEncode([7]);
    NotADigit();
    var v := Load(o, [param, x]);
    assert Elems([param, x]) == {param, x};
    LoadIsZone(o, [param, x]);
    OneRingEntry(v, o, param, x);
    AddOne(v, bad);
    var v' := AddSpec(v, bad).value;
    ParamIsThere(v, o, param, x);
    SameApex(v, bad);
    assert TouchedBy(v, NOTHING, [Add(bad)]).nsec3 == {} by { assert [Add(bad)][1..] == []; }
    FoundSilentIff(env, v', keys, TouchedBy(v, NOTHING, [Add(bad)]));
    RingOfOne(v.nsec3);
    JunkOpensRing(v'.nsec3);
  }

  lemma NotADigit()
    ensures Base32.HashFromBase32([33]) == None
  {
  }

  lemma AddOne(v: StoreView, rr: RR)
    requires Addable(rr)
    ensures AddSpec(v, rr).Some? && Steps(v, [Add(rr)]) == (AddSpec(v, rr).value, true)
  {
    hide AddSpec;
    PackedAdds(v, rr);
    assert [Add(rr)][1..] == [];
  }

  lemma OneRingEntry(v: StoreView, o: Name, param: RR, x: RR)
    requires IsZone(v, o, {param, x}) && param.data.NSEC3PARAMData? && x.data.NSEC3Data?
    ensures v.nsec3 == map[NSEC3Key(x.name) := MakeNSEC3Rec(x)]
  {
    hide NSEC3Key, MakeNSEC3Rec, RecordsOf, Shape, Consistent;
    var e := (NSEC3Key(x.name), MakeNSEC3Rec(x));
    assert x in {param, x} && e in NSEC3Entries({param, x});
    forall k | k in v.nsec3 ensures k == e.0 && v.nsec3[k] == e.1 {
      assert (k, v.nsec3[k]) in NSEC3Entries({param, x});
    }
  }

  lemma ParamIsThere(v: StoreView, o: Name, param: RR, x: RR)
    requires IsZone(v, o, {param, x}) && param == ParamAt(o) && x.data.NSEC3Data?
    ensures Param(v).Some?
  {
    hide RecordsOf, Good;
    TypesAre(v, o, {param, x}, o);
    assert param in {param, x} && param.Type() == NSEC3PARAM;
    FirstRecord(v, o, {param, x}, o, NSEC3PARAM);
  }

  lemma SameApex(v: StoreView, rr: RR)
    requires Addable(rr) && rr.name != v.origin && AddSpec(v, rr).Some?
    ensures Param(AddSpec(v, rr).value) == Param(v)
  {
    AddSteps(v, rr);
  }

  lemma RingOfOne(index: Index)
    requires index.Keys == {[7]} && index[[7]].next == [7]
    ensures Closed(index)
  {
    LessIrreflexive([7]);
  }

  lemma JunkOpensRing(index: Index)
    requires index.Keys == {[7], []} && index[[7]].next == [7]
    ensures !Closed(index)
  {
    var h: Bytes := [7];
    assert Less([], h) && !Less(h, []);
    LessIrreflexive(h);
    assert !IsMin(index.Keys, h);
    assert !IsNext(index.Keys, h, h);
  }

  // ---------------------------------------------------------------------------
  // The NSEC chain
  // ---------------------------------------------------------------------------

  /** A name is added to a zone with NSEC: the apex no longer points at the next owner, a full pass reports it, and the
      incremental pass does not. */
  lemma NSECChainSlipsThrough(env: Env, o: Name)
    requires forall rr: RR :: env.parses(rr)
    ensures var v, cs := Load(o, [SOAAt(o), KeyAt(o), NSECAt(o, o)]), [Add(NSECAt([[97]] + o, o))];
            var v', t := Steps(v, cs).0, TouchedBy(v, NOTHING, cs);
            && Applied(v, cs) && Key(NSEC_CHAIN_BROKEN, o, NSEC) in FullKeys(env, v')
            && Key(NSEC_CHAIN_BROKEN, o, NSEC) !in IncrementalKeys(env, v', FullKeys(env, v), Some(t))
  {
    hide RecordsOf, Good, Steps, FullKeys, Applied, Consistent, KeyRecords, CachedKeys, IncrementalKeys,
         NSECBroken;
    var n, key := [[97]] + o, Key(NSEC_CHAIN_BROKEN, o, NSEC);
    var rrs, rr := [SOAAt(o), KeyAt(o), NSECAt(o, o)], NSECAt(n, o);
    var base := {SOAAt(o), KeyAt(o), NSECAt(o, o)};
    assert Elems(rrs) == base;
    NSECZones(o);
    LoadIsZone(o, rrs);
    var v := Load(o, rrs);
    OneMore(v, o, base, rr);
    var v' := Steps(v, [Add(rr)]).0;
    UsableZone(env, v, o, base);
    UsableZone(env, v', o, base + {rr});
    OneTouched(v, rr);
    ApexPoints(v, o, base);
    ApexPoints(v', o, base + {rr});
    OneOwner(v, o);
    TwoOwners(v', o, n);
    NoParamThere(v, o, base);
    NoParamThere(v', o, base + {rr});
    GoodNodes(v);
    GoodNodes(v');
    ChainHas(env, v, CachedKeys(env, KeyRecords(v)).value, key);
    ChainHas(env, v', CachedKeys(env, KeyRecords(v')).value, key);
    NotFound(env, v', n, key, FullKeys(env, v));
  }

  lemma OneOwner(v: StoreView, o: Name)
    requires NSECNext(v, o) == Some(o) && forall n :: n in NSECNames(v) <==> n == o
    ensures !NSECBroken(v, o)
  {
    BeforeIsTotalOrder();
  }

  lemma TwoOwners(v: StoreView, o: Name, n: Name)
    requires NSECNext(v, o) == Some(o) && n in NSECNames(v) && n == [[97]] + o
    ensures NSECBroken(v, o)
  {
    assert IsSubdomain(n, o);
    AncestorFirst(n, o);
    BeforeIsTotalOrder();
  }

  lemma NSECZones(o: Name)
    ensures Consistent(o, Elems([SOAAt(o), KeyAt(o), NSECAt(o, o)]))
    ensures forall rr | rr in [SOAAt(o), KeyAt(o), NSECAt(o, o)] :: Addable(rr)
    ensures Consistent(o, {SOAAt(o), KeyAt(o), NSECAt(o, o)} + {NSECAt([[97]] + o, o)})
  {
    assert Elems([SOAAt(o), KeyAt(o), NSECAt(o, o)]) == {SOAAt(o), KeyAt(o), NSECAt(o, o)};
  }

  lemma ApexPoints(v: StoreView, o: Name, recs: set<RR>)
    requires IsZone(v, o, recs) && NSECAt(o, o) in recs
    requires forall rr | rr in recs && rr.Type() == NSEC && rr.name == o :: rr == NSECAt(o, o)
    ensures NSECNext(v, o) == Some(o)
    ensures forall n :: n in NSECNames(v) <==> exists rr | rr in recs :: rr.name == n && rr.Type() == NSEC
  {
    hide RecordsOf, Good;
    forall n ensures n in NSECNames(v) <==> exists rr | rr in recs :: rr.name == n && rr.Type() == NSEC {
      TypesAre(v, o, recs, n);
      assert n in NSECNames(v) <==> NSEC in SetsAt(v, n);
    }
    TypesAre(v, o, recs, o);
    assert NSECAt(o, o).Type() == NSEC;
    FirstRecord(v, o, recs, o, NSEC);
  }

  /** The first record of an RRset is a record of its name and type. */
  lemma FirstRecord(v: StoreView, o: Name, recs: set<RR>, n: Name, t: nat)
    requires IsZone(v, o, recs) && t in SetsAt(v, n)
    ensures SetsAt(v, n)[t].rdata != []
    ensures var first := SetsAt(v, n)[t].rdata[0]; first in recs && first.name == n && first.Type() == t
  {
    hide RecordsOf, Agree;
    RecordsAreStored(v);
    assert NodeOk(v.origin, n, v.nodes[n]);
    var first := SetsAt(v, n)[t].rdata[0];
    assert first in SetsAt(v, n)[t].rdata && Stored(v, first);
  }

  lemma NoParamThere(v: StoreView, o: Name, recs: set<RR>)
    requires IsZone(v, o, recs) && forall rr | rr in recs :: rr.Type() != NSEC3PARAM
    ensures Param(v).None?
  {
    hide RecordsOf, Good;
    TypesAre(v, o, recs, o);
  }

  /** What the pass never looks for is left only when it was there before, at an untouched name. */
  lemma NotFound(env: Env, v: StoreView, n: Name, k: Key, prev: set<Key>)
    requires Usable(env, v) && NodesOk(v) && (IsChain(k) || IsApex(k)) && (k !in prev || k.owner == n)
    ensures forall t: Touched | t.names == {n} && !Escalates(Some(t)) :: k !in IncrementalKeys(env, v, prev, Some(t))
  {
    hide Found;
    var keys := CachedKeys(env, KeyRecords(v)).value;
    forall t: Touched ensures k !in Found(env, v, keys, t) { FoundByKind(env, v, keys, t, k); }
  }

  // ---------------------------------------------------------------------------
  // A change at the apex, and an NSEC3 for a name nobody touched
  // ---------------------------------------------------------------------------

  /** A zone without a key-signing key: any change at the apex closes the finding about it, and a full pass still has
      it. */
  lemma TouchedApexDropsKeyFinding(env: Env, o: Name)
    requires forall rr: RR :: env.parses(rr)
    ensures var v, cs := Load(o, [SOAAt(o), KeyAt(o)]), [Add(ServerAt(o))];
            var v', t := Steps(v, cs).0, TouchedBy(v, NOTHING, cs);
            && Applied(v, cs) && Key(DNSKEY_NOT_SIGNED_BY_KSK, o, DNSKEY) in FullKeys(env, v')
            && Key(DNSKEY_NOT_SIGNED_BY_KSK, o, DNSKEY) !in IncrementalKeys(env, v', FullKeys(env, v), Some(t))
  {
    hide RecordsOf, Good, Steps, FullKeys, Applied, Consistent, KeyRecords, CachedKeys, IncrementalKeys;
    var rrs, rr, key := [SOAAt(o), KeyAt(o)], ServerAt(o), Key(DNSKEY_NOT_SIGNED_BY_KSK, o, DNSKEY);
    var base := {SOAAt(o), KeyAt(o)};
    assert Elems(rrs) == base;
    KeyZones(o);
    LoadIsZone(o, rrs);
    var v := Load(o, rrs);
    OneMore(v, o, base, rr);
    var v' := Steps(v, [Add(rr)]).0;
    UsableZone(env, v', o, base + {rr});
    OneTouched(v, rr);
    var keys := CachedKeys(env, KeyRecords(v')).value;
    GoodNodes(v');
    OnlyZoneKey(env, v', o, base + {rr}, keys);
    FullByKind(env, v', keys, key);
    NotFound(env, v', o, key, FullKeys(env, v));
  }

  lemma KeyZones(o: Name)
    ensures Consistent(o, Elems([SOAAt(o), KeyAt(o)])) && Consistent(o, {SOAAt(o), KeyAt(o)} + {ServerAt(o)})
    ensures forall rr | rr in [SOAAt(o), KeyAt(o)] :: Addable(rr)
  {
    assert Elems([SOAAt(o), KeyAt(o)]) == {SOAAt(o), KeyAt(o)};
  }

  /** Nothing is signed. */
  lemma OnlyZoneKey(env: Env, v: StoreView, o: Name, recs: set<RR>, keys: seq<CachedKey>)
    requires IsZone(v, o, recs) && KeyAt(o) in recs && SignedWith(env, v, keys)
    requires forall rr | rr in recs :: rr.Type() != RRSIG
    ensures Key(DNSKEY_NOT_SIGNED_BY_KSK, o, DNSKEY) in ApexKeys(env, v, keys)
  {
    hide RecordsOf, Good, TagsCollide, SignsKeys;
    TypesAre(v, o, recs, o);
    assert SignaturesCovering(SetsAt(v, o), DNSKEY) == [];
  }

  function BitmapAt(o: Name): RR {
    RR([Seven()] + o, CLASS_IN, 300, NSEC3Data(0, 0, [], Seven(), [SOA, DNSKEY, NSEC3PARAM]))
  }

  /** The missing NSEC3 of the origin is added under its hash: the finding stays, and a full pass drops it. The pass
      also reports that the new record is not signed, which a full pass does not. */
  lemma NewNSEC3KeepsFinding(env: Env, o: Name)
    requires (forall rr: RR :: env.parses(rr)) && env.hash(o, ParamAt(o)) == [7]
    ensures var v, cs := Load(o, [SOAAt(o), KeyAt(o), ParamAt(o)]), [Add(BitmapAt(o))];
            var v', t := Steps(v, cs).0, TouchedBy(v, NOTHING, cs);
            var found := IncrementalKeys(env, v', FullKeys(env, v), Some(t));
            && Applied(v, cs)
            && Key(NSEC3_MISSING, o, NSEC3) in found && Key(NSEC3_MISSING, o, NSEC3) !in FullKeys(env, v')
            && Key(RRSIG_MISSING, [Seven()] + o, NSEC3) in found
            && Key(RRSIG_MISSING, [Seven()] + o, NSEC3) !in FullKeys(env, v')
  {
    hide RecordsOf, Good, Steps, FullKeys, Applied, Consistent, KeyRecords, CachedKeys, IncrementalKeys,
         Base32.HashFromBase32, Base32.Encoded, Param, HashSignatureKeys, Usable, PresenceAt;
    var rrs, rr := [SOAAt(o), KeyAt(o), ParamAt(o)], BitmapAt(o);
    var base := {SOAAt(o), KeyAt(o), ParamAt(o)};
    Base32.DecodeOfEncode([7]);
    assert Elems(rrs) == base;
    HashedZones(o);
    LoadIsZone(o, rrs);
    var v := Load(o, rrs);
    OneMore(v, o, base, rr);
    var v' := Steps(v, [Add(rr)]).0;
    UsableZone(env, v, o, base);
    UsableZone(env, v', o, base + {rr});
    HashTouched(v, o);
    PresenceMissing(env, v, o, base);
    PresenceThere(env, v', o, base + {rr});
    UnsignedNSEC3(env, v', o, base + {rr}, CachedKeys(env, KeyRecords(v')).value);
    var t := TouchedBy(v, NOTHING, [Add(rr)]);
    OriginNotTouched(v', o, t);
    StaleFinding(env, v, v', o, t, Key(NSEC3_MISSING, o, NSEC3));
    NewFinding(env, v', t, [7], Key(RRSIG_MISSING, [Seven()] + o, NSEC3), FullKeys(env, v));
  }

  lemma OriginNotTouched(v: StoreView, o: Name, t: Touched)
    requires t.names == {[Seven()] + o} && t.nsec3 == {[7]} && v.nsec3.Keys == {[7]}
    requires v.nsec3[[7]].owner == [Seven()] + o
    ensures o !in Owners(v, t)
  {
    hide Base32.Encoded;
    assert |[Seven()] + o| == |o| + 1;
  }

  lemma HashedZones(o: Name)
    requires HashFromOwner([Seven()] + o) == Some([7])
    ensures Consistent(o, Elems([SOAAt(o), KeyAt(o), ParamAt(o)]))
    ensures forall rr | rr in [SOAAt(o), KeyAt(o), ParamAt(o)] :: Addable(rr)
    ensures Consistent(o, {SOAAt(o), KeyAt(o), ParamAt(o)} + {BitmapAt(o)}) && Addable(BitmapAt(o))
  {
    hide Base32.HashFromBase32, Base32.Encoded;
    assert Elems([SOAAt(o), KeyAt(o), ParamAt(o)]) == {SOAAt(o), KeyAt(o), ParamAt(o)};
  }

  lemma HashTouched(v: StoreView, o: Name)
    requires HashFromOwner([Seven()] + o) == Some([7])
    ensures var t := TouchedBy(v, NOTHING, [Add(BitmapAt(o))]);
            t.names == {[Seven()] + o} && t.nsec3 == {[7]} && !Escalates(Some(t))
  {
    hide Base32.HashFromBase32, Base32.Encoded;
    assert [Add(BitmapAt(o))][1..] == [];
    assert ([Seven()] + o) == BitmapAt(o).name;
  }

  lemma ParamIs(v: StoreView, o: Name, recs: set<RR>)
    requires IsZone(v, o, recs) && ParamAt(o) in recs
    requires forall rr | rr in recs && rr.Type() == NSEC3PARAM :: rr == ParamAt(o)
    ensures Param(v) == Some(ParamAt(o))
  {
    hide RecordsOf, Good;
    TypesAre(v, o, recs, o);
    assert ParamAt(o).Type() == NSEC3PARAM;
    FirstRecord(v, o, recs, o, NSEC3PARAM);
  }

  lemma PresenceMissing(env: Env, v: StoreView, o: Name, recs: set<RR>)
    requires IsZone(v, o, recs) && ParamAt(o) in recs && env.hash(o, ParamAt(o)) == [7]
    requires forall rr | rr in recs :: rr.Type() == SOA || rr.Type() == DNSKEY || rr == ParamAt(o)
    ensures PresenceAt(env, v, o) == Some(NSEC3_MISSING) && o in v.nodes
  {
    hide RecordsOf, Good, Param, IsNSEC3Owner;
    NotAnOwner(o);
    ParamIs(v, o, recs);
    TypesAre(v, o, recs, o);
    NoEntries(v, o, recs);
  }

  lemma NotAnOwner(o: Name)
    ensures !IsNSEC3Owner(o, o)
  {
  }

  lemma NoEntries(v: StoreView, o: Name, recs: set<RR>)
    requires IsZone(v, o, recs) && forall rr | rr in recs :: !rr.data.NSEC3Data?
    ensures v.nsec3 == map[]
  {
    hide RecordsOf, Shape, SerialAgrees, Consistent;
    assert NSEC3Entries(recs) == {};
  }

  lemma PresenceThere(env: Env, v: StoreView, o: Name, recs: set<RR>)
    requires IsZone(v, o, recs) && recs == {SOAAt(o), KeyAt(o), ParamAt(o)} + {BitmapAt(o)}
    requires env.hash(o, ParamAt(o)) == [7] && HashFromOwner([Seven()] + o) == Some([7])
    ensures PresenceAt(env, v, o) == None && v.nsec3.Keys == {[7]} && v.nsec3[[7]].owner == [Seven()] + o
    ensures Param(v).Some?
  {
    hide RecordsOf, Shape, SerialAgrees, Consistent, Param, Base32.HashFromBase32, Base32.Encoded;
    ParamIs(v, o, recs);
    TypesAre(v, o, recs, o);
    var e := (NSEC3Key(BitmapAt(o).name), MakeNSEC3Rec(BitmapAt(o)));
    assert BitmapAt(o) in recs && e in NSEC3Entries(recs);
    forall h | h in v.nsec3 ensures h == [7] { assert (h, v.nsec3[h]) in NSEC3Entries(recs); }
    assert SOAAt(o).Type() == SOA && KeyAt(o).Type() == DNSKEY && ParamAt(o).Type() == NSEC3PARAM;
    assert SetsAt(v, o).Keys == {SOA, DNSKEY, NSEC3PARAM};
  }

  lemma UnsignedNSEC3(env: Env, v: StoreView, o: Name, recs: set<RR>, keys: seq<CachedKey>)
    requires IsZone(v, o, recs) && recs == {SOAAt(o), KeyAt(o), ParamAt(o)} + {BitmapAt(o)}
    requires v.nsec3.Keys == {[7]} && v.nsec3[[7]].owner == [Seven()] + o
    ensures Key(RRSIG_MISSING, [Seven()] + o, NSEC3) in HashSignatureKeys(env, v, keys, [7])
  {
    hide RecordsOf, Good, Base32.Encoded;
    var n := [Seven()] + o;
    TypesAre(v, o, recs, n);
    assert BitmapAt(o) in recs && BitmapAt(o).Type() == NSEC3 && BitmapAt(o).name == n;
    SetIsFiled(v, n, NSEC3);
    assert SignaturesCovering(SetsAt(v, n), NSEC3) == [];
    assert ReportsCode(env, keys, n, v.nodes[n], SetsAt(v, n)[NSEC3], RRSIG_MISSING);
  }

  lemma StaleFinding(env: Env, v: StoreView, v': StoreView, o: Name, t: Touched, k: Key)
    requires Good(v) && Good(v') && Usable(env, v) && Usable(env, v') && v.origin == o && v'.origin == o
    requires SOA in SetsAt(v, o) && SOA in SetsAt(v', o) && IsPresence(k) && k.owner == o && k.rtype == NSEC3
    requires t.names != {} && o !in Owners(v', t) && !Escalates(Some(t))
    requires PresenceAt(env, v, o) == Some(k.code) && PresenceAt(env, v', o) == None
    ensures k in IncrementalKeys(env, v', FullKeys(env, v), Some(t)) && k !in FullKeys(env, v')
  {
    hide Good, FullKeys, Found, KeyRecords, CachedKeys, NodeKeys, PresenceAt, Owners;
    var keys, keys' := CachedKeys(env, KeyRecords(v)).value, CachedKeys(env, KeyRecords(v')).value;
    GoodNodes(v);
    GoodNodes(v');
    UsableIsSigned(env, v);
    UsableIsSigned(env, v');
    FullByKind(env, v, keys, k);
    FullByKind(env, v', keys', k);
    PresenceHas(env, v, keys, k);
    PresenceHas(env, v', keys', k);
    TouchedOwners(v', t);
  }

  lemma TouchedOwners(v: StoreView, t: Touched)
    ensures t.names <= Owners(v, t)
  {
  }

  lemma NewFinding(env: Env, v: StoreView, t: Touched, h: Bytes, k: Key, prev: set<Key>)
    requires Good(v) && Usable(env, v) && SOA in SetsAt(v, v.origin) && IsHashSignature(k) && Param(v).Some?
    requires h in t.nsec3 && !Escalates(Some(t))
    requires k in HashSignatureKeys(env, v, CachedKeys(env, KeyRecords(v)).value, h)
    ensures k in IncrementalKeys(env, v, prev, Some(t)) && k !in FullKeys(env, v)
  {
    hide Good, FullKeys, Found, KeyRecords, CachedKeys, HashSignatureKeys, Param;
    var keys := CachedKeys(env, KeyRecords(v)).value;
    GoodNodes(v);
    UsableIsSigned(env, v);
    FullByKind(env, v, keys, k);
    FoundByKind(env, v, keys, t, k);
  }
}

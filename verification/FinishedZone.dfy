/** A generated and signed zone whose digest was finalized: still valid, and accepted by the digest check. */
module FinishedZone {
  import opened Names
  import opened Records
  import opened StoreSpec
  import opened Signatures
  import opened FullPass
  import opened Generate
  import opened Xfr
  import opened Loading
  import opened Denial
  import opened ValidZone
  import opened Zonemd
  import opened Finalize

  // ---------------------------------------------------------------------------
  // One record replaced in the zone's list
  // ---------------------------------------------------------------------------

  /** The same digest record but for its digest. */
  ghost predicate SamePlace(was: RR, now: RR) {
    was.data.ZONEMDData? && now.data.ZONEMDData? && now.name == was.name && Addable(now)
  }

  function Redone(rrs: seq<RR>, was: RR, now: RR): (r: seq<RR>)
    ensures |r| == |rrs|
  {
    seq(|rrs|, i requires 0 <= i < |rrs| => if rrs[i] == was then now else rrs[i])
  }

  lemma RedoneMembers(rrs: seq<RR>, was: RR, now: RR)
    ensures forall x :: x in Redone(rrs, was, now) <==> (x == now && was in rrs) || (x in rrs && x != was)
  {
    var r := Redone(rrs, was, now);
    forall x ensures x in r <==> (x == now && was in rrs) || (x in rrs && x != was) {
      if x in r {
        var i :| 0 <= i < |r| && r[i] == x;
        assert rrs[i] in rrs;
      }
      if x == now && was in rrs {
        var i :| 0 <= i < |rrs| && rrs[i] == was;
        assert r[i] == x;
      }
      if x in rrs && x != was {
        var i :| 0 <= i < |rrs| && rrs[i] == x;
        assert r[i] == x;
      }
    }
  }

  lemma RedoneTypes(rrs: seq<RR>, was: RR, now: RR)
    requires SamePlace(was, now)
    ensures NamesOf(Redone(rrs, was, now)) == NamesOf(rrs)
    ensures forall n :: TypesAt(Redone(rrs, was, now), n) == TypesAt(rrs, n)
  {
    hide Redone;
    RedoneMembers(rrs, was, now);
    var r := Redone(rrs, was, now);
    assert now.name == was.name && now.Type() == was.Type();
    forall n ensures n in NamesOf(r) <==> n in NamesOf(rrs) {
      if rr :| rr in rrs && rr.name == n { assert rr in r || now in r; }
    }
    forall n, t ensures t in TypesAt(r, n) <==> t in TypesAt(rrs, n) {
      if rr :| rr in rrs && rr.name == n && rr.Type() == t { assert rr in r || now in r; }
    }
  }

  lemma RedoneCuts(rrs: seq<RR>, was: RR, now: RR)
    requires SamePlace(was, now)
    ensures CutsOf(Redone(rrs, was, now)) == CutsOf(rrs)
    ensures forall origin, n :: InChain(Redone(rrs, was, now), origin, n) <==> InChain(rrs, origin, n)
    ensures forall opt, n :: IsHashed(opt, Redone(rrs, was, now), n) <==> IsHashed(opt, rrs, n)
    ensures forall origin, n, t :: ShouldSign(origin, Redone(rrs, was, now), n, t) <==> ShouldSign(origin, rrs, n, t)
  {
    hide Redone, TypesAt, NamesOf;
    RedoneTypes(rrs, was, now);
  }

  /** The chains look only at types. */
  lemma RedoneNSEC3Chain(opt: Options, rrs: seq<RR>, names: seq<Name>, out: seq<RR>, was: RR, now: RR)
    requires SamePlace(was, now) && IsNSEC3Chain(opt, rrs, names, out)
    ensures IsNSEC3Chain(opt, Redone(rrs, was, now), names, out)
  {
    hide Redone, TypesAt, IsHashed, LabelsOrdered, NoDuplicates;
    RedoneTypes(rrs, was, now);
    RedoneCuts(rrs, was, now);
  }

  lemma RedoneNSECChain(opt: Options, rrs: seq<RR>, names: seq<Name>, out: seq<RR>, was: RR, now: RR)
    requires SamePlace(was, now) && IsNSECChain(opt, rrs, names, out)
    ensures IsNSECChain(opt, Redone(rrs, was, now), names, out)
  {
    hide Redone, TypesAt, InChain, SortedNames;
    RedoneTypes(rrs, was, now);
    RedoneCuts(rrs, was, now);
  }

  lemma RedoneInZone(origin: Name, rrs: seq<RR>, was: RR, now: RR)
    requires SamePlace(was, now) && InZone(origin, rrs) && was in rrs
    ensures InZone(origin, Redone(rrs, was, now))
  {
    hide Redone, Addable, IsSubdomain;
    RedoneMembers(rrs, was, now);
  }

  lemma RedoneConcat(rrs: seq<RR>, out: seq<RR>, was: RR, now: RR)
    requires was !in out
    ensures Redone(rrs + out, was, now) == Redone(rrs, was, now) + out
  {
    var r := Redone(rrs + out, was, now);
    forall i | 0 <= i < |r| ensures r[i] == (Redone(rrs, was, now) + out)[i] {
      if i >= |rrs| { assert out[i - |rrs|] in out; }
    }
  }

  lemma {:induction false} RedoneGroup(rrs: seq<RR>, was: RR, now: RR, n: Name, t: nat)
    requires SamePlace(was, now) && (n, t) != (was.name, ZONEMD)
    ensures Group(Redone(rrs, was, now), n, t) == Group(rrs, n, t)
  {
    if rrs != [] {
      var init := rrs[..|rrs| - 1];
      RedoneGroup(init, was, now, n, t);
      assert Redone(rrs, was, now)[..|rrs| - 1] == Redone(init, was, now);
    }
  }

  // ---------------------------------------------------------------------------
  // The signatures
  // ---------------------------------------------------------------------------

  predicate IsApexZoneSig(origin: Name, rr: RR) {
    IsZoneSig(rr) && rr.name == origin
  }

  function OtherSigs(origin: Name, sigs: seq<RR>): (r: seq<RR>)
    ensures forall x :: x in r <==> x in sigs && !IsApexZoneSig(origin, x)
  {
    if sigs == [] then []
    else
      assert sigs == [sigs[0]] + sigs[1..];
      (if IsApexZoneSig(origin, sigs[0]) then [] else [sigs[0]]) + OtherSigs(origin, sigs[1..])
  }

  /** The zone's list with the digest record and its signature replaced. */
  function Renewed(opt: Options, base: seq<RR>, all: seq<RR>, was: RR, now: RR, sig: RR): seq<RR>
    requires base <= all
  {
    Redone(base, was, now) + (OtherSigs(opt.origin, all[|base|..]) + [sig])
  }

  lemma OtherSignature(opt: Options, base: seq<RR>, was: RR, now: RR, n: Name, t: nat, rr: RR)
    requires SamePlace(was, now) && (n, t) != (was.name, ZONEMD)
    ensures IsSignature(opt, Redone(base, was, now), n, t, rr) <==> IsSignature(opt, base, n, t, rr)
  {
    hide Redone, Group;
    RedoneGroup(base, was, now, n, t);
  }

  lemma SignatureIsAt(opt: Options, base: seq<RR>, n: Name, t: nat, rr: RR)
    requires IsSignature(opt, base, n, t, rr)
    ensures rr.data.RRSIGData? && rr.name == n && rr.data.sig.covered == t
  {
  }

  /** It is signed like the list it came from. */
  lemma RenewedIsSigned(opt: Options, base: seq<RR>, all: seq<RR>, was: RR, now: RR, sig: RR)
    requires IsSigned(opt, base, all) && SamePlace(was, now) && was in base && was.name == opt.origin
    requires IsSignature(opt, Redone(base, was, now), opt.origin, ZONEMD, sig)
    ensures IsSigned(opt, Redone(base, was, now), Renewed(opt, base, all, was, now, sig))
  {
    hide Redone, ShouldSign, IsSignature, OtherSigs;
    var base', sigs, sigs' := Redone(base, was, now), all[|base|..], OtherSigs(opt.origin, all[|base|..]) + [sig];
    RedoneCuts(base, was, now);
    RedonePairs(base, was, now);
    DigestIsSigned(opt, base, was);
    assert Renewed(opt, base, all, was, now, sig)[|base'|..] == sigs';
    forall rr | rr in sigs'
      ensures exists n, t: nat :: ShouldSign(opt.origin, base', n, t) && IsSignature(opt, base', n, t, rr)
    {
      if rr == sig {
        assert ShouldSign(opt.origin, base', opt.origin, ZONEMD);
      } else {
        assert rr in sigs;
        var n, t: nat :| ShouldSign(opt.origin, base, n, t) && IsSignature(opt, base, n, t, rr);
        SignatureIsAt(opt, base, n, t, rr);
        OtherSignature(opt, base, was, now, n, t, rr);
      }
    }
    forall n, t: nat | (n, t) in Pairs(base') && ShouldSign(opt.origin, base', n, t)
      ensures exists rr | rr in sigs' :: IsSignature(opt, base', n, t, rr)
    {
      if (n, t) == (opt.origin, ZONEMD) {
        assert sig in sigs';
      } else {
        var rr :| rr in sigs && IsSignature(opt, base, n, t, rr);
        SignatureIsAt(opt, base, n, t, rr);
        OtherSignature(opt, base, was, now, n, t, rr);
        assert rr in sigs';
      }
    }
  }

  lemma RedonePairs(base: seq<RR>, was: RR, now: RR)
    requires SamePlace(was, now)
    ensures Pairs(Redone(base, was, now)) == Pairs(base)
  {
    hide Redone;
    RedoneMembers(base, was, now);
    assert now.name == was.name && now.Type() == was.Type() == ZONEMD;
    var r := Redone(base, was, now);
    forall p ensures p in Pairs(r) <==> p in Pairs(base) {
      if rr :| rr in base && rr.Type() != RRSIG && (rr.name, rr.Type()) == p { assert rr in r || now in r; }
    }
  }

  lemma DigestIsSigned(opt: Options, base: seq<RR>, was: RR)
    requires was in base && was.data.ZONEMDData? && was.name == opt.origin
    ensures ShouldSign(opt.origin, base, opt.origin, ZONEMD)
  {
    hide CutsOf, UnderCut;
    assert was.Type() == ZONEMD;
  }

  // ---------------------------------------------------------------------------
  // The store after finalizing
  // ---------------------------------------------------------------------------

  lemma {:induction false} ZoneSigsMembers(rrs: seq<RR>)
    ensures forall x :: x in ZoneSigsIn(rrs) <==> x in rrs && IsZoneSig(x)
  {
    if rrs != [] {
      ZoneSigsMembers(rrs[..|rrs| - 1]);
      assert rrs == rrs[..|rrs| - 1] + [rrs[|rrs| - 1]];
    }
  }

  /** The signatures over the digest record, as they are read, are those stored. */
  lemma ZoneSigsAre(v: StoreView)
    requires NodesOk(v) && forall rr | rr in RecordsOf(v) && IsApexZoneSig(v.origin, rr) :: rr.ttl != 0
    ensures forall rr :: rr in ZoneSigs(v) <==> rr in RecordsOf(v) && IsApexZoneSig(v.origin, rr)
  {
    hide RecordsOf, Unpack, IsZoneSig, UnpackOne;
    RecordsAreStored(v);
    if RRSIG in SetsAt(v, v.origin) {
      assert NodeOk(v.origin, v.origin, v.nodes[v.origin]);
      var set_ := SetsAt(v, v.origin)[RRSIG];
      ZoneSigsMembers(Unpack(set_));
      forall rr ensures rr in ZoneSigs(v) <==> rr in RecordsOf(v) && IsApexZoneSig(v.origin, rr) {
        ReadAsStored(v, set_, rr);
      }
    } else {
      forall rr | IsApexZoneSig(v.origin, rr) ensures rr !in RecordsOf(v) { ZoneSigType(rr); }
    }
  }

  lemma ReadAsStored(v: StoreView, set_: RRSet, rr: RR)
    requires WellFiled(v.origin, SetsAt(v, v.origin)) && RRSIG in SetsAt(v, v.origin)
    requires set_ == SetsAt(v, v.origin)[RRSIG]
    requires forall x :: x in RecordsOf(v) <==> Stored(v, x)
    requires forall x | x in RecordsOf(v) && IsApexZoneSig(v.origin, x) :: x.ttl != 0
    ensures rr in Unpack(set_) && IsZoneSig(rr) <==> rr in RecordsOf(v) && IsApexZoneSig(v.origin, rr)
  {
    hide RecordsOf, Unpack, IsZoneSig;
    ReadsAre(set_, rr);
    if IsZoneSig(rr) { ZoneSigType(rr); }
    forall x | x in set_.rdata && UnpackOne(set_.ttl, x) == rr && IsZoneSig(rr) ensures x == rr {
      ReadsKeepKind(set_.ttl, x);
      ZoneSigType(x);
      assert Stored(v, x);
    }
    if rr in set_.rdata && IsZoneSig(rr) {
      assert Stored(v, rr);
      assert UnpackOne(set_.ttl, rr) == rr;
    }
  }

  lemma {:induction false} OthersKeepIndex(v: StoreView, cs: seq<Change>)
    requires forall c | c in cs :: !c.rr.data.NSEC3Data?
    ensures Steps(v, cs).0.nsec3 == v.nsec3
    decreases |cs|
  {
    if cs != [] && Step(v, cs[0]).Some? {
      assert cs[0] in cs;
      match cs[0] {
        case Add(rr) => if rr.ClassAccepted() { AddSteps(v, rr); }
        case Remove(rr) => if rr.name in v.nodes { RemoveSteps(v, rr); }
      }
      OthersKeepIndex(Step(v, cs[0]).value, cs[1..]);
    }
  }

  /** Finalizing a store loaded from a signed list leaves the store loaded from the renewed list. */
  lemma FinalizedIsLoaded(d: Digester, opt: Options, base: seq<RR>, all: seq<RR>, v: StoreView, v': StoreView, was: RR,
          now: RR, sig: RR)
    requires SignedZone(opt, base, all, v) && ReadyForDigest(v, was) && was in base && was.ttl != 0
    requires Finalized(d, v, v', now, sig)
    ensures LoadedFrom(v', opt.origin, Renewed(opt, base, all, was, now, sig)) && SamePlace(was, now)
  {
    hide RecordsOf, Unpack, DigestIs, Steps, ZoneSigs, IsSigned, NodesOk, SteadySigs, IndexIs, NSEC3Entries, Redone,
         OtherSigs;
    var removes := ZoneSigs(v) + [was];
    SigTTLs(opt, base, all, v, was);
    ZoneSigsAre(v);
    forall rr | rr in removes ensures rr.Packs() && !rr.data.NSEC3Data? { if rr in ZoneSigs(v) { ZoneSigType(rr); } }
    ZoneSigType(sig);
    ChangesHaveEffect(v, [now, sig], removes);
    forall c | c in Changes([now, sig], removes) ensures !c.rr.data.NSEC3Data? {}
    OthersKeepIndex(v, Changes([now, sig], removes));
    RenewedElems(opt, base, all, v, was, now, sig);
    SameEntries(RecordsOf(v), [now, sig], removes);
  }

  lemma SameEntries(recs: set<RR>, adds: seq<RR>, removes: seq<RR>)
    requires forall rr | rr in adds + removes :: !rr.data.NSEC3Data?
    ensures NSEC3Entries(Effect(recs, adds, removes)) == NSEC3Entries(recs)
  {
    hide NSEC3Key, MakeNSEC3Rec;
    var after := Effect(recs, adds, removes);
    assert forall rr: RR | rr.data.NSEC3Data? :: rr in after <==> rr in recs;
  }

  /** Signatures over the digest record have its TTL. */
  lemma SigTTLs(opt: Options, base: seq<RR>, all: seq<RR>, v: StoreView, was: RR)
    requires SignedZone(opt, base, all, v) && ReadyForDigest(v, was) && was in base && was.ttl != 0
    ensures NodesOk(v) && forall rr | rr in RecordsOf(v) && IsApexZoneSig(v.origin, rr) :: rr.ttl != 0
  {
    hide RecordsOf, IsSigned, NodesOk, Unpack, DigestRecords, ShouldSign;
    forall rr | rr in RecordsOf(v) && IsApexZoneSig(v.origin, rr) ensures rr.ttl != 0 {
      SignatureRecord(opt, base, all, v, rr);
      OnlyDigest(opt, base, all, v, was);
      GroupHead(opt, base, rr);
    }
  }

  lemma GroupHead(opt: Options, base: seq<RR>, rr: RR)
    requires rr.data.RRSIGData? && IsSignature(opt, base, rr.name, rr.data.sig.covered, rr)
    ensures exists x | x in base :: x.name == rr.name && x.Type() == rr.data.sig.covered && x.ttl == rr.ttl
  {
    var g := Group(base, rr.name, rr.data.sig.covered);
    GroupIs(base, rr.name, rr.data.sig.covered);
    assert g[0] in g;
  }

  lemma OnlyDigest(opt: Options, base: seq<RR>, all: seq<RR>, v: StoreView, was: RR)
    requires SignedZone(opt, base, all, v) && ReadyForDigest(v, was)
    ensures forall x | x in base && x.name == v.origin && x.Type() == ZONEMD :: x == was
  {
    hide RecordsOf, SteadySigs, Unpack, SigsFor;
    RecordsAreStored(v);
    forall x | x in base && x.name == v.origin && x.Type() == ZONEMD ensures x == was {
      assert x in all && x in Elems(all);
      assert Stored(v, x);
    }
  }

  lemma RenewedElems(opt: Options, base: seq<RR>, all: seq<RR>, v: StoreView, was: RR, now: RR, sig: RR)
    requires SignedZone(opt, base, all, v) && was in base && was.data.ZONEMDData?
    requires forall rr :: rr in ZoneSigs(v) <==> rr in RecordsOf(v) && IsApexZoneSig(v.origin, rr)
    ensures Elems(Renewed(opt, base, all, was, now, sig)) == Effect(RecordsOf(v), [now, sig], ZoneSigs(v) + [was])
  {
    hide RecordsOf, SigsFor, HashIndexed, ZoneSigs, Redone, OtherSigs;
    RedoneMembers(base, was, now);
    var sigs, renewed := all[|base|..], Renewed(opt, base, all, was, now, sig);
    assert all == base + sigs;
    forall x ensures x in Elems(renewed) <==> x in Effect(RecordsOf(v), [now, sig], ZoneSigs(v) + [was]) {
      assert x in Elems(all) <==> x in base || x in sigs;
      if IsZoneSig(x) { ZoneSigType(x); }
      assert x in sigs ==> x.Type() == RRSIG by { if x in sigs { SigIsSig(opt, base, all, x); } }
    }
  }

  lemma SigIsSig(opt: Options, base: seq<RR>, all: seq<RR>, x: RR)
    requires IsSigned(opt, base, all) && x in all[|base|..]
    ensures x.Type() == RRSIG
  {
    hide ShouldSign, IsSignature;
    var n, t: nat :| ShouldSign(opt.origin, base, n, t) && IsSignature(opt, base, n, t, x);
    SignatureIsAt(opt, base, n, t, x);
  }

  // ---------------------------------------------------------------------------
  // Still valid
  // ---------------------------------------------------------------------------

  lemma RedoneKeys(env: Env, opt: Options, base: seq<RR>, was: RR, now: RR)
    requires SamePlace(was, now) && GoodKeys(env, opt, base)
    ensures GoodKeys(env, opt, Redone(base, was, now))
  {
    hide Redone, TypesAt;
    RedoneMembers(base, was, now);
    RedoneTypes(base, was, now);
    assert was.Type() == ZONEMD && now.Type() == ZONEMD;
  }

  /** A generated NSEC3 zone stays valid when its digest is finalized, and the digest check accepts it in every mode. */
  lemma FinishedNSEC3Zone(env: Env, d: Digester, opt: Options, rrs: seq<RR>, param: RData, names: seq<Name>,
          out: seq<RR>, all: seq<RR>, v: StoreView, v': StoreView, was: RR, now: RR, sig: RR, mode: Policy)
    requires IsNSEC3Zone(opt, rrs, param, names, out, all) && LoadedFrom(v, opt.origin, all) && Shape(v)
    requires forall n, rr: RR | rr.data == param :: env.hash(n, rr) == opt.hash(n)
    requires Tells(d) && ReadyForDigest(v, was) && was in rrs && was.ttl != 0 && Finalized(d, v, v', now, sig)
    requires |now.data.digest| == |was.data.digest|
    requires var base := Redone(rrs + out, was, now);
             && IsSignature(opt, base, opt.origin, ZONEMD, sig)
             && GoodKeys(env, opt, rrs + out) && SignsRight(env, opt, base) && InTime(env, opt)
    ensures NoErrors(FullKeys(env, v')) && FullOutcome(env, v').valid && !FullOutcome(env, v').unsigned
    ensures DigestKeys(d, v', mode) == {}
  {
    hide IsNSEC3Chain, GoodHash, IsSigned, LoadedFrom, SignsRight, GoodKeys, FullKeys, FullOutcome, Redone, InZone,
         Finalized, ReadyForDigest, Tells, Shape, DigestKeys, IsSignature, DigestOk;
    FinalizedIsAccepted(d, v, v', now, sig, was, mode);
    NSEC3sHaveNoSignature(opt, rrs, names, out);
    NoSignatureInZone(opt.origin, rrs);
    ReadyIsDigest(v, was);
    assert v.origin == opt.origin by { LoadedAt(v, opt.origin, all); }
    SignedStartsWith(opt, rrs + out, all);
    FinalizedIsLoaded(d, opt, rrs + out, all, v, v', was, now, sig);
    RenewedIsSigned(opt, rrs + out, all, was, now, sig);
    RedoneConcat(rrs, out, was, now);
    RedoneInZone(opt.origin, rrs, was, now);
    RedoneNSEC3Chain(opt, rrs, names, out, was, now);
    RedoneHash(opt, rrs, was, now);
    RedoneParam(opt, rrs, param, was, now);
    RedoneKeys(env, opt, rrs + out, was, now);
    NSEC3ZoneIsValid(env, opt, Redone(rrs, was, now), param, names, out,
                     Renewed(opt, rrs + out, all, was, now, sig), v');
  }

  lemma SignedStartsWith(opt: Options, base: seq<RR>, all: seq<RR>)
    requires IsSigned(opt, base, all)
    ensures base <= all
  {
  }

  lemma NSEC3sHaveNoSignature(opt: Options, rrs: seq<RR>, names: seq<Name>, out: seq<RR>)
    requires IsNSEC3Chain(opt, rrs, names, out)
    ensures forall rr | rr in out :: rr.Type() == NSEC3
  {
    forall rr | rr in out ensures rr.Type() == NSEC3 { var i := NSEC3sOf(opt, rrs, names, out, rr); }
  }

  lemma NoSignatureInZone(origin: Name, rrs: seq<RR>)
    requires InZone(origin, rrs)
    ensures forall rr | rr in rrs :: rr.Type() != RRSIG
  {
  }

  lemma ReadyIsDigest(v: StoreView, was: RR)
    requires ReadyForDigest(v, was)
    ensures was.data.ZONEMDData? && was.name == v.origin && was.Type() == ZONEMD
  {
  }

  lemma LoadedAt(v: StoreView, origin: Name, rrs: seq<RR>)
    requires LoadedFrom(v, origin, rrs)
    ensures v.origin == origin
  {
  }

  lemma RedoneHash(opt: Options, rrs: seq<RR>, was: RR, now: RR)
    requires SamePlace(was, now) && GoodHash(opt, rrs)
    ensures GoodHash(opt, Redone(rrs, was, now))
  {
    hide IsHashed, Redone;
    RedoneCuts(rrs, was, now);
  }

  lemma RedoneParam(opt: Options, rrs: seq<RR>, param: RData, was: RR, now: RR)
    requires SamePlace(was, now) && GoodParam(opt, rrs, param)
    ensures GoodParam(opt, Redone(rrs, was, now), param)
  {
    hide Redone;
    RedoneMembers(rrs, was, now);
    assert was.Type() == ZONEMD && now.Type() == ZONEMD;
    var rr :| rr in rrs && rr.Type() == NSEC3PARAM;
    assert rr in Redone(rrs, was, now);
  }

  /** So does a generated NSEC zone. */
  lemma FinishedNSECZone(env: Env, d: Digester, opt: Options, rrs: seq<RR>, names: seq<Name>, out: seq<RR>,
          all: seq<RR>, v: StoreView, v': StoreView, was: RR, now: RR, sig: RR, mode: Policy)
    requires IsNSECZone(opt, rrs, names, out, all) && LoadedFrom(v, opt.origin, all) && Shape(v)
    requires Tells(d) && ReadyForDigest(v, was) && was in rrs && was.ttl != 0 && Finalized(d, v, v', now, sig)
    requires |now.data.digest| == |was.data.digest|
    requires var base := Redone(rrs + out, was, now);
             && IsSignature(opt, base, opt.origin, ZONEMD, sig)
             && GoodKeys(env, opt, rrs + out) && SignsRight(env, opt, base) && InTime(env, opt)
    ensures NoErrors(FullKeys(env, v')) && FullOutcome(env, v').valid && !FullOutcome(env, v').unsigned
    ensures DigestKeys(d, v', mode) == {}
  {
    hide IsNSECChain, IsSigned, LoadedFrom, SignsRight, GoodKeys, FullKeys, FullOutcome, Redone, InZone,
         Finalized, ReadyForDigest, Tells, Shape, DigestKeys, IsSignature, DigestOk;
    FinalizedIsAccepted(d, v, v', now, sig, was, mode);
    NSECsHaveNoSignature(opt, rrs, names, out);
    NoSignatureInZone(opt.origin, rrs);
    ReadyIsDigest(v, was);
    assert v.origin == opt.origin by { LoadedAt(v, opt.origin, all); }
    SignedStartsWith(opt, rrs + out, all);
    FinalizedIsLoaded(d, opt, rrs + out, all, v, v', was, now, sig);
    RenewedIsSigned(opt, rrs + out, all, was, now, sig);
    RedoneConcat(rrs, out, was, now);
    RedoneInZone(opt.origin, rrs, was, now);
    RedoneNSECChain(opt, rrs, names, out, was, now);
    RedoneMembers(rrs, was, now);
    RedoneKeys(env, opt, rrs + out, was, now);
    NSECZoneIsValid(env, opt, Redone(rrs, was, now), names, out, Renewed(opt, rrs + out, all, was, now, sig), v');
  }

  lemma NSECsHaveNoSignature(opt: Options, rrs: seq<RR>, names: seq<Name>, out: seq<RR>)
    requires IsNSECChain(opt, rrs, names, out)
    ensures forall rr | rr in out :: rr.Type() == NSEC
  {
    forall rr | rr in out ensures rr.Type() == NSEC { var i := NSECsAre(opt, rrs, names, out, rr); }
  }
}

/** Replication of zones that mix TTL zero with other TTLs in one RRset: what a reader of the records sees. */
module AsRead {
  import opened Bytes
  import opened Names
  import opened Records
  import opened StoreSpec
  import opened Xfr
  import opened PrimaryServer
  import opened Loading
  import opened Replication
  import opened OutOfSync

  // ---------------------------------------------------------------------------
  // The TTLs of RRsets
  // ---------------------------------------------------------------------------

  /** An RRset stands for TTL zero only when all its records have it. */
  predicate Settled(set_: RRSet) {
    set_.ttl == 0 ==> forall rr | rr in set_.rdata :: rr.ttl == 0
  }

  /** An RRset has the TTL of one of its records. */
  predicate OwnTTL(set_: RRSet) {
    exists rr | rr in set_.rdata :: rr.ttl == set_.ttl
  }

  ghost predicate AllSettled(v: StoreView) {
    forall n, t | t in SetsAt(v, n) :: Settled(SetsAt(v, n)[t])
  }

  ghost predicate AllOwnTTL(v: StoreView) {
    forall n, t | t in SetsAt(v, n) :: OwnTTL(SetsAt(v, n)[t])
  }

  lemma {:induction false} FewerRecords(s: seq<RR>, x: RR)
    ensures forall y | y in RemoveFirst(s, x) :: y in s
  {
    if s != [] && s[0] != x { FewerRecords(s[1..], x); }
  }

  /** Every run of changes from an empty store keeps RRsets settled. */
  lemma {:induction false} RunKeepsSettled(v: StoreView, cs: seq<Change>)
    requires AllSettled(v)
    ensures AllSettled(Steps(v, cs).0)
    decreases |cs|
  {
    hide AddSpec, RemoveSpec, AllSettled;
    if cs != [] && Step(v, cs[0]).Some? {
      match cs[0] {
        case Add(rr) => AddKeepsTTLs(v, rr);
        case Remove(rr) => RemoveKeepsSettled(v, rr);
      }
      RunKeepsSettled(Step(v, cs[0]).value, cs[1..]);
    }
  }

  lemma AddKeepsTTLs(v: StoreView, rr: RR)
    requires AddSpec(v, rr).Some?
    ensures AllSettled(v) ==> AllSettled(AddSpec(v, rr).value)
    ensures AllOwnTTL(v) ==> AllOwnTTL(AddSpec(v, rr).value)
  {
    hide AddSpec, Settled, OwnTTL;
    if rr.ClassAccepted() {
      AddSteps(v, rr);
      FiledTTL(SetsAt(v, rr.name), rr);
      var v' := AddSpec(v, rr).value;
      forall n, t | t in SetsAt(v', n)
        ensures AllSettled(v) ==> Settled(SetsAt(v', n)[t])
        ensures AllOwnTTL(v) ==> OwnTTL(SetsAt(v', n)[t])
      {
        if n != rr.name || t != rr.Type() { assert t in SetsAt(v, n) && SetsAt(v', n)[t] == SetsAt(v, n)[t]; }
      }
    } else {
      assert AddSpec(v, rr) == Some(v) by { ForeignClass(v, rr); }
    }
  }

  lemma ForeignClass(v: StoreView, rr: RR)
    requires !rr.ClassAccepted()
    ensures AddSpec(v, rr) == Some(v)
  {
  }

  lemma FiledTTL(sets: Sets, rr: RR)
    ensures var sets' := AddToSets(sets, rr);
            && sets'.Keys == sets.Keys + {rr.Type()} && (forall t | t in sets && t != rr.Type() :: sets'[t] == sets[t])
            && ((rr.Type() in sets ==> Settled(sets[rr.Type()])) ==> Settled(sets'[rr.Type()]))
            && ((rr.Type() in sets ==> OwnTTL(sets[rr.Type()])) ==> OwnTTL(sets'[rr.Type()]))
  {
    var t := rr.Type();
    if t in sets && OwnTTL(sets[t]) {
      var x :| x in sets[t].rdata && x.ttl == sets[t].ttl;
      assert x in AddToSets(sets, rr)[t].rdata && rr in AddToSets(sets, rr)[t].rdata;
    }
  }

  lemma RemoveKeepsSettled(v: StoreView, rr: RR)
    requires AllSettled(v) && RemoveSpec(v, rr).Some?
    ensures AllSettled(RemoveSpec(v, rr).value)
  {
    hide RemoveSpec;
    if rr.name in v.nodes {
      RemoveSteps(v, rr);
      TakenOutTTL(SetsAt(v, rr.name), rr);
      var v' := RemoveSpec(v, rr).value;
      forall n, t | t in SetsAt(v', n) ensures Settled(SetsAt(v', n)[t]) { assert Settled(SetsAt(v, n)[t]); }
    } else {
      assert RemoveSpec(v, rr) == Some(v) by { NoSuchNode(v, rr); }
    }
  }

  lemma NoSuchNode(v: StoreView, rr: RR)
    requires rr.name !in v.nodes
    ensures RemoveSpec(v, rr) == Some(v)
  {
  }

  /** Taking a record out leaves the TTL of every RRset that stays. */
  lemma TakenOutTTL(sets: Sets, rr: RR)
    ensures var sets' := RemoveFromSets(sets, rr);
            && sets'.Keys <= sets.Keys
            && forall t | t in sets' ::
                 sets'[t].ttl == sets[t].ttl && forall x | x in sets'[t].rdata :: x in sets[t].rdata
  {
    if Holds(sets, rr) { FewerRecords(sets[rr.Type()].rdata, rr); }
  }

  lemma {:induction false} LoadsOwnTTL(v: StoreView, adds: seq<RR>)
    requires AllOwnTTL(v)
    ensures AllOwnTTL(Steps(v, Changes(adds, [])).0)
    decreases |adds|
  {
    hide AddSpec, AllOwnTTL;
    if adds == [] {
      assert Changes(adds, []) == [];
    } else {
      AddFirstOf(adds);
      if AddSpec(v, adds[0]).Some? {
        AddKeepsTTLs(v, adds[0]);
        LoadsOwnTTL(AddSpec(v, adds[0]).value, adds[1..]);
      }
    }
  }

  // ---------------------------------------------------------------------------
  // A full transfer
  // ---------------------------------------------------------------------------

  /** A stored record as it is read. */
  function ReadAs(v: StoreView, x: RR): RR
    requires x.Type() in SetsAt(v, x.name)
  {
    UnpackOne(SetsAt(v, x.name)[x.Type()].ttl, x)
  }

  lemma UnpackedIs(v: StoreView, rr: RR)
    requires NodesOk(v)
    ensures forall x | x in RecordsOf(v) :: x.Type() in SetsAt(v, x.name)
    ensures rr in UnpackedOf(v) <==> exists x | x in RecordsOf(v) :: ReadAs(v, x) == rr
  {
    hide UnpackedOf, RecordsOf, UnpackOne, NodesOk, Unpack;
    RecordsAreStored(v);
    if rr in UnpackedOf(v) {
      var x := ReadFrom(v, rr);
      assert ReadAs(v, x) == rr;
    }
    if x :| x in RecordsOf(v) && ReadAs(v, x) == rr { StoredIsRead(v, x); }
  }

  lemma StoredIsRead(v: StoreView, x: RR)
    requires Stored(v, x)
    ensures ReadAs(v, x) in UnpackedOf(v)
  {
    var set_ := SetsAt(v, x.name)[x.Type()];
    var i :| 0 <= i < |set_.rdata| && set_.rdata[i] == x;
    assert Unpack(set_)[i] == ReadAs(v, x) && ReadAs(v, x) in Unpack(set_);
  }

  /** The records of one RRset are read with TTL zero all or none. */
  lemma ReadAlike(v: StoreView, a: RR, b: RR)
    requires NodesOk(v) && AllSettled(v) && a in UnpackedOf(v) && b in UnpackedOf(v)
    requires a.name == b.name && a.Type() == b.Type()
    ensures a.ttl == 0 <==> b.ttl == 0
  {
    hide UnpackedOf, RecordsOf, NodesOk;
    var x := ReadFrom(v, a);
    var y := ReadFrom(v, b);
    RecordsAreStored(v);
    assert Stored(v, x) && Stored(v, y);
    assert Settled(SetsAt(v, x.name)[x.Type()]);
  }

  /** Filing the records read from a zone gives a store that reads as they do, and reads as it stores. */
  lemma LoadedReadsAlike(p: StoreView, rrs: seq<RR>)
    requires NodesOk(p) && AllSettled(p) && Elems(rrs) == UnpackedOf(p)
    ensures var s := Steps(EmptyStore(p.origin), Changes(rrs, []));
            s.1 && NodesOk(s.0) && UnpackedOf(s.0) == UnpackedOf(p) && RecordsOf(s.0) == UnpackedOf(p) && Unmixed(s.0)
  {
    hide NodesOk, UnpackedOf, RecordsOf, Steps, Unmixed, AllSettled, AllOwnTTL, Addable;
    var o := EmptyStore(p.origin);
    UnpackedAddable(p);
    forall rr | rr in rrs ensures Addable(rr) { assert rr in Elems(rrs); }
    EmptyIsGood(p.origin);
    GoodNodes(o);
    LoadsRecords(o, rrs);
    assert {} + Elems(rrs) == Elems(rrs);
    assert AllOwnTTL(o) by { NoSets(p.origin); }
    LoadsOwnTTL(o, rrs);
    var s := Steps(o, Changes(rrs, [])).0;
    AlikeIsUnmixed(p, s);
    ReadsRecordsIff(s);
  }

  lemma NoSets(origin: Name)
    ensures AllOwnTTL(EmptyStore(origin)) && AllSettled(EmptyStore(origin))
  {
  }

  lemma AlikeIsUnmixed(p: StoreView, s: StoreView)
    requires NodesOk(p) && AllSettled(p) && NodesOk(s) && AllOwnTTL(s) && RecordsOf(s) == UnpackedOf(p)
    ensures Unmixed(s)
  {
    hide UnpackedOf, RecordsOf, AllSettled, OwnTTL;
    RecordsAreStored(s);
    forall n, t | n in s.nodes && t in s.nodes[n].sets
      ensures Unpack(s.nodes[n].sets[t]) == s.nodes[n].sets[t].rdata
    {
      var set_ := SetsAt(s, n)[t];
      assert OwnTTL(set_) && NodeOk(s.origin, n, s.nodes[n]);
      var x := TTLOwner(set_);
      assert Stored(s, x);
      forall rr | rr in set_.rdata ensures UnpackOne(set_.ttl, rr) == rr {
        assert Stored(s, rr);
        ReadAlike(p, x, rr);
      }
    }
  }

  lemma TTLOwner(set_: RRSet) returns (x: RR)
    requires OwnTTL(set_)
    ensures x in set_.rdata && x.ttl == set_.ttl
  {
    x :| x in set_.rdata && x.ttl == set_.ttl;
  }

  /** After a full answer any replica reads as the primary does, whatever TTLs the primary mixes. */
  lemma FullTransferReadsAlike(p: StoreView, replica: Option<StoreView>, soa: RR, listing: seq<RR>)
    requires Good(p) && AllSettled(p) && ReadSOA(p) == Some(soa) && Elems(listing) == UnpackedOf(p)
    ensures var s := Follow(p.origin, replica, FullResponse(soa, listing));
            s.1 && NodesOk(s.0) && UnpackedOf(s.0) == UnpackedOf(p) && RecordsOf(s.0) == UnpackedOf(p) && Unmixed(s.0)
  {
    hide Steps, RecordsOf, Good, Unmixed, ParseSpec, Stripped, NonSOA, UnpackedOf, FullResponse, ReadSOA, AllSettled;
    FullListing(p, soa, listing);
    GoodNodes(p);
    if replica.None? {
      LoadedReadsAlike(p, FullResponse(soa, listing));
    } else {
      ParseFullResponse(soa, listing, replica.value.serial);
      LoadedReadsAlike(p, [soa] + NonSOA(listing));
    }
  }

  // ---------------------------------------------------------------------------
  // A removal after it
  // ---------------------------------------------------------------------------

  /** Another stored record that reads the same. */
  ghost predicate HasTwin(v: StoreView, rr: RR)
    requires rr.Type() in SetsAt(v, rr.name)
  {
    exists x | x in RecordsOf(v) && x != rr :: x.Type() in SetsAt(v, x.name) && ReadAs(v, x) == ReadAs(v, rr)
  }

  lemma RemovalKeepsReads(v: StoreView, rr: RR)
    requires NodesOk(v) && rr.Packs()
    ensures RemoveSpec(v, rr).Some?
    ensures var v' := RemoveSpec(v, rr).value;
            && NodesOk(v') && RecordsOf(v') == RecordsOf(v) - {rr}
            && forall x | x in RecordsOf(v') ::
                 x.Type() in SetsAt(v', x.name) && x.Type() in SetsAt(v, x.name) && ReadAs(v', x) == ReadAs(v, x)
  {
    hide RecordsOf, NodesOk, RemoveSpec, UnpackOne;
    UnloadOneRecord(v, rr);
    var v' := RemoveSpec(v, rr).value;
    RecordsAreStored(v);
    RecordsAreStored(v');
    if rr.name in v.nodes {
      RemoveSteps(v, rr);
      TakenOutTTL(SetsAt(v, rr.name), rr);
    } else {
      NoSuchNode(v, rr);
    }
  }

  /** A replica that holds what the primary reads follows the removal of a record exactly when that record is stored
      and then reads as itself or has a twin but not both, or when it is not stored and nothing stored reads like it. */
  lemma RemovalFollowedIff(p: StoreView, r: StoreView, rr: RR)
    requires NodesOk(p) && AllSettled(p) && NodesOk(r) && RecordsOf(r) == UnpackedOf(p) && Unmixed(r) && rr.Packs()
    ensures RemoveSpec(p, rr).Some? && RemoveSpec(r, rr).Some?
    ensures rr in RecordsOf(p) ==> rr.Type() in SetsAt(p, rr.name)
    ensures UnpackedOf(RemoveSpec(r, rr).value) == UnpackedOf(RemoveSpec(p, rr).value) <==>
            if rr in RecordsOf(p) then rr in UnpackedOf(p) <==> !HasTwin(p, rr) else rr !in UnpackedOf(p)
  {
    hide NodesOk, RecordsOf, UnpackedOf, RemoveSpec, Unmixed, AllSettled, UnpackOne, HasTwin;
    RemovalKeepsReads(p, rr);
    RemovalKeepsReads(r, rr);
    var p', r' := RemoveSpec(p, rr).value, RemoveSpec(r, rr).value;
    forall x ensures x in UnpackedOf(r') <==> x in UnpackedOf(p) && x != rr {
      UnpackedIs(r', x);
      ReadsItself(r, x);
      forall y | y in RecordsOf(r) ensures y.Type() in SetsAt(r, y.name) && ReadAs(r, y) == y { ReadsItself(r, y); }
    }
    forall x ensures x in UnpackedOf(p') <==> exists y | y in RecordsOf(p) && y != rr :: ReadAs(p, y) == x {
      UnpackedIs(p', x);
      UnpackedIs(p, x);
    }
    UnpackedIs(p, rr);
    if rr in RecordsOf(p) {
      StoredRemoval(p, rr, UnpackedOf(p'), UnpackedOf(r'));
    } else {
      forall x ensures x in UnpackedOf(p') <==> x in UnpackedOf(p) { UnpackedIs(p, x); }
    }
  }

  lemma ReadsItself(v: StoreView, x: RR)
    requires NodesOk(v) && Unmixed(v)
    ensures x in RecordsOf(v) ==> x.Type() in SetsAt(v, x.name) && ReadAs(v, x) == x
  {
    hide RecordsOf, NodesOk, UnpackOne;
    RecordsAreStored(v);
    if x in RecordsOf(v) {
      var set_ := v.nodes[x.name].sets[x.Type()];
      var i :| 0 <= i < |set_.rdata| && set_.rdata[i] == x;
      assert Unpack(set_)[i] == UnpackOne(set_.ttl, x);
    }
  }

  lemma StoredRemoval(p: StoreView, rr: RR, primary: set<RR>, replica: set<RR>)
    requires NodesOk(p) && AllSettled(p) && rr in RecordsOf(p)
    requires forall x | x in RecordsOf(p) :: x.Type() in SetsAt(p, x.name)
    requires forall x :: x in replica <==> x in UnpackedOf(p) && x != rr
    requires forall x :: x in primary <==> exists y | y in RecordsOf(p) && y != rr :: ReadAs(p, y) == x
    ensures replica == primary <==> (rr in UnpackedOf(p) <==> !HasTwin(p, rr))
  {
    hide NodesOk, RecordsOf, UnpackedOf, AllSettled, UnpackOne;
    var read := ReadAs(p, rr);
    UnpackedIs(p, read);
    forall x ensures x in UnpackedOf(p) <==> x in primary || x == read { UnpackedIs(p, x); }
    assert read in primary <==> HasTwin(p, rr);
    OwnRead(p, rr);
    if rr in UnpackedOf(p) {
      assert replica == primary <==> read !in primary;
    } else {
      assert replica == UnpackedOf(p);
      assert replica == primary <==> read in primary;
    }
  }

  /** A stored record that is among those read reads as itself. */
  lemma OwnRead(p: StoreView, rr: RR)
    requires NodesOk(p) && AllSettled(p) && rr in RecordsOf(p) && rr.Type() in SetsAt(p, rr.name)
    ensures rr in UnpackedOf(p) <==> ReadAs(p, rr) == rr
  {
    hide NodesOk, RecordsOf, UnpackedOf, AllSettled;
    UnpackedIs(p, rr);
    if rr in UnpackedOf(p) { UnpackedIs(p, ReadAs(p, rr)); ReadAlike(p, rr, ReadAs(p, rr)); }
  }

  /** An address with TTL zero beside one with TTL 5: a replica that was filled by a full transfer keeps it when the
      primary removes it. */
  lemma MixedRemovalIsMissed(o: Name, listing: seq<RR>)
    requires Elems(listing) == UnpackedOf(MixedZone(o))
    ensures var p, b := MixedZone(o), Address(o, 0, 2);
            && ReadSOA(p).Some?
            && var r := Follow(o, None, FullResponse(ReadSOA(p).value, listing)).0;
               && UnpackedOf(r) == UnpackedOf(p) && RemoveSpec(p, b).Some? && RemoveSpec(r, b).Some?
               && UnpackedOf(RemoveSpec(r, b).value) != UnpackedOf(RemoveSpec(p, b).value)
  {
    hide RecordsOf, Good, Unmixed, UnpackedOf, MixedZone, Follow, FullResponse, ReadSOA, RemoveSpec, HasTwin, NodesOk,
         AllSettled;
    var p, b := MixedZone(o), Address(o, 0, 2);
    MixedZoneIsGood(o);
    MixedZoneIsSettled(o);
    GoodNodes(p);
    FullTransferReadsAlike(p, None, ReadSOA(p).value, listing);
    RemovalFollowedIff(p, Follow(o, None, FullResponse(ReadSOA(p).value, listing)).0, b);
    MixedReads(p, o);
  }

  lemma MixedZoneIsSettled(o: Name)
    ensures AllSettled(MixedZone(o))
  {
    hide AllSettled, Steps;
    NoSets(o);
    var soa := SOAWith(o, 1, []);
    RunKeepsSettled(EmptyStore(o), Changes([soa], []));
    RunKeepsSettled(Begin(soa), [Add(Address(o, 5, 1)), Add(Address(o, 0, 2))]);
  }

  lemma MixedReads(p: StoreView, o: Name)
    requires NodesOk(p) && AllSettled(p) && A in SetsAt(p, o)
    requires SetsAt(p, o)[A] == RRSet(A, 5, [Address(o, 5, 1), Address(o, 0, 2)])
    ensures var b := Address(o, 0, 2); b in RecordsOf(p) && b !in UnpackedOf(p) && !HasTwin(p, b)
  {
    hide RecordsOf, UnpackedOf, NodesOk, AllSettled;
    var a, b := Address(o, 5, 1), Address(o, 0, 2);
    RecordsAreStored(p);
    assert [a, b][1] == b && Stored(p, b);
    OwnRead(p, b);
    forall x | x in RecordsOf(p) && x != b && x.Type() in SetsAt(p, x.name) ensures ReadAs(p, x) != ReadAs(p, b) {
      assert Stored(p, x);
      if x.name == o && x.Type() == A { assert x == a; }
    }
  }
}

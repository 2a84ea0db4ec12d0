/** Lists of records filed into a store, and the records of a store read back. */
module Loading {
  import opened Names
  import opened Records
  import opened StoreSpec
  import opened Xfr
  import opened PrimaryServer

  // ---------------------------------------------------------------------------
  // Filing records
  // ---------------------------------------------------------------------------

  ghost predicate Addable(rr: RR) {
    rr.Packs() && rr.ClassAccepted()
  }

  /** A zone in good order that holds exactly these records. */
  ghost predicate IsZone(v: StoreView, o: Name, recs: set<RR>) {
    Good(v) && v.origin == o && RecordsOf(v) == recs
  }

  lemma RemoveFirstOf(removes: seq<RR>)
    requires removes != []
    ensures Changes([], removes)[0] == Remove(removes[0]) && Changes([], removes)[1..] == Changes([], removes[1..])
  {
  }

  lemma AddFirstOf(adds: seq<RR>)
    requires adds != []
    ensures Changes(adds, [])[0] == Add(adds[0]) && Changes(adds, [])[1..] == Changes(adds[1..], [])
  {
  }

  lemma PackedRemoves(v: StoreView, rr: RR)
    requires rr.Packs()
    ensures RemoveSpec(v, rr).Some?
  {
  }

  lemma PackedAdds(v: StoreView, rr: RR)
    requires rr.Packs()
    ensures AddSpec(v, rr).Some?
  {
  }

  lemma LoadOneRecord(v: StoreView, rr: RR)
    requires NodesOk(v) && Addable(rr)
    ensures var v' := AddSpec(v, rr);
            && v'.Some? && NodesOk(v'.value) && v'.value.origin == v.origin && RecordsOf(v'.value) == RecordsOf(v) +
                {rr}
            && ((IsSOA(rr) ==> SerialOf(rr) == v.serial) ==> v'.value.serial == v.serial)
  {
    hide NodesOk, RecordsOf;
    PackedAdds(v, rr);
    AddSteps(v, rr);
    AddedRecords(v, AddSpec(v, rr).value, rr);
  }

  lemma {:induction false} LoadsRecords(v: StoreView, adds: seq<RR>)
    requires NodesOk(v) && forall rr | rr in adds :: Addable(rr)
    ensures var s := Steps(v, Changes(adds, []));
            s.1 && NodesOk(s.0) && s.0.origin == v.origin && RecordsOf(s.0) == RecordsOf(v) + Elems(adds)
    ensures (forall rr | rr in adds :: IsSOA(rr) ==> SerialOf(rr) == v.serial) ==>
            Steps(v, Changes(adds, [])).0.serial == v.serial
    decreases |adds|
  {
    hide NodesOk, RecordsOf, Addable, AddedNode;
    if adds == [] {
      assert Changes(adds, []) == [];
    } else {
      var rr, rest := adds[0], adds[1..];
      assert rr in adds && adds == [rr] + rest;
      assert Elems(adds) == {rr} + Elems(rest);
      AddFirstOf(adds);
      LoadOneRecord(v, rr);
      LoadsRecords(AddSpec(v, rr).value, rest);
    }
  }

  lemma UnloadOneRecord(v: StoreView, rr: RR)
    requires NodesOk(v) && rr.Packs()
    ensures var v' := RemoveSpec(v, rr);
            v'.Some? && NodesOk(v'.value) && v'.value.origin == v.origin && RecordsOf(v'.value) == RecordsOf(v) - {rr}
  {
    hide NodesOk, RecordsOf;
    PackedRemoves(v, rr);
    if rr.name in v.nodes {
      RemoveSteps(v, rr);
      RemovedRecords(v, RemoveSpec(v, rr).value, rr);
    } else {
      AbsentRecord(v, rr);
    }
  }

  lemma AbsentRecord(v: StoreView, rr: RR)
    requires NodesOk(v) && rr.name !in v.nodes
    ensures RecordsOf(v) - {rr} == RecordsOf(v)
  {
    RecordsAreStored(v);
  }

  lemma {:induction false} UnloadsRecords(v: StoreView, removes: seq<RR>)
    requires NodesOk(v) && forall rr | rr in removes :: rr.Packs()
    ensures var s := Steps(v, Changes([], removes));
            s.1 && NodesOk(s.0) && s.0.origin == v.origin && RecordsOf(s.0) == RecordsOf(v) - Elems(removes)
    decreases |removes|
  {
    hide NodesOk, RecordsOf, RemoveSpec;
    if removes == [] {
      assert Changes([], removes) == [];
    } else {
      var rr, rest := removes[0], removes[1..];
      assert rr in removes && removes == [rr] + rest;
      assert Elems(removes) == {rr} + Elems(rest);
      RemoveFirstOf(removes);
      UnloadOneRecord(v, rr);
      UnloadsRecords(RemoveSpec(v, rr).value, rest);
    }
  }

  /** A change list whose records pack has its effect on the records, whatever becomes of the indexes. */
  lemma ChangesHaveEffect(v: StoreView, adds: seq<RR>, removes: seq<RR>)
    requires NodesOk(v) && (forall rr | rr in removes :: rr.Packs()) && forall rr | rr in adds :: Addable(rr)
    ensures var s := Steps(v, Changes(adds, removes));
            s.1 && NodesOk(s.0) && s.0.origin == v.origin && RecordsOf(s.0) == Effect(RecordsOf(v), adds, removes)
  {
    hide NodesOk, RecordsOf, Steps, Addable;
    UnloadsRecords(v, removes);
    LoadsRecords(Steps(v, Changes([], removes)).0, adds);
    assert Changes(adds, removes) == Changes([], removes) + Changes(adds, []);
    StepsConcat(v, Changes([], removes), Changes(adds, []));
  }

  // ---------------------------------------------------------------------------
  // Reading records back
  // ---------------------------------------------------------------------------

  /** Reading the records back from the RRsets gives the records themselves: no record with TTL zero shares an RRset
      with one whose TTL is not. */
  ghost predicate Unmixed(v: StoreView) {
    forall n, t | n in v.nodes && t in v.nodes[n].sets :: Unpack(v.nodes[n].sets[t]) == v.nodes[n].sets[t].rdata
  }

  lemma UnmixedReadsRecords(v: StoreView)
    requires Unmixed(v)
    ensures UnpackedOf(v) == RecordsOf(v)
  {
    hide Unpack;
  }

  lemma NoZeroTTLIsUnmixed(v: StoreView)
    requires forall rr | rr in RecordsOf(v) :: rr.ttl != 0
    ensures Unmixed(v)
  {
    forall n, t | n in v.nodes && t in v.nodes[n].sets
      ensures Unpack(v.nodes[n].sets[t]) == v.nodes[n].sets[t].rdata
    {
      var set_ := v.nodes[n].sets[t];
      forall i | 0 <= i < |set_.rdata| ensures UnpackOne(set_.ttl, set_.rdata[i]) == set_.rdata[i] {
        InRecords(v, n, t, set_.rdata[i]);
      }
    }
  }

  /** What is read from an RRset packs, like what is stored there. */
  lemma PackedMembers(v: StoreView, n: Name, t: nat, rr: RR)
    requires NodesOk(v) && t in SetsAt(v, n) && rr in Unpack(SetsAt(v, n)[t])
    ensures rr.name == n && rr.Type() == t && rr.Packs()
  {
    hide Unpack;
    assert NodeOk(v.origin, n, v.nodes[n]);
    var x := ReadIndex(SetsAt(v, n)[t], rr);
  }

  lemma ReadIndex(set_: RRSet, rr: RR) returns (x: RR)
    requires rr in Unpack(set_)
    ensures x in set_.rdata && rr == UnpackOne(set_.ttl, x)
  {
    var i :| 0 <= i < |set_.rdata| && Unpack(set_)[i] == rr;
    x := set_.rdata[i];
  }

  lemma InRecords(v: StoreView, n: Name, t: nat, rr: RR)
    requires n in v.nodes && t in v.nodes[n].sets && rr in v.nodes[n].sets[t].rdata
    ensures rr in RecordsOf(v)
  {
  }

  /** Every record read is a stored one, up to the TTL of its RRset. */
  lemma ReadFrom(v: StoreView, rr: RR) returns (x: RR)
    requires NodesOk(v) && rr in UnpackedOf(v)
    ensures x in RecordsOf(v) && Addable(x) && x.name in v.nodes && x.Type() in v.nodes[x.name].sets
    ensures rr == UnpackOne(v.nodes[x.name].sets[x.Type()].ttl, x)
  {
    hide Unpack, UnpackOne, RecordsOf;
    var m, u :| m in v.nodes && u in v.nodes[m].sets && rr in Unpack(v.nodes[m].sets[u]);
    assert NodeOk(v.origin, m, v.nodes[m]);
    x := ReadIndex(v.nodes[m].sets[u], rr);
    InRecords(v, m, u, x);
  }

  /** A record with TTL zero in an RRset that stands for another TTL is not among the records read. */
  lemma MixedReadsDiffer(v: StoreView, n: Name, t: nat, rr: RR)
    requires NodesOk(v) && n in v.nodes && t in v.nodes[n].sets && rr in v.nodes[n].sets[t].rdata
    requires rr.ttl == 0 && v.nodes[n].sets[t].ttl != 0
    ensures rr in RecordsOf(v) && rr !in UnpackedOf(v)
  {
    hide UnpackedOf, RecordsOf;
    assert NodeOk(v.origin, n, v.nodes[n]);
    InRecords(v, n, t, rr);
    if rr in UnpackedOf(v) { var x := ReadFrom(v, rr); }
  }

  /** What is read back as records is what is stored exactly when no RRset mixes TTL zero with another TTL. */
  lemma ReadsRecordsIff(v: StoreView)
    requires NodesOk(v)
    ensures UnpackedOf(v) == RecordsOf(v) <==> Unmixed(v)
  {
    hide NodesOk, RecordsOf, UnpackedOf;
    if Unmixed(v) {
      UnmixedReadsRecords(v);
    } else {
      var n, t :| n in v.nodes && t in v.nodes[n].sets && Unpack(v.nodes[n].sets[t]) != v.nodes[n].sets[t].rdata;
      var set_ := v.nodes[n].sets[t];
      var i :| 0 <= i < |set_.rdata| && UnpackOne(set_.ttl, set_.rdata[i]) != set_.rdata[i];
      MixedReadsDiffer(v, n, t, set_.rdata[i]);
    }
  }

  lemma UnpackedAddable(v: StoreView)
    requires NodesOk(v)
    ensures forall rr | rr in UnpackedOf(v) :: Addable(rr) && (IsSOA(rr) ==> exists x ::
              x in RecordsOf(v) && IsSOA(x) && SerialOf(x) == SerialOf(rr))
  {
    hide UnpackedOf, RecordsOf, NodesOk;
    forall rr | rr in UnpackedOf(v)
      ensures Addable(rr) && (IsSOA(rr) ==> exists x :: x in RecordsOf(v) && IsSOA(x) && SerialOf(x) == SerialOf(rr))
    {
      var x := ReadFrom(v, rr);
    }
  }
}

/** Replication: a primary, its journal and a replica, over every run of changes, purges and transfers. */
module Replication {
  import opened Bytes
  import opened Names
  import opened Records
  import opened StoreSpec
  import opened Store
  import opened Xfr
  import opened PrimaryServer
  import opened Loading

  // ---------------------------------------------------------------------------
  // A whole change list on a zone in good order
  // ---------------------------------------------------------------------------

  /** Removing this record drops no other record's index entry. */
  ghost predicate Removable(recs: set<RR>, rr: RR) {
    rr.Packs() && (rr in recs || forall x | x in recs :: !SameEntry(x, rr))
  }

  lemma StillRemovable(origin: Name, recs: set<RR>, first: RR, rr: RR)
    requires Consistent(origin, recs) && Removable(recs, first) && Removable(recs, rr)
    ensures Removable(recs - {first}, rr)
  {
    hide SameEntry, UndecodableOwner;
  }

  lemma {:induction false} RemovalsKeepGood(v: StoreView, removes: seq<RR>)
    requires Good(v) && forall rr | rr in removes :: Removable(RecordsOf(v), rr)
    ensures var s := Steps(v, Changes([], removes));
            s.1 && Good(s.0) && s.0.origin == v.origin && RecordsOf(s.0) == RecordsOf(v) - Elems(removes)
    decreases |removes|
  {
    hide Shape, Agree, SerialAgrees, Consistent, RemoveSpec, SameEntry;
    if removes == [] {
      assert Changes([], removes) == [];
    } else {
      var rr, rest := removes[0], removes[1..];
      assert rr in removes && removes == [rr] + rest;
      RemoveFirstOf(removes);
      PackedRemoves(v, rr);
      StepKeepsGood(v, Remove(rr));
      var v' := RemoveSpec(v, rr).value;
      forall x | x in rest ensures Removable(RecordsOf(v'), x) { StillRemovable(v.origin, RecordsOf(v), rr, x); }
      RemovalsKeepGood(v', rest);
      assert Elems(removes) == {rr} + Elems(rest);
    }
  }

  lemma ConsistentSubset(origin: Name, less: set<RR>, more: set<RR>)
    requires less <= more && Consistent(origin, more)
    ensures Consistent(origin, less)
  {
  }

  lemma {:induction false} AdditionsKeepGood(v: StoreView, adds: seq<RR>)
    requires Good(v) && (forall rr | rr in adds :: Addable(rr)) && Consistent(v.origin, RecordsOf(v) + Elems(adds))
    ensures var s := Steps(v, Changes(adds, []));
            s.1 && Good(s.0) && s.0.origin == v.origin && RecordsOf(s.0) == RecordsOf(v) + Elems(adds)
    decreases |adds|
  {
    hide Shape, Agree, SerialAgrees, Consistent, AddSpec;
    if adds == [] {
      assert Changes(adds, []) == [];
    } else {
      var rr, rest := adds[0], adds[1..];
      assert rr in adds && adds == [rr] + rest;
      assert Elems(adds) == {rr} + Elems(rest);
      AddFirstOf(adds);
      PackedAdds(v, rr);
      ConsistentSubset(v.origin, RecordsOf(v) + {rr}, RecordsOf(v) + Elems(adds));
      StepKeepsGood(v, Add(rr));
      var v' := AddSpec(v, rr).value;
      assert RecordsOf(v') + Elems(rest) == RecordsOf(v) + Elems(adds);
      AdditionsKeepGood(v', rest);
    }
  }

  /** A change list whose removals drop no foreign index entry and whose outcome is consistent goes through, keeps
      everything in agreement and leaves exactly the records meant. */
  lemma BatchKeepsGood(v: StoreView, adds: seq<RR>, removes: seq<RR>)
    requires Good(v) && (forall rr | rr in removes :: Removable(RecordsOf(v), rr)) &&
             (forall rr | rr in adds :: Addable(rr))
    requires Consistent(v.origin, Effect(RecordsOf(v), adds, removes))
    ensures var s := Steps(v, Changes(adds, removes));
            s.1 && Good(s.0) && s.0.origin == v.origin && RecordsOf(s.0) == Effect(RecordsOf(v), adds, removes)
  {
    hide Good, Consistent, Steps, Removable, Addable;
    assert Changes(adds, removes) == Changes([], removes) + Changes(adds, []);
    StepsConcat(v, Changes([], removes), Changes(adds, []));
    RemovalsKeepGood(v, removes);
    AdditionsKeepGood(Steps(v, Changes([], removes)).0, adds);
  }

  // ---------------------------------------------------------------------------
  // Same records, same everything
  // ---------------------------------------------------------------------------

  ghost predicate HasSOA(recs: set<RR>) {
    exists rr | rr in recs :: IsSOA(rr)
  }

  /** A replica that holds the same records, count, serial and indexes. */
  ghost predicate InSync(primary: StoreView, replica: StoreView) {
    && replica.origin == primary.origin && RecordsOf(replica) == RecordsOf(primary) && replica.rrs == primary.rrs
    && replica.serial == primary.serial && replica.nsec3 == primary.nsec3 && replica.expiry == primary.expiry
  }

  lemma IndexUnique<V>(a: map<Bytes, V>, b: map<Bytes, V>, entries: set<(Bytes, V)>)
    requires IndexIs(a, entries) && IndexIs(b, entries)
    ensures a == b
  {
    forall k | k in a ensures k in b && b[k] == a[k] { assert (k, a[k]) in entries; }
    forall k | k in b ensures k in a { assert (k, b[k]) in entries; }
  }

  /** On stores in good order the records determine count, serial and indexes. */
  lemma SameRecordsInSync(p: StoreView, r: StoreView)
    requires Good(p) && Good(r) && p.origin == r.origin && RecordsOf(p) == RecordsOf(r) && HasSOA(RecordsOf(p))
    ensures InSync(p, r)
  {
    hide NodesOk, Consistent, RecordsOf;
    IndexUnique(p.nsec3, r.nsec3, NSEC3Entries(RecordsOf(p)));
    IndexUnique(p.expiry, r.expiry, ExpiryEntries(RecordsOf(p)));
    var soa :| soa in RecordsOf(p) && IsSOA(soa);
  }

  // ---------------------------------------------------------------------------
  // Unpacked records
  // ---------------------------------------------------------------------------

  /** The SOA the server reads is the one stored. */
  lemma ReadsStoredSOA(v: StoreView, soa: RR)
    requires Good(v) && Unmixed(v) && soa in RecordsOf(v) && IsSOA(soa)
    ensures ReadSOA(v) == Some(soa)
  {
    hide Agree, RecordsOf;
    FirstSOA(v, soa);
    RecordsAreStored(v);
    var set_ := SetsAt(v, v.origin)[SOA];
    assert Stored(v, soa) && soa in set_.rdata;
    assert Unpack(set_) == set_.rdata;
    var i :| 0 <= i < |set_.rdata| && set_.rdata[i] == soa;
    assert Unpack(set_)[i] == UnpackOne(set_.ttl, soa);
  }

  // ---------------------------------------------------------------------------
  // One change request
  // ---------------------------------------------------------------------------

  /** What a journal entry, as the parser reads it, says about the record sets before and after it. */
  ghost predicate Explains(ch: Changeset, origin: Name, before: set<RR>, after: set<RR>) {
    && Effect(before, Kept(ch.adds, ch.to), ch.removes + Lost(ch.adds, ch.to)) == after && Consistent(origin, after)
    && Fits(ch, before) && ch.from != ch.to
  }

  /** Applying the entry to these records drops no other record's index entry, and the parser finds its way. */
  ghost predicate Fits(ch: Changeset, before: set<RR>) {
    && (forall rr | rr in ch.removes :: Removable(before, rr) && !HasSerial(rr, ch.to))
    && (forall rr | rr in Lost(ch.adds, ch.to) :: Removable(before - Elems(ch.removes), rr))
    && (forall rr | rr in ch.adds :: Addable(rr)) && Closes(ch.adds, ch.to)
  }

  /** Nothing new stands behind an SOA of this serial. */
  predicate NothingBehind(adds: seq<RR>, serial: u32) {
    forall i, j | 0 <= i < j < |adds| && HasSerial(adds[i], serial) :: IsSOA(adds[j]) || adds[j] in adds[..i]
  }

  /** A request as an operator makes it: its removals drop no other record's index entry, it adds records of the zone
      and leaves one SOA; where it edits the SOA without a new serial, it adds nothing new behind it. */
  ghost predicate Sound(v: StoreView, adds: seq<RR>, removes: seq<RR>) {
    Fair(v, adds, removes) && NothingBehind(adds, v.serial)
  }

  ghost predicate Fair(v: StoreView, adds: seq<RR>, removes: seq<RR>) {
    var mid := Effect(RecordsOf(v), adds, removes);
    && (forall rr | rr in removes :: Removable(RecordsOf(v), rr))
    && (forall rr | rr in removes :: !HasSerial(rr, ApplySpec(v, adds, removes).0.serial))
    && (forall rr | rr in adds :: Addable(rr))
    && Consistent(v.origin, mid) && HasSOA(mid)
    && Unmixed(Steps(v, Changes(adds, removes)).0) && Unmixed(ApplySpec(v, adds, removes).0)
  }

  lemma StoredPacks(v: StoreView, rr: RR)
    requires Good(v) && rr in RecordsOf(v)
    ensures rr.Packs() && rr.ClassAccepted() && rr.name in v.nodes
  {
    RecordsAreStored(v);
    assert NodeOk(v.origin, rr.name, v.nodes[rr.name]);
  }

  lemma MidIsGood(v: StoreView, adds: seq<RR>, removes: seq<RR>)
    requires Good(v) && Fair(v, adds, removes)
    ensures var s := Steps(v, Changes(adds, removes));
            s.1 && Good(s.0) && s.0.origin == v.origin && RecordsOf(s.0) == Effect(RecordsOf(v), adds, removes)
  {
    hide Agree, SerialAgrees, Consistent, Effect, Unmixed, SameEntry, RecordsOf, ApplySpec;
    BatchKeepsGood(v, adds, removes);
  }

  /** Where the additions show no SOA of another serial, nothing is lost. */
  lemma NoneLost(adds: seq<RR>, serial: u32)
    requires forall rr | rr in adds && IsSOA(rr) :: HasSerial(rr, serial)
    ensures Turn(adds, serial) == |adds| && Lost(adds, serial) == [] && Kept(adds, serial) == adds
    ensures Closes(adds, serial)
  {
  }

  /** A request that changes the serial itself. */
  lemma OwnSerialExplained(v: StoreView, adds: seq<RR>, removes: seq<RR>)
    requires Good(v) && Fair(v, adds, removes) && Steps(v, Changes(adds, removes)).0.serial != v.serial
    ensures var v', ch := ApplySpec(v, adds, removes).0, ApplySpec(v, adds, removes).1;
            && Good(v') && v'.origin == v.origin && HasSOA(RecordsOf(v'))
            && ch.Some? && ch.value.from == v.serial && ch.value.to == v'.serial
            && Explains(ch.value, v.origin, RecordsOf(v), RecordsOf(v'))
  {
    hide Agree, Shape, Steps, Unmixed, RecordsOf, BumpSpec, Kept, Lost, Closes, Removable;
    MidIsGood(v, adds, removes);
    var v' := Steps(v, Changes(adds, removes)).0;
    forall rr | rr in adds && IsSOA(rr) ensures HasSerial(rr, v'.serial) {
      assert rr in RecordsOf(v');
    }
    NoneLost(adds, v'.serial);
    assert removes + [] == removes;
    GoodIsConsistent(v');
  }

  lemma BumpIsGood(v: StoreView, soa: RR)
    requires Good(v) && soa in RecordsOf(v) && IsSOA(soa) && ReadSOA(v) == Some(soa)
    ensures var v' := BumpSpec(v);
            && v'.Some? && Good(v'.value) && v'.value.origin == v.origin
            && RecordsOf(v'.value) == RecordsOf(v) - {soa} + {Bumped(soa)} && v'.value.serial == SerialOf(Bumped(soa))
  {
    hide Agree, Shape, RecordsOf, RemoveSpec, AddSpec, SameEntry;
    StoredPacks(v, soa);
    PackedRemoves(v, soa);
    StepKeepsGood(v, Remove(soa));
    var v1 := RemoveSpec(v, soa).value;
    PackedAdds(v1, Bumped(soa));
    BumpConsistent(v.origin, RecordsOf(v), soa);
    StepKeepsGood(v1, Add(Bumped(soa)));
    assert Bumped(soa) in RecordsOf(BumpSpec(v).value);
  }

  lemma BumpConsistent(origin: Name, recs: set<RR>, soa: RR)
    requires Consistent(origin, recs) && soa in recs && IsSOA(soa)
    ensures Consistent(origin, recs - {soa} + {Bumped(soa)})
  {
    hide HashFromOwner, SignatureKey, NSEC3Key;
  }

  /** The journal entry of a request that leaves the serial alone and gets the next one. */
  lemma BumpedEntry(v: StoreView, adds: seq<RR>, removes: seq<RR>) returns (soa: RR)
    requires Good(v) && Fair(v, adds, removes) && Steps(v, Changes(adds, removes)).0.serial == v.serial
    ensures var v', ch, mid := ApplySpec(v, adds, removes).0, ApplySpec(v, adds, removes).1,
                Effect(RecordsOf(v), adds, removes);
            && Good(v') && v'.origin == v.origin && soa in mid && IsSOA(soa) && SerialOf(soa) == v.serial
            && RecordsOf(v') == mid - {soa} + {Bumped(soa)} && v'.serial == SerialOf(Bumped(soa))
            && ch == Some(Changeset(v.serial, v'.serial, adds + [Bumped(soa)], removes + [soa]))
            && Addable(soa) && forall rr | rr in adds && IsSOA(rr) :: rr == soa
  {
    hide Agree, Shape, Steps, Unmixed, RecordsOf, BumpSpec, ReadSOA, Removable, NodesOk;
    MidIsGood(v, adds, removes);
    var mid := Steps(v, Changes(adds, removes)).0;
    soa :| soa in RecordsOf(mid) && IsSOA(soa);
    ReadsStoredSOA(mid, soa);
    BumpIsGood(mid, soa);
    StoredPacks(mid, soa);
    assert SerialOf(soa) == mid.serial;
    forall rr | rr in adds && IsSOA(rr) ensures rr == soa { assert rr in RecordsOf(mid); }
  }

  /** What the parser loses of such an entry. */
  lemma BumpedSplit(adds: seq<RR>, soa: RR)
    requires IsSOA(soa) && forall rr | rr in adds && IsSOA(rr) :: rr == soa
    ensures var all, to := adds + [Bumped(soa)], SerialOf(Bumped(soa));
            && Closes(all, to) && SerialOf(soa) != to && Turn(all, to) != |adds|
            && var k := Turn(all, to);
               if soa in adds then k < |adds| && adds[k] == soa && soa !in adds[..k] && Lost(all, to) == adds[k..] &&
                    Kept(all, to) == adds[..k] + [Bumped(soa)]
               else Lost(all, to) == [] && Kept(all, to) == all && k == |all|
  {
    var all, to := adds + [Bumped(soa)], SerialOf(Bumped(soa));
    if soa in adds {
      var i :| 0 <= i < |adds| && adds[i] == soa;
      TurnIsFirst(all, to, i);
      var k := Turn(all, to);
      assert all[..k] == adds[..k] && all[k] in adds;
      assert all[k..|all| - 1] == adds[k..];
    } else {
      NoneLost(all, to);
    }
  }

  /** Such an entry is read as it is meant exactly when nothing new stands behind the SOA in the request. */
  lemma BumpedEffect(recs: set<RR>, adds: seq<RR>, removes: seq<RR>, soa: RR)
    requires IsSOA(soa) && soa in Effect(recs, adds, removes) && forall rr | rr in adds && IsSOA(rr) :: rr == soa
    requires forall rr | rr in Effect(recs, adds, removes) && IsSOA(rr) :: rr == soa
    ensures var all, to := adds + [Bumped(soa)], SerialOf(Bumped(soa));
            Effect(recs, Kept(all, to), removes + [soa] + Lost(all, to)) ==
            Effect(recs, adds, removes) - {soa} + {Bumped(soa)}
            <==> NothingBehind(adds, SerialOf(soa))
  {
    hide Kept, Lost, Turn, Closes;
    var all, to := adds + [Bumped(soa)], SerialOf(Bumped(soa));
    BumpedSplit(adds, soa);
    var k := Turn(all, to);
    if soa in adds {
      assert adds == adds[..k] + adds[k..];
      FirstBehind(adds, k, soa);
      PartsEffect(recs, adds[..k], adds[k..], removes, soa, Bumped(soa));
    }
  }

  lemma PartsEffect(recs: set<RR>, pre: seq<RR>, lost: seq<RR>, removes: seq<RR>, soa: RR, soa': RR)
    requires soa !in pre && soa in lost && soa' !in pre + lost && soa' != soa
    ensures Effect(recs, pre + [soa'], removes + [soa] + lost) ==
            Effect(recs, pre + lost, removes) - {soa} + {soa'}
            <==> forall rr | rr in lost && rr != soa :: rr in pre
  {
    var got, meant := Effect(recs, pre + [soa'], removes + [soa] + lost),
        Effect(recs, pre + lost, removes) - {soa} + {soa'};
    if rr :| rr in lost && rr != soa && rr !in pre {
      assert rr in meant && rr !in got;
    } else {
      assert forall rr :: rr in got <==> rr in meant;
    }
  }

  lemma FirstBehind(adds: seq<RR>, k: nat, soa: RR)
    requires k < |adds| && adds[k] == soa && soa !in adds[..k] && IsSOA(soa)
    requires forall rr | rr in adds && IsSOA(rr) :: rr == soa
    ensures NothingBehind(adds, SerialOf(soa)) <==> forall rr | rr in adds[k..] && rr != soa :: rr in adds[..k]
  {
    if NothingBehind(adds, SerialOf(soa)) {
      forall rr | rr in adds[k..] && rr != soa ensures rr in adds[..k] {
        var j :| 0 <= j < |adds| - k && adds[k..][j] == rr;
        assert HasSerial(adds[k], SerialOf(soa)) && adds[k + j] == rr;
      }
    }
    if forall rr | rr in adds[k..] && rr != soa :: rr in adds[..k] {
      forall i, j | 0 <= i < j < |adds| && HasSerial(adds[i], SerialOf(soa))
        ensures IsSOA(adds[j]) || adds[j] in adds[..i]
      {
        assert i >= k by { forall m | 0 <= m < k ensures adds[m] != soa { assert adds[..k][m] == adds[m]; } }
        assert adds[j] in adds[k..];
        if adds[j] != soa {
          var m :| 0 <= m < k && adds[..k][m] == adds[j];
          assert adds[..i][m] == adds[j];
        }
      }
    }
  }

  /** A request that leaves the serial alone. */
  lemma BumpExplained(v: StoreView, adds: seq<RR>, removes: seq<RR>)
    requires Good(v) && Sound(v, adds, removes) && Steps(v, Changes(adds, removes)).0.serial == v.serial
    ensures var v', ch := ApplySpec(v, adds, removes).0, ApplySpec(v, adds, removes).1;
            && Good(v') && v'.origin == v.origin && HasSOA(RecordsOf(v'))
            && ch.Some? && ch.value.from == v.serial && ch.value.to == v'.serial
            && Explains(ch.value, v.origin, RecordsOf(v), RecordsOf(v'))
  {
    hide Good, Steps, Unmixed, RecordsOf, ApplySpec, Kept, Lost, Turn, Closes, NothingBehind, Effect, Fits, Addable;
    var soa := BumpedEntry(v, adds, removes);
    var v', ch := ApplySpec(v, adds, removes).0, ApplySpec(v, adds, removes).1.value;
    FairSOA(v, adds, removes, soa);
    BumpedEffect(RecordsOf(v), adds, removes, soa);
    BumpedFits(v, adds, removes, soa, ch);
    GoodIsConsistent(v');
    assert Bumped(soa) in RecordsOf(v');
  }

  lemma FairSOA(v: StoreView, adds: seq<RR>, removes: seq<RR>, soa: RR)
    requires Fair(v, adds, removes) && soa in Effect(RecordsOf(v), adds, removes) && IsSOA(soa)
    ensures forall rr | rr in Effect(RecordsOf(v), adds, removes) && IsSOA(rr) :: rr == soa
  {
    hide RecordsOf, Removable, Unmixed, ApplySpec, Steps, Effect;
  }

  /** The entry fits the records before it, whatever stands behind the SOA. */
  lemma BumpedFits(v: StoreView, adds: seq<RR>, removes: seq<RR>, soa: RR, ch: Changeset)
    requires Fair(v, adds, removes) && IsSOA(soa) && Addable(soa) && soa in Effect(RecordsOf(v), adds, removes)
    requires ch == Changeset(v.serial, SerialOf(Bumped(soa)), adds + [Bumped(soa)], removes + [soa])
    requires ApplySpec(v, adds, removes).0.serial == ch.to && forall rr | rr in adds && IsSOA(rr) :: rr == soa
    ensures Fits(ch, RecordsOf(v))
  {
    hide RecordsOf, Unmixed, ApplySpec, Steps, Kept, Lost, Turn, Closes, SameEntry;
    var recs, mid := RecordsOf(v), Effect(RecordsOf(v), adds, removes);
    BumpedSplit(adds, soa);
    SOASharesNoEntry(soa);
    var lost := Lost(ch.adds, ch.to);
    forall x, y | x in lost && y in recs - Elems(ch.removes) && SameEntry(y, x) ensures x == y {
      assert x in adds && x in mid && y in mid;
      Indexes(v.origin, mid, y, x);
    }
    forall rr | rr in lost ensures Removable(recs - Elems(ch.removes), rr) {
      assert rr in adds;
    }
  }

  lemma Indexes(origin: Name, recs: set<RR>, a: RR, b: RR)
    requires Consistent(origin, recs) && a in recs && b in recs && SameEntry(a, b)
    ensures a == b
  {
  }

  lemma GoodIsConsistent(v: StoreView)
    requires Good(v)
    ensures Consistent(v.origin, RecordsOf(v))
  {
  }

  /** Every sound request leaves the zone in good order and is explained by its journal entry. */
  lemma ApplyExplained(v: StoreView, adds: seq<RR>, removes: seq<RR>)
    requires Good(v) && Sound(v, adds, removes)
    ensures var v', ch := ApplySpec(v, adds, removes).0, ApplySpec(v, adds, removes).1;
            && Good(v') && v'.origin == v.origin && HasSOA(RecordsOf(v')) && Unmixed(v')
            && ch.Some? && ch.value.from == v.serial && ch.value.to == v'.serial
            && Explains(ch.value, v.origin, RecordsOf(v), RecordsOf(v'))
  {
    hide Good, Explains, ApplySpec, RecordsOf, Unmixed, Consistent, NothingBehind, Removable;
    if Steps(v, Changes(adds, removes)).0.serial == v.serial {
      BumpExplained(v, adds, removes);
    } else {
      OwnSerialExplained(v, adds, removes);
    }
  }

  // ---------------------------------------------------------------------------
  // One transfer
  // ---------------------------------------------------------------------------

  /** The SOA an incremental request carries: the replica's serial, and otherwise made up. */
  function Asking(origin: Name, serial: u32, made: Bytes): RR {
    RR(origin, CLASS_IN, 3600, SOAData(serial, made))
  }

  /** What the replica holds after reading an answer: a new store for a full one, its own with the differences applied
      otherwise; the second component tells whether everything could be applied. */
  function Follow(origin: Name, replica: Option<StoreView>, answer: seq<RR>): (StoreView, bool) {
    match replica
    case None => Steps(EmptyStore(origin), Changes(answer, []))
    case Some(r) =>
      var p := ParseSpec(answer, r.serial);
      if p.fallback then Steps(EmptyStore(origin), Changes(Stripped(answer), []))
      else Steps(r, Changes(p.adds, p.removes))
  }

  lemma EmptyIsGood(origin: Name)
    ensures Good(EmptyStore(origin)) && RecordsOf(EmptyStore(origin)) == {} && EmptyStore(origin).origin == origin
  {
    EmptyStoreFacts(origin);
  }

  /** The SOA the server reads is the only one among the records it reads. */
  lemma OneSOARead(p: StoreView, soa: RR)
    requires Good(p) && ReadSOA(p) == Some(soa)
    ensures IsSOA(soa) && soa in UnpackedOf(p) && forall rr | rr in UnpackedOf(p) && IsSOA(rr) :: rr == soa
  {
    hide Agree, RecordsOf, NodesOk, UnpackedOf, SerialAgrees;
    SOAIsRead(p, soa);
    forall rr | rr in UnpackedOf(p) && IsSOA(rr) ensures rr == soa {
      var x := ReadFrom(p, rr);
      assert IsSOA(x) && x.data.SOAData?;
      FirstSOA(p, x);
      assert x.name == p.origin && SetsAt(p, p.origin) == p.nodes[x.name].sets;
    }
  }

  lemma SOAIsRead(p: StoreView, soa: RR)
    requires NodesOk(p) && ReadSOA(p) == Some(soa)
    ensures IsSOA(soa) && soa in UnpackedOf(p)
  {
    var sets := SetsAt(p, p.origin);
    assert p.origin in p.nodes && SOA in p.nodes[p.origin].sets && sets == p.nodes[p.origin].sets;
    assert soa == Unpack(sets[SOA])[0] && soa in Unpack(sets[SOA]);
  }

  lemma FullListing(p: StoreView, soa: RR, listing: seq<RR>)
    requires Good(p) && ReadSOA(p) == Some(soa) && Elems(listing) == UnpackedOf(p)
    ensures IsSOA(soa)
    ensures Elems(FullResponse(soa, listing)) == UnpackedOf(p) && Elems([soa] + NonSOA(listing)) == UnpackedOf(p)
  {
    hide Good, NonSOA, UnpackedOf, ReadSOA;
    OneSOARead(p, soa);
    assert forall rr :: rr in listing <==> rr in Elems(listing);
    assert forall rr :: rr in [soa] + NonSOA(listing) <==> rr in UnpackedOf(p);
    assert forall rr :: rr in FullResponse(soa, listing) <==> rr in [soa] + NonSOA(listing);
  }

  /** Filing the records read from a zone into an empty store gives that zone exactly when no RRset mixes TTL zero with
      another TTL. */
  lemma FilledStore(p: StoreView, rrs: seq<RR>)
    requires Good(p) && HasSOA(RecordsOf(p)) && Elems(rrs) == UnpackedOf(p)
    ensures var s := Steps(EmptyStore(p.origin), Changes(rrs, []));
            && s.1 && s.0.origin == p.origin && (InSync(p, s.0) <==> Unmixed(p)) && (Unmixed(p) ==> Good(s.0))
  {
    hide Steps, RecordsOf, Good, UnpackedOf, Unmixed, NodesOk, Addable;
    GoodIsConsistent(p);
    GoodNodes(p);
    UnpackedAddable(p);
    ReadsRecordsIff(p);
    EmptyIsGood(p.origin);
    GoodNodes(EmptyStore(p.origin));
    forall rr | rr in rrs ensures Addable(rr) { assert rr in Elems(rrs); }
    LoadsRecords(EmptyStore(p.origin), rrs);
    assert {} + Elems(rrs) == Elems(rrs);
    if Unmixed(p) {
      assert Effect(RecordsOf(EmptyStore(p.origin)), rrs, []) == RecordsOf(p);
      BatchKeepsGood(EmptyStore(p.origin), rrs, []);
      SameRecordsInSync(p, Steps(EmptyStore(p.origin), Changes(rrs, [])).0);
    }
  }

  /** A full answer brings any replica into sync exactly when no RRset of the primary mixes TTL zero with another
      TTL. */
  lemma FullTransferSyncs(p: StoreView, replica: Option<StoreView>, soa: RR, listing: seq<RR>)
    requires Good(p) && HasSOA(RecordsOf(p)) && ReadSOA(p) == Some(soa) && Elems(listing) == UnpackedOf(p)
    ensures var s := Follow(p.origin, replica, FullResponse(soa, listing));
            s.1 && (InSync(p, s.0) <==> Unmixed(p)) && (Unmixed(p) ==> Good(s.0))
  {
    hide Steps, RecordsOf, Good, Unmixed, ParseSpec, Stripped, NonSOA, UnpackedOf, FullResponse, InSync, ReadSOA;
    FullListing(p, soa, listing);
    if replica.None? {
      FilledStore(p, FullResponse(soa, listing));
    } else {
      ParseFullResponse(soa, listing, replica.value.serial);
      FilledStore(p, [soa] + NonSOA(listing));
    }
  }

  /** Removals one after the other: each must fit what the ones before it left. */
  lemma RemovalsInTwoParts(v: StoreView, adds: seq<RR>, first: seq<RR>, second: seq<RR>)
    requires Good(v) && (forall rr | rr in first :: Removable(RecordsOf(v), rr))
    requires forall rr | rr in second :: Removable(RecordsOf(v) - Elems(first), rr)
    requires (forall rr | rr in adds :: Addable(rr)) && Consistent(v.origin, Effect(RecordsOf(v), adds, first + second))
    ensures var s := Steps(v, Changes(adds, first + second));
            s.1 && Good(s.0) && s.0.origin == v.origin && RecordsOf(s.0) == Effect(RecordsOf(v), adds, first + second)
  {
    hide Good, Consistent, Steps, Removable, Addable;
    RemovalsKeepGood(v, first);
    var v1 := Steps(v, Changes([], first)).0;
    assert Effect(RecordsOf(v1), adds, second) == Effect(RecordsOf(v), adds, first + second);
    BatchKeepsGood(v1, adds, second);
    assert Changes(adds, first + second) == Changes([], first) + Changes(adds, second);
    StepsConcat(v, Changes([], first), Changes(adds, second));
  }

  /** An incremental answer brings a replica into sync exactly when the served entry, as the parser reads it, turns the
      replica's records into the primary's. */
  lemma ServedEntrySyncsIff(p: StoreView, r: StoreView, soa: RR, asked: RR, ch: Changeset)
    requires Good(p) && Good(r) && r.origin == p.origin && soa in RecordsOf(p) && IsSOA(soa)
    requires Fits(ch, RecordsOf(r)) && ch.from != ch.to && ch.to == p.serial
    requires HasSerial(asked, ch.from) && asked.Packs()
    ensures var s := Follow(p.origin, Some(r), Response(soa, [asked] + ch.removes, ch.adds));
            && s.1 && RecordsOf(s.0) == Effect(RecordsOf(r), [soa] + Collected(ch.adds, ch.to),
                                               [asked] + ch.removes + Lost(ch.adds, ch.to))
            && (InSync(p, s.0) <==> RecordsOf(s.0) == RecordsOf(p)) && (InSync(p, s.0) ==> Good(s.0))
  {
    hide Steps, RecordsOf, ParseSpec, Shape, Agree, Consistent, Effect, Response, SameEntry, Kept, Lost, Collected,
         Turn, Closes;
    var adds, first, lost := [soa] + Collected(ch.adds, ch.to), [asked] + ch.removes, Lost(ch.adds, ch.to);
    ParseEntry(soa, first, ch.adds, r.serial);
    CollectedAreKept(ch.adds, ch.to);
    StoredPacks(p, soa);
    SOASharesNoEntry(asked);
    forall rr | rr in first ensures Removable(RecordsOf(r), rr) {}
    forall rr | rr in lost ensures Removable(RecordsOf(r) - Elems(first), rr) {
      StillApart(RecordsOf(r), ch.removes, asked, rr);
    }
    forall rr | rr in adds ensures Addable(rr) { if rr != soa { assert rr in Kept(ch.adds, ch.to) + lost; } }
    GoodNodes(r);
    ChangesHaveEffect(r, adds, first + lost);
    var s := Steps(r, Changes(adds, first + lost));
    assert Follow(p.origin, Some(r), Response(soa, first, ch.adds)) == s;
    if RecordsOf(s.0) == RecordsOf(p) {
      GoodIsConsistent(p);
      RemovalsInTwoParts(r, adds, first, lost);
      SameRecordsInSync(p, s.0);
    }
  }

  lemma StillApart(recs: set<RR>, removes: seq<RR>, asked: RR, rr: RR)
    requires Removable(recs - Elems(removes), rr) && IsSOA(asked)
    ensures Removable(recs - Elems([asked] + removes), rr)
  {
    hide SameEntry;
    SOASharesNoEntry(asked);
    assert Elems([asked] + removes) == {asked} + Elems(removes);
    if IsSOA(rr) { SOASharesNoEntry(rr); }
  }

  lemma SOASharesNoEntry(soa: RR)
    requires IsSOA(soa)
    ensures forall x: RR :: !SameEntry(x, soa)
  {
  }

  /** The parsed differences have the effect of the journalled ones: the made-up SOA of the request and the repeated
      new SOA do no harm. */
  lemma SameEffect(before: set<RR>, ch: Changeset, soa: RR, asked: RR)
    requires ch.from != ch.to && HasSerial(soa, ch.to) && HasSerial(asked, ch.from)
    requires var meant := Effect(before, Kept(ch.adds, ch.to), ch.removes + Lost(ch.adds, ch.to));
             soa in meant && forall rr | rr in meant && IsSOA(rr) :: rr == soa
    ensures Effect(before, [soa] + Collected(ch.adds, ch.to), [asked] + ch.removes + Lost(ch.adds, ch.to)) ==
            Effect(before, Kept(ch.adds, ch.to), ch.removes + Lost(ch.adds, ch.to))
  {
    hide Collected, Kept, Lost;
    CollectedAreKept(ch.adds, ch.to);
    var got := Effect(before, [soa] + Collected(ch.adds, ch.to), [asked] + ch.removes + Lost(ch.adds, ch.to));
    var meant := Effect(before, Kept(ch.adds, ch.to), ch.removes + Lost(ch.adds, ch.to));
    assert asked !in meant;
    forall rr ensures rr in got <==> rr in meant {
      if rr in Kept(ch.adds, ch.to) && rr !in Collected(ch.adds, ch.to) { assert rr in meant && rr == soa; }
    }
  }

  /** So it does when the replica holds the state before the change. */
  lemma IncrementalTransferSyncs(p: StoreView, r: StoreView, soa: RR, asked: RR, ch: Changeset)
    requires Good(p) && Good(r) && r.origin == p.origin && soa in RecordsOf(p) && IsSOA(soa)
    requires Explains(ch, p.origin, RecordsOf(r), RecordsOf(p))
    requires HasSerial(asked, ch.from) && asked.Packs() && ch.to == p.serial
    ensures var s := Follow(p.origin, Some(r), Response(soa, [asked] + ch.removes, ch.adds));
            s.1 && Good(s.0) && InSync(p, s.0)
  {
    hide RecordsOf, InSync, Shape, Agree, Indexable, Effect, Response, Follow, Fits, Kept, Lost, Collected;
    SameEffect(RecordsOf(r), ch, soa, asked);
    ServedEntrySyncsIff(p, r, soa, asked, ch);
  }

  // ---------------------------------------------------------------------------
  // Runs
  // ---------------------------------------------------------------------------

  datatype Net = Net(primary: StoreView, journal: seq<Changeset>, replica: Option<StoreView>)

  datatype Action =
    | Apply(adds: seq<RR>, removes: seq<RR>)
    | Purge
    | Transfer(listing: seq<RR>, made: Bytes)

  /** The request a replica sends: a full one when it has no zone or serial zero. */
  function Question(n: Net, made: Bytes): Option<RR> {
    if n.replica.None? || n.replica.value.serial == 0 then None
    else Some(Asking(n.primary.origin, n.replica.value.serial, made))
  }

  /** The store a replica reads an answer against. */
  function Reading(n: Net): Option<StoreView> {
    if n.replica.None? || n.replica.value.serial == 0 then None else n.replica
  }

  function Next(n: Net, a: Action): Net {
    match a
    case Apply(adds, removes) =>
      var s := ApplySpec(n.primary, adds, removes);
      Net(s.0, n.journal + (if s.1.Some? then [s.1.value] else []), n.replica)
    case Purge => n.(journal := [])
    case Transfer(listing, made) =>
      var answer := Answer(n.primary, n.journal, Question(n, made), listing);
      if answer.None? then n else n.(replica := Some(Follow(n.primary.origin, Reading(n), answer.value).0))
  }

  /** Past states of the primary: the record set at every serial it had. */
  type History = map<u32, set<RR>>

  ghost function Remembered(h: History, n: Net, a: Action): History {
    if a.Apply? then h[Next(n, a).primary.serial := RecordsOf(Next(n, a).primary)] else h
  }

  /** A request that stops at a record that does not pack, with what came before it applied. */
  ghost predicate HalfWay(v: StoreView, adds: seq<RR>, removes: seq<RR>) {
    var s := Steps(v, Changes(adds, removes));
    !s.1 && AdmissibleRun(v, Changes(adds, removes)) && HasSOA(RecordsOf(s.0)) && Unmixed(s.0)
  }

  /** A step of a run: sound requests with serials never used before, failing requests that end at such a serial or
      change no record, listings that show the zone as it is. */
  ghost predicate Proper(h: History, n: Net, a: Action) {
    match a
    case Apply(adds, removes) =>
      var v' := ApplySpec(n.primary, adds, removes).0;
      || (Sound(n.primary, adds, removes) && v'.serial !in h)
      || (HalfWay(n.primary, adds, removes) && (v'.serial !in h || RecordsOf(v') == RecordsOf(n.primary)))
    case Purge => true
    case Transfer(listing, _) => Elems(listing) == UnpackedOf(n.primary)
  }

  ghost predicate GoodPrimary(p: StoreView) {
    Good(p) && Unmixed(p) && HasSOA(RecordsOf(p))
  }

  ghost predicate Known(h: History, v: StoreView) {
    v.serial in h && h[v.serial] == RecordsOf(v)
  }

  ghost predicate JournalExplained(h: History, origin: Name, journal: seq<Changeset>) {
    forall ch | ch in journal ::
      ch.from in h && ch.to in h && Explains(ch, origin, h[ch.from], h[ch.to])
  }

  /** What holds throughout: the primary is in good order, the journal tells how its past states came about, and the
      replica is one of them. */
  ghost predicate Inv(h: History, n: Net) {
    && GoodPrimary(n.primary) && Known(h, n.primary)
    && JournalExplained(h, n.primary.origin, n.journal)
    && (n.replica.Some? ==>
          Good(n.replica.value) && n.replica.value.origin == n.primary.origin && Known(h, n.replica.value))
  }

  lemma {:induction false} EntryFound(journal: seq<Changeset>, from: u32, to: u32)
    ensures Entry(journal, from, to).Some? ==>
      var ch := Entry(journal, from, to).value; ch in journal && ch.from == from && ch.to == to
  {
    if journal != [] && !(journal[0].from == from && journal[0].to == to) {
      EntryFound(journal[1..], from, to);
      assert journal == [journal[0]] + journal[1..];
    }
  }

  /** Every completed transfer leaves the replica in sync with the primary as it is then. */
  lemma TransferSyncs(h: History, n: Net, listing: seq<RR>, made: Bytes)
    requires Inv(h, n) && Elems(listing) == UnpackedOf(n.primary)
    ensures var n' := Next(n, Transfer(listing, made));
            n'.replica.Some? && Good(n'.replica.value) && InSync(n.primary, n'.replica.value)
  {
    hide Good, Unmixed, UnpackedOf, RecordsOf, InSync, Follow, Explains, ReadSOA, Response, FullResponse, Entry;
    var p := n.primary;
    var soa := StoredSOA(p);
    var q := Question(n, made);
    if q.Some? && Entry(n.journal, SerialOf(q.value), SerialOf(soa)).Some? {
      var r := n.replica.value;
      EntryFound(n.journal, SerialOf(q.value), SerialOf(soa));
      var ch := Entry(n.journal, SerialOf(q.value), SerialOf(soa)).value;
      IncrementalTransferSyncs(p, r, soa, q.value, ch);
    } else {
      FullTransferSyncs(p, Reading(n), soa, listing);
    }
  }

  lemma StoredSOA(p: StoreView) returns (soa: RR)
    requires GoodPrimary(p)
    ensures soa in RecordsOf(p) && IsSOA(soa) && SerialOf(soa) == p.serial && ReadSOA(p) == Some(soa)
  {
    hide Unmixed, Shape, Agree, Consistent, RecordsOf, ReadSOA;
    soa :| soa in RecordsOf(p) && IsSOA(soa);
    ReadsStoredSOA(p, soa);
  }

  /** Every proper step keeps the invariant. */
  lemma StepKeepsInv(h: History, n: Net, a: Action)
    requires Inv(h, n) && Proper(h, n, a)
    ensures Inv(Remembered(h, n, a), Next(n, a))
    ensures Next(n, a).primary.origin == n.primary.origin
  {
    hide Good, Unmixed, Sound, UnpackedOf, RecordsOf, InSync, Explains, ApplySpec, Follow, Answer, HalfWay;
    match a
    case Apply(adds, removes) =>
      if HalfWay(n.primary, adds, removes) {
        HalfWayIsGood(n.primary, adds, removes);
        assert n.journal + [] == n.journal;
      } else {
        ApplyExplained(n.primary, adds, removes);
      }
    case Purge =>
    case Transfer(listing, made) =>
      TransferSyncs(h, n, listing, made);
      SyncIsKnown(h, n.primary, Next(n, a).replica.value);
  }

  lemma HalfWayIsGood(v: StoreView, adds: seq<RR>, removes: seq<RR>)
    requires GoodPrimary(v) && HalfWay(v, adds, removes)
    ensures var s := ApplySpec(v, adds, removes);
            && GoodPrimary(s.0) && s.0.origin == v.origin && s.1.None?
            && (RecordsOf(s.0) == RecordsOf(v) ==> s.0.serial == v.serial)
  {
    hide Unmixed, Steps, AdmissibleRun, Shape, Agree, Consistent, RecordsOf;
    RunKeepsGood(v, Changes(adds, removes));
  }

  lemma SyncIsKnown(h: History, p: StoreView, r: StoreView)
    requires Known(h, p) && InSync(p, r)
    ensures Known(h, r) && r.origin == p.origin
  {
    hide RecordsOf;
  }

  function Run(n: Net, actions: seq<Action>): Net {
    if actions == [] then n else Next(Run(n, actions[..|actions| - 1]), actions[|actions| - 1])
  }

  ghost function RunHistory(h: History, n: Net, actions: seq<Action>): History {
    if actions == [] then h
    else
      var init := actions[..|actions| - 1];
      Remembered(RunHistory(h, n, init), Run(n, init), actions[|actions| - 1])
  }

  ghost predicate ProperRun(h: History, n: Net, actions: seq<Action>) {
    actions == [] ||
    (var init := actions[..|actions| - 1];
     ProperRun(h, n, init) && Proper(RunHistory(h, n, init), Run(n, init), actions[|actions| - 1]))
  }

  lemma {:induction false} RunKeepsInv(h: History, n: Net, actions: seq<Action>)
    requires Inv(h, n) && ProperRun(h, n, actions)
    ensures Inv(RunHistory(h, n, actions), Run(n, actions))
  {
    hide Inv, Proper, Next, Remembered;
    if actions != [] {
      var init := actions[..|actions| - 1];
      RunKeepsInv(h, n, init);
      StepKeepsInv(RunHistory(h, n, init), Run(n, init), actions[|actions| - 1]);
    }
  }

  /** A primary that was loaded, without journal and without replica. */
  function Loaded(primary: StoreView): Net {
    Net(primary, [], None)
  }

  /** Replication converges: in every run of change requests, journal purges and transfers, a transfer leaves the
      replica with exactly the primary's records, count, serial and indexes. */
  lemma ReplicationConverges(primary: StoreView, actions: seq<Action>)
    requires GoodPrimary(primary) && ProperRun(map[primary.serial := RecordsOf(primary)], Loaded(primary), actions)
    requires actions != [] && actions[|actions| - 1].Transfer?
    ensures var n := Run(Loaded(primary), actions); n.replica.Some? && InSync(n.primary, n.replica.value)
  {
    hide GoodPrimary, RecordsOf, Good, InSync, Next, Remembered, Answer;
    var h := map[primary.serial := RecordsOf(primary)];
    var init, last := actions[..|actions| - 1], actions[|actions| - 1];
    RunKeepsInv(h, Loaded(primary), init);
    TransferSyncs(RunHistory(h, Loaded(primary), init), Run(Loaded(primary), init), last.listing, last.made);
    TransferKeepsPrimary(Run(Loaded(primary), init), last);
  }

  lemma TransferKeepsPrimary(n: Net, a: Action)
    requires a.Transfer?
    ensures Next(n, a).primary == n.primary
  {
  }

  /** Between transfers the replica is always some past state of the primary, never a mixture. */
  lemma ReplicaIsAPastState(primary: StoreView, actions: seq<Action>)
    requires GoodPrimary(primary) && ProperRun(map[primary.serial := RecordsOf(primary)], Loaded(primary), actions)
    ensures var n, h := Run(Loaded(primary), actions), RunHistory(map[primary.serial := RecordsOf(primary)],
            Loaded(primary), actions);
            n.replica.Some? ==> Good(n.replica.value) && Known(h, n.replica.value)
  {
    hide GoodPrimary, RecordsOf, Good;
    RunKeepsInv(map[primary.serial := RecordsOf(primary)], Loaded(primary), actions);
  }

  // ---------------------------------------------------------------------------
  // The client
  // ---------------------------------------------------------------------------

  /** Reads an answer: a full one builds a new store, differences are applied to the replica's own. */
  method ReadAnswer(origin: Name, replica: Store?, envelopes: seq<seq<RR>>) returns (updated: Store, err: bool)
    requires replica != null ==> replica.Valid()
    modifies replica, if replica == null then {} else replica.nodes.Values
    ensures updated.Valid()
    ensures (updated.state, !err) ==
            Follow(origin, if replica == null then None else Some(old(replica.state)), Flatten(envelopes))
  {
    hide Store.Valid, Steps, TouchedBy, ParseSpec, Stripped, Flatten;
    var all := Receive(envelopes);
    if replica == null {
      updated, err := FromAXFR(origin, all);
      return;
    }
    SerialField(replica);
    var adds, removes, _, fallback := ParseIXFR(all, replica.serial);
    if fallback {
      var inner := StripSOAEnvelope(all);
      updated, err := FromAXFR(origin, inner);
      return;
    }
    var _, failed := replica.ApplyChanges(adds, removes);
    updated, err := replica, failed;
  }

  /** Asks the primary and follows its answer: one transfer step of a run. */
  method TransferOnce(p: Primary, replica: Store?, made: Bytes) returns (updated: Store?, ghost listing: seq<RR>)
    requires p.store.Valid()
    requires replica != null ==> replica.Valid() && replica != p.store && replica.nodes.Values !! p.store.nodes.Values
    modifies replica, if replica == null then {} else replica.nodes.Values
    ensures Elems(listing) == UnpackedOf(p.store.state) && (updated != null ==> updated.Valid())
    ensures p.store.state == old(p.store.state)
    ensures var before := if replica == null then None else Some(old(replica.state));
            Next(Net(p.store.state, p.journal, before), Transfer(listing, made)).replica ==
            if updated == null then None else Some(updated.state)
  {
    hide Store.Valid, UnpackedOf, Answer, Follow, Flatten;
    ghost var before := if replica == null then None else Some(replica.state);
    var question: Option<RR> := None;
    var reading: Store? := null;
    OriginField(p.store);
    if replica != null {
      SerialField(replica);
      if replica.serial != 0 {
        question := Some(Asking(p.store.origin, replica.serial, made));
        reading := replica;
      }
    }
    var envelopes;
    envelopes, listing := p.HandleXFR(question);
    if envelopes.None? {
      return replica, listing;
    }
    var err;
    updated, err := ReadAnswer(p.store.origin, reading, envelopes.value);
  }

  lemma OriginField(st: Store)
    requires st.Valid()
    ensures st.origin == st.state.origin
  {
  }
}

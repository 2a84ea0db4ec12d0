/** What the zone store's operations do to its state, and the agreement between records and indexes they keep. */
module StoreSpec {
  import opened Bytes
  import opened Names
  import opened Records

  datatype NodeView = NodeView(sets: Sets, isDelegation: bool, hasDS: bool)

  /** The state of a store. */
  datatype StoreView = StoreView(
    origin: Name,
    serial: u32,
    nodes: map<Name, NodeView>,
    nsec3: map<Bytes, NSEC3Rec>,
    expiry: map<Bytes, ExpiryRec>,
    rrs: int)

  function EmptyStore(origin: Name): StoreView {
    StoreView(origin, 0, map[], map[], map[], 0)
  }

  function Flagged(origin: Name, name: Name, sets: Sets): NodeView {
    NodeView(sets, name != origin && NS in sets, DS in sets)
  }

  function SetsIn(nodes: map<Name, NodeView>, name: Name): Sets {
    if name in nodes then nodes[name].sets else map[]
  }

  function SetsAt(v: StoreView, name: Name): Sets {
    SetsIn(v.nodes, name)
  }

  /** The nodes after filing a record, and after taking one out of a node that exists. */
  function Filed(origin: Name, nodes: map<Name, NodeView>, rr: RR): map<Name, NodeView> {
    nodes[rr.name := Flagged(origin, rr.name, AddToSets(SetsIn(nodes, rr.name), rr))]
  }

  function TakenOut(origin: Name, nodes: map<Name, NodeView>, rr: RR): map<Name, NodeView> {
    var sets := RemoveFromSets(SetsIn(nodes, rr.name), rr);
    if sets == map[] then nodes - {rr.name} else nodes[rr.name := Flagged(origin, rr.name, sets)]
  }

  predicate Stored(v: StoreView, rr: RR) {
    Holds(SetsAt(v, rr.name), rr)
  }

  /** The first apex record of a type, if any. */
  function ApexFirst(v: StoreView, t: nat): Option<RR> {
    var sets := SetsAt(v, v.origin);
    if t in sets && sets[t].rdata != [] then Some(Unpack(sets[t])[0]) else None
  }

  function ApexSOA(v: StoreView): Option<RR> {
    ApexFirst(v, SOA)
  }

  function Indexed(v: StoreView, rr: RR): StoreView {
    match rr.data
    case NSEC3Data(_, _, _, _, _) => v.(nsec3 := v.nsec3[NSEC3Key(rr.name) := MakeNSEC3Rec(rr)])
    case RRSIGData(_) => v.(expiry := v.expiry[SignatureKey(rr) := MakeExpiryRec(rr)])
    case _ => v
  }

  function Deindexed(v: StoreView, rr: RR): StoreView {
    match rr.data
    case NSEC3Data(_, _, _, _, _) =>
      (match HashFromOwner(rr.name)
       case Some(h) => v.(nsec3 := v.nsec3 - {h})
       case None => v)
    case RRSIGData(_) => v.(expiry := v.expiry - {SignatureKey(rr)})
    case _ => v
  }

  function WithSerialOf(v: StoreView, soa: Option<RR>): StoreView {
    if soa.Some? && soa.value.data.SOAData? then v.(serial := soa.value.data.serial) else v
  }

  /** Adding a record; `None` when its rdata does not pack. */
  function AddSpec(v: StoreView, rr: RR): Option<StoreView> {
    if !rr.ClassAccepted() then Some(v)
    else if !rr.Packs() then None
    else
      var v1 := v.(nodes := Filed(v.origin, v.nodes, rr), rrs := v.rrs + if Stored(v, rr) then 0 else 1);
      var v2 := WithSerialOf(v1, Some(rr));
      Some(Indexed(v2, rr))
  }

  /** Removing a record; `None` when its rdata does not pack. A record at an absent node is ignored entirely. */
  function RemoveSpec(v: StoreView, rr: RR): Option<StoreView> {
    if rr.name !in v.nodes then Some(v)
    else if !rr.Packs() then None
    else
      var v1 := v.(nodes := TakenOut(v.origin, v.nodes, rr), rrs := v.rrs - if Stored(v, rr) then 1 else 0);
      var v2 := Deindexed(v1, rr);
      Some(if rr.data.SOAData? then WithSerialOf(v2, ApexSOA(v2)) else v2)
  }

  // ---------------------------------------------------------------------------
  // Change lists
  // ---------------------------------------------------------------------------

  datatype Change = Add(rr: RR) | Remove(rr: RR)

  function Step(v: StoreView, c: Change): Option<StoreView> {
    match c case Add(rr) => AddSpec(v, rr) case Remove(rr) => RemoveSpec(v, rr)
  }

  /** Applies changes in order and stops in front of the first one that fails; the second component tells whether all
      of them were applied. */
  function Steps(v: StoreView, cs: seq<Change>): (StoreView, bool)
    decreases |cs|
  {
    if cs == [] then (v, true)
    else match Step(v, cs[0])
         case Some(v') => Steps(v', cs[1..])
         case None => (v, false)
  }

  function Changes(adds: seq<RR>, removes: seq<RR>): (cs: seq<Change>)
    ensures |cs| == |removes| + |adds|
  {
    seq(|removes|, i requires 0 <= i < |removes| => Remove(removes[i])) +
    seq(|adds|, i requires 0 <= i < |adds| => Add(adds[i]))
  }

  lemma {:induction false} StepsConcat(v: StoreView, cs: seq<Change>, ds: seq<Change>)
    ensures Steps(v, cs + ds) == if Steps(v, cs).1 then Steps(Steps(v, cs).0, ds) else Steps(v, cs)
    decreases |cs|
  {
    if cs == [] {
      assert cs + ds == ds;
    } else {
      assert (cs + ds)[1..] == cs[1..] + ds;
      if Step(v, cs[0]).Some? { StepsConcat(Step(v, cs[0]).value, cs[1..], ds); }
    }
  }

  // ---------------------------------------------------------------------------
  // Invariants
  // ---------------------------------------------------------------------------

  ghost function RecordsOf(v: StoreView): set<RR> {
    set n, t, rr | n in v.nodes && t in v.nodes[n].sets && rr in v.nodes[n].sets[t].rdata :: rr
  }

  ghost predicate NodesOk(v: StoreView) {
    forall n | n in v.nodes :: NodeOk(v.origin, n, v.nodes[n])
  }

  ghost predicate NodeOk(origin: Name, name: Name, node: NodeView) {
    node.sets != map[] && WellFiled(name, node.sets) && node == Flagged(origin, name, node.sets)
  }

  /** No empty node, records filed where they belong, flags as a scan of the node gives, and an exact counter. */
  ghost predicate Shape(v: StoreView) {
    && NodesOk(v)
    && v.rrs == |RecordsOf(v)|
  }

  /** Under `Shape`, being in the record set is being stored at the own name and type. */
  lemma RecordsAreStored(v: StoreView)
    requires NodesOk(v)
    ensures forall rr :: rr in RecordsOf(v) <==> Stored(v, rr)
  {
    forall rr | Stored(v, rr) ensures rr in RecordsOf(v) {
      assert rr.name in v.nodes && rr.Type() in v.nodes[rr.name].sets;
    }
  }

  /** The index entries a scan of the records gives. */
  ghost function NSEC3Entries(recs: set<RR>): set<(Bytes, NSEC3Rec)> {
    set rr | rr in recs && rr.data.NSEC3Data? :: (NSEC3Key(rr.name), MakeNSEC3Rec(rr))
  }

  ghost function ExpiryEntries(recs: set<RR>): set<(Bytes, ExpiryRec)> {
    set rr | rr in recs && rr.data.RRSIGData? :: (SignatureKey(rr), MakeExpiryRec(rr))
  }

  ghost predicate IndexIs<V>(index: map<Bytes, V>, entries: set<(Bytes, V)>) {
    && (forall k | k in index :: (k, index[k]) in entries)
    && (forall e | e in entries :: e.0 in index && index[e.0] == e.1)
  }

  /** The NSEC3 and expiry indexes are what a scan of all records gives. */
  ghost predicate Agree(v: StoreView) {
    IndexIs(v.nsec3, NSEC3Entries(RecordsOf(v))) && IndexIs(v.expiry, ExpiryEntries(RecordsOf(v)))
  }

  /** Two records that share an index entry. */
  predicate SameEntry(a: RR, b: RR) {
    || (a.data.NSEC3Data? && b.data.NSEC3Data? && NSEC3Key(a.name) == NSEC3Key(b.name))
    || (a.data.RRSIGData? && b.data.RRSIGData? && SignatureKey(a) == SignatureKey(b))
  }

  predicate UndecodableOwner(rr: RR) {
    rr.data.NSEC3Data? && HashFromOwner(rr.name).None?
  }

  /** Every record has its own, decodable, index entry. */
  ghost predicate Indexable(recs: set<RR>) {
    && (forall a, b | a in recs && b in recs && SameEntry(a, b) :: a == b)
    && (forall a | a in recs :: !UndecodableOwner(a))
  }

  /** Two records whose shared index entry would have different contents. */
  predicate Clash(a: RR, b: RR) {
    || (a.data.NSEC3Data? && b.data.NSEC3Data? && NSEC3Key(a.name) == NSEC3Key(b.name) &&
        MakeNSEC3Rec(a) != MakeNSEC3Rec(b))
    || (a.data.RRSIGData? && b.data.RRSIGData? && SignatureKey(a) == SignatureKey(b) &&
        MakeExpiryRec(a) != MakeExpiryRec(b))
  }

  /** Every SOA is at the apex and carries the store's serial. */
  ghost predicate SerialAgrees(v: StoreView) {
    forall rr | rr in RecordsOf(v) && rr.data.SOAData? :: rr.name == v.origin && rr.data.serial == v.serial
  }

  // ---------------------------------------------------------------------------
  // Every operation keeps the shape and changes exactly one record
  // ---------------------------------------------------------------------------

  lemma EmptyStoreFacts(origin: Name)
    ensures var v := EmptyStore(origin);
            Shape(v) && Agree(v) && SerialAgrees(v) && RecordsOf(v) == {}
  {
    assert RecordsOf(EmptyStore(origin)) == {};
  }

  /** Replacing the RRsets of one name changes the record set at that name only. */
  lemma NodeReplaced(v: StoreView, v': StoreView, name: Name, sets: Sets)
    requires NodesOk(v)
    requires WellFiled(name, sets) && v'.origin == v.origin
    requires v'.nodes == if sets == map[] then v.nodes - {name} else v.nodes[name := Flagged(v.origin, name, sets)]
    ensures NodesOk(v')
    ensures forall x :: x in RecordsOf(v') <==> if x.name == name then Holds(sets, x) else x in RecordsOf(v)
  {
    RecordsAreStored(v);
    RecordsAreStored(v');
  }

  /** How adding `rr` changed the state, part by part. */
  ghost predicate Added(v: StoreView, v': StoreView, rr: RR) {
    AddedNode(v, v', rr) && AddedEntry(v, v', rr)
  }

  ghost predicate AddedNode(v: StoreView, v': StoreView, rr: RR) {
    && rr.Packs() && rr.ClassAccepted() && v'.origin == v.origin
    && v'.nodes == Filed(v.origin, v.nodes, rr)
    && v'.rrs == v.rrs + (if Stored(v, rr) then 0 else 1)
    && v'.serial == (if rr.data.SOAData? then rr.data.serial else v.serial)
  }

  ghost predicate AddedEntry(v: StoreView, v': StoreView, rr: RR) {
    && v'.nsec3 == (if rr.data.NSEC3Data? then v.nsec3[NSEC3Key(rr.name) := MakeNSEC3Rec(rr)] else v.nsec3)
    && v'.expiry == (if rr.data.RRSIGData? then v.expiry[SignatureKey(rr) := MakeExpiryRec(rr)] else v.expiry)
  }

  /** How removing `rr` from a node that exists changed the state. */
  ghost predicate Removed(v: StoreView, v': StoreView, rr: RR) {
    RemovedNode(v, v', rr) && RemovedEntry(v, v', rr)
  }

  ghost predicate RemovedNode(v: StoreView, v': StoreView, rr: RR) {
    && rr.name in v.nodes && rr.Packs() && v'.origin == v.origin
    && v'.nodes == TakenOut(v.origin, v.nodes, rr)
    && v'.rrs == v.rrs - (if Stored(v, rr) then 1 else 0)
  }

  ghost predicate RemovedEntry(v: StoreView, v': StoreView, rr: RR) {
    && v'.nsec3 == (if rr.data.NSEC3Data? && HashFromOwner(rr.name).Some?
                    then v.nsec3 - {HashFromOwner(rr.name).value} else v.nsec3)
    && v'.expiry == (if rr.data.RRSIGData? then v.expiry - {SignatureKey(rr)} else v.expiry)
  }

  lemma AddSteps(v: StoreView, rr: RR)
    requires AddSpec(v, rr).Some? && rr.ClassAccepted()
    ensures Added(v, AddSpec(v, rr).value, rr)
  {
  }

  /** The serial after a removal: the apex SOA's, when an SOA was removed and one is left. */
  ghost predicate RemovedSerial(v: StoreView, v': StoreView, rr: RR) {
    v'.serial == if rr.data.SOAData? && ApexSOA(v').Some? && ApexSOA(v').value.data.SOAData?
                 then ApexSOA(v').value.data.serial else v.serial
  }

  lemma RemoveSteps(v: StoreView, rr: RR)
    requires RemoveSpec(v, rr).Some? && rr.name in v.nodes
    ensures Removed(v, RemoveSpec(v, rr).value, rr) && RemovedSerial(v, RemoveSpec(v, rr).value, rr)
  {
  }

  lemma AddedRecords(v: StoreView, v': StoreView, rr: RR)
    requires NodesOk(v) && AddedNode(v, v', rr)
    ensures NodesOk(v')
    ensures RecordsOf(v') == RecordsOf(v) + {rr}
  {
    var sets := AddToSets(SetsAt(v, rr.name), rr);
    AddToSetsFacts(rr.name, SetsAt(v, rr.name), rr);
    NodeReplaced(v, v', rr.name, sets);
    RecordsAreStored(v);
    forall x ensures x in RecordsOf(v') <==> x in RecordsOf(v) + {rr} {
      if x.name == rr.name { assert Holds(sets, x) <==> Stored(v, x) || x == rr; }
    }
  }

  lemma AddedShape(v: StoreView, v': StoreView, rr: RR)
    requires Shape(v) && AddedNode(v, v', rr)
    ensures Shape(v') && RecordsOf(v') == RecordsOf(v) + {rr}
  {
    hide NodesOk;
    AddedRecords(v, v', rr);
    RecordsAreStored(v);
    var recs := RecordsOf(v);
    if rr in recs { assert recs + {rr} == recs; } else { assert |recs + {rr}| == |recs| + 1; }
  }

  lemma RemovedRecords(v: StoreView, v': StoreView, rr: RR)
    requires NodesOk(v) && RemovedNode(v, v', rr)
    ensures NodesOk(v')
    ensures RecordsOf(v') == RecordsOf(v) - {rr}
  {
    var sets := RemoveFromSets(SetsAt(v, rr.name), rr);
    RemoveFromSetsFacts(rr.name, SetsAt(v, rr.name), rr);
    NodeReplaced(v, v', rr.name, sets);
    RecordsAreStored(v);
    forall x ensures x in RecordsOf(v') <==> x in RecordsOf(v) - {rr} {
      if x.name == rr.name { assert Holds(sets, x) <==> Stored(v, x) && x != rr; }
    }
  }

  lemma RemovedShape(v: StoreView, v': StoreView, rr: RR)
    requires Shape(v) && RemovedNode(v, v', rr)
    ensures Shape(v') && RecordsOf(v') == RecordsOf(v) - {rr}
  {
    hide NodesOk;
    RemovedRecords(v, v', rr);
    RecordsAreStored(v);
    var recs := RecordsOf(v);
    if rr !in recs { assert recs - {rr} == recs; } else { assert |recs - {rr}| == |recs| - 1; }
  }

  /** Adding a record keeps the shape and adds exactly that record. */
  lemma AddEffect(v: StoreView, rr: RR)
    requires Shape(v) && AddSpec(v, rr).Some? && rr.ClassAccepted()
    ensures var v' := AddSpec(v, rr).value;
            Shape(v') && v'.origin == v.origin && RecordsOf(v') == RecordsOf(v) + {rr}
  {
    AddSteps(v, rr);
    AddedShape(v, AddSpec(v, rr).value, rr);
  }

  /** Removing a record keeps the shape and removes exactly that record. */
  lemma RemoveEffect(v: StoreView, rr: RR)
    requires Shape(v) && RemoveSpec(v, rr).Some?
    ensures var v' := RemoveSpec(v, rr).value;
            Shape(v') && v'.origin == v.origin && RecordsOf(v') == RecordsOf(v) - {rr}
  {
    if rr.name in v.nodes {
      RemoveSteps(v, rr);
      RemovedShape(v, RemoveSpec(v, rr).value, rr);
    } else {
      RecordsAreStored(v);
      assert RecordsOf(v) - {rr} == RecordsOf(v);
    }
  }

  // ---------------------------------------------------------------------------
  // Index agreement
  // ---------------------------------------------------------------------------

  lemma EntryAdded<V>(index: map<Bytes, V>, entries: set<(Bytes, V)>, k: Bytes, x: V)
    requires IndexIs(index, entries)
    ensures IndexIs(index[k := x], entries + {(k, x)}) <==> forall e | e in entries && e.0 == k :: e.1 == x
  {
    var index', entries' := index[k := x], entries + {(k, x)};
    if e :| e in entries && e.0 == k && e.1 != x {
      assert e in entries';
    } else {
      forall j | j in index' ensures (j, index'[j]) in entries' {}
      forall e | e in entries' ensures e.0 in index' && index'[e.0] == e.1 {}
    }
  }

  lemma EntryRemoved<V>(index: map<Bytes, V>, entries: set<(Bytes, V)>, k: Bytes)
    requires IndexIs(index, entries)
    ensures IndexIs(index - {k}, set e | e in entries && e.0 != k)
    ensures IndexIs(index - {k}, entries) <==> k !in index
  {
    if k in index { assert (k, index[k]) in entries; }
  }

  lemma NSEC3AfterAdd(recs: set<RR>, rr: RR, index: map<Bytes, NSEC3Rec>)
    requires IndexIs(index, NSEC3Entries(recs)) && rr.data.NSEC3Data?
    ensures IndexIs(index[NSEC3Key(rr.name) := MakeNSEC3Rec(rr)], NSEC3Entries(recs + {rr})) <==>
            forall x | x in recs :: !Clash(x, rr)
  {
    hide NSEC3Key, MakeNSEC3Rec;
    var k, rec := NSEC3Key(rr.name), MakeNSEC3Rec(rr);
    var entries := NSEC3Entries(recs);
    assert NSEC3Entries(recs + {rr}) == entries + {(k, rec)};
    EntryAdded(index, entries, k, rec);
    if e :| e in entries && e.0 == k && e.1 != rec {
      var x :| x in recs && x.data.NSEC3Data? && e == (NSEC3Key(x.name), MakeNSEC3Rec(x));
      assert Clash(x, rr);
    }
    if x :| x in recs && Clash(x, rr) {
      assert (NSEC3Key(x.name), MakeNSEC3Rec(x)) in entries;
    }
  }

  lemma ExpiryAfterAdd(recs: set<RR>, rr: RR, index: map<Bytes, ExpiryRec>)
    requires IndexIs(index, ExpiryEntries(recs)) && rr.data.RRSIGData?
    ensures IndexIs(index[SignatureKey(rr) := MakeExpiryRec(rr)], ExpiryEntries(recs + {rr})) <==>
            forall x | x in recs :: !Clash(x, rr)
  {
    hide SignatureKey, MakeExpiryRec;
    var k, rec := SignatureKey(rr), MakeExpiryRec(rr);
    var entries := ExpiryEntries(recs);
    assert ExpiryEntries(recs + {rr}) == entries + {(k, rec)};
    EntryAdded(index, entries, k, rec);
    if e :| e in entries && e.0 == k && e.1 != rec {
      var x :| x in recs && x.data.RRSIGData? && e == (SignatureKey(x), MakeExpiryRec(x));
      assert Clash(x, rr);
    }
    if x :| x in recs && Clash(x, rr) {
      assert (SignatureKey(x), MakeExpiryRec(x)) in entries;
    }
  }

  lemma OtherEntriesSame(recs: set<RR>, rr: RR)
    ensures !rr.data.NSEC3Data? ==> NSEC3Entries(recs + {rr}) == NSEC3Entries(recs) == NSEC3Entries(recs - {rr})
    ensures !rr.data.RRSIGData? ==> ExpiryEntries(recs + {rr}) == ExpiryEntries(recs) == ExpiryEntries(recs - {rr})
  {
  }

  /** Adding keeps index agreement exactly when no stored record claims the same entry with different contents. */
  lemma AddKeepsAgreement(v: StoreView, rr: RR)
    requires Shape(v) && Agree(v) && AddSpec(v, rr).Some? && rr.ClassAccepted()
    ensures Agree(AddSpec(v, rr).value) <==> forall x | x in RecordsOf(v) :: !Clash(x, rr)
  {
    AddEffect(v, rr);
    AddSteps(v, rr);
    AddedAgreement(v, AddSpec(v, rr).value, rr);
  }

  lemma AddedAgreement(v: StoreView, v': StoreView, rr: RR)
    requires Agree(v) && AddedEntry(v, v', rr) && RecordsOf(v') == RecordsOf(v) + {rr}
    ensures Agree(v') <==> forall x | x in RecordsOf(v) :: !Clash(x, rr)
  {
    OtherEntriesSame(RecordsOf(v), rr);
    if rr.data.NSEC3Data? {
      NSEC3AfterAdd(RecordsOf(v), rr, v.nsec3);
    } else if rr.data.RRSIGData? {
      ExpiryAfterAdd(RecordsOf(v), rr, v.expiry);
    }
  }

  lemma NSEC3AfterRemove(recs: set<RR>, rr: RR, index: map<Bytes, NSEC3Rec>)
    requires IndexIs(index, NSEC3Entries(recs)) && Indexable(recs) && rr.data.NSEC3Data? && !UndecodableOwner(rr)
    ensures IndexIs(index - {NSEC3Key(rr.name)}, NSEC3Entries(recs - {rr})) <==>
            rr in recs || forall x | x in recs :: !SameEntry(x, rr)
  {
    hide MakeNSEC3Rec;
    var k, entries := NSEC3Key(rr.name), NSEC3Entries(recs);
    EntryRemoved(index, entries, k);
    if rr in recs {
      assert NSEC3Entries(recs - {rr}) == (set e | e in entries && e.0 != k) by {
        forall x | x in recs && x != rr ensures !SameEntry(x, rr) {}
      }
    } else {
      assert recs - {rr} == recs;
      if x :| x in recs && SameEntry(x, rr) {
        assert (NSEC3Key(x.name), MakeNSEC3Rec(x)) in entries;
      }
    }
  }

  lemma ExpiryAfterRemove(recs: set<RR>, rr: RR, index: map<Bytes, ExpiryRec>)
    requires IndexIs(index, ExpiryEntries(recs)) && Indexable(recs) && rr.data.RRSIGData?
    ensures IndexIs(index - {SignatureKey(rr)}, ExpiryEntries(recs - {rr})) <==>
            rr in recs || forall x | x in recs :: !SameEntry(x, rr)
  {
    hide SignatureKey, MakeExpiryRec;
    var k, entries := SignatureKey(rr), ExpiryEntries(recs);
    EntryRemoved(index, entries, k);
    if rr in recs {
      assert ExpiryEntries(recs - {rr}) == (set e | e in entries && e.0 != k) by {
        forall x | x in recs && x != rr ensures !SameEntry(x, rr) {}
      }
    } else {
      assert recs - {rr} == recs;
      if x :| x in recs && SameEntry(x, rr) {
        assert (SignatureKey(x), MakeExpiryRec(x)) in entries;
      }
    }
  }

  /** Removing keeps index agreement except in one case: the store drops the entry of another record when the named
      record is not stored but its owner is, and its entry is in use. */
  lemma RemoveKeepsAgreement(v: StoreView, rr: RR)
    requires Shape(v) && Agree(v) && Indexable(RecordsOf(v)) && RemoveSpec(v, rr).Some?
    ensures Agree(RemoveSpec(v, rr).value) <==>
            || rr in RecordsOf(v) || rr.name !in v.nodes || UndecodableOwner(rr)
            || forall x | x in RecordsOf(v) :: !SameEntry(x, rr)
  {
    RemoveEffect(v, rr);
    if rr.name in v.nodes {
      RemoveSteps(v, rr);
      RemovedAgreement(v, RemoveSpec(v, rr).value, rr);
    }
  }

  lemma RemovedAgreement(v: StoreView, v': StoreView, rr: RR)
    requires Agree(v) && Indexable(RecordsOf(v)) && RemovedEntry(v, v', rr) && RecordsOf(v') == RecordsOf(v) - {rr}
    ensures Agree(v') <==>
            rr in RecordsOf(v) || UndecodableOwner(rr) || forall x | x in RecordsOf(v) :: !SameEntry(x, rr)
  {
    var recs := RecordsOf(v);
    OtherEntriesSame(recs, rr);
    if UndecodableOwner(rr) {
      assert recs - {rr} == recs;
    } else if rr.data.NSEC3Data? {
      NSEC3AfterRemove(recs, rr, v.nsec3);
    } else if rr.data.RRSIGData? {
      ExpiryAfterRemove(recs, rr, v.expiry);
    }
  }

  // ---------------------------------------------------------------------------
  // Whole runs of changes
  // ---------------------------------------------------------------------------

  /** A record set whose indexes and serial are determined by it: own index entries, one SOA at the apex at most. */
  ghost predicate Consistent(origin: Name, recs: set<RR>) {
    && Indexable(recs)
    && (forall a | a in recs && a.data.SOAData? :: a.name == origin)
    && (forall a, b | a in recs && b in recs && a.data.SOAData? && b.data.SOAData? :: a == b)
  }

  /** Everything the store promises about a consistent record set. */
  ghost predicate Good(v: StoreView) {
    Shape(v) && Agree(v) && SerialAgrees(v) && Consistent(v.origin, RecordsOf(v))
  }

  lemma GoodNodes(v: StoreView)
    requires Good(v)
    ensures NodesOk(v)
  {
  }

  /** Additions keep the record set consistent; removals name a stored record or one whose index entry is unused. */
  ghost predicate Admissible(v: StoreView, c: Change) {
    match c
    case Add(rr) => rr.ClassAccepted() ==> Consistent(v.origin, RecordsOf(v) + {rr})
    case Remove(rr) => rr in RecordsOf(v) || forall x | x in RecordsOf(v) :: !SameEntry(x, rr)
  }

  ghost predicate AdmissibleRun(v: StoreView, cs: seq<Change>)
    decreases |cs|
  {
    cs == [] || (Admissible(v, cs[0]) && (Step(v, cs[0]).Some? ==> AdmissibleRun(Step(v, cs[0]).value, cs[1..])))
  }

  function RecordsAfter(recs: set<RR>, c: Change): set<RR> {
    match c case Add(rr) => (if rr.ClassAccepted() then recs + {rr} else recs) case Remove(rr) => recs - {rr}
  }

  lemma AddSerial(v: StoreView, v': StoreView, rr: RR)
    requires SerialAgrees(v) && AddedNode(v, v', rr) && RecordsOf(v') == RecordsOf(v) + {rr}
    requires Consistent(v.origin, RecordsOf(v'))
    ensures SerialAgrees(v')
  {
    forall x | x in RecordsOf(v') && x.data.SOAData? ensures x.name == v'.origin && x.data.serial == v'.serial {
      if rr.data.SOAData? { assert x == rr; }
    }
  }

  lemma RemoveSerial(v: StoreView, v': StoreView, rr: RR)
    requires SerialAgrees(v) && NodesOk(v') && Consistent(v'.origin, RecordsOf(v')) && v'.origin == v.origin
    requires RecordsOf(v') == RecordsOf(v) - {rr}
    requires v'.serial == v.serial || RemovedSerial(v, v', rr)
    ensures SerialAgrees(v')
  {
    forall x | x in RecordsOf(v') && x.data.SOAData? ensures x.name == v'.origin && x.data.serial == v'.serial {
      FirstSOA(v', x);
    }
  }

  lemma FirstSOA(v: StoreView, x: RR)
    requires NodesOk(v) && Consistent(v.origin, RecordsOf(v)) && x in RecordsOf(v) && x.data.SOAData?
    ensures ApexSOA(v).Some? && ApexSOA(v).value.data == x.data && ApexSOA(v).value.name == v.origin
    ensures ApexSOA(v).value == UnpackOne(SetsAt(v, v.origin)[SOA].ttl, x)
  {
    RecordsAreStored(v);
    var set_ := SetsAt(v, v.origin)[SOA];
    var first := set_.rdata[0];
    assert first in set_.rdata;
    assert Stored(v, first);
    assert first.data.SOAData? by { TypeSOA(first); }
    assert first == x;
    assert Unpack(set_)[0] == UnpackOne(set_.ttl, first);
  }

  lemma TypeSOA(rr: RR)
    requires rr.Packs()
    ensures rr.Type() == SOA <==> rr.data.SOAData?
  {
  }

  lemma ConsistentHasNoClash(origin: Name, recs: set<RR>, rr: RR)
    requires Consistent(origin, recs + {rr})
    ensures forall x | x in recs :: !Clash(x, rr)
  {
    forall x | x in recs ensures !Clash(x, rr) {
      assert SameEntry(x, rr) ==> x == rr;
    }
  }

  /** One step keeps shape, indexes and serial in agreement, and changes the record set by exactly the named record. */
  lemma StepKeepsGood(v: StoreView, c: Change)
    requires Good(v) && Admissible(v, c) && Step(v, c).Some?
    ensures Good(Step(v, c).value) && Step(v, c).value.origin == v.origin
    ensures RecordsOf(Step(v, c).value) == RecordsAfter(RecordsOf(v), c)
  {
    match c
    case Add(rr) =>
      if rr.ClassAccepted() {
        AddEffect(v, rr);
        AddSteps(v, rr);
        AddSerial(v, AddSpec(v, rr).value, rr);
        ConsistentHasNoClash(v.origin, RecordsOf(v), rr);
        AddKeepsAgreement(v, rr);
      }
    case Remove(rr) =>
      RemoveEffect(v, rr);
      if rr.name in v.nodes { RemoveSteps(v, rr); }
      RemoveSerial(v, RemoveSpec(v, rr).value, rr);
      RemoveKeepsAgreement(v, rr);
  }

  ghost function RecordsAfterAll(recs: set<RR>, cs: seq<Change>): set<RR>
    decreases |cs|
  {
    if cs == [] then recs else RecordsAfterAll(RecordsAfter(recs, cs[0]), cs[1..])
  }

  /** Every run of admissible changes keeps the store good; a run that completes has applied every change. */
  lemma {:induction false} RunKeepsGood(v: StoreView, cs: seq<Change>)
    requires Good(v) && AdmissibleRun(v, cs)
    ensures Good(Steps(v, cs).0) && Steps(v, cs).0.origin == v.origin
    ensures Steps(v, cs).1 ==> RecordsOf(Steps(v, cs).0) == RecordsAfterAll(RecordsOf(v), cs)
    decreases |cs|
  {
    if cs != [] && Step(v, cs[0]).Some? {
      StepKeepsGood(v, cs[0]);
      RunKeepsGood(Step(v, cs[0]).value, cs[1..]);
    }
  }

  /** The counter and the filing need no precondition at all: they survive every run from an empty store. */
  lemma {:induction false} RunKeepsShape(v: StoreView, cs: seq<Change>)
    requires Shape(v)
    ensures Shape(Steps(v, cs).0)
    decreases |cs|
  {
    if cs != [] && Step(v, cs[0]).Some? {
      match cs[0] {
        case Add(rr) => if rr.ClassAccepted() { AddEffect(v, rr); }
        case Remove(rr) => RemoveEffect(v, rr);
      }
      RunKeepsShape(Step(v, cs[0]).value, cs[1..]);
    }
  }

  // ---------------------------------------------------------------------------
  // The touched set
  // ---------------------------------------------------------------------------

  /** Names and hashes a change list affects. */
  datatype Touched = Touched(names: set<Name>, nsec3: set<Bytes>, dnskey: bool, nsec3param: bool, soa: bool, added: nat,
          removed: nat)

  const NOTHING := Touched({}, {}, false, false, false, 0, 0)

  function Noted(t: Touched, rr: RR): Touched {
    var t1 := t.(names := t.names + {rr.name});
    if rr.Type() == DNSKEY then t1.(dnskey := true)
    else if rr.Type() == NSEC3PARAM then t1.(nsec3param := true)
    else if rr.Type() == SOA then t1.(soa := true)
    else if rr.Type() == NSEC3 && HashFromOwner(rr.name).Some?
        then t1.(nsec3 := t1.nsec3 + {HashFromOwner(rr.name).value})
    else t1
  }

  function Counted(t: Touched, c: Change): Touched {
    match c case Add(_) => t.(added := t.added + 1) case Remove(_) => t.(removed := t.removed + 1)
  }

  /** The touched set after a change list: a failing change is noted but not counted. */
  function TouchedBy(v: StoreView, t: Touched, cs: seq<Change>): Touched
    decreases |cs|
  {
    if cs == [] then t
    else
      var noted := Noted(t, cs[0].rr);
      match Step(v, cs[0])
      case Some(v') => TouchedBy(v', Counted(noted, cs[0]), cs[1..])
      case None => noted
  }

  ghost predicate SameNode(v: StoreView, v': StoreView, n: Name) {
    (n in v.nodes <==> n in v'.nodes) && (n in v.nodes ==> v.nodes[n] == v'.nodes[n])
  }

  ghost predicate SameHash(v: StoreView, v': StoreView, h: Bytes) {
    (h in v.nsec3 <==> h in v'.nsec3) && (h in v.nsec3 ==> v.nsec3[h] == v'.nsec3[h])
  }

  function SetAt(v: StoreView, n: Name, t: nat): Option<RRSet> {
    if t in SetsAt(v, n) then Some(SetsAt(v, n)[t]) else None
  }

  lemma StepIsLocal(v: StoreView, c: Change)
    requires Step(v, c).Some?
    ensures forall n | n != c.rr.name :: SameNode(v, Step(v, c).value, n)
    ensures Step(v, c).value.origin == v.origin
    ensures c.Add? ==> forall h | !(c.rr.data.NSEC3Data? && h == NSEC3Key(c.rr.name)) ::
            SameHash(v, Step(v, c).value, h)
    ensures c.Remove? ==> forall h | !(c.rr.data.NSEC3Data? && Some(h) == HashFromOwner(c.rr.name)) ::
            SameHash(v, Step(v, c).value, h)
  {
    match c
    case Add(rr) => if rr.ClassAccepted() { AddSteps(v, rr); }
    case Remove(rr) => if rr.name in v.nodes { RemoveSteps(v, rr); }
  }

  ghost predicate Covered(v: StoreView, v': StoreView, t: Touched) {
    && v'.origin == v.origin
    && (forall n | n !in t.names :: SameNode(v, v', n))
    && (forall h | h !in t.nsec3 :: SameHash(v, v', h))
  }

  lemma CoveredCompose(v: StoreView, v': StoreView, v'': StoreView, t: Touched, t': Touched)
    requires Covered(v, v', t) && Covered(v', v'', t') && t.names <= t'.names && t.nsec3 <= t'.nsec3
    ensures Covered(v, v'', t')
  {
    forall n | n !in t'.names ensures SameNode(v, v'', n) {
      assert SameNode(v, v', n) && SameNode(v', v'', n);
    }
    forall h | h !in t'.nsec3 ensures SameHash(v, v'', h) {
      assert SameHash(v, v', h) && SameHash(v', v'', h);
    }
  }

  /** The index key that undecodable owners share, if the list adds an NSEC3 with such an owner: it is not noted. */
  ghost function Unnoted(cs: seq<Change>): set<Bytes> {
    if exists c | c in cs :: c.Add? && UndecodableOwner(c.rr) then {[]} else {}
  }

  function Widened(t: Touched, hashes: set<Bytes>): Touched {
    t.(nsec3 := t.nsec3 + hashes)
  }

  lemma StepIsCovered(v: StoreView, t: Touched, c: Change, unnoted: set<Bytes>)
    requires Step(v, c).Some? && (c.Add? && UndecodableOwner(c.rr) ==> [] in unnoted)
    ensures Covered(v, Step(v, c).value, Widened(Counted(Noted(t, c.rr), c), unnoted))
    ensures t.names <= Counted(Noted(t, c.rr), c).names && t.nsec3 <= Counted(Noted(t, c.rr), c).nsec3
  {
    hide Step, SameNode, SameHash;
    StepIsLocal(v, c);
    if c.rr.data.NSEC3Data? && HashFromOwner(c.rr.name).Some? {
      assert HashFromOwner(c.rr.name).value in Noted(t, c.rr).nsec3;
    }
  }

  lemma {:induction false} ChangesAreCovered(v: StoreView, t: Touched, cs: seq<Change>, unnoted: set<Bytes>)
    requires forall c | c in cs && c.Add? && UndecodableOwner(c.rr) :: [] in unnoted
    ensures t.names <= TouchedBy(v, t, cs).names && t.nsec3 <= TouchedBy(v, t, cs).nsec3
    ensures Covered(v, Steps(v, cs).0, Widened(TouchedBy(v, t, cs), unnoted))
    decreases |cs|
  {
    if cs != [] && Step(v, cs[0]).Some? {
      var c, v' := cs[0], Step(v, cs[0]).value;
      assert c in cs;
      StepIsCovered(v, t, c, unnoted);
      var t' := Counted(Noted(t, c.rr), c);
      ChangesAreCovered(v', t', cs[1..], unnoted);
      CoveredCompose(v, v', Steps(v', cs[1..]).0, Widened(t', unnoted), Widened(TouchedBy(v', t', cs[1..]), unnoted));
    }
  }

  /** Whatever a change list changed is in the touched set it returns: every node and every index entry, but for the
      entry that NSEC3 records with an undecodable owner share. This holds for lists that fail half-way as well. */
  lemma TouchedCoversChanges(v: StoreView, t: Touched, cs: seq<Change>)
    ensures t.names <= TouchedBy(v, t, cs).names && t.nsec3 <= TouchedBy(v, t, cs).nsec3
    ensures Covered(v, Steps(v, cs).0, Widened(TouchedBy(v, t, cs), Unnoted(cs)))
  {
    ChangesAreCovered(v, t, cs, Unnoted(cs));
  }

  lemma StepKeepsOtherTypes(v: StoreView, c: Change, t: nat)
    requires Step(v, c).Some? && c.rr.Type() != t
    ensures forall n :: SetAt(Step(v, c).value, n, t) == SetAt(v, n, t)
  {
    match c
    case Add(rr) => if rr.ClassAccepted() { AddSteps(v, rr); }
    case Remove(rr) => if rr.name in v.nodes { RemoveSteps(v, rr); }
  }

  /** A change list without records of a type leaves every RRset of that type as it was, order included. */
  lemma {:induction false} OtherTypesUnchanged(v: StoreView, cs: seq<Change>, t: nat)
    requires forall c | c in cs :: c.rr.Type() != t
    ensures forall n :: SetAt(Steps(v, cs).0, n, t) == SetAt(v, n, t)
    decreases |cs|
  {
    if cs != [] && Step(v, cs[0]).Some? {
      assert cs[0] in cs;
      StepKeepsOtherTypes(v, cs[0], t);
      OtherTypesUnchanged(Step(v, cs[0]).value, cs[1..], t);
    }
  }

  /** The changes a run gets to: all of them, or those up to and including the one that fails. */
  function Attempted(v: StoreView, cs: seq<Change>): seq<Change>
    decreases |cs|
  {
    if cs == [] then []
    else [cs[0]] + match Step(v, cs[0]) case Some(v') => Attempted(v', cs[1..]) case None => []
  }

  lemma {:induction false} AllAttempted(v: StoreView, cs: seq<Change>)
    ensures Steps(v, cs).1 ==> Attempted(v, cs) == cs
    decreases |cs|
  {
    if cs != [] && Step(v, cs[0]).Some? {
      AllAttempted(Step(v, cs[0]).value, cs[1..]);
      assert cs == [cs[0]] + cs[1..];
    }
  }

  /** The key, parameter and SOA flags are raised exactly when such a record was attempted. */
  lemma {:induction false} TouchedFlags(v: StoreView, t: Touched, cs: seq<Change>)
    ensures TouchedBy(v, t, cs).dnskey <==> t.dnskey || exists c | c in Attempted(v, cs) :: c.rr.Type() == DNSKEY
    ensures TouchedBy(v, t, cs).nsec3param <==>
            t.nsec3param || exists c | c in Attempted(v, cs) :: c.rr.Type() == NSEC3PARAM
    ensures TouchedBy(v, t, cs).soa <==> t.soa || exists c | c in Attempted(v, cs) :: c.rr.Type() == SOA
    decreases |cs|
  {
    hide Step;
    if cs != [] {
      var c, noted := cs[0], Noted(t, cs[0].rr);
      if Step(v, c).Some? {
        var v' := Step(v, c).value;
        TouchedFlags(v', Counted(noted, c), cs[1..]);
        OneMoreAttempted(c, Attempted(v', cs[1..]));
      } else {
        OneMoreAttempted(c, []);
      }
    }
  }

  lemma OneMoreAttempted(c: Change, rest: seq<Change>)
    ensures forall x :: x in [c] + rest <==> x == c || x in rest
  {
  }
}

/** Replication outside its hypotheses: runs that end with a replica out of sync. */
module OutOfSync {
  import opened Bytes
  import opened Names
  import opened Records
  import opened StoreSpec
  import opened Xfr
  import opened PrimaryServer
  import opened Loading
  import opened Replication

  // ---------------------------------------------------------------------------
  // Requests outside the hypotheses of convergence
  // ---------------------------------------------------------------------------

  lemma {:induction false} EntryAppended(journal: seq<Changeset>, ch: Changeset)
    requires Entry(journal, ch.from, ch.to).None?
    ensures Entry(journal + [ch], ch.from, ch.to) == Some(ch)
  {
    if journal == [] {
      assert journal + [ch] == [ch];
    } else {
      assert (journal + [ch])[1..] == journal[1..] + [ch];
      EntryAppended(journal[1..], ch);
    }
  }

  /** The entry of a fair request, and whether applying it as the parser reads it has the meant effect. */
  lemma FairEntry(v: StoreView, adds: seq<RR>, removes: seq<RR>, asked: RR) returns (soa: RR)
    requires Good(v) && Fair(v, adds, removes) && HasSerial(asked, v.serial)
    ensures var v', ch := ApplySpec(v, adds, removes).0, ApplySpec(v, adds, removes).1;
            && GoodPrimary(v') && v'.origin == v.origin && soa in RecordsOf(v') && IsSOA(soa)
            && ch.Some? && ch.value.from == v.serial && ch.value.to == v'.serial && v'.serial != v.serial
            && Fits(ch.value, RecordsOf(v))
            && (Effect(RecordsOf(v), [soa] + Collected(ch.value.adds, ch.value.to),
                       [asked] + ch.value.removes + Lost(ch.value.adds, ch.value.to)) == RecordsOf(v')
                <==> NothingBehind(adds, v.serial))
  {
    hide Good, Steps, Unmixed, RecordsOf, ApplySpec, Effect, Fits, Kept, Lost, Collected;
    if Steps(v, Changes(adds, removes)).0.serial == v.serial {
      soa := BumpedRead(v, adds, removes, asked);
    } else {
      OwnSerialExplained(v, adds, removes);
      var v', ch := ApplySpec(v, adds, removes).0, ApplySpec(v, adds, removes).1.value;
      soa :| soa in RecordsOf(v') && IsSOA(soa);
      OwnSOA(v, adds, removes, soa);
      SameEffect(RecordsOf(v), ch, soa, asked);
    }
  }

  lemma OwnSOA(v: StoreView, adds: seq<RR>, removes: seq<RR>, soa: RR)
    requires Good(v) && Fair(v, adds, removes) && Steps(v, Changes(adds, removes)).0.serial != v.serial
    requires soa in RecordsOf(ApplySpec(v, adds, removes).0) && IsSOA(soa)
    ensures var v' := ApplySpec(v, adds, removes).0;
            Good(v') && HasSerial(soa, v'.serial) && forall rr | rr in RecordsOf(v') && IsSOA(rr) :: rr == soa
    ensures NothingBehind(adds, v.serial)
  {
    hide Agree, Shape, Steps, Unmixed, RecordsOf, BumpSpec, Indexable, Removable;
    MidIsGood(v, adds, removes);
    forall rr | rr in adds ensures !HasSerial(rr, v.serial) { assert rr in Effect(RecordsOf(v), adds, removes); }
  }

  lemma BumpedRead(v: StoreView, adds: seq<RR>, removes: seq<RR>, asked: RR) returns (soa: RR)
    requires Good(v) && Fair(v, adds, removes) && HasSerial(asked, v.serial)
    requires Steps(v, Changes(adds, removes)).0.serial == v.serial
    ensures var v', ch := ApplySpec(v, adds, removes).0, ApplySpec(v, adds, removes).1;
            && GoodPrimary(v') && v'.origin == v.origin && soa in RecordsOf(v') && IsSOA(soa)
            && ch.Some? && ch.value.from == v.serial && ch.value.to == v'.serial && v'.serial != v.serial
            && Fits(ch.value, RecordsOf(v))
            && (Effect(RecordsOf(v), [soa] + Collected(ch.value.adds, ch.value.to),
                       [asked] + ch.value.removes + Lost(ch.value.adds, ch.value.to)) == RecordsOf(v')
                <==> NothingBehind(adds, v.serial))
  {
    hide Good, Steps, Unmixed, RecordsOf, ApplySpec, Effect, Fits, Kept, Lost, Collected, NothingBehind, Addable;
    var was := BumpedEntry(v, adds, removes);
    var v', ch := ApplySpec(v, adds, removes).0, ApplySpec(v, adds, removes).1.value;
    soa := Bumped(was);
    FairSOA(v, adds, removes, was);
    BumpedFits(v, adds, removes, was, ch);
    BumpedEffect(RecordsOf(v), adds, removes, was);
    BumpedMeant(RecordsOf(v), adds, removes, was);
    SameEffect(RecordsOf(v), ch, soa, asked);
    assert soa in RecordsOf(v');
  }

  lemma BumpedMeant(recs: set<RR>, adds: seq<RR>, removes: seq<RR>, soa: RR)
    requires IsSOA(soa) && (forall rr | rr in adds && IsSOA(rr) :: rr == soa)
    requires forall rr | rr in Effect(recs, adds, removes) && IsSOA(rr) :: rr == soa
    ensures var all, to := adds + [Bumped(soa)], SerialOf(Bumped(soa));
            var meant := Effect(recs, Kept(all, to), removes + [soa] + Lost(all, to));
            Bumped(soa) in meant && forall rr | rr in meant && IsSOA(rr) :: rr == Bumped(soa)
  {
    hide Kept, Lost, Turn, Closes, NothingBehind;
    BumpedSplit(adds, soa);
  }

  /** After any fair request, a transfer brings a replica that was in sync into sync again exactly when the request adds
      nothing new behind an SOA of the serial it started from, or the replica asks for the full zone. */
  lemma FairRequestSyncsIff(n: Net, adds: seq<RR>, removes: seq<RR>, listing: seq<RR>, made: Bytes)
    requires GoodPrimary(n.primary) && n.replica.Some? && Good(n.replica.value) && InSync(n.primary, n.replica.value)
    requires Fair(n.primary, adds, removes)
    requires var n1 := Next(n, Apply(adds, removes));
             Entry(n.journal, n.primary.serial, n1.primary.serial).None? && Elems(listing) == UnpackedOf(n1.primary)
    ensures var n1 := Next(n, Apply(adds, removes));
            var n2 := Next(n1, Transfer(listing, made));
            && n2.replica.Some?
            && (InSync(n2.primary, n2.replica.value) <==>
                NothingBehind(adds, n.primary.serial) || n.primary.serial == 0)
  {
    hide Good, Steps, Unmixed, RecordsOf, ApplySpec, Effect, Fits, Kept, Lost, Collected, NothingBehind, Fair,
         UnpackedOf, Follow, ReadSOA, Response, FullResponse;
    var v, r := n.primary, n.replica.value;
    var asked := Asking(v.origin, v.serial, made);
    var soa := FairEntry(v, adds, removes, asked);
    var n1 := Next(n, Apply(adds, removes));
    ReadsStoredSOA(n1.primary, soa);
    var ch := ApplySpec(v, adds, removes).1.value;
    EntryAppended(n.journal, ch);
    SOASerials(n1.primary);
    SyncFacts(v, r);
    if v.serial == 0 {
      FullTransferSyncs(n1.primary, None, soa, listing);
    } else {
      ServedEntrySyncsIff(n1.primary, r, soa, asked, ch);
    }
  }

  /** The journal entry the primary would serve its replica. */
  function Served(n: Net): Option<Changeset> {
    if n.replica.None? || n.replica.value.serial == 0 then None
    else Entry(n.journal, n.replica.value.serial, n.primary.serial)
  }

  ghost function WithoutSOA(recs: set<RR>): set<RR> {
    set rr | rr in recs && !IsSOA(rr)
  }

  /** Nothing but the SOA was changed, and not even that where the served entry is read with losses. */
  ghost predicate Unharmed(before: set<RR>, after: set<RR>, ch: Changeset) {
    if Lost(ch.adds, ch.to) == [] then WithoutSOA(before) == WithoutSOA(after) else before == after
  }

  /** After a request that failed half-way, a transfer brings the replica into sync exactly when no journal entry leads
      from its serial to the primary's, or the request changed nothing the replica would miss. */
  lemma FailedRequestSyncsIff(h: History, n: Net, adds: seq<RR>, removes: seq<RR>, listing: seq<RR>, made: Bytes)
    requires Inv(h, n) && HalfWay(n.primary, adds, removes)
    requires var n1 := Next(n, Apply(adds, removes));
             && (n1.primary.serial == n.primary.serial || n1.primary.serial !in h)
             && Elems(listing) == UnpackedOf(n1.primary)
    ensures var n1 := Next(n, Apply(adds, removes));
            var n2 := Next(n1, Transfer(listing, made));
            && n2.replica.Some?
            && (InSync(n2.primary, n2.replica.value) <==>
                Served(n1).None? || Unharmed(RecordsOf(n.primary), RecordsOf(n1.primary), Served(n1).value))
  {
    hide GoodPrimary, RecordsOf, ApplySpec, HalfWay, UnpackedOf, Follow, ReadSOA, Response, FullResponse, Entry,
         Unharmed, InSync, Explains, Good;
    HalfWayIsGood(n.primary, adds, removes);
    var n1 := Next(n, Apply(adds, removes));
    assert n.journal + [] == n.journal;
    assert n1 == Net(ApplySpec(n.primary, adds, removes).0, n.journal, n.replica);
    if Served(n1).Some? {
      EntryFound(n.journal, n.replica.value.serial, n1.primary.serial);
      LaterZoneServed(n.primary, n1, listing, made);
    } else {
      FullZoneServed(n1, listing, made);
    }
  }

  lemma FullZoneServed(n: Net, listing: seq<RR>, made: Bytes)
    requires GoodPrimary(n.primary) && Served(n).None? && Elems(listing) == UnpackedOf(n.primary)
    ensures var n' := Next(n, Transfer(listing, made));
            n'.primary == n.primary && n'.replica.Some? && InSync(n.primary, n'.replica.value)
  {
    hide RecordsOf, Good, Unmixed, UnpackedOf, Follow, ReadSOA, FullResponse, Entry, InSync;
    var soa := StoredSOA(n.primary);
    FullTransferSyncs(n.primary, Reading(n), soa, listing);
  }

  /** An entry explained by the state `p` is served by a later one with the same serial. */
  lemma LaterZoneServed(p: StoreView, n: Net, listing: seq<RR>, made: Bytes)
    requires GoodPrimary(p) && GoodPrimary(n.primary) && p.serial == n.primary.serial && p.origin == n.primary.origin
    requires Served(n).Some? && Good(n.replica.value) && n.replica.value.origin == p.origin
    requires var ch := Served(n).value;
             && ch.from == n.replica.value.serial && ch.to == p.serial
             && Explains(ch, p.origin, RecordsOf(n.replica.value), RecordsOf(p))
    ensures var n' := Next(n, Transfer(listing, made));
            && n'.primary == n.primary && n'.replica.Some?
            && (InSync(n.primary, n'.replica.value) <==> Unharmed(RecordsOf(p), RecordsOf(n.primary), Served(n).value))
  {
    hide RecordsOf, Good, Unmixed, Follow, ReadSOA, Response, FullResponse, Entry, InSync, Fits, Effect, Unharmed,
         Consistent;
    var ch, r := Served(n).value, n.replica.value;
    var asked := Asking(p.origin, r.serial, made);
    var was := StoredSOA(p);
    var soa := StoredSOA(n.primary);
    ServedEntrySyncsIff(n.primary, r, soa, asked, ch);
    GoodIsConsistent(n.primary);
    SOASerials(r);
    OlderEntry(p.origin, RecordsOf(r), RecordsOf(p), RecordsOf(n.primary), ch, was, soa, asked);
  }

  /** What an entry that led to `after` makes of the records when it is served with a later SOA. */
  lemma OlderEntry(origin: Name, before: set<RR>, after: set<RR>, now: set<RR>, ch: Changeset, was: RR, soa: RR,
          asked: RR)
    requires Explains(ch, origin, before, after) && HasSerial(was, ch.to) && was in after
    requires forall rr | rr in before && IsSOA(rr) :: HasSerial(rr, ch.from)
    requires Consistent(origin, now) && HasSerial(soa, ch.to) && soa in now && HasSerial(asked, ch.from)
    ensures Effect(before, [soa] + Collected(ch.adds, ch.to), [asked] + ch.removes + Lost(ch.adds, ch.to)) == now <==>
            Unharmed(after, now, ch)
  {
    hide Collected, Kept, Lost, Turn, Indexable, Removable;
    var got := Effect(before, [soa] + Collected(ch.adds, ch.to), [asked] + ch.removes + Lost(ch.adds, ch.to));
    CollectedAreKept(ch.adds, ch.to);
    LastIsCollected(ch.adds, ch.to);
    forall rr | rr in Kept(ch.adds, ch.to) && IsSOA(rr) ensures rr == was { assert rr in after; }
    forall rr | !IsSOA(rr) ensures rr in got <==> rr in after {}
    forall rr | rr in before && IsSOA(rr) ensures rr !in got || rr == soa {
      assert rr in after ==> rr == was;
    }
    SOAsApart(got, after, now, was, soa);
  }

  lemma SOASerials(v: StoreView)
    requires Good(v)
    ensures forall rr | rr in RecordsOf(v) && IsSOA(rr) :: HasSerial(rr, v.serial)
  {
    hide Shape, Agree, Consistent, RecordsOf;
  }

  lemma LastIsCollected(adds: seq<RR>, serial: u32)
    requires Closes(adds, serial)
    ensures Lost(adds, serial) == [] ==> forall rr | rr in Collected(adds, serial) :: !IsSOA(rr)
    ensures Lost(adds, serial) != [] ==> exists rr | rr in Collected(adds, serial) :: IsSOA(rr)
  {
  }

  lemma SOAsApart(got: set<RR>, after: set<RR>, now: set<RR>, was: RR, soa: RR)
    requires forall rr | !IsSOA(rr) :: rr in got <==> rr in after
    requires (forall rr | rr in after && IsSOA(rr) :: rr == was) && (forall rr | rr in now && IsSOA(rr) :: rr == soa)
    requires was in after && soa in now && IsSOA(was) && IsSOA(soa) && soa in got
    requires forall rr | rr in got && IsSOA(rr) :: rr == soa || rr == was
    ensures was !in got ==> (got == now <==> WithoutSOA(after) == WithoutSOA(now))
    ensures was in got ==> (got == now <==> after == now)
    ensures was == soa ==> (after == now <==> WithoutSOA(after) == WithoutSOA(now))
  {
    assert now == WithoutSOA(now) + {soa} && after == WithoutSOA(after) + {was};
    assert got == WithoutSOA(after) + (if was in got then {was, soa} else {soa});
    assert WithoutSOA(got) == WithoutSOA(after);
    if got == now && was in got { assert was == soa; }
  }

  lemma SyncFacts(p: StoreView, r: StoreView)
    requires InSync(p, r)
    ensures RecordsOf(r) == RecordsOf(p) && r.serial == p.serial && r.origin == p.origin
  {
    hide RecordsOf;
  }

  // ---------------------------------------------------------------------------
  // Small zones
  // ---------------------------------------------------------------------------

  function SOAWith(o: Name, serial: u32, timers: Bytes): RR {
    RR(o, CLASS_IN, 300, SOAData(serial, timers))
  }

  function Address(o: Name, ttl: nat, a: byte): RR {
    RR(o, CLASS_IN, ttl, OtherData(A, [a]))
  }

  /** A zone of SOA and address records at its apex. */
  ghost predicate Simple(o: Name, recs: set<RR>) {
    && (forall rr | rr in recs :: rr.name == o && rr.cls == CLASS_IN && (rr.data.SOAData? || rr.data.OtherData?))
    && (forall a, b | a in recs && b in recs && a.data.SOAData? && b.data.SOAData? :: a == b)
  }

  lemma SimpleIsConsistent(o: Name, recs: set<RR>)
    requires Simple(o, recs)
    ensures Consistent(o, recs) && forall rr | rr in recs :: Addable(rr)
  {
  }

  /** The store loaded from one SOA record. */
  function Begin(soa: RR): StoreView {
    Steps(EmptyStore(soa.name), Changes([soa], [])).0
  }

  lemma BeginIsZone(o: Name, soa: RR)
    requires soa.name == o && soa.cls == CLASS_IN && IsSOA(soa) && soa.ttl != 0
    ensures IsZone(Begin(soa), o, {soa}) && Unmixed(Begin(soa)) && Begin(soa).serial == SerialOf(soa)
  {
    hide RecordsOf, Agree, Shape, Unmixed, Steps;
    EmptyIsGood(o);
    SimpleIsConsistent(o, {soa});
    assert Effect(RecordsOf(EmptyStore(o)), [soa], []) == {soa};
    BatchKeepsGood(EmptyStore(o), [soa], []);
    NoZeroTTLIsUnmixed(Begin(soa));
    assert soa in RecordsOf(Begin(soa));
  }

  /** A first transfer from a primary that mixes no TTLs. */
  lemma FirstTransfer(p: StoreView, o: Name, soa: RR, listing: seq<RR>, made: Bytes)
    requires IsZone(p, o, {soa}) && Unmixed(p) && IsSOA(soa) && Elems(listing) == UnpackedOf(p)
    ensures var n := Next(Loaded(p), Transfer(listing, made));
            && n.primary == p && n.journal == [] && n.replica.Some? && IsZone(n.replica.value, o, {soa})
            && n.replica.value.serial == p.serial
  {
    hide RecordsOf, Good, Unmixed, UnpackedOf, ReadSOA, FullResponse, Follow;
    assert soa in RecordsOf(p);
    ReadsStoredSOA(p, soa);
    FullTransferSyncs(p, None, soa, listing);
  }

  /** A request that brings its own serial. */
  lemma OwnSerial(v: StoreView, o: Name, recs: set<RR>, adds: seq<RR>, removes: seq<RR>, soa: RR)
    requires IsZone(v, o, recs) && forall rr | rr in removes :: rr in recs
    requires Simple(o, Effect(recs, adds, removes)) && soa in Effect(recs, adds, removes) && IsSOA(soa)
    requires SerialOf(soa) != v.serial && (forall rr | rr in adds :: !HasSerial(rr, v.serial))
    requires forall rr | rr in Effect(recs, adds, removes) :: rr.ttl != 0
    ensures Sound(v, adds, removes)
    ensures var s := ApplySpec(v, adds, removes);
            && s.1 == Some(Changeset(v.serial, SerialOf(soa), adds, removes))
            && IsZone(s.0, o, Effect(recs, adds, removes)) && s.0.serial == SerialOf(soa) && Unmixed(s.0)
  {
    hide RecordsOf, Agree, Shape, Unmixed, Steps, ReadSOA, BumpSpec, Consistent, Simple;
    SimpleIsConsistent(o, Effect(recs, adds, removes));
    forall rr | rr in removes ensures Removable(RecordsOf(v), rr) { StoredPacks(v, rr); }
    forall rr | rr in adds ensures Addable(rr) { assert rr in Effect(recs, adds, removes); }
    BatchKeepsGood(v, adds, removes);
    var s := Steps(v, Changes(adds, removes)).0;
    NoZeroTTLIsUnmixed(s);
    assert soa in RecordsOf(s);
  }

  /** With a serial used twice the journal serves the older entry: three sound requests take the serial from 1 to 2,
      back to 1 and to 2 again, and a replica that holds the first state misses what the last request added. */
  lemma RepeatedSerialServesOldEntry(o: Name, listing: seq<RR>, made: Bytes)
    requires Elems(listing) == UnpackedOf(Begin(SOAWith(o, 1, [])))
    ensures var s1, s2, x, y := SOAWith(o, 1, []), SOAWith(o, 2, []), Address(o, 300, 1), Address(o, 300, 2);
            var n1 := Next(Loaded(Begin(s1)), Transfer(listing, made));
            var n2 := Next(n1, Apply([s2, x], [s1]));
            var n3 := Next(n2, Apply([s1], [s2]));
            var n4 := Next(n3, Apply([s2, y], [s1]));
            var n5 := Next(n4, Transfer([], made));
            && Sound(n1.primary, [s2, x], [s1]) && Sound(n2.primary, [s1], [s2]) && Sound(n3.primary, [s2, y], [s1])
            && n5.replica.Some? && y in RecordsOf(n5.primary) && y !in RecordsOf(n5.replica.value)
            && !InSync(n5.primary, n5.replica.value)
  {
    hide RecordsOf, Good, Unmixed, UnpackedOf, Sound, ApplySpec, Begin, Follow, Response, ReadSOA, FullResponse,
         Simple;
    var s1, s2, x, y := SOAWith(o, 1, []), SOAWith(o, 2, []), Address(o, 300, 1), Address(o, 300, 2);
    var p0 := Begin(s1);
    BeginIsZone(o, s1);
    FirstTransfer(p0, o, s1, listing, made);
    var n1 := Next(Loaded(p0), Transfer(listing, made));
    TwoRecords(o, s2, x, y);
    assert Effect({s1}, [s2, x], [s1]) == {s2, x};
    OwnSerial(p0, o, {s1}, [s2, x], [s1], s2);
    var n2 := Next(n1, Apply([s2, x], [s1]));
    TwoRecords(o, s1, x, y);
    assert Effect({s2, x}, [s1], [s2]) == {s1, x};
    OwnSerial(n2.primary, o, {s2, x}, [s1], [s2], s1);
    var n3 := Next(n2, Apply([s1], [s2]));
    assert Effect({s1, x}, [s2, y], [s1]) == {s2, x, y};
    OwnSerial(n3.primary, o, {s1, x}, [s2, y], [s1], s2);
    var n4 := Next(n3, Apply([s2, y], [s1]));
    OldEntryServed(n4, o, s1, s2, x, y, made);
  }

  lemma TwoRecords(o: Name, soa: RR, x: RR, y: RR)
    requires IsSOA(soa) && soa.name == o && soa.cls == CLASS_IN
    requires x.name == o && x.cls == CLASS_IN && x.data.OtherData? && y.name == o && y.cls == CLASS_IN &&
             y.data.OtherData?
    ensures Simple(o, {soa, x}) && Simple(o, {soa, x, y})
  {
  }

  /** The last transfer of that run. */
  lemma OldEntryServed(n: Net, o: Name, s1: RR, s2: RR, x: RR, y: RR, made: Bytes)
    requires s1 == SOAWith(o, 1, []) && s2 == SOAWith(o, 2, []) && x == Address(o, 300, 1) && y == Address(o, 300, 2)
    requires IsZone(n.primary, o, {s2, x, y}) && Unmixed(n.primary) && n.primary.serial == 2
    requires n.replica.Some? && IsZone(n.replica.value, o, {s1}) && n.replica.value.serial == 1
    requires |n.journal| == 3 && n.journal[0] == Changeset(1, 2, [s2, x], [s1])
    ensures var n' := Next(n, Transfer([], made));
            && n'.primary == n.primary && n'.replica.Some?
            && y in RecordsOf(n'.primary) && y !in RecordsOf(n'.replica.value) && !InSync(n'.primary, n'.replica.value)
  {
    hide RecordsOf, Good, Unmixed, Follow, Response, ReadSOA, FullResponse, ParseSpec;
    var p, r, ch := n.primary, n.replica.value, n.journal[0];
    NoneLost(ch.adds, 2);
    var asked := Asking(o, 1, made);
    assert s2 in RecordsOf(p);
    ReadsStoredSOA(p, s2);
    assert Entry(n.journal, 1, 2) == Some(ch);
    SOASharesNoEntry(s1);
    assert Fits(ch, RecordsOf(r));
    ServedEntrySyncsIff(p, r, s2, asked, ch);
  }

  /** A request that edits the SOA and leaves its serial. */
  lemma EditedSOA(v: StoreView, o: Name, s1: RR, edited: RR, x: RR)
    requires s1 == SOAWith(o, 1, []) && edited == SOAWith(o, 1, [9]) && x == Address(o, 300, 1)
    requires IsZone(v, o, {s1}) && v.serial == 1
    ensures var s := ApplySpec(v, [edited, x], [s1]);
            && s.1 == Some(Changeset(1, 2, [edited, x] + [SOAWith(o, 2, [9])], [s1] + [edited]))
            && IsZone(s.0, o, {SOAWith(o, 2, [9]), x}) && s.0.serial == 2 && Unmixed(s.0)
  {
    hide RecordsOf, Agree, Shape, Unmixed, Steps, ReadSOA, BumpSpec, Consistent, Simple;
    TwoRecords(o, edited, x, x);
    SimpleIsConsistent(o, {edited, x});
    StoredPacks(v, s1);
    forall rr | rr in [edited, x] ensures Addable(rr) { assert rr in {edited, x}; }
    assert Effect({s1}, [edited, x], [s1]) == {edited, x};
    BatchKeepsGood(v, [edited, x], [s1]);
    var mid := Steps(v, Changes([edited, x], [s1])).0;
    assert edited in RecordsOf(mid);
    NoZeroTTLIsUnmixed(mid);
    ReadsStoredSOA(mid, edited);
    BumpIsGood(mid, edited);
    assert {edited, x} - {edited} + {Bumped(edited)} == {SOAWith(o, 2, [9]), x};
    NoZeroTTLIsUnmixed(BumpSpec(mid).value);
  }

  /** A request that edits the SOA but keeps its serial puts that SOA among the additions, in front of the new one;
      what stands between the two is removed from the replica instead of added. */
  lemma EditedSOALosesAdditions(o: Name, listing: seq<RR>, made: Bytes)
    requires Elems(listing) == UnpackedOf(Begin(SOAWith(o, 1, [])))
    ensures var s1, edited, x := SOAWith(o, 1, []), SOAWith(o, 1, [9]), Address(o, 300, 1);
            var n1 := Next(Loaded(Begin(s1)), Transfer(listing, made));
            var n2 := Next(n1, Apply([edited, x], [s1]));
            var n3 := Next(n2, Transfer([], made));
            && n3.replica.Some? && x in RecordsOf(n3.primary) && x !in RecordsOf(n3.replica.value)
            && !InSync(n3.primary, n3.replica.value)
  {
    hide RecordsOf, Good, Unmixed, UnpackedOf, ApplySpec, Begin, Follow, Response, ReadSOA, FullResponse, Simple;
    var s1, edited, x := SOAWith(o, 1, []), SOAWith(o, 1, [9]), Address(o, 300, 1);
    BeginIsZone(o, s1);
    FirstTransfer(Begin(s1), o, s1, listing, made);
    var n1 := Next(Loaded(Begin(s1)), Transfer(listing, made));
    EditedSOA(n1.primary, o, s1, edited, x);
    EditedServed(Next(n1, Apply([edited, x], [s1])), o, s1, edited, x, made);
  }

  lemma EditedServed(n: Net, o: Name, s1: RR, edited: RR, x: RR, made: Bytes)
    requires s1 == SOAWith(o, 1, []) && edited == SOAWith(o, 1, [9]) && x == Address(o, 300, 1)
    requires IsZone(n.primary, o, {SOAWith(o, 2, [9]), x}) && Unmixed(n.primary) && n.primary.serial == 2
    requires n.replica.Some? && IsZone(n.replica.value, o, {s1}) && n.replica.value.serial == 1
    requires n.journal == [Changeset(1, 2, [edited, x] + [SOAWith(o, 2, [9])], [s1] + [edited])]
    ensures var n' := Next(n, Transfer([], made));
            && n'.primary == n.primary && n'.replica.Some?
            && x in RecordsOf(n'.primary) && x !in RecordsOf(n'.replica.value) && !InSync(n'.primary, n'.replica.value)
  {
    hide RecordsOf, Good, Unmixed, Follow, Response, ReadSOA, FullResponse, ParseSpec, Kept, Lost, Collected, Turn;
    var p, r, s2, ch, asked := n.primary, n.replica.value, SOAWith(o, 2, [9]), n.journal[0], Asking(o, 1, made);
    assert s2 in RecordsOf(p);
    ReadsStoredSOA(p, s2);
    assert Entry(n.journal, 1, 2) == Some(ch);
    EditedFits(o, s1, edited, x);
    ServedEntrySyncsIff(p, r, s2, asked, ch);
  }

  /** The entry of that request: everything behind the edited SOA is lost. */
  lemma EditedFits(o: Name, s1: RR, edited: RR, x: RR)
    requires s1 == SOAWith(o, 1, []) && edited == SOAWith(o, 1, [9]) && x == Address(o, 300, 1)
    ensures var ch := Changeset(1, 2, [edited, x] + [SOAWith(o, 2, [9])], [s1] + [edited]);
            Fits(ch, {s1}) && Lost(ch.adds, 2) == [edited, x] && Collected(ch.adds, 2) == [SOAWith(o, 2, [9])]
  {
    hide SameEntry;
    var all := [edited, x] + [SOAWith(o, 2, [9])];
    TurnIsFirst(all, 2, 0);
    assert all[..0] == [] && all[0..2] == [edited, x];
    SOASharesNoEntry(s1);
    SOASharesNoEntry(edited);
    assert {s1} - Elems([s1] + [edited]) == {};
  }

  /** A record whose rdata does not pack. */
  function Unpackable(o: Name): RR {
    RR(o, CLASS_IN, 300, BadData(A))
  }

  /** A request that stops at its second addition. */
  lemma StopsHalfWay(v: StoreView, o: Name, soa: RR, x: RR, bad: RR)
    requires IsZone(v, o, {soa}) && Simple(o, {soa, x}) && x.data.OtherData? && !bad.Packs() && bad.cls == CLASS_IN
    requires soa.ttl != 0 && x.ttl != 0 && IsSOA(soa)
    ensures var s := ApplySpec(v, [x, bad], []);
            s.1.None? && IsZone(s.0, o, {soa, x}) && s.0.serial == v.serial && GoodPrimary(s.0)
  {
    hide RecordsOf, Agree, Shape, Unmixed, Consistent, Simple;
    assert {soa} + {x} == {soa, x};
    OneMoreAddress(v, o, {soa}, x);
    var v' := AddSpec(v, x).value;
    assert Changes([x, bad], []) == [Add(x), Add(bad)] && [Add(x), Add(bad)][1..] == [Add(bad)];
    assert Steps(v', [Add(bad)]) == (v', false);
    NoZeroTTLIsUnmixed(v');
    assert soa in RecordsOf(v) && soa in RecordsOf(v');
  }

  /** A request fails half-way after the serial went from 1 to 2; the replica that still holds serial 1 is served the
      entry for that step and misses what the failed request had added. */
  lemma FailedRequestIsMissed(o: Name, listing: seq<RR>, made: Bytes)
    requires Elems(listing) == UnpackedOf(Begin(SOAWith(o, 1, [])))
    ensures var s1, s2, x, bad := SOAWith(o, 1, []), SOAWith(o, 2, []), Address(o, 300, 1), Unpackable(o);
            var n1 := Next(Loaded(Begin(s1)), Transfer(listing, made));
            var n2 := Next(n1, Apply([s2], [s1]));
            var n3 := Next(n2, Apply([x, bad], []));
            var n4 := Next(n3, Transfer([], made));
            && Sound(n1.primary, [s2], [s1]) && ApplySpec(n2.primary, [x, bad], []).1.None?
            && n4.replica.Some? && !InSync(n4.primary, n4.replica.value)
  {
    hide RecordsOf, Good, Unmixed, UnpackedOf, Sound, ApplySpec, Begin, Follow, Response, ReadSOA, FullResponse,
         Simple, Explains, Answer;
    var s1, s2, x, bad := SOAWith(o, 1, []), SOAWith(o, 2, []), Address(o, 300, 1), Unpackable(o);
    BeginIsZone(o, s1);
    FirstTransfer(Begin(s1), o, s1, listing, made);
    var n1 := Next(Loaded(Begin(s1)), Transfer(listing, made));
    TwoRecords(o, s2, x, x);
    assert Effect({s1}, [s2], [s1]) == {s2} && Simple(o, {s2}) by { OneRecord(o, s2); }
    OwnSerial(n1.primary, o, {s1}, [s2], [s1], s2);
    ApplyExplained(n1.primary, [s2], [s1]);
    var n2 := Next(n1, Apply([s2], [s1]));
    assert n2.primary == ApplySpec(n1.primary, [s2], [s1]).0 && n2.journal == [Changeset(1, 2, [s2], [s1])];
    StopsHalfWay(n2.primary, o, s2, x, bad);
    var n3 := Next(n2, Apply([x, bad], []));
    assert n3.journal == n2.journal && Served(n3) == Some(n2.journal[0]);
    assert x in RecordsOf(n3.primary) && x !in RecordsOf(n2.primary);
    LaterZoneServed(n2.primary, n3, [], made);
    NotUnharmed(n2.primary, n3.primary, n2.journal[0], x);
  }

  lemma OneRecord(o: Name, soa: RR)
    requires IsSOA(soa) && soa.name == o && soa.cls == CLASS_IN
    ensures Simple(o, {soa})
  {
  }

  lemma NotUnharmed(v: StoreView, v': StoreView, ch: Changeset, x: RR)
    requires x !in RecordsOf(v) && x in RecordsOf(v') && !IsSOA(x)
    ensures !Unharmed(RecordsOf(v), RecordsOf(v'), ch)
  {
    hide RecordsOf;
    assert x in WithoutSOA(RecordsOf(v')) && x !in WithoutSOA(RecordsOf(v));
  }

  /** A zone with addresses of TTL 5 and TTL 0. */
  ghost function MixedZone(o: Name): StoreView {
    Steps(Begin(SOAWith(o, 1, [])), [Add(Address(o, 5, 1)), Add(Address(o, 0, 2))]).0
  }

  lemma MixedZoneIsGood(o: Name)
    ensures Good(MixedZone(o)) && !Unmixed(MixedZone(o)) && HasSOA(RecordsOf(MixedZone(o)))
    ensures var sets := SetsAt(MixedZone(o), o);
            A in sets && sets[A] == RRSet(A, 5, [Address(o, 5, 1), Address(o, 0, 2)])
    ensures ReadSOA(MixedZone(o)).Some? && MixedZone(o).origin == o
  {
    hide Good, RecordsOf, Begin, AddSpec, Unmixed, Admissible, Consistent, AddToSets;
    var soa, a, b := SOAWith(o, 1, []), Address(o, 5, 1), Address(o, 0, 2);
    BeginIsZone(o, soa);
    TwoRecords(o, soa, a, b);
    OneMoreAddress(Begin(soa), o, {soa}, a);
    var v1 := AddSpec(Begin(soa), a).value;
    assert {soa} + {a} == {soa, a} && {soa, a} + {b} == {soa, a, b};
    OneMoreAddress(v1, o, {soa, a}, b);
    assert [Add(a), Add(b)][1..] == [Add(b)] && [Add(b)][1..] == [];
    var v2 := AddSpec(v1, b).value;
    assert Steps(v2, []) == (v2, true) && Steps(v1, [Add(b)]) == (v2, true);
    assert MixedZone(o) == v2;
    NoAddressYet(Begin(soa), o, soa);
    FirstAddress(SetsAt(Begin(soa), o), a, b);
    MixedSet(MixedZone(o), o, a, b);
    assert soa in RecordsOf(MixedZone(o));
    GoodIsConsistent(MixedZone(o));
    GoodNodes(MixedZone(o));
    FirstSOA(MixedZone(o), soa);
  }

  lemma FirstAddress(sets: Sets, a: RR, b: RR)
    requires A !in sets && a.Type() == A && b.Type() == A && a.ttl == 5 && b != a
    ensures var sets' := AddToSets(AddToSets(sets, a), b); A in sets' && sets'[A] == RRSet(A, 5, [a, b])
  {
  }

  lemma OneMoreAddress(v: StoreView, o: Name, recs: set<RR>, rr: RR)
    requires IsZone(v, o, recs) && Simple(o, recs + {rr}) && rr.data.OtherData?
    ensures AddSpec(v, rr).Some?
    ensures var v' := AddSpec(v, rr).value;
            IsZone(v', o, recs + {rr}) && SetsAt(v', o) == AddToSets(SetsAt(v, o), rr)
  {
    hide Good, RecordsOf, Consistent, AddToSets;
    SimpleIsConsistent(o, recs + {rr});
    assert rr in recs + {rr};
    StepKeepsGood(v, Add(rr));
  }

  lemma TypeHasRecord(v: StoreView, n: Name, t: nat) returns (rr: RR)
    requires Good(v) && t in SetsAt(v, n)
    ensures rr in RecordsOf(v) && rr.name == n && rr.Type() == t
  {
    hide RecordsOf;
    RecordsAreStored(v);
    assert NodeOk(v.origin, n, v.nodes[n]);
    rr := SetsAt(v, n)[t].rdata[0];
    assert rr in SetsAt(v, n)[t].rdata && Stored(v, rr);
  }

  lemma NoAddressYet(v: StoreView, o: Name, soa: RR)
    requires IsZone(v, o, {soa}) && IsSOA(soa)
    ensures A !in SetsAt(v, o)
  {
    hide RecordsOf, Good;
    if A in SetsAt(v, o) {
      var rr := TypeHasRecord(v, o, A);
      assert false;
    }
  }

  lemma MixedSet(v: StoreView, o: Name, a: RR, b: RR)
    requires A in SetsAt(v, o) && SetsAt(v, o)[A] == RRSet(A, 5, [a, b]) && b.ttl == 0
    ensures !Unmixed(v)
  {
    assert Unpack(v.nodes[o].sets[A])[1] != v.nodes[o].sets[A].rdata[1];
  }

  /** Where an RRset mixes TTL zero with another TTL, even a first transfer leaves the replica out of sync. */
  lemma MixedTTLsAreNotReplicated(o: Name, listing: seq<RR>, made: Bytes)
    requires Elems(listing) == UnpackedOf(MixedZone(o))
    ensures var n := Next(Loaded(MixedZone(o)), Transfer(listing, made));
            n.replica.Some? && !InSync(n.primary, n.replica.value)
  {
    hide RecordsOf, Good, Unmixed, UnpackedOf, ReadSOA, FullResponse, Follow, MixedZone;
    MixedZoneIsGood(o);
    FullTransferSyncs(MixedZone(o), None, ReadSOA(MixedZone(o)).value, listing);
  }
}

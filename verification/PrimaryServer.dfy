/** A primary server for one zone: applies changes, journals them and answers transfer requests. */
module PrimaryServer {
  import opened Bytes
  import opened Names
  import opened Records
  import opened StoreSpec
  import opened Store
  import opened Xfr
  import opened Verify
  import Seqs

  datatype Changeset = Changeset(from: u32, to: u32, adds: seq<RR>, removes: seq<RR>)

  // ---------------------------------------------------------------------------
  // Applying changes
  // ---------------------------------------------------------------------------

  /** The zone's SOA as the server reads it. */
  function ReadSOA(v: StoreView): Option<RR> {
    if ApexSOA(v).Some? && IsSOA(ApexSOA(v).value) then ApexSOA(v) else None
  }

  function Bumped(soa: RR): RR
    requires IsSOA(soa)
  {
    soa.(data := SOAData(Add32(soa.data.serial, 1), soa.data.timers))
  }

  lemma BumpedMeans(soa: RR)
    requires IsSOA(soa)
    ensures Bumped(soa) ==
            RR(soa.name, soa.cls, soa.ttl, SOAData((soa.data.serial + 1) % 0x1_0000_0000, soa.data.timers))
  {
  }

  /** Replaces the SOA by one with the next serial; `None` when there is none or a step fails. */
  function BumpSpec(v: StoreView): Option<StoreView> {
    if ReadSOA(v).None? || RemoveSpec(v, ReadSOA(v).value).None? then None
    else AddSpec(RemoveSpec(v, ReadSOA(v).value).value, Bumped(ReadSOA(v).value))
  }

  /** The state after a change request and what is journalled for it. A request that fails half-way stays applied as
      far as it went and is not journalled. A request that leaves the serial alone gets a new one. */
  function ApplySpec(v: StoreView, adds: seq<RR>, removes: seq<RR>): (StoreView, Option<Changeset>) {
    var s := Steps(v, Changes(adds, removes));
    if !s.1 then (s.0, None)
    else if s.0.serial == v.serial && ReadSOA(s.0).Some? then
      var soa := ReadSOA(s.0).value;
      match BumpSpec(s.0)
      case Some(v') => (v', Some(Changeset(v.serial, SerialOf(Bumped(soa)), adds + [Bumped(soa)], removes + [soa])))
      case None =>
        var stuck := if RemoveSpec(s.0, soa).Some? then RemoveSpec(s.0, soa).value else s.0;
        (stuck, Some(Changeset(v.serial, s.0.serial, adds, removes)))
    else (s.0, Some(Changeset(v.serial, s.0.serial, adds, removes)))
  }

  // ---------------------------------------------------------------------------
  // Answering
  // ---------------------------------------------------------------------------

  function Entry(journal: seq<Changeset>, from: u32, to: u32): Option<Changeset> {
    if journal == [] then None
    else if journal[0].from == from && journal[0].to == to then Some(journal[0])
    else Entry(journal[1..], from, to)
  }

  /** The records of all nodes as a transfer reads them. */
  ghost function UnpackedOf(v: StoreView): set<RR> {
    set n, t, rr | n in v.nodes && t in v.nodes[n].sets && rr in Unpack(v.nodes[n].sets[t]) :: rr
  }

  /** The answer to a transfer request that carries an SOA (incremental) or none (full); `listing` is the order in
      which a full answer lists the zone. */
  function Answer(v: StoreView, journal: seq<Changeset>, question: Option<RR>, listing: seq<RR>): Option<seq<RR>> {
    match ReadSOA(v)
    case None => None
    case Some(soa) =>
      if question.Some? && IsSOA(question.value) && Entry(journal, SerialOf(question.value), SerialOf(soa)).Some? then
        var ch := Entry(journal, SerialOf(question.value), SerialOf(soa)).value;
        Some(Response(soa, [question.value] + ch.removes, ch.adds))
      else Some(FullResponse(soa, listing))
  }

  /** The entry served is the first that leads from one serial to the other. */
  lemma {:induction false} EntryIsFirst(journal: seq<Changeset>, from: u32, to: u32)
    ensures match Entry(journal, from, to)
            case None => forall i | 0 <= i < |journal| :: journal[i].from != from || journal[i].to != to
            case Some(ch) =>
              exists i | 0 <= i < |journal| ::
                && journal[i] == ch && ch.from == from && ch.to == to
                && forall j | 0 <= j < i :: journal[j].from != from || journal[j].to != to
  {
    if journal != [] && !(journal[0].from == from && journal[0].to == to) {
      EntryIsFirst(journal[1..], from, to);
      forall i | 1 <= i < |journal| ensures journal[i] == journal[1..][i - 1] {}
      if Entry(journal, from, to).Some? {
        var i :| 0 <= i < |journal[1..]| && journal[1..][i] == Entry(journal, from, to).value &&
            forall j | 0 <= j < i :: journal[1..][j].from != from || journal[1..][j].to != to;
        assert journal[i + 1] == Entry(journal, from, to).value;
      }
    }
  }

  /** What an answer looks like: differences as the new SOA, what is taken out after the SOA asked for, the new SOA,
      what comes in, and the new SOA; a whole zone as its SOA, its other records in the order listed, and its SOA. */
  lemma AnswerMeans(v: StoreView, journal: seq<Changeset>, question: Option<RR>, listing: seq<RR>, soa: RR)
    requires ReadSOA(v) == Some(soa)
    ensures match question
            case Some(asked) =>
              var ch := Entry(journal, SerialOf(asked), SerialOf(soa));
              IsSOA(asked) && ch.Some? ==>
                Answer(v, journal, question, listing) ==
                Some([soa] + ([asked] + ch.value.removes) + [soa] + ch.value.adds + [soa])
            case None => true
    ensures (question.None? || !IsSOA(question.value) ||
             Entry(journal, SerialOf(question.value), SerialOf(soa)).None?) ==>
              exists rest ::
                Answer(v, journal, question, listing) == Some([soa] + rest + [soa]) && IsRest(rest, listing)
  {
    hide Entry;
    RestIs(listing);
    assert Answer(v, journal, question, listing).Some?;
    if question.None? || !IsSOA(question.value) || Entry(journal, SerialOf(question.value), SerialOf(soa)).None? {
      assert Answer(v, journal, question, listing) == Some([soa] + NonSOA(listing) + [soa]);
    }
  }

  /** The records but for SOAs, in order. */
  predicate IsRest(rest: seq<RR>, listing: seq<RR>) {
    if listing == [] then rest == []
    else if listing[0].data.SOAData? then IsRest(rest, listing[1..])
    else rest != [] && rest[0] == listing[0] && IsRest(rest[1..], listing[1..])
  }

  lemma {:induction false} RestIs(listing: seq<RR>)
    ensures IsRest(NonSOA(listing), listing)
  {
    TailNonSOAIs(listing);
    if listing != [] {
      TailNonSOAIs(listing[1..]);
      RestIs(listing[1..]);
      Seqs.EmptyIsUnit(TailNonSOA(listing[1..]));
      if !listing[0].data.SOAData? { assert NonSOA(listing) == [listing[0]] + NonSOA(listing[1..]); }
    }
  }

  /** No two stored records read the same. */
  ghost predicate NoTwins(v: StoreView) {
    forall n | n in v.nodes :: NoTwinsAt(v.nodes[n])
  }

  ghost predicate NoTwinsAt(node: NodeView) {
    forall t | t in node.sets :: NoDuplicates(Unpack(node.sets[t]))
  }

  /** All records of the zone, in no particular order. */
  method AllRRs(st: Store) returns (rrs: seq<RR>)
    requires st.Valid()
    ensures Elems(rrs) == UnpackedOf(st.state)
    ensures NoTwins(st.state) ==> NoDuplicates(rrs)
  {
    hide Store.Valid, ToMap, UnpackedOf, UnpackedAt, UnpackedNode, NoDuplicates, NoTwinsAt, WellFiled;
    AllNames(st);
    UnpackedAll(st.state);
    rrs := [];
    var todo := st.nodes.Keys;
    ghost var done: set<Name> := {};
    NoneTwice();
    while todo != {}
      invariant done !! todo && done + todo == st.state.nodes.Keys
      invariant Elems(rrs) == UnpackedAt(st.state, done)
      invariant forall rr | rr in rrs :: rr.name in done
      invariant NoTwins(st.state) ==> NoDuplicates(rrs)
      decreases todo
    {
      var n :| n in todo;
      OneMoreNode(st, n);
      var more := NodeRRs(st.nodes[n]);
      ElemsConcat(rrs, more);
      Apart(rrs, more, done, n);
      UnpackedGrows(st.state, done, n);
      rrs := rrs + more;
      todo := todo - {n};
      done := done + {n};
    }
    assert done == st.state.nodes.Keys;
  }

  lemma NoneTwice()
    ensures NoDuplicates<RR>([])
  {
  }

  lemma Apart(a: seq<RR>, b: seq<RR>, done: set<Name>, n: Name)
    requires n !in done && (forall rr | rr in a :: rr.name in done) && forall rr | rr in b :: rr.name == n
    ensures NoDuplicates(a) && NoDuplicates(b) ==> NoDuplicates(a + b)
    ensures forall rr | rr in a + b :: rr.name in done + {n}
  {
    if NoDuplicates(a) && NoDuplicates(b) {
      forall i, j | 0 <= i < j < |a + b| ensures (a + b)[i] != (a + b)[j] {
        if i < |a| <= j { assert a[i] in a && b[j - |a|] in b; }
      }
    }
  }

  lemma AllNames(st: Store)
    requires st.Valid()
    ensures st.nodes.Keys == st.state.nodes.Keys
  {
  }

  lemma OneMoreNode(st: Store, n: Name)
    requires st.Valid() && n in st.nodes
    ensures st.nodes[n].Valid() && n in st.state.nodes && st.nodes[n].View() == st.state.nodes[n]
    ensures st.nodes[n].name == n && WellFiled(n, st.nodes[n].View().sets)
  {
    assert NodeOk(st.origin, n, st.state.nodes[n]);
  }

  ghost function UnpackedNode(node: NodeView): set<RR> {
    set t, rr | t in node.sets && rr in Unpack(node.sets[t]) :: rr
  }

  ghost function UnpackedAt(v: StoreView, names: set<Name>): set<RR> {
    set n, rr | n in names && n in v.nodes && rr in UnpackedNode(v.nodes[n]) :: rr
  }

  lemma UnpackedGrows(v: StoreView, names: set<Name>, n: Name)
    requires n in v.nodes
    ensures UnpackedAt(v, names + {n}) == UnpackedAt(v, names) + UnpackedNode(v.nodes[n])
  {
  }

  lemma UnpackedAll(v: StoreView)
    ensures UnpackedAt(v, {}) == {} && UnpackedAt(v, v.nodes.Keys) == UnpackedOf(v)
  {
    hide Unpack;
    forall rr ensures rr in UnpackedAt(v, v.nodes.Keys) <==> rr in UnpackedOf(v) {
      if n, t :| n in v.nodes && t in v.nodes[n].sets && rr in Unpack(v.nodes[n].sets[t]) {
        assert rr in UnpackedNode(v.nodes[n]);
      }
      if rr in UnpackedAt(v, v.nodes.Keys) {
        var n :| n in v.nodes && rr in UnpackedNode(v.nodes[n]);
        var t :| t in v.nodes[n].sets && rr in Unpack(v.nodes[n].sets[t]);
      }
    }
  }

  method NodeRRs(n: Node) returns (rrs: seq<RR>)
    requires n.Valid() && WellFiled(n.name, n.View().sets)
    ensures Elems(rrs) == UnpackedNode(n.View())
    ensures forall rr | rr in rrs :: rr.name == n.name
    ensures NoTwinsAt(n.View()) ==> NoDuplicates(rrs)
  {
    hide Unpack, ToMap, WellFiled, NoDuplicates;
    ghost var twins := NoTwinsAt(n.View());
    rrs := [];
    var i := 0;
    NoneTwice();
    while i < |n.sets|
      invariant 0 <= i <= |n.sets|
      invariant forall rr :: rr in rrs <==> exists j | 0 <= j < i :: rr in Unpack(n.sets[j])
      invariant forall rr | rr in rrs :: rr.name == n.name && exists j | 0 <= j < i :: n.sets[j].rtype == rr.Type()
      invariant twins ==> NoDuplicates(rrs)
    {
      FiledByType(n.sets, i);
      ReadsOwnType(n.name, n.View().sets, n.sets[i].rtype);
      TypesApart(rrs, Unpack(n.sets[i]), n.sets[i].rtype);
      rrs := rrs + Unpack(n.sets[i]);
      i := i + 1;
    }
    ToMapIs(n.sets);
    NodeListing(n.sets, ToMap(n.sets), rrs);
  }

  lemma ReadsOwnType(name: Name, sets: Sets, t: nat)
    requires WellFiled(name, sets) && t in sets
    ensures forall rr | rr in Unpack(sets[t]) :: rr.name == name && rr.Type() == t
  {
    forall i | 0 <= i < |sets[t].rdata| ensures Unpack(sets[t])[i].name == name && Unpack(sets[t])[i].Type() == t {
      assert sets[t].rdata[i] in sets[t].rdata;
    }
  }

  lemma TypesApart(a: seq<RR>, b: seq<RR>, t: nat)
    requires (forall rr | rr in a :: rr.Type() != t) && forall rr | rr in b :: rr.Type() == t
    ensures NoDuplicates(a) && NoDuplicates(b) ==> NoDuplicates(a + b)
  {
    if NoDuplicates(a) && NoDuplicates(b) {
      forall i, j | 0 <= i < j < |a + b| ensures (a + b)[i] != (a + b)[j] {
        if i < |a| <= j { assert a[i] in a && b[j - |a|] in b; }
      }
    }
  }

  lemma NodeListing(sets: seq<RRSet>, m: Sets, rrs: seq<RR>)
    requires IsMapOf(sets, m)
    requires forall rr :: rr in rrs <==> exists j | 0 <= j < |sets| :: rr in Unpack(sets[j])
    ensures forall rr :: rr in rrs <==> exists t | t in m :: rr in Unpack(m[t])
  {
    hide Unpack;
    forall rr ensures rr in rrs <==> exists t | t in m :: rr in Unpack(m[t]) {
      if j :| 0 <= j < |sets| && rr in Unpack(sets[j]) { assert rr in Unpack(m[sets[j].rtype]); }
      if t :| t in m && rr in Unpack(m[t]) {
        var j :| 0 <= j < |sets| && sets[j].rtype == t;
        assert rr in Unpack(sets[j]);
      }
    }
  }

  class Primary {
    const store: Store
    var journal: seq<Changeset>

    constructor (store: Store)
      ensures this.store == store && journal == []
    {
      this.store := store;
      journal := [];
    }

    /** Applies a change request; on error nothing is journalled. */
    method Apply(adds: seq<RR>, removes: seq<RR>) returns (err: bool)
      requires store.Valid()
      modifies this, store, store.nodes.Values
      ensures store.Valid()
      ensures var s := ApplySpec(old(store.state), adds, removes);
              && store.state == s.0 && (err <==> s.1.None?)
              && journal == old(journal) + if s.1.Some? then [s.1.value] else []
    {
      hide Store.Valid, Steps, ReadSOA, BumpSpec, Bumped;
      var from := store.serial;
      SerialField(store);
      var t;
      t, err := store.ApplyChanges(adds, removes);
      if err {
        return true;
      }
      ghost var mid := store.state;
      SerialField(store);
      var to := store.serial;
      var adds', removes' := adds, removes;
      if to == from {
        var soa := ReadApexSOA(store);
        if soa.Some? {
          var bumped := Bump(store, soa.value);
          if bumped {
            to := SerialOf(Bumped(soa.value));
            removes' := removes + [soa.value];
            adds' := adds + [Bumped(soa.value)];
          }
        }
      }
      journal := journal + [Changeset(from, to, adds', removes')];
      err := false;
    }

    method PurgeJournal()
      modifies this`journal
      ensures journal == []
    {
      journal := [];
    }

    /** Answers a transfer request in envelopes; `None` without an SOA. */
    method HandleXFR(question: Option<RR>) returns (envelopes: Option<seq<seq<RR>>>, ghost listing: seq<RR>)
      requires store.Valid()
      ensures Elems(listing) == UnpackedOf(store.state)
      ensures match envelopes
              case None => Answer(store.state, journal, question, listing).None?
              case Some(es) => Answer(store.state, journal, question, listing) == Some(Flatten(es))
    {
      hide Store.Valid, ReadSOA, UnpackedOf, Flatten;
      var soa := ReadApexSOA(store);
      if soa.None? {
        listing := AllRRs(store);
        return None, listing;
      }
      var rrs := AllRRs(store);
      listing := rrs;
      if question.Some? && question.value.data.SOAData? {
        var ch := FindJournal(journal, question.value.data.serial, SerialOf(soa.value));
        if ch.Some? {
          var answer := Response(soa.value, [question.value] + ch.value.removes, ch.value.adds);
          OneEnvelope(answer);
          return Some([answer]), listing;
        }
      }
      var es := WriteAXFR(soa.value, rrs);
      return Some(es), listing;
    }
  }

  lemma SerialField(st: Store)
    requires st.Valid()
    ensures st.serial == st.state.serial
  {
  }

  lemma OneEnvelope(answer: seq<RR>)
    ensures Flatten([answer]) == answer
  {
    assert [answer][..0] == [];
    Seqs.EmptyIsUnit(answer);
  }

  method ReadApexSOA(st: Store) returns (soa: Option<RR>)
    requires st.Valid()
    ensures soa == ReadSOA(st.state)
    ensures soa.Some? ==> IsSOA(soa.value)
  {
    hide Store.Valid, Store.NodesMatch, ApexFirst;
    KnownStore(st);
    soa := st.ApexRR(SOA, st.state);
    if soa.Some? && !soa.value.data.SOAData? {
      soa := None;
    }
  }

  /** Takes the SOA out and files it again with the next serial; tells whether both went through. */
  method Bump(st: Store, soa: RR) returns (bumped: bool)
    requires st.Valid() && ReadSOA(st.state) == Some(soa) && IsSOA(soa)
    modifies st, st.nodes.Values
    ensures st.Valid() && fresh(st.nodes.Values - old(st.nodes.Values))
    ensures bumped <==> BumpSpec(old(st.state)).Some?
    ensures bumped ==> st.state == BumpSpec(old(st.state)).value
    ensures !bumped ==> st.state == if RemoveSpec(old(st.state), soa).Some? then RemoveSpec(old(st.state), soa).value
            else old(st.state)
  {
    hide Store.Valid, ReadSOA, RemoveSpec, AddSpec;
    var err := st.RemoveRR(soa);
    if err {
      return false;
    }
    err := st.AddRR(Bumped(soa));
    return !err;
  }

  method FindJournal(journal: seq<Changeset>, from: u32, to: u32) returns (ch: Option<Changeset>)
    ensures ch == Entry(journal, from, to)
  {
    var i := 0;
    assert journal[0..] == journal;
    while i < |journal|
      invariant 0 <= i <= |journal|
      invariant Entry(journal, from, to) == Entry(journal[i..], from, to)
    {
      assert journal[i..][1..] == journal[i + 1..];
      if journal[i].from == from && journal[i].to == to {
        return Some(journal[i]);
      }
      i := i + 1;
    }
    return None;
  }
}

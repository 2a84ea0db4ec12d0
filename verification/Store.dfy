/** The in-memory zone: nodes updated in place, a record counter and two ordered indexes. */
module Store {
  import opened Bytes
  import opened Names
  import opened Records
  import opened StoreSpec
  import opened Ring
  import Text
  import Seqs

  // ---------------------------------------------------------------------------
  // RRsets of one node, as a slice
  // ---------------------------------------------------------------------------

  ghost predicate DistinctTypes(sets: seq<RRSet>) {
    forall i, j | 0 <= i < j < |sets| :: sets[i].rtype != sets[j].rtype
  }

  function ToMap(sets: seq<RRSet>): Sets
    requires DistinctTypes(sets)
  {
    map i | 0 <= i < |sets| :: sets[i].rtype := sets[i]
  }

  function Count(sets: seq<RRSet>): nat {
    if sets == [] then 0 else Count(sets[..|sets| - 1]) + |sets[|sets| - 1].rdata|
  }

  lemma {:induction false} CountReplaced(sets: seq<RRSet>, i: nat, s: RRSet)
    requires i < |sets|
    ensures Count(sets[i := s]) == Count(sets) - |sets[i].rdata| + |s.rdata|
  {
    var last := |sets| - 1;
    if i < last {
      assert sets[i := s][..last] == sets[..last][i := s];
      CountReplaced(sets[..last], i, s);
    } else {
      assert sets[i := s][..last] == sets[..last];
    }
  }

  lemma {:induction false} CountDropped(sets: seq<RRSet>, i: nat)
    requires i < |sets|
    ensures Count(sets[..i] + sets[i + 1..]) == Count(sets) - |sets[i].rdata|
  {
    var last := |sets| - 1;
    var rest := sets[..i] + sets[i + 1..];
    if i < last {
      assert rest[..last - 1] == sets[..last][..i] + sets[..last][i + 1..];
      assert rest[last - 1] == sets[last];
      CountDropped(sets[..last], i);
    } else {
      assert rest == sets[..last];
    }
  }

  lemma {:induction false} CountZero(sets: seq<RRSet>)
    requires forall i | 0 <= i < |sets| :: sets[i].rdata != []
    ensures Count(sets) == 0 <==> sets == []
  {
    if sets != [] { CountZero(sets[..|sets| - 1]); }
  }

  /** `m` maps every type that occurs to its RRset. */
  ghost predicate IsMapOf(sets: seq<RRSet>, m: Sets) {
    && (forall j | 0 <= j < |sets| :: sets[j].rtype in m && m[sets[j].rtype] == sets[j])
    && (forall t | t in m :: exists j | 0 <= j < |sets| :: sets[j].rtype == t)
  }

  lemma ToMapIs(sets: seq<RRSet>)
    requires DistinctTypes(sets)
    ensures IsMapOf(sets, ToMap(sets))
  {
  }

  lemma MapUnique(sets: seq<RRSet>, m: Sets)
    requires DistinctTypes(sets) && IsMapOf(sets, m)
    ensures m == ToMap(sets)
  {
    ToMapIs(sets);
    hide ToMap;
    forall t | t in m ensures t in ToMap(sets) && ToMap(sets)[t] == m[t] {
      var j :| 0 <= j < |sets| && sets[j].rtype == t;
    }
    forall t | t in ToMap(sets) ensures t in m {
      var j :| 0 <= j < |sets| && sets[j].rtype == t;
    }
  }

  lemma ReplaceOneType(sets: seq<RRSet>, i: nat, s: RRSet)
    requires DistinctTypes(sets) && i < |sets| && s.rtype == sets[i].rtype
    ensures DistinctTypes(sets[i := s])
    ensures ToMap(sets[i := s]) == ToMap(sets)[s.rtype := s]
  {
    hide ToMap;
    ToMapIs(sets);
    var rest, m := sets[i := s], ToMap(sets)[s.rtype := s];
    forall t | t in m ensures exists j | 0 <= j < |rest| :: rest[j].rtype == t {
      if t == s.rtype {
        assert rest[i].rtype == t;
      } else {
        var j :| 0 <= j < |sets| && sets[j].rtype == t;
        assert rest[j].rtype == t;
      }
    }
    MapUnique(rest, m);
  }

  lemma AppendOneType(sets: seq<RRSet>, s: RRSet)
    requires DistinctTypes(sets) && forall j | 0 <= j < |sets| :: sets[j].rtype != s.rtype
    ensures DistinctTypes(sets + [s]) && s.rtype !in ToMap(sets)
    ensures ToMap(sets + [s]) == ToMap(sets)[s.rtype := s]
  {
    hide ToMap;
    ToMapIs(sets);
    var all, m := sets + [s], ToMap(sets)[s.rtype := s];
    forall t | t in m ensures exists j | 0 <= j < |all| :: all[j].rtype == t {
      if t == s.rtype {
        assert all[|sets|].rtype == t;
      } else {
        var j :| 0 <= j < |sets| && sets[j].rtype == t;
        assert all[j].rtype == t;
      }
    }
    MapUnique(all, m);
  }

  lemma DropOneType(sets: seq<RRSet>, i: nat)
    requires DistinctTypes(sets) && i < |sets|
    ensures DistinctTypes(sets[..i] + sets[i + 1..])
    ensures ToMap(sets[..i] + sets[i + 1..]) == ToMap(sets) - {sets[i].rtype}
  {
    hide ToMap;
    ToMapIs(sets);
    var rest, m := sets[..i] + sets[i + 1..], ToMap(sets) - {sets[i].rtype};
    forall j | 0 <= j < |rest| ensures rest[j] == sets[if j < i then j else j + 1] {}
    forall t | t in m ensures exists j | 0 <= j < |rest| :: rest[j].rtype == t {
      var j :| 0 <= j < |sets| && sets[j].rtype == t;
      assert rest[if j < i then j else j - 1] == sets[j];
    }
    MapUnique(rest, m);
  }

  lemma FiledByType(sets: seq<RRSet>, i: nat)
    requires DistinctTypes(sets) && i < |sets|
    ensures sets[i].rtype in ToMap(sets) && ToMap(sets)[sets[i].rtype] == sets[i]
  {
  }

  lemma AbsentType(sets: seq<RRSet>, t: nat)
    requires DistinctTypes(sets) && forall j | 0 <= j < |sets| :: sets[j].rtype != t
    ensures t !in ToMap(sets)
  {
  }

  /** A record arrived for a type that is there: the first non-zero TTL stays, a duplicate is dropped. */
  lemma AddedToExisting(sets: seq<RRSet>, i: nat, rr: RR, s: RRSet)
    requires DistinctTypes(sets) && i < |sets| && sets[i].rtype == rr.Type()
    requires s == RRSet(rr.Type(), if sets[i].ttl == 0 then rr.ttl else sets[i].ttl,
                        if rr in sets[i].rdata then sets[i].rdata else sets[i].rdata + [rr])
    ensures DistinctTypes(sets[i := s]) && ToMap(sets[i := s]) == AddToSets(ToMap(sets), rr)
    ensures Count(sets[i := s]) == Count(sets) + if Holds(ToMap(sets), rr) then 0 else 1
  {
    hide ToMap, Count;
    FiledByType(sets, i);
    ReplaceOneType(sets, i, s);
    CountReplaced(sets, i, s);
  }

  lemma AddedNew(sets: seq<RRSet>, rr: RR)
    requires DistinctTypes(sets) && forall j | 0 <= j < |sets| :: sets[j].rtype != rr.Type()
    ensures var more := sets + [RRSet(rr.Type(), rr.ttl, [rr])];
            && DistinctTypes(more) && ToMap(more) == AddToSets(ToMap(sets), rr)
            && Count(more) == Count(sets) + if Holds(ToMap(sets), rr) then 0 else 1
  {
    hide ToMap;
    var s := RRSet(rr.Type(), rr.ttl, [rr]);
    AbsentType(sets, rr.Type());
    AppendOneType(sets, s);
    assert (sets + [s])[..|sets|] == sets;
  }

  lemma NoRecordsNoSets(name: Name, sets: seq<RRSet>)
    requires DistinctTypes(sets) && WellFiled(name, ToMap(sets))
    ensures Count(sets) == 0 <==> ToMap(sets) == map[]
  {
    forall i | 0 <= i < |sets| ensures sets[i].rdata != [] { FiledByType(sets, i); }
    CountZero(sets);
    if sets != [] { FiledByType(sets, 0); }
  }

  /** A record left a type that is there; an RRset that became empty goes away. */
  lemma TakenFromExisting(sets: seq<RRSet>, i: nat, rr: RR, kept: seq<RR>)
    requires DistinctTypes(sets) && i < |sets| && sets[i].rtype == rr.Type() && rr in sets[i].rdata
    requires kept == RemoveFirst(sets[i].rdata, rr) && |kept| == |sets[i].rdata| - 1
    ensures var less := if kept == [] then sets[..i] + sets[i + 1..] else sets[i := sets[i].(rdata := kept)];
            && DistinctTypes(less) && ToMap(less) == RemoveFromSets(ToMap(sets), rr) && Count(less) == Count(sets) - 1
    ensures Holds(ToMap(sets), rr)
  {
    hide ToMap, Count, RemoveFirst;
    FiledByType(sets, i);
    if kept == [] {
      CountDropped(sets, i);
      DropOneType(sets, i);
    } else {
      CountReplaced(sets, i, sets[i].(rdata := kept));
      ReplaceOneType(sets, i, sets[i].(rdata := kept));
    }
  }

  class Node {
    const name: Name
    var sets: seq<RRSet>
    var isDelegation: bool
    var hasDS: bool

    ghost predicate Valid()
      reads this
    {
      DistinctTypes(sets)
    }

    function View(): NodeView
      reads this
      requires Valid()
    {
      NodeView(ToMap(sets), isDelegation, hasDS)
    }

    constructor (name: Name)
      ensures Valid() && this.name == name && sets == []
    {
      this.name := name;
      sets := [];
      isDelegation := false;
      hasDS := false;
    }

    method Has(rrtype: nat) returns (found: bool)
      requires Valid()
      ensures found <==> rrtype in ToMap(sets)
    {
      var i := 0;
      while i < |sets|
        invariant 0 <= i <= |sets|
        invariant forall j | 0 <= j < i :: sets[j].rtype != rrtype
      {
        if sets[i].rtype == rrtype { return true; }
        i := i + 1;
      }
      return false;
    }

    method RecordCount() returns (c: nat)
      ensures c == Count(sets)
    {
      c := 0;
      var i := 0;
      while i < |sets|
        invariant 0 <= i <= |sets|
        invariant c == Count(sets[..i])
      {
        assert sets[..i + 1][..i] == sets[..i];
        c := c + |sets[i].rdata|;
        i := i + 1;
      }
      assert sets[..i] == sets;
    }

    method AddPacked(rrtype: nat, ttl: nat, rdata: RR)
      requires Valid() && rdata.Type() == rrtype && rdata.ttl == ttl
      modifies this`sets
      ensures Valid() && ToMap(sets) == AddToSets(old(ToMap(sets)), rdata)
      ensures Count(sets) == old(Count(sets)) + if Holds(old(ToMap(sets)), rdata) then 0 else 1
    {
      hide ToMap, Count, DistinctTypes, AddToSets, Holds;
      var i := 0;
      while i < |sets|
        invariant 0 <= i <= |sets|
        invariant sets == old(sets)
        invariant forall j | 0 <= j < i :: sets[j].rtype != rrtype
      {
        if sets[i].rtype == rrtype {
          ghost var was := sets[i];
          if sets[i].ttl == 0 {
            sets := sets[i := sets[i].(ttl := ttl)];
          }
          var existing := sets[i].rdata;
          var j := 0;
          while j < |existing|
            invariant 0 <= j <= |existing|
            invariant rdata !in existing[..j]
          {
            if existing[j] == rdata {
              assert sets == old(sets)[i := sets[i]];
              AddedToExisting(old(sets), i, rdata, sets[i]);
              return;
            }
            assert existing[..j + 1] == existing[..j] + [existing[j]];
            j := j + 1;
          }
          assert existing[..j] == existing;
          sets := sets[i := sets[i].(rdata := existing + [rdata])];
          assert sets == old(sets)[i := sets[i]];
          AddedToExisting(old(sets), i, rdata, sets[i]);
          return;
        }
        i := i + 1;
      }
      AddedNew(sets, rdata);
      sets := sets + [RRSet(rrtype, ttl, [rdata])];
    }

    method RemovePacked(rrtype: nat, rdata: RR) returns (removed: bool)
      requires Valid() && rdata.Type() == rrtype
      modifies this`sets
      ensures Valid() && ToMap(sets) == RemoveFromSets(old(ToMap(sets)), rdata)
      ensures removed <==> Holds(old(ToMap(sets)), rdata)
      ensures Count(sets) == old(Count(sets)) - if removed then 1 else 0
    {
      hide ToMap, Count, DistinctTypes, RemoveFirst;
      var i := 0;
      while i < |sets|
        invariant 0 <= i <= |sets|
        invariant sets == old(sets)
        invariant forall j | 0 <= j < i :: sets[j].rtype != rrtype
      {
        if sets[i].rtype != rrtype {
          i := i + 1;
          continue;
        }
        FiledByType(sets, i);
        var kept;
        kept, removed := DropFirst(sets[i].rdata, rdata);
        if !removed {
          return;
        }
        TakenFromExisting(sets, i, rdata, kept);
        if |kept| == 0 {
          sets := sets[..i] + sets[i + 1..];
        } else {
          sets := sets[i := sets[i].(rdata := kept)];
        }
        return;
      }
      AbsentType(sets, rrtype);
      return false;
    }

    /** Files a record and recomputes the flags; returns by how much the record count grew. */
    method File(rr: RR, origin: Name) returns (grown: int)
      requires Valid() && rr.name == name
      modifies this
      ensures Valid() && View() == Flagged(origin, name, AddToSets(old(ToMap(sets)), rr))
      ensures grown == if Holds(old(ToMap(sets)), rr) then 0 else 1
    {
      var before := RecordCount();
      AddPacked(rr.Type(), rr.ttl, rr);
      var after := RecordCount();
      grown := after - before;
      RecomputeFlags(origin);
    }

    /** Takes a record out; returns whether it was there and whether the node is now empty. */
    method TakeOut(rr: RR, origin: Name) returns (removed: bool, empty: bool)
      requires Valid() && rr.name == name && WellFiled(name, ToMap(sets))
      modifies this
      ensures Valid() && removed == Holds(old(ToMap(sets)), rr)
      ensures ToMap(sets) == RemoveFromSets(old(ToMap(sets)), rr)
      ensures empty <==> ToMap(sets) == map[]
      ensures !empty ==> View() == Flagged(origin, name, ToMap(sets))
    {
      hide ToMap, WellFiled, RemoveFromSets, Holds, Count;
      RemoveFromSetsFacts(name, ToMap(sets), rr);
      removed := RemovePacked(rr.Type(), rr);
      NoRecordsNoSets(name, sets);
      var count := RecordCount();
      empty := count == 0;
      if !empty {
        RecomputeFlags(origin);
      }
    }

    method RecomputeFlags(origin: Name)
      requires Valid()
      modifies this`isDelegation, this`hasDS
      ensures isDelegation <==> name != origin && NS in ToMap(sets)
      ensures hasDS <==> DS in ToMap(sets)
    {
      var ns := Has(NS);
      isDelegation := name != origin && ns;
      hasDS := Has(DS);
    }
  }

  /** The records without the first one equal to `x`. */
  method DropFirst(s: seq<RR>, x: RR) returns (kept: seq<RR>, removed: bool)
    ensures kept == RemoveFirst(s, x)
    ensures removed <==> x in s
    ensures removed ==> |kept| == |s| - 1
  {
    hide RemoveFirst, Dropping;
    kept, removed := [], false;
    var i := 0;
    DropBegins(s, x);
    while i < |s|
      invariant 0 <= i <= |s|
      invariant Dropping(s, x, i, kept, removed)
    {
      DropStep(s, x, i, kept, removed);
      if !removed && s[i] == x {
        removed := true;
      } else {
        kept := kept + [s[i]];
      }
      i := i + 1;
    }
    DropEnds(s, x, kept, removed);
  }

  /** After `i` records: those kept, followed by what is left to do on the rest. */
  ghost predicate Dropping(s: seq<RR>, x: RR, i: nat, kept: seq<RR>, removed: bool) {
    && i <= |s| && (removed <==> x in s[..i]) && |kept| == i - (if removed then 1 else 0)
    && RemoveFirst(s, x) == kept + if removed then s[i..] else RemoveFirst(s[i..], x)
  }

  lemma DropBegins(s: seq<RR>, x: RR)
    ensures Dropping(s, x, 0, [], false)
  {
    assert s[0..] == s && s[..0] == [];
  }

  lemma DropStep(s: seq<RR>, x: RR, i: nat, kept: seq<RR>, removed: bool)
    requires Dropping(s, x, i, kept, removed) && i < |s|
    ensures if !removed && s[i] == x then Dropping(s, x, i + 1, kept, true)
            else Dropping(s, x, i + 1, kept + [s[i]], removed)
  {
    hide RemoveFirst;
    OneMore(s, i);
    if removed {
      Seqs.Assoc(kept, [s[i]], s[i + 1..]);
    } else {
      FirstOf(s[i..], x);
      Seqs.Assoc(kept, [s[i]], RemoveFirst(s[i + 1..], x));
    }
  }

  lemma OneMore(s: seq<RR>, i: nat)
    requires i < |s|
    ensures s[..i + 1] == s[..i] + [s[i]] && s[i..] == [s[i]] + s[i + 1..] && s[i..][1..] == s[i + 1..]
  {
  }

  lemma FirstOf(s: seq<RR>, x: RR)
    requires s != []
    ensures RemoveFirst(s, x) == if s[0] == x then s[1..] else [s[0]] + RemoveFirst(s[1..], x)
  {
  }

  lemma DropEnds(s: seq<RR>, x: RR, kept: seq<RR>, removed: bool)
    requires Dropping(s, x, |s|, kept, removed)
    ensures kept == RemoveFirst(s, x) && (removed <==> x in s) && (removed ==> |kept| == |s| - 1)
  {
    assert s[..|s|] == s && s[|s|..] == [];
  }

  // ---------------------------------------------------------------------------
  // The store
  // ---------------------------------------------------------------------------

  class Store {
    const origin: Name
    var serial: u32
    var nodes: map<Name, Node>
    var nsec3: map<Bytes, NSEC3Rec>
    var expiry: map<Bytes, ExpiryRec>
    var rrs: int

    /** The abstract state of the store. */
    ghost var state: StoreView

    /** Every node is filed under its own name and looks as the abstract state says. */
    ghost predicate NodesMatch(nodesView: map<Name, NodeView>)
      reads this`nodes, nodes.Values
    {
      && nodes.Keys == nodesView.Keys
      && forall n | n in nodes :: nodes[n].name == n && nodes[n].Valid() && nodes[n].View() == nodesView[n]
    }

    ghost predicate FieldsMatch(v: StoreView)
      reads this`serial, this`nsec3, this`expiry, this`rrs
    {
      && v.origin == origin && v.serial == serial && v.nsec3 == nsec3 && v.expiry == expiry && v.rrs == rrs
    }

    ghost predicate Valid()
      reads this, nodes.Values
    {
      Aligned() && Shape(state)
    }

    ghost predicate Aligned()
      reads this, nodes.Values
    {
      NodesMatch(state.nodes) && FieldsMatch(state)
    }

    constructor (origin: Name)
      ensures Valid() && state == EmptyStore(origin) && nodes == map[]
    {
      this.origin := origin;
      serial := 0;
      nodes := map[];
      nsec3 := map[];
      expiry := map[];
      rrs := 0;
      state := EmptyStore(origin);
      new;
      EmptyStoreFacts(origin);
    }

    /** The first apex record of a type. */
    method ApexRR(rrtype: nat, ghost v: StoreView) returns (rr: Option<RR>)
      requires NodesMatch(v.nodes) && v.origin == origin
      ensures rr == ApexFirst(v, rrtype)
    {
      if origin !in nodes {
        return None;
      }
      var node := nodes[origin];
      assert SetsAt(v, origin) == ToMap(node.sets);
      var i := 0;
      while i < |node.sets|
        invariant 0 <= i <= |node.sets|
        invariant forall j | 0 <= j < i :: node.sets[j].rtype != rrtype
      {
        if node.sets[i].rtype == rrtype {
          assert ToMap(node.sets)[rrtype] == node.sets[i];
          var rrs := Unpack(node.sets[i]);
          return if |rrs| == 0 then None else Some(rrs[0]);
        }
        i := i + 1;
      }
      return None;
    }

    method IndexRR(name: Name, rr: RR)
      requires rr.name == name
      modifies this`nsec3, this`expiry
      ensures (nsec3, expiry) == (if rr.data.NSEC3Data? then old(nsec3)[NSEC3Key(name) := MakeNSEC3Rec(rr)]
              else old(nsec3),
                                  if rr.data.RRSIGData? then old(expiry)[SignatureKey(rr) := MakeExpiryRec(rr)]
                                      else old(expiry))
    {
      match rr.data
      case NSEC3Data(_, _, _, _, _) =>
        var rec := MakeNSEC3Rec(rr);
        nsec3 := nsec3[rec.hash := rec];
      case RRSIGData(_) =>
        expiry := expiry[SignatureKey(rr) := MakeExpiryRec(rr)];
      case _ =>
    }

    method DeindexRR(name: Name, rr: RR)
      requires rr.name == name
      modifies this`nsec3, this`expiry
      ensures nsec3 == if rr.data.NSEC3Data? && HashFromOwner(name).Some? then old(nsec3) - {HashFromOwner(name).value}
              else old(nsec3)
      ensures expiry == if rr.data.RRSIGData? then old(expiry) - {SignatureKey(rr)} else old(expiry)
    {
      match rr.data
      case NSEC3Data(_, _, _, _, _) =>
        var hash := HashFromOwner(name);
        if hash.Some? {
          nsec3 := nsec3 - {hash.value};
        }
      case RRSIGData(_) =>
        expiry := expiry - {SignatureKey(rr)};
      case _ =>
    }

    /** Files a record under its owner name, creating the node of a name that has none yet. */
    method FileRecord(rr: RR, ghost before: map<Name, NodeView>) returns (grown: int)
      requires NodesMatch(before)
      modifies this`nodes, nodes.Values
      ensures NodesMatch(Filed(origin, before, rr)) && fresh(nodes.Values - old(nodes.Values))
      ensures grown == if Holds(SetsIn(before, rr.name), rr) then 0 else 1
    {
      hide AddToSets, Holds;
      var name := rr.name;
      if name !in nodes {
        var created := new Node(name);
        nodes := nodes[name := created];
      }
      var node := nodes[name];
      ghost var sets := SetsIn(before, name);
      assert ToMap(node.sets) == sets;
      grown := node.File(rr, origin);
      ghost var after := Filed(origin, before, rr);
      forall n | n in nodes ensures nodes[n].name == n && nodes[n].Valid() && nodes[n].View() == after[n] {
        if n != name {
          assert nodes[n] != node;
        }
      }
    }

    /** Takes a record out of a node that exists and drops the node when it became empty. */
    method TakeOutRecord(rr: RR, ghost before: map<Name, NodeView>) returns (removed: bool)
      requires NodesMatch(before) && rr.name in nodes && WellFiled(rr.name, before[rr.name].sets)
      modifies this`nodes, nodes.Values
      ensures NodesMatch(TakenOut(origin, before, rr)) && nodes.Values <= old(nodes.Values)
      ensures removed <==> Holds(SetsIn(before, rr.name), rr)
    {
      hide RemoveFromSets, Holds, WellFiled;
      var name := rr.name;
      var node := nodes[name];
      assert ToMap(node.sets) == before[name].sets;
      var empty;
      removed, empty := node.TakeOut(rr, origin);
      ghost var after := TakenOut(origin, before, rr);
      forall n | n in nodes && n != name ensures nodes[n].name == n && nodes[n].Valid() && nodes[n].View() == after[n] {
        assert nodes[n] != node;
      }
      if empty {
        nodes := nodes - {name};
      }
    }

    /** Adds a record; on error (rdata that does not pack) nothing changes. */
    method AddRR(rr: RR) returns (err: bool)
      requires Valid()
      modifies this, nodes.Values
      ensures Valid() && fresh(nodes.Values - old(nodes.Values))
      ensures err <==> AddSpec(old(state), rr).None?
      ensures state == if err then old(state) else AddSpec(old(state), rr).value
    {
      if !rr.ClassAccepted() {
        return false;
      }
      if !rr.Packs() {
        return true;
      }
      ghost var v' := AddResult(state, rr);
      AddPacked(rr, v');
      return false;
    }

    method AddPacked(rr: RR, ghost v': StoreView)
      requires Aligned() && Added(state, v', rr)
      modifies this, nodes.Values
      ensures Aligned() && state == v' && fresh(nodes.Values - old(nodes.Values))
    {
      hide Shape, NodesMatch, Filed, Holds, AddedEntry;
      var grown := FileRecord(rr, state.nodes);
      assert NodesMatch(v'.nodes);
      CountIn(rr, grown, v');
    }

    /** Counter, serial and indexes after filing a record. */
    method CountIn(rr: RR, grown: int, ghost v': StoreView)
      requires FieldsMatch(state) && Added(state, v', rr)
      requires grown == if Stored(state, rr) then 0 else 1
      modifies this`rrs, this`serial, this`nsec3, this`expiry, this`state
      ensures FieldsMatch(v') && state == v'
    {
      hide NodesMatch, Filed, Stored, MakeNSEC3Rec, NSEC3Key, SignatureKey;
      rrs := rrs + grown;
      if rr.data.SOAData? {
        serial := rr.data.serial;
      }
      IndexRR(rr.name, rr);
      state := v';
    }

    /** Removes a record; on error nothing changes. */
    method RemoveRR(rr: RR) returns (err: bool)
      requires Valid()
      modifies this, nodes.Values
      ensures Valid() && nodes.Values <= old(nodes.Values)
      ensures err <==> RemoveSpec(old(state), rr).None?
      ensures state == if err then old(state) else RemoveSpec(old(state), rr).value
    {
      if rr.name !in nodes {
        return false;
      }
      if !rr.Packs() {
        return true;
      }
      assert NodeOk(origin, rr.name, state.nodes[rr.name]);
      ghost var v' := RemoveResult(state, rr);
      RemovePacked(rr, v');
      return false;
    }

    method RemovePacked(rr: RR, ghost v': StoreView)
      requires Aligned() && Removed(state, v', rr) && RemovedSerial(state, v', rr)
      requires WellFiled(rr.name, SetsAt(state, rr.name)) && rr.name in nodes
      modifies this, nodes.Values
      ensures Aligned() && state == v' && nodes.Values <= old(nodes.Values)
    {
      hide Shape, NodesMatch, TakenOut, Holds, RemovedEntry, WellFiled;
      var removed := TakeOutRecord(rr, state.nodes);
      assert NodesMatch(v'.nodes);
      CountOut(rr, removed, v');
    }

    /** Counter, indexes and serial after taking a record out. */
    method CountOut(rr: RR, removed: bool, ghost v': StoreView)
      requires FieldsMatch(state) && NodesMatch(v'.nodes)
      requires Removed(state, v', rr) && RemovedSerial(state, v', rr)
      requires removed == Stored(state, rr)
      modifies this`rrs, this`serial, this`nsec3, this`expiry, this`state
      ensures FieldsMatch(v') && state == v'
    {
      hide NodesMatch, TakenOut, Stored, HashFromOwner, SignatureKey, ApexFirst;
      if removed {
        rrs := rrs - 1;
      }
      DeindexRR(rr.name, rr);
      assert v'.nsec3 == nsec3 && v'.expiry == expiry && v'.rrs == rrs;
      if rr.data.SOAData? {
        var soa := ApexRR(SOA, v');
        if soa.Some? && soa.value.data.SOAData? {
          serial := soa.value.data.serial;
        }
      }
      assert v'.serial == serial;
      state := v';
    }

    // -------------------------------------------------------------------------
    // Ordered look-ups
    // -------------------------------------------------------------------------

    /** The NSEC3 that matches or covers a hash. */
    method CoveringNSEC3(hash: Bytes) returns (rec: Option<NSEC3Rec>)
      ensures rec.None? <==> nsec3 == map[]
      ensures rec.Some? ==> exists c | c in nsec3 :: IsCover(nsec3.Keys, hash, c) && rec.value == nsec3[c]
    {
      if hash in nsec3 {
        return Some(nsec3[hash]);
      }
      hide IsPrev, Less;
      var keys := Scan(nsec3.Keys);
      KeysEmpty(nsec3, keys);
      if |keys| == 0 {
        return None;
      }
      var i := FindPrev(keys, nsec3.Keys, hash);
      return Some(nsec3[keys[i]]);
    }

    /** The successor of a hash in the ring, whether or not the hash itself is present. */
    method NextNSEC3(hash: Bytes) returns (next: Option<NSEC3Rec>)
      ensures next.None? <==> nsec3 == map[]
      ensures next.Some? ==> exists n | n in nsec3 :: IsNext(nsec3.Keys, hash, n) && next.value == nsec3[n]
    {
      var keys := Scan(nsec3.Keys);
      KeysEmpty(nsec3, keys);
      var i := LastBelow(keys, hash);
      next := None;
      var found := false;
      while i < |keys| && next.None?
        invariant 0 <= i <= |keys|
        invariant forall j | 0 <= j < i && keys[j] != hash :: Less(keys[j], hash)
        invariant forall j | i <= j < |keys| :: Leq(hash, keys[j])
        invariant found ==> i > 0 && keys[i - 1] == hash
        invariant next.Some? ==> i < |keys| && keys[i] in nsec3 && next.value == nsec3[keys[i]] && keys[i] != hash
        decreases |keys| - i, next.None?
      {
        if !found && keys[i] == hash {
          found := true;
          i := i + 1;
        } else {
          if keys[i] == hash { LessIrreflexive(hash); }
          next := Some(nsec3[keys[i]]);
        }
      }
      if next.None? {
        if |keys| > 0 {
          assert keys[0] in nsec3;
          NextIsFirst(nsec3.Keys, keys, hash);
          next := Some(nsec3[keys[0]]);
        }
      } else {
        NextIsAt(nsec3.Keys, keys, i, hash);
      }
    }

    /** The predecessor of a hash in the ring, never the hash itself unless it is alone. */
    method PredNSEC3(hash: Bytes) returns (pred: Option<NSEC3Rec>)
      ensures pred.None? <==> nsec3 == map[]
      ensures pred.Some? ==> exists p | p in nsec3 :: IsPrev(nsec3.Keys, hash, p) && pred.value == nsec3[p]
    {
      hide IsPrev, Less;
      var keys := Scan(nsec3.Keys);
      KeysEmpty(nsec3, keys);
      if |keys| == 0 {
        return None;
      }
      var i := FindPrev(keys, nsec3.Keys, hash);
      return Some(nsec3[keys[i]]);
    }

    /** The soonest signature expiration, or 0 without signatures. */
    method EarliestExpiry() returns (exp: u32)
      requires forall k | k in expiry :: KeyedByExpiration(k, expiry[k])
      ensures expiry == map[] ==> exp == 0
      ensures expiry != map[] ==> exists k | k in expiry :: expiry[k].expiration == exp
      ensures forall k | k in expiry :: exp <= expiry[k].expiration
    {
      exp := 0;
      var keys := Scan(expiry.Keys);
      KeysEmpty(expiry, keys);
      if |keys| > 0 {
        assert keys[0] in expiry;
        exp := expiry[keys[0]].expiration;
        forall k | k in expiry ensures exp <= expiry[k].expiration {
          var j :| 0 <= j < |keys| && keys[j] == k;
          if j > 0 { ExpiryOrder(keys[0], expiry[keys[0]], k, expiry[k]); }
        }
      }
    }

    /** The entries up to a cut-off, in key order: the scan stops at the first key past the bound. */
    method ExpiringBefore(cutoff: u32) returns (recs: seq<ExpiryRec>)
      requires forall k | k in expiry :: KeyedByExpiration(k, expiry[k])
      ensures exists keys :: IsScanUpTo(expiry, cutoff, keys, recs)
    {
      hide KeyedByExpiration, IsScanUpTo, Text.CutoffKey, Less, Sorted;
      recs := [];
      var keys := Scan(expiry.Keys);
      var end := Text.CutoffKey(cutoff);
      var i := 0;
      while i < |keys|
        invariant 0 <= i <= |keys| && |recs| == i
        invariant forall j | 0 <= j < i :: keys[j] in expiry && expiry[keys[j]].expiration <= cutoff
        invariant forall j | 0 <= j < i :: recs[j] == expiry[keys[j]]
        decreases |keys| - i
      {
        assert keys[i] in keys;
        var rec := expiry[keys[i]];
        CutoffDecides(cutoff, keys[i], rec);
        if Less(end, keys[i]) || rec.expiration > cutoff {
          break;
        }
        recs := recs + [rec];
        i := i + 1;
      }
      ScanIsComplete(expiry, keys, i, cutoff, recs);
    }

    /** Applies removals, then additions, one record at a time. A record that does not pack stops the run with an
        error: what was applied before it stays applied, and the touched set says what that may have affected. */
    method ApplyChanges(adds: seq<RR>, removes: seq<RR>) returns (t: Touched, err: bool)
      requires Valid()
      modifies this, nodes.Values
      ensures Valid() && fresh(nodes.Values - old(nodes.Values))
      ensures (state, !err) == Steps(old(state), Changes(adds, removes))
      ensures t == TouchedBy(old(state), NOTHING, Changes(adds, removes))
    {
      hide Store.Valid, Steps, TouchedBy, Step, Noted, Counted, AddSpec, RemoveSpec;
      ghost var v := state;
      ghost var cs := Changes(adds, removes);
      t := NOTHING;
      var i := 0;
      assert cs[0..] == cs;
      while i < |removes|
        invariant 0 <= i <= |removes|
        invariant Valid() && fresh(nodes.Values - old(nodes.Values))
        invariant Steps(v, cs) == Steps(state, cs[i..])
        invariant TouchedBy(v, NOTHING, cs) == TouchedBy(state, t, cs[i..])
      {
        var rr := removes[i];
        assert cs[i..][0] == Remove(rr) && cs[i..][1..] == cs[i + 1..];
        OneChange(state, t, cs[i..]);
        t := Noted(t, rr);
        err := RemoveRR(rr);
        if err { return; }
        t := Counted(t, Remove(rr));
        i := i + 1;
      }
      i := 0;
      while i < |adds|
        invariant 0 <= i <= |adds|
        invariant Valid() && fresh(nodes.Values - old(nodes.Values))
        invariant Steps(v, cs) == Steps(state, cs[|removes| + i..])
        invariant TouchedBy(v, NOTHING, cs) == TouchedBy(state, t, cs[|removes| + i..])
      {
        var rr := adds[i];
        assert cs[|removes| + i..][0] == Add(rr) && cs[|removes| + i..][1..] == cs[|removes| + i + 1..];
        OneChange(state, t, cs[|removes| + i..]);
        t := Noted(t, rr);
        err := AddRR(rr);
        if err { return; }
        t := Counted(t, Add(rr));
        i := i + 1;
      }
      assert cs[|cs|..] == [];
      NoChange(state, t);
      err := false;
    }
  }

  lemma NoChange(v: StoreView, t: Touched)
    ensures Steps(v, []) == (v, true) && TouchedBy(v, t, []) == t
  {
  }

  lemma OneChange(v: StoreView, t: Touched, cs: seq<Change>)
    requires cs != []
    ensures Step(v, cs[0]) == if cs[0].Add? then AddSpec(v, cs[0].rr) else RemoveSpec(v, cs[0].rr)
    ensures Step(v, cs[0]).None? ==> Steps(v, cs) == (v, false) && TouchedBy(v, t, cs) == Noted(t, cs[0].rr)
    ensures Step(v, cs[0]).Some? ==>
      && Steps(v, cs) == Steps(Step(v, cs[0]).value, cs[1..])
      && TouchedBy(v, t, cs) == TouchedBy(Step(v, cs[0]).value, Counted(Noted(t, cs[0].rr), cs[0]), cs[1..])
  {
  }

  /** How many keys of a sorted sequence are below `hash`. */
  method LastBelow(keys: seq<Bytes>, hash: Bytes) returns (i: nat)
    requires Sorted(keys)
    ensures i <= |keys|
    ensures forall j | 0 <= j < i :: Less(keys[j], hash)
    ensures forall j | i <= j < |keys| :: Leq(hash, keys[j])
  {
    i := |keys|;
    while i > 0 && !Less(keys[i - 1], hash)
      invariant 0 <= i <= |keys|
      invariant forall j | i <= j < |keys| :: Leq(hash, keys[j])
    {
      LessTotal(keys[i - 1], hash);
      i := i - 1;
    }
    forall j | 0 <= j < i ensures Less(keys[j], hash) {
      if j < i - 1 { LessTransitive(keys[j], keys[i - 1], hash); }
    }
  }

  /** Descends from `hash`; with nothing below it, wraps to the greatest key. */
  method FindPrev(keys: seq<Bytes>, ghost ks: set<Bytes>, hash: Bytes) returns (i: nat)
    requires Sorted(keys) && (forall k :: k in keys <==> k in ks) && |keys| > 0
    ensures i < |keys| && keys[i] in ks && IsPrev(ks, hash, keys[i])
    ensures hash !in ks ==> IsCover(ks, hash, keys[i])
  {
    hide IsPrev, Sorted, Less;
    i := LastBelow(keys, hash);
    if i == 0 {
      i := |keys|;
    }
    i := i - 1;
    PrevInSorted(ks, keys, i, hash);
    assert keys[i] in keys;
  }

  /** An expiry entry is filed under a key that starts with its expiration. */
  ghost predicate KeyedByExpiration(k: Bytes, rec: ExpiryRec) {
    k == Text.ExpiryKey(rec.expiration, rec.owner, rec.covered, rec.keyTag)
  }

  /** Key order never contradicts expiration order. */
  lemma ExpiryOrder(a: Bytes, ra: ExpiryRec, b: Bytes, rb: ExpiryRec)
    requires KeyedByExpiration(a, ra) && KeyedByExpiration(b, rb) && Less(a, b)
    ensures ra.expiration <= rb.expiration
  {
    if rb.expiration < ra.expiration {
      Text.ExpiryKeyOrder(rb.expiration, rb.owner, rb.covered, rb.keyTag, ra.expiration, ra.owner, ra.covered,
          ra.keyTag);
      LessAsymmetric(a, b);
    }
  }

  /** `recs` are exactly the entries expiring at or before the cut-off, in key order. */
  ghost predicate IsScanUpTo(index: map<Bytes, ExpiryRec>, cutoff: u32, keys: seq<Bytes>, recs: seq<ExpiryRec>) {
    && Sorted(keys) && |recs| == |keys|
    && (forall k :: k in keys <==> k in index && index[k].expiration <= cutoff)
    && (forall i | 0 <= i < |keys| :: keys[i] in index && recs[i] == index[keys[i]])
  }

  /** The prefix of the sorted keys before the first one past the cut-off holds exactly the keys up to it. */
  lemma PrefixUpTo(index: map<Bytes, ExpiryRec>, keys: seq<Bytes>, i: nat, cutoff: u32)
    requires forall k | k in index :: KeyedByExpiration(k, index[k])
    requires Sorted(keys) && (forall k :: k in keys <==> k in index) && i <= |keys|
    requires forall j | 0 <= j < i :: index[keys[j]].expiration <= cutoff
    requires i < |keys| ==> index[keys[i]].expiration > cutoff
    ensures forall k :: k in keys[..i] <==> k in index && index[k].expiration <= cutoff
  {
    hide KeyedByExpiration, Less;
    forall k | k in index && index[k].expiration <= cutoff ensures k in keys[..i] {
      var j :| 0 <= j < |keys| && keys[j] == k;
      if i < j { ExpiryOrder(keys[i], index[keys[i]], k, index[k]); }
      assert keys[..i][j] == k;
    }
    forall k | k in keys[..i] ensures k in index && index[k].expiration <= cutoff {
      var j :| 0 <= j < i && keys[j] == k;
    }
  }

  lemma ScanIsComplete(index: map<Bytes, ExpiryRec>, keys: seq<Bytes>, i: nat, cutoff: u32, recs: seq<ExpiryRec>)
    requires forall k | k in index :: KeyedByExpiration(k, index[k])
    requires Sorted(keys) && (forall k :: k in keys <==> k in index) && i == |recs| <= |keys|
    requires forall j | 0 <= j < i :: keys[j] in index && index[keys[j]].expiration <= cutoff
    requires forall j | 0 <= j < i :: recs[j] == index[keys[j]]
    requires i < |keys| ==> index[keys[i]].expiration > cutoff
    ensures IsScanUpTo(index, cutoff, keys[..i], recs)
  {
    PrefixUpTo(index, keys, i, cutoff);
  }

  lemma CutoffDecides(cutoff: u32, k: Bytes, rec: ExpiryRec)
    requires KeyedByExpiration(k, rec)
    ensures Less(Text.CutoffKey(cutoff), k) <==> rec.expiration > cutoff
  {
    Text.CutoffKeyOrder(cutoff, rec.expiration, rec.owner, rec.covered, rec.keyTag);
  }

  lemma KeysEmpty<V>(m: map<Bytes, V>, keys: seq<Bytes>)
    requires |keys| == |m.Keys|
    ensures keys == [] <==> m == map[]
  {
  }

  /** With the keys below `hash` in front, the last of them, or the last of all, is the predecessor. */
  lemma PrevInSorted(keys: set<Bytes>, s: seq<Bytes>, i: nat, hash: Bytes)
    requires Sorted(s) && (forall k :: k in s <==> k in keys) && i < |s|
    requires (Less(s[i], hash) && forall j | i < j < |s| :: Leq(hash, s[j])) ||
             (i == |s| - 1 && forall j | 0 <= j < |s| :: Leq(hash, s[j]))
    ensures IsPrev(keys, hash, s[i])
    ensures hash !in keys ==> IsCover(keys, hash, s[i])
  {
    LessIsTotalOrder();
    forall k | k in keys && Less(k, hash) ensures Leq(k, s[i]) {
      var j :| 0 <= j < |s| && s[j] == k;
    }
    if !Less(s[i], hash) {
      forall k | k in keys ensures !Less(k, hash) && Leq(k, s[i]) {
        var j :| 0 <= j < |s| && s[j] == k;
      }
    }
  }

  lemma NextIsAt(keys: set<Bytes>, s: seq<Bytes>, i: nat, hash: Bytes)
    requires Sorted(s) && (forall k :: k in s <==> k in keys) && i < |s|
    requires (forall j | 0 <= j < i && s[j] != hash :: Less(s[j], hash)) && Leq(hash, s[i]) && s[i] != hash
    ensures IsNext(keys, hash, s[i])
  {
    LessIsTotalOrder();
    forall k | k in keys && Less(hash, k) ensures Leq(s[i], k) {
      var j :| 0 <= j < |s| && s[j] == k;
    }
  }

  lemma NextIsFirst(keys: set<Bytes>, s: seq<Bytes>, hash: Bytes)
    requires Sorted(s) && (forall k :: k in s <==> k in keys) && |s| > 0
    requires forall j | 0 <= j < |s| && s[j] != hash :: Less(s[j], hash)
    ensures IsNext(keys, hash, s[0])
  {
    LessIsTotalOrder();
    forall k | k in keys ensures !Less(hash, k) && Leq(s[0], k) {
      var j :| 0 <= j < |s| && s[j] == k;
    }
  }

  lemma AddResult(v: StoreView, rr: RR) returns (v': StoreView)
    requires Shape(v) && rr.ClassAccepted() && rr.Packs()
    ensures AddSpec(v, rr) == Some(v') && Added(v, v', rr) && Shape(v')
  {
    v' := AddSpec(v, rr).value;
    AddSteps(v, rr);
    AddEffect(v, rr);
  }

  lemma RemoveResult(v: StoreView, rr: RR) returns (v': StoreView)
    requires Shape(v) && rr.name in v.nodes && rr.Packs()
    ensures RemoveSpec(v, rr) == Some(v') && Removed(v, v', rr) && RemovedSerial(v, v', rr) && Shape(v')
  {
    v' := RemoveSpec(v, rr).value;
    RemoveSteps(v, rr);
    RemoveEffect(v, rr);
  }
}

/** Transfer messages (sections 4 of RFC 1995 and 2.2 of RFC 5936), the client's parser and its fallback. */
module Xfr {
  import opened Bytes
  import opened Names
  import opened Records
  import opened StoreSpec
  import opened Store
  import Seqs

  predicate IsSOA(rr: RR) {
    rr.data.SOAData?
  }

  function SerialOf(rr: RR): u32 {
    if rr.data.SOAData? then rr.data.serial else 0
  }

  predicate HasSerial(rr: RR, serial: u32) {
    IsSOA(rr) && SerialOf(rr) == serial
  }

  function SOAsIn(rrs: seq<RR>): (soas: seq<RR>)
    ensures forall rr | rr in soas :: IsSOA(rr) && rr in rrs
  {
    if rrs == [] then [] else SOAsIn(rrs[..|rrs| - 1]) + if IsSOA(rrs[|rrs| - 1]) then [rrs[|rrs| - 1]] else []
  }

  function NonSOA(rrs: seq<RR>): (rest: seq<RR>)
    ensures forall rr :: rr in rest <==> rr in rrs && !IsSOA(rr)
  {
    if rrs == [] then []
    else
      assert forall rr :: rr in rrs <==> rr in rrs[..|rrs| - 1] || rr == rrs[|rrs| - 1];
      NonSOA(rrs[..|rrs| - 1]) + if IsSOA(rrs[|rrs| - 1]) then [] else [rrs[|rrs| - 1]]
  }

  ghost function Elems(rrs: seq<RR>): set<RR> {
    set rr | rr in rrs
  }

  /** A record set after removals, then additions. */
  ghost function Effect(recs: set<RR>, adds: seq<RR>, removes: seq<RR>): set<RR> {
    (recs - Elems(removes)) + Elems(adds)
  }

  // ---------------------------------------------------------------------------
  // The parser
  // ---------------------------------------------------------------------------

  datatype Parse = Parse(adds: seq<RR>, removes: seq<RR>, serial: u32, fallback: bool)

  datatype Mode = First | Deleting | Adding

  /** What the rest of a response adds and removes, from a mode of the parser on. */
  function Walk(rrs: seq<RR>, mode: Mode, serial: u32): (seq<RR>, seq<RR>)
    decreases |rrs|
  {
    if rrs == [] then ([], [])
    else
      var rr, rest := rrs[0], rrs[1..];
      match mode
      case First => Walk(rest, if IsSOA(rr) then Deleting else First, serial)
      case Deleting =>
        if HasSerial(rr, serial) then
          var w := Walk(rest, Adding, serial);
          ([rr] + w.0, w.1)
        else
          var w := Walk(rest, Deleting, serial);
          (w.0, [rr] + w.1)
      case Adding =>
        if HasSerial(rr, serial) then Walk(rest, Adding, serial)
        else if IsSOA(rr) then
          var w := Walk(rest, Deleting, serial);
          (w.0, [rr] + w.1)
        else
          var w := Walk(rest, Adding, serial);
          ([rr] + w.0, w.1)
  }

  function ParseSpec(rrs: seq<RR>, fromSerial: u32): Parse {
    var soas := SOAsIn(rrs);
    if soas == [] then Parse([], [], 0, true)
    else
      var serial := SerialOf(soas[0]);
      if |soas| == 2 && SerialOf(soas[1]) == serial then Parse([], [], serial, true)
      else if |soas| <= 2 && serial == fromSerial then Parse([], [], serial, false)
      else
        var w := Walk(rrs, First, serial);
        Parse(w.0, w.1, serial, false)
  }

  /** Walks the records of a response with a mode: looking for the first SOA, deleting, adding. */
  method ParseIXFR(rrs: seq<RR>, fromSerial: u32) returns (adds: seq<RR>, removes: seq<RR>, serial: u32, fallback: bool)
    ensures Parse(adds, removes, serial, fallback) == ParseSpec(rrs, fromSerial)
  {
    hide Walk, SOAsIn;
    adds, removes, serial := [], [], 0;
    var soas := CollectSOAs(rrs);
    if |soas| == 0 {
      return [], [], 0, true;
    }
    assert soas[0] in soas;
    serial := soas[0].data.serial;
    if |soas| == 2 {
      assert soas[1] in soas;
      if soas[0].data.serial == soas[1].data.serial {
        return [], [], serial, true;
      }
    }
    if |soas| <= 2 && soas[0].data.serial == fromSerial {
      return [], [], serial, false;
    }
    adds, removes := WalkRecords(rrs, serial);
    fallback := false;
  }

  method CollectSOAs(rrs: seq<RR>) returns (soas: seq<RR>)
    ensures soas == SOAsIn(rrs)
  {
    soas := [];
    var i := 0;
    while i < |rrs|
      invariant 0 <= i <= |rrs|
      invariant soas == SOAsIn(rrs[..i])
    {
      assert rrs[..i + 1][..i] == rrs[..i];
      if rrs[i].data.SOAData? {
        soas := soas + [rrs[i]];
      }
      i := i + 1;
    }
    assert rrs[..i] == rrs;
  }

  method WalkRecords(rrs: seq<RR>, serial: u32) returns (adds: seq<RR>, removes: seq<RR>)
    ensures (adds, removes) == Walk(rrs, First, serial)
  {
    hide Walk;
    adds, removes := [], [];
    var mode := First;
    var i := 0;
    assert rrs[0..] == rrs;
    NothingJoined(Walk(rrs, First, serial));
    while i < |rrs|
      invariant 0 <= i <= |rrs|
      invariant Join(adds, removes, Walk(rrs[i..], mode, serial)) == Walk(rrs, First, serial)
    {
      var rr := rrs[i];
      WalkStep(rrs, i, mode, serial, adds, removes);
      match mode {
        case First =>
          if rr.data.SOAData? {
            mode := Deleting;
          }
        case Deleting =>
          if rr.data.SOAData? && rr.data.serial == serial {
            mode := Adding;
            adds := adds + [rr];
          } else {
            removes := removes + [rr];
          }
        case Adding =>
          if rr.data.SOAData? {
            if rr.data.serial != serial {
              mode := Deleting;
              removes := removes + [rr];
            }
          } else {
            adds := adds + [rr];
          }
      }
      i := i + 1;
    }
    NothingLeft(rrs[i..], mode, serial, adds, removes);
  }

  function Join(adds: seq<RR>, removes: seq<RR>, w: (seq<RR>, seq<RR>)): (seq<RR>, seq<RR>) {
    (adds + w.0, removes + w.1)
  }

  lemma Joined(adds: seq<RR>, removes: seq<RR>, w: (seq<RR>, seq<RR>), rr: RR)
    ensures Join([], [], w) == w && Join(adds, removes, ([], [])) == (adds, removes)
    ensures Join(adds + [rr], removes, w) == Join(adds, removes, ([rr] + w.0, w.1))
    ensures Join(adds, removes + [rr], w) == Join(adds, removes, (w.0, [rr] + w.1))
  {
    NothingJoined(w);
    Seqs.EmptyIsUnit(adds);
    Seqs.EmptyIsUnit(removes);
    Seqs.Assoc(adds, [rr], w.0);
    Seqs.Assoc(removes, [rr], w.1);
  }

  lemma NothingJoined(w: (seq<RR>, seq<RR>))
    ensures Join([], [], w) == w
  {
    Seqs.EmptyIsUnit(w.0);
    Seqs.EmptyIsUnit(w.1);
  }

  function NextMode(rr: RR, mode: Mode, serial: u32): Mode {
    match mode
    case First => if IsSOA(rr) then Deleting else First
    case Deleting => if HasSerial(rr, serial) then Adding else Deleting
    case Adding => if IsSOA(rr) && !HasSerial(rr, serial) then Deleting else Adding
  }

  lemma WalkStep(rrs: seq<RR>, i: nat, mode: Mode, serial: u32, adds: seq<RR>, removes: seq<RR>)
    requires i < |rrs|
    ensures var rr, w := rrs[i], Walk(rrs[i + 1..], NextMode(rrs[i], mode, serial), serial);
            Join(adds, removes, Walk(rrs[i..], mode, serial)) ==
            match mode
            case First => Join(adds, removes, w)
            case Deleting => if HasSerial(rr, serial) then Join(adds + [rr], removes, w)
                else Join(adds, removes + [rr], w)
            case Adding =>
              if HasSerial(rr, serial) then Join(adds, removes, w)
              else if IsSOA(rr) then Join(adds, removes + [rr], w) else Join(adds + [rr], removes, w)
  {
    assert rrs[i..][0] == rrs[i] && rrs[i..][1..] == rrs[i + 1..];
    Joined(adds, removes, Walk(rrs[i + 1..], NextMode(rrs[i], mode, serial), serial), rrs[i]);
  }

  lemma NothingLeft(rrs: seq<RR>, mode: Mode, serial: u32, adds: seq<RR>, removes: seq<RR>)
    requires rrs == []
    ensures Join(adds, removes, Walk(rrs, mode, serial)) == (adds, removes)
  {
    Seqs.EmptyIsUnit(adds);
    Seqs.EmptyIsUnit(removes);
  }

  // ---------------------------------------------------------------------------
  // What the parser makes of a response
  // ---------------------------------------------------------------------------

  lemma {:induction false} WalkDeletes(xs: seq<RR>, rest: seq<RR>, serial: u32)
    requires forall rr | rr in xs :: !HasSerial(rr, serial)
    ensures var w := Walk(rest, Deleting, serial);
            Walk(xs + rest, Deleting, serial) == (w.0, xs + w.1)
  {
    var w := Walk(rest, Deleting, serial);
    if xs == [] {
      Seqs.EmptyIsUnit(rest);
      Seqs.EmptyIsUnit(w.1);
    } else {
      assert (xs + rest)[1..] == xs[1..] + rest;
      WalkDeletes(xs[1..], rest, serial);
      assert [xs[0]] + xs[1..] == xs;
      Seqs.Assoc([xs[0]], xs[1..], w.1);
    }
  }

  function TailNonSOA(xs: seq<RR>): seq<RR> {
    if xs == [] then [] else (if IsSOA(xs[0]) then [] else [xs[0]]) + TailNonSOA(xs[1..])
  }

  lemma {:induction false} TailNonSOAIs(xs: seq<RR>)
    ensures TailNonSOA(xs) == NonSOA(xs)
  {
    if xs != [] {
      var init, last := xs[..|xs| - 1], xs[|xs| - 1];
      TailNonSOAIs(init);
      TailSnoc(init, last);
      assert xs == init + [last];
    }
  }

  lemma {:induction false} TailSnoc(xs: seq<RR>, y: RR)
    ensures TailNonSOA(xs + [y]) == TailNonSOA(xs) + if IsSOA(y) then [] else [y]
  {
    if xs == [] {
      assert xs + [y] == [y];
    } else {
      assert (xs + [y])[1..] == xs[1..] + [y];
      TailSnoc(xs[1..], y);
    }
  }

  lemma {:induction false} WalkAdds(xs: seq<RR>, rest: seq<RR>, serial: u32)
    requires forall rr | rr in xs && IsSOA(rr) :: HasSerial(rr, serial)
    ensures var w := Walk(rest, Adding, serial);
            Walk(xs + rest, Adding, serial) == (TailNonSOA(xs) + w.0, w.1)
  {
    var w := Walk(rest, Adding, serial);
    Seqs.EmptyIsUnit(w.0);
    if xs == [] {
      Seqs.EmptyIsUnit(rest);
    } else {
      assert (xs + rest)[1..] == xs[1..] + rest;
      WalkAdds(xs[1..], rest, serial);
      var tail := TailNonSOA(xs[1..]);
      Seqs.EmptyIsUnit(tail);
      Seqs.EmptyIsUnit(tail + w.0);
      Seqs.Assoc([xs[0]], tail, w.0);
    }
  }

  /** What stands before the first SOA of a response is ignored. */
  lemma {:induction false} LeadingIgnored(xs: seq<RR>, rest: seq<RR>, serial: u32)
    requires forall rr | rr in xs :: !IsSOA(rr)
    ensures Walk(xs + rest, First, serial) == Walk(rest, First, serial)
  {
    if xs == [] {
      Seqs.EmptyIsUnit(rest);
    } else {
      assert (xs + rest)[1..] == xs[1..] + rest && xs[0] in xs;
      LeadingIgnored(xs[1..], rest, serial);
    }
  }

  /** A single SOA with the replica's own serial says that nothing changed; an answer without any SOA is taken for a
      whole zone. */
  lemma NothingNew(before: seq<RR>, soa: RR, after: seq<RR>, fromSerial: u32)
    requires (forall rr | rr in before + after :: !IsSOA(rr)) && HasSerial(soa, fromSerial)
    ensures ParseSpec(before + [soa] + after, fromSerial) == Parse([], [], fromSerial, false)
    ensures ParseSpec(before + after, fromSerial).fallback
  {
    SOAsConcat(before + [soa], after);
    SOAsConcat(before, [soa]);
    SOAsConcat(before, after);
    NoSOAs(before);
    NoSOAs(after);
    OneSOA(soa);
  }

  /** So do two SOAs of which the first has that serial and the second another; two with the same serial are taken for a
      whole zone, whatever the replica has. */
  lemma TwoSOAs(before: seq<RR>, soa: RR, between: seq<RR>, other: RR, after: seq<RR>, fromSerial: u32)
    requires (forall rr | rr in before + between + after :: !IsSOA(rr)) && IsSOA(soa) && IsSOA(other)
    ensures var p := ParseSpec(before + [soa] + between + [other] + after, fromSerial);
            && (p.fallback <==> SerialOf(soa) == SerialOf(other))
            && (SerialOf(soa) != SerialOf(other) && SerialOf(soa) == fromSerial ==>
                p == Parse([], [], fromSerial, false))
  {
    hide Walk, SOAsIn, SerialOf;
    SOAsOfTwo(before, soa, between, other, after);
  }

  lemma SOAsOfTwo(before: seq<RR>, soa: RR, between: seq<RR>, other: RR, after: seq<RR>)
    requires (forall rr | rr in before + between + after :: !IsSOA(rr)) && IsSOA(soa) && IsSOA(other)
    ensures SOAsIn(before + [soa] + between + [other] + after) == [soa, other]
  {
    hide SOAsIn;
    SOAsConcat(before + [soa] + between + [other], after);
    SOAsConcat(before + [soa] + between, [other]);
    SOAsConcat(before + [soa], between);
    SOAsConcat(before, [soa]);
    NoSOAs(before);
    NoSOAs(between);
    NoSOAs(after);
    OneSOA(soa);
    OneSOA(other);
  }

  lemma NoSOAs(xs: seq<RR>)
    requires forall rr | rr in xs :: !IsSOA(rr)
    ensures SOAsIn(xs) == []
  {
    if SOAsIn(xs) != [] { assert SOAsIn(xs)[0] in SOAsIn(xs); }
  }

  /** A response with one run of deletions and one of additions between copies of the new SOA. */
  function Response(newSOA: RR, deletions: seq<RR>, additions: seq<RR>): seq<RR> {
    [newSOA] + deletions + [newSOA] + additions + [newSOA]
  }

  lemma {:induction false} SOAsConcat(xs: seq<RR>, ys: seq<RR>)
    ensures SOAsIn(xs + ys) == SOAsIn(xs) + SOAsIn(ys)
    decreases |ys|
  {
    if ys == [] {
      assert xs + ys == xs;
    } else {
      var init, last := ys[..|ys| - 1], ys[|ys| - 1];
      assert (xs + ys)[..|xs + ys| - 1] == xs + init;
      SOAsConcat(xs, init);
    }
  }

  lemma OneSOA(soa: RR)
    requires IsSOA(soa)
    ensures SOAsIn([soa]) == [soa]
  {
    assert [soa][..0] == [];
  }

  lemma ResponseIsIncremental(newSOA: RR, deletions: seq<RR>, additions: seq<RR>)
    requires IsSOA(newSOA)
    ensures var soas := SOAsIn(Response(newSOA, deletions, additions));
            |soas| > 2 && soas[0] == newSOA
  {
    hide SOAsIn;
    var a := [newSOA];
    SOAsConcat(a + deletions + a + additions, a);
    SOAsConcat(a + deletions + a, additions);
    SOAsConcat(a + deletions, a);
    SOAsConcat(a, deletions);
    OneSOA(newSOA);
  }

  /** As long as no deletion carries the new serial and no added SOA another one, every deletion is removed, and the
      new SOA and the other additions are added. */
  lemma ParseResponse(newSOA: RR, deletions: seq<RR>, additions: seq<RR>, fromSerial: u32)
    requires IsSOA(newSOA)
    requires forall rr | rr in deletions :: !HasSerial(rr, SerialOf(newSOA))
    requires forall rr | rr in additions && IsSOA(rr) :: HasSerial(rr, SerialOf(newSOA))
    ensures ParseSpec(Response(newSOA, deletions, additions), fromSerial) ==
            Parse([newSOA] + NonSOA(additions), deletions, SerialOf(newSOA), false)
  {
    hide SOAsIn, NonSOA, HasSerial, IsSOA;
    var serial := SerialOf(newSOA);
    var rrs := Response(newSOA, deletions, additions);
    ResponseIsIncremental(newSOA, deletions, additions);
    WalkResponse(newSOA, deletions, additions);
    TailNonSOAIs(additions);
  }

  lemma WalkResponse(newSOA: RR, deletions: seq<RR>, additions: seq<RR>)
    requires IsSOA(newSOA)
    requires forall rr | rr in deletions :: !HasSerial(rr, SerialOf(newSOA))
    requires forall rr | rr in additions && IsSOA(rr) :: HasSerial(rr, SerialOf(newSOA))
    ensures Walk(Response(newSOA, deletions, additions), First, SerialOf(newSOA)) ==
            ([newSOA] + TailNonSOA(additions), deletions)
  {
    var serial, a := SerialOf(newSOA), [newSOA];
    var rrs := Response(newSOA, deletions, additions);
    var tail := a + (additions + a);
    assert rrs[1..] == deletions + tail;
    WalkDeletes(deletions, tail, serial);
    assert tail[1..] == additions + a;
    WalkAdds(additions, a, serial);
    assert a[1..] == [] && Walk(a, Adding, serial) == ([], []);
    assert TailNonSOA(additions) + [] == TailNonSOA(additions) && deletions + [] == deletions;
  }

  /** Up to the second copy of the new SOA. */
  lemma WalkHead(newSOA: RR, deletions: seq<RR>, rest: seq<RR>)
    requires IsSOA(newSOA) && forall rr | rr in deletions :: !HasSerial(rr, SerialOf(newSOA))
    ensures var w := Walk(rest, Adding, SerialOf(newSOA));
            Walk([newSOA] + deletions + [newSOA] + rest, First, SerialOf(newSOA)) == ([newSOA] + w.0, deletions + w.1)
  {
    var tail := [newSOA] + rest;
    assert ([newSOA] + deletions + [newSOA] + rest)[1..] == deletions + tail;
    WalkDeletes(deletions, tail, SerialOf(newSOA));
    assert tail[1..] == rest;
  }

  /** An SOA with another serial among the additions starts another run of deletions. */
  lemma WalkIntoDeletions(soa: RR, xs: seq<RR>, rest: seq<RR>, serial: u32)
    requires IsSOA(soa) && !HasSerial(soa, serial) && forall rr | rr in xs :: !HasSerial(rr, serial)
    ensures var w := Walk(rest, Deleting, serial);
            Walk([soa] + (xs + rest), Adding, serial) == (w.0, [soa] + (xs + w.1))
  {
    assert ([soa] + (xs + rest))[1..] == xs + rest;
    WalkDeletes(xs, rest, serial);
  }

  lemma WalkTwoSOAs(last: RR, newSOA: RR)
    requires IsSOA(newSOA) && HasSerial(last, SerialOf(newSOA))
    ensures Walk([last] + [newSOA], Deleting, SerialOf(newSOA)) == ([last], [])
  {
    assert ([last] + [newSOA])[1..] == [newSOA] && [newSOA][1..] == [];
    assert Walk([newSOA], Adding, SerialOf(newSOA)) == ([], []);
    assert [last] + [] == [last];
  }

  /** Where additions first show an SOA with another serial; their number when they show none. */
  function Turn(adds: seq<RR>, serial: u32): (k: nat)
    ensures k <= |adds| && forall rr | rr in adds[..k] && IsSOA(rr) :: HasSerial(rr, serial)
    ensures k < |adds| ==> IsSOA(adds[k]) && !HasSerial(adds[k], serial)
  {
    if adds == [] || (IsSOA(adds[0]) && !HasSerial(adds[0], serial)) then 0
    else
      var k := Turn(adds[1..], serial);
      assert adds[..1 + k] == [adds[0]] + adds[1..][..k];
      1 + k
  }

  lemma {:induction false} TurnIsFirst(adds: seq<RR>, serial: u32, i: nat)
    requires i < |adds| && IsSOA(adds[i]) && !HasSerial(adds[i], serial)
    ensures Turn(adds, serial) <= i
  {
    if i > 0 { TurnIsFirst(adds[1..], serial, i - 1); }
  }

  /** Additions from that SOA up to the last one, a new SOA; nothing when there is no such SOA. */
  function Lost(adds: seq<RR>, serial: u32): seq<RR> {
    var k := Turn(adds, serial);
    if k == |adds| then [] else adds[k..|adds| - 1]
  }

  /** The other additions. */
  function Kept(adds: seq<RR>, serial: u32): seq<RR> {
    var k := Turn(adds, serial);
    if k == |adds| then adds else adds[..k] + [adds[|adds| - 1]]
  }

  /** Additions with an SOA of another serial end with a new SOA, and show no new SOA between the two. */
  predicate Closes(adds: seq<RR>, serial: u32) {
    Turn(adds, serial) < |adds| ==>
      HasSerial(adds[|adds| - 1], serial) && forall rr | rr in Lost(adds, serial) :: !HasSerial(rr, serial)
  }

  lemma WalkTurned(newSOA: RR, deletions: seq<RR>, pre: seq<RR>, lost: seq<RR>, last: RR)
    requires IsSOA(newSOA) && HasSerial(last, SerialOf(newSOA)) && lost != [] && IsSOA(lost[0])
    requires forall rr | rr in deletions + lost :: !HasSerial(rr, SerialOf(newSOA))
    requires forall rr | rr in pre && IsSOA(rr) :: HasSerial(rr, SerialOf(newSOA))
    ensures Walk(Response(newSOA, deletions, pre + lost + [last]), First, SerialOf(newSOA)) ==
            ([newSOA] + (TailNonSOA(pre) + [last]), deletions + lost)
  {
    hide Walk;
    var serial, a := SerialOf(newSOA), [newSOA];
    var tail := [last] + a;
    assert Response(newSOA, deletions, pre + lost + [last]) == a + deletions + a + (pre + (lost + tail));
    WalkHead(newSOA, deletions, pre + (lost + tail));
    WalkAdds(pre, lost + tail, serial);
    assert lost + tail == [lost[0]] + (lost[1..] + tail);
    WalkIntoDeletions(lost[0], lost[1..], tail, serial);
    WalkTwoSOAs(last, newSOA);
    assert [lost[0]] + (lost[1..] + []) == lost;
  }

  /** The additions as the parser collects them: copies of the new SOA go, but for one that ends a run of deletions. */
  function Collected(adds: seq<RR>, serial: u32): seq<RR> {
    var k := Turn(adds, serial);
    if k == |adds| then NonSOA(adds) else NonSOA(adds[..k]) + [adds[|adds| - 1]]
  }

  lemma CollectedAreKept(adds: seq<RR>, serial: u32)
    ensures forall rr | rr in Collected(adds, serial) :: rr in Kept(adds, serial)
    ensures forall rr | rr in Kept(adds, serial) && rr !in Collected(adds, serial) :: HasSerial(rr, serial)
    ensures forall rr | rr in Kept(adds, serial) + Lost(adds, serial) :: rr in adds
    ensures forall rr | rr in adds :: rr in Kept(adds, serial) + Lost(adds, serial)
  {
    hide HasSerial, IsSOA, Turn, NonSOA;
    var k := Turn(adds, serial);
    assert adds[..k] + adds[k..] == adds;
    if k < |adds| { assert adds[k..] == Lost(adds, serial) + [adds[|adds| - 1]]; }
  }

  /** What the parser makes of a response: from an SOA of another serial up to the last, new one additions are taken
      for deletions. */
  lemma ParseEntry(newSOA: RR, deletions: seq<RR>, additions: seq<RR>, fromSerial: u32)
    requires IsSOA(newSOA) && forall rr | rr in deletions :: !HasSerial(rr, SerialOf(newSOA))
    requires Closes(additions, SerialOf(newSOA))
    ensures var serial := SerialOf(newSOA);
            ParseSpec(Response(newSOA, deletions, additions), fromSerial) ==
            Parse([newSOA] + Collected(additions, serial), deletions + Lost(additions, serial), serial, false)
  {
    hide Walk, SOAsIn, HasSerial, IsSOA;
    var serial, k := SerialOf(newSOA), Turn(additions, SerialOf(newSOA));
    if k == |additions| {
      assert additions[..k] == additions;
      ParseResponse(newSOA, deletions, additions, fromSerial);
      assert deletions + [] == deletions;
    } else {
      var pre, lost, last := additions[..k], Lost(additions, serial), additions[|additions| - 1];
      ResponseIsIncremental(newSOA, deletions, additions);
      LostStarts(additions, serial);
      WalkTurned(newSOA, deletions, pre, lost, last);
      TailNonSOAIs(pre);
    }
  }

  lemma LostStarts(adds: seq<RR>, serial: u32)
    requires Closes(adds, serial) && Turn(adds, serial) < |adds|
    ensures var k, lost, last := Turn(adds, serial), Lost(adds, serial), adds[|adds| - 1];
            lost != [] && IsSOA(lost[0]) && adds == adds[..k] + lost + [last]
  {
    hide Turn, IsSOA;
    var k := Turn(adds, serial);
    assert adds[k] != adds[|adds| - 1];
    ThreeParts(adds, k);
  }

  lemma ThreeParts(xs: seq<RR>, k: nat)
    requires k < |xs|
    ensures xs == xs[..k] + xs[k..|xs| - 1] + [xs[|xs| - 1]]
  {
  }

  // ---------------------------------------------------------------------------
  // Responses with several difference sequences
  // ---------------------------------------------------------------------------

  /** One difference sequence: the SOA before and the records deleted, the SOA after and the records added. */
  datatype Hop = Hop(oldSOA: RR, dels: seq<RR>, newSOA: RR, adds: seq<RR>)

  function HopRecords(h: Hop): seq<RR> {
    [h.oldSOA] + h.dels + [h.newSOA] + h.adds
  }

  function HopsRecords(hops: seq<Hop>): seq<RR> {
    if hops == [] then [] else HopsRecords(hops[..|hops| - 1]) + HopRecords(hops[|hops| - 1])
  }

  /** Section 4 of RFC 1995: the new SOA, the difference sequences oldest first, and the new SOA again. */
  function MultiHop(earlier: seq<Hop>, last: Hop): seq<RR> {
    Response(last.newSOA, HopsRecords(earlier) + [last.oldSOA] + last.dels, last.adds)
  }

  /** What the difference sequences mean, one after the other. */
  ghost function Meant(recs: set<RR>, hops: seq<Hop>): set<RR> {
    if hops == [] then recs
    else
      var h := hops[|hops| - 1];
      Effect(Meant(recs, hops[..|hops| - 1]), [h.newSOA] + h.adds, [h.oldSOA] + h.dels)
  }

  ghost function AddedBy(hops: seq<Hop>): set<RR> {
    if hops == [] then {} else AddedBy(hops[..|hops| - 1]) + Elems([hops[|hops| - 1].newSOA] + hops[|hops| - 1].adds)
  }

  ghost function DeletedBy(hops: seq<Hop>): set<RR> {
    if hops == [] then {} else DeletedBy(hops[..|hops| - 1]) + Elems([hops[|hops| - 1].oldSOA] + hops[|hops| - 1].dels)
  }

  lemma {:induction false} MeantOutsideAdded(recs: set<RR>, hops: seq<Hop>, x: RR)
    ensures x !in AddedBy(hops) ==> (x in Meant(recs, hops) <==> x in recs && x !in DeletedBy(hops))
  {
    if hops != [] { MeantOutsideAdded(recs, hops[..|hops| - 1], x); }
  }

  lemma {:induction false} HopsRecordsAre(hops: seq<Hop>)
    ensures Elems(HopsRecords(hops)) == AddedBy(hops) + DeletedBy(hops)
  {
    if hops != [] {
      var h := hops[|hops| - 1];
      HopsRecordsAre(hops[..|hops| - 1]);
      assert HopRecords(h) == ([h.oldSOA] + h.dels) + ([h.newSOA] + h.adds);
      ElemsConcat([h.oldSOA] + h.dels, [h.newSOA] + h.adds);
      ElemsConcat(HopsRecords(hops[..|hops| - 1]), HopRecords(h));
    }
  }

  lemma ElemsConcat(xs: seq<RR>, ys: seq<RR>)
    ensures Elems(xs + ys) == Elems(xs) + Elems(ys)
  {
  }

  /** The parser files everything up to the last difference sequence under deletions. On a response with several
      sequences it therefore does what is meant exactly when no record added by an earlier one survives to the end
      without being added again by the last. */
  lemma MultiHopIsRightIff(recs: set<RR>, earlier: seq<Hop>, last: Hop, fromSerial: u32)
    requires IsSOA(last.newSOA) && forall rr | rr in last.adds :: !IsSOA(rr)
    requires forall rr | rr in HopsRecords(earlier) + [last.oldSOA] + last.dels :: !HasSerial(rr, SerialOf(last.newSOA))
    ensures var p, meant := ParseSpec(MultiHop(earlier, last), fromSerial), Meant(recs, earlier + [last]);
            Effect(recs, p.adds, p.removes) == meant <==>
            forall x | x in AddedBy(earlier) && x in meant :: x in Elems([last.newSOA] + last.adds)
  {
    hide ParseSpec, HasSerial, IsSOA, NonSOA, HopsRecords, AddedBy, DeletedBy;
    var dels := HopsRecords(earlier) + [last.oldSOA] + last.dels;
    var p, hops := ParseSpec(MultiHop(earlier, last), fromSerial), earlier + [last];
    ParseResponse(last.newSOA, dels, last.adds, fromSerial);
    assert hops[..|hops| - 1] == earlier && hops[|hops| - 1] == last;
    LastMeant(recs, earlier, last);
    HopsRecordsAre(earlier);
    ElemsConcat(HopsRecords(earlier), [last.oldSOA] + last.dels);
    assert dels == HopsRecords(earlier) + ([last.oldSOA] + last.dels);
    var added, gone := Elems([last.newSOA] + last.adds), Elems([last.oldSOA] + last.dels);
    assert Elems(p.adds) == added by { KeepsAll(last.newSOA, last.adds); }
    forall x | x !in AddedBy(earlier)
      ensures x in Meant(recs, earlier) <==> x in recs && x !in DeletedBy(earlier)
    {
      MeantOutsideAdded(recs, earlier, x);
    }
    var meant, got := Meant(recs, hops), Effect(recs, p.adds, p.removes);
    assert got == (recs - (AddedBy(earlier) + DeletedBy(earlier) + gone)) + added;
    assert meant == (Meant(recs, earlier) - gone) + added;
    OnlyEarlierAddsDiffer(got, meant, AddedBy(earlier), added);
  }

  lemma OnlyEarlierAddsDiffer(got: set<RR>, meant: set<RR>, early: set<RR>, added: set<RR>)
    requires forall x | x !in early || x in added :: x in got <==> x in meant
    requires forall x | x in early && x !in added :: x !in got
    ensures got == meant <==> forall x | x in early && x in meant :: x in added
  {
  }

  lemma LastMeant(recs: set<RR>, earlier: seq<Hop>, last: Hop)
    ensures Meant(recs, earlier + [last]) == Effect(Meant(recs, earlier), [last.newSOA] + last.adds, [last.oldSOA] +
            last.dels)
  {
    assert (earlier + [last])[..|earlier|] == earlier;
  }

  lemma KeepsAll(soa: RR, rrs: seq<RR>)
    requires forall rr | rr in rrs :: !IsSOA(rr)
    ensures Elems([soa] + NonSOA(rrs)) == Elems([soa] + rrs)
  {
  }

  /** Two difference sequences, the first of which adds a record: the parser removes it. */
  lemma TwoHopsLoseAdditions(soa1: RR, soa2: RR, soa3: RR, x: RR)
    requires IsSOA(soa1) && IsSOA(soa2) && IsSOA(soa3) && !IsSOA(x)
    requires SerialOf(soa1) != SerialOf(soa3) && SerialOf(soa2) != SerialOf(soa3)
    ensures var p := ParseSpec(MultiHop([Hop(soa1, [], soa2, [x])], Hop(soa2, [], soa3, [])), SerialOf(soa1));
            x in Meant({soa1}, [Hop(soa1, [], soa2, [x]), Hop(soa2, [], soa3, [])]) &&
                x !in Effect({soa1}, p.adds, p.removes)
  {
    var h1, h2 := Hop(soa1, [], soa2, [x]), Hop(soa2, [], soa3, []);
    assert [h1] + [h2] == [h1, h2];
    assert HopsRecords([h1]) == [soa1] + [] + [soa2] + [x] by { assert [h1][..0] == []; }
    ParseResponse(soa3, HopsRecords([h1]) + [soa2] + [], [], SerialOf(soa1));
    LastMeant({soa1}, [h1], h2);
    LastMeant({soa1}, [], h1);
    assert [] + [h1] == [h1];
  }

  // ---------------------------------------------------------------------------
  // Full transfers
  // ---------------------------------------------------------------------------

  /** The whole zone between two copies of its SOA. */
  function FullResponse(soa: RR, rrs: seq<RR>): seq<RR> {
    [soa] + NonSOA(rrs) + [soa]
  }

  function Flatten(envelopes: seq<seq<RR>>): seq<RR> {
    if envelopes == [] then [] else Flatten(envelopes[..|envelopes| - 1]) + envelopes[|envelopes| - 1]
  }

  lemma FlattenSnoc(envelopes: seq<seq<RR>>, e: seq<RR>)
    ensures Flatten(envelopes + [e]) == Flatten(envelopes) + e
  {
    assert (envelopes + [e])[..|envelopes|] == envelopes;
  }

  const CHUNK := 32

  /** Sends a zone in envelopes of at most 32 records. */
  method WriteAXFR(soa: RR, rrs: seq<RR>) returns (envelopes: seq<seq<RR>>)
    ensures Flatten(envelopes) == FullResponse(soa, rrs)
    ensures forall e | e in envelopes :: |e| <= 32
  {
    hide Flatten, NonSOA, Sent;
    envelopes := [];
    var chunk := [soa];
    var i := 0;
    NothingSent(soa, rrs);
    while i < |rrs|
      invariant 0 <= i <= |rrs| && |chunk| < CHUNK
      invariant Sent(soa, rrs, i, envelopes, chunk)
      invariant forall e | e in envelopes :: |e| <= CHUNK
    {
      SendNext(soa, rrs, i, envelopes, chunk);
      if !rrs[i].data.SOAData? {
        chunk := chunk + [rrs[i]];
        if |chunk| >= CHUNK {
          Flush(soa, rrs, i + 1, envelopes, chunk);
          envelopes := envelopes + [chunk];
          chunk := [];
        }
      }
      i := i + 1;
    }
    AllSent(soa, rrs, envelopes, chunk);
    chunk := chunk + [soa];
    envelopes := envelopes + [chunk];
  }

  /** The first SOA and the first `i` records, SOAs left out, are in the envelopes or in the open chunk. */
  ghost predicate Sent(soa: RR, rrs: seq<RR>, i: nat, envelopes: seq<seq<RR>>, chunk: seq<RR>) {
    i <= |rrs| && Flatten(envelopes) + chunk == [soa] + NonSOA(rrs[..i])
  }

  lemma NothingSent(soa: RR, rrs: seq<RR>)
    ensures Sent(soa, rrs, 0, [], [soa])
  {
    assert rrs[..0] == [];
  }

  lemma SendNext(soa: RR, rrs: seq<RR>, i: nat, envelopes: seq<seq<RR>>, chunk: seq<RR>)
    requires Sent(soa, rrs, i, envelopes, chunk) && i < |rrs|
    ensures Sent(soa, rrs, i + 1, envelopes, if IsSOA(rrs[i]) then chunk else chunk + [rrs[i]])
  {
    hide Flatten;
    Seqs.Longer(rrs, i);
    Seqs.Assoc(Flatten(envelopes), chunk, [rrs[i]]);
    Seqs.Assoc([soa], NonSOA(rrs[..i]), [rrs[i]]);
    Seqs.EmptyIsUnit(NonSOA(rrs[..i]));
  }

  lemma Flush(soa: RR, rrs: seq<RR>, i: nat, envelopes: seq<seq<RR>>, chunk: seq<RR>)
    requires Sent(soa, rrs, i, envelopes, chunk)
    ensures Sent(soa, rrs, i, envelopes + [chunk], [])
  {
    FlattenSnoc(envelopes, chunk);
    assert Flatten(envelopes + [chunk]) + [] == Flatten(envelopes + [chunk]);
  }

  lemma AllSent(soa: RR, rrs: seq<RR>, envelopes: seq<seq<RR>>, chunk: seq<RR>)
    requires Sent(soa, rrs, |rrs|, envelopes, chunk)
    ensures Flatten(envelopes + [chunk + [soa]]) == FullResponse(soa, rrs)
  {
    assert rrs[..|rrs|] == rrs;
    FlattenSnoc(envelopes, chunk + [soa]);
    assert Flatten(envelopes) + (chunk + [soa]) == (Flatten(envelopes) + chunk) + [soa];
  }

  /** Collects the records of all envelopes. */
  method Receive(envelopes: seq<seq<RR>>) returns (all: seq<RR>)
    ensures all == Flatten(envelopes)
  {
    all := [];
    var i := 0;
    while i < |envelopes|
      invariant 0 <= i <= |envelopes|
      invariant all == Flatten(envelopes[..i])
    {
      assert envelopes[..i + 1][..i] == envelopes[..i];
      all := all + envelopes[i];
      i := i + 1;
    }
    assert envelopes[..i] == envelopes;
  }

  predicate AnySOA(rrs: seq<RR>) {
    exists rr | rr in rrs :: IsSOA(rr)
  }

  function Stripped(rrs: seq<RR>): seq<RR> {
    if rrs != [] && IsSOA(rrs[|rrs| - 1]) && AnySOA(rrs[..|rrs| - 1]) then rrs[..|rrs| - 1] else rrs
  }

  /** The closing SOA goes when another SOA stands before it; nothing else ever goes. */
  lemma StrippedMeans(rrs: seq<RR>)
    ensures if rrs != [] && IsSOA(rrs[|rrs| - 1]) && exists i | 0 <= i < |rrs| - 1 :: IsSOA(rrs[i])
            then Stripped(rrs) == rrs[..|rrs| - 1] else Stripped(rrs) == rrs
  {
    if rrs != [] {
      var before := rrs[..|rrs| - 1];
      assert AnySOA(before) <==> exists i | 0 <= i < |rrs| - 1 :: IsSOA(rrs[i]) by {
        if rr :| rr in before && IsSOA(rr) {
          var i :| 0 <= i < |before| && before[i] == rr;
          assert IsSOA(rrs[i]);
        }
        if i :| 0 <= i < |rrs| - 1 && IsSOA(rrs[i]) { assert before[i] in before; }
      }
    }
  }

  lemma NoRecords()
    ensures !AnySOA([])
  {
  }

  lemma StripStep(rrs: seq<RR>, i: nat)
    requires i < |rrs|
    ensures rrs[..i + 1] == rrs[..i] + [rrs[i]]
    ensures AnySOA(rrs[..i + 1]) <==> AnySOA(rrs[..i]) || IsSOA(rrs[i])
    ensures i + 1 == |rrs| ==>
              rrs[..i + 1] == rrs && Stripped(rrs) == if IsSOA(rrs[i]) && AnySOA(rrs[..i]) then rrs[..i] else rrs
  {
    var xs, x := rrs[..i], rrs[i];
    assert rrs[..i + 1] == xs + [x];
    assert forall rr :: rr in xs + [x] <==> rr in xs || rr == x;
  }

  /** Drops the closing SOA when there was an opening one. */
  method StripSOAEnvelope(rrs: seq<RR>) returns (out: seq<RR>)
    ensures out == Stripped(rrs)
  {
    if |rrs| == 0 {
      return rrs;
    }
    hide AnySOA, Stripped;
    out := [];
    var seenFirst := false;
    var i := 0;
    assert !AnySOA(rrs[..0]) by { NoRecords(); }
    while i < |rrs|
      invariant 0 <= i <= |rrs|
      invariant seenFirst <==> AnySOA(rrs[..i])
      invariant out == if i < |rrs| then rrs[..i] else Stripped(rrs)
    {
      StripStep(rrs, i);
      if rrs[i].data.SOAData? {
        if !seenFirst {
          out := out + [rrs[i]];
          seenFirst := true;
          i := i + 1;
          continue;
        }
        if i == |rrs| - 1 {
          i := i + 1;
          continue;
        }
      }
      out := out + [rrs[i]];
      i := i + 1;
    }
  }

  lemma {:induction false} NoSOAsInNonSOA(rrs: seq<RR>)
    ensures SOAsIn(NonSOA(rrs)) == []
  {
    if rrs != [] {
      var init, last := rrs[..|rrs| - 1], rrs[|rrs| - 1];
      NoSOAsInNonSOA(init);
      Seqs.EmptyIsUnit(NonSOA(init));
      if !IsSOA(last) {
        SOAsConcat(NonSOA(init), [last]);
        assert [last][..0] == [];
      }
    }
  }

  /** A full response is recognised as such whatever serial was asked for, and stripping leaves the zone. */
  lemma ParseFullResponse(soa: RR, rrs: seq<RR>, fromSerial: u32)
    requires IsSOA(soa)
    ensures ParseSpec(FullResponse(soa, rrs), fromSerial) == Parse([], [], SerialOf(soa), true)
    ensures Stripped(FullResponse(soa, rrs)) == [soa] + NonSOA(rrs)
  {
    hide SOAsIn, NonSOA, Walk;
    var full, body := FullResponse(soa, rrs), [soa] + NonSOA(rrs);
    SOAsConcat(body, [soa]);
    SOAsConcat([soa], NonSOA(rrs));
    NoSOAsInNonSOA(rrs);
    OneSOA(soa);
    assert SOAsIn(full) == ([soa] + []) + [soa];
    assert full[..|full| - 1] == body && body[0] == soa && soa in body;
  }

  /** Builds a store from the records of a full transfer; `None` when one of them does not pack. */
  method FromAXFR(origin: Name, rrs: seq<RR>) returns (st: Store, err: bool)
    ensures fresh(st) && fresh(st.nodes.Values) && st.Valid()
    ensures (st.state, !err) == Steps(EmptyStore(origin), Changes(rrs, []))
  {
    hide Store.Valid, Steps, TouchedBy;
    st := new Store(origin);
    var t;
    t, err := st.ApplyChanges(rrs, []);
  }
}

/** What a store holds after records were filed one by one: order and TTL of every RRset, index entries, touched set. */
module Arrivals {
  import opened Bytes
  import opened Names
  import opened Records
  import opened StoreSpec
  import opened Loading
  import Base32
  import Seqs

  // ---------------------------------------------------------------------------
  // RRsets
  // ---------------------------------------------------------------------------

  predicate Belongs(rr: RR, n: Name, t: nat) {
    rr.name == n && rr.Type() == t
  }

  /** The records of a name and type in the order they came, each once. */
  function InOrderOfArrival(rrs: seq<RR>, n: Name, t: nat): seq<RR> {
    if rrs == [] then []
    else
      var before, last := InOrderOfArrival(rrs[..|rrs| - 1], n, t), rrs[|rrs| - 1];
      if Belongs(last, n, t) && last !in before then before + [last] else before
  }

  /** The TTL of the first of them whose TTL is not zero; zero without one. */
  function FirstTTL(rrs: seq<RR>, n: Name, t: nat): nat {
    if rrs == [] then 0
    else if Belongs(rrs[0], n, t) && rrs[0].ttl != 0 then rrs[0].ttl
    else FirstTTL(rrs[1..], n, t)
  }

  lemma {:induction false} FirstTTLSnoc(rrs: seq<RR>, last: RR, n: Name, t: nat)
    ensures FirstTTL(rrs + [last], n, t) ==
            if FirstTTL(rrs, n, t) != 0 then FirstTTL(rrs, n, t) else if Belongs(last, n, t) then last.ttl else 0
  {
    hide Belongs;
    if rrs == [] {
      assert rrs + [last] == [last] && [last][1..] == [];
    } else {
      assert (rrs + [last])[1..] == rrs[1..] + [last];
      FirstTTLSnoc(rrs[1..], last, n, t);
    }
  }

  /** The RRset at a name and type after these records were filed. */
  ghost predicate IsFiledSet(v: StoreView, rrs: seq<RR>, n: Name, t: nat) {
    if InOrderOfArrival(rrs, n, t) == [] then t !in SetsAt(v, n) && FirstTTL(rrs, n, t) == 0
    else t in SetsAt(v, n) && SetsAt(v, n)[t] == RRSet(t, FirstTTL(rrs, n, t), InOrderOfArrival(rrs, n, t))
  }

  /** Every RRset holds its records in the order they arrived, each once, and has the TTL of the first of them whose TTL
      is not zero. */
  lemma {:induction false} FiledSets(origin: Name, rrs: seq<RR>, n: Name, t: nat)
    requires forall rr | rr in rrs :: Addable(rr)
    ensures IsFiledSet(Steps(EmptyStore(origin), Changes(rrs, [])).0, rrs, n, t)
    ensures Steps(EmptyStore(origin), Changes(rrs, [])).1
  {
    hide IsFiledSet, Addable, Steps, AddSpec;
    if rrs == [] {
      NothingFiled(origin, n, t);
    } else {
      var init, last := rrs[..|rrs| - 1], rrs[|rrs| - 1];
      assert rrs == init + [last] && last in rrs;
      FiledSets(origin, init, n, t);
      var v := Steps(EmptyStore(origin), Changes(init, [])).0;
      assert Changes(rrs, []) == Changes(init, []) + [Add(last)];
      StepsConcat(EmptyStore(origin), Changes(init, []), [Add(last)]);
      OneMoreFiled(v, init, last, n, t);
    }
  }

  lemma NothingFiled(origin: Name, n: Name, t: nat)
    ensures Steps(EmptyStore(origin), Changes([], [])) == (EmptyStore(origin), true)
    ensures IsFiledSet(EmptyStore(origin), [], n, t)
  {
    assert Changes([], []) == [];
  }

  lemma OneMoreFiled(v: StoreView, rrs: seq<RR>, last: RR, n: Name, t: nat)
    requires IsFiledSet(v, rrs, n, t) && Addable(last)
    ensures AddSpec(v, last).Some? && Steps(v, [Add(last)]) == (AddSpec(v, last).value, true)
    ensures IsFiledSet(AddSpec(v, last).value, rrs + [last], n, t)
  {
    hide AddSpec, InOrderOfArrival, FirstTTL;
    PackedAdds(v, last);
    AddSteps(v, last);
    assert [Add(last)][1..] == [];
    FirstTTLSnoc(rrs, last, n, t);
    ArrivalSnoc(rrs, last, n, t);
    if Belongs(last, n, t) { Seqs.EmptyIsUnit([last]); }
  }

  lemma ArrivalSnoc(rrs: seq<RR>, last: RR, n: Name, t: nat)
    ensures InOrderOfArrival(rrs + [last], n, t) ==
            var before := InOrderOfArrival(rrs, n, t);
            if Belongs(last, n, t) && last !in before then before + [last] else before
  {
    assert (rrs + [last])[..|rrs|] == rrs;
  }

  // ---------------------------------------------------------------------------
  // Index entries
  // ---------------------------------------------------------------------------

  /** The hash index keeps all fields of a record: the decoded hashes, or the next field as it is where it does not
      decode. */
  lemma HashEntryMeans(rr: RR)
    requires rr.data.NSEC3Data? && rr.name != [] && Base32.HashFromBase32(rr.name[0]).Some?
    ensures var e, d := MakeNSEC3Rec(rr), rr.data;
            && NSEC3Key(rr.name) == Base32.HashFromBase32(rr.name[0]).value == e.hash && e.owner == rr.name
            && e.iterations == d.iterations && e.salt == d.salt && e.flags == d.flags && e.bitmap == d.bitmap
            && match Base32.HashFromBase32(d.nextDomain) case Some(h) => e.next == h case None => e.next == d.nextDomain
  {
  }

  // ---------------------------------------------------------------------------
  // The touched set
  // ---------------------------------------------------------------------------

  lemma {:induction false} TouchedNames(v: StoreView, t: Touched, cs: seq<Change>, n: Name)
    requires Steps(v, cs).1
    ensures n in TouchedBy(v, t, cs).names <==> n in t.names || exists c | c in cs :: c.rr.name == n
    decreases |cs|
  {
    hide Step;
    if cs != [] {
      assert cs == [cs[0]] + cs[1..];
      TouchedNames(Step(v, cs[0]).value, Counted(StoreSpec.Noted(t, cs[0].rr), cs[0]), cs[1..], n);
    }
  }

  /** A record that touches this hash. */
  predicate Hashes(rr: RR, h: Bytes) {
    rr.Type() == NSEC3 && rr.name != [] && Base32.HashFromBase32(rr.name[0]) == Some(h)
  }

  lemma {:induction false} TouchedHashes(v: StoreView, t: Touched, cs: seq<Change>, h: Bytes)
    requires Steps(v, cs).1
    ensures h in TouchedBy(v, t, cs).nsec3 <==> h in t.nsec3 || exists c | c in cs :: Hashes(c.rr, h)
    decreases |cs|
  {
    hide Step, Base32.HashFromBase32;
    if cs != [] {
      assert cs == [cs[0]] + cs[1..];
      TouchedHashes(Step(v, cs[0]).value, Counted(StoreSpec.Noted(t, cs[0].rr), cs[0]), cs[1..], h);
    }
  }

  lemma {:induction false} TouchedCounts(v: StoreView, t: Touched, adds: seq<RR>, removes: seq<RR>)
    requires Steps(v, Changes(adds, removes)).1
    ensures var t' := TouchedBy(v, t, Changes(adds, removes));
            t'.added == t.added + |adds| && t'.removed == t.removed + |removes|
    decreases |adds| + |removes|
  {
    hide Step;
    var cs := Changes(adds, removes);
    if cs != [] {
      var t1 := Counted(StoreSpec.Noted(t, cs[0].rr), cs[0]);
      if removes != [] {
        assert cs[0] == Remove(removes[0]) && cs[1..] == Changes(adds, removes[1..]);
        TouchedCounts(Step(v, cs[0]).value, t1, adds, removes[1..]);
      } else {
        assert cs[0] == Add(adds[0]) && cs[1..] == Changes(adds[1..], removes);
        TouchedCounts(Step(v, cs[0]).value, t1, adds[1..], removes);
      }
    }
  }

  /** A change list that went through touches the names of its records and the hashes in the owners of its NSEC3
      records, and counts its additions and removals. */
  lemma TouchedMeans(v: StoreView, adds: seq<RR>, removes: seq<RR>)
    requires Steps(v, Changes(adds, removes)).1
    ensures var t := TouchedBy(v, NOTHING, Changes(adds, removes));
            && (forall n :: n in t.names <==> exists rr | rr in adds + removes :: rr.name == n)
            && (forall h :: h in t.nsec3 <==> exists rr | rr in adds + removes :: Hashes(rr, h))
            && t.added == |adds| && t.removed == |removes|
  {
    hide Steps, TouchedBy, Hashes;
    var cs := Changes(adds, removes);
    TouchedCounts(v, NOTHING, adds, removes);
    ChangedRecords(adds, removes);
    forall n ensures n in TouchedBy(v, NOTHING, cs).names <==> exists c | c in cs :: c.rr.name == n {
      TouchedNames(v, NOTHING, cs, n);
    }
    forall h ensures h in TouchedBy(v, NOTHING, cs).nsec3 <==> exists c | c in cs :: Hashes(c.rr, h) {
      TouchedHashes(v, NOTHING, cs, h);
    }
  }

  lemma ChangedRecords(adds: seq<RR>, removes: seq<RR>)
    ensures forall c | c in Changes(adds, removes) :: c.rr in adds + removes
    ensures forall rr | rr in adds + removes :: exists c | c in Changes(adds, removes) :: c.rr == rr
  {
    var cs := Changes(adds, removes);
    forall rr | rr in adds + removes ensures exists c | c in cs :: c.rr == rr {
      if rr in removes {
        var i :| 0 <= i < |removes| && removes[i] == rr;
        assert cs[i] == Remove(rr);
      } else {
        var i :| 0 <= i < |adds| && adds[i] == rr;
        assert cs[|removes| + i] == Add(rr);
      }
    }
  }

  // ---------------------------------------------------------------------------
  // Change lists that fail
  // ---------------------------------------------------------------------------

  /** A change list goes as far as its changes can be made, one after the other, and stops in front of the first that
      cannot. */
  lemma {:induction false} StepsStop(v: StoreView, cs: seq<Change>)
    ensures exists k | 0 <= k <= |cs| ::
              && Steps(v, cs[..k]) == (Steps(v, cs).0, true) && (Steps(v, cs).1 <==> k == |cs|)
              && (k < |cs| ==> Step(Steps(v, cs).0, cs[k]).None?)
    decreases |cs|
  {
    hide Step;
    if cs == [] {
      assert cs[..0] == [];
    } else if Step(v, cs[0]).None? {
      assert cs[..0] == [] && Steps(v, cs[..0]) == (v, true);
    } else {
      var v', rest := Step(v, cs[0]).value, cs[1..];
      StepsStop(v', rest);
      var k :| 0 <= k <= |rest| && Steps(v', rest[..k]) == (Steps(v', rest).0, true) &&
        (Steps(v', rest).1 <==> k == |rest|) && (k < |rest| ==> Step(Steps(v', rest).0, rest[k]).None?);
      assert cs[..k + 1] == [cs[0]] + rest[..k] && cs[..k + 1][1..] == rest[..k];
      assert Steps(v, cs[..k + 1]) == (Steps(v, cs).0, true);
    }
  }
}

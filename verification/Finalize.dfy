/** Putting the right digest into a zone: what `FinalizeZONEMD` leaves behind passes the digest check. */
module Finalize {
  import opened Bytes
  import opened Names
  import opened Records
  import opened StoreSpec
  import opened Store
  import opened Verify
  import opened Xfr
  import opened PrimaryServer
  import opened Zonemd
  import Loading
  import Seqs

  // ---------------------------------------------------------------------------
  // Every record set has a canonical sequence
  // ---------------------------------------------------------------------------

  function Insert(d: Digester, s: seq<RR>, x: RR): seq<RR> {
    if s == [] || RRBefore(d, x, s[0]) then [x] + s else [s[0]] + Insert(d, s[1..], x)
  }

  lemma {:induction false} InsertMembers(d: Digester, s: seq<RR>, x: RR)
    ensures forall y :: y in Insert(d, s, x) <==> y in s || y == x
  {
    hide RRBefore;
    if s != [] && !RRBefore(d, x, s[0]) {
      InsertMembers(d, s[1..], x);
      assert s == [s[0]] + s[1..];
    }
  }

  lemma {:induction false} InsertIncreasing(d: Digester, s: seq<RR>, x: RR)
    requires Tells(d) && Increasing(d, s) && x !in s
    ensures Increasing(d, Insert(d, s, x))
  {
    hide RRBefore, Tells;
    if s != [] && !RRBefore(d, x, s[0]) {
      var rest := s[1..];
      assert s == [s[0]] + rest;
      InsertIncreasing(d, rest, x);
      InsertMembers(d, rest, x);
      RRBeforeTotal(d, s[0], x);
      forall y | y in rest ensures RRBefore(d, s[0], y) {
        var j :| 0 <= j < |rest| && rest[j] == y;
        assert RRBefore(d, s[0], s[j + 1]);
      }
      ConsIncreasing(d, s[0], Insert(d, rest, x));
    } else if s != [] {
      forall y | y in s ensures RRBefore(d, x, y) {
        var j :| 0 <= j < |s| && s[j] == y;
        if j > 0 { RRBeforeTransitive(d, x, s[0], s[j]); }
      }
      ConsIncreasing(d, x, s);
    }
  }

  lemma ConsIncreasing(d: Digester, x: RR, s: seq<RR>)
    requires Increasing(d, s) && forall y | y in s :: RRBefore(d, x, y)
    ensures Increasing(d, [x] + s)
  {
    hide RRBefore;
    var t := [x] + s;
    forall i, j | 0 <= i < j < |t| ensures RRBefore(d, t[i], t[j]) {
      if i == 0 { assert s[j - 1] in s; } else { assert RRBefore(d, s[i - 1], s[j - 1]); }
    }
  }

  lemma {:induction false} CanonicalExists(d: Digester, recs: set<RR>) returns (s: seq<RR>)
    requires Tells(d)
    ensures IsCanonical(d, s, recs)
    decreases recs
  {
    hide RRBefore, Tells;
    if recs == {} {
      s := [];
    } else {
      var x :| x in recs;
      var rest := CanonicalExists(d, recs - {x});
      CanonicalElems(d, rest, recs - {x});
      InsertIncreasing(d, rest, x);
      InsertMembers(d, rest, x);
      s := Insert(d, rest, x);
      assert forall y :: y in Elems(s) <==> y in recs;
    }
  }

  // ---------------------------------------------------------------------------
  // What one change does to the records read
  // ---------------------------------------------------------------------------

  ghost predicate ReadAt(v: StoreView, n: Name, t: nat, rr: RR) {
    SetAt(v, n, t).Some? && rr in Unpack(SetAt(v, n, t).value)
  }

  /** A record is read from the RRset of its own name and type. */
  lemma ReadOwn(v: StoreView, rr: RR)
    requires NodesOk(v)
    ensures rr in UnpackedOf(v) <==> ReadAt(v, rr.name, rr.Type(), rr)
  {
    hide Unpack;
    if rr in UnpackedOf(v) {
      var n, t :| n in v.nodes && t in v.nodes[n].sets && rr in Unpack(v.nodes[n].sets[t]);
      assert NodeOk(v.origin, n, v.nodes[n]);
      ReadsOwnType(n, v.nodes[n].sets, t);
    }
  }

  ghost predicate OnlyChangedAt(v: StoreView, v': StoreView, n: Name, t: nat) {
    v'.origin == v.origin && forall m, u: nat | (m, u) != (n, t) :: SetAt(v', m, u) == SetAt(v, m, u)
  }

  lemma AddedSets(v: StoreView, rr: RR)
    requires AddSpec(v, rr).Some? && rr.ClassAccepted()
    ensures OnlyChangedAt(v, AddSpec(v, rr).value, rr.name, rr.Type())
    ensures SetAt(AddSpec(v, rr).value, rr.name, rr.Type()) == Some(AddToSets(SetsAt(v, rr.name), rr)[rr.Type()])
  {
    AddSteps(v, rr);
  }

  lemma RemovedSets(v: StoreView, rr: RR)
    requires RemoveSpec(v, rr).Some?
    ensures OnlyChangedAt(v, RemoveSpec(v, rr).value, rr.name, rr.Type())
    ensures var sets := RemoveFromSets(SetsAt(v, rr.name), rr);
            SetAt(RemoveSpec(v, rr).value, rr.name, rr.Type()) == if rr.Type() in sets then Some(sets[rr.Type()])
                else None
  {
    if rr.name in v.nodes { RemoveSteps(v, rr); }
  }

  /** The apex signatures can be read without the TTL of the RRset changing under them. */
  ghost predicate SteadySigs(v: StoreView) {
    SetAt(v, v.origin, RRSIG).Some? ==> SetAt(v, v.origin, RRSIG).value.ttl != 0
  }

  /** Records read at the apex signature RRset, signatures over the digest record left out. */
  ghost predicate PlainSig(v: StoreView, rr: RR) {
    ReadAt(v, v.origin, RRSIG, rr) && !IsZoneSig(rr)
  }

  lemma OtherPlacesSame(v: StoreView, v': StoreView, n: Name, t: nat, rr: RR)
    requires NodesOk(v) && NodesOk(v') && OnlyChangedAt(v, v', n, t) && (rr.name, rr.Type()) != (n, t)
    ensures rr in UnpackedOf(v') <==> rr in UnpackedOf(v)
  {
    hide NodesOk, UnpackedOf, Unpack;
    ReadOwn(v, rr);
    ReadOwn(v', rr);
  }

  lemma SigChangePlain(v: StoreView, v': StoreView)
    requires NodesOk(v) && NodesOk(v') && OnlyChangedAt(v, v', v.origin, RRSIG)
    requires forall rr :: PlainSig(v, rr) <==> PlainSig(v', rr)
    ensures Plain(UnpackedOf(v')) == Plain(UnpackedOf(v))
  {
    hide NodesOk, UnpackedOf, Unpack, OnlyChangedAt, IsZoneSig;
    forall rr ensures rr in Plain(UnpackedOf(v')) <==> rr in Plain(UnpackedOf(v)) {
      if (rr.name, rr.Type()) == (v.origin, RRSIG) {
        ReadOwn(v, rr);
        ReadOwn(v', rr);
        OriginKept(v, v', v.origin, RRSIG);
        assert PlainSig(v, rr) <==> PlainSig(v', rr);
      } else {
        OtherPlacesSame(v, v', v.origin, RRSIG, rr);
      }
    }
  }

  lemma OriginKept(v: StoreView, v': StoreView, n: Name, t: nat)
    requires OnlyChangedAt(v, v', n, t)
    ensures v'.origin == v.origin
  {
  }

  lemma ReadsAre(set_: RRSet, rr: RR)
    ensures rr in Unpack(set_) <==> exists x | x in set_.rdata :: UnpackOne(set_.ttl, x) == rr
  {
    if x :| x in set_.rdata && UnpackOne(set_.ttl, x) == rr {
      var i :| 0 <= i < |set_.rdata| && set_.rdata[i] == x;
      assert Unpack(set_)[i] == rr;
    }
    if rr in Unpack(set_) {
      var i :| 0 <= i < |set_.rdata| && Unpack(set_)[i] == rr;
      assert set_.rdata[i] in set_.rdata;
    }
  }

  /** Signatures over the digest record stay what they are when read. */
  lemma ReadsKeepKind(ttl: nat, x: RR)
    ensures IsZoneSig(UnpackOne(ttl, x)) <==> IsZoneSig(x)
  {
  }

  /** Reading an RRset after one record left it. */
  lemma ReadsWithout(set_: RRSet, x: RR, rr: RR)
    requires NoDuplicates(set_.rdata) && IsZoneSig(x) && !IsZoneSig(rr)
    ensures rr in Unpack(set_.(rdata := RemoveFirst(set_.rdata, x))) <==> rr in Unpack(set_)
  {
    hide Unpack, UnpackOne, IsZoneSig, RemoveFirst, NoDuplicates;
    var less := set_.(rdata := RemoveFirst(set_.rdata, x));
    RemoveFirstKeepsOthers(set_.rdata, x);
    ReadsAre(set_, rr);
    ReadsAre(less, rr);
    ReadsKeepKind(set_.ttl, x);
  }

  lemma ReadsWith(set_: RRSet, x: RR, rr: RR)
    requires IsZoneSig(x) && !IsZoneSig(rr)
    ensures rr in Unpack(set_.(rdata := set_.rdata + [x])) <==> rr in Unpack(set_)
  {
    hide Unpack, UnpackOne, IsZoneSig;
    var more := set_.(rdata := set_.rdata + [x]);
    ReadsAre(set_, rr);
    ReadsAre(more, rr);
    ReadsKeepKind(set_.ttl, x);
    if y :| y in set_.rdata && UnpackOne(set_.ttl, y) == rr { assert y in more.rdata; }
  }

  lemma NothingRead(set_: RRSet, rr: RR)
    requires set_.rdata == []
    ensures rr !in Unpack(set_)
  {
  }

  /** What a removal leaves at the RRset it changes. */
  lemma ZoneSigOut(v: StoreView, x: RR)
    requires NodesOk(v) && IsZoneSig(x) && x.name == v.origin && RemoveSpec(v, x).Some?
    ensures var v' := RemoveSpec(v, x).value;
            && OnlyChangedAt(v, v', v.origin, RRSIG)
            && (SteadySigs(v) ==> SteadySigs(v'))
            && forall rr :: PlainSig(v, rr) <==> PlainSig(v', rr)
  {
    hide Unpack, RemoveSpec, RemoveFirst, IsZoneSig;
    var v' := RemoveSpec(v, x).value;
    assert x.Type() == RRSIG by { ZoneSigType(x); }
    RemovedSets(v, x);
    OriginKept(v, v', x.name, x.Type());
    forall rr ensures PlainSig(v, rr) <==> PlainSig(v', rr) {
      var sets := SetsAt(v, v.origin);
      if Holds(sets, x) && !IsZoneSig(rr) {
        assert NodeOk(v.origin, v.origin, v.nodes[v.origin]);
        ReadsWithout(sets[RRSIG], x, rr);
        NothingRead(sets[RRSIG].(rdata := []), rr);
      }
    }
  }

  lemma ZoneSigType(x: RR)
    requires IsZoneSig(x)
    ensures x.Type() == RRSIG && x.Packs()
  {
  }

  /** What an addition leaves there. */
  lemma ZoneSigIn(v: StoreView, x: RR)
    requires NodesOk(v) && SteadySigs(v) && IsZoneSig(x) && x.name == v.origin && AddSpec(v, x).Some? &&
             x.ClassAccepted()
    ensures var v' := AddSpec(v, x).value;
            OnlyChangedAt(v, v', v.origin, RRSIG) && forall rr :: PlainSig(v, rr) <==> PlainSig(v', rr)
  {
    hide Unpack, AddSpec, IsZoneSig;
    var v' := AddSpec(v, x).value;
    assert x.Type() == RRSIG by { ZoneSigType(x); }
    AddedSets(v, x);
    OriginKept(v, v', x.name, x.Type());
    forall rr ensures PlainSig(v, rr) <==> PlainSig(v', rr) {
      var sets := SetsAt(v, v.origin);
      if !IsZoneSig(rr) {
        if RRSIG in sets {
          assert NodeOk(v.origin, v.origin, v.nodes[v.origin]);
          ReadsWith(sets[RRSIG], x, rr);
        } else {
          ReadsWith(RRSet(RRSIG, x.ttl, []), x, rr);
          NothingRead(RRSet(RRSIG, x.ttl, []), rr);
          Seqs.EmptyIsUnit([x]);
        }
      }
    }
  }

  lemma DigestPlaceSame(v: StoreView, v': StoreView)
    requires OnlyChangedAt(v, v', v.origin, RRSIG)
    ensures SetAt(v', v.origin, ZONEMD) == SetAt(v, v.origin, ZONEMD) && v'.origin == v.origin
  {
  }

  lemma SigPlaceSame(v: StoreView, v': StoreView)
    requires OnlyChangedAt(v, v', v.origin, ZONEMD)
    ensures SetAt(v', v.origin, RRSIG) == SetAt(v, v.origin, RRSIG) && v'.origin == v.origin
  {
  }

  /** Removing a signature over the digest record changes nothing else that is read. */
  lemma RemoveZoneSig(v: StoreView, x: RR)
    requires Shape(v) && SteadySigs(v) && IsZoneSig(x) && x.name == v.origin
    ensures var v' := RemoveSpec(v, x);
            && v'.Some? && Shape(v'.value) && v'.value.origin == v.origin && SteadySigs(v'.value)
            && Plain(UnpackedOf(v'.value)) == Plain(UnpackedOf(v))
            && SetAt(v'.value, v.origin, ZONEMD) == SetAt(v, v.origin, ZONEMD)
  {
    hide Shape, UnpackedOf, RemoveSpec, Plain, SteadySigs, IsZoneSig, OnlyChangedAt, SetAt, PlainSig;
    ZoneSigType(x);
    Loading.PackedRemoves(v, x);
    var v' := RemoveSpec(v, x).value;
    RemoveEffect(v, x);
    ShapeNodes(v);
    ShapeNodes(v');
    ZoneSigOut(v, x);
    DigestPlaceSame(v, v');
    SigChangePlain(v, v');
  }

  lemma ShapeNodes(v: StoreView)
    requires Shape(v)
    ensures NodesOk(v)
  {
  }

  /** Adding one changes nothing else either, as long as the TTL of the RRset is settled. */
  lemma AddZoneSig(v: StoreView, x: RR)
    requires Shape(v) && SteadySigs(v) && IsZoneSig(x) && x.name == v.origin && x.ClassAccepted()
    ensures var v' := AddSpec(v, x);
            && v'.Some? && Shape(v'.value) && v'.value.origin == v.origin
            && Plain(UnpackedOf(v'.value)) == Plain(UnpackedOf(v))
            && SetAt(v'.value, v.origin, ZONEMD) == SetAt(v, v.origin, ZONEMD)
  {
    hide Shape, UnpackedOf, AddSpec, Plain, SteadySigs, IsZoneSig, OnlyChangedAt, SetAt, PlainSig;
    ZoneSigType(x);
    Loading.PackedAdds(v, x);
    var v' := AddSpec(v, x).value;
    AddEffect(v, x);
    ShapeNodes(v);
    ShapeNodes(v');
    ZoneSigIn(v, x);
    DigestPlaceSame(v, v');
    SigChangePlain(v, v');
  }

  lemma DigestType(x: RR)
    requires x.data.ZONEMDData?
    ensures x.Type() == ZONEMD && x.Packs() && !IsZoneSig(x)
  {
  }

  lemma DigestOut(v: StoreView, x: RR)
    requires x.Type() == ZONEMD && x.name == v.origin && RemoveSpec(v, x).Some? && SetAt(v, v.origin, ZONEMD).Some?
    requires SetAt(v, v.origin, ZONEMD).value.rdata == [x]
    ensures var v' := RemoveSpec(v, x).value;
            OnlyChangedAt(v, v', v.origin, ZONEMD) && SetAt(v', v.origin, ZONEMD) == None
  {
    hide RemoveSpec;
    RemovedSets(v, x);
    assert RemoveFirst([x], x) == [];
  }

  lemma DigestIn(v: StoreView, x: RR)
    requires x.Type() == ZONEMD && x.name == v.origin && AddSpec(v, x).Some? && x.ClassAccepted() &&
             SetAt(v, v.origin, ZONEMD).None?
    ensures var v' := AddSpec(v, x).value;
            OnlyChangedAt(v, v', v.origin, ZONEMD) && SetAt(v', v.origin, ZONEMD) == Some(RRSet(ZONEMD, x.ttl, [x]))
  {
    hide AddSpec;
    AddedSets(v, x);
  }

  lemma OnlyRead(v: StoreView, x: RR)
    requires SetAt(v, v.origin, ZONEMD).Some? && Unpack(SetAt(v, v.origin, ZONEMD).value) == [x]
    ensures forall rr :: ReadAt(v, v.origin, ZONEMD, rr) <==> rr == x
  {
    hide Unpack, SetAt;
  }

  lemma NoneRead(v: StoreView, rr: RR)
    requires SetAt(v, v.origin, ZONEMD).None?
    ensures !ReadAt(v, v.origin, ZONEMD, rr)
  {
  }

  lemma PlainWithoutDigest(v: StoreView, v': StoreView, x: RR)
    requires NodesOk(v) && NodesOk(v') && OnlyChangedAt(v, v', v.origin, ZONEMD) && x.name == v.origin &&
             x.Type() == ZONEMD
    requires SetAt(v, v.origin, ZONEMD).Some? && Unpack(SetAt(v, v.origin, ZONEMD).value) == [x]
    requires SetAt(v', v.origin, ZONEMD).None?
    ensures Plain(UnpackedOf(v')) == Plain(UnpackedOf(v)) - {x}
  {
    hide NodesOk, UnpackedOf, Plain, OnlyChangedAt, SetAt, Unpack, ReadAt;
    SigPlaceSame(v, v');
    DigestChange(v, v');
    OnlyRead(v, x);
    forall rr: RR ensures rr in Plain(UnpackedOf(v')) <==> rr in Plain(UnpackedOf(v)) - {x} { NoneRead(v', rr); }
  }

  lemma PlainWithDigest(v: StoreView, v': StoreView, x: RR)
    requires NodesOk(v) && NodesOk(v') && OnlyChangedAt(v, v', v.origin, ZONEMD) && x.name == v.origin &&
             x.Type() == ZONEMD
    requires SetAt(v', v.origin, ZONEMD).Some? && Unpack(SetAt(v', v.origin, ZONEMD).value) == [x]
    requires SetAt(v, v.origin, ZONEMD).None?
    ensures Plain(UnpackedOf(v')) == Plain(UnpackedOf(v)) + {x}
  {
    hide NodesOk, UnpackedOf, Plain, OnlyChangedAt, SetAt, Unpack, ReadAt;
    SigPlaceSame(v, v');
    DigestChange(v, v');
    OnlyRead(v', x);
    forall rr: RR ensures rr in Plain(UnpackedOf(v')) <==> rr in Plain(UnpackedOf(v)) + {x} { NoneRead(v, rr); }
  }

  /** Removing the only digest record. */
  lemma RemoveDigest(v: StoreView, x: RR)
    requires Shape(v) && x.data.ZONEMDData? && x.name == v.origin && SetAt(v, v.origin, ZONEMD).Some?
    requires SetAt(v, v.origin, ZONEMD).value.rdata == [x] && Unpack(SetAt(v, v.origin, ZONEMD).value) == [x]
    ensures var v' := RemoveSpec(v, x);
            && v'.Some? && Shape(v'.value) && v'.value.origin == v.origin
            && Plain(UnpackedOf(v'.value)) == Plain(UnpackedOf(v)) - {x}
            && SetAt(v'.value, v.origin, ZONEMD) == None &&
                SetAt(v'.value, v.origin, RRSIG) == SetAt(v, v.origin, RRSIG)
  {
    hide Shape, UnpackedOf, RemoveSpec, Plain, OnlyChangedAt, SetAt, Unpack;
    DigestType(x);
    Loading.PackedRemoves(v, x);
    var v' := RemoveSpec(v, x).value;
    RemoveEffect(v, x);
    ShapeNodes(v);
    ShapeNodes(v');
    DigestOut(v, x);
    SigPlaceSame(v, v');
    PlainWithoutDigest(v, v', x);
  }

  /** Filing a digest record where there is none. */
  lemma AddDigest(v: StoreView, x: RR)
    requires Shape(v) && x.data.ZONEMDData? && x.name == v.origin && x.ClassAccepted() &&
             SetAt(v, v.origin, ZONEMD).None?
    ensures AddSpec(v, x).Some?
    ensures var v' := AddSpec(v, x).value;
            && Shape(v') && v'.origin == v.origin && Plain(UnpackedOf(v')) == Plain(UnpackedOf(v)) + {x}
            && SetAt(v', v.origin, ZONEMD) == Some(RRSet(ZONEMD, x.ttl, [x])) &&
                SetAt(v', v.origin, RRSIG) == SetAt(v, v.origin, RRSIG)
  {
    hide Shape, UnpackedOf, AddSpec, Plain, OnlyChangedAt, SetAt, Unpack;
    DigestType(x);
    Loading.PackedAdds(v, x);
    var v' := AddSpec(v, x).value;
    AddEffect(v, x);
    ShapeNodes(v);
    ShapeNodes(v');
    DigestIn(v, x);
    SigPlaceSame(v, v');
    ReadsAlone(x);
    PlainWithDigest(v, v', x);
  }

  lemma ReadsAlone(x: RR)
    ensures Unpack(RRSet(x.Type(), x.ttl, [x])) == [x]
  {
  }

  /** Where only the digest RRset of the apex changes, the other records read are the same. */
  lemma DigestChange(v: StoreView, v': StoreView)
    requires NodesOk(v) && NodesOk(v') && OnlyChangedAt(v, v', v.origin, ZONEMD)
    ensures forall rr: RR :: rr in Plain(UnpackedOf(v')) <==>
              if (rr.name, rr.Type()) == (v.origin, ZONEMD) then ReadAt(v', v.origin, ZONEMD, rr)
                  else rr in Plain(UnpackedOf(v))
    ensures forall rr: RR | (rr.name, rr.Type()) == (v.origin, ZONEMD) :: rr in Plain(UnpackedOf(v)) <==>
            ReadAt(v, v.origin, ZONEMD, rr)
  {
    hide NodesOk, UnpackedOf, Unpack, OnlyChangedAt, ReadAt;
    forall rr: RR ensures rr in Plain(UnpackedOf(v')) <==>
              if (rr.name, rr.Type()) == (v.origin, ZONEMD) then ReadAt(v', v.origin, ZONEMD, rr)
                  else rr in Plain(UnpackedOf(v))
    {
      if (rr.name, rr.Type()) == (v.origin, ZONEMD) {
        ReadOwn(v', rr);
      } else {
        OtherPlacesSame(v, v', v.origin, ZONEMD, rr);
      }
    }
    forall rr: RR | (rr.name, rr.Type()) == (v.origin, ZONEMD)
      ensures rr in Plain(UnpackedOf(v)) <==> ReadAt(v, v.origin, ZONEMD, rr)
    {
      ReadOwn(v, rr);
    }
  }

  // ---------------------------------------------------------------------------
  // Finalizing
  // ---------------------------------------------------------------------------

  function ZoneSigsIn(rrs: seq<RR>): (sigs: seq<RR>)
    ensures forall x | x in sigs :: x in rrs && IsZoneSig(x)
  {
    if rrs == [] then []
    else ZoneSigsIn(rrs[..|rrs| - 1]) + if IsZoneSig(rrs[|rrs| - 1]) then [rrs[|rrs| - 1]] else []
  }

  /** The apex signatures over the digest record. */
  function ZoneSigs(v: StoreView): seq<RR> {
    var sets := SetsAt(v, v.origin);
    if RRSIG in sets then ZoneSigsIn(Unpack(sets[RRSIG])) else []
  }

  /** The digest record with a new digest, and a signature over it. */
  ghost predicate IsReplacement(d: Digester, v: StoreView, was: RR, now: RR, sig: RR) {
    IsRedigested(d, v, was, now) && IsZoneSig(sig) && sig.name == was.name && sig.cls == CLASS_IN
  }

  ghost predicate IsRedigested(d: Digester, v: StoreView, was: RR, now: RR) {
    && was.data.ZONEMDData? && Supported(was.data.hashAlg)
    && now.data.ZONEMDData? && now == RR(was.name, CLASS_IN, was.ttl, was.data.(digest := now.data.digest))
    && DigestIs(d, UnpackedOf(v), was.data.scheme, was.data.hashAlg, now.data.digest)
  }

  /** Old digest record and its signatures out, new ones in. */
  ghost predicate Finalized(d: Digester, v: StoreView, v': StoreView, now: RR, sig: RR) {
    && DigestRecords(v) != [] && IsReplacement(d, v, DigestRecords(v)[0], now, sig)
    && Steps(v, Changes([now, sig], ZoneSigs(v) + [DigestRecords(v)[0]])) == (v', true)
  }

  /** What a failure leaves: the new digest record without a signature, or the changes up to one that failed. */
  ghost predicate LeftHalfWay(d: Digester, v: StoreView, v': StoreView, now: RR, sig: RR) {
    && DigestRecords(v) != [] && IsRedigested(d, v, DigestRecords(v)[0], now)
    && var removes := ZoneSigs(v) + [DigestRecords(v)[0]];
       || v' == Steps(v, Changes([now], removes)).0
       || Steps(v, Changes([now, sig], removes)) == (v', false)
  }

  method CollectZoneSigs(st: Store) returns (sigs: seq<RR>)
    requires st.Valid() && st.origin in st.nodes
    ensures sigs == ZoneSigs(st.state)
  {
    hide Store.Valid, ToMap, ZoneSigsIn;
    AllNames(st);
    OneMoreNode(st, st.origin);
    KnownStore(st);
    var n := st.nodes[st.origin];
    var i := FindSet(n, RRSIG);
    if i == |n.sets| {
      return [];
    }
    sigs := FilterZoneSigs(Unpack(n.sets[i]));
  }

  method FilterZoneSigs(rrs: seq<RR>) returns (sigs: seq<RR>)
    ensures sigs == ZoneSigsIn(rrs)
  {
    sigs := [];
    var i := 0;
    while i < |rrs|
      invariant 0 <= i <= |rrs|
      invariant sigs == ZoneSigsIn(rrs[..i])
    {
      Seqs.Longer(rrs, i);
      if rrs[i].data.RRSIGData? && rrs[i].data.sig.covered == ZONEMD {
        sigs := sigs + [rrs[i]];
      }
      i := i + 1;
    }
    assert rrs[..i] == rrs;
  }

  /** Replaces the placeholder digest by the right one and signs it anew. */
  method FinalizeZONEMD(d: Digester, resign: RR -> Option<Signature>, st: Store) returns (done: bool, ghost now: RR,
          ghost sig: RR)
    requires st.Valid() && Tells(d) && NoTwins(st.state)
    modifies st, st.nodes.Values
    ensures st.Valid()
    ensures done ==> Finalized(d, old(st.state), st.state, now, sig)
    ensures !done ==> st.state == old(st.state) || LeftHalfWay(d, old(st.state), st.state, now, sig)
  {
    hide Store.Valid, Tells, NoTwins, DigestRecords, ZoneSigs, DigestIs, Steps, TouchedBy;
    KnownStore(st);
    now, sig := Nothing(st.origin), Nothing(st.origin);
    if st.origin !in st.nodes {
      return false, now, sig;
    }
    var rrs := ReadDigestRecords(st);
    if |rrs| == 0 {
      return false, now, sig;
    }
    var was := rrs[0];
    if !was.data.ZONEMDData? {
      return false, now, sig;
    }
    ghost var v := st.state;
    var digest := ComputeZONEMD(d, st, was.data.scheme, was.data.hashAlg);
    if digest.None? {
      return false, now, sig;
    }
    var neu := RR(was.name, CLASS_IN, was.ttl, was.data.(digest := digest.value));
    var sigs := CollectZoneSigs(st);
    var made := resign(neu);
    var signed := RR(was.name, CLASS_IN, was.ttl, RRSIGData(
      if made.Some? then made.value.(covered := ZONEMD) else Signature(ZONEMD, 0, 0, 0, 0, 0, 0, [], [])));
    if made.None? {
      var _, err := st.ApplyChanges([neu], sigs + [was]);
      return false, neu, sig;
    }
    var _, err := st.ApplyChanges([neu, signed], sigs + [was]);
    now, sig := neu, signed;
    return !err, now, sig;
  }

  function Nothing(origin: Name): RR {
    RR(origin, CLASS_IN, 0, OtherData(1, []))
  }

  /** Removing all signatures over the digest record. */
  lemma {:induction false} RemoveZoneSigs(v: StoreView, sigs: seq<RR>)
    requires Shape(v) && SteadySigs(v) && forall x | x in sigs :: IsZoneSig(x) && x.name == v.origin
    ensures var s := Steps(v, Changes([], sigs));
            && s.1 && Shape(s.0) && s.0.origin == v.origin && SteadySigs(s.0)
            && Plain(UnpackedOf(s.0)) == Plain(UnpackedOf(v)) &&
                SetAt(s.0, v.origin, ZONEMD) == SetAt(v, v.origin, ZONEMD)
    decreases |sigs|
  {
    hide Shape, SteadySigs, UnpackedOf, Plain, RemoveSpec, IsZoneSig;
    if sigs == [] {
      assert Changes([], sigs) == [];
    } else {
      assert sigs[0] in sigs;
      Loading.RemoveFirstOf(sigs);
      RemoveZoneSig(v, sigs[0]);
      RemoveZoneSigs(RemoveSpec(v, sigs[0]).value, sigs[1..]);
    }
  }

  /** One digest record at the apex, in class IN, read as it is stored, with a digest as long as the hash makes them;
      and settled signatures. */
  ghost predicate ReadyForDigest(v: StoreView, was: RR) {
    && v.origin in v.nodes && ZONEMD in v.nodes[v.origin].sets
    && v.nodes[v.origin].sets[ZONEMD].rdata == [was] && DigestRecords(v) == [was]
    && was.data.ZONEMDData? && was.data.scheme == 1 && was.cls == CLASS_IN && was.name == v.origin
    && SteadySigs(v)
  }

  lemma OneByOne(v: StoreView, now: RR, sig: RR, sigs: seq<RR>, was: RR)
    ensures Steps(v, Changes([now, sig], sigs + [was])) ==
            var a := Steps(v, Changes([], sigs));
            if !a.1 then a else Steps(a.0, [Remove(was), Add(now), Add(sig)])
  {
    var cs := Changes([now, sig], sigs + [was]);
    assert cs == Changes([], sigs) + [Remove(was), Add(now), Add(sig)];
    StepsConcat(v, Changes([], sigs), [Remove(was), Add(now), Add(sig)]);
  }

  lemma OneStep(v: StoreView, c: Change, cs: seq<Change>)
    requires Step(v, c).Some?
    ensures Steps(v, [c] + cs) == Steps(Step(v, c).value, cs)
    ensures Steps(v, []) == (v, true)
  {
    hide Step;
    assert ([c] + cs)[1..] == cs;
  }

  lemma ThreeSteps(v: StoreView, a: Change, b: Change, c: Change)
    requires Step(v, a).Some? && Step(Step(v, a).value, b).Some? && Step(Step(Step(v, a).value, b).value, c).Some?
    ensures Steps(v, [a, b, c]) == (Step(Step(Step(v, a).value, b).value, c).value, true)
  {
    hide Step, Steps;
    var v1 := Step(v, a).value;
    var v2 := Step(v1, b).value;
    assert [a, b, c] == [a] + [b, c] && [b, c] == [b] + [c] && [c] == [c] + [];
    OneStep(v, a, [b, c]);
    OneStep(v1, b, [c]);
    OneStep(v2, c, []);
    NoChange(Step(v2, c).value, NOTHING);
  }

  lemma ApexSigs(v: StoreView)
    requires NodesOk(v)
    ensures forall x | x in ZoneSigs(v) :: IsZoneSig(x) && x.name == v.origin
  {
    hide Unpack;
    if RRSIG in SetsAt(v, v.origin) {
      assert NodeOk(v.origin, v.origin, v.nodes[v.origin]);
      ReadsOwnType(v.origin, v.nodes[v.origin].sets, RRSIG);
    }
  }

  /** What finalizing leaves behind: the other records as they were read, and the new digest record alone. */
  lemma FinalizedEffect(d: Digester, v: StoreView, v': StoreView, now: RR, sig: RR, was: RR)
    requires Shape(v) && ReadyForDigest(v, was) && Finalized(d, v, v', now, sig)
    ensures Shape(v') && v'.origin == v.origin && DigestRecords(v') == [now]
    ensures Plain(UnpackedOf(v')) == Plain(UnpackedOf(v)) - {was} + {now}
  {
    hide Shape, UnpackedOf, Plain, Unpack, DigestIs, RemoveSpec, AddSpec, Steps, ZoneSigs;
    ShapeNodes(v);
    ApexSigs(v);
    OneByOne(v, now, sig, ZoneSigs(v), was);
    RemoveZoneSigs(v, ZoneSigs(v));
    var v1 := Steps(v, Changes([], ZoneSigs(v))).0;
    RemoveDigest(v1, was);
    var v2 := RemoveSpec(v1, was).value;
    AddDigest(v2, now);
    var v3 := AddSpec(v2, now).value;
    AddZoneSig(v3, sig);
    ThreeSteps(v1, Remove(was), Add(now), Add(sig));
    ReadsAlone(now);
    DigestRecordsAre(v');
  }

  lemma DigestRecordsAre(v: StoreView)
    ensures DigestRecords(v) == match SetAt(v, v.origin, ZONEMD) case Some(s) => Unpack(s) case None => []
  {
  }

  lemma OnlyDigestRead(v: StoreView, was: RR)
    requires NodesOk(v) && ReadyForDigest(v, was)
    ensures was in UnpackedOf(v) && forall x | x in UnpackedOf(v) && x.name == was.name && x.Type() == ZONEMD ::
            x == was
  {
    hide NodesOk, UnpackedOf, Unpack;
    ReadOwn(v, was);
    DigestRecordsAre(v);
    forall x | x in UnpackedOf(v) && x.name == was.name && x.Type() == ZONEMD ensures x == was { ReadOwn(v, x); }
  }

  /** A zone that went through finalizing passes the digest check, in every mode. */
  lemma FinalizedIsAccepted(d: Digester, v: StoreView, v': StoreView, now: RR, sig: RR, was: RR, mode: Policy)
    requires Tells(d) && Shape(v) && ReadyForDigest(v, was) && Finalized(d, v, v', now, sig)
    requires |now.data.digest| == |was.data.digest|
    ensures DigestOk(d, v') && DigestKeys(d, v', mode) == {}
  {
    hide Tells, Shape, UnpackedOf, Plain, Steps, IsCanonical, Feed, HashOf, ZoneSigs, SteadySigs;
    FinalizedEffect(d, v, v', now, sig, was);
    ShapeNodes(v);
    OnlyDigestRead(v, was);
    var recs, recs' := UnpackedOf(v), UnpackedOf(v');
    var s :| IsCanonical(d, s, recs) && now.data.digest == HashOf(d, was.data.hashAlg, Feed(d, 1, s));
    var s' := CanonicalExists(d, recs');
    DigestIgnores(d, recs, recs', was, now, s, s');
    assert DigestIs(d, recs', 1, was.data.hashAlg, now.data.digest);
    assert Matches(d, recs', now);
    assert now in DigestRecords(v');
  }
}

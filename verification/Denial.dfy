/** Generator against checker: the chains the generator builds, once signed and loaded, draw no denial finding. */
module Denial {
  import opened Bytes
  import opened Names
  import opened Records
  import opened StoreSpec
  import opened Store
  import opened Ring
  import opened Signatures
  import opened Verify
  import opened FullPass
  import opened Generate
  import opened Xfr
  import opened Loading
  import opened ExpiryIndex
  import Base32
  import Seqs

  // ---------------------------------------------------------------------------
  // Loading a record list
  // ---------------------------------------------------------------------------

  /** No two NSEC3 records claim one index entry with different contents. */
  ghost predicate NoHashClash(recs: set<RR>) {
    forall a, b | a in recs && b in recs && a.data.NSEC3Data? && b.data.NSEC3Data? &&
        NSEC3Key(a.name) == NSEC3Key(b.name) ::
      MakeNSEC3Rec(a) == MakeNSEC3Rec(b)
  }

  ghost predicate HashIndexed(v: StoreView) {
    NodesOk(v) && IndexIs(v.nsec3, NSEC3Entries(RecordsOf(v)))
  }

  lemma LoadOne(v: StoreView, rr: RR)
    requires HashIndexed(v) && Addable(rr) && NoHashClash(RecordsOf(v) + {rr})
    ensures var v' := AddSpec(v, rr);
            v'.Some? && HashIndexed(v'.value) && v'.value.origin == v.origin && RecordsOf(v'.value) == RecordsOf(v) +
                {rr}
  {
    hide RecordsOf, NodesOk, NSEC3Entries, IndexIs;
    PackedAdds(v, rr);
    var v' := AddSpec(v, rr).value;
    AddSteps(v, rr);
    AddedRecords(v, v', rr);
    if rr.data.NSEC3Data? {
      NSEC3AfterAdd(RecordsOf(v), rr, v.nsec3);
    } else {
      OtherEntriesSame(RecordsOf(v), rr);
    }
  }

  /** Loading any list of acceptable records gives their set and the NSEC3 index of a scan. */
  lemma {:induction false} LoadAll(v: StoreView, adds: seq<RR>)
    requires HashIndexed(v) && (forall rr | rr in adds :: Addable(rr)) && NoHashClash(RecordsOf(v) + Elems(adds))
    ensures var s := Steps(v, Changes(adds, []));
            s.1 && HashIndexed(s.0) && s.0.origin == v.origin && RecordsOf(s.0) == RecordsOf(v) + Elems(adds)
    decreases |adds|
  {
    hide HashIndexed, RecordsOf, AddSpec, NSEC3Key, MakeNSEC3Rec, Addable;
    if adds == [] {
      assert Changes(adds, []) == [];
    } else {
      var rr, rest := adds[0], adds[1..];
      assert rr in adds && adds == [rr] + rest;
      assert Elems(adds) == {rr} + Elems(rest);
      AddFirstOf(adds);
      LoadOne(v, rr);
      var v' := AddSpec(v, rr).value;
      assert RecordsOf(v') + Elems(rest) == RecordsOf(v) + Elems(adds);
      LoadAll(v', rest);
    }
  }

  /** A store loaded from a list of records. */
  ghost predicate LoadedFrom(v: StoreView, origin: Name, rrs: seq<RR>) {
    v.origin == origin && HashIndexed(v) && RecordsOf(v) == Elems(rrs)
  }

  lemma LoadEmpty(origin: Name, rrs: seq<RR>)
    requires (forall rr | rr in rrs :: Addable(rr)) && NoHashClash(Elems(rrs))
    ensures var s := Steps(EmptyStore(origin), Changes(rrs, [])); s.1 && LoadedFrom(s.0, origin, rrs)
  {
    hide Steps, NoHashClash, Addable;
    var v := EmptyStore(origin);
    assert RecordsOf(v) == {};
    assert NSEC3Entries(RecordsOf(v)) == {};
    assert {} + Elems(rrs) == Elems(rrs);
    LoadAll(v, rrs);
  }

  lemma FilledStore(origin: Name, rrs: seq<RR>)
    requires (forall rr | rr in rrs :: Addable(rr)) && NoHashClash(Elems(rrs))
    ensures var s := Steps(EmptyStore(origin), Changes(rrs, []));
            s.1 && LoadedFrom(s.0, origin, rrs) && AllFiled(s.0) && AllBacked(s.0)
  {
    hide NoHashClash, Steps, AllFiled, AllBacked, LoadedFrom;
    LoadEmpty(origin, rrs);
    LoadedIsFiled(origin, rrs);
  }

  /** Nodes and types of a loaded store are those of the list. */
  lemma LoadedNodes(v: StoreView, origin: Name, rrs: seq<RR>, n: Name)
    requires LoadedFrom(v, origin, rrs)
    ensures n in v.nodes <==> n in NamesOf(rrs)
    ensures n in v.nodes ==> v.nodes[n].sets.Keys == TypesAt(rrs, n)
    ensures n in v.nodes ==> v.nodes[n].isDelegation == IsCut(TypesAt(rrs, n), origin, n)
    ensures n in v.nodes ==> v.nodes[n].hasDS == (DS in TypesAt(rrs, n))
  {
    hide TypesAt, NamesOf, IsCut, Elems;
    LoadedShape(v, origin, rrs);
    TypeFiled(v, rrs, n);
    NameListed(rrs, n);
    if n in v.nodes {
      assert NodeOk(v.origin, n, v.nodes[n]);
      CutMeans(TypesAt(rrs, n), origin, n);
      var t :| t in v.nodes[n].sets;
    }
  }

  lemma LoadedShape(v: StoreView, origin: Name, rrs: seq<RR>)
    requires LoadedFrom(v, origin, rrs)
    ensures NodesOk(v) && v.origin == origin && RecordsOf(v) == Elems(rrs)
  {
  }

  lemma CutMeans(types: set<nat>, origin: Name, n: Name)
    ensures IsCut(types, origin, n) <==> n != origin && NS in types
  {
  }

  lemma NameListed(rrs: seq<RR>, n: Name)
    ensures n in NamesOf(rrs) <==> TypesAt(rrs, n) != {}
  {
    if n in NamesOf(rrs) {
      var rr :| rr in rrs && rr.name == n;
      assert rr.Type() in TypesAt(rrs, n);
    }
  }

  lemma TypeFiled(v: StoreView, rrs: seq<RR>, n: Name)
    requires NodesOk(v) && RecordsOf(v) == Elems(rrs)
    ensures forall t :: t in TypesAt(rrs, n) <==> n in v.nodes && t in v.nodes[n].sets
  {
    hide RecordsOf;
    RecordsAreStored(v);
    assert forall rr :: rr in rrs <==> rr in Elems(rrs);
    forall t ensures t in TypesAt(rrs, n) <==> n in v.nodes && t in v.nodes[n].sets {
      if n in v.nodes && t in v.nodes[n].sets {
        assert NodeOk(v.origin, n, v.nodes[n]);
        var rr := v.nodes[n].sets[t].rdata[0];
        assert rr in v.nodes[n].sets[t].rdata;
        assert rr.name == n && rr.Type() == t && Stored(v, rr);
      }
      if t in TypesAt(rrs, n) {
        var rr :| rr in rrs && rr.name == n && rr.Type() == t;
        assert Stored(v, rr);
      }
    }
  }

  lemma {:induction false} SameCutsBelow(a: set<Name>, b: set<Name>, origin: Name, p: Name)
    requires forall n | n != origin :: n in a <==> n in b
    ensures AtOrUnderCut(a, origin, p) == AtOrUnderCut(b, origin, p)
    decreases |p|
  {
    if p != origin && p != [] { SameCutsBelow(a, b, origin, Parent(p)); }
  }

  lemma LoadedAuthority(v: StoreView, origin: Name, all: seq<RR>, rrs: seq<RR>, n: Name)
    requires LoadedFrom(v, origin, all) && CutsOf(all) == CutsOf(rrs)
    ensures Authoritative(v, n) <==> n == origin || !UnderCut(CutsOf(rrs), origin, n)
  {
    hide LoadedFrom, TypesAt, NamesOf, CutsOf;
    LoadedOrigin(v, origin, all);
    forall m | m != origin ensures m in Cuts(v) <==> m in CutsOf(all) {
      LoadedNodes(v, origin, all, m);
      CutIs(all, m);
    }
    SameCutsBelow(Cuts(v), CutsOf(all), origin, Parent(n));
  }

  lemma LoadedOrigin(v: StoreView, origin: Name, all: seq<RR>)
    requires LoadedFrom(v, origin, all)
    ensures v.origin == origin && NodesOk(v)
  {
  }

  lemma CutIs(rrs: seq<RR>, n: Name)
    ensures n in CutsOf(rrs) <==> n in NamesOf(rrs) && NS in TypesAt(rrs, n)
  {
  }

  /** No delegation of the zone lies above its origin. */
  lemma OriginIsUncut(rrs: seq<RR>, origin: Name)
    requires forall rr | rr in rrs :: IsSubdomain(rr.name, origin)
    ensures !UnderCut(CutsOf(rrs), origin, origin)
  {
    var p := Parent(origin);
    CutIsProperAncestor(CutsOf(rrs), origin, p);
    forall k | 0 <= k < |p| ensures p[k..] !in CutsOf(rrs) {
      assert |p[k..]| < |origin|;
    }
  }

  // ---------------------------------------------------------------------------
  // What a zone has to be
  // ---------------------------------------------------------------------------

  /** Acceptable records at or below the origin, without denial records and signatures. */
  ghost predicate InZone(origin: Name, rrs: seq<RR>) {
    forall rr | rr in rrs ::
         Addable(rr) && IsSubdomain(rr.name, origin) && rr.Type() != NSEC && rr.Type() != NSEC3 && rr.Type() != RRSIG
  }

  /** The hash gives 20 bytes and tells the names in use apart. */
  ghost predicate GoodHash(opt: Options, rrs: seq<RR>) {
    && (forall n :: |opt.hash(n)| == 20)
    && (forall m, n | IsHashed(opt, rrs, m) && IsHashed(opt, rrs, n) && opt.hash(m) == opt.hash(n) :: m == n)
  }

  /** The parameter record of an NSEC3 zone is at the apex and nowhere else, and matches what the generator uses. */
  ghost predicate GoodParam(opt: Options, rrs: seq<RR>, param: RData) {
    && param.NSEC3PARAMData? && param.paramIterations == opt.iterations
    && (exists rr | rr in rrs :: rr.Type() == NSEC3PARAM)
    && forall rr | rr in rrs && rr.Type() == NSEC3PARAM :: rr.name == opt.origin && rr.data == param
  }

  // ---------------------------------------------------------------------------
  // Types after signing
  // ---------------------------------------------------------------------------

  lemma TypesConcat(a: seq<RR>, b: seq<RR>, n: Name)
    ensures TypesAt(a + b, n) == TypesAt(a, n) + TypesAt(b, n)
    ensures NamesOf(a + b) == NamesOf(a) + NamesOf(b)
  {
    assert forall rr :: rr in a + b <==> rr in a || rr in b;
  }

  ghost predicate AnySigned(origin: Name, rrs: seq<RR>, n: Name) {
    exists t: nat :: ShouldSign(origin, rrs, n, t)
  }

  lemma SignatureIs(opt: Options, base: seq<RR>, all: seq<RR>, rr: RR)
    requires IsSigned(opt, base, all) && rr in all[|base|..]
    ensures rr.Type() == RRSIG && rr.data.RRSIGData? && Addable(rr) && AnySigned(opt.origin, base, rr.name) &&
            rr.name in NamesOf(base)
  {
    hide ShouldSign, Group, SigningKey, NamesOf;
    var m, t: nat :| ShouldSign(opt.origin, base, m, t) && IsSignature(opt, base, m, t, rr);
    SignedIsThere(opt.origin, base, m, t);
  }

  lemma SignatureExists(opt: Options, base: seq<RR>, all: seq<RR>, n: Name)
    requires IsSigned(opt, base, all) && AnySigned(opt.origin, base, n)
    ensures exists rr :: rr in all[|base|..] && rr.name == n
  {
    hide ShouldSign, Group, SigningKey, Pairs;
    var t: nat :| ShouldSign(opt.origin, base, n, t);
    SignedArePairs(opt.origin, base);
    var rr :| rr in all[|base|..] && IsSignature(opt, base, n, t, rr);
  }

  /** Signing adds the signature type where something is signed, and no names. */
  lemma SignedTypes(opt: Options, base: seq<RR>, all: seq<RR>, n: Name)
    requires IsSigned(opt, base, all)
    ensures TypesAt(all, n) == TypesAt(base, n) + if AnySigned(opt.origin, base, n) then {RRSIG} else {}
    ensures NamesOf(all) == NamesOf(base)
  {
    hide AnySigned, SigsFor;
    var sigs := all[|base|..];
    assert all == base + sigs;
    TypesConcat(base, sigs, n);
    forall rr | rr in sigs ensures rr.Type() == RRSIG && rr.name in NamesOf(base) &&
        AnySigned(opt.origin, base, rr.name) {
      SignatureIs(opt, base, all, rr);
    }
    if AnySigned(opt.origin, base, n) {
      SignatureExists(opt, base, all, n);
      assert RRSIG in TypesAt(sigs, n);
    }
  }

  lemma SignedIsThere(origin: Name, rrs: seq<RR>, n: Name, t: nat)
    requires ShouldSign(origin, rrs, n, t)
    ensures n in NamesOf(rrs)
  {
  }

  lemma SignaturesAddable(opt: Options, base: seq<RR>, all: seq<RR>)
    requires IsSigned(opt, base, all) && forall rr | rr in base :: Addable(rr)
    ensures forall rr | rr in all :: Addable(rr)
    ensures forall rr | rr in all :: rr in base || rr.data.RRSIGData?
  {
    hide SigsFor, Addable, AnySigned, NamesOf;
    assert all == base + all[|base|..];
    forall rr | rr in all[|base|..] ensures Addable(rr) && rr.data.RRSIGData? { SignatureIs(opt, base, all, rr); }
  }

  lemma SameCuts(rrs: seq<RR>, out: seq<RR>)
    requires forall rr | rr in out :: rr.Type() != NS
    ensures CutsOf(rrs + out) == CutsOf(rrs)
  {
    forall n ensures n in CutsOf(rrs + out) <==> n in CutsOf(rrs) {
      TypesConcat(rrs, out, n);
      CutIs(rrs, n);
      CutIs(rrs + out, n);
    }
  }

  // ---------------------------------------------------------------------------
  // NSEC3
  // ---------------------------------------------------------------------------

  /** A generated NSEC3 zone: records, their chain, and everything signed. */
  ghost predicate IsNSEC3Zone(opt: Options, rrs: seq<RR>, param: RData, names: seq<Name>, out: seq<RR>, all: seq<RR>) {
    && opt.origin != [] && InZone(opt.origin, rrs) && GoodHash(opt, rrs) && GoodParam(opt, rrs, param)
    && IsNSEC3Chain(opt, rrs, names, out) && IsSigned(opt, rrs + out, all)
  }

  lemma LabelDecodes(opt: Options, n: Name)
    requires |opt.hash(n)| == 20
    ensures Base32.HashFromBase32(HashLabel(opt, n)) == Some(opt.hash(n))
    ensures Base32.HashFromBase32(Base32.ToUpper(HashLabel(opt, n))) == Some(opt.hash(n))
    ensures LooksHashed(HashLabel(opt, n))
  {
    hide Base32.Encoded, Base32.HashFromBase32;
    var h := opt.hash(n);
    Base32.DecodeOfEncode(h);
    Base32.EncodedIsLower(h);
    Base32.EncodedBits(h);
    Base32.EncodedLength(h);
    LowerIsValid(Base32.Encoded(h));
    Base32.DecodeIgnoresCase(Base32.Encoded(h));
  }

  lemma LowerIsValid(s: Bytes)
    requires Base32.LowerLabel(s)
    ensures Base32.ValidLabel(s) && forall c | c in s :: 48 <= c <= 57 || 97 <= c <= 118
  {
    forall k | 0 <= k < |s| ensures 48 <= s[k] <= 57 || 97 <= s[k] <= 118 {
      assert Base32.CharVal(s[k]).Some? && Base32.ToLower(s)[k] == s[k];
    }
  }

  /** What the index holds for one generated record. */
  lemma RecordEntry(opt: Options, rrs: seq<RR>, rr: RR, n: Name, next: Name)
    requires IsNSEC3For(opt, rrs, rr, n, HashLabel(opt, next)) && |opt.hash(n)| == 20 && |opt.hash(next)| == 20
    ensures NSEC3Key(rr.name) == opt.hash(n) && rr.Type() == NSEC3 && Addable(rr)
    ensures var rec := MakeNSEC3Rec(rr);
            rec.next == opt.hash(next) && rec.iterations == opt.iterations &&
                Elements(rec.bitmap) == NSEC3Types(opt, rrs, n)
    ensures opt.origin != [] ==> IsNSEC3Owner(rr.name, opt.origin)
  {
    hide HashLabel, Base32.HashFromBase32, NSEC3Types, LooksHashed;
    LabelDecodes(opt, n);
    LabelDecodes(opt, next);
    assert rr.name[1..] == opt.origin && rr.name[0] == HashLabel(opt, n);
  }

  ghost function HashesOf(opt: Options, names: seq<Name>): seq<Bytes> {
    seq(|names|, i requires 0 <= i < |names| => opt.hash(names[i]))
  }

  /** Sorting labels sorts hashes: the generator's text order and the checker's byte order agree. */
  lemma HashesSorted(opt: Options, rrs: seq<RR>, names: seq<Name>, out: seq<RR>)
    requires GoodHash(opt, rrs) && IsNSEC3Chain(opt, rrs, names, out)
    ensures Sorted(HashesOf(opt, names))
  {
    hide Less, IsHashed, Base32.Encoded;
    LessIsTotalOrder();
    forall i, j | 0 <= i < j < |names| ensures Less(opt.hash(names[i]), opt.hash(names[j])) {
      var x, y := opt.hash(names[i]), opt.hash(names[j]);
      assert !Less(HashLabel(opt, names[j]), HashLabel(opt, names[i]));
      Base32.EncodedOrder(y, x);
      assert names[i] in names && names[j] in names;
      assert x != y;
    }
  }

  /** The index of the loaded zone, record by record. */
  ghost predicate IndexIsChain(opt: Options, rrs: seq<RR>, names: seq<Name>, index: Index) {
    && (forall h :: h in index <==> h in HashesOf(opt, names))
    && forall i | 0 <= i < |names| ::
         && opt.hash(names[i]) in index
         && index[opt.hash(names[i])].next == opt.hash(names[Seqs.After(i, |names|)])
         && index[opt.hash(names[i])].iterations == opt.iterations
         && Elements(index[opt.hash(names[i])].bitmap) == NSEC3Types(opt, rrs, names[i])
  }

  ghost predicate NSEC3sAre(recs: set<RR>, out: seq<RR>) {
    forall rr :: rr in recs && rr.data.NSEC3Data? <==> rr in out
  }

  lemma ChainEntries(opt: Options, rrs: seq<RR>, names: seq<Name>, out: seq<RR>, i: nat)
    requires GoodHash(opt, rrs) && IsNSEC3Chain(opt, rrs, names, out) && i < |names|
    ensures NSEC3Key(out[i].name) == opt.hash(names[i]) && out[i].Type() == NSEC3 && out[i].data.NSEC3Data? &&
            Addable(out[i])
    ensures var rec := MakeNSEC3Rec(out[i]);
            rec.next == opt.hash(names[Seqs.After(i, |names|)]) && rec.iterations == opt.iterations &&
            Elements(rec.bitmap) == NSEC3Types(opt, rrs, names[i])
    ensures opt.origin != [] ==> IsNSEC3Owner(out[i].name, opt.origin)
  {
    hide IsHashed, HashLabel, NSEC3Key, MakeNSEC3Rec, IsNSEC3Owner, LabelsOrdered, IsNSEC3For;
    RecordEntry(opt, rrs, out[i], names[i], names[Seqs.After(i, |names|)]);
  }

  /** Two records of the chain with one key are the same record. */
  lemma ChainKeysDiffer(opt: Options, rrs: seq<RR>, names: seq<Name>, out: seq<RR>, i: nat, j: nat)
    requires GoodHash(opt, rrs) && IsNSEC3Chain(opt, rrs, names, out) && i < |out| && j < |out|
    requires NSEC3Key(out[i].name) == NSEC3Key(out[j].name)
    ensures i == j
  {
    hide NSEC3Key, IsHashed, IsNSEC3For, LabelsOrdered;
    ChainEntries(opt, rrs, names, out, i);
    ChainEntries(opt, rrs, names, out, j);
    assert names[i] in names && names[j] in names;
  }

  lemma ChainNoClash(opt: Options, rrs: seq<RR>, names: seq<Name>, out: seq<RR>, recs: set<RR>)
    requires GoodHash(opt, rrs) && IsNSEC3Chain(opt, rrs, names, out) && NSEC3sAre(recs, out)
    ensures NoHashClash(recs)
  {
    hide NSEC3Key, MakeNSEC3Rec, IsNSEC3Chain, GoodHash;
    forall a, b | a in recs && b in recs && a.data.NSEC3Data? && b.data.NSEC3Data? &&
        NSEC3Key(a.name) == NSEC3Key(b.name)
      ensures a == b
    {
      var i :| 0 <= i < |out| && out[i] == a;
      var j :| 0 <= j < |out| && out[j] == b;
      ChainKeysDiffer(opt, rrs, names, out, i, j);
    }
  }

  /** Every record of the chain has its entry. */
  lemma ChainEntryIndexed(opt: Options, rrs: seq<RR>, names: seq<Name>, out: seq<RR>, recs: set<RR>, index: Index,
          i: nat)
    requires GoodHash(opt, rrs) && IsNSEC3Chain(opt, rrs, names, out) && NSEC3sAre(recs, out)
    requires IndexIs(index, NSEC3Entries(recs)) && i < |names|
    ensures opt.hash(names[i]) in index
    ensures index[opt.hash(names[i])].next == opt.hash(names[Seqs.After(i, |names|)])
    ensures index[opt.hash(names[i])].iterations == opt.iterations
    ensures Elements(index[opt.hash(names[i])].bitmap) == NSEC3Types(opt, rrs, names[i])
  {
    hide NSEC3Key, MakeNSEC3Rec, IsNSEC3Chain, GoodHash, NSEC3Types, Elements;
    ChainLength(opt, rrs, names, out);
    ChainEntries(opt, rrs, names, out, i);
    assert out[i] in out;
    var e := (opt.hash(names[i]), MakeNSEC3Rec(out[i]));
    assert e in NSEC3Entries(recs);
  }

  /** Every entry is that of a record of the chain. */
  lemma IndexedIsChain(opt: Options, rrs: seq<RR>, names: seq<Name>, out: seq<RR>, recs: set<RR>, index: Index,
          h: Bytes)
    requires GoodHash(opt, rrs) && IsNSEC3Chain(opt, rrs, names, out) && NSEC3sAre(recs, out)
    requires IndexIs(index, NSEC3Entries(recs)) && h in index
    ensures h in HashesOf(opt, names)
  {
    hide NSEC3Key, MakeNSEC3Rec, IsNSEC3Chain, GoodHash, NSEC3Types, Elements;
    ChainLength(opt, rrs, names, out);
    assert (h, index[h]) in NSEC3Entries(recs);
    var rr :| rr in recs && rr.data.NSEC3Data? && NSEC3Key(rr.name) == h;
    assert rr in out;
    var i :| 0 <= i < |out| && out[i] == rr;
    ChainEntries(opt, rrs, names, out, i);
    assert HashesOf(opt, names)[i] == h;
  }

  lemma ChainIndex(opt: Options, rrs: seq<RR>, names: seq<Name>, out: seq<RR>, recs: set<RR>, index: Index)
    requires GoodHash(opt, rrs) && IsNSEC3Chain(opt, rrs, names, out) && NSEC3sAre(recs, out)
    requires IndexIs(index, NSEC3Entries(recs))
    ensures IndexIsChain(opt, rrs, names, index)
  {
    hide IsNSEC3Chain, GoodHash, NSEC3Types, Elements, IndexIs, NSEC3sAre, NSEC3Entries;
    forall i | 0 <= i < |names| ensures
         && opt.hash(names[i]) in index
         && index[opt.hash(names[i])].next == opt.hash(names[Seqs.After(i, |names|)])
         && index[opt.hash(names[i])].iterations == opt.iterations
         && Elements(index[opt.hash(names[i])].bitmap) == NSEC3Types(opt, rrs, names[i])
    {
      ChainEntryIndexed(opt, rrs, names, out, recs, index, i);
    }
    forall h ensures h in index <==> h in HashesOf(opt, names) {
      if h in index { IndexedIsChain(opt, rrs, names, out, recs, index, h); }
      if h in HashesOf(opt, names) {
        var i :| 0 <= i < |names| && HashesOf(opt, names)[i] == h;
      }
    }
  }

  lemma NextAfter(keys: set<Bytes>, s: seq<Bytes>, i: nat)
    requires Sorted(s) && (forall k :: k in s <==> k in keys) && i < |s|
    ensures IsNext(keys, s[i], s[Seqs.After(i, |s|)])
  {
    hide IsNext;
    NextInSorted(keys, s, i);
    Seqs.AfterIs(i, |s|);
  }

  /** The index of a generated zone is a closed ring. */
  lemma ChainIsClosed(opt: Options, rrs: seq<RR>, names: seq<Name>, out: seq<RR>, index: Index)
    requires GoodHash(opt, rrs) && IsNSEC3Chain(opt, rrs, names, out) && IndexIsChain(opt, rrs, names, index)
    ensures Closed(index) && forall h | h in index :: index[h].iterations == opt.iterations
  {
    hide IsNext, IsHashed, LabelsOrdered, GoodHash, IsNSEC3Chain, NSEC3Types, Sorted, Elements;
    var hs := HashesOf(opt, names);
    HashesSorted(opt, rrs, names, out);
    forall h | h in index ensures IsNext(index.Keys, h, index[h].next) && index[h].iterations == opt.iterations {
      var i :| 0 <= i < |hs| && hs[i] == h;
      NextAfter(index.Keys, hs, i);
      assert hs[Seqs.After(i, |hs|)] == opt.hash(names[Seqs.After(i, |names|)]);
    }
  }

  lemma ZoneNSEC3s(opt: Options, rrs: seq<RR>, param: RData, names: seq<Name>, out: seq<RR>, all: seq<RR>)
    requires IsNSEC3Zone(opt, rrs, param, names, out, all)
    ensures NSEC3sAre(Elems(all), out) && (forall rr | rr in all :: Addable(rr))
    ensures forall rr | rr in out :: rr.Type() == NSEC3 && IsNSEC3Owner(rr.name, opt.origin)
  {
    hide IsNSEC3Chain, GoodHash, GoodParam, IsSigned, IsNSEC3Owner, Addable;
    forall rr | rr in out ensures rr.Type() == NSEC3 && rr.data.NSEC3Data? && IsNSEC3Owner(rr.name, opt.origin) &&
        Addable(rr) {
      ChainLength(opt, rrs, names, out);
      var i :| 0 <= i < |out| && out[i] == rr;
      ChainEntries(opt, rrs, names, out, i);
    }
    var base := rrs + out;
    assert forall rr :: rr in base <==> rr in rrs || rr in out;
    SignaturesAddable(opt, base, all);
    SignedPrefix(opt, base, all);
    forall rr ensures rr in Elems(all) && rr.data.NSEC3Data? <==> rr in out {
      if rr in rrs { assert rr.Type() != NSEC3; }
    }
  }

  lemma ChainLength(opt: Options, rrs: seq<RR>, names: seq<Name>, out: seq<RR>)
    requires IsNSEC3Chain(opt, rrs, names, out)
    ensures |out| == |names|
  {
  }

  lemma SignedPrefix(opt: Options, base: seq<RR>, all: seq<RR>)
    requires IsSigned(opt, base, all)
    ensures forall rr | rr in base :: rr in all
  {
    assert all == base + all[|base|..];
  }

  /** The chain check accepts every generated NSEC3 zone. */
  lemma NSEC3ZoneChainAccepted(opt: Options, rrs: seq<RR>, param: RData, names: seq<Name>, out: seq<RR>, all: seq<RR>,
          v: StoreView)
    requires IsNSEC3Zone(opt, rrs, param, names, out, all) && LoadedFrom(v, opt.origin, all)
    ensures Param(v).Some? && Param(v).value.data == param
    ensures NSEC3ChainKeys(v, Param(v).value) == {}
  {
    hide IsNSEC3Chain, GoodHash, IsSigned, IsNSEC3Owner, RecordsOf, NodesOk, InZone, Closed;
    ZoneNSEC3s(opt, rrs, param, names, out, all);
    ChainIndex(opt, rrs, names, out, RecordsOf(v), v.nsec3);
    ChainIsClosed(opt, rrs, names, out, v.nsec3);
    ZoneParam(opt, rrs, param, out, all, v);
    NothingBroken(v.nsec3);
  }

  lemma ZoneParam(opt: Options, rrs: seq<RR>, param: RData, out: seq<RR>, all: seq<RR>, v: StoreView)
    requires GoodParam(opt, rrs, param) && IsSigned(opt, rrs + out, all) && LoadedFrom(v, opt.origin, all)
    requires forall rr | rr in out :: rr.Type() == NSEC3
    ensures Param(v).Some? && Param(v).value.data == param
  {
    hide RecordsOf, IsSigned;
    var rr :| rr in rrs && rr.Type() == NSEC3PARAM;
    var base := rrs + out;
    SignedPrefix(opt, base, all);
    assert rr in base && rr in Elems(all);
    RecordsAreStored(v);
    assert Stored(v, rr);
    var set_ := SetsAt(v, opt.origin)[NSEC3PARAM];
    assert NodeOk(v.origin, opt.origin, v.nodes[opt.origin]);
    var first := set_.rdata[0];
    assert first in set_.rdata && Stored(v, first) && first in Elems(all);
    SignatureOrBase(opt, base, all, first);
    assert Unpack(set_)[0] == UnpackOne(set_.ttl, first);
  }

  lemma SignatureOrBase(opt: Options, base: seq<RR>, all: seq<RR>, rr: RR)
    requires IsSigned(opt, base, all) && rr in all
    ensures rr in base || rr.Type() == RRSIG
  {
    hide SigsFor, AnySigned, NamesOf;
    assert all == base + all[|base|..];
    if rr !in base { SignatureIs(opt, base, all, rr); }
  }

  /** At a name that is authoritative and not an insecure delegation something is signed. */
  lemma SomethingSigned(opt: Options, rrs: seq<RR>, out: seq<RR>, n: Name)
    requires InZone(opt.origin, rrs) && n in NamesOf(rrs) && (forall rr | rr in out :: rr.Type() != NS)
    requires n == opt.origin || !UnderCut(CutsOf(rrs), opt.origin, n)
    requires n == opt.origin || NS !in TypesAt(rrs, n) || DS in TypesAt(rrs, n)
    ensures AnySigned(opt.origin, rrs + out, n)
  {
    hide CutsOf;
    SameCuts(rrs, out);
    TypesConcat(rrs, out, n);
    var rr :| rr in rrs && rr.name == n;
    var t := if n != opt.origin && NS in TypesAt(rrs, n) then DS else rr.Type();
    assert t in TypesAt(rrs, n);
    assert ShouldSign(opt.origin, rrs + out, n, t);
  }

  /** The types of a hashed name after signing are those its NSEC3 lists. */
  lemma HashedTypes(opt: Options, rrs: seq<RR>, param: RData, out: seq<RR>, all: seq<RR>, n: Name)
    requires InZone(opt.origin, rrs) && GoodParam(opt, rrs, param) && IsSigned(opt, rrs + out, all)
    requires (forall rr | rr in out :: rr.Type() == NSEC3) && n in NamesOf(rrs)
    requires n == opt.origin || !UnderCut(CutsOf(rrs), opt.origin, n)
    requires n == opt.origin || NS !in TypesAt(rrs, n) || DS in TypesAt(rrs, n)
    ensures TypesAt(all, n) - {NSEC3} == NSEC3Types(opt, rrs, n)
  {
    hide CutsOf, AnySigned, UnderCut, IsSigned, Addable;
    SomethingSigned(opt, rrs, out, n);
    SignedTypes(opt, rrs + out, all, n);
    TypesConcat(rrs, out, n);
    assert TypesAt(out, n) <= {NSEC3};
    forall t | t in TypesAt(rrs, n) ensures t != NSEC3 && (t == NSEC3PARAM ==> n == opt.origin) {
      var rr :| rr in rrs && rr.name == n && rr.Type() == t;
    }
  }

  /** The presence check accepts every name of a generated NSEC3 zone: glue, secure and insecure delegations, with and
      without opt-out. */
  lemma NSEC3ZonePresenceAccepted(env: Env, opt: Options, rrs: seq<RR>, param: RData, names: seq<Name>, out: seq<RR>,
                                  all: seq<RR>, v: StoreView, n: Name)
    requires IsNSEC3Zone(opt, rrs, param, names, out, all) && LoadedFrom(v, opt.origin, all) && n in v.nodes
    requires forall rr: RR | rr.data == param :: env.hash(n, rr) == opt.hash(n)
    ensures Param(v).Some? && NSEC3Code(env, v, Param(v).value, n) == None
  {
    hide IsNSEC3Chain, GoodHash, IsSigned, IsNSEC3Owner, RecordsOf, NodesOk, InZone, GoodParam, LoadedFrom,
         Authoritative, Param, ExpectedTypes, NSEC3Types, TypesAt, NamesOf, CutsOf;
    NSEC3ZoneChainAccepted(opt, rrs, param, names, out, all, v);
    ZoneNSEC3s(opt, rrs, param, names, out, all);
    LoadedNodes(v, opt.origin, all, n);
    LoadedOrigin(v, opt.origin, all);
    if !IsNSEC3Owner(n, v.origin) && NeedsNSEC3(v, n) {
      NeededIsHashed(opt, rrs, param, names, out, all, v, n);
      HashedTypes(opt, rrs, param, out, all, n);
      EntryOfHashed(opt, rrs, param, names, out, all, v, n);
      ExpectedIs(v.nodes[n]);
    }
  }

  lemma ExpectedIs(node: NodeView)
    ensures ExpectedTypes(node, true) == node.sets.Keys - {NSEC3}
  {
  }

  lemma EntryOfHashed(opt: Options, rrs: seq<RR>, param: RData, names: seq<Name>, out: seq<RR>, all: seq<RR>,
          v: StoreView, n: Name)
    requires IsNSEC3Zone(opt, rrs, param, names, out, all) && LoadedFrom(v, opt.origin, all) && IsHashed(opt, rrs, n)
    ensures opt.hash(n) in v.nsec3 && Elements(v.nsec3[opt.hash(n)].bitmap) == NSEC3Types(opt, rrs, n)
  {
    hide GoodHash, IsSigned, IsNSEC3Owner, RecordsOf, NodesOk, InZone, GoodParam, NSEC3Types, IsHashed;
    ZoneNSEC3s(opt, rrs, param, names, out, all);
    ChainIndex(opt, rrs, names, out, RecordsOf(v), v.nsec3);
    assert n in names;
    var i :| 0 <= i < |names| && names[i] == n;
  }

  /** A name the presence check asks about is one the generator hashed. */
  lemma NeededIsHashed(opt: Options, rrs: seq<RR>, param: RData, names: seq<Name>, out: seq<RR>, all: seq<RR>,
          v: StoreView, n: Name)
    requires IsNSEC3Zone(opt, rrs, param, names, out, all) && LoadedFrom(v, opt.origin, all)
    requires n in v.nodes && !IsNSEC3Owner(n, v.origin) && NeedsNSEC3(v, n)
    ensures n in NamesOf(rrs) && IsHashed(opt, rrs, n)
    ensures n == opt.origin || !UnderCut(CutsOf(rrs), opt.origin, n)
    ensures n == opt.origin || NS !in TypesAt(rrs, n) || DS in TypesAt(rrs, n)
  {
    hide IsNSEC3Chain, GoodHash, GoodParam, IsSigned, IsNSEC3Owner, LoadedFrom, Authoritative, UnderCut;
    var base := rrs + out;
    ZoneNSEC3s(opt, rrs, param, names, out, all);
    LoadedOrigin(v, opt.origin, all);
    LoadedNodes(v, opt.origin, all, n);
    SignedTypes(opt, base, all, n);
    TypesConcat(rrs, out, n);
    assert n in NamesOf(rrs);
    CutsAfterSigning(opt, rrs, out, all);
    LoadedAuthority(v, opt.origin, all, rrs, n);
    OriginIsUncut(rrs, opt.origin);
    assert TypesAt(out, n) <= {NSEC3};
  }

  lemma CutsAfterSigning(opt: Options, rrs: seq<RR>, out: seq<RR>, all: seq<RR>)
    requires IsSigned(opt, rrs + out, all) && forall rr | rr in out :: rr.Type() != NS
    ensures CutsOf(all) == CutsOf(rrs)
  {
    hide IsSigned, AnySigned, TypesAt, NamesOf;
    SameCuts(rrs, out);
    forall n ensures n in CutsOf(all) <==> n in CutsOf(rrs + out) {
      SignedTypes(opt, rrs + out, all, n);
      CutIs(all, n);
      CutIs(rrs + out, n);
    }
  }

  lemma NSEC3ZoneLoads(opt: Options, rrs: seq<RR>, param: RData, names: seq<Name>, out: seq<RR>, all: seq<RR>)
    requires IsNSEC3Zone(opt, rrs, param, names, out, all)
    ensures var s := Steps(EmptyStore(opt.origin), Changes(all, []));
            s.1 && LoadedFrom(s.0, opt.origin, all) && AllFiled(s.0) && AllBacked(s.0)
  {
    hide IsNSEC3Chain, GoodHash, GoodParam, IsSigned, InZone, NSEC3sAre, LoadedFrom, Steps, Addable, AllFiled,
         AllBacked;
    ZoneNSEC3s(opt, rrs, param, names, out, all);
    ChainNoClash(opt, rrs, names, out, Elems(all));
    FilledStore(opt.origin, all);
  }

  // ---------------------------------------------------------------------------
  // NSEC
  // ---------------------------------------------------------------------------

  /** A generated NSEC zone: records, their chain, and everything signed. */
  ghost predicate IsNSECZone(opt: Options, rrs: seq<RR>, names: seq<Name>, out: seq<RR>, all: seq<RR>) {
    && InZone(opt.origin, rrs) && (forall rr | rr in rrs :: rr.Type() != NSEC3PARAM)
    && IsNSECChain(opt, rrs, names, out) && IsSigned(opt, rrs + out, all)
  }

  lemma NSECsAre(opt: Options, rrs: seq<RR>, names: seq<Name>, out: seq<RR>, rr: RR) returns (i: nat)
    requires IsNSECChain(opt, rrs, names, out) && rr in out
    ensures i < |names| == |out| && out[i] == rr && rr.name == names[i] && rr.Type() == NSEC && Addable(rr)
    ensures rr.data.NSECData? && rr.data.nextName == names[Seqs.After(i, |names|)]
    ensures Elements(rr.data.bitmap) == TypesAt(rrs, names[i]) + {NSEC, RRSIG}
  {
    hide SortedNames, InChain, TypesAt, Elements;
    i :| 0 <= i < |out| && out[i] == rr;
  }

  lemma ZoneNSECs(opt: Options, rrs: seq<RR>, names: seq<Name>, out: seq<RR>, all: seq<RR>)
    requires IsNSECZone(opt, rrs, names, out, all)
    ensures (forall rr | rr in out :: rr.Type() == NSEC) &&
            (forall rr | rr in all :: Addable(rr) && !rr.data.NSEC3Data?)
    ensures forall rr | rr in all && rr.Type() == NSEC :: rr in out
    ensures forall rr | rr in out :: rr in all
  {
    hide IsNSECChain, IsSigned, Addable, TypesAt, Elements;
    forall rr | rr in out ensures rr.Type() == NSEC && Addable(rr) { var i := NSECsAre(opt, rrs, names, out, rr); }
    var base := rrs + out;
    assert forall rr :: rr in base <==> rr in rrs || rr in out;
    SignaturesAddable(opt, base, all);
    SignedPrefix(opt, base, all);
    forall rr | rr in all ensures Addable(rr) && !rr.data.NSEC3Data? && (rr.Type() == NSEC ==> rr in out) {
      SignatureOrBase(opt, base, all, rr);
      if rr in rrs { assert rr.Type() != NSEC3 && rr.Type() != NSEC; }
    }
  }

  lemma NSECZoneLoads(opt: Options, rrs: seq<RR>, names: seq<Name>, out: seq<RR>, all: seq<RR>)
    requires IsNSECZone(opt, rrs, names, out, all)
    ensures var s := Steps(EmptyStore(opt.origin), Changes(all, []));
            s.1 && LoadedFrom(s.0, opt.origin, all) && AllFiled(s.0) && AllBacked(s.0)
  {
    hide IsNSECChain, IsSigned, InZone, LoadedFrom, Steps, Addable, AllFiled, AllBacked;
    ZoneNSECs(opt, rrs, names, out, all);
    FilledStore(opt.origin, all);
  }

  /** Every name of the chain gets an NSEC, and the signature over it. */
  lemma ChainNameTypes(opt: Options, rrs: seq<RR>, names: seq<Name>, out: seq<RR>, all: seq<RR>, n: Name)
    requires IsNSECZone(opt, rrs, names, out, all) && n in names
    ensures TypesAt(all, n) == TypesAt(rrs, n) + {NSEC, RRSIG} && n in NamesOf(all)
  {
    hide IsSigned, CutsOf, Elements, TypesAt, InChain, SortedNames, AnySigned;
    var base := rrs + out;
    ZoneNSECs(opt, rrs, names, out, all);
    var i :| 0 <= i < |names| && names[i] == n;
    assert out[i] in out && out[i].name == n;
    OnlyNSEC(out, n, out[i]);
    SignedTypes(opt, base, all, n);
    TypesConcat(rrs, out, n);
    NSECIsSigned(opt.origin, base, n);
  }

  lemma OnlyNSEC(out: seq<RR>, n: Name, rr: RR)
    requires (forall x | x in out :: x.Type() == NSEC) && rr in out && rr.name == n
    ensures TypesAt(out, n) == {NSEC} && n in NamesOf(out)
  {
  }

  lemma NSECIsSigned(origin: Name, base: seq<RR>, n: Name)
    requires NSEC in TypesAt(base, n)
    ensures AnySigned(origin, base, n)
  {
    hide TypesAt, CutsOf;
    assert ShouldSign(origin, base, n, NSEC);
  }

  lemma ZoneNames(opt: Options, rrs: seq<RR>, names: seq<Name>, out: seq<RR>, all: seq<RR>, n: Name)
    requires IsNSECZone(opt, rrs, names, out, all)
    ensures n in NamesOf(all) <==> n in names
  {
    hide IsSigned, CutsOf, Elements, TypesAt, SortedNames, AnySigned;
    SignedTypes(opt, rrs + out, all, n);
    TypesConcat(rrs, out, n);
    if n in NamesOf(out) {
      var rr :| rr in out && rr.name == n;
      var i := NSECsAre(opt, rrs, names, out, rr);
    }
    if n in names {
      var i :| 0 <= i < |names| && names[i] == n;
      assert out[i] in out && out[i].name == n;
    }
  }

  /** The NSEC the checker reads at a name is the generated one. */
  lemma ReadsGenerated(opt: Options, rrs: seq<RR>, names: seq<Name>, out: seq<RR>, all: seq<RR>, v: StoreView, i: nat)
    requires IsNSECZone(opt, rrs, names, out, all) && LoadedFrom(v, opt.origin, all) && i < |names|
    ensures names[i] in v.nodes && NSEC in v.nodes[names[i]].sets && v.nodes[names[i]].sets[NSEC].rdata != []
    ensures var first := Unpack(v.nodes[names[i]].sets[NSEC])[0];
            && first.data.NSECData? && first.data.nextName == names[Seqs.After(i, |names|)]
            && Elements(first.data.bitmap) == TypesAt(rrs, names[i]) + {NSEC, RRSIG}
  {
    hide IsSigned, Elements, TypesAt, RecordsOf, NamesOf, IsNSECChain;
    var n := names[i];
    assert n in names;
    ZoneNames(opt, rrs, names, out, all, n);
    ChainNameTypes(opt, rrs, names, out, all, n);
    LoadedNodes(v, opt.origin, all, n);
    ZoneNSECs(opt, rrs, names, out, all);
    var set_ := v.nodes[n].sets[NSEC];
    assert NodeOk(v.origin, n, v.nodes[n]);
    var rr := set_.rdata[0];
    assert rr in set_.rdata;
    RecordsAreStored(v);
    assert Stored(v, rr) && rr in Elems(all);
    var j := NSECsAre(opt, rrs, names, out, rr);
    ChainNamesDiffer(opt, rrs, names, out, i, j);
    assert Unpack(set_)[0] == UnpackOne(set_.ttl, rr);
  }

  lemma ChainNamesDiffer(opt: Options, rrs: seq<RR>, names: seq<Name>, out: seq<RR>, i: nat, j: nat)
    requires IsNSECChain(opt, rrs, names, out) && i < |names| && j < |names| && names[i] == names[j]
    ensures i == j
  {
    hide Before, InChain;
    BeforeIsTotalOrder();
  }

  /** The chain check accepts every generated NSEC zone. */
  lemma NSECZoneChainAccepted(opt: Options, rrs: seq<RR>, names: seq<Name>, out: seq<RR>, all: seq<RR>, v: StoreView)
    requires IsNSECZone(opt, rrs, names, out, all) && LoadedFrom(v, opt.origin, all)
    ensures NSECChainKeys(v, NSECNames(v)) == {}
  {
    hide IsSigned, Elements, TypesAt, RecordsOf, NamesOf, InZone, LoadedFrom, IsNextName, Unpack;
    forall n ensures n in NSECNames(v) <==> n in names {
      LoadedNodes(v, opt.origin, all, n);
      ZoneNames(opt, rrs, names, out, all, n);
      if n in names { ChainNameTypes(opt, rrs, names, out, all, n); }
    }
    forall n | n in NSECNames(v) ensures !NSECBroken(v, n) {
      var i :| 0 <= i < |names| && names[i] == n;
      ReadsGenerated(opt, rrs, names, out, all, v, i);
      NextNameInSorted(NSECNames(v), names, i);
      Seqs.AfterIs(i, |names|);
    }
  }

  /** The presence check accepts every name of a generated NSEC zone, empty non-terminals and glue included. */
  lemma NSECZonePresenceAccepted(opt: Options, rrs: seq<RR>, names: seq<Name>, out: seq<RR>, all: seq<RR>, v: StoreView,
          n: Name)
    requires IsNSECZone(opt, rrs, names, out, all) && LoadedFrom(v, opt.origin, all) && n in v.nodes
    ensures NSECCode(v, n) == None && Param(v).None?
  {
    hide IsSigned, Elements, RecordsOf, InZone, LoadedFrom, Unpack, Authoritative, IsNSECChain, TypesAt;
    LoadedNodes(v, opt.origin, all, n);
    ZoneNames(opt, rrs, names, out, all, n);
    ChainNameTypes(opt, rrs, names, out, all, n);
    var i :| 0 <= i < |names| && names[i] == n;
    ReadsGenerated(opt, rrs, names, out, all, v, i);
    NoParam(opt, rrs, names, out, all, v);
  }

  lemma NoParam(opt: Options, rrs: seq<RR>, names: seq<Name>, out: seq<RR>, all: seq<RR>, v: StoreView)
    requires IsNSECZone(opt, rrs, names, out, all) && LoadedFrom(v, opt.origin, all)
    ensures Param(v).None?
  {
    hide IsSigned, Elements, RecordsOf, IsNSECChain, Unpack;
    LoadedNodes(v, opt.origin, all, opt.origin);
    if opt.origin in v.nodes && NSEC3PARAM in v.nodes[opt.origin].sets {
      var rr :| rr in all && rr.name == opt.origin && rr.Type() == NSEC3PARAM;
      SignatureOrBase(opt, rrs + out, all, rr);
      ZoneNSECs(opt, rrs, names, out, all);
      assert false;
    }
  }

  // ---------------------------------------------------------------------------
  // From generation to verdict
  // ---------------------------------------------------------------------------

  /** No denial finding anywhere: neither from the chain as a whole nor at any name. */
  ghost predicate DenialSilent(env: Env, v: StoreView) {
    ChainKeys(v) == {} && forall n | n in v.nodes :: DenialKeys(env, v, n) == {}
  }

  lemma NSEC3ZoneIsSilent(env: Env, opt: Options, rrs: seq<RR>, param: RData, names: seq<Name>, out: seq<RR>,
          all: seq<RR>, v: StoreView)
    requires IsNSEC3Zone(opt, rrs, param, names, out, all) && LoadedFrom(v, opt.origin, all)
    requires forall n, rr: RR | rr.data == param :: env.hash(n, rr) == opt.hash(n)
    ensures DenialSilent(env, v)
  {
    hide IsNSEC3Zone, LoadedFrom, Param, NSEC3Code;
    NSEC3ZoneChainAccepted(opt, rrs, param, names, out, all, v);
    forall n | n in v.nodes ensures DenialKeys(env, v, n) == {} {
      NSEC3ZonePresenceAccepted(env, opt, rrs, param, names, out, all, v, n);
    }
  }

  lemma NSECZoneIsSilent(env: Env, opt: Options, rrs: seq<RR>, names: seq<Name>, out: seq<RR>, all: seq<RR>,
          v: StoreView)
    requires IsNSECZone(opt, rrs, names, out, all) && LoadedFrom(v, opt.origin, all)
    ensures DenialSilent(env, v)
  {
    hide IsNSECZone, LoadedFrom, Param, NSECCode, NSECNames;
    NSECZoneChainAccepted(opt, rrs, names, out, all, v);
    NoParam(opt, rrs, names, out, all, v);
    forall n | n in v.nodes ensures DenialKeys(env, v, n) == {} {
      NSECZonePresenceAccepted(opt, rrs, names, out, all, v, n);
    }
  }

  /** Some RRset that should be signed cannot be. */
  ghost predicate SigningFails(opt: Options, rrs: seq<RR>) {
    exists n, t: nat :: ShouldSign(opt.origin, rrs, n, t) && opt.sign(SigningKey(opt, n, t), Group(rrs, n, t)).None?
  }

  /** Builds the NSEC3 chain, signs and loads. Only signing can fail; otherwise the store holds the zone with its chain
      and signatures, passes all denial checks and has an expiry entry for every signature. */
  method GenerateNSEC3Zone(ghost env: Env, opt: Options, rrs: seq<RR>, ghost param: RData)
    returns (st: Store?, ghost names: seq<Name>, ghost out: seq<RR>, ghost all: seq<RR>)
    requires opt.origin != [] && InZone(opt.origin, rrs) && GoodHash(opt, rrs) && GoodParam(opt, rrs, param)
    requires forall n, rr: RR | rr.data == param :: env.hash(n, rr) == opt.hash(n)
    ensures st != null ==> st.Valid() && IsNSEC3Zone(opt, rrs, param, names, out, all)
    ensures st != null ==> LoadedFrom(st.state, opt.origin, all) && AllFiled(st.state) && AllBacked(st.state)
    ensures st != null ==> DenialSilent(env, st.state)
    ensures st == null ==> IsNSEC3Chain(opt, rrs, names, out) && SigningFails(opt, rrs + out)
  {
    hide InZone, GoodHash, GoodParam, IsNSEC3Chain, IsSigned, DenialSilent, Steps, Store.Valid, LoadedFrom, AllFiled,
         AllBacked, ShouldSign, NoHashClash;
    var chain := BuildNSEC3(opt, rrs);
    out, all := chain, [];
    names :| IsNSEC3Chain(opt, rrs, names, out);
    var signed := SignZone(opt, rrs + chain);
    if signed.None? {
      return null, names, out, all;
    }
    all := signed.value;
    NSEC3ZoneLoads(opt, rrs, param, names, out, all);
    var err;
    st, err := FromAXFR(opt.origin, signed.value);
    NSEC3ZoneIsSilent(env, opt, rrs, param, names, out, all, st.state);
  }

  /** The same for NSEC. */
  method GenerateNSECZone(ghost env: Env, opt: Options, rrs: seq<RR>)
    returns (st: Store?, ghost names: seq<Name>, ghost out: seq<RR>, ghost all: seq<RR>)
    requires InZone(opt.origin, rrs) && forall rr | rr in rrs :: rr.Type() != NSEC3PARAM
    ensures st != null ==> st.Valid() && IsNSECZone(opt, rrs, names, out, all)
    ensures st != null ==> LoadedFrom(st.state, opt.origin, all) && AllFiled(st.state) && AllBacked(st.state)
    ensures st != null ==> DenialSilent(env, st.state)
    ensures st == null ==> IsNSECChain(opt, rrs, names, out) && SigningFails(opt, rrs + out)
  {
    hide InZone, IsNSECChain, IsSigned, DenialSilent, Steps, Store.Valid, LoadedFrom, AllFiled, AllBacked, ShouldSign,
         NoHashClash;
    var chain := BuildNSEC(opt, rrs);
    out, all := chain, [];
    names :| IsNSECChain(opt, rrs, names, out);
    var signed := SignZone(opt, rrs + chain);
    if signed.None? {
      return null, names, out, all;
    }
    all := signed.value;
    NSECZoneLoads(opt, rrs, names, out, all);
    var err;
    st, err := FromAXFR(opt.origin, signed.value);
    NSECZoneIsSilent(env, opt, rrs, names, out, all, st.state);
  }
}

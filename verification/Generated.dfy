/** What the generator makes of a list of records, in terms of these records. */
module Generated {
  import opened Bytes
  import opened Names
  import opened Records
  import opened Verify
  import opened Generate
  import CleanZone
  import Base32
  import Seqs

  // ---------------------------------------------------------------------------
  // The names of a chain
  // ---------------------------------------------------------------------------

  ghost predicate HasType(rrs: seq<RR>, n: Name, t: nat) {
    exists rr | rr in rrs :: rr.name == n && rr.Type() == t
  }

  /** On the way from a name up to the origin, that is. */
  predicate OnTheWay(m: Name, origin: Name, n: Name) {
    m != origin && exists k | 1 <= k < |m| :: n == m[k..] && forall j | 1 <= j <= k :: m[j..] != origin
  }

  /** An owner, or a name between an owner and the origin. */
  ghost predicate Exists(rrs: seq<RR>, origin: Name, n: Name) {
    exists rr | rr in rrs :: rr.name == n || OnTheWay(rr.name, origin, n)
  }

  /** Some name on the way up to the origin has a delegation. */
  ghost predicate UnderNS(rrs: seq<RR>, origin: Name, n: Name) {
    exists k | 1 <= k < |n| :: HasType(rrs, n[k..], NS) && forall j | 1 <= j <= k :: n[j..] != origin
  }

  lemma {:induction false} UpwardsMeans(p: Name, origin: Name, n: Name)
    ensures n in Upwards(p, origin) <==>
            exists k | 0 <= k < |p| :: n == p[k..] && forall j | 0 <= j <= k :: p[j..] != origin
    decreases |p|
  {
    if p != [] && p != origin {
      var q := Parent(p);
      UpwardsMeans(q, origin, n);
      assert p[0..] == p && forall j | 1 <= j < |p| :: p[j..] == q[j - 1..];
      if k :| 0 <= k < |q| && n == q[k..] && forall j | 0 <= j <= k :: q[j..] != origin {
        forall j | 0 <= j <= k + 1 ensures p[j..] != origin { assert j > 0 ==> p[j..] == q[j - 1..]; }
        assert n == p[k + 1..];
      }
      if k :| 0 <= k < |p| && n == p[k..] && forall j | 0 <= j <= k :: p[j..] != origin {
        if k > 0 {
          forall j | 0 <= j <= k - 1 ensures q[j..] != origin { assert q[j..] == p[j + 1..]; }
          assert n == q[k - 1..];
        }
      }
    } else if p == origin {
      assert p[0..] == origin;
    }
  }

  lemma AboveMeans(m: Name, origin: Name, n: Name)
    ensures n in Above(m, origin) <==> OnTheWay(m, origin, n)
  {
    var p := Parent(m);
    UpwardsMeans(p, origin, n);
    assert forall j | 1 <= j < |m| :: m[j..] == p[j - 1..];
    if m != origin {
      if k :| 0 <= k < |p| && n == p[k..] && forall j | 0 <= j <= k :: p[j..] != origin {
        forall j | 1 <= j <= k + 1 ensures m[j..] != origin { assert m[j..] == p[j - 1..]; }
        assert n == m[k + 1..];
      }
      if k :| 1 <= k < |m| && n == m[k..] && forall j | 1 <= j <= k :: m[j..] != origin {
        forall j | 0 <= j <= k - 1 ensures p[j..] != origin { assert p[j..] == m[j + 1..]; }
        assert n == p[k - 1..];
      }
    }
  }

  /** The chain has a record for every owner and for every empty name in between, and for no other. */
  lemma ChainNamesMean(rrs: seq<RR>, origin: Name, n: Name)
    ensures InChain(rrs, origin, n) <==> Exists(rrs, origin, n)
  {
    hide Above, OnTheWay;
    forall rr | rr in rrs ensures n in Above(rr.name, origin) <==> OnTheWay(rr.name, origin, n) {
      AboveMeans(rr.name, origin, n);
    }
    forall m ensures n in Above(m, origin) <==> OnTheWay(m, origin, n) { AboveMeans(m, origin, n); }
  }

  lemma TypesAtMean(rrs: seq<RR>, n: Name, t: nat)
    ensures t in TypesAt(rrs, n) <==> HasType(rrs, n, t)
    ensures n in CutsOf(rrs) <==> HasType(rrs, n, NS)
  {
  }

  lemma UnderNSMeans(rrs: seq<RR>, origin: Name, n: Name)
    ensures UnderCut(CutsOf(rrs), origin, n) <==> UnderNS(rrs, origin, n)
  {
    hide HasType, CutsOf;
    CleanZone.CutAbove(CutsOf(rrs), origin, n);
    forall m ensures m in CutsOf(rrs) <==> HasType(rrs, m, NS) { TypesAtMean(rrs, m, NS); }
  }

  /** Under an opt-out an insecure delegation is left out of the NSEC3 chain; names below delegations always are. */
  lemma HashedNamesMean(opt: Options, rrs: seq<RR>, n: Name)
    ensures IsHashed(opt, rrs, n) <==>
            && Exists(rrs, opt.origin, n) && !UnderNS(rrs, opt.origin, n)
            && !(opt.optOut && n != opt.origin && HasType(rrs, n, NS) && !HasType(rrs, n, DS))
  {
    hide InChain, Exists, UnderNS, UnderCut, CutsOf, TypesAt, HasType;
    ChainNamesMean(rrs, opt.origin, n);
    UnderNSMeans(rrs, opt.origin, n);
    TypesAtMean(rrs, n, NS);
    TypesAtMean(rrs, n, DS);
  }

  // ---------------------------------------------------------------------------
  // The records of a chain
  // ---------------------------------------------------------------------------

  /** The NSEC3 of a name: under its hashed label, with the parameters asked for and the types a resolver is told. */
  ghost predicate IsNSEC3Of(opt: Options, rrs: seq<RR>, n: Name, rr: RR) {
    && rr.name == [Base32.Encoded(opt.hash(n))] + opt.origin && rr.cls == 1 && rr.ttl == opt.ttl && rr.data.NSEC3Data?
    && rr.data.flags == (if opt.optOut then 1 else 0) && rr.data.iterations == opt.iterations
    && rr.data.salt == (if opt.salt == [] then [45] else opt.salt)
    && forall t: nat :: t in rr.data.bitmap <==>
         t == RRSIG || (HasType(rrs, n, t) && t != NSEC3 && (t == NSEC3PARAM ==> n == opt.origin))
  }

  lemma NSEC3Made(opt: Options, rrs: seq<RR>, rr: RR, n: Name, next: Bytes)
    requires IsNSEC3For(opt, rrs, rr, n, next)
    ensures IsNSEC3Of(opt, rrs, n, rr) && rr.data.nextDomain == Base32.ToUpper(next)
  {
    hide HasType, TypesAt, Base32.Encoded, Base32.ToUpper;
    forall t: nat ensures t in rr.data.bitmap <==>
        t == RRSIG || (HasType(rrs, n, t) && t != NSEC3 && (t == NSEC3PARAM ==> n == opt.origin))
    {
      TypesAtMean(rrs, n, t);
      assert t in rr.data.bitmap <==> t in Elements(rr.data.bitmap);
    }
  }

  /** The chain has the NSEC3 of every hashed name and nothing else, and each points at the hash of a hashed name. */
  lemma NSEC3ChainMeans(opt: Options, rrs: seq<RR>, names: seq<Name>, out: seq<RR>)
    requires IsNSEC3Chain(opt, rrs, names, out)
    ensures forall n | IsHashed(opt, rrs, n) :: exists rr | rr in out :: IsNSEC3Of(opt, rrs, n, rr)
    ensures forall rr | rr in out :: exists n | IsHashed(opt, rrs, n) :: IsNSEC3Of(opt, rrs, n, rr)
    ensures forall rr | rr in out :: rr.data.NSEC3Data? && exists m | IsHashed(opt, rrs, m) ::
              rr.data.nextDomain == Base32.ToUpper(Base32.Encoded(opt.hash(m)))
  {
    hide IsNSEC3For, IsNSEC3Of, IsHashed, Base32.Encoded, Base32.ToUpper, LabelsOrdered;
    forall n | IsHashed(opt, rrs, n) ensures exists rr | rr in out :: IsNSEC3Of(opt, rrs, n, rr) {
      var i :| 0 <= i < |names| && names[i] == n;
      NSEC3Made(opt, rrs, out[i], n, HashLabel(opt, names[Seqs.After(i, |names|)]));
      assert out[i] in out;
    }
    forall rr | rr in out
      ensures exists n | IsHashed(opt, rrs, n) :: IsNSEC3Of(opt, rrs, n, rr)
      ensures rr.data.NSEC3Data? && exists m | IsHashed(opt, rrs, m) ::
                rr.data.nextDomain == Base32.ToUpper(Base32.Encoded(opt.hash(m)))
    {
      var i :| 0 <= i < |out| && out[i] == rr;
      var m := names[Seqs.After(i, |names|)];
      NSEC3Made(opt, rrs, rr, names[i], HashLabel(opt, m));
      assert names[i] in names && m in names;
      IsNSEC3(opt, rrs, names[i], rr);
    }
  }

  lemma IsNSEC3(opt: Options, rrs: seq<RR>, n: Name, rr: RR)
    requires IsNSEC3Of(opt, rrs, n, rr)
    ensures rr.data.NSEC3Data?
  {
  }

  /** The NSEC of a name: its types, the NSEC itself and the signature over it. */
  ghost predicate IsNSECOf(opt: Options, rrs: seq<RR>, n: Name, rr: RR) {
    && rr.name == n && rr.cls == 1 && rr.ttl == opt.ttl && rr.data.NSECData?
    && forall t: nat :: t in rr.data.bitmap <==> t == NSEC || t == RRSIG || HasType(rrs, n, t)
  }

  lemma NSECMade(opt: Options, rrs: seq<RR>, rr: RR, n: Name, next: Name)
    requires IsNSECFor(opt, rrs, rr, n, next)
    ensures IsNSECOf(opt, rrs, n, rr) && rr.data.nextName == next
  {
    hide HasType, TypesAt;
    forall t: nat ensures t in rr.data.bitmap <==> t == NSEC || t == RRSIG || HasType(rrs, n, t) {
      TypesAtMean(rrs, n, t);
      assert t in rr.data.bitmap <==> t in Elements(rr.data.bitmap);
    }
  }

  ghost function AsSet(names: seq<Name>): set<Name> {
    set n | n in names
  }

  /** The chain has the NSEC of every existing name and nothing else, and each points at the next one in canonical
      order, the last one at the first. */
  lemma NSECChainMeans(opt: Options, rrs: seq<RR>, names: seq<Name>, out: seq<RR>)
    requires IsNSECChain(opt, rrs, names, out)
    ensures forall n :: n in names <==> Exists(rrs, opt.origin, n)
    ensures forall n | n in names :: exists rr | rr in out :: IsNSECOf(opt, rrs, n, rr)
    ensures forall rr | rr in out :: rr.name in names && IsNSECOf(opt, rrs, rr.name, rr) &&
              IsNextName(AsSet(names), rr.name, rr.data.nextName)
  {
    hide IsNSECFor, IsNSECOf, InChain, Exists, IsNextName, SortedNames;
    forall n ensures n in names <==> Exists(rrs, opt.origin, n) { ChainNamesMean(rrs, opt.origin, n); }
    forall n | n in names ensures exists rr | rr in out :: IsNSECOf(opt, rrs, n, rr) {
      var i :| 0 <= i < |names| && names[i] == n;
      NSECMade(opt, rrs, out[i], n, names[Seqs.After(i, |names|)]);
      assert out[i] in out;
    }
    forall rr | rr in out
      ensures rr.name in names && IsNSECOf(opt, rrs, rr.name, rr)
      ensures rr.data.NSECData? && IsNextName(AsSet(names), rr.name, rr.data.nextName)
    {
      var i :| 0 <= i < |out| && out[i] == rr;
      NSECMade(opt, rrs, rr, names[i], names[Seqs.After(i, |names|)]);
      IsNSEC(opt, rrs, names[i], rr);
      NextNameInSorted(AsSet(names), names, i);
      AfterIs(i, |names|);
    }
  }

  lemma AfterIs(i: nat, n: nat)
    requires i < n
    ensures Seqs.After(i, n) == (i + 1) % n
  {
  }

  lemma IsNSEC(opt: Options, rrs: seq<RR>, n: Name, rr: RR)
    requires IsNSECOf(opt, rrs, n, rr)
    ensures rr.data.NSECData? && rr.name == n
  {
  }

  // ---------------------------------------------------------------------------
  // The signatures
  // ---------------------------------------------------------------------------

  /** Every RRset gets a signature but signatures themselves, delegations, and addresses below a delegation. */
  ghost predicate GetsSignature(opt: Options, rrs: seq<RR>, n: Name, t: nat) {
    && HasType(rrs, n, t) && t != RRSIG && !(t == NS && n != opt.origin)
    && !((t == A || t == AAAA) && n != opt.origin && UnderNS(rrs, opt.origin, n))
  }

  /** A signature by the key-signing key over the keys, by the zone-signing key over everything else. */
  ghost predicate SignsRRset(opt: Options, rrs: seq<RR>, rr: RR) {
    && rr.data.RRSIGData? && rr.cls == 1
    && var s, key := rr.data.sig, if rr.name == opt.origin && rr.data.sig.covered == DNSKEY then opt.ksk else opt.zsk;
       && s.expiration == opt.expiration && s.inception == opt.inception && s.signer == key.name
       && (key.data.DNSKEYData? ==> s.keyTag == key.data.keyTag && s.algorithm == key.data.algorithm)
       && rr.ttl == s.origTtl && exists x | x in rrs :: x.name == rr.name && x.Type() == s.covered && x.ttl == s.origTtl
  }

  lemma SignsMeans(opt: Options, rrs: seq<RR>, n: Name, t: nat)
    ensures ShouldSign(opt.origin, rrs, n, t) <==> GetsSignature(opt, rrs, n, t)
  {
    hide HasType, TypesAt, UnderCut, CutsOf, UnderNS;
    TypesAtMean(rrs, n, t);
    UnderNSMeans(rrs, opt.origin, n);
  }

  lemma SignatureMeans(opt: Options, rrs: seq<RR>, n: Name, t: nat, rr: RR)
    requires IsSignature(opt, rrs, n, t, rr)
    ensures SignsRRset(opt, rrs, rr) && rr.name == n && rr.data.sig.covered == t
  {
    hide Group, TypesAt;
    GroupIs(rrs, n, t);
    assert Group(rrs, n, t)[0] in Group(rrs, n, t);
  }

  /** Signing appends such a signature for every RRset that gets one, and no other. */
  lemma SignedMeans(opt: Options, rrs: seq<RR>, out: seq<RR>)
    requires IsSigned(opt, rrs, out)
    ensures rrs <= out && forall rr | rr in out[|rrs|..] ::
              SignsRRset(opt, rrs, rr) && rr.data.RRSIGData? && GetsSignature(opt, rrs, rr.name, rr.data.sig.covered)
    ensures forall n, t: nat | GetsSignature(opt, rrs, n, t) ::
              exists rr | rr in out[|rrs|..] ::
                SignsRRset(opt, rrs, rr) && rr.data.RRSIGData? && rr.name == n && rr.data.sig.covered == t
  {
    hide ShouldSign, IsSignature, SignsRRset, GetsSignature, Pairs;
    SignedArePairs(opt.origin, rrs);
    forall rr | rr in out[|rrs|..]
      ensures SignsRRset(opt, rrs, rr) && rr.data.RRSIGData? && GetsSignature(opt, rrs, rr.name, rr.data.sig.covered)
    {
      var n, t: nat :| ShouldSign(opt.origin, rrs, n, t) && IsSignature(opt, rrs, n, t, rr);
      SignatureMeans(opt, rrs, n, t, rr);
      IsRRSIG(opt, rrs, rr);
      SignsMeans(opt, rrs, n, t);
    }
    forall n, t: nat | GetsSignature(opt, rrs, n, t)
      ensures exists rr | rr in out[|rrs|..] ::
                SignsRRset(opt, rrs, rr) && rr.data.RRSIGData? && rr.name == n && rr.data.sig.covered == t
    {
      SignsMeans(opt, rrs, n, t);
      var rr :| rr in out[|rrs|..] && IsSignature(opt, rrs, n, t, rr);
      SignatureMeans(opt, rrs, n, t, rr);
      IsRRSIG(opt, rrs, rr);
    }
  }

  lemma IsRRSIG(opt: Options, rrs: seq<RR>, rr: RR)
    requires SignsRRset(opt, rrs, rr)
    ensures rr.data.RRSIGData?
  {
  }
}

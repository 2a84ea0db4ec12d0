/** What a zone digest depends on: the bytes it hashes, and what two zones with the same bytes have in common. */
module DigestInput {
  import opened Bytes
  import opened Names
  import opened Records
  import opened StoreSpec
  import opened Findings
  import opened Xfr
  import opened PrimaryServer
  import opened Zonemd
  import opened Finalize
  import Seqs

  // ---------------------------------------------------------------------------
  // The hashed bytes
  // ---------------------------------------------------------------------------

  /** The records that count: all but the signatures over the digest. */
  ghost function Counted(recs: set<RR>): set<RR> {
    set rr | rr in recs && !(rr.data.RRSIGData? && rr.data.sig.covered == 63)
  }

  /** A record as it counts: under scheme 1 with zeros for a digest. */
  function Blank(scheme: nat, rr: RR): RR {
    match rr.data
    case ZONEMDData(serial, s, alg, digest) =>
      if scheme == 1 then rr.(data := ZONEMDData(serial, s, alg, seq(|digest|, _ => 0))) else rr
    case _ => rr
  }

  /** By canonical name, then type number, then text. */
  ghost predicate Precedes(d: Digester, a: RR, b: RR) {
    || (exists k: nat :: SplitsAt(a.name, b.name, k))
    || (a.name == b.name && a.Type() < b.Type())
    || (a.name == b.name && a.Type() == b.Type() && exists k: nat :: DiffersAt(d.text(a), d.text(b), k))
  }

  /** The records of a set in that order, each once. */
  ghost predicate Listed(d: Digester, s: seq<RR>, recs: set<RR>) {
    (forall rr :: rr in s <==> rr in recs) && forall i, j | 0 <= i < j < |s| :: Precedes(d, s[i], s[j])
  }

  function Joined(parts: seq<Bytes>): Bytes {
    if parts == [] then [] else parts[0] + Joined(parts[1..])
  }

  function WireForms(d: Digester, scheme: nat, s: seq<RR>): (w: seq<Bytes>)
    ensures |w| == |s| && forall i | 0 <= i < |s| :: w[i] == d.wire(Blank(scheme, s[i]))
  {
    seq(|s|, i requires 0 <= i < |s| => d.wire(Blank(scheme, s[i])))
  }

  lemma PrecedesMeans(d: Digester, a: RR, b: RR)
    ensures RRBefore(d, a, b) <==> Precedes(d, a, b)
  {
    hide Before, Less, SplitsAt, DiffersAt;
    BeforeMeans(a.name, b.name);
    LessMeans(d.text(a), d.text(b));
    BeforeIsTotalOrder();
  }

  lemma ListedMeans(d: Digester, s: seq<RR>, recs: set<RR>)
    ensures IsCanonical(d, s, recs) <==> Listed(d, s, recs)
  {
    hide RRBefore, Precedes;
    assert forall rr :: rr in s <==> rr in Elems(s);
    forall i, j | 0 <= i < j < |s| ensures RRBefore(d, s[i], s[j]) <==> Precedes(d, s[i], s[j]) {
      PrecedesMeans(d, s[i], s[j]);
    }
  }

  lemma {:induction false} JoinedSnoc(parts: seq<Bytes>, last: Bytes)
    ensures Joined(parts + [last]) == Joined(parts) + last
  {
    if parts == [] {
      assert parts + [last] == [last] && [last][1..] == [];
      Seqs.EmptyIsUnit(last);
    } else {
      assert (parts + [last])[1..] == parts[1..] + [last];
      JoinedSnoc(parts[1..], last);
      Seqs.Assoc(parts[0], Joined(parts[1..]), last);
    }
  }

  lemma {:induction false} FeedIsJoined(d: Digester, scheme: nat, s: seq<RR>)
    requires forall rr | rr in s :: !IsZoneSig(rr)
    ensures Feed(d, scheme, s) == Joined(WireForms(d, scheme, s))
  {
    if s != [] {
      var init, last := s[..|s| - 1], s[|s| - 1];
      FeedIsJoined(d, scheme, init);
      assert Placeholder(scheme, last) == Blank(scheme, last);
      assert WireForms(d, scheme, s) == WireForms(d, scheme, init) + [d.wire(Blank(scheme, last))];
      JoinedSnoc(WireForms(d, scheme, init), d.wire(Blank(scheme, last)));
    }
  }

  /** The digest is the hash of the wire forms, one after the other, of the records that count, in canonical order: with
      SHA-384 for algorithm 1 and with SHA-512 for algorithm 2. */
  lemma DigestMeans(d: Digester, recs: set<RR>, scheme: nat, alg: nat, digest: Bytes)
    requires Tells(d) && Supported(alg)
    ensures alg == 1 || alg == 2
    ensures DigestIs(d, recs, scheme, alg, digest) <==>
            exists s :: Listed(d, s, Counted(recs)) &&
              digest == if alg == 1 then d.sha384(Joined(WireForms(d, scheme, s)))
                        else d.sha512(Joined(WireForms(d, scheme, s)))
  {
    hide IsCanonical, Listed, Feed, Joined, WireForms, Tells;
    var s := CanonicalExists(d, recs);
    InputIs(d, recs, scheme, s);
    forall t | IsCanonical(d, t, recs) ensures t == s { CanonicalUnique(d, t, s, recs); }
    forall t | Listed(d, t, Counted(recs)) ensures t == WithoutSigs(s) {
      ListedMeans(d, t, Counted(recs));
      ListedMeans(d, WithoutSigs(s), Counted(recs));
      CanonicalUnique(d, t, WithoutSigs(s), Counted(recs));
    }
  }

  lemma InputIs(d: Digester, recs: set<RR>, scheme: nat, s: seq<RR>)
    requires IsCanonical(d, s, recs)
    ensures Listed(d, WithoutSigs(s), Counted(recs))
    ensures Feed(d, scheme, s) == Joined(WireForms(d, scheme, WithoutSigs(s)))
  {
    hide IsCanonical, Listed, Feed, Joined, WireForms;
    PlainCanonical(d, s, recs, scheme);
    assert Plain(recs) == Counted(recs);
    ListedMeans(d, WithoutSigs(s), Counted(recs));
    WithoutSigsMembers(s);
    FeedIsJoined(d, scheme, WithoutSigs(s));
  }

  // ---------------------------------------------------------------------------
  // Same bytes, same records
  // ---------------------------------------------------------------------------

  /** The wire form of one of these records is never empty and never the beginning of another one's. */
  ghost predicate SelfDelimiting(d: Digester, recs: set<RR>) {
    && (forall a | a in recs :: d.wire(a) != [])
    && (forall a, b | a in recs && b in recs && d.wire(a) <= d.wire(b) :: a == b)
  }

  ghost function Blanked(scheme: nat, recs: set<RR>): set<RR> {
    set rr | rr in recs :: Blank(scheme, rr)
  }

  function BlankedSeq(scheme: nat, s: seq<RR>): (t: seq<RR>)
    ensures |t| == |s| && forall i | 0 <= i < |s| :: t[i] == Blank(scheme, s[i])
  {
    seq(|s|, i requires 0 <= i < |s| => Blank(scheme, s[i]))
  }

  function Wires(d: Digester, s: seq<RR>): (w: seq<Bytes>)
    ensures |w| == |s| && forall i | 0 <= i < |s| :: w[i] == d.wire(s[i])
  {
    seq(|s|, i requires 0 <= i < |s| => d.wire(s[i]))
  }

  lemma BeginsWith(a: Bytes, x: Bytes, b: Bytes, y: Bytes)
    requires a + x == b + y
    ensures a <= b || b <= a
    ensures a == b ==> x == y
  {
    var w := a + x;
    if |a| <= |b| {
      assert b[..|a|] == w[..|a|] == a;
    } else {
      assert a[..|b|] == w[..|b|] == b;
    }
    assert w[|a|..] == x && w[|b|..] == y;
  }

  lemma FirstWire(d: Digester, s: seq<RR>)
    requires s != []
    ensures Joined(Wires(d, s)) == d.wire(s[0]) + Joined(Wires(d, s[1..]))
  {
    assert Wires(d, s)[1..] == Wires(d, s[1..]);
  }

  lemma {:induction false} SameBytesSameList(d: Digester, s: seq<RR>, t: seq<RR>, recs: set<RR>)
    requires SelfDelimiting(d, recs) && (forall rr | rr in s :: rr in recs) && forall rr | rr in t :: rr in recs
    requires Joined(Wires(d, s)) == Joined(Wires(d, t))
    ensures s == t
  {
    hide Joined, Wires;
    SomeBytes(d, s, recs);
    SomeBytes(d, t, recs);
    if s != [] && t != [] {
      FirstWire(d, s);
      FirstWire(d, t);
      assert s[0] in s && t[0] in t;
      BeginsWith(d.wire(s[0]), Joined(Wires(d, s[1..])), d.wire(t[0]), Joined(Wires(d, t[1..])));
      SameBytesSameList(d, s[1..], t[1..], recs);
      assert s == [s[0]] + s[1..] && t == [t[0]] + t[1..];
    }
  }

  lemma SomeBytes(d: Digester, s: seq<RR>, recs: set<RR>)
    requires SelfDelimiting(d, recs) && forall rr | rr in s :: rr in recs
    ensures Joined(Wires(d, s)) == [] <==> s == []
  {
    if s != [] { assert s[0] in s && Wires(d, s)[0] != []; }
  }

  /** Two record sets that feed the same bytes have the same records, but for signatures over the digest and, under
      scheme 1, for the digest in digest records. */
  lemma SameBytesSameRecords(d: Digester, scheme: nat, recs: set<RR>, recs': set<RR>, s: seq<RR>, s': seq<RR>)
    requires Listed(d, s, Counted(recs)) && Listed(d, s', Counted(recs'))
    requires SelfDelimiting(d, Blanked(scheme, Counted(recs)) + Blanked(scheme, Counted(recs')))
    requires Joined(WireForms(d, scheme, s)) == Joined(WireForms(d, scheme, s'))
    ensures Blanked(scheme, Counted(recs)) == Blanked(scheme, Counted(recs'))
  {
    hide Joined, Precedes, Blank, Counted;
    var t, t' := BlankedSeq(scheme, s), BlankedSeq(scheme, s');
    assert WireForms(d, scheme, s) == Wires(d, t) && WireForms(d, scheme, s') == Wires(d, t');
    BlankedMembers(scheme, s, Counted(recs));
    BlankedMembers(scheme, s', Counted(recs'));
    SameBytesSameList(d, t, t', Blanked(scheme, Counted(recs)) + Blanked(scheme, Counted(recs')));
  }

  lemma BlankedMembers(scheme: nat, s: seq<RR>, recs: set<RR>)
    requires forall rr :: rr in s <==> rr in recs
    ensures forall rr :: rr in BlankedSeq(scheme, s) <==> rr in Blanked(scheme, recs)
  {
    hide Blank;
    forall rr ensures rr in BlankedSeq(scheme, s) <==> rr in Blanked(scheme, recs) {
      if rr in BlankedSeq(scheme, s) {
        var i :| 0 <= i < |s| && Blank(scheme, s[i]) == rr;
        assert s[i] in s;
      }
      if x :| x in recs && Blank(scheme, x) == rr {
        var i :| 0 <= i < |s| && s[i] == x;
        assert BlankedSeq(scheme, s)[i] == rr;
      }
    }
  }

  /** A digest record fits two record sets only if they have the same records, but for what it does not cover. */
  lemma OneDigestOneZone(d: Digester, recs: set<RR>, recs': set<RR>, rr: RR)
    requires Tells(d) && Matches(d, recs, rr) && Matches(d, recs', rr)
    requires var a, b := Blanked(rr.data.scheme, Counted(recs)), Blanked(rr.data.scheme, Counted(recs'));
             SelfDelimiting(d, a + b) && (HashesApart(d, recs, recs', rr))
    ensures Blanked(rr.data.scheme, Counted(recs)) == Blanked(rr.data.scheme, Counted(recs'))
  {
    hide Listed, Tells, Joined, WireForms, SelfDelimiting, Blanked, Counted, DigestIs;
    var scheme, alg, digest := rr.data.scheme, rr.data.hashAlg, rr.data.digest;
    DigestMeans(d, recs, scheme, alg, digest);
    DigestMeans(d, recs', scheme, alg, digest);
    var s :| Listed(d, s, Counted(recs)) && digest == HashOf(d, alg, Joined(WireForms(d, scheme, s)));
    var s' :| Listed(d, s', Counted(recs')) && digest == HashOf(d, alg, Joined(WireForms(d, scheme, s')));
    SameBytesSameRecords(d, scheme, recs, recs', s, s');
  }

  /** The hash tells the bytes of these two record sets apart if they differ. */
  ghost predicate HashesApart(d: Digester, recs: set<RR>, recs': set<RR>, rr: RR)
    requires rr.data.ZONEMDData?
  {
    forall s, s' | Listed(d, s, Counted(recs)) && Listed(d, s', Counted(recs')) ::
      var x, y := Joined(WireForms(d, rr.data.scheme, s)), Joined(WireForms(d, rr.data.scheme, s'));
      HashOf(d, rr.data.hashAlg, x) == HashOf(d, rr.data.hashAlg, y) ==> x == y
  }

  /** The zone has this digest record and no other. */
  ghost predicate OneDigest(v: StoreView, rr: RR) {
    DigestRecords(v) == [rr] && rr.data.ZONEMDData? && forall x | x in UnpackedOf(v) && x.data.ZONEMDData? :: x == rr
  }

  /** A digest record that fits a zone fits another one exactly when the two have the same records, signatures over the
      digest aside: whatever else is changed, the digest check rejects. */
  lemma DigestDecides(d: Digester, v: StoreView, v': StoreView, rr: RR)
    requires Tells(d) && OneDigest(v, rr) && OneDigest(v', rr) && Matches(d, UnpackedOf(v), rr)
    requires var a, b := Counted(UnpackedOf(v)), Counted(UnpackedOf(v'));
             SelfDelimiting(d, Blanked(rr.data.scheme, a) + Blanked(rr.data.scheme, b))
    requires HashesApart(d, UnpackedOf(v), UnpackedOf(v'), rr)
    ensures DigestOk(d, v') <==> Counted(UnpackedOf(v)) == Counted(UnpackedOf(v'))
  {
    hide Tells, UnpackedOf, DigestIs, SelfDelimiting, Blank, HashesApart, Listed;
    var recs, recs' := UnpackedOf(v), UnpackedOf(v');
    assert DigestOk(d, v') <==> Matches(d, recs', rr);
    if Matches(d, recs', rr) {
      OneDigestOneZone(d, recs, recs', rr);
      BlankTells(rr.data.scheme, Counted(recs), Counted(recs'), rr);
    }
    if Counted(recs) == Counted(recs') {
      DigestMeans(d, recs, rr.data.scheme, rr.data.hashAlg, rr.data.digest);
      DigestMeans(d, recs', rr.data.scheme, rr.data.hashAlg, rr.data.digest);
    }
  }

  lemma BlankTells(scheme: nat, a: set<RR>, b: set<RR>, rr: RR)
    requires Blanked(scheme, a) == Blanked(scheme, b)
    requires forall x | x in a + b && x.data.ZONEMDData? :: x == rr
    ensures a == b
  {
    forall x | x in a ensures x in b { BlankedIn(scheme, a, b, rr, x); }
    forall x | x in b ensures x in a { BlankedIn(scheme, b, a, rr, x); }
  }

  lemma BlankedIn(scheme: nat, a: set<RR>, b: set<RR>, rr: RR, x: RR)
    requires Blanked(scheme, a) == Blanked(scheme, b) && x in a
    requires forall y | y in a + b && y.data.ZONEMDData? :: y == rr
    ensures x in b
  {
    assert Blank(scheme, x) in Blanked(scheme, a);
    var y :| y in b && Blank(scheme, y) == Blank(scheme, x);
    assert y.data.ZONEMDData? <==> x.data.ZONEMDData?;
  }

  // ---------------------------------------------------------------------------
  // The policy
  // ---------------------------------------------------------------------------

  /** What the digest check reports, policy by policy: nothing when it is off; a missing digest only when it is on; and
      otherwise a mismatch, when no digest record fits or one asks for an algorithm other than 1 and 2. */
  lemma PolicyMeans(d: Digester, v: StoreView, mode: Policy, c: Code, n: Name, t: nat)
    requires NodesOk(v) && v.origin in v.nodes
    ensures Key(c, n, t) in DigestKeys(d, v, mode) <==>
            && n == v.origin && t == 63 && mode != Off
            && var digests := set rr | rr in UnpackedOf(v) && rr.name == v.origin && rr.Type() == 63;
               if digests == {} then c == ZONEMD_MISSING && mode == On
               else c == ZONEMD_MISMATCH &&
                    ((forall rr | rr in digests :: !Matches(d, UnpackedOf(v), rr)) ||
                     exists rr | rr in digests :: rr.data.ZONEMDData? && rr.data.hashAlg != 1 && rr.data.hashAlg != 2)
  {
    hide UnpackedOf, NodesOk, Matches;
    var digests := set rr | rr in UnpackedOf(v) && rr.name == v.origin && rr.Type() == 63;
    forall rr ensures rr in digests <==> rr in DigestRecords(v) {
      ReadOwnDigest(v, rr);
    }
    assert digests == {} <==> DigestRecords(v) == [] by {
      if DigestRecords(v) != [] { assert DigestRecords(v)[0] in digests; }
    }
  }

  lemma ReadOwnDigest(v: StoreView, rr: RR)
    requires NodesOk(v)
    ensures rr in DigestRecords(v) <==> rr in UnpackedOf(v) && rr.name == v.origin && rr.Type() == 63
  {
    hide Unpack, UnpackedOf;
    ReadOwn(v, rr);
    DigestRecordsAre(v);
    if ZONEMD in SetsAt(v, v.origin) {
      assert NodeOk(v.origin, v.origin, v.nodes[v.origin]);
      ReadsOwnType(v.origin, v.nodes[v.origin].sets, ZONEMD);
    }
  }
}

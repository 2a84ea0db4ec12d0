/** Zone digests (RFC 8976, SIMPLE scheme): the digest as a function of the records, its check, and its insertion. */
module Zonemd {
  import opened Bytes
  import opened Names
  import opened Records
  import opened StoreSpec
  import opened Store
  import opened Findings
  import opened Signatures
  import opened Verify
  import opened Xfr
  import opened PrimaryServer
  import opened Generate
  import Seqs

  /** The foreign parts: text and wire form of a record, and the hash functions. */
  datatype Digester = Digester(text: RR -> Bytes, wire: RR -> Bytes, sha384: Bytes -> Bytes, sha512: Bytes -> Bytes)

  /** The text form tells records of one name and type apart. */
  ghost predicate Tells(d: Digester) {
    forall a: RR, b: RR | a.name == b.name && a.Type() == b.Type() && d.text(a) == d.text(b) :: a == b
  }

  /** Canonical record order: name, type, text. */
  predicate RRBefore(d: Digester, a: RR, b: RR) {
    if a.name != b.name then Before(a.name, b.name)
    else if a.Type() != b.Type() then a.Type() < b.Type()
    else Less(d.text(a), d.text(b))
  }

  function Order(d: Digester): (RR, RR) -> bool {
    (a, b) => RRBefore(d, a, b)
  }

  lemma RRBeforeTotal(d: Digester, a: RR, b: RR)
    requires Tells(d)
    ensures RRBefore(d, a, b) || RRBefore(d, b, a) || a == b
    ensures !(RRBefore(d, a, b) && RRBefore(d, b, a))
  {
    hide Before, Less;
    BeforeIsTotalOrder();
    LessIsTotalOrder();
    assert Before(a.name, b.name) && Before(b.name, a.name) ==> Before(a.name, a.name);
    assert Less(d.text(a), d.text(b)) && Less(d.text(b), d.text(a)) ==> Less(d.text(a), d.text(a));
  }

  lemma RRBeforeTransitive(d: Digester, a: RR, b: RR, c: RR)
    requires RRBefore(d, a, b) && RRBefore(d, b, c)
    ensures RRBefore(d, a, c)
  {
    hide Before, Less;
    BeforeIsTotalOrder();
    LessIsTotalOrder();
    assert Before(a.name, b.name) && Before(b.name, a.name) ==> Before(a.name, a.name);
  }

  lemma RRBeforeOrders(d: Digester)
    requires Tells(d)
    ensures Orders(Order(d))
  {
    hide RRBefore;
    forall x, y | Order(d)(x, y) ensures !Order(d)(y, x) { RRBeforeTotal(d, x, y); }
    forall x, y, z | !Order(d)(y, x) && !Order(d)(z, y) ensures !Order(d)(z, x) {
      RRBeforeTotal(d, x, y);
      RRBeforeTotal(d, y, z);
      RRBeforeTotal(d, x, z);
      if x != y && y != z { RRBeforeTransitive(d, x, y, z); }
    }
  }

  // ---------------------------------------------------------------------------
  // The canonical sequence of a record set
  // ---------------------------------------------------------------------------

  /** The records of a set in canonical order, each once. */
  ghost predicate IsCanonical(d: Digester, s: seq<RR>, recs: set<RR>) {
    Elems(s) == recs && forall i, j | 0 <= i < j < |s| :: RRBefore(d, s[i], s[j])
  }

  lemma CanonicalTail(d: Digester, s: seq<RR>, recs: set<RR>)
    requires Tells(d) && IsCanonical(d, s, recs) && s != []
    ensures IsCanonical(d, s[1..], recs - {s[0]}) && s[0] !in s[1..]
    ensures forall x | x in recs && x != s[0] :: RRBefore(d, s[0], x)
  {
    hide RRBefore;
    assert s == [s[0]] + s[1..];
    forall x | x in s[1..] ensures RRBefore(d, s[0], x) && x != s[0] {
      var j :| 0 <= j < |s| - 1 && s[1..][j] == x;
      assert RRBefore(d, s[0], s[j + 1]);
      RRBeforeTotal(d, s[0], x);
    }
    forall x ensures x in Elems(s[1..]) <==> x in recs - {s[0]} { assert x in s <==> x == s[0] || x in s[1..]; }
  }

  /** A record set has one canonical sequence, whatever order it was listed in. */
  lemma {:induction false} CanonicalUnique(d: Digester, s: seq<RR>, t: seq<RR>, recs: set<RR>)
    requires Tells(d) && IsCanonical(d, s, recs) && IsCanonical(d, t, recs)
    ensures s == t
  {
    hide RRBefore, IsCanonical, Tells;
    CanonicalElems(d, s, recs);
    CanonicalElems(d, t, recs);
    assert t != [] ==> t[0] in s;
    if s != [] {
      assert s[0] in t;
      CanonicalTail(d, s, recs);
      CanonicalTail(d, t, recs);
      RRBeforeTotal(d, s[0], t[0]);
      CanonicalUnique(d, s[1..], t[1..], recs - {s[0]});
      assert s == [s[0]] + s[1..] && t == [t[0]] + t[1..];
    }
  }

  lemma CanonicalElems(d: Digester, s: seq<RR>, recs: set<RR>)
    requires IsCanonical(d, s, recs)
    ensures forall x :: x in s <==> x in recs
  {
    assert forall x :: x in s <==> x in Elems(s);
  }

  lemma SortedIsCanonical(d: Digester, s: seq<RR>)
    requires Tells(d) && Ordered(s, Order(d)) && NoDuplicates(s)
    ensures IsCanonical(d, s, Elems(s))
  {
    hide RRBefore;
    forall i, j | 0 <= i < j < |s| ensures RRBefore(d, s[i], s[j]) {
      assert !Order(d)(s[j], s[i]);
      RRBeforeTotal(d, s[i], s[j]);
    }
  }

  // ---------------------------------------------------------------------------
  // The digest
  // ---------------------------------------------------------------------------

  /** A signature over the digest record itself is left out. */
  predicate IsZoneSig(rr: RR) {
    rr.data.RRSIGData? && rr.data.sig.covered == ZONEMD
  }

  /** Under the SIMPLE scheme digest records count with a zero digest. */
  function Placeholder(scheme: nat, rr: RR): RR {
    if rr.data.ZONEMDData? && scheme == 1
    then rr.(data := rr.data.(digest := seq(|rr.data.digest|, _ => 0)))
    else rr
  }

  function Contribution(d: Digester, scheme: nat, rr: RR): Bytes {
    if IsZoneSig(rr) then [] else d.wire(Placeholder(scheme, rr))
  }

  function Feed(d: Digester, scheme: nat, s: seq<RR>): Bytes {
    if s == [] then [] else Feed(d, scheme, s[..|s| - 1]) + Contribution(d, scheme, s[|s| - 1])
  }

  predicate Supported(alg: nat) {
    alg == 1 || alg == 2
  }

  function HashOf(d: Digester, alg: nat, data: Bytes): Bytes {
    if alg == 1 then d.sha384(data) else d.sha512(data)
  }

  /** The digest of a record set. */
  ghost predicate DigestIs(d: Digester, recs: set<RR>, scheme: nat, alg: nat, digest: Bytes) {
    exists s :: IsCanonical(d, s, recs) && digest == HashOf(d, alg, Feed(d, scheme, s))
  }

  /** It is a function of the record set. */
  lemma DigestUnique(d: Digester, recs: set<RR>, scheme: nat, alg: nat, a: Bytes, b: Bytes)
    requires Tells(d) && DigestIs(d, recs, scheme, alg, a) && DigestIs(d, recs, scheme, alg, b)
    ensures a == b
  {
    hide IsCanonical, Feed, HashOf, Tells;
    var s :| IsCanonical(d, s, recs) && a == HashOf(d, alg, Feed(d, scheme, s));
    var t :| IsCanonical(d, t, recs) && b == HashOf(d, alg, Feed(d, scheme, t));
    CanonicalUnique(d, s, t, recs);
  }

  /** Sorts the records in place and feeds them to the hash. */
  method ComputeZONEMD(d: Digester, st: Store, scheme: nat, alg: nat) returns (digest: Option<Bytes>)
    requires st.Valid() && Tells(d) && NoTwins(st.state)
    ensures digest.None? <==> !Supported(alg)
    ensures digest.Some? ==> DigestIs(d, UnpackedOf(st.state), scheme, alg, digest.value)
  {
    hide Store.Valid, NoTwins, UnpackedOf, NoDuplicates, IsCanonical, Ordered, Orders, HashOf, Tells;
    if !Supported(alg) {
      return None;
    }
    var rrs := AllRRs(st);
    var a := new RR[|rrs|](i requires 0 <= i < |rrs| => rrs[i]);
    assert a[..] == rrs;
    RRBeforeOrders(d);
    ExchangeSort(a, Order(d));
    PermutationFacts(rrs, a[..]);
    var sorted := a[..];
    SortedIsCanonical(d, sorted);
    assert Elems(sorted) == Elems(rrs);
    var data := FeedAll(d, scheme, sorted);
    digest := Some(HashOf(d, alg, data));
  }

  method FeedAll(d: Digester, scheme: nat, s: seq<RR>) returns (data: Bytes)
    ensures data == Feed(d, scheme, s)
  {
    data := [];
    var i := 0;
    while i < |s|
      invariant 0 <= i <= |s|
      invariant data == Feed(d, scheme, s[..i])
    {
      Seqs.Longer(s, i);
      if s[i].data.RRSIGData? && s[i].data.sig.covered == ZONEMD {
        Seqs.EmptyIsUnit(data);
        i := i + 1;
        continue;
      }
      data := data + d.wire(Placeholder(scheme, s[i]));
      i := i + 1;
    }
    assert s[..i] == s;
  }

  // ---------------------------------------------------------------------------
  // The check
  // ---------------------------------------------------------------------------

  datatype Policy = Off | On | Auto

  /** The digest records of the zone. */
  function DigestRecords(v: StoreView): seq<RR> {
    var sets := SetsAt(v, v.origin);
    if ZONEMD in sets then Unpack(sets[ZONEMD]) else []
  }

  ghost predicate Matches(d: Digester, recs: set<RR>, rr: RR) {
    && rr.data.ZONEMDData? && Supported(rr.data.hashAlg)
    && DigestIs(d, recs, rr.data.scheme, rr.data.hashAlg, rr.data.digest)
  }

  predicate Unsupported(rr: RR) {
    rr.data.ZONEMDData? && !Supported(rr.data.hashAlg)
  }

  predicate AnyUnsupported(rrs: seq<RR>) {
    exists rr | rr in rrs :: Unsupported(rr)
  }

  /** Some digest record fits the zone. */
  ghost predicate DigestOk(d: Digester, v: StoreView) {
    exists rr | rr in DigestRecords(v) :: Matches(d, UnpackedOf(v), rr)
  }

  /** What the digest check reports. */
  ghost function DigestKeys(d: Digester, v: StoreView, mode: Policy): set<Key> {
    if v.origin !in v.nodes then {}
    else if DigestRecords(v) == [] then if mode == On then {Key(ZONEMD_MISSING, v.origin, ZONEMD)} else {}
    else if mode == Off then {}
    else if !DigestOk(d, v) || AnyUnsupported(DigestRecords(v))
    then {Key(ZONEMD_MISMATCH, v.origin, ZONEMD)} else {}
  }

  method ReadDigestRecords(st: Store) returns (rrs: seq<RR>)
    requires st.Valid() && st.origin in st.nodes
    ensures rrs == DigestRecords(st.state)
  {
    hide Store.Valid, ToMap;
    AllNames(st);
    OneMoreNode(st, st.origin);
    KnownStore(st);
    var n := st.nodes[st.origin];
    var i := FindSet(n, ZONEMD);
    if i == |n.sets| {
      return [];
    }
    rrs := Unpack(n.sets[i]);
  }

  method VerifyZONEMD(env: Env, d: Digester, st: Store, mode: Policy, findings: Set) returns (checked: bool, ok: bool)
    requires st.Valid() && Tells(d) && NoTwins(st.state) && Reports(findings.byKey, findings.byKey.Keys)
    modifies findings
    ensures Reports(findings.byKey, old(findings.byKey.Keys) + DigestKeys(d, st.state, mode))
    ensures checked <==> st.state.origin in st.state.nodes && DigestRecords(st.state) != [] && mode != Off
    ensures checked ==> (ok <==> DigestOk(d, st.state))
  {
    hide Store.Valid, Tells, NoTwins, DigestRecords, DigestOk, AnyUnsupported;
    checked, ok := false, false;
    KnownStore(st);
    AllNames(st);
    if st.origin !in st.nodes {
      return;
    }
    var rrs := ReadDigestRecords(st);
    if |rrs| == 0 {
      if mode == On {
        Report(findings, env, ZONEMD_MISSING, st.origin, ZONEMD);
      }
      return;
    }
    if mode == Off {
      return;
    }
    checked := true;
    ok := CompareDigests(env, d, st, rrs, findings);
    if !ok {
      Report(findings, env, ZONEMD_MISMATCH, st.origin, ZONEMD);
    }
  }

  /** Computes the digest for every record; reports unsupported ones. */
  method CompareDigests(env: Env, d: Digester, st: Store, rrs: seq<RR>, findings: Set) returns (ok: bool)
    requires st.Valid() && Tells(d) && NoTwins(st.state) && Reports(findings.byKey, findings.byKey.Keys)
    requires rrs == DigestRecords(st.state)
    modifies findings
    ensures ok <==> DigestOk(d, st.state)
    ensures Reports(findings.byKey, old(findings.byKey.Keys) +
              if AnyUnsupported(rrs) then {Key(ZONEMD_MISMATCH, st.state.origin, ZONEMD)} else {})
  {
    hide Store.Valid, Tells, NoTwins, UnpackedOf, DigestIs, Matches, Unsupported, DigestRecords;
    ghost var recs := UnpackedOf(st.state);
    ok := false;
    var bad := false;
    var i := 0;
    KnownStore(st);
    ghost var before := findings.byKey.Keys;
    while i < |rrs|
      invariant 0 <= i <= |rrs|
      invariant ok <==> exists j | 0 <= j < i :: Matches(d, recs, rrs[j])
      invariant bad <==> exists j | 0 <= j < i :: Unsupported(rrs[j])
      invariant Reports(findings.byKey, before + if bad then {Key(ZONEMD_MISMATCH, st.state.origin, ZONEMD)} else {})
    {
      var rr := rrs[i];
      MatchesIs(d, recs, rr);
      i := i + 1;
      if !rr.data.ZONEMDData? {
        continue;
      }
      var digest := ComputeZONEMD(d, st, rr.data.scheme, rr.data.hashAlg);
      if digest.None? {
        Report(findings, env, ZONEMD_MISMATCH, st.origin, ZONEMD);
        bad := true;
        continue;
      }
      SameDigest(d, recs, rr, digest.value);
      if digest.value == rr.data.digest {
        ok := true;
      }
    }
    assert ok <==> exists rr | rr in rrs :: Matches(d, recs, rr) by {
      if rr :| rr in rrs && Matches(d, recs, rr) { var j :| 0 <= j < |rrs| && rrs[j] == rr; }
    }
    assert bad <==> exists rr | rr in rrs :: Unsupported(rr) by {
      if rr :| rr in rrs && Unsupported(rr) { var j :| 0 <= j < |rrs| && rrs[j] == rr; }
    }
  }

  lemma MatchesIs(d: Digester, recs: set<RR>, rr: RR)
    ensures !rr.data.ZONEMDData? ==> !Matches(d, recs, rr) && !Unsupported(rr)
    ensures rr.data.ZONEMDData? && !Supported(rr.data.hashAlg) ==> !Matches(d, recs, rr) && Unsupported(rr)
    ensures rr.data.ZONEMDData? && Supported(rr.data.hashAlg) ==> !Unsupported(rr)
  {
  }

  lemma SameDigest(d: Digester, recs: set<RR>, rr: RR, digest: Bytes)
    requires Tells(d) && rr.data.ZONEMDData? && Supported(rr.data.hashAlg)
    requires DigestIs(d, recs, rr.data.scheme, rr.data.hashAlg, digest)
    ensures Matches(d, recs, rr) <==> digest == rr.data.digest
  {
    hide DigestIs, Tells;
    if Matches(d, recs, rr) {
      DigestUnique(d, recs, rr.data.scheme, rr.data.hashAlg, digest, rr.data.digest);
    }
  }

  // ---------------------------------------------------------------------------
  // What the digest does not depend on
  // ---------------------------------------------------------------------------

  /** The records without signatures over the digest record. */
  ghost function Plain(recs: set<RR>): set<RR> {
    set rr | rr in recs && !IsZoneSig(rr)
  }

  function WithoutSigs(s: seq<RR>): seq<RR> {
    if s == [] then []
    else WithoutSigs(s[..|s| - 1]) + if IsZoneSig(s[|s| - 1]) then [] else [s[|s| - 1]]
  }

  lemma {:induction false} WithoutSigsMembers(s: seq<RR>)
    ensures forall x :: x in WithoutSigs(s) <==> x in s && !IsZoneSig(x)
  {
    hide IsZoneSig;
    if s != [] {
      WithoutSigsMembers(s[..|s| - 1]);
      assert s == s[..|s| - 1] + [s[|s| - 1]];
    }
  }

  lemma {:induction false} WithoutSigsFeed(d: Digester, scheme: nat, s: seq<RR>)
    ensures Feed(d, scheme, WithoutSigs(s)) == Feed(d, scheme, s)
  {
    hide Placeholder;
    if s != [] {
      var init, last := s[..|s| - 1], s[|s| - 1];
      var t := WithoutSigs(init);
      WithoutSigsFeed(d, scheme, init);
      Seqs.EmptyIsUnit(t);
      Seqs.EmptyIsUnit(Feed(d, scheme, init));
      FeedSnoc(d, scheme, t, last);
    }
  }

  lemma FeedSnoc(d: Digester, scheme: nat, s: seq<RR>, x: RR)
    ensures Feed(d, scheme, s + [x]) == Feed(d, scheme, s) + Contribution(d, scheme, x)
  {
    hide Contribution;
    assert (s + [x])[..|s|] == s;
  }

  ghost predicate Increasing(d: Digester, s: seq<RR>) {
    forall i, j | 0 <= i < j < |s| :: RRBefore(d, s[i], s[j])
  }

  lemma {:induction false} WithoutSigsIncreasing(d: Digester, s: seq<RR>)
    requires Increasing(d, s)
    ensures Increasing(d, WithoutSigs(s))
  {
    hide RRBefore;
    if s != [] {
      var init, last := s[..|s| - 1], s[|s| - 1];
      WithoutSigsIncreasing(d, init);
      WithoutSigsMembers(init);
      assert s == init + [last];
      var t := WithoutSigs(init);
      forall x | x in t ensures RRBefore(d, x, last) {
        var i :| 0 <= i < |init| && init[i] == x;
        assert s[i] == x && s[|s| - 1] == last;
      }
      forall i | 0 <= i < |t| ensures RRBefore(d, t[i], last) { assert t[i] in t; }
    }
  }

  lemma PlainCanonical(d: Digester, s: seq<RR>, recs: set<RR>, scheme: nat)
    requires IsCanonical(d, s, recs)
    ensures IsCanonical(d, WithoutSigs(s), Plain(recs)) && Feed(d, scheme, WithoutSigs(s)) == Feed(d, scheme, s)
  {
    hide RRBefore, Feed, IsZoneSig;
    CanonicalElems(d, s, recs);
    WithoutSigsMembers(s);
    WithoutSigsFeed(d, scheme, s);
    WithoutSigsIncreasing(d, s);
    forall x ensures x in Elems(WithoutSigs(s)) <==> x in Plain(recs) {}
  }

  /** The same digest record with another digest of the same length. */
  ghost predicate Redigested(old_: RR, new_: RR) {
    && old_.data.ZONEMDData? && new_.data.ZONEMDData? && |old_.data.digest| == |new_.data.digest|
    && new_ == old_.(data := old_.data.(digest := new_.data.digest))
  }

  lemma {:induction false} FeedReplaced(d: Digester, s: seq<RR>, k: nat, new_: RR)
    requires k < |s| && Redigested(s[k], new_)
    ensures Feed(d, 1, s[k := new_]) == Feed(d, 1, s)
  {
    var last := |s| - 1;
    assert Placeholder(1, new_) == Placeholder(1, s[k]);
    if k < last {
      assert s[k := new_][..last] == s[..last][k := new_];
      FeedReplaced(d, s[..last], k, new_);
    } else {
      assert s[k := new_][..last] == s[..last];
    }
  }

  /** The digest ignores the digest stored in the zone, as long as there is one digest record at its name, and the
      signatures over it. */
  lemma DigestIgnores(d: Digester, recs: set<RR>, recs': set<RR>, old_: RR, new_: RR, s: seq<RR>, s': seq<RR>)
    requires Tells(d) && Redigested(old_, new_) && old_ in recs
    requires forall x | x in recs && x.name == old_.name && x.Type() == ZONEMD :: x == old_
    requires Plain(recs') == Plain(recs) - {old_} + {new_}
    requires IsCanonical(d, s, recs) && IsCanonical(d, s', recs')
    ensures Feed(d, 1, s) == Feed(d, 1, s')
  {
    hide Feed, IsCanonical, Tells;
    PlainCanonical(d, s, recs, 1);
    PlainCanonical(d, s', recs', 1);
    var t, t' := WithoutSigs(s), WithoutSigs(s');
    CanonicalElems(d, t, Plain(recs));
    assert !IsZoneSig(old_) && old_ in t;
    var k :| 0 <= k < |t| && t[k] == old_;
    FeedReplaced(d, t, k, new_);
    ReplacedCanonical(d, t, k, Plain(recs), new_);
    CanonicalUnique(d, t[k := new_], t', Plain(recs'));
  }

  lemma ReplacedCanonical(d: Digester, s: seq<RR>, k: nat, recs: set<RR>, new_: RR)
    requires Tells(d) && IsCanonical(d, s, recs) && k < |s| && Redigested(s[k], new_)
    requires forall x | x in recs && x.name == s[k].name && x.Type() == ZONEMD :: x == s[k]
    ensures IsCanonical(d, s[k := new_], recs - {s[k]} + {new_})
  {
    var t, old_ := s[k := new_], s[k];
    CanonicalElems(d, s, recs);
    forall i, j | 0 <= i < j < |t| ensures RRBefore(d, t[i], t[j]) {
      assert RRBefore(d, s[i], s[j]);
      if i == k || j == k {
        var x := if i == k then s[j] else s[i];
        assert x in recs;
        OtherPlace(d, s, k, if i == k then j else i, recs);
      }
    }
    forall x ensures x in Elems(t) <==> x in recs - {old_} + {new_} {
      if x in t {
        var i :| 0 <= i < |t| && t[i] == x;
        if i != k { OtherPlace(d, s, k, i, recs); assert s[i] in recs; }
      }
      if x in recs && x != old_ {
        var i :| 0 <= i < |s| && s[i] == x;
        assert t[i] == x;
      }
      assert t[k] == new_;
    }
  }

  /** Every other record has another name or type than the digest record. */
  lemma OtherPlace(d: Digester, s: seq<RR>, k: nat, i: nat, recs: set<RR>)
    requires Tells(d) && IsCanonical(d, s, recs) && k < |s| && i < |s| && i != k && s[k].data.ZONEMDData?
    requires forall x | x in recs && x.name == s[k].name && x.Type() == ZONEMD :: x == s[k]
    ensures s[i] != s[k] && (s[i].name != s[k].name || s[i].Type() != ZONEMD)
  {
    hide RRBefore;
    CanonicalElems(d, s, recs);
    assert s[i] in recs;
    RRBeforeTotal(d, s[i], s[k]);
    if i < k { assert RRBefore(d, s[i], s[k]); } else { assert RRBefore(d, s[k], s[i]); }
  }
}

/** Resource records and the RRsets of one owner name. */
module Records {
  import opened Bytes
  import opened Names
  import Base32
  import Text

  const A: nat := 1
  const NS: nat := 2
  const SOA: nat := 6
  const AAAA: nat := 28
  const DS: nat := 43
  const RRSIG: nat := 46
  const NSEC: nat := 47
  const DNSKEY: nat := 48
  const NSEC3: nat := 50
  const NSEC3PARAM: nat := 51
  const ZONEMD: nat := 63

  const CLASS_IN: nat := 1

  /** Types without a parsed form of their own. */
  type OtherType = t: nat |
    t != SOA && t != RRSIG && t != NSEC && t != DNSKEY && t != NSEC3 && t != NSEC3PARAM && t != ZONEMD
    witness 1

  /** Parsed rdata. `BadData` stands for a record whose rdata does not pack into wire form. */
  datatype RData =
    | SOAData(serial: u32, timers: Bytes)
    | NSECData(nextName: Name, bitmap: seq<nat>)
    | NSEC3Data(flags: nat, iterations: nat, salt: Bytes, nextDomain: Bytes, bitmap: seq<nat>)
    | NSEC3PARAMData(hash: nat, paramIterations: nat, paramSalt: Bytes)
    | RRSIGData(sig: Signature)
    | DNSKEYData(keyFlags: nat, algorithm: nat, keyTag: nat, publicKey: Bytes)
    | ZONEMDData(zonemdSerial: u32, scheme: nat, hashAlg: nat, digest: Bytes)
    | OtherData(rtype: OtherType, rdata: Bytes)
    | BadData(badType: nat)

  datatype Signature = Signature(
    covered: nat, algorithm: nat, labels: nat, origTtl: nat,
    expiration: u32, inception: u32, keyTag: nat, signer: Name, signature: Bytes)

  /** A record. Wire form and parsed form determine each other, so stored wire data is the record itself. */
  datatype RR = RR(name: Name, cls: nat, ttl: nat, data: RData) {
    function Type(): nat {
      match data
      case SOAData(_, _) => SOA
      case NSECData(_, _) => NSEC
      case NSEC3Data(_, _, _, _, _) => NSEC3
      case NSEC3PARAMData(_, _, _) => NSEC3PARAM
      case RRSIGData(_) => RRSIG
      case DNSKEYData(_, _, _, _) => DNSKEY
      case ZONEMDData(_, _, _, _) => ZONEMD
      case OtherData(t, _) => t
      case BadData(t) => t
    }

    predicate Packs() {
      !data.BadData?
    }

    predicate ClassAccepted() {
      cls == CLASS_IN || cls == 0
    }
  }

  /** One RRset: wire records in arrival order and the TTL that stands in for a zero TTL when they are unpacked. */
  datatype RRSet = RRSet(rtype: nat, ttl: nat, rdata: seq<RR>)

  function UnpackOne(ttl: nat, wire: RR): RR {
    if wire.ttl == 0 && ttl != 0 then wire.(ttl := ttl) else wire
  }

  function Unpack(set_: RRSet): (rrs: seq<RR>)
    ensures |rrs| == |set_.rdata|
  {
    seq(|set_.rdata|, i requires 0 <= i < |set_.rdata| => UnpackOne(set_.ttl, set_.rdata[i]))
  }

  // ---------------------------------------------------------------------------
  // The RRsets of one node, by type
  // ---------------------------------------------------------------------------

  type Sets = map<nat, RRSet>

  ghost predicate NoDuplicates<T>(s: seq<T>) {
    forall i, j | 0 <= i < j < |s| :: s[i] != s[j]
  }

  function RemoveFirst<T(==)>(s: seq<T>, x: T): seq<T> {
    if s == [] then []
    else if s[0] == x then s[1..]
    else [s[0]] + RemoveFirst(s[1..], x)
  }

  lemma {:induction false} RemoveFirstKeepsOthers<T>(s: seq<T>, x: T)
    requires NoDuplicates(s)
    ensures NoDuplicates(RemoveFirst(s, x))
    ensures forall y :: y in RemoveFirst(s, x) <==> y in s && y != x
    ensures x in s ==> |RemoveFirst(s, x)| == |s| - 1
    ensures x !in s ==> RemoveFirst(s, x) == s
  {
    if s != [] {
      assert NoDuplicates(s[1..]) && s[0] !in s[1..];
      RemoveFirstKeepsOthers(s[1..], x);
      assert s == [s[0]] + s[1..];
    }
  }

  predicate Holds(sets: Sets, rr: RR) {
    rr.Type() in sets && rr in sets[rr.Type()].rdata
  }

  function AddToSets(sets: Sets, rr: RR): Sets {
    var t := rr.Type();
    if t in sets then
      var old_ := sets[t];
      sets[t := RRSet(t, if old_.ttl == 0 then rr.ttl else old_.ttl,
                      if rr in old_.rdata then old_.rdata else old_.rdata + [rr])]
    else
      sets[t := RRSet(t, rr.ttl, [rr])]
  }

  function RemoveFromSets(sets: Sets, rr: RR): Sets {
    var t := rr.Type();
    if !Holds(sets, rr) then sets
    else if RemoveFirst(sets[t].rdata, rr) == [] then sets - {t}
    else sets[t := sets[t].(rdata := RemoveFirst(sets[t].rdata, rr))]
  }

  /** The shape every node keeps: no empty RRset, no duplicate, every record filed under its own name and type. */
  ghost predicate WellFiled(name: Name, sets: Sets) {
    forall t | t in sets ::
      && sets[t].rtype == t && sets[t].rdata != [] && NoDuplicates(sets[t].rdata)
      && forall rr | rr in sets[t].rdata :: rr.name == name && rr.Type() == t && rr.Packs() && rr.ClassAccepted()
  }

  lemma AddToSetsFacts(name: Name, sets: Sets, rr: RR)
    requires WellFiled(name, sets) && rr.name == name && rr.Packs() && rr.ClassAccepted()
    ensures WellFiled(name, AddToSets(sets, rr))
    ensures forall x :: Holds(AddToSets(sets, rr), x) <==> Holds(sets, x) || x == rr
    ensures AddToSets(sets, rr).Keys == sets.Keys + {rr.Type()}
  {
  }

  lemma RemoveFromSetsFacts(name: Name, sets: Sets, rr: RR)
    requires WellFiled(name, sets)
    ensures WellFiled(name, RemoveFromSets(sets, rr))
    ensures forall x :: Holds(RemoveFromSets(sets, rr), x) <==> Holds(sets, x) && x != rr
  {
    if Holds(sets, rr) {
      RemoveFirstKeepsOthers(sets[rr.Type()].rdata, rr);
    }
  }

  // ---------------------------------------------------------------------------
  // Index entries
  // ---------------------------------------------------------------------------

  /** One NSEC3 record in the ordered hash index. */
  datatype NSEC3Rec = NSEC3Rec(hash: Bytes, owner: Name, next: Bytes, iterations: nat, salt: Bytes, flags: nat,
          bitmap: seq<nat>)

  datatype ExpiryRec = ExpiryRec(expiration: u32, owner: Name, covered: nat, keyTag: nat)

  /** The binary hash in the leftmost label of an NSEC3 owner; `None` for an undecodable label. */
  function HashFromOwner(owner: Name): Option<Bytes> {
    if owner == [] then None else Base32.HashFromBase32(owner[0])
  }

  function NSEC3Key(owner: Name): Bytes {
    match HashFromOwner(owner) case Some(h) => h case None => []
  }

  function MakeNSEC3Rec(rr: RR): NSEC3Rec
    requires rr.data.NSEC3Data?
  {
    var d := rr.data;
    var next := match Base32.HashFromBase32(d.nextDomain) case Some(h) => h case None => d.nextDomain;
    NSEC3Rec(NSEC3Key(rr.name), rr.name, next, d.iterations, d.salt, d.flags, d.bitmap)
  }

  function SignatureKey(rr: RR): Bytes
    requires rr.data.RRSIGData?
  {
    Text.ExpiryKey(rr.data.sig.expiration, rr.name, rr.data.sig.covered, rr.data.sig.keyTag)
  }

  function MakeExpiryRec(rr: RR): ExpiryRec
    requires rr.data.RRSIGData?
  {
    ExpiryRec(rr.data.sig.expiration, rr.name, rr.data.sig.covered, rr.data.sig.keyTag)
  }
}

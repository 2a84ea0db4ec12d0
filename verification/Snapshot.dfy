/** Snapshots: a store written to bytes and read back. */
module Snapshot {
  import opened Bytes
  import opened Names
  import opened Records
  import opened StoreSpec
  import opened Store
  import opened Xfr
  import opened PrimaryServer
  import opened Loading
  import opened Replication
  import Seqs

  /** The foreign parts: names as text, and records as wire data. */
  datatype Codec = Codec(text: Name -> Bytes, name: Bytes -> Name, pack: RR -> Bytes, unpack: Bytes -> Option<RR>)

  /** The codec is right about a name and some records: each fits its length field and reads back as itself. */
  ghost predicate Lawful(c: Codec, origin: Name, rrs: set<RR>) {
    && |c.text(origin)| < 0x1_0000 && c.name(c.text(origin)) == origin
    && forall rr | rr in rrs :: |c.pack(rr)| < 0x1_0000 && c.unpack(c.pack(rr)) == Some(rr)
  }

  // ---------------------------------------------------------------------------
  // Big-endian integers
  // ---------------------------------------------------------------------------

  function Pow256(w: nat): (p: nat)
    ensures p > 0
  {
    if w == 0 then 1 else 256 * Pow256(w - 1)
  }

  /** The low `w` bytes of `v`, most significant first. */
  function BigEndian(w: nat, v: nat): (b: Bytes)
    ensures |b| == w
  {
    if w == 0 then [] else BigEndian(w - 1, v / 256) + [v % 256]
  }

  function FromBigEndian(b: Bytes): nat {
    if b == [] then 0 else 256 * FromBigEndian(b[..|b| - 1]) + b[|b| - 1]
  }

  /** Reading back gives the value when it fits. */
  lemma {:induction false} BigEndianRoundTrip(w: nat, v: nat)
    requires v < Pow256(w)
    ensures FromBigEndian(BigEndian(w, v)) == v
  {
    if w > 0 {
      BigEndianRoundTrip(w - 1, v / 256);
      assert BigEndian(w, v)[..w - 1] == BigEndian(w - 1, v / 256);
    }
  }

  lemma Limits()
    ensures Pow256(2) == 0x1_0000 && Pow256(4) == 0x1_0000_0000
  {
    assert Pow256(1) == 256 && Pow256(3) == 0x100_0000;
  }

  // ---------------------------------------------------------------------------
  // Writing
  // ---------------------------------------------------------------------------

  const MAGIC: Bytes := [68, 83, 65, 49]

  function Framed(b: Bytes): Bytes {
    BigEndian(2, |b| % 0x1_0000) + b
  }

  function Header(c: Codec, origin: Name, serial: u32, saved: nat, count: nat): Bytes {
    MAGIC + (Framed(c.text(origin)) + (BigEndian(4, serial) +
        (BigEndian(8, saved) + BigEndian(4, count % 0x1_0000_0000))))
  }

  function Body(c: Codec, rrs: seq<RR>): Bytes {
    if rrs == [] then [] else Framed(c.pack(rrs[0])) + Body(c, rrs[1..])
  }

  function Image(c: Codec, origin: Name, serial: u32, saved: nat, rrs: seq<RR>): Bytes {
    Header(c, origin, serial, saved, |rrs|) + Body(c, rrs)
  }

  function Two(v: nat): (b: Bytes) {
    [v / 256 % 256, v % 256]
  }

  function Four(v: nat): (b: Bytes) {
    Two(v / 256 / 256) + Two(v)
  }

  /** Each record is preceded by its length. */
  function LengthAndWire(c: Codec, rrs: seq<RR>): Bytes {
    if rrs == [] then [] else Two(|c.pack(rrs[0])|) + c.pack(rrs[0]) + LengthAndWire(c, rrs[1..])
  }

  lemma BigEndianMeans(v: nat)
    ensures BigEndian(2, v) == Two(v) && BigEndian(4, v) == Four(v)
    ensures BigEndian(8, v) == Four(v / 256 / 256 / 256 / 256) + Four(v)
  {
    hide BigEndian, Two, Four, Shifted;
    BigEndianTwo(v);
    BigEndianFour(v);
    ShiftedFour(v);
    BigEndianFour(v / 256 / 256 / 256 / 256);
    BigEndianSplit(4, 4, v);
  }

  lemma BigEndianFour(v: nat)
    ensures BigEndian(4, v) == Four(v)
  {
    hide BigEndian, Two, Shifted;
    ShiftedTwice(v);
    BigEndianTwo(v);
    BigEndianTwo(v / 256 / 256);
    BigEndianSplit(2, 2, v);
  }

  lemma ShiftedFour(v: nat)
    ensures Shifted(v, 4) == v / 256 / 256 / 256 / 256
  {
    hide Shifted;
    ShiftedTwice(v);
    ShiftedTwice(v / 256 / 256);
  }

  lemma BigEndianStep(w: nat, v: nat)
    ensures BigEndian(w + 1, v) == BigEndian(w, v / 256) + [v % 256]
  {
  }

  lemma BigEndianTwo(v: nat)
    ensures BigEndian(2, v) == Two(v)
  {
    BigEndianStep(1, v);
    BigEndianStep(0, v / 256);
  }

  function Shifted(v: nat, w: nat): nat {
    if w == 0 then v else Shifted(v / 256, w - 1)
  }

  lemma ShiftedTwice(v: nat)
    ensures Shifted(v, 2) == v / 256 / 256 && Shifted(v, 4) == Shifted(v / 256 / 256, 2)
  {
    assert Shifted(v / 256, 1) == v / 256 / 256;
    assert Shifted(v / 256, 3) == Shifted(v / 256 / 256, 2);
  }

  /** The last `w` bytes are those of the value, the others those of the value shifted. */
  lemma {:induction false} BigEndianSplit(more: nat, w: nat, v: nat)
    ensures BigEndian(more + w, v) == BigEndian(more, Shifted(v, w)) + BigEndian(w, v)
  {
    if w > 0 {
      BigEndianSplit(more, w - 1, v / 256);
      BigEndianStep(more + w - 1, v);
      BigEndianStep(w - 1, v);
      Seqs.Assoc(BigEndian(more, Shifted(v, w)), BigEndian(w - 1, v / 256), [v % 256]);
    } else {
      Seqs.EmptyIsUnit(BigEndian(more, v));
    }
  }

  lemma {:induction false} BodyMeans(c: Codec, rrs: seq<RR>)
    requires forall rr | rr in rrs :: |c.pack(rr)| < 0x1_0000
    ensures Body(c, rrs) == LengthAndWire(c, rrs)
  {
    hide BigEndian;
    if rrs != [] {
      assert rrs[0] in rrs && forall rr | rr in rrs[1..] :: rr in rrs;
      BigEndianMeans(|c.pack(rrs[0])|);
      BodyMeans(c, rrs[1..]);
    }
  }

  lemma FramedMeans(b: Bytes)
    requires |b| < 0x1_0000
    ensures Framed(b) == Two(|b|) + b
  {
    hide BigEndian, Two;
    BigEndianMeans(|b|);
  }

  /** The format: the letters DSA1, the origin as text after its length, the serial, the time, the number of records,
      and the records, each after its length; numbers with the most significant byte first. */
  lemma ImageMeans(c: Codec, origin: Name, serial: u32, saved: nat, rrs: seq<RR>)
    requires Lawful(c, origin, Elems(rrs)) && |rrs| < 0x1_0000_0000
    ensures Image(c, origin, serial, saved, rrs) ==
            [68, 83, 65, 49] + (Two(|c.text(origin)|) + c.text(origin)) + Four(serial) +
            (Four(saved / 256 / 256 / 256 / 256) + Four(saved)) + Four(|rrs|) + LengthAndWire(c, rrs)
  {
    hide BigEndian, Body, LengthAndWire, Two, Four, Header, Framed;
    FramedMeans(c.text(origin));
    BigEndianMeans(serial);
    BigEndianMeans(saved);
    BigEndianMeans(|rrs|);
    forall rr | rr in rrs ensures |c.pack(rr)| < 0x1_0000 { assert rr in Elems(rrs); }
    BodyMeans(c, rrs);
    HeaderInSteps(c, origin, serial, saved, |rrs|);
  }

  /** Writes header and records, in whatever order the store lists them. */
  method WriteSnapshot(c: Codec, st: Store, now: nat) returns (w: Bytes, ghost listing: seq<RR>)
    requires st.Valid()
    ensures Elems(listing) == UnpackedOf(st.state)
    ensures w == Image(c, st.state.origin, st.state.serial, now, listing)
  {
    hide Store.Valid, UnpackedOf, Framed;
    SerialField(st);
    OriginField(st);
    var rrs := AllRRs(st);
    listing := rrs;
    w := MAGIC;
    w := w + Framed(c.text(st.origin));
    w := w + BigEndian(4, st.serial);
    w := w + BigEndian(8, now);
    w := w + BigEndian(4, |rrs| % 0x1_0000_0000);
    HeaderInSteps(c, st.origin, st.serial, now, |rrs|);
    ghost var head := w;
    var i := 0;
    Seqs.EmptyIsUnit(head);
    assert rrs[0..] == rrs;
    while i < |rrs|
      invariant 0 <= i <= |rrs|
      invariant w + Body(c, rrs[i..]) == head + Body(c, rrs)
    {
      assert rrs[i..][1..] == rrs[i + 1..];
      Seqs.Assoc(w, Framed(c.pack(rrs[i])), Body(c, rrs[i + 1..]));
      w := w + Framed(c.pack(rrs[i]));
      i := i + 1;
    }
    Seqs.EmptyIsUnit(w);
  }

  lemma HeaderInSteps(c: Codec, origin: Name, serial: u32, saved: nat, count: nat)
    ensures MAGIC + Framed(c.text(origin)) + BigEndian(4, serial) + BigEndian(8, saved) +
            BigEndian(4, count % 0x1_0000_0000)
         == Header(c, origin, serial, saved, count)
  {
    hide Framed, BigEndian;
    var f, s, t, n := Framed(c.text(origin)), BigEndian(4, serial), BigEndian(8, saved),
        BigEndian(4, count % 0x1_0000_0000);
    Seqs.Assoc(MAGIC + f + s, t, n);
    Seqs.Assoc(MAGIC + f, s, t + n);
    Seqs.Assoc(MAGIC, f, s + (t + n));
  }

  // ---------------------------------------------------------------------------
  // Reading
  // ---------------------------------------------------------------------------

  /** The next `n` bytes and the rest; `None` at a premature end. */
  function Take(b: Bytes, n: nat): Option<(Bytes, Bytes)> {
    if n <= |b| then Some((b[..n], b[n..])) else None
  }

  function TakeFramed(b: Bytes): Option<(Bytes, Bytes)> {
    match Take(b, 2)
    case None => None
    case Some(p) => Take(p.1, FromBigEndian(p.0))
  }

  /** Reads `count` records; `None` at a premature end or an unreadable record. */
  function ReadRecords(c: Codec, b: Bytes, count: nat): Option<seq<RR>> {
    if count == 0 then Some([])
    else
      match TakeFramed(b)
      case None => None
      case Some(p) =>
        if c.unpack(p.0).None? then None
        else
          match ReadRecords(c, p.1, count - 1)
          case None => None
          case Some(rest) => Some([c.unpack(p.0).value] + rest)
  }

  datatype Contents = Contents(origin: Name, serial: u32, saved: nat, rrs: seq<RR>)

  function ReadFixed(b: Bytes): Option<(nat, nat, nat, Bytes)> {
    if |b| < 16 then None
    else Some((FromBigEndian(b[..4]), FromBigEndian(b[4..12]), FromBigEndian(b[12..16]), b[16..]))
  }

  function ReadImage(c: Codec, b: Bytes): Option<Contents> {
    if Take(b, 4).None? || Take(b, 4).value.0 != MAGIC then None
    else
      match TakeFramed(Take(b, 4).value.1)
      case None => None
      case Some(p) =>
        match ReadFixed(p.1)
        case None => None
        case Some(f) =>
          match ReadRecords(c, f.3, f.2)
          case None => None
          case Some(rrs) => Some(Contents(c.name(p.0), f.0 % 0x1_0000_0000, f.1, rrs))
  }

  lemma TakeFront(a: Bytes, rest: Bytes)
    ensures Take(a + rest, |a|) == Some((a, rest))
  {
    assert (a + rest)[..|a|] == a && (a + rest)[|a|..] == rest;
  }

  lemma FramedRoundTrip(b: Bytes, rest: Bytes)
    requires |b| < 0x1_0000
    ensures TakeFramed(Framed(b) + rest) == Some((b, rest))
  {
    Limits();
    var len := BigEndian(2, |b|);
    Seqs.Assoc(len, b, rest);
    TakeFront(len, b + rest);
    BigEndianRoundTrip(2, |b|);
    TakeFront(b, rest);
  }

  lemma {:induction false} BodyRoundTrip(c: Codec, origin: Name, rrs: seq<RR>)
    requires Lawful(c, origin, Elems(rrs))
    ensures ReadRecords(c, Body(c, rrs), |rrs|) == Some(rrs)
  {
    hide Framed, TakeFramed;
    if rrs != [] {
      assert rrs[0] in Elems(rrs) && Elems(rrs[1..]) <= Elems(rrs);
      FramedRoundTrip(c.pack(rrs[0]), Body(c, rrs[1..]));
      BodyRoundTrip(c, origin, rrs[1..]);
      assert rrs == [rrs[0]] + rrs[1..];
    }
  }

  lemma FixedRoundTrip(serial: u32, saved: nat, count: nat, rest: Bytes)
    requires saved < Pow256(8) && count < 0x1_0000_0000
    ensures ReadFixed((BigEndian(4, serial) + (BigEndian(8, saved) + BigEndian(4, count))) +
            rest) == Some((serial, saved, count, rest))
  {
    Limits();
    var s, t, n := BigEndian(4, serial), BigEndian(8, saved), BigEndian(4, count);
    FixedSlices(s, t, n, rest);
    hide BigEndian, FromBigEndian, Pow256;
    BigEndianRoundTrip(4, serial);
    BigEndianRoundTrip(8, saved);
    BigEndianRoundTrip(4, count);
  }

  lemma FixedSlices(s: Bytes, t: Bytes, n: Bytes, rest: Bytes)
    requires |s| == 4 && |t| == 8 && |n| == 4
    ensures var b := (s + (t + n)) + rest;
            |b| >= 16 && b[..4] == s && b[4..12] == t && b[12..16] == n && b[16..] == rest
  {
  }

  /** Reading what was written gives origin, serial, time and the records back, in the order written. */
  lemma ImageRoundTrip(c: Codec, origin: Name, serial: u32, saved: nat, rrs: seq<RR>)
    requires Lawful(c, origin, Elems(rrs)) && saved < Pow256(8) && |rrs| < 0x1_0000_0000
    ensures ReadImage(c, Image(c, origin, serial, saved, rrs)) == Some(Contents(origin, serial, saved, rrs))
  {
    hide Framed, TakeFramed, Take, BigEndian, FromBigEndian, Body, ReadRecords, ReadFixed, Pow256;
    var f, body := Framed(c.text(origin)), Body(c, rrs);
    var fixed := BigEndian(4, serial) + (BigEndian(8, saved) + BigEndian(4, |rrs|));
    Seqs.Assoc(MAGIC, f + fixed, body);
    Seqs.Assoc(f, fixed, body);
    TakeFront(MAGIC, f + (fixed + body));
    FramedRoundTrip(c.text(origin), fixed + body);
    FixedRoundTrip(serial, saved, |rrs|, body);
    BodyRoundTrip(c, origin, rrs);
  }

  function Place(rrs: seq<RR>, rr: RR): nat {
    if rrs == [] || rrs[0] == rr then 0 else 1 + Place(rrs[1..], rr)
  }

  lemma {:induction false} FoundAtPlace(rrs: seq<RR>, rr: RR)
    requires rr in rrs
    ensures Place(rrs, rr) < |rrs| && rrs[Place(rrs, rr)] == rr
  {
    if rrs[0] != rr {
      assert rrs == [rrs[0]] + rrs[1..];
      FoundAtPlace(rrs[1..], rr);
    }
  }

  /** For every list of records that fits the header there is such a codec: one that numbers the records. */
  lemma NumberingIsLawful(origin: Name, rrs: seq<RR>) returns (c: Codec)
    requires |rrs| < 0x1_0000_0000
    ensures Lawful(c, origin, Elems(rrs))
  {
    hide BigEndian, FromBigEndian, Pow256, Place;
    c := Codec(_ => [], _ => origin, rr => BigEndian(4, Place(rrs, rr)),
               b => if FromBigEndian(b) < |rrs| then Some(rrs[FromBigEndian(b)]) else None);
    Limits();
    forall rr | rr in Elems(rrs) ensures |c.pack(rr)| < 0x1_0000 && c.unpack(c.pack(rr)) == Some(rr) {
      FoundAtPlace(rrs, rr);
      BigEndianRoundTrip(4, Place(rrs, rr));
    }
  }

  /** Reads a snapshot into a new store; `null` for a malformed one or one whose records cannot be filed. */
  method ReadSnapshot(c: Codec, r: Bytes) returns (st: Store?, saved: nat)
    ensures st != null ==> st.Valid()
    ensures match ReadImage(c, r)
            case None => st == null
            case Some(image) =>
              var s := Steps(EmptyStore(image.origin).(serial := image.serial), Changes(image.rrs, []));
              if s.1 then st != null && st.state == s.0 && saved == image.saved else st == null
  {
    hide Store.Valid, Steps, TouchedBy;
    saved := 0;
    if |r| < 4 || r[..4] != MAGIC {
      return null, 0;
    }
    var named := TakeFramed(r[4..]);
    if named.None? {
      return null, 0;
    }
    var fixed := ReadFixed(named.value.1);
    if fixed.None? {
      return null, 0;
    }
    var rrs := ReadAll(c, fixed.value.3, fixed.value.2);
    if rrs.None? {
      return null, 0;
    }
    var made := new Store(c.name(named.value.0));
    SetSerial(made, fixed.value.0 % 0x1_0000_0000);
    var _, err := made.ApplyChanges(rrs.value, []);
    if err {
      return null, 0;
    }
    return made, fixed.value.1;
  }

  method SetSerial(st: Store, serial: u32)
    requires st.Valid() && st.state == EmptyStore(st.state.origin)
    modifies st`serial, st`state
    ensures st.Valid() && st.state == EmptyStore(old(st.state.origin)).(serial := serial)
    ensures st.nodes == old(st.nodes)
  {
    ghost var origin := st.state.origin;
    st.serial := serial;
    st.state := st.state.(serial := serial);
    SerialDoesNotMatter(EmptyStore(origin), serial);
    EmptyStoreFacts(origin);
  }

  lemma SerialDoesNotMatter(v: StoreView, serial: u32)
    ensures Shape(v) ==> Shape(v.(serial := serial))
  {
    assert RecordsOf(v.(serial := serial)) == RecordsOf(v);
  }

  method ReadAll(c: Codec, b: Bytes, count: nat) returns (rrs: Option<seq<RR>>)
    ensures rrs == ReadRecords(c, b, count)
  {
    hide TakeFramed;
    var out: seq<RR> := [];
    var rest := b;
    var i := 0;
    PrependedNothing(ReadRecords(c, rest, count));
    while i < count
      invariant 0 <= i <= count
      invariant ReadRecords(c, b, count) == Prepended(out, ReadRecords(c, rest, count - i))
    {
      var p := TakeFramed(rest);
      if p.None? {
        return None;
      }
      var rr := c.unpack(p.value.0);
      if rr.None? {
        return None;
      }
      PrependedMoves(out, rr.value, ReadRecords(c, p.value.1, count - i - 1));
      out := out + [rr.value];
      rest := p.value.1;
      i := i + 1;
    }
    Seqs.EmptyIsUnit(out);
    return Some(out);
  }

  function Prepended(a: seq<RR>, b: Option<seq<RR>>): Option<seq<RR>> {
    if b.Some? then Some(a + b.value) else None
  }

  lemma PrependedNothing(b: Option<seq<RR>>)
    ensures Prepended([], b) == b
  {
    if b.Some? { Seqs.EmptyIsUnit(b.value); }
  }

  lemma PrependedMoves(a: seq<RR>, rr: RR, b: Option<seq<RR>>)
    ensures Prepended(a, if b.Some? then Some([rr] + b.value) else None) == Prepended(a + [rr], b)
  {
    if b.Some? { Seqs.Assoc(a, [rr], b.value); }
  }

  // ---------------------------------------------------------------------------
  // The store read back
  // ---------------------------------------------------------------------------

  /** The store a snapshot of `v` reads back as, when the records were listed as `listing`. */
  ghost function ReadBack(v: StoreView, listing: seq<RR>): (StoreView, bool) {
    Steps(EmptyStore(v.origin).(serial := v.serial), Changes(listing, []))
  }

  /** Whatever order the records are listed in, the store read back has the same origin and serial; it has the same
      records exactly when no RRset mixes TTL zero with another TTL, and then also the same count and indexes. */
  lemma SnapshotRoundTrip(v: StoreView, listing: seq<RR>)
    requires Good(v) && Elems(listing) == UnpackedOf(v)
    ensures var s := ReadBack(v, listing);
            && s.1 && s.0.origin == v.origin && s.0.serial == v.serial
            && (RecordsOf(s.0) == RecordsOf(v) <==> Unmixed(v))
            && (Unmixed(v) ==> Good(s.0) && InSync(v, s.0))
  {
    hide NodesOk, RecordsOf, UnpackedOf, Unmixed, Agree, Consistent, Addable, Steps;
    var empty := EmptyStore(v.origin).(serial := v.serial);
    EmptyWithSerial(v.origin, v.serial);
    UnpackedAddable(v);
    forall rr | rr in listing ensures Addable(rr) && (IsSOA(rr) ==> SerialOf(rr) == v.serial) {
      assert rr in Elems(listing);
    }
    LoadsRecords(empty, listing);
    assert {} + Elems(listing) == Elems(listing);
    ReadsRecordsIff(v);
    if Unmixed(v) {
      assert Effect(RecordsOf(empty), listing, []) == RecordsOf(v);
      BatchKeepsGood(empty, listing, []);
      SameRecordsSameIndexes(v, ReadBack(v, listing).0);
    }
  }

  lemma EmptyWithSerial(origin: Name, serial: u32)
    ensures var v := EmptyStore(origin).(serial := serial); Good(v) && RecordsOf(v) == {} && NodesOk(v)
  {
    EmptyStoreFacts(origin);
    assert RecordsOf(EmptyStore(origin).(serial := serial)) == {};
  }

  lemma SameRecordsSameIndexes(v: StoreView, w: StoreView)
    requires Good(v) && Good(w) && v.origin == w.origin && v.serial == w.serial && RecordsOf(v) == RecordsOf(w)
    ensures InSync(v, w)
  {
    hide NodesOk, Consistent, RecordsOf;
    IndexUnique(v.nsec3, w.nsec3, NSEC3Entries(RecordsOf(v)));
    IndexUnique(v.expiry, w.expiry, ExpiryEntries(RecordsOf(v)));
  }

  /** Writing a store and reading the bytes gives a store in sync with it, exactly when no RRset mixes TTL zero with
      another TTL; origin, serial and time survive in any case. */
  method SaveAndRestore(c: Codec, st: Store, now: nat) returns (restored: Store?, saved: nat, ghost listing: seq<RR>)
    requires st.Valid() && Good(st.state) && now < Pow256(8)
    requires Lawful(c, st.state.origin, UnpackedOf(st.state))
    ensures Elems(listing) == UnpackedOf(st.state)
    ensures |listing| < 0x1_0000_0000 ==>
              && restored != null && restored.Valid() && saved == now
              && restored.state.origin == st.state.origin && restored.state.serial == st.state.serial
              && (InSync(st.state, restored.state) <==> Unmixed(st.state))
  {
    hide Store.Valid, Good, Lawful, Image, ReadImage, Steps, UnpackedOf, Unmixed, InSync, Pow256;
    var image;
    image, listing := WriteSnapshot(c, st, now);
    restored, saved := ReadSnapshot(c, image);
    if |listing| < 0x1_0000_0000 {
      ImageRoundTrip(c, st.state.origin, st.state.serial, now, listing);
      SnapshotRoundTrip(st.state, listing);
      InSyncMeansSameRecords(st.state, restored.state);
    }
  }

  lemma InSyncMeansSameRecords(v: StoreView, w: StoreView)
    ensures InSync(v, w) ==> RecordsOf(v) == RecordsOf(w)
  {
  }
}

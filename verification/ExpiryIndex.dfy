/** What the expiry index holds for the signatures of a zone, whatever their keys, and what the sweep makes of it. */
module ExpiryIndex {
  import opened Bytes
  import opened Names
  import opened Records
  import opened StoreSpec
  import opened Findings
  import opened Signatures
  import opened Expiry
  import opened Loading
  import Text

  // ---------------------------------------------------------------------------
  // Entries and records
  // ---------------------------------------------------------------------------

  /** An entry for this signature: its expiration, covered type and key tag, and its owner as text. */
  predicate IsEntryFor(e: ExpiryRec, rr: RR) {
    && rr.data.RRSIGData? && e.expiration == rr.data.sig.expiration && e.covered == rr.data.sig.covered
    && e.keyTag == rr.data.sig.keyTag && Text.Dotted(e.owner) == Text.Dotted(rr.name)
  }

  ghost predicate HasEntry(index: map<Bytes, ExpiryRec>, rr: RR) {
    exists k | k in index :: IsEntryFor(index[k], rr)
  }

  /** Every signature has an entry. */
  ghost predicate AllFiled(v: StoreView) {
    forall rr | rr in RecordsOf(v) && rr.data.RRSIGData? :: HasEntry(v.expiry, rr)
  }

  ghost predicate HasRecord(recs: set<RR>, e: ExpiryRec) {
    exists rr | rr in recs :: IsEntryFor(e, rr) && e.owner == rr.name
  }

  /** Every entry has a signature, with that owner. */
  ghost predicate AllBacked(v: StoreView) {
    forall k | k in v.expiry :: HasRecord(RecordsOf(v), v.expiry[k])
  }

  lemma OwnEntry(rr: RR)
    requires rr.data.RRSIGData?
    ensures IsEntryFor(MakeExpiryRec(rr), rr) && MakeExpiryRec(rr).owner == rr.name
  {
  }

  /** Every entry is under its own key. */
  ghost predicate UnderOwnKey(index: map<Bytes, ExpiryRec>) {
    forall k | k in index ::
      k == Text.ExpiryKey(index[k].expiration, index[k].owner, index[k].covered, index[k].keyTag)
  }

  /** Two signatures share an entry exactly when expiration, owner text, covered type and key tag are the same. */
  lemma SharedEntryMeans(a: RR, b: RR)
    requires a.data.RRSIGData? && b.data.RRSIGData?
    ensures SameEntry(a, b) <==>
            && a.data.sig.expiration == b.data.sig.expiration && Text.Dotted(a.name) == Text.Dotted(b.name)
            && a.data.sig.covered == b.data.sig.covered && a.data.sig.keyTag == b.data.sig.keyTag
  {
    hide Text.ExpiryKey, Text.Dotted;
    var s, t := a.data.sig, b.data.sig;
    Text.ExpiryKeyInjective(s.expiration, a.name, s.covered, s.keyTag, t.expiration, b.name, t.covered, t.keyTag);
  }

  // ---------------------------------------------------------------------------
  // Filing records
  // ---------------------------------------------------------------------------

  ghost predicate Filed(v: StoreView) {
    NodesOk(v) && UnderOwnKey(v.expiry) && AllFiled(v) && AllBacked(v)
  }

  /** An addition never takes the place of another signature's entry without standing for it too. */
  lemma AddKeepsFiled(v: StoreView, rr: RR)
    requires Filed(v) && Addable(rr)
    ensures AddSpec(v, rr).Some? && Filed(AddSpec(v, rr).value)
  {
    hide NodesOk, RecordsOf, Text.ExpiryKey, Text.Dotted, AddSpec;
    LoadOneRecord(v, rr);
    var v' := AddSpec(v, rr).value;
    AddSteps(v, rr);
    if rr.data.RRSIGData? {
      NewEntry(v, v', rr);
    } else {
      assert v'.expiry == v.expiry;
    }
  }

  lemma NewEntry(v: StoreView, v': StoreView, rr: RR)
    requires UnderOwnKey(v.expiry) && AllFiled(v) && AllBacked(v) && rr.data.RRSIGData?
    requires RecordsOf(v') == RecordsOf(v) + {rr} && v'.expiry == v.expiry[SignatureKey(rr) := MakeExpiryRec(rr)]
    ensures UnderOwnKey(v'.expiry) && AllFiled(v') && AllBacked(v')
  {
    hide RecordsOf, Text.ExpiryKey, IsEntryFor, HasEntry, HasRecord;
    var key, recs := SignatureKey(rr), RecordsOf(v);
    OwnEntry(rr);
    EntryThere(v'.expiry, key, rr);
    RecordThere(recs + {rr}, MakeExpiryRec(rr), rr);
    forall x | x in recs && x.data.RRSIGData? ensures HasEntry(v'.expiry, x) {
      var k := EntryOf(v.expiry, x);
      if k == key { SameKeySameEntry(v.expiry[k], rr, x); }
      EntryThere(v'.expiry, k, x);
    }
    forall k | k in v.expiry ensures HasRecord(recs + {rr}, v.expiry[k]) {
      var x := RecordOf(recs, v.expiry[k]);
      RecordThere(recs + {rr}, v.expiry[k], x);
    }
  }

  lemma EntryThere(index: map<Bytes, ExpiryRec>, k: Bytes, rr: RR)
    requires k in index && IsEntryFor(index[k], rr)
    ensures HasEntry(index, rr)
  {
    hide IsEntryFor;
  }

  lemma EntryOf(index: map<Bytes, ExpiryRec>, rr: RR) returns (k: Bytes)
    requires HasEntry(index, rr)
    ensures k in index && IsEntryFor(index[k], rr)
  {
    hide IsEntryFor;
    k :| k in index && IsEntryFor(index[k], rr);
  }

  lemma RecordThere(recs: set<RR>, e: ExpiryRec, rr: RR)
    requires rr in recs && IsEntryFor(e, rr) && e.owner == rr.name
    ensures HasRecord(recs, e)
  {
    hide IsEntryFor;
  }

  lemma RecordOf(recs: set<RR>, e: ExpiryRec) returns (rr: RR)
    requires HasRecord(recs, e)
    ensures rr in recs && IsEntryFor(e, rr) && e.owner == rr.name && rr.data.RRSIGData?
  {
    rr :| rr in recs && IsEntryFor(e, rr) && e.owner == rr.name;
  }

  /** An entry under the key of a signature is an entry for it, and stands for the same signatures. */
  lemma SameKeySameEntry(e: ExpiryRec, rr: RR, x: RR)
    requires rr.data.RRSIGData? && IsEntryFor(e, x)
    requires SignatureKey(rr) == Text.ExpiryKey(e.expiration, e.owner, e.covered, e.keyTag)
    ensures IsEntryFor(MakeExpiryRec(rr), x)
  {
    hide Text.ExpiryKey, Text.Dotted;
    var s := rr.data.sig;
    Text.ExpiryKeyInjective(s.expiration, rr.name, s.covered, s.keyTag, e.expiration, e.owner, e.covered, e.keyTag);
  }

  lemma {:induction false} LoadsKeepFiled(v: StoreView, adds: seq<RR>)
    requires Filed(v) && forall rr | rr in adds :: Addable(rr)
    ensures Filed(Steps(v, Changes(adds, [])).0)
    decreases |adds|
  {
    hide Filed, AddSpec, Addable;
    if adds == [] {
      assert Changes(adds, []) == [];
    } else {
      assert adds[0] in adds;
      AddFirstOf(adds);
      AddKeepsFiled(v, adds[0]);
      LoadsKeepFiled(AddSpec(v, adds[0]).value, adds[1..]);
    }
  }

  /** A store filled with any list of acceptable records has an entry for each of its signatures, and no other entry. */
  lemma LoadedIsFiled(origin: Name, rrs: seq<RR>)
    requires forall rr | rr in rrs :: Addable(rr)
    ensures Filed(Steps(EmptyStore(origin), Changes(rrs, [])).0)
  {
    EmptyStoreFacts(origin);
    LoadsKeepFiled(EmptyStore(origin), rrs);
  }

  /** So has a store in good order. */
  lemma GoodIsFiled(v: StoreView)
    requires Good(v)
    ensures NodesOk(v) && AllFiled(v) && AllBacked(v)
  {
    hide RecordsOf, MakeExpiryRec, SignatureKey, Consistent, SerialAgrees, IsEntryFor, HasEntry, HasRecord;
    var recs := RecordsOf(v);
    forall rr | rr in recs && rr.data.RRSIGData? ensures HasEntry(v.expiry, rr) {
      assert (SignatureKey(rr), MakeExpiryRec(rr)) in ExpiryEntries(recs);
      OwnEntry(rr);
      EntryThere(v.expiry, SignatureKey(rr), rr);
    }
    forall k | k in v.expiry ensures HasRecord(recs, v.expiry[k]) {
      assert (k, v.expiry[k]) in ExpiryEntries(recs);
      var rr :| rr in recs && rr.data.RRSIGData? && MakeExpiryRec(rr) == v.expiry[k];
      OwnEntry(rr);
      RecordThere(recs, v.expiry[k], rr);
    }
  }

  // ---------------------------------------------------------------------------
  // What the sweep finds
  // ---------------------------------------------------------------------------

  /** Signatures at names the text form tells apart. */
  ghost predicate PlainOwners(v: StoreView) {
    forall rr | rr in RecordsOf(v) && rr.data.RRSIGData? :: Text.Plain(rr.name)
  }

  /** When a signature with this expiration draws a finding: past its end even with the skew, or close to its end. */
  predicate Draws(env: Env, expiration: u32, c: Code) {
    match c
    case RRSIG_EXPIRED => (expiration + env.skew) % 0x1_0000_0000 < env.now
    case RRSIG_EXPIRING_SOON =>
      env.now <= (expiration + env.skew) % 0x1_0000_0000 && env.now < expiration <= env.now + env.warn
    case _ => false
  }

  /** A signature at this name and type, not past the cut-off, that draws this finding. */
  ghost predicate DrawnBy(env: Env, rr: RR, n: Name, t: nat, c: Code) {
    && rr.data.RRSIGData? && rr.name == n && rr.data.sig.covered == t
    && rr.data.sig.expiration <= (env.now + env.skew + env.warn) % 0x1_0000_0000
    && Draws(env, rr.data.sig.expiration, c)
  }

  /** The sweep reports, at a name and type, exactly what some signature of the zone there draws whose expiration is not
      past the cut-off. */
  lemma SweepMeans(env: Env, v: StoreView, n: Name, t: nat, c: Code)
    requires AllFiled(v) && AllBacked(v) && PlainOwners(v) && Text.Plain(n)
    ensures Key(c, n, t) in EntryKeys(env, v.expiry, UpToCutoff(env, v.expiry)) <==>
            exists rr | rr in RecordsOf(v) :: DrawnBy(env, rr, n, t, c)
  {
    hide RecordsOf, HasEntry, HasRecord, IsEntryFor, DrawnBy, SweepCode, Cutoff, Text.Plain;
    EntryKeysMembers(env, v.expiry, UpToCutoff(env, v.expiry), Key(c, n, t));
    if k :| k in UpToCutoff(env, v.expiry) && k in v.expiry && Expiry.Tells(env, v.expiry[k], Key(c, n, t)) {
      var rr := RecordOf(RecordsOf(v), v.expiry[k]);
      DrawnMeans(env, v.expiry[k], rr, n, t, c);
    }
    if rr :| rr in RecordsOf(v) && DrawnBy(env, rr, n, t, c) {
      DrawnIsSignature(env, rr, n, t, c);
      var k := EntryOf(v.expiry, rr);
      var x := RecordOf(RecordsOf(v), v.expiry[k]);
      SameOwner(v.expiry[k], rr, x);
      DrawnMeans(env, v.expiry[k], rr, n, t, c);
    }
  }

  lemma DrawnIsSignature(env: Env, rr: RR, n: Name, t: nat, c: Code)
    requires DrawnBy(env, rr, n, t, c)
    ensures rr.data.RRSIGData?
  {
  }

  lemma SameOwner(e: ExpiryRec, rr: RR, x: RR)
    requires IsEntryFor(e, rr) && IsEntryFor(e, x) && Text.Plain(rr.name) && Text.Plain(x.name)
    ensures x.name == rr.name
  {
    hide Text.Dotted, Text.Plain;
    Text.DottedInjective(x.name, rr.name);
  }

  lemma DrawnMeans(env: Env, e: ExpiryRec, rr: RR, n: Name, t: nat, c: Code)
    requires IsEntryFor(e, rr) && e.owner == rr.name
    ensures e.expiration <= Cutoff(env) && Expiry.Tells(env, e, Key(c, n, t)) <==> DrawnBy(env, rr, n, t, c)
  {
    hide Text.Dotted, SweepCode, Draws, Cutoff;
    CutoffMeans(env);
    DrawsMeans(env, e.expiration, c);
  }

  lemma CutoffMeans(env: Env)
    ensures Cutoff(env) == (env.now + env.skew + env.warn) % 0x1_0000_0000
  {
  }

  lemma DrawsMeans(env: Env, expiration: u32, c: Code)
    ensures SweepCode(env, expiration) == Some(c) <==> Draws(env, expiration, c)
  {
  }
}

/** How the incremental pass relates to the full pass: the ring as a whole, and the findings at every name. */
module Refinement {
  import opened Bytes
  import opened Names
  import opened Records
  import opened StoreSpec
  import opened Ring
  import opened Findings
  import opened Signatures
  import opened Verify
  import opened FullPass
  import opened Incremental

  // ---------------------------------------------------------------------------
  // Local ring checks decide the global ring
  // ---------------------------------------------------------------------------

  ghost predicate ChainSilent(keys: set<Key>) {
    forall k | k in keys :: k.code != NSEC3_CHAIN_BROKEN
  }

  lemma NodeKeysShape(env: Env, v: StoreView, keys: seq<CachedKey>, n: Name)
    requires n in v.nodes
    ensures forall k | k in NodeKeys(env, v, keys, n) :: k.owner == n && k.code != NSEC3_CHAIN_BROKEN
  {
    hide ReportsCode, Authoritative, Param, IsNSEC3Owner, ExpectedTypes;
  }

  lemma LinksSilentIff(v: StoreView, h: Bytes)
    ensures ChainSilent(LinkKeys(v, h)) <==> LocallySound(v.nsec3, h)
  {
    hide IsNext, Less;
    if h in v.nsec3 {
      var astray := AstrayBefore(v.nsec3, h);
      if p :| p in astray {
        assert Key(NSEC3_CHAIN_BROKEN, v.nsec3[p].owner, NSEC3) in OwnersOf(v.nsec3, astray);
        assert IsPrev(v.nsec3.Keys, h, p) && v.nsec3[p].next != h;
      } else {
        assert OwnersOf(v.nsec3, astray) == {};
        forall p | IsPrev(v.nsec3.Keys, h, p) ensures v.nsec3[p].next == h {
          assert p !in astray;
        }
      }
    }
  }

  lemma SignaturesNeverBreakTheChain(env: Env, v: StoreView, keys: seq<CachedKey>, h: Bytes)
    ensures ChainSilent(HashSignatureKeys(env, v, keys, h))
  {
  }

  lemma FoundSilentIff(env: Env, v: StoreView, keys: seq<CachedKey>, t: Touched)
    ensures ChainSilent(Found(env, v, keys, t)) <==> (Param(v).Some? ==> forall h | h in t.nsec3 ::
            LocallySound(v.nsec3, h))
  {
    hide LocallySound, LinkKeys, HashSignatureKeys, NodeKeys, Param;
    forall k | k in KeysIn(env, v, keys, t.names) ensures k.code != NSEC3_CHAIN_BROKEN {
      var n :| n in t.names && n in v.nodes && k in NodeKeys(env, v, keys, n);
      NodeKeysShape(env, v, keys, n);
    }
    forall h ensures ChainSilent(HashKeys(env, v, keys, h)) <==> LocallySound(v.nsec3, h) {
      LinksSilentIff(v, h);
      SignaturesNeverBreakTheChain(env, v, keys, h);
    }
    assert ChainSilent(HashesKeys(env, v, keys, t.nsec3)) <==> forall h | h in t.nsec3 ::
           ChainSilent(HashKeys(env, v, keys, h));
  }

  /** What the incremental pass does not look at: the entry that undecodable owners share, where one was added. */
  ghost predicate UnnotedSound(v: StoreView, cs: seq<Change>) {
    forall h | h in Unnoted(cs) :: LocallySound(v.nsec3, h)
  }

  /** After any change list on a zone whose ring was closed, the incremental pass stays silent about the chain, with
      nothing wrong where it does not look, exactly when the whole new ring is closed and no touched hash is gone. */
  lemma IncrementalDecidesRing(env: Env, v: StoreView, cs: seq<Change>, keys: seq<CachedKey>)
    requires Closed(v.nsec3) && Param(Steps(v, cs).0).Some?
    ensures var v', t := Steps(v, cs).0, TouchedBy(v, NOTHING, cs);
            ChainSilent(Found(env, v', keys, t)) && UnnotedSound(v', cs) <==>
            Closed(v'.nsec3) && t.nsec3 + Unnoted(cs) <= v'.nsec3.Keys
  {
    hide Closed, Found, LocallySound, Param, Unnoted;
    var v', t := Steps(v, cs).0, TouchedBy(v, NOTHING, cs);
    TouchedCoversChanges(v, NOTHING, cs);
    FoundSilentIff(env, v', keys, t);
    LocalChecksDecideRing(v.nsec3, v'.nsec3, t.nsec3 + Unnoted(cs));
  }

  /** As long as no NSEC3 with an undecodable owner is added, silence alone decides. */
  lemma SilenceDecidesRing(env: Env, v: StoreView, cs: seq<Change>, keys: seq<CachedKey>)
    requires Closed(v.nsec3) && Param(Steps(v, cs).0).Some? && forall c | c in cs && c.Add? :: !UndecodableOwner(c.rr)
    ensures var v', t := Steps(v, cs).0, TouchedBy(v, NOTHING, cs);
            ChainSilent(Found(env, v', keys, t)) <==> Closed(v'.nsec3) && t.nsec3 <= v'.nsec3.Keys
  {
    hide Closed, Found, LocallySound, Param;
    IncrementalDecidesRing(env, v, cs, keys);
    assert Unnoted(cs) == {};
  }

  /** A silent incremental pass therefore leaves every possible hash answered by exactly one record. */
  lemma SilentPassDeniesExactlyOnce(env: Env, v: StoreView, cs: seq<Change>, keys: seq<CachedKey>, x: Bytes)
    returns (c: Bytes)
    requires Closed(v.nsec3) && Param(Steps(v, cs).0).Some? && Steps(v, cs).0.nsec3 != map[]
    requires ChainSilent(Found(env, Steps(v, cs).0, keys, TouchedBy(v, NOTHING, cs))) &&
             UnnotedSound(Steps(v, cs).0, cs)
    ensures forall h :: Answers(Steps(v, cs).0.nsec3, h, x) <==> h == c
  {
    hide Closed, Found, Answers, UnnotedSound;
    IncrementalDecidesRing(env, v, cs, keys);
    c := DeniesExactlyOnce(Steps(v, cs).0.nsec3, x);
  }

  // ---------------------------------------------------------------------------
  // Findings that depend on one name alone
  // ---------------------------------------------------------------------------

  /** Signature findings on types other than NSEC3, and the NSEC findings of one name. */
  predicate IsLocal(k: Key) {
    k.rtype != NSEC3 && (k.code in CODES || k.code == NSEC_MISSING || k.code == NSEC_BITMAP_MISMATCH)
  }

  ghost function Local(keys: set<Key>): set<Key> {
    set k | k in keys && IsLocal(k)
  }

  ghost function LocalAt(env: Env, v: StoreView, keys: seq<CachedKey>, n: Name): set<Key> {
    if n in v.nodes then Local(NodeKeys(env, v, keys, n)) else {}
  }

  /** What is wrong with the NSEC of a node, if anything, were the node authoritative. */
  function NSECDefect(node: NodeView): Option<Code> {
    if NSEC3 in node.sets then None
    else if NSEC !in node.sets || node.sets[NSEC].rdata == [] then Some(NSEC_MISSING)
    else
      var first := Unpack(node.sets[NSEC])[0];
      if first.data.NSECData? && Elements(first.data.bitmap) != ExpectedTypes(node, false)
      then Some(NSEC_BITMAP_MISMATCH) else None
  }

  /** What would be reported at a name were it authoritative. */
  ghost function Defects(env: Env, v: StoreView, keys: seq<CachedKey>, n: Name): set<Key> {
    if n !in v.nodes then {}
    else
      SignatureKeys(env, keys, n, v.nodes[n], v.nodes[n].sets.Keys) +
      if Param(v).None? && !IsNSEC3Owner(n, v.origin) then KeyOf(NSECDefect(v.nodes[n]), n, NSEC) else {}
  }

  lemma SignatureKeysAreLocal(env: Env, keys: seq<CachedKey>, n: Name, node: NodeView)
    requires WellFiled(n, node.sets)
    ensures Local(SignatureKeys(env, keys, n, node, node.sets.Keys)) == SignatureKeys(env, keys, n, node,
            node.sets.Keys)
  {
  }

  lemma LocalUnion(a: set<Key>, b: set<Key>)
    ensures Local(a + b) == Local(a) + Local(b)
  {
  }

  lemma LocalDenial(env: Env, v: StoreView, n: Name)
    requires n in v.nodes
    ensures Local(DenialKeys(env, v, n)) ==
            if Param(v).None? && !IsNSEC3Owner(n, v.origin) && Authoritative(v, n)
            then KeyOf(NSECDefect(v.nodes[n]), n, NSEC) else {}
  {
    hide Param, Authoritative, IsNSEC3Owner, NeedsNSEC3, ExpectedTypes;
  }

  /** What is reported at a name is its defects when it is authoritative, and nothing otherwise. */
  lemma LocalAtIs(env: Env, v: StoreView, keys: seq<CachedKey>, n: Name)
    requires NodesOk(v)
    ensures LocalAt(env, v, keys, n) == if n in v.nodes && Authoritative(v, n) then Defects(env, v, keys, n) else {}
  {
    hide Param, Authoritative, IsNSEC3Owner, SignatureKeys, NSECDefect, DenialKeys, Local, KeyOf;
    if n in v.nodes {
      assert NodeOk(v.origin, n, v.nodes[n]);
      LocalUnion(AuthorityKeys(env, v, keys, n), DenialKeys(env, v, n));
      SignatureKeysAreLocal(env, keys, n, v.nodes[n]);
      LocalDenial(env, v, n);
      NoLocals();
    }
  }

  lemma NoLocals()
    ensures Local({}) == {}
  {
  }

  /** The local findings over a set of names. */
  ghost function LocalOver(env: Env, v: StoreView, keys: seq<CachedKey>, names: set<Name>): set<Key> {
    set n, k | n in names && k in LocalAt(env, v, keys, n) :: k
  }

  lemma LocalOverIs(env: Env, v: StoreView, keys: seq<CachedKey>, names: set<Name>, k: Key)
    ensures k in LocalOver(env, v, keys, names) <==> k.owner in names && k in LocalAt(env, v, keys, k.owner)
  {
    if n :| n in names && k in LocalAt(env, v, keys, n) { NodeKeysShape(env, v, keys, n); }
  }

  lemma LocalOfKeysIn(env: Env, v: StoreView, keys: seq<CachedKey>, names: set<Name>)
    ensures Local(KeysIn(env, v, keys, names)) == LocalOver(env, v, keys, names)
  {
    hide NodeKeys;
    forall k ensures k in Local(KeysIn(env, v, keys, names)) <==> k in LocalOver(env, v, keys, names) {
      if k in Local(KeysIn(env, v, keys, names)) {
        var n :| n in names && n in v.nodes && k in NodeKeys(env, v, keys, n);
        assert k in LocalAt(env, v, keys, n);
      }
      if n :| n in names && k in LocalAt(env, v, keys, n) {
        assert k in NodeKeys(env, v, keys, n);
      }
    }
  }

  lemma ApexAndChainAreNotLocal(env: Env, v: StoreView, keys: seq<CachedKey>)
    ensures Local(ApexKeys(env, v, keys)) == {} && Local(ChainKeys(v)) == {}
  {
    hide Param, Broken, NSECBroken, TagsCollide, SignedByKSK, IterationsDiffer;
  }

  ghost predicate SignedWith(env: Env, v: StoreView, keys: seq<CachedKey>) {
    SOA in SetsAt(v, v.origin) && KeyRecords(v) != [] && CachedKeys(env, KeyRecords(v)) == Some(keys)
  }

  lemma LocalOfFull(env: Env, v: StoreView, keys: seq<CachedKey>)
    requires SignedWith(env, v, keys)
    ensures Local(FullKeys(env, v)) == LocalOver(env, v, keys, v.nodes.Keys)
  {
    hide KeyRecords, CachedKeys, ApexKeys, ChainKeys, KeysIn, Local, LocalOver;
    ApexAndChainAreNotLocal(env, v, keys);
    LocalOfKeysIn(env, v, keys, v.nodes.Keys);
    LocalUnion(ApexKeys(env, v, keys) + KeysIn(env, v, keys, v.nodes.Keys), ChainKeys(v));
    LocalUnion(ApexKeys(env, v, keys), KeysIn(env, v, keys, v.nodes.Keys));
  }

  lemma HashKeysAreNotLocal(env: Env, v: StoreView, keys: seq<CachedKey>, hashes: set<Bytes>)
    requires NodesOk(v)
    ensures Local(HashesKeys(env, v, keys, hashes)) == {}
  {
    hide IsNext, AstrayBefore, ReportsCode;
    forall h, k | h in hashes && k in HashKeys(env, v, keys, h) ensures !IsLocal(k) {
      if k in HashSignatureKeys(env, v, keys, h) {
        var o := v.nsec3[h].owner;
        assert NodeOk(v.origin, o, v.nodes[o]);
      }
    }
  }

  lemma LocalOfFound(env: Env, v: StoreView, keys: seq<CachedKey>, t: Touched)
    requires NodesOk(v)
    ensures Local(Found(env, v, keys, t)) == LocalOver(env, v, keys, t.names)
  {
    hide Param, KeysIn, HashesKeys, Local, LocalOver, NodesOk;
    HashKeysAreNotLocal(env, v, keys, t.nsec3);
    LocalOfKeysIn(env, v, keys, t.names);
    LocalUnion(KeysIn(env, v, keys, t.names), HashesKeys(env, v, keys, t.nsec3));
    LocalUnion(KeysIn(env, v, keys, t.names), {});
    NoLocals();
  }

  // ---------------------------------------------------------------------------
  // One incremental pass
  // ---------------------------------------------------------------------------

  /** The record at every touched hash belongs to a touched name. */
  ghost predicate HashOwnersTouched(v: StoreView, t: Touched) {
    forall h | h in t.nsec3 && h in v.nsec3 :: v.nsec3[h].owner in t.names
  }

  /** No untouched name with defects gained or lost its authority. */
  ghost predicate AuthorityKept(env: Env, v: StoreView, v': StoreView, keys: seq<CachedKey>, t: Touched) {
    forall n | n in v'.nodes && n !in t.names ::
      Authoritative(v, n) == Authoritative(v', n) || Defects(env, v', keys, n) == {}
  }

  lemma UntouchedDefects(env: Env, v: StoreView, v': StoreView, keys: seq<CachedKey>, t: Touched, n: Name)
    requires Covered(v, v', t) && n !in t.names && Param(v) == Param(v')
    ensures n in v.nodes <==> n in v'.nodes
    ensures Defects(env, v, keys, n) == Defects(env, v', keys, n)
  {
    hide SignatureKeys, NSECDefect, IsNSEC3Owner, Param;
    assert SameNode(v, v', n);
  }

  /** At an untouched name nothing changes exactly when its authority is kept or it has no defects. */
  lemma UntouchedLocals(env: Env, v: StoreView, v': StoreView, keys: seq<CachedKey>, t: Touched, n: Name)
    requires NodesOk(v) && NodesOk(v') && Covered(v, v', t) && n !in t.names && Param(v) == Param(v')
    ensures LocalAt(env, v, keys, n) == LocalAt(env, v', keys, n) <==>
            (n in v'.nodes ==> Authoritative(v, n) == Authoritative(v', n) || Defects(env, v', keys, n) == {})
  {
    hide Defects, Authoritative, LocalAt, NodesOk, Covered, Param;
    UntouchedDefects(env, v, v', keys, t, n);
    LocalAtIs(env, v, keys, n);
    LocalAtIs(env, v', keys, n);
  }

  lemma OwnersAreNames(v: StoreView, t: Touched)
    requires HashOwnersTouched(v, t)
    ensures Owners(v, t) == t.names
  {
  }

  lemma LocalOfMerged(prev: set<Key>, next: set<Key>, owners: set<Name>, k: Key)
    requires owners != {}
    ensures k in Local(MergedKeys(prev, next, owners)) <==> k in Local(next) || (k in Local(prev) && k.owner !in owners)
  {
  }

  /** Where the merged findings and those of a full pass agree. */
  lemma MergedAgreesAt(env: Env, v: StoreView, v': StoreView, keys: seq<CachedKey>, t: Touched, prev: set<Key>, k: Key)
    requires NodesOk(v) && NodesOk(v') && Covered(v, v', t) && HashOwnersTouched(v', t) && t.names != {}
    requires Local(prev) == LocalOver(env, v, keys, v.nodes.Keys)
    ensures k in Local(MergedKeys(prev, Found(env, v', keys, t), Owners(v', t))) <==>
            if k.owner in t.names then k in LocalAt(env, v', keys, k.owner) else k in LocalAt(env, v, keys, k.owner)
  {
    hide Local, LocalOver, NodesOk, Covered, Found, Owners, HashOwnersTouched;
    OwnersAreNames(v', t);
    LocalOfMerged(prev, Found(env, v', keys, t), Owners(v', t), k);
    LocalOfFound(env, v', keys, t);
    LocalOverIs(env, v', keys, t.names, k);
    LocalOverIs(env, v, keys, v.nodes.Keys, k);
  }

  ghost predicate SameLocals(env: Env, v: StoreView, v': StoreView, keys: seq<CachedKey>, t: Touched) {
    forall n | n !in t.names :: LocalAt(env, v, keys, n) == LocalAt(env, v', keys, n)
  }

  lemma KeptIsSame(env: Env, v: StoreView, v': StoreView, keys: seq<CachedKey>, t: Touched)
    requires NodesOk(v) && NodesOk(v') && Covered(v, v', t) && Param(v) == Param(v')
    ensures SameLocals(env, v, v', keys, t) <==> AuthorityKept(env, v, v', keys, t)
  {
    hide LocalAt, Defects, Authoritative, NodesOk, Covered, Param;
    forall n | n !in t.names
      ensures LocalAt(env, v, keys, n) == LocalAt(env, v', keys, n) <==>
              (n in v'.nodes ==> Authoritative(v, n) == Authoritative(v', n) || Defects(env, v', keys, n) == {})
    {
      UntouchedLocals(env, v, v', keys, t, n);
    }
  }

  /** The merge gives what a full pass gives at every name exactly when authority is kept. */
  lemma MergeRefinesFull(env: Env, v: StoreView, v': StoreView, keys: seq<CachedKey>, t: Touched, prev: set<Key>)
    requires NodesOk(v) && NodesOk(v') && Covered(v, v', t) && HashOwnersTouched(v', t) && t.names != {}
    requires SignedWith(env, v, keys) && SignedWith(env, v', keys) && Param(v) == Param(v')
    requires Local(prev) == Local(FullKeys(env, v))
    ensures Local(MergedKeys(prev, Found(env, v', keys, t), Owners(v', t))) == Local(FullKeys(env, v')) <==>
            AuthorityKept(env, v, v', keys, t)
  {
    hide Local, LocalOver, LocalAt, FullKeys, MergedKeys, Found, Owners, NodesOk, Covered, HashOwnersTouched,
         SignedWith, AuthorityKept, Param;
    LocalOfFull(env, v, keys);
    LocalOfFull(env, v', keys);
    KeptIsSame(env, v, v', keys, t);
    var merged, full := Local(MergedKeys(prev, Found(env, v', keys, t), Owners(v', t))), Local(FullKeys(env, v'));
    forall k
      ensures k in full <==> k in LocalAt(env, v', keys, k.owner)
      ensures k in merged <==>
              if k.owner in t.names then k in LocalAt(env, v', keys, k.owner) else k in LocalAt(env, v, keys, k.owner)
    {
      MergedAgreesAt(env, v, v', keys, t, prev, k);
      LocalOverIs(env, v', keys, v'.nodes.Keys, k);
      AbsentHasNone(env, v', keys, k.owner);
    }
    OwnedKeysDecide(env, v, v', keys, t, merged, full);
  }

  lemma AbsentHasNone(env: Env, v: StoreView, keys: seq<CachedKey>, n: Name)
    ensures n !in v.nodes ==> LocalAt(env, v, keys, n) == {}
  {
  }

  lemma OwnedKeysDecide(env: Env, v: StoreView, v': StoreView, keys: seq<CachedKey>, t: Touched, merged: set<Key>,
          full: set<Key>)
    requires forall k :: k in full <==> k in LocalAt(env, v', keys, k.owner)
    requires forall k :: k in merged <==>
               if k.owner in t.names then k in LocalAt(env, v', keys, k.owner) else k in LocalAt(env, v, keys, k.owner)
    ensures merged == full <==> SameLocals(env, v, v', keys, t)
  {
    hide LocalAt;
    if merged == full {
      forall n | n !in t.names ensures LocalAt(env, v, keys, n) == LocalAt(env, v', keys, n) {
        forall k ensures k in LocalAt(env, v, keys, n) <==> k in LocalAt(env, v', keys, n) {
          LocalOwner(env, v, keys, n, k);
          LocalOwner(env, v', keys, n, k);
        }
      }
    }
  }

  lemma LocalOwner(env: Env, v: StoreView, keys: seq<CachedKey>, n: Name, k: Key)
    ensures k in LocalAt(env, v, keys, n) ==> k.owner == n
  {
    if n in v.nodes { NodeKeysShape(env, v, keys, n); }
  }

  /** Without a delegation appearing or disappearing strictly above an untouched name, authority is kept. */
  lemma NoCutChangeKeepsAuthority(env: Env, v: StoreView, v': StoreView, keys: seq<CachedKey>, t: Touched)
    requires v.origin == v'.origin
    requires forall n, k | n in v'.nodes && n !in t.names && 1 <= k < |n| :: n[k..] in Cuts(v) <==> n[k..] in Cuts(v')
    ensures AuthorityKept(env, v, v', keys, t)
  {
    hide Defects, UnderCut, Cuts;
    forall n | n in v'.nodes && n !in t.names ensures Authoritative(v, n) == Authoritative(v', n) {
      UnderCutDependsOnAncestors(Cuts(v), Cuts(v'), v.origin, n);
    }
  }

  /** With nothing touched the owner set is empty, and the merge closes every finding. */
  lemma NothingTouchedClosesAll(env: Env, v: StoreView, keys: seq<CachedKey>, prev: set<Key>)
    ensures MergedKeys(prev, Found(env, v, keys, NOTHING), Owners(v, NOTHING)) == {}
  {
  }

  // ---------------------------------------------------------------------------
  // Runs of change lists
  // ---------------------------------------------------------------------------

  ghost predicate WellFormed(cs: seq<Change>) {
    forall c | c in cs :: c.rr.Packs() && c.rr.ClassAccepted()
  }

  lemma StepTouchesHashOwners(v: StoreView, t: Touched, c: Change)
    requires Good(v) && Admissible(v, c) && Step(v, c).Some? && c.rr.Packs() && c.rr.ClassAccepted()
    requires HashOwnersTouched(v, t)
    ensures HashOwnersTouched(Step(v, c).value, Counted(Noted(t, c.rr), c))
  {
    hide Good, Admissible, Step, Shape, Agree, Consistent, SerialAgrees, HashFromOwner;
    StepIndex(v, c);
  }

  /** What one step does to the hash index. */
  lemma StepIndex(v: StoreView, c: Change)
    requires Good(v) && Admissible(v, c) && Step(v, c).Some? && c.rr.Packs() && c.rr.ClassAccepted()
    ensures var index, h := Step(v, c).value.nsec3, HashFromOwner(c.rr.name);
            if !c.rr.data.NSEC3Data? then index == v.nsec3 && c.rr.Type() != NSEC3
            else if c.Add? then index == v.nsec3[NSEC3Key(c.rr.name) := MakeNSEC3Rec(c.rr)]
            else index == if h.Some? then v.nsec3 - {h.value} else v.nsec3
  {
    hide Agree, Consistent, SerialAgrees, RecordsOf;
    match c
    case Add(rr) => AddSteps(v, rr);
    case Remove(rr) =>
      RecordsAreStored(v);
      if rr.name in v.nodes {
        RemoveSteps(v, rr);
      } else if rr.data.NSEC3Data? && HashFromOwner(rr.name).Some? {
        UnusedEntry(v, rr);
      }
  }

  lemma UnusedEntry(v: StoreView, rr: RR)
    requires Agree(v) && rr.data.NSEC3Data? && forall x | x in RecordsOf(v) :: !SameEntry(x, rr)
    ensures NSEC3Key(rr.name) !in v.nsec3
  {
  }

  lemma {:induction false} RunTouchesHashOwners(v: StoreView, t: Touched, cs: seq<Change>)
    requires Good(v) && AdmissibleRun(v, cs) && WellFormed(cs) && HashOwnersTouched(v, t)
    ensures HashOwnersTouched(Steps(v, cs).0, TouchedBy(v, t, cs)) || !Steps(v, cs).1
    decreases |cs|
  {
    hide Good, Admissible, Step, HashOwnersTouched, Noted, Counted;
    if cs != [] && Step(v, cs[0]).Some? {
      assert cs[0] in cs;
      StepTouchesHashOwners(v, t, cs[0]);
      StepKeepsGood(v, cs[0]);
      RunTouchesHashOwners(Step(v, cs[0]).value, Counted(Noted(t, cs[0].rr), cs[0]), cs[1..]);
    }
  }

  lemma {:induction false} RunTouchesNames(v: StoreView, t: Touched, cs: seq<Change>)
    requires Steps(v, cs).1
    ensures forall c | c in cs :: c.rr.name in TouchedBy(v, t, cs).names
    ensures t.names <= TouchedBy(v, t, cs).names
    decreases |cs|
  {
    hide Step;
    if cs != [] {
      RunTouchesNames(Step(v, cs[0]).value, Counted(Noted(t, cs[0].rr), cs[0]), cs[1..]);
      assert cs == [cs[0]] + cs[1..];
    }
  }

  /** Keys and NSEC3 parameters are as before when no flag was raised. */
  lemma UnflaggedKeepsKeys(v: StoreView, cs: seq<Change>)
    requires Steps(v, cs).1 && !Escalates(Some(TouchedBy(v, NOTHING, cs)))
    ensures var v' := Steps(v, cs).0;
            v'.origin == v.origin ==> KeyRecords(v') == KeyRecords(v) && Param(v') == Param(v)
  {
    hide Steps, TouchedBy, SetAt;
    TouchedFlags(v, NOTHING, cs);
    AllAttempted(v, cs);
    OtherTypesUnchanged(v, cs, DNSKEY);
    OtherTypesUnchanged(v, cs, NSEC3PARAM);
    SameSetSameKeys(v, Steps(v, cs).0);
  }

  lemma SameSetSameKeys(v: StoreView, v': StoreView)
    requires forall n :: SetAt(v', n, DNSKEY) == SetAt(v, n, DNSKEY)
    requires forall n :: SetAt(v', n, NSEC3PARAM) == SetAt(v, n, NSEC3PARAM)
    ensures v'.origin == v.origin ==> KeyRecords(v') == KeyRecords(v) && Param(v') == Param(v)
  {
    hide KeyRecordsIn, Unpack;
    var a, b := SetAt(v', v.origin, DNSKEY), SetAt(v', v.origin, NSEC3PARAM);
  }

  /** A change list that went through on a zone in good order. */
  ghost predicate Applied(v: StoreView, cs: seq<Change>) {
    Good(v) && AdmissibleRun(v, cs) && WellFormed(cs) && Steps(v, cs).1 && cs != []
  }

  ghost predicate Usable(env: Env, v: StoreView) {
    KeyRecords(v) != [] && CachedKeys(env, KeyRecords(v)).Some?
  }

  /** The exact condition under which the incremental pass gives what a full pass would. */
  ghost predicate Refines(env: Env, v: StoreView, cs: seq<Change>) {
    var v', t := Steps(v, cs).0, TouchedBy(v, NOTHING, cs);
    || Escalates(Some(t)) || !Usable(env, v')
    || AuthorityKept(env, v, v', CachedKeys(env, KeyRecords(v')).value, t)
  }

  lemma AppliedFacts(v: StoreView, cs: seq<Change>)
    requires Applied(v, cs)
    ensures var v', t := Steps(v, cs).0, TouchedBy(v, NOTHING, cs);
            Good(v') && v'.origin == v.origin && Covered(v, v', t) && HashOwnersTouched(v', t) && t.names != {}
  {
    hide Good, AdmissibleRun, Steps, TouchedBy, HashOwnersTouched, Covered;
    RunKeepsGood(v, cs);
    WellFormedAddsDecodable(v, cs);
    TouchedCoversChanges(v, NOTHING, cs);
    assert Unnoted(cs) == {} && Widened(TouchedBy(v, NOTHING, cs), {}).nsec3 == TouchedBy(v, NOTHING, cs).nsec3;
    assert HashOwnersTouched(v, NOTHING) by { NothingNoted(v); }
    RunTouchesHashOwners(v, NOTHING, cs);
    RunTouchesNames(v, NOTHING, cs);
    assert cs[0] in cs;
  }

  lemma NothingNoted(v: StoreView)
    ensures HashOwnersTouched(v, NOTHING)
  {
  }

  /** Admissible additions have decodable owners. */
  lemma {:induction false} WellFormedAddsDecodable(v: StoreView, cs: seq<Change>)
    requires Good(v) && AdmissibleRun(v, cs) && WellFormed(cs) && Steps(v, cs).1
    ensures forall c | c in cs && c.Add? :: !UndecodableOwner(c.rr)
    decreases |cs|
  {
    hide Good, UndecodableOwner, Step;
    if cs != [] {
      assert cs[0] in cs;
      StepKeepsGood(v, cs[0]);
      WellFormedAddsDecodable(Step(v, cs[0]).value, cs[1..]);
      if cs[0].Add? { AdmissibleIsDecodable(v, cs[0].rr); }
      assert cs == [cs[0]] + cs[1..];
    }
  }

  lemma AdmissibleIsDecodable(v: StoreView, rr: RR)
    requires Admissible(v, Add(rr)) && rr.ClassAccepted()
    ensures !UndecodableOwner(rr)
  {
  }

  /** The incremental pass refines the full pass: started from findings that agree with a full pass on the old zone, it
      ends with findings that agree with a full pass on the new zone exactly when `Refines` holds. */
  lemma IncrementalRefinesFull(env: Env, v: StoreView, cs: seq<Change>, prev: set<Key>)
    requires Applied(v, cs) && SOA in SetsAt(v, v.origin) && SOA in SetsAt(Steps(v, cs).0, v.origin)
    requires Local(prev) == Local(FullKeys(env, v))
    ensures var v', t := Steps(v, cs).0, TouchedBy(v, NOTHING, cs);
            Local(IncrementalKeys(env, v', prev, Some(t))) == Local(FullKeys(env, v')) <==> Refines(env, v, cs)
  {
    hide Applied, Good, Steps, TouchedBy, Covered, HashOwnersTouched, AuthorityKept, KeyRecords, CachedKeys, Param,
         MergedKeys, Found, Owners, Local, SignedZoneKeys, SignedWith;
    var v', t := Steps(v, cs).0, TouchedBy(v, NOTHING, cs);
    AppliedFacts(v, cs);
    if !Escalates(Some(t)) && Usable(env, v') {
      AppliedWentThrough(v, cs);
      UnflaggedKeepsKeys(v, cs);
      GoodNodes(v);
      GoodNodes(v');
      UsableIsSigned(env, v);
      UsableIsSigned(env, v');
      var keys := CachedKeys(env, KeyRecords(v')).value;
      MergeRefinesFull(env, v, v', keys, t, prev);
    }
  }

  lemma UsableIsSigned(env: Env, v: StoreView)
    requires Usable(env, v) && SOA in SetsAt(v, v.origin)
    ensures SignedWith(env, v, CachedKeys(env, KeyRecords(v)).value)
  {
  }

  lemma AppliedWentThrough(v: StoreView, cs: seq<Change>)
    requires Applied(v, cs)
    ensures Good(v) && Steps(v, cs).1
  {
  }

  /** The findings after a history of change lists, each followed by an incremental pass. */
  ghost function FollowedBy(env: Env, v: StoreView, prev: set<Key>, history: seq<seq<Change>>): set<Key>
    decreases |history|
  {
    if history == [] then prev
    else
      var v' := Steps(v, history[0]).0;
      FollowedBy(env, v', IncrementalKeys(env, v', prev, Some(TouchedBy(v, NOTHING, history[0]))), history[1..])
  }

  ghost function After(v: StoreView, history: seq<seq<Change>>): StoreView
    decreases |history|
  {
    if history == [] then v else After(Steps(v, history[0]).0, history[1..])
  }

  /** A history of change lists that went through, on a zone that keeps its SOA. */
  ghost predicate Orderly(v: StoreView, history: seq<seq<Change>>)
    decreases |history|
  {
    SOA in SetsAt(v, v.origin) &&
    (history == [] || (Applied(v, history[0]) && Orderly(Steps(v, history[0]).0, history[1..])))
  }

  ghost predicate AllRefine(env: Env, v: StoreView, history: seq<seq<Change>>)
    decreases |history|
  {
    history == [] || (Refines(env, v, history[0]) && AllRefine(env, Steps(v, history[0]).0, history[1..]))
  }

  /** The findings agree with a full pass now and after every change list of the history. */
  ghost predicate AlwaysAgree(env: Env, v: StoreView, prev: set<Key>, history: seq<seq<Change>>)
    decreases |history|
  {
    && Local(prev) == Local(FullKeys(env, v))
    && (history == [] ||
        var v' := Steps(v, history[0]).0;
        AlwaysAgree(env, v', IncrementalKeys(env, v', prev, Some(TouchedBy(v, NOTHING, history[0]))), history[1..]))
  }

  /** Over every history, incremental passes never drift from the full pass exactly when every change list refines. */
  lemma {:induction false} IncrementalNeverDriftsIff(env: Env, v: StoreView, prev: set<Key>, history: seq<seq<Change>>)
    requires Orderly(v, history) && Local(prev) == Local(FullKeys(env, v))
    ensures AlwaysAgree(env, v, prev, history) <==> AllRefine(env, v, history)
    decreases |history|
  {
    hide Applied, Refines, Local, FullKeys, IncrementalKeys, Steps, TouchedBy;
    if history != [] {
      var v' := Steps(v, history[0]).0;
      var found := IncrementalKeys(env, v', prev, Some(TouchedBy(v, NOTHING, history[0])));
      AppliedKeepsOrigin(v, history[0]);
      IncrementalRefinesFull(env, v, history[0], prev);
      if Refines(env, v, history[0]) { IncrementalNeverDriftsIff(env, v', found, history[1..]); }
    }
  }

  lemma AppliedKeepsOrigin(v: StoreView, cs: seq<Change>)
    requires Applied(v, cs)
    ensures Steps(v, cs).0.origin == v.origin
  {
    RunKeepsGood(v, cs);
  }

  /** So the findings at the end of such a history are those of a full pass. */
  lemma {:induction false} IncrementalNeverDrifts(env: Env, v: StoreView, prev: set<Key>, history: seq<seq<Change>>)
    requires Orderly(v, history) && AllRefine(env, v, history) && Local(prev) == Local(FullKeys(env, v))
    ensures Local(FollowedBy(env, v, prev, history)) == Local(FullKeys(env, After(v, history)))
    decreases |history|
  {
    hide Applied, Refines, Local, FullKeys, IncrementalKeys, Steps, TouchedBy;
    if history != [] {
      var v' := Steps(v, history[0]).0;
      var found := IncrementalKeys(env, v', prev, Some(TouchedBy(v, NOTHING, history[0])));
      AppliedKeepsOrigin(v, history[0]);
      IncrementalRefinesFull(env, v, history[0], prev);
      IncrementalNeverDrifts(env, v', found, history[1..]);
    }
  }

  /** Whatever is added and removed, every index entry stays filed under its own hash. */
  lemma {:induction false} RunKeepsFiledByHash(v: StoreView, cs: seq<Change>)
    requires FiledByHash(v.nsec3)
    ensures FiledByHash(Steps(v, cs).0.nsec3)
    decreases |cs|
  {
    if cs != [] && Step(v, cs[0]).Some? {
      match cs[0] {
        case Add(rr) => if rr.ClassAccepted() { AddSteps(v, rr); }
        case Remove(rr) => if rr.name in v.nodes { RemoveSteps(v, rr); }
      }
      RunKeepsFiledByHash(Step(v, cs[0]).value, cs[1..]);
    }
  }
}

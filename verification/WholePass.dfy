/** Every kind of finding of an incremental pass against a full pass: for each, exactly when the two agree. */
module WholePass {
  import opened Bytes
  import opened Names
  import opened Records
  import opened StoreSpec
  import opened Ring
  import opened Findings
  import opened Signatures
  import opened Verify
  import opened FullPass
  import opened Incremental
  import opened Refinement

  // ---------------------------------------------------------------------------
  // Kinds of findings
  // ---------------------------------------------------------------------------

  /** Findings about the NSEC3 of one name. */
  predicate IsPresence(k: Key) {
    k.code == NSEC3_MISSING || k.code == NSEC3_BITMAP_MISMATCH || k.code == NSEC3_OPTOUT_VIOLATION
  }

  predicate IsChain(k: Key) {
    k.code == NSEC_CHAIN_BROKEN
  }

  predicate IsRing(k: Key) {
    k.code == NSEC3_CHAIN_BROKEN
  }

  predicate IsApex(k: Key) {
    k.code == KEYTAG_COLLISION_LIMIT || k.code == DNSKEY_NOT_SIGNED_BY_KSK
  }

  predicate IsParam(k: Key) {
    k.code == NSEC3PARAM_MISMATCH
  }

  /** Signature findings on NSEC3 RRsets. */
  predicate IsHashSignature(k: Key) {
    k.rtype == NSEC3 && k.code in CODES
  }

  ghost function Only(kind: Key -> bool, keys: set<Key>): set<Key> {
    set k | k in keys && kind(k)
  }

  /** Two zones signed with the same keys, the second made from the first by changes that `t` covers. */
  ghost predicate Comparable(env: Env, v: StoreView, v': StoreView, keys: seq<CachedKey>, t: Touched) {
    && Good(v) && Good(v') && Covered(v, v', t) && HashOwnersTouched(v', t) && t.names != {}
    && SignedWith(env, v, keys) && SignedWith(env, v', keys) && Param(v) == Param(v')
  }

  /** What the pass leaves as findings, merged into those from before. */
  ghost function Merging(env: Env, v: StoreView, keys: seq<CachedKey>, t: Touched, prev: set<Key>): set<Key> {
    MergedKeys(prev, Found(env, v, keys, t), Owners(v, t))
  }

  lemma FullHas(env: Env, v: StoreView, keys: seq<CachedKey>, k: Key)
    requires SignedWith(env, v, keys)
    ensures k in FullKeys(env, v) <==>
            || k in ApexKeys(env, v, keys) || k in ChainKeys(v)
            || (k.owner in v.nodes && k in NodeKeys(env, v, keys, k.owner))
  {
    hide NodeKeys, ApexKeys, ChainKeys, KeyRecords, CachedKeys;
    forall n | n in v.nodes && k in NodeKeys(env, v, keys, n) ensures n == k.owner { NodeKeysShape(env, v, keys, n); }
  }

  lemma FoundHas(env: Env, v: StoreView, keys: seq<CachedKey>, t: Touched, k: Key)
    ensures k in Found(env, v, keys, t) <==>
            || (k.owner in t.names && k.owner in v.nodes && k in NodeKeys(env, v, keys, k.owner))
            || (Param(v).Some? && exists h | h in t.nsec3 :: k in HashKeys(env, v, keys, h))
  {
    hide NodeKeys, HashKeys, Param;
    forall n | n in v.nodes && k in NodeKeys(env, v, keys, n) ensures n == k.owner { NodeKeysShape(env, v, keys, n); }
  }

  /** What a pass leaves: what it found, and what was known before about names that are neither touched nor the owner of
      a touched entry. */
  lemma MergingMeans(env: Env, v: StoreView, keys: seq<CachedKey>, t: Touched, prev: set<Key>, k: Key)
    requires t.names != {}
    ensures k in Merging(env, v, keys, t, prev) <==>
            || k in Found(env, v, keys, t)
            || (k in prev && k.owner !in t.names &&
                forall h | h in t.nsec3 && h in v.nsec3 :: v.nsec3[h].owner != k.owner)
  {
    hide Found;
    var n :| n in t.names;
    assert n in Owners(v, t);
  }

  lemma MergedHas(env: Env, v: StoreView, v': StoreView, keys: seq<CachedKey>, t: Touched, prev: set<Key>,
          kind: Key -> bool, k: Key)
    requires Comparable(env, v, v', keys, t) && Only(kind, prev) == Only(kind, FullKeys(env, v)) && kind(k)
    ensures k in Merging(env, v', keys, t, prev) <==>
            k in Found(env, v', keys, t) || (k in FullKeys(env, v) && k.owner !in t.names)
  {
    hide Good, Covered, SignedWith, FullKeys, Found, Param;
    OwnersAreNames(v', t);
    assert k in Only(kind, prev) <==> k in Only(kind, FullKeys(env, v));
  }

  lemma NodeKind(env: Env, v: StoreView, keys: seq<CachedKey>, n: Name, k: Key)
    requires NodesOk(v) && n in v.nodes && k in NodeKeys(env, v, keys, n)
    ensures IsLocal(k) || IsPresence(k)
  {
    hide Param, Authoritative, ReportsCode, IsNSEC3Owner;
    assert NodeOk(v.origin, n, v.nodes[n]);
  }

  lemma HashKind(env: Env, v: StoreView, keys: seq<CachedKey>, h: Bytes, k: Key)
    requires NodesOk(v) && k in HashKeys(env, v, keys, h)
    ensures if IsRing(k) then k in LinkKeys(v, h) else IsHashSignature(k) && k in HashSignatureKeys(env, v, keys, h)
  {
    hide IsNext, AstrayBefore, ReportsCode;
    if k in HashSignatureKeys(env, v, keys, h) {
      var o := v.nsec3[h].owner;
      assert NodeOk(v.origin, o, v.nodes[o]);
    }
  }

  lemma ChainKind(v: StoreView, k: Key)
    requires k in ChainKeys(v)
    ensures IsChain(k) || IsRing(k) || IsParam(k)
  {
    hide Param, Broken, NSECBroken, IterationsDiffer;
  }

  lemma ApexKind(env: Env, v: StoreView, keys: seq<CachedKey>, k: Key)
    requires k in ApexKeys(env, v, keys)
    ensures IsApex(k) && k.owner == v.origin
  {
    hide TagsCollide, SignedByKSK;
  }

  /** Which parts of a full pass a finding of some kind can come from. */
  lemma FullByKind(env: Env, v: StoreView, keys: seq<CachedKey>, k: Key)
    requires SignedWith(env, v, keys) && NodesOk(v)
    ensures IsApex(k) ==> (k in FullKeys(env, v) <==> k in ApexKeys(env, v, keys))
    ensures IsChain(k) || IsRing(k) || IsParam(k) ==> (k in FullKeys(env, v) <==> k in ChainKeys(v))
    ensures IsPresence(k) ==>
              (k in FullKeys(env, v) <==> k.owner in v.nodes && k in NodeKeys(env, v, keys, k.owner))
    ensures k in FullKeys(env, v) ==>
              IsLocal(k) || IsPresence(k) || IsChain(k) || IsRing(k) || IsApex(k) || IsParam(k)
    ensures IsHashSignature(k) ==> k !in FullKeys(env, v)
  {
    hide NodeKeys, ApexKeys, ChainKeys, SignedWith, FullKeys, NodesOk;
    FullHas(env, v, keys, k);
    if k.owner in v.nodes && k in NodeKeys(env, v, keys, k.owner) { NodeKind(env, v, keys, k.owner, k); }
    if k in ChainKeys(v) { ChainKind(v, k); }
    if k in ApexKeys(env, v, keys) { ApexKind(env, v, keys, k); }
  }

  /** And which parts of an incremental one. */
  lemma FoundByKind(env: Env, v: StoreView, keys: seq<CachedKey>, t: Touched, k: Key)
    requires NodesOk(v)
    ensures IsApex(k) || IsChain(k) || IsParam(k) ==> k !in Found(env, v, keys, t)
    ensures IsRing(k) ==> (k in Found(env, v, keys, t) <==>
              Param(v).Some? && exists h | h in t.nsec3 :: k in LinkKeys(v, h))
    ensures IsHashSignature(k) ==> (k in Found(env, v, keys, t) <==>
              Param(v).Some? && exists h | h in t.nsec3 :: k in HashSignatureKeys(env, v, keys, h))
    ensures IsPresence(k) ==> (k in Found(env, v, keys, t) <==>
              k.owner in t.names && k.owner in v.nodes && k in NodeKeys(env, v, keys, k.owner))
    ensures k in Found(env, v, keys, t) ==> IsLocal(k) || IsPresence(k) || IsRing(k) || IsHashSignature(k)
  {
    hide NodeKeys, LinkKeys, HashSignatureKeys, Found, Param, NodesOk;
    FoundHas(env, v, keys, t, k);
    if k.owner in v.nodes && k in NodeKeys(env, v, keys, k.owner) { NodeKind(env, v, keys, k.owner, k); }
    forall h | h in t.nsec3 && k in HashKeys(env, v, keys, h)
      ensures if IsRing(k) then k in LinkKeys(v, h)
              else IsHashSignature(k) && k in HashSignatureKeys(env, v, keys, h)
    {
      HashKind(env, v, keys, h, k);
    }
  }

  // ---------------------------------------------------------------------------
  // The NSEC chain
  // ---------------------------------------------------------------------------

  /** An NSEC owner of a zone without hashed denial whose NSEC misses the next owner. */
  ghost predicate NSECAstray(v: StoreView, n: Name) {
    Param(v).None? && n in NSECNames(v) && NSECBroken(v, n)
  }

  /** No touched name misses the next owner, and every other name does exactly when it did. */
  ghost predicate ChainKept(v: StoreView, v': StoreView, t: Touched) {
    && (forall n | n in t.names :: !NSECAstray(v', n))
    && (forall n | n !in t.names :: NSECAstray(v', n) <==> NSECAstray(v, n))
  }

  lemma ChainHas(env: Env, v: StoreView, keys: seq<CachedKey>, k: Key)
    requires SignedWith(env, v, keys) && NodesOk(v) && IsChain(k)
    ensures k in FullKeys(env, v) <==> k.rtype == NSEC && NSECAstray(v, k.owner)
  {
    hide SignedWith, FullKeys, NodesOk, Param, NSECBroken, IterationsDiffer, Broken;
    FullByKind(env, v, keys, k);
  }

  /** The pass never looks at the NSEC chain; what it leaves about it is what a full pass finds exactly in this case. */
  lemma ChainAgreesIff(env: Env, v: StoreView, v': StoreView, keys: seq<CachedKey>, t: Touched, prev: set<Key>)
    requires Comparable(env, v, v', keys, t) && Only(IsChain, prev) == Only(IsChain, FullKeys(env, v))
    ensures Only(IsChain, Merging(env, v', keys, t, prev)) == Only(IsChain, FullKeys(env, v')) <==>
            ChainKept(v, v', t)
  {
    hide Good, Covered, SignedWith, FullKeys, Found, Param, NSECAstray, Merging, HashOwnersTouched;
    GoodNodes(v);
    GoodNodes(v');
    var left, full := Only(IsChain, Merging(env, v', keys, t, prev)), Only(IsChain, FullKeys(env, v'));
    forall k | IsChain(k)
      ensures k in left <==> k.rtype == NSEC && NSECAstray(v, k.owner) && k.owner !in t.names
      ensures k in full <==> k.rtype == NSEC && NSECAstray(v', k.owner)
    {
      MergedHas(env, v, v', keys, t, prev, IsChain, k);
      FoundByKind(env, v', keys, t, k);
      ChainHas(env, v, keys, k);
      ChainHas(env, v', keys, k);
    }
    forall n
      ensures Key(NSEC_CHAIN_BROKEN, n, NSEC) in left <==> NSECAstray(v, n) && n !in t.names
      ensures Key(NSEC_CHAIN_BROKEN, n, NSEC) in full <==> NSECAstray(v', n)
    {
    }
    if left == full {
      forall n ensures NSECAstray(v', n) <==> NSECAstray(v, n) && n !in t.names {
        assert Key(NSEC_CHAIN_BROKEN, n, NSEC) in left <==> Key(NSEC_CHAIN_BROKEN, n, NSEC) in full;
      }
    }
  }

  // ---------------------------------------------------------------------------
  // The NSEC3 of every name
  // ---------------------------------------------------------------------------

  /** What the presence check reports at a name. */
  function PresenceAt(env: Env, v: StoreView, n: Name): Option<Code> {
    if n in v.nodes && Param(v).Some? then NSEC3Code(env, v, Param(v).value, n) else None
  }

  /** What is wrong with the entry at the hash of a node, were the node in need of one. */
  function EntryDefect(v: StoreView, node: NodeView, hash: Bytes): Option<Code> {
    if hash !in v.nsec3 then Some(if node.isDelegation && node.hasDS then NSEC3_OPTOUT_VIOLATION else NSEC3_MISSING)
    else if Elements(v.nsec3[hash].bitmap) != ExpectedTypes(node, true) then Some(NSEC3_BITMAP_MISMATCH)
    else None
  }

  /** At every untouched name with its need for an NSEC3 unchanged, a touched entry at its hash is as right or wrong as
      before; where the need came or went, the entry is right. */
  ghost predicate PresenceKept(env: Env, v: StoreView, v': StoreView, t: Touched) {
    Param(v').Some? ==>
      forall n | n in v.nodes && n in v'.nodes && n !in t.names && !IsNSEC3Owner(n, v'.origin) ::
        var h := env.hash(n, Param(v').value);
        if NeedsNSEC3(v, n) == NeedsNSEC3(v', n) then
          NeedsNSEC3(v', n) && h in t.nsec3 ==> EntryDefect(v, v.nodes[n], h) == EntryDefect(v', v'.nodes[n], h)
        else EntryDefect(if NeedsNSEC3(v, n) then v else v', v'.nodes[n], h) == None
  }

  lemma PresenceIs(env: Env, v: StoreView, n: Name)
    requires n in v.nodes && Param(v).Some?
    ensures PresenceAt(env, v, n) ==
            if IsNSEC3Owner(n, v.origin) || !NeedsNSEC3(v, n) then None
            else EntryDefect(v, v.nodes[n], env.hash(n, Param(v).value))
  {
    hide Param, IsNSEC3Owner, NeedsNSEC3, ExpectedTypes;
  }

  lemma UntouchedPresence(env: Env, v: StoreView, v': StoreView, t: Touched, n: Name)
    requires Covered(v, v', t) && Param(v) == Param(v') && n !in t.names
    ensures n in v.nodes <==> n in v'.nodes
    ensures PresenceAt(env, v, n) == PresenceAt(env, v', n) <==>
            (Param(v').Some? && n in v.nodes && n in v'.nodes && !IsNSEC3Owner(n, v'.origin) ==>
             var h := env.hash(n, Param(v').value);
             if NeedsNSEC3(v, n) == NeedsNSEC3(v', n) then
               NeedsNSEC3(v', n) && h in t.nsec3 ==> EntryDefect(v, v.nodes[n], h) == EntryDefect(v', v'.nodes[n], h)
             else EntryDefect(if NeedsNSEC3(v, n) then v else v', v'.nodes[n], h) == None)
  {
    hide Param, IsNSEC3Owner, NeedsNSEC3, PresenceAt, ExpectedTypes;
    assert SameNode(v, v', n);
    if Param(v').None? {
      NoParamNoPresence(env, v, n);
      NoParamNoPresence(env, v', n);
    } else if n in v.nodes {
      PresenceIs(env, v, n);
      PresenceIs(env, v', n);
      var h := env.hash(n, Param(v').value);
      if h !in t.nsec3 { assert SameHash(v, v', h); }
    } else {
      AbsentNoPresence(env, v, n);
      AbsentNoPresence(env, v', n);
    }
  }

  lemma NoParamNoPresence(env: Env, v: StoreView, n: Name)
    requires Param(v).None?
    ensures PresenceAt(env, v, n) == None
  {
  }

  lemma AbsentNoPresence(env: Env, v: StoreView, n: Name)
    requires n !in v.nodes
    ensures PresenceAt(env, v, n) == None
  {
  }

  lemma AuthorityKind(env: Env, v: StoreView, keys: seq<CachedKey>, n: Name, k: Key)
    requires n in v.nodes && k in AuthorityKeys(env, v, keys, n)
    ensures !IsPresence(k)
  {
    hide Authoritative, ReportsCode;
  }

  lemma DenialHas(env: Env, v: StoreView, n: Name, k: Key)
    requires n in v.nodes && IsPresence(k) && k.owner == n
    ensures k in DenialKeys(env, v, n) <==> k.rtype == NSEC3 && PresenceAt(env, v, n) == Some(k.code)
  {
    hide Param, Authoritative, IsNSEC3Owner, NSEC3Code, ExpectedTypes;
  }

  lemma PresenceHas(env: Env, v: StoreView, keys: seq<CachedKey>, k: Key)
    requires NodesOk(v) && IsPresence(k)
    ensures k.owner in v.nodes && k in NodeKeys(env, v, keys, k.owner) <==>
            k.rtype == NSEC3 && PresenceAt(env, v, k.owner) == Some(k.code)
  {
    hide DenialKeys, AuthorityKeys, PresenceAt, NodesOk, IsPresence;
    if k.owner in v.nodes {
      DenialHas(env, v, k.owner, k);
      if k in AuthorityKeys(env, v, keys, k.owner) { AuthorityKind(env, v, keys, k.owner, k); }
    } else {
      AbsentNoPresence(env, v, k.owner);
    }
  }

  lemma PresenceCodes(env: Env, v: StoreView, n: Name)
    ensures PresenceAt(env, v, n).Some? ==> IsPresence(Key(PresenceAt(env, v, n).value, n, NSEC3))
  {
    hide Param, IsNSEC3Owner, NeedsNSEC3;
  }

  /** What the pass leaves about the NSEC3 of every name is what a full pass finds exactly in this case. */
  lemma PresenceAgreesIff(env: Env, v: StoreView, v': StoreView, keys: seq<CachedKey>, t: Touched, prev: set<Key>)
    requires Comparable(env, v, v', keys, t) && Only(IsPresence, prev) == Only(IsPresence, FullKeys(env, v))
    ensures Only(IsPresence, Merging(env, v', keys, t, prev)) == Only(IsPresence, FullKeys(env, v')) <==>
            PresenceKept(env, v, v', t)
  {
    hide Good, SignedWith, FullKeys, Found, Merging, PresenceAt, NeedsNSEC3, EntryDefect, HashOwnersTouched, NodeKeys,
         Param, IsNSEC3Owner, Covered;
    GoodNodes(v);
    GoodNodes(v');
    var left, full := Only(IsPresence, Merging(env, v', keys, t, prev)), Only(IsPresence, FullKeys(env, v'));
    forall k | IsPresence(k)
      ensures k in left <==>
              k.rtype == NSEC3 && PresenceAt(env, if k.owner in t.names then v' else v, k.owner) == Some(k.code)
      ensures k in full <==> k.rtype == NSEC3 && PresenceAt(env, v', k.owner) == Some(k.code)
    {
      MergedHas(env, v, v', keys, t, prev, IsPresence, k);
      FoundByKind(env, v', keys, t, k);
      FullByKind(env, v, keys, k);
      FullByKind(env, v', keys, k);
      PresenceHas(env, v, keys, k);
      PresenceHas(env, v', keys, k);
    }
    SamePresences(env, v, v', t, left, full);
    forall n | n !in t.names { UntouchedPresence(env, v, v', t, n); }
    assert PresenceKept(env, v, v', t) <==>
           forall n | n !in t.names :: PresenceAt(env, v, n) == PresenceAt(env, v', n);
  }

  lemma SamePresences(env: Env, v: StoreView, v': StoreView, t: Touched, left: set<Key>, full: set<Key>)
    requires forall k | k in left + full :: IsPresence(k)
    requires forall k | IsPresence(k) ::
               k in left <==>
               k.rtype == NSEC3 && PresenceAt(env, if k.owner in t.names then v' else v, k.owner) == Some(k.code)
    requires forall k | IsPresence(k) ::
               k in full <==> k.rtype == NSEC3 && PresenceAt(env, v', k.owner) == Some(k.code)
    ensures left == full <==> forall n | n !in t.names :: PresenceAt(env, v, n) == PresenceAt(env, v', n)
  {
    hide PresenceAt;
    if left == full {
      forall n | n !in t.names ensures PresenceAt(env, v, n) == PresenceAt(env, v', n) {
        PresenceCodes(env, v, n);
        PresenceCodes(env, v', n);
        var a, b := PresenceAt(env, v, n), PresenceAt(env, v', n);
        if a.Some? { assert Key(a.value, n, NSEC3) in left; }
        if b.Some? { assert Key(b.value, n, NSEC3) in full; }
      }
    } else {
      var k :| k in left + full && !(k in left && k in full);
      assert k.owner !in t.names;
    }
  }

  // ---------------------------------------------------------------------------
  // Keys and parameters at the apex
  // ---------------------------------------------------------------------------

  /** The pass does not look at the keys again: when it touches the apex, nothing may be wrong with them. */
  ghost predicate ApexKept(env: Env, v: StoreView, keys: seq<CachedKey>, t: Touched) {
    v.origin in t.names ==> ApexKeys(env, v, keys) == {}
  }

  lemma SameApexKeys(env: Env, v: StoreView, v': StoreView, keys: seq<CachedKey>, t: Touched)
    requires Covered(v, v', t) && v.origin !in t.names
    ensures ApexKeys(env, v, keys) == ApexKeys(env, v', keys)
  {
    hide TagsCollide, SignedByKSK;
    assert SameNode(v, v', v.origin);
  }

  lemma ApexAgreesIff(env: Env, v: StoreView, v': StoreView, keys: seq<CachedKey>, t: Touched, prev: set<Key>)
    requires Comparable(env, v, v', keys, t) && Only(IsApex, prev) == Only(IsApex, FullKeys(env, v))
    ensures Only(IsApex, Merging(env, v', keys, t, prev)) == Only(IsApex, FullKeys(env, v')) <==>
            ApexKept(env, v', keys, t)
  {
    hide Good, SignedWith, FullKeys, Found, Merging, ApexKeys, HashOwnersTouched, Param;
    GoodNodes(v);
    GoodNodes(v');
    var left, full := Only(IsApex, Merging(env, v', keys, t, prev)), Only(IsApex, FullKeys(env, v'));
    forall k | IsApex(k)
      ensures k in left <==> k in ApexKeys(env, v, keys) && v.origin !in t.names
      ensures k in full <==> k in ApexKeys(env, v', keys)
    {
      MergedHas(env, v, v', keys, t, prev, IsApex, k);
      FoundByKind(env, v', keys, t, k);
      FullByKind(env, v, keys, k);
      FullByKind(env, v', keys, k);
      if k in ApexKeys(env, v, keys) { ApexKind(env, v, keys, k); }
    }
    forall k | k in ApexKeys(env, v', keys) ensures IsApex(k) { ApexKind(env, v', keys, k); }
    if v.origin !in t.names {
      SameApexKeys(env, v, v', keys, t);
    } else if k :| k in ApexKeys(env, v', keys) {
      assert k in full && k !in left;
    }
  }

  /** Nor at the parameters of all records. */
  ghost predicate ParamKept(v: StoreView, v': StoreView, t: Touched) {
    Param(v').Some? ==>
      if v'.origin in t.names then !IterationsDiffer(v'.nsec3, Param(v').value)
      else IterationsDiffer(v.nsec3, Param(v').value) <==> IterationsDiffer(v'.nsec3, Param(v').value)
  }

  ghost predicate ParamAstray(v: StoreView) {
    Param(v).Some? && IterationsDiffer(v.nsec3, Param(v).value)
  }

  lemma ParamHas(env: Env, v: StoreView, keys: seq<CachedKey>, k: Key)
    requires SignedWith(env, v, keys) && NodesOk(v) && IsParam(k)
    ensures k in FullKeys(env, v) <==> k == Key(NSEC3PARAM_MISMATCH, v.origin, NSEC3PARAM) && ParamAstray(v)
  {
    hide SignedWith, FullKeys, NodesOk, Param, NSECBroken, IterationsDiffer, Broken;
    FullByKind(env, v, keys, k);
  }

  lemma ParamAgreesIff(env: Env, v: StoreView, v': StoreView, keys: seq<CachedKey>, t: Touched, prev: set<Key>)
    requires Comparable(env, v, v', keys, t) && Only(IsParam, prev) == Only(IsParam, FullKeys(env, v))
    ensures Only(IsParam, Merging(env, v', keys, t, prev)) == Only(IsParam, FullKeys(env, v')) <==>
            ParamKept(v, v', t)
  {
    hide Good, SignedWith, FullKeys, Found, Merging, HashOwnersTouched, Param, IterationsDiffer;
    GoodNodes(v);
    GoodNodes(v');
    var left, full := Only(IsParam, Merging(env, v', keys, t, prev)), Only(IsParam, FullKeys(env, v'));
    var k0 := Key(NSEC3PARAM_MISMATCH, v.origin, NSEC3PARAM);
    forall k | IsParam(k)
      ensures k in left <==> k == k0 && ParamAstray(v) && v.origin !in t.names
      ensures k in full <==> k == k0 && ParamAstray(v')
    {
      MergedHas(env, v, v', keys, t, prev, IsParam, k);
      FoundByKind(env, v', keys, t, k);
      ParamHas(env, v, keys, k);
      ParamHas(env, v', keys, k);
    }
    assert left == full <==> (k0 in left <==> k0 in full);
  }

  // ---------------------------------------------------------------------------
  // Signatures over NSEC3 records
  // ---------------------------------------------------------------------------

  /** A full pass does not look at these signatures: the pass must find nothing wrong with the touched ones. */
  ghost predicate HashSignaturesKept(env: Env, v: StoreView, keys: seq<CachedKey>, t: Touched) {
    Param(v).Some? ==> forall h | h in t.nsec3 :: HashSignatureKeys(env, v, keys, h) == {}
  }

  lemma HashSignaturesAgreeIff(env: Env, v: StoreView, v': StoreView, keys: seq<CachedKey>, t: Touched, prev: set<Key>)
    requires Comparable(env, v, v', keys, t) && Only(IsHashSignature, prev) == Only(IsHashSignature, FullKeys(env, v))
    ensures Only(IsHashSignature, Merging(env, v', keys, t, prev)) == Only(IsHashSignature, FullKeys(env, v')) <==>
            HashSignaturesKept(env, v', keys, t)
  {
    hide Good, SignedWith, FullKeys, Found, Merging, HashOwnersTouched, Param, HashSignatureKeys, Covered;
    GoodNodes(v);
    GoodNodes(v');
    var left, full := Only(IsHashSignature, Merging(env, v', keys, t, prev)), Only(IsHashSignature, FullKeys(env, v'));
    forall k | IsHashSignature(k)
      ensures k in left <==> Param(v').Some? && exists h | h in t.nsec3 :: k in HashSignatureKeys(env, v', keys, h)
      ensures k !in full
    {
      MergedHas(env, v, v', keys, t, prev, IsHashSignature, k);
      FoundByKind(env, v', keys, t, k);
      FullByKind(env, v, keys, k);
      FullByKind(env, v', keys, k);
    }
    if h, k :| Param(v').Some? && h in t.nsec3 && k in HashSignatureKeys(env, v', keys, h) {
      OnNSEC3(env, v', keys, h, k);
      assert k in left;
    }
  }

  lemma OnNSEC3(env: Env, v: StoreView, keys: seq<CachedKey>, h: Bytes, k: Key)
    requires NodesOk(v) && k in HashSignatureKeys(env, v, keys, h)
    ensures IsHashSignature(k)
  {
    hide ReportsCode;
    var o := v.nsec3[h].owner;
    assert NodeOk(v.origin, o, v.nodes[o]);
  }

  // ---------------------------------------------------------------------------
  // The NSEC3 chain
  // ---------------------------------------------------------------------------

  /** The owner of a record that does not point at its ring successor. */
  ghost predicate RingAstray(v: StoreView, o: Name) {
    Param(v).Some? && HasEntry(v, o) && NSEC3Key(o) in Broken(v.nsec3)
  }

  predicate HasEntry(v: StoreView, o: Name) {
    NSEC3Key(o) in v.nsec3 && v.nsec3[NSEC3Key(o)].owner == o
  }

  /** The pass looks at a touched record and at the one before it. */
  ghost predicate LookedAt(v: StoreView, t: Touched, o: Name) {
    NSEC3Key(o) in t.nsec3 || exists s | s in t.nsec3 && s in v.nsec3 :: IsPrev(v.nsec3.Keys, s, NSEC3Key(o))
  }

  /** It blames the origin for every touched hash that is gone. */
  predicate Blamed(v: StoreView, t: Touched, o: Name) {
    o == v.origin && exists h | h in t.nsec3 :: h !in v.nsec3
  }

  /** No record is blamed without reason, none that was astray at an untouched name points right now, and every one
      astray is looked at or was astray at an untouched name already. */
  ghost predicate RingKept(v: StoreView, v': StoreView, t: Touched) {
    Param(v').Some? ==>
      forall o ::
        && (Blamed(v', t, o) || (RingAstray(v, o) && o !in t.names) ==> RingAstray(v', o))
        && (RingAstray(v', o) ==> LookedAt(v', t, o) || Blamed(v', t, o) || (RingAstray(v, o) && o !in t.names))
  }

  /** Entries are filed under the hash in their owner. */
  ghost predicate OwnersFiled(v: StoreView) {
    forall h | h in v.nsec3 :: NSEC3Key(v.nsec3[h].owner) == h
  }

  lemma GoodOwnersFiled(v: StoreView)
    requires Good(v)
    ensures OwnersFiled(v)
  {
    hide RecordsOf, Shape, Consistent;
    forall h | h in v.nsec3 ensures NSEC3Key(v.nsec3[h].owner) == h {
      assert (h, v.nsec3[h]) in NSEC3Entries(RecordsOf(v));
    }
  }

  lemma RingHas(env: Env, v: StoreView, keys: seq<CachedKey>, k: Key)
    requires SignedWith(env, v, keys) && NodesOk(v) && OwnersFiled(v) && IsRing(k)
    ensures k in FullKeys(env, v) <==> k.rtype == NSEC3 && RingAstray(v, k.owner)
  {
    hide SignedWith, FullKeys, NodesOk, Param, NSECBroken, IterationsDiffer, Broken;
    FullByKind(env, v, keys, k);
    if k in OwnersOf(v.nsec3, Broken(v.nsec3)) {
      var h :| h in Broken(v.nsec3) && h in v.nsec3 && k == Key(NSEC3_CHAIN_BROKEN, v.nsec3[h].owner, NSEC3);
      assert NSEC3Key(k.owner) == h;
    }
  }

  /** A record before a touched one is astray when it does not point at that one. */
  lemma AstrayIsBroken(index: Index, s: Bytes, p: Bytes)
    requires s in index && p in index && IsPrev(index.Keys, s, p)
    ensures p in AstrayBefore(index, s) <==> p in Broken(index)
  {
    hide IsNext, IsPrev;
    NextPrevInverse(index.Keys, p, s);
    SuccessorDecides(index.Keys, p, s, index[p].next);
  }

  lemma AstrayOwners(v: StoreView, h: Bytes, k: Key)
    requires OwnersFiled(v) && IsRing(k) && Param(v).Some? && h in v.nsec3
    ensures k in OwnersOf(v.nsec3, AstrayBefore(v.nsec3, h)) <==>
            k.rtype == NSEC3 && RingAstray(v, k.owner) && IsPrev(v.nsec3.Keys, h, NSEC3Key(k.owner))
  {
    hide IsNext, IsPrev, Param, Broken, NSEC3Key;
    var p := NSEC3Key(k.owner);
    if p in v.nsec3 && IsPrev(v.nsec3.Keys, h, p) { AstrayIsBroken(v.nsec3, h, p); }
    forall q | q in AstrayBefore(v.nsec3, h) ensures q in Broken(v.nsec3) { AstrayIsBroken(v.nsec3, h, q); }
  }

  lemma LinkHas(v: StoreView, h: Bytes, k: Key)
    requires OwnersFiled(v) && IsRing(k) && Param(v).Some?
    ensures k in LinkKeys(v, h) <==>
            && k.rtype == NSEC3
            && if h !in v.nsec3 then k.owner == v.origin
               else RingAstray(v, k.owner) && (NSEC3Key(k.owner) == h || IsPrev(v.nsec3.Keys, h, NSEC3Key(k.owner)))
  {
    hide IsNext, IsPrev, Param, OwnersOf, AstrayBefore, NSEC3Key;
    if h in v.nsec3 { AstrayOwners(v, h, k); }
  }

  lemma RingFound(env: Env, v: StoreView, keys: seq<CachedKey>, t: Touched, k: Key)
    requires NodesOk(v) && OwnersFiled(v) && IsRing(k)
    ensures k in Found(env, v, keys, t) <==>
            && Param(v).Some? && k.rtype == NSEC3
            && (Blamed(v, t, k.owner) || (RingAstray(v, k.owner) && LookedAt(v, t, k.owner)))
  {
    hide NodesOk, OwnersFiled, Found, Param, LinkKeys, Broken, IsPrev;
    FoundByKind(env, v, keys, t, k);
    if Param(v).Some? {
      forall h ensures k in LinkKeys(v, h) <==>
                       && k.rtype == NSEC3
                       && if h !in v.nsec3 then k.owner == v.origin
                          else RingAstray(v, k.owner) &&
                               (NSEC3Key(k.owner) == h || IsPrev(v.nsec3.Keys, h, NSEC3Key(k.owner)))
      {
        LinkHas(v, h, k);
      }
    }
  }

  /** What the pass leaves about the NSEC3 chain is what a full pass finds exactly in this case. */
  lemma RingAgreesIff(env: Env, v: StoreView, v': StoreView, keys: seq<CachedKey>, t: Touched, prev: set<Key>)
    requires Comparable(env, v, v', keys, t) && Only(IsRing, prev) == Only(IsRing, FullKeys(env, v))
    ensures Only(IsRing, Merging(env, v', keys, t, prev)) == Only(IsRing, FullKeys(env, v')) <==> RingKept(v, v', t)
  {
    hide Good, SignedWith, FullKeys, Found, Merging, HashOwnersTouched, Param, Covered, RingAstray, LookedAt, Blamed,
         OwnersFiled;
    GoodNodes(v);
    GoodNodes(v');
    GoodOwnersFiled(v);
    GoodOwnersFiled(v');
    var left, full := Only(IsRing, Merging(env, v', keys, t, prev)), Only(IsRing, FullKeys(env, v'));
    forall k | IsRing(k)
      ensures k in left <==>
              && k.rtype == NSEC3
              && ((Param(v').Some? && (Blamed(v', t, k.owner) || (RingAstray(v', k.owner) && LookedAt(v', t, k.owner))))
                  || (RingAstray(v, k.owner) && k.owner !in t.names))
      ensures k in full <==> k.rtype == NSEC3 && RingAstray(v', k.owner)
    {
      MergedHas(env, v, v', keys, t, prev, IsRing, k);
      RingFound(env, v', keys, t, k);
      RingHas(env, v, keys, k);
      RingHas(env, v', keys, k);
    }
    forall o ensures RingAstray(v, o) ==> Param(v).Some?
             ensures RingAstray(v', o) ==> Param(v').Some? { AstrayHasParam(v, o); AstrayHasParam(v', o); }
    SameRings(v, v', t, left, full);
  }

  lemma AstrayHasParam(v: StoreView, o: Name)
    ensures RingAstray(v, o) ==> Param(v).Some?
  {
  }

  lemma SameRings(v: StoreView, v': StoreView, t: Touched, left: set<Key>, full: set<Key>)
    requires (forall k | k in left + full :: IsRing(k)) && Param(v) == Param(v')
    requires forall k | IsRing(k) ::
               k in left <==>
               && k.rtype == NSEC3
               && ((Param(v').Some? &&
                    (Blamed(v', t, k.owner) || (RingAstray(v', k.owner) && LookedAt(v', t, k.owner))))
                   || (RingAstray(v, k.owner) && k.owner !in t.names))
    requires forall k | IsRing(k) :: k in full <==> k.rtype == NSEC3 && RingAstray(v', k.owner)
    requires forall o :: RingAstray(v, o) || RingAstray(v', o) ==> Param(v').Some?
    ensures left == full <==> RingKept(v, v', t)
  {
    hide RingAstray, LookedAt, Blamed, Param;
    if left == full {
      forall o
        ensures Param(v').Some? && (Blamed(v', t, o) || (RingAstray(v, o) && o !in t.names)) ==> RingAstray(v', o)
        ensures RingAstray(v', o) ==> LookedAt(v', t, o) || Blamed(v', t, o) || (RingAstray(v, o) && o !in t.names)
      {
        var k := Key(NSEC3_CHAIN_BROKEN, o, NSEC3);
        assert k in left <==> k in full;
      }
    } else {
      var k :| k in left + full && !(k in left && k in full);
      assert IsRing(k) && Param(v').Some?;
    }
  }

  /** From a closed ring with no touched hash gone, nothing is kept or missed wrongly. */
  lemma ClosedRingIsKept(v: StoreView, v': StoreView, t: Touched)
    requires Covered(v, v', t) && Closed(v.nsec3) && t.nsec3 <= v'.nsec3.Keys
    ensures RingKept(v, v', t)
  {
    hide IsNext, IsPrev, Param, SameNode;
    forall o | RingAstray(v', o) ensures LookedAt(v', t, o) {
      var p := NSEC3Key(o);
      if p !in t.nsec3 && forall s | s in t.nsec3 :: !IsPrev(v'.nsec3.Keys, s, p) {
        UnseenStillPoints(v.nsec3, v'.nsec3, t.nsec3, p);
      }
    }
  }

  /** With cuts as they were and no touched hash that of an untouched name, nothing is wrong with presence findings. */
  lemma OwnHashesKeepPresence(env: Env, v: StoreView, v': StoreView, t: Touched)
    requires Covered(v, v', t) && Cuts(v) == Cuts(v')
    requires Param(v').Some? ==>
               forall n | n in v'.nodes && n !in t.names :: env.hash(n, Param(v').value) !in t.nsec3
    ensures PresenceKept(env, v, v', t)
  {
    hide Param, IsNSEC3Owner, UnderCut, Cuts, EntryDefect;
    forall n | n in v.nodes && n in v'.nodes && n !in t.names ensures NeedsNSEC3(v, n) == NeedsNSEC3(v', n) {
      assert SameNode(v, v', n);
    }
  }

  // ---------------------------------------------------------------------------
  // All findings
  // ---------------------------------------------------------------------------

  /** What must hold for the pass to leave what a full pass finds. */
  ghost predicate AllKept(env: Env, v: StoreView, v': StoreView, keys: seq<CachedKey>, t: Touched) {
    && AuthorityKept(env, v, v', keys, t) && PresenceKept(env, v, v', t) && ChainKept(v, v', t) && RingKept(v, v', t)
    && ApexKept(env, v', keys, t) && ParamKept(v, v', t) && HashSignaturesKept(env, v', keys, t)
  }

  lemma LocalIsOnly(keys: set<Key>)
    ensures Local(keys) == Only(IsLocal, keys)
  {
  }

  /** Every finding is of one of these kinds. */
  lemma KindsDecide(a: set<Key>, b: set<Key>)
    requires forall k | k in a + b ::
               IsLocal(k) || IsPresence(k) || IsChain(k) || IsRing(k) || IsApex(k) || IsParam(k) || IsHashSignature(k)
    ensures a == b <==>
            && Only(IsLocal, a) == Only(IsLocal, b) && Only(IsPresence, a) == Only(IsPresence, b)
            && Only(IsChain, a) == Only(IsChain, b) && Only(IsRing, a) == Only(IsRing, b)
            && Only(IsApex, a) == Only(IsApex, b) && Only(IsParam, a) == Only(IsParam, b)
            && Only(IsHashSignature, a) == Only(IsHashSignature, b)
  {
    hide IsLocal, IsPresence, IsChain, IsRing, IsApex, IsParam, IsHashSignature;
    if k :| k in a + b && !(k in a && k in b) {
      if IsLocal(k) { assert k in Only(IsLocal, a) <==> k in a; assert k in Only(IsLocal, b) <==> k in b; }
      if IsPresence(k) { assert k in Only(IsPresence, a) <==> k in a; assert k in Only(IsPresence, b) <==> k in b; }
      if IsChain(k) { assert k in Only(IsChain, a) <==> k in a; assert k in Only(IsChain, b) <==> k in b; }
      if IsRing(k) { assert k in Only(IsRing, a) <==> k in a; assert k in Only(IsRing, b) <==> k in b; }
      if IsApex(k) { assert k in Only(IsApex, a) <==> k in a; assert k in Only(IsApex, b) <==> k in b; }
      if IsParam(k) { assert k in Only(IsParam, a) <==> k in a; assert k in Only(IsParam, b) <==> k in b; }
      if IsHashSignature(k) {
        assert k in Only(IsHashSignature, a) <==> k in a;
        assert k in Only(IsHashSignature, b) <==> k in b;
      }
    }
  }

  lemma MergedKinds(env: Env, v: StoreView, v': StoreView, keys: seq<CachedKey>, t: Touched, k: Key)
    requires Comparable(env, v, v', keys, t)
    requires k in Merging(env, v', keys, t, FullKeys(env, v)) || k in FullKeys(env, v')
    ensures IsLocal(k) || IsPresence(k) || IsChain(k) || IsRing(k) || IsApex(k) || IsParam(k) || IsHashSignature(k)
  {
    hide Good, SignedWith, FullKeys, Found, HashOwnersTouched, Param, Covered;
    GoodNodes(v);
    GoodNodes(v');
    FullByKind(env, v, keys, k);
    FullByKind(env, v', keys, k);
    FoundByKind(env, v', keys, t, k);
  }

  /** All findings together. */
  lemma MergeIsFullIff(env: Env, v: StoreView, v': StoreView, keys: seq<CachedKey>, t: Touched)
    requires Comparable(env, v, v', keys, t)
    ensures Merging(env, v', keys, t, FullKeys(env, v)) == FullKeys(env, v') <==> AllKept(env, v, v', keys, t)
  {
    hide Good, SignedWith, FullKeys, Found, HashOwnersTouched, Param, Covered, Merging, AuthorityKept, PresenceKept,
         ChainKept, RingKept, ApexKept, ParamKept, HashSignaturesKept, Only, Local;
    var prev := FullKeys(env, v);
    var left, full := Merging(env, v', keys, t, prev), FullKeys(env, v');
    forall k | k in left + full
      ensures IsLocal(k) || IsPresence(k) || IsChain(k) || IsRing(k) || IsApex(k) || IsParam(k) || IsHashSignature(k)
    {
      MergedKinds(env, v, v', keys, t, k);
    }
    KindsDecide(left, full);
    LocalsAgreeIff(env, v, v', keys, t);
    PresenceAgreesIff(env, v, v', keys, t, prev);
    ChainAgreesIff(env, v, v', keys, t, prev);
    RingAgreesIff(env, v, v', keys, t, prev);
    ApexAgreesIff(env, v, v', keys, t, prev);
    ParamAgreesIff(env, v, v', keys, t, prev);
    HashSignaturesAgreeIff(env, v, v', keys, t, prev);
  }

  lemma LocalsAgreeIff(env: Env, v: StoreView, v': StoreView, keys: seq<CachedKey>, t: Touched)
    requires Comparable(env, v, v', keys, t)
    ensures Only(IsLocal, Merging(env, v', keys, t, FullKeys(env, v))) == Only(IsLocal, FullKeys(env, v')) <==>
            AuthorityKept(env, v, v', keys, t)
  {
    hide Good, SignedWith, FullKeys, Found, HashOwnersTouched, Param, Covered, AuthorityKept, Only, Local, MergedKeys,
         Owners;
    GoodNodes(v);
    GoodNodes(v');
    MergeRefinesFull(env, v, v', keys, t, FullKeys(env, v));
    LocalIsOnly(Merging(env, v', keys, t, FullKeys(env, v)));
    LocalIsOnly(FullKeys(env, v'));
  }

  /** The exact condition under which an incremental pass leaves, finding by finding, what a full pass would report. */
  ghost predicate Equals(env: Env, v: StoreView, cs: seq<Change>) {
    var v', t := Steps(v, cs).0, TouchedBy(v, NOTHING, cs);
    || Escalates(Some(t)) || !Usable(env, v')
    || AllKept(env, v, v', CachedKeys(env, KeyRecords(v')).value, t)
  }

  /** After a full pass on the old zone, the incremental pass leaves exactly the findings of a full pass on the new one
      if and only if this condition holds. */
  lemma IncrementalIsFullIff(env: Env, v: StoreView, cs: seq<Change>)
    requires Applied(v, cs) && SOA in SetsAt(v, v.origin) && SOA in SetsAt(Steps(v, cs).0, v.origin)
    ensures var v', t := Steps(v, cs).0, TouchedBy(v, NOTHING, cs);
            IncrementalKeys(env, v', FullKeys(env, v), Some(t)) == FullKeys(env, v') <==> Equals(env, v, cs)
  {
    hide Applied, Good, Steps, TouchedBy, Covered, HashOwnersTouched, KeyRecords, CachedKeys, Param, MergedKeys, Found,
         Owners, SignedZoneKeys, SignedWith, AllKept;
    var v', t := Steps(v, cs).0, TouchedBy(v, NOTHING, cs);
    AppliedFacts(v, cs);
    if !Escalates(Some(t)) && Usable(env, v') {
      AppliedWentThrough(v, cs);
      UnflaggedKeepsKeys(v, cs);
      UsableIsSigned(env, v);
      UsableIsSigned(env, v');
      MergeIsFullIff(env, v, v', CachedKeys(env, KeyRecords(v')).value, t);
    }
  }

  /** Over a history of change lists, the findings are those of a full pass after each of them exactly when every list
      meets the condition. */
  lemma {:induction false} IncrementalStaysFullIff(env: Env, v: StoreView, history: seq<seq<Change>>)
    requires Orderly(v, history)
    ensures AlwaysEqual(env, v, FullKeys(env, v), history) <==> AllEqual(env, v, history)
    decreases |history|
  {
    hide Applied, Equals, FullKeys, IncrementalKeys, Steps, TouchedBy;
    if history != [] {
      AppliedKeepsOrigin(v, history[0]);
      IncrementalIsFullIff(env, v, history[0]);
      if Equals(env, v, history[0]) { IncrementalStaysFullIff(env, Steps(v, history[0]).0, history[1..]); }
    }
  }

  /** Where the findings are those of a full pass, so is the verdict. */
  lemma SameFindingsSameVerdict(env: Env, v: StoreView, prev: set<Key>, touched: Option<Touched>)
    requires SOA in SetsAt(v, v.origin) && IncrementalKeys(env, v, prev, touched) == FullKeys(env, v)
    ensures var incremental, full := IncrementalOutcome(env, v, prev, touched), FullOutcome(env, v);
            incremental.valid == full.valid && incremental.unsigned == full.unsigned
  {
    hide FullKeys, IncrementalKeys, CachedKeys, KeyRecords, NoErrors;
    VerdictMeansNoErrors(env, v, prev, touched);
    VerdictMeansNoErrors(env, v, prev, None);
    ValidMeansNoErrors(env, v);
  }

  /** So it is after one change list. */
  lemma IncrementalVerdictIsFull(env: Env, v: StoreView, cs: seq<Change>)
    requires Applied(v, cs) && SOA in SetsAt(v, v.origin) && SOA in SetsAt(Steps(v, cs).0, v.origin)
    requires Equals(env, v, cs)
    ensures var v', t := Steps(v, cs).0, TouchedBy(v, NOTHING, cs);
            var incremental, full := IncrementalOutcome(env, v', FullKeys(env, v), Some(t)), FullOutcome(env, v');
            incremental.valid == full.valid && incremental.unsigned == full.unsigned
  {
    hide Applied, Equals, Steps, TouchedBy, FullKeys, IncrementalKeys;
    AppliedKeepsOrigin(v, cs);
    IncrementalIsFullIff(env, v, cs);
    SameFindingsSameVerdict(env, Steps(v, cs).0, FullKeys(env, v), Some(TouchedBy(v, NOTHING, cs)));
  }

  /** And after every change list of a history. */
  ghost predicate VerdictsAgree(env: Env, v: StoreView, found: set<Key>, history: seq<seq<Change>>)
    decreases |history|
  {
    history == [] ||
    var v', t := Steps(v, history[0]).0, Some(TouchedBy(v, NOTHING, history[0]));
    && IncrementalOutcome(env, v', found, t).valid == FullOutcome(env, v').valid
    && IncrementalOutcome(env, v', found, t).unsigned == FullOutcome(env, v').unsigned
    && VerdictsAgree(env, v', IncrementalKeys(env, v', found, t), history[1..])
  }

  lemma {:induction false} EqualHistoriesAgree(env: Env, v: StoreView, history: seq<seq<Change>>)
    requires Orderly(v, history) && AllEqual(env, v, history)
    ensures VerdictsAgree(env, v, FullKeys(env, v), history)
    decreases |history|
  {
    hide Applied, Equals, FullKeys, IncrementalKeys, Steps, TouchedBy, IncrementalOutcome, FullOutcome;
    if history != [] {
      AppliedKeepsOrigin(v, history[0]);
      IncrementalVerdictIsFull(env, v, history[0]);
      IncrementalIsFullIff(env, v, history[0]);
      EqualHistoriesAgree(env, Steps(v, history[0]).0, history[1..]);
    }
  }

  ghost predicate AllEqual(env: Env, v: StoreView, history: seq<seq<Change>>)
    decreases |history|
  {
    history == [] || (Equals(env, v, history[0]) && AllEqual(env, Steps(v, history[0]).0, history[1..]))
  }

  ghost predicate AlwaysEqual(env: Env, v: StoreView, found: set<Key>, history: seq<seq<Change>>)
    decreases |history|
  {
    && found == FullKeys(env, v)
    && (history == [] ||
        var v' := Steps(v, history[0]).0;
        AlwaysEqual(env, v', IncrementalKeys(env, v', found, Some(TouchedBy(v, NOTHING, history[0]))), history[1..]))
  }
}

/** The zone generator: NSEC and NSEC3 chains built from sorted names and sorted hash labels, and signing. */
module Generate {
  import opened Bytes
  import opened Names
  import opened Records
  import opened Verify
  import Base32
  import Seqs

  // ---------------------------------------------------------------------------
  // Sorting
  // ---------------------------------------------------------------------------

  /** `less` orders a type up to ties. */
  ghost predicate Orders<T(!new)>(less: (T, T) -> bool) {
    && (forall x, y :: less(x, y) ==> !less(y, x))
    && (forall x, y, z :: !less(y, x) && !less(z, y) ==> !less(z, x))
  }

  ghost predicate Ordered<T>(s: seq<T>, less: (T, T) -> bool) {
    forall i, j | 0 <= i < j < |s| :: !less(s[j], s[i])
  }

  /** Nothing at or after `from` belongs before anything in front of it. */
  ghost predicate Front<T>(s: seq<T>, less: (T, T) -> bool, from: nat) {
    forall k, m | 0 <= k < from && k < m < |s| :: !less(s[m], s[k])
  }

  /** Nothing between `i` and `j` belongs before the element at `i`. */
  ghost predicate LeastUpTo<T>(s: seq<T>, less: (T, T) -> bool, i: nat, j: nat) {
    i < |s| && j <= |s| && forall m | i < m < j :: !less(s[m], s[i])
  }

  function Swapped<T>(s: seq<T>, i: nat, j: nat): seq<T>
    requires i < |s| && j < |s|
  {
    s[i := s[j]][j := s[i]]
  }

  lemma SwapKeepsFront<T(!new)>(s: seq<T>, less: (T, T) -> bool, i: nat, j: nat)
    requires Orders(less) && Front(s, less, i) && LeastUpTo(s, less, i, j) && i < j < |s| && less(s[j], s[i])
    ensures Front(Swapped(s, i, j), less, i) && LeastUpTo(Swapped(s, i, j), less, i, j + 1)
    ensures multiset(Swapped(s, i, j)) == multiset(s)
  {
    var t := Swapped(s, i, j);
    forall k, m | 0 <= k < i && k < m < |t| ensures !less(t[m], t[k]) {
      assert t[k] == s[k];
      assert t[m] == if m == i then s[j] else if m == j then s[i] else s[m];
    }
    forall m | i < m < j + 1 ensures !less(t[m], t[i]) {
      if m < j { assert !less(s[m], s[i]) && !less(s[i], s[j]); }
    }
  }

  /** Sorts in place by exchanging every pair that is out of order. */
  method ExchangeSort<T(==, !new)>(a: array<T>, less: (T, T) -> bool)
    requires Orders(less)
    modifies a
    ensures multiset(a[..]) == multiset(old(a[..]))
    ensures Ordered(a[..], less)
  {
    hide Orders, Front, LeastUpTo, Ordered;
    var i := 0;
    NothingSorted(a[..], less);
    while i < a.Length
      invariant 0 <= i <= a.Length
      invariant Front(a[..], less, i) && multiset(a[..]) == multiset(old(a[..]))
    {
      var j := i + 1;
      OneAlone(a[..], less, i);
      while j < a.Length
        invariant i < j <= a.Length
        invariant Front(a[..], less, i) && LeastUpTo(a[..], less, i, j)
        invariant multiset(a[..]) == multiset(old(a[..]))
      {
        if less(a[j], a[i]) {
          ghost var s := a[..];
          SwapKeepsFront(s, less, i, j);
          a[i], a[j] := a[j], a[i];
          assert a[..] == Swapped(s, i, j);
        } else {
          LeastExtends(a[..], less, i, j);
        }
        j := j + 1;
      }
      FrontGrows(a[..], less, i);
      i := i + 1;
    }
    AllInFront(a[..], less);
  }

  lemma NothingSorted<T>(s: seq<T>, less: (T, T) -> bool)
    ensures Front(s, less, 0)
  {
  }

  lemma OneAlone<T>(s: seq<T>, less: (T, T) -> bool, i: nat)
    requires i < |s|
    ensures LeastUpTo(s, less, i, i + 1)
  {
  }

  lemma LeastExtends<T>(s: seq<T>, less: (T, T) -> bool, i: nat, j: nat)
    requires LeastUpTo(s, less, i, j) && i < j < |s| && !less(s[j], s[i])
    ensures LeastUpTo(s, less, i, j + 1)
  {
  }

  lemma FrontGrows<T>(s: seq<T>, less: (T, T) -> bool, i: nat)
    requires Front(s, less, i) && i < |s| && LeastUpTo(s, less, i, |s|)
    ensures Front(s, less, i + 1)
  {
  }

  lemma AllInFront<T>(s: seq<T>, less: (T, T) -> bool)
    requires Front(s, less, |s|)
    ensures Ordered(s, less)
  {
  }

  /** A permutation has the same elements and stays free of duplicates. */
  lemma PermutationFacts<T>(s: seq<T>, t: seq<T>)
    requires multiset(s) == multiset(t)
    ensures |s| == |t|
    ensures forall x :: x in s <==> x in t
    ensures NoDuplicates(s) ==> NoDuplicates(t)
  {
    assert |multiset(s)| == |s| && |multiset(t)| == |t|;
    forall x ensures x in s <==> x in t { assert x in multiset(s) <==> x in multiset(t); }
    if NoDuplicates(s) {
      forall i, j | 0 <= i < j < |t| ensures t[i] != t[j] {
        if t[i] == t[j] {
          CountsTwice(t, i, j);
          CountsOnce(s, t[i]);
          assert false;
        }
      }
    }
  }

  lemma CountsTwice<T>(t: seq<T>, i: nat, j: nat)
    requires i < j < |t| && t[i] == t[j]
    ensures multiset(t)[t[i]] >= 2
  {
    var a, b, c := t[..i], t[i + 1..j], t[j + 1..];
    assert t == a + [t[i]] + b + [t[j]] + c;
  }

  lemma {:induction false} CountsOnce<T>(s: seq<T>, x: T)
    requires NoDuplicates(s)
    ensures multiset(s)[x] <= 1
  {
    if s != [] {
      assert s == [s[0]] + s[1..];
      CountsOnce(s[1..], x);
      if s[0] == x { assert x !in s[1..]; assert x !in multiset(s[1..]); }
    }
  }

  // ---------------------------------------------------------------------------
  // Names and types
  // ---------------------------------------------------------------------------

  ghost function NamesOf(rrs: seq<RR>): set<Name> {
    set rr | rr in rrs :: rr.name
  }

  ghost function TypesAt(rrs: seq<RR>, n: Name): set<nat> {
    set rr | rr in rrs && rr.name == n :: rr.Type()
  }

  type ByName = map<Name, set<nat>>

  ghost predicate IsByName(m: ByName, rrs: seq<RR>) {
    m.Keys == NamesOf(rrs) && forall n | n in m :: m[n] == TypesAt(rrs, n)
  }

  function TypesIn(m: ByName, n: Name): set<nat> {
    if n in m then m[n] else {}
  }

  method NamesFrom(rrs: seq<RR>) returns (m: ByName)
    ensures IsByName(m, rrs)
  {
    m := map[];
    var i := 0;
    assert NamesOf(rrs[..0]) == {};
    while i < |rrs|
      invariant 0 <= i <= |rrs|
      invariant IsByName(m, rrs[..i])
    {
      var rr := rrs[i];
      ByNameGrows(m, rrs, i);
      m := m[rr.name := TypesIn(m, rr.name) + {rr.Type()}];
      i := i + 1;
    }
    assert rrs[..i] == rrs;
  }

  lemma ByNameGrows(m: ByName, rrs: seq<RR>, i: nat)
    requires i < |rrs| && IsByName(m, rrs[..i])
    ensures IsByName(m[rrs[i].name := TypesIn(m, rrs[i].name) + {rrs[i].Type()}], rrs[..i + 1])
  {
    var xs, x := rrs[..i], rrs[i];
    assert rrs[..i + 1] == xs + [x];
    assert forall rr :: rr in xs + [x] <==> rr in xs || rr == x;
    assert NamesOf(xs + [x]) == NamesOf(xs) + {x.name};
    forall n ensures TypesAt(xs + [x], n) == TypesAt(xs, n) + if n == x.name then {x.Type()} else {} {}
    if x.name !in m { assert TypesAt(xs, x.name) == {}; }
  }

  /** Names with an NS RRset. */
  function CutNames(m: ByName): set<Name> {
    set n | n in m && NS in m[n]
  }

  predicate IsCut(types: set<nat>, origin: Name, name: Name) {
    name != origin && NS in types
  }

  /** Whether a name lies strictly below a delegation. */
  method UnderDelegation(m: ByName, origin: Name, name: Name) returns (under: bool)
    ensures under == UnderCut(CutNames(m), origin, name)
  {
    var p := Parent(name);
    while p != origin && p != []
      invariant AtOrUnderCut(CutNames(m), origin, p) == UnderCut(CutNames(m), origin, name)
      decreases |p|
    {
      if p in m && NS in m[p] {
        return true;
      }
      p := Parent(p);
    }
    return false;
  }

  // ---------------------------------------------------------------------------
  // Empty non-terminals
  // ---------------------------------------------------------------------------

  /** `p` and the names above it, up to the origin. */
  function Upwards(p: Name, origin: Name): set<Name>
    decreases |p|
  {
    if p == origin || p == [] then {} else {p} + Upwards(Parent(p), origin)
  }

  /** The names strictly between a name and the origin. */
  function Above(name: Name, origin: Name): set<Name> {
    if name == origin then {} else Upwards(Parent(name), origin)
  }

  ghost predicate Between(names: seq<Name>, origin: Name, p: Name) {
    exists n | n in names :: p in Above(n, origin)
  }

  /** Appends the names between the given ones and the origin that are missing. */
  method AddENTs(names: seq<Name>, origin: Name) returns (all: seq<Name>)
    requires NoDuplicates(names)
    ensures NoDuplicates(all)
    ensures forall n :: n in all <==> n in names || Between(names, origin, n)
  {
    hide Above, Upwards, NoDuplicates, Between;
    all := names;
    var i := 0;
    NoneBetween(origin);
    assert names[..0] == [];
    while i < |names|
      invariant 0 <= i <= |names| && NoDuplicates(all)
      invariant forall n :: n in all <==> n in names || Between(names[..i], origin, n)
    {
      BetweenGrows(names, origin, i);
      if names[i] != origin {
        AboveIs(names[i], origin);
        all := AddUpwards(all, Parent(names[i]), origin);
      } else {
        AboveIs(names[i], origin);
      }
      i := i + 1;
    }
    assert names[..i] == names;
  }

  lemma NoneBetween(origin: Name)
    ensures forall n :: !Between([], origin, n)
  {
  }

  lemma AboveIs(name: Name, origin: Name)
    ensures Above(name, origin) == if name == origin then {} else Upwards(Parent(name), origin)
  {
  }

  lemma BetweenGrows(names: seq<Name>, origin: Name, i: nat)
    requires i < |names|
    ensures forall n ::
              Between(names[..i + 1], origin, n) <==> Between(names[..i], origin, n) || n in Above(names[i], origin)
  {
    hide Above;
    assert names[..i + 1] == names[..i] + [names[i]];
    forall n
      ensures Between(names[..i + 1], origin, n) <==> Between(names[..i], origin, n) || n in Above(names[i], origin)
    {
      if n in Above(names[i], origin) { assert names[i] in names[..i + 1]; }
      if m :| m in names[..i] && n in Above(m, origin) { assert m in names[..i + 1]; }
    }
  }

  /** Walks up from `from` and appends what is missing. */
  method AddUpwards(have: seq<Name>, from: Name, origin: Name) returns (all: seq<Name>)
    requires NoDuplicates(have)
    ensures NoDuplicates(all)
    ensures forall n :: n in all <==> n in have || n in Upwards(from, origin)
  {
    all := have;
    var p := from;
    while p != origin && p != []
      invariant NoDuplicates(all)
      invariant forall n :: n in have || n in Upwards(from, origin) <==> n in all || n in Upwards(p, origin)
      decreases |p|
    {
      if p !in all {
        all := all + [p];
      }
      p := Parent(p);
    }
  }

  // ---------------------------------------------------------------------------
  // Options and the two chains
  // ---------------------------------------------------------------------------

  /** What the signing library fills in. */
  datatype Signed = Signed(labels: nat, signature: Bytes)

  /** What the generator is asked for, and its foreign parts: the NSEC3 hash and the signer. */
  datatype Options = Options(
    origin: Name,
    ttl: nat,
    inception: u32,
    expiration: u32,
    iterations: nat,
    salt: Bytes,
    optOut: bool,
    ksk: RR,
    zsk: RR,
    hash: Name -> Bytes,
    sign: (RR, seq<RR>) -> Option<Signed>)

  /** Names as keys of a map, in no particular order. */
  method KeysOf(m: ByName) returns (names: seq<Name>)
    ensures NoDuplicates(names) && forall n :: n in names <==> n in m
  {
    names := [];
    var todo := m.Keys;
    while todo != {}
      invariant NoDuplicates(names)
      invariant forall n :: n in names || n in todo <==> n in m
      invariant forall n :: !(n in names && n in todo)
      decreases todo
    {
      var n :| n in todo;
      names := names + [n];
      todo := todo - {n};
    }
  }

  /** The names that get an NSEC: owners and empty non-terminals. */
  ghost predicate InChain(rrs: seq<RR>, origin: Name, n: Name) {
    n in NamesOf(rrs) || exists m | m in NamesOf(rrs) :: n in Above(m, origin)
  }

  /** All names of the chain, in no particular order. */
  method ChainNames(m: ByName, rrs: seq<RR>, origin: Name) returns (names: seq<Name>)
    requires IsByName(m, rrs)
    ensures NoDuplicates(names) && forall n :: n in names <==> InChain(rrs, origin, n)
  {
    hide Above, NoDuplicates;
    var owners := KeysOf(m);
    names := AddENTs(owners, origin);
    forall n ensures n in names <==> InChain(rrs, origin, n) {
      assert Between(owners, origin, n) <==> exists o | o in NamesOf(rrs) :: n in Above(o, origin);
    }
  }

  method BitmapOf(types: set<nat>) returns (out: seq<nat>)
    ensures Elements(out) == types && Ascending(out)
  {
    out := [];
    var todo := types;
    ghost var done: set<nat> := {};
    while todo != {}
      invariant done !! todo && done + todo == types
      invariant NoDuplicates(out) && forall t: nat :: t in out <==> t in done
      decreases todo
    {
      var t :| t in todo;
      out := out + [t];
      todo := todo - {t};
      done := done + {t};
    }
    assert done == types;
    var a := new nat[|out|](i requires 0 <= i < |out| => out[i]);
    assert a[..] == out;
    NumbersOrder();
    ExchangeSort(a, Smaller);
    PermutationFacts(out, a[..]);
    out := a[..];
    AscendingWhenOrdered(out);
  }

  predicate Smaller(x: nat, y: nat) {
    x < y
  }

  lemma NumbersOrder()
    ensures Orders(Smaller)
  {
  }

  lemma AscendingWhenOrdered(s: seq<nat>)
    requires Ordered(s, Smaller) && NoDuplicates(s)
    ensures Ascending(s)
  {
    forall i, j | 0 <= i < j < |s| ensures s[i] < s[j] { assert !Smaller(s[j], s[i]); }
  }

  // NSEC

  lemma CanonicalOrder()
    ensures Orders(Before)
  {
    BeforeIsTotalOrder();
    forall x: Name, y: Name | Before(x, y) ensures !Before(y, x) {
      assert Before(y, x) ==> Before(x, x);
    }
    forall x: Name, y: Name, z: Name | !Before(y, x) && !Before(z, y) ensures !Before(z, x) {
      assert (x == y || Before(x, y)) && (y == z || Before(y, z));
      assert Before(z, x) ==> Before(z, z);
    }
  }

  /** Sorts names into canonical order, in place. */
  method SortCanon(a: array<Name>)
    requires NoDuplicates(a[..])
    modifies a
    ensures SortedNames(a[..]) && NoDuplicates(a[..])
    ensures forall n :: n in a[..] <==> n in old(a[..])
  {
    hide Before;
    ghost var was := a[..];
    CanonicalOrder();
    ExchangeSort(a, Before);
    PermutationFacts(was, a[..]);
    SortedWhenOrdered(a[..]);
  }

  lemma SortedWhenOrdered(s: seq<Name>)
    requires Ordered(s, Before) && NoDuplicates(s)
    ensures SortedNames(s)
  {
    hide Before;
    BeforeIsTotalOrder();
    forall i, j | 0 <= i < j < |s| ensures Before(s[i], s[j]) { assert !Before(s[j], s[i]); }
  }

  /** An NSEC with the types of its name, itself and its signature. */
  ghost predicate IsNSECFor(opt: Options, rrs: seq<RR>, rr: RR, n: Name, next: Name) {
    && rr.name == n && rr.cls == CLASS_IN && rr.ttl == opt.ttl && rr.data.NSECData?
    && rr.data.nextName == next && Elements(rr.data.bitmap) == TypesAt(rrs, n) + {NSEC, RRSIG}
  }

  /** One NSEC for every name of the chain, each pointing at the next name in canonical order, cyclically. */
  ghost predicate IsNSECChain(opt: Options, rrs: seq<RR>, names: seq<Name>, out: seq<RR>) {
    && |out| == |names| && SortedNames(names) && (forall n :: n in names <==> InChain(rrs, opt.origin, n))
    && forall i | 0 <= i < |names| :: IsNSECFor(opt, rrs, out[i], names[i], names[Seqs.After(i, |names|)])
  }

  method BuildNSEC(opt: Options, rrs: seq<RR>) returns (out: seq<RR>)
    ensures exists names :: IsNSECChain(opt, rrs, names, out)
  {
    hide InChain, SortedNames, NoDuplicates, TypesAt, NamesOf, Elements;
    var byName := NamesFrom(rrs);
    var list := ChainNames(byName, rrs, opt.origin);
    var a := new Name[|list|](i requires 0 <= i < |list| => list[i]);
    assert a[..] == list;
    SortCanon(a);
    var names := a[..];
    out := [];
    var i := 0;
    while i < |names|
      invariant 0 <= i <= |names| && |out| == i
      invariant forall j | 0 <= j < i :: IsNSECFor(opt, rrs, out[j], names[j], names[Seqs.After(j, |names|)])
    {
      Seqs.AfterIs(i, |names|);
      var name, next := names[i], names[(i + 1) % |names|];
      ByNameTypes(byName, rrs, name);
      var types := TypesIn(byName, name) + {NSEC, RRSIG};
      var bitmap := BitmapOf(types);
      out := out + [RR(name, CLASS_IN, opt.ttl, NSECData(next, bitmap))];
      i := i + 1;
    }
    assert IsNSECChain(opt, rrs, names, out);
  }

  lemma ByNameTypes(m: ByName, rrs: seq<RR>, n: Name)
    requires IsByName(m, rrs)
    ensures TypesIn(m, n) == TypesAt(rrs, n)
  {
    if n !in m { assert TypesAt(rrs, n) == {}; }
  }

  // NSEC3

  /** The text label of a name's hash. */
  function HashLabel(opt: Options, n: Name): Bytes {
    Base32.Encoded(opt.hash(n))
  }

  datatype Hashed = Hashed(hash: Bytes, name: Name, types: set<nat>)

  predicate HashBefore(x: Hashed, y: Hashed) {
    Less(x.hash, y.hash)
  }

  lemma HashesOrder()
    ensures Orders(HashBefore)
  {
    hide Less;
    LessIsTotalOrder();
    forall x: Hashed, y: Hashed | HashBefore(x, y) ensures !HashBefore(y, x) {
      assert Less(y.hash, x.hash) ==> Less(x.hash, x.hash);
    }
    forall x: Hashed, y: Hashed, z: Hashed | !HashBefore(y, x) && !HashBefore(z, y) ensures !HashBefore(z, x) {
      assert (x.hash == y.hash || Less(x.hash, y.hash)) && (y.hash == z.hash || Less(y.hash, z.hash));
      assert Less(z.hash, x.hash) ==> Less(z.hash, z.hash);
    }
  }

  ghost function CutsOf(rrs: seq<RR>): set<Name> {
    set n | n in NamesOf(rrs) && NS in TypesAt(rrs, n)
  }

  /** Left out of an opt-out chain: a delegation without DS. */
  ghost predicate OptedOut(opt: Options, rrs: seq<RR>, n: Name) {
    opt.optOut && IsCut(TypesAt(rrs, n), opt.origin, n) && DS !in TypesAt(rrs, n)
  }

  /** The names that get an NSEC3. */
  ghost predicate IsHashed(opt: Options, rrs: seq<RR>, n: Name) {
    InChain(rrs, opt.origin, n) && !UnderCut(CutsOf(rrs), opt.origin, n) && !OptedOut(opt, rrs, n)
  }

  /** The types an NSEC3 lists for a name. */
  ghost function NSEC3Types(opt: Options, rrs: seq<RR>, n: Name): set<nat> {
    (set t | t in TypesAt(rrs, n) && t != NSEC3 && !(t == NSEC3PARAM && n != opt.origin)) + {RRSIG}
  }

  function SaltOrDash(salt: Bytes): Bytes {
    if salt == [] then [45] else salt
  }

  ghost predicate IsNSEC3For(opt: Options, rrs: seq<RR>, rr: RR, n: Name, next: Bytes) {
    && rr.name == [HashLabel(opt, n)] + opt.origin && rr.cls == CLASS_IN && rr.ttl == opt.ttl && rr.data.NSEC3Data?
    && rr.data.flags == (if opt.optOut then 1 else 0) && rr.data.iterations == opt.iterations
    && rr.data.salt == SaltOrDash(opt.salt)
    && rr.data.nextDomain == Base32.ToUpper(next) && Elements(rr.data.bitmap) == NSEC3Types(opt, rrs, n)
  }

  ghost predicate LabelsOrdered(opt: Options, names: seq<Name>) {
    forall i, j | 0 <= i < j < |names| :: !Less(HashLabel(opt, names[j]), HashLabel(opt, names[i]))
  }

  /** One NSEC3 for every hashed name, in label order, each pointing at the next label, cyclically. */
  ghost predicate IsNSEC3Chain(opt: Options, rrs: seq<RR>, names: seq<Name>, out: seq<RR>) {
    && |out| == |names| && NoDuplicates(names) && LabelsOrdered(opt, names)
    && (forall n :: n in names <==> IsHashed(opt, rrs, n))
    && forall i | 0 <= i < |names| :: IsNSEC3For(opt, rrs, out[i], names[i],
        HashLabel(opt, names[Seqs.After(i, |names|)]))
  }

  /** Items with their label and types, without repetition. */
  ghost predicate ItemsOk(opt: Options, rrs: seq<RR>, items: seq<Hashed>) {
    && (forall i | 0 <= i < |items| ::
          items[i].hash == HashLabel(opt, items[i].name) && items[i].types == TypesAt(rrs, items[i].name))
    && forall i, j | 0 <= i < j < |items| :: items[i].name != items[j].name
  }

  function NamesIn(items: seq<Hashed>): seq<Name> {
    seq(|items|, i requires 0 <= i < |items| => items[i].name)
  }

  method CollectItems(opt: Options, rrs: seq<RR>) returns (items: seq<Hashed>)
    ensures ItemsOk(opt, rrs, items) && forall n :: n in NamesIn(items) <==> IsHashed(opt, rrs, n)
  {
    hide InChain, TypesAt, NamesOf, UnderCut, HashLabel;
    var byName := NamesFrom(rrs);
    var names := ChainNames(byName, rrs, opt.origin);
    CutsAgree(byName, rrs);
    items := [];
    var i := 0;
    while i < |names|
      invariant 0 <= i <= |names| && ItemsOk(opt, rrs, items)
      invariant forall n :: n in NamesIn(items) <==> n in names[..i] && IsHashed(opt, rrs, n)
    {
      var name := names[i];
      Seqs.Longer(names, i);
      assert name !in names[..i];
      ByNameTypes(byName, rrs, name);
      var types := TypesIn(byName, name);
      i := i + 1;
      var under := UnderDelegation(byName, opt.origin, name);
      if under {
        continue;
      }
      if IsCut(types, opt.origin, name) && DS !in types && opt.optOut {
        continue;
      }
      NamesInSnoc(items, Hashed(HashLabel(opt, name), name, types));
      assert name !in NamesIn(items);
      items := items + [Hashed(HashLabel(opt, name), name, types)];
    }
    assert names[..i] == names;
  }

  lemma NamesInSnoc(items: seq<Hashed>, it: Hashed)
    ensures NamesIn(items + [it]) == NamesIn(items) + [it.name]
    ensures forall i | 0 <= i < |items| :: items[i].name in NamesIn(items)
  {
    forall i | 0 <= i < |items| ensures items[i].name in NamesIn(items) { assert NamesIn(items)[i] == items[i].name; }
  }

  lemma CutsAgree(m: ByName, rrs: seq<RR>)
    requires IsByName(m, rrs)
    ensures CutNames(m) == CutsOf(rrs)
  {
  }

  method BuildNSEC3(opt: Options, rrs: seq<RR>) returns (out: seq<RR>)
    ensures exists names :: IsNSEC3Chain(opt, rrs, names, out)
  {
    hide ItemsOk, IsHashed, HashLabel, TypesAt, LabelsOrdered, NoDuplicates;
    var list := CollectItems(opt, rrs);
    var a := new Hashed[|list|](i requires 0 <= i < |list| => list[i]);
    assert a[..] == list;
    HashesOrder();
    ExchangeSort(a, HashBefore);
    var items := a[..];
    SortedItems(opt, rrs, list, items);
    ghost var names := NamesIn(items);
    out := [];
    var i := 0;
    while i < |items|
      invariant 0 <= i <= |items| && |out| == i
      invariant forall j | 0 <= j < i :: IsNSEC3For(opt, rrs, out[j], names[j],
                HashLabel(opt, names[Seqs.After(j, |names|)]))
    {
      Seqs.AfterIs(i, |items|);
      var next := items[(i + 1) % |items|].hash;
      ItemIs(opt, rrs, items, i);
      ItemIs(opt, rrs, items, Seqs.After(i, |items|));
      var rr := MakeNSEC3(opt, rrs, items[i], next);
      out := out + [rr];
      i := i + 1;
    }
    assert IsNSEC3Chain(opt, rrs, names, out);
  }

  method MakeNSEC3(opt: Options, ghost rrs: seq<RR>, it: Hashed, next: Bytes) returns (rr: RR)
    requires it.hash == HashLabel(opt, it.name) && it.types == TypesAt(rrs, it.name)
    ensures IsNSEC3For(opt, rrs, rr, it.name, next)
  {
    hide HashLabel, TypesAt;
    var types := (set t | t in it.types && t != NSEC3 && !(t == NSEC3PARAM && it.name != opt.origin)) + {RRSIG};
    var bitmap := BitmapOf(types);
    rr := RR([it.hash] + opt.origin, CLASS_IN, opt.ttl,
             NSEC3Data(if opt.optOut then 1 else 0, opt.iterations, SaltOrDash(opt.salt), Base32.ToUpper(next),
                 bitmap));
  }

  lemma ItemIs(opt: Options, rrs: seq<RR>, items: seq<Hashed>, i: nat)
    requires ItemsOk(opt, rrs, items) && i < |items|
    ensures items[i].hash == HashLabel(opt, items[i].name) && items[i].types == TypesAt(rrs, items[i].name)
    ensures NamesIn(items)[i] == items[i].name
  {
  }

  lemma SortedItems(opt: Options, rrs: seq<RR>, list: seq<Hashed>, items: seq<Hashed>)
    requires ItemsOk(opt, rrs, list) && multiset(items) == multiset(list) && Ordered(items, HashBefore)
    ensures ItemsOk(opt, rrs, items) && NoDuplicates(NamesIn(items)) && LabelsOrdered(opt, NamesIn(items))
    ensures forall n :: n in NamesIn(items) <==> n in NamesIn(list)
  {
    hide HashLabel, TypesAt, Less;
    PermutationFacts(list, items);
    forall i | 0 <= i < |items|
      ensures items[i].hash == HashLabel(opt, items[i].name) && items[i].types == TypesAt(rrs, items[i].name)
    {
      assert items[i] in list;
    }
    forall i, j | 0 <= i < j < |items| ensures items[i].name != items[j].name {
      assert items[i] in list && items[j] in list && items[i] != items[j];
    }
    forall n ensures n in NamesIn(items) <==> n in NamesIn(list) {
      SameNames(list, items, n);
      SameNames(items, list, n);
    }
    forall i, j | 0 <= i < j < |items| ensures !Less(items[j].hash, items[i].hash) {
      assert !HashBefore(items[j], items[i]);
    }
  }

  lemma SameNames(xs: seq<Hashed>, ys: seq<Hashed>, n: Name)
    requires forall x | x in xs :: x in ys
    ensures n in NamesIn(xs) ==> n in NamesIn(ys)
  {
    if n in NamesIn(xs) {
      var i :| 0 <= i < |xs| && NamesIn(xs)[i] == n;
      assert xs[i] in ys;
      var j :| 0 <= j < |ys| && ys[j] == xs[i];
      assert NamesIn(ys)[j] == n;
    }
  }

  // ---------------------------------------------------------------------------
  // Signing
  // ---------------------------------------------------------------------------

  /** The records of one owner and type, in order. */
  function Group(rrs: seq<RR>, n: Name, t: nat): seq<RR> {
    if rrs == [] then []
    else
      var last := rrs[|rrs| - 1];
      Group(rrs[..|rrs| - 1], n, t) + if last.name == n && last.Type() == t then [last] else []
  }

  /** Addresses below a delegation. */
  ghost predicate IsGlue(origin: Name, rrs: seq<RR>, n: Name, t: nat) {
    (t == A || t == AAAA) && n != origin && UnderCut(CutsOf(rrs), origin, n)
  }

  /** The RRsets that get a signature. */
  ghost predicate ShouldSign(origin: Name, rrs: seq<RR>, n: Name, t: nat) {
    && t != RRSIG && t in TypesAt(rrs, n)
    && !(n != origin && t == NS) && !IsGlue(origin, rrs, n, t)
  }

  function SigningKey(opt: Options, n: Name, t: nat): RR {
    if t == DNSKEY && n == opt.origin then opt.ksk else opt.zsk
  }

  function AlgorithmOf(key: RR): nat {
    if key.data.DNSKEYData? then key.data.algorithm else 0
  }

  function TagOf(key: RR): nat {
    if key.data.DNSKEYData? then key.data.keyTag else 0
  }

  /** A signature over an RRset by the key that signs it. */
  predicate IsSignature(opt: Options, rrs: seq<RR>, n: Name, t: nat, rr: RR) {
    var group, key := Group(rrs, n, t), SigningKey(opt, n, t);
    && group != [] && rr.name == n && rr.cls == CLASS_IN && rr.ttl == group[0].ttl && rr.data.RRSIGData?
    && rr.data.sig.covered == t && rr.data.sig.expiration == opt.expiration && rr.data.sig.inception == opt.inception
    && rr.data.sig.origTtl == group[0].ttl && rr.data.sig.signer == key.name
    && rr.data.sig.algorithm == AlgorithmOf(key) && rr.data.sig.keyTag == TagOf(key)
    && opt.sign(key, group) == Some(Signed(rr.data.sig.labels, rr.data.sig.signature))
  }

  /** The zone followed by signatures: of nothing but RRsets that should have one, and of all of these. */
  ghost predicate IsSigned(opt: Options, rrs: seq<RR>, out: seq<RR>) {
    rrs <= out && SigsFor(opt, rrs, Pairs(rrs), out[|rrs|..])
  }

  /** The owner and type pairs of the records, signatures left out. */
  ghost function Pairs(rrs: seq<RR>): set<(Name, nat)> {
    set rr | rr in rrs && rr.Type() != RRSIG :: (rr.name, rr.Type())
  }

  method PairsOf(rrs: seq<RR>) returns (pairs: set<(Name, nat)>)
    ensures pairs == Pairs(rrs)
  {
    pairs := {};
    var i := 0;
    while i < |rrs|
      invariant 0 <= i <= |rrs|
      invariant pairs == Pairs(rrs[..i])
    {
      Seqs.Longer(rrs, i);
      assert forall rr :: rr in rrs[..i + 1] <==> rr in rrs[..i] || rr == rrs[i];
      if rrs[i].Type() != RRSIG {
        pairs := pairs + {(rrs[i].name, rrs[i].Type())};
      }
      i := i + 1;
    }
    assert rrs[..i] == rrs;
  }

  lemma PairsAre(rrs: seq<RR>)
    ensures forall n, t: nat :: (n, t) in Pairs(rrs) <==> t != RRSIG && t in TypesAt(rrs, n)
  {
  }

  lemma {:induction false} GroupIs(rrs: seq<RR>, n: Name, t: nat)
    ensures forall rr :: rr in Group(rrs, n, t) <==> rr in rrs && rr.name == n && rr.Type() == t
    ensures Group(rrs, n, t) != [] <==> t in TypesAt(rrs, n)
  {
    if rrs != [] {
      var init, last := rrs[..|rrs| - 1], rrs[|rrs| - 1];
      GroupIs(init, n, t);
      assert rrs == init + [last];
      assert forall rr :: rr in rrs <==> rr in init || rr == last;
    }
    assert Group(rrs, n, t) != [] ==> Group(rrs, n, t)[0] in Group(rrs, n, t);
  }

  /** Whether an address is glue: some name strictly above it, below the origin, has an NS RRset. */
  method GlueCheck(origin: Name, rrs: seq<RR>, pairs: set<(Name, nat)>, n: Name, t: nat) returns (glue: bool)
    requires pairs == Pairs(rrs)
    ensures glue <==> IsGlue(origin, rrs, n, t)
  {
    hide TypesAt, NamesOf;
    if t != A && t != AAAA {
      return false;
    }
    if n == origin {
      return false;
    }
    var p := Parent(n);
    while p != origin && p != []
      invariant AtOrUnderCut(CutsOf(rrs), origin, p) == UnderCut(CutsOf(rrs), origin, n)
      decreases |p|
    {
      CutPairs(rrs, p);
      if (p, NS) in pairs {
        return true;
      }
      p := Parent(p);
    }
    return false;
  }

  lemma CutPairs(rrs: seq<RR>, p: Name)
    ensures (p, NS) in Pairs(rrs) <==> p in CutsOf(rrs)
  {
    PairsAre(rrs);
  }

  /** Signs every RRset except delegations and glue; fails when one signature cannot be made. */
  method SignZone(opt: Options, rrs: seq<RR>) returns (out: Option<seq<RR>>)
    ensures out.Some? ==> IsSigned(opt, rrs, out.value)
    ensures out.None? ==> exists n, t: nat ::
              ShouldSign(opt.origin, rrs, n, t) && opt.sign(SigningKey(opt, n, t), Group(rrs, n, t)).None?
  {
    hide ShouldSign, IsSignature, Pairs, Group, SigningKey, SigsFor;
    var pairs := PairsOf(rrs);
    var sigs: seq<RR> := [];
    var todo := pairs;
    ghost var done: set<(Name, nat)> := {};
    NoSigs(opt, rrs);
    while todo != {}
      invariant done !! todo && done + todo == pairs
      invariant SigsFor(opt, rrs, done, sigs)
      decreases todo
    {
      var pair :| pair in todo;
      var n, t := pair.0, pair.1;
      todo := todo - {pair};
      done := done + {pair};
      SigsStep(opt, rrs, done - {pair}, n, t, sigs);
      assert done - {pair} + {pair} == done;
      var sign := MustSign(opt.origin, rrs, pairs, n, t);
      if !sign {
        continue;
      }
      var sig := MakeSignature(opt, rrs, n, t);
      if sig.None? {
        return None;
      }
      sigs := sigs + [sig.value];
    }
    assert done == pairs;
    assert (rrs + sigs)[|rrs|..] == sigs;
    return Some(rrs + sigs);
  }

  /** One signature for every pair in `done` that should have one. */
  ghost predicate SigsFor(opt: Options, rrs: seq<RR>, done: set<(Name, nat)>, sigs: seq<RR>) {
    && (forall rr | rr in sigs :: exists n, t: nat ::
        ShouldSign(opt.origin, rrs, n, t) && IsSignature(opt, rrs, n, t, rr))
    && (forall n, t: nat | (n, t) in done && ShouldSign(opt.origin, rrs, n, t) :: exists rr | rr in sigs ::
        IsSignature(opt, rrs, n, t, rr))
  }

  lemma NoSigs(opt: Options, rrs: seq<RR>)
    ensures SigsFor(opt, rrs, {}, [])
  {
  }

  lemma SigsStep(opt: Options, rrs: seq<RR>, done: set<(Name, nat)>, n: Name, t: nat, sigs: seq<RR>)
    requires SigsFor(opt, rrs, done, sigs)
    ensures !ShouldSign(opt.origin, rrs, n, t) ==> SigsFor(opt, rrs, done + {(n, t)}, sigs)
    ensures ShouldSign(opt.origin, rrs, n, t) ==>
              forall rr | IsSignature(opt, rrs, n, t, rr) :: SigsFor(opt, rrs, done + {(n, t)}, sigs + [rr])
  {
    hide ShouldSign, IsSignature;
    if ShouldSign(opt.origin, rrs, n, t) {
      forall rr | IsSignature(opt, rrs, n, t, rr) ensures SigsFor(opt, rrs, done + {(n, t)}, sigs + [rr]) {
        forall m, u: nat | (m, u) in done + {(n, t)} && ShouldSign(opt.origin, rrs, m, u)
          ensures exists x | x in sigs + [rr] :: IsSignature(opt, rrs, m, u, x)
        {
          if (m, u) == (n, t) {
            assert rr in sigs + [rr];
          } else {
            var x :| x in sigs && IsSignature(opt, rrs, m, u, x);
            assert x in sigs + [rr];
          }
        }
      }
    }
  }

  lemma SignedArePairs(origin: Name, rrs: seq<RR>)
    ensures forall n, t: nat | ShouldSign(origin, rrs, n, t) :: (n, t) in Pairs(rrs)
  {
    hide Pairs, TypesAt, IsGlue;
    PairsAre(rrs);
  }

  method MustSign(origin: Name, rrs: seq<RR>, pairs: set<(Name, nat)>, n: Name, t: nat) returns (sign: bool)
    requires pairs == Pairs(rrs) && (n, t) in pairs
    ensures sign <==> ShouldSign(origin, rrs, n, t)
  {
    hide IsGlue, TypesAt;
    PairsAre(rrs);
    if n != origin && t == NS {
      return false;
    }
    var glue := GlueCheck(origin, rrs, pairs, n, t);
    return !glue;
  }

  method MakeSignature(opt: Options, rrs: seq<RR>, n: Name, t: nat) returns (rr: Option<RR>)
    requires ShouldSign(opt.origin, rrs, n, t)
    ensures rr.Some? ==> IsSignature(opt, rrs, n, t, rr.value)
    ensures rr.None? ==> opt.sign(SigningKey(opt, n, t), Group(rrs, n, t)).None?
  {
    hide TypesAt, IsGlue;
    GroupIs(rrs, n, t);
    var group := CollectGroup(rrs, n, t);
    var key := SigningKey(opt, n, t);
    var made := opt.sign(key, group);
    if made.None? {
      return None;
    }
    var draft := Signature(t, AlgorithmOf(key), |n|, group[0].ttl, opt.expiration, opt.inception, TagOf(key), key.name,
        []);
    return Some(RR(n, CLASS_IN, group[0].ttl,
                   RRSIGData(draft.(labels := made.value.labels, signature := made.value.signature))));
  }

  method CollectGroup(rrs: seq<RR>, n: Name, t: nat) returns (group: seq<RR>)
    ensures group == Group(rrs, n, t)
  {
    group := [];
    var i := 0;
    while i < |rrs|
      invariant 0 <= i <= |rrs|
      invariant group == Group(rrs[..i], n, t)
    {
      Seqs.Longer(rrs, i);
      if rrs[i].name == n && rrs[i].Type() == t {
        group := group + [rrs[i]];
      }
      i := i + 1;
    }
    assert rrs[..i] == rrs;
  }
}

/** Catalog zones (section 4 of RFC 9432): which member zones are monitored, as the catalogs come and go. */
module Catalog {
  import opened Bytes
  import opened Names

  datatype Member = Member(id: string, zone: Name, group: string, coo: string)

  /** Where a monitored zone comes from. */
  datatype Source = Config | CatalogZone | MemberOf(catalog: Name)

  function Zones(ms: seq<Member>): set<Name> {
    set m | m in ms :: m.zone
  }

  /** The last member listed for a zone. */
  function LastFor(ms: seq<Member>, z: Name): (m: Member)
    requires z in Zones(ms)
    ensures m in ms && m.zone == z
  {
    var last := ms[|ms| - 1];
    if last.zone == z then last else LastFor(ms[..|ms| - 1], z)
  }

  /** One member for each of these zones, as `from` lists it last. */
  ghost predicate Lists(ms: seq<Member>, from: seq<Member>, zones: set<Name>) {
    && Zones(ms) == zones <= Zones(from)
    && (forall i, j | 0 <= i < j < |ms| :: ms[i].zone != ms[j].zone)
    && (forall m | m in ms :: m == LastFor(from, m.zone))
  }

  // ---------------------------------------------------------------------------
  // The difference between two member lists
  // ---------------------------------------------------------------------------

  /** Files members by zone; the later of two for the same zone wins. */
  method ByZone(ms: seq<Member>) returns (filed: map<Name, Member>)
    ensures filed.Keys == Zones(ms)
    ensures forall z | z in filed :: filed[z] == LastFor(ms, z)
  {
    filed := map[];
    for i := 0 to |ms|
      invariant filed.Keys == Zones(ms[..i])
      invariant forall z | z in filed :: filed[z] == LastFor(ms[..i], z)
    {
      assert ms[..i + 1][..i] == ms[..i] && ms[..i + 1] == ms[..i] + [ms[i]];
      filed := filed[ms[i].zone := ms[i]];
    }
    assert ms[..|ms|] == ms;
  }

  /** The members filed in one map and not in the other, in any order. */
  method OnlyIn(these: map<Name, Member>, those: map<Name, Member>, ghost from: seq<Member>) returns (out: seq<Member>)
    requires these.Keys == Zones(from) && forall z | z in these :: these[z] == LastFor(from, z)
    ensures Lists(out, from, these.Keys - those.Keys)
  {
    out := [];
    var todo := these.Keys;
    while todo != {}
      invariant todo <= these.Keys
      invariant Lists(out, from, these.Keys - those.Keys - todo)
      decreases todo
    {
      var z :| z in todo;
      ghost var done := these.Keys - those.Keys - todo;
      todo := todo - {z};
      if z !in those {
        OneMoreListed(out, from, done, these[z]);
        assert done + {z} == these.Keys - those.Keys - todo;
        out := out + [these[z]];
      } else {
        assert done == these.Keys - those.Keys - todo;
      }
    }
  }

  lemma OneMoreListed(ms: seq<Member>, from: seq<Member>, zones: set<Name>, m: Member)
    requires Lists(ms, from, zones) && m.zone in Zones(from) - zones && m == LastFor(from, m.zone)
    ensures Lists(ms + [m], from, zones + {m.zone})
  {
    OneMoreZone(ms, m);
    forall i, j | 0 <= i < j < |ms + [m]| ensures (ms + [m])[i].zone != (ms + [m])[j].zone {
      assert ms[i] in ms && ms[i].zone in Zones(ms);
    }
  }

  lemma OneMoreZone(ms: seq<Member>, m: Member)
    ensures Zones(ms + [m]) == Zones(ms) + {m.zone}
  {
    forall z | z in Zones(ms) + {m.zone} ensures z in Zones(ms + [m]) {
      if z == m.zone { assert m in ms + [m]; } else {
        var x :| x in ms && x.zone == z;
        assert x in ms + [m];
      }
    }
  }

  method Diff(prev: seq<Member>, next: seq<Member>) returns (added: seq<Member>, removed: seq<Member>)
    ensures Lists(added, next, Zones(next) - Zones(prev))
    ensures Lists(removed, prev, Zones(prev) - Zones(next))
  {
    var pm := ByZone(prev);
    var nm := ByZone(next);
    added := OnlyIn(nm, pm, next);
    removed := OnlyIn(pm, nm, prev);
  }

  // ---------------------------------------------------------------------------
  // What one visit to a catalog does
  // ---------------------------------------------------------------------------

  /** The monitored zones and, for each catalog, the member zones it had when it was last read. */
  datatype Watch = Watch(zones: map<Name, Source>, known: map<Name, set<Name>>)

  function Known(w: Watch, c: Name): set<Name> {
    if c in w.known then w.known[c] else {}
  }

  predicate Owned(w: Watch, c: Name, z: Name) {
    z in w.zones && w.zones[z] == MemberOf(c)
  }

  /** A configured zone is kept; any other is replaced. */
  function ZoneAdded(zones: map<Name, Source>, z: Name, source: Source): map<Name, Source> {
    if z in zones && zones[z] == Config then zones else zones[z := source]
  }

  /** New members are monitored unless they already are; former members go if this catalog brought them in. */
  function Reconciled(zones: map<Name, Source>, c: Name, before: set<Name>, now: set<Name>): map<Name, Source> {
    Dropped(Grown(zones, c, now - before), c, before - now)
  }

  function Grown(zones: map<Name, Source>, c: Name, added: set<Name>): map<Name, Source> {
    map z | z in zones.Keys + added :: if z in zones then zones[z] else MemberOf(c)
  }

  function Dropped(zones: map<Name, Source>, c: Name, removed: set<Name>): map<Name, Source> {
    map z | z in zones && !(z in removed && zones[z] == MemberOf(c)) :: zones[z]
  }

  /** One visit: `now` is what the catalog lists, if it has been transferred. */
  function Visited(w: Watch, c: Name, now: Option<set<Name>>): Watch {
    if c !in w.zones then w.(zones := w.zones[c := Config])
    else if now.None? then w
    else Watch(Reconciled(w.zones, c, Known(w, c), now.value), w.known[c := now.value])
  }

  function Configured(zones: map<Name, Source>, names: seq<Name>, source: Source): map<Name, Source>
    decreases |names|
  {
    if names == [] then zones else ZoneAdded(Configured(zones, names[..|names| - 1], source), names[|names| - 1],
        source)
  }

  /** The zones at the start. */
  function Initial(zones: seq<Name>, catalogs: seq<Name>): map<Name, Source> {
    Configured(Configured(map[], zones, Config), catalogs, CatalogZone)
  }

  class Watcher {
    var zones: map<Name, Source>
    var prev: map<Name, seq<Member>>

    ghost function View(): Watch
      reads this
    {
      Watch(zones, map c | c in prev :: Zones(prev[c]))
    }

    constructor (configured: seq<Name>, catalogs: seq<Name>)
      ensures View() == Watch(Initial(configured, catalogs), map[])
    {
      zones := map[];
      prev := map[];
      new;
      for i := 0 to |configured|
        invariant prev == map[] && zones == Configured(map[], configured[..i], Config)
      {
        assert configured[..i + 1][..i] == configured[..i];
        AddZone(configured[i], Config);
      }
      assert configured[..|configured|] == configured;
      ghost var first := zones;
      for i := 0 to |catalogs|
        invariant prev == map[] && zones == Configured(first, catalogs[..i], CatalogZone)
      {
        assert catalogs[..i + 1][..i] == catalogs[..i];
        AddZone(catalogs[i], CatalogZone);
      }
      assert catalogs[..|catalogs|] == catalogs;
    }

    method AddZone(z: Name, source: Source)
      modifies this`zones
      ensures zones == ZoneAdded(old(zones), z, source)
    {
      if z in zones {
        if zones[z] == Config {
          return;
        }
      }
      zones := zones[z := source];
    }

    method RemoveZone(z: Name)
      modifies this`zones
      ensures zones == old(zones) - {z}
    {
      zones := zones - {z};
    }

    /** Monitors the members that no zone goes by yet. */
    method AddNew(c: Name, added: seq<Member>)
      modifies this`zones
      ensures zones == Grown(old(zones), c, Zones(added))
    {
      for i := 0 to |added|
        invariant zones == Grown(old(zones), c, Zones(added[..i]))
      {
        assert added[..i + 1] == added[..i] + [added[i]];
        OneMoreZone(added[..i], added[i]);
        if added[i].zone !in zones {
          AddZone(added[i].zone, MemberOf(c));
        }
      }
      assert added[..|added|] == added;
    }

    /** Drops the former members that this catalog brought in. */
    method DropFormer(c: Name, removed: seq<Member>)
      modifies this`zones
      ensures zones == Dropped(old(zones), c, Zones(removed))
    {
      for i := 0 to |removed|
        invariant zones == Dropped(old(zones), c, Zones(removed[..i]))
      {
        assert removed[..i + 1] == removed[..i] + [removed[i]];
        OneMoreZone(removed[..i], removed[i]);
        var z := removed[i].zone;
        if z in zones && zones[z] == MemberOf(c) {
          RemoveZone(z);
        }
      }
      assert removed[..|removed|] == removed;
    }

    /** One visit of the reconcile loop to a catalog, whose members are known once it has been transferred. */
    method Visit(c: Name, parsed: Option<seq<Member>>)
      modifies this
      ensures View() == Visited(old(View()), c, if parsed.Some? then Some(Zones(parsed.value)) else None)
    {
      hide Grown, Dropped, LastFor;
      if c !in zones {
        AddZone(c, Config);
        return;
      }
      if parsed.None? {
        return;
      }
      var members := parsed.value;
      var before := if c in prev then prev[c] else [];
      var added, removed := Diff(before, members);
      prev := prev[c := members];
      AddNew(c, added);
      DropFormer(c, removed);
      assert Zones(before) == Known(old(View()), c);
      assert View().known == old(View()).known[c := Zones(members)];
    }
  }
}

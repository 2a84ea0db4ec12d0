/** Runs of the reconcile loop: which zones are monitored after any sequence of catalog readings. */
module CatalogRuns {
  import opened Bytes
  import opened Names
  import opened Catalog

  /** What one visit found: the member zones a catalog lists, if it has been transferred. */
  datatype Reading = Reading(catalog: Name, now: Option<set<Name>>)

  function After(w: Watch, readings: seq<Reading>): Watch
    decreases |readings|
  {
    if readings == [] then w
    else
      var last := readings[|readings| - 1];
      Visited(After(w, readings[..|readings| - 1]), last.catalog, last.now)
  }

  function Start(configured: seq<Name>, catalogs: seq<Name>): Watch {
    Watch(Initial(configured, catalogs), map[])
  }

  /** The latest list a catalog gave. */
  function Latest(readings: seq<Reading>, c: Name): set<Name>
    decreases |readings|
  {
    if readings == [] then {}
    else
      var last := readings[|readings| - 1];
      if last.catalog == c && last.now.Some? then last.now.value else Latest(readings[..|readings| - 1], c)
  }

  ghost predicate OfCatalogs(readings: seq<Reading>, catalogs: seq<Name>) {
    forall i | 0 <= i < |readings| :: readings[i].catalog in catalogs
  }

  // ---------------------------------------------------------------------------
  // Every zone is there for a reason
  // ---------------------------------------------------------------------------

  /** Configured zones and catalogs stay, and a zone that a catalog brought in is one that catalog lists. */
  ghost predicate WellSourced(w: Watch, configured: seq<Name>, catalogs: seq<Name>) {
    && (forall z :: z in w.zones && w.zones[z] == Config <==> z in configured)
    && (forall z :: z in w.zones && w.zones[z] == CatalogZone <==> z in catalogs && z !in configured)
    && (forall z, c | Owned(w, c, z) :: z in Known(w, c))
  }

  lemma {:induction false} ConfiguredSources(zones: map<Name, Source>, names: seq<Name>, source: Source, z: Name)
    ensures z in Configured(zones, names, source) <==> z in zones || z in names
    ensures z in zones || z in names ==>
              Configured(zones, names, source)[z] ==
              if z in zones && zones[z] == Config then Config else if z in names then source else zones[z]
    decreases |names|
  {
    if names != [] {
      var init, last := names[..|names| - 1], names[|names| - 1];
      assert names == init + [last];
      ConfiguredSources(zones, init, source, z);
    }
  }

  lemma StartIsWellSourced(configured: seq<Name>, catalogs: seq<Name>)
    ensures WellSourced(Start(configured, catalogs), configured, catalogs)
  {
    hide Configured;
    forall z ensures z in Initial(configured, catalogs) <==> z in configured || z in catalogs
             ensures z in Initial(configured, catalogs) ==>
                       Initial(configured, catalogs)[z] == if z in configured then Config else CatalogZone
    {
      ConfiguredSources(map[], configured, Config, z);
      ConfiguredSources(Configured(map[], configured, Config), catalogs, CatalogZone, z);
    }
  }

  lemma VisitStaysWellSourced(w: Watch, configured: seq<Name>, catalogs: seq<Name>, r: Reading)
    requires WellSourced(w, configured, catalogs) && r.catalog in catalogs
    ensures WellSourced(Visited(w, r.catalog, r.now), configured, catalogs)
  {
    CatalogsStay(w, configured, catalogs, r.catalog);
    var w' := Visited(w, r.catalog, r.now);
    forall z | z in configured || z in catalogs ensures z in w.zones && z in w'.zones && w'.zones[z] == w.zones[z] {
      if z in catalogs { CatalogsStay(w, configured, catalogs, z); }
    }
    forall z, c | Owned(w', c, z) ensures z in Known(w', c) {
      if z in w.zones { assert Owned(w, c, z); }
    }
  }

  /** A catalog is monitored all the time: the loop never finds one missing. */
  lemma CatalogsStay(w: Watch, configured: seq<Name>, catalogs: seq<Name>, c: Name)
    requires WellSourced(w, configured, catalogs) && c in catalogs
    ensures c in w.zones
  {
    if c !in configured { assert c in w.zones && w.zones[c] == CatalogZone; }
  }

  lemma {:induction false} RunStaysWellSourced(configured: seq<Name>, catalogs: seq<Name>, readings: seq<Reading>)
    requires OfCatalogs(readings, catalogs)
    ensures WellSourced(After(Start(configured, catalogs), readings), configured, catalogs)
    ensures forall c :: Known(After(Start(configured, catalogs), readings), c) == Latest(readings, c)
    decreases |readings|
  {
    hide WellSourced, Start, Reconciled;
    if readings == [] {
      StartIsWellSourced(configured, catalogs);
      NothingKnown(configured, catalogs);
    } else {
      var init, last := readings[..|readings| - 1], readings[|readings| - 1];
      RunStaysWellSourced(configured, catalogs, init);
      var w := After(Start(configured, catalogs), init);
      VisitStaysWellSourced(w, configured, catalogs, last);
      CatalogsStay(w, configured, catalogs, last.catalog);
    }
  }

  lemma NothingKnown(configured: seq<Name>, catalogs: seq<Name>)
    ensures Start(configured, catalogs).known == map[]
  {
  }

  // ---------------------------------------------------------------------------
  // Every member is monitored
  // ---------------------------------------------------------------------------

  ghost predicate Monitored(w: Watch) {
    forall c, z | z in Known(w, c) :: z in w.zones
  }

  /** No zone that this catalog brought in and lists no longer is still listed by another. */
  ghost predicate LeavesOthers(w: Watch, c: Name, now: set<Name>) {
    forall z, d | d != c && Owned(w, c, z) && z !in now :: z !in Known(w, d)
  }

  /** A visit keeps every member monitored exactly when it takes no zone that another catalog lists. */
  lemma VisitKeepsMonitoredIff(w: Watch, configured: seq<Name>, catalogs: seq<Name>, c: Name, now: set<Name>)
    requires WellSourced(w, configured, catalogs) && c in catalogs && Monitored(w)
    ensures Monitored(Visited(w, c, Some(now))) <==> LeavesOthers(w, c, now)
  {
    CatalogsStay(w, configured, catalogs, c);
    var w' := Visited(w, c, Some(now));
    if LeavesOthers(w, c, now) {
      forall d, z | z in Known(w', d) ensures z in w'.zones {
        if d != c { assert z in Known(w, d); }
      }
    } else {
      var z, d :| d != c && Owned(w, c, z) && z !in now && z in Known(w, d);
      assert z in Known(w', d) && z !in w'.zones;
    }
  }

  /** A zone lost like that stays lost while the same catalog goes on listing it and no other one takes it up. */
  lemma {:induction false} LostStaysLost(w: Watch, c: Name, z: Name, readings: seq<Reading>)
    requires z in Known(w, c) && z !in w.zones
    requires forall i | 0 <= i < |readings| :: readings[i].catalog != z
    requires forall i | 0 <= i < |readings| && readings[i].now.Some? :: readings[i].catalog == c <==>
             z in readings[i].now.value
    ensures z in Known(After(w, readings), c) && z !in After(w, readings).zones
    decreases |readings|
  {
    if readings != [] {
      LostStaysLost(w, c, z, readings[..|readings| - 1]);
    }
  }

  /** Every visit of the run leaves to the other catalogs what they list. */
  ghost predicate Careful(configured: seq<Name>, catalogs: seq<Name>, readings: seq<Reading>)
    decreases |readings|
  {
    readings != [] ==>
      var init, last := readings[..|readings| - 1], readings[|readings| - 1];
      && Careful(configured, catalogs, init)
      && (last.now.Some? ==> LeavesOthers(After(Start(configured, catalogs), init), last.catalog, last.now.value))
  }

  lemma {:induction false} CarefulRunsMonitor(configured: seq<Name>, catalogs: seq<Name>, readings: seq<Reading>)
    requires OfCatalogs(readings, catalogs) && Careful(configured, catalogs, readings)
    ensures Monitored(After(Start(configured, catalogs), readings))
    decreases |readings|
  {
    hide WellSourced, Start, LeavesOthers, Monitored, Reconciled;
    if readings == [] {
      NothingKnown(configured, catalogs);
      NoneToMonitor(Start(configured, catalogs));
    } else {
      var init, last := readings[..|readings| - 1], readings[|readings| - 1];
      CarefulRunsMonitor(configured, catalogs, init);
      RunStaysWellSourced(configured, catalogs, init);
      var w := After(Start(configured, catalogs), init);
      CatalogsStay(w, configured, catalogs, last.catalog);
      if last.now.Some? {
        VisitKeepsMonitoredIff(w, configured, catalogs, last.catalog, last.now.value);
      }
    }
  }

  lemma NoneToMonitor(w: Watch)
    requires w.known == map[]
    ensures Monitored(w)
  {
  }

  /** Where a zone comes from, as the configuration and the latest lists of the catalogs say. */
  ghost predicate Expected(zones: map<Name, Source>, configured: seq<Name>, catalogs: seq<Name>,
          lists: Name -> set<Name>) {
    && (forall z :: z in zones <==> z in configured || z in catalogs || exists c :: z in lists(c))
    && (forall z | z in zones ::
          if z in configured then zones[z] == Config
          else if z in catalogs then zones[z] == CatalogZone
          else zones[z].MemberOf? && z in lists(zones[z].catalog))
  }

  /** After every careful run, the zones are those of the configuration and of the latest lists. */
  lemma ZonesFollowCatalogs(configured: seq<Name>, catalogs: seq<Name>, readings: seq<Reading>)
    requires OfCatalogs(readings, catalogs) && Careful(configured, catalogs, readings)
    ensures Expected(After(Start(configured, catalogs), readings).zones, configured, catalogs, c => Latest(readings, c))
  {
    hide Start, After, Latest, Careful;
    var w := After(Start(configured, catalogs), readings);
    RunStaysWellSourced(configured, catalogs, readings);
    CarefulRunsMonitor(configured, catalogs, readings);
    forall z | z in configured || z in catalogs ensures z in w.zones {
      if z in configured { assert z in w.zones && w.zones[z] == Config; }
      else { CatalogsStay(w, configured, catalogs, z); }
    }
    forall z | z in w.zones && z !in configured && z !in catalogs
      ensures w.zones[z].MemberOf? && z in Latest(readings, w.zones[z].catalog)
    {
      assert Owned(w, w.zones[z].catalog, z);
    }
    var lists := (c: Name) => Latest(readings, c);
    forall z ensures z in w.zones <==> z in configured || z in catalogs || exists c :: z in lists(c) {
      if z in w.zones && z !in configured && z !in catalogs { assert z in lists(w.zones[z].catalog); }
      if c :| z in lists(c) { assert z in Known(w, c); }
    }
    assert Expected(w.zones, configured, catalogs, lists);
  }

  /** Where no two catalogs list the same zone, what happened before the latest readings does not matter. */
  lemma HistoryDoesNotMatter(configured: seq<Name>, catalogs: seq<Name>, one: seq<Reading>, other: seq<Reading>)
    requires OfCatalogs(one, catalogs) && Careful(configured, catalogs, one)
    requires OfCatalogs(other, catalogs) && Careful(configured, catalogs, other)
    requires forall c :: Latest(one, c) == Latest(other, c)
    requires forall c, d, z | z in Latest(one, c) && z in Latest(one, d) :: c == d
    ensures After(Start(configured, catalogs), one).zones == After(Start(configured, catalogs), other).zones
  {
    hide Start, After, Latest, Careful;
    ZonesFollowCatalogs(configured, catalogs, one);
    ZonesFollowCatalogs(configured, catalogs, other);
    var x, y := After(Start(configured, catalogs), one).zones, After(Start(configured, catalogs), other).zones;
    var lists, lists' := (c: Name) => Latest(one, c), (c: Name) => Latest(other, c);
    assert Expected(x, configured, catalogs, lists) && Expected(y, configured, catalogs, lists');
    forall z ensures z in x <==> z in y {
      if c :| z in lists(c) { assert z in lists'(c); }
      if c :| z in lists'(c) { assert z in lists(c); }
    }
  }

  // ---------------------------------------------------------------------------
  // A member moves from one catalog to another
  // ---------------------------------------------------------------------------

  lemma MoveStart(a: Name, b: Name, z: Name)
    requires a != b && z != a && z != b
    ensures var w := Visited(Visited(Start([], [a, b]), a, Some({z})), b, Some({}));
            w.zones == map[a := CatalogZone, b := CatalogZone, z := MemberOf(a)] && w.known == map[a := {z}, b := {}]
  {
    var w0 := Start([], [a, b]);
    assert [a, b][..1] == [a] && [a][..0] == [];
    assert Configured(map[], [], Config) == map[] && Configured(map[], [a], CatalogZone) == map[a := CatalogZone];
    assert w0.zones == map[a := CatalogZone, b := CatalogZone];
    var w1 := Visited(w0, a, Some({z}));
    assert w1.zones == map[a := CatalogZone, b := CatalogZone, z := MemberOf(a)];
  }

  /** Read in this order, the zone is lost: the new catalog finds it monitored, then the old one takes it away. */
  lemma MoveLosesZone(a: Name, b: Name, z: Name)
    requires a != b && z != a && z != b
    ensures var w := Visited(Visited(Start([], [a, b]), a, Some({z})), b, Some({}));
            var w' := Visited(Visited(w, b, Some({z})), a, Some({}));
            z in Known(w', b) && z !in w'.zones
  {
    MoveStart(a, b, z);
  }

  /** Read in the other order it is kept. */
  lemma MoveKeepsZone(a: Name, b: Name, z: Name)
    requires a != b && z != a && z != b
    ensures var w := Visited(Visited(Start([], [a, b]), a, Some({z})), b, Some({}));
            var w' := Visited(Visited(w, a, Some({})), b, Some({z}));
            Owned(w', b, z)
  {
    MoveStart(a, b, z);
  }
}

/** Serial comparison on the 32-bit circle (section 3.2 of RFC 1982), the choice of server, and serial skew. */
module Serial {
  import opened Bytes

  const HALF: nat := 0x8000_0000

  /** The sign of the wrap-around difference read as a signed number. */
  predicate SerialGreater(a: u32, b: u32) {
    0 < Sub32(a, b) < HALF
  }

  /** Steps from `base` up to `s`. */
  function Offset(base: u32, s: u32): u32 {
    Sub32(s, base)
  }

  /** All serials lie less than half the circle above `base`. */
  ghost predicate InWindow(base: u32, serials: seq<u32>) {
    forall s | s in serials :: Offset(base, s) < HALF
  }

  /** Inside a window the comparison is the comparison of offsets, across the wrap-around. */
  lemma GreaterIsOffset(base: u32, a: u32, b: u32)
    requires Offset(base, a) < HALF && Offset(base, b) < HALF
    ensures SerialGreater(a, b) <==> Offset(base, a) > Offset(base, b)
    ensures Offset(base, a) >= Offset(base, b) ==> Sub32(a, b) == Offset(base, a) - Offset(base, b)
    ensures Offset(base, a) == Offset(base, b) ==> a == b
  {
  }

  /** Without a window there need not be a greatest serial. */
  lemma NoGreatestOnTheCircle()
    ensures var a, b, c := 0, 0x6000_0000, 0xC000_0000;
            SerialGreater(b, a) && SerialGreater(c, b) && SerialGreater(a, c)
  {
  }

  ghost predicate IsGreatest(base: u32, serials: seq<u32>, m: u32) {
    m in serials && forall s | s in serials :: Offset(base, s) <= Offset(base, m)
  }

  ghost predicate IsLeast(base: u32, serials: seq<u32>, m: u32) {
    m in serials && forall s | s in serials :: Offset(base, m) <= Offset(base, s)
  }

  // ---------------------------------------------------------------------------
  // Choosing a server
  // ---------------------------------------------------------------------------

  datatype Probe = Unreachable | Reachable(serial: u32)

  function Serials(probes: seq<Probe>): (serials: seq<u32>) {
    if probes == [] then []
    else
      var last := probes[|probes| - 1];
      Serials(probes[..|probes| - 1]) + if last.Reachable? then [last.serial] else []
  }

  lemma {:induction false} SerialsAre(probes: seq<Probe>, s: u32)
    ensures s in Serials(probes) <==> Reachable(s) in probes
  {
    if probes != [] {
      SerialsAre(probes[..|probes| - 1], s);
      assert probes == probes[..|probes| - 1] + [probes[|probes| - 1]];
    }
  }

  /** Probes servers in order and keeps the best answer; stops at the first one unless all are to be probed. */
  method ScanServers(probes: seq<Probe>, all: bool) returns (best: Option<nat>)
    ensures best.None? <==> Serials(probes) == []
    ensures best.Some? ==> best.value < |probes| && probes[best.value].Reachable?
    ensures best.Some? && !all ==> forall j | 0 <= j < best.value :: probes[j].Unreachable?
    ensures forall base | all && best.Some? && InWindow(base, Serials(probes)) ::
              IsGreatest(base, Serials(probes), probes[best.value].serial)
  {
    best := None;
    var i := 0;
    while i < |probes|
      invariant 0 <= i <= |probes|
      invariant best.None? <==> Serials(probes[..i]) == []
      invariant best.Some? ==> best.value < i && probes[best.value].Reachable? && all
      invariant forall base | best.Some? && InWindow(base, Serials(probes[..i])) ::
                  IsGreatest(base, Serials(probes[..i]), probes[best.value].serial)
      invariant best.None? ==> forall j | 0 <= j < i :: probes[j].Unreachable?
    {
      ghost var was := best;
      assert probes[..i + 1][..i] == probes[..i];
      assert Serials(probes[..i]) + [] == Serials(probes[..i]);
      var r := probes[i];
      if r.Reachable? && (best.None? || SerialGreater(r.serial, probes[best.value].serial)) {
        best := Some(i);
      }
      if r.Reachable? {
        GreatestGrows(Serials(probes[..i]), r.serial, if was.None? then None else Some(probes[was.value].serial));
      }
      if !all && r.Reachable? {
        SomeSerial(probes, i);
        return best;
      }
      i := i + 1;
    }
    assert probes[..i] == probes;
  }

  lemma SomeSerial(probes: seq<Probe>, i: nat)
    requires i < |probes| && probes[i].Reachable?
    ensures Serials(probes) != []
  {
    SerialsAre(probes, probes[i].serial);
  }

  lemma GreatestGrows(serials: seq<u32>, s: u32, best: Option<u32>)
    requires best.None? <==> serials == []
    requires forall base | best.Some? && InWindow(base, serials) :: IsGreatest(base, serials, best.value)
    ensures var better := if best.None? || SerialGreater(s, best.value) then s else best.value;
            forall base | InWindow(base, serials + [s]) :: IsGreatest(base, serials + [s], better)
  {
    var better := if best.None? || SerialGreater(s, best.value) then s else best.value;
    forall base | InWindow(base, serials + [s]) ensures IsGreatest(base, serials + [s], better) {
      assert s in serials + [s];
      assert InWindow(base, serials) by { assert forall x | x in serials :: x in serials + [s]; }
      if best.Some? { GreaterIsOffset(base, s, best.value); }
    }
  }

  // ---------------------------------------------------------------------------
  // Skew
  // ---------------------------------------------------------------------------

  /** The spread between the outermost serials, 0 with fewer than two of them. */
  method Spread(serials: seq<u32>) returns (diff: u32)
    ensures |serials| < 2 ==> diff == 0
    ensures forall base, low, high | |serials| >= 2 && InWindow(base, serials) &&
              IsLeast(base, serials, low) && IsGreatest(base, serials, high) ::
              diff == Offset(base, high) - Offset(base, low)
  {
    if |serials| < 2 {
      return 0;
    }
    var min, max := serials[0], serials[0];
    var i := 1;
    while i < |serials|
      invariant 1 <= i <= |serials|
      invariant forall base | InWindow(base, serials) ::
                  IsLeast(base, serials[..i], min) && IsGreatest(base, serials[..i], max)
    {
      var s := serials[i];
      SpreadGrows(serials, i, min, max);
      if SerialGreater(min, s) {
        min := s;
      }
      if SerialGreater(s, max) {
        max := s;
      }
      i := i + 1;
    }
    assert serials[..i] == serials;
    diff := Sub32(max, min);
    forall base, low, high | InWindow(base, serials) && IsLeast(base, serials, low) && IsGreatest(base, serials, high)
      ensures diff == Offset(base, high) - Offset(base, low)
    {
      GreaterIsOffset(base, max, min);
      GreaterIsOffset(base, max, high);
      GreaterIsOffset(base, min, low);
    }
  }

  lemma SpreadGrows(serials: seq<u32>, i: nat, min: u32, max: u32)
    requires i < |serials|
    requires forall base | InWindow(base, serials) ::
               IsLeast(base, serials[..i], min) && IsGreatest(base, serials[..i], max)
    ensures var s := serials[i];
            var min', max' := if SerialGreater(min, s) then s else min, if SerialGreater(s, max) then s else max;
            forall base | InWindow(base, serials) :: IsLeast(base, serials[..i + 1], min') &&
                IsGreatest(base, serials[..i + 1], max')
  {
    var s := serials[i];
    assert serials[..i + 1] == serials[..i] + [s];
    forall base | InWindow(base, serials)
      ensures IsLeast(base, serials[..i + 1], if SerialGreater(min, s) then s else min)
      ensures IsGreatest(base, serials[..i + 1], if SerialGreater(s, max) then s else max)
    {
      assert min in serials && max in serials && s in serials;
      GreaterIsOffset(base, min, s);
      GreaterIsOffset(base, s, max);
    }
  }

  /** Whether servers disagree by more than the configured number of steps. */
  method SkewExceeds(probes: seq<Probe>, warning: nat) returns (skewed: bool)
    ensures forall base, low, high | |Serials(probes)| >= 2 && InWindow(base, Serials(probes)) &&
              IsLeast(base, Serials(probes), low) && IsGreatest(base, Serials(probes), high) ::
              skewed <==> Offset(base, high) - Offset(base, low) > warning
    ensures |Serials(probes)| < 2 ==> !skewed
  {
    var serials: seq<u32> := [];
    var i := 0;
    while i < |probes|
      invariant 0 <= i <= |probes|
      invariant serials == Serials(probes[..i])
    {
      assert probes[..i + 1][..i] == probes[..i];
      if probes[i].Reachable? {
        serials := serials + [probes[i].serial];
      }
      i := i + 1;
    }
    assert probes[..i] == probes;
    if |serials| < 2 {
      return false;
    }
    var diff := Spread(serials);
    skewed := diff > warning;
  }
}

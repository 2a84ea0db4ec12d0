/** What a valid verdict is worth over runs of a monitored zone: when a valid zone can have an error finding. */
module Verdicts {
  import opened Bytes
  import opened Findings
  import opened ZoneState
  import opened MonitorRuns

  // ---------------------------------------------------------------------------
  // Honest steps
  // ---------------------------------------------------------------------------

  /** How severe a finding with a given code is, by configuration. */
  type Severities = Code -> Severity

  ghost predicate Graded(sev: Severities, m: ByKey) {
    forall k | k in m :: m[k].key == k && m[k].severity == sev(k.code)
  }

  /** Findings that come in with an action have the severity of their code, verdicts say whether there are errors, a
      sweep only adds, and the chain check invalidates when it reports an error. */
  ghost predicate Honest(sev: Severities, w: World, a: Action) {
    match a
    case SkewFound(_, f) => f.severity == Warning && sev(f.key.code) == Warning
    case GotDifferences(_, _, failure, _) => failure.Some? ==> failure.value.severity == sev(failure.value.key.code)
    case Recheck(_, res) => HonestResult(sev, res)
    case Verify(_, res) => HonestResult(sev, res)
    case VerifyAndCommit(_, res) => HonestResult(sev, res)
    case Sweep(after) => Graded(sev, after) && forall k | k in FindingsOrNone(w.zone) :: k in after
    case ChainCheck(fs, invalidate) => AllGraded(sev, fs) && (AnyError(fs) ==> invalidate)
    case Resume(fs) => AllGraded(sev, fs) && w.zone.state != Valid
    case _ => true
  }

  ghost predicate HonestResult(sev: Severities, res: Result) {
    Graded(sev, res.findings) && (res.valid && !res.unsigned ==> !HasErrors(res.findings))
  }

  ghost predicate AllGraded(sev: Severities, fs: seq<Finding>) {
    forall f | f in fs :: f.severity == sev(f.key.code)
  }

  predicate AnyError(fs: seq<Finding>) {
    exists f | f in fs :: f.severity == Error
  }

  ghost predicate Clean(w: World) {
    w.zone.state == Valid ==> !HasErrorFindings(w.zone)
  }

  /** Findings are graded, a result waiting for its commit has a verdict that fits it, and the zone is not valid while
      it is being verified. */
  ghost predicate Tidy(sev: Severities, w: World) {
    && Graded(sev, FindingsOrNone(w.zone)) && w.zone.findings.Some?
    && (forall p | p in w.refreshes && w.refreshes[p].Verified? :: HonestResult(sev, w.refreshes[p].res))
    && (SomeChecking(w) ==> w.zone.state != Valid)
  }

  /** The commit of a good verdict on the zone's own findings, which have got an error meanwhile. */
  predicate BadCommit(w: World, a: Action) {
    && a.Commit? && At(w, a.id) && w.refreshes[a.id].Verified? && Passed(w.refreshes[a.id].res)
    && HasErrorFindings(w.zone)
  }

  /** A good verdict of a verification in place. */
  predicate Passed(res: Result) {
    res.valid && !res.unsigned && res.inPlace
  }

  lemma GradedAdd(sev: Severities, m: ByKey, f: Finding)
    requires Graded(sev, m) && f.severity == sev(f.key.code)
    ensures Graded(sev, Findings.Added(m, f))
    ensures HasErrors(Findings.Added(m, f)) <==> HasErrors(m) || f.severity == Error
  {
    var m' := Findings.Added(m, f);
    if k :| k in m && m[k].severity == Error { assert k in m' && m'[k].severity == Error; }
    if f.severity == Error { assert f.key in m' && m'[f.key].severity == Error; }
    if k :| k in m' && m'[k].severity == Error { assert k == f.key || k in m; }
  }

  lemma {:induction false} GradedAddAll(sev: Severities, m: ByKey, fs: seq<Finding>)
    requires Graded(sev, m) && AllGraded(sev, fs)
    ensures Graded(sev, WithAll(m, fs))
    ensures HasErrors(WithAll(m, fs)) <==> HasErrors(m) || AnyError(fs)
  {
    hide HasErrors, Graded;
    if fs != [] {
      var init, last := fs[..|fs| - 1], fs[|fs| - 1];
      assert fs == init + [last] && last in fs;
      GradedAddAll(sev, m, init);
      GradedAdd(sev, WithAll(m, init), last);
    }
  }

  /** An error that a sweep adds is a new finding. */
  lemma NewErrorsGrow(sev: Severities, before: ByKey, after: ByKey)
    requires Graded(sev, before) && Graded(sev, after) && (forall k | k in before :: k in after)
    requires !HasErrors(before) && HasErrors(after)
    ensures |after| > |before|
  {
    var k :| k in after && after[k].severity == Error;
    assert k !in before;
    assert before.Keys + {k} <= after.Keys;
    SubsetSize(before.Keys + {k}, after.Keys);
    assert |before.Keys + {k}| == |before| + 1;
  }

  lemma {:induction false} SubsetSize(a: set<Key>, b: set<Key>)
    requires a <= b
    ensures |a| <= |b|
    decreases |a|
  {
    if a != {} {
      var x :| x in a;
      SubsetSize(a - {x}, b - {x});
    }
  }

  /** A step outside all refreshes stays tidy where it only adds graded findings and does not make the zone valid. */
  lemma OutsideTidy(sev: Severities, w: World, w': World)
    requires Tidy(sev, w) && w'.refreshes == w.refreshes
    requires w'.zone.findings.Some? && Graded(sev, w'.zone.findings.value)
    requires w'.zone.state == Valid ==> w.zone.state == Valid
    ensures Tidy(sev, w')
  {
    hide Graded, HonestResult;
  }

  lemma SweepTidy(sev: Severities, w: World, after: ByKey)
    requires Tidy(sev, w) && Clean(w) && Honest(sev, w, Sweep(after))
    ensures Tidy(sev, AfterSweep(w, after)) && Clean(AfterSweep(w, after))
  {
    hide HasErrors, Graded, LastEntries, HonestResult, SomeChecking;
    OutsideTidy(sev, w, AfterSweep(w, after));
    if w.zone.state == Valid && HasErrors(after) {
      NewErrorsGrow(sev, w.zone.findings.value, after);
    }
  }

  lemma ChainTidy(sev: Severities, w: World, fs: seq<Finding>, invalidate: bool)
    requires Tidy(sev, w) && Clean(w) && Honest(sev, w, ChainCheck(fs, invalidate))
    ensures Tidy(sev, AfterChainCheck(w, fs, invalidate)) && Clean(AfterChainCheck(w, fs, invalidate))
  {
    hide HasErrors, Graded, LastEntries, WithAll, AnyError, AllGraded, HonestResult, SomeChecking;
    GradedAddAll(sev, FindingsOrNone(w.zone), fs);
    OutsideTidy(sev, w, AfterChainCheck(w, fs, invalidate));
  }

  lemma AddedTidy(sev: Severities, w: World, fs: seq<Finding>)
    requires Tidy(sev, w) && Clean(w) && AllGraded(sev, fs) && (AnyError(fs) ==> w.zone.state != Valid)
    ensures Tidy(sev, WithZone(w, Restored(w.zone, fs))) && Clean(WithZone(w, Restored(w.zone, fs)))
  {
    hide HasErrors, Graded, WithAll, AnyError, AllGraded, HonestResult, SomeChecking;
    GradedAddAll(sev, FindingsOrNone(w.zone), fs);
    OutsideTidy(sev, w, WithZone(w, Restored(w.zone, fs)));
  }

  lemma TickTidy(sev: Severities, w: World, expired: bool)
    requires Inv(w) && Tidy(sev, w) && Clean(w)
    ensures Tidy(sev, AfterTick(w, expired)) && Clean(AfterTick(w, expired))
  {
    NothingToPutBack(w);
    hide HasErrors, Graded, LastEntries, Inv, PutBack, HonestResult, SomeChecking;
    OutsideTidy(sev, w, AfterTick(w, expired));
  }

  /** The refresh at work moves on to a phase without a waiting result, and the zone does not become valid there. */
  lemma MovedTidy(sev: Severities, w: World, w': World, id: nat, p: Phase)
    requires Tidy(sev, w) && w'.refreshes == w.refreshes[id := p] && !p.Verified?
    requires w'.zone.findings.Some? && Graded(sev, w'.zone.findings.value)
    requires w'.zone.state == Valid ==> w.zone.state == Valid && !p.Checking?
    ensures Tidy(sev, w')
  {
    hide Graded, HonestResult;
  }

  lemma DifferencesTidy(sev: Severities, w: World, id: nat, from: u32, serial: u32, failure: Option<Finding>,
          full: bool)
    requires Tidy(sev, w) && (failure.Some? ==> failure.value.severity == sev(failure.value.key.code))
    requires w.zone.serial.Some?
    ensures var w' := WithDifferences(w, id, from, serial, failure, full); Tidy(sev, w') && Clean(w')
  {
    hide HasErrors, Graded, LastEntries, WithAll, HonestResult, SomeChecking;
    var w' := WithDifferences(w, id, from, serial, failure, full);
    if failure.Some? { GradedAddAll(sev, FindingsOrNone(w.zone), [failure.value]); }
    MovedTidy(sev, w, w', id, w'.refreshes[id]);
  }

  lemma VerifyTidy(sev: Severities, w: World, id: nat, res: Result)
    requires Inv(w) && Tidy(sev, w) && MayVerify(w, id, res) && HonestResult(sev, res)
    ensures Tidy(sev, AfterVerify(w, id, res)) && Clean(AfterVerify(w, id, res))
  {
    hide Faithful, Exclusive, PassingOwned, StoreThere, Graded, HasErrors;
    assert SomeChecking(w);
  }

  /** A commit leaves the zone tidy; it leaves a valid zone with errors exactly when it is a bad one. */
  lemma CommitTidy(sev: Severities, w: World, id: nat, res: Result)
    requires Exclusive(w) && Tidy(sev, w) && At(w, id) && Holds(w.refreshes[id]) && HonestResult(sev, res)
    ensures var w' := CommitResult(w, id, res);
            Tidy(sev, w') && (Clean(w') <==> !(Passed(res) && HasErrorFindings(w.zone)))
  {
    hide Graded, HasErrors, LastEntries;
    var w' := CommitResult(w, id, res);
    forall p | p in w'.refreshes && Holds(w'.refreshes[p]) ensures p == id {
      assert p in w.refreshes && Holds(w.refreshes[p]);
    }
  }

  /** Every honest step keeps a tidy zone tidy and a clean one clean, bad commits apart. */
  lemma StepStaysTidy(sev: Severities, w: World, a: Action)
    requires Inv(w) && Tidy(sev, w) && Clean(w) && Enabled(w, a) && Honest(sev, w, a)
    ensures Tidy(sev, Next(w, a)) && (Clean(Next(w, a)) <==> !BadCommit(w, a))
  {
    hide HasErrors, Graded, LastEntries, WithAll, Faithful, Exclusive, PassingOwned, LastTerminalIn, AfterTick,
         AfterSweep, AfterChainCheck, WithDifferences, CommitResult, AfterVerify;
    match a {
      case Sweep(after) => SweepTidy(sev, w, after);
      case ChainCheck(fs, invalidate) => ChainTidy(sev, w, fs, invalidate);
      case SkewFound(_, f) => AddedTidy(sev, w, [f]);
      case Resume(fs) => AddedTidy(sev, w, fs);
      case GotDifferences(id, serial, failure, full) =>
        DifferencesFindAStore(w, a);
        DifferencesTidy(sev, w, id, w.refreshes[id].from, serial, failure, full);
      case Unchanged(id) => UnchangedPutsNothingBack(w, id);
      case Tick(expired) => TickTidy(sev, w, expired);
      case Verify(id, res) => VerifyTidy(sev, w, id, res);
      case Recheck(id, res) => CommitTidy(sev, w, id, res);
      case Commit(id) => CommitTidy(sev, w, id, w.refreshes[id].res);
      case VerifyAndCommit(id, res) => VerifyAndCommitTidy(sev, w, id, res);
      case _ =>
    }
  }

  lemma VerifyAndCommitTidy(sev: Severities, w: World, id: nat, res: Result)
    requires Inv(w) && Tidy(sev, w) && MayVerify(w, id, res) && HonestResult(sev, res)
    ensures var w' := CommitResult(AfterVerify(w, id, res), id, res); Tidy(sev, w') && Clean(w')
  {
    hide Faithful, PassingOwned, StoreThere, Exclusive, Tidy, LastEntries, HasErrors;
    VerifyTidy(sev, w, id, res);
    var w1 := AfterVerify(w, id, res);
    StepKeepsExclusive(w, Verify(id, res));
    CommitTidy(sev, w1, id, res);
  }

  // ---------------------------------------------------------------------------
  // Runs
  // ---------------------------------------------------------------------------

  ghost predicate HonestRun(sev: Severities, worlds: seq<World>, actions: seq<Action>) {
    && IsRun(worlds, actions) && worlds[0] == New()
    && forall i | 0 <= i < |actions| :: Honest(sev, worlds[i], actions[i])
  }

  /** Up to the first bad commit every world is tidy and clean. */
  lemma {:induction false} RunStaysTidy(sev: Severities, worlds: seq<World>, actions: seq<Action>, k: nat)
    requires HonestRun(sev, worlds, actions) && k < |worlds|
    requires forall i | 0 <= i < k :: !BadCommit(worlds[i], actions[i])
    ensures Inv(worlds[k]) && Tidy(sev, worlds[k]) && Clean(worlds[k])
  {
    hide Inv, Tidy, Clean, Next, Enabled, Honest, BadCommit;
    if k > 0 {
      RunStaysTidy(sev, worlds, actions, k - 1);
      StepKeepsInv(worlds[k - 1], actions[k - 1]);
      StepStaysTidy(sev, worlds[k - 1], actions[k - 1]);
    } else {
      NewIsTidy(sev);
    }
  }

  lemma NewIsTidy(sev: Severities)
    ensures Inv(New()) && Tidy(sev, New()) && Clean(New())
  {
    NewIsSafe();
  }

  /** An action that brings an error finding. */
  predicate Brings(a: Action) {
    || (a.ChainCheck? && AnyError(a.fs)) || (a.Resume? && AnyError(a.fs)) || (a.Sweep? && HasErrors(a.after))
  }

  ghost predicate Waits(w: World, id: nat, res: Result) {
    At(w, id) && w.refreshes[id] == Verified(res) && res.inPlace
  }

  /** While a result waits for its commit, nothing but such actions changes whether there are errors. */
  lemma WaitingStep(sev: Severities, w: World, a: Action, id: nat, res: Result)
    requires Inv(w) && Tidy(sev, w) && Waits(w, id, res) && Enabled(w, a) && Honest(sev, w, a) && a != Commit(id)
    ensures Waits(Next(w, a), id, res)
    ensures HasErrorFindings(Next(w, a).zone) <==> HasErrorFindings(w.zone) || Brings(a)
  {
    hide HasErrors, Graded, LastEntries, WithAll, Faithful, PassingOwned, LastTerminalIn, CommitResult,
         WithDifferences, AllGraded, AnyError, HonestResult;
    match a {
      case Sweep(after) => SweepGrows(sev, FindingsOrNone(w.zone), after);
      case ChainCheck(fs, invalidate) => GradedAddAll(sev, FindingsOrNone(w.zone), fs);
      case Resume(fs) => GradedAddAll(sev, FindingsOrNone(w.zone), fs);
      case _ =>
    }
  }

  lemma SweepGrows(sev: Severities, before: ByKey, after: ByKey)
    requires Graded(sev, before) && Graded(sev, after) && forall k | k in before :: k in after
    ensures HasErrors(before) ==> HasErrors(after)
  {
    if k :| k in before && before[k].severity == Error { assert k in after && after[k].severity == Error; }
  }

  /** From a verification in place to its commit the result waits, and the zone has errors as soon as one is
      brought. */
  lemma {:induction false} ResultWaits(sev: Severities, worlds: seq<World>, actions: seq<Action>, i: nat, k: nat)
    requires HonestRun(sev, worlds, actions) && i < k < |worlds|
    requires forall m | 0 <= m < k :: !BadCommit(worlds[m], actions[m])
    requires actions[i].Verify? && Passed(actions[i].res)
    requires forall m | i < m < k :: actions[m] != Commit(actions[i].id)
    ensures Waits(worlds[k], actions[i].id, actions[i].res)
    ensures HasErrorFindings(worlds[k].zone) <==> exists m | i < m < k :: Brings(actions[m])
    decreases k
  {
    hide Inv, Tidy, Clean, Next, Enabled, Honest, BadCommit, Waits, HasErrorFindings, Brings;
    var id, res := actions[i].id, actions[i].res;
    RunStaysTidy(sev, worlds, actions, k - 1);
    if k == i + 1 {
      VerifyWaits(sev, worlds[i], id, res);
    } else {
      ResultWaits(sev, worlds, actions, i, k - 1);
      WaitingStep(sev, worlds[k - 1], actions[k - 1], id, res);
      if m :| i < m < k && Brings(actions[m]) {
        assert m == k - 1 || exists x | i < x < k - 1 :: Brings(actions[x]);
      }
    }
  }

  lemma VerifyWaits(sev: Severities, w: World, id: nat, res: Result)
    requires Enabled(w, Verify(id, res)) && Honest(sev, w, Verify(id, res)) && Passed(res)
    ensures Waits(Next(w, Verify(id, res)), id, res) && !HasErrorFindings(Next(w, Verify(id, res)).zone)
  {
    hide HasErrors, Graded;
  }

  /** A waiting result comes from the last step or was there before. */
  lemma WaitsSince(w: World, a: Action, id: nat, res: Result)
    requires Enabled(w, a) && Waits(Next(w, a), id, res)
    ensures a == Verify(id, res) || (Waits(w, id, res) && a != Commit(id))
  {
    hide LastTerminal, LastEntries, WithAll;
  }

  lemma {:induction false} FindVerify(sev: Severities, worlds: seq<World>, actions: seq<Action>, k: nat, id: nat,
          res: Result)
      returns (i: nat)
    requires HonestRun(sev, worlds, actions) && k < |worlds| && Waits(worlds[k], id, res)
    ensures i < k && actions[i] == Verify(id, res) && forall m | i < m < k :: actions[m] != Commit(id)
    decreases k
  {
    hide Next, Enabled, Honest;
    if k == 0 {
      assert false;
    }
    WaitsSince(worlds[k - 1], actions[k - 1], id, res);
    if actions[k - 1] == Verify(id, res) {
      i := k - 1;
    } else {
      i := FindVerify(sev, worlds, actions, k - 1, id, res);
    }
  }

  lemma {:induction false} FirstBad(worlds: seq<World>, actions: seq<Action>, n: nat) returns (k: nat)
    requires n < |actions| < |worlds| && BadCommit(worlds[n], actions[n])
    ensures k <= n && BadCommit(worlds[k], actions[k]) && forall m | 0 <= m < k :: !BadCommit(worlds[m], actions[m])
    decreases n
  {
    hide BadCommit;
    if m :| 0 <= m < n && BadCommit(worlds[m], actions[m]) {
      k := FirstBad(worlds, actions, m);
    } else {
      k := n;
    }
  }

  /** A valid zone never has an error finding exactly when no bad commit happens. */
  lemma CleanUnlessBadCommit(sev: Severities, worlds: seq<World>, actions: seq<Action>)
    requires HonestRun(sev, worlds, actions)
    ensures (forall k | 0 <= k < |worlds| :: Clean(worlds[k])) <==>
            forall k | 0 <= k < |actions| :: !BadCommit(worlds[k], actions[k])
  {
    hide Inv, Tidy, Clean, Next, Enabled, Honest, BadCommit;
    if n :| 0 <= n < |actions| && BadCommit(worlds[n], actions[n]) {
      var k := FirstBad(worlds, actions, n);
      RunStaysTidy(sev, worlds, actions, k);
      StepStaysTidy(sev, worlds[k], actions[k]);
      assert !Clean(worlds[k + 1]);
    } else {
      forall k | 0 <= k < |worlds| ensures Clean(worlds[k]) {
        RunStaysTidy(sev, worlds, actions, k);
      }
    }
  }

  /** A verification in place finds no error, one is brought, and then the verdict is committed. */
  ghost predicate LateError(actions: seq<Action>, i: nat, m: nat, j: nat) {
    && i < m < j < |actions|
    && actions[i].Verify? && Passed(actions[i].res) && Brings(actions[m]) && actions[j] == Commit(actions[i].id)
    && forall k | i < k < j :: actions[k] != Commit(actions[i].id)
  }

  /** In every honest run, a valid zone never has an error finding exactly when no error comes late. */
  lemma CleanUnlessLateError(sev: Severities, worlds: seq<World>, actions: seq<Action>)
    requires HonestRun(sev, worlds, actions)
    ensures (forall k | 0 <= k < |worlds| :: worlds[k].zone.state == Valid ==> !HasErrorFindings(worlds[k].zone)) <==>
            !exists i, m, j :: LateError(actions, i, m, j)
  {
    hide Inv, Tidy, Next, Enabled, Honest, HasErrorFindings, Brings;
    CleanUnlessBadCommit(sev, worlds, actions);
    assert forall k | 0 <= k < |worlds| ::
        Clean(worlds[k]) <==> (worlds[k].zone.state == Valid ==> !HasErrorFindings(worlds[k].zone));
    if n :| 0 <= n < |actions| && BadCommit(worlds[n], actions[n]) {
      var j := FirstBad(worlds, actions, n);
      BadIsLate(sev, worlds, actions, j);
    } else if i, m, j :| LateError(actions, i, m, j) {
      LateIsBad(sev, worlds, actions, i, m, j);
      assert false;
    }
  }

  lemma BadIsLate(sev: Severities, worlds: seq<World>, actions: seq<Action>, j: nat)
    requires HonestRun(sev, worlds, actions) && j < |actions| && BadCommit(worlds[j], actions[j])
    requires forall m | 0 <= m < j :: !BadCommit(worlds[m], actions[m])
    ensures exists i, m :: LateError(actions, i, m, j)
  {
    hide Inv, Tidy, Next, Enabled, Honest, HasErrorFindings, Brings;
    var id := actions[j].id;
    var i := FindVerify(sev, worlds, actions, j, id, worlds[j].refreshes[id].res);
    ResultWaits(sev, worlds, actions, i, j);
    var m :| i < m < j && Brings(actions[m]);
    assert LateError(actions, i, m, j);
  }

  lemma LateIsBad(sev: Severities, worlds: seq<World>, actions: seq<Action>, i: nat, m: nat, j: nat)
    requires HonestRun(sev, worlds, actions) && LateError(actions, i, m, j)
    requires forall k | 0 <= k < j :: !BadCommit(worlds[k], actions[k])
    ensures BadCommit(worlds[j], actions[j])
  {
    hide Inv, Tidy, Next, Enabled, Honest, HasErrorFindings, Brings;
    ResultWaits(sev, worlds, actions, i, j);
  }

  /** So where verification in place and commit are one step, a valid zone never has an error finding. */
  lemma ValidMeansNoError(sev: Severities, worlds: seq<World>, actions: seq<Action>)
    requires HonestRun(sev, worlds, actions) && forall i | 0 <= i < |actions| :: actions[i].Verify? ==>
             !actions[i].res.inPlace
    ensures forall k | 0 <= k < |worlds| :: worlds[k].zone.state == Valid ==> !HasErrorFindings(worlds[k].zone)
  {
    hide HonestRun, HasErrorFindings, Brings;
    CleanUnlessLateError(sev, worlds, actions);
  }

  // ---------------------------------------------------------------------------
  // A late error
  // ---------------------------------------------------------------------------

  ghost predicate Reached(sev: Severities, w: World) {
    exists worlds, actions :: HonestRun(sev, worlds, actions) && worlds[|actions|] == w
  }

  lemma ReachedNext(sev: Severities, w: World, a: Action, w': World)
    requires Reached(sev, w) && Enabled(w, a) && Honest(sev, w, a) && w' == Next(w, a)
    ensures Reached(sev, w')
  {
    hide Next, Enabled, Honest, New;
    var worlds, actions :| HonestRun(sev, worlds, actions) && worlds[|actions|] == w;
    assert HonestRun(sev, worlds + [w'], actions + [a]);
  }

  lemma ProbedIsReached(sev: Severities)
    ensures Reached(sev, World(Zone(Unknown, [], true, Some(1), Some(map[])), map[0 := Probed(false, 1)], []))
  {
    hide Reached, IsRun;
    var z := Zone(Unknown, [], false, Some(1), Some(map[]));
    NewIsReached(sev);
    ReachedNext(sev, New(), Attach(1), World(z, map[], []));
    ReachedNext(sev, World(z, map[], []), Spawn(0, false), World(z, map[0 := Wanting(false)], []));
    var held := z.(refreshing := true);
    ReachedNext(sev, World(z, map[0 := Wanting(false)], []), TryLock(0), World(held, map[0 := Started(false)], []));
    ReachedNext(sev, World(held, map[0 := Started(false)], []), ReadStore(0),
        World(held, map[0 := Probed(false, 1)], []));
  }

  lemma NewIsReached(sev: Severities)
    ensures Reached(sev, New())
  {
    assert HonestRun(sev, [New()], []);
  }

  /** A zone in its first incremental refresh is reached. */
  lemma CheckingIsReached(sev: Severities)
    ensures Reached(sev, World(Zone(Verifying, [], true, Some(2), Some(map[])), map[0 := Checking(false)], []))
  {
    hide Reached, IsRun;
    ProbedIsReached(sev);
    var held := Zone(Unknown, [], true, Some(1), Some(map[]));
    var moving := held.(state := Transferring);
    ReachedNext(sev, World(held, map[0 := Probed(false, 1)], []), Fetch(0),
        World(moving, map[0 := Fetching(false, 1)], []));
    ReachedNext(sev, World(moving, map[0 := Fetching(false, 1)], []), GotDifferences(0, 2, None, false),
                World(held.(state := Verifying, serial := Some(2)), map[0 := Checking(false)], []));
  }

  lemma VerifyReached(sev: Severities, w: World, id: nat, res: Result)
    requires Reached(sev, w) && MayVerify(w, id, res) && HonestResult(sev, res)
    ensures Reached(sev, AfterVerify(w, id, res))
  {
    hide Reached;
    ReachedNext(sev, w, Verify(id, res), AfterVerify(w, id, res));
  }

  lemma ChainCheckReached(sev: Severities, w: World, fs: seq<Finding>)
    requires Reached(sev, w) && AllGraded(sev, fs)
    ensures Reached(sev, AfterChainCheck(w, fs, true))
  {
    hide Reached, AfterChainCheck, AllGraded;
    ReachedNext(sev, w, ChainCheck(fs, true), AfterChainCheck(w, fs, true));
  }

  lemma CommitReached(sev: Severities, w: World, id: nat)
    requires Reached(sev, w) && At(w, id) && w.refreshes[id].Verified?
    ensures Reached(sev, CommitResult(w, id, w.refreshes[id].res))
  {
    hide Reached, CommitResult;
    ReachedNext(sev, w, Commit(id), CommitResult(w, id, w.refreshes[id].res));
  }

  /** It does happen: in an honest run from a new zone, a chain-of-trust error arrives between an incremental
      verification and its commit, and the zone is valid with an error. */
  lemma LateErrorSlipsThrough(sev: Severities, f: Finding)
    requires f.severity == Error && sev(f.key.code) == Error
    ensures exists w :: Reached(sev, w) && w.zone.state == Valid && HasErrorFindings(w.zone)
  {
    hide LastEntries, WithAll, Reached;
    CheckingIsReached(sev);
    var res := Result(map[], true, true, false);
    var w := World(Zone(Verifying, [], true, Some(2), Some(map[])), map[0 := Checking(false)], []);
    VerifyReached(sev, w, 0, res);
    var w1 := AfterVerify(w, 0, res);
    OneFinding(f);
    ChainCheckReached(sev, w1, [f]);
    var w2 := AfterChainCheck(w1, [f], true);
    assert f.key in w2.zone.findings.value;
    CommitReached(sev, w2, 0);
    assert CommitResult(w2, 0, res).zone.state == Valid;
  }

  lemma OneFinding(f: Finding)
    ensures WithAll(map[], [f]) == map[f.key := f]
  {
    assert [f][..0] == [];
  }
}

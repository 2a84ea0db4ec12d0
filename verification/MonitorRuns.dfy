/** Runs of one monitored zone: refreshes as sequences of locked steps, interleaved with ticks, sweeps and chain
    checks. */
module MonitorRuns {
  import opened Bytes
  import opened Findings
  import opened ZoneState

  /** What a verification hands over. An incremental one works on the zone's own collection (`inPlace`). */
  datatype Result = Result(findings: ByKey, inPlace: bool, valid: bool, unsigned: bool)

  /** How far a refresh has come. All but the first hold the refresh flag. */
  datatype Phase =
    | Wanting(force: bool)
    | Started(force: bool)
    | Probed(force: bool, from: u32)
    | Fetching(force: bool, from: u32)
    | Checking(full: bool)
    | Verified(res: Result)
    | Finishing

  /** A zone with its refreshes under way and every transition ever recorded. */
  datatype World = World(zone: Zone, refreshes: map<nat, Phase>, trace: seq<HistoryEntry>)

  datatype Action =
    | Spawn(id: nat, force: bool)
    | TryLock(id: nat)
    | ReadStore(id: nat)
    | SkewFound(id: nat, finding: Finding)
    | AllUnreachable(id: nat)
    | Unchanged(id: nat)
    | Recheck(id: nat, res: Result)
    | Fetch(id: nat)
    | FetchFailed(id: nat)
    | GotZone(id: nat, serial: u32)
    | GotDifferences(id: nat, serial: u32, failure: Option<Finding>, full: bool)
    | Verify(id: nat, res: Result)
    | Commit(id: nat)
    | VerifyAndCommit(id: nat, res: Result)
    | Unlock(id: nat)
    | Tick(expired: bool)
    | Sweep(after: ByKey)
    | ChainCheck(fs: seq<Finding>, invalidate: bool)
    | Resume(fs: seq<Finding>)
    | Attach(serial: u32)

  predicate At(w: World, id: nat) {
    id in w.refreshes
  }

  /** Only an incremental verification works in place. */
  predicate MayVerify(w: World, id: nat, res: Result) {
    At(w, id) && w.refreshes[id].Checking? && (w.refreshes[id].full ==> !res.inPlace)
  }

  /** When an action can happen. */
  predicate Enabled(w: World, a: Action) {
    match a
    case Spawn(id, _) => !At(w, id)
    case TryLock(id) => At(w, id) && w.refreshes[id].Wanting?
    case ReadStore(id) => At(w, id) && w.refreshes[id].Started?
    case SkewFound(id, _) => At(w, id) && w.refreshes[id].Probed?
    case AllUnreachable(id) => At(w, id) && w.refreshes[id].Probed?
    case Fetch(id) => At(w, id) && w.refreshes[id].Probed?
    case Unchanged(id) => At(w, id) && w.refreshes[id].Probed? && w.refreshes[id].from != 0 && !w.refreshes[id].force
    case Recheck(id, res) =>
      && At(w, id) && w.refreshes[id].Probed? && w.refreshes[id].from != 0 && !w.refreshes[id].force
      && w.zone.serial.Some? && !res.inPlace
    case FetchFailed(id) => At(w, id) && w.refreshes[id].Fetching?
    case GotZone(id, _) => At(w, id) && w.refreshes[id].Fetching?
    case GotDifferences(id, _, _, _) =>
      // Differences come only from an incremental request, which is made only with a serial other than zero.
      At(w, id) && w.refreshes[id].Fetching? && !w.refreshes[id].force && w.refreshes[id].from != 0
    case Verify(id, res) => MayVerify(w, id, res)
    case VerifyAndCommit(id, res) => MayVerify(w, id, res)
    case Commit(id) => At(w, id) && w.refreshes[id].Verified?
    case Unlock(id) => At(w, id) && w.refreshes[id].Finishing?
    case _ => true
  }

  function Moved(w: World, id: nat, p: Phase): World {
    w.(refreshes := w.refreshes[id := p])
  }

  /** A recorded transition of the zone. */
  function Noted(w: World, e: HistoryEntry): World {
    w.(zone := Recorded(w.zone, e), trace := w.trace + [e])
  }

  function WithZone(w: World, z: Zone): World {
    w.(zone := z)
  }

  function Failure(from: u32): HistoryEntry {
    HistoryEntry(TransferFailed, from, "", "", "transfer failed")
  }

  function Outcome(z: Zone, valid: bool, unsigned: bool, mode: string): HistoryEntry {
    HistoryEntry(Verdict(valid, unsigned), SerialOrZero(z), mode, "", "")
  }

  /** The commit of a verification; the findings of one in place are the zone's own by then. */
  function CommitResult(w: World, id: nat, res: Result): World {
    var findings := if res.inPlace then FindingsOrNone(w.zone) else res.findings;
    Moved(World(Committed(w.zone, findings, res.valid, res.unsigned, "", ""), w.refreshes,
                w.trace + [Outcome(w.zone, res.valid, res.unsigned, "")]), id, Finishing)
  }

  /** An incremental verification updates the zone's collection before anything is committed. */
  function AfterVerify(w: World, id: nat, res: Result): World {
    var w1 := if res.inPlace then WithZone(w, w.zone.(findings := Some(res.findings))) else w;
    Moved(w1, id, Verified(res))
  }

  function ApplyFailed(from: u32): HistoryEntry {
    HistoryEntry(Invalid, from, "", "ixfr", "apply failed")
  }

  /** Differences go into the store; when that fails the refresh ends there. */
  function WithDifferences(w: World, id: nat, from: u32, serial: u32, failure: Option<Finding>, full: bool): World {
    if w.zone.serial.None? then Moved(WithZone(w, w.zone.(state := Verifying)), id, Finishing)
    else if failure.Some? then
      var w1 := WithZone(w, w.zone.(findings := Some(WithAll(FindingsOrNone(w.zone), [failure.value]))));
      Moved(Noted(w1, ApplyFailed(from)), id, Finishing)
    else Moved(WithZone(w, w.zone.(state := Verifying, serial := Some(serial))), id, Checking(full))
  }

  function AfterTick(w: World, expired: bool): World {
    World(Ticked(w.zone, expired), w.refreshes,
          if expired && PutBack(w.zone).state != Stale then w.trace + [STALE_ENTRY] else w.trace)
  }

  function AfterSweep(w: World, after: ByKey): World {
    World(Swept(w.zone, after), w.refreshes,
          if SweepInvalidates(w.zone, after) then w.trace + [ExpiredEntry(w.zone)] else w.trace)
  }

  function AfterChainCheck(w: World, fs: seq<Finding>, invalidate: bool): World {
    World(AppliedFindings(w.zone, fs, invalidate), w.refreshes,
          if invalidate && w.zone.state == Valid then w.trace + [MismatchEntry(w.zone)] else w.trace)
  }

  function Next(w: World, a: Action): World
    requires Enabled(w, a)
  {
    match a
    case Spawn(id, force) => Moved(w, id, Wanting(force))
    case TryLock(id) =>
      if w.zone.refreshing then w.(refreshes := w.refreshes - {id})
      else Moved(WithZone(w, w.zone.(refreshing := true)), id, Started(w.refreshes[id].force))
    case ReadStore(id) => Moved(w, id, Probed(w.refreshes[id].force, SerialOrZero(w.zone)))
    case SkewFound(id, f) => WithZone(w, w.zone.(findings := Some(WithAll(FindingsOrNone(w.zone), [f]))))
    case AllUnreachable(id) => Moved(Noted(w, Failure(w.refreshes[id].from)), id, Finishing)
    case Unchanged(id) => Moved(WithZone(w, w.zone.(state := LastTerminal(w.zone))), id, Finishing)
    case Recheck(id, res) => CommitResult(w, id, res)
    case Fetch(id) => Moved(WithZone(w, w.zone.(state := Transferring)), id,
        Fetching(w.refreshes[id].force, w.refreshes[id].from))
    case FetchFailed(id) => Moved(Noted(w, Failure(w.refreshes[id].from)), id, Finishing)
    case GotZone(id, serial) => Moved(WithZone(w, w.zone.(state := Verifying, serial := Some(serial))), id,
        Checking(true))
    case GotDifferences(id, serial, failure, full) => WithDifferences(w, id, w.refreshes[id].from, serial, failure,
        full)
    case Verify(id, res) => AfterVerify(w, id, res)
    case Commit(id) => CommitResult(w, id, w.refreshes[id].res)
    case VerifyAndCommit(id, res) => CommitResult(AfterVerify(w, id, res), id, res)
    case Unlock(id) => World(w.zone.(refreshing := false), w.refreshes - {id}, w.trace)
    case Tick(expired) => AfterTick(w, expired)
    case Sweep(after) => AfterSweep(w, after)
    case ChainCheck(fs, invalidate) => AfterChainCheck(w, fs, invalidate)
    case Resume(fs) => WithZone(w, Restored(w.zone, fs))
    case Attach(serial) => WithZone(w, w.zone.(serial := Some(serial)))
  }

  function New(): World {
    World(Zone(Unknown, [], false, None, Some(map[])), map[], [])
  }

  // ---------------------------------------------------------------------------
  // Safety of the refresh flag, the history and the passing states
  // ---------------------------------------------------------------------------

  predicate Holds(p: Phase) {
    !p.Wanting?
  }

  /** At most one refresh holds the zone, and the flag says whether one does. */
  ghost predicate Exclusive(w: World) {
    && (forall p, q | p in w.refreshes && q in w.refreshes && Holds(w.refreshes[p]) && Holds(w.refreshes[q]) :: p == q)
    && (w.zone.refreshing <==> exists p :: p in w.refreshes && Holds(w.refreshes[p]))
  }

  /** The history is the end of the trace and holds terminal states only; the state is the last recorded one, unless it
      is a passing one or nothing was recorded yet. */
  ghost predicate Faithful(w: World) {
    && w.zone.history == LastEntries(w.trace)
    && AllTerminal(w.trace)
    && (IsTerminal(w.zone.state) ==> LastState(w.trace) == w.zone.state)
    && (w.zone.state == Unknown ==> w.trace == [])
  }

  ghost predicate AllTerminal(t: seq<HistoryEntry>) {
    forall i | 0 <= i < |t| :: IsTerminal(t[i].state)
  }

  /** The state recorded last. */
  function LastState(t: seq<HistoryEntry>): State {
    if t == [] then Unknown else t[|t| - 1].state
  }

  ghost predicate SomeFetching(w: World) {
    exists p :: p in w.refreshes && w.refreshes[p].Fetching?
  }

  ghost predicate SomeChecking(w: World) {
    exists p :: p in w.refreshes && (w.refreshes[p].Checking? || w.refreshes[p].Verified?)
  }

  /** Passing states belong to a refresh that is passing through them. */
  ghost predicate PassingOwned(w: World) {
    && (w.zone.state == Transferring ==> SomeFetching(w))
    && (w.zone.state == Verifying ==> SomeChecking(w))
  }

  predicate HasSerialFrom(p: Phase) {
    (p.Probed? || p.Fetching?) && p.from != 0
  }

  /** A refresh that saw a serial, or is verifying, has a store to work on. */
  ghost predicate StoreThere(w: World) {
    forall p | p in w.refreshes && (HasSerialFrom(w.refreshes[p]) || w.refreshes[p].Checking? ||
        w.refreshes[p].Verified?) ::
      w.zone.serial.Some?
  }

  ghost predicate Inv(w: World) {
    Exclusive(w) && Faithful(w) && PassingOwned(w) && StoreThere(w)
  }

  lemma NewIsSafe()
    ensures Inv(New())
  {
  }

  // Exclusive

  lemma MoveKeepsExclusive(w: World, w': World, id: nat, p: Phase)
    requires Exclusive(w) && At(w, id) && Holds(w.refreshes[id]) && Holds(p)
    requires w'.refreshes == w.refreshes[id := p] && w'.zone.refreshing == w.zone.refreshing
    ensures Exclusive(w')
  {
    assert id in w'.refreshes && Holds(w'.refreshes[id]);
  }

  lemma StepKeepsExclusive(w: World, a: Action)
    requires Exclusive(w) && Enabled(w, a)
    ensures Exclusive(Next(w, a))
  {
    hide Exclusive, LastTerminal, LastEntries, WithAll, Swept, Ticked, AppliedFindings, Restored, FindingsOrNone;
    var w' := Next(w, a);
    match a {
      case Spawn(id, force) => SpawnExclusive(w, id, force);
      case TryLock(id) => LockExclusive(w, id);
      case Unlock(id) => UnlockExclusive(w, id);
      case Tick(expired) => TickedFlag(w.zone, expired); SameRefreshes(w, w');
      case Sweep(after) => SweptFlag(w.zone, after); SameRefreshes(w, w');
      case ChainCheck(fs, invalidate) => AppliedFlag(w.zone, fs, invalidate); SameRefreshes(w, w');
      case Resume(fs) => RestoredFlag(w.zone, fs); SameRefreshes(w, w');
      case Attach(_) => SameRefreshes(w, w');
      case SkewFound(_, _) => SameRefreshes(w, w');
      case _ => MoveKeepsExclusive(w, w', a.id, w'.refreshes[a.id]);
    }
  }

  lemma SameRefreshes(w: World, w': World)
    requires w'.refreshes == w.refreshes && w'.zone.refreshing == w.zone.refreshing
    ensures Exclusive(w') == Exclusive(w)
  {
  }

  lemma SpawnExclusive(w: World, id: nat, force: bool)
    requires Exclusive(w) && !At(w, id)
    ensures Exclusive(Moved(w, id, Wanting(force)))
  {
    var w' := Moved(w, id, Wanting(force));
    if p :| p in w.refreshes && Holds(w.refreshes[p]) { assert p in w'.refreshes && Holds(w'.refreshes[p]); }
  }

  lemma LockExclusive(w: World, id: nat)
    requires Exclusive(w) && Enabled(w, TryLock(id))
    ensures Exclusive(Next(w, TryLock(id)))
  {
    var w' := Next(w, TryLock(id));
    if w.zone.refreshing {
      var p :| p in w.refreshes && Holds(w.refreshes[p]);
      assert p in w'.refreshes && Holds(w'.refreshes[p]);
    } else {
      assert id in w'.refreshes && Holds(w'.refreshes[id]);
    }
  }

  lemma UnlockExclusive(w: World, id: nat)
    requires Exclusive(w) && Enabled(w, Unlock(id))
    ensures Exclusive(Next(w, Unlock(id)))
  {
    assert Holds(w.refreshes[id]);
  }

  lemma TickedFlag(z: Zone, expired: bool)
    ensures Ticked(z, expired).refreshing == z.refreshing && Ticked(z, expired).serial == z.serial
  {
  }

  lemma SweptFlag(z: Zone, after: ByKey)
    ensures Swept(z, after).refreshing == z.refreshing && Swept(z, after).serial == z.serial
  {
  }

  lemma AppliedFlag(z: Zone, fs: seq<Finding>, invalidate: bool)
    ensures AppliedFindings(z, fs, invalidate).refreshing == z.refreshing &&
            AppliedFindings(z, fs, invalidate).serial == z.serial
  {
  }

  lemma RestoredFlag(z: Zone, fs: seq<Finding>)
    ensures Restored(z, fs).refreshing == z.refreshing && Restored(z, fs).serial == z.serial
  {
  }

  // Faithful

  /** The latest entry of a history of terminal states is its terminal state. */
  lemma LastTerminalOfFaithful(w: World)
    requires Faithful(w)
    ensures LastTerminal(w.zone) == LastState(w.trace)
  {
    hide LastEntries, AllTerminal, LastState;
    LastEntryKept(w.trace);
    LastIsTerminal(w.trace);
  }

  lemma LastEntryKept(t: seq<HistoryEntry>)
    ensures LastState(LastEntries(t)) == LastState(t) && (LastEntries(t) == [] <==> t == [])
    ensures LastEntries(t) != [] ==> LastState(t) == LastEntries(t)[|LastEntries(t)| - 1].state
  {
  }

  lemma LastIsTerminal(t: seq<HistoryEntry>)
    requires AllTerminal(t)
    ensures if t == [] then LastState(t) == Unknown else IsTerminal(LastState(t))
  {
  }

  lemma NotedIsFaithful(w: World, w': World, e: HistoryEntry)
    requires Faithful(w) && IsTerminal(e.state)
    requires w'.zone.state == e.state && w'.zone.history == LastEntries(w.zone.history + [e]) && w'.trace == w.trace +
             [e]
    ensures Faithful(w')
  {
    hide AllTerminal, LastEntries, LastState;
    LastOfLast(w.trace, e);
    OneMoreTerminal(w.trace, e);
  }

  lemma OneMoreTerminal(t: seq<HistoryEntry>, e: HistoryEntry)
    requires AllTerminal(t) && IsTerminal(e.state)
    ensures AllTerminal(t + [e]) && LastState(t + [e]) == e.state
  {
  }

  lemma LastOfLast(t: seq<HistoryEntry>, e: HistoryEntry)
    ensures LastEntries(LastEntries(t) + [e]) == LastEntries(t + [e])
  {
  }

  lemma PassingIsFaithful(w: World, w': World)
    requires Faithful(w) && w'.zone.history == w.zone.history && w'.trace == w.trace
    requires w'.zone.state == w.zone.state || w'.zone.state == Transferring || w'.zone.state == Verifying ||
             w'.zone.state == LastTerminal(w.zone)
    ensures Faithful(w')
  {
    LastTerminalOfFaithful(w);
    hide LastTerminal, LastEntries, AllTerminal, LastState;
    LastIsTerminal(w.trace);
  }

  lemma StepKeepsFaithful(w: World, a: Action)
    requires Faithful(w) && Enabled(w, a)
    ensures Faithful(Next(w, a))
  {
    hide Faithful, LastTerminal, LastEntries, WithAll, FindingsOrNone, AfterTick, AfterSweep, AfterChainCheck,
         WithDifferences;
    var w' := Next(w, a);
    match a {
      case AllUnreachable(id) => NotedIsFaithful(w, w', Failure(w.refreshes[id].from));
      case FetchFailed(id) => NotedIsFaithful(w, w', Failure(w.refreshes[id].from));
      case Recheck(id, res) => NotedIsFaithful(w, w', Outcome(w.zone, res.valid, res.unsigned, ""));
      case Commit(id) => NotedIsFaithful(w, w', Outcome(w.zone, w.refreshes[id].res.valid, w.refreshes[id].res.unsigned,
          ""));
      case VerifyAndCommit(id, res) =>
        NotedIsFaithful(w, w', Outcome(AfterVerify(w, id, res).zone, res.valid, res.unsigned, ""));
      case GotDifferences(id, serial, failure, full) =>
        DifferencesFaithful(w, id, w.refreshes[id].from, serial, failure, full);
      case Tick(expired) => TickFaithful(w, expired);
      case Sweep(after) => SweepFaithful(w, after);
      case ChainCheck(fs, invalidate) => ChainFaithful(w, fs, invalidate);
      case _ => PassingIsFaithful(w, w');
    }
  }

  lemma DifferencesFaithful(w: World, id: nat, from: u32, serial: u32, failure: Option<Finding>, full: bool)
    requires Faithful(w)
    ensures Faithful(WithDifferences(w, id, from, serial, failure, full))
  {
    hide Faithful, LastTerminal, LastEntries, WithAll, FindingsOrNone;
    var w' := WithDifferences(w, id, from, serial, failure, full);
    if w.zone.serial.Some? && failure.Some? {
      NotedIsFaithful(w, w', ApplyFailed(from));
    } else {
      PassingIsFaithful(w, w');
    }
  }

  lemma TickFaithful(w: World, expired: bool)
    requires Faithful(w)
    ensures Faithful(AfterTick(w, expired))
  {
    hide Faithful, LastTerminal, LastEntries;
    var back := WithZone(w, PutBack(w.zone));
    PassingIsFaithful(w, back);
    if expired && PutBack(w.zone).state != Stale {
      NotedIsFaithful(back, AfterTick(w, expired), STALE_ENTRY);
    }
  }

  lemma SweepFaithful(w: World, after: ByKey)
    requires Faithful(w)
    ensures Faithful(AfterSweep(w, after))
  {
    hide Faithful, LastTerminal, LastEntries, SweepInvalidates;
    if SweepInvalidates(w.zone, after) {
      SweepTakes(w.zone, after);
      NotedIsFaithful(w, AfterSweep(w, after), ExpiredEntry(w.zone));
    } else {
      PassingIsFaithful(w, AfterSweep(w, after));
    }
  }

  lemma SweepTakes(z: Zone, after: ByKey)
    requires SweepInvalidates(z, after)
    ensures z.serial.Some? && z.findings.Some?
  {
  }

  lemma ChainFaithful(w: World, fs: seq<Finding>, invalidate: bool)
    requires Faithful(w)
    ensures Faithful(AfterChainCheck(w, fs, invalidate))
  {
    hide Faithful, LastTerminal, LastEntries, WithAll, FindingsOrNone;
    if invalidate && w.zone.state == Valid {
      NotedIsFaithful(w, AfterChainCheck(w, fs, invalidate), MismatchEntry(w.zone));
    } else {
      PassingIsFaithful(w, AfterChainCheck(w, fs, invalidate));
    }
  }

  // PassingOwned and StoreThere

  lemma StepKeepsStore(w: World, a: Action)
    requires StoreThere(w) && Enabled(w, a)
    ensures StoreThere(Next(w, a))
  {
    hide LastTerminal, LastEntries, WithAll, FindingsOrNone, Ticked, Swept, AppliedFindings, Restored;
    match a {
      case Tick(expired) => TickedFlag(w.zone, expired);
      case Sweep(after) => SweptFlag(w.zone, after);
      case ChainCheck(fs, invalidate) => AppliedFlag(w.zone, fs, invalidate);
      case Resume(fs) => RestoredFlag(w.zone, fs);
      case _ =>
    }
  }

  /** The refresh at work is the only one at work. */
  lemma OwnerIsAlone(w: World, id: nat)
    requires Exclusive(w) && At(w, id) && Holds(w.refreshes[id])
    ensures SomeFetching(w) ==> w.refreshes[id].Fetching?
    ensures SomeChecking(w) ==> w.refreshes[id].Checking? || w.refreshes[id].Verified?
  {
  }

  predicate Passing(s: State) {
    s == Transferring || s == Verifying
  }

  predicate Owns(p: Phase) {
    p.Fetching? || p.Checking? || p.Verified?
  }

  /** Where the refreshes at work are left alone, the zone may keep its state or take one that is not passing. */
  lemma OwnersStay(w: World, w': World)
    requires PassingOwned(w) && (w'.zone.state == w.zone.state || !Passing(w'.zone.state))
    requires forall p | p in w.refreshes && Owns(w.refreshes[p]) ::
               p in w'.refreshes && w'.refreshes[p] == w.refreshes[p]
    ensures PassingOwned(w')
  {
  }

  lemma LastTerminalNeverPasses(h: seq<HistoryEntry>)
    ensures !Passing(LastTerminalIn(h))
  {
    if h != [] { LastTerminalNeverPasses(h[..|h| - 1]); }
  }

  lemma DifferencesOwners(w: World, id: nat, from: u32, serial: u32, failure: Option<Finding>, full: bool)
    requires w.zone.serial.Some?
    ensures PassingOwned(WithDifferences(w, id, from, serial, failure, full))
  {
    hide LastEntries, WithAll, FindingsOrNone, PassingOwned;
    var w' := WithDifferences(w, id, from, serial, failure, full);
    if failure.Some? { NotPassing(w'); } else { NowChecking(w', id); }
  }

  /** Steps that leave every refresh alone. */
  lemma OutsideOwners(w: World, w': World)
    requires PassingOwned(w) && w'.refreshes == w.refreshes &&
             (w'.zone.state == w.zone.state || !Passing(w'.zone.state))
    ensures PassingOwned(w')
  {
    hide PassingOwned;
    OwnersStay(w, w');
  }

  lemma TickOwners(w: World, expired: bool)
    requires PassingOwned(w)
    ensures PassingOwned(AfterTick(w, expired))
  {
    hide LastEntries, LastTerminalIn, PassingOwned;
    LastTerminalNeverPasses(w.zone.history);
    OutsideOwners(w, AfterTick(w, expired));
  }

  lemma SweepOwners(w: World, after: ByKey)
    requires PassingOwned(w)
    ensures PassingOwned(AfterSweep(w, after))
  {
    hide LastEntries, PassingOwned, SweepInvalidates;
    OutsideOwners(w, AfterSweep(w, after));
  }

  lemma ChainOwners(w: World, fs: seq<Finding>, invalidate: bool)
    requires PassingOwned(w)
    ensures PassingOwned(AfterChainCheck(w, fs, invalidate))
  {
    hide LastEntries, PassingOwned, WithAll, FindingsOrNone;
    OutsideOwners(w, AfterChainCheck(w, fs, invalidate));
  }

  lemma StepKeepsOwners(w: World, a: Action)
    requires Inv(w) && Enabled(w, a)
    ensures PassingOwned(Next(w, a))
  {
    hide Faithful, Exclusive, LastEntries, WithAll, FindingsOrNone, LastTerminalIn, PassingOwned, AfterTick,
         AfterSweep, AfterChainCheck, WithDifferences;
    var w' := Next(w, a);
    LastTerminalNeverPasses(w.zone.history);
    match a {
      case Fetch(id) => assert id in w'.refreshes && w'.refreshes[id].Fetching?; NowFetching(w', id);
      case GotZone(id, serial) => NowChecking(w', id);
      case GotDifferences(id, serial, failure, full) =>
        assert HasSerialFrom(w.refreshes[id]);
        DifferencesOwners(w, id, w.refreshes[id].from, serial, failure, full);
      case Tick(expired) => TickOwners(w, expired);
      case Sweep(after) => SweepOwners(w, after);
      case ChainCheck(fs, invalidate) => ChainOwners(w, fs, invalidate);
      case Verify(id, res) => VerifyOwners(w, id, res);
      case AllUnreachable(_) => NotPassing(w');
      case FetchFailed(_) => NotPassing(w');
      case Unchanged(_) => NotPassing(w');
      case Recheck(_, _) => NotPassing(w');
      case Commit(_) => NotPassing(w');
      case VerifyAndCommit(_, _) => NotPassing(w');
      case _ => OwnersStay(w, w');
    }
  }

  lemma NotPassing(w: World)
    requires !Passing(w.zone.state)
    ensures PassingOwned(w)
  {
  }

  lemma NowFetching(w: World, id: nat)
    requires At(w, id) && w.refreshes[id].Fetching? && w.zone.state == Transferring
    ensures PassingOwned(w)
  {
  }

  lemma NowChecking(w: World, id: nat)
    requires At(w, id) && (w.refreshes[id].Checking? || w.refreshes[id].Verified?) && w.zone.state == Verifying
    ensures PassingOwned(w)
  {
  }

  lemma VerifyOwners(w: World, id: nat, res: Result)
    requires Exclusive(w) && PassingOwned(w) && Enabled(w, Verify(id, res))
    ensures PassingOwned(Next(w, Verify(id, res)))
  {
    var w' := Next(w, Verify(id, res));
    OwnerIsAlone(w, id);
    assert At(w', id) && w'.refreshes[id].Verified?;
  }

  /** Every step keeps all of it. */
  lemma StepKeepsInv(w: World, a: Action)
    requires Inv(w) && Enabled(w, a)
    ensures Inv(Next(w, a))
  {
    hide Exclusive, Faithful, PassingOwned, StoreThere, Next, Enabled;
    StepKeepsExclusive(w, a);
    StepKeepsFaithful(w, a);
    StepKeepsOwners(w, a);
    StepKeepsStore(w, a);
  }

  // ---------------------------------------------------------------------------
  // Runs
  // ---------------------------------------------------------------------------

  /** A run: the worlds it goes through, each step being possible where it happens. */
  ghost predicate IsRun(worlds: seq<World>, actions: seq<Action>) {
    && |worlds| == |actions| + 1
    && forall i | 0 <= i < |actions| :: Enabled(worlds[i], actions[i]) && worlds[i + 1] == Next(worlds[i], actions[i])
  }

  lemma {:induction false} RunKeepsInv(worlds: seq<World>, actions: seq<Action>, k: nat)
    requires IsRun(worlds, actions) && Inv(worlds[0]) && k < |worlds|
    ensures Inv(worlds[k])
  {
    hide Inv, Next, Enabled;
    if k > 0 {
      RunKeepsInv(worlds, actions, k - 1);
      StepKeepsInv(worlds[k - 1], actions[k - 1]);
    }
  }

  /** One refresh at a time; the history is the last at most 64 transitions, all of them terminal; the last terminal
      state is the one recorded last; without a refresh the zone is in no passing state. */
  ghost predicate Safe(w: World) {
    && (forall p, q | p in w.refreshes && q in w.refreshes && Holds(w.refreshes[p]) && Holds(w.refreshes[q]) :: p == q)
    && w.zone.history == LastEntries(w.trace) && |w.zone.history| <= HISTORY
    && AllTerminal(w.zone.history)
    && LastTerminal(w.zone) == LastState(w.trace)
    && (!w.zone.refreshing ==> !Passing(w.zone.state))
  }

  lemma InvIsSafe(w: World)
    requires Inv(w)
    ensures Safe(w)
  {
    hide LastTerminal, LastEntries, AllTerminal, LastState;
    LastTerminalOfFaithful(w);
    HistoryIsTerminal(w.trace);
  }

  /** Every run of a new zone stays safe. */
  lemma MonitorIsSafe(worlds: seq<World>, actions: seq<Action>)
    requires IsRun(worlds, actions) && worlds[0] == New()
    ensures forall k | 0 <= k < |worlds| :: Safe(worlds[k])
  {
    hide Inv, Safe, Next, Enabled;
    NewIsSafe();
    forall k | 0 <= k < |worlds| ensures Safe(worlds[k]) {
      RunKeepsInv(worlds, actions, k);
      InvIsSafe(worlds[k]);
    }
  }

  lemma HistoryIsTerminal(t: seq<HistoryEntry>)
    requires AllTerminal(t)
    ensures AllTerminal(LastEntries(t)) && |LastEntries(t)| <= HISTORY
  {
  }

  /** The put-back of the ticker never happens. */
  lemma NothingToPutBack(w: World)
    requires Inv(w)
    ensures PutBack(w.zone) == w.zone
  {
  }

  lemma TerminalIsLast(z: Zone)
    ensures IsTerminal(z.state) ==> LastTerminal(z) == z.state
  {
  }

  /** Nor does an unchanged zone have a state to put back. */
  lemma UnchangedPutsNothingBack(w: World, id: nat)
    requires Inv(w) && At(w, id) && w.refreshes[id].Probed?
    ensures LastTerminal(w.zone) == w.zone.state
  {
    hide LastTerminal, StoreThere, Exclusive, LastEntries, AllTerminal, SomeFetching, SomeChecking;
    OwnerIsAlone(w, id);
    LastTerminalOfFaithful(w);
    TerminalIsLast(w.zone);
  }

  /** Differences never arrive without a store to apply them to. */
  lemma DifferencesFindAStore(w: World, a: Action)
    requires Inv(w) && a.GotDifferences? && Enabled(w, a)
    ensures w.zone.serial.Some?
  {
    assert HasSerialFrom(w.refreshes[a.id]);
  }
}

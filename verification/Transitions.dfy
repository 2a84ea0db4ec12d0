/** Which steps of a monitored zone record which state, and what the recorded state says about its findings. */
module Transitions {
  import opened Bytes
  import opened Findings
  import opened ZoneState
  import opened MonitorRuns

  // ---------------------------------------------------------------------------
  // Every step
  // ---------------------------------------------------------------------------

  predicate AnyErrorIn(m: ByKey) {
    exists k | k in m :: m[k].severity == Error
  }

  /** The state that a verification commits. */
  function Judged(res: Result): State {
    if res.unsigned then Unsigned else if res.valid then Valid else Invalid
  }

  /** The transition a step records, if any: verdicts with a commit, failures of the transfer and of applying
      differences, staleness with a tick, and the fall of a valid zone. */
  ghost predicate Records(w: World, a: Action, s: State) {
    match a
    case Recheck(_, res) => s == Judged(res)
    case VerifyAndCommit(_, res) => s == Judged(res)
    case Commit(id) => At(w, id) && w.refreshes[id].Verified? && s == Judged(w.refreshes[id].res)
    case AllUnreachable(_) => s == TransferFailed
    case FetchFailed(_) => s == TransferFailed
    case GotDifferences(_, _, failure, _) => s == Invalid && w.zone.serial.Some? && failure.Some?
    case Tick(expired) => s == Stale && expired && w.zone.state != Stale
    case Sweep(after) =>
      && s == Invalid && w.zone.state == Valid && w.zone.serial.Some? && w.zone.findings.Some?
      && |after| > |w.zone.findings.value| && AnyErrorIn(after)
    case ChainCheck(_, invalidate) => s == Invalid && w.zone.state == Valid && invalidate
    case _ => false
  }

  /** The zone took this state and the trace grew by one entry with it. */
  ghost predicate Took(w: World, w': World, s: State) {
    && w'.zone.state == s && |w'.trace| == |w.trace| + 1 && w'.trace[..|w.trace|] == w.trace
    && w'.trace[|w.trace|].state == s
  }

  /** A step records exactly this transition, and any other step leaves the trace as it is. */
  lemma StepRecords(w: World, a: Action)
    requires Inv(w) && Enabled(w, a)
    ensures forall s | Records(w, a, s) :: Took(w, Next(w, a), s)
    ensures (forall s :: !Records(w, a, s)) ==> Next(w, a).trace == w.trace
  {
    hide Inv, Took, LastEntries, WithAll, FindingsOrNone, Recorded, HasErrors, AnyErrorIn;
    match a {
      case Recheck(id, res) =>
        CommitRecords(w, id, res);
        assert Records(w, a, Judged(res));
      case VerifyAndCommit(id, res) =>
        CommitRecords(AfterVerify(w, id, res), id, res);
        SameTrace(w, AfterVerify(w, id, res), Next(w, a), Judged(res));
        assert Records(w, a, Judged(res));
      case Commit(id) =>
        CommitRecords(w, id, w.refreshes[id].res);
        assert Records(w, a, Judged(w.refreshes[id].res));
      case AllUnreachable(id) =>
        EntryRecords(w, Next(w, a), Failure(w.refreshes[id].from));
        assert Records(w, a, TransferFailed);
      case FetchFailed(id) =>
        EntryRecords(w, Next(w, a), Failure(w.refreshes[id].from));
        assert Records(w, a, TransferFailed);
      case GotDifferences(id, serial, failure, full) =>
        if w.zone.serial.Some? && failure.Some? {
          EntryRecords(w, Next(w, a), ApplyFailed(w.refreshes[id].from));
          assert Records(w, a, Invalid);
        }
      case Tick(expired) =>
        NothingPutBack(w);
        if expired && w.zone.state != Stale {
          EntryRecords(w, Next(w, a), STALE_ENTRY);
          assert Records(w, a, Stale);
        }
      case Sweep(after) =>
        AnyErrorMeans(after);
        if SweepInvalidates(w.zone, after) {
          EntryRecords(w, Next(w, a), ExpiredEntry(w.zone));
          assert Records(w, a, Invalid);
        }
      case ChainCheck(fs, invalidate) =>
        if invalidate && w.zone.state == Valid {
          EntryRecords(w, Next(w, a), MismatchEntry(w.zone));
          assert Records(w, a, Invalid);
        }
      case _ =>
    }
  }

  lemma EntryRecords(w: World, w': World, e: HistoryEntry)
    requires w'.trace == w.trace + [e] && exists z :: w'.zone == Recorded(z, e)
    ensures Took(w, w', e.state)
  {
    hide LastEntries;
  }

  lemma SameTrace(w: World, w1: World, w': World, s: State)
    requires w1.trace == w.trace && Took(w1, w', s)
    ensures Took(w, w', s)
  {
  }

  lemma CommitRecords(w: World, id: nat, res: Result)
    ensures Took(w, CommitResult(w, id, res), Judged(res))
  {
    hide LastEntries, FindingsOrNone;
  }

  lemma NothingPutBack(w: World)
    requires Inv(w)
    ensures PutBack(w.zone) == w.zone
  {
    NothingToPutBack(w);
  }

  lemma AnyErrorMeans(m: ByKey)
    ensures AnyErrorIn(m) <==> HasErrors(m)
  {
  }
  // ---------------------------------------------------------------------------
  // Whole runs
  // ---------------------------------------------------------------------------

  /** The history is the end of the trace, at most sixty-four entries of it. */
  lemma HistoryIsTheEnd(w: World)
    requires Inv(w)
    ensures |w.zone.history| == (if |w.trace| < 64 then |w.trace| else 64)
    ensures w.zone.history == w.trace[|w.trace| - |w.zone.history|..]
    ensures w.zone.state in {Valid, Invalid, Unsigned, TransferFailed, Stale} ==>
              w.trace != [] && w.trace[|w.trace| - 1].state == w.zone.state
  {
    hide Exclusive, PassingOwned, StoreThere, AllTerminal;
  }

  /** A result whose verdict is valid exactly when it has no error finding; an unsigned one has none. */
  predicate Exact(res: Result) {
    (res.valid <==> !AnyErrorIn(res.findings)) && (res.unsigned ==> res.valid)
  }

  /** A zone that was verified and committed in one step is valid exactly when it has keys and no error finding, and
      invalid exactly when it has one. */
  lemma VerdictTellsErrors(w: World, id: nat, res: Result)
    requires Enabled(w, VerifyAndCommit(id, res)) && Exact(res)
    ensures var z := Next(w, VerifyAndCommit(id, res)).zone;
            && z.findings == Some(res.findings)
            && (z.state == Valid <==> !AnyErrorIn(res.findings) && !res.unsigned)
            && (z.state == Invalid <==> AnyErrorIn(res.findings))
            && (z.state == Unsigned <==> res.unsigned)
  {
    hide LastEntries, AnyErrorIn;
  }

  /** The latest terminal state of a history, if it has one. */
  lemma {:induction false} LastTerminalMeans(h: seq<HistoryEntry>)
    ensures if forall i | 0 <= i < |h| :: !IsTerminal(h[i].state) then LastTerminalIn(h) == Unknown
            else exists i | 0 <= i < |h| ::
                   && LastTerminalIn(h) == h[i].state && IsTerminal(h[i].state)
                   && forall j | i < j < |h| :: !IsTerminal(h[j].state)
  {
    hide IsTerminal;
    if h != [] && !IsTerminal(h[|h| - 1].state) {
      LastTerminalMeans(h[..|h| - 1]);
      if i :| 0 <= i < |h| && IsTerminal(h[i].state) { assert h[..|h| - 1][i] == h[i]; }
    }
  }

  /** Findings added one by one are all there beside the others, and a new one takes the place of its namesake. */
  lemma {:induction false} WithAllMeans(m: ByKey, fs: seq<Finding>)
    ensures forall k :: k in WithAll(m, fs) <==> k in m || exists f | f in fs :: f.key == k
    ensures forall k | k in m && (forall f | f in fs :: f.key != k) :: WithAll(m, fs)[k] == m[k]
  {
    if fs != [] {
      var init, last := fs[..|fs| - 1], fs[|fs| - 1];
      WithAllMeans(m, init);
      assert fs == init + [last];
      assert forall f :: f in fs <==> f in init || f == last;
    }
  }
}

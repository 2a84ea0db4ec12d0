/** The passes hand over honest verdicts: what runs of the monitor ask of their inputs, the code provides. */
module HonestPasses {
  import opened Bytes
  import opened Records
  import opened StoreSpec
  import opened Findings
  import opened Signatures
  import opened FullPass
  import opened Incremental
  import opened Expiry
  import opened ZoneState
  import opened MonitorRuns
  import opened Verdicts
  import opened Transitions

  lemma ReportsAreGraded(m: ByKey, keys: set<Key>)
    requires Reports(m, keys)
    ensures Graded(SeverityOf, m) && (HasErrors(m) <==> !NoErrors(keys))
  {
    ErrorsByCode(m, keys);
  }

  /** A full pass is honest, and its verdict is valid exactly when it has no error to report. */
  lemma FullIsHonest(env: Env, v: StoreView, m: ByKey)
    requires Reports(m, FullKeys(env, v))
    ensures var out := FullOutcome(env, v);
            var res := Result(m, false, out.valid, out.unsigned);
            HonestResult(SeverityOf, res) && Exact(res)
  {
    hide FullKeys, FullOutcome, NoErrors, HasErrors, Graded, AnyErrorIn;
    ReportsAreGraded(m, FullKeys(env, v));
    ValidMeansNoErrors(env, v);
    AnyErrorMeans(m);
    NothingIsNoError();
  }

  /** So is an incremental one that works on the findings the zone has. */
  lemma IncrementalIsHonest(env: Env, v: StoreView, prev: set<Key>, touched: Option<Touched>, m: ByKey, inPlace: bool)
    requires Reports(m, IncrementalKeys(env, v, prev, touched))
    ensures var out := IncrementalOutcome(env, v, prev, touched);
            var res := Result(m, inPlace, out.valid, out.unsigned);
            HonestResult(SeverityOf, res) && Exact(res)
  {
    hide NoErrors, HasErrors, Graded, FullKeys, FullOutcome, MergedKeys, Found, Owners, AnyErrorIn, IncrementalKeys;
    ReportsAreGraded(m, IncrementalKeys(env, v, prev, touched));
    VerdictMeansNoErrors(env, v, prev, touched);
    AnyErrorMeans(m);
    ValidMeansNoErrors(env, v);
    NothingIsNoError();
  }

  /** And the expiry sweep only adds findings of their severity. */
  lemma SweepIsHonest(env: Env, w: World, index: map<Bytes, ExpiryRec>, entries: set<Bytes>, after: ByKey)
    requires Reports(after, FindingsOrNone(w.zone).Keys + EntryKeys(env, index, entries))
    ensures Honest(SeverityOf, w, Sweep(after))
  {
    ReportsAreGraded(after, FindingsOrNone(w.zone).Keys + EntryKeys(env, index, entries));
  }
}

/** One monitored zone: its state, bounded history, refresh flag and findings, updated under a lock. */
module Monitor {
  import opened Bytes
  import opened Store
  import opened Findings
  import opened Signatures
  import opened Expiry
  import opened ZoneState

  lemma ReportsAreValid(s: Set)
    requires exists keys :: Reports(s.byKey, keys)
    ensures s.Valid()
  {
  }

  // ---------------------------------------------------------------------------
  // The runtime object
  // ---------------------------------------------------------------------------

  class ZoneRuntime {
    var state: State
    var history: seq<HistoryEntry>
    var refreshing: bool
    var refreshFull: bool
    var store: Store?
    var findings: Set?

    ghost predicate Ok()
      reads this, store, if store == null then {} else store.nodes.Values, findings
    {
      && (store != null ==> store.Valid())
      && (findings != null ==> findings.Valid())
    }

    ghost function View(): Zone
      reads this, store, findings
    {
      Zone(state, history, refreshing, if store == null then None else Some(store.serial),
           if findings == null then None else Some(findings.byKey))
    }

    constructor ()
      ensures Ok() && View() == Zone(Unknown, [], false, None, Some(map[]))
    {
      state := Unknown;
      history := [];
      refreshing := false;
      refreshFull := false;
      store := null;
      findings := new Set();
    }

    /** Records a transition and forgets the oldest ones. */
    method SetState(s: State, serial: u32, mode: string, how: string, detail: string)
      modifies this`state, this`history
      ensures View() == Recorded(old(View()), HistoryEntry(s, serial, mode, how, detail))
    {
      state := s;
      history := history + [HistoryEntry(s, serial, mode, how, detail)];
      if |history| > HISTORY {
        history := history[|history| - HISTORY..];
      }
    }

    /** Takes the refresh flag; false when a refresh is under way. */
    method TryLockRefresh(full: bool) returns (locked: bool)
      modifies this`refreshing, this`refreshFull
      ensures locked == !old(refreshing) && View() == old(View()).(refreshing := true)
      ensures refreshFull == if locked then full else old(refreshFull)
    {
      if refreshing {
        return false;
      }
      refreshing := true;
      refreshFull := full;
      return true;
    }

    method UnlockRefresh()
      modifies this`refreshing, this`refreshFull
      ensures View() == old(View()).(refreshing := false) && !refreshFull
    {
      refreshing := false;
      refreshFull := false;
    }

    method LastTerminalState() returns (s: State)
      ensures s == LastTerminal(View())
    {
      if IsTerminal(state) {
        return state;
      }
      var i := |history|;
      assert history[..i] == history;
      while i > 0
        invariant 0 <= i <= |history|
        invariant LastTerminalIn(history) == LastTerminalIn(history[..i])
      {
        assert history[..i][..i - 1] == history[..i - 1];
        i := i - 1;
        if IsTerminal(history[i].state) {
          return history[i].state;
        }
      }
      return Unknown;
    }

    /** Adds findings one by one, creating the collection when there is none. */
    method AddAll(fs: seq<Finding>)
      requires Ok()
      modifies this`findings, findings
      ensures Ok() && View() == Restored(old(View()), fs)
    {
      hide Store.Valid;
      if findings == null {
        findings := new Set();
      }
      ghost var m := findings.byKey;
      var target := findings;
      var i := 0;
      while i < |fs|
        invariant 0 <= i <= |fs| && findings == target && target.Valid()
        invariant target.byKey == WithAll(m, fs[..i])
        invariant store == old(store) && (store != null ==> store.Valid())
        modifies target
      {
        assert fs[..i + 1][..i] == fs[..i];
        target.Add(fs[i]);
        i := i + 1;
      }
      assert fs[..i] == fs;
    }

    /** Takes findings over from a previous process. */
    method Restore(fs: seq<Finding>)
      requires Ok()
      modifies this`findings, findings
      ensures Ok() && View() == Restored(old(View()), fs)
    {
      AddAll(fs);
    }

    method AttachStore(st: Store)
      requires Ok() && st.Valid()
      modifies this`store
      ensures Ok() && View() == old(View()).(serial := Some(st.serial)) && store == st
    {
      hide Store.Valid, Set.Valid;
      store := st;
    }

    /** Adds findings of the chain-of-trust check. */
    method ApplyFindings(fs: seq<Finding>, invalidate: bool)
      requires Ok()
      modifies this, findings
      ensures Ok() && View() == AppliedFindings(old(View()), fs, invalidate)
    {
      hide Store.Valid;
      AddAll(fs);
      if invalidate && state == Valid {
        var serial := 0;
        if store != null {
          serial := store.serial;
        }
        SetState(Invalid, serial, "chain", "", "DS mismatch");
      }
    }

    /** Adds what the expiry index shows; a valid zone with an expired signature becomes invalid. */
    method Sweep(env: Env)
      requires Ok() && (findings != null ==> Reports(findings.byKey, findings.byKey.Keys))
      requires store != null ==> KeyedIndex(store.expiry)
      modifies this, findings
      ensures Ok() && store == old(store) && findings == old(findings)
      ensures findings != null ==> View() == Swept(old(View()), findings.byKey)
      ensures findings == null ==> View() == old(View())
      ensures findings != null && store != null ==>
                Reports(findings.byKey, old(findings.byKey.Keys) +
                    EntryKeys(env, store.expiry, UpToCutoff(env, store.expiry)))
    {
      hide Store.Valid, KeyedIndex, EntryKeys, UpToCutoff, Reports, HasErrors, Recorded, Set.Valid;
      if store == null || findings == null {
        return;
      }
      var appeared := SweepExpiry(env, store, findings);
      ReportsAreValid(findings);
      if appeared > 0 && HasErrors(findings.byKey) && state == Valid {
        SetState(Invalid, store.serial, "expiry", "", "RRSIG expired");
      }
    }

    /** What the ticker does to one zone. */
    method Tick(expired: bool)
      modifies this`state, this`history
      ensures View() == Ticked(old(View()), expired)
    {
      if !refreshing && (state == Transferring || state == Verifying) {
        var term := LastTerminalState();
        if term != state {
          state := term;
        }
      }
      if expired && state != Stale {
        SetState(Stale, 0, "", "", "SOA EXPIRE elapsed");
      }
    }

    /** Takes over the findings of a verification and its verdict. */
    method Commit(result: Set, valid: bool, unsigned: bool, mode: string, how: string)
      requires Ok() && result.Valid()
      modifies this`state, this`history, this`findings
      ensures Ok() && View() == Committed(old(View()), result.byKey, valid, unsigned, mode, how)
    {
      hide Store.Valid, Set.Valid, LastEntries, Recorded;
      findings := result;
      var newState := Invalid;
      if unsigned {
        newState := Unsigned;
      } else if valid {
        newState := Valid;
      }
      SetState(newState, if store == null then 0 else store.serial, mode, how, "");
    }
  }
}

/** What is known of one monitored zone, and how it changes. */
module ZoneState {
  import opened Bytes
  import opened Findings

  datatype State = Unknown | Transferring | Verifying | Valid | Invalid | Unsigned | TransferFailed | Stale

  datatype HistoryEntry = HistoryEntry(state: State, serial: u32, mode: string, how: string, detail: string)

  /** What the lock protects; `serial` is that of the store, if there is one. */
  datatype Zone = Zone(state: State, history: seq<HistoryEntry>, refreshing: bool, serial: Option<u32>,
          findings: Option<ByKey>)

  const HISTORY := 64

  predicate IsTerminal(s: State) {
    s == Valid || s == Invalid || s == Unsigned || s == TransferFailed || s == Stale
  }

  /** The entries that are kept. */
  function LastEntries(h: seq<HistoryEntry>): seq<HistoryEntry> {
    if |h| > HISTORY then h[|h| - HISTORY..] else h
  }

  /** A recorded transition. */
  function Recorded(z: Zone, e: HistoryEntry): Zone {
    z.(state := e.state, history := LastEntries(z.history + [e]))
  }

  function LastTerminalIn(h: seq<HistoryEntry>): State {
    if h == [] then Unknown
    else if IsTerminal(h[|h| - 1].state) then h[|h| - 1].state
    else LastTerminalIn(h[..|h| - 1])
  }

  /** The state itself when it is terminal, otherwise the latest terminal one in the history. */
  function LastTerminal(z: Zone): State {
    if IsTerminal(z.state) then z.state else LastTerminalIn(z.history)
  }

  predicate HasErrorFindings(z: Zone) {
    z.findings.Some? && HasErrors(z.findings.value)
  }

  function SerialOrZero(z: Zone): u32 {
    if z.serial.Some? then z.serial.value else 0
  }

  /** Findings added one by one. */
  function WithAll(m: ByKey, fs: seq<Finding>): ByKey {
    if fs == [] then m else Findings.Added(WithAll(m, fs[..|fs| - 1]), fs[|fs| - 1])
  }

  function FindingsOrNone(z: Zone): ByKey {
    if z.findings.Some? then z.findings.value else map[]
  }

  /** Findings of the chain-of-trust check; a mismatch takes a valid zone to invalid. */
  function AppliedFindings(z: Zone, fs: seq<Finding>, invalidate: bool): Zone {
    var z1 := z.(findings := Some(WithAll(FindingsOrNone(z), fs)));
    if invalidate && z.state == Valid then Recorded(z1, MismatchEntry(z)) else z1
  }

  function MismatchEntry(z: Zone): HistoryEntry {
    HistoryEntry(Invalid, SerialOrZero(z), "chain", "", "DS mismatch")
  }

  function Restored(z: Zone, fs: seq<Finding>): Zone {
    z.(findings := Some(WithAll(FindingsOrNone(z), fs)))
  }

  /** The expiry sweep: `after` are the findings with what the sweep added. */
  function Swept(z: Zone, after: ByKey): Zone {
    if z.serial.None? || z.findings.None? then z
    else
      var z1 := z.(findings := Some(after));
      if SweepInvalidates(z, after) then Recorded(z1, ExpiredEntry(z)) else z1
  }

  predicate SweepInvalidates(z: Zone, after: ByKey) {
    z.serial.Some? && z.findings.Some? && |after| > |z.findings.value| && HasErrors(after) && z.state == Valid
  }

  function ExpiredEntry(z: Zone): HistoryEntry {
    HistoryEntry(Invalid, SerialOrZero(z), "expiry", "", "RRSIG expired")
  }

  /** A zone in a passing state without a refresh is put back. */
  function PutBack(z: Zone): Zone {
    if !z.refreshing && (z.state == Transferring || z.state == Verifying) then z.(state := LastTerminal(z)) else z
  }

  /** One tick: besides, an expired zone becomes stale. */
  function Ticked(z: Zone, expired: bool): Zone {
    if expired && PutBack(z).state != Stale then Recorded(PutBack(z), STALE_ENTRY) else PutBack(z)
  }

  const STALE_ENTRY := HistoryEntry(Stale, 0, "", "", "SOA EXPIRE elapsed")

  function Verdict(valid: bool, unsigned: bool): State {
    if unsigned then Unsigned else if valid then Valid else Invalid
  }

  /** Findings and state after a verification. */
  function Committed(z: Zone, findings: ByKey, valid: bool, unsigned: bool, mode: string, how: string): Zone {
    Recorded(z.(findings := Some(findings)), HistoryEntry(Verdict(valid, unsigned), SerialOrZero(z), mode, how, ""))
  }
}

/** The check log of one VPN component, and one monitoring cycle that reads and extends it. */
module CheckLog {
  import opened Options
  import opened SpeedTestMemory
  import opened NetworkEnrich
  import opened SpeedTestSlot

  /** `network` is `None` when the row has no usable details at all. */
  datatype Check = Check(checkedAt: int, network: Option<Family>)

  /** What the outside world decides about one cycle. */
  datatype Cycle =
    | Live(measure: Option<Measure>, stamp: int)
    | SlotRefused
    | StaggerDeferred
    | ProbeFailed
    | Wiped(keepsNetwork: bool)

  const HISTORY_LIMIT := 50

  /** The filter the history query applies in the database. */
  predicate ClaimsSuccess(check: Check) {
    && check.network.Some?
    && ((check.network.value.lastSuccess.Some? && check.network.value.lastSuccess.value.ok)
        || (check.network.value.result.Some? && check.network.value.result.value.ok))
  }

  predicate HasSuccess(check: Check) {
    ExtractLastSuccess(check.network, Some(check.checkedAt)).Some?
  }

  /** The newest check with a usable success among the newest `limit` checks passing the filter. */
  function Scan(log: seq<Check>, limit: nat): Option<Check> {
    if log == [] || limit == 0 then None
    else
      var last, front := log[|log| - 1], log[..|log| - 1];
      if !ClaimsSuccess(last) then Scan(front, limit)
      else if HasSuccess(last) then Some(last)
      else Scan(front, limit - 1)
  }

  function Details(check: Option<Check>): Option<Family> {
    if check.None? then None else check.value.network
  }

  function CheckedAt(check: Option<Check>): Option<int> {
    if check.None? then None else Some(check.value.checkedAt)
  }

  function Latest(log: seq<Check>): Option<Check> {
    if log == [] then None else Some(log[|log| - 1])
  }

  // ---------- reading a log by time ----------

  /** Checks were appended in the order of their times, which is the order in which queries sort them. */
  ghost predicate Chronological(log: seq<Check>) {
    forall i, j :: 0 <= i < j < |log| ==> log[i].checkedAt < log[j].checkedAt
  }

  /** Then the last check is the newest one. */
  lemma LatestIsNewest(log: seq<Check>)
    requires Chronological(log) && log != []
    ensures Latest(log).Some? && Latest(log).value in log && forall c <- log :: c.checkedAt <= Latest(log).value.checkedAt
  {}

  predicate IsUsable(check: Check) {
    ClaimsSuccess(check) && HasSuccess(check)
  }

  /** And the scan finds the newest usable check, wherever there is one among the newest `limit` that claim a success. */
  lemma {:induction false} ScanFindsNewest(log: seq<Check>, limit: nat)
    requires Chronological(log)
    ensures var found := Scan(log, limit);
            && (found.Some? ==> found.value in log && IsUsable(found.value)
                                && forall c <- log :: IsUsable(c) ==> c.checkedAt <= found.value.checkedAt)
            && (found.None? ==> forall c <- log :: IsUsable(c) ==> Claims(log, c.checkedAt) >= limit)
  {
    if log != [] && limit > 0 {
      var n := |log| - 1;
      var front, last := log[..n], log[n];
      assert log == front + [last];
      ScanFindsNewest(front, if ClaimsSuccess(last) then limit - 1 else limit);
      forall c <- front ensures Claims(log, c.checkedAt) == Claims(front, c.checkedAt) + if ClaimsSuccess(last) then 1 else 0 {
        LastClaims(log, c);
      }
    }
  }

  /** What it finds is among those. */
  lemma {:induction false} ScanStaysWithin(log: seq<Check>, limit: nat)
    requires Chronological(log) && Scan(log, limit).Some?
    ensures var found := Scan(log, limit).value;
            found in log && IsUsable(found) && Claims(log, found.checkedAt) < limit
  {
    var n := |log| - 1;
    var last := log[n];
    if ClaimsSuccess(last) && HasSuccess(last) {
      forall c <- log ensures c.checkedAt <= last.checkedAt {
        assert Latest(log) == Some(last);
      }
      NothingClaimsLater(log, last.checkedAt);
    } else {
      ScanStaysWithin(log[..n], if ClaimsSuccess(last) then limit - 1 else limit);
      LastClaims(log, Scan(log, limit).value);
    }
  }

  lemma {:induction false} NothingClaimsLater(log: seq<Check>, at: int)
    requires forall c <- log :: c.checkedAt <= at
    ensures Claims(log, at) == 0
  {
    if log != [] {
      assert log[|log| - 1] in log;
      NothingClaimsLater(log[..|log| - 1], at);
    }
  }

  lemma LastClaims(log: seq<Check>, c: Check)
    requires Chronological(log) && log != [] && c in log[..|log| - 1]
    ensures c.checkedAt < log[|log| - 1].checkedAt
    ensures Claims(log, c.checkedAt) == Claims(log[..|log| - 1], c.checkedAt) + if ClaimsSuccess(log[|log| - 1]) then 1 else 0
  {
    var i :| 0 <= i < |log| - 1 && log[..|log| - 1][i] == c;
    assert log[i].checkedAt < log[|log| - 1].checkedAt;
  }

  /** How many checks after `at` claim a success. */
  function Claims(log: seq<Check>, at: int): nat {
    if log == [] then 0
    else
      var last := log[|log| - 1];
      Claims(log[..|log| - 1], at) + if ClaimsSuccess(last) && last.checkedAt > at then 1 else 0
  }

  /** Memory handed to the cycle that follows `log`. */
  function Handed(log: seq<Check>): FamilyContext {
    var latest := Latest(log);
    var history :=
      if ExtractLastSuccess(Details(latest), CheckedAt(latest)).None? then Scan(log, HISTORY_LIMIT) else None;
    FamilyContext(
      Resolve(Details(latest), CheckedAt(latest), Details(history), CheckedAt(history)),
      ExtractLastLive(Details(latest), CheckedAt(latest)))
  }

  /** Without a success on the latest row, one is handed on exactly when a usable one is among the newest 50 that claim it. */
  lemma HistoryIsRead(log: seq<Check>)
    requires Chronological(log) && log != [] && !HasSuccess(log[|log| - 1])
    ensures Handed(log).memory.lastSuccess.Some? <==> exists c :: c in log && IsUsable(c) && Claims(log, c.checkedAt) < 50
  {
    ScanFindsNewest(log, 50);
    if Scan(log, 50).Some? {
      ScanStaysWithin(log, 50);
    }
  }

  /** The download details a cycle produces. */
  function CycleDetails(context: FamilyContext, cycle: Cycle): Option<Family> {
    match cycle
    case Live(measure, stamp) => Some(AfterLive(BLANK, LiveRow(measure, stamp), context.memory))
    case SlotRefused => Some(AfterDeferral(BLANK, context, true))
    case StaggerDeferred => Some(AfterDeferral(BLANK, context, false))
    case ProbeFailed => Some(AfterDeferral(BLANK, context, false))
    case Wiped(keepsNetwork) => if keepsNetwork then Some(BLANK) else None
  }

  /** The cycle that an enrichment behind a working probe amounts to. */
  function EnrichCycle(runSpeedTest: bool, live: bool, measure: Option<Measure>, stamp: int): Cycle {
    if live then Live(measure, stamp) else if runSpeedTest then SlotRefused else StaggerDeferred
  }

  /** Enriching a fresh `network` leaves the download details of the matching cycle. */
  method EnrichFresh(context: RunContext, slot: Slot, now: real, downloaded: Option<Measure>, uploaded: Option<Measure>, stamp: int)
    returns (network: Network, live: bool)
    requires slot.Valid()
    modifies slot
    ensures slot.Valid() && fresh(network)
    ensures live == (context.runSpeedTest && now - old(slot.lastAt) >= MIN_GAP_SECONDS)
    ensures !live ==> slot.lastAt == old(slot.lastAt)
    ensures slot.grants == old(slot.grants) + if live then [now] else []
    ensures Some(network.download) == CycleDetails(context.download, EnrichCycle(context.runSpeedTest, live, downloaded, stamp))
  {
    network := new Network();
    live := network.Enrich(context, slot, now, downloaded, uploaded, stamp);
  }

  class ComponentMonitor {
    var log: seq<Check>
    var lastCheckedAt: Option<int>

    constructor ()
      ensures log == [] && lastCheckedAt == None
    {
      log, lastCheckedAt := [], None;
    }

    /** The bounded backward scan of the log for a usable success. */
    method LatestWithMeaningfulSpeedTest(limit: nat) returns (found: Option<Check>)
      ensures found == Scan(log, limit)
    {
      var i, remaining := |log|, limit;
      assert log[..i] == log;
      while i > 0 && remaining > 0
        invariant 0 <= i <= |log| && 0 <= remaining <= limit
        invariant Scan(log, limit) == Scan(log[..i], remaining)
        decreases i
      {
        i := i - 1;
        assert log[..i + 1][..i] == log[..i];
        if ClaimsSuccess(log[i]) {
          if HasSuccess(log[i]) {
            return Some(log[i]);
          }
          remaining := remaining - 1;
        }
      }
      return None;
    }

    /** Reads the memory from the log, runs the cycle on a fresh `network` and appends its check. */
    method RunCheck(cycle: Cycle, checkedAt: int)
      modifies this
      ensures log == old(log) + [Check(checkedAt, CycleDetails(Handed(old(log)), cycle))]
      ensures lastCheckedAt == Some(checkedAt)
    {
      var latest := Latest(log);
      var history := None;
      if ExtractLastSuccess(Details(latest), CheckedAt(latest)).None? {
        history := LatestWithMeaningfulSpeedTest(HISTORY_LIMIT);
      }
      var memory := Resolve(Details(latest), CheckedAt(latest), Details(history), CheckedAt(history));
      var context := FamilyContext(memory, ExtractLastLive(Details(latest), CheckedAt(latest)));
      var network := new Network();
      var details: Option<Family>;
      match cycle {
        case Live(measure, stamp) =>
          network.RecordLive(false, measure, stamp, memory);
          details := Some(network.download);
        case SlotRefused =>
          network.ApplyCached(false, context, true);
          details := Some(network.download);
        case StaggerDeferred =>
          network.ApplyCached(false, context, false);
          details := Some(network.download);
        case ProbeFailed =>
          network.ApplyCached(false, context, false);
          details := Some(network.download);
        case Wiped(keepsNetwork) =>
          details := if keepsNetwork then Some(network.download) else None;
      }
      lastCheckedAt := Some(checkedAt);
      log := log + [Check(checkedAt, details)];
    }
  }
}

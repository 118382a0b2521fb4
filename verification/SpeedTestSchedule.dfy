/** When a component is due for a live speed test. */
module SpeedTestSchedule {
  import opened Numbers
  import opened Options
  import opened SpeedTestMemory
  import opened CheckLog

  const RATE_LIMIT_BACKOFF_SECONDS := 3600

  function RetrySeconds(interval: int, attempt: Option<Row>): int {
    if IsRateLimited(attempt) then Max(interval, RATE_LIMIT_BACKOFF_SECONDS) else interval
  }

  predicate ShouldRun(enabled: bool, interval: int, latest: Option<Check>, now: int) {
    if !enabled then false
    else if latest.None? then true
    else
      var checkedAt := Some(latest.value.checkedAt);
      var previous := ExtractResult(latest.value.network, checkedAt);
      if previous.None? then true
      else
        var attempt := ExtractLastLive(latest.value.network, checkedAt);
        if attempt.None? && IsDeferredRow(previous.value) && previous.value.measuredAt.None? then true
        else
          var scheduling := if attempt.Some? then attempt.value else previous.value;
          if IsLiveRow(scheduling) && scheduling.ok && !IsMeaningful(Some(scheduling)) then true
          else
            var retryAfter := RetrySeconds(interval, Some(scheduling));
            retryAfter <= 0 || now - scheduling.measuredAt.UnwrapOr(latest.value.checkedAt) >= retryAfter
  }

  /** The stamp by which due components are ordered; a component never measured comes first. */
  function SchedulingStamp(latest: Option<Check>): Option<int> {
    var attempt := ExtractLastLive(Details(latest), CheckedAt(latest));
    var scheduling := OrElse(attempt, ExtractResult(Details(latest), CheckedAt(latest)));
    if scheduling.None? then None else scheduling.value.measuredAt
  }

  /** A live row that claims a success without data does not keep the next test away. */
  lemma EmptySuccessRetries(row: Row, checkedAt: int, interval: int, now: int)
    requires row.ok && row.bytes <= 0 && !row.cached && !row.deferred && !row.throttled && !row.stale
    ensures ShouldRun(true, interval, Some(Check(checkedAt, Some(BLANK.(result := Some(row))))), now)
  {}

  /** A live failure without a time of its own keeps the next test away from the time of its check on. */
  lemma UndatedFailureWaits(row: Row, checkedAt: int, interval: int, now: int)
    requires !row.ok && row.error != RateLimitText && row.measuredAt.None? && interval > 0
    requires !row.cached && !row.deferred && !row.throttled && !row.stale
    ensures ShouldRun(true, interval, Some(Check(checkedAt, Some(BLANK.(result := Some(row))))), now) <==> now - checkedAt >= interval
  {}
}

/**
 Whole runs of a component's log, starting empty, in which live successes, live failures,
 deferrals, failed probes and wiped rows follow each other in any order.
 */
module CheckLogRuns {
  import opened Numbers
  import opened Options
  import opened SpeedTestMemory
  import opened NetworkEnrich
  import opened CheckLog
  import opened SpeedTestSchedule

  /** One cycle, with the moment and the interval by which its start was decided. */
  datatype Entry = Entry(cycle: Cycle, checkedAt: int, decidedAt: int, interval: int)

  function Run(entries: seq<Entry>): seq<Check> {
    if entries == [] then []
    else
      var log := Run(entries[..|entries| - 1]);
      var last := entries[|entries| - 1];
      log + [Check(last.checkedAt, CycleDetails(Handed(log), last.cycle))]
  }

  /** Cycles whose checks are stamped one after the other leave a log in the order of its times. */
  lemma {:induction false} RunIsChronological(entries: seq<Entry>)
    requires forall i, j :: 0 <= i < j < |entries| ==> entries[i].checkedAt < entries[j].checkedAt
    ensures |Run(entries)| == |entries| && forall i :: 0 <= i < |entries| ==> Run(entries)[i].checkedAt == entries[i].checkedAt
    ensures Chronological(Run(entries))
  {
    if entries != [] {
      RunIsChronological(entries[..|entries| - 1]);
    }
  }

  function LiveRowOf(cycle: Cycle): Row
    requires cycle.Live?
  {
    LiveRow(cycle.measure, cycle.stamp)
  }

  predicate IsSuccess(cycle: Cycle) {
    cycle.Live? && IsMeaningful(Some(LiveRowOf(cycle)))
  }

  // Reference definitions: plain folds over what happened, not looking at any row.

  ghost function LastSuccess(entries: seq<Entry>): Option<Row> {
    if entries == [] then None
    else
      var cycle := entries[|entries| - 1].cycle;
      if IsSuccess(cycle) then Some(LiveRowOf(cycle)) else LastSuccess(entries[..|entries| - 1])
  }

  /** Speeds of the live successes so far, starting anew after a success that reported no speed. */
  ghost function Speeds(entries: seq<Entry>): seq<int> {
    if entries == [] then []
    else
      var cycle := entries[|entries| - 1].cycle;
      if !IsSuccess(cycle) then Speeds(entries[..|entries| - 1])
      else if LiveRowOf(cycle).mbps.None? then []
      else Speeds(entries[..|entries| - 1]) + [LiveRowOf(cycle).mbps.value]
  }

  ghost function SuccessCount(entries: seq<Entry>): nat {
    if entries == [] then 0
    else SuccessCount(entries[..|entries| - 1]) + if IsSuccess(entries[|entries| - 1].cycle) then 1 else 0
  }

  /** The newest live attempt since the last wiped row. */
  ghost function Attempt(entries: seq<Entry>): Option<Row> {
    if entries == [] then None
    else
      match entries[|entries| - 1].cycle
      case Live(_, _) => Some(LiveRowOf(entries[|entries| - 1].cycle))
      case Wiped(_) => None
      case _ => Attempt(entries[..|entries| - 1])
  }

  predicate IsPostponed(cycle: Cycle) {
    cycle.SlotRefused? || cycle.StaggerDeferred? || cycle.ProbeFailed?
  }

  ghost predicate IsRecorded(row: Row) {
    IsLiveRow(row) && row.deferReason.None? && row.measuredAt.Some?
  }

  /** What the memory handed onwards by a log must say. */
  ghost predicate Agrees(context: FamilyContext, success: Option<Row>, stats: Option<Stats>, attempt: Option<Row>) {
    && context.memory.lastSuccess == success
    && context.memory.stats == stats
    && context.lastLive == attempt
    && (success.None? ==> !IsMeaningful(context.memory.previous))
    && (success.Some? && IsMeaningful(context.memory.previous) ==>
          context.memory.previous.value.measuredAt == success.value.measuredAt)
    && (success.None? && attempt.None? && context.memory.previous.Some? ==>
          context.memory.previous.value.measuredAt.None?)
    && (attempt.None? && context.memory.previous.Some? ==> !IsLiveRow(context.memory.previous.value))
  }

  /** What history scans over a log find. */
  ghost predicate Findable(log: seq<Check>, success: Option<Row>, stats: Option<Stats>) {
    if success.None? then Scan(log, HISTORY_LIMIT).None? && forall c <- log :: !ClaimsSuccess(c)
    else
      var found := Scan(log, HISTORY_LIMIT);
      && found.Some?
      && ExtractLastSuccess(found.value.network, Some(found.value.checkedAt)) == success
      && ExtractStats(found.value.network) == stats
  }

  ghost predicate SoundValues(success: Option<Row>, stats: Option<Stats>, attempt: Option<Row>) {
    && (success.Some? ==> IsMeaningful(success) && IsRecorded(success.value))
    && (attempt.Some? ==> IsRecorded(attempt.value) && (attempt.value.ok ==> IsMeaningful(attempt)))
    && (success.None? ==> stats.None?)
    && (stats.Some? ==> Normalize(stats.value) == stats)
    && (success.Some? && stats.None? ==> success.value.mbps.None?)
  }

  lemma {:induction false} SpeedsArePositive(entries: seq<Entry>)
    ensures forall i :: 0 <= i < |Speeds(entries)| ==> Speeds(entries)[i] > 0
  {
    if entries != [] {
      SpeedsArePositive(entries[..|entries| - 1]);
    }
  }

  lemma FoldAppend(speeds: seq<int>, mbps: int)
    ensures FoldSpeeds(speeds + [mbps]) == Some(UpdateStats(FoldSpeeds(speeds), mbps))
  {}

  lemma LiveRowIsRecorded(cycle: Cycle)
    requires cycle.Live?
    ensures IsRecorded(LiveRowOf(cycle)) && (LiveRowOf(cycle).ok ==> IsMeaningful(Some(LiveRowOf(cycle))))
  {}

  lemma {:induction false} SuccessIsSound(entries: seq<Entry>)
    ensures LastSuccess(entries).Some? ==> IsMeaningful(LastSuccess(entries)) && IsRecorded(LastSuccess(entries).value)
    ensures LastSuccess(entries).None? ==> Speeds(entries) == []
    ensures LastSuccess(entries).Some? && Speeds(entries) == [] ==> LastSuccess(entries).value.mbps.None?
  {
    if entries != [] {
      SuccessIsSound(entries[..|entries| - 1]);
    }
  }

  lemma {:induction false} AttemptIsSound(entries: seq<Entry>)
    ensures Attempt(entries).Some? ==>
              IsRecorded(Attempt(entries).value) && (Attempt(entries).value.ok ==> IsMeaningful(Attempt(entries)))
  {
    if entries != [] {
      AttemptIsSound(entries[..|entries| - 1]);
      if entries[|entries| - 1].cycle.Live? {
        LiveRowIsRecorded(entries[|entries| - 1].cycle);
      }
    }
  }

  lemma {:induction false} ReferenceIsSound(entries: seq<Entry>)
    ensures SoundValues(LastSuccess(entries), FoldSpeeds(Speeds(entries)), Attempt(entries))
  {
    SuccessIsSound(entries);
    AttemptIsSound(entries);
    SpeedsArePositive(entries);
    if Speeds(entries) != [] {
      FoldIsSound(Speeds(entries));
    }
  }

  /** A row written by a cycle that was handed the right memory shows the right memory. */
  lemma WriterAgrees(context: FamilyContext, cycle: Cycle, checkedAt: int,
                     success: Option<Row>, stats: Option<Stats>, attempt: Option<Row>)
    requires !cycle.Wiped?
    requires Agrees(context, success, stats, attempt) && SoundValues(success, stats, attempt)
    ensures var details := CycleDetails(context, cycle);
            var check := Check(checkedAt, details);
            var success' := if IsSuccess(cycle) then Some(LiveRowOf(cycle)) else success;
            var stats' := if !IsSuccess(cycle) then stats
                          else if LiveRowOf(cycle).mbps.None? then None
                          else Some(UpdateStats(stats, LiveRowOf(cycle).mbps.value));
            var attempt' := if cycle.Live? then Some(LiveRowOf(cycle)) else attempt;
            && ExtractLastSuccess(details, Some(checkedAt)) == success'
            && ((stats'.Some? ==> Normalize(stats'.value) == stats') ==> ExtractStats(details) == stats')
            && ExtractLastLive(details, Some(checkedAt)) == attempt'
            && (success'.Some? ==> ClaimsSuccess(check))
            && (success'.None? ==> !ClaimsSuccess(check))
  {
    if !cycle.Live? {
      var shown := DisplayRow(context.memory, cycle.SlotRefused?);
      assert !IsLiveRow(shown);
      assert KnownAttempt(context) == attempt;
      if success.None? {
        assert !shown.ok;
      }
    }
  }

  lemma PreviousAgrees(context: FamilyContext, cycle: Cycle, checkedAt: int,
                       success: Option<Row>, stats: Option<Stats>, attempt: Option<Row>)
    requires !cycle.Wiped?
    requires Agrees(context, success, stats, attempt) && SoundValues(success, stats, attempt)
    ensures var previous := ExtractResult(CycleDetails(context, cycle), Some(checkedAt));
            var success' := if IsSuccess(cycle) then Some(LiveRowOf(cycle)) else success;
            var attempt' := if cycle.Live? then Some(LiveRowOf(cycle)) else attempt;
            && previous.Some?
            && (success'.None? ==> !IsMeaningful(previous))
            && (success'.Some? && IsMeaningful(previous) ==> previous.value.measuredAt == success'.value.measuredAt)
            && (success'.None? && attempt'.None? ==> previous.value.measuredAt.None?)
            && (IsLiveRow(previous.value) <==> cycle.Live?)
            && (!cycle.Live? ==> IsDeferredRow(previous.value) && (success.Some? ==> IsMeaningful(previous)))
  {}

  lemma ReferenceStep(front: seq<Entry>, last: Entry)
    ensures var entries, cycle := front + [last], last.cycle;
            && Run(entries) == Run(front) + [Check(last.checkedAt, CycleDetails(Handed(Run(front)), cycle))]
            && LastSuccess(entries) == (if IsSuccess(cycle) then Some(LiveRowOf(cycle)) else LastSuccess(front))
            && FoldSpeeds(Speeds(entries)) == (if !IsSuccess(cycle) then FoldSpeeds(Speeds(front))
                                               else if LiveRowOf(cycle).mbps.None? then None
                                               else Some(UpdateStats(FoldSpeeds(Speeds(front)), LiveRowOf(cycle).mbps.value)))
            && Attempt(entries) == (if cycle.Live? then Some(LiveRowOf(cycle)) else if cycle.Wiped? then None else Attempt(front))
  {
    assert (front + [last])[..|front|] == front;
    if IsSuccess(last.cycle) && LiveRowOf(last.cycle).mbps.Some? {
      FoldAppend(Speeds(front), LiveRowOf(last.cycle).mbps.value);
    }
  }

  /** A row that shows the right memory hands it on. */
  lemma RightRowHandsOn(log: seq<Check>, check: Check, success: Option<Row>, stats: Option<Stats>, attempt: Option<Row>)
    requires var previous := ExtractResult(check.network, Some(check.checkedAt));
             && ExtractLastSuccess(check.network, Some(check.checkedAt)) == success
             && ExtractStats(check.network) == stats
             && ExtractLastLive(check.network, Some(check.checkedAt)) == attempt
             && (success.Some? <==> ClaimsSuccess(check))
             && previous.Some?
             && (success.None? ==> !IsMeaningful(previous))
             && (success.Some? && IsMeaningful(previous) ==> previous.value.measuredAt == success.value.measuredAt)
             && (success.None? && attempt.None? ==> previous.value.measuredAt.None?)
             && (attempt.None? ==> !IsLiveRow(previous.value))
    requires SoundValues(success, stats, attempt)
    requires success.None? ==> Findable(log, None, None)
    ensures Agrees(Handed(log + [check]), success, stats, attempt) && Findable(log + [check], success, stats)
  {
    assert (log + [check])[..|log|] == log;
  }

  /** After a wiped row the history scan brings back success and statistics. */
  lemma WipedRowHandsOn(log: seq<Check>, check: Check, keepsNetwork: bool, success: Option<Row>, stats: Option<Stats>)
    requires check.network == if keepsNetwork then Some(BLANK) else None
    requires SoundValues(success, stats, None) && Findable(log, success, stats)
    ensures Agrees(Handed(log + [check]), success, stats, None) && Findable(log + [check], success, stats)
  {
    assert (log + [check])[..|log|] == log;
  }

  /** The carried memory is a cache of the reference folds, after every run. */
  lemma {:induction false} MemoryMatchesHistory(entries: seq<Entry>)
    ensures Agrees(Handed(Run(entries)), LastSuccess(entries), FoldSpeeds(Speeds(entries)), Attempt(entries))
    ensures Findable(Run(entries), LastSuccess(entries), FoldSpeeds(Speeds(entries)))
  {
    if entries != [] {
      var n := |entries| - 1;
      var front, last := entries[..n], entries[n];
      var log := Run(front);
      assert entries == front + [last];
      MemoryMatchesHistory(front);
      ReferenceStep(front, last);
      ReferenceIsSound(front);
      ReferenceIsSound(entries);
      var success, stats, attempt := LastSuccess(front), FoldSpeeds(Speeds(front)), Attempt(front);
      var check := Check(last.checkedAt, CycleDetails(Handed(log), last.cycle));
      if last.cycle.Wiped? {
        WipedRowHandsOn(log, check, last.cycle.keepsNetwork, success, stats);
      } else {
        WriterAgrees(Handed(log), last.cycle, last.checkedAt, success, stats, attempt);
        PreviousAgrees(Handed(log), last.cycle, last.checkedAt, success, stats, attempt);
        RightRowHandsOn(log, check, LastSuccess(entries), FoldSpeeds(Speeds(entries)), Attempt(entries));
      }
    }
  }

  ghost predicate AllMeasured(entries: seq<Entry>) {
    forall i :: 0 <= i < |entries| && IsSuccess(entries[i].cycle) ==> LiveRowOf(entries[i].cycle).mbps.Some?
  }

  lemma {:induction false} SpeedsCountSuccesses(entries: seq<Entry>)
    ensures |Speeds(entries)| <= SuccessCount(entries)
    ensures |Speeds(entries)| == SuccessCount(entries) <==> AllMeasured(entries)
  {
    if entries != [] {
      var n := |entries| - 1;
      var front, last := entries[..n], entries[n];
      SpeedsCountSuccesses(front);
      assert AllMeasured(entries) <==>
             AllMeasured(front) && (IsSuccess(last.cycle) ==> LiveRowOf(last.cycle).mbps.Some?);
    }
  }

  /** After any run the next cycle is handed the newest live success and the statistics folded over the live successes. */
  lemma {:induction false} HandedMemory(entries: seq<Entry>)
    ensures Handed(Run(entries)).memory.lastSuccess == LastSuccess(entries)
    ensures Handed(Run(entries)).memory.stats == FoldSpeeds(Speeds(entries))
  {
    MemoryMatchesHistory(entries);
  }

  /**
   These statistics count all live successes exactly when each of them reported a speed; their minimum and
   maximum are exact and enclose the average.
   */
  lemma {:induction false} StatisticsOfRun(entries: seq<Entry>, stats: Option<Stats>)
    requires stats == FoldSpeeds(Speeds(entries))
    ensures (if stats.Some? then stats.value.sampleCount else 0) == SuccessCount(entries) <==> AllMeasured(entries)
    ensures stats.Some? ==> 0 < stats.value.minMbps <= stats.value.avgMbps <= stats.value.maxMbps
                            && IsExactRange(stats.value, Speeds(entries))
  {
    SpeedsCountSuccesses(entries);
    SpeedsArePositive(entries);
    if Speeds(entries) != [] {
      FoldIsSound(Speeds(entries));
    }
  }

  /** A measurement that succeeded reports its speed, as every measurement of the source does. */
  predicate ReportsSpeed(cycle: Cycle) {
    cycle.Live? && cycle.measure.Some? && cycle.measure.value.ok ==> cycle.measure.value.mbps.Some?
  }

  /** So over every run of such measurements the carried statistics count all live successes. */
  lemma {:induction false} SampleCountOfRun(entries: seq<Entry>)
    requires forall e <- entries :: ReportsSpeed(e.cycle)
    ensures var stats := Handed(Run(entries)).memory.stats;
            (if stats.Some? then stats.value.sampleCount else 0) == SuccessCount(entries)
  {
    HandedMemory(entries);
    forall i | 0 <= i < |entries| && IsSuccess(entries[i].cycle) ensures LiveRowOf(entries[i].cycle).mbps.Some? {
      assert ReportsSpeed(entries[i].cycle);
    }
    StatisticsOfRun(entries, FoldSpeeds(Speeds(entries)));
  }

  /** Deferrals and failed probes hide no live attempt from the scheduler. */
  lemma {:induction false} HandedAttempt(entries: seq<Entry>)
    ensures Handed(Run(entries)).lastLive == Attempt(entries)
  {
    MemoryMatchesHistory(entries);
  }

  /** The stamp a component is ordered by: its newest attempt, or after a loss the success shown again. */
  ghost function Stamp(entries: seq<Entry>): Option<int> {
    if Attempt(entries).Some? then Attempt(entries).value.measuredAt
    else if entries != [] && IsPostponed(entries[|entries| - 1].cycle) && LastSuccess(entries).Some? then
      LastSuccess(entries).value.measuredAt
    else None
  }

  lemma {:induction false} StampExactly(entries: seq<Entry>)
    ensures SchedulingStamp(Latest(Run(entries))) == Stamp(entries)
  {
    MemoryMatchesHistory(entries);
    ReferenceIsSound(entries);
    if entries != [] {
      var n := |entries| - 1;
      var front, last := entries[..n], entries[n];
      MemoryMatchesHistory(front);
      ReferenceIsSound(front);
      if !last.cycle.Wiped? {
        PreviousAgrees(Handed(Run(front)), last.cycle, last.checkedAt,
                       LastSuccess(front), FoldSpeeds(Speeds(front)), Attempt(front));
      }
    }
  }

  /** When the next cycle is due, in terms of what happened and not of what rows say. */
  ghost predicate Due(entries: seq<Entry>, interval: int, now: int) {
    var attempt, success := Attempt(entries), LastSuccess(entries);
    if attempt.Some? then
      RetrySeconds(interval, attempt) <= 0 || now - attempt.value.measuredAt.UnwrapOr(0) >= RetrySeconds(interval, attempt)
    else if entries != [] && IsPostponed(entries[|entries| - 1].cycle) && success.Some? then
      // A wiped row lost the attempt; a later deferral shows the last success and its stamp again.
      interval <= 0 || now - success.value.measuredAt.UnwrapOr(0) >= interval
    else true
  }

  lemma {:induction false} DueExactly(entries: seq<Entry>, interval: int, now: int)
    ensures ShouldRun(true, interval, Latest(Run(entries)), now) <==> Due(entries, interval, now)
    ensures !ShouldRun(false, interval, Latest(Run(entries)), now)
  {
    MemoryMatchesHistory(entries);
    ReferenceIsSound(entries);
    if entries != [] {
      var n := |entries| - 1;
      var front, last := entries[..n], entries[n];
      MemoryMatchesHistory(front);
      ReferenceIsSound(front);
      if !last.cycle.Wiped? {
        PreviousAgrees(Handed(Run(front)), last.cycle, last.checkedAt,
                       LastSuccess(front), FoldSpeeds(Speeds(front)), Attempt(front));
      }
    }
  }

  /** Every live cycle was decided by `ShouldRun`, and its measurement was stamped after that decision. */
  ghost predicate Scheduled(entries: seq<Entry>) {
    forall j :: 0 <= j < |entries| && entries[j].cycle.Live? ==>
      && ShouldRun(true, entries[j].interval, Latest(Run(entries[..j])), entries[j].decidedAt)
      && entries[j].decidedAt <= entries[j].cycle.stamp
  }

  lemma {:induction false} AttemptThroughDeferrals(entries: seq<Entry>, i: nat, j: nat)
    requires i < j <= |entries| && entries[i].cycle.Live?
    requires forall k :: i < k < j ==> IsPostponed(entries[k].cycle)
    ensures Attempt(entries[..j]) == Some(LiveRowOf(entries[i].cycle))
  {
    assert entries[..j][..j - 1] == entries[..j - 1];
    if i + 1 < j {
      AttemptThroughDeferrals(entries, i, j - 1);
    }
  }

  /**
   Two successive live attempts without a wiped row between them are at least the interval apart,
   and at least max(interval, 3600) seconds when the earlier one was rate limited.
   */
  lemma LiveAttemptsKeepDistance(entries: seq<Entry>, i: nat, j: nat)
    requires Scheduled(entries)
    requires i < j < |entries| && entries[i].cycle.Live? && entries[j].cycle.Live?
    requires forall k :: i < k < j ==> IsPostponed(entries[k].cycle)
    ensures var gap := entries[j].cycle.stamp - entries[i].cycle.stamp;
            && (entries[j].interval > 0 ==> gap >= entries[j].interval)
            && (IsRateLimited(Some(LiveRowOf(entries[i].cycle))) ==> gap >= Max(entries[j].interval, RATE_LIMIT_BACKOFF_SECONDS))
  {
    AttemptThroughDeferrals(entries, i, j);
    DueExactly(entries[..j], entries[j].interval, entries[j].decidedAt);
  }

  /** A wiped row makes the component due at once: even the backoff after a rate limit is forgotten. */
  lemma WipedRowForgetsBackoff(entries: seq<Entry>, wiped: Entry, interval: int, now: int)
    requires wiped.cycle.Wiped?
    ensures ShouldRun(true, interval, Latest(Run(entries + [wiped])), now)
  {}
}

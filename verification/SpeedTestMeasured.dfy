/**
 What runs of a component's log say, told from the measurements themselves: the memory handed to the next cycle, when it
 is due, and what a postponed cycle displays.
 */
module MeasuredRuns {
  import opened Numbers
  import opened Options
  import opened SpeedTestMemory
  import opened NetworkEnrich
  import opened CheckLog
  import opened SpeedTestSchedule
  import opened CheckLogRuns

  /** The measurement succeeded and transferred something, and its speed, if it has one, is positive. */
  ghost predicate DeliversData(cycle: Cycle) {
    && cycle.Live? && cycle.measure.Some? && cycle.measure.value.ok && cycle.measure.value.bytes > 0
    && (cycle.measure.value.mbps.Some? ==> cycle.measure.value.mbps.value > 0)
  }

  /** The measurement failed with a text that speaks of a rate limit. */
  ghost predicate HitsRateLimit(cycle: Cycle) {
    cycle.Live? && cycle.measure.Some? && !cycle.measure.value.ok && cycle.measure.value.error == RateLimitText
  }

  /** The newest measurement that delivered data. */
  ghost function NewestData(entries: seq<Entry>): Option<Cycle> {
    if entries == [] then None
    else
      var cycle := entries[|entries| - 1].cycle;
      if DeliversData(cycle) then Some(cycle) else NewestData(entries[..|entries| - 1])
  }

  /** The newest live attempt since the last wiped row, whatever came of it. */
  ghost function NewestTry(entries: seq<Entry>): Option<Cycle> {
    if entries == [] then None
    else
      var cycle := entries[|entries| - 1].cycle;
      if cycle.Live? then Some(cycle) else if cycle.Wiped? then None else NewestTry(entries[..|entries| - 1])
  }

  /** The speeds measured, starting anew after data without a speed. */
  ghost function SpeedsMeasured(entries: seq<Entry>): seq<int> {
    if entries == [] then []
    else
      var front, cycle := SpeedsMeasured(entries[..|entries| - 1]), entries[|entries| - 1].cycle;
      if !DeliversData(cycle) then front
      else if cycle.measure.value.mbps.None? then []
      else front + [cycle.measure.value.mbps.value]
  }

  // ---------- the memory ----------

  /** The row shows this measurement: its bytes and speed, and the time it was taken. */
  ghost predicate ShowsData(row: Row, cycle: Cycle)
    requires cycle.Live? && cycle.measure.Some?
  {
    && row.ok && row.bytes == cycle.measure.value.bytes && row.mbps == cycle.measure.value.mbps
    && row.measuredAt == Some(cycle.stamp)
  }

  lemma {:induction false} NewestDataIsData(entries: seq<Entry>)
    ensures NewestData(entries).Some? ==> DeliversData(NewestData(entries).value)
    ensures NewestTry(entries).Some? ==> NewestTry(entries).value.Live?
  {
    if entries != [] {
      NewestDataIsData(entries[..|entries| - 1]);
    }
  }

  lemma LiveRowShows(cycle: Cycle)
    requires cycle.Live?
    ensures IsSuccess(cycle) <==> DeliversData(cycle)
    ensures var row := LiveRowOf(cycle);
            && row.ok == DeliversData(cycle) && IsLiveRow(row) && row.measuredAt == Some(cycle.stamp)
            && (IsRateLimited(Some(row)) <==> HitsRateLimit(cycle))
            && (cycle.measure.Some? ==> row.bytes == cycle.measure.value.bytes && row.mbps == cycle.measure.value.mbps)
  {}

  lemma {:induction false} SuccessIsNewestData(entries: seq<Entry>)
    ensures var success, data := LastSuccess(entries), NewestData(entries);
            && success.Some? == data.Some?
            && (data.Some? ==> DeliversData(data.value) && ShowsData(success.value, data.value) && IsLiveRow(success.value))
  {
    if entries != [] {
      SuccessIsNewestData(entries[..|entries| - 1]);
      if entries[|entries| - 1].cycle.Live? {
        LiveRowShows(entries[|entries| - 1].cycle);
      }
    }
  }

  lemma {:induction false} AttemptIsNewestTry(entries: seq<Entry>)
    ensures var attempt, newest := Attempt(entries), NewestTry(entries);
            && attempt.Some? == newest.Some?
            && (newest.Some? ==> newest.value.Live? && IsTryRow(attempt.value, newest.value))
  {
    if entries != [] {
      AttemptIsNewestTry(entries[..|entries| - 1]);
      if entries[|entries| - 1].cycle.Live? {
        LiveRowShows(entries[|entries| - 1].cycle);
      }
    }
  }

  ghost predicate IsTryRow(row: Row, cycle: Cycle)
    requires cycle.Live?
  {
    && row.measuredAt == Some(cycle.stamp) && row.ok == DeliversData(cycle)
    && (!row.ok && row.error == RateLimitText <==> HitsRateLimit(cycle))
  }

  lemma {:induction false} SpeedsAreMeasured(entries: seq<Entry>)
    ensures Speeds(entries) == SpeedsMeasured(entries)
  {
    if entries != [] {
      SpeedsAreMeasured(entries[..|entries| - 1]);
      if entries[|entries| - 1].cycle.Live? {
        LiveRowShows(entries[|entries| - 1].cycle);
      }
    }
  }

  /**
   After any run the next cycle is handed the newest measurement that delivered data, as it was measured, the newest
   attempt since the last wiped row, and statistics with the exact number, minimum and maximum of the measured speeds.
   */
  lemma HandedAsMeasured(entries: seq<Entry>)
    ensures var handed, data, newest, speeds := Handed(Run(entries)), NewestData(entries), NewestTry(entries), SpeedsMeasured(entries);
            && handed.memory.lastSuccess.Some? == data.Some? && handed.lastLive.Some? == newest.Some?
            && (data.Some? ==> DeliversData(data.value) && ShowsData(handed.memory.lastSuccess.value, data.value))
            && (newest.Some? ==> newest.value.Live? && IsTryRow(handed.lastLive.value, newest.value))
            && (if speeds == [] then handed.memory.stats.None?
                else handed.memory.stats.Some? && handed.memory.stats.value.sampleCount == |speeds|
                     && IsExactRange(handed.memory.stats.value, speeds))
  {
    HandedMemory(entries);
    HandedAttempt(entries);
    SuccessIsNewestData(entries);
    AttemptIsNewestTry(entries);
    SpeedsAreMeasured(entries);
    SpeedsArePositive(entries);
    if Speeds(entries) != [] {
      FoldIsSound(Speeds(entries));
    }
  }

  // ---------- when the next test is due ----------

  /** How long a live attempt keeps the next one away: the interval, but at least an hour after a rate limit. */
  ghost function Pause(cycle: Cycle, interval: int): int {
    if HitsRateLimit(cycle) && interval < 3600 then 3600 else interval
  }

  /** For every run: whether the next live test is due, from the measurements and their times alone. */
  lemma DueAsMeasured(entries: seq<Entry>, interval: int, now: int)
    ensures NewestTry(entries).Some? ==> NewestTry(entries).value.Live?
    ensures NewestData(entries).Some? ==> NewestData(entries).value.Live?
    ensures ShouldRun(true, interval, Latest(Run(entries)), now) <==>
              var newest, data := NewestTry(entries), NewestData(entries);
              if newest.Some? then
                Pause(newest.value, interval) <= 0 || now - newest.value.stamp >= Pause(newest.value, interval)
              else if entries != [] && !entries[|entries| - 1].cycle.Wiped? && data.Some? then
                interval <= 0 || now - data.value.stamp >= interval
              else true
  {
    NewestDataIsData(entries);
    DueExactly(entries, interval, now);
    SuccessIsNewestData(entries);
    AttemptIsNewestTry(entries);
    if NewestTry(entries).Some? {
      PauseIsRetry(Attempt(entries).value, NewestTry(entries).value, interval);
    } else if entries != [] {
      NoTryIsPostponedOrWiped(entries);
    }
  }

  lemma PauseIsRetry(row: Row, cycle: Cycle, interval: int)
    requires cycle.Live? && IsTryRow(row, cycle)
    ensures RetrySeconds(interval, Some(row)) == Pause(cycle, interval) && row.measuredAt == Some(cycle.stamp)
  {}

  lemma NoTryIsPostponedOrWiped(entries: seq<Entry>)
    requires NewestTry(entries).None? && entries != []
    ensures IsPostponed(entries[|entries| - 1].cycle) <==> !entries[|entries| - 1].cycle.Wiped?
  {}

  /**
   Two successive live attempts without a wiped row between them are at least the interval apart, and at least an hour
   when the earlier measurement failed with a rate limit.
   */
  lemma MeasurementsKeepDistance(entries: seq<Entry>, i: nat, j: nat)
    requires Scheduled(entries)
    requires i < j < |entries| && entries[i].cycle.Live? && entries[j].cycle.Live?
    requires forall k :: i < k < j ==> IsPostponed(entries[k].cycle)
    ensures var gap := entries[j].cycle.stamp - entries[i].cycle.stamp;
            && (entries[j].interval > 0 ==> gap >= entries[j].interval)
            && (HitsRateLimit(entries[i].cycle) ==> gap >= entries[j].interval && gap >= 3600)
  {
    LiveRowShows(entries[i].cycle);
    LiveAttemptsKeepDistance(entries, i, j);
  }

  // ---------- what a postponed cycle displays ----------

  /** The last row that was not postponed delivered data. */
  ghost predicate IsFresh(entries: seq<Entry>) {
    entries != [] && (DeliversData(entries[|entries| - 1].cycle)
                      || (IsPostponed(entries[|entries| - 1].cycle) && IsFresh(entries[..|entries| - 1])))
  }

  /** The slot refused a test since the last row that was not postponed. */
  ghost predicate WasRefused(entries: seq<Entry>) {
    entries != [] && IsPostponed(entries[|entries| - 1].cycle)
    && (entries[|entries| - 1].cycle.SlotRefused? || WasRefused(entries[..|entries| - 1]))
  }

  /**
   The row displayed after a run whose last cycle was postponed. It is a success exactly when some measurement delivered
   data, and shows the newest such one; it is stale exactly when something else came after that, throttled exactly when
   the slot refused a test since, and it gives the reason of this cycle. Without data it is a failure, dated by the newest
   attempt if there is one.
   */
  ghost predicate IsDisplay(row: Row, entries: seq<Entry>)
    requires entries != [] && (NewestData(entries).Some? ==> DeliversData(NewestData(entries).value))
    requires NewestTry(entries).Some? ==> NewestTry(entries).value.Live?
  {
    var data, newest, slotRefused := NewestData(entries), NewestTry(entries), entries[|entries| - 1].cycle.SlotRefused?;
    && row.deferred && row.deferReason == Some(if slotRefused then SlotBusy else Staggered)
    && row.throttled == WasRefused(entries)
    && row.ok == data.Some?
    && (data.Some? ==> ShowsData(row, data.value) && row.cached && row.stale == !IsFresh(entries))
    && (data.None? ==> row.measuredAt == if newest.Some? then Some(newest.value.stamp) else None)
  }

  /** What the previous row shows, after any run. */
  ghost predicate IsPrevious(previous: Option<Row>, entries: seq<Entry>)
    requires NewestData(entries).Some? ==> DeliversData(NewestData(entries).value)
    requires NewestTry(entries).Some? ==> NewestTry(entries).value.Live?
  {
    if entries == [] || entries[|entries| - 1].cycle.Wiped? then previous.None?
    else
      && previous.Some?
      && if entries[|entries| - 1].cycle.Live? then previous.value == LiveRowOf(entries[|entries| - 1].cycle)
         else IsDisplay(previous.value, entries)
  }

  lemma PreviousUnfolds(front: seq<Entry>, last: Entry)
    ensures var details := CycleDetails(Handed(Run(front)), last.cycle);
            Handed(Run(front + [last])).memory.previous == ExtractResult(details, Some(last.checkedAt))
  {
    assert (front + [last])[..|front|] == front;
  }

  lemma PostponedDisplays(context: FamilyContext, front: seq<Entry>, last: Entry)
    requires IsPostponed(last.cycle)
    requires NewestData(front).Some? ==> DeliversData(NewestData(front).value)
    requires NewestTry(front).Some? ==> NewestTry(front).value.Live?
    requires IsPrevious(context.memory.previous, front)
    requires context.memory.lastSuccess.Some? == NewestData(front).Some?
    requires NewestData(front).Some? ==>
               ShowsData(context.memory.lastSuccess.value, NewestData(front).value) && IsLiveRow(context.memory.lastSuccess.value)
    ensures var shown := DisplayRow(context.memory, last.cycle.SlotRefused?);
            && NewestData(front + [last]) == NewestData(front) && NewestTry(front + [last]) == NewestTry(front)
            && IsDisplay(shown, front + [last])
            && ExtractResult(CycleDetails(context, last.cycle), Some(last.checkedAt)) == Some(shown)
  {
    assert (front + [last])[..|front|] == front;
    if front != [] && front[|front| - 1].cycle.Live? {
      LiveRowShows(front[|front| - 1].cycle);
    }
  }

  /** In every run the row displayed by a postponed cycle is the one told by the measurements. */
  lemma {:induction false} DisplayAsMeasured(entries: seq<Entry>)
    ensures NewestData(entries).Some? ==> DeliversData(NewestData(entries).value)
    ensures NewestTry(entries).Some? ==> NewestTry(entries).value.Live?
    ensures IsPrevious(Handed(Run(entries)).memory.previous, entries)
  {
    NewestDataIsData(entries);
    if entries != [] {
      var n := |entries| - 1;
      var front, last := entries[..n], entries[n];
      assert entries == front + [last];
      DisplayAsMeasured(front);
      PreviousUnfolds(front, last);
      if IsPostponed(last.cycle) {
        HandedMemory(front);
        SuccessIsNewestData(front);
        PostponedDisplays(Handed(Run(front)), front, last);
      } else if last.cycle.Live? {
        LiveRowShows(last.cycle);
      }
    }
  }
}

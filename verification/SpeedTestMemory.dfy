/**
 The speed-test fields a check row carries in `details.network`, and how the next cycle
 reads them back. Mbps are integer hundredths; times are integer seconds.
 */
module SpeedTestMemory {
  import opened Options
  import opened Numbers
  import opened Rounding

  /** What the free-text `error` key says, as far as any code looks at it. */
  datatype ErrorText = NoError | RateLimitText | OtherText

  datatype DeferReason = SlotBusy | Staggered

  datatype Row = Row(
    ok: bool,
    bytes: int,
    mbps: Option<int>,
    measuredAt: Option<int>,
    error: ErrorText,
    cached: bool,
    deferred: bool,
    throttled: bool,
    stale: bool,
    deferReason: Option<DeferReason>)

  datatype Stats = Stats(minMbps: int, maxMbps: int, avgMbps: int, sampleCount: int)

  /** The four keys of one direction: `speed_test`, `_last_attempt`, `_last_success`, `_stats`. */
  datatype Family = Family(
    result: Option<Row>,
    lastAttempt: Option<Row>,
    lastSuccess: Option<Row>,
    stats: Option<Stats>)

  const BLANK := Family(None, None, None, None)

  datatype Memory = Memory(previous: Option<Row>, lastSuccess: Option<Row>, stats: Option<Stats>)

  predicate IsLiveRow(row: Row) {
    !(row.cached || row.deferred || row.throttled || row.stale)
  }

  predicate IsDeferredRow(row: Row) {
    row.cached || row.deferred || row.throttled
  }

  predicate IsMeaningful(row: Option<Row>) {
    && row.Some?
    && row.value.ok
    && row.value.bytes > 0
    && (row.value.mbps.Some? ==> row.value.mbps.value > 0)
  }

  predicate IsRateLimited(row: Option<Row>) {
    row.Some? && !row.value.ok && row.value.error == RateLimitText
  }

  function Hydrate(row: Option<Row>, checkedAt: Option<int>): Option<Row> {
    if row.None? || row.value.measuredAt.Some? || checkedAt.None? then row
    else if !IsMeaningful(row) || !IsLiveRow(row.value) then row
    else Some(row.value.(measuredAt := checkedAt))
  }

  function ExtractLastLive(details: Option<Family>, checkedAt: Option<int>): Option<Row> {
    if details.None? then None
    else if details.value.lastAttempt.Some? && IsLiveRow(details.value.lastAttempt.value) then
      Hydrate(details.value.lastAttempt, checkedAt)
    else if details.value.result.Some? && IsLiveRow(details.value.result.value) then
      Hydrate(details.value.result, checkedAt)
    else None
  }

  function ExtractResult(details: Option<Family>, checkedAt: Option<int>): Option<Row> {
    if details.None? then None else Hydrate(details.value.result, checkedAt)
  }

  function ExtractLastSuccess(details: Option<Family>, checkedAt: Option<int>): Option<Row> {
    if details.None? then None
    else if IsMeaningful(details.value.lastSuccess) then Hydrate(details.value.lastSuccess, checkedAt)
    else if IsMeaningful(details.value.result) then Hydrate(details.value.result, checkedAt)
    else None
  }

  function Normalize(stats: Stats): Option<Stats> {
    if stats.sampleCount <= 0 || stats.minMbps <= 0 || stats.maxMbps <= 0 || stats.avgMbps <= 0 then None
    else if stats.minMbps > stats.maxMbps then None
    else Some(stats)
  }

  function ExtractStats(details: Option<Family>): Option<Stats> {
    if details.None? then None
    else if details.value.stats.Some? && Normalize(details.value.stats.value).Some? then
      Normalize(details.value.stats.value)
    else
      var lastSuccess := ExtractLastSuccess(details, None);
      if !IsMeaningful(lastSuccess) || lastSuccess.value.mbps.None? then None
      else
        var mbps := lastSuccess.value.mbps.value;
        Some(Stats(mbps, mbps, mbps, 1))
  }

  /** Memory for the next cycle: the latest row, with an older row as fallback for success and statistics. */
  function Resolve(
    latest: Option<Family>, latestAt: Option<int>,
    history: Option<Family>, historyAt: Option<int>): Memory
  {
    var lastSuccess := OrElse(ExtractLastSuccess(latest, latestAt), ExtractLastSuccess(history, historyAt));
    var stats := OrElse(ExtractStats(latest), ExtractStats(history));
    Memory(
      ExtractResult(latest, latestAt),
      lastSuccess,
      if stats.None? && IsMeaningful(lastSuccess) then ExtractStats(Some(BLANK.(lastSuccess := lastSuccess))) else stats)
  }

  function UpdateStats(previous: Option<Stats>, mbps: int): Stats {
    var normalized := if previous.Some? then Normalize(previous.value) else None;
    if normalized.None? then Stats(mbps, mbps, mbps, 1)
    else
      var prior := normalized.value;
      var count := prior.sampleCount + 1;
      Stats(Min(prior.minMbps, mbps), Max(prior.maxMbps, mbps),
            RoundDiv(prior.avgMbps * prior.sampleCount + mbps, count), count)
  }

  function PickDisplay(previous: Option<Row>, lastSuccess: Option<Row>): Option<Row> {
    if IsMeaningful(previous) then previous
    else if IsMeaningful(lastSuccess) then Some(lastSuccess.value.(stale := true))
    else if previous.None? then None
    else if !previous.value.ok then previous
    else Some(previous.value.(ok := false, error := WithDefaultError(previous.value.error)))
  }

  /** `setdefault("error", ...)` with a text that does not mention rate limits. */
  function WithDefaultError(error: ErrorText): ErrorText {
    if error == NoError then OtherText else error
  }

  /** The statistics kept for a whole list of measured speeds, oldest first. */
  function FoldSpeeds(speeds: seq<int>): Option<Stats> {
    if speeds == [] then None
    else Some(UpdateStats(FoldSpeeds(speeds[..|speeds| - 1]), speeds[|speeds| - 1]))
  }

  ghost predicate IsExactRange(stats: Stats, speeds: seq<int>) {
    && stats.minMbps in speeds && stats.maxMbps in speeds
    && forall i :: 0 <= i < |speeds| ==> stats.minMbps <= speeds[i] <= stats.maxMbps
  }

  /** A weighted mean of a value in [lo, hi] and another one in [lo, hi], rounded, stays in [lo, hi]. */
  lemma {:induction false} RoundedMeanInRange(avg: int, count: int, value: int, lo: int, hi: int)
    requires count > 0 && lo <= avg <= hi && lo <= value <= hi
    ensures lo <= RoundDiv(avg * count + value, count + 1) <= hi
  {
    MulLe(lo, avg, count);
    MulLe(avg, hi, count);
    RoundDivOrder(lo * (count + 1), avg * count + value, count + 1);
    RoundDivOrder(avg * count + value, hi * (count + 1), count + 1);
    RoundDivScale(lo, 1, count + 1);
    RoundDivScale(hi, 1, count + 1);
  }

  /**
   Every reachable record: positive, ordered, counting its samples, with exact minimum and maximum,
   and therefore never rejected by `Normalize`.
   */
  lemma {:induction false} FoldIsSound(speeds: seq<int>)
    requires |speeds| > 0
    requires forall i :: 0 <= i < |speeds| ==> speeds[i] > 0
    ensures FoldSpeeds(speeds).Some?
    ensures var s := FoldSpeeds(speeds).value;
            && s.sampleCount == |speeds|
            && 0 < s.minMbps <= s.avgMbps <= s.maxMbps
            && IsExactRange(s, speeds)
            && Normalize(s) == Some(s)
  {
    var n := |speeds| - 1;
    var front, last := speeds[..n], speeds[n];
    assert speeds == front + [last];
    if n > 0 {
      FoldIsSound(front);
      var prior := FoldSpeeds(front).value;
      RoundedMeanInRange(prior.avgMbps, n, last, Min(prior.minMbps, last), Max(prior.maxMbps, last));
    }
  }

  /** One update moves `count * avg - sum` by at most half of the new count. */
  lemma UpdateDrift(avg: int, count: int, value: int)
    requires count > 0
    ensures var avg' := RoundDiv(avg * count + value, count + 1);
            -(count + 1) <= 2 * ((count + 1) * avg' - (count * avg + value)) <= count + 1
  {}

  /** Rounding after every sample lets the average drift from the true mean, but only this far. */
  lemma {:induction false} AverageDrift(speeds: seq<int>)
    requires |speeds| > 0
    requires forall i :: 0 <= i < |speeds| ==> speeds[i] > 0
    ensures FoldSpeeds(speeds).Some?
    ensures var n, drift := |speeds|, |speeds| * FoldSpeeds(speeds).value.avgMbps - Sum(speeds);
            -(n * (n + 1) - 2) <= 4 * drift <= n * (n + 1) - 2
  {
    var n := |speeds| - 1;
    var front, last := speeds[..n], speeds[n];
    if n > 0 {
      FoldIsSound(front);
      AverageDrift(front);
      var prior := FoldSpeeds(front).value;
      UpdateDrift(prior.avgMbps, n, last);
      assert (n + 1) * (n + 2) == n * (n + 1) + 2 * (n + 1);
    } else {
      assert front == [];
    }
  }

  lemma HalvesRound(n: int)
    ensures var q := RoundDiv(n, 2); if n % 2 == 1 then 2 * q == n + 1 || 2 * q == n - 1 else 2 * q == n
  {}

  lemma TwoSpeeds(a: int, b: int)
    requires a > 0 && b > 0
    ensures FoldSpeeds([a, b]).Some? && FoldSpeeds([a, b]).value.avgMbps == RoundDiv(a + b, 2)
    ensures Sum([a, b]) == a + b
  {
    assert [a, b][..1] == [a] && [a][..0] == [];
    assert FoldSpeeds([a]) == Some(UpdateStats(None, a));
    assert FoldSpeeds([a, b]) == Some(UpdateStats(FoldSpeeds([a]), b));
    assert Sum([a]) == a;
  }

  /** The drift bound is attained: by two samples exactly when their sum is odd, so that their mean has to be rounded. */
  lemma DriftBoundIsAttained(a: int, b: int)
    requires a > 0 && b > 0
    ensures FoldSpeeds([a, b]).Some?
    ensures var drift := 2 * FoldSpeeds([a, b]).value.avgMbps - Sum([a, b]);
            if (a + b) % 2 == 1 then 4 * drift == 2 * (2 + 1) - 2 || 4 * drift == -(2 * (2 + 1) - 2) else drift == 0
  {
    TwoSpeeds(a, b);
    HalvesRound(a + b);
  }

  /** Whatever record was stored before, an update leaves one that is positive, ordered and counts its sample. */
  lemma UpdateIsSound(previous: Option<Stats>, mbps: int)
    requires mbps > 0
    ensures var stats := UpdateStats(previous, mbps);
            0 < stats.minMbps <= mbps <= stats.maxMbps && stats.sampleCount >= 1
  {}

  /**
   A row stored before successes, attempts and statistics were carried along: a live success counts as all three, dated
   by its check when it carries no time of its own.
   */
  lemma OldRowIsRead(row: Row, checkedAt: int)
    requires row.ok && row.bytes > 0 && row.mbps.Some? && row.mbps.value > 0
    requires !row.cached && !row.deferred && !row.throttled && !row.stale
    ensures var details, mbps := Some(BLANK.(result := Some(row))), row.mbps.value;
            var dated := Some(if row.measuredAt.Some? then row else row.(measuredAt := Some(checkedAt)));
            && ExtractLastSuccess(details, Some(checkedAt)) == dated && ExtractLastLive(details, Some(checkedAt)) == dated
            && ExtractStats(details) == Some(Stats(mbps, mbps, mbps, 1))
  {}

  /** A carried row that is marked as displayed again is no attempt; the live row beside it is. */
  lemma MarkedRowIsNoAttempt(attempt: Row, row: Row, checkedAt: int)
    requires attempt.cached || attempt.deferred || attempt.throttled || attempt.stale
    requires row.measuredAt.Some? && !row.cached && !row.deferred && !row.throttled && !row.stale
    ensures ExtractLastLive(Some(BLANK.(result := Some(row), lastAttempt := Some(attempt))), Some(checkedAt)) == Some(row)
    ensures ExtractLastLive(Some(BLANK.(lastAttempt := Some(attempt))), Some(checkedAt)).None?
  {}
}

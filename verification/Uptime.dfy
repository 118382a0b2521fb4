/** Downtime of one period from its check events. Times are integer microseconds. */
module Uptime {
  import opened Numbers
  import opened Options
  import StableSort

  datatype Outcome = Up | Down | Degraded | Timeout | Error

  datatype Event = Event(at: int, outcome: Outcome)

  const SECOND := 1_000_000
  const DAY := 86_400_000_000

  predicate IsOutage(outcome: Outcome) {
    outcome == Down || outcome == Timeout || outcome == Error
  }

  /** `max(int(duration.total_seconds()), 0)`. */
  function WholeSeconds(duration: int): nat {
    if duration <= 0 then 0 else duration / SECOND
  }

  predicate NoLater(a: Event, b: Event) {
    a.at <= b.at
  }

  /** The running total and the start of the open outage. */
  datatype Scan = Scan(total: nat, downSince: Option<int>)

  function ScanStep(scan: Scan, event: Event): Scan {
    if IsOutage(event.outcome) then
      (if scan.downSince.None? then scan.(downSince := Some(event.at)) else scan)
    else if scan.downSince.Some? then Scan(scan.total + WholeSeconds(event.at - scan.downSince.value), None)
    else scan
  }

  function ScanAll(start: Scan, sorted: seq<Event>): Scan {
    if sorted == [] then start else ScanStep(ScanAll(start, sorted[..|sorted| - 1]), sorted[|sorted| - 1])
  }

  function CloseScan(scan: Scan, periodEnd: int): nat {
    scan.total + if scan.downSince.Some? then WholeSeconds(periodEnd - scan.downSince.value) else 0
  }

  function OpenScan(start: int, continuing: bool): Scan {
    Scan(0, if continuing then Some(start) else None)
  }

  function DowntimeSeconds(events: seq<Event>, start: int, end: int, now: int, continuing: bool): nat {
    CloseScan(ScanAll(OpenScan(start, continuing), StableSort.Sort(events, NoLater)), Min(end, now))
  }

  method ComputeDowntimeSeconds(events: seq<Event>, start: int, end: int, now: int, continuing: bool) returns (total: nat)
    ensures total == DowntimeSeconds(events, start, end, now, continuing)
  {
    var periodEnd := Min(end, now);
    total := 0;
    var downSince: Option<int> := if continuing then Some(start) else None;
    if events == [] {
      if downSince.Some? {
        return WholeSeconds(periodEnd - downSince.value);
      }
      return 0;
    }
    var sorted := StableSort.Sort(events, NoLater);
    for i := 0 to |sorted|
      invariant Scan(total, downSince) == ScanAll(OpenScan(start, continuing), sorted[..i])
    {
      assert sorted[..i + 1][..i] == sorted[..i];
      if IsOutage(sorted[i].outcome) {
        if downSince.None? {
          downSince := Some(sorted[i].at);
        }
        continue;
      }
      if downSince.Some? {
        total := total + WholeSeconds(sorted[i].at - downSince.value);
        downSince := None;
      }
    }
    assert sorted[..|sorted|] == sorted;
    if downSince.Some? {
      total := total + WholeSeconds(periodEnd - downSince.value);
    }
  }

  // ---------- reference: what it means to be down at a moment ----------

  ghost predicate IsLatest(e: Event, events: seq<Event>, t: int) {
    e in events && e.at <= t && forall f <- events :: f.at <= t ==> f.at <= e.at
  }

  /** The latest check at or before `t` was neither up nor degraded; without one, the outage from before continues. */
  ghost predicate IsDown(events: seq<Event>, continuing: bool, t: int) {
    || (exists e :: IsLatest(e, events, t) && e.outcome != Up && e.outcome != Degraded)
    || (continuing && forall e <- events :: e.at > t)
  }

  /** Number of microseconds in [from, to) at which the component is down. */
  ghost function DownTicks(events: seq<Event>, continuing: bool, from: int, until: int): nat
    decreases until - from
  {
    if until <= from then 0
    else DownTicks(events, continuing, from, until - 1) + if IsDown(events, continuing, until - 1) then 1 else 0
  }

  /** Number of whole seconds in [from, to), counted in seconds, at whose start the component is down. */
  ghost function DownSeconds(events: seq<Event>, continuing: bool, from: int, until: int): nat
    decreases until - from
  {
    if until <= from then 0
    else DownSeconds(events, continuing, from, until - 1) + if IsDown(events, continuing, (until - 1) * 1_000_000) then 1 else 0
  }

  ghost predicate Distinct(events: seq<Event>) {
    StableSort.DistinctBy(events, At)
  }

  function At(event: Event): int { event.at }

  ghost predicate StrictlySorted(events: seq<Event>) {
    forall i, j :: 0 <= i < j < |events| ==> events[i].at < events[j].at
  }

  ghost predicate Within(events: seq<Event>, from: int, until: int) {
    forall e <- events :: from <= e.at <= until
  }

  ghost predicate Aligned(events: seq<Event>) {
    forall e <- events :: e.at % 1_000_000 == 0
  }

  lemma {:induction false} TicksSplit(events: seq<Event>, continuing: bool, from: int, mid: int, until: int)
    requires from <= mid <= until
    ensures DownTicks(events, continuing, from, until) == DownTicks(events, continuing, from, mid) + DownTicks(events, continuing, mid, until)
    decreases until - mid
  {
    if mid < until {
      TicksSplit(events, continuing, from, mid, until - 1);
    }
  }

  lemma {:induction false} TicksAgree(a: seq<Event>, ca: bool, b: seq<Event>, cb: bool, from: int, until: int)
    requires forall t :: from <= t < until ==> IsDown(a, ca, t) == IsDown(b, cb, t)
    ensures DownTicks(a, ca, from, until) == DownTicks(b, cb, from, until)
    decreases until - from
  {
    if from < until {
      TicksAgree(a, ca, b, cb, from, until - 1);
    }
  }

  lemma {:induction false} TicksConstant(events: seq<Event>, continuing: bool, from: int, until: int, down: bool)
    requires from <= until && forall t :: from <= t < until ==> IsDown(events, continuing, t) == down
    ensures DownTicks(events, continuing, from, until) == if down then until - from else 0
    decreases until - from
  {
    if from < until {
      TicksConstant(events, continuing, from, until - 1, down);
    }
  }

  // ---------- the scan in exact microseconds ----------

  ghost predicate DownAfter(sorted: seq<Event>, continuing: bool) {
    if sorted == [] then continuing else IsOutage(sorted[|sorted| - 1].outcome)
  }

  /** Number of separate outages in a sorted list of events. */
  ghost function Episodes(sorted: seq<Event>, continuing: bool): nat {
    if sorted == [] then (if continuing then 1 else 0)
    else
      var front, last := sorted[..|sorted| - 1], sorted[|sorted| - 1];
      Episodes(front, continuing) + if IsOutage(last.outcome) && !DownAfter(front, continuing) then 1 else 0
  }

  /** Exact microseconds of the outages the scan has closed. */
  ghost function ClosedTicks(start: int, continuing: bool, sorted: seq<Event>): int {
    if sorted == [] then 0
    else
      var front, last := sorted[..|sorted| - 1], sorted[|sorted| - 1];
      var before := ScanAll(OpenScan(start, continuing), front);
      ClosedTicks(start, continuing, front)
      + if !IsOutage(last.outcome) && before.downSince.Some? then last.at - before.downSince.value else 0
  }

  ghost function AllTicks(start: int, continuing: bool, sorted: seq<Event>, until: int): int {
    var scan := ScanAll(OpenScan(start, continuing), sorted);
    ClosedTicks(start, continuing, sorted) + if scan.downSince.Some? then until - scan.downSince.value else 0
  }

  lemma LastEventDecides(sorted: seq<Event>, continuing: bool, t: int)
    requires sorted != [] && StrictlySorted(sorted)
    ensures var n := |sorted| - 1;
            if t >= sorted[n].at then IsDown(sorted, continuing, t) == IsOutage(sorted[n].outcome)
            else IsDown(sorted, continuing, t) == IsDown(sorted[..n], continuing, t)
  {}

  /** From the last event on the component stays as that event says; before it nothing changes. */
  lemma TicksWithLast(sorted: seq<Event>, continuing: bool, start: int, until: int)
    requires sorted != [] && StrictlySorted(sorted) && start <= sorted[|sorted| - 1].at <= until
    ensures var n := |sorted| - 1;
            DownTicks(sorted, continuing, start, until)
            == DownTicks(sorted[..n], continuing, start, sorted[n].at) + if IsOutage(sorted[n].outcome) then until - sorted[n].at else 0
  {
    var n := |sorted| - 1;
    var front, last := sorted[..n], sorted[n];
    TicksSplit(sorted, continuing, start, last.at, until);
    forall t ensures t >= last.at ==> IsDown(sorted, continuing, t) == IsOutage(last.outcome)
             ensures t < last.at ==> IsDown(sorted, continuing, t) == IsDown(front, continuing, t)
    {
      LastEventDecides(sorted, continuing, t);
    }
    TicksAgree(sorted, continuing, front, continuing, start, last.at);
    TicksConstant(sorted, continuing, last.at, until, IsOutage(last.outcome));
  }

  /** The outages found by the scan cover exactly the microseconds at which the component is down. */
  lemma {:induction false} ScanMeasuresDowntime(sorted: seq<Event>, continuing: bool, start: int, until: int)
    requires StrictlySorted(sorted) && Within(sorted, start, until) && start <= until
    ensures AllTicks(start, continuing, sorted, until) == DownTicks(sorted, continuing, start, until)
    ensures ScanAll(OpenScan(start, continuing), sorted).downSince.Some? == DownAfter(sorted, continuing)
  {
    if sorted == [] {
      TicksConstant(sorted, continuing, start, until, continuing);
    } else {
      var n := |sorted| - 1;
      assert sorted[n] in sorted;
      ScanMeasuresDowntime(sorted[..n], continuing, start, sorted[n].at);
      TicksWithLast(sorted, continuing, start, until);
    }
  }

  lemma WholeSecondsLoss(duration: int)
    requires duration >= 0
    ensures SECOND * WholeSeconds(duration) <= duration <= SECOND * WholeSeconds(duration) + SECOND - 1
    ensures duration % SECOND == 0 ==> duration == SECOND * WholeSeconds(duration)
  {}

  lemma {:induction false} OpenOutage(sorted: seq<Event>, continuing: bool, start: int, until: int)
    requires StrictlySorted(sorted) && Within(sorted, start, until) && start <= until
    ensures var scan := ScanAll(OpenScan(start, continuing), sorted);
            && scan.downSince.Some? == DownAfter(sorted, continuing)
            && (scan.downSince.Some? ==> start <= scan.downSince.value <= until)
            && (scan.downSince.Some? && Aligned(sorted) && start % SECOND == 0 ==> scan.downSince.value % SECOND == 0)
  {
    if sorted != [] {
      var n := |sorted| - 1;
      OpenOutage(sorted[..n], continuing, start, sorted[n].at);
      assert Aligned(sorted) ==> Aligned(sorted[..n]) && sorted[n].at % SECOND == 0;
    }
  }

  /** Outages that have ended, for a scan that is or is not inside one. */
  ghost function Ended(sorted: seq<Event>, continuing: bool): int {
    Episodes(sorted, continuing) - if DownAfter(sorted, continuing) then 1 else 0
  }

  lemma EndedStep(sorted: seq<Event>, continuing: bool)
    requires sorted != []
    ensures var front, last := sorted[..|sorted| - 1], sorted[|sorted| - 1];
            Ended(sorted, continuing) == Ended(front, continuing) + if !IsOutage(last.outcome) && DownAfter(front, continuing) then 1 else 0
  {}

  lemma LossStep(total: nat, closed: int, ended: int, duration: int)
    requires SECOND * total <= closed <= SECOND * total + (SECOND - 1) * ended && duration >= 0
    ensures SECOND * (total + WholeSeconds(duration)) <= closed + duration
            <= SECOND * (total + WholeSeconds(duration)) + (SECOND - 1) * (ended + 1)
  {}

  lemma ScanUnfolds(sorted: seq<Event>, continuing: bool, start: int)
    requires sorted != []
    ensures var front, last := sorted[..|sorted| - 1], sorted[|sorted| - 1];
            var before, after := ScanAll(OpenScan(start, continuing), front), ScanAll(OpenScan(start, continuing), sorted);
            var closes := !IsOutage(last.outcome) && before.downSince.Some?;
            var duration := if closes then last.at - before.downSince.value else 0;
            && after.total == before.total + WholeSeconds(duration)
            && ClosedTicks(start, continuing, sorted) == ClosedTicks(start, continuing, front) + duration
  {}

  /** What the closed outages lose by truncation: less than a second each. */
  lemma {:induction false} ClosedLoss(sorted: seq<Event>, continuing: bool, start: int, until: int)
    requires StrictlySorted(sorted) && Within(sorted, start, until) && start <= until
    ensures var scan, closed := ScanAll(OpenScan(start, continuing), sorted), ClosedTicks(start, continuing, sorted);
            SECOND * scan.total <= closed <= SECOND * scan.total + (SECOND - 1) * Ended(sorted, continuing)
  {
    if sorted != [] {
      var n := |sorted| - 1;
      var front, last := sorted[..n], sorted[n];
      ClosedLoss(front, continuing, start, last.at);
      OpenOutage(front, continuing, start, last.at);
      EndedStep(sorted, continuing);
      ScanUnfolds(sorted, continuing, start);
      var before, closed := ScanAll(OpenScan(start, continuing), front), ClosedTicks(start, continuing, front);
      if !IsOutage(last.outcome) && before.downSince.Some? {
        LossStep(before.total, closed, Ended(front, continuing), last.at - before.downSince.value);
      }
    }
  }

  lemma AlignedDifference(a: int, b: int)
    requires a % SECOND == 0 && b % SECOND == 0 && b <= a
    ensures a - b == SECOND * WholeSeconds(a - b)
  {}

  /** On whole seconds the closed outages lose nothing. */
  lemma {:induction false} ClosedExactly(sorted: seq<Event>, continuing: bool, start: int, until: int)
    requires StrictlySorted(sorted) && Within(sorted, start, until) && start <= until
    requires Aligned(sorted) && start % SECOND == 0
    ensures ClosedTicks(start, continuing, sorted) == SECOND * ScanAll(OpenScan(start, continuing), sorted).total
  {
    if sorted != [] {
      var n := |sorted| - 1;
      var front, last := sorted[..n], sorted[n];
      assert Aligned(front) && last in sorted;
      ClosedExactly(front, continuing, start, last.at);
      OpenOutage(front, continuing, start, last.at);
      ScanUnfolds(sorted, continuing, start);
      var before := ScanAll(OpenScan(start, continuing), front);
      if !IsOutage(last.outcome) && before.downSince.Some? {
        AlignedDifference(last.at, before.downSince.value);
      }
    }
  }

  /** Truncation loses less than one second for each separate outage, and only a final fraction on whole seconds. */
  lemma TruncationLoss(sorted: seq<Event>, continuing: bool, start: int, until: int)
    requires StrictlySorted(sorted) && Within(sorted, start, until) && start <= until
    ensures var exact, total := AllTicks(start, continuing, sorted, until),
                                CloseScan(ScanAll(OpenScan(start, continuing), sorted), until);
            && SECOND * total <= exact <= SECOND * total + (SECOND - 1) * Episodes(sorted, continuing)
            && (Aligned(sorted) && start % SECOND == 0 ==> total == exact / SECOND)
  {
    ClosedLoss(sorted, continuing, start, until);
    if Aligned(sorted) && start % SECOND == 0 {
      ClosedExactly(sorted, continuing, start, until);
    }
    OpenOutage(sorted, continuing, start, until);
    var scan := ScanAll(OpenScan(start, continuing), sorted);
    if scan.downSince.Some? {
      WholeSecondsLoss(until - scan.downSince.value);
    }
  }

  // ---------- any input order ----------

  lemma SortedEvents(events: seq<Event>)
    requires Distinct(events)
    ensures var sorted := StableSort.Sort(events, NoLater);
            && StrictlySorted(sorted)
            && forall e :: e in sorted <==> e in events
  {
    var sorted := StableSort.Sort(events, NoLater);
    StableSort.SortPermutes(events, NoLater);
    StableSort.SortKeepsDistinct(events, NoLater, At);
    assert StableSort.TotalPreorder(NoLater);
    StableSort.SortSorts(events, NoLater);
    forall i, j | 0 <= i < j < |sorted| ensures sorted[i].at < sorted[j].at {
      assert NoLater(sorted[i], sorted[j]) && At(sorted[i]) != At(sorted[j]);
    }
  }

  lemma SameMembersSameState(a: seq<Event>, b: seq<Event>, continuing: bool, t: int)
    requires forall e :: e in a <==> e in b
    ensures IsDown(a, continuing, t) == IsDown(b, continuing, t)
  {}

  lemma {:induction false} TicksFromSeconds(events: seq<Event>, continuing: bool, from: int, until: int)
    requires Aligned(events) && from <= until
    ensures DownTicks(events, continuing, from * SECOND, until * SECOND) == SECOND * DownSeconds(events, continuing, from, until)
    decreases until - from
  {
    if from < until {
      var s := (until - 1) * SECOND;
      TicksFromSeconds(events, continuing, from, until - 1);
      TicksSplit(events, continuing, from * SECOND, s, until * SECOND);
      forall t | s <= t < until * SECOND ensures IsDown(events, continuing, t) == IsDown(events, continuing, s) {
        forall e <- events ensures e.at <= t <==> e.at <= s {
          AlignedBefore(e.at, until - 1, t);
        }
        forall e ensures IsLatest(e, events, t) <==> IsLatest(e, events, s) {}
      }
      TicksConstant(events, continuing, s, until * SECOND, IsDown(events, continuing, s));
    }
  }

  lemma AlignedBefore(at: int, second: int, t: int)
    requires at % SECOND == 0 && second * SECOND <= t < (second + 1) * SECOND
    ensures at <= t <==> at <= second * SECOND
  {}

  /** The events a period query returns: inside the period, not in the future, no two at the same moment. */
  ghost predicate InPeriod(events: seq<Event>, start: int, end: int, now: int) {
    && start <= end
    && Distinct(events)
    && forall e <- events :: start <= e.at < end && e.at <= now
  }

  /** The scan of the sorted events measures the downtime of the events as given. */
  lemma ScanMeasuresEvents(events: seq<Event>, start: int, end: int, now: int, continuing: bool)
    requires InPeriod(events, start, end, now) && start <= Min(end, now)
    ensures var sorted, until := StableSort.Sort(events, NoLater), Min(end, now);
            && StrictlySorted(sorted) && Within(sorted, start, until) && (Aligned(events) ==> Aligned(sorted))
            && AllTicks(start, continuing, sorted, until) == DownTicks(events, continuing, start, until)
  {
    SortedEvents(events);
    var sorted, until := StableSort.Sort(events, NoLater), Min(end, now);
    ScanMeasuresDowntime(sorted, continuing, start, until);
    forall t ensures IsDown(sorted, continuing, t) == IsDown(events, continuing, t) {
      SameMembersSameState(sorted, events, continuing, t);
    }
    TicksAgree(sorted, continuing, events, continuing, start, until);
  }

  lemma NothingBeforeStart(events: seq<Event>, start: int, end: int, now: int, continuing: bool)
    requires InPeriod(events, start, end, now) && now < start
    ensures DowntimeSeconds(events, start, end, now, continuing) == 0
  {}

  /** For any timestamps the result is below the true downtime, by less than one second for each outage. */
  lemma DowntimeWithinTruncation(events: seq<Event>, start: int, end: int, now: int, continuing: bool)
    requires InPeriod(events, start, end, now)
    ensures var exact := DownTicks(events, continuing, start, Min(end, now));
            var total := DowntimeSeconds(events, start, end, now, continuing);
            SECOND * total <= exact <= SECOND * total + (SECOND - 1) * Episodes(StableSort.Sort(events, NoLater), continuing)
  {
    if start <= Min(end, now) {
      ScanMeasuresEvents(events, start, end, now, continuing);
      TruncationLoss(StableSort.Sort(events, NoLater), continuing, start, Min(end, now));
    } else {
      NothingBeforeStart(events, start, end, now, continuing);
    }
  }

  /** On whole-second timestamps the result is the number of seconds, up to the period's end or now, spent in an outage. */
  lemma DowntimeCountsSeconds(events: seq<Event>, start: int, end: int, now: int, continuing: bool)
    requires InPeriod(events, start, end, now)
    requires Aligned(events) && start % SECOND == 0
    ensures DowntimeSeconds(events, start, end, now, continuing)
            == DownSeconds(events, continuing, start / SECOND, Min(end, now) / SECOND)
  {
    if start <= Min(end, now) {
      ScanMeasuresEvents(events, start, end, now, continuing);
      TruncationLoss(StableSort.Sort(events, NoLater), continuing, start, Min(end, now));
      WholeSecondsOfTicks(events, continuing, start, Min(end, now));
    } else {
      NothingBeforeStart(events, start, end, now, continuing);
    }
  }

  lemma WholeSecondsOfTicks(events: seq<Event>, continuing: bool, start: int, until: int)
    requires Aligned(events) && start % SECOND == 0 && start <= until
    ensures DownTicks(events, continuing, start, until) / SECOND == DownSeconds(events, continuing, start / SECOND, until / SECOND)
  {
    var first, last := start / SECOND, until / SECOND;
    TicksSplit(events, continuing, start, last * SECOND, until);
    TicksFromSeconds(events, continuing, first, last);
    TicksBounded(events, continuing, last * SECOND, until);
    assert start == first * SECOND;
  }

  lemma {:induction false} TicksBounded(events: seq<Event>, continuing: bool, from: int, until: int)
    requires from <= until
    ensures DownTicks(events, continuing, from, until) <= until - from
    decreases until - from
  {
    if from < until {
      TicksBounded(events, continuing, from, until - 1);
    }
  }
}

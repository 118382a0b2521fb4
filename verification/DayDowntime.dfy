/** Downtime per component and day, each day seeded by how the previous one ended. */
module DayDowntime {
  import opened Numbers
  import opened Options
  import opened Uptime
  import StableSort

  /** A component id and a day counted from the epoch. */
  type DayKey = (int, int)

  function DayStart(day: int): int { day * DAY }

  /** The outcome of the latest event; the first one of equally late events. */
  function LatestOutcome(events: seq<Event>): Event
    requires events != []
  {
    if |events| == 1 then events[0]
    else
      var best, last := LatestOutcome(events[..|events| - 1]), events[|events| - 1];
      if last.at > best.at then last else best
  }

  function OutcomeAtEndOfPreviousDay(key: DayKey, rangeStart: int, preRange: map<int, Outcome>,
                                     eventsByKey: map<DayKey, seq<Event>>): Option<Outcome> {
    var previous := (key.0, key.1 - 1);
    if previous in eventsByKey && eventsByKey[previous] != [] then Some(LatestOutcome(eventsByKey[previous]).outcome)
    else if key.1 == rangeStart && key.0 in preRange then Some(preRange[key.0])
    else None
  }

  predicate Continuing(key: DayKey, rangeStart: int, preRange: map<int, Outcome>, eventsByKey: map<DayKey, seq<Event>>) {
    var previous := OutcomeAtEndOfPreviousDay(key, rangeStart, preRange, eventsByKey);
    previous.Some? && IsOutage(previous.value)
  }

  /** Downtime of one day's events. */
  function DaySeconds(events: seq<Event>, day: int, now: int, continuing: bool): nat {
    DowntimeSeconds(events, DayStart(day), DayStart(day + 1), now, continuing)
  }

  method DayDowntimes(eventsByKey: map<DayKey, seq<Event>>, rangeStart: int, preRange: map<int, Outcome>, now: int)
    returns (downtimes: map<DayKey, nat>)
    ensures downtimes.Keys == eventsByKey.Keys
    ensures forall key :: key in downtimes ==>
              downtimes[key] == KeyDowntime(key, eventsByKey, rangeStart, preRange, now)
  {
    downtimes := map[];
    var keys := eventsByKey.Keys;
    while keys != {}
      invariant keys <= eventsByKey.Keys && downtimes.Keys == eventsByKey.Keys - keys
      invariant forall key :: key in downtimes ==>
                  downtimes[key] == KeyDowntime(key, eventsByKey, rangeStart, preRange, now)
      decreases keys
    {
      var key :| key in keys;
      var seconds := ComputeDowntimeSeconds(eventsByKey[key], DayStart(key.1), DayStart(key.1 + 1), now,
                                            Continuing(key, rangeStart, preRange, eventsByKey));
      downtimes := downtimes[key := seconds];
      keys := keys - {key};
    }
  }

  // ---------- stitching days together ----------

  function Concat(days: seq<seq<Event>>): seq<Event> {
    if days == [] then [] else Concat(days[..|days| - 1]) + days[|days| - 1]
  }

  /** The outage flag with which day `i` of the range is computed: a day without checks before it clears the flag. */
  predicate ContinuingInto(days: seq<seq<Event>>, i: nat, before: bool)
    requires i <= |days|
  {
    if i == 0 then before else days[i - 1] != [] && IsOutage(LatestOutcome(days[i - 1]).outcome)
  }

  /** `part` is what is computed for day `i`: nothing without checks, else its downtime seeded by the day before it. */
  ghost predicate IsPart(part: int, days: seq<seq<Event>>, i: nat, firstDay: int, now: int, before: bool)
    requires i < |days|
  {
    part == if days[i] == [] then 0 else DaySeconds(days[i], firstDay + i, now, ContinuingInto(days, i, before))
  }

  /** Consecutive days, some of them without checks; the others hold checks of that day, not in the future, at distinct whole seconds. */
  ghost predicate IsRange(days: seq<seq<Event>>, firstDay: int, now: int) {
    forall i :: 0 <= i < |days| ==>
      Aligned(days[i]) && InPeriod(days[i], DayStart(firstDay + i), DayStart(firstDay + i + 1), now)
  }

  /** Whether the component really is down when day `i` begins, by the checks of the days before it. */
  ghost predicate DownInto(days: seq<seq<Event>>, i: nat, before: bool, firstDay: int)
    requires i <= |days|
  {
    IsDown(Concat(days[..i]), before, DayStart(firstDay + i))
  }

  /** Day `i` has no checks, counts at least one second, and begins in an outage. */
  ghost predicate IsForgotten(days: seq<seq<Event>>, i: nat, before: bool, firstDay: int, now: int)
    requires i < |days|
  {
    days[i] == [] && DayStart(firstDay + i) + SECOND <= now && IsDown(Concat(days), before, DayStart(firstDay + i))
  }

  lemma {:induction false} LatestIsLatest(events: seq<Event>, t: int)
    requires events != [] && forall e <- events :: e.at <= t
    ensures IsLatest(LatestOutcome(events), events, t)
  {
    if |events| > 1 {
      var n := |events| - 1;
      assert events == events[..n] + [events[n]];
      LatestIsLatest(events[..n], t);
    }
  }

  lemma {:induction false} ConcatFacts(days: seq<seq<Event>>, firstDay: int, now: int)
    requires IsRange(days, firstDay, now)
    ensures Aligned(Concat(days))
    ensures InPeriod(Concat(days), DayStart(firstDay), DayStart(firstDay + |days|), now)
  {
    if days != [] {
      var n := |days| - 1;
      ConcatFacts(days[..n], firstDay, now);
      var front, last := Concat(days[..n]), days[n];
      forall e: Event | e in front + last ensures DayStart(firstDay) <= e.at < DayStart(firstDay + |days|) && e.at <= now {
        assert e in front || e in last;
      }
      DistinctAppend(front, last, DayStart(firstDay + n));
    }
  }

  lemma DistinctAppend(a: seq<Event>, b: seq<Event>, boundary: int)
    requires Distinct(a) && Distinct(b)
    requires (forall e <- a :: e.at < boundary) && (forall e <- b :: boundary <= e.at)
    ensures Distinct(a + b)
  {}

  lemma BeforeBoundary(front: seq<Event>, last: seq<Event>, continuing: bool, boundary: int, t: int)
    requires (forall e <- last :: boundary <= e.at) && t < boundary
    ensures IsDown(front + last, continuing, t) == IsDown(front, continuing, t)
  {}

  lemma AfterBoundary(front: seq<Event>, last: seq<Event>, continuing: bool, flag: bool, boundary: int, t: int)
    requires (forall e <- front :: e.at < boundary) && (forall e <- last :: boundary <= e.at)
    requires exists e :: e in last && e.at <= t
    ensures IsDown(front + last, continuing, t) == IsDown(last, flag, t)
  {}

  lemma BetweenBoundaryAndChecks(front: seq<Event>, last: seq<Event>, continuing: bool, t: int)
    requires forall e <- last :: e.at > t
    ensures IsDown(front + last, continuing, t) == IsDown(front, continuing, t)
  {}

  /** After the last check nothing changes any more. */
  lemma StateSettles(events: seq<Event>, continuing: bool, boundary: int, t: int)
    requires (forall e <- events :: e.at < boundary) && boundary <= t
    ensures IsDown(events, continuing, t) == IsDown(events, continuing, boundary)
  {
    forall e ensures IsLatest(e, events, t) <==> IsLatest(e, events, boundary) {}
  }

  lemma FrontIsRange(days: seq<seq<Event>>, i: nat, firstDay: int, now: int)
    requires IsRange(days, firstDay, now) && i <= |days|
    ensures IsRange(days[..i], firstDay, now)
  {}

  /** Inside the last day the whole range is down exactly when that day, seeded by the true state at its start, is. */
  lemma {:induction false} LastDayDecides(days: seq<seq<Event>>, firstDay: int, now: int, before: bool, t: int)
    requires days != [] && IsRange(days, firstDay, now)
    ensures var n := |days| - 1;
            if t < DayStart(firstDay + n) then IsDown(Concat(days), before, t) == IsDown(Concat(days[..n]), before, t)
            else IsDown(Concat(days), before, t) == IsDown(days[n], DownInto(days, n, before, firstDay), t)
  {
    var n := |days| - 1;
    var front, last, boundary := Concat(days[..n]), days[n], DayStart(firstDay + n);
    ConcatFacts(days[..n], firstDay, now);
    if t < boundary {
      BeforeBoundary(front, last, before, boundary, t);
    } else if exists e :: e in last && e.at <= t {
      AfterBoundary(front, last, before, DownInto(days, n, before, firstDay), boundary, t);
    } else {
      BetweenBoundaryAndChecks(front, last, before, t);
      StateSettles(front, before, boundary, t);
    }
  }

  /** Later days change nothing before they begin. */
  lemma {:induction false} LaterDaysIrrelevant(days: seq<seq<Event>>, i: nat, firstDay: int, now: int, before: bool, t: int)
    requires IsRange(days, firstDay, now) && i <= |days| && t < DayStart(firstDay + i)
    ensures IsDown(Concat(days), before, t) == IsDown(Concat(days[..i]), before, t)
  {
    if i < |days| {
      LastDayDecides(days, firstDay, now, before, t);
      FrontIsRange(days, |days| - 1, firstDay, now);
      assert days[..|days| - 1][..i] == days[..i];
      LaterDaysIrrelevant(days[..|days| - 1], i, firstDay, now, before, t);
    } else {
      assert days[..i] == days;
    }
  }

  /** On a day without checks the state at its start is the state of the whole range there. */
  lemma EmptyDayState(days: seq<seq<Event>>, i: nat, firstDay: int, now: int, before: bool)
    requires IsRange(days, firstDay, now) && i < |days| && days[i] == []
    ensures DownInto(days, i, before, firstDay) == IsDown(Concat(days), before, DayStart(firstDay + i))
    ensures DownInto(days, i + 1, before, firstDay) == DownInto(days, i, before, firstDay)
  {
    assert days[..i + 1][..i] == days[..i];
    assert Concat(days[..i + 1]) == Concat(days[..i]);
    LaterDaysIrrelevant(days, i + 1, firstDay, now, before, DayStart(firstDay + i));
    FrontIsRange(days, i, firstDay, now);
    ConcatFacts(days[..i], firstDay, now);
    StateSettles(Concat(days[..i]), before, DayStart(firstDay + i), DayStart(firstDay + i + 1));
  }

  /** A day with checks leaves its last outcome as the state at the start of the next day. */
  lemma {:induction false} LatestDecides(days: seq<seq<Event>>, i: nat, firstDay: int, now: int, before: bool)
    requires IsRange(days, firstDay, now) && i < |days| && days[i] != []
    ensures DownInto(days, i + 1, before, firstDay) == IsOutage(LatestOutcome(days[i]).outcome)
  {
    var t, all, best := DayStart(firstDay + i + 1), Concat(days[..i + 1]), LatestOutcome(days[i]);
    FrontIsRange(days, i, firstDay, now);
    FrontIsRange(days, i + 1, firstDay, now);
    assert days[..i + 1][..i] == days[..i];
    assert all == Concat(days[..i]) + days[i];
    ConcatFacts(days[..i], firstDay, now);
    ConcatFacts(days[..i + 1], firstDay, now);
    LatestIsLatest(days[i], t);
    assert IsLatest(best, all, t);
    forall e | IsLatest(e, all, t) ensures e == best {
      SameMoment(all, e, best);
    }
  }

  lemma SameMoment(events: seq<Event>, a: Event, b: Event)
    requires Distinct(events) && a in events && b in events && a.at == b.at
    ensures a == b
  {
    var i :| 0 <= i < |events| && events[i] == a;
    var j :| 0 <= j < |events| && events[j] == b;
    assert i != j ==> At(events[i]) != At(events[j]);
  }

  /** The flag used for a day is set only if the component really is down then; it is lost only after a day without checks. */
  lemma FlagAgainstState(days: seq<seq<Event>>, i: nat, firstDay: int, now: int, before: bool)
    requires IsRange(days, firstDay, now) && i <= |days|
    ensures ContinuingInto(days, i, before) ==> DownInto(days, i, before, firstDay)
    ensures i == 0 || days[i - 1] != [] ==> ContinuingInto(days, i, before) == DownInto(days, i, before, firstDay)
  {
    if i > 0 && days[i - 1] != [] {
      LatestDecides(days, i - 1, firstDay, now, before);
    }
  }

  lemma {:induction false} SecondsSplit(events: seq<Event>, continuing: bool, from: int, mid: int, until: int)
    requires from <= mid <= until
    ensures DownSeconds(events, continuing, from, until)
            == DownSeconds(events, continuing, from, mid) + DownSeconds(events, continuing, mid, until)
    decreases until - mid
  {
    if mid < until {
      SecondsSplit(events, continuing, from, mid, until - 1);
    }
  }

  lemma {:induction false} SecondsAgree(a: seq<Event>, ca: bool, b: seq<Event>, cb: bool, from: int, until: int)
    requires forall s :: from <= s < until ==> IsDown(a, ca, s * SECOND) == IsDown(b, cb, s * SECOND)
    ensures DownSeconds(a, ca, from, until) == DownSeconds(b, cb, from, until)
    decreases until - from
  {
    if from < until {
      SecondsAgree(a, ca, b, cb, from, until - 1);
    }
  }

  const DAY_SECONDS := 86_400

  lemma DaysInSeconds(day: int)
    ensures DayStart(day) / SECOND == day * DAY_SECONDS && DayStart(day) % SECOND == 0
  {}

  /** The second at which counting stops when day `day` begins, or now if that is earlier. */
  ghost function EndSecond(day: int, now: int): int {
    Min(DayStart(day), now) / SECOND
  }

  lemma EndSeconds(day: int, now: int)
    ensures EndSecond(day, now) == Min(day * DAY_SECONDS, now / SECOND) <= EndSecond(day + 1, now)
    ensures EndSecond(day, now) < EndSecond(day + 1, now) <==> DayStart(day) + SECOND <= now
    ensures DayStart(day) <= now ==> EndSecond(day, now) == day * DAY_SECONDS
    ensures DayStart(day + 1) <= now ==> EndSecond(day, now) < EndSecond(day + 1, now)
  {}

  lemma {:induction false} SecondsInOrder(events: seq<Event>, low: bool, high: bool, from: int, until: int)
    requires low ==> high
    ensures DownSeconds(events, low, from, until) <= DownSeconds(events, high, from, until)
    decreases until - from
  {
    if from < until {
      SecondsInOrder(events, low, high, from, until - 1);
    }
  }

  lemma {:induction false} SecondsWithoutChecks(continuing: bool, from: int, until: int)
    requires from <= until
    ensures DownSeconds([], continuing, from, until) == if continuing then until - from else 0
    decreases until - from
  {
    if from < until {
      SecondsWithoutChecks(continuing, from, until - 1);
    }
  }

  /** What day `i` really counts. */
  ghost function TrueSeconds(days: seq<seq<Event>>, i: nat, firstDay: int, now: int, before: bool): nat
    requires i < |days|
  {
    DownSeconds(days[i], DownInto(days, i, before, firstDay), EndSecond(firstDay + i, now), EndSecond(firstDay + i + 1, now))
  }

  ghost function TrueParts(days: seq<seq<Event>>, firstDay: int, now: int, before: bool): seq<int> {
    seq(|days|, i requires 0 <= i < |days| => TrueSeconds(days, i, firstDay, now, before))
  }

  lemma FrontSeconds(days: seq<seq<Event>>, n: nat, firstDay: int, now: int, before: bool, from: int, mid: int)
    requires |days| == n + 1 && IsRange(days, firstDay, now) && mid * SECOND <= DayStart(firstDay + n)
    ensures DownSeconds(Concat(days), before, from, mid) == DownSeconds(Concat(days[..n]), before, from, mid)
  {
    forall s | from <= s < mid ensures IsDown(Concat(days), before, s * SECOND) == IsDown(Concat(days[..n]), before, s * SECOND) {
      LastDayDecides(days, firstDay, now, before, s * SECOND);
    }
    SecondsAgree(Concat(days), before, Concat(days[..n]), before, from, mid);
  }

  lemma LastSeconds(days: seq<seq<Event>>, n: nat, firstDay: int, now: int, before: bool, mid: int, until: int)
    requires |days| == n + 1 && IsRange(days, firstDay, now) && (mid < until ==> DayStart(firstDay + n) <= mid * SECOND)
    ensures DownSeconds(Concat(days), before, mid, until) == DownSeconds(days[n], DownInto(days, n, before, firstDay), mid, until)
  {
    var state := DownInto(days, n, before, firstDay);
    forall s | mid <= s < until ensures IsDown(Concat(days), before, s * SECOND) == IsDown(days[n], state, s * SECOND) {
      LastDayDecides(days, firstDay, now, before, s * SECOND);
    }
    SecondsAgree(Concat(days), before, days[n], state, mid, until);
  }

  /** One pass over the range is one pass over all days but the last, plus the last day with the true state at its start. */
  lemma LastDaySplitsOff(days: seq<seq<Event>>, n: nat, firstDay: int, now: int, before: bool)
    requires |days| == n + 1 && IsRange(days, firstDay, now)
    ensures var first, mid, until := EndSecond(firstDay, now), EndSecond(firstDay + n, now), EndSecond(firstDay + n + 1, now);
            DownSeconds(Concat(days), before, first, until)
            == DownSeconds(Concat(days[..n]), before, first, mid) + TrueSeconds(days, n, firstDay, now, before)
  {
    var first, mid, until := EndSecond(firstDay, now), EndSecond(firstDay + n, now), EndSecond(firstDay + n + 1, now);
    EndSeconds(firstDay, now);
    EndSeconds(firstDay + n, now);
    SecondsSplit(Concat(days), before, first, mid, until);
    FrontSeconds(days, n, firstDay, now, before, first, mid);
    LastSeconds(days, n, firstDay, now, before, mid, until);
  }

  lemma TruePrefix(days: seq<seq<Event>>, n: nat, firstDay: int, now: int, before: bool)
    requires n < |days|
    ensures TrueSeconds(days[..n + 1], n, firstDay, now, before) == TrueSeconds(days, n, firstDay, now, before)
  {
    assert days[..n + 1][..n] == days[..n];
  }

  lemma {:induction false} TrueSecondsAddUp(days: seq<seq<Event>>, size: nat, firstDay: int, now: int, before: bool)
    requires IsRange(days, firstDay, now) && size <= |days|
    ensures DownSeconds(Concat(days[..size]), before, EndSecond(firstDay, now), EndSecond(firstDay + size, now))
            == Sum(TrueParts(days, firstDay, now, before)[..size])
  {
    if size > 0 {
      var n, parts := size - 1, TrueParts(days, firstDay, now, before);
      FrontIsRange(days, size, firstDay, now);
      LastDaySplitsOff(days[..size], n, firstDay, now, before);
      TruePrefix(days, n, firstDay, now, before);
      TrueSecondsAddUp(days, n, firstDay, now, before);
      assert days[..size][..n] == days[..n];
      assert parts[..size][..n] == parts[..n];
    }
  }

  lemma CountFromStart(events: seq<Event>, firstDay: int, count: nat, now: int, before: bool)
    ensures DownSeconds(events, before, DayStart(firstDay) / SECOND, EndSecond(firstDay + count, now))
            == DownSeconds(events, before, EndSecond(firstDay, now), EndSecond(firstDay + count, now))
  {
    DaysInSeconds(firstDay);
    EndSeconds(firstDay, now);
    if now < DayStart(firstDay) {
      assert EndSecond(firstDay + count, now) == EndSecond(firstDay, now) <= firstDay * DAY_SECONDS;
    }
  }

  lemma AllSeconds(days: seq<seq<Event>>, firstDay: int, now: int, before: bool)
    requires IsRange(days, firstDay, now)
    ensures DownSeconds(Concat(days), before, DayStart(firstDay) / SECOND, EndSecond(firstDay + |days|, now))
            == Sum(TrueParts(days, firstDay, now, before))
  {
    var parts := TrueParts(days, firstDay, now, before);
    CountFromStart(Concat(days), firstDay, |days|, now, before);
    assert days[..|days|] == days && parts[..|days|] == parts;
    TrueSecondsAddUp(days, |days|, firstDay, now, before);
  }

  lemma OnePassInSeconds(days: seq<seq<Event>>, firstDay: int, now: int, before: bool)
    requires IsRange(days, firstDay, now)
    ensures DowntimeSeconds(Concat(days), DayStart(firstDay), DayStart(firstDay + |days|), now, before)
            == Sum(TrueParts(days, firstDay, now, before))
  {
    AllSeconds(days, firstDay, now, before);
    ConcatFacts(days, firstDay, now);
    DaysInSeconds(firstDay);
    DowntimeCountsSeconds(Concat(days), DayStart(firstDay), DayStart(firstDay + |days|), now, before);
  }

  lemma OneDayInSeconds(day: seq<Event>, index: int, now: int, flag: bool)
    requires day != [] && Aligned(day) && InPeriod(day, DayStart(index), DayStart(index + 1), now)
    ensures DayStart(index) <= now
    ensures DaySeconds(day, index, now, flag) == DownSeconds(day, flag, EndSecond(index, now), EndSecond(index + 1, now))
  {
    assert day[0] in day;
    DaysInSeconds(index);
    EndSeconds(index, now);
    DowntimeCountsSeconds(day, DayStart(index), DayStart(index + 1), now, flag);
  }

  /** A day never counts too much; without checks it counts too little exactly when it is forgotten. */
  lemma PartAgainstTruth(part: int, days: seq<seq<Event>>, i: nat, firstDay: int, now: int, before: bool)
    requires IsRange(days, firstDay, now) && i < |days| && IsPart(part, days, i, firstDay, now, before)
    ensures part <= TrueSeconds(days, i, firstDay, now, before)
    ensures days[i] == [] ==> (part < TrueSeconds(days, i, firstDay, now, before) <==> IsForgotten(days, i, before, firstDay, now))
    ensures days[i] != [] && ContinuingInto(days, i, before) == DownInto(days, i, before, firstDay) ==>
              part == TrueSeconds(days, i, firstDay, now, before)
  {
    if days[i] == [] {
      EmptyDayState(days, i, firstDay, now, before);
      EndSeconds(firstDay + i, now);
      SecondsWithoutChecks(DownInto(days, i, before, firstDay), EndSecond(firstDay + i, now), EndSecond(firstDay + i + 1, now));
    } else {
      OneDayInSeconds(days[i], firstDay + i, now, ContinuingInto(days, i, before));
      FlagAgainstState(days, i, firstDay, now, before);
      SecondsInOrder(days[i], ContinuingInto(days, i, before), DownInto(days, i, before, firstDay),
                     EndSecond(firstDay + i, now), EndSecond(firstDay + i + 1, now));
    }
  }

  /** A day with checks counts too little only behind a forgotten day. */
  lemma LostFlagIsForgotten(days: seq<seq<Event>>, i: nat, firstDay: int, now: int, before: bool)
    requires IsRange(days, firstDay, now) && i < |days| && days[i] != []
    requires ContinuingInto(days, i, before) != DownInto(days, i, before, firstDay)
    ensures i > 0 && IsForgotten(days, i - 1, before, firstDay, now)
  {
    FlagAgainstState(days, i, firstDay, now, before);
    EmptyDayState(days, i - 1, firstDay, now, before);
    assert days[i][0] in days[i];
  }

  ghost predicate AllRemembered(days: seq<seq<Event>>, firstDay: int, now: int, before: bool) {
    forall i :: 0 <= i < |days| ==> !IsForgotten(days, i, before, firstDay, now)
  }

  lemma PartsExactly(parts: seq<int>, days: seq<seq<Event>>, firstDay: int, now: int, before: bool)
    requires IsRange(days, firstDay, now) && |parts| == |days|
    requires forall i :: 0 <= i < |days| ==> IsPart(parts[i], days, i, firstDay, now, before)
    ensures forall i :: 0 <= i < |days| ==> parts[i] <= TrueParts(days, firstDay, now, before)[i]
    ensures parts == TrueParts(days, firstDay, now, before) <==> AllRemembered(days, firstDay, now, before)
  {
    var truth := TrueParts(days, firstDay, now, before);
    forall i | 0 <= i < |days|
      ensures parts[i] <= truth[i] && (IsForgotten(days, i, before, firstDay, now) ==> parts[i] < truth[i])
      ensures AllRemembered(days, firstDay, now, before) ==> parts[i] == truth[i]
    {
      PartAgainstTruth(parts[i], days, i, firstDay, now, before);
      if days[i] != [] && ContinuingInto(days, i, before) != DownInto(days, i, before, firstDay) {
        LostFlagIsForgotten(days, i, firstDay, now, before);
      }
    }
  }

  /**
   The per-day downtimes of consecutive days never exceed one pass over the whole range, and they add up to it exactly
   when no day without checks that counts at least a second begins in an outage.
   */
  lemma {:induction false} DaysAddUp(parts: seq<int>, days: seq<seq<Event>>, firstDay: int, now: int, before: bool)
    requires IsRange(days, firstDay, now) && |parts| == |days|
    requires forall i :: 0 <= i < |days| ==> IsPart(parts[i], days, i, firstDay, now, before)
    ensures var onePass := DowntimeSeconds(Concat(days), DayStart(firstDay), DayStart(firstDay + |days|), now, before);
            Sum(parts) <= onePass && (Sum(parts) == onePass <==> AllRemembered(days, firstDay, now, before))
  {
    OnePassInSeconds(days, firstDay, now, before);
    PartsExactly(parts, days, firstDay, now, before);
    SumsInOrder(parts, TrueParts(days, firstDay, now, before));
  }

  // ---------- from the per-key map to whole ranges ----------

  function KeyDowntime(key: DayKey, eventsByKey: map<DayKey, seq<Event>>, rangeStart: int, preRange: map<int, Outcome>, now: int): nat {
    if key !in eventsByKey then 0
    else DaySeconds(eventsByKey[key], key.1, now, Continuing(key, rangeStart, preRange, eventsByKey))
  }

  /** The map holds these days of the component - those with checks - and nothing of it from before the range. */
  ghost predicate Covers(days: seq<seq<Event>>, component: int, rangeStart: int, eventsByKey: map<DayKey, seq<Event>>) {
    && (component, rangeStart - 1) !in eventsByKey
    && forall i :: 0 <= i < |days| ==> HasDay(days[i], (component, rangeStart + i), eventsByKey)
  }

  ghost predicate HasDay(day: seq<Event>, key: DayKey, eventsByKey: map<DayKey, seq<Event>>) {
    if day == [] then key !in eventsByKey else key in eventsByKey && eventsByKey[key] == day
  }

  function OutageBefore(component: int, preRange: map<int, Outcome>): bool {
    component in preRange && IsOutage(preRange[component])
  }

  lemma SeedIsPreviousDay(days: seq<seq<Event>>, i: nat, component: int, rangeStart: int,
                          eventsByKey: map<DayKey, seq<Event>>, preRange: map<int, Outcome>)
    requires Covers(days, component, rangeStart, eventsByKey) && i < |days|
    ensures Continuing((component, rangeStart + i), rangeStart, preRange, eventsByKey)
            == ContinuingInto(days, i, OutageBefore(component, preRange))
  {
    if i > 0 {
      assert HasDay(days[i - 1], (component, rangeStart + (i - 1)), eventsByKey);
    }
  }

  lemma KeyIsPart(days: seq<seq<Event>>, i: nat, component: int, rangeStart: int,
                  eventsByKey: map<DayKey, seq<Event>>, preRange: map<int, Outcome>, now: int)
    requires Covers(days, component, rangeStart, eventsByKey) && i < |days|
    ensures IsPart(KeyDowntime((component, rangeStart + i), eventsByKey, rangeStart, preRange, now),
                   days, i, rangeStart, now, OutageBefore(component, preRange))
  {
    SeedIsPreviousDay(days, i, component, rangeStart, eventsByKey, preRange);
    assert HasDay(days[i], (component, rangeStart + i), eventsByKey);
  }

  /**
   What the public page computes per day for a range sums to at most the downtime of the whole range in one pass, and
   to exactly that when and only when no day without checks begins in an outage.
   */
  lemma {:induction false} RangeTotal(downtimes: map<DayKey, nat>, parts: seq<int>, days: seq<seq<Event>>, component: int, rangeStart: int,
                   eventsByKey: map<DayKey, seq<Event>>, preRange: map<int, Outcome>, now: int)
    requires Covers(days, component, rangeStart, eventsByKey) && IsRange(days, rangeStart, now)
    requires downtimes.Keys == eventsByKey.Keys
    requires forall key <- downtimes :: downtimes[key] == KeyDowntime(key, eventsByKey, rangeStart, preRange, now)
    requires |parts| == |days|
    requires forall i :: 0 <= i < |days| ==>
               parts[i] == if (component, rangeStart + i) in downtimes then downtimes[(component, rangeStart + i)] else 0
    ensures var before := OutageBefore(component, preRange);
            var onePass := DowntimeSeconds(Concat(days), DayStart(rangeStart), DayStart(rangeStart + |days|), now, before);
            Sum(parts) <= onePass && (Sum(parts) == onePass <==> AllRemembered(days, rangeStart, now, before))
  {
    forall i | 0 <= i < |days| ensures IsPart(parts[i], days, i, rangeStart, now, OutageBefore(component, preRange)) {
      KeyIsPart(days, i, component, rangeStart, eventsByKey, preRange, now);
    }
    DaysAddUp(parts, days, rangeStart, now, OutageBefore(component, preRange));
  }

  /**
   Across a day without checks the outage is forgotten: the component is down when the next day with a
   check begins, and yet that day counts no downtime before its recovery.
   */
  lemma GapForgetsOutage(key: DayKey, rangeStart: int, eventsByKey: map<DayKey, seq<Event>>, preRange: map<int, Outcome>,
                         recovery: Event, now: int, before: seq<Event>)
    requires key in eventsByKey && eventsByKey[key] == [recovery] && !IsOutage(recovery.outcome)
    requires DayStart(key.1) < recovery.at
    requires (key.0, key.1 - 1) !in eventsByKey && key.1 != rangeStart
    requires before != [] && (forall e <- before :: e.at < DayStart(key.1)) && IsOutage(LatestOutcome(before).outcome)
    ensures IsDown(before + [recovery], false, DayStart(key.1))
    ensures KeyDowntime(key, eventsByKey, rangeStart, preRange, now) == 0
  {
    LatestIsLatest(before, DayStart(key.1));
    assert IsLatest(LatestOutcome(before), before + [recovery], DayStart(key.1));
    assert StableSort.Sort([recovery], NoLater) == [recovery];
    assert [recovery][..0] == [];
    assert ScanAll(OpenScan(DayStart(key.1), false), [recovery]) == Scan(0, None);
  }
}

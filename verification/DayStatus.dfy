/** Day statistics, availability in hundredths of a percent, and the status shown for a day. */
module DayStatus {
  import opened Options
  import opened Rounding

  datatype DayStats = DayStats(downtimeSeconds: nat, total: nat, up: nat, degraded: nat, failed: nat)

  datatype Status = NoData | Operational | Limited | Outage

  const EMPTY := DayStats(0, 0, 0, 0, 0)
  const OPERATIONAL_MIN := 9900
  const DEGRADED_MIN := 9000

  function Priority(status: Status): nat {
    match status
    case NoData => 0
    case Operational => 1
    case Limited => 2
    case Outage => 3
  }

  function Availability(stats: DayStats): Option<int> {
    if stats.total == 0 then None
    else Some(RoundDiv((stats.up + stats.degraded) * 10000, stats.total))
  }

  function StatusOf(stats: DayStats): Status {
    var availability := Availability(stats);
    if availability.None? then NoData
    else if availability.value >= OPERATIONAL_MIN then Operational
    else if availability.value >= DEGRADED_MIN then Limited
    else Outage
  }

  function MergeStatus(current: Status, incoming: Status): Status {
    if Priority(incoming) > Priority(current) then incoming else current
  }

  function AddStats(left: DayStats, right: DayStats): DayStats {
    DayStats(left.downtimeSeconds + right.downtimeSeconds, left.total + right.total, left.up + right.up,
             left.degraded + right.degraded, left.failed + right.failed)
  }

  type StatsTable = map<(int, int), DayStats>

  function Lookup(table: StatsTable, component: int, day: int): DayStats {
    if (component, day) in table then table[(component, day)] else EMPTY
  }

  /** Pooled counts of one component over some days. */
  function PoolDays(component: int, days: seq<int>, table: StatsTable, start: DayStats): DayStats {
    if days == [] then start
    else
      var pooled := PoolDays(component, days[..|days| - 1], table, start);
      var stats := Lookup(table, component, days[|days| - 1]);
      if stats.total == 0 then pooled else AddStats(pooled, stats)
  }

  function Pool(components: seq<int>, days: seq<int>, table: StatsTable): DayStats {
    if components == [] then EMPTY
    else PoolDays(components[|components| - 1], days, table, Pool(components[..|components| - 1], days, table))
  }

  method SumStats(components: seq<int>, days: seq<int>, table: StatsTable) returns (total: DayStats)
    ensures total == Pool(components, days, table)
  {
    total := EMPTY;
    for i := 0 to |components|
      invariant total == Pool(components[..i], days, table)
    {
      assert components[..i + 1][..i] == components[..i];
      ghost var before := total;
      for j := 0 to |days|
        invariant total == PoolDays(components[i], days[..j], table, before)
      {
        assert days[..j + 1][..j] == days[..j];
        if (components[i], days[j]) in table && table[(components[i], days[j])].total != 0 {
          total := AddStats(total, table[(components[i], days[j])]);
        }
      }
      assert days[..|days|] == days;
    }
    assert components[..|components|] == components;
  }

  /** The merged status of one day over a list of components. */
  function Merged(components: seq<int>, day: int, table: StatsTable): Status {
    if components == [] then NoData
    else MergeStatus(Merged(components[..|components| - 1], day, table), StatusOf(Lookup(table, components[|components| - 1], day)))
  }

  method ProjectDayStatuses(components: seq<int>, days: seq<int>, table: StatsTable) returns (statuses: map<int, Status>)
    ensures statuses.Keys == (set day | day in days)
    ensures forall day :: day in days ==> statuses[day] == Merged(components, day, table)
  {
    statuses := map day | day in days :: NoData;
    for i := 0 to |components|
      invariant statuses.Keys == (set day | day in days)
      invariant forall day :: day in days ==> statuses[day] == Merged(components[..i], day, table)
    {
      assert components[..i + 1][..i] == components[..i];
      statuses := MergeComponent(statuses, components[i], days, table);
    }
    assert components[..|components|] == components;
  }

  /** The inner loop over days; a day listed twice is merged twice, which changes nothing. */
  method MergeComponent(statuses: map<int, Status>, component: int, days: seq<int>, table: StatsTable)
    returns (merged: map<int, Status>)
    requires forall day <- days :: day in statuses
    ensures merged.Keys == statuses.Keys
    ensures forall day <- days :: merged[day] == MergeStatus(statuses[day], StatusOf(Lookup(table, component, day)))
  {
    merged := statuses;
    for j := 0 to |days|
      invariant merged.Keys == statuses.Keys
      invariant forall day <- statuses :: merged[day] ==
                  if day in days[..j] then MergeStatus(statuses[day], StatusOf(Lookup(table, component, day))) else statuses[day]
    {
      var status := StatusOf(Lookup(table, component, days[j]));
      merged := merged[days[j] := MergeStatus(merged[days[j]], status)];
      assert days[..j + 1] == days[..j] + [days[j]];
    }
    assert days[..|days|] == days;
  }

  // ---------- pooling never looks worse than the worst member ----------

  predicate Good(stats: DayStats, bound: DayStats)
    requires bound.total > 0
  {
    (stats.up + stats.degraded) * bound.total >= (bound.up + bound.degraded) * stats.total
  }

  /** The mediant of two fractions is no smaller than a common lower bound of both. */
  lemma Mediant(a: DayStats, b: DayStats, bound: DayStats)
    requires bound.total > 0 && Good(a, bound) && Good(b, bound)
    ensures Good(AddStats(a, b), bound)
  {}

  lemma {:induction false} StatusMonotone(stats: DayStats, bound: DayStats)
    requires bound.total > 0 && Good(stats, bound)
    ensures Priority(StatusOf(stats)) <= Priority(StatusOf(bound))
  {
    if stats.total > 0 {
      var n1, n2 := bound.up + bound.degraded, stats.up + stats.degraded;
      assert (n1 * 10000) * stats.total == 10000 * (n1 * stats.total);
      assert (n2 * 10000) * bound.total == 10000 * (n2 * bound.total);
      RoundDivMonotone(n1 * 10000, bound.total, n2 * 10000, stats.total);
    }
  }

  lemma GoodIsTransitive(a: DayStats, b: DayStats, c: DayStats)
    requires b.total > 0 && c.total > 0 && Good(a, b) && Good(b, c)
    ensures Good(a, c)
  {}

  /** A worst member among the pooled ones: one of the pairs with data that bounds the pool from below. */
  ghost predicate IsWorst(worst: (int, int), components: seq<int>, days: seq<int>, table: StatsTable, pooled: DayStats) {
    && worst.0 in components && worst.1 in days
    && Lookup(table, worst.0, worst.1).total > 0
    && Good(pooled, Lookup(table, worst.0, worst.1))
  }

  /** Adding one more member to a pool keeps some member as a lower bound. */
  lemma WorstOfTwo(pooled: DayStats, stats: DayStats, bound: DayStats) returns (statsIsWorse: bool)
    requires bound.total > 0 && stats.total > 0 && Good(pooled, bound)
    ensures Good(AddStats(pooled, stats), if statsIsWorse then stats else bound)
  {
    if Good(stats, bound) {
      Mediant(pooled, stats, bound);
      statsIsWorse := false;
    } else {
      assert Good(bound, stats);
      GoodIsTransitive(pooled, bound, stats);
      Mediant(pooled, stats, stats);
      statsIsWorse := true;
    }
  }

  ghost predicate HasWorst(components: seq<int>, days: seq<int>, table: StatsTable, pooled: DayStats) {
    exists c, d :: IsWorst((c, d), components, days, table, pooled)
  }

  lemma {:induction false} PoolDaysHasWorst(components: seq<int>, i: nat, days: seq<int>, j: nat, table: StatsTable, start: DayStats)
    requires i < |components| && j <= |days|
    requires start == EMPTY || HasWorst(components, days, table, start)
    ensures var pooled := PoolDays(components[i], days[..j], table, start);
            pooled == EMPTY || HasWorst(components, days, table, pooled)
  {
    if j > 0 {
      assert days[..j][..j - 1] == days[..j - 1];
      PoolDaysHasWorst(components, i, days, j - 1, table, start);
      var before := PoolDays(components[i], days[..j - 1], table, start);
      var stats := Lookup(table, components[i], days[j - 1]);
      if stats.total > 0 {
        var pooled := AddStats(before, stats);
        if before == EMPTY {
          assert IsWorst((components[i], days[j - 1]), components, days, table, pooled);
        } else {
          var c, d :| IsWorst((c, d), components, days, table, before);
          var worse := WorstOfTwo(before, stats, Lookup(table, c, d));
          if worse {
            assert IsWorst((components[i], days[j - 1]), components, days, table, pooled);
          } else {
            assert IsWorst((c, d), components, days, table, pooled);
          }
        }
      }
    }
  }

  lemma {:induction false} PoolHasWorst(components: seq<int>, i: nat, days: seq<int>, table: StatsTable)
    requires i <= |components|
    ensures var pooled := Pool(components[..i], days, table);
            pooled == EMPTY || HasWorst(components, days, table, pooled)
  {
    if i > 0 {
      assert components[..i][..i - 1] == components[..i - 1];
      PoolHasWorst(components, i - 1, days, table);
      PoolDaysHasWorst(components, i - 1, days, |days|, table, Pool(components[..i - 1], days, table));
      assert days[..|days|] == days;
    }
  }

  lemma {:induction false} MergedIsWorst(components: seq<int>, day: int, table: StatsTable)
    ensures forall c <- components :: Priority(StatusOf(Lookup(table, c, day))) <= Priority(Merged(components, day, table))
    ensures Merged(components, day, table) == NoData || exists c :: c in components && StatusOf(Lookup(table, c, day)) == Merged(components, day, table)
  {
    if components != [] {
      var n := |components| - 1;
      assert components == components[..n] + [components[n]];
      MergedIsWorst(components[..n], day, table);
    }
  }

  /** The status of pooled counts is never worse than the merged status of some pooled day. */
  lemma PooledNeverWorse(components: seq<int>, days: seq<int>, table: StatsTable)
    ensures var status := StatusOf(Pool(components, days, table));
            status == NoData || exists day :: day in days && Priority(status) <= Priority(Merged(components, day, table))
  {
    PoolHasWorst(components, |components|, days, table);
    assert components[..|components|] == components;
    var pooled := Pool(components, days, table);
    if pooled != EMPTY {
      var c, d :| IsWorst((c, d), components, days, table, pooled);
      StatusMonotone(pooled, Lookup(table, c, d));
      MergedIsWorst(components, d, table);
    }
  }

  /** For a single day: the pooled status is never worse than the worst-of-members status. */
  lemma PooledDayNeverWorse(components: seq<int>, day: int, table: StatsTable)
    ensures Priority(StatusOf(Pool(components, [day], table))) <= Priority(Merged(components, day, table))
  {
    PooledNeverWorse(components, [day], table);
  }

  // ---------- thresholds and sums ----------

  /** Rounded quotients reach a bound from half a unit below it on; ties go to the even neighbour, and the bound is even. */
  lemma {:induction false} RoundDivReaches(n: int, d: int, bound: int)
    requires d > 0 && bound % 2 == 0
    ensures RoundDiv(n, d) >= bound <==> 2 * n >= (2 * bound - 1) * d
  {
    var q, r, product := n / d, n % d, bound * d;
    assert n == q * d + r && 0 <= r < d;
    assert (2 * bound - 1) * d == 2 * product - d;
    if q >= bound {
      MulLe(bound, q, d);
    } else if q <= bound - 2 {
      MulLe(q, bound - 2, d);
      assert (bound - 2) * d == product - 2 * d;
    } else {
      assert (bound - 1) * d == product - d;
    }
  }

  /**
   The status of counts: of the share of up and degraded checks, 98.995 percent are operational and 89.995 percent are
   limited, since the percentage is rounded to two decimals first.
   */
  lemma StatusExactly(stats: DayStats)
    ensures StatusOf(stats) == NoData <==> stats.total == 0
    ensures stats.total > 0 ==>
              var good, all := (stats.up + stats.degraded) * 20000, stats.total;
              && (StatusOf(stats) == Operational <==> good >= 19799 * all)
              && (StatusOf(stats) == Limited <==> 17999 * all <= good < 19799 * all)
              && (StatusOf(stats) == Outage <==> good < 17999 * all)
  {
    if stats.total > 0 {
      RoundDivReaches((stats.up + stats.degraded) * 10000, stats.total, 9900);
      RoundDivReaches((stats.up + stats.degraded) * 10000, stats.total, 9000);
    }
  }

  /** The numbers of a day. */
  datatype Part = Checks | UpChecks | DegradedChecks | FailedChecks | Downtime

  ghost function Read(part: Part, stats: DayStats): int {
    match part
    case Checks => stats.total
    case UpChecks => stats.up
    case DegradedChecks => stats.degraded
    case FailedChecks => stats.failed
    case Downtime => stats.downtimeSeconds
  }

  /** A plain sum of one of the numbers over days, and over components and days; pairs without checks count nothing. */
  ghost function DaysTotal(part: Part, component: int, days: seq<int>, table: StatsTable): int {
    if days == [] then 0
    else
      var key := (component, days[|days| - 1]);
      DaysTotal(part, component, days[..|days| - 1], table)
      + if key in table && table[key].total > 0 then Read(part, table[key]) else 0
  }

  ghost function Total(part: Part, components: seq<int>, days: seq<int>, table: StatsTable): int {
    if components == [] then 0
    else Total(part, components[..|components| - 1], days, table) + DaysTotal(part, components[|components| - 1], days, table)
  }

  lemma {:induction false} PoolDaysIsSum(part: Part, component: int, days: seq<int>, table: StatsTable, start: DayStats)
    ensures Read(part, PoolDays(component, days, table, start)) == Read(part, start) + DaysTotal(part, component, days, table)
  {
    if days != [] {
      PoolDaysIsSum(part, component, days[..|days| - 1], table, start);
    }
  }

  /** Every pooled number is the plain sum of that number. */
  lemma {:induction false} PoolIsSum(part: Part, components: seq<int>, days: seq<int>, table: StatsTable)
    ensures Read(part, Pool(components, days, table)) == Total(part, components, days, table)
  {
    if components != [] {
      var n := |components| - 1;
      PoolIsSum(part, components[..n], days, table);
      PoolDaysIsSum(part, components[n], days, table, Pool(components[..n], days, table));
    }
  }
}

/** One pass of the scheduler over all ephemeral VPN components that are due for a check. */
module DueChecks {
  import opened Options
  import opened NetworkEnrich
  import opened CheckLog
  import opened SpeedTestMemory
  import opened SpeedTestSchedule
  import opened SpeedTestSlot
  import Stagger = SpeedTestStagger
  import StableSort
  import Sets

  datatype VpnComponent = VpnComponent(
    id: int, isActive: bool, isPersistent: bool, pollInterval: int, speedTestEnabled: bool, speedTestInterval: int)

  /** A live measurement is stamped and reported, or raises out of the check, which then leaves an error row. */
  datatype Attempt = Measured(measure: Option<Measure>, stamp: int) | MeasureRaises

  /** What a check meets: an exception before anything runs, nothing to measure, a failing probe, or a working tunnel. */
  datatype ProbeResult = CheckRaises | Unreachable(keepsNetwork: bool) | ProbeDown | ProbeUp(attempt: Attempt)

  /** The outside of one component's check in this pass. */
  datatype Visit = Visit(result: ProbeResult, checkedAt: int, clock: real)

  predicate IsDue(component: VpnComponent, lastCheckedAt: map<int, int>, now: int) {
    && component.isActive && !component.isPersistent
    && (component.id in lastCheckedAt ==> now - lastCheckedAt[component.id] >= component.pollInterval)
  }

  function LogOf(logs: map<int, seq<Check>>, id: int): seq<Check> {
    if id in logs then logs[id] else []
  }

  /** Whether the scheduler wants a live test of this component. */
  predicate WantsTest(component: VpnComponent, log: seq<Check>, now: int) {
    ShouldRun(component.speedTestEnabled, component.speedTestInterval, Latest(log), now)
  }

  function CycleFor(result: ProbeResult, runSpeedTest: bool, slotFree: bool): Cycle
    requires !result.CheckRaises?
  {
    match result
    case Unreachable(keepsNetwork) => Wiped(keepsNetwork)
    case ProbeDown => ProbeFailed
    case ProbeUp(attempt) =>
      if !runSpeedTest then StaggerDeferred
      else if !slotFree then SlotRefused
      else if attempt.MeasureRaises? then Wiped(false)
      else Live(attempt.measure, attempt.stamp)
  }

  /** The download direction of a check: there is no upload URL, and no upload memory. */
  function DownloadContext(runSpeedTest: bool, log: seq<Check>): RunContext {
    RunContext(runSpeedTest, false, Handed(log), Handed([]))
  }

  /** The component's log after the check of this visit. */
  function Grown(log: seq<Check>, visit: Visit, runSpeedTest: bool, slotFree: bool): seq<Check>
    requires !visit.result.CheckRaises?
  {
    log + [Check(visit.checkedAt, CycleDetails(Handed(log), CycleFor(visit.result, runSpeedTest, slotFree)))]
  }

  predicate ById(a: VpnComponent, b: VpnComponent) {
    a.id <= b.id
  }

  ghost predicate DistinctIds(components: seq<VpnComponent>) {
    StableSort.DistinctBy(components, IdOf)
  }

  function IdOf(component: VpnComponent): int { component.id }

  ghost function IdsOf(components: seq<VpnComponent>): set<int> {
    set c | c in components :: c.id
  }

  lemma IdsGrow(components: seq<VpnComponent>, i: nat)
    requires i < |components| && DistinctIds(components)
    ensures IdsOf(components[..i + 1]) == IdsOf(components[..i]) + {components[i].id}
    ensures components[i].id !in IdsOf(components[..i])
  {
    assert components[..i + 1] == components[..i] + [components[i]];
    forall c <- components[..i] ensures c.id != components[i].id {
      var k :| 0 <= k < i && components[..i][k] == c;
      assert IdOf(components[k]) != IdOf(components[i]);
    }
  }

  /**
   The details a visit leaves behind the memory handed to it: none or empty ones without a tunnel, the carried rows when
   nothing may or can be measured, the measured row otherwise, and none when measuring raises.
   */
  ghost predicate IsReport(details: Option<Family>, handed: FamilyContext, result: ProbeResult, mayMeasure: bool, slotFree: bool) {
    match result
    case CheckRaises => false
    case Unreachable(keepsNetwork) => details == if keepsNetwork then Some(BLANK) else None
    case ProbeDown => details == Some(AfterDeferral(BLANK, handed, false))
    case ProbeUp(attempt) =>
      if mayMeasure && slotFree then
        match attempt
        case MeasureRaises => details == None
        case Measured(measure, stamp) => details == Some(AfterLive(BLANK, LiveRow(measure, stamp), handed.memory))
      else details == Some(AfterDeferral(BLANK, handed, mayMeasure))
  }

  lemma CycleReports(log: seq<Check>, result: ProbeResult, mayMeasure: bool, slotFree: bool)
    requires !result.CheckRaises?
    ensures IsReport(CycleDetails(Handed(log), CycleFor(result, mayMeasure, slotFree)), Handed(log), result, mayMeasure, slotFree)
  {}

  /** The component's log has grown by the check of its visit, a live one only if allowed and while the slot was free. */
  ghost predicate Checked(id: int, before: map<int, seq<Check>>, logs: map<int, seq<Check>>, lastCheckedAt: map<int, int>,
                          visits: map<int, Visit>, allowed: set<int>, slotAt: real) {
    && id in visits && id in lastCheckedAt && lastCheckedAt[id] == visits[id].checkedAt
    && exists check :: LogOf(logs, id) == LogOf(before, id) + [check] && check.checkedAt == visits[id].checkedAt
         && IsReport(check.network, Handed(LogOf(before, id)), visits[id].result, id in allowed, visits[id].clock - slotAt >= 60.0)
  }

  /** It takes the slot: allowed, behind a working probe, and a minute after the last test of all. */
  ghost predicate TakesSlot(id: int, allowed: set<int>, visits: map<int, Visit>, slotAt: real) {
    id in allowed && id in visits && visits[id].result.ProbeUp? && visits[id].clock - slotAt >= 60.0
  }

  ghost function Takers(ids: set<int>, allowed: set<int>, visits: map<int, Visit>, slotAt: real): set<int> {
    set id | id in ids && TakesSlot(id, allowed, visits, slotAt)
  }

  lemma TakersGrow(ids: set<int>, id: int, allowed: set<int>, visits: map<int, Visit>, slotAt: real)
    ensures Takers(ids + {id}, allowed, visits, slotAt)
            == if TakesSlot(id, allowed, visits, slotAt) then Takers(ids, allowed, visits, slotAt) + {id} else Takers(ids, allowed, visits, slotAt)
    ensures Takers(ids, allowed, visits, slotAt) <= allowed
  {}

  /** Exactly these components have been checked. */
  ghost predicate Progress(done: set<int>, before: map<int, seq<Check>>, logs: map<int, seq<Check>>, lastCheckedAt: map<int, int>,
                           visits: map<int, Visit>, allowed: set<int>, slotAt: real) {
    && (forall id <- done :: Checked(id, before, logs, lastCheckedAt, visits, allowed, slotAt))
    && (forall id :: id !in done ==> LogOf(logs, id) == LogOf(before, id))
  }

  lemma ProgressStep(done: set<int>, before: map<int, seq<Check>>, logs: map<int, seq<Check>>, lastCheckedAt: map<int, int>,
                     visits: map<int, Visit>, allowed: set<int>, slotAt: real, id: int, check: Check)
    requires Progress(done, before, logs, lastCheckedAt, visits, allowed, slotAt) && id !in done && id in visits
    requires check.checkedAt == visits[id].checkedAt
    requires IsReport(check.network, Handed(LogOf(before, id)), visits[id].result, id in allowed, visits[id].clock - slotAt >= 60.0)
    ensures Progress(done + {id}, before, logs[id := LogOf(logs, id) + [check]], lastCheckedAt[id := visits[id].checkedAt], visits,
                     allowed, slotAt)
  {
    var after, last := logs[id := LogOf(logs, id) + [check]], lastCheckedAt[id := visits[id].checkedAt];
    forall x <- done ensures Checked(x, before, after, last, visits, allowed, slotAt) {
      assert Checked(x, before, logs, lastCheckedAt, visits, allowed, slotAt);
    }
    assert LogOf(after, id) == LogOf(before, id) + [check];
  }

  /** Polled in this pass: active, not served by a persistent worker, and its last check long enough ago. */
  ghost predicate IsPolled(c: VpnComponent, lastCheckedAt: map<int, int>, now: int) {
    c.isActive && !c.isPersistent && (c.id !in lastCheckedAt || now >= lastCheckedAt[c.id] + c.pollInterval)
  }

  ghost function WantingIds(due: seq<VpnComponent>, logs: map<int, seq<Check>>, now: int): set<int> {
    set c | c in due && WantsTest(c, LogOf(logs, c.id), now) :: c.id
  }

  /** The components polled of which a live test is wanted. */
  ghost function Wanting(components: seq<VpnComponent>, logs: map<int, seq<Check>>, lastCheckedAt: map<int, int>, now: int): set<int> {
    set c | c in components && IsPolled(c, lastCheckedAt, now)
            && ShouldRun(c.speedTestEnabled, c.speedTestInterval, Latest(LogOf(logs, c.id)), now) :: c.id
  }

  /** The stamps by which the pick is ordered. */
  function StampsOf(logs: map<int, seq<Check>>): int -> Option<int> {
    id => SchedulingStamp(Latest(LogOf(logs, id)))
  }

  lemma WantingIsDue(components: seq<VpnComponent>, due: seq<VpnComponent>, logs: map<int, seq<Check>>,
                     lastCheckedAt: map<int, int>, now: int)
    requires forall c :: c in due <==> c in components && IsDue(c, lastCheckedAt, now)
    ensures WantingIds(due, logs, now) == Wanting(components, logs, lastCheckedAt, now)
    ensures forall c :: IsDue(c, lastCheckedAt, now) <==> IsPolled(c, lastCheckedAt, now)
  {}

  lemma SpeedIdsAreWanting(due: seq<VpnComponent>, logs: map<int, seq<Check>>, now: int)
    ensures Stagger.DueIds(SpeedComponents(due), LatestOf(logs), now) == WantingIds(due, logs, now)
    ensures forall id :: Stagger.Lookup(LatestOf(logs), id) == Latest(LogOf(logs, id))
  {
    var speeds := SpeedComponents(due);
    forall k | 0 <= k < |due|
      ensures speeds[k].id == due[k].id && (Stagger.IsDue(speeds[k], LatestOf(logs), now) <==> WantsTest(due[k], LogOf(logs, due[k].id), now))
    {
      assert Stagger.Lookup(LatestOf(logs), due[k].id) == Latest(LogOf(logs, due[k].id));
    }
    forall id ensures id in Stagger.DueIds(speeds, LatestOf(logs), now) <==> id in WantingIds(due, logs, now) {
      if id in Stagger.DueIds(speeds, LatestOf(logs), now) {
        var k :| 0 <= k < |speeds| && speeds[k].id == id && Stagger.IsDue(speeds[k], LatestOf(logs), now);
        assert due[k] in due;
      }
      if id in WantingIds(due, logs, now) {
        var k :| 0 <= k < |due| && due[k].id == id && WantsTest(due[k], LogOf(logs, id), now);
        assert speeds[k] in speeds;
      }
    }
  }

  lemma SameStampsSamePick(allowed: set<int>, due: set<int>, logs: map<int, seq<Check>>, key: int -> int)
    requires Stagger.IsPick(allowed, due, 1, id => SchedulingStamp(Stagger.Lookup(LatestOf(logs), id)), key)
    requires forall id :: Stagger.Lookup(LatestOf(logs), id) == Latest(LogOf(logs, id))
    ensures Stagger.IsPick(allowed, due, 1, StampsOf(logs), key)
  {}

  lemma AllowedAreTakers(due: seq<VpnComponent>, allowed: set<int>, visits: map<int, Visit>, slotAt: real,
                         logs: map<int, seq<Check>>, now: int)
    requires allowed <= WantingIds(due, logs, now) && forall c <- due :: c.id in visits
    ensures Takers(IdsOf(due), allowed, visits, slotAt) <= allowed <= visits.Keys
    ensures forall id :: id in Takers(IdsOf(due), allowed, visits, slotAt) <==> TakesSlot(id, allowed, visits, slotAt)
  {
    assert forall id <- allowed :: id in IdsOf(due);
  }

  lemma OnlyOneAllowed(allowed: set<int>, id: int, done: set<int>)
    requires |allowed| <= 1 && id !in done
    ensures id in allowed ==> allowed !! done
  {
    if id in allowed {
      var x := Sets.Singleton(allowed);
    }
  }

  lemma AllowedWants(due: seq<VpnComponent>, allowed: set<int>, logs: map<int, seq<Check>>, now: int, i: nat)
    requires i < |due| && DistinctIds(due) && allowed <= WantingIds(due, logs, now)
    ensures due[i].id in allowed ==> WantsTest(due[i], LogOf(logs, due[i].id), now)
  {
    if due[i].id in allowed {
      var k :| 0 <= k < |due| && due[k].id == due[i].id && WantsTest(due[k], LogOf(logs, due[k].id), now);
      assert k != i ==> IdOf(due[k]) != IdOf(due[i]);
    }
  }

  function LatestOf(logs: map<int, seq<Check>>): map<int, Check> {
    map id | id in logs && logs[id] != [] :: logs[id][|logs[id]| - 1]
  }

  /** What the loop knows before its next check. */
  lemma BeforeCheck(due: seq<VpnComponent>, allowed: set<int>, visits: map<int, Visit>, logs: map<int, seq<Check>>, now: int,
                    slotAt: real, i: nat)
    requires i < |due| && DistinctIds(due) && |allowed| <= 1 && allowed <= WantingIds(due, logs, now)
    ensures var done, id := IdsOf(due[..i]), due[i].id;
            && id !in done && IdsOf(due[..i + 1]) == done + {id}
            && Takers(done, allowed, visits, slotAt) <= Takers(IdsOf(due), allowed, visits, slotAt)
            && Takers(done + {id}, allowed, visits, slotAt)
               == (if TakesSlot(id, allowed, visits, slotAt) then Takers(done, allowed, visits, slotAt) + {id}
                   else Takers(done, allowed, visits, slotAt))
            && (id in allowed ==> allowed !! done && WantsTest(due[i], LogOf(logs, id), now))
  {
    IdsGrow(due, i);
    TakersGrow(IdsOf(due[..i]), due[i].id, allowed, visits, slotAt);
    OnlyOneAllowed(allowed, due[i].id, IdsOf(due[..i]));
    AllowedWants(due, allowed, logs, now, i);
    assert IdsOf(due[..i]) <= IdsOf(due);
  }

  class HealthCheckRunner {
    var logs: map<int, seq<Check>>
    var lastCheckedAt: map<int, int>
    const slot: Slot

    constructor (slot: Slot)
      ensures logs == map[] && lastCheckedAt == map[] && this.slot == slot
    {
      logs, lastCheckedAt, this.slot := map[], map[], slot;
    }

    /** The shared slot is asked only for a wanted and allowed test behind a working probe. */
    method RunCheck(component: VpnComponent, allowed: bool, visit: Visit, now: int) returns (live: bool)
      requires slot.Valid() && !visit.result.CheckRaises?
      modifies this, slot
      ensures slot.Valid()
      ensures var run := allowed && WantsTest(component, LogOf(old(logs), component.id), now);
              var slotFree := visit.clock - old(slot.lastAt) >= MIN_GAP_SECONDS;
              && live == (run && slotFree && visit.result.ProbeUp?)
              && logs == old(logs)[component.id := Grown(LogOf(old(logs), component.id), visit, run, slotFree)]
              && slot.grants == old(slot.grants) + (if live then [visit.clock] else [])
      ensures lastCheckedAt == old(lastCheckedAt)[component.id := visit.checkedAt]
      ensures !live ==> slot.lastAt == old(slot.lastAt)
    {
      var log := LogOf(logs, component.id);
      var run := allowed && WantsTest(component, log, now);
      if visit.result.ProbeUp? && visit.result.attempt.Measured? {
        log, live := CheckUp(log, run, visit);
      } else {
        log, live := CheckWithoutReport(log, run, visit);
      }
      logs := logs[component.id := log];
      lastCheckedAt := lastCheckedAt[component.id := visit.checkedAt];
    }

    /** Nothing is measured, or the measurement raises after taking the slot. */
    method CheckWithoutReport(log: seq<Check>, run: bool, visit: Visit) returns (grown: seq<Check>, live: bool)
      requires slot.Valid() && !visit.result.CheckRaises? && !(visit.result.ProbeUp? && visit.result.attempt.Measured?)
      modifies slot
      ensures slot.Valid()
      ensures live == (run && visit.clock - old(slot.lastAt) >= MIN_GAP_SECONDS && visit.result.ProbeUp?)
      ensures !live ==> slot.lastAt == old(slot.lastAt)
      ensures slot.grants == old(slot.grants) + (if live then [visit.clock] else [])
      ensures grown == Grown(log, visit, run, visit.clock - old(slot.lastAt) >= MIN_GAP_SECONDS)
    {
      live := false;
      if run && visit.result.ProbeUp? {
        live := slot.TryAcquire(visit.clock);
      }
      var monitor := new ComponentMonitor();
      monitor.log := log;
      monitor.RunCheck(CycleFor(visit.result, run, live), visit.checkedAt);
      grown := monitor.log;
    }

    /** Behind a working probe the enrichment itself decides whether to measure. */
    method CheckUp(log: seq<Check>, run: bool, visit: Visit) returns (grown: seq<Check>, live: bool)
      requires slot.Valid() && visit.result.ProbeUp? && visit.result.attempt.Measured?
      modifies slot
      ensures slot.Valid()
      ensures live == (run && visit.clock - old(slot.lastAt) >= MIN_GAP_SECONDS)
      ensures !live ==> slot.lastAt == old(slot.lastAt)
      ensures slot.grants == old(slot.grants) + (if live then [visit.clock] else [])
      ensures grown == Grown(log, visit, run, visit.clock - old(slot.lastAt) >= MIN_GAP_SECONDS)
    {
      var attempt := visit.result.attempt;
      var network: Network;
      network, live := EnrichFresh(DownloadContext(run, log), slot, visit.clock, attempt.measure, None, attempt.stamp);
      assert EnrichCycle(run, live, attempt.measure, attempt.stamp) == CycleFor(visit.result, run, live);
      grown := log + [Check(visit.checkedAt, Some(network.download))];
    }

    /**
     One pass. Among the components polled that want a test, at most one is allowed to take it: the first in the order of
     the pick. It measures exactly when its probe works and the last test of all was at least a minute before. Every
     component polled gets exactly one check, and no other log changes. A check that raises - also that of an HTTP
     component, which all come last - ends the pass before its commit, so that nothing of it is stored.
     */
    method RunDueChecks(components: seq<VpnComponent>, visits: map<int, Visit>, httpRaises: bool, key: int -> int, now: int)
      returns (ghost allowed: set<int>, live: set<int>, committed: bool)
      requires slot.Valid() && DistinctIds(components)
      requires forall c <- components :: c.id in visits
      modifies this, slot
      ensures slot.Valid()
      ensures Stagger.IsPick(allowed, Wanting(components, old(logs), old(lastCheckedAt), now), 1, StampsOf(old(logs)), key)
      ensures |live| <= 1 && |slot.grants| == |old(slot.grants)| + |live|
      ensures forall id <- live :: TakesSlot(id, allowed, visits, old(slot.lastAt))
      ensures committed ==> forall id :: TakesSlot(id, allowed, visits, old(slot.lastAt)) ==> id in live
      ensures committed <==>
                !httpRaises && forall c <- components :: IsPolled(c, old(lastCheckedAt), now) ==> !visits[c.id].result.CheckRaises?
      ensures committed ==> forall c <- components :: IsPolled(c, old(lastCheckedAt), now) ==>
                Checked(c.id, old(logs), logs, lastCheckedAt, visits, allowed, old(slot.lastAt))
      ensures committed ==>
                forall id :: (forall c <- components :: IsPolled(c, old(lastCheckedAt), now) ==> c.id != id) ==>
                  LogOf(logs, id) == LogOf(old(logs), id)
      ensures !committed ==> logs == old(logs) && lastCheckedAt == old(lastCheckedAt)
    {
      var logsBefore, lastBefore := logs, lastCheckedAt;
      var due := SortedDue(components, now);
      var picked := PickAllowed(due, key, now);
      allowed := picked;
      WantingIsDue(components, due, logs, lastCheckedAt, now);
      assert forall k :: 0 <= k < |due| ==> due[k] in due;
      live, committed := CheckAll(due, picked, visits, now);
      AllowedAreTakers(due, picked, visits, old(slot.lastAt), logsBefore, now);
      Sets.SubsetSize(live, picked);
      committed := committed && !httpRaises;
      if !committed {
        logs, lastCheckedAt := logsBefore, lastBefore;
      }
    }

    /** At most one due component may measure live in this pass. */
    method PickAllowed(due: seq<VpnComponent>, key: int -> int, now: int) returns (allowed: set<int>)
      requires DistinctIds(due)
      ensures |allowed| <= 1 && allowed <= WantingIds(due, logs, now)
      ensures Stagger.IsPick(allowed, WantingIds(due, logs, now), 1, StampsOf(logs), key)
    {
      forall i, j | 0 <= i < j < |due| ensures SpeedComponents(due)[i].id != SpeedComponents(due)[j].id {
        assert IdOf(due[i]) != IdOf(due[j]);
      }
      allowed := Stagger.PickStaggered(SpeedComponents(due), LatestOf(logs), key, now, 1);
      SpeedIdsAreWanting(due, logs, now);
      SameStampsSamePick(allowed, WantingIds(due, logs, now), logs, key);
    }

    /** The loop of the pass, up to the first check that raises. */
    method CheckAll(due: seq<VpnComponent>, allowed: set<int>, visits: map<int, Visit>, now: int)
      returns (live: set<int>, completed: bool)
      requires slot.Valid() && DistinctIds(due)
      requires forall k :: 0 <= k < |due| ==> due[k].id in visits
      requires |allowed| <= 1 && allowed <= WantingIds(due, logs, now)
      modifies this, slot
      ensures slot.Valid()
      ensures |slot.grants| == |old(slot.grants)| + |live|
      ensures live <= Takers(IdsOf(due), allowed, visits, old(slot.lastAt))
      ensures completed ==> live == Takers(IdsOf(due), allowed, visits, old(slot.lastAt))
      ensures completed <==> forall k :: 0 <= k < |due| ==> !visits[due[k].id].result.CheckRaises?
      ensures completed ==> Progress(IdsOf(due), old(logs), logs, lastCheckedAt, visits, allowed, old(slot.lastAt))
    {
      live := {};
      ghost var before, slotAt := logs, slot.lastAt;
      assert IdsOf(due[..0]) == {};
      for i := 0 to |due|
        invariant slot.Valid() && (allowed !! IdsOf(due[..i]) ==> slot.lastAt == slotAt)
        invariant live == Takers(IdsOf(due[..i]), allowed, visits, slotAt) && |slot.grants| == |old(slot.grants)| + |live|
        invariant forall k :: 0 <= k < i ==> !visits[due[k].id].result.CheckRaises?
        invariant Progress(IdsOf(due[..i]), before, logs, lastCheckedAt, visits, allowed, slotAt)
      {
        BeforeCheck(due, allowed, visits, before, now, slotAt, i);
        if visits[due[i].id].result.CheckRaises? {
          return live, false;
        }
        live := CheckNext(due[i], allowed, visits, now, live, before, IdsOf(due[..i]), slotAt);
      }
      assert due[..|due|] == due;
      return live, true;
    }

    /** One check of the loop; `measured` are the components that took the slot before. */
    method CheckNext(component: VpnComponent, allowed: set<int>, visits: map<int, Visit>, now: int, measured: set<int>,
                     ghost before: map<int, seq<Check>>, ghost done: set<int>, ghost slotAt: real) returns (live: set<int>)
      requires slot.Valid() && component.id !in done && component.id !in measured
      requires component.id in visits && !visits[component.id].result.CheckRaises?
      requires Progress(done, before, logs, lastCheckedAt, visits, allowed, slotAt)
      requires component.id in allowed ==> slot.lastAt == slotAt && WantsTest(component, LogOf(before, component.id), now)
      modifies this, slot
      ensures slot.Valid() && (component.id !in allowed ==> slot.lastAt == old(slot.lastAt))
      ensures live == if TakesSlot(component.id, allowed, visits, slotAt) then measured + {component.id} else measured
      ensures |slot.grants| - |old(slot.grants)| == |live| - |measured|
      ensures Progress(done + {component.id}, before, logs, lastCheckedAt, visits, allowed, slotAt)
    {
      var id := component.id;
      ghost var logsBefore, lastBefore := logs, lastCheckedAt;
      ghost var slotFree := visits[id].clock - slot.lastAt >= MIN_GAP_SECONDS;
      var taken := RunCheck(component, id in allowed, visits[id], now);
      live := if taken then measured + {id} else measured;
      ghost var log := LogOf(logs, id);
      CycleReports(LogOf(before, id), visits[id].result, id in allowed, slotFree);
      ProgressStep(done, before, logsBefore, lastBefore, visits, allowed, slotAt, id, log[|log| - 1]);
    }

    /** The due components in the order of their ids. */
    method SortedDue(components: seq<VpnComponent>, now: int) returns (due: seq<VpnComponent>)
      requires DistinctIds(components)
      ensures DistinctIds(due)
      ensures forall c :: c in due <==> c in components && IsDue(c, lastCheckedAt, now)
    {
      due := [];
      for i := 0 to |components|
        invariant DistinctIds(due)
        invariant forall c :: c in due <==> c in components[..i] && IsDue(c, lastCheckedAt, now)
      {
        assert components[..i + 1] == components[..i] + [components[i]];
        if IsDue(components[i], lastCheckedAt, now) {
          forall c <- due ensures IdOf(c) != IdOf(components[i]) {
            var k :| 0 <= k < i && components[..i][k] == c;
            assert IdOf(components[k]) != IdOf(components[i]);
          }
          due := due + [components[i]];
        }
      }
      assert components[..|components|] == components;
      StableSort.SortPermutes(due, ById);
      StableSort.SortKeepsDistinct(due, ById, IdOf);
      due := StableSort.Sort(due, ById);
    }
  }

  function SpeedComponents(components: seq<VpnComponent>): seq<Stagger.Component> {
    seq(|components|, i requires 0 <= i < |components| =>
          Stagger.Component(components[i].id, components[i].speedTestEnabled, components[i].speedTestInterval))
  }
}

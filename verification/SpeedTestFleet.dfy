/** Waiting for a live speed test, stated on the check logs of a whole fleet of components. */
module SpeedTestFleet {
  import opened Options
  import opened CheckLog
  import opened NetworkEnrich
  import opened SpeedTestMemory
  import opened SpeedTestSchedule
  import opened CheckLogRuns
  import opened SpeedTestStagger
  import Sets

  /** Every component's cycles so far. */
  type Fleet = map<int, seq<Entry>>

  /** One monitoring cycle: its time, its tie-break keys, the pick, and the check of every component polled in it. */
  datatype Poll = Poll(now: int, key: int -> int, picked: set<int>, checks: map<int, Entry>)

  function AfterPoll(fleet: Fleet, poll: Poll): Fleet {
    map id | id in fleet :: if id in poll.checks then fleet[id] + [poll.checks[id]] else fleet[id]
  }

  function AfterPolls(fleet: Fleet, polls: seq<Poll>): Fleet {
    if polls == [] then fleet else AfterPoll(AfterPolls(fleet, polls[..|polls| - 1]), polls[|polls| - 1])
  }

  function StampIn(fleet: Fleet, id: int): Option<int> {
    if id in fleet then SchedulingStamp(Latest(Run(fleet[id]))) else None
  }

  predicate IsDueIn(fleet: Fleet, poll: Poll, intervals: int -> int, id: int) {
    id in fleet && id in poll.checks && ShouldRun(true, intervals(id), Latest(Run(fleet[id])), poll.now)
  }

  ghost function DueIn(fleet: Fleet, poll: Poll, intervals: int -> int): set<int> {
    set id | id in fleet && IsDueIn(fleet, poll, intervals, id)
  }

  /** Later than every component's ordering stamp and last success. */
  ghost predicate IsLater(fleet: Fleet, stamp: int) {
    forall id <- fleet :: IsBefore(StampIn(fleet, id), stamp) && IsBefore(SuccessStamp(fleet[id]), stamp)
  }

  predicate IsBefore(earlier: Option<int>, stamp: int) {
    earlier.Some? ==> earlier.value < stamp
  }

  ghost function SuccessStamp(entries: seq<Entry>): Option<int> {
    if LastSuccess(entries).Some? then LastSuccess(entries).value.measuredAt else None
  }

  /**
   Among the components polled, at most one that is due is picked; only it can measure live, later than every attempt
   before. Its test may as well not happen, and every other check may be postponed or wiped.
   */
  ghost predicate IsPoll(fleet: Fleet, poll: Poll, intervals: int -> int) {
    && poll.checks.Keys <= fleet.Keys
    && IsPick(poll.picked, DueIn(fleet, poll, intervals), 1, id => StampIn(fleet, id), poll.key)
    && forall id <- poll.checks :: poll.checks[id].cycle.Live? ==> id in poll.picked && IsLater(fleet, poll.checks[id].cycle.stamp)
  }

  ghost predicate IsFleetRun(start: Fleet, polls: seq<Poll>, intervals: int -> int) {
    forall k :: 0 <= k < |polls| ==> IsPoll(AfterPolls(start, polls[..k]), polls[k], intervals)
  }

  ghost predicate MeasuresLive(poll: Poll) {
    exists id :: id in poll.picked && id in poll.checks && poll.checks[id].cycle.Live?
  }

  ghost function WipedIn(poll: Poll): set<int> {
    set id | id in poll.checks && poll.checks[id].cycle.Wiped?
  }

  // ---------- one poll ----------

  function LaterOf(a: Option<int>, b: Option<int>): Option<int> {
    if StampLe(a, b) then b else a
  }

  /** The latest stamp these cycles can show without a further live test. */
  ghost function Top(entries: seq<Entry>): Option<int> {
    LaterOf(SchedulingStamp(Latest(Run(entries))), SuccessStamp(entries))
  }

  /** Without a live test a component's stamp falls only by a wiped row, and never rises beyond its top. */
  lemma {:induction false} StampWithoutTest(entries: seq<Entry>, next: Entry)
    requires !next.cycle.Live?
    ensures var before, after := SchedulingStamp(Latest(Run(entries))), SchedulingStamp(Latest(Run(entries + [next])));
            && (!next.cycle.Wiped? ==> StampLe(before, after))
            && StampLe(Top(entries + [next]), Top(entries))
  {
    StampAfterCycle(entries, next);
    StampExactly(entries);
    assert (entries + [next])[..|entries|] == entries;
  }

  ghost function RoundOf(fleet: Fleet, poll: Poll, intervals: int -> int, waiting: int): Round
    requires waiting in fleet
  {
    Round(DueIn(fleet, poll, intervals), map id | id in fleet :: StampIn(fleet, id), map id | id in fleet :: poll.key(id),
          Top(fleet[waiting]), poll.picked, MeasuresLive(poll), WipedIn(poll))
  }

  lemma RoundIsPick(fleet: Fleet, poll: Poll, intervals: int -> int, waiting: int)
    requires IsPoll(fleet, poll, intervals) && waiting in fleet
    ensures WellFormed(RoundOf(fleet, poll, intervals, waiting), waiting, fleet.Keys)
    ensures Picks(RoundOf(fleet, poll, intervals, waiting))
  {}

  lemma PickIsSingle(fleet: Fleet, poll: Poll, intervals: int -> int, x: int, y: int)
    requires IsPoll(fleet, poll, intervals) && x in poll.picked && y in poll.picked
    ensures x == y
  {
    var z := Sets.Singleton(poll.picked);
  }

  lemma LiveIsAfterTop(fleet: Fleet, waiting: int, stamp: int)
    requires waiting in fleet && IsLater(fleet, stamp)
    ensures !StampLe(Some(stamp), Top(fleet[waiting]))
  {
    assert IsBefore(StampIn(fleet, waiting), stamp) && IsBefore(SuccessStamp(fleet[waiting]), stamp);
  }

  lemma {:induction false} PollAdvances(fleet: Fleet, poll: Poll, next: Poll, intervals: int -> int, waiting: int)
    requires IsPoll(fleet, poll, intervals) && waiting in fleet && waiting !in poll.picked
    ensures Advances(RoundOf(fleet, poll, intervals, waiting), RoundOf(AfterPoll(fleet, poll), next, intervals, waiting), waiting, fleet.Keys)
  {
    var after := AfterPoll(fleet, poll);
    forall x | x in poll.picked && MeasuresLive(poll) ensures !StampLe(StampIn(after, x), Top(fleet[waiting])) {
      var id :| id in poll.picked && id in poll.checks && poll.checks[id].cycle.Live?;
      PickIsSingle(fleet, poll, intervals, id, x);
      StampAfterCycle(fleet[x], poll.checks[x]);
      LiveIsAfterTop(fleet, waiting, poll.checks[x].cycle.stamp);
    }
    forall y | y in fleet && y !in WipedIn(poll) && !(MeasuresLive(poll) && y in poll.picked)
      ensures StampLe(StampIn(fleet, y), StampIn(after, y))
    {
      if y in poll.checks {
        assert poll.checks[y].cycle.Live? ==> y in poll.picked;
        StampWithoutTest(fleet[y], poll.checks[y]);
      }
    }
    if waiting in poll.checks {
      StampWithoutTest(fleet[waiting], poll.checks[waiting]);
    }
  }

  // ---------- runs ----------

  lemma {:induction false} FleetKeys(start: Fleet, polls: seq<Poll>)
    ensures AfterPolls(start, polls).Keys == start.Keys
  {
    if polls != [] {
      FleetKeys(start, polls[..|polls| - 1]);
    }
  }

  ghost function Rounds(start: Fleet, polls: seq<Poll>, intervals: int -> int, waiting: int): (rounds: seq<Round>)
    requires waiting in start
    ensures |rounds| == |polls|
  {
    seq(|polls|, k requires 0 <= k < |polls| =>
          FleetKeys(start, polls[..k]); RoundOf(AfterPolls(start, polls[..k]), polls[k], intervals, waiting))
  }

  lemma FleetIsSchedule(start: Fleet, polls: seq<Poll>, intervals: int -> int, waiting: int)
    requires IsFleetRun(start, polls, intervals) && waiting in start
    requires forall k :: 0 <= k < |polls| ==> waiting !in polls[k].picked
    ensures IsSchedule(Rounds(start, polls, intervals, waiting), waiting, start.Keys)
  {
    var rounds := Rounds(start, polls, intervals, waiting);
    forall k | 0 <= k < |rounds| ensures WellFormed(rounds[k], waiting, start.Keys) && Picks(rounds[k]) {
      FleetKeys(start, polls[..k]);
      RoundIsPick(AfterPolls(start, polls[..k]), polls[k], intervals, waiting);
    }
    forall k | 0 <= k < |rounds| - 1 ensures Advances(rounds[k], rounds[k + 1], waiting, start.Keys) {
      FleetKeys(start, polls[..k]);
      assert polls[..k + 1][..k] == polls[..k];
      PollAdvances(AfterPolls(start, polls[..k]), polls[k], polls[k + 1], intervals, waiting);
    }
  }

  /** Polls in which the component was due. */
  ghost function DuePolls(start: Fleet, polls: seq<Poll>, intervals: int -> int, waiting: int): nat {
    if polls == [] then 0
    else
      var front, last := polls[..|polls| - 1], polls[|polls| - 1];
      DuePolls(start, front, intervals, waiting) + if waiting in DueIn(AfterPolls(start, front), last, intervals) then 1 else 0
  }

  /** Those of them whose pick did not measure live. */
  ghost function MissedPolls(start: Fleet, polls: seq<Poll>, intervals: int -> int, waiting: int): nat {
    if polls == [] then 0
    else
      var front, last := polls[..|polls| - 1], polls[|polls| - 1];
      MissedPolls(start, front, intervals, waiting)
      + if waiting in DueIn(AfterPolls(start, front), last, intervals) && !MeasuresLive(last) then 1 else 0
  }

  /** Wiped rows of other components. */
  ghost function WipedRows(polls: seq<Poll>, waiting: int): nat {
    if polls == [] then 0 else WipedRows(polls[..|polls| - 1], waiting) + |WipedIn(polls[|polls| - 1]) - {waiting}|
  }

  lemma RoundsFront(start: Fleet, polls: seq<Poll>, intervals: int -> int, waiting: int)
    requires waiting in start && polls != []
    ensures var n, rounds := |polls| - 1, Rounds(start, polls, intervals, waiting);
            && rounds[..n] == Rounds(start, polls[..n], intervals, waiting)
            && rounds[n].due == DueIn(AfterPolls(start, polls[..n]), polls[n], intervals)
            && rounds[n].measured == MeasuresLive(polls[n]) && rounds[n].wiped == WipedIn(polls[n])
  {
    var n := |polls| - 1;
    var rounds, front := Rounds(start, polls, intervals, waiting), Rounds(start, polls[..n], intervals, waiting);
    forall k | 0 <= k < n ensures rounds[k] == front[k] {
      assert polls[..n][..k] == polls[..k];
    }
  }

  lemma {:induction false} RoundsCount(start: Fleet, polls: seq<Poll>, intervals: int -> int, waiting: int)
    requires waiting in start
    ensures var rounds := Rounds(start, polls, intervals, waiting);
            && DueCount(rounds, waiting) == DuePolls(start, polls, intervals, waiting)
            && Misses(rounds, waiting) == MissedPolls(start, polls, intervals, waiting)
            && Wipes(rounds, waiting) == WipedRows(polls, waiting)
  {
    if polls != [] {
      RoundsFront(start, polls, intervals, waiting);
      RoundsCount(start, polls[..|polls| - 1], intervals, waiting);
    }
  }

  /**
   In a fleet of n components, a component due in at least n + W + F cycles of a run has been picked in one of them. W
   counts the wiped rows of the others, F the cycles in which it was due and the pick did not measure live.
   */
  lemma NobodyStarves(start: Fleet, polls: seq<Poll>, intervals: int -> int, waiting: int)
    requires IsFleetRun(start, polls, intervals) && waiting in start
    ensures DuePolls(start, polls, intervals, waiting)
            >= |start| + WipedRows(polls, waiting) + MissedPolls(start, polls, intervals, waiting) ==>
              exists k :: 0 <= k < |polls| && waiting in polls[k].picked
  {
    if DuePolls(start, polls, intervals, waiting)
       >= |start| + WipedRows(polls, waiting) + MissedPolls(start, polls, intervals, waiting)
    {
      if forall k :: 0 <= k < |polls| ==> waiting !in polls[k].picked {
        FleetIsSchedule(start, polls, intervals, waiting);
        RoundsCount(start, polls, intervals, waiting);
        assert |start.Keys| == |start|;
        BoundedWaiting(Rounds(start, polls, intervals, waiting), waiting, start.Keys);
      }
    }
  }

  ghost predicate StaysDue(start: Fleet, polls: seq<Poll>, intervals: int -> int, waiting: int) {
    forall k :: 0 <= k < |polls| ==> IsDueAt(start, polls, intervals, waiting, k)
  }

  ghost predicate IsDueAt(start: Fleet, polls: seq<Poll>, intervals: int -> int, waiting: int, k: nat)
    requires k < |polls|
  {
    waiting in DueIn(AfterPolls(start, polls[..k]), polls[k], intervals)
  }

  /** Without wiped rows of others and with every pick measuring live, one cycle for each component is enough. */
  lemma StaysDueIsPicked(start: Fleet, polls: seq<Poll>, intervals: int -> int, waiting: int)
    requires IsFleetRun(start, polls, intervals) && waiting in start && |polls| == |start|
    requires StaysDue(start, polls, intervals, waiting)
    requires forall poll <- polls :: MeasuresLive(poll) && WipedIn(poll) <= {waiting}
    ensures exists k :: 0 <= k < |polls| && waiting in polls[k].picked
  {
    EveryPollIsDue(start, polls, intervals, waiting);
    NothingMissed(start, polls, intervals, waiting);
    NobodyStarves(start, polls, intervals, waiting);
  }

  lemma FrontStaysDue(start: Fleet, polls: seq<Poll>, intervals: int -> int, waiting: int)
    requires StaysDue(start, polls, intervals, waiting) && polls != []
    ensures StaysDue(start, polls[..|polls| - 1], intervals, waiting)
  {
    var front := polls[..|polls| - 1];
    forall k | 0 <= k < |front| ensures IsDueAt(start, front, intervals, waiting, k) {
      assert front[..k] == polls[..k];
      assert IsDueAt(start, polls, intervals, waiting, k);
    }
  }

  lemma {:induction false} EveryPollIsDue(start: Fleet, polls: seq<Poll>, intervals: int -> int, waiting: int)
    requires StaysDue(start, polls, intervals, waiting)
    ensures DuePolls(start, polls, intervals, waiting) == |polls|
  {
    if polls != [] {
      FrontStaysDue(start, polls, intervals, waiting);
      assert IsDueAt(start, polls, intervals, waiting, |polls| - 1);
      EveryPollIsDue(start, polls[..|polls| - 1], intervals, waiting);
    }
  }

  lemma {:induction false} NothingMissed(start: Fleet, polls: seq<Poll>, intervals: int -> int, waiting: int)
    requires forall poll <- polls :: MeasuresLive(poll) && WipedIn(poll) <= {waiting}
    ensures MissedPolls(start, polls, intervals, waiting) == 0 && WipedRows(polls, waiting) == 0
  {
    if polls != [] {
      var last := polls[|polls| - 1];
      NothingMissed(start, polls[..|polls| - 1], intervals, waiting);
      assert last in polls && WipedIn(last) - {waiting} == {};
    }
  }
}

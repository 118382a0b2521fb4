/** Runs that keep a component waiting, which show that no term of the bound on waiting can be dropped or lowered. */
module SpeedTestStarvation {
  import opened Numbers
  import opened Options
  import opened CheckLog
  import opened NetworkEnrich
  import opened SpeedTestMemory
  import opened SpeedTestSchedule
  import opened CheckLogRuns
  import opened SpeedTestStagger
  import opened SpeedTestFleet
  import SpeedTestSlot
  import Sets

  const MEASURED := Some(Measure(true, 1_000_000, Some(800), NoError))

  function EntryAt(cycle: Cycle, now: int): Entry {
    Entry(cycle, now, now, 0)
  }

  function LiveEntry(now: int): Entry {
    EntryAt(Live(MEASURED, now), now)
  }

  // ---------- the slot ----------

  function Times(polls: seq<Poll>): seq<real> {
    seq(|polls|, k requires 0 <= k < |polls| => polls[k].now as real)
  }

  /** The slot can grant every live test of the run after those before it: each is stamped when its cycle starts. */
  ghost predicate FitsSlot(before: seq<real>, polls: seq<Poll>) {
    && SpeedTestSlot.Spaced(before + Times(polls))
    && forall poll, id :: poll in polls && id in poll.checks && poll.checks[id].cycle.Live? ==> poll.checks[id].cycle.stamp == poll.now
  }

  // ---------- runs, poll by poll ----------

  /** The component was due this often and never picked; this many rows of others were wiped, this many picks missed. */
  ghost predicate Waits(start: Fleet, polls: seq<Poll>, intervals: int -> int, waiting: int, due: nat, wiped: nat, missed: nat) {
    && IsFleetRun(start, polls, intervals)
    && (forall poll <- polls :: waiting !in poll.picked)
    && DuePolls(start, polls, intervals, waiting) == due
    && WipedRows(polls, waiting) == wiped
    && MissedPolls(start, polls, intervals, waiting) == missed
  }

  /** How many polls found the component due, how many rows of others were wiped, how many picks missed. */
  datatype Tally = Tally(due: nat, wiped: nat, missed: nat)

  const NOTHING := Tally(0, 0, 0)

  function Plus(a: Tally, b: Tally): Tally {
    Tally(a.due + b.due, a.wiped + b.wiped, a.missed + b.missed)
  }

  /** What one poll adds; nothing when it is no poll of this fleet, or picks the component. */
  ghost function OnePoll(fleet: Fleet, poll: Poll, intervals: int -> int, waiting: int): Option<Tally> {
    if !IsPoll(fleet, poll, intervals) || waiting in poll.picked then None
    else
      var isDue := IsDueIn(fleet, poll, intervals, waiting);
      Some(Tally(if isDue then 1 else 0, |WipedIn(poll) - {waiting}|, if isDue && !MeasuresLive(poll) then 1 else 0))
  }

  type Counter = (Fleet, Poll) -> Option<Tally>

  ghost function TallyOf(start: Fleet, polls: seq<Poll>, one: Counter): Option<Tally> {
    if polls == [] then Some(NOTHING)
    else
      var front, last := polls[..|polls| - 1], polls[|polls| - 1];
      var before, next := TallyOf(start, front, one), one(AfterPolls(start, front), last);
      if before.None? || next.None? then None else Some(Plus(before.value, next.value))
  }

  lemma {:induction false} PollsAppend(start: Fleet, a: seq<Poll>, b: seq<Poll>)
    ensures AfterPolls(start, a + b) == AfterPolls(AfterPolls(start, a), b)
  {
    if b == [] {
      assert a + b == a;
    } else {
      assert (a + b)[..|a + b| - 1] == a + b[..|b| - 1];
      PollsAppend(start, a, b[..|b| - 1]);
    }
  }

  lemma {:induction false} TallyAppends(start: Fleet, a: seq<Poll>, b: seq<Poll>, one: Counter)
    requires TallyOf(start, a, one).Some? && TallyOf(AfterPolls(start, a), b, one).Some?
    ensures TallyOf(start, a + b, one) == Some(Plus(TallyOf(start, a, one).value, TallyOf(AfterPolls(start, a), b, one).value))
  {
    if b == [] {
      assert a + b == a;
    } else {
      assert (a + b)[..|a + b| - 1] == a + b[..|b| - 1];
      PollsAppend(start, a, b[..|b| - 1]);
      TallyAppends(start, a, b[..|b| - 1], one);
    }
  }

  lemma {:induction false} TallyEach(start: Fleet, polls: seq<Poll>, one: Counter, k: nat)
    requires TallyOf(start, polls, one).Some? && k < |polls|
    ensures one(AfterPolls(start, polls[..k]), polls[k]).Some?
  {
    var front := polls[..|polls| - 1];
    if k < |front| {
      TallyEach(start, front, one, k);
      assert front[..k] == polls[..k];
    }
  }

  ghost predicate CountsPolls(one: Counter, intervals: int -> int, waiting: int) {
    forall fleet, poll :: one(fleet, poll) == OnePoll(fleet, poll, intervals, waiting)
  }

  lemma {:induction false} TallyDue(start: Fleet, polls: seq<Poll>, intervals: int -> int, waiting: int, one: Counter)
    requires TallyOf(start, polls, one).Some? && CountsPolls(one, intervals, waiting)
    ensures DuePolls(start, polls, intervals, waiting) == TallyOf(start, polls, one).value.due
  {
    if polls != [] {
      TallyDue(start, polls[..|polls| - 1], intervals, waiting, one);
    }
  }

  lemma {:induction false} TallyWiped(start: Fleet, polls: seq<Poll>, intervals: int -> int, waiting: int, one: Counter)
    requires TallyOf(start, polls, one).Some? && CountsPolls(one, intervals, waiting)
    ensures WipedRows(polls, waiting) == TallyOf(start, polls, one).value.wiped
  {
    if polls != [] {
      TallyWiped(start, polls[..|polls| - 1], intervals, waiting, one);
    }
  }

  lemma {:induction false} TallyMissed(start: Fleet, polls: seq<Poll>, intervals: int -> int, waiting: int, one: Counter)
    requires TallyOf(start, polls, one).Some? && CountsPolls(one, intervals, waiting)
    ensures MissedPolls(start, polls, intervals, waiting) == TallyOf(start, polls, one).value.missed
  {
    if polls != [] {
      TallyMissed(start, polls[..|polls| - 1], intervals, waiting, one);
    }
  }

  lemma TallyWaits(start: Fleet, polls: seq<Poll>, intervals: int -> int, waiting: int, one: Counter)
    requires TallyOf(start, polls, one).Some?
    requires CountsPolls(one, intervals, waiting)
    ensures var tally := TallyOf(start, polls, one).value;
            Waits(start, polls, intervals, waiting, tally.due, tally.wiped, tally.missed)
  {
    forall k | 0 <= k < |polls|
      ensures IsPoll(AfterPolls(start, polls[..k]), polls[k], intervals) && waiting !in polls[k].picked
    {
      TallyEach(start, polls, one, k);
    }
    TallyDue(start, polls, intervals, waiting, one);
    TallyWiped(start, polls, intervals, waiting, one);
    TallyMissed(start, polls, intervals, waiting, one);
  }

  lemma SlotFitsOneMore(before: seq<real>, polls: seq<Poll>, poll: Poll)
    requires FitsSlot(before, polls) && before + Times(polls) != []
    requires var times := before + Times(polls); poll.now as real - times[|times| - 1] >= SpeedTestSlot.MIN_GAP_SECONDS
    requires forall id <- poll.checks :: poll.checks[id].cycle.Live? ==> poll.checks[id].cycle.stamp == poll.now
    ensures FitsSlot(before, polls + [poll])
    ensures var times := before + Times(polls + [poll]); times != [] && times[|times| - 1] == poll.now as real
  {
    assert before + Times(polls + [poll]) == (before + Times(polls)) + [poll.now as real];
  }

  /** A run made step by step, each step knowing the fleet it finds. */
  function Steps(start: Fleet, next: (Fleet, nat) -> seq<Poll>, m: nat): seq<Poll> {
    if m == 0 then []
    else
      var front := Steps(start, next, m - 1);
      front + next(AfterPolls(start, front), m - 1)
  }

  /** What holds so far is kept by the next step. */
  ghost predicate StepKeeps(start: Fleet, next: (Fleet, nat) -> seq<Poll>, p: (seq<Poll>, nat) -> bool, polls: seq<Poll>, k: nat) {
    p(polls, k) ==> p(polls + next(AfterPolls(start, polls), k), k + 1)
  }

  lemma {:induction false} StepsKeep(start: Fleet, next: (Fleet, nat) -> seq<Poll>, m: nat, p: (seq<Poll>, nat) -> bool)
    requires p([], 0)
    requires forall polls, k: nat :: StepKeeps(start, next, p, polls, k)
    ensures p(Steps(start, next, m), m)
  {
    if m > 0 {
      StepsKeep(start, next, m - 1, p);
      assert StepKeeps(start, next, p, Steps(start, next, m - 1), m - 1);
    }
  }

  /** From a state of the fleet the step leads to the next one and adds the difference of the tallies. */
  ghost predicate StepCounts(next: (Fleet, nat) -> seq<Poll>, one: Counter, state: (Fleet, nat) -> bool, tally: nat -> Tally,
                             fleet: Fleet, k: nat) {
    state(fleet, k) ==>
      var step := TallyOf(fleet, next(fleet, k), one);
      && step.Some? && Plus(tally(k), step.value) == tally(k + 1)
      && state(AfterPolls(fleet, next(fleet, k)), k + 1)
  }

  lemma {:induction false} StepsTally(start: Fleet, next: (Fleet, nat) -> seq<Poll>, m: nat, one: Counter,
                                      state: (Fleet, nat) -> bool, tally: nat -> Tally)
    requires state(start, 0) && tally(0) == NOTHING
    requires forall fleet, k: nat :: k < m ==> StepCounts(next, one, state, tally, fleet, k)
    ensures TallyOf(start, Steps(start, next, m), one) == Some(tally(m))
    ensures state(AfterPolls(start, Steps(start, next, m)), m)
  {
    if m > 0 {
      StepsTally(start, next, m - 1, one, state, tally);
      var front := Steps(start, next, m - 1);
      var fleet := AfterPolls(start, front);
      assert StepCounts(next, one, state, tally, fleet, m - 1);
      TallyAppends(start, front, next(fleet, m - 1), one);
      PollsAppend(start, front, next(fleet, m - 1));
    }
  }

  // ---------- rows ----------

  /** Every live test was a success no later than this. */
  ghost predicate SucceededBy(entries: seq<Entry>, last: int) {
    forall e <- entries :: e.cycle.Live? ==> e.cycle.measure == MEASURED && e.cycle.stamp <= last
  }

  lemma {:induction false} SuccessfulHistory(entries: seq<Entry>, last: int)
    requires SucceededBy(entries, last)
    ensures !IsRateLimited(Attempt(entries))
    ensures Attempt(entries).Some? ==> IsBefore(Attempt(entries).value.measuredAt, last + 1)
    ensures IsBefore(SuccessStamp(entries), last + 1)
  {
    if entries != [] {
      var n := |entries| - 1;
      assert entries[n] in entries && forall e <- entries[..n] :: e in entries;
      SuccessfulHistory(entries[..n], last);
    }
  }

  lemma FleetIsEarlier(fleet: Fleet, last: int, stamp: int)
    requires last < stamp && forall id <- fleet :: SucceededBy(fleet[id], last)
    ensures IsLater(fleet, stamp)
  {
    forall id <- fleet ensures IsBefore(StampIn(fleet, id), stamp) && IsBefore(SuccessStamp(fleet[id]), stamp) {
      SuccessfulHistory(fleet[id], last);
      StampExactly(fleet[id]);
    }
  }

  /** Nothing is known of a live attempt: never measured, or the last row was wiped. */
  ghost predicate IsOpen(entries: seq<Entry>) {
    && Attempt(entries).None?
    && (LastSuccess(entries).None? || (entries != [] && entries[|entries| - 1].cycle.Wiped?))
  }

  /** Measured at time 0 and not wiped since. */
  ghost predicate IsWaiting(entries: seq<Entry>) {
    SucceededBy(entries, 0) && Attempt(entries).Some? && Attempt(entries).value.measuredAt == Some(0)
  }

  lemma OpenIsFirst(entries: seq<Entry>, interval: int, now: int)
    requires IsOpen(entries)
    ensures SchedulingStamp(Latest(Run(entries))) == None && ShouldRun(true, interval, Latest(Run(entries)), now)
  {
    StampExactly(entries);
    DueExactly(entries, interval, now);
  }

  lemma WaitingIsDue(entries: seq<Entry>, interval: int, now: int)
    requires IsWaiting(entries) && interval <= now
    ensures SchedulingStamp(Latest(Run(entries))) == Some(0) && ShouldRun(true, interval, Latest(Run(entries)), now)
  {
    SuccessfulHistory(entries, 0);
    StampExactly(entries);
    DueExactly(entries, interval, now);
  }

  lemma AfterRow(entries: seq<Entry>, cycle: Cycle, last: int, now: int)
    requires SucceededBy(entries, last) && last <= now && (cycle.Live? ==> cycle == Live(MEASURED, now))
    ensures SucceededBy(entries + [EntryAt(cycle, now)], now)
    ensures cycle.Wiped? ==> IsOpen(entries + [EntryAt(cycle, now)])
    ensures cycle.ProbeFailed? && IsOpen(entries) && LastSuccess(entries).None? ==>
              IsOpen(entries + [EntryAt(cycle, now)]) && LastSuccess(entries + [EntryAt(cycle, now)]).None?
    ensures cycle.StaggerDeferred? && IsWaiting(entries) ==> IsWaiting(entries + [EntryAt(cycle, now)])
    ensures cycle.Live? ==> Attempt(entries + [EntryAt(cycle, now)]).Some?
                            && Attempt(entries + [EntryAt(cycle, now)]).value.measuredAt == Some(now)
  {
    assert (entries + [EntryAt(cycle, now)])[..|entries|] == entries;
  }

  /** The open component is the pick, if every other one polled was measured before. */
  lemma OpenIsPicked(fleet: Fleet, poll: Poll, intervals: int -> int, hot: int, last: int)
    requires poll.checks.Keys <= fleet.Keys && hot in poll.checks && IsOpen(fleet[hot]) && poll.picked == {hot}
    requires forall id <- poll.checks :: id != hot ==> StampIn(fleet, id).Some?
    requires last < poll.now && forall id <- fleet :: SucceededBy(fleet[id], last)
    requires forall id <- poll.checks :: poll.checks[id].cycle.Live? ==> id == hot && poll.checks[id].cycle.stamp == poll.now
    ensures IsPoll(fleet, poll, intervals)
  {
    OpenIsFirst(fleet[hot], intervals(hot), poll.now);
    FleetIsEarlier(fleet, last, poll.now);
    Sets.SubsetSize({hot}, DueIn(fleet, poll, intervals));
  }

  // ---------- two components that time out in turns ----------

  /** Component 1 was never measured, 2 a minute ago, 3 at time 0. */
  function ThreeComponents(begin: int): Fleet {
    map[1 := [], 2 := [LiveEntry(begin - 60)], 3 := [LiveEntry(0)]]
  }

  /** `hot` measures live while `cold` times out. */
  function TurnPoll(hot: int, cold: int, now: int): Poll {
    Poll(now, id => id, {hot},
         map[hot := LiveEntry(now), cold := EntryAt(Wiped(true), now), 3 := EntryAt(StaggerDeferred, now)])
  }

  function Hot(k: nat): int { if k == 0 then 1 else Cold(k - 1) }

  function Cold(k: nat): int { if k == 0 then 2 else Hot(k - 1) }

  /** The start of the k-th cycle, a minute after the one before. */
  function Minute(begin: int, k: nat): (now: int)
    ensures now >= begin
  {
    if k == 0 then begin else Minute(begin, k - 1) + 60
  }

  function NextTurn(begin: int): (Fleet, nat) -> seq<Poll> {
    (fleet: Fleet, k: nat) => [TurnPoll(Hot(k), Cold(k), Minute(begin, k))]
  }

  /** It is the turn of `hot`, just wiped or never measured; `cold` was measured a minute ago. */
  ghost predicate IsTurn(fleet: Fleet, hot: int, cold: int, now: int) {
    && fleet.Keys == {1, 2, 3} && {hot, cold} == {1, 2}
    && (forall id <- fleet :: SucceededBy(fleet[id], now - 60))
    && IsOpen(fleet[hot]) && Attempt(fleet[cold]).Some? && Attempt(fleet[cold]).value.measuredAt == Some(now - 60)
    && IsWaiting(fleet[3])
  }

  lemma TurnStamps(fleet: Fleet, hot: int, cold: int, now: int)
    requires IsTurn(fleet, hot, cold, now)
    ensures StampIn(fleet, cold).Some? && StampIn(fleet, 3).Some?
  {
    StampExactly(fleet[cold]);
    StampExactly(fleet[3]);
  }

  lemma TurnIsPoll(fleet: Fleet, hot: int, cold: int, now: int, intervals: int -> int)
    requires IsTurn(fleet, hot, cold, now)
    ensures IsPoll(fleet, TurnPoll(hot, cold, now), intervals)
  {
    TurnStamps(fleet, hot, cold, now);
    OpenIsPicked(fleet, TurnPoll(hot, cold, now), intervals, hot, now - 60);
  }

  lemma TurnIsDue(fleet: Fleet, hot: int, cold: int, now: int, intervals: int -> int)
    requires IsTurn(fleet, hot, cold, now) && intervals(3) <= now
    ensures IsDueIn(fleet, TurnPoll(hot, cold, now), intervals, 3)
  {
    WaitingIsDue(fleet[3], intervals(3), now);
  }

  lemma TurnRows(hot: int, cold: int, now: int)
    requires {hot, cold} == {1, 2}
    ensures MeasuresLive(TurnPoll(hot, cold, now)) && WipedIn(TurnPoll(hot, cold, now)) - {3} == {cold}
  {
    var poll := TurnPoll(hot, cold, now);
    assert poll.checks[hot].cycle.Live? && poll.checks[cold].cycle.Wiped?;
  }

  lemma TurnCounts(fleet: Fleet, hot: int, cold: int, now: int, intervals: int -> int)
    requires IsTurn(fleet, hot, cold, now) && intervals(3) <= now
    ensures OnePoll(fleet, TurnPoll(hot, cold, now), intervals, 3) == Some(Tally(1, 1, 0))
  {
    TurnIsPoll(fleet, hot, cold, now, intervals);
    TurnIsDue(fleet, hot, cold, now, intervals);
    TurnRows(hot, cold, now);
  }

  lemma TurnAppends(fleet: Fleet, hot: int, cold: int, now: int)
    requires IsTurn(fleet, hot, cold, now)
    ensures var after := AfterPoll(fleet, TurnPoll(hot, cold, now));
            after.Keys == {1, 2, 3} && forall id <- after :: SucceededBy(after[id], now)
  {
    AfterRow(fleet[hot], Live(MEASURED, now), now - 60, now);
    AfterRow(fleet[cold], Wiped(true), now - 60, now);
    AfterRow(fleet[3], StaggerDeferred, now - 60, now);
  }

  lemma TurnGoesOn(fleet: Fleet, hot: int, cold: int, now: int)
    requires IsTurn(fleet, hot, cold, now)
    ensures IsTurn(AfterPoll(fleet, TurnPoll(hot, cold, now)), cold, hot, now + 60)
  {
    TurnAppends(fleet, hot, cold, now);
    AfterRow(fleet[hot], Live(MEASURED, now), now - 60, now);
    AfterRow(fleet[cold], Wiped(true), now - 60, now);
    AfterRow(fleet[3], StaggerDeferred, now - 60, now);
  }

  lemma TurnStart(begin: int)
    requires begin >= 120
    ensures IsTurn(ThreeComponents(begin), 1, 2, begin)
  {
    AfterRow([], Live(MEASURED, begin - 60), 0, begin - 60);
    AfterRow([], Live(MEASURED, 0), 0, 0);
    assert [] + [LiveEntry(begin - 60)] == [LiveEntry(begin - 60)] && [] + [LiveEntry(0)] == [LiveEntry(0)];
  }

  /** The slot fits, and no test was later than this. */
  ghost predicate FitsUntil(before: seq<real>, polls: seq<Poll>, last: int) {
    && FitsSlot(before, polls)
    && var times := before + Times(polls); times != [] && times[|times| - 1] <= last as real
  }

  lemma SinglePoll(fleet: Fleet, poll: Poll, one: Counter)
    ensures TallyOf(fleet, [poll], one) == one(fleet, poll)
    ensures AfterPolls(fleet, [poll]) == AfterPoll(fleet, poll)
  {}

  lemma TurnStep(fleet: Fleet, begin: int, k: nat, intervals: int -> int, one: Counter)
    requires IsTurn(fleet, Hot(k), Cold(k), Minute(begin, k)) && intervals(3) <= begin && CountsPolls(one, intervals, 3)
    ensures TallyOf(fleet, NextTurn(begin)(fleet, k), one) == Some(Tally(1, 1, 0))
    ensures IsTurn(AfterPolls(fleet, NextTurn(begin)(fleet, k)), Hot(k + 1), Cold(k + 1), Minute(begin, k + 1))
  {
    SinglePoll(fleet, TurnPoll(Hot(k), Cold(k), Minute(begin, k)), one);
    TurnCounts(fleet, Hot(k), Cold(k), Minute(begin, k), intervals);
    TurnGoesOn(fleet, Hot(k), Cold(k), Minute(begin, k));
  }

  ghost predicate IsTurnState(begin: int, state: (Fleet, nat) -> bool) {
    forall f, k: nat :: state(f, k) <==> IsTurn(f, Hot(k), Cold(k), Minute(begin, k))
  }

  lemma TurnCountsOn(begin: int, intervals: int -> int, one: Counter, state: (Fleet, nat) -> bool, tally: nat -> Tally,
                     fleet: Fleet, k: nat)
    requires IsTurnState(begin, state) && intervals(3) <= begin && CountsPolls(one, intervals, 3)
    requires tally(k) == Tally(k, k, 0) && tally(k + 1) == Tally(k + 1, k + 1, 0)
    ensures StepCounts(NextTurn(begin), one, state, tally, fleet, k)
  {
    if state(fleet, k) {
      TurnStep(fleet, begin, k, intervals, one);
    }
  }

  lemma TurnsTally(start: Fleet, begin: int, m: nat, intervals: int -> int, one: Counter, state: (Fleet, nat) -> bool)
    requires state(start, 0) && IsTurnState(begin, state) && intervals(3) <= begin && CountsPolls(one, intervals, 3)
    ensures TallyOf(start, Steps(start, NextTurn(begin), m), one) == Some(Tally(m, m, 0))
  {
    var tally := (k: nat) => Tally(k, k, 0);
    forall fleet, k: nat | k < m ensures StepCounts(NextTurn(begin), one, state, tally, fleet, k) {
      TurnCountsOn(begin, intervals, one, state, tally, fleet, k);
    }
    StepsTally(start, NextTurn(begin), m, one, state, tally);
  }

  lemma TurnsWait(start: Fleet, begin: int, m: nat, intervals: int -> int)
    requires IsTurn(start, 1, 2, begin) && intervals(3) <= begin
    ensures Waits(start, Steps(start, NextTurn(begin), m), intervals, 3, m, m, 0)
  {
    var one: Counter := (f, poll) => OnePoll(f, poll, intervals, 3);
    TurnsTally(start, begin, m, intervals, one, (f, k: nat) => IsTurn(f, Hot(k), Cold(k), Minute(begin, k)));
    TallyWaits(start, Steps(start, NextTurn(begin), m), intervals, 3, one);
  }

  lemma OneMoreFits(before: seq<real>, polls: seq<Poll>, poll: Poll, last: int)
    requires FitsUntil(before, polls, last) && poll.now >= last + 60
    requires forall id <- poll.checks :: poll.checks[id].cycle.Live? ==> poll.checks[id].cycle.stamp == poll.now
    ensures FitsUntil(before, polls + [poll], poll.now)
  {
    SlotFitsOneMore(before, polls, poll);
  }

  ghost predicate TurnsFitSoFar(before: seq<real>, begin: int, polls: seq<Poll>, k: nat) {
    |polls| == k && FitsUntil(before, polls, Minute(begin, k) - 60)
  }

  lemma TurnsFit(start: Fleet, begin: int, m: nat, before: seq<real>, p: (seq<Poll>, nat) -> bool)
    requires TurnsFitSoFar(before, begin, [], 0)
    requires forall polls, k: nat :: p(polls, k) <==> TurnsFitSoFar(before, begin, polls, k)
    ensures p(Steps(start, NextTurn(begin), m), m)
  {
    forall polls, k: nat ensures StepKeeps(start, NextTurn(begin), p, polls, k) {
      if p(polls, k) {
        OneMoreFits(before, polls, TurnPoll(Hot(k), Cold(k), Minute(begin, k)), Minute(begin, k) - 60);
      }
    }
    StepsKeep(start, NextTurn(begin), m, p);
  }

  lemma TurnsFitSlot(start: Fleet, begin: int, m: nat)
    requires begin >= 120
    ensures |Steps(start, NextTurn(begin), m)| == m && FitsSlot([0.0, (begin - 60) as real], Steps(start, NextTurn(begin), m))
  {
    var before := [0.0, (begin - 60) as real];
    assert before + Times([]) == before;
    TurnsFit(start, begin, m, before, (polls, k: nat) => TurnsFitSoFar(before, begin, polls, k));
  }

  /**
   Wiped rows must be counted: two components that time out in turns keep a third one, due in every cycle, from being
   picked, however long the run and whatever the intervals. The slot grants each of their tests.
   */
  lemma WipedRowsStarve(begin: int, m: nat, intervals: int -> int)
    requires begin >= 120 && intervals(3) <= begin
    ensures var start := ThreeComponents(begin); var polls := Steps(start, NextTurn(begin), m);
            && |polls| == m && FitsSlot([0.0, (begin - 60) as real], polls)
            && Waits(start, polls, intervals, 3, m, m, 0)
  {
    TurnStart(begin);
    TurnsWait(ThreeComponents(begin), begin, m, intervals);
    TurnsFitSlot(ThreeComponents(begin), begin, m);
  }

  // ---------- runs in which component 0 waits ----------

  /** Component 0 was measured at time 0, the others never. */
  function FreshFleet(n: nat): Fleet {
    if n == 0 then map[] else FreshFleet(n - 1)[n - 1 := if n == 1 then [LiveEntry(0)] else []]
  }

  lemma {:induction false} FreshRows(n: nat)
    ensures |FreshFleet(n)| == n && forall id :: id in FreshFleet(n) <==> 0 <= id < n
    ensures forall id <- FreshFleet(n) :: FreshFleet(n)[id] == if id == 0 then [LiveEntry(0)] else []
  {
    if n > 0 {
      FreshRows(n - 1);
    }
  }

  /** `hot` is picked and 0 is postponed; `hot` measures, or its probe fails. */
  function PairPoll(hot: int, cycle: Cycle, now: int): Poll {
    Poll(now, id => id, {hot}, map[hot := EntryAt(cycle, now), 0 := EntryAt(StaggerDeferred, now)])
  }

  /** Component 1 is polled alone, and picked if it is due; it does not measure. */
  function AlonePoll(fleet: Fleet, cycle: Cycle, now: int, intervals: int -> int): Poll {
    Poll(now, id => id, if 1 in fleet && ShouldRun(true, intervals(1), Latest(Run(fleet[1])), now) then {1} else {},
         map[1 := EntryAt(cycle, now)])
  }

  ghost predicate IsReady(fleet: Fleet, n: nat, last: int) {
    && (forall id :: id in fleet <==> 0 <= id < n)
    && (forall id <- fleet :: SucceededBy(fleet[id], last))
    && 0 in fleet && IsWaiting(fleet[0])
  }

  ghost predicate AreOpen(fleet: Fleet, first: int) {
    forall id <- fleet :: id >= first ==> IsOpen(fleet[id])
  }

  ghost predicate NeverSucceeded(fleet: Fleet, id: int) {
    id in fleet && LastSuccess(fleet[id]).None?
  }

  // One poll of component 0 and the one to measure.

  ghost predicate IsProbe(cycle: Cycle, now: int) {
    cycle == ProbeFailed || cycle == Live(MEASURED, now)
  }

  lemma PairIsPoll(fleet: Fleet, n: nat, hot: int, cycle: Cycle, now: int, intervals: int -> int)
    requires IsReady(fleet, n, now - 60) && 0 < hot < n && IsOpen(fleet[hot]) && IsProbe(cycle, now)
    ensures IsPoll(fleet, PairPoll(hot, cycle, now), intervals)
  {
    StampExactly(fleet[0]);
    OpenIsPicked(fleet, PairPoll(hot, cycle, now), intervals, hot, now - 60);
  }

  lemma PairRows(hot: int, cycle: Cycle, now: int)
    requires hot != 0 && IsProbe(cycle, now)
    ensures MeasuresLive(PairPoll(hot, cycle, now)) <==> cycle.Live?
    ensures WipedIn(PairPoll(hot, cycle, now)) == {}
  {
    assert PairPoll(hot, cycle, now).checks[hot].cycle == cycle;
  }

  lemma PairCounts(fleet: Fleet, n: nat, hot: int, cycle: Cycle, now: int, intervals: int -> int)
    requires IsReady(fleet, n, now - 60) && 0 < hot < n && IsOpen(fleet[hot]) && IsProbe(cycle, now) && intervals(0) <= now
    ensures OnePoll(fleet, PairPoll(hot, cycle, now), intervals, 0) == Some(Tally(1, 0, if cycle.Live? then 0 else 1))
  {
    PairIsPoll(fleet, n, hot, cycle, now, intervals);
    WaitingIsDue(fleet[0], intervals(0), now);
    PairRows(hot, cycle, now);
  }

  lemma PairAppends(fleet: Fleet, n: nat, hot: int, cycle: Cycle, now: int)
    requires IsReady(fleet, n, now - 60) && 0 < hot < n && IsProbe(cycle, now)
    ensures var after := AfterPoll(fleet, PairPoll(hot, cycle, now));
            && IsReady(after, n, now) && after[hot] == fleet[hot] + [EntryAt(cycle, now)]
            && forall id <- after :: id != 0 && id != hot ==> after[id] == fleet[id]
  {
    var after := AfterPoll(fleet, PairPoll(hot, cycle, now));
    AfterRow(fleet[hot], cycle, now - 60, now);
    AfterRow(fleet[0], StaggerDeferred, now - 60, now);
    forall id <- after ensures SucceededBy(after[id], now) {}
  }

  // One poll of component 1 alone.

  ghost predicate IsNoTest(cycle: Cycle) {
    cycle == ProbeFailed || cycle == Wiped(true)
  }

  lemma AloneIsPick(fleet: Fleet, cycle: Cycle, now: int, intervals: int -> int)
    requires 1 in fleet
    ensures var poll := AlonePoll(fleet, cycle, now, intervals);
            IsPick(poll.picked, DueIn(fleet, poll, intervals), 1, id => StampIn(fleet, id), poll.key)
  {
    var poll := AlonePoll(fleet, cycle, now, intervals);
    assert DueIn(fleet, poll, intervals) == poll.picked;
  }

  lemma AloneRows(fleet: Fleet, cycle: Cycle, now: int, intervals: int -> int)
    requires IsNoTest(cycle)
    ensures |WipedIn(AlonePoll(fleet, cycle, now, intervals)) - {0}| == if cycle.Wiped? then 1 else 0
    ensures forall id <- AlonePoll(fleet, cycle, now, intervals).checks ::
              id == 1 && !AlonePoll(fleet, cycle, now, intervals).checks[id].cycle.Live?
  {
    assert WipedIn(AlonePoll(fleet, cycle, now, intervals)) - {0} == if cycle.Wiped? then {1} else {};
  }

  lemma AloneCounts(fleet: Fleet, cycle: Cycle, now: int, intervals: int -> int)
    requires 1 in fleet && IsNoTest(cycle)
    ensures OnePoll(fleet, AlonePoll(fleet, cycle, now, intervals), intervals, 0)
            == Some(Tally(0, if cycle.Wiped? then 1 else 0, 0))
  {
    AloneIsPick(fleet, cycle, now, intervals);
    AloneRows(fleet, cycle, now, intervals);
  }

  lemma AloneAppends(fleet: Fleet, n: nat, cycle: Cycle, now: int, intervals: int -> int)
    requires IsReady(fleet, n, now - 60) && 1 < n && IsNoTest(cycle)
    ensures var after := AfterPoll(fleet, AlonePoll(fleet, cycle, now, intervals));
            && IsReady(after, n, now) && after[1] == fleet[1] + [EntryAt(cycle, now)]
            && forall id <- after :: id != 1 ==> after[id] == fleet[id]
  {
    var after := AfterPoll(fleet, AlonePoll(fleet, cycle, now, intervals));
    AfterRow(fleet[1], cycle, now - 60, now);
    forall id <- after ensures SucceededBy(after[id], now) {}
  }

  // Both of them.

  function Both(fleet: Fleet, hot: int, probe: Cycle, alone: Cycle, now: int, intervals: int -> int): seq<Poll> {
    var first := PairPoll(hot, probe, now);
    [first, AlonePoll(AfterPoll(fleet, first), alone, now + 60, intervals)]
  }

  lemma TwoPollsAfter(fleet: Fleet, a: Poll, b: Poll)
    ensures AfterPolls(fleet, [a, b]) == AfterPoll(AfterPoll(fleet, a), b)
  {
    assert [a, b][..1] == [a];
    assert AfterPolls(fleet, [a]) == AfterPoll(fleet, a);
  }

  lemma TwoPolls(fleet: Fleet, a: Poll, b: Poll, one: Counter)
    requires one(fleet, a).Some? && one(AfterPoll(fleet, a), b).Some?
    ensures TallyOf(fleet, [a, b], one) == Some(Plus(one(fleet, a).value, one(AfterPoll(fleet, a), b).value))
    ensures AfterPolls(fleet, [a, b]) == AfterPoll(AfterPoll(fleet, a), b)
  {
    SinglePoll(fleet, a, one);
    assert [a, b][..1] == [a];
  }

  lemma BothCount(fleet: Fleet, n: nat, hot: int, probe: Cycle, alone: Cycle, now: int, intervals: int -> int, one: Counter)
    requires IsReady(fleet, n, now - 60) && 0 < hot < n && IsOpen(fleet[hot]) && intervals(0) <= now
    requires IsProbe(probe, now) && IsNoTest(alone) && CountsPolls(one, intervals, 0)
    ensures var polls, first := Both(fleet, hot, probe, alone, now, intervals), PairPoll(hot, probe, now);
            && TallyOf(fleet, polls, one) == Some(Tally(1, if alone.Wiped? then 1 else 0, if probe.Live? then 0 else 1))
            && AfterPolls(fleet, polls) == AfterPoll(AfterPoll(fleet, first), polls[1])
  {
    var first := PairPoll(hot, probe, now);
    PairCounts(fleet, n, hot, probe, now, intervals);
    PairAppends(fleet, n, hot, probe, now);
    AloneCounts(AfterPoll(fleet, first), alone, now + 60, intervals);
    TwoPolls(fleet, first, AlonePoll(AfterPoll(fleet, first), alone, now + 60, intervals), one);
  }

  /** Whose rows are open afterwards: all that were open and were not polled, and component 1 after a wiped or failed row. */
  ghost predicate Leaves(fleet: Fleet, after: Fleet, n: nat, hot: int, probe: Cycle, alone: Cycle, now: int) {
    && IsReady(after, n, now + 60) && AreOpen(after, hot + 1)
    && (hot == 1 && alone.Wiped? ==> AreOpen(after, hot))
    && (hot == 1 && probe.ProbeFailed? && alone.ProbeFailed? && NeverSucceeded(fleet, 1) ==>
          AreOpen(after, hot) && NeverSucceeded(after, 1))
  }

  lemma BothLeave(fleet: Fleet, n: nat, hot: int, probe: Cycle, alone: Cycle, now: int, intervals: int -> int)
    requires IsReady(fleet, n, now - 60) && 0 < hot < n && AreOpen(fleet, hot)
    requires IsProbe(probe, now) && IsNoTest(alone)
    ensures var middle := AfterPoll(fleet, PairPoll(hot, probe, now));
            Leaves(fleet, AfterPoll(middle, AlonePoll(middle, alone, now + 60, intervals)), n, hot, probe, alone, now)
  {
    var first := PairPoll(hot, probe, now);
    var middle := AfterPoll(fleet, first);
    var after := AfterPoll(middle, AlonePoll(middle, alone, now + 60, intervals));
    PairAppends(fleet, n, hot, probe, now);
    AloneAppends(middle, n, alone, now + 60, intervals);
    AfterRow(middle[1], alone, now, now + 60);
    if hot == 1 {
      AfterRow(fleet[1], probe, now - 60, now);
    }
    forall id <- after | id >= hot + 1 ensures IsOpen(after[id]) {
      assert after[id] == fleet[id];
    }
  }

  lemma BothPollsLeave(fleet: Fleet, n: nat, hot: int, probe: Cycle, alone: Cycle, now: int, intervals: int -> int)
    requires IsReady(fleet, n, now - 60) && 0 < hot < n && AreOpen(fleet, hot)
    requires IsProbe(probe, now) && IsNoTest(alone)
    ensures Leaves(fleet, AfterPolls(fleet, Both(fleet, hot, probe, alone, now, intervals)), n, hot, probe, alone, now)
  {
    var first := PairPoll(hot, probe, now);
    BothLeave(fleet, n, hot, probe, alone, now, intervals);
    TwoPollsAfter(fleet, first, AlonePoll(AfterPoll(fleet, first), alone, now + 60, intervals));
  }

  lemma FreshIsReady(n: nat, last: int)
    requires n >= 2 && last >= 0
    ensures IsReady(FreshFleet(n), n, last) && AreOpen(FreshFleet(n), 1) && NeverSucceeded(FreshFleet(n), 1)
  {
    FreshRows(n);
    AfterRow([], Live(MEASURED, 0), 0, 0);
    assert [] + [LiveEntry(0)] == [LiveEntry(0)];
  }

  // ---------- a pick that never measures ----------

  function NextFailure(begin: int): (Fleet, nat) -> seq<Poll> {
    (fleet: Fleet, k: nat) => [PairPoll(1, ProbeFailed, Minute(begin, k))]
  }

  /** Component 1 was never measured, 0 at time 0. */
  ghost predicate IsFailing(fleet: Fleet, n: nat, now: int) {
    IsReady(fleet, n, now - 60) && NeverSucceeded(fleet, 1) && IsOpen(fleet[1])
  }

  lemma FailingGoesOn(fleet: Fleet, n: nat, now: int)
    requires IsFailing(fleet, n, now)
    ensures IsFailing(AfterPoll(fleet, PairPoll(1, ProbeFailed, now)), n, now + 60)
  {
    PairAppends(fleet, n, 1, ProbeFailed, now);
    AfterRow(fleet[1], ProbeFailed, now - 60, now);
  }

  lemma FailingStep(fleet: Fleet, n: nat, now: int, intervals: int -> int, one: Counter)
    requires IsFailing(fleet, n, now) && intervals(0) <= now && CountsPolls(one, intervals, 0)
    ensures TallyOf(fleet, [PairPoll(1, ProbeFailed, now)], one) == Some(Tally(1, 0, 1))
    ensures AfterPolls(fleet, [PairPoll(1, ProbeFailed, now)]) == AfterPoll(fleet, PairPoll(1, ProbeFailed, now))
  {
    SinglePoll(fleet, PairPoll(1, ProbeFailed, now), one);
    PairCounts(fleet, n, 1, ProbeFailed, now, intervals);
  }

  lemma FailuresTally(start: Fleet, n: nat, begin: int, m: nat, intervals: int -> int, one: Counter, state: (Fleet, nat) -> bool)
    requires state(start, 0) && intervals(0) <= begin && CountsPolls(one, intervals, 0)
    requires forall f, k: nat :: state(f, k) <==> IsFailing(f, n, Minute(begin, k))
    ensures TallyOf(start, Steps(start, NextFailure(begin), m), one) == Some(Tally(m, 0, m))
  {
    var tally := (k: nat) => Tally(k, 0, k);
    forall fleet, k: nat | k < m ensures StepCounts(NextFailure(begin), one, state, tally, fleet, k) {
      if state(fleet, k) {
        FailingStep(fleet, n, Minute(begin, k), intervals, one);
        FailingGoesOn(fleet, n, Minute(begin, k));
      }
    }
    StepsTally(start, NextFailure(begin), m, one, state, tally);
  }

  lemma {:induction false} FailuresLength(start: Fleet, begin: int, m: nat)
    ensures |Steps(start, NextFailure(begin), m)| == m
  {
    if m > 0 {
      FailuresLength(start, begin, m - 1);
    }
  }

  lemma FailuresWait(start: Fleet, n: nat, begin: int, m: nat, intervals: int -> int)
    requires IsFailing(start, n, begin) && intervals(0) <= begin
    ensures Waits(start, Steps(start, NextFailure(begin), m), intervals, 0, m, 0, m)
  {
    var one: Counter := (f, poll) => OnePoll(f, poll, intervals, 0);
    FailuresTally(start, n, begin, m, intervals, one, (f, k: nat) => IsFailing(f, n, Minute(begin, k)));
    TallyWaits(start, Steps(start, NextFailure(begin), m), intervals, 0, one);
  }

  /** Picks that do not measure must be counted: a failing probe keeps its place at the head, and nobody else is picked. */
  lemma FailingPickStarves(n: nat, begin: int, m: nat, intervals: int -> int)
    requires n >= 2 && begin >= 60 && intervals(0) <= begin
    ensures var polls := Steps(FreshFleet(n), NextFailure(begin), m);
            |polls| == m && Waits(FreshFleet(n), polls, intervals, 0, m, 0, m)
  {
    FreshIsReady(n, begin - 60);
    FailuresLength(FreshFleet(n), begin, m);
    FailuresWait(FreshFleet(n), n, begin, m, intervals);
  }

  // ---------- the bound is attained ----------

  /** How many components there are, how many rows are wiped, how many picks miss, and when it begins. */
  datatype Plan = Plan(n: nat, wiped: nat, missed: nat, begin: int, intervals: int -> int)
  {
    /** The one to measure in step `i`, and all after it, are open. */
    function Hot(i: nat): int {
      if i <= missed + wiped then 1 else i - missed - wiped + 1
    }

    function Probe(i: nat): Cycle {
      if i < missed then ProbeFailed else Live(MEASURED, At(i))
    }

    function Alone(i: nat): Cycle {
      if missed <= i < missed + wiped then Wiped(true) else ProbeFailed
    }

    /** Component 0 is polled every two minutes. */
    function At(i: nat): (now: int)
      ensures now >= begin
    {
      if i == 0 then begin else At(i - 1) + 120
    }

    function Next(): (Fleet, nat) -> seq<Poll> {
      (fleet: Fleet, i: nat) => Both(fleet, Hot(i), Probe(i), Alone(i), At(i), intervals)
    }

    function Length(): int {
      missed + wiped + n - 1
    }

    function Count(i: nat): Tally {
      Tally(i, if i < missed then 0 else Min(i - missed, wiped), Min(i, missed))
    }

    ghost predicate IsAt(fleet: Fleet, i: nat) {
      && IsReady(fleet, n, At(i) - 60) && AreOpen(fleet, Hot(i))
      && (i <= missed ==> NeverSucceeded(fleet, 1))
    }
  }

  lemma PlanCounts(plan: Plan, fleet: Fleet, i: nat, one: Counter)
    requires plan.n >= 2 && plan.intervals(0) <= plan.begin && CountsPolls(one, plan.intervals, 0)
    requires i < plan.Length() && plan.IsAt(fleet, i)
    ensures TallyOf(fleet, plan.Next()(fleet, i), one)
            == Some(Tally(1, if plan.Alone(i).Wiped? then 1 else 0, if plan.Probe(i).Live? then 0 else 1))
  {
    assert 0 < plan.Hot(i) < plan.n;
    BothCount(fleet, plan.n, plan.Hot(i), plan.Probe(i), plan.Alone(i), plan.At(i), plan.intervals, one);
  }

  lemma PlanPhases(plan: Plan, i: nat)
    requires plan.n >= 2 && i < plan.Length()
    ensures 0 < plan.Hot(i) < plan.n && IsProbe(plan.Probe(i), plan.At(i)) && IsNoTest(plan.Alone(i))
    ensures plan.At(i + 1) == plan.At(i) + 120
    ensures if i < plan.missed + plan.wiped then plan.Hot(i) == plan.Hot(i + 1) == 1 else plan.Hot(i + 1) == plan.Hot(i) + 1
    ensures i < plan.missed ==> plan.Probe(i) == ProbeFailed && plan.Alone(i) == ProbeFailed
    ensures plan.missed <= i < plan.missed + plan.wiped ==> plan.Alone(i) == Wiped(true)
  {}

  lemma PlanStateAfter(plan: Plan, fleet: Fleet, after: Fleet, i: nat)
    requires plan.n >= 2 && i < plan.Length() && plan.IsAt(fleet, i)
    requires Leaves(fleet, after, plan.n, plan.Hot(i), plan.Probe(i), plan.Alone(i), plan.At(i))
    ensures plan.IsAt(after, i + 1)
  {
    PlanPhases(plan, i);
  }

  lemma PlanLeaves(plan: Plan, fleet: Fleet, i: nat)
    requires plan.n >= 2 && i < plan.Length() && plan.IsAt(fleet, i)
    ensures Leaves(fleet, AfterPolls(fleet, plan.Next()(fleet, i)), plan.n, plan.Hot(i), plan.Probe(i), plan.Alone(i), plan.At(i))
  {
    PlanPhases(plan, i);
    BothPollsLeave(fleet, plan.n, plan.Hot(i), plan.Probe(i), plan.Alone(i), plan.At(i), plan.intervals);
  }

  lemma PlanGoesOn(plan: Plan, fleet: Fleet, i: nat)
    requires plan.n >= 2 && i < plan.Length() && plan.IsAt(fleet, i)
    ensures plan.IsAt(AfterPolls(fleet, plan.Next()(fleet, i)), i + 1)
  {
    PlanLeaves(plan, fleet, i);
    PlanStateAfter(plan, fleet, AfterPolls(fleet, plan.Next()(fleet, i)), i);
  }

  ghost predicate IsPlanState(plan: Plan, state: (Fleet, nat) -> bool) {
    forall f, k: nat :: state(f, k) <==> plan.IsAt(f, k)
  }

  lemma PlanStateGoesOn(plan: Plan, state: (Fleet, nat) -> bool, fleet: Fleet, k: nat)
    requires plan.n >= 2 && k < plan.Length() && IsPlanState(plan, state) && state(fleet, k)
    ensures state(AfterPolls(fleet, plan.Next()(fleet, k)), k + 1)
  {
    PlanGoesOn(plan, fleet, k);
  }

  lemma PlanStateCounts(plan: Plan, one: Counter, state: (Fleet, nat) -> bool, fleet: Fleet, k: nat)
    requires plan.n >= 2 && plan.intervals(0) <= plan.begin && CountsPolls(one, plan.intervals, 0)
    requires k < plan.Length() && IsPlanState(plan, state) && state(fleet, k)
    ensures var step := TallyOf(fleet, plan.Next()(fleet, k), one);
            step.Some? && Plus(plan.Count(k), step.value) == plan.Count(k + 1)
  {
    PlanCounts(plan, fleet, k, one);
  }

  lemma PlanCountsOn(plan: Plan, one: Counter, state: (Fleet, nat) -> bool, tally: nat -> Tally, fleet: Fleet, k: nat)
    requires plan.n >= 2 && plan.intervals(0) <= plan.begin && CountsPolls(one, plan.intervals, 0)
    requires IsPlanState(plan, state) && k < plan.Length()
    requires tally(k) == plan.Count(k) && tally(k + 1) == plan.Count(k + 1)
    ensures StepCounts(plan.Next(), one, state, tally, fleet, k)
  {
    if state(fleet, k) {
      PlanStateCounts(plan, one, state, fleet, k);
      PlanStateGoesOn(plan, state, fleet, k);
    }
  }

  lemma PlanTally(plan: Plan, start: Fleet, one: Counter, state: (Fleet, nat) -> bool)
    requires plan.n >= 2 && plan.intervals(0) <= plan.begin && CountsPolls(one, plan.intervals, 0)
    requires state(start, 0) && IsPlanState(plan, state)
    ensures TallyOf(start, Steps(start, plan.Next(), plan.Length()), one) == Some(plan.Count(plan.Length()))
  {
    var tally := (k: nat) => plan.Count(k);
    forall fleet, k: nat | k < plan.Length() ensures StepCounts(plan.Next(), one, state, tally, fleet, k) {
      PlanCountsOn(plan, one, state, tally, fleet, k);
    }
    StepsTally(start, plan.Next(), plan.Length(), one, state, tally);
  }

  ghost predicate PlanFitsSoFar(plan: Plan, before: seq<real>, polls: seq<Poll>, k: nat) {
    FitsUntil(before, polls, plan.At(k) - 60)
  }

  lemma PlanFitsOn(plan: Plan, start: Fleet, before: seq<real>, p: (seq<Poll>, nat) -> bool, polls: seq<Poll>, k: nat)
    requires forall x, i: nat :: p(x, i) <==> PlanFitsSoFar(plan, before, x, i)
    ensures StepKeeps(start, plan.Next(), p, polls, k)
  {
    if p(polls, k) {
      BothFit(AfterPolls(start, polls), before, polls, plan.Hot(k), plan.Probe(k), plan.Alone(k), plan.At(k), plan.intervals);
    }
  }

  lemma PlanFits(plan: Plan, start: Fleet, before: seq<real>, m: nat, p: (seq<Poll>, nat) -> bool)
    requires p([], 0) && forall polls, k: nat :: p(polls, k) <==> PlanFitsSoFar(plan, before, polls, k)
    ensures p(Steps(start, plan.Next(), m), m)
  {
    forall polls, k: nat ensures StepKeeps(start, plan.Next(), p, polls, k) {
      PlanFitsOn(plan, start, before, p, polls, k);
    }
    StepsKeep(start, plan.Next(), m, p);
  }

  lemma BothFit(fleet: Fleet, before: seq<real>, polls: seq<Poll>, hot: int, probe: Cycle, alone: Cycle, now: int,
                intervals: int -> int)
    requires FitsUntil(before, polls, now - 60) && IsProbe(probe, now) && IsNoTest(alone)
    ensures FitsUntil(before, polls + Both(fleet, hot, probe, alone, now, intervals), now + 60)
  {
    var both := Both(fleet, hot, probe, alone, now, intervals);
    OneMoreFits(before, polls, both[0], now - 60);
    OneMoreFits(before, polls + [both[0]], both[1], now);
    assert polls + both == (polls + [both[0]]) + [both[1]];
  }

  /**
   The bound cannot be lowered: for any number of components from two on, of wiped rows and of missed picks, and for any
   intervals, there is a run whose live tests the slot grants, in which a component due one time fewer than the bound is
   never picked.
   */
  lemma BoundIsAttained(plan: Plan)
    requires plan.n >= 2 && plan.begin >= 60 && plan.intervals(0) <= plan.begin
    ensures var start := FreshFleet(plan.n); var polls := Steps(start, plan.Next(), plan.Length());
            && |start| == plan.n && FitsSlot([0.0], polls)
            && Waits(start, polls, plan.intervals, 0, plan.n + plan.wiped + plan.missed - 1, plan.wiped, plan.missed)
  {
    var start := FreshFleet(plan.n);
    FreshRows(plan.n);
    FreshIsReady(plan.n, plan.begin - 60);
    assert [0.0] + Times([]) == [0.0];
    PlanFitsSlot(plan, start, [0.0]);
    PlanWaits(plan, start);
  }

  lemma PlanFitsSlot(plan: Plan, start: Fleet, before: seq<real>)
    requires plan.n >= 2 && FitsUntil(before, [], plan.begin - 60)
    ensures FitsSlot(before, Steps(start, plan.Next(), plan.Length()))
  {
    var p := (polls, k: nat) => PlanFitsSoFar(plan, before, polls, k);
    PlanFits(plan, start, before, plan.Length(), p);
  }

  lemma PlanWaits(plan: Plan, start: Fleet)
    requires plan.n >= 2 && plan.intervals(0) <= plan.begin && plan.IsAt(start, 0)
    ensures Waits(start, Steps(start, plan.Next(), plan.Length()), plan.intervals, 0, plan.Length(), plan.wiped, plan.missed)
  {
    var one: Counter := (f, poll) => OnePoll(f, poll, plan.intervals, 0);
    PlanTally(plan, start, one, (f, k: nat) => plan.IsAt(f, k));
    TallyWaits(start, Steps(start, plan.Next(), plan.Length()), plan.intervals, 0, one);
  }
}

/** What the persistent worker logs and how it waits, told from the outcomes of its probes and starts. */
module VpnAvailability {
  import opened Options
  import opened Uptime
  import opened VpnWorker

  // ---------- availability, told from the probes ----------

  /** The turn gets as far as probing through the tunnel. */
  ghost predicate ReachesProbe(w: World, turn: Turn) {
    && turn.load == RowFound(true)
    && ((w.handle.Some? && turn.up == IsUp) || (ReachesStart(w, turn) && turn.start.StartOk? && !turn.connectRaises))
  }

  /** The newest outcome noted, up or degraded. One that calls for an event is not noted when writing the event raises. */
  ghost function Noted(seen: Option<Outcome>, probe: Probe): Option<Outcome> {
    match probe
    case ProbeRaises => seen
    case ProbeDone(outcome, recordRaises, _) =>
      if outcome != Up && outcome != Degraded then seen
      else if recordRaises && (outcome == Degraded) != (seen == Some(Degraded)) then seen
      else Some(outcome)
  }

  ghost function NotedIn(w: World, turn: Turn, seen: Option<Outcome>): Option<Outcome> {
    if ReachesProbe(w, turn) then Noted(seen, turn.probe) else seen
  }

  ghost function NotedAfter(w: World, turns: seq<Turn>, seen: Option<Outcome>): Option<Outcome>
    decreases |turns|
  {
    if turns == [] then seen
    else
      var (after, flow) := Step(w, turns[0]);
      if flow.Leave? then NotedIn(w, turns[0], seen) else NotedAfter(after, turns[1..], NotedIn(w, turns[0], seen))
  }

  /** The worker remembers what was noted, and the last availability event tells it. */
  ghost predicate Remembers(w: World, seen: Option<Outcome>) {
    && (w.lastProbeOk == Some(false) <==> seen == Some(Degraded))
    && (IsUnavailable(w.events) <==> seen == Some(Degraded))
  }

  lemma RecordRemembers(w: World, event: EventKind)
    ensures IsUnavailable(Record(w, event).events) == (event == Unavailable || (event != Available && IsUnavailable(w.events)))
  {
    assert (w.events + [event])[..|w.events|] == w.events;
  }

  lemma ErrorRemembers(w: World, stop: bool, seen: Option<Outcome>)
    requires Remembers(w, seen)
    ensures Remembers(OnError(w, stop).0, seen)
  {
    RecordRemembers(w, TunnelDown);
  }

  /** The outcome calls for an event. */
  ghost predicate IsChange(seen: Option<Outcome>, outcome: Outcome) {
    (outcome == Degraded && seen != Some(Degraded)) || (outcome == Up && seen == Some(Degraded))
  }

  lemma TransitionExactly(w: World, outcome: Outcome, seen: Option<Outcome>)
    requires Remembers(w, seen)
    ensures Transition(w.lastProbeOk, outcome)
            == if !IsChange(seen, outcome) then None else if outcome == Degraded then Some(Unavailable) else Some(Available)
  {}

  lemma TransitionRemembers(w: World, outcome: Outcome, seen: Option<Outcome>)
    requires Remembers(w, seen)
    ensures Remembers(AfterTransition(w, outcome), if outcome == Up || outcome == Degraded then Some(outcome) else seen)
  {
    TransitionExactly(w, outcome, seen);
    RecordRemembers(w, Available);
    RecordRemembers(w, Unavailable);
  }

  lemma ProbeRemembers(w: World, turn: Turn, seen: Option<Outcome>)
    requires Remembers(w, seen)
    ensures Remembers(ProbePhase(w, turn).0, Noted(seen, turn.probe))
  {
    if turn.probe.ProbeRaises? {
      ErrorRemembers(w, turn.stop, seen);
    } else {
      TransitionExactly(w, turn.probe.outcome, seen);
      TransitionRemembers(w, turn.probe.outcome, seen);
      if turn.probe.recordRaises && IsChange(seen, turn.probe.outcome) {
        ErrorRemembers(w, turn.stop, seen);
      } else {
        ErrorRemembers(AfterTransition(w, turn.probe.outcome), turn.stop, Noted(seen, turn.probe));
      }
    }
  }

  lemma StartRemembers(w: World, turn: Turn, seen: Option<Outcome>)
    requires Remembers(w, seen)
    ensures Remembers(StartPhase(w, turn).0,
                      if turn.start.StartOk? && !turn.connectRaises then Noted(seen, turn.probe) else seen)
  {
    match turn.start
    case StartDenied =>
    case StartRaises => ErrorRemembers(w, turn.stop, seen);
    case StartFails => RecordRemembers(w, ConnectFailed);
    case StartOk =>
      if turn.connectRaises {
        ErrorRemembers(Started(w), turn.stop, seen);
      } else {
        RecordRemembers(w, TunnelUp);
        ProbeRemembers(Connected(w, turn.samplerStarts), turn, seen);
      }
  }

  lemma StepRemembers(w: World, turn: Turn, seen: Option<Outcome>)
    requires Remembers(w, seen)
    ensures Remembers(Step(w, turn).0, NotedIn(w, turn, seen))
  {
    if turn.load == RowFound(true) {
      var known := w.(rowKnown := true);
      if known.handle.None? {
        StartRemembers(WithoutSampler(known), turn, seen);
      } else if turn.up == UpCheckRaises {
        ErrorRemembers(known, turn.stop, seen);
      } else if turn.up == IsUp {
        ProbeRemembers(known, turn, seen);
      } else if turn.dropRaises {
        ErrorRemembers(WithoutSampler(known), turn.stop, seen);
      } else {
        RecordRemembers(WithoutSampler(known), TunnelDown);
        RecordRemembers(Dropped(known), Reconnect);
        if !turn.stopAtReconnect {
          StartRemembers(Record(Dropped(known), Reconnect), turn, seen);
        }
      }
    }
  }

  lemma {:induction false} RunRemembers(w: World, turns: seq<Turn>, seen: Option<Outcome>)
    requires Remembers(w, seen)
    ensures Remembers(RunTurns(w, turns), NotedAfter(w, turns, seen))
    decreases |turns|
  {
    if turns != [] {
      StepRemembers(w, turns[0], seen);
      var (after, flow) := Step(w, turns[0]);
      if flow.Again? {
        RunRemembers(after, turns[1..], NotedIn(w, turns[0], seen));
      }
    }
  }

  /** In every run the last availability event is a loss exactly when the newest outcome noted was degraded. */
  lemma LossIsDegraded(turns: seq<Turn>)
    ensures IsUnavailable(RunTurns(INITIAL, turns).events) <==> NotedAfter(INITIAL, turns, None) == Some(Degraded)
  {
    RunRemembers(INITIAL, turns, None);
  }

  /** The probe logs a loss, or a recovery. */
  ghost predicate ProbeLogs(probe: Probe, seen: Option<Outcome>, kind: EventKind) {
    && probe.ProbeDone? && !probe.recordRaises
    && ((kind == Unavailable && probe.outcome == Degraded && seen != Some(Degraded))
        || (kind == Available && probe.outcome == Up && seen == Some(Degraded)))
  }

  lemma TransitionLogs(w: World, outcome: Outcome, seen: Option<Outcome>, kind: EventKind)
    requires Remembers(w, seen) && (kind == Unavailable || kind == Available)
    ensures Count(AfterTransition(w, outcome).events, kind)
            == Count(w.events, kind) + if ProbeLogs(ProbeDone(outcome, false, false), seen, kind) then 1 else 0
  {
    TransitionExactly(w, outcome, seen);
    RecordCounts(w, Available, kind);
    RecordCounts(w, Unavailable, kind);
  }

  lemma ProbeChanges(w: World, turn: Turn, seen: Option<Outcome>, kind: EventKind)
    requires Remembers(w, seen) && (kind == Unavailable || kind == Available)
    ensures Count(ProbePhase(w, turn).0.events, kind)
            == Count(w.events, kind) + if ProbeLogs(turn.probe, seen, kind) then 1 else 0
  {
    if turn.probe.ProbeRaises? {
      ErrorCounts(w, turn.stop, kind);
    } else {
      TransitionExactly(w, turn.probe.outcome, seen);
      if turn.probe.recordRaises && IsChange(seen, turn.probe.outcome) {
        ErrorCounts(w, turn.stop, kind);
      } else {
        TransitionLogs(w, turn.probe.outcome, seen, kind);
        if turn.probe.intervalRaises {
          ErrorCounts(AfterTransition(w, turn.probe.outcome), turn.stop, kind);
        }
      }
    }
  }

  lemma StartChanges(w: World, turn: Turn, seen: Option<Outcome>, kind: EventKind)
    requires Remembers(w, seen) && (kind == Unavailable || kind == Available)
    ensures Count(StartPhase(w, turn).0.events, kind) == Count(w.events, kind)
              + if turn.start.StartOk? && !turn.connectRaises && ProbeLogs(turn.probe, seen, kind) then 1 else 0
  {
    match turn.start
    case StartDenied =>
    case StartRaises => ErrorCounts(w, turn.stop, kind);
    case StartFails => RecordCounts(w, ConnectFailed, kind);
    case StartOk =>
      if turn.connectRaises {
        ErrorCounts(Started(w), turn.stop, kind);
      } else {
        RecordCounts(w, TunnelUp, kind);
        RecordRemembers(w, TunnelUp);
        ProbeChanges(Connected(w, turn.samplerStarts), turn, seen, kind);
      }
  }

  lemma RecordChangesNothing(w: World, event: EventKind, seen: Option<Outcome>, kind: EventKind)
    requires Remembers(w, seen) && (kind == Unavailable || kind == Available) && event != Unavailable && event != Available
    ensures Remembers(Record(w, event), seen) && Count(Record(w, event).events, kind) == Count(w.events, kind)
  {
    RecordCounts(w, event, kind);
    RecordRemembers(w, event);
  }

  lemma DropChangesNothing(w: World, seen: Option<Outcome>, kind: EventKind)
    requires Remembers(w, seen) && (kind == Unavailable || kind == Available)
    ensures Remembers(Dropped(w), seen) && Remembers(Record(Dropped(w), Reconnect), seen)
    ensures Count(Dropped(w).events, kind) == Count(Record(Dropped(w), Reconnect).events, kind) == Count(w.events, kind)
  {
    RecordChangesNothing(WithoutSampler(w), TunnelDown, seen, kind);
    assert Dropped(w).events == Record(WithoutSampler(w), TunnelDown).events;
    RecordChangesNothing(Dropped(w), Reconnect, seen, kind);
  }

  /**
   A turn logs a loss exactly when it probes degraded after anything else noted, and a recovery exactly when it probes up
   after a degraded one, unless writing the event raises.
   */
  lemma ChangeIsLogged(w: World, turn: Turn, seen: Option<Outcome>, kind: EventKind)
    requires Remembers(w, seen) && (kind == Unavailable || kind == Available)
    ensures Count(Step(w, turn).0.events, kind)
            == Count(w.events, kind) + if ReachesProbe(w, turn) && ProbeLogs(turn.probe, seen, kind) then 1 else 0
  {
    if turn.load == RowFound(true) {
      var known := w.(rowKnown := true);
      if known.handle.None? {
        StartChanges(WithoutSampler(known), turn, seen, kind);
      } else if turn.up == UpCheckRaises {
        ErrorCounts(known, turn.stop, kind);
      } else if turn.up == IsUp {
        ProbeChanges(known, turn, seen, kind);
      } else if turn.dropRaises {
        ErrorCounts(WithoutSampler(known), turn.stop, kind);
      } else {
        DropChangesNothing(known, seen, kind);
        if !turn.stopAtReconnect {
          StartChanges(Record(Dropped(known), Reconnect), turn, seen, kind);
        }
      }
    }
  }

  // ---------- how a turn ends ----------

  /** The turn leaves before anything could fail: no row, nothing to run, or stopped while waiting to reconnect. */
  ghost predicate LeavesEarly(w: World, turn: Turn) {
    || turn.load != RowFound(true)
    || (w.handle.Some? && turn.up == IsNotUp && !turn.dropRaises && turn.stopAtReconnect)
  }

  /** The turn finds its session dead and drops it. */
  ghost predicate Drops(w: World, turn: Turn) {
    turn.load == RowFound(true) && w.handle.Some? && turn.up == IsNotUp && !turn.dropRaises
  }

  /** The turn gets through its probe, with nothing raised on the way. */
  ghost predicate ProbesThrough(w: World, turn: Turn, seen: Option<Outcome>) {
    && ReachesProbe(w, turn) && turn.probe.ProbeDone? && !turn.probe.intervalRaises
    && !(turn.probe.recordRaises && IsChange(seen, turn.probe.outcome))
  }

  /** Failures in a row after the turn: a started session begins anew. */
  ghost function FailuresAfter(w: World, turn: Turn, seen: Option<Outcome>): nat {
    var before := if ReachesStart(w, turn) && turn.start.StartOk? then 0 else w.failures;
    if LeavesEarly(w, turn) || ProbesThrough(w, turn, seen) || (ReachesStart(w, turn) && turn.start.StartDenied?) then before
    else before + 1
  }

  /** The delays after failures in a row. */
  ghost function Delay(failures: nat): nat {
    match failures
    case 0 => 0
    case 1 => 5
    case 2 => 10
    case 3 => 20
    case 4 => 40
    case _ => 60
  }

  ghost function Pauses(w: World, turn: Turn, seen: Option<Outcome>): seq<nat> {
    (if Drops(w, turn) then [5] else [])
    + (if LeavesEarly(w, turn) then []
       else if ReachesStart(w, turn) && turn.start.StartDenied? then [60]
       else if ProbesThrough(w, turn, seen) then [turn.interval]
       else [Delay(FailuresAfter(w, turn, seen))])
  }

  lemma ErrorEnds(w: World, stop: bool)
    ensures var (after, flow) := OnError(w, stop);
            && after.handle.None? && after.failures == w.failures + 1 && after.waits == w.waits + [Delay(w.failures + 1)]
            && (flow.Leave? <==> stop)
  {}

  lemma ProbeEnds(w: World, turn: Turn, seen: Option<Outcome>)
    requires Remembers(w, seen)
    ensures var (after, flow) := ProbePhase(w, turn);
            var through := turn.probe.ProbeDone? && !turn.probe.intervalRaises
                           && !(turn.probe.recordRaises && IsChange(seen, turn.probe.outcome));
            && after.handle == (if through then w.handle else None)
            && after.failures == (if through then w.failures else w.failures + 1)
            && after.waits == w.waits + [if through then turn.interval else Delay(w.failures + 1)]
            && (flow.Leave? <==> turn.stop)
  {
    ErrorEnds(w, turn.stop);
    if turn.probe.ProbeDone? {
      TransitionExactly(w, turn.probe.outcome, seen);
      ErrorEnds(AfterTransition(w, turn.probe.outcome), turn.stop);
    }
  }

  lemma StartEnds(w: World, turn: Turn, seen: Option<Outcome>)
    requires Remembers(w, seen) && w.handle.None?
    ensures var (after, flow) := StartPhase(w, turn);
            var started := turn.start.StartOk?;
            var through := started && !turn.connectRaises && turn.probe.ProbeDone? && !turn.probe.intervalRaises
                           && !(turn.probe.recordRaises && IsChange(seen, turn.probe.outcome));
            var failures := if started then 0 else w.failures;
            && after.handle == (if through then Some(w.started) else None)
            && after.failures == (if through || turn.start.StartDenied? then failures else failures + 1)
            && after.waits == w.waits + [if turn.start.StartDenied? then 60 else if through then turn.interval else Delay(failures + 1)]
            && (flow.Leave? <==> turn.stop)
  {
    match turn.start
    case StartDenied =>
    case StartRaises => ErrorEnds(w, turn.stop);
    case StartFails =>
    case StartOk =>
      if turn.connectRaises {
        ErrorEnds(Started(w), turn.stop);
      } else {
        RecordRemembers(w, TunnelUp);
        ProbeEnds(Connected(w, turn.samplerStarts), turn, seen);
      }
  }

  /**
   Every turn, whatever raises: whether the loop goes on, whether a session is held afterwards, the failures in a row, and
   how long the worker waits.
   */
  lemma TurnEnds(w: World, turn: Turn, seen: Option<Outcome>)
    requires Remembers(w, seen)
    ensures var (after, flow) := Step(w, turn);
            && (flow.Leave? <==> LeavesEarly(w, turn) || turn.stop)
            && (after.handle.Some? <==> ProbesThrough(w, turn, seen) || (turn.load != RowFound(true) && w.handle.Some?))
            && after.failures == FailuresAfter(w, turn, seen)
            && after.waits == w.waits + Pauses(w, turn, seen)
  {
    if turn.load == RowFound(true) {
      var known := w.(rowKnown := true);
      if known.handle.None? {
        StartEnds(WithoutSampler(known), turn, seen);
      } else {
        HeldTurnEnds(w, turn, seen);
      }
    }
  }

  lemma HeldTurnEnds(w: World, turn: Turn, seen: Option<Outcome>)
    requires Remembers(w, seen) && turn.load == RowFound(true) && w.handle.Some?
    ensures var (after, flow) := Step(w, turn);
            && (flow.Leave? <==> LeavesEarly(w, turn) || turn.stop)
            && (after.handle.Some? <==> ProbesThrough(w, turn, seen))
            && after.failures == FailuresAfter(w, turn, seen)
            && after.waits == w.waits + Pauses(w, turn, seen)
  {
    var known := w.(rowKnown := true);
    if turn.up == IsNotUp && !turn.dropRaises {
      DroppedTurnEnds(w, turn, seen);
    } else {
      assert !Drops(w, turn) && !ReachesStart(w, turn) && !LeavesEarly(w, turn);
      if turn.up == IsUp {
        ProbeEnds(known, turn, seen);
      } else {
        ErrorEnds(known, turn.stop);
        ErrorEnds(WithoutSampler(known), turn.stop);
      }
    }
  }

  lemma DroppedTurnEnds(w: World, turn: Turn, seen: Option<Outcome>)
    requires Remembers(w, seen) && Drops(w, turn)
    ensures var (after, flow) := Step(w, turn);
            && (flow.Leave? <==> LeavesEarly(w, turn) || turn.stop)
            && (after.handle.Some? <==> ProbesThrough(w, turn, seen))
            && after.failures == FailuresAfter(w, turn, seen)
            && after.waits == w.waits + Pauses(w, turn, seen)
  {
    if turn.stopAtReconnect {
      var after := Step(w, turn).0;
      assert after == Dropped(w.(rowKnown := true)) && after.handle.None? && after.failures == w.failures;
      assert Pauses(w, turn, seen) == [5];
    } else {
      RestartEnds(w, turn, seen);
    }
  }

  lemma RestartEnds(w: World, turn: Turn, seen: Option<Outcome>)
    requires Remembers(w, seen) && Drops(w, turn) && !turn.stopAtReconnect
    ensures var (after, flow) := Step(w, turn);
            && (flow.Leave? <==> turn.stop)
            && (after.handle.Some? <==> ProbesThrough(w, turn, seen))
            && after.failures == FailuresAfter(w, turn, seen)
            && after.waits == w.waits + Pauses(w, turn, seen)
  {
    var ready := Ready(w);
    RestartIsStart(w, turn);
    ReadyIsDropped(w, seen);
    StartEnds(ready, turn, seen);
    RestartPauses(w, turn, seen);
    Associates(w.waits, 5, Step(w, turn).0.waits[|ready.waits|]);
  }

  lemma Associates(waits: seq<nat>, a: nat, b: nat)
    ensures waits + ([a] + [b]) == (waits + [a]) + [b]
  {}

  /** The worker when its dead session is dropped and the reconnect is logged. */
  ghost function Ready(w: World): World {
    Record(Dropped(w.(rowKnown := true)), Reconnect)
  }

  lemma RestartIsStart(w: World, turn: Turn)
    requires Drops(w, turn) && !turn.stopAtReconnect
    ensures Step(w, turn) == StartPhase(Ready(w), turn)
  {}

  lemma ReadyIsDropped(w: World, seen: Option<Outcome>)
    requires Remembers(w, seen) && w.handle.Some?
    ensures var ready := Ready(w);
            Remembers(ready, seen) && ready.handle.None? && ready.failures == w.failures && ready.waits == w.waits + [5]
  {
    DropChangesNothing(w.(rowKnown := true), seen, Available);
  }

  lemma RestartPauses(w: World, turn: Turn, seen: Option<Outcome>)
    requires Drops(w, turn) && !turn.stopAtReconnect
    ensures var started := turn.start.StartOk?;
            var through := started && !turn.connectRaises && turn.probe.ProbeDone? && !turn.probe.intervalRaises
                           && !(turn.probe.recordRaises && IsChange(seen, turn.probe.outcome));
            var failures := if started then 0 else w.failures;
            && (through <==> ProbesThrough(w, turn, seen))
            && FailuresAfter(w, turn, seen) == (if through || turn.start.StartDenied? then failures else failures + 1)
            && Pauses(w, turn, seen)
               == [5] + [if turn.start.StartDenied? then 60 else if through then turn.interval else Delay(failures + 1)]
  {}

  /** A sampler runs after a turn exactly when a session is held and its sampler started with it. */
  lemma SamplerEnds(w: World, turn: Turn, seen: Option<Outcome>)
    requires Remembers(w, seen) && SessionsInOrder(w)
    ensures var after := Step(w, turn).0;
            after.sampler == if after.handle.None? then None
                             else if ReachesStart(w, turn) then (if turn.samplerStarts then after.handle else None)
                             else w.sampler
  {
    StepInOrder(w, turn);
    if turn.load == RowFound(true) {
      TurnEnds(w, turn, seen);
      if ReachesStart(w, turn) {
        StartedSampler(if w.handle.Some? then Record(Dropped(w.(rowKnown := true)), Reconnect)
                       else WithoutSampler(w.(rowKnown := true)), turn);
      }
    }
  }

  lemma StartedSampler(w: World, turn: Turn)
    requires w.handle.None?
    ensures var after := StartPhase(w, turn).0;
            after.handle.Some? ==> after.sampler == if turn.samplerStarts then after.handle else None
  {
    if turn.start.StartOk? && !turn.connectRaises {
      var connected := Connected(w, turn.samplerStarts);
      assert connected.sampler == if turn.samplerStarts then connected.handle else None;
      ProbeKeepsSampler(connected, turn);
    }
  }

  lemma ProbeKeepsSampler(w: World, turn: Turn)
    ensures var after := ProbePhase(w, turn).0;
            after.handle.Some? ==> after.sampler == w.sampler && after.handle == w.handle
  {
    assert OnError(w, turn.stop).0.handle.None?;
    if turn.probe.ProbeDone? {
      var probed := AfterTransition(w, turn.probe.outcome);
      assert probed.sampler == w.sampler && probed.handle == w.handle && OnError(probed, turn.stop).0.handle.None?;
    }
  }
}

/**
 The persistent OpenVPN worker's session loop. Every foreign call is an input of the turn: what the
 database returned, whether the tunnel was up, how the start went, what the probe said, what raised.
 Writing results and events and stopping sessions and samplers succeed; but the connect and disconnect
 events first load a context and probe the tunnel, which may raise before anything is written.
 */
module VpnWorker {
  import opened Options
  import opened Uptime

  datatype EventKind = TunnelUp | TunnelDown | Reconnect | ConnectFailed | Unavailable | Available

  datatype Load = LoadRaises | RowGone | RowFound(shouldRun: bool)
  datatype UpCheck = IsUp | IsNotUp | UpCheckRaises
  /** Only the start can raise the network-namespace permission error. */
  datatype Start = StartDenied | StartRaises | StartFails | StartOk
  /** `ProbeRaises` covers context, probe and saving; after the transition the interval lookup may raise. */
  datatype Probe = ProbeRaises | ProbeDone(outcome: Outcome, recordRaises: bool, intervalRaises: bool)

  /** `dropRaises` and `connectRaises`: the lifecycle probe before the disconnect or connect event raises.
      `stopAtReconnect` and `stop` are the answers of the stop event's waits, if they are reached. */
  datatype Turn = Turn(load: Load, up: UpCheck, dropRaises: bool, stopAtReconnect: bool, start: Start, connectRaises: bool,
                       samplerStarts: bool, probe: Probe, interval: nat, stop: bool)

  datatype Flow = Again | Leave

  /** The worker's variables, and what it did to the outside: events, sessions, samplers and waits. */
  datatype World = World(
    handle: Option<nat>, sampler: Option<nat>, failures: nat, rowKnown: bool, lastProbeOk: Option<bool>,
    events: seq<EventKind>, started: nat, stopped: seq<nat>, liveSamplers: set<nat>, waits: seq<nat>)

  const INITIAL := World(None, None, 0, false, None, [], 0, [], {}, [])

  const RECONNECT_DELAY_SECONDS: nat := 5
  const NETNS_BACKOFF_SECONDS: nat := 60
  const BACKOFF_CAP_SECONDS: nat := 60

  function Pow2(n: nat): nat {
    if n == 0 then 1 else 2 * Pow2(n - 1)
  }

  function Backoff(failures: nat): nat
    requires failures > 0
  {
    var delay := RECONNECT_DELAY_SECONDS * Pow2(if failures - 1 <= 4 then failures - 1 else 4);
    if delay <= BACKOFF_CAP_SECONDS then delay else BACKOFF_CAP_SECONDS
  }

  // ---------- what each part of a turn does ----------

  function Record(w: World, event: EventKind): World {
    w.(events := w.events + [event])
  }

  function Wait(w: World, seconds: nat): World {
    w.(waits := w.waits + [seconds])
  }

  function WithoutSampler(w: World): World {
    if w.sampler.None? then w else w.(sampler := None, liveSamplers := w.liveSamplers - {w.sampler.value})
  }

  function WithoutSession(w: World): World {
    if w.handle.None? then w else w.(handle := None, stopped := w.stopped + [w.handle.value])
  }

  function FlowOf(stop: bool): Flow {
    if stop then Leave else Again
  }

  function OnDenied(w: World, stop: bool): (World, Flow) {
    (Wait(WithoutSession(WithoutSampler(w)), NETNS_BACKOFF_SECONDS), FlowOf(stop))
  }

  function OnError(w: World, stop: bool): (World, Flow) {
    var failed := w.(failures := w.failures + 1);
    var cleaned := WithoutSession(WithoutSampler(failed));
    (Wait(if w.handle.Some? then Record(cleaned, TunnelDown) else cleaned, Backoff(failed.failures)), FlowOf(stop))
  }

  /** The event, if any, by which a probe's outcome changes the availability seen through the tunnel. */
  function Transition(lastProbeOk: Option<bool>, outcome: Outcome): Option<EventKind> {
    if outcome == Up then (if lastProbeOk == Some(false) then Some(Available) else None)
    else if outcome == Degraded then (if lastProbeOk == Some(false) then None else Some(Unavailable))
    else None
  }

  function AfterTransition(w: World, outcome: Outcome): World {
    var event := Transition(w.lastProbeOk, outcome);
    var recorded := if event.Some? then Record(w, event.value) else w;
    if outcome == Up || outcome == Degraded then recorded.(lastProbeOk := Some(outcome == Up)) else recorded
  }

  function ProbePhase(w: World, turn: Turn): (World, Flow) {
    if turn.probe.ProbeRaises? then OnError(w, turn.stop)
    else if turn.probe.recordRaises && Transition(w.lastProbeOk, turn.probe.outcome).Some? then OnError(w, turn.stop)
    else
      var probed := AfterTransition(w, turn.probe.outcome);
      if turn.probe.intervalRaises then OnError(probed, turn.stop)
      else (Wait(probed, turn.interval), FlowOf(turn.stop))
  }

  function Started(w: World): World {
    w.(handle := Some(w.started), started := w.started + 1, failures := 0)
  }

  /** A new session, its connect event, and its ping sampler unless that fails to start. */
  function Connected(w: World, samplerStarts: bool): World {
    var connected := Record(Started(w), TunnelUp);
    if samplerStarts then connected.(sampler := connected.handle, liveSamplers := w.liveSamplers + {w.started})
    else connected.(sampler := None)
  }

  function StartPhase(w: World, turn: Turn): (World, Flow) {
    match turn.start
    case StartDenied => OnDenied(w, turn.stop)
    case StartRaises => OnError(w, turn.stop)
    case StartFails =>
      var failed := Record(w.(failures := w.failures + 1), ConnectFailed);
      (Wait(failed, Backoff(failed.failures)), FlowOf(turn.stop))
    case StartOk =>
      if turn.connectRaises then OnError(Started(w), turn.stop) else ProbePhase(Connected(w, turn.samplerStarts), turn)
  }

  /** A dead session: its disconnect event, the stop, and the pause before reconnecting. */
  function Dropped(w: World): World {
    Wait(WithoutSession(Record(WithoutSampler(w), TunnelDown)), RECONNECT_DELAY_SECONDS)
  }

  function Step(w: World, turn: Turn): (World, Flow) {
    match turn.load
    case LoadRaises => (w, Leave)
    case RowGone => (w.(rowKnown := false), Leave)
    case RowFound(shouldRun) =>
      var known := w.(rowKnown := true);
      if !shouldRun then (known, Leave)
      else if known.handle.Some? && turn.up == UpCheckRaises then OnError(known, turn.stop)
      else if known.handle.Some? && turn.up == IsUp then ProbePhase(known, turn)
      else if known.handle.Some? && turn.dropRaises then OnError(WithoutSampler(known), turn.stop)
      else if known.handle.Some? then
        if turn.stopAtReconnect then (Dropped(known), Leave) else StartPhase(Record(Dropped(known), Reconnect), turn)
      else StartPhase(WithoutSampler(known), turn)
  }

  /** The worker's `finally`: `reload` is used only if the row had been found gone. */
  function Finish(w: World, reload: Load): World {
    var cleaned := WithoutSession(WithoutSampler(w));
    if w.handle.Some? && (w.rowKnown || reload.RowFound?) then Record(cleaned.(rowKnown := true), TunnelDown) else cleaned
  }

  /** Turns until one leaves the loop, or until the stop event is found set at the loop head. */
  function RunTurns(w: World, turns: seq<Turn>): World
    decreases |turns|
  {
    if turns == [] then w
    else
      var (after, flow) := Step(w, turns[0]);
      if flow.Leave? then after else RunTurns(after, turns[1..])
  }

  class PersistentWorker {
    var handle: Option<nat>
    var sampler: Option<nat>
    var failures: nat
    var rowKnown: bool
    var lastProbeOk: Option<bool>
    var events: seq<EventKind>
    var started: nat
    var stopped: seq<nat>
    var liveSamplers: set<nat>
    var waits: seq<nat>

    ghost function State(): World
      reads this
    {
      World(handle, sampler, failures, rowKnown, lastProbeOk, events, started, stopped, liveSamplers, waits)
    }

    constructor ()
      ensures State() == INITIAL
    {
      handle, sampler, failures, rowKnown, lastProbeOk := None, None, 0, false, None;
      events, started, stopped, liveSamplers, waits := [], 0, [], {}, [];
    }

    method StopSampler()
      modifies this
      ensures State() == WithoutSampler(old(State()))
    {
      if sampler.Some? {
        liveSamplers := liveSamplers - {sampler.value};
        sampler := None;
      }
    }

    method StopSession()
      requires handle.Some?
      modifies this
      ensures State() == WithoutSession(old(State()))
    {
      stopped := stopped + [handle.value];
      handle := None;
    }

    method HandleDenied(stop: bool) returns (flow: Flow)
      modifies this
      ensures (State(), flow) == OnDenied(old(State()), stop)
    {
      StopSampler();
      if handle.Some? {
        StopSession();
      }
      waits := waits + [NETNS_BACKOFF_SECONDS];
      return FlowOf(stop);
    }

    method HandleError(stop: bool) returns (flow: Flow)
      modifies this
      ensures (State(), flow) == OnError(old(State()), stop)
    {
      failures := failures + 1;
      var backoff := Backoff(failures);
      StopSampler();
      if handle.Some? {
        StopSession();
        events := events + [TunnelDown];
      }
      waits := waits + [backoff];
      return FlowOf(stop);
    }

    /** Records a change of availability; raises before noting the outcome when recording raises. */
    method MaybeRecordProbeTransition(outcome: Outcome, recordRaises: bool) returns (raised: bool)
      modifies this
      ensures raised == (recordRaises && Transition(old(lastProbeOk), outcome).Some?)
      ensures State() == if raised then old(State()) else AfterTransition(old(State()), outcome)
    {
      if outcome != Up && outcome != Degraded {
        return false;
      }
      var probeOk := outcome == Up;
      if lastProbeOk == Some(false) && probeOk {
        if recordRaises {
          return true;
        }
        events := events + [Available];
      } else if lastProbeOk != Some(false) && !probeOk {
        if recordRaises {
          return true;
        }
        events := events + [Unavailable];
      }
      lastProbeOk := Some(probeOk);
      return false;
    }

    method ProbeOnce(turn: Turn) returns (flow: Flow)
      modifies this
      ensures (State(), flow) == ProbePhase(old(State()), turn)
    {
      if turn.probe.ProbeRaises? {
        flow := HandleError(turn.stop);
        return;
      }
      var raised := MaybeRecordProbeTransition(turn.probe.outcome, turn.probe.recordRaises);
      if raised || turn.probe.intervalRaises {
        flow := HandleError(turn.stop);
        return;
      }
      waits := waits + [turn.interval];
      return FlowOf(turn.stop);
    }

    method TakeTurn(turn: Turn) returns (flow: Flow)
      modifies this
      ensures (State(), flow) == Step(old(State()), turn)
    {
      if turn.load.LoadRaises? {
        return Leave;
      }
      rowKnown := turn.load.RowFound?;
      if !rowKnown || !turn.load.shouldRun {
        return Leave;
      }
      if handle.Some? && turn.up == UpCheckRaises {
        flow := HandleError(turn.stop);
        return;
      }
      if handle.Some? && turn.up == IsUp {
        flow := ProbeOnce(turn);
        return;
      }
      StopSampler();
      if handle.Some? {
        if turn.dropRaises {
          flow := HandleError(turn.stop);
          return;
        }
        events := events + [TunnelDown];
        StopSession();
        waits := waits + [RECONNECT_DELAY_SECONDS];
        if turn.stopAtReconnect {
          return Leave;
        }
        events := events + [Reconnect];
      }
      flow := StartAndProbe(turn);
    }

    method StartAndProbe(turn: Turn) returns (flow: Flow)
      modifies this
      ensures (State(), flow) == StartPhase(old(State()), turn)
    {
      match turn.start {
        case StartDenied =>
          flow := HandleDenied(turn.stop);
        case StartRaises =>
          flow := HandleError(turn.stop);
        case StartFails =>
          failures := failures + 1;
          events := events + [ConnectFailed];
          waits := waits + [Backoff(failures)];
          flow := FlowOf(turn.stop);
        case StartOk =>
          var raised := Connect(turn.connectRaises, turn.samplerStarts);
          if raised {
            flow := HandleError(turn.stop);
          } else {
            flow := ProbeOnce(turn);
          }
      }
    }

    method Connect(connectRaises: bool, samplerStarts: bool) returns (raised: bool)
      modifies this
      ensures raised == connectRaises
      ensures State() == if raised then Started(old(State())) else Connected(old(State()), samplerStarts)
    {
      handle, started := Some(started), started + 1;
      failures := 0;
      if connectRaises {
        return true;
      }
      events := events + [TunnelUp];
      if samplerStarts {
        sampler := handle;
        liveSamplers := liveSamplers + {handle.value};
      } else {
        sampler := None;
      }
      return false;
    }

    method Run(turns: seq<Turn>, reload: Load)
      modifies this
      ensures State() == Finish(RunTurns(old(State()), turns), reload)
    {
      var i := 0;
      while i < |turns|
        invariant 0 <= i <= |turns|
        invariant RunTurns(State(), turns[i..]) == RunTurns(old(State()), turns)
      {
        assert turns[i..][1..] == turns[i + 1..];
        var flow := TakeTurn(turns[i]);
        if flow.Leave? {
          break;
        }
        i := i + 1;
      }
      assert State() == RunTurns(old(State()), turns);
      StopSampler();
      if handle.Some? {
        StopSession();
        if !rowKnown && reload.RowFound? {
          rowKnown := true;
        }
        if rowKnown {
          events := events + [TunnelDown];
        }
      }
    }
  }

  // ---------- what every run keeps ----------

  /** The last tunnel event is a connect. */
  predicate IsOpen(events: seq<EventKind>) {
    if events == [] then false
    else
      var last := events[|events| - 1];
      if last == TunnelUp then true else if last == TunnelDown then false else IsOpen(events[..|events| - 1])
  }

  /** The last availability event is a loss. */
  predicate IsUnavailable(events: seq<EventKind>) {
    if events == [] then false
    else
      var last := events[|events| - 1];
      if last == Unavailable then true else if last == Available then false else IsUnavailable(events[..|events| - 1])
  }

  ghost predicate Fits(before: seq<EventKind>, event: EventKind) {
    match event
    case TunnelUp => !IsOpen(before)
    case TunnelDown => IsOpen(before)
    case Reconnect => before != [] && before[|before| - 1] == TunnelDown
    case ConnectFailed => !IsOpen(before)
    case Unavailable => IsOpen(before) && !IsUnavailable(before)
    case Available => IsOpen(before) && IsUnavailable(before)
  }

  /** Connects and disconnects alternate, losses and recoveries alternate, reconnects directly follow a disconnect. */
  ghost predicate WellLogged(events: seq<EventKind>) {
    forall i :: 0 <= i < |events| ==> Fits(events[..i], events[i])
  }

  ghost function FirstIds(n: nat): seq<nat> {
    seq(n, i => i)
  }

  /** Sessions are stopped once and in order, and a sampler lives only with the held session. */
  ghost predicate SessionsInOrder(w: World) {
    && (w.handle.Some? ==> w.started == w.handle.value + 1)
    && w.stopped == FirstIds(if w.handle.Some? then w.started - 1 else w.started)
    && (w.sampler.Some? ==> w.sampler == w.handle)
    && w.liveSamplers == (if w.sampler.Some? then {w.sampler.value} else {})
  }

  /** The log tells what the worker holds. */
  ghost predicate LogAgrees(w: World) {
    && WellLogged(w.events)
    && IsOpen(w.events) == w.handle.Some?
    && IsUnavailable(w.events) == (w.lastProbeOk == Some(false))
  }

  lemma RecordKeeps(w: World, event: EventKind)
    requires WellLogged(w.events) && Fits(w.events, event)
    ensures WellLogged(Record(w, event).events)
    ensures IsOpen(Record(w, event).events) == (event == TunnelUp || (event != TunnelDown && IsOpen(w.events)))
    ensures IsUnavailable(Record(w, event).events) == (event == Unavailable || (event != Available && IsUnavailable(w.events)))
  {
    var after := w.events + [event];
    assert after[..|w.events|] == w.events;
    forall i | 0 <= i < |after| ensures Fits(after[..i], after[i]) {
      assert after[..i] == if i < |w.events| then w.events[..i] else w.events;
    }
  }

  lemma StopKeeps(w: World)
    requires SessionsInOrder(w) && w.handle.Some?
    ensures WithoutSession(WithoutSampler(w)).stopped == FirstIds(w.started)
    ensures WithoutSampler(w).liveSamplers == {}
  {}

  // ---------- sessions and samplers, whatever raises ----------

  lemma ErrorInOrder(w: World, stop: bool)
    requires SessionsInOrder(w)
    ensures SessionsInOrder(OnError(w, stop).0) && OnError(w, stop).0.handle.None?
  {
    if w.handle.Some? {
      StopKeeps(w);
    }
  }

  lemma TransitionInOrder(w: World, outcome: Outcome)
    requires SessionsInOrder(w)
    ensures SessionsInOrder(AfterTransition(w, outcome))
  {}

  lemma ProbeInOrder(w: World, turn: Turn)
    requires SessionsInOrder(w)
    ensures SessionsInOrder(ProbePhase(w, turn).0)
  {
    if turn.probe.ProbeRaises? {
      ErrorInOrder(w, turn.stop);
    } else if turn.probe.recordRaises && Transition(w.lastProbeOk, turn.probe.outcome).Some? {
      ErrorInOrder(w, turn.stop);
    } else {
      TransitionInOrder(w, turn.probe.outcome);
      if turn.probe.intervalRaises {
        ErrorInOrder(AfterTransition(w, turn.probe.outcome), turn.stop);
      }
    }
  }

  lemma StartInOrder(w: World, turn: Turn)
    requires SessionsInOrder(w) && w.handle.None? && w.sampler.None?
    ensures SessionsInOrder(StartPhase(w, turn).0)
  {
    match turn.start
    case StartDenied =>
    case StartRaises => ErrorInOrder(w, turn.stop);
    case StartFails =>
    case StartOk =>
      ErrorInOrder(Started(w), turn.stop);
      ProbeInOrder(Connected(w, turn.samplerStarts), turn);
  }

  lemma DroppedInOrder(w: World)
    requires SessionsInOrder(w) && w.handle.Some?
    ensures SessionsInOrder(Dropped(w)) && Dropped(w).handle.None? && Dropped(w).sampler.None?
  {
    StopKeeps(w);
  }

  /** Every turn keeps sessions and samplers in order, whatever raises where. */
  lemma StepInOrder(w: World, turn: Turn)
    requires SessionsInOrder(w)
    ensures SessionsInOrder(Step(w, turn).0)
  {
    if turn.load.RowFound? && turn.load.shouldRun {
      var known := w.(rowKnown := true);
      ErrorInOrder(known, turn.stop);
      if known.handle.None? {
        StartInOrder(known, turn);
      } else if turn.up == IsUp {
        ProbeInOrder(known, turn);
      } else if turn.up == IsNotUp {
        ErrorInOrder(WithoutSampler(known), turn.stop);
        DroppedInOrder(known);
        StartInOrder(Record(Dropped(known), Reconnect), turn);
      }
    }
  }

  lemma {:induction false} RunInOrder(w: World, turns: seq<Turn>)
    requires SessionsInOrder(w)
    ensures SessionsInOrder(RunTurns(w, turns))
    decreases |turns|
  {
    if turns != [] {
      StepInOrder(w, turns[0]);
      var (after, flow) := Step(w, turns[0]);
      if flow.Again? {
        RunInOrder(after, turns[1..]);
      }
    }
  }

  // ---------- the log agrees until a connect goes unlogged ----------

  lemma {:induction false} ErrorAgrees(w: World, stop: bool)
    requires LogAgrees(w)
    ensures LogAgrees(OnError(w, stop).0)
  {
    if w.handle.Some? {
      RecordKeeps(w, TunnelDown);
    }
  }

  lemma {:induction false} TransitionAgrees(w: World, outcome: Outcome)
    requires LogAgrees(w) && w.handle.Some?
    ensures LogAgrees(AfterTransition(w, outcome)) && AfterTransition(w, outcome).handle == w.handle
  {
    var event := Transition(w.lastProbeOk, outcome);
    if event.Some? {
      RecordKeeps(w, event.value);
    }
  }

  lemma {:induction false} ProbeAgrees(w: World, turn: Turn)
    requires LogAgrees(w) && w.handle.Some?
    ensures LogAgrees(ProbePhase(w, turn).0)
  {
    if turn.probe.ProbeRaises? {
      ErrorAgrees(w, turn.stop);
    } else if turn.probe.recordRaises && Transition(w.lastProbeOk, turn.probe.outcome).Some? {
      ErrorAgrees(w, turn.stop);
    } else {
      TransitionAgrees(w, turn.probe.outcome);
      if turn.probe.intervalRaises {
        ErrorAgrees(AfterTransition(w, turn.probe.outcome), turn.stop);
      }
    }
  }

  /** A session whose connect event was not written is closed by a disconnect event that nothing opened. */
  lemma UnloggedConnect(w: World, stop: bool)
    requires LogAgrees(w) && w.handle.None?
    ensures !WellLogged(OnError(Started(w), stop).0.events)
  {
    var after := OnError(Started(w), stop).0.events;
    assert after == w.events + [TunnelDown];
    assert after[..|w.events|] == w.events;
    assert !Fits(after[..|w.events|], after[|w.events|]);
  }

  lemma ConnectedAgrees(w: World, samplerStarts: bool)
    requires LogAgrees(w) && w.handle.None?
    ensures LogAgrees(Connected(w, samplerStarts)) && Connected(w, samplerStarts).handle.Some?
  {
    RecordKeeps(w, TunnelUp);
  }

  /** The start phase loses a connect event. */
  predicate StartsUnlogged(turn: Turn) {
    turn.start.StartOk? && turn.connectRaises
  }

  lemma {:induction false} StartAgrees(w: World, turn: Turn)
    requires LogAgrees(w) && w.handle.None? && w.sampler.None?
    ensures if StartsUnlogged(turn) then !WellLogged(StartPhase(w, turn).0.events) else LogAgrees(StartPhase(w, turn).0)
  {
    match turn.start
    case StartDenied =>
    case StartRaises => ErrorAgrees(w, turn.stop);
    case StartFails => RecordKeeps(w, ConnectFailed);
    case StartOk =>
      if turn.connectRaises {
        UnloggedConnect(w, turn.stop);
      } else {
        ConnectedAgrees(w, turn.samplerStarts);
        ProbeAgrees(Connected(w, turn.samplerStarts), turn);
      }
  }

  lemma {:induction false} DroppedAgrees(w: World)
    requires LogAgrees(w) && w.handle.Some?
    ensures LogAgrees(Dropped(w)) && LogAgrees(Record(Dropped(w), Reconnect))
  {
    RecordKeeps(w, TunnelDown);
    RecordKeeps(Dropped(w), Reconnect);
  }

  /** The turn gets as far as starting a session. */
  predicate ReachesStart(w: World, turn: Turn) {
    && turn.load == RowFound(true)
    && (w.handle.Some? ==> turn.up == IsNotUp && !turn.dropRaises && !turn.stopAtReconnect)
  }

  /** The turn starts a session whose lifecycle probe raises before its connect event is written. */
  predicate LosesConnect(w: World, turn: Turn) {
    ReachesStart(w, turn) && StartsUnlogged(turn)
  }

  /** A turn keeps log and worker in agreement, whatever else raises, exactly when it loses no connect event. */
  lemma {:induction false} StepKeeps(w: World, turn: Turn)
    requires SessionsInOrder(w) && LogAgrees(w)
    ensures LogAgrees(Step(w, turn).0) <==> !LosesConnect(w, turn)
    ensures WellLogged(Step(w, turn).0.events) <==> !LosesConnect(w, turn)
  {
    if turn.load == RowFound(true) {
      if w.handle.Some? {
        HeldStepKeeps(w, turn);
      } else {
        StartAgrees(w.(rowKnown := true), turn);
      }
    }
  }

  lemma {:induction false} HeldStepKeeps(w: World, turn: Turn)
    requires SessionsInOrder(w) && LogAgrees(w) && w.handle.Some? && turn.load == RowFound(true)
    ensures if LosesConnect(w, turn) then !WellLogged(Step(w, turn).0.events) else LogAgrees(Step(w, turn).0)
  {
    var known := w.(rowKnown := true);
    if turn.up == UpCheckRaises {
      ErrorAgrees(known, turn.stop);
    } else if turn.up == IsUp {
      ProbeAgrees(known, turn);
    } else if turn.dropRaises {
      ErrorAgrees(WithoutSampler(known), turn.stop);
    } else {
      DroppedInOrder(known);
      DroppedAgrees(known);
      if !turn.stopAtReconnect {
        StartAgrees(Record(Dropped(known), Reconnect), turn);
      }
    }
  }

  /** How many of the sessions started by these turns lost their connect event. */
  function LostConnects(w: World, turns: seq<Turn>): nat
    decreases |turns|
  {
    if turns == [] then 0
    else
      var (after, flow) := Step(w, turns[0]);
      (if LosesConnect(w, turns[0]) then 1 else 0) + if flow.Leave? then 0 else LostConnects(after, turns[1..])
  }

  lemma ErrorExtends(w: World, stop: bool)
    ensures w.events <= OnError(w, stop).0.events
  {}

  lemma ProbeExtends(w: World, turn: Turn)
    ensures w.events <= ProbePhase(w, turn).0.events
  {
    if turn.probe.ProbeRaises? {
      ErrorExtends(w, turn.stop);
    } else if turn.probe.recordRaises && Transition(w.lastProbeOk, turn.probe.outcome).Some? {
      ErrorExtends(w, turn.stop);
    } else if turn.probe.intervalRaises {
      ErrorExtends(AfterTransition(w, turn.probe.outcome), turn.stop);
    }
  }

  lemma StartExtends(w: World, turn: Turn)
    ensures w.events <= StartPhase(w, turn).0.events
  {
    if turn.start.StartOk? && !turn.connectRaises {
      ProbeExtends(Connected(w, turn.samplerStarts), turn);
    }
  }

  /** Nothing logged is ever taken back. */
  lemma StepExtends(w: World, turn: Turn)
    ensures w.events <= Step(w, turn).0.events
  {
    if turn.load == RowFound(true) {
      var known := w.(rowKnown := true);
      if known.handle.None? {
        StartExtends(WithoutSampler(known), turn);
      } else if turn.up == IsUp {
        ProbeExtends(known, turn);
      } else if turn.up == IsNotUp && !turn.dropRaises && !turn.stopAtReconnect {
        StartExtends(Record(Dropped(known), Reconnect), turn);
      }
    }
  }

  lemma {:induction false} RunExtends(w: World, turns: seq<Turn>)
    ensures w.events <= RunTurns(w, turns).events
    decreases |turns|
  {
    if turns != [] {
      StepExtends(w, turns[0]);
      var (after, flow) := Step(w, turns[0]);
      if flow.Again? {
        RunExtends(after, turns[1..]);
      }
    }
  }

  lemma BrokenStaysBroken(before: seq<EventKind>, after: seq<EventKind>)
    requires before <= after && WellLogged(after)
    ensures WellLogged(before)
  {
    forall i | 0 <= i < |before| ensures Fits(before[..i], before[i]) {
      assert before[..i] == after[..i];
      assert Fits(after[..i], after[i]);
    }
  }

  lemma {:induction false} RunKeeps(w: World, turns: seq<Turn>)
    requires SessionsInOrder(w) && LogAgrees(w)
    ensures LogAgrees(RunTurns(w, turns)) <==> LostConnects(w, turns) == 0
    ensures WellLogged(RunTurns(w, turns).events) <==> LostConnects(w, turns) == 0
    decreases |turns|
  {
    if turns != [] {
      StepInOrder(w, turns[0]);
      StepKeeps(w, turns[0]);
      var (after, flow) := Step(w, turns[0]);
      if flow.Again? {
        if LosesConnect(w, turns[0]) {
          RunExtends(after, turns[1..]);
          if WellLogged(RunTurns(after, turns[1..]).events) {
            BrokenStaysBroken(after.events, RunTurns(after, turns[1..]).events);
          }
        } else {
          RunKeeps(after, turns[1..]);
        }
      }
    }
  }

  function Count(events: seq<EventKind>, kind: EventKind): nat {
    if events == [] then 0
    else Count(events[..|events| - 1], kind) + if events[|events| - 1] == kind then 1 else 0
  }

  /** Connects minus disconnects is 1 while a session is open and 0 otherwise; losses minus recoveries likewise. */
  lemma {:induction false} LogCounts(events: seq<EventKind>)
    requires WellLogged(events)
    ensures Count(events, TunnelUp) == Count(events, TunnelDown) + if IsOpen(events) then 1 else 0
    ensures Count(events, Unavailable) == Count(events, Available) + if IsUnavailable(events) then 1 else 0
  {
    if events != [] {
      var n := |events| - 1;
      assert Fits(events[..n], events[n]);
      forall i | 0 <= i < n ensures Fits(events[..n][..i], events[..n][i]) {
        assert events[..n][..i] == events[..i];
        assert Fits(events[..i], events[i]);
      }
      LogCounts(events[..n]);
    }
  }

  lemma RecordCounts(w: World, event: EventKind, kind: EventKind)
    ensures Count(Record(w, event).events, kind) == Count(w.events, kind) + if event == kind then 1 else 0
  {
    assert (w.events + [event])[..|w.events|] == w.events;
  }

  lemma ErrorCounts(w: World, stop: bool, kind: EventKind)
    requires kind != TunnelDown
    ensures Count(OnError(w, stop).0.events, kind) == Count(w.events, kind)
    ensures OnError(w, stop).0.started == w.started
  {
    RecordCounts(w, TunnelDown, kind);
  }

  lemma TransitionCounts(w: World, outcome: Outcome, kind: EventKind)
    requires kind == TunnelUp || kind == Reconnect || kind == ConnectFailed
    ensures Count(AfterTransition(w, outcome).events, kind) == Count(w.events, kind)
    ensures AfterTransition(w, outcome).started == w.started
  {
    var event := Transition(w.lastProbeOk, outcome);
    if event.Some? {
      RecordCounts(w, event.value, kind);
    }
  }

  lemma ProbeCounts(w: World, turn: Turn, kind: EventKind)
    requires kind == TunnelUp || kind == Reconnect || kind == ConnectFailed
    ensures Count(ProbePhase(w, turn).0.events, kind) == Count(w.events, kind)
    ensures ProbePhase(w, turn).0.started == w.started
  {
    if turn.probe.ProbeRaises? {
      ErrorCounts(w, turn.stop, kind);
    } else if turn.probe.recordRaises && Transition(w.lastProbeOk, turn.probe.outcome).Some? {
      ErrorCounts(w, turn.stop, kind);
    } else {
      TransitionCounts(w, turn.probe.outcome, kind);
      if turn.probe.intervalRaises {
        ErrorCounts(AfterTransition(w, turn.probe.outcome), turn.stop, kind);
      }
    }
  }

  lemma StartCounts(w: World, turn: Turn, kind: EventKind)
    requires kind == TunnelUp || kind == Reconnect || kind == ConnectFailed
    ensures Count(StartPhase(w, turn).0.events, kind) == Count(w.events, kind)
              + if (turn.start.StartOk? && !turn.connectRaises && kind == TunnelUp)
                   || (turn.start.StartFails? && kind == ConnectFailed) then 1 else 0
    ensures StartPhase(w, turn).0.started == w.started + if turn.start.StartOk? then 1 else 0
  {
    match turn.start
    case StartDenied =>
    case StartRaises => ErrorCounts(w, turn.stop, kind);
    case StartFails => RecordCounts(w, ConnectFailed, kind);
    case StartOk =>
      if turn.connectRaises {
        ErrorCounts(Started(w), turn.stop, kind);
      } else {
        RecordCounts(w, TunnelUp, kind);
        ProbeCounts(Connected(w, turn.samplerStarts), turn, kind);
      }
  }

  lemma DroppedCounts(w: World, kind: EventKind)
    requires kind == TunnelUp || kind == Reconnect || kind == ConnectFailed
    ensures Count(Dropped(w).events, kind) == Count(w.events, kind)
    ensures Count(Record(Dropped(w), Reconnect).events, kind) == Count(w.events, kind) + if kind == Reconnect then 1 else 0
    ensures Dropped(w).started == w.started
  {
    RecordCounts(w, TunnelDown, kind);
    RecordCounts(Dropped(w), Reconnect, kind);
  }

  /** Which turns start a session, and log a connect, a failed connect or a reconnect: those that reach the start accordingly. */
  lemma TurnIsLogged(w: World, turn: Turn, kind: EventKind)
    requires kind == TunnelUp || kind == Reconnect || kind == ConnectFailed
    ensures Count(Step(w, turn).0.events, kind) == Count(w.events, kind)
              + if ReachesStart(w, turn) && ((turn.start.StartOk? && !turn.connectRaises && kind == TunnelUp)
                                             || (turn.start.StartFails? && kind == ConnectFailed)
                                             || (w.handle.Some? && kind == Reconnect)) then 1 else 0
    ensures Step(w, turn).0.started == w.started + if ReachesStart(w, turn) && turn.start.StartOk? then 1 else 0
  {
    if turn.load == RowFound(true) {
      var known := w.(rowKnown := true);
      if known.handle.None? {
        StartCounts(WithoutSampler(known), turn, kind);
      } else if turn.up == UpCheckRaises {
        ErrorCounts(known, turn.stop, kind);
      } else if turn.up == IsUp {
        ProbeCounts(known, turn, kind);
      } else if turn.dropRaises {
        ErrorCounts(WithoutSampler(known), turn.stop, kind);
      } else {
        DroppedCounts(known, kind);
        if !turn.stopAtReconnect {
          StartCounts(Record(Dropped(known), Reconnect), turn, kind);
        }
      }
    }
  }

  lemma DroppedDowns(w: World)
    requires w.handle.Some?
    ensures Dropped(w).handle.None? && |Dropped(w).stopped| == |w.stopped| + 1
    ensures Count(Dropped(w).events, TunnelDown) == Count(w.events, TunnelDown) + 1
    ensures Count(Record(Dropped(w), Reconnect).events, TunnelDown) == Count(w.events, TunnelDown) + 1
  {
    RecordCounts(w, TunnelDown, TunnelDown);
    RecordCounts(Dropped(w), Reconnect, TunnelDown);
  }

  /** Every session stopped in a turn logs its disconnect there. */
  lemma DownsAreStops(w: World, turn: Turn)
    ensures Count(Step(w, turn).0.events, TunnelDown) - |Step(w, turn).0.stopped| == Count(w.events, TunnelDown) - |w.stopped|
  {
    if turn.load == RowFound(true) {
      var known := w.(rowKnown := true);
      if known.handle.None? {
        StartDowns(WithoutSampler(known), turn);
      } else if turn.up == UpCheckRaises {
        ErrorDowns(known, turn.stop);
      } else if turn.up == IsUp {
        ProbeDowns(known, turn);
      } else if turn.dropRaises {
        ErrorDowns(WithoutSampler(known), turn.stop);
      } else {
        DroppedDowns(known);
        if !turn.stopAtReconnect {
          StartDowns(Record(Dropped(known), Reconnect), turn);
        }
      }
    }
  }

  lemma ErrorDowns(w: World, stop: bool)
    ensures var after := OnError(w, stop).0;
            Count(after.events, TunnelDown) - |after.stopped| == Count(w.events, TunnelDown) - |w.stopped|
  {
    RecordCounts(w, TunnelDown, TunnelDown);
  }

  lemma TransitionDowns(w: World, outcome: Outcome)
    ensures var after := AfterTransition(w, outcome);
            Count(after.events, TunnelDown) == Count(w.events, TunnelDown) && after.stopped == w.stopped
  {
    var event := Transition(w.lastProbeOk, outcome);
    if event.Some? {
      RecordCounts(w, event.value, TunnelDown);
    }
  }

  lemma ProbeDowns(w: World, turn: Turn)
    ensures var after := ProbePhase(w, turn).0;
            Count(after.events, TunnelDown) - |after.stopped| == Count(w.events, TunnelDown) - |w.stopped|
  {
    if turn.probe.ProbeRaises? {
      ErrorDowns(w, turn.stop);
    } else if turn.probe.recordRaises && Transition(w.lastProbeOk, turn.probe.outcome).Some? {
      ErrorDowns(w, turn.stop);
    } else {
      TransitionDowns(w, turn.probe.outcome);
      if turn.probe.intervalRaises {
        ErrorDowns(AfterTransition(w, turn.probe.outcome), turn.stop);
      }
    }
  }

  lemma StartDowns(w: World, turn: Turn)
    requires w.handle.None?
    ensures var after := StartPhase(w, turn).0;
            Count(after.events, TunnelDown) - |after.stopped| == Count(w.events, TunnelDown) - |w.stopped|
  {
    match turn.start
    case StartDenied =>
    case StartRaises => ErrorDowns(w, turn.stop);
    case StartFails => RecordCounts(w, ConnectFailed, TunnelDown);
    case StartOk =>
      if turn.connectRaises {
        ErrorDowns(Started(w), turn.stop);
      } else {
        RecordCounts(w, TunnelUp, TunnelDown);
        ProbeDowns(Connected(w, turn.samplerStarts), turn);
      }
  }

  /** Connects logged are sessions started less the connects lost, and disconnects logged are sessions stopped. */
  lemma {:induction false} RunCounts(w: World, turns: seq<Turn>)
    ensures var after := RunTurns(w, turns);
            && Count(after.events, TunnelUp) + LostConnects(w, turns) - after.started == Count(w.events, TunnelUp) - w.started
            && Count(after.events, TunnelDown) - |after.stopped| == Count(w.events, TunnelDown) - |w.stopped|
    decreases |turns|
  {
    if turns != [] {
      TurnIsLogged(w, turns[0], TunnelUp);
      DownsAreStops(w, turns[0]);
      var (after, flow) := Step(w, turns[0]);
      if flow.Again? {
        RunCounts(after, turns[1..]);
      }
    }
  }

  /**
   At every loop head of every run sessions are stopped once and in order, a sampler lives only with the held session,
   and each stopped session has logged its disconnect. Each started one has logged its connect, and the log is well
   formed, exactly when no started session's lifecycle probe raised before its connect event was written.
   */
  lemma LoopHead(turns: seq<Turn>)
    ensures var w := RunTurns(INITIAL, turns);
            && w.stopped == FirstIds(|w.stopped|)
            && w.started == |w.stopped| + (if w.handle.Some? then 1 else 0)
            && (w.liveSamplers != {} ==> w.handle.Some? && w.liveSamplers == {w.handle.value})
            && Count(w.events, TunnelDown) == |w.stopped|
            && Count(w.events, TunnelUp) + LostConnects(INITIAL, turns) == w.started
            && (WellLogged(w.events) <==> LostConnects(INITIAL, turns) == 0)
  {
    RunInOrder(INITIAL, turns);
    RunKeeps(INITIAL, turns);
    RunCounts(INITIAL, turns);
  }

  /** One lost connect is enough: the log then holds a disconnect that no connect precedes. */
  lemma LostConnectBreaksLog(turn: Turn)
    requires turn.load == RowFound(true) && turn.start.StartOk? && turn.connectRaises
    ensures var w := RunTurns(INITIAL, [turn]);
            w.events == [TunnelDown] && w.started == 1 && w.stopped == [0] && !WellLogged(w.events)
  {
    var (after, flow) := Step(INITIAL, turn);
    assert [turn][1..] == [];
    assert RunTurns(INITIAL, [turn]) == after;
    assert !Fits(after.events[..0], after.events[0]);
  }

  lemma FinishSessions(w: World, reload: Load)
    requires SessionsInOrder(w)
    ensures var after := Finish(w, reload);
            after.handle.None? && after.stopped == FirstIds(w.started) && after.started == w.started && after.liveSamplers == {}
  {
    if w.handle.Some? {
      StopKeeps(w);
    }
  }

  lemma FinishCounts(w: World, reload: Load, kind: EventKind)
    ensures Count(Finish(w, reload).events, kind) == Count(w.events, kind)
              + if kind == TunnelDown && w.handle.Some? && (w.rowKnown || reload.RowFound?) then 1 else 0
  {
    RecordCounts(w, TunnelDown, kind);
  }

  lemma FinishLogs(w: World, reload: Load)
    requires LogAgrees(w) || !WellLogged(w.events)
    ensures WellLogged(Finish(w, reload).events) <==> WellLogged(w.events)
  {
    if LogAgrees(w) && w.handle.Some? {
      RecordKeeps(w, TunnelDown);
    } else if !WellLogged(w.events) && WellLogged(Finish(w, reload).events) {
      assert w.events <= w.events + [TunnelDown];
      BrokenStaysBroken(w.events, Finish(w, reload).events);
    }
  }

  /**
   When the worker exits, every session it started has been stopped exactly once and no sampler lives. Each of them has
   logged its disconnect, unless one was held and the component's row could not be found again; and the log is well
   formed, with a connect for each, exactly when no connect was lost.
   */
  lemma Exit(turns: seq<Turn>, reload: Load)
    ensures var last := RunTurns(INITIAL, turns);
            var w := Finish(last, reload);
            && w.handle.None? && w.stopped == FirstIds(w.started) && w.liveSamplers == {}
            && (Count(w.events, TunnelDown) == w.started <==> !(last.handle.Some? && !last.rowKnown && !reload.RowFound?))
            && Count(w.events, TunnelUp) + LostConnects(INITIAL, turns) == w.started
            && (WellLogged(w.events) <==> LostConnects(INITIAL, turns) == 0)
  {
    LoopHead(turns);
    var last := RunTurns(INITIAL, turns);
    RunInOrder(INITIAL, turns);
    RunKeeps(INITIAL, turns);
    FinishSessions(last, reload);
    FinishCounts(last, reload, TunnelUp);
    FinishCounts(last, reload, TunnelDown);
    FinishLogs(last, reload);
  }

  /** Retry delays start at five seconds, double, and stay at sixty from the fifth failure on. */
  lemma BackoffShape(failures: nat)
    requires failures > 0
    ensures Backoff(failures) == if failures < 5 then 5 * Pow2(failures - 1) else 60
    ensures RECONNECT_DELAY_SECONDS <= Backoff(failures) <= Backoff(failures + 1) <= BACKOFF_CAP_SECONDS
  {}
}

/** Runs of one writer and one reader of the host WAN baseline store. */
module HostWanProofs {
  import opened Options
  import opened NetworkEnrich
  import opened SpeedTestMemory
  import opened HostWan

  // ---------- the stored form ----------

  ghost predicate Storable(kept: Kept) {
    |kept.history| <= 128 && (kept.latest.None? ==> kept.history == [])
  }

  lemma {:induction false} HistoryRoundTrip(history: seq<Baseline>)
    ensures ReadHistory(WriteHistory(history)) == history
  {
    if history != [] {
      var n := |history| - 1;
      HistoryRoundTrip(history[..n]);
      DictRoundTrip(history[n]);
      var entries := WriteHistory(history);
      assert entries[..|entries| - 1] == WriteHistory(history[..n]);
    }
  }

  /** What a process writes, another one reads back unchanged. */
  lemma PersistRoundTrip(kept: Kept)
    requires Storable(kept)
    ensures Load(Persist(kept)) == Some(kept)
  {
    HistoryRoundTrip(kept.history);
    if kept.latest.Some? {
      DictRoundTrip(kept.latest.value);
    }
  }

  /** A file without a readable latest baseline shows the last readable one of its history, and only a payload is read. */
  lemma {:induction false} BrokenLatestFallsBack(latest: Entry, history: seq<Baseline>, pending: Json)
    requires FromEntry(latest).None? && history != []
    ensures Load(Payload(latest, Some(WriteHistory(history)), pending)).Some?
    ensures Load(Payload(latest, Some(WriteHistory(history)), pending)).value.latest == Some(history[|history| - 1])
    ensures Load(Corrupt).None? && Load(NotAnObject).None?
  {
    HistoryRoundTrip(history);
  }

  // ---------- the bounded history against the full log ----------

  ghost predicate Nondecreasing(log: seq<Baseline>) {
    forall i, j :: 0 <= i <= j < |log| ==> log[i].measuredAt <= log[j].measuredAt
  }

  /** The memory keeps the newest baselines of the full log. */
  ghost predicate Retains(kept: Kept, log: seq<Baseline>) {
    && kept.history == Suffix(log, 128)
    && kept.latest == if log == [] then None else Some(log[|log| - 1])
  }

  /** A search for the last entry at or before a time finds the nearest one. */
  lemma {:induction false} LastBeforeIsNearest(log: seq<Baseline>, when: int)
    requires Nondecreasing(log)
    ensures var found := LastBefore(log, when);
            if found.None? then forall b <- log :: b.measuredAt > when
            else found.value in log && found.value.measuredAt <= when
                 && forall b <- log :: b.measuredAt <= when ==> b.measuredAt <= found.value.measuredAt
  {
    if log != [] {
      var n := |log| - 1;
      assert log == log[..n] + [log[n]];
      LastBeforeIsNearest(log[..n], when);
    }
  }

  /** A search that succeeds in a suffix gives the same result in the whole list. */
  lemma {:induction false} SuffixSearch(log: seq<Baseline>, k: nat, when: int)
    requires k <= |log|
    ensures LastBefore(log[k..], when).Some? ==> LastBefore(log, when) == LastBefore(log[k..], when)
  {
    if k < |log| {
      var n := |log| - 1;
      assert log[k..][..n - k] == log[..n][k..];
      SuffixSearch(log[..n], k, when);
    }
  }

  lemma {:induction false} SearchFails(log: seq<Baseline>, when: int)
    ensures LastBefore(log, when).None? <==> forall b <- log :: b.measuredAt > when
  {
    if log != [] {
      var n := |log| - 1;
      assert log == log[..n] + [log[n]];
      SearchFails(log[..n], when);
    }
  }

  /**
   Under a clock that never goes back, looking in the bounded history answers like a search of the full log
   exactly when nothing was dropped, or the time is not before the oldest retained entry, or before all entries.
   */
  lemma BoundedHistoryAgrees(kept: Kept, log: seq<Baseline>, when: int)
    requires Retains(kept, log) && Nondecreasing(log)
    ensures AtOrBefore(kept, when) == LastBefore(log, when) <==>
              |log| <= 128 || when >= log[|log| - 128].measuredAt || when < log[0].measuredAt
  {
    SearchFails(log, when);
    if |log| > 128 {
      var k := |log| - 128;
      SuffixSearch(log, k, when);
      SearchFails(log[k..], when);
      assert log[k] == log[k..][0];
      if when >= log[k].measuredAt {
        assert log[k..][0] in log[k..];
      } else {
        forall b <- log[k..] ensures b.measuredAt > when {
          var i :| 0 <= i < |log[k..]| && log[k..][i] == b;
          assert b == log[k + i];
        }
        assert log[0] in log;
      }
    } else {
      assert Suffix(log, 128) == log;
      if log != [] {
        assert log[|log| - 1] in log;
      }
    }
  }

  // ---------- one writer, one reader ----------

  datatype Op =
    | WriterRuns(interval: int, now: int, slotFree: bool, ephemeralActive: bool, hasUploadUrl: bool,
                 downloaded: Option<Measure>, uploaded: Option<Measure>, writable: bool)
    | WriterRestarts
    | ReaderReads
    | ReaderRestarts

  /** `log` is everything the writer stored and has not lost; `persisted` and `persistedLog` are as of its last successful write. */
  datatype System = System(writer: Mem, reader: Mem, content: Option<FileContent>, version: nat,
                           log: seq<Baseline>, persisted: Kept, persistedLog: seq<Baseline>)

  const START := System(FRESH, FRESH, None, 0, [], FRESH.kept, [])

  /** What the writer works with when it looks: its memory, or after a restart what it finds in the file. */
  function Held(s: System): Kept {
    Refresh(s.writer, s.content, s.version).kept
  }

  function Measured(op: Op): Baseline
    requires op.WriterRuns?
  {
    MeasuredBaseline(op.now, op.hasUploadUrl, op.downloaded, op.uploaded)
  }

  function Apply(s: System, op: Op): System {
    match op
    case ReaderReads => s.(reader := Refresh(s.reader, s.content, s.version))
    case ReaderRestarts => s.(reader := FRESH)
    case WriterRestarts => s.(writer := FRESH, log := s.persistedLog)
    case WriterRuns(interval, now, slotFree, ephemeralActive, _, _, _, writable) =>
      var found := Refresh(s.writer, s.content, s.version);
      var kept := AfterRun(found.kept, interval, now, slotFree, ephemeralActive, Measured(op));
      if !Stores(found.kept, interval, now, slotFree, ephemeralActive, Measured(op)) then s.(writer := found)
      else if writable then
        s.(writer := Mem(kept, true, Some(s.version + 1)), content := Some(Persist(kept)), version := s.version + 1,
           log := Logged(s.log, found.kept, op), persisted := kept, persistedLog := Logged(s.log, found.kept, op))
      else
        s.(writer := Mem(kept, true, found.seen), log := Logged(s.log, found.kept, op))
  }

  /** The log grows by the baseline a run stores, if it stores one. */
  function Logged(log: seq<Baseline>, found: Kept, op: Op): seq<Baseline>
    requires op.WriterRuns?
  {
    if !Stores(found, op.interval, op.now, op.slotFree, op.ephemeralActive, Measured(op)) then log
    else if op.ephemeralActive then
      (if found.latest.None? then log + [Baseline(op.now, None, None, true, Some(EPHEMERAL_ACTIVE))] else log)
    else log + [Measured(op)]
  }

  function RunOps(ops: seq<Op>): System {
    if ops == [] then START else Apply(RunOps(ops[..|ops| - 1]), ops[|ops| - 1])
  }

  ghost predicate Consistent(s: System) {
    Retains(Held(s), s.log) && Retains(s.persisted, s.persistedLog) && FileAgrees(s)
  }

  /** The file holds the persisted state, and a process that has seen its version holds it too. */
  ghost predicate FileAgrees(s: System) {
    && (s.content.Some? ==> s.content.value == Persist(s.persisted)
                            && (s.writer == FRESH || (s.writer.hydrated && s.writer.seen == Some(s.version))))
    && (s.content.None? ==> s.persisted == FRESH.kept && s.writer.seen.None? && s.reader.kept == FRESH.kept && s.reader.seen.None?)
    && (s.reader.seen.Some? ==> s.reader.seen.value <= s.version)
    && (s.content.Some? && s.reader.seen == Some(s.version) ==> s.reader.kept == s.persisted)
    && (s.reader.seen.Some? ==> s.reader.hydrated)
  }

  lemma RunRetains(kept: Kept, log: seq<Baseline>, op: Op)
    requires op.WriterRuns? && Retains(kept, log)
    ensures Retains(AfterRun(kept, op.interval, op.now, op.slotFree, op.ephemeralActive, Measured(op)), Logged(log, kept, op))
    ensures !Stores(kept, op.interval, op.now, op.slotFree, op.ephemeralActive, Measured(op)) ==>
              AfterRun(kept, op.interval, op.now, op.slotFree, op.ephemeralActive, Measured(op)) == kept
  {}

  lemma RetainedIsStorable(kept: Kept, log: seq<Baseline>)
    requires Retains(kept, log)
    ensures Storable(kept)
  {}

  /** A run of the writer leaves it with what the run makes of what it held. */
  lemma {:induction false} HeldAfterRun(s: System, op: Op)
    requires Consistent(s) && op.WriterRuns?
    ensures Held(Apply(s, op)) == AfterRun(Held(s), op.interval, op.now, op.slotFree, op.ephemeralActive, Measured(op))
    ensures Apply(s, op).log == Logged(s.log, Held(s), op)
  {
    RunRetains(Held(s), s.log, op);
  }

  lemma WriterKeepsFile(s: System, op: Op)
    requires FileAgrees(s) && op.WriterRuns?
    ensures FileAgrees(Apply(s, op))
  {}

  lemma {:induction false} WriterKeepsConsistent(s: System, op: Op)
    requires Consistent(s) && op.WriterRuns?
    ensures Consistent(Apply(s, op))
  {
    HeldAfterRun(s, op);
    RunRetains(Held(s), s.log, op);
    WriterKeepsFile(s, op);
  }

  /** A restarted writer resumes from its last persisted state; what it could not write is lost. */
  lemma WriterResumes(s: System)
    requires Consistent(s)
    ensures Held(Apply(s, WriterRestarts)) == s.persisted && Consistent(Apply(s, WriterRestarts))
  {
    RetainedIsStorable(s.persisted, s.persistedLog);
    PersistRoundTrip(s.persisted);
  }

  lemma ReaderKeepsConsistent(s: System)
    requires Consistent(s)
    ensures Consistent(Apply(s, ReaderReads))
    ensures Refresh(s.reader, s.content, s.version).kept == s.persisted
  {
    RetainedIsStorable(s.persisted, s.persistedLog);
    PersistRoundTrip(s.persisted);
  }

  lemma {:induction false} RunsStayConsistent(ops: seq<Op>)
    ensures Consistent(RunOps(ops))
  {
    if ops != [] {
      var n := |ops| - 1;
      RunsStayConsistent(ops[..n]);
      match ops[n]
      case ReaderReads => ReaderKeepsConsistent(RunOps(ops[..n]));
      case ReaderRestarts =>
      case WriterRestarts => WriterResumes(RunOps(ops[..n]));
      case WriterRuns(_, _, _, _, _, _, _, _) => WriterKeepsConsistent(RunOps(ops[..n]), ops[n]);
    }
  }

  /**
   However writer runs, failed writes, reads and restarts of both processes are interleaved, a reader that looks now holds
   the writer's last persisted state, and so answers every time from the oldest entry retained there like a search of
   the full log. A writer that restarts now holds the same.
   */
  lemma ReaderSeesLastPersisted(ops: seq<Op>, when: int)
    ensures var s := RunOps(ops);
            var answering := Refresh(s.reader, s.content, s.version).kept;
            && answering == s.persisted == Held(Apply(s, WriterRestarts))
            && (Nondecreasing(s.persistedLog)
                && (|s.persistedLog| <= 128 || when >= s.persistedLog[|s.persistedLog| - 128].measuredAt) ==>
                  AtOrBefore(answering, when) == LastBefore(s.persistedLog, when))
  {
    RunsStayConsistent(ops);
    var s := RunOps(ops);
    ReaderKeepsConsistent(s);
    WriterResumes(s);
    if Nondecreasing(s.persistedLog) {
      BoundedHistoryAgrees(s.persisted, s.persistedLog, when);
    }
  }

  /** While every write succeeds, what is persisted is what the writer holds, also after restarts. */
  lemma {:induction false} NothingUnpersisted(ops: seq<Op>)
    requires forall op <- ops :: op.WriterRuns? ==> op.writable
    ensures var s := RunOps(ops);
            s.persisted == Held(s) && s.persistedLog == s.log
  {
    if ops != [] {
      var n := |ops| - 1;
      NothingUnpersisted(ops[..n]);
      RunsStayConsistent(ops[..n]);
      var s, op := RunOps(ops[..n]), ops[n];
      if op.WriterRuns? {
        HeldAfterRun(s, op);
        RunRetains(Held(s), s.log, op);
      } else if op.WriterRestarts? {
        WriterResumes(s);
      }
    }
  }

  // ---------- a measured success is never lost ----------

  predicate SkipsHoldNothing(kept: Kept) {
    kept.latest.Some? && kept.latest.value.skipped ==> !IsSuccess(kept.latest)
  }

  /** Skips hold no success, and a persisted success is also held. */
  ghost predicate KeepsSuccess(s: System) {
    && SkipsHoldNothing(Held(s)) && SkipsHoldNothing(s.persisted)
    && (IsSuccess(s.persisted.latest) ==> IsSuccess(Held(s).latest))
  }

  /** One step: what is held stays a success unless the writer restarts, and what is persisted stays one always. */
  lemma {:induction false} StepKeepsSuccess(s: System, op: Op)
    requires Consistent(s) && KeepsSuccess(s)
    ensures KeepsSuccess(Apply(s, op))
    ensures IsSuccess(Held(s).latest) && !op.WriterRestarts? ==> IsSuccess(Held(Apply(s, op)).latest)
    ensures IsSuccess(s.persisted.latest) ==> IsSuccess(Apply(s, op).persisted.latest)
  {
    if op.WriterRuns? {
      HeldAfterRun(s, op);
    } else if op.WriterRestarts? {
      WriterResumes(s);
    }
  }

  lemma {:induction false} RunKeepsSuccess(ops: seq<Op>)
    ensures KeepsSuccess(RunOps(ops))
  {
    if ops != [] {
      var n := |ops| - 1;
      RunKeepsSuccess(ops[..n]);
      RunsStayConsistent(ops[..n]);
      StepKeepsSuccess(RunOps(ops[..n]), ops[n]);
    }
  }

  /**
   Once the latest baseline holds a measured success, it holds one after every continuation in which the writer does not
   restart; once a success is persisted, restarts do not matter either.
   */
  lemma {:induction false} SuccessStays(ops: seq<Op>, more: seq<Op>)
    ensures IsSuccess(Held(RunOps(ops)).latest) && (forall op <- more :: !op.WriterRestarts?) ==>
              IsSuccess(Held(RunOps(ops + more)).latest)
    ensures IsSuccess(RunOps(ops).persisted.latest) ==>
              IsSuccess(RunOps(ops + more).persisted.latest) && IsSuccess(Held(RunOps(ops + more)).latest)
  {
    RunKeepsSuccess(ops + more);
    if more == [] {
      assert ops + more == ops;
    } else {
      var n := |more| - 1;
      var front := ops + more[..n];
      assert ops + more == front + [more[n]];
      SuccessStays(ops, more[..n]);
      LastOp(front, more[n]);
      RunsStayConsistent(front);
      RunKeepsSuccess(front);
      StepKeepsSuccess(RunOps(front), more[n]);
      assert more[n] in more && forall op <- more[..n] :: op in more;
    }
  }

  lemma LastOp(front: seq<Op>, op: Op)
    ensures RunOps(front + [op]) == Apply(RunOps(front), op)
  {}

  // ---------- when a run measures, told from the log and the measurements ----------

  /** The measurement succeeded and transferred something, and its speed, if it has one, is positive. */
  ghost predicate Delivers(m: Option<Measure>) {
    m.Some? && m.value.ok && m.value.bytes > 0 && (m.value.mbps.Some? ==> m.value.mbps.value > 0)
  }

  ghost predicate HasData(op: Op)
    requires op.WriterRuns?
  {
    Delivers(op.downloaded) || (op.hasUploadUrl && Delivers(op.uploaded))
  }

  /** Nothing was stored yet, or only a skip mark, or the last baseline is an interval old, at least a second. */
  ghost predicate MayMeasure(log: seq<Baseline>, interval: int, now: int) {
    log == [] || log[|log| - 1].skipped || now - log[|log| - 1].measuredAt >= if interval < 1 then 1 else interval
  }

  ghost predicate ShowsMeasure(row: Option<Row>, m: Option<Measure>, now: int) {
    && row.Some? == m.Some?
    && (m.Some? ==> row.value.ok == Delivers(m) && row.value.bytes == m.value.bytes && row.value.mbps == m.value.mbps
                    && row.value.measuredAt == Some(now))
  }

  /** The baseline says what this run measured, and when. */
  ghost predicate IsMeasurement(b: Baseline, op: Op)
    requires op.WriterRuns?
  {
    && b.measuredAt == op.now && !b.skipped && b.skipReason.None?
    && ShowsMeasure(b.download, op.downloaded, op.now)
    && (if op.hasUploadUrl then ShowsMeasure(b.upload, op.uploaded, op.now) else b.upload.None?)
  }

  lemma MeasuredIsMeasurement(op: Op)
    requires op.WriterRuns?
    ensures IsMeasurement(Measured(op), op) && (IsSuccess(Some(Measured(op))) <==> HasData(op))
  {}

  /** The run stores what it measured. */
  ghost predicate StoresMeasurement(log: seq<Baseline>, op: Op)
    requires op.WriterRuns?
  {
    && MayMeasure(log, op.interval, op.now) && !op.ephemeralActive && op.slotFree
    && (HasData(op) || log == [] || log[|log| - 1].skipped)
  }

  lemma RetainedStores(kept: Kept, log: seq<Baseline>, op: Op)
    requires op.WriterRuns? && Retains(kept, log)
    ensures IsDue(kept.latest, op.interval, op.now) <==> MayMeasure(log, op.interval, op.now)
    ensures Logged(log, kept, op)
            == if StoresMeasurement(log, op) then log + [Measured(op)]
               else if op.ephemeralActive && log == [] then [Baseline(op.now, None, None, true, Some("ephemeral_openvpn_active"))]
               else log
    ensures AfterRun(kept, op.interval, op.now, op.slotFree, op.ephemeralActive, Measured(op)).pending
            == if StoresMeasurement(log, op) then None
               else if MayMeasure(log, op.interval, op.now) && op.ephemeralActive && log != [] then Some("ephemeral_openvpn_active")
               else kept.pending
  {
    MeasuredIsMeasurement(op);
  }

  /**
   After any run of operations, one more run of the writer: whether it stores a measurement, and which; the skip mark when
   there is nothing yet; and the reason shown while an ephemeral session keeps it from measuring.
   */
  lemma RunStoresExactly(ops: seq<Op>, op: Op)
    requires op.WriterRuns?
    ensures var s, after := RunOps(ops), RunOps(ops + [op]);
            && (if StoresMeasurement(s.log, op) then
                  |after.log| == |s.log| + 1 && s.log <= after.log && IsMeasurement(after.log[|s.log|], op)
                else if op.ephemeralActive && s.log == [] then
                  after.log == [Baseline(op.now, None, None, true, Some("ephemeral_openvpn_active"))]
                else after.log == s.log)
            && Held(after).pending
               == (if StoresMeasurement(s.log, op) then None
                   else if MayMeasure(s.log, op.interval, op.now) && op.ephemeralActive && s.log != [] then
                     Some("ephemeral_openvpn_active")
                   else Held(s).pending)
  {
    var s := RunOps(ops);
    LastOp(ops, op);
    RunsStayConsistent(ops);
    HeldAfterRun(s, op);
    RetainedStores(Held(s), s.log, op);
    MeasuredIsMeasurement(op);
  }

  /** Only the first entry can be a skip mark, and every measurement after another one is an interval later. */
  ghost predicate IsSpaced(log: seq<Baseline>, interval: int) {
    forall i :: 0 < i < |log| ==> !log[i].skipped && FollowsAfter(log[i - 1], log[i], interval)
  }

  ghost predicate FollowsAfter(earlier: Baseline, later: Baseline, interval: int) {
    earlier.skipped || (later.measuredAt - earlier.measuredAt >= interval && later.measuredAt > earlier.measuredAt)
  }

  lemma LoggedIsSpaced(log: seq<Baseline>, kept: Kept, op: Op, interval: int)
    requires op.WriterRuns? && Retains(kept, log) && op.interval >= interval && IsSpaced(log, interval)
    ensures IsSpaced(Logged(log, kept, op), interval)
  {
    RetainedStores(kept, log, op);
    MeasuredIsMeasurement(op);
  }

  /** In every run with intervals of at least this length, whatever restarts, stored measurements are that far apart. */
  lemma {:induction false} MeasurementsAreSpaced(ops: seq<Op>, interval: int)
    requires forall op <- ops :: op.WriterRuns? ==> op.interval >= interval
    ensures IsSpaced(RunOps(ops).log, interval) && IsSpaced(RunOps(ops).persistedLog, interval)
  {
    if ops != [] {
      var n := |ops| - 1;
      MeasurementsAreSpaced(ops[..n], interval);
      RunsStayConsistent(ops[..n]);
      var s, op := RunOps(ops[..n]), ops[n];
      if op.WriterRuns? {
        assert op in ops;
        LoggedIsSpaced(s.log, Held(s), op, interval);
      }
    }
  }
}

/** The host WAN baseline store: a bounded history in memory and a copy on disk that another process reads. */
module HostWan {
  import opened Numbers
  import opened Options
  import opened SpeedTestMemory
  import opened NetworkEnrich
  import opened SpeedTestSlot

  datatype Baseline = Baseline(measuredAt: int, download: Option<Row>, upload: Option<Row>, skipped: bool, skipReason: Option<string>)

  const HISTORY_LIMIT: nat := 128
  const EPHEMERAL_ACTIVE := "ephemeral_openvpn_active"

  // ---------- the stored form ----------

  /** A JSON value as the store uses it: `Stamp` is a string in ISO format, `Speed` a nested dictionary. */
  datatype Json = Null | Bool(b: bool) | Str(text: string) | Stamp(at: int) | Speed(row: Row)

  type Dict = map<string, Json>

  datatype Entry = NotADict | ADict(fields: Dict)

  /** The file: not JSON, JSON but no object, or an object whose `history` may be missing. */
  datatype FileContent = Corrupt | NotAnObject | Payload(latest: Entry, history: Option<seq<Entry>>, pending: Json)

  function Field(fields: Dict, name: string): Json {
    if name in fields then fields[name] else Null
  }

  function SpeedJson(row: Option<Row>): Json {
    if row.Some? then Speed(row.value) else Null
  }

  function StrJson(text: Option<string>): Json {
    if text.Some? then Str(text.value) else Null
  }

  function ToDict(baseline: Baseline): Dict {
    map["measured_at" := Stamp(baseline.measuredAt), "download" := SpeedJson(baseline.download),
        "upload" := SpeedJson(baseline.upload), "skipped" := Bool(baseline.skipped), "skip_reason" := StrJson(baseline.skipReason)]
  }

  predicate Truthy(value: Json) {
    match value
    case Null => false
    case Bool(b) => b
    case Str(text) => text != ""
    case Stamp(_) => true
    case Speed(_) => true
  }

  function FromDict(fields: Dict): Option<Baseline> {
    var measured, reason := Field(fields, "measured_at"), Field(fields, "skip_reason");
    if !measured.Stamp? then None
    else
      var download, upload := Field(fields, "download"), Field(fields, "upload");
      Some(Baseline(measured.at,
                    if download.Speed? then Some(download.row) else None,
                    if upload.Speed? then Some(upload.row) else None,
                    Truthy(Field(fields, "skipped")),
                    if reason.Str? then Some(reason.text) else None))
  }

  /** A stored baseline reads back unchanged. */
  lemma DictRoundTrip(baseline: Baseline)
    ensures FromDict(ToDict(baseline)) == Some(baseline)
  {}

  function FromEntry(entry: Entry): Option<Baseline> {
    if entry.ADict? then FromDict(entry.fields) else None
  }

  function ReadHistory(entries: seq<Entry>): seq<Baseline> {
    if entries == [] then []
    else
      var front, last := ReadHistory(entries[..|entries| - 1]), FromEntry(entries[|entries| - 1]);
      if last.Some? then front + [last.value] else front
  }

  function WriteHistory(history: seq<Baseline>): seq<Entry> {
    if history == [] then [] else WriteHistory(history[..|history| - 1]) + [ADict(ToDict(history[|history| - 1]))]
  }

  function Suffix<T>(s: seq<T>, limit: nat): seq<T> {
    if |s| <= limit then s else s[|s| - limit..]
  }

  // ---------- one process's memory ----------

  datatype Kept = Kept(latest: Option<Baseline>, history: seq<Baseline>, pending: Option<string>)

  /** What one process holds, and which version of the file it has seen. */
  datatype Mem = Mem(kept: Kept, hydrated: bool, seen: Option<nat>)

  const FRESH := Mem(Kept(None, [], None), false, None)

  function Persist(kept: Kept): FileContent {
    Payload(if kept.latest.Some? then ADict(ToDict(kept.latest.value)) else NotADict,
            Some(WriteHistory(kept.history)), StrJson(kept.pending))
  }

  function Load(content: FileContent): Option<Kept> {
    if !content.Payload? then None
    else
      var history := if content.history.Some? then ReadHistory(content.history.value) else [];
      var stored := FromEntry(content.latest);
      Some(Kept(if stored.None? && history != [] then Some(history[|history| - 1]) else stored,
                Suffix(history, HISTORY_LIMIT),
                if content.pending.Str? then Some(content.pending.text) else None))
  }

  /** Reading the file when its version differs from the one seen; `content` is `None` when there is no file. */
  function Refresh(mem: Mem, content: Option<FileContent>, version: nat): Mem {
    var mtime := if content.Some? then Some(version) else None;
    if mem.hydrated && mtime.Some? && mem.seen == mtime then mem
    else if mem.hydrated && mtime.None? && mem.seen.None? && mem.kept.latest.None? then mem
    else if mtime.None? then mem.(hydrated := true, seen := None)
    else
      var loaded := Load(content.value);
      Mem(if loaded.Some? then loaded.value else mem.kept, true, mtime)
  }

  function Stored(kept: Kept, baseline: Baseline): Kept {
    Kept(Some(baseline), Suffix(kept.history + [baseline], HISTORY_LIMIT), if baseline.skipped then kept.pending else None)
  }

  /** The last baseline of the list measured at or before `when`. */
  function LastBefore(history: seq<Baseline>, when: int): Option<Baseline> {
    if history == [] then None
    else
      var last := history[|history| - 1];
      if last.measuredAt <= when then Some(last) else LastBefore(history[..|history| - 1], when)
  }

  function AtOrBefore(kept: Kept, when: int): Option<Baseline> {
    var found := LastBefore(kept.history, when);
    if found.Some? then found
    else if kept.latest.Some? && kept.latest.value.measuredAt <= when then kept.latest
    else None
  }

  predicate IsSuccess(baseline: Option<Baseline>) {
    baseline.Some? && (IsMeaningful(baseline.value.download) || IsMeaningful(baseline.value.upload))
  }

  function MeasuredRow(measure: Option<Measure>, now: int): Option<Row> {
    if measure.None? then None else Some(LiveRow(measure, now))
  }

  predicate IsDue(latest: Option<Baseline>, interval: int, now: int) {
    latest.None? || latest.value.skipped || now - latest.value.measuredAt >= Max(1, interval)
  }

  class DiskFile {
    var content: Option<FileContent>
    /** Stands for the modification time; every replacement of the file has a new one. */
    var version: nat

    constructor ()
      ensures content == None && version == 0
    {
      content, version := None, 0;
    }
  }

  class BaselineStore {
    var latest: Option<Baseline>
    var history: seq<Baseline>
    var pending: Option<string>
    var hydrated: bool
    var seen: Option<nat>

    ghost function State(): Mem
      reads this
    {
      Mem(Kept(latest, history, pending), hydrated, seen)
    }

    constructor ()
      ensures State() == FRESH
    {
      latest, history, pending, hydrated, seen := None, [], None, false, None;
    }

    method HydrateFromDisk(disk: DiskFile)
      modifies this
      ensures State() == Refresh(old(State()), disk.content, disk.version)
    {
      var mtime := if disk.content.Some? then Some(disk.version) else None;
      if hydrated && mtime.Some? && seen.Some? && mtime == seen {
        return;
      }
      if hydrated && mtime.None? && seen.None? && latest.None? {
        return;
      }
      hydrated, seen := true, mtime;
      if mtime.None? || !disk.content.value.Payload? {
        return;
      }
      var content := disk.content.value;
      var loaded: seq<Baseline> := [];
      if content.history.Some? {
        var entries := content.history.value;
        for i := 0 to |entries|
          invariant loaded == ReadHistory(entries[..i])
        {
          assert entries[..i + 1][..i] == entries[..i];
          var parsed := FromEntry(entries[i]);
          if parsed.Some? {
            loaded := loaded + [parsed.value];
          }
        }
        assert entries[..|entries|] == entries;
      }
      latest := FromEntry(content.latest);
      if latest.None? && loaded != [] {
        latest := Some(loaded[|loaded| - 1]);
      }
      history := Suffix(loaded, HISTORY_LIMIT);
      pending := if content.pending.Str? then Some(content.pending.text) else None;
    }

    /** `writable` is false when the file system refuses the write; memory then stays ahead of the file. */
    method WriteDisk(disk: DiskFile, writable: bool)
      modifies this, disk
      ensures State() == (if writable then Mem(old(State()).kept, true, Some(disk.version)) else old(State()))
      ensures disk.version == old(disk.version) + (if writable then 1 else 0)
      ensures disk.content == (if writable then Some(Persist(old(State()).kept)) else old(disk.content))
    {
      if writable {
        disk.content := Some(Persist(Kept(latest, history, pending)));
        disk.version := disk.version + 1;
        hydrated, seen := true, Some(disk.version);
      }
    }

    method StoreBaseline(baseline: Baseline, disk: DiskFile, writable: bool)
      modifies this, disk
      ensures State().kept == Stored(old(State()).kept, baseline) && hydrated
      ensures seen == (if writable then Some(disk.version) else old(seen))
      ensures disk.version == old(disk.version) + (if writable then 1 else 0)
      ensures disk.content == (if writable then Some(Persist(State().kept)) else old(disk.content))
    {
      hydrated := true;
      latest := Some(baseline);
      history := history + [baseline];
      if |history| > HISTORY_LIMIT {
        history := history[|history| - HISTORY_LIMIT..];
      }
      if !baseline.skipped {
        pending := None;
      }
      WriteDisk(disk, writable);
    }

    method BaselineAtOrBefore(when: int, disk: DiskFile) returns (found: Option<Baseline>)
      modifies this
      ensures State() == Refresh(old(State()), disk.content, disk.version)
      ensures found == AtOrBefore(State().kept, when)
    {
      HydrateFromDisk(disk);
      var i := |history|;
      assert history[..i] == history;
      while i > 0
        invariant 0 <= i <= |history|
        invariant LastBefore(history, when) == LastBefore(history[..i], when)
      {
        i := i - 1;
        assert history[..i + 1][..i] == history[..i];
        if history[i].measuredAt <= when {
          return Some(history[i]);
        }
      }
      if latest.Some? && latest.value.measuredAt <= when {
        return latest;
      }
      return None;
    }

    /** One due check of the host path; the result is the baseline shown afterwards. */
    method RunIfDue(interval: int, now: int, slot: Slot, clock: real, ephemeralActive: bool, hasUploadUrl: bool,
                    downloaded: Option<Measure>, uploaded: Option<Measure>, disk: DiskFile, writable: bool)
      returns (shown: Option<Baseline>)
      requires slot.Valid()
      modifies this, disk, slot
      ensures slot.Valid()
      ensures var before := Refresh(old(State()), old(disk.content), old(disk.version)).kept;
              var slotFree := clock - old(slot.lastAt) >= MIN_GAP_SECONDS;
              var measured := MeasuredBaseline(now, hasUploadUrl, downloaded, uploaded);
              var writes := writable && Stores(before, interval, now, slotFree, ephemeralActive, measured);
              && State().kept == AfterRun(before, interval, now, slotFree, ephemeralActive, measured)
              && shown == State().kept.latest
              && disk.content == (if writes then Some(Persist(State().kept)) else old(disk.content))
              && disk.version == old(disk.version) + (if writes then 1 else 0)
              && slot.grants == old(slot.grants)
                 + (if IsDue(before.latest, interval, now) && !ephemeralActive && slotFree then [clock] else [])
    {
      HydrateFromDisk(disk);
      if !IsDue(latest, interval, now) {
        return latest;
      }
      if ephemeralActive {
        if latest.None? {
          StoreBaseline(Baseline(now, None, None, true, Some(EPHEMERAL_ACTIVE)), disk, writable);
        } else {
          pending := Some(EPHEMERAL_ACTIVE);
          WriteDisk(disk, writable);
        }
        return latest;
      }
      var granted := slot.TryAcquire(clock);
      if !granted {
        return latest;
      }
      var baseline := MeasuredBaseline(now, hasUploadUrl, downloaded, uploaded);
      if !IsSuccess(Some(baseline)) && latest.Some? && !latest.value.skipped {
        return latest;
      }
      StoreBaseline(baseline, disk, writable);
      return Some(baseline);
    }
  }

  function MeasuredBaseline(now: int, hasUploadUrl: bool, downloaded: Option<Measure>, uploaded: Option<Measure>): Baseline {
    Baseline(now, MeasuredRow(downloaded, now), if hasUploadUrl then MeasuredRow(uploaded, now) else None, false, None)
  }

  /** Whether a run has something to write: a new baseline, or the reason why there is none. */
  predicate Stores(kept: Kept, interval: int, now: int, slotFree: bool, ephemeralActive: bool, measured: Baseline) {
    && IsDue(kept.latest, interval, now)
    && (ephemeralActive || (slotFree && (IsSuccess(Some(measured)) || kept.latest.None? || kept.latest.value.skipped)))
  }

  /** What one run makes of the memory it found. */
  function AfterRun(kept: Kept, interval: int, now: int, slotFree: bool, ephemeralActive: bool, measured: Baseline): Kept {
    if !IsDue(kept.latest, interval, now) then kept
    else if ephemeralActive then
      if kept.latest.None? then Stored(kept, Baseline(now, None, None, true, Some(EPHEMERAL_ACTIVE)))
      else kept.(pending := Some(EPHEMERAL_ACTIVE))
    else if !slotFree then kept
    else if !IsSuccess(Some(measured)) && kept.latest.Some? && !kept.latest.value.skipped then kept
    else Stored(kept, measured)
  }
}

/** How one check cycle writes the carried speed-test memory into its own `network` details. */
module NetworkEnrich {
  import opened Options
  import opened SpeedTestMemory
  import opened SpeedTestSlot

  /** What a download or upload measurement returns; `None` stands for no result at all. */
  datatype Measure = Measure(ok: bool, bytes: int, mbps: Option<int>, error: ErrorText)

  /** The memory handed to one direction of one cycle. */
  datatype FamilyContext = FamilyContext(memory: Memory, lastLive: Option<Row>)
  {
    predicate HasMemory() {
      memory.previous.Some? || memory.lastSuccess.Some? || memory.stats.Some?
    }
  }

  datatype RunContext = RunContext(
    runSpeedTest: bool, hasUploadUrl: bool, download: FamilyContext, upload: FamilyContext)

  /** The row a live attempt leaves: stamped, without flags, an empty transfer demoted to a failure. */
  function LiveRow(measure: Option<Measure>, stamp: int): Row {
    var row :=
      if measure.None? then Row(false, 0, None, Some(stamp), OtherText, false, false, false, false, None)
      else
        var m := measure.value;
        Row(m.ok, m.bytes, m.mbps, Some(stamp), m.error, false, false, false, false, None);
    if row.ok && !IsMeaningful(Some(row)) then row.(ok := false, error := OtherText) else row
  }

  /** A family after a live attempt. */
  function AfterLive(before: Family, row: Row, memory: Memory): Family {
    if IsMeaningful(Some(row)) then
      before.(result := Some(row),
              lastSuccess := Some(row),
              stats := if row.mbps.Some? then Some(UpdateStats(memory.stats, row.mbps.value)) else before.stats)
    else
      before.(result := Some(row),
              lastSuccess := OrElse(memory.lastSuccess, before.lastSuccess),
              stats := OrElse(memory.stats, before.stats))
  }

  function WithoutFlags(row: Row): Row {
    row.(cached := false, deferred := false, throttled := false, stale := false, deferReason := None)
  }

  /** The row displayed while a live attempt is postponed. */
  function DisplayRow(memory: Memory, throttled: bool): Row {
    var reason := Some(if throttled then SlotBusy else Staggered);
    var displayed := PickDisplay(memory.previous, memory.lastSuccess);
    if displayed.None? then
      Row(false, 0, None, None, if throttled then RateLimitText else OtherText, false, true, throttled, false, reason)
    else
      var shown := displayed.value.(cached := true, deferred := true, deferReason := reason,
                                    throttled := throttled || displayed.value.throttled);
      var dated :=
        if shown.measuredAt.None? && memory.lastSuccess.Some? then shown.(measuredAt := memory.lastSuccess.value.measuredAt)
        else shown;
      if dated.ok && !IsMeaningful(Some(dated)) then dated.(ok := false, error := WithDefaultError(dated.error))
      else dated
  }

  /** A displayed row is dated whenever the last success is, by its own time first. */
  lemma DisplayIsDated(memory: Memory, throttled: bool)
    requires IsMeaningful(memory.lastSuccess) && memory.lastSuccess.value.measuredAt.Some?
    ensures DisplayRow(memory, throttled).measuredAt ==
              if IsMeaningful(memory.previous) && memory.previous.value.measuredAt.Some? then memory.previous.value.measuredAt
              else memory.lastSuccess.value.measuredAt
  {}

  /** Whatever was stored before, a displayed success has data; an empty one is shown as a failure that keeps its error. */
  lemma DisplayNeverClaims(memory: Memory, throttled: bool)
    ensures var shown := DisplayRow(memory, throttled);
            && (shown.ok ==> shown.bytes > 0 && (shown.mbps.Some? ==> shown.mbps.value > 0))
            && (memory.previous.Some? && !IsMeaningful(memory.previous) && !IsMeaningful(memory.lastSuccess) ==>
                  !shown.ok && (shown.error == RateLimitText <==> memory.previous.value.error == RateLimitText))
  {}

  /** With nothing to display, the row only says why nothing was measured: a busy slot reads like a rate limit. */
  lemma NothingToDisplay(throttled: bool)
    ensures var shown := DisplayRow(Memory(None, None, None), throttled);
            && !shown.ok && shown.deferred && !shown.cached && shown.measuredAt.None?
            && (shown.throttled <==> throttled) && (shown.error == RateLimitText <==> throttled)
  {}

  /** The last real attempt known to a postponed cycle. */
  function KnownAttempt(context: FamilyContext): Option<Row> {
    if context.lastLive.Some? then context.lastLive
    else if context.memory.previous.Some? && IsLiveRow(context.memory.previous.value) then context.memory.previous
    else None
  }

  /** A family after a postponed cycle: display row, attempt, success and statistics carried along. */
  function AfterDeferral(before: Family, context: FamilyContext, throttled: bool): Family {
    var memory := context.memory;
    var shown := DisplayRow(memory, throttled);
    var attempt := KnownAttempt(context);
    Family(
      Some(shown),
      if attempt.Some? then Some(WithoutFlags(attempt.value)) else before.lastAttempt,
      if memory.lastSuccess.Some? then memory.lastSuccess
      else if PickDisplay(memory.previous, memory.lastSuccess).Some? && IsMeaningful(Some(shown)) then Some(WithoutFlags(shown))
      else before.lastSuccess,
      OrElse(memory.stats, before.stats))
  }

  /** A live row shown before counts as the last attempt when none was carried along. */
  lemma LivePreviousIsAttempt(before: Family, context: FamilyContext, throttled: bool)
    requires context.lastLive.None? && context.memory.previous.Some?
    requires var row := context.memory.previous.value; !row.cached && !row.deferred && !row.throttled && !row.stale
    ensures AfterDeferral(before, context, throttled).lastAttempt == Some(context.memory.previous.value.(deferReason := None))
  {}

  /** The mutable `network` dictionary, reduced to its two speed-test families. */
  class Network {
    var download: Family
    var upload: Family

    constructor ()
      ensures download == BLANK && upload == BLANK
    {
      download, upload := BLANK, BLANK;
    }

    function Get(isUpload: bool): Family
      reads this
    {
      if isUpload then upload else download
    }

    method Put(isUpload: bool, family: Family)
      modifies this
      ensures Get(isUpload) == family && Get(!isUpload) == old(Get(!isUpload))
    {
      if isUpload {
        upload := family;
      } else {
        download := family;
      }
    }

    method RecordLive(isUpload: bool, measure: Option<Measure>, stamp: int, memory: Memory)
      modifies this
      ensures Get(isUpload) == AfterLive(old(Get(isUpload)), LiveRow(measure, stamp), memory)
      ensures Get(!isUpload) == old(Get(!isUpload))
    {
      var family := Get(isUpload);
      if measure.Some? {
        var m := measure.value;
        var speed := Row(m.ok, m.bytes, m.mbps, Some(stamp), m.error, false, false, false, false, None);
        if speed.ok && !IsMeaningful(Some(speed)) {
          speed := speed.(ok := false, error := OtherText);
        }
        family := family.(result := Some(speed));
        if IsMeaningful(Some(speed)) {
          family := family.(lastSuccess := Some(speed));
          if speed.mbps.Some? && speed.mbps.value > 0 {
            family := family.(stats := Some(UpdateStats(memory.stats, speed.mbps.value)));
          }
        } else {
          if memory.lastSuccess.Some? {
            family := family.(lastSuccess := memory.lastSuccess);
          }
          if memory.stats.Some? {
            family := family.(stats := memory.stats);
          }
        }
      } else {
        family := family.(result := Some(Row(false, 0, None, Some(stamp), OtherText, false, false, false, false, None)));
        if memory.lastSuccess.Some? {
          family := family.(lastSuccess := memory.lastSuccess);
        }
        if memory.stats.Some? {
          family := family.(stats := memory.stats);
        }
      }
      Put(isUpload, family);
    }

    method ApplyCached(isUpload: bool, context: FamilyContext, throttled: bool)
      modifies this
      ensures Get(isUpload) == AfterDeferral(old(Get(isUpload)), context, throttled)
      ensures Get(!isUpload) == old(Get(!isUpload))
    {
      var family := Get(isUpload);
      var memory := context.memory;
      var live := context.lastLive;
      if live.None? && memory.previous.Some? && IsLiveRow(memory.previous.value) {
        live := memory.previous;
      }
      if live.Some? {
        family := family.(lastAttempt := Some(WithoutFlags(live.value)));
      }
      var displayed := PickDisplay(memory.previous, memory.lastSuccess);
      var reason := if throttled then SlotBusy else Staggered;
      if displayed.Some? {
        var cached := displayed.value.(cached := true, deferred := true, deferReason := Some(reason));
        if throttled {
          cached := cached.(throttled := true);
        }
        if cached.measuredAt.None? && memory.lastSuccess.Some? && memory.lastSuccess.value.measuredAt.Some? {
          cached := cached.(measuredAt := memory.lastSuccess.value.measuredAt);
        }
        if cached.ok && !IsMeaningful(Some(cached)) {
          cached := cached.(ok := false, error := WithDefaultError(cached.error));
        }
        family := family.(result := Some(cached));
        if memory.lastSuccess.Some? {
          family := family.(lastSuccess := memory.lastSuccess);
        } else if IsMeaningful(Some(cached)) {
          family := family.(lastSuccess := Some(WithoutFlags(cached)));
        }
      } else {
        family := family.(result := Some(Row(false, 0, None, None, if throttled then RateLimitText else OtherText,
                                             false, true, throttled, false, Some(reason))));
        if memory.lastSuccess.Some? {
          family := family.(lastSuccess := memory.lastSuccess);
        }
      }
      if memory.stats.Some? {
        family := family.(stats := memory.stats);
      }
      Put(isUpload, family);
    }

    /** One enrichment: postponed by the scheduler, refused by the shared slot, or measured live. */
    method Enrich(context: RunContext, slot: Slot, now: real,
                  downloaded: Option<Measure>, uploaded: Option<Measure>, stamp: int)
      returns (live: bool)
      requires slot.Valid()
      modifies this, slot
      ensures slot.Valid()
      ensures live == (context.runSpeedTest && now - old(slot.lastAt) >= MIN_GAP_SECONDS)
      ensures !live ==> slot.lastAt == old(slot.lastAt)
      ensures slot.grants == old(slot.grants) + if live then [now] else []
      ensures live ==> download == AfterLive(old(download), LiveRow(downloaded, stamp), context.download.memory)
      ensures !live ==> download == AfterDeferral(old(download), context.download, context.runSpeedTest)
      ensures live && context.hasUploadUrl ==>
                upload == AfterLive(old(upload), LiveRow(uploaded, stamp), context.upload.memory)
      ensures !(live && context.hasUploadUrl) && (context.hasUploadUrl || context.upload.HasMemory()) ==>
                upload == AfterDeferral(old(upload), context.upload, context.runSpeedTest && !live)
      ensures !context.hasUploadUrl && !context.upload.HasMemory() ==> upload == old(upload)
    {
      var wantsUpload := context.upload.HasMemory() || context.hasUploadUrl;
      if !context.runSpeedTest {
        ApplyCached(false, context.download, false);
        if wantsUpload {
          ApplyCached(true, context.upload, false);
        }
        return false;
      }
      var granted := slot.TryAcquire(now);
      if !granted {
        ApplyCached(false, context.download, true);
        if wantsUpload {
          ApplyCached(true, context.upload, true);
        }
        return false;
      }
      RecordLive(false, downloaded, stamp, context.download.memory);
      if context.hasUploadUrl {
        RecordLive(true, uploaded, stamp, context.upload.memory);
      } else if context.upload.HasMemory() {
        ApplyCached(true, context.upload, false);
      }
      return true;
    }
  }
}

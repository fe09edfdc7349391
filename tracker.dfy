/**
 * The tracker: the module-level state of public/tracking-script.js and one
 * method per handler. Each timer firing or browser event is a method call
 * whose time, geometry or message is an explicit argument; the browser's
 * answer to a storage write is the function `verdict` fixed at start.
 */
module Tracking {
  import opened Wrappers
  import opened Records
  import opened Dom
  import opened LocalStore
  import opened Capture

  /** A pointer click as the click listener sees it. */
  datatype ClickSignal = ClickSignal(
    clientX: int,
    clientY: int,
    pageX: int,
    pageY: int,
    xPercent: real,   // already rounded to two decimals by the page
    yPercent: real,
    target: Target)

  /** The record the click listener builds for an accepted click. */
  function ClickOf(signal: ClickSignal, stamp: string): ClickRecord {
    ClickRecord(signal.clientX, signal.clientY, Some(signal.xPercent), Some(signal.yPercent),
                signal.pageX, signal.pageY, ElementInfoOf(signal.target), stamp, None)
  }

  /** The click listener's record building, with getElementInfo run as its loop. */
  method BuildClick(signal: ClickSignal, stamp: string) returns (click: ClickRecord)
    ensures click == ClickOf(signal, stamp)
  {
    var element := GetElementInfo(signal.target);
    click := ClickRecord(signal.clientX, signal.clientY, Some(signal.xPercent), Some(signal.yPercent),
                         signal.pageX, signal.pageY, element, stamp, None);
  }

  /** The `data` of a window message: missing, or an object with a `type` and a payload. */
  datatype MessageData =
    | NoData
    | Data(kind: string, payload: Option<ClickRecord>)

  const IframeClickType: string := "iframe-click"
  const IframeSource: string := "iframe"

  /** What one firing of the dispatcher does on the network. */
  datatype Dispatch = NoRequest | Post(payload: Bundle)

  function AppendClick(s: Store, c: ClickRecord): Store {
    Store(s.data.(clicks := s.data.clicks + [c]), s.cell)
  }

  function AppendScroll(s: Store, m: int, stamp: string): Store {
    Store(s.data.(scrolls := s.data.scrolls + [ScrollRecord(m, stamp)]), s.cell)
  }

  function AppendTime(s: Store, t: TimeRecord): Store {
    Store(s.data.(timeOnPage := s.data.timeOnPage + [t]), s.cell)
  }

  /** The scroll timer's appends: one record and one save per milestone in `ms`, in order. */
  function RecordScrolls(s: Store, ms: seq<int>, stamp: string, verdict: Bundle -> WriteOutcome): Store
    decreases |ms|
  {
    if ms == [] then s
    else Save(AppendScroll(RecordScrolls(s, ms[..|ms| - 1], stamp, verdict), ms[|ms| - 1], stamp), verdict)
  }

  /** One more recorded milestone is one more append and save. */
  lemma RecordScrollsStep(s: Store, ms: seq<int>, m: int, stamp: string, verdict: Bundle -> WriteOutcome)
    ensures RecordScrolls(s, ms + [m], stamp, verdict) == Save(AppendScroll(RecordScrolls(s, ms, stamp, verdict), m, stamp), verdict)
  {
    assert (ms + [m])[..|ms|] == ms;
  }

  function ScrollRecords(ms: seq<int>, stamp: string): (r: seq<ScrollRecord>)
    ensures |r| == |ms| && forall k :: 0 <= k < |ms| ==> r[k] == ScrollRecord(ms[k], stamp)
  {
    seq(|ms|, k requires 0 <= k < |ms| => ScrollRecord(ms[k], stamp))
  }

  /**
   * When storage never reports a full quota nothing is pruned: the scroll
   * timer appends one record per milestone, in order, and leaves the clicks
   * and times as they were.
   */
  lemma {:induction false} RecordScrollsWithoutQuota(s: Store, ms: seq<int>, stamp: string, verdict: Bundle -> WriteOutcome)
    requires forall b :: verdict(b) != QuotaExceeded
    ensures RecordScrolls(s, ms, stamp, verdict).data ==
      s.data.(scrolls := s.data.scrolls + ScrollRecords(ms, stamp))
    decreases |ms|
  {
    if ms != [] {
      var init := ms[..|ms| - 1];
      RecordScrollsWithoutQuota(s, init, stamp, verdict);
      assert ScrollRecords(ms, stamp) == ScrollRecords(init, stamp) + [ScrollRecord(ms[|ms| - 1], stamp)];
    }
  }

  /**
   * Whatever storage answers, the newest scroll record after the timer's
   * appends is the last milestone it recorded.
   */
  lemma {:induction false} RecordScrollsKeepsLast(s: Store, ms: seq<int>, stamp: string, verdict: Bundle -> WriteOutcome)
    requires ms != []
    ensures var d := RecordScrolls(s, ms, stamp, verdict).data;
      d.scrolls != [] && d.scrolls[|d.scrolls| - 1] == ScrollRecord(ms[|ms| - 1], stamp)
  {
    var before := RecordScrolls(s, ms[..|ms| - 1], stamp, verdict);
    SaveKeepsNewest(AppendScroll(before, ms[|ms| - 1], stamp), verdict);
  }

  /** The store after the 1 Hz tick fires at each time in `nows` on an enabled page. */
  function TickStores(s: Store, entry: int, nows: seq<int>, stamp: string, verdict: Bundle -> WriteOutcome): Store
    decreases |nows|
  {
    if nows == [] then s
    else
      var before := TickStores(s, entry, nows[..|nows| - 1], stamp, verdict);
      var seconds := ElapsedSeconds(nows[|nows| - 1], entry);
      if IsRecordingSecond(seconds) then Save(AppendTime(before, TimeRecord(seconds, false, stamp)), verdict)
      else before
  }

  function TimeRecords(secs: seq<int>, stamp: string): (r: seq<TimeRecord>)
    ensures |r| == |secs| && forall k :: 0 <= k < |secs| ==> r[k] == TimeRecord(secs[k], false, stamp)
  {
    seq(|secs|, k requires 0 <= k < |secs| => TimeRecord(secs[k], false, stamp))
  }

  /**
   * When storage never reports a full quota, the ticks append one time entry
   * per second value TickRecords selects, in order, and leave the clicks and
   * scrolls as they were.
   */
  lemma {:induction false} TickStoresWithoutQuota(s: Store, entry: int, nows: seq<int>, stamp: string,
                                                  verdict: Bundle -> WriteOutcome)
    requires forall b :: verdict(b) != QuotaExceeded
    ensures TickStores(s, entry, nows, stamp, verdict).data ==
      s.data.(timeOnPage := s.data.timeOnPage + TimeRecords(TickRecords(entry, nows), stamp))
    decreases |nows|
  {
    if nows != [] {
      var init := nows[..|nows| - 1];
      TickStoresWithoutQuota(s, entry, init, stamp, verdict);
      var seconds := ElapsedSeconds(nows[|nows| - 1], entry);
      if IsRecordingSecond(seconds) {
        assert TimeRecords(TickRecords(entry, nows), stamp) ==
          TimeRecords(TickRecords(entry, init), stamp) + [TimeRecord(seconds, false, stamp)];
      } else {
        assert TickRecords(entry, nows) == TickRecords(entry, init);
      }
    }
  }

  /** The module-level state of the tracking script. */
  class Tracker {
    var data: Bundle                      // trackingData
    var stored: Stored                    // localStorage["trackingData"]
    const verdict: Bundle -> WriteOutcome // the browser's answer to writing a bundle
    var disabled: bool                    // window.disableTracking
    var lastClickTime: int
    var pageEntryTime: int
    var reached: map<int, bool>           // reachedScrollMilestones
    var scrollTimerPending: bool          // scrollTimeout is set
    var sendTimerPending: bool            // a sendDataToAPI timer is scheduled
    var requestsInFlight: nat             // fetch calls not yet settled
    /** The milestones recorded during this page lifetime, in order. */
    ghost var emitted: seq<int>

    /** The flags mark exactly the milestones recorded, and those are the first few of 25, 50, 75, 100. */
    ghost predicate Valid()
      reads this`reached, this`emitted
    {
      ScrollStateValid(reached, emitted)
    }

    /** initTracker at time `now`, with `cell` in localStorage and the global flag as given. */
    constructor (now: int, cell: Stored, disabledAtStart: bool, verdict: Bundle -> WriteOutcome)
      ensures Valid()
      ensures data == Restored(EmptyBundle, cell) && stored == cell
      ensures this.verdict == verdict && disabled == disabledAtStart
      ensures lastClickTime == 0 && pageEntryTime == now
      ensures reached == AllUnreached() && emitted == []
      ensures !scrollTimerPending && sendTimerPending && requestsInFlight == 0
    {
      data := EmptyBundle;
      stored := cell;
      this.verdict := verdict;
      disabled := disabledAtStart;
      lastClickTime := 0;
      pageEntryTime := now;
      reached := map[];
      scrollTimerPending := false;
      sendTimerPending := false;
      requestsInFlight := 0;
      emitted := [];
      new;
      InitTrackingData();
      reached := AllUnreached();
      sendTimerPending := true;
    }

    /** initTrackingData: restore the stored bundle, reset on a corrupt value, keep the current one when absent. */
    method InitTrackingData()
      modifies this`data
      ensures data == Restored(old(data), stored)
    {
      match stored
      case Absent =>
      case Parsed(b) => data := b;
      case Corrupt => data := EmptyBundle;
    }

    /** pruneOldData: halve each list that is over its limit, keeping the newest records. */
    method PruneOldData()
      modifies this`data
      ensures data == Prune(old(data))
    {
      if |data.clicks| > ClickLimit {
        data := data.(clicks := data.clicks[|data.clicks| / 2..]);
      }
      if |data.scrolls| > ScrollLimit {
        data := data.(scrolls := data.scrolls[|data.scrolls| / 2..]);
      }
      if |data.timeOnPage| > TimeLimit {
        data := data.(timeOnPage := data.timeOnPage[|data.timeOnPage| / 2..]);
      }
    }

    /**
     * saveToLocalStorage: write; on a quota error prune and write once more.
     * No error escapes; `attempts` counts the `setItem` calls.
     */
    method SaveToLocalStorage() returns (attempts: nat)
      modifies this`data, this`stored
      ensures Store(data, stored) == Save(Store(old(data), old(stored)), verdict)
      ensures attempts == WriteAttempts(old(data), verdict)
    {
      attempts := 1;
      var outcome := verdict(data);
      if outcome == Written {
        stored := Parsed(data);
      } else if outcome == QuotaExceeded {
        PruneOldData();
        attempts := 2;
        if verdict(data) == Written {
          stored := Parsed(data);
        }
      }
    }

    /** The click listener: gated by the flag and by the 200 ms debounce. */
    method Click(now: int, signal: ClickSignal, stamp: string)
      requires Valid()
      modifies this`data, this`stored, this`lastClickTime
      ensures Valid()
      ensures if disabled || now - old(lastClickTime) < DebounceMs then
          data == old(data) && stored == old(stored) && lastClickTime == old(lastClickTime)
        else
          lastClickTime == now &&
          Store(data, stored) == Save(AppendClick(Store(old(data), old(stored)), ClickOf(signal, stamp)), verdict)
    {
      if disabled {
        return;
      }
      if now - lastClickTime < DebounceMs {
        return;
      }
      lastClickTime := now;
      var click := BuildClick(signal, stamp);
      data := data.(clicks := data.clicks + [click]);
      var attempts := SaveToLocalStorage();
    }

    /** The scroll listener: starts the 100 ms throttle timer unless disabled or one is pending. */
    method ScrollSignal()
      modifies this`scrollTimerPending
      ensures scrollTimerPending == (old(scrollTimerPending) || !disabled)
    {
      if disabled {
        return;
      }
      if scrollTimerPending {
        return;
      }
      scrollTimerPending := true;
    }

    /**
     * The throttle timer fires: it clears itself and records every milestone
     * the current percentage has reached for the first time. It does not
     * consult the flag again.
     */
    method ScrollTimerFires(g: ScrollGeometry, stamp: string)
      requires Valid()
      modifies this`scrollTimerPending, this`reached, this`emitted, this`data, this`stored
      ensures Valid()
      ensures !scrollTimerPending
      ensures var e := Evaluate(old(reached), ScrollPercentage(g));
        && reached == e.reached
        && emitted == old(emitted) + e.newly
        && Store(data, stored) == RecordScrolls(Store(old(data), old(stored)), e.newly, stamp, verdict)
    {
      scrollTimerPending := false;
      var p := ScrollPercentage(g);
      EvaluatePreservesScrollState(reached, emitted, p);
      RecordMilestones(p, stamp);
    }

    /** The timer's `forEach` over the milestones at scroll percentage `p`. */
    method RecordMilestones(p: int, stamp: string)
      modifies this`reached, this`emitted, this`data, this`stored
      ensures var e := Evaluate(old(reached), p);
        && reached == e.reached
        && emitted == old(emitted) + e.newly
        && Store(data, stored) == RecordScrolls(Store(old(data), old(stored)), e.newly, stamp, verdict)
    {
      ghost var reached0, emitted0, store0 := reached, emitted, Store(data, stored);
      for i := 0 to |Milestones|
        invariant var e := EvaluateAmong(reached0, p, Milestones[..i]);
          && reached == e.reached
          && emitted == emitted0 + e.newly
          && Store(data, stored) == RecordScrolls(store0, e.newly, stamp, verdict)
      {
        ghost var e := EvaluateAmong(reached0, p, Milestones[..i]);
        var m := Milestones[i];
        EvaluateAmongStep(reached0, p, Milestones, i);
        if p >= m && !IsReached(reached, m) {
          reached := reached[m := true];
          data := data.(scrolls := data.scrolls + [ScrollRecord(m, stamp)]);
          var attempts := SaveToLocalStorage();
          emitted := emitted + [m];
          RecordScrollsStep(store0, e.newly, m, stamp, verdict);
        }
      }
      assert Milestones[..|Milestones|] == Milestones;
    }

    /** The 1 Hz tick: records the elapsed seconds at each positive multiple of 30. */
    method TimeTick(now: int, stamp: string)
      modifies this`data, this`stored
      ensures var s := ElapsedSeconds(now, pageEntryTime);
        if !disabled && IsRecordingSecond(s) then
          Store(data, stored) == Save(AppendTime(Store(old(data), old(stored)), TimeRecord(s, false, stamp)), verdict)
        else
          data == old(data) && stored == old(stored)
    {
      if disabled {
        return;
      }
      var seconds := ElapsedSeconds(now, pageEntryTime);
      if seconds % RecordEverySeconds == 0 && seconds > 0 {
        data := data.(timeOnPage := data.timeOnPage + [TimeRecord(seconds, false, stamp)]);
        var attempts := SaveToLocalStorage();
      }
    }

    /**
     * The unload handler: after at least one second it records a final time
     * entry, saves, and hands the whole live bundle to the beacon when the
     * browser has one.
     */
    method Unload(now: int, stamp: string, beaconSupported: bool) returns (beacon: Option<Bundle>)
      modifies this`data, this`stored
      ensures var s := ElapsedSeconds(now, pageEntryTime);
        if !disabled && s > 0 then
          && Store(data, stored) == Save(AppendTime(Store(old(data), old(stored)), TimeRecord(s, true, stamp)), verdict)
          && beacon == (if beaconSupported then Some(data) else None)
        else
          data == old(data) && stored == old(stored) && beacon == None
    {
      beacon := None;
      if disabled {
        return;
      }
      var seconds := ElapsedSeconds(now, pageEntryTime);
      if seconds > 0 {
        data := data.(timeOnPage := data.timeOnPage + [TimeRecord(seconds, true, stamp)]);
        var attempts := SaveToLocalStorage();
        if beaconSupported {
          beacon := Some(data);
        }
      }
    }

    /**
     * The message listener: an "iframe-click" payload is tagged as coming from
     * the iframe and appended, when tracking is enabled. A missing payload
     * makes the tagging throw before anything changes.
     */
    method ReceiveMessage(message: MessageData)
      modifies this`data, this`stored
      ensures if message.Data? && message.kind == IframeClickType && !disabled && message.payload.Some? then
          Store(data, stored) ==
            Save(AppendClick(Store(old(data), old(stored)), message.payload.value.(source := Some(IframeSource))), verdict)
        else
          data == old(data) && stored == old(stored)
    {
      if message.Data? && message.kind == IframeClickType {
        if disabled {
          return;
        }
        if message.payload.None? {
          return;
        }
        var click := message.payload.value.(source := Some(IframeSource));
        data := data.(clicks := data.clicks + [click]);
        var attempts := SaveToLocalStorage();
      }
    }

    /**
     * sendDataToAPI: when disabled, stop without rescheduling; with nothing
     * buffered, reschedule without a request; otherwise post a copy of the
     * bundle. The live bundle is never cleared.
     */
    method SendTimerFires() returns (request: Dispatch)
      modifies this`sendTimerPending, this`requestsInFlight
      ensures disabled ==>
        request == NoRequest && !sendTimerPending && requestsInFlight == old(requestsInFlight)
      ensures !disabled && IsEmpty(data) ==>
        request == NoRequest && sendTimerPending && requestsInFlight == old(requestsInFlight)
      ensures !disabled && !IsEmpty(data) ==>
        request == Post(data) && !sendTimerPending && requestsInFlight == old(requestsInFlight) + 1
    {
      sendTimerPending := false;
      if disabled {
        return NoRequest;
      }
      if |data.clicks| == 0 && |data.scrolls| == 0 && |data.timeOnPage| == 0 {
        sendTimerPending := true;
        return NoRequest;
      }
      var copy := data;
      requestsInFlight := requestsInFlight + 1;
      request := Post(copy);
    }

    /** The request settles, successfully or not: the next send is scheduled and no record is removed. */
    method RequestSettled(succeeded: bool)
      requires requestsInFlight > 0
      modifies this`sendTimerPending, this`requestsInFlight
      ensures sendTimerPending && requestsInFlight == old(requestsInFlight) - 1
    {
      requestsInFlight := requestsInFlight - 1;
      sendTimerPending := true;
    }

    /** ClickScrollScribe.disableTracking: sets the flag, nothing else. */
    method DisableTracking()
      modifies this`disabled
      ensures disabled
    {
      disabled := true;
    }

    /** ClickScrollScribe.enableTracking: clears the flag; a stopped send loop stays stopped. */
    method EnableTracking()
      modifies this`disabled
      ensures !disabled
    {
      disabled := false;
    }

    /** ClickScrollScribe.isEnabled. */
    method IsEnabled() returns (enabled: bool)
      ensures enabled == !disabled
    {
      enabled := !disabled;
    }
  }

  // ---------------------------------------------------------------------
  // Scenarios: what callers can conclude from the contracts above

  /** Two clicks `delta` ms apart on a fresh page record one click if delta < 200, two otherwise. */
  method DebouncedClicks(t: int, delta: int, first: ClickSignal, second: ClickSignal,
                         verdict: Bundle -> WriteOutcome) returns (recorded: nat)
    requires t >= DebounceMs && delta >= 0
    ensures recorded == if delta < DebounceMs then 1 else 2
  {
    var tracker := new Tracker(t, Absent, false, verdict);
    tracker.Click(t, first, "first");
    tracker.Click(t + delta, second, "second");
    recorded := |tracker.data.clicks|;
  }

  /** With tracking disabled, a click leaves the buffer and the stored value as they were. */
  method DisabledClick(now: int, signal: ClickSignal, cell: Stored, verdict: Bundle -> WriteOutcome)
    returns (before: Store, after: Store)
    ensures after == before
  {
    var tracker := new Tracker(now, cell, true, verdict);
    before := Store(tracker.data, tracker.stored);
    tracker.Click(now, signal, "click");
    after := Store(tracker.data, tracker.stored);
  }

  /** With nothing buffered, the dispatcher makes no request and schedules the next send. */
  method EmptyDispatch(now: int, verdict: Bundle -> WriteOutcome) returns (request: Dispatch, rescheduled: bool)
    ensures request == NoRequest && rescheduled
  {
    var tracker := new Tracker(now, Absent, false, verdict);
    request := tracker.SendTimerFires();
    rescheduled := tracker.sendTimerPending;
  }

  /** A send that finds tracking disabled stops the loop, and enabling again does not restart it. */
  method DisabledDispatchStops(now: int, cell: Stored, verdict: Bundle -> WriteOutcome) returns (restarted: bool)
    ensures !restarted
  {
    var tracker := new Tracker(now, cell, false, verdict);
    tracker.DisableTracking();
    var request := tracker.SendTimerFires();
    tracker.EnableTracking();
    restarted := tracker.sendTimerPending;
  }

  /**
   * A click recorded while a send is in flight is not in that send's payload
   * and is still buffered after the send settles, whatever its outcome.
   */
  method AppendDuringSend(t: int, first: ClickSignal, second: ClickSignal, succeeded: bool,
                          verdict: Bundle -> WriteOutcome) returns (sent: seq<ClickRecord>, kept: seq<ClickRecord>)
    requires t >= DebounceMs
    ensures sent == [ClickOf(first, "first")]
    ensures kept == [ClickOf(first, "first"), ClickOf(second, "second")]
  {
    var tracker := new Tracker(t, Absent, false, verdict);
    tracker.Click(t, first, "first");
    var request := tracker.SendTimerFires();
    sent := request.payload.clicks;
    tracker.Click(t + 1000, second, "second");
    tracker.RequestSettled(succeeded);
    kept := tracker.data.clicks;
  }

  /**
   * A page entered at `entry` whose 1 Hz tick fires at the times `nows`:
   * the buffer and the stored value end as TickStores says.
   */
  method TicksOnEnabledPage(entry: int, nows: seq<int>, cell: Stored, stamp: string,
                            verdict: Bundle -> WriteOutcome) returns (after: Store)
    ensures after == TickStores(Store(Restored(EmptyBundle, cell), cell), entry, nows, stamp, verdict)
  {
    var tracker := new Tracker(entry, cell, false, verdict);
    ghost var start := Store(tracker.data, tracker.stored);
    for i := 0 to |nows|
      invariant !tracker.disabled && tracker.pageEntryTime == entry && tracker.verdict == verdict
      invariant Store(tracker.data, tracker.stored) == TickStores(start, entry, nows[..i], stamp, verdict)
    {
      assert nows[..i + 1][..i] == nows[..i];
      tracker.TimeTick(nows[i], stamp);
    }
    assert nows[..|nows|] == nows;
    after := Store(tracker.data, tracker.stored);
  }
}

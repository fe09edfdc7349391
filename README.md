# Click-Scroll-Scribe tracking buffer, modelled in Dafny

This project models the in-page tracking script of Click-Scroll-Scribe
(`public/tracking-script.js`). The script records three kinds of telemetry
into one bundle: clicks, scroll-depth milestones and time-on-page entries.
It keeps the bundle in `localStorage`, pruning the oldest half of a list
when storage is full. Every few seconds it posts a copy of the bundle to the
collector, and on unload it hands the whole bundle to the beacon. A global
flag switches capture and dispatch off and on.

The modules follow the script's structure:

- `Records` holds the record types (`ClickRecord`, `ScrollRecord`,
  `TimeRecord`) and the `Bundle` of three lists.
- `Dom` holds `getElementInfo` and `getFullSelector`. Elements are values,
  and each element holds an optional parent. The selector walk is a `while`
  loop proved against the function `FullSelector`.
- `LocalStore` holds `pruneOldData`, `saveToLocalStorage` with its single
  retry after a quota error, and `initTrackingData`, all as functions over
  the live bundle and the stored cell.
- `Capture` holds the pure parts of the capturers:
  - the scroll percentage;
  - the milestone check of the scroll timer, written as a fold;
  - the elapsed seconds;
  - which ticks of the 1 Hz timer record an entry.
- `Tracking` holds the class `Tracker`. Its fields are the script's
  module-level variables, and there is one method per event handler or
  timer callback. Each firing of a timer or browser event is a method call
  whose clock value, page geometry or message is an argument. The browser's
  answer to a `setItem` call is the function `verdict`, fixed when the
  tracker is built, because whether a write exceeds the quota depends on
  what is written. A ghost field `emitted` logs the milestones recorded
  during the page's lifetime. The invariant `Valid` says that the flags in
  `reached` mark exactly those milestones, and that they are a prefix of
  25, 50, 75, 100.

Two behaviours of the code differ from what a reader might expect, and the
model follows the code:

- One might expect a dispatcher that finds tracking disabled to reschedule
  itself and try again later. The code (`public/tracking-script.js:108-111`)
  returns without scheduling anything. `Tracker.SendTimerFires` models the
  code. Because `enableTracking` does not restart the loop, a disabled send
  stops the send loop for the rest of the page's lifetime
  (`DisabledDispatchStops`).
- One might expect every capturer to check the flag just before recording.
  The scroll timer's callback (lines 314-337) does not check it again. So a
  scroll accepted before `disableTracking` is still recorded when its
  100 ms timer fires. `Tracker.ScrollTimerFires` models that.

## Model

| member | source | states |
|---|---|---|
| Dom.Lower | public/tracking-script.js:223 | `toLowerCase` keeps the length and maps every character through the case mapping |
| Dom.Trim | public/tracking-script.js:228-230 | `trim()` removes only leading and trailing whitespace, and leaves a contiguous slice of the text with no whitespace at either end |
| Dom.ElementInfoOf | public/tracking-script.js:218-237 | a non-element target gives "unknown" and an element gives an info record, never the reverse; the tag is the lower-cased tag name and the full selector is the element's selector |
| Dom.ClassStringIsDotJoin | public/tracking-script.js:225-227 | mapping each class to `.c` and joining with "" equals "." followed by the classes joined with "." |
| Dom.IdentifierChoice | public/tracking-script.js:224-234 | the identifier is `#id`, else the class string, else the trimmed text cut to at most 20 characters (a prefix of it), else the lower-cased tag |
| Dom.PathFromShape | public/tracking-script.js:249-268 | the walk visits at most 3 elements, never document.body, each the parent of the one before; when it stops early, the next parent was missing or was document.body |
| Dom.AssembleIsJoin | public/tracking-script.js:263-265 | prepending each new segment with " > " builds the segments joined outermost-first |
| Dom.SelectorShape | public/tracking-script.js:240-271 | the full selector of an element is at most 3 segments, joined with " > " from the outermost visited ancestor down to the element |
| Dom.SegmentOf | public/tracking-script.js:254-261 | one segment is the lower-cased tag, then `#id`, else `.c1.c2…` when there are classes |
| Dom.GetFullSelector | public/tracking-script.js:240-271 | the `while` walk returns exactly the specified selector ("unknown" for a non-element) |
| Dom.GetElementInfo | public/tracking-script.js:218-237 | the method returns exactly the specified element info |
| LocalStore.PruneKeepsNewestHalf | public/tracking-script.js:78-99 | a list at or under its limit is unchanged; a longer list keeps its newest ceil(n/2) records in order, so it gets strictly shorter |
| LocalStore.PruneTwentyOneClicks | public/tracking-script.js:80-84 | 21 clicks are pruned to the newest 11, and the other two lists are pruned on their own limits |
| LocalStore.SaveOutcome | public/tracking-script.js:59-75 | a save prunes only on a quota error, swallows other errors with no change, and leaves the cell holding the live bundle or its old value |
| LocalStore.SaveKeepsNewest | public/tracking-script.js:59-99 | whatever storage answers, each list after a save is a suffix of the old one holding at least half of it |
| LocalStore.SaveThenRestore | public/tracking-script.js:46-75 | a restore after a successful save (first try, or after pruning) gives back the saved bundle; after a non-quota failure it gives what the old cell gave |
| Capture.ScrollPercentage | public/tracking-script.js:281-297 | 0 when the page cannot scroll, otherwise the largest whole percentage p with p·track ≤ scrollTop·100 |
| Capture.AllUnreached | public/tracking-script.js:276-278 | the initial flags have exactly the four milestones as keys, all unreached |
| Capture.EvaluateExactly | public/tracking-script.js:314-337 | one timer firing records exactly the unreached milestones at or under the percentage, in ascending order, flags them and clears no flag |
| Capture.EvaluateAmongMembers | public/tracking-script.js:320-336 | the `forEach` over any milestone list records exactly the listed, unreached milestones at or under the percentage, flags them, clears no flag and adds keys only for what it records |
| Capture.EvaluateAmongAscending | public/tracking-script.js:320-336 | over a strictly ascending milestone list the recorded milestones are strictly ascending |
| Capture.EvaluateFromPrefix | public/tracking-script.js:320-336 | when the first k milestones are flagged, a firing at p records milestones k up to max(k, level(p)) and flags exactly that prefix |
| Capture.EvaluatePreservesScrollState | public/tracking-script.js:276-337 | a firing keeps the flags equal to the recorded milestones, which stay a prefix of 25, 50, 75, 100 |
| Capture.RunRecordsEachOnce | public/tracking-script.js:274-341 | any run of firings from a fresh page records each milestone at most once, in order: the milestones up to the deepest percentage seen |
| Capture.ScrollScenario | public/tracking-script.js:320-336 | firings at 10, 30, 60, 80, 100 percent record 25, 50, 75, 100 |
| Capture.ElapsedSeconds | public/tracking-script.js:349-354 | the elapsed seconds are the time since entry in milliseconds divided by 1000, rounded down |
| Capture.TicksRecordMultiples | public/tracking-script.js:357-378 | n firings of the 1 Hz tick, one second apart, select exactly the positive multiples of 30 up to n, in order, as the seconds to record |
| Capture.NinetyFiveTicks | public/tracking-script.js:357-378 | 95 ticks record 30, 60 and 90 |
| Tracking.BuildClick | public/tracking-script.js:182-202 | the click record holds the event's coordinates, the given percentages, the element info and the timestamp, and has no source |
| Tracking.TickStoresWithoutQuota | public/tracking-script.js:357-375 | when storage never reports a full quota, a run of ticks on an enabled page appends one time entry per selected second value, in order, and changes nothing else |
| Tracking.TicksOnEnabledPage | public/tracking-script.js:344-378 | a run of `TimeTick` calls on a fresh enabled page leaves the buffer and stored value that the tick fold gives |
| Tracking.RecordScrollsWithoutQuota | public/tracking-script.js:320-336 | when storage never reports a full quota, a firing appends one scroll record per new milestone, in order, and changes nothing else |
| Tracking.RecordScrollsKeepsLast | public/tracking-script.js:320-336 | whatever storage answers, the newest scroll record after a firing is the last milestone it recorded |
| Tracking.Tracker.constructor | public/tracking-script.js:449-463 | initTracker restores the stored bundle, resets every milestone flag, schedules the first send, and starts with the invariant holding |
| Tracking.Tracker.InitTrackingData | public/tracking-script.js:46-56 | an absent value keeps the current bundle, a parsable one replaces it, and a corrupt one resets it to empty |
| Tracking.Tracker.PruneOldData | public/tracking-script.js:78-99 | the live bundle becomes its pruned form |
| Tracking.Tracker.SaveToLocalStorage | public/tracking-script.js:59-75 | the bundle and cell become the result of one save, and the number of writes is 2 exactly after a quota error |
| Tracking.Tracker.Click | public/tracking-script.js:163-215 | a disabled or debounced click changes nothing; otherwise the click record is appended and saved and the debounce clock moves to now |
| Tracking.Tracker.ScrollSignal | public/tracking-script.js:301-313 | a scroll starts the throttle timer unless tracking is disabled or a timer is already pending |
| Tracking.Tracker.ScrollTimerFires | public/tracking-script.js:314-337 | the timer clears itself, records and saves each newly reached milestone in order, and keeps the invariant |
| Tracking.Tracker.RecordMilestones | public/tracking-script.js:320-336 | the `forEach` loop's flags, log and store are exactly those of the evaluation at the given percentage |
| Tracking.Tracker.TimeTick | public/tracking-script.js:357-375 | the tick appends and saves an entry exactly when tracking is enabled and the elapsed seconds are a positive multiple of 30 |
| Tracking.Tracker.Unload | public/tracking-script.js:381-414 | after at least one second an enabled page appends and saves a final entry and hands the saved bundle to the beacon when there is one; otherwise nothing changes |
| Tracking.Tracker.ReceiveMessage | public/tracking-script.js:418-446 | an enabled "iframe-click" message with a payload appends that payload tagged with source "iframe" and saves; every other message changes nothing |
| Tracking.Tracker.SendTimerFires | public/tracking-script.js:102-159 | a disabled send stops with no request and no reschedule; an empty bundle reschedules with no request; otherwise the live bundle is posted and stays buffered |
| Tracking.Tracker.RequestSettled | public/tracking-script.js:142-159 | a settled request, succeeded or failed, schedules the next send and removes no data |
| Tracking.Tracker.DisableTracking | public/tracking-script.js:466-469 | disableTracking sets the flag |
| Tracking.Tracker.EnableTracking | public/tracking-script.js:470-473 | enableTracking clears the flag |
| Tracking.Tracker.IsEnabled | public/tracking-script.js:474-476 | isEnabled is the negation of the flag |
| Tracking.DebouncedClicks | public/tracking-script.js:172-179 | two clicks delta ms apart on a fresh page record one click when delta < 200 and two otherwise |
| Tracking.DisabledClick | public/tracking-script.js:167-170 | with tracking disabled, a click leaves the buffer and the stored value unchanged |
| Tracking.EmptyDispatch | public/tracking-script.js:113-121 | with nothing buffered, the dispatcher makes no request and reschedules itself |
| Tracking.DisabledDispatchStops | public/tracking-script.js:108-111 | a send that finds tracking disabled stops the send loop, and enabling tracking again does not restart it |
| Tracking.AppendDuringSend | public/tracking-script.js:123-159 | a click recorded while a send is in flight is not in that send's payload and stays buffered after the send settles, whatever its outcome |

## Left out

- Listener and timer wiring is not modelled: `addEventListener`, `setTimeout`, `setInterval`, the 100 ms and 5000 ms delays, and start-up on DOMContentLoaded. Each firing is a method call, and a pending timer is a boolean.
- The network is not modelled. `fetch` and `sendBeacon` are reduced to the bundle they carry (`Dispatch`, and the beacon result of `Unload`). The request envelope is left out: `pageUrl`, `userAgent`, the request timestamp and the `"page_exit"` marker.
- The response check at lines 142-147 is left out. A request settles as a success or a failure, and both lead to the same state.
- `localStorage` and JSON are an abstract cell: absent, a parsed bundle, or corrupt. A stored value that parses to something other than a bundle (such as `null`) is not modelled.
- A storage write's outcome is a function of the bundle written. Two writes of the same bundle get the same answer.
- Timestamps (`toISOString`) are string arguments.
- The clock is an integer argument.
- Tracking.Tracker.RequestSettled: requires a request in flight, because a settlement only follows a post.
- Tracking.BuildClick: `xPercent` and `yPercent` (lines 187-197) are given as already-rounded reals. Their floating-point computation and `toFixed(2)` rounding are not modelled.
- Capture.ScrollPercentage: is computed exactly as floor(scrollTop·100/track) over integers. Floating-point rounding of `(scrollTop / trackLength) * 100` is not modelled, nor are fractional scroll offsets.
- Capture.ScrollPercentage: models `a || b` on numbers as "b when a is 0". `NaN` and `undefined` are not modelled.
- Dom.Lower: lower-cases ASCII letters only. Dafny has no Unicode case mapping.
- JavaScript strings are UTF-16. Here, `substring(0, 20)` cuts 20 Dafny characters.
- `event.target` is either an element or not an element. `document.body` is an element marked `isBody`. The DOM tree is a chain of parent values.
- The consent check at lines 16-19 is not modelled. When it fails, the script returns before any state exists.
- Every `console.log` and `console.error` call is left out. They only write to the console.
- Lines 441-443 are left out: `updateHeatmap` and the console output. In the iframe handler, `updateHeatmap` is undefined, so the call throws after the save. That changes no state in the model.
- Tracking.Tracker.ReceiveMessage: a payload that is not an object (so assigning `source` throws) is modelled only as the missing payload.
- The heatmap script, the dashboard UI and the collector endpoint are not part of this model.

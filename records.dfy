/**
 * The telemetry records buffered by the tracking script and the bundle that
 * holds them (the `trackingData` object: the unit of persistence and of
 * transmission).
 */
module Records {
  import opened Wrappers

  /** What `getElementInfo` reports about a clicked element. */
  datatype ElementInfo =
    | Unknown                                                   // the target was not an Element
    | Info(tag: string, identifier: string, fullSelector: string)

  /**
   * One click. The percentages are floating-point values rounded by the
   * browser; the model carries them as given (an iframe payload has none).
   */
  datatype ClickRecord = ClickRecord(
    x: int,
    y: int,
    xPercent: Option<real>,
    yPercent: Option<real>,
    pageX: int,
    pageY: int,
    element: ElementInfo,
    timestamp: string,
    source: Option<string>)

  /** A scroll-depth milestone reached, in percent. */
  datatype ScrollRecord = ScrollRecord(percentage: int, timestamp: string)

  /** Whole seconds spent on the page; `finalVisit` marks the unload record. */
  datatype TimeRecord = TimeRecord(seconds: int, finalVisit: bool, timestamp: string)

  /** The `trackingData` object: three append-only lists. */
  datatype Bundle = Bundle(
    clicks: seq<ClickRecord>,
    scrolls: seq<ScrollRecord>,
    timeOnPage: seq<TimeRecord>)

  const EmptyBundle: Bundle := Bundle([], [], [])

  /** All three lists are empty: the dispatcher has nothing to send. */
  predicate IsEmpty(b: Bundle) {
    b.clicks == [] && b.scrolls == [] && b.timeOnPage == []
  }
}

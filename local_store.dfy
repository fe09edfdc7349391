/**
 * The local store: the pruning policy, the `trackingData` key of
 * localStorage, saving with one retry after pruning, and restoring at start
 * (public/tracking-script.js:45-99).
 */
module LocalStore {
  import opened Records

  /** pruneOldData halves a list only when it is longer than its limit. */
  const ClickLimit: nat := 20
  const ScrollLimit: nat := 20
  const TimeLimit: nat := 10

  /** `list.slice(Math.floor(list.length / 2))` when the list is over its limit. */
  function PruneList<T>(s: seq<T>, limit: nat): seq<T> {
    if |s| > limit then s[|s| / 2..] else s
  }

  /** pruneOldData: each list is pruned on its own, against its own limit. */
  function Prune(b: Bundle): Bundle {
    Bundle(
      PruneList(b.clicks, ClickLimit),
      PruneList(b.scrolls, ScrollLimit),
      PruneList(b.timeOnPage, TimeLimit))
  }

  /**
   * A list over its limit keeps its newest ceil(n/2) records in their
   * original order; a list at or under its limit is left as it is.
   */
  lemma PruneKeepsNewestHalf<T>(s: seq<T>, limit: nat)
    ensures |s| <= limit ==> PruneList(s, limit) == s
    ensures |s| > limit ==>
      var r := PruneList(s, limit);
      && |r| == (|s| + 1) / 2
      && (|s| > 1 ==> |r| < |s|)
      && forall k :: 0 <= k < |r| ==> r[k] == s[|s| - |r| + k]
  {
    if |s| > limit {
      var n := |s|;
      assert n % 2 == 0 || n % 2 == 1;
      assert n - n / 2 == (n + 1) / 2;
    }
  }

  /** Twenty-one clicks are pruned to the newest eleven. */
  lemma PruneTwentyOneClicks(b: Bundle)
    requires |b.clicks| == 21
    ensures Prune(b).clicks == b.clicks[10..] && |Prune(b).clicks| == 11
    ensures Prune(b).scrolls == PruneList(b.scrolls, ScrollLimit)
    ensures Prune(b).timeOnPage == PruneList(b.timeOnPage, TimeLimit)
  {
  }

  /** What localStorage holds under the `trackingData` key. */
  datatype Stored =
    | Absent                // no value (or the empty string, which is falsy)
    | Parsed(bundle: Bundle) // text that JSON.parse turns into this bundle
    | Corrupt               // text that JSON.parse rejects

  /** How the browser answers one `localStorage.setItem` call. */
  datatype WriteOutcome = Written | QuotaExceeded | OtherError

  /** The live bundle together with the stored cell. */
  datatype Store = Store(data: Bundle, cell: Stored)

  /** One `setItem` of bundle `b`: the cell holds `b` afterwards only if the write succeeds. */
  function Write(b: Bundle, cell: Stored, verdict: Bundle -> WriteOutcome): Stored {
    if verdict(b) == Written then Parsed(b) else cell
  }

  /**
   * saveToLocalStorage: write the bundle; on QuotaExceededError prune it and
   * write once more; any other error is swallowed with no prune and no retry.
   * `verdict` is the browser's answer to writing a given bundle.
   */
  function Save(s: Store, verdict: Bundle -> WriteOutcome): Store {
    match verdict(s.data)
    case Written => Store(s.data, Parsed(s.data))
    case OtherError => s
    case QuotaExceeded =>
      var pruned := Prune(s.data);
      Store(pruned, Write(pruned, s.cell, verdict))
  }

  /** The number of `setItem` calls one save makes. */
  function WriteAttempts(b: Bundle, verdict: Bundle -> WriteOutcome): nat {
    if verdict(b) == QuotaExceeded then 2 else 1
  }

  /**
   * Saving changes the live bundle only by pruning, and prunes only after a
   * quota error, and any other error changes nothing; the cell then holds
   * the live bundle, or keeps its old value when the last write failed.
   */
  lemma SaveOutcome(s: Store, verdict: Bundle -> WriteOutcome)
    ensures var r := Save(s, verdict);
      && r.data == (if verdict(s.data) == QuotaExceeded then Prune(s.data) else s.data)
      && (r.cell == Parsed(r.data) || r.cell == s.cell)
      && (verdict(s.data) == Written ==> r.cell == Parsed(s.data))
      && (verdict(s.data) == OtherError ==> r == s)
  {
  }

  /**
   * Whatever storage answers, saving keeps every list a suffix of what it
   * was, at least half of it: the newest record of each list survives.
   */
  lemma SaveKeepsNewest(s: Store, verdict: Bundle -> WriteOutcome)
    ensures var d := Save(s, verdict).data;
      && IsNewestHalf(d.clicks, s.data.clicks)
      && IsNewestHalf(d.scrolls, s.data.scrolls)
      && IsNewestHalf(d.timeOnPage, s.data.timeOnPage)
  {
  }

  /** `r` is a suffix of `s` holding at least half of it (rounded up). */
  ghost predicate IsNewestHalf<T>(r: seq<T>, s: seq<T>) {
    |s| <= 2 * |r| && |r| <= |s| && r == s[|s| - |r|..]
  }

  /** initTrackingData: an absent value keeps `initial`, a corrupt one resets to the empty bundle. */
  function Restored(initial: Bundle, cell: Stored): (b: Bundle)
  {
    match cell
    case Absent => initial
    case Corrupt => EmptyBundle
    case Parsed(stored) => stored
  }

  /**
   * A save followed by a restore on a fresh page gives back the live bundle
   * whenever a write of it succeeded; a failed first write that is not a quota
   * error leaves the previous stored value to be restored.
   */
  lemma SaveThenRestore(s: Store, verdict: Bundle -> WriteOutcome, initial: Bundle)
    ensures var r := Save(s, verdict);
      && (verdict(s.data) == Written ==> Restored(initial, r.cell) == s.data)
      && (verdict(s.data) == QuotaExceeded && verdict(Prune(s.data)) == Written ==>
            Restored(initial, r.cell) == Prune(s.data))
      && (verdict(s.data) == OtherError ==> Restored(initial, r.cell) == Restored(initial, s.cell))
  {
  }
}

/**
 * The pure computations of the capturers: the scroll percentage, the
 * milestone evaluation of the scroll timer, and the elapsed seconds of the
 * time-on-page tick (public/tracking-script.js:274-375).
 */
module Capture {

  /** Clicks closer than this many milliseconds to the last accepted one are dropped. */
  const DebounceMs: int := 200
  /** The 1 Hz tick records a time entry at every multiple of this many seconds. */
  const RecordEverySeconds: int := 30
  /** The scroll-depth milestones, in the order the timer checks them. */
  const Milestones: seq<int> := [25, 50, 75, 100]
  const MilestoneSet: set<int> := {25, 50, 75, 100}

  function Max(a: int, b: int): int { if a >= b then a else b }

  // ---------------------------------------------------------------------
  // getScrollPercentage

  /** The page geometry getScrollPercentage reads. */
  datatype ScrollGeometry = ScrollGeometry(
    bodyScrollHeight: int,
    bodyOffsetHeight: int,
    rootClientHeight: int,
    rootScrollHeight: int,
    rootOffsetHeight: int,
    innerHeight: int,
    pageYOffset: int,
    rootScrollTop: int)

  /** JavaScript's `a || b` on numbers: `b` when `a` is 0. */
  function OrElse(a: int, b: int): int { if a != 0 then a else b }

  function DocHeight(g: ScrollGeometry): int {
    Max(Max(Max(Max(g.bodyScrollHeight, g.bodyOffsetHeight), g.rootClientHeight),
            g.rootScrollHeight), g.rootOffsetHeight)
  }

  function TrackLength(g: ScrollGeometry): int {
    DocHeight(g) - OrElse(g.innerHeight, g.rootClientHeight)
  }

  function ScrollTop(g: ScrollGeometry): int {
    OrElse(g.pageYOffset, g.rootScrollTop)
  }

  /**
   * getScrollPercentage: 0 when the page cannot scroll, otherwise the whole
   * percent of the scrollable length scrolled, rounded down.
   */
  function ScrollPercentage(g: ScrollGeometry): (p: int)
    ensures TrackLength(g) <= 0 ==> p == 0
    ensures TrackLength(g) > 0 ==>
      p * TrackLength(g) <= ScrollTop(g) * 100 < (p + 1) * TrackLength(g)
  {
    var track := TrackLength(g);
    if track > 0 then
      var p := ScrollTop(g) * 100 / track;
      assert ScrollTop(g) * 100 == p * track + ScrollTop(g) * 100 % track;
      p
    else 0
  }

  // ---------------------------------------------------------------------
  // The milestone check of the scroll timer

  /** `reachedScrollMilestones[m]` is truthy (a missing key reads as undefined). */
  predicate IsReached(reached: map<int, bool>, m: int) {
    m in reached && reached[m]
  }

  /** The flags trackScrollDepth starts with: every milestone present and false. */
  function AllUnreached(): (r: map<int, bool>)
    ensures r.Keys == MilestoneSet
    ensures forall m :: !IsReached(r, m)
  {
    map m | m in MilestoneSet :: false
  }

  /** The flags after an evaluation, and the milestones it recorded, in order. */
  datatype Progress = Progress(reached: map<int, bool>, newly: seq<int>)

  /**
   * The `forEach` over the milestones `ms` at percentage `p`: each milestone
   * at or under `p` whose flag is not yet set is flagged and recorded.
   */
  function EvaluateAmong(reached: map<int, bool>, p: int, ms: seq<int>): Progress
    decreases |ms|
  {
    if ms == [] then Progress(reached, [])
    else
      var before := EvaluateAmong(reached, p, ms[..|ms| - 1]);
      var m := ms[|ms| - 1];
      if p >= m && !IsReached(before.reached, m) then
        Progress(before.reached[m := true], before.newly + [m])
      else before
  }

  /** One more milestone of the `forEach`: the step the scroll timer's loop takes. */
  lemma EvaluateAmongStep(reached: map<int, bool>, p: int, ms: seq<int>, i: nat)
    requires i < |ms|
    ensures var e := EvaluateAmong(reached, p, ms[..i]);
      EvaluateAmong(reached, p, ms[..i + 1]) ==
        if p >= ms[i] && !IsReached(e.reached, ms[i]) then Progress(e.reached[ms[i] := true], e.newly + [ms[i]])
        else e
  {
    assert ms[..i + 1][..i] == ms[..i];
  }

  /** One evaluation of the scroll timer at percentage `p`. */
  function Evaluate(reached: map<int, bool>, p: int): Progress {
    EvaluateAmong(reached, p, Milestones)
  }

  predicate StrictlyAscending(s: seq<int>) {
    forall i, j :: 0 <= i < j < |s| ==> s[i] < s[j]
  }

  /**
   * The `forEach` over any milestone list records exactly the listed
   * milestones at or under `p` that were not reached, flags them, clears no
   * flag and adds a key only for what it records.
   */
  lemma {:induction false} EvaluateAmongMembers(reached: map<int, bool>, p: int, ms: seq<int>)
    ensures var r := EvaluateAmong(reached, p, ms);
      && (forall m :: m in r.newly <==> m in ms && m <= p && !IsReached(reached, m))
      && (forall m :: IsReached(r.reached, m) <==> IsReached(reached, m) || (m in ms && m <= p))
      && (forall m :: m in r.reached <==> m in reached || m in r.newly)
    decreases |ms|
  {
    if ms != [] {
      var init, last := ms[..|ms| - 1], ms[|ms| - 1];
      EvaluateAmongMembers(reached, p, init);
      assert ms == init + [last];
      assert forall m :: m in ms <==> m in init || m == last;
    }
  }

  /** Over a strictly ascending milestone list, the recorded milestones are strictly ascending too. */
  lemma {:induction false} EvaluateAmongAscending(reached: map<int, bool>, p: int, ms: seq<int>)
    requires StrictlyAscending(ms)
    ensures StrictlyAscending(EvaluateAmong(reached, p, ms).newly)
    decreases |ms|
  {
    if ms != [] {
      var init, last := ms[..|ms| - 1], ms[|ms| - 1];
      EvaluateAmongAscending(reached, p, init);
      EvaluateAmongMembers(reached, p, init);
      var before := EvaluateAmong(reached, p, init);
      var r := EvaluateAmong(reached, p, ms);
      if p >= last && !IsReached(before.reached, last) {
        assert r.newly == before.newly + [last];
        forall i, j | 0 <= i < j < |r.newly| ensures r.newly[i] < r.newly[j] {
          if j == |r.newly| - 1 {
            var x := r.newly[i];
            assert x == before.newly[i];
            assert x in before.newly;
            assert x in init;
            var idx :| 0 <= idx < |init| && init[idx] == x;
            assert ms[idx] == x;
          }
        }
      }
    }
  }

  /**
   * One evaluation records exactly the milestones at or under `p` that were
   * not reached, in ascending order; it flags them, and no flag is cleared.
   */
  lemma EvaluateExactly(reached: map<int, bool>, p: int)
    ensures var r := Evaluate(reached, p);
      && StrictlyAscending(r.newly)
      && (forall m :: m in r.newly <==> m in MilestoneSet && m <= p && !IsReached(reached, m))
      && (forall m :: IsReached(r.reached, m) <==> IsReached(reached, m) || (m in MilestoneSet && m <= p))
      && (forall m :: m in r.reached <==> m in reached || m in r.newly)
  {
    MilestonesAscending();
    EvaluateAmongMembers(reached, p, Milestones);
    EvaluateAmongAscending(reached, p, Milestones);
    assert forall m :: m in Milestones <==> m in MilestoneSet;
  }

  /** How many milestones lie at or under `p`: they are the first Level(p) of them. */
  function Level(p: int): (k: nat)
    ensures k <= |Milestones|
    ensures forall j :: 0 <= j < |Milestones| ==> (Milestones[j] <= p <==> j < k)
  {
    if p >= 100 then 4 else if p >= 75 then 3 else if p >= 50 then 2 else if p >= 25 then 1 else 0
  }

  /** Exactly the first `k` milestones are flagged. */
  ghost predicate ReachedPrefix(reached: map<int, bool>, k: nat) {
    k <= |Milestones| &&
    forall j :: 0 <= j < |Milestones| ==> (IsReached(reached, Milestones[j]) <==> j < k)
  }

  lemma SameElementsSameEmptiness(a: seq<int>, b: seq<int>)
    requires forall x :: x in a <==> x in b
    ensures a == [] <==> b == []
  {
    if a != [] {
      var x := a[0];
      assert x in a;
      assert x in b;
    }
    if b != [] {
      var x := b[0];
      assert x in b;
      assert x in a;
    }
  }

  /** Two strictly ascending sequences with the same elements are equal. */
  lemma {:induction false} AscendingDetermined(a: seq<int>, b: seq<int>)
    requires StrictlyAscending(a) && StrictlyAscending(b)
    requires forall x :: x in a <==> x in b
    ensures a == b
    decreases |a| + |b|
  {
    SameElementsSameEmptiness(a, b);
    if a != [] {
      assert a[0] in a && b[0] in b;
      assert a == [a[0]] + a[1..] && b == [b[0]] + b[1..];
      forall x | x in a[1..] ensures x in b[1..] {
        assert x in a && x > a[0];
      }
      forall x | x in b[1..] ensures x in a[1..] {
        assert x in b && x > b[0];
      }
      AscendingDetermined(a[1..], b[1..]);
    }
  }

  /** A milestone lies in the slice from index k to k' exactly when its index does. */
  lemma InSlice(x: int, k: nat, k': nat)
    requires k <= k' <= |Milestones|
    ensures x in Milestones[k..k'] <==> exists j :: k <= j < k' && Milestones[j] == x
  {
    if x in Milestones[k..k'] {
      var i :| 0 <= i < k' - k && Milestones[k..k'][i] == x;
      assert Milestones[k + i] == x;
    }
    if exists j :: k <= j < k' && Milestones[j] == x {
      var j :| k <= j < k' && Milestones[j] == x;
      assert Milestones[k..k'][j - k] == x;
    }
  }

  lemma MilestonesAscending()
    ensures StrictlyAscending(Milestones)
  {
  }

  /** A slice of a strictly ascending sequence is strictly ascending. */
  lemma SliceAscending(s: seq<int>, lo: nat, hi: nat)
    requires StrictlyAscending(s) && lo <= hi <= |s|
    ensures StrictlyAscending(s[lo..hi])
  {
    forall i, j | 0 <= i < j < hi - lo ensures s[lo..hi][i] < s[lo..hi][j] {
      assert s[lo..hi][i] == s[lo + i] && s[lo..hi][j] == s[lo + j];
    }
  }

  /** The position of a milestone in the list. */
  function MilestoneIndex(x: int): (j: nat)
    requires x in MilestoneSet
    ensures j < |Milestones| && Milestones[j] == x
  {
    if x == 25 then 0 else if x == 50 then 1 else if x == 75 then 2 else 3
  }

  /** The milestones at or under `p` not among the first `k` are those from index k up to Level(p). */
  lemma NewlyFromPrefix(reached: map<int, bool>, k: nat, p: int, newly: seq<int>)
    requires ReachedPrefix(reached, k)
    requires StrictlyAscending(newly)
    requires forall m :: m in newly <==> m in MilestoneSet && m <= p && !IsReached(reached, m)
    ensures newly == Milestones[k..Max(k, Level(p))]
  {
    var k' := Max(k, Level(p));
    var expected := Milestones[k..k'];
    forall x ensures x in newly <==> x in expected {
      InSlice(x, k, k');
      if x in MilestoneSet {
        var j := MilestoneIndex(x);
        assert x in newly <==> k <= j < k';
      } else {
        assert forall j :: 0 <= j < |Milestones| ==> Milestones[j] in MilestoneSet;
      }
    }
    MilestonesAscending();
    SliceAscending(Milestones, k, k');
    AscendingDetermined(newly, expected);
  }

  /** Flagging the milestones at or under `p` on top of the first `k` flags the first max(k, Level(p)). */
  lemma FlagsFromPrefix(reached: map<int, bool>, k: nat, p: int, after: map<int, bool>)
    requires ReachedPrefix(reached, k)
    requires forall m :: IsReached(after, m) <==> IsReached(reached, m) || (m in MilestoneSet && m <= p)
    ensures ReachedPrefix(after, Max(k, Level(p)))
  {
    forall j | 0 <= j < |Milestones| ensures IsReached(after, Milestones[j]) <==> j < Max(k, Level(p)) {
      assert Milestones[j] in MilestoneSet;
    }
  }

  /**
   * From flags that mark the first `k` milestones, an evaluation at `p`
   * records the next ones up to Level(p) and leaves the first
   * max(k, Level(p)) flagged.
   */
  lemma EvaluateFromPrefix(reached: map<int, bool>, k: nat, p: int)
    requires ReachedPrefix(reached, k)
    ensures var r := Evaluate(reached, p);
      && r.newly == Milestones[k..Max(k, Level(p))]
      && ReachedPrefix(r.reached, Max(k, Level(p)))
  {
    var r := Evaluate(reached, p);
    EvaluateExactly(reached, p);
    NewlyFromPrefix(reached, k, p, r.newly);
    FlagsFromPrefix(reached, k, p, r.reached);
  }

  /**
   * The scroll state of a page: every milestone has a flag, and the flags
   * mark exactly the milestones recorded so far, which are the first few of
   * 25, 50, 75, 100 in order.
   */
  ghost predicate ScrollStateValid(reached: map<int, bool>, recorded: seq<int>) {
    && reached.Keys == MilestoneSet
    && |recorded| <= |Milestones|
    && recorded == Milestones[..|recorded|]
    && ReachedPrefix(reached, |recorded|)
  }

  /** An evaluation keeps the scroll state valid: what it records extends the recorded prefix. */
  lemma EvaluatePreservesScrollState(reached: map<int, bool>, recorded: seq<int>, p: int)
    requires ScrollStateValid(reached, recorded)
    ensures var e := Evaluate(reached, p);
      ScrollStateValid(e.reached, recorded + e.newly)
  {
    var e := Evaluate(reached, p);
    EvaluateExactly(reached, p);
    EvaluateFromPrefix(reached, |recorded|, p);
    var k' := Max(|recorded|, Level(p));
    assert recorded + e.newly == Milestones[..|recorded|] + Milestones[|recorded|..k'];
    assert Milestones[..|recorded|] + Milestones[|recorded|..k'] == Milestones[..k'];
    assert forall m :: m in e.reached <==> m in MilestoneSet;
  }

  /** The milestones a run of evaluations at percentages `ps` records, in order. */
  function RunNewly(reached: map<int, bool>, ps: seq<int>): seq<int>
    decreases |ps|
  {
    if ps == [] then []
    else
      RunNewly(reached, ps[..|ps| - 1]) + Evaluate(RunReached(reached, ps[..|ps| - 1]), ps[|ps| - 1]).newly
  }

  /** The flags after a run of evaluations. */
  function RunReached(reached: map<int, bool>, ps: seq<int>): map<int, bool>
    decreases |ps|
  {
    if ps == [] then reached
    else Evaluate(RunReached(reached, ps[..|ps| - 1]), ps[|ps| - 1]).reached
  }

  /** The highest Level among the percentages (0 for none). */
  function MaxLevel(ps: seq<int>): (k: nat)
    ensures k <= |Milestones|
    ensures forall j :: 0 <= j < |Milestones| ==>
      (j < k <==> exists i :: 0 <= i < |ps| && Milestones[j] <= ps[i])
    decreases |ps|
  {
    if ps == [] then 0
    else
      var init := ps[..|ps| - 1];
      var k := Max(MaxLevel(init), Level(ps[|ps| - 1]));
      assert forall i :: 0 <= i < |init| ==> init[i] == ps[i];
      k
  }

  /**
   * Over a page lifetime, whatever the percentages, the milestones recorded
   * are the first MaxLevel(ps) of 25, 50, 75, 100 in ascending order: each at
   * most once, and each only once some percentage has reached it.
   */
  lemma {:induction false} RunRecordsEachOnce(ps: seq<int>)
    ensures RunNewly(AllUnreached(), ps) == Milestones[..MaxLevel(ps)]
    ensures ReachedPrefix(RunReached(AllUnreached(), ps), MaxLevel(ps))
    decreases |ps|
  {
    if ps != [] {
      var init := ps[..|ps| - 1];
      RunRecordsEachOnce(init);
      EvaluateFromPrefix(RunReached(AllUnreached(), init), MaxLevel(init), ps[|ps| - 1]);
      assert Milestones[..MaxLevel(init)] + Milestones[MaxLevel(init)..MaxLevel(ps)] == Milestones[..MaxLevel(ps)];
    }
  }

  /** Scrolling to 10%, 30%, 60%, 80% and 100% records 25, 50, 75 and 100, in that order. */
  lemma ScrollScenario()
    ensures RunNewly(AllUnreached(), [10, 30, 60, 80, 100]) == [25, 50, 75, 100]
  {
    var ps := [10, 30, 60, 80, 100];
    RunRecordsEachOnce(ps);
    assert Milestones[3] <= ps[4];
    assert MaxLevel(ps) == 4;
  }

  // ---------------------------------------------------------------------
  // calculateTimeOnPage and the 1 Hz tick

  /** calculateTimeOnPage: whole seconds since page entry, rounded down. */
  function ElapsedSeconds(now: int, entry: int): (s: int)
    ensures s * 1000 <= now - entry < (s + 1) * 1000
  {
    (now - entry) / 1000
  }

  /** The tick records an entry at a positive multiple of 30 seconds. */
  predicate IsRecordingSecond(s: int) {
    s % RecordEverySeconds == 0 && s > 0
  }

  /** The seconds values the tick records when it runs at the times `nows`. */
  function TickRecords(entry: int, nows: seq<int>): seq<int>
    decreases |nows|
  {
    if nows == [] then []
    else
      var s := ElapsedSeconds(nows[|nows| - 1], entry);
      TickRecords(entry, nows[..|nows| - 1]) + (if IsRecordingSecond(s) then [s] else [])
  }

  /** The tick times of a 1 Hz timer after `n` firings: entry + 1000, entry + 2000, ... */
  function Ticks(entry: int, n: nat): (r: seq<int>)
    ensures |r| == n && forall k :: 0 <= k < n ==> r[k] == entry + 1000 * (k + 1)
  {
    seq(n, k => entry + 1000 * (k + 1))
  }

  /** The multiples 30, 60, ..., 30 * count. */
  function Multiples(count: nat): (r: seq<int>)
    ensures |r| == count && forall j :: 0 <= j < count ==> r[j] == RecordEverySeconds * (j + 1)
  {
    seq(count, j => RecordEverySeconds * (j + 1))
  }

  /** After `n` one-second ticks, the recorded seconds are exactly 30, 60, ..., up to n. */
  lemma {:induction false} TicksRecordMultiples(entry: int, n: nat)
    ensures TickRecords(entry, Ticks(entry, n)) == Multiples(n / RecordEverySeconds)
  {
    if n > 0 {
      var nows := Ticks(entry, n);
      assert nows[..n - 1] == Ticks(entry, n - 1);
      TicksRecordMultiples(entry, n - 1);
      assert ElapsedSeconds(nows[n - 1], entry) == n;
      if n % 30 == 0 {
        assert n / 30 == (n - 1) / 30 + 1;
        assert Multiples(n / 30) == Multiples((n - 1) / 30) + [n];
      } else {
        assert n / 30 == (n - 1) / 30;
      }
    }
  }

  /** Ninety-five ticks at 1 Hz record the seconds 30, 60 and 90. */
  lemma NinetyFiveTicks(entry: int)
    ensures TickRecords(entry, Ticks(entry, 95)) == [30, 60, 90]
  {
    TicksRecordMultiples(entry, 95);
    assert Multiples(3) == [30, 60, 90];
  }
}

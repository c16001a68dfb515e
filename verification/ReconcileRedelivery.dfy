/**
 How often one activitylog entry can be handed out. Passes over one (user, drive) pair run one
 after another on a clock that never goes back; a pass that returned the entry and stored its
 cursor is called effective for it. The bounds below are on the number of effective passes.
 */
module ReconcileRedelivery {
  import opened Clock
  import opened Wrappers
  import opened ReconcilePass

  /** One pass: the clock when it starts and when its query is answered, and how its calls end. */
  datatype Pass = Pass(now: Time, queriedAt: Time, read: Read, query: Query, writeOk: bool)

  predicate IsHistory(cfg: Config, passes: seq<Pass>, cursors: seq<Option<EventCursor>>) {
    && |cursors| == |passes| + 1
    && (cursors[0].Some? ==> Stored(cfg, cursors[0].value) == cursors[0].value)
    && (forall i :: 0 <= i < |passes| ==>
         && passes[i].now <= passes[i].queriedAt
         && cursors[i + 1] == Next(cfg, cursors[i], passes[i]))
    && (forall i :: 0 < i < |passes| ==> passes[i - 1].queriedAt <= passes[i].now)
  }

  function Next(cfg: Config, found: Option<EventCursor>, p: Pass): Option<EventCursor> {
    CursorAfter(cfg, p.now, found, p.read, p.query, p.writeOk)
  }

  /** The pass gets the entry back from the log, so it dispatches it. */
  predicate Dispatches(cfg: Config, found: Option<EventCursor>, p: Pass, a: Activity) {
    p.read.ReadOk? && !Debounced(cfg, p.now, found) && p.query.Answered? && Returns(cfg, p.now, found, p.queriedAt, a)
  }

  predicate Effective(cfg: Config, found: Option<EventCursor>, p: Pass, a: Activity) {
    Dispatches(cfg, found, p, a) && p.writeOk
  }

  /** `picks` are the positions of some passes effective for `a`, in order. */
  predicate EffectivePicks(cfg: Config, passes: seq<Pass>, cursors: seq<Option<EventCursor>>, a: Activity,
                           picks: seq<nat>) {
    && IsHistory(cfg, passes, cursors)
    && (forall k :: 0 <= k < |picks| ==> picks[k] < |passes| && Effective(cfg, cursors[picks[k]], passes[picks[k]], a))
    && (forall k :: 0 < k < |picks| ==> picks[k - 1] < picks[k])
  }

  /** The grace period and overlap as they act on cursors kept at the given resolution. */
  function Grace(cfg: Config): nat
    ensures cfg.gracePeriod % cfg.resolution == 0 ==> Grace(cfg) == cfg.gracePeriod
  {
    TruncMonotone(0, cfg.gracePeriod, cfg.resolution);
    Trunc(cfg.gracePeriod, cfg.resolution)
  }

  function Window(cfg: Config): int {
    0 - Trunc(0 - cfg.overlap, cfg.resolution)
  }

  // ---- the cursor between two effective passes ------------------------------------------

  lemma TruncOfMultiple(q: int, r: pos)
    ensures Trunc(r * q, r) == r * q
  {
    var d := r * q / r;
    if d < q { ScaleMonotone(r, d + 1, q); }
    if q < d { ScaleMonotone(r, q + 1, d); }
  }

  lemma TruncTwice(t: Time, r: pos)
    ensures Trunc(Trunc(t, r), r) == Trunc(t, r)
  {
    TruncOfMultiple(t / r, r);
  }

  lemma TruncUnique(t: Time, q: int, r: pos)
    requires r * q <= t < r * q + r
    ensures Trunc(t, r) == r * q
  {
    var d := t / r;
    if d < q { ScaleMonotone(r, d + 1, q); }
    if q < d { ScaleMonotone(r, q + 1, d); }
  }

  /** Whole times pass through truncation. */
  lemma TruncShift(c: Time, d: Time, r: pos)
    requires Trunc(c, r) == c
    ensures Trunc(c + d, r) == c + Trunc(d, r)
  {
    var q := c / r + d / r;
    assert r * q == c + Trunc(d, r);
    TruncUnique(c + d, q, r);
  }

  /** From a whole time on, truncation only gains. */
  lemma TruncSum(c: Time, d: Time, t: Time, r: pos)
    requires Trunc(c, r) == c && c + d <= t
    ensures c + Trunc(d, r) <= Trunc(t, r)
  {
    var q := c / r + d / r;
    assert r * q == c + Trunc(d, r);
    TruncOfMultiple(q, r);
    TruncMonotone(r * q, t, r);
  }

  predicate Whole(cfg: Config, c: Option<EventCursor>) {
    c.Some? ==> Trunc(c.value.lastChecked, cfg.resolution) == c.value.lastChecked
  }

  /** A pass never loses a cursor nor moves it back, and leaves it whole. */
  lemma CursorAdvances(cfg: Config, found: Option<EventCursor>, p: Pass)
    requires Whole(cfg, found)
    ensures Whole(cfg, Next(cfg, found, p))
    ensures found.Some? ==>
      Next(cfg, found, p).Some? && found.value.lastChecked <= Next(cfg, found, p).value.lastChecked
  {
    TruncTwice(p.now, cfg.resolution);
    TruncTwice(Baseline(cfg, p.now, found), cfg.resolution);
    if found.Some? && found.value.lastChecked <= p.now {
      TruncMonotone(found.value.lastChecked, p.now, cfg.resolution);
    }
  }

  /** After pass `i` stored its cursor, every later cursor is at least that pass's own start. */
  lemma {:induction false} LaterCursors(cfg: Config, passes: seq<Pass>, cursors: seq<Option<EventCursor>>,
                                        a: Activity, i: nat, j: nat)
    requires IsHistory(cfg, passes, cursors) && i < j < |cursors|
    requires Effective(cfg, cursors[i], passes[i], a)
    ensures Whole(cfg, cursors[j]) && cursors[j].Some?
    ensures Trunc(passes[i].now, cfg.resolution) <= cursors[j].value.lastChecked
  {
    if j == i + 1 {
      TruncTwice(passes[i].now, cfg.resolution);
    } else {
      LaterCursors(cfg, passes, cursors, a, i, j - 1);
      CursorAdvances(cfg, cursors[j - 1], passes[j - 1]);
    }
  }

  /** Two effective passes are a grace period apart, and the later one still reaches back to the entry. */
  lemma EffectiveApart(cfg: Config, passes: seq<Pass>, cursors: seq<Option<EventCursor>>, a: Activity, i: nat, j: nat)
    requires IsHistory(cfg, passes, cursors) && i < j < |passes|
    requires Effective(cfg, cursors[i], passes[i], a) && Effective(cfg, cursors[j], passes[j], a)
    ensures Trunc(passes[i].now, cfg.resolution) + Grace(cfg) <= Trunc(passes[j].now, cfg.resolution)
    ensures Trunc(passes[i].now, cfg.resolution) < a.recordedTime + Window(cfg)
  {
    LaterCursors(cfg, passes, cursors, a, i, j);
    var c := cursors[j].value.lastChecked;
    TruncSum(c, cfg.gracePeriod, passes[j].now, cfg.resolution);
    TruncSum(c, 0 - cfg.overlap, Since(cfg, passes[j].now, cursors[j]), cfg.resolution);
  }

  /** Along the picks the clock gains a grace period each time. */
  lemma {:induction false} PicksSpread(cfg: Config, passes: seq<Pass>, cursors: seq<Option<EventCursor>>, a: Activity,
                                       picks: seq<nat>, from: nat, to: nat)
    requires EffectivePicks(cfg, passes, cursors, a, picks) && from <= to < |picks|
    ensures Trunc(passes[picks[from]].now, cfg.resolution) + (to - from) * Grace(cfg)
         <= Trunc(passes[picks[to]].now, cfg.resolution)
  {
    if from < to {
      PicksSpread(cfg, passes, cursors, a, picks, from, to - 1);
      EffectiveApart(cfg, passes, cursors, a, picks[to - 1], picks[to]);
      assert (to - from) * Grace(cfg) == (to - 1 - from) * Grace(cfg) + Grace(cfg);
    }
  }

  lemma {:induction false} LaterStarts(cfg: Config, passes: seq<Pass>, cursors: seq<Option<EventCursor>>, i: nat,
                                       j: nat)
    requires IsHistory(cfg, passes, cursors) && i < j < |passes|
    ensures passes[i].queriedAt <= passes[j].now
  {
    if i + 1 < j {
      LaterStarts(cfg, passes, cursors, i, j - 1);
    }
  }

  // ---- main results --------------------------------------------------------------------

  /**
   What `n` deliveries take: counted from the start of the first pass that hands the entry out,
   and, since the second one begins after the entry was stamped, counted from its own stamp.
   */
  predicate Reaches(cfg: Config, first: Time, stamp: Time, n: nat) {
    && (n >= 2 ==> Trunc(first, cfg.resolution) + (n - 2) * Grace(cfg) < stamp + Window(cfg))
    && (n >= 3 ==> Trunc(stamp, cfg.resolution) + (n - 3) * Grace(cfg) < stamp + Window(cfg))
  }

  /** The bound, for every configuration and every history: the entry reaches as many passes as handed it out. */
  lemma RedeliveryBound(cfg: Config, passes: seq<Pass>, cursors: seq<Option<EventCursor>>, a: Activity, picks: seq<nat>)
    requires EffectivePicks(cfg, passes, cursors, a, picks) && |picks| >= 1
    ensures |picks| >= 2 ==>
      Trunc(passes[picks[0]].now, cfg.resolution) + (|picks| - 2) * Grace(cfg) < a.recordedTime + Window(cfg)
    ensures a.recordedTime <= a.shownAt ==> Reaches(cfg, passes[picks[0]].now, a.recordedTime, |picks|)
  {
    var m := |picks|;
    if m >= 2 {
      PicksSpread(cfg, passes, cursors, a, picks, 0, m - 2);
      EffectiveApart(cfg, passes, cursors, a, picks[m - 2], picks[m - 1]);
    }
    if m >= 3 && a.recordedTime <= a.shownAt {
      PicksSpread(cfg, passes, cursors, a, picks, 1, m - 2);
      LaterStarts(cfg, passes, cursors, picks[0], picks[1]);
      TruncMonotone(a.recordedTime, passes[picks[1]].now, cfg.resolution);
    }
  }

  /** The client gives up on a query after a fixed time. */
  predicate AnsweredWithin(passes: seq<Pass>, wait: nat) {
    forall i :: 0 <= i < |passes| ==> passes[i].queriedAt <= passes[i].now + wait
  }

  /**
   Some history in which a pass that starts at `first` hands the entry out, and `n` passes do so
   altogether, none of which waits longer than `wait` for its answer.
   */
  ghost predicate CanReach(cfg: Config, wait: nat, first: Time, a: Activity, n: nat) {
    exists passes, cursors, picks :: IsWitness(cfg, wait, first, a, n, passes, cursors, picks)
  }

  ghost predicate IsWitness(cfg: Config, wait: nat, first: Time, a: Activity, n: nat,
                            passes: seq<Pass>, cursors: seq<Option<EventCursor>>, picks: seq<nat>) {
    && EffectivePicks(cfg, passes, cursors, a, picks) && AnsweredWithin(passes, wait)
    && |picks| == n >= 1 && passes[picks[0]].now == first
  }

  // ---- the quickest history ------------------------------------------------------------

  function Later(s: Time, t: Time): Time {
    if s < t then t else s
  }

  /** What the cursor holds after pass `i` of the quickest history. */
  function QuickCursor(cfg: Config, first: Time, stamp: Time, i: nat): Time {
    var whole := Trunc(first, cfg.resolution);
    if i == 0 then whole
    else Later(Trunc(stamp, cfg.resolution), whole + Grace(cfg)) + (i - 1) * Grace(cfg)
  }

  /** The first pass waits for the stamp, and every other one starts as soon as the debounce lets it. */
  function QuickStart(cfg: Config, first: Time, stamp: Time, i: nat): Time {
    if i == 0 then first
    else if i == 1 then Later(stamp, Trunc(first, cfg.resolution) + cfg.gracePeriod)
    else QuickCursor(cfg, first, stamp, i - 1) + cfg.gracePeriod
  }

  function QuickPass(cfg: Config, first: Time, stamp: Time, i: nat): Pass {
    var now := QuickStart(cfg, first, stamp, i);
    Pass(now, if i == 0 then Later(first, stamp) else now, ReadOk, Answered, true)
  }

  function QuickFound(cfg: Config, first: Time, stamp: Time, i: nat): Option<EventCursor> {
    if i == 0 then None else Some(EventCursor(QuickCursor(cfg, first, stamp, i - 1), Full))
  }

  /**
   The configurations for which the quickest history runs: grace is worth a unit of storage, the clamp stays
   out of the way.
   */
  predicate Roomy(cfg: Config) {
    cfg.resolution <= cfg.gracePeriod && cfg.overlap + cfg.gracePeriod <= cfg.lookback
  }

  lemma WholeSum(c: Time, d: Time, r: pos)
    requires Trunc(c, r) == c && Trunc(d, r) == d
    ensures Trunc(c + d, r) == c + d
  {
    TruncShift(c, d, r);
  }

  lemma {:induction false} WholeTimes(g: Time, n: nat, r: pos)
    requires Trunc(g, r) == g
    ensures Trunc(n * g, r) == n * g
  {
    if n == 0 {
      TruncOfMultiple(0, r);
    } else {
      WholeTimes(g, n - 1, r);
      WholeSum((n - 1) * g, g, r);
      assert (n - 1) * g + g == n * g;
    }
  }

  lemma GraceIsAUnit(cfg: Config)
    requires Roomy(cfg)
    ensures cfg.resolution <= Grace(cfg) <= cfg.gracePeriod && Trunc(Grace(cfg), cfg.resolution) == Grace(cfg)
  {
    TruncTwice(cfg.gracePeriod, cfg.resolution);
    TruncOfMultiple(1, cfg.resolution);
    TruncMonotone(cfg.resolution, cfg.gracePeriod, cfg.resolution);
  }

  lemma QuickCursorIsWhole(cfg: Config, first: Time, stamp: Time, i: nat)
    ensures Trunc(QuickCursor(cfg, first, stamp, i), cfg.resolution) == QuickCursor(cfg, first, stamp, i)
  {
    var r, g := cfg.resolution, Grace(cfg);
    TruncTwice(first, r);
    TruncTwice(stamp, r);
    TruncTwice(cfg.gracePeriod, r);
    if i > 0 {
      WholeSum(Trunc(first, r), g, r);
      WholeTimes(g, i - 1, r);
      WholeSum(Later(Trunc(stamp, r), Trunc(first, r) + g), (i - 1) * g, r);
    }
  }

  /** Each pass leaves the cursor that the next one finds. */
  lemma QuickStartRoundsToCursor(cfg: Config, first: Time, stamp: Time, i: nat)
    ensures Trunc(QuickStart(cfg, first, stamp, i), cfg.resolution) == QuickCursor(cfg, first, stamp, i)
  {
    var r, g, whole := cfg.resolution, cfg.gracePeriod, Trunc(first, cfg.resolution);
    if i == 1 {
      TruncTwice(first, r);
      TruncShift(whole, g, r);
      if stamp < whole + g {
        TruncMonotone(stamp, whole + g, r);
      } else {
        TruncMonotone(whole + g, stamp, r);
      }
    } else if i > 1 {
      QuickCursorIsWhole(cfg, first, stamp, i - 1);
      TruncShift(QuickCursor(cfg, first, stamp, i - 1), g, r);
      assert (i - 1) * Grace(cfg) == (i - 2) * Grace(cfg) + Grace(cfg);
    }
  }

  /** A pass on a whole cursor `c` reaches back to every stamp after c - Window, unless the clamp forbids it. */
  lemma ReachesBack(cfg: Config, c: Time, now: Time, stamp: Time)
    requires Trunc(c, cfg.resolution) == c && c - Window(cfg) < stamp
    requires now - cfg.lookback <= c - cfg.overlap || now - cfg.lookback < stamp
    ensures Trunc(Since(cfg, now, Some(EventCursor(c, Full))), cfg.resolution) < stamp
  {
    TruncShift(c, 0 - cfg.overlap, cfg.resolution);
    var since := Since(cfg, now, Some(EventCursor(c, Full)));
    TruncMonotone(since, since, cfg.resolution);
  }

  /** The first pass ever looks back the whole lookback. */
  lemma FirstReachesBack(cfg: Config, first: Time, stamp: Time)
    requires Roomy(cfg) && Trunc(first, cfg.resolution) < stamp + Window(cfg)
    ensures Trunc(Since(cfg, first, None), cfg.resolution) < stamp
  {
    var r, whole := cfg.resolution, Trunc(first, cfg.resolution);
    TruncTwice(first, r);
    TruncMonotone(first, first, r);
    TruncShift(whole, 0 - cfg.overlap, r);
    TruncMonotone(Since(cfg, first, None), whole - cfg.overlap, r);
  }

  lemma Times(g: nat, i: nat, n: nat)
    requires i <= n
    ensures i * g <= n * g && (i + 1) * g == i * g + g
  {
  }

  /** How far the cursor may have come when the entry is handed out again. */
  lemma QuickCursorInReach(cfg: Config, first: Time, stamp: Time, n: nat, i: nat)
    requires Reaches(cfg, first, stamp, n) && 1 <= i < n
    ensures QuickCursor(cfg, first, stamp, i - 1) - Window(cfg) < stamp
  {
    var g := Grace(cfg);
    Times(g, i - 1, n - 2);
    if i >= 2 {
      Times(g, i - 2, n - 3);
    }
  }

  lemma FirstQuickPass(cfg: Config, first: Time, a: Activity, n: nat)
    requires Roomy(cfg) && Reaches(cfg, first, a.recordedTime, n) && 2 <= n && a.shownAt == a.recordedTime
    ensures var stamp := a.recordedTime;
      var p := QuickPass(cfg, first, stamp, 0);
      Effective(cfg, None, p, a) && Next(cfg, None, p) == QuickFound(cfg, first, stamp, 1)
  {
    Times(Grace(cfg), 0, n - 2);
    FirstReachesBack(cfg, first, a.recordedTime);
  }

  lemma LaterQuickPass(cfg: Config, first: Time, a: Activity, n: nat, i: nat)
    requires Roomy(cfg) && Reaches(cfg, first, a.recordedTime, n) && 1 <= i < n && a.shownAt == a.recordedTime
    ensures var stamp := a.recordedTime;
      var p, found := QuickPass(cfg, first, stamp, i), QuickFound(cfg, first, stamp, i);
      Effective(cfg, found, p, a) && Next(cfg, found, p) == QuickFound(cfg, first, stamp, i + 1)
  {
    var stamp := a.recordedTime;
    var now, c := QuickStart(cfg, first, stamp, i), QuickCursor(cfg, first, stamp, i - 1);
    QuickStartRoundsToCursor(cfg, first, stamp, i);
    QuickCursorIsWhole(cfg, first, stamp, i - 1);
    QuickCursorInReach(cfg, first, stamp, n, i);
    QuickWaits(cfg, first, stamp, i);
    ReachesBack(cfg, c, now, stamp);
    PromptPass(cfg, c, now, a);
  }

  /** A pass past the debounce and the stamp, that reaches back and goes well, is effective. */
  lemma PromptPass(cfg: Config, c: Time, now: Time, a: Activity)
    requires now - c >= cfg.gracePeriod && a.shownAt <= now
    requires Trunc(Since(cfg, now, Some(EventCursor(c, Full))), cfg.resolution) < a.recordedTime
    ensures var p, found := Pass(now, now, ReadOk, Answered, true), Some(EventCursor(c, Full));
      Effective(cfg, found, p, a) && Next(cfg, found, p) == Some(EventCursor(Trunc(now, cfg.resolution), Full))
  {
  }

  lemma QuickPassIsEffective(cfg: Config, first: Time, a: Activity, n: nat, i: nat)
    requires Roomy(cfg) && Reaches(cfg, first, a.recordedTime, n) && i < n && 2 <= n && a.shownAt == a.recordedTime
    ensures var stamp := a.recordedTime;
      var p, found := QuickPass(cfg, first, stamp, i), QuickFound(cfg, first, stamp, i);
      Effective(cfg, found, p, a) && Next(cfg, found, p) == QuickFound(cfg, first, stamp, i + 1)
  {
    if i == 0 {
      FirstQuickPass(cfg, first, a, n);
    } else {
      LaterQuickPass(cfg, first, a, n, i);
    }
  }

  /** A later pass is past the debounce, past the stamp, and within reach of the lookback. */
  lemma QuickWaits(cfg: Config, first: Time, stamp: Time, i: nat)
    requires Roomy(cfg) && i >= 1
    ensures var now, c := QuickStart(cfg, first, stamp, i), QuickCursor(cfg, first, stamp, i - 1);
      && now - c >= cfg.gracePeriod && stamp <= now
      && (now - cfg.lookback <= c - cfg.overlap || now - cfg.lookback < stamp)
  {
    GraceIsAUnit(cfg);
    TruncMonotone(stamp, stamp, cfg.resolution);
    if i >= 2 {
      assert 0 <= (i - 2) * Grace(cfg);
    }
  }

  /** The passes do not overlap. */
  lemma QuickStartsInOrder(cfg: Config, first: Time, stamp: Time, i: nat)
    requires Roomy(cfg) && i >= 1
    ensures QuickPass(cfg, first, stamp, i - 1).queriedAt <= QuickStart(cfg, first, stamp, i)
  {
    GraceIsAUnit(cfg);
    TruncMonotone(first, first, cfg.resolution);
    TruncMonotone(stamp, stamp, cfg.resolution);
    if i == 2 {
      assert (i - 2) * Grace(cfg) == 0;
    } else if i > 2 {
      assert (i - 2) * Grace(cfg) == (i - 3) * Grace(cfg) + Grace(cfg);
    }
  }

  lemma QuickHistoryIsWitness(cfg: Config, wait: nat, first: Time, a: Activity, n: nat,
                              passes: seq<Pass>, cursors: seq<Option<EventCursor>>, picks: seq<nat>)
    requires n >= 1 && |passes| == |picks| == n && |cursors| == n + 1 && cursors[0].None?
    requires forall i: nat :: i < n ==> picks[i] == i && passes[i] == QuickPass(cfg, first, a.recordedTime, i)
    requires forall i: nat :: i < n ==>
      Effective(cfg, cursors[i], passes[i], a) && cursors[i + 1] == Next(cfg, cursors[i], passes[i])
    requires forall i: nat :: 0 < i < n ==> passes[i - 1].queriedAt <= passes[i].now
    requires a.recordedTime <= first + wait
    ensures IsWitness(cfg, wait, first, a, n, passes, cursors, picks)
  {
  }

  lemma QuickHistory(cfg: Config, wait: nat, first: Time, a: Activity, n: nat)
    returns (passes: seq<Pass>, cursors: seq<Option<EventCursor>>, picks: seq<nat>)
    requires Roomy(cfg) && Reaches(cfg, first, a.recordedTime, n) && 2 <= n && a.shownAt == a.recordedTime
    requires a.recordedTime <= first + wait
    ensures IsWitness(cfg, wait, first, a, n, passes, cursors, picks)
  {
    var stamp := a.recordedTime;
    passes := seq(n, (i: nat) => QuickPass(cfg, first, stamp, i));
    cursors := seq(n + 1, (i: nat) => QuickFound(cfg, first, stamp, i));
    picks := seq(n, (i: nat) => i);
    forall i: nat | i < n
      ensures Effective(cfg, cursors[i], passes[i], a) && cursors[i + 1] == Next(cfg, cursors[i], passes[i])
    {
      QuickPassIsEffective(cfg, first, a, n, i);
    }
    forall i: nat | 0 < i < n ensures passes[i - 1].queriedAt <= passes[i].now {
      QuickStartsInOrder(cfg, first, stamp, i);
    }
    QuickHistoryIsWitness(cfg, wait, first, a, n, passes, cursors, picks);
  }

  // ---- exactly how often ---------------------------------------------------------------

  /**
   Exactly when an entry can be handed out `n` times, whole-second storage and all: for every
   start of the first pass, every stamp, every n, and however long a query may take.
   */
  lemma RedeliveryExactly(cfg: Config, wait: nat, first: Time, a: Activity, n: nat)
    requires Roomy(cfg) && a.shownAt == a.recordedTime && 2 <= n
    ensures CanReach(cfg, wait, first, a, n)
      <==> Reaches(cfg, first, a.recordedTime, n) && a.recordedTime <= first + wait
  {
    if Reaches(cfg, first, a.recordedTime, n) && a.recordedTime <= first + wait {
      var passes, cursors, picks := QuickHistory(cfg, wait, first, a, n);
    }
    forall passes, cursors, picks | IsWitness(cfg, wait, first, a, n, passes, cursors, picks)
      ensures Reaches(cfg, first, a.recordedTime, n) && a.recordedTime <= first + wait
    {
      RedeliveryBound(cfg, passes, cursors, a, picks);
      assert Effective(cfg, cursors[picks[0]], passes[picks[0]], a);
    }
  }

  function CeilDiv(n: nat, d: pos): (q: nat)
    ensures q * d - d < n <= q * d
  {
    (n + d - 1) / d
  }

  lemma WindowIsNat(cfg: Config)
    ensures cfg.overlap <= Window(cfg)
  {
    TruncMonotone(0 - cfg.overlap, 0 - cfg.overlap, cfg.resolution);
  }

  /** One delivery and one more for every grace period, or part of one, in the overlap. */
  function PromisedBound(cfg: Config): nat
    requires Grace(cfg) > 0
  {
    WindowIsNat(cfg);
    1 + CeilDiv(Window(cfg), Grace(cfg))
  }

  /** The latest stamp, counted from the start of the first pass, for which the promise is kept. */
  function LatestKept(cfg: Config): int
    requires Grace(cfg) > 0
  {
    (PromisedBound(cfg) - 1) * Grace(cfg) - Window(cfg)
  }

  lemma FewerSteps(g: pos, k: int, c: int)
    requires k * g < c * g
    ensures k < c
  {
    ScaleMonotone(g, c, if k < c then c else k);
  }

  /** At every resolution the promised bound holds for entries stamped early enough ... */
  lemma PromisedBoundHolds(cfg: Config, passes: seq<Pass>, cursors: seq<Option<EventCursor>>, a: Activity,
                           picks: seq<nat>)
    requires Grace(cfg) > 0
    requires EffectivePicks(cfg, passes, cursors, a, picks) && |picks| >= 1
    requires a.recordedTime - Trunc(passes[picks[0]].now, cfg.resolution) <= LatestKept(cfg)
    ensures |picks| <= PromisedBound(cfg)
  {
    RedeliveryBound(cfg, passes, cursors, a, picks);
    if |picks| >= 2 {
      FewerSteps(Grace(cfg), |picks| - 2, PromisedBound(cfg) - 1);
    }
  }

  /** ... and fails for every later stamp for which the first pass can wait: then one delivery more can happen. */
  lemma PromisedBoundFails(cfg: Config, wait: nat, first: Time, a: Activity)
    requires Roomy(cfg) && Grace(cfg) > 0 && a.shownAt == a.recordedTime <= first + wait
    requires a.recordedTime - Trunc(first, cfg.resolution) > LatestKept(cfg)
    ensures CanReach(cfg, wait, first, a, 1 + PromisedBound(cfg))
  {
    var g, c := Grace(cfg), PromisedBound(cfg) - 1;
    TruncMonotone(a.recordedTime, a.recordedTime, cfg.resolution);
    WindowIsNat(cfg);
    if c >= 1 {
      assert (c - 1) * g == c * g - g;
      RedeliveryExactly(cfg, wait, first, a, 2 + c);
    } else {
      assert (2 + c - 2) * g == 0;
      RedeliveryExactly(cfg, wait, first, a, 2 + c);
    }
  }

  // ---- the shipped constants -----------------------------------------------------------

  lemma ShippedGrace(exact: bool)
    ensures var cfg := Kept(exact); Roomy(cfg) && Grace(cfg) == 5 * SECOND == Window(cfg)
  {
    if !exact {
      TruncUnique(5 * SECOND, 5, SECOND);
      TruncUnique(0 - 5 * SECOND, -5, SECOND);
    }
  }

  /** The shipped constants, with cursors kept in whole seconds or, for comparison, exactly. */
  function Kept(exact: bool): Config {
    if exact then SHIPPED.(resolution := 1) else SHIPPED
  }

  /**
   5s grace, 5s overlap, whole-second storage: never more than four effective passes; at most
   three if the entry was stamped no later than 5s after the second in which the first of them
   started, or on a whole second; at most two if it was stamped no later than that second began.
   Were cursors kept exactly, four would not happen.
   */
  lemma ShippedRedeliveryBound(exact: bool, passes: seq<Pass>, cursors: seq<Option<EventCursor>>, a: Activity,
                               picks: seq<nat>)
    requires EffectivePicks(Kept(exact), passes, cursors, a, picks) && |picks| >= 1 && a.recordedTime <= a.shownAt
    ensures var whole := Trunc(passes[picks[0]].now, Kept(exact).resolution);
      && |picks| <= (if exact then 3 else 4)
      && (a.recordedTime <= whole + 5 * SECOND || a.recordedTime % SECOND == 0 ==> |picks| <= 3)
      && (a.recordedTime <= whole ==> |picks| <= 2)
  {
    ShippedGrace(exact);
    RedeliveryBound(Kept(exact), passes, cursors, a, picks);
    if |picks| >= 2 {
      ShippedReaches(exact, passes[picks[0]].now, a.recordedTime, |picks|);
    }
  }

  /** What the exact condition comes to for the shipped constants. */
  lemma ShippedReaches(exact: bool, first: Time, stamp: Time, n: nat)
    requires n >= 2
    ensures var r := Kept(exact).resolution;
      Reaches(Kept(exact), first, stamp, n) <==>
        if n == 2 then Trunc(first, r) < stamp + 5 * SECOND
        else if n == 3 then Trunc(first, r) < stamp
        else n == 4 && Trunc(first, r) + 5 * SECOND < stamp && Trunc(stamp, r) < stamp
  {
    var r := Kept(exact).resolution;
    ShippedGrace(exact);
    TruncMonotone(stamp, stamp, r);
    if n >= 5 {
      assert (n - 3) * (5 * SECOND) >= 10 * SECOND;
    }
  }

  /**
   All thresholds are sharp: for every start and every stamp, this many deliveries can happen, and
   no more. The first pass can hand out only what is stamped while its client waits for the answer.
   */
  lemma ShippedExactly(wait: nat, first: Time, a: Activity)
    requires a.shownAt == a.recordedTime
    ensures CanReach(SHIPPED, wait, first, a, 3)
      <==> Trunc(first, SECOND) < a.recordedTime <= first + wait
    ensures CanReach(SHIPPED, wait, first, a, 4)
      <==> Trunc(first, SECOND) + 5 * SECOND < a.recordedTime <= first + wait && a.recordedTime % SECOND != 0
    ensures !CanReach(SHIPPED, wait, first, a, 5)
  {
    ShippedGrace(false);
    RedeliveryExactly(SHIPPED, wait, first, a, 3);
    RedeliveryExactly(SHIPPED, wait, first, a, 4);
    RedeliveryExactly(SHIPPED, wait, first, a, 5);
    ShippedReaches(false, first, a.recordedTime, 3);
    ShippedReaches(false, first, a.recordedTime, 4);
    ShippedReaches(false, first, a.recordedTime, 5);
  }

  /** Such a history: the entry is stamped while the first pass waits for its answer, well within the timeout. */
  lemma ShippedBoundIsReached(a: Activity)
    returns (passes: seq<Pass>, cursors: seq<Option<EventCursor>>, picks: seq<nat>)
    requires a.recordedTime == a.shownAt == 105_500_000_000
    ensures IsWitness(SHIPPED, QUERY_TIMEOUT, 100_000_000_000, a, 4, passes, cursors, picks)
  {
    ShippedGrace(false);
    TruncUnique(100_000_000_000, 100, SECOND);
    TruncUnique(105_500_000_000, 105, SECOND);
    ShippedReaches(false, 100_000_000_000, a.recordedTime, 4);
    passes, cursors, picks := QuickHistory(SHIPPED, QUERY_TIMEOUT, 100_000_000_000, a, 4);
  }
}

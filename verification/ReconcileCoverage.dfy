/**
 Any number of passes over one (user, drive) pair, interleaved step by step. A pass takes its
 clock reading, reads the cursor, queries, and writes the cursor back in four separate steps,
 so passes may overlap, an old pass may write last, and calls may fail or be cancelled.
 A Disconnect may delete the cursor at any point.
 */
module ReconcileCoverage {
  import opened Clock
  import opened Wrappers
  import opened ReconcilePass

  datatype Pass =
    | Started(now: Time)
    | Querying(now: Time, found: Option<EventCursor>)
    | MarkingDegraded(now: Time, found: Option<EventCursor>)
    | Advancing(now: Time)

  datatype Delivery = Delivery(activity: Activity, passNow: Time)

  /**
   `deliveries` and `queried` are history: what queries returned, and when the passes had started
   whose queries were answered or failed. A cancelled query leaves no trace.
   */
  datatype State = State(
    clock: Time,
    cursor: Option<EventCursor>,
    passes: map<nat, Pass>,
    deliveries: set<Delivery>,
    queried: set<Time>)

  datatype Step =
    | Elapse(to: Time)
    | Start(p: nat)
    | ReadCursor(p: nat, read: Read)
    | QueryLog(p: nat, query: Query)
    | WriteCursor(p: nat, ok: bool)
    | Disconnect

  predicate Enabled(cfg: Config, s: State, step: Step) {
    match step
    case Elapse(to) => s.clock <= to
    case Start(p) => p !in s.passes
    case ReadCursor(p, _) => p in s.passes && s.passes[p].Started?
    case QueryLog(p, _) => p in s.passes && s.passes[p].Querying?
    case WriteCursor(p, _) => p in s.passes && (s.passes[p].MarkingDegraded? || s.passes[p].Advancing?)
    case Disconnect => true
  }

  function Apply(cfg: Config, world: set<Activity>, s: State, step: Step): State
    requires Enabled(cfg, s, step)
  {
    match step
    case Elapse(to) => s.(clock := to)
    case Start(p) => s.(passes := s.passes[p := Started(s.clock)])
    case ReadCursor(p, read) =>
      var now := s.passes[p].now;
      if read.ReadFailed? || Debounced(cfg, now, s.cursor) then
        s.(passes := s.passes - {p})
      else
        s.(passes := s.passes[p := Querying(now, s.cursor)])
    case QueryLog(p, query) =>
      var Querying(now, found) := s.passes[p];
      var asked := s.(queried := s.queried + {now});
      (match query
       case Cancelled => s.(passes := s.passes - {p})
       case Failed => asked.(passes := s.passes[p := MarkingDegraded(now, found)])
       case Answered =>
         var news := set a | a in world && Returns(cfg, now, found, s.clock, a) :: Delivery(a, now);
         asked.(passes := s.passes[p := Advancing(now)], deliveries := s.deliveries + news))
    case WriteCursor(p, ok) =>
      var done := s.(passes := s.passes - {p});
      if !ok then done
      else if s.passes[p].Advancing? then
        done.(cursor := Some(Stored(cfg, EventCursor(s.passes[p].now, Full))))
      else
        var MarkingDegraded(now, found) := s.passes[p];
        done.(cursor := Some(Stored(cfg, EventCursor(Baseline(cfg, now, found), SseOnly))))
    case Disconnect => s.(cursor := None)
  }

  predicate Init(s: State) {
    s.cursor.None? && s.passes == map[] && s.deliveries == {} && s.queried == {}
  }

  predicate IsRun(cfg: Config, world: set<Activity>, states: seq<State>, steps: seq<Step>) {
    && |states| == |steps| + 1
    && Init(states[0])
    && forall i :: 0 <= i < |steps| ==>
         Enabled(cfg, states[i], steps[i]) && states[i + 1] == Apply(cfg, world, states[i], steps[i])
  }

  /** The log shows every entry at most `overlap` after the time it is stamped with. */
  predicate TimelyLog(cfg: Config, world: set<Activity>) {
    forall a :: a in world ==> a.shownAt <= a.recordedTime + cfg.overlap
  }

  // ---- what "covered" means ------------------------------------------------------------

  ghost predicate Delivered(s: State, a: Activity) {
    exists n :: Delivery(a, n) in s.deliveries
  }

  /** Some pass had its query answered or refused when the entry was already at least `lookback` old at its start. */
  ghost predicate TooOld(cfg: Config, s: State, a: Activity) {
    exists n :: n in s.queried && a.recordedTime <= n - cfg.lookback
  }

  ghost predicate CoveredUpTo(cfg: Config, world: set<Activity>, s: State, t: Time) {
    forall a :: a in world && a.recordedTime <= t ==> Delivered(s, a) || TooOld(cfg, s, a)
  }

  // ---- the invariant -------------------------------------------------------------------

  ghost predicate PassInv(cfg: Config, world: set<Activity>, s: State, p: Pass) {
    && p.now <= s.clock
    && match p
       case Started(_) => true
       case Querying(now, found) =>
         found.Some? ==> CoveredUpTo(cfg, world, s, found.value.lastChecked - cfg.overlap)
       case MarkingDegraded(now, found) =>
         CoveredUpTo(cfg, world, s, Baseline(cfg, now, found) - cfg.overlap)
       case Advancing(now) => CoveredUpTo(cfg, world, s, now - cfg.overlap)
  }

  ghost predicate DeliveryInv(cfg: Config, world: set<Activity>, s: State, d: Delivery) {
    && d.activity in world
    && d.passNow in s.queried
    && Trunc(d.passNow - cfg.lookback, cfg.resolution) < d.activity.recordedTime
  }

  ghost predicate Inv(cfg: Config, world: set<Activity>, s: State) {
    && (s.cursor.Some? ==> CoveredUpTo(cfg, world, s, s.cursor.value.lastChecked - cfg.overlap))
    && (forall p :: p in s.passes ==> PassInv(cfg, world, s, s.passes[p]))
  }

  /** Coverage is never taken back. */
  lemma CoverageGrows(cfg: Config, world: set<Activity>, s: State, s': State, t: Time)
    requires s.deliveries <= s'.deliveries && s.queried <= s'.queried
    requires CoveredUpTo(cfg, world, s, t)
    ensures CoveredUpTo(cfg, world, s', t)
  {
    forall a | a in world && a.recordedTime <= t ensures Delivered(s', a) || TooOld(cfg, s', a) {
      if Delivered(s, a) {
        var n :| Delivery(a, n) in s.deliveries;
        assert Delivery(a, n) in s'.deliveries;
      } else {
        assert TooOld(cfg, s, a);
      }
    }
  }

  lemma PassInvGrows(cfg: Config, world: set<Activity>, s: State, s': State, p: Pass)
    requires s.clock <= s'.clock && s.deliveries <= s'.deliveries && s.queried <= s'.queried
    requires PassInv(cfg, world, s, p)
    ensures PassInv(cfg, world, s', p)
  {
    match p
    case Started(_) =>
    case Querying(_, found) =>
      if found.Some? { CoverageGrows(cfg, world, s, s', found.value.lastChecked - cfg.overlap); }
    case MarkingDegraded(now, found) =>
      CoverageGrows(cfg, world, s, s', Baseline(cfg, now, found) - cfg.overlap);
    case Advancing(now) => CoverageGrows(cfg, world, s, s', now - cfg.overlap);
  }

  /** The heart of the protocol: an answered query covers everything up to `overlap` before its own start. */
  lemma AnswerCovers(cfg: Config, world: set<Activity>, s: State, p: nat)
    requires TimelyLog(cfg, world) && Inv(cfg, world, s)
    requires Enabled(cfg, s, QueryLog(p, Answered))
    ensures var s' := Apply(cfg, world, s, QueryLog(p, Answered));
            CoveredUpTo(cfg, world, s', s.passes[p].now - cfg.overlap)
  {
    var s' := Apply(cfg, world, s, QueryLog(p, Answered));
    var Querying(now, found) := s.passes[p];
    assert PassInv(cfg, world, s, s.passes[p]);
    forall a | a in world && a.recordedTime <= now - cfg.overlap
      ensures Delivered(s', a) || TooOld(cfg, s', a)
    {
      if Returns(cfg, now, found, s.clock, a) {
        assert Delivery(a, now) in s'.deliveries;
      } else if a.recordedTime <= now - cfg.lookback {
        assert now in s'.queried;
      } else {
        assert found.Some? && a.recordedTime <= found.value.lastChecked - cfg.overlap;
        CoverageGrows(cfg, world, s, s', found.value.lastChecked - cfg.overlap);
      }
    }
  }

  lemma FailureCovers(cfg: Config, world: set<Activity>, s: State, p: nat)
    requires Inv(cfg, world, s)
    requires Enabled(cfg, s, QueryLog(p, Failed))
    ensures var s' := Apply(cfg, world, s, QueryLog(p, Failed));
            CoveredUpTo(cfg, world, s', Baseline(cfg, s.passes[p].now, s.passes[p].found) - cfg.overlap)
  {
    var s' := Apply(cfg, world, s, QueryLog(p, Failed));
    assert PassInv(cfg, world, s, s.passes[p]);
    assert s.passes[p].now in s'.queried;
    if s.passes[p].found.Some? {
      CoverageGrows(cfg, world, s, s', s.passes[p].found.value.lastChecked - cfg.overlap);
    }
  }

  lemma HistoryGrows(cfg: Config, world: set<Activity>, s: State, step: Step)
    requires Enabled(cfg, s, step)
    ensures var s' := Apply(cfg, world, s, step);
            s.clock <= s'.clock && s.deliveries <= s'.deliveries && s.queried <= s'.queried
  {
  }

  lemma StepKeepsPass(cfg: Config, world: set<Activity>, s: State, step: Step, p: nat)
    requires TimelyLog(cfg, world) && Inv(cfg, world, s) && Enabled(cfg, s, step)
    requires p in Apply(cfg, world, s, step).passes
    ensures var s' := Apply(cfg, world, s, step); PassInv(cfg, world, s', s'.passes[p])
  {
    var s' := Apply(cfg, world, s, step);
    HistoryGrows(cfg, world, s, step);
    if p in s.passes && s.passes[p] == s'.passes[p] {
      PassInvGrows(cfg, world, s, s', s.passes[p]);
    } else if step.QueryLog? {
      assert PassInv(cfg, world, s, s.passes[p]);
      if step.query.Answered? {
        AnswerCovers(cfg, world, s, p);
      } else {
        FailureCovers(cfg, world, s, p);
      }
    } else if step.ReadCursor? {
      assert PassInv(cfg, world, s, s.passes[p]);
      assert s'.passes[p] == Querying(s.passes[p].now, s.cursor);
    }
  }

  lemma StepKeepsCursor(cfg: Config, world: set<Activity>, s: State, step: Step)
    requires Inv(cfg, world, s) && Enabled(cfg, s, step)
    ensures var s' := Apply(cfg, world, s, step);
            s'.cursor.Some? ==> CoveredUpTo(cfg, world, s', s'.cursor.value.lastChecked - cfg.overlap)
  {
    var s' := Apply(cfg, world, s, step);
    HistoryGrows(cfg, world, s, step);
    if s'.cursor.Some? {
      if s'.cursor == s.cursor {
        CoverageGrows(cfg, world, s, s', s.cursor.value.lastChecked - cfg.overlap);
      } else {
        assert PassInv(cfg, world, s, s.passes[step.p]);
      }
    }
  }

  lemma StepKeepsDeliveries(cfg: Config, world: set<Activity>, s: State, step: Step, d: Delivery)
    requires d in s.deliveries ==> DeliveryInv(cfg, world, s, d)
    requires Enabled(cfg, s, step) && d in Apply(cfg, world, s, step).deliveries
    ensures DeliveryInv(cfg, world, Apply(cfg, world, s, step), d)
  {
    if d !in s.deliveries {
      var Querying(now, found) := s.passes[step.p];
      TruncMonotone(now - cfg.lookback, Since(cfg, now, found), cfg.resolution);
    }
  }

  lemma StepKeepsInv(cfg: Config, world: set<Activity>, s: State, step: Step)
    requires TimelyLog(cfg, world) && Inv(cfg, world, s) && Enabled(cfg, s, step)
    ensures Inv(cfg, world, Apply(cfg, world, s, step))
  {
    var s' := Apply(cfg, world, s, step);
    forall p | p in s'.passes ensures PassInv(cfg, world, s', s'.passes[p]) {
      StepKeepsPass(cfg, world, s, step, p);
    }
    StepKeepsCursor(cfg, world, s, step);
  }

  lemma {:induction false} RunKeepsInv(cfg: Config, world: set<Activity>, states: seq<State>, steps: seq<Step>, i: nat)
    requires TimelyLog(cfg, world) && IsRun(cfg, world, states, steps) && i < |states|
    ensures Inv(cfg, world, states[i])
  {
    if i > 0 {
      RunKeepsInv(cfg, world, states, steps, i - 1);
      StepKeepsInv(cfg, world, states[i - 1], steps[i - 1]);
    }
  }

  // ---- main results --------------------------------------------------------------------

  /**
   Nothing inside the lookback is missed. At every point of every run, an entry stamped at
   least `overlap` before the stored cursor has been returned by an answered query, unless
   that entry was already `lookback` old when some pass began whose query was answered or failed.
   */
  lemma NothingMissedInsideLookback(cfg: Config, world: set<Activity>, states: seq<State>, steps: seq<Step>, i: nat,
                                    a: Activity)
    requires TimelyLog(cfg, world) && IsRun(cfg, world, states, steps) && i < |states|
    requires states[i].cursor.Some? && a in world
    requires a.recordedTime <= states[i].cursor.value.lastChecked - cfg.overlap
    ensures Delivered(states[i], a) || TooOld(cfg, states[i], a)
  {
    RunKeepsInv(cfg, world, states, steps, i);
  }

  /**
   What a pass achieves does not depend on its cursor write, nor on what other passes do to
   the cursor afterwards: once its query has been answered, everything up to `overlap` before
   its start stays covered for the rest of the run.
   */
  lemma {:induction false} AnsweredPassCoversForGood(cfg: Config, world: set<Activity>, states: seq<State>,
                                                     steps: seq<Step>, i: nat, j: nat, p: nat)
    requires TimelyLog(cfg, world) && IsRun(cfg, world, states, steps)
    requires i < j < |states| && steps[i] == QueryLog(p, Answered)
    ensures CoveredUpTo(cfg, world, states[j], states[i].passes[p].now - cfg.overlap)
  {
    if j == i + 1 {
      RunKeepsInv(cfg, world, states, steps, i);
      AnswerCovers(cfg, world, states[i], p);
    } else {
      AnsweredPassCoversForGood(cfg, world, states, steps, i, j - 1, p);
      CoverageGrows(cfg, world, states[j - 1], states[j], states[i].passes[p].now - cfg.overlap);
    }
  }

  /** The clamp bounds every redelivery: no pass hands out an entry older than lookback, up to rounding. */
  lemma {:induction false} DeliveriesAreRecent(cfg: Config, world: set<Activity>, states: seq<State>,
                                               steps: seq<Step>, i: nat, d: Delivery)
    requires IsRun(cfg, world, states, steps) && i < |states|
    requires d in states[i].deliveries
    ensures DeliveryInv(cfg, world, states[i], d)
    ensures d.passNow - d.activity.recordedTime < cfg.lookback + cfg.resolution
  {
    if i > 0 {
      if d in states[i - 1].deliveries {
        DeliveriesAreRecent(cfg, world, states, steps, i - 1, d);
      }
      StepKeepsDeliveries(cfg, world, states[i - 1], steps[i - 1], d);
    }
  }

  /**
   The allowance of `overlap` is exact. If the log may lag one unit more, a single undisturbed
   pass already leaves an entry behind its cursor that no query returned.
   */
  lemma SlowerLogMisses(cfg: Config, a: Activity) returns (states: seq<State>, steps: seq<Step>)
    requires cfg.overlap < cfg.lookback
    requires a.recordedTime + cfg.overlap == 0 && a.shownAt == a.recordedTime + cfg.overlap + 1
    ensures IsRun(cfg, {a}, states, steps)
    ensures var s := states[|states| - 1];
            && s.cursor.Some? && a.recordedTime <= s.cursor.value.lastChecked - cfg.overlap
            && !Delivered(s, a) && !TooOld(cfg, s, a)
  {
    var world := {a};
    var s0 := State(0, None, map[], {}, {});
    steps := [Start(0), ReadCursor(0, ReadOk), QueryLog(0, Answered), WriteCursor(0, true)];
    var s1 := Apply(cfg, world, s0, steps[0]);
    var s2 := Apply(cfg, world, s1, steps[1]);
    var s3 := Apply(cfg, world, s2, steps[2]);
    var s4 := Apply(cfg, world, s3, steps[3]);
    states := [s0, s1, s2, s3, s4];
    assert s4.queried == {0} && s4.deliveries == {};
  }

  /** The four steps of pass `p` with nothing in between. */
  function Alone(cfg: Config, world: set<Activity>, s: State, p: nat, read: Read, query: Query, ok: bool): State
    requires p !in s.passes
  {
    var s1 := Apply(cfg, world, s, Start(p));
    var s2 := Apply(cfg, world, s1, ReadCursor(p, read));
    if p !in s2.passes then s2 else
    var s3 := Apply(cfg, world, s2, QueryLog(p, query));
    if p !in s3.passes then s3 else
    Apply(cfg, world, s3, WriteCursor(p, ok))
  }

  /** Undisturbed, the machine does to the cursor exactly what CursorAfter says. */
  lemma AlonePassIsCursorAfter(cfg: Config, world: set<Activity>, s: State, p: nat, read: Read, query: Query, ok: bool)
    requires p !in s.passes
    ensures var s' := Alone(cfg, world, s, p, read, query, ok);
            && s'.passes == s.passes
            && s'.cursor == CursorAfter(cfg, s.clock, s.cursor, read, query, ok)
            && s'.deliveries == s.deliveries +
                 if read.ReadFailed? || Debounced(cfg, s.clock, s.cursor) || !query.Answered? then {}
                 else set a | a in world && Returns(cfg, s.clock, s.cursor, s.clock, a) :: Delivery(a, s.clock)
  {
    var s' := Alone(cfg, world, s, p, read, query, ok);
    assert s'.passes == s.passes;
  }
}

/**
 The activitylog backstop, one (user, drive) pair at a time: which window a pass queries,
 and what it leaves in the cursor table. Everything here is a definition used by the
 interleaved machine (ReconcileCoverage), by the run bound (ReconcileRedelivery) and by the
 imperative Reconciler.

 Times and durations are integers in one unit (nanoseconds for the shipped program).
 `resolution` is the unit in which a time survives being written as text: the cursor table
 and the query bound both keep whole seconds only.
 */
module ReconcilePass {
  import opened Clock
  import opened Wrappers

  datatype Config = Config(gracePeriod: nat, overlap: nat, lookback: nat, resolution: pos)

  /** The constants wired in by RunServer. */
  const SHIPPED := Config(5 * SECOND, 5 * SECOND, 300 * SECOND, SECOND)

  /** How long the client waits for an answer. */
  const QUERY_TIMEOUT := 15 * SECOND

  datatype Status = Full | SseOnly

  datatype EventCursor = EventCursor(lastChecked: Time, lastStatus: Status)

  /** An activitylog entry. `shownAt` is when a query starts to see it. */
  datatype Activity = Activity(id: string, message: string, resourceId: string, recordedTime: Time, shownAt: Time)

  function Trunc(t: Time, r: pos): Time {
    t - t % r
  }

  lemma ScaleMonotone(r: pos, x: int, y: int)
    requires x <= y
    ensures r * x <= r * y
  {
    assert 0 <= r * (y - x);
  }

  lemma TruncMonotone(s: Time, t: Time, r: pos)
    requires s <= t
    ensures Trunc(s, r) <= Trunc(t, r) <= t < Trunc(t, r) + r
  {
    var a, b := s / r, t / r;
    assert Trunc(s, r) == r * a && Trunc(t, r) == r * b;
    if b + 1 <= a {
      ScaleMonotone(r, b + 1, a);
    } else {
      ScaleMonotone(r, a, b);
    }
  }

  /** How a cursor reads back after having been stored. */
  function Stored(cfg: Config, c: EventCursor): EventCursor {
    c.(lastChecked := Trunc(c.lastChecked, cfg.resolution))
  }

  /** The time a pass counts from: the stored cursor, or one synthesized for a first-ever pass. */
  function Baseline(cfg: Config, now: Time, found: Option<EventCursor>): Time {
    match found
    case Some(c) => c.lastChecked
    case None => now - cfg.lookback
  }

  /** A cursor younger than the grace period ends the pass; a first-ever pass is exempt. */
  predicate Debounced(cfg: Config, now: Time, found: Option<EventCursor>) {
    found.Some? && now - found.value.lastChecked < cfg.gracePeriod
  }

  /** The query floor: overlap before the baseline, but never further back than lookback. */
  function Since(cfg: Config, now: Time, found: Option<EventCursor>): Time {
    var since := Baseline(cfg, now, found) - cfg.overlap;
    var floor := now - cfg.lookback;
    if since < floor then floor else since
  }

  /** Whether a query made at `at` by a pass started at `now` gets this entry back. */
  predicate Returns(cfg: Config, now: Time, found: Option<EventCursor>, at: Time, a: Activity) {
    a.shownAt <= at && a.recordedTime > Trunc(Since(cfg, now, found), cfg.resolution)
  }

  /** How the external calls of one pass end. */
  datatype Read = ReadFailed | ReadOk
  datatype Query = Answered | Failed | Cancelled

  /** What the cursor table holds for the pair after an undisturbed pass. */
  function CursorAfter(cfg: Config, now: Time, found: Option<EventCursor>, read: Read, query: Query, writeOk: bool)
    : Option<EventCursor>
  {
    if read.ReadFailed? || Debounced(cfg, now, found) || query.Cancelled? || !writeOk then
      found
    else if query.Failed? then
      Some(Stored(cfg, EventCursor(Baseline(cfg, now, found), SseOnly)))
    else
      Some(Stored(cfg, EventCursor(now, Full)))
  }

  /**
   The cursor says which window is still open: it moves to the start of a pass whose query was
   answered, stays - or is opened a lookback back - for one that failed, which it notes, and is
   left alone by every pass that did not get so far.
   */
  lemma CursorNotesTheQuery(cfg: Config, now: Time, found: Option<EventCursor>, read: Read, query: Query, writeOk: bool)
    ensures var after := CursorAfter(cfg, now, found, read, query, writeOk);
      if read.ReadOk? && writeOk && !query.Cancelled?
         && (found.Some? ==> now - found.value.lastChecked >= cfg.gracePeriod) then
        && after.Some?
        && (after.value.lastStatus.SseOnly? <==> query.Failed?)
        && var to :=
             if query.Answered? then now else if found.Some? then found.value.lastChecked else now - cfg.lookback;
           after.value.lastChecked <= to < after.value.lastChecked + cfg.resolution
           && after.value.lastChecked % cfg.resolution == 0
      else after == found
  {
    var to := if query.Answered? then now else Baseline(cfg, now, found);
    TruncMonotone(to, to, cfg.resolution);
    TruncIsWhole(to, cfg.resolution);
  }

  lemma TruncIsWhole(t: Time, r: pos)
    ensures Trunc(t, r) % r == 0
  {
    assert Trunc(t, r) == r * (t / r);
    MultipleIsWhole(t / r, r);
  }

  lemma MultipleIsWhole(q: int, r: pos)
    ensures r * q % r == 0
  {
    var d, m := r * q / r, r * q % r;
    assert r * (q - d) == m;
    if q - d >= 1 { ScaleMonotone(r, 1, q - d); }
    if q - d <= -1 { ScaleMonotone(r, q - d, -1); }
  }
}

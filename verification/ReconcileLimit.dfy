/**
 Redelivery when cursors cannot be stored. Nothing then keeps the next pass from handing the
 same entries out again - except the rate limit on passes and the clamp on what they query.
 */
module ReconcileLimit {
  import opened Clock
  import opened Wrappers
  import opened ReconcilePass
  import opened ReconcileRedelivery
  import opened Reconciler

  /** `picks` are the positions of some passes that handed `a` out, whether or not they stored their cursor. */
  ghost predicate DispatchPicks(cfg: Config, passes: seq<Pass>, cursors: seq<Option<EventCursor>>, a: Activity,
                                picks: seq<nat>) {
    && IsHistory(cfg, passes, cursors)
    && (forall k :: 0 <= k < |picks| ==>
          picks[k] < |passes| && Dispatches(cfg, cursors[picks[k]], passes[picks[k]], a))
    && (forall j, k :: 0 <= j < k < |picks| ==> picks[j] < picks[k])
  }

  /**
   What the rate limit answered to the requests of all users, and the start table before each;
   pass `i` goes back to the user's request `origin[i]`, admitted no more than `wait` before it began.
   */
  ghost predicate Rationed(cfg: Config, requests: seq<Request>, tables: seq<map<string, Time>>, ok: seq<bool>,
                           user: string, wait: nat, passes: seq<Pass>, origin: seq<nat>) {
    && IsAdmission(cfg, requests, tables, ok) && |origin| == |passes|
    && (forall i :: 0 <= i < |origin| ==> FromRequest(requests, ok, user, wait, passes[i], origin[i]))
    && (forall i, j :: 0 <= i < j < |origin| ==> origin[i] < origin[j])
  }

  predicate FromRequest(requests: seq<Request>, ok: seq<bool>, user: string, wait: nat, p: Pass, at: nat) {
    Started(requests, ok, user, at) && requests[at].at <= p.now <= requests[at].at + wait
  }

  /** The clamp: a pass that hands an entry out begins less than the lookback, rounded up, after its stamp. */
  lemma DispatchIsRecent(cfg: Config, found: Option<EventCursor>, p: Pass, a: Activity)
    requires Dispatches(cfg, found, p, a)
    ensures p.now < a.recordedTime + cfg.lookback + cfg.resolution
  {
    TruncMonotone(p.now - cfg.lookback, Since(cfg, p.now, found), cfg.resolution);
  }

  /** The requests behind the picks are a grace period apart. */
  lemma {:induction false} RequestsSpread(cfg: Config, requests: seq<Request>, tables: seq<map<string, Time>>,
                                          ok: seq<bool>, user: string, wait: nat, passes: seq<Pass>, origin: seq<nat>,
                                          picks: seq<nat>, from: nat, to: nat)
    requires Rationed(cfg, requests, tables, ok, user, wait, passes, origin) && from <= to < |picks|
    requires forall k :: 0 <= k < |picks| ==> picks[k] < |passes|
    requires forall j, k :: 0 <= j < k < |picks| ==> picks[j] < picks[k]
    ensures origin[picks[from]] < |requests| && origin[picks[to]] < |requests|
    ensures requests[origin[picks[from]]].at + (to - from) * cfg.gracePeriod <= requests[origin[picks[to]]].at
  {
    assert FromRequest(requests, ok, user, wait, passes[picks[to]], origin[picks[to]]);
    if from < to {
      RequestsSpread(cfg, requests, tables, ok, user, wait, passes, origin, picks, from, to - 1);
      var i, j := origin[picks[to - 1]], origin[picks[to]];
      assert FromRequest(requests, ok, user, wait, passes[picks[to - 1]], i);
      AdmittedAreApart(cfg, requests, tables, ok, user, i, j);
      assert (to - from) * cfg.gracePeriod == (to - 1 - from) * cfg.gracePeriod + cfg.gracePeriod;
    }
  }

  /**
   Stored or not: all passes over one drive that hand one entry out, but for the first two, fit
   with a grace period each into the lookback, the rounding and the longest wait for a slot.
   */
  lemma EveryDispatchIsBounded(cfg: Config, requests: seq<Request>, tables: seq<map<string, Time>>, ok: seq<bool>,
                               user: string, wait: nat, passes: seq<Pass>, origin: seq<nat>,
                               cursors: seq<Option<EventCursor>>, a: Activity, picks: seq<nat>)
    requires Rationed(cfg, requests, tables, ok, user, wait, passes, origin)
    requires DispatchPicks(cfg, passes, cursors, a, picks)
    requires a.recordedTime <= a.shownAt && |picks| >= 2
    ensures (|picks| - 2) * cfg.gracePeriod < cfg.lookback + cfg.resolution + wait
  {
    var m := |picks|;
    RequestsSpread(cfg, requests, tables, ok, user, wait, passes, origin, picks, 1, m - 1);
    LaterStarts(cfg, passes, cursors, picks[0], picks[1]);
    DispatchIsRecent(cfg, cursors[picks[m - 1]], passes[picks[m - 1]], a);
    assert FromRequest(requests, ok, user, wait, passes[picks[1]], origin[picks[1]]);
    assert FromRequest(requests, ok, user, wait, passes[picks[m - 1]], origin[picks[m - 1]]);
  }
}

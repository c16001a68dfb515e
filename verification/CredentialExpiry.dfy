/**
 When a stored credential lapses: sweeps no more than a day apart, replacing whatever expires
 within the renewal window.
 */
module CredentialExpiry {
  import opened Clock

  const DAY: Time := 24 * 3600 * SECOND
  const SWEEP_INTERVAL: Time := DAY
  const RENEWAL_WINDOW: Time := 14 * DAY
  const DEFAULT_EXPIRY: Time := 90 * DAY

  predicate Due(expiresAt: Time, now: Time) {
    !(expiresAt - now > RENEWAL_WINDOW)
  }

  predicate Unexpired(expiresAt: Time, now: Time) {
    !(expiresAt < now)
  }

  /**
   What happens to one user's row: sweeps look at it, and now and then a renewal or a connect
   stores a credential that was minted less than a sweep interval before the last sweep, or later.
   The server's answer may round the expiry down to a whole second.
   */
  datatype Event = Sweep(now: Time) | Stored(mintedAt: Time, expiresAt: Time)

  /** `streak` counts the sweeps in a row that found the row due and have not, so far, led to a new credential. */
  datatype Row = Row(expiresAt: Time, lastSweep: Time, streak: nat)

  predicate Possible(r: Row, e: Event) {
    match e
    case Sweep(now) => r.lastSweep <= now <= r.lastSweep + SWEEP_INTERVAL
    case Stored(mintedAt, expiresAt) =>
      mintedAt >= r.lastSweep - SWEEP_INTERVAL && expiresAt > mintedAt + DEFAULT_EXPIRY - SECOND
  }

  function After(r: Row, e: Event): Row {
    match e
    case Sweep(now) => Row(r.expiresAt, now, if Due(r.expiresAt, now) then r.streak + 1 else 0)
    case Stored(_, expiresAt) => Row(expiresAt, r.lastSweep, 0)
  }

  function AfterAll(r: Row, events: seq<Event>): Row {
    if events == [] then r else After(AfterAll(r, events[..|events| - 1]), events[|events| - 1])
  }

  ghost predicate IsHistory(r: Row, events: seq<Event>) {
    forall i :: 0 <= i < |events| ==> Possible(AfterAll(r, events[..i]), events[i])
  }

  /** A row just connected, the last sweep less than an interval ago. */
  predicate JustConnected(r: Row, connectedAt: Time) {
    && r.streak == 0 && r.lastSweep <= connectedAt <= r.lastSweep + SWEEP_INTERVAL
    && r.expiresAt > connectedAt + DEFAULT_EXPIRY - SECOND
  }

  /** The margin that is left: a day less for every sweep in the streak. */
  predicate Margin(r: Row) {
    r.expiresAt > r.lastSweep + RENEWAL_WINDOW - r.streak * SWEEP_INTERVAL
  }

  lemma {:induction false} HistoryKeepsMargin(r: Row, events: seq<Event>, connectedAt: Time)
    requires JustConnected(r, connectedAt) && IsHistory(r, events)
    ensures Margin(AfterAll(r, events))
  {
    if events != [] {
      var n := |events| - 1;
      EarlierHistory(r, events, n);
      HistoryKeepsMargin(r, events[..n], connectedAt);
      assert Possible(AfterAll(r, events[..n]), events[n]);
    }
  }

  lemma EarlierHistory(r: Row, events: seq<Event>, n: nat)
    requires IsHistory(r, events) && n <= |events|
    ensures IsHistory(r, events[..n])
  {
    forall i | 0 <= i < n ensures Possible(AfterAll(r, events[..n][..i]), events[..n][i]) {
      assert events[..n][..i] == events[..i];
    }
  }

  /** Sweep number `i` found the row due. */
  predicate DueAt(r: Row, events: seq<Event>, i: nat)
    requires i < |events|
  {
    events[i].Sweep? && Due(AfterAll(r, events[..i]).expiresAt, events[i].now)
  }

  /** The last n events are sweeps that found the row due. */
  predicate InVain(r: Row, events: seq<Event>, n: nat) {
    n <= |events| && forall i: nat :: |events| - n <= i < |events| ==> DueAt(r, events, i)
  }

  /**
   A streak of n: the last n events are sweeps that found the row due, and nothing was stored since the first
   of them.
   */
  lemma {:induction false} StreakIsATail(r: Row, events: seq<Event>)
    requires r.streak == 0
    ensures InVain(r, events, AfterAll(r, events).streak)
  {
    if events != [] {
      var last := |events| - 1;
      var before := events[..last];
      StreakIsATail(r, before);
      var n := AfterAll(r, events).streak;
      forall i: nat | |events| - n <= i < |events| ensures DueAt(r, events, i) {
        if i < last {
          assert DueAt(r, before, i);
          assert before[..i] == events[..i];
        }
      }
    }
  }

  /**
   Credentials do not lapse: if the stored one has expired at some moment before the next sweep
   is due, then the last fourteen events were sweeps, each of which found it due and failed to
   replace it.
   */
  lemma LapseTakesFourteenFailures(r: Row, events: seq<Event>, connectedAt: Time, moment: Time)
    requires JustConnected(r, connectedAt) && IsHistory(r, events)
    requires moment <= AfterAll(r, events).lastSweep + SWEEP_INTERVAL
    requires !Unexpired(AfterAll(r, events).expiresAt, moment)
    ensures InVain(r, events, 14)
  {
    HistoryKeepsMargin(r, events, connectedAt);
    StreakIsATail(r, events);
    StreakIsLong(AfterAll(r, events), moment);
  }

  lemma StreakIsLong(row: Row, moment: Time)
    requires Margin(row) && moment <= row.lastSweep + SWEEP_INTERVAL && !Unexpired(row.expiresAt, moment)
    ensures row.streak >= 14
  {
    assert row.streak < 14 ==> row.streak * SWEEP_INTERVAL <= 13 * SWEEP_INTERVAL;
  }

  /** Daily sweeps, the first a day after `start`. */
  function Daily(start: Time, n: nat): (events: seq<Event>)
    ensures |events| == n
  {
    if n == 0 then [] else Daily(start, n - 1) + [Sweep(start + n * DAY)]
  }

  lemma {:induction false} DailyUpTo(start: Time, n: nat, k: nat)
    requires k < n
    ensures Daily(start, n)[..k] == Daily(start, k) && Daily(start, n)[k] == Sweep(start + (k + 1) * DAY)
  {
    assert Daily(start, n)[..n - 1] == Daily(start, n - 1);
    if k < n - 1 {
      DailyUpTo(start, n - 1, k);
    }
  }

  lemma {:induction false} DailySweeps(r: Row, n: nat)
    requires r.streak == 0 && r.expiresAt == r.lastSweep + DEFAULT_EXPIRY - 1
    ensures AfterAll(r, Daily(r.lastSweep, n)) == Row(r.expiresAt, r.lastSweep + n * DAY, if n <= 75 then 0 else n - 75)
  {
    if n > 0 {
      DailySweeps(r, n - 1);
      assert Daily(r.lastSweep, n)[..n - 1] == Daily(r.lastSweep, n - 1);
    }
  }

  lemma {:induction false} DailyIsAHistory(r: Row, n: nat)
    requires r.streak == 0 && r.expiresAt == r.lastSweep + DEFAULT_EXPIRY - 1
    ensures IsHistory(r, Daily(r.lastSweep, n))
  {
    if n > 0 {
      var events, before := Daily(r.lastSweep, n), Daily(r.lastSweep, n - 1);
      DailyIsAHistory(r, n - 1);
      DailySweeps(r, n - 1);
      forall i | 0 <= i < n ensures Possible(AfterAll(r, events[..i]), events[i]) {
        assert events[..n - 1] == before && events[..i] == before[..i];
        if i < n - 1 {
          assert Possible(AfterAll(r, before[..i]), before[i]);
        }
      }
    }
  }

  /**
   Fourteen are enough: after 89 daily sweeps, the last fourteen in vain, the credential is gone before the
   ninetieth.
   */
  lemma FourteenFailuresSuffice(r: Row)
    requires JustConnected(r, r.lastSweep) && r.expiresAt == r.lastSweep + DEFAULT_EXPIRY - 1
    ensures var events := Daily(r.lastSweep, 89);
      && IsHistory(r, events) && AfterAll(r, events).streak == 14 && InVain(r, events, 14) && !InVain(r, events, 15)
      && !Unexpired(AfterAll(r, events).expiresAt, AfterAll(r, events).lastSweep + SWEEP_INTERVAL)
  {
    DailySweeps(r, 89);
    DailyIsAHistory(r, 89);
    StreakIsATail(r, Daily(r.lastSweep, 89));
    DailyUpTo(r.lastSweep, 89, 74);
    DailySweeps(r, 74);
    assert !DueAt(r, Daily(r.lastSweep, 89), 74);
  }
}

/**
 The cron scheduler. A tick compares, for each indexed schedule, the next occurrence after the
 workflow's last run with the clock. The last run is not the last tick, so this is only the
 same as "an occurrence fell since the previous tick" under conditions stated below.

 A schedule is the set of instants at which it is due; parsing cron expressions is outside.
 */
module Scheduler {
  import opened Clock
  import opened Wrappers

  type Occurrences = iset<Time>

  /** No occurrence lies in the interval (after, upTo]. */
  ghost predicate Quiet(due: Occurrences, after: Time, upTo: Time) {
    forall t :: after < t <= upTo ==> t !in due
  }

  /** What the cron library's Next computes: the least occurrence strictly after `t`. */
  ghost predicate IsNext(due: Occurrences, t: Time, next: Time) {
    t < next && next in due && Quiet(due, t, next - 1)
  }

  lemma NextDecides(due: Occurrences, last: Time, next: Time, now: Time)
    requires IsNext(due, last, next)
    ensures next > now <==> Quiet(due, last, now)
  {
  }

  /** One row of a tick: its expression did not parse, or the next occurrence after a given time. */
  datatype Row = Row(workflowID: string, due: Occurrences, parsed: bool)

  /** A tick that could not list the triggers has no rows. */
  datatype Poll = Poll(now: Time, rows: Option<seq<Row>>)

  // ---- one tick ------------------------------------------------------------------------------

  function Last(lastRun: map<string, Time>, id: string, now: Time): Time {
    if id in lastRun then lastRun[id] else now
  }

  ghost predicate FiresRow(lastRun: map<string, Time>, now: Time, row: Row) {
    row.parsed && !Quiet(row.due, Last(lastRun, row.workflowID, now), now)
  }

  ghost function RunRow(lastRun: map<string, Time>, now: Time, row: Row): map<string, Time> {
    if !row.parsed then lastRun
    else lastRun[row.workflowID := if FiresRow(lastRun, now, row) then now else Last(lastRun, row.workflowID, now)]
  }

  ghost function RunRows(lastRun: map<string, Time>, now: Time, rows: seq<Row>): map<string, Time> {
    if rows == [] then lastRun
    else RunRow(RunRows(lastRun, now, rows[..|rows| - 1]), now, rows[|rows| - 1])
  }

  /** The workflows a tick starts, in row order. */
  ghost function FiredRows(lastRun: map<string, Time>, now: Time, rows: seq<Row>): seq<string> {
    if rows == [] then []
    else
      var n := |rows| - 1;
      var fires := FiresRow(RunRows(lastRun, now, rows[..n]), now, rows[n]);
      FiredRows(lastRun, now, rows[..n]) + if fires then [rows[n].workflowID] else []
  }

  ghost function AfterTick(lastRun: map<string, Time>, poll: Poll): map<string, Time> {
    if poll.rows.None? then lastRun else RunRows(lastRun, poll.now, poll.rows.value)
  }

  ghost function Fired(lastRun: map<string, Time>, poll: Poll): seq<string> {
    if poll.rows.None? then [] else FiredRows(lastRun, poll.now, poll.rows.value)
  }

  class Scheduler {
    var lastRun: map<string, Time>
    var started: seq<string>

    constructor ()
      ensures lastRun == map[] && started == []
    {
      lastRun, started := map[], [];
    }

    method LastRunFor(id: string, now: Time) returns (last: Time)
      modifies this`lastRun
      ensures last == Last(old(lastRun), id, now)
      ensures lastRun == old(lastRun)[id := last]
    {
      if id !in lastRun {
        lastRun := lastRun[id := now];
        return now;
      }
      assert lastRun[id := lastRun[id]] == lastRun;
      return lastRun[id];
    }

    /** `next(k, t)` is the cron library's answer for row `k`. */
    method Tick(now: Time, rows: Option<seq<Row>>, next: (nat, Time) -> Time)
      requires rows.Some? ==> forall k, t ::
        0 <= k < |rows.value| && rows.value[k].parsed ==> IsNext(rows.value[k].due, t, next(k, t))
      modifies this
      ensures lastRun == AfterTick(old(lastRun), Poll(now, rows))
      ensures started == old(started) + Fired(old(lastRun), Poll(now, rows))
    {
      if rows.None? {
        return;
      }
      for k := 0 to |rows.value|
        invariant lastRun == RunRows(old(lastRun), now, rows.value[..k])
        invariant started == old(started) + FiredRows(old(lastRun), now, rows.value[..k])
      {
        var row := rows.value[k];
        assert rows.value[..k + 1][..k] == rows.value[..k];
        if row.parsed {
          var last := LastRunFor(row.workflowID, now);
          NextDecides(row.due, last, next(k, last), now);
          if !(next(k, last) > now) {
            lastRun := lastRun[row.workflowID := now];
            started := started + [row.workflowID];
          }
        }
      }
      assert rows.value[..|rows.value|] == rows.value;
    }
  }

  // ---- histories of ticks ----------------------------------------------------------------------

  /** Workflow ids are the index's primary key. */
  predicate OneRowEach(rows: seq<Row>) {
    forall j, k :: 0 <= j < k < |rows| ==> rows[j].workflowID != rows[k].workflowID
  }

  /** `maps[i]` is `lastRun` before tick `i`; the clock does not go back. */
  ghost predicate IsHistory(polls: seq<Poll>, maps: seq<map<string, Time>>) {
    && |maps| == |polls| + 1
    && maps[0] == map[]
    && (forall i :: 0 <= i < |polls| ==>
          (polls[i].rows.Some? ==> OneRowEach(polls[i].rows.value)) && maps[i + 1] == AfterTick(maps[i], polls[i]))
    && (forall i, j :: 0 <= i < j < |polls| ==> polls[i].now <= polls[j].now)
  }

  /** A successful tick that lists the workflow with this schedule. */
  predicate Scheduled(poll: Poll, row: Row) {
    poll.rows.Some? && row in poll.rows.value && row.parsed
  }

  ghost predicate FiresAt(lastRun: map<string, Time>, poll: Poll, id: string) {
    id in Fired(lastRun, poll)
  }

  /** A workflow without a row is neither started nor noted. */
  lemma {:induction false} UnlistedIsUntouched(lastRun: map<string, Time>, now: Time, rows: seq<Row>, id: string)
    requires forall r :: r in rows ==> r.workflowID != id
    ensures id !in FiredRows(lastRun, now, rows)
    ensures id in RunRows(lastRun, now, rows) <==> id in lastRun
    ensures id in lastRun ==> RunRows(lastRun, now, rows)[id] == lastRun[id]
  {
    if rows != [] {
      UnlistedIsUntouched(lastRun, now, rows[..|rows| - 1], id);
      assert rows[|rows| - 1] in rows;
    }
  }

  /** Rows do not disturb each other. */
  lemma {:induction false} RowsAreIndependent(lastRun: map<string, Time>, now: Time, rows: seq<Row>, row: Row)
    requires OneRowEach(rows) && row in rows
    ensures row.workflowID in FiredRows(lastRun, now, rows) <==> FiresRow(lastRun, now, row)
    ensures row.parsed ==>
      row.workflowID in RunRows(lastRun, now, rows)
      && RunRows(lastRun, now, rows)[row.workflowID]
           == if FiresRow(lastRun, now, row) then now else Last(lastRun, row.workflowID, now)
  {
    var n := |rows| - 1;
    if row == rows[n] {
      UnlistedIsUntouched(lastRun, now, rows[..n], row.workflowID);
    } else {
      RowsAreIndependent(lastRun, now, rows[..n], row);
    }
  }

  /** The row's expression parsed, and it was due since the last run - never, if it is seen for the first time. */
  ghost function IsDue(lastRun: map<string, Time>, now: Time): Row -> bool {
    (row: Row) => row.parsed && row.workflowID in lastRun
      && exists t :: lastRun[row.workflowID] < t <= now && t in row.due
  }

  function WorkflowOf(): Row -> string {
    (row: Row) => row.workflowID
  }

  lemma DueRowFires(lastRun: map<string, Time>, now: Time, rows: seq<Row>, row: Row)
    requires forall r :: r in rows ==> r.workflowID != row.workflowID
    ensures FiresRow(RunRows(lastRun, now, rows), now, row) <==> IsDue(lastRun, now)(row)
  {
    UnlistedIsUntouched(lastRun, now, rows, row.workflowID);
  }

  /** A tick starts exactly the due rows, once each, in the order in which they are listed. */
  lemma {:induction false} TickStartsTheDueRows(lastRun: map<string, Time>, now: Time, rows: seq<Row>)
    requires OneRowEach(rows)
    ensures Chosen(rows, IsDue(lastRun, now), WorkflowOf(), FiredRows(lastRun, now, rows))
  {
    if rows == [] {
      ChosenNone(IsDue(lastRun, now), WorkflowOf());
    } else {
      var n := |rows| - 1;
      TickStartsTheDueRows(lastRun, now, rows[..n]);
      DueRowFires(lastRun, now, rows[..n], rows[n]);
      ChosenStep(rows, IsDue(lastRun, now), WorkflowOf(), FiredRows(lastRun, now, rows[..n]),
                 if IsDue(lastRun, now)(rows[n]) then [rows[n].workflowID] else []);
    }
  }

  predicate Previous(polls: seq<Poll>, prev: nat, i: nat) {
    && prev < i < |polls| && polls[prev].rows.Some? && polls[i].rows.Some?
    && forall j :: prev < j < i ==> polls[j].rows.None?
  }

  lemma {:induction false} PreviousTick(polls: seq<Poll>, first: nat, i: nat) returns (prev: nat)
    requires first < i < |polls| && polls[first].rows.Some? && polls[i].rows.Some?
    ensures first <= prev && Previous(polls, prev, i)
  {
    prev := i - 1;
    while polls[prev].rows.None?
      invariant first <= prev < i && forall j :: prev < j < i ==> polls[j].rows.None?
      decreases prev
    {
      prev := prev - 1;
    }
  }

  // ---- the last run ------------------------------------------------------------------------------

  /** A last run that a row sets, by starting the workflow or by seeing it first, is the clock. */
  lemma {:induction false} RowsSetNow(lastRun: map<string, Time>, now: Time, rows: seq<Row>, id: string)
    ensures var after := RunRows(lastRun, now, rows);
      && (id in lastRun || id in FiredRows(lastRun, now, rows) ==> id in after)
      && (id in after && (id !in lastRun || id in FiredRows(lastRun, now, rows)) ==> after[id] == now)
      && (id in lastRun && id !in FiredRows(lastRun, now, rows) ==> after[id] == lastRun[id])
  {
    if rows != [] {
      RowsSetNow(lastRun, now, rows[..|rows| - 1], id);
    }
  }

  /** A tick starts a workflow at most once. */
  lemma {:induction false} StartedOnce(lastRun: map<string, Time>, now: Time, rows: seq<Row>, id: string)
    requires OneRowEach(rows)
    ensures multiset(FiredRows(lastRun, now, rows))[id] == if id in FiredRows(lastRun, now, rows) then 1 else 0
  {
    if rows != [] {
      var n := |rows| - 1;
      StartedOnce(lastRun, now, rows[..n], id);
      if rows[n].workflowID == id {
        UnlistedIsUntouched(lastRun, now, rows[..n], id);
      }
    }
  }

  ghost predicate StartedAt(polls: seq<Poll>, maps: seq<map<string, Time>>, i: nat, id: string)
    requires i < |polls| && |maps| == |polls| + 1
  {
    FiresAt(maps[i], polls[i], id)
  }

  /** The runs that each tick starts. */
  ghost function Logs(polls: seq<Poll>, maps: seq<map<string, Time>>): seq<seq<string>>
    requires |maps| == |polls| + 1
  {
    seq(|polls|, (i: nat) requires i < |polls| => Fired(maps[i], polls[i]))
  }

  /** Those of the ticks from `first` on and before `n`, in order. */
  function Joined(logs: seq<seq<string>>, first: nat, n: nat): seq<string>
    requires first <= n <= |logs|
  {
    if first == n then [] else Joined(logs, first, n - 1) + logs[n - 1]
  }

  /** How many of these are runs of the workflow. */
  ghost function Starts(polls: seq<Poll>, maps: seq<map<string, Time>>, first: nat, n: nat, id: string): nat
    requires first <= n <= |polls| && |maps| == |polls| + 1
  {
    multiset(Joined(Logs(polls, maps), first, n))[id]
  }

  lemma StartsOfTick(polls: seq<Poll>, maps: seq<map<string, Time>>, i: nat, id: string)
    requires IsHistory(polls, maps) && i < |polls|
    ensures multiset(Logs(polls, maps)[i])[id] == if StartedAt(polls, maps, i, id) then 1 else 0
    ensures Starts(polls, maps, i, i + 1, id) == if StartedAt(polls, maps, i, id) then 1 else 0
  {
    if polls[i].rows.Some? {
      StartedOnce(maps[i], polls[i].now, polls[i].rows.value, id);
    }
    assert Joined(Logs(polls, maps), i, i + 1) == Logs(polls, maps)[i];
  }

  /** Tick i starts the workflow, or is the first to see a row of it that parses. */
  ghost predicate SetsLastRun(polls: seq<Poll>, maps: seq<map<string, Time>>, i: nat, id: string)
    requires i < |polls| && |maps| == |polls| + 1
  {
    StartedAt(polls, maps, i, id) || (id !in maps[i] && id in maps[i + 1])
  }

  /**
   Tick q is the workflow's last start before tick i, or its first sighting if there was no start
   yet. In between it may have been edited any number of times, or not listed at all.
   */
  ghost predicate LastStart(polls: seq<Poll>, maps: seq<map<string, Time>>, q: nat, i: nat, id: string)
    requires i <= |polls| && |maps| == |polls| + 1
  {
    q < i && SetsLastRun(polls, maps, q, id) && forall j: nat :: q < j < i ==> !SetsLastRun(polls, maps, j, id)
  }

  lemma OneTick(polls: seq<Poll>, maps: seq<map<string, Time>>, i: nat, id: string)
    requires IsHistory(polls, maps) && i < |polls|
    ensures SetsLastRun(polls, maps, i, id) ==> polls[i].rows.Some? && Lookup(maps[i + 1], id) == Some(polls[i].now)
    ensures !SetsLastRun(polls, maps, i, id) ==> Lookup(maps[i + 1], id) == Lookup(maps[i], id)
  {
    assert maps[i + 1] == AfterTick(maps[i], polls[i]);
    if polls[i].rows.Some? {
      RowsSetNow(maps[i], polls[i].now, polls[i].rows.value, id);
    }
  }

  /** In every history, the last run is the clock of the last start, or of the first sighting before there was one. */
  lemma {:induction false} LastRunIsLastStart(polls: seq<Poll>, maps: seq<map<string, Time>>, q: nat, i: nat,
                                              id: string)
    requires IsHistory(polls, maps) && i <= |polls| && LastStart(polls, maps, q, i, id)
    ensures Lookup(maps[i], id) == Some(polls[q].now)
  {
    OneTick(polls, maps, i - 1, id);
    if q < i - 1 {
      LastRunIsLastStart(polls, maps, q, i - 1, id);
    }
  }

  lemma {:induction false} LastRunHasStart(polls: seq<Poll>, maps: seq<map<string, Time>>, i: nat, id: string)
    returns (q: nat)
    requires IsHistory(polls, maps) && i <= |polls| && id in maps[i]
    ensures LastStart(polls, maps, q, i, id)
  {
    OneTick(polls, maps, i - 1, id);
    if SetsLastRun(polls, maps, i - 1, id) {
      q := i - 1;
    } else {
      assert id in maps[i - 1] by { assert Lookup(maps[i], id) == Lookup(maps[i - 1], id); }
      q := LastRunHasStart(polls, maps, i - 1, id);
    }
  }

  /** And there is such a tick exactly when there is a last run. */
  lemma SomeLastStart(polls: seq<Poll>, maps: seq<map<string, Time>>, i: nat, id: string)
    requires IsHistory(polls, maps) && i <= |polls|
    ensures id in maps[i] <==> exists q: nat :: LastStart(polls, maps, q, i, id)
  {
    if id in maps[i] {
      var q := LastRunHasStart(polls, maps, i, id);
    } else if q: nat :| LastStart(polls, maps, q, i, id) {
      LastRunIsLastStart(polls, maps, q, i, id);
    }
  }

  // ---- main results ------------------------------------------------------------------------

  /** A workflow that no row of which was seen before is not started, whatever was due. */
  lemma FirstSightingDoesNotFire(polls: seq<Poll>, maps: seq<map<string, Time>>, i: nat, row: Row)
    requires IsHistory(polls, maps) && i < |polls| && Scheduled(polls[i], row) && row.workflowID !in maps[i]
    ensures !StartedAt(polls, maps, i, row.workflowID)
  {
    RowsAreIndependent(maps[i], polls[i].now, polls[i].rows.value, row);
  }

  /** Any other row is held against the last start, whichever schedule that was under. */
  lemma FiresIffDueSinceLastStart(polls: seq<Poll>, maps: seq<map<string, Time>>, q: nat, i: nat, row: Row)
    requires IsHistory(polls, maps) && i < |polls| && Scheduled(polls[i], row)
    requires LastStart(polls, maps, q, i, row.workflowID)
    ensures StartedAt(polls, maps, i, row.workflowID) <==> !Quiet(row.due, polls[q].now, polls[i].now)
    ensures Starts(polls, maps, i, i + 1, row.workflowID)
         == if Quiet(row.due, polls[q].now, polls[i].now) then 0 else 1
  {
    StartsOfTick(polls, maps, i, row.workflowID);
    LastRunIsLastStart(polls, maps, q, i, row.workflowID);
    RowsAreIndependent(maps[i], polls[i].now, polls[i].rows.value, row);
  }

  /** The last start is no later than the successful tick before. */
  lemma LastStartIsBefore(polls: seq<Poll>, maps: seq<map<string, Time>>, q: nat, prev: nat, i: nat, id: string)
    requires IsHistory(polls, maps) && Previous(polls, prev, i) && LastStart(polls, maps, q, i, id)
    ensures q <= prev && polls[q].now <= polls[prev].now <= polls[i].now
  {
    OneTick(polls, maps, q, id);
  }

  /**
   A tick is right about a row if it starts the workflow exactly for an occurrence since the
   successful tick before. In every history - edited, disabled, enabled again, as often as one
   likes - it is if and only if the schedule it lists has no occurrence between the last start
   and that tick before, or has one since then as well.
   */
  lemma RefinementHoldsExactlyWhen(polls: seq<Poll>, maps: seq<map<string, Time>>, q: nat, prev: nat, i: nat, row: Row)
    requires IsHistory(polls, maps) && Previous(polls, prev, i) && Scheduled(polls[i], row)
    requires LastStart(polls, maps, q, i, row.workflowID)
    ensures (StartedAt(polls, maps, i, row.workflowID) <==> !Quiet(row.due, polls[prev].now, polls[i].now))
      <==> Quiet(row.due, polls[q].now, polls[prev].now) || !Quiet(row.due, polls[prev].now, polls[i].now)
  {
    FiresIffDueSinceLastStart(polls, maps, q, i, row);
    LastStartIsBefore(polls, maps, q, prev, i, row.workflowID);
  }

  /** After a tick that lists a row, nothing it is due at lies between the last run and the clock. */
  lemma NothingMissedSinceLastRun(polls: seq<Poll>, maps: seq<map<string, Time>>, i: nat, row: Row)
    returns (q: nat)
    requires IsHistory(polls, maps) && i < |polls| && Scheduled(polls[i], row)
    ensures LastStart(polls, maps, q, i + 1, row.workflowID)
    ensures Lookup(maps[i + 1], row.workflowID) == Some(polls[q].now) && polls[q].now <= polls[i].now
    ensures Quiet(row.due, polls[q].now, polls[i].now)
  {
    assert maps[i + 1] == AfterTick(maps[i], polls[i]);
    RowsAreIndependent(maps[i], polls[i].now, polls[i].rows.value, row);
    SomeLastStart(polls, maps, i + 1, row.workflowID);
    q :| LastStart(polls, maps, q, i + 1, row.workflowID);
    LastRunIsLastStart(polls, maps, q, i + 1, row.workflowID);
    if q < i {
      assert LastStart(polls, maps, q, i, row.workflowID);
      FiresIffDueSinceLastStart(polls, maps, q, i, row);
    }
  }

  /**
   So wherever two successive successful ticks list the same row, the second one starts the
   workflow if and only if an occurrence fell since the first, whatever came before.
   */
  lemma TickFiresIffDueSincePreviousTick(polls: seq<Poll>, maps: seq<map<string, Time>>, prev: nat, i: nat, row: Row)
    requires IsHistory(polls, maps) && Previous(polls, prev, i)
    requires Scheduled(polls[prev], row) && Scheduled(polls[i], row)
    ensures StartedAt(polls, maps, i, row.workflowID)
      <==> exists t :: polls[prev].now < t <= polls[i].now && t in row.due
  {
    var q := NothingMissedSinceLastRun(polls, maps, prev, row);
    forall j: nat | prev < j < i ensures !SetsLastRun(polls, maps, j, row.workflowID) {
      OneTick(polls, maps, j, row.workflowID);
    }
    RefinementHoldsExactlyWhen(polls, maps, q, prev, i, row);
  }

  /** From tick `first` to tick `upTo`, every successful tick lists the workflow with this schedule. */
  predicate Steady(polls: seq<Poll>, first: nat, upTo: nat, row: Row) {
    && first <= upTo < |polls| && polls[first].rows.Some?
    && forall i :: first <= i <= upTo && polls[i].rows.Some? ==> Scheduled(polls[i], row)
  }

  /** While a schedule stays, every occurrence is answered by the first successful tick at or after it. */
  lemma EveryOccurrenceIsAnswered(polls: seq<Poll>, maps: seq<map<string, Time>>, first: nat, row: Row, t: Time, i: nat)
    requires IsHistory(polls, maps) && Steady(polls, first, i, row)
    requires t in row.due && polls[first].now < t <= polls[i].now
    requires polls[i].rows.Some? && forall j :: first < j < i && polls[j].rows.Some? ==> polls[j].now < t
    ensures StartedAt(polls, maps, i, row.workflowID)
  {
    var prev := PreviousTick(polls, first, i);
    TickFiresIffDueSincePreviousTick(polls, maps, prev, i, row);
  }

  // ---- as many starts as occurrences -------------------------------------------------------------

  /** A start is answered by an instant at which the listed schedule is due, after the last start. */
  ghost predicate Answers(polls: seq<Poll>, maps: seq<map<string, Time>>, i: nat, id: string, t: Time)
    requires i < |polls| && |maps| == |polls| + 1
  {
    && (exists row :: Scheduled(polls[i], row) && row.workflowID == id && t in row.due)
    && t <= polls[i].now
    && forall q: nat :: LastStart(polls, maps, q, i, id) ==> polls[q].now < t
  }

  /** `ticks` are the ticks from `first` on and before `n` that start the workflow. */
  ghost predicate AreStarts(polls: seq<Poll>, maps: seq<map<string, Time>>, first: nat, n: nat, id: string,
                            ticks: seq<nat>)
    requires n <= |polls| && |maps| == |polls| + 1
  {
    && (forall k :: 0 <= k < |ticks| ==> first <= ticks[k] < n && StartedAt(polls, maps, ticks[k], id))
    && (forall i: nat :: first <= i < n && StartedAt(polls, maps, i, id) ==> i in ticks)
    && (forall j, k :: 0 <= j < k < |ticks| ==> ticks[j] < ticks[k])
  }

  lemma {:induction false} StartedIsListed(lastRun: map<string, Time>, now: Time, rows: seq<Row>, id: string)
    returns (row: Row)
    requires id in FiredRows(lastRun, now, rows)
    ensures row in rows && row.parsed && row.workflowID == id
  {
    var n := |rows| - 1;
    if id in FiredRows(lastRun, now, rows[..n]) {
      row := StartedIsListed(lastRun, now, rows[..n], id);
    } else {
      row := rows[n];
    }
  }

  lemma LastStartIsUnique(polls: seq<Poll>, maps: seq<map<string, Time>>, q: nat, q': nat, i: nat, id: string)
    requires |maps| == |polls| + 1 && i <= |polls|
    requires LastStart(polls, maps, q, i, id) && LastStart(polls, maps, q', i, id)
    ensures q' == q
  {
  }

  lemma DueIsAnswer(polls: seq<Poll>, maps: seq<map<string, Time>>, q: nat, i: nat, row: Row, t: Time)
    requires |maps| == |polls| + 1 && i < |polls| && LastStart(polls, maps, q, i, row.workflowID)
    requires Scheduled(polls[i], row) && t in row.due && polls[q].now < t <= polls[i].now
    ensures Answers(polls, maps, i, row.workflowID, t)
  {
    forall q': nat | LastStart(polls, maps, q', i, row.workflowID) ensures q' == q {
      LastStartIsUnique(polls, maps, q, q', i, row.workflowID);
    }
  }

  /** A started workflow was seen before. */
  lemma StartedWasSeen(polls: seq<Poll>, maps: seq<map<string, Time>>, i: nat, row: Row)
    requires IsHistory(polls, maps) && i < |polls| && Scheduled(polls[i], row)
    requires StartedAt(polls, maps, i, row.workflowID)
    ensures exists q: nat :: LastStart(polls, maps, q, i, row.workflowID)
  {
    if row.workflowID !in maps[i] {
      FirstSightingDoesNotFire(polls, maps, i, row);
    }
    SomeLastStart(polls, maps, i, row.workflowID);
  }

  lemma StartIsAnswered(polls: seq<Poll>, maps: seq<map<string, Time>>, i: nat, id: string) returns (q: nat, t: Time)
    requires IsHistory(polls, maps) && i < |polls| && StartedAt(polls, maps, i, id)
    ensures LastStart(polls, maps, q, i, id) && Answers(polls, maps, i, id, t)
  {
    var row := StartedIsListed(maps[i], polls[i].now, polls[i].rows.value, id);
    StartedWasSeen(polls, maps, i, row);
    q :| LastStart(polls, maps, q, i, id);
    FiresIffDueSinceLastStart(polls, maps, q, i, row);
    t :| polls[q].now < t <= polls[i].now && t in row.due;
    DueIsAnswer(polls, maps, q, i, row, t);
  }

  /** What answers a start is later than any start before. */
  lemma AnswersAreNew(polls: seq<Poll>, maps: seq<map<string, Time>>, j: nat, i: nat, id: string, t: Time)
    requires IsHistory(polls, maps) && j < i < |polls|
    requires StartedAt(polls, maps, j, id) && StartedAt(polls, maps, i, id) && Answers(polls, maps, i, id, t)
    ensures polls[j].now < t
  {
    var q, _ := StartIsAnswered(polls, maps, i, id);
    assert SetsLastRun(polls, maps, j, id);
  }

  ghost predicate AnsweredBy(polls: seq<Poll>, maps: seq<map<string, Time>>, id: string, ticks: seq<nat>,
                             answered: seq<Time>)
    requires |maps| == |polls| + 1 && forall k :: 0 <= k < |ticks| ==> ticks[k] < |polls|
  {
    && |answered| == |ticks|
    && forall k :: 0 <= k < |ticks| ==> Answers(polls, maps, ticks[k], id, answered[k])
  }

  /** The positions from `first` on and before `n` whose log holds the workflow. */
  function Holding(logs: seq<seq<string>>, first: nat, n: nat, id: string): seq<nat>
    requires first <= n <= |logs|
  {
    if first == n then []
    else if id in logs[n - 1] then Holding(logs, first, n - 1, id) + [n - 1]
    else Holding(logs, first, n - 1, id)
  }

  predicate AreHolding(logs: seq<seq<string>>, first: nat, n: nat, id: string, ticks: seq<nat>)
    requires n <= |logs|
  {
    && (forall k :: 0 <= k < |ticks| ==> first <= ticks[k] < n && id in logs[ticks[k]])
    && (forall i: nat :: first <= i < n && id in logs[i] ==> i in ticks)
    && (forall j, k :: 0 <= j < k < |ticks| ==> ticks[j] < ticks[k])
  }

  lemma OneMoreHolding(logs: seq<seq<string>>, first: nat, n: nat, id: string, ticks: seq<nat>)
    requires first <= n < |logs| && id in logs[n] && AreHolding(logs, first, n, id, ticks)
    ensures AreHolding(logs, first, n + 1, id, ticks + [n])
  {
    assert n in ticks + [n] && forall i: nat :: i in ticks ==> i in ticks + [n];
  }

  lemma {:induction false} HoldingIs(logs: seq<seq<string>>, first: nat, n: nat, id: string)
    requires first <= n <= |logs|
    ensures AreHolding(logs, first, n, id, Holding(logs, first, n, id))
  {
    if first < n {
      HoldingIs(logs, first, n - 1, id);
      if id in logs[n - 1] {
        OneMoreHolding(logs, first, n - 1, id, Holding(logs, first, n - 1, id));
      }
    }
  }

  lemma {:induction false} HoldingCounts(logs: seq<seq<string>>, first: nat, n: nat, id: string)
    requires first <= n <= |logs|
    requires forall i: nat :: i < |logs| ==> multiset(logs[i])[id] == if id in logs[i] then 1 else 0
    ensures |Holding(logs, first, n, id)| == multiset(Joined(logs, first, n))[id]
  {
    if first < n {
      HoldingCounts(logs, first, n - 1, id);
    }
  }

  lemma StartTicks(polls: seq<Poll>, maps: seq<map<string, Time>>, first: nat, n: nat, id: string)
    returns (ticks: seq<nat>)
    requires IsHistory(polls, maps) && first <= n <= |polls|
    ensures AreStarts(polls, maps, first, n, id, ticks) && |ticks| == Starts(polls, maps, first, n, id)
  {
    var logs := Logs(polls, maps);
    ticks := Holding(logs, first, n, id);
    HoldingIs(logs, first, n, id);
    forall i: nat | i < |logs| ensures multiset(logs[i])[id] == if id in logs[i] then 1 else 0 {
      StartsOfTick(polls, maps, i, id);
    }
    HoldingCounts(logs, first, n, id);
    HeldIsStarted(polls, maps, first, n, id, ticks);
  }

  lemma HeldIsStarted(polls: seq<Poll>, maps: seq<map<string, Time>>, first: nat, n: nat, id: string, ticks: seq<nat>)
    requires |maps| == |polls| + 1 && n <= |polls|
    requires AreHolding(Logs(polls, maps), first, n, id, ticks)
    ensures AreStarts(polls, maps, first, n, id, ticks)
  {
  }

  ghost function AnAnswer(polls: seq<Poll>, maps: seq<map<string, Time>>, i: nat, id: string): (t: Time)
    requires IsHistory(polls, maps) && i < |polls| && StartedAt(polls, maps, i, id)
    ensures Answers(polls, maps, i, id, t)
  {
    StartHasAnswer(polls, maps, i, id);
    var t :| Answers(polls, maps, i, id, t);
    t
  }

  lemma StartHasAnswer(polls: seq<Poll>, maps: seq<map<string, Time>>, i: nat, id: string)
    requires IsHistory(polls, maps) && i < |polls| && StartedAt(polls, maps, i, id)
    ensures exists t :: Answers(polls, maps, i, id, t)
  {
    var _, t := StartIsAnswered(polls, maps, i, id);
  }

  /**
   In every history each start answers an occurrence of its own, later than the start before:
   however often the schedule is edited, nothing is started for twice.
   */
  lemma StartsHaveTheirOwnOccurrences(polls: seq<Poll>, maps: seq<map<string, Time>>, first: nat, n: nat, id: string)
    returns (ticks: seq<nat>, answered: seq<Time>)
    requires IsHistory(polls, maps) && first <= n <= |polls|
    ensures |answered| == Starts(polls, maps, first, n, id)
    ensures AreStarts(polls, maps, first, n, id, ticks) && AnsweredBy(polls, maps, id, ticks, answered)
    ensures forall j, k :: 0 <= j < k < |ticks| ==> answered[j] <= polls[ticks[j]].now < answered[k]
  {
    ticks := StartTicks(polls, maps, first, n, id);
    answered := seq(|ticks|, (k: nat) requires k < |ticks| => AnAnswer(polls, maps, ticks[k], id));
    forall j, k | 0 <= j < k < |ticks| ensures answered[j] <= polls[ticks[j]].now < answered[k] {
      AnswersAreNew(polls, maps, ticks[j], ticks[k], id, answered[k]);
    }
  }

  /** While a schedule stays, starts never outnumber its occurrences: each one answers another of them. */
  lemma StartsNeverOutnumberOccurrences(polls: seq<Poll>, maps: seq<map<string, Time>>, first: nat, n: nat, row: Row)
    returns (answered: seq<Time>)
    requires IsHistory(polls, maps) && Steady(polls, first, n, row)
    ensures |answered| == Starts(polls, maps, first + 1, n + 1, row.workflowID)
    ensures forall k :: 0 <= k < |answered| ==> answered[k] in row.due && polls[first].now < answered[k] <= polls[n].now
    ensures forall j, k :: 0 <= j < k < |answered| ==> answered[j] < answered[k]
  {
    var id, ticks := row.workflowID, [];
    ticks, answered := StartsHaveTheirOwnOccurrences(polls, maps, first + 1, n + 1, id);
    forall k | 0 <= k < |answered|
      ensures answered[k] in row.due && polls[first].now < answered[k] <= polls[n].now
    {
      SteadyStartIsLater(polls, maps, first, n, row, ticks[k], answered[k]);
    }
  }

  lemma SteadyStartIsLater(polls: seq<Poll>, maps: seq<map<string, Time>>, first: nat, n: nat, row: Row, i: nat,
                           t: Time)
    requires IsHistory(polls, maps) && Steady(polls, first, n, row) && first < i <= n
    requires StartedAt(polls, maps, i, row.workflowID) && Answers(polls, maps, i, row.workflowID, t)
    ensures t in row.due && polls[first].now < t <= polls[n].now
  {
    var q, _ := StartIsAnswered(polls, maps, i, row.workflowID);
    var q' := NothingMissedSinceLastRun(polls, maps, first, row);
    assert q < first ==> LastStart(polls, maps, q, first + 1, row.workflowID);
    assert q < first ==> q == q';
  }

  /** An edit that makes a past instant due starts the workflow for it. */
  lemma EditedScheduleFiresForThePast() returns (polls: seq<Poll>, maps: seq<map<string, Time>>, edited: Row)
    ensures IsHistory(polls, maps) && Previous(polls, 1, 2) && Scheduled(polls[2], edited)
    ensures FiresAt(maps[2], polls[2], edited.workflowID) && Quiet(edited.due, polls[1].now, polls[2].now)
  {
    var hourly := Row("w", iset t: Time | t % 3600 == 0, true);
    edited := Row("w", iset t: Time | t % 3600 == 15, true);
    polls := [Poll(10, Some([hourly])), Poll(20, Some([hourly])), Poll(30, Some([edited]))];
    var m1 := AfterTick(map[], polls[0]);
    var m2 := AfterTick(m1, polls[1]);
    var m3 := AfterTick(m2, polls[2]);
    maps := [map[], m1, m2, m3];
    RowsAreIndependent(map[], 10, [hourly], hourly);
    RowsAreIndependent(m1, 20, [hourly], hourly);
    assert m2["w"] == 10;
    RowsAreIndependent(m2, 30, [edited], edited);
    assert 15 in edited.due;
  }
}

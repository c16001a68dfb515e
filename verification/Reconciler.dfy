/**
 The Reconciler itself: a rate limit per user, the cursor table, and one pass at a time over
 the drives a user's triggers ask for. Every external call is a parameter that says how it
 ended; what a pass does to the cursors and which workflows it starts is tied to
 ReconcilePass and EventMatching.
 */
module Reconciler {
  import opened Clock
  import opened Wrappers
  import opened ReconcilePass
  import opened EventMatching

  type Key = (string, string)

  datatype Drive = Drive(id: string, driveType: string)

  /** How the calls a pass makes for one drive end. `paths` resolves item ids, `activities` is the answer. */
  datatype DriveCalls = DriveCalls(
    now: Time,
    read: Read,
    query: Query,
    activities: seq<Activity>,
    paths: map<string, string>,
    writeOk: bool)

  datatype Run = Run(workflowID: string, path: string)

  lemma PutBack<K, V>(m: map<K, V>, k: K)
    ensures k in m ==> m[k := m[k]] == m
  {
  }

  // ---- what a pass starts ----------------------------------------------------------------

  /** Loading a workflow may fail or find it disabled; only `runnable` ones run. */
  function RunsOf(ids: seq<string>, runnable: set<string>, path: string): seq<Run> {
    if ids == [] then []
    else RunsOf(ids[..|ids| - 1], runnable, path) + RunOf(ids[|ids| - 1], runnable, path)
  }

  function RunOf(id: string, runnable: set<string>, path: string): seq<Run> {
    if id in runnable then [Run(id, path)] else []
  }

  lemma RunsOfSnoc(before: seq<Run>, ids: seq<string>, id: string, runnable: set<string>, path: string)
    ensures before + RunsOf(ids + [id], runnable, path)
         == before + RunsOf(ids, runnable, path) + RunOf(id, runnable, path)
  {
    assert (ids + [id])[..|ids|] == ids;
    Associate(before, RunsOf(ids, runnable, path), RunOf(id, runnable, path));
  }

  function ActivityRuns(entries: seq<TriggerIndexEntry>, userID: string, driveID: string, paths: map<string, string>,
                        runnable: set<string>, a: Activity): seq<Run> {
    var resolved := Lookup(paths, a.resourceId);
    if resolved.None? then []
    else RunsOf(BackstopStarts(entries, userID, driveID, a.message, a.resourceId, resolved), runnable, resolved.value)
  }

  /** Entries whose id has not occurred before. */
  function Distinct(activities: seq<Activity>): seq<Activity> {
    if activities == [] then []
    else
      var n := |activities| - 1;
      Distinct(activities[..n]) + if activities[n].id in Ids(activities[..n]) then [] else [activities[n]]
  }

  function Ids(activities: seq<Activity>): set<string> {
    if activities == [] then {} else Ids(activities[..|activities| - 1]) + {activities[|activities| - 1].id}
  }

  function PassRuns(entries: seq<TriggerIndexEntry>, userID: string, driveID: string, paths: map<string, string>,
                    runnable: set<string>, todo: seq<Activity>): seq<Run> {
    if todo == [] then []
    else PassRuns(entries, userID, driveID, paths, runnable, todo[..|todo| - 1])
         + ActivityRuns(entries, userID, driveID, paths, runnable, todo[|todo| - 1])
  }

  /** The entries the pass hands to dispatch. */
  function Handled(cfg: Config, found: Option<EventCursor>, c: DriveCalls): seq<Activity> {
    if c.read.ReadFailed? || Debounced(cfg, c.now, found) || !c.query.Answered? then [] else Distinct(c.activities)
  }

  function CursorsAfter(cfg: Config, cursors: map<Key, EventCursor>, key: Key, c: DriveCalls): map<Key, EventCursor> {
    match CursorAfter(cfg, c.now, Lookup(cursors, key), c.read, c.query, c.writeOk)
    case Some(cursor) => cursors[key := cursor]
    case None => cursors
  }

  lemma {:induction false} IdsAreIds(xs: seq<Activity>)
    ensures forall id :: id in Ids(xs) <==> exists k :: 0 <= k < |xs| && xs[k].id == id
  {
    if xs != [] {
      IdsAreIds(xs[..|xs| - 1]);
      assert forall k :: 0 <= k < |xs| - 1 ==> xs[..|xs| - 1][k] == xs[k];
    }
  }

  lemma IdsOfSnoc(xs: seq<Activity>, a: Activity)
    ensures Ids(xs + [a]) == Ids(xs) + {a.id}
  {
    assert (xs + [a])[..|xs|] == xs;
  }

  predicate UniqueIds(activities: seq<Activity>) {
    forall j, k :: 0 <= j < k < |activities| ==> activities[j].id != activities[k].id
  }

  lemma OneMoreUniqueId(kept: seq<Activity>, a: Activity)
    requires UniqueIds(kept) && a.id !in Ids(kept)
    ensures UniqueIds(kept + [a])
  {
    IdsAreIds(kept);
  }

  /** No returned id is lost or handed on twice. */
  lemma {:induction false} DistinctKeepsEveryIdOnce(activities: seq<Activity>)
    ensures Ids(Distinct(activities)) == Ids(activities) && UniqueIds(Distinct(activities))
  {
    if activities != [] {
      var most, a := activities[..|activities| - 1], activities[|activities| - 1];
      DistinctKeepsEveryIdOnce(most);
      assert activities == most + [a];
      DistinctOfSnoc(most, a);
      IdsOfSnoc(most, a);
      if a.id !in Ids(most) {
        IdsOfSnoc(Distinct(most), a);
        OneMoreUniqueId(Distinct(most), a);
      }
    }
  }

  predicate IsFirst(activities: seq<Activity>, i: nat) {
    i < |activities| && forall j :: 0 <= j < i ==> activities[j].id != activities[i].id
  }

  /** `picks` are the positions of the entries that are the first with their id, in order. */
  ghost predicate Firsts(activities: seq<Activity>, picks: seq<nat>) {
    && (forall i: nat :: i in picks <==> IsFirst(activities, i))
    && (forall j, k :: 0 <= j < k < |picks| ==> picks[j] < picks[k])
  }

  lemma FirstsOneMore(most: seq<Activity>, a: Activity, picks: seq<nat>)
    requires Firsts(most, picks)
    ensures a.id in Ids(most) ==> Firsts(most + [a], picks)
    ensures a.id !in Ids(most) ==> Firsts(most + [a], picks + [|most|])
    ensures forall k: nat :: k < |picks| ==> picks[k] < |most|
  {
    forall k: nat | k < |picks| ensures picks[k] < |most| {
      var i: nat := picks[k];
      assert i in picks;
    }
    var all := most + [a];
    IdsAreIds(most);
    forall i: nat
      ensures IsFirst(all, i) <==> IsFirst(most, i) || (i == |most| && a.id !in Ids(most))
    {
      assert forall j :: 0 <= j < |most| ==> all[j] == most[j];
      assert a.id in Ids(most) <==> exists j :: 0 <= j < |most| && all[j].id == a.id;
    }
  }

  /** Of several entries with one id, the first is handed on, and the log's order is kept. */
  lemma {:induction false} DistinctKeepsFirst(activities: seq<Activity>) returns (picks: seq<nat>)
    ensures Firsts(activities, picks) && |picks| == |Distinct(activities)|
    ensures forall k :: 0 <= k < |picks| ==> picks[k] < |activities| && Distinct(activities)[k] == activities[picks[k]]
  {
    if activities == [] {
      picks := [];
    } else {
      var most, a := activities[..|activities| - 1], activities[|activities| - 1];
      picks := DistinctKeepsFirst(most);
      FirstsOneMore(most, a, picks);
      assert activities == most + [a];
      picks := if a.id in Ids(most) then picks else picks + [|most|];
    }
  }

  lemma DistinctOfSnoc(xs: seq<Activity>, a: Activity)
    ensures Distinct(xs + [a]) == if a.id in Ids(xs) then Distinct(xs) else Distinct(xs) + [a]
  {
    assert (xs + [a])[..|xs|] == xs;
  }

  lemma PassRunsOfSnoc(entries: seq<TriggerIndexEntry>, userID: string, driveID: string, paths: map<string, string>,
                       runnable: set<string>, xs: seq<Activity>, a: Activity)
    ensures PassRuns(entries, userID, driveID, paths, runnable, xs + [a])
         == PassRuns(entries, userID, driveID, paths, runnable, xs)
           + ActivityRuns(entries, userID, driveID, paths, runnable, a)
  {
    assert (xs + [a])[..|xs|] == xs;
  }

  /** One turn of the loop over the trigger index. */
  lemma OneMoreStart(before: seq<Run>, seen: seq<TriggerIndexEntry>, e: TriggerIndexEntry, userID: string,
                     triggerType: string, path: string, space: string, runnable: set<string>)
    ensures before + RunsOf(Selected(seen + [e], userID, triggerType, path, space), runnable, path)
         == before + RunsOf(Selected(seen, userID, triggerType, path, space), runnable, path)
           + if Wants(e, userID, triggerType) && e.MatchesFilters(path, space)
             then RunOf(e.workflowID, runnable, path) else []
  {
    OneMoreEntry(seen, e, userID, triggerType, path, space);
    RunsOfSnoc(before, Selected(seen, userID, triggerType, path, space), e.workflowID, runnable, path);
  }

  // ---- what a pass starts, without its loops -----------------------------------------------------

  function AdmitsRunnable(userID: string, triggerType: string, path: string, space: string, runnable: set<string>)
    : TriggerIndexEntry -> bool
  {
    (e: TriggerIndexEntry) => AdmitsEvent(userID, triggerType, path, space)(e) && e.workflowID in runnable
  }

  function RunOn(path: string): TriggerIndexEntry -> Run {
    (e: TriggerIndexEntry) => Run(e.workflowID, path)
  }

  lemma OneMoreRun(most: seq<TriggerIndexEntry>, e: TriggerIndexEntry, userID: string, triggerType: string,
                   path: string, space: string, runnable: set<string>)
    ensures RunsOf(Selected(most + [e], userID, triggerType, path, space), runnable, path)
         == RunsOf(Selected(most, userID, triggerType, path, space), runnable, path)
           + if AdmitsRunnable(userID, triggerType, path, space, runnable)(e) then [RunOn(path)(e)] else []
  {
    var all := RunsOf(Selected(most + [e], userID, triggerType, path, space), runnable, path);
    var runs := RunsOf(Selected(most, userID, triggerType, path, space), runnable, path);
    OneMoreStart([], most, e, userID, triggerType, path, space, runnable);
    var last := if AdmitsEvent(userID, triggerType, path, space)(e) then RunOf(e.workflowID, runnable, path) else [];
    assert [] + all == all && [] + runs + last == runs + last;
  }

  lemma {:induction false} RunsOfSelected(entries: seq<TriggerIndexEntry>, userID: string, triggerType: string,
                                          path: string, space: string, runnable: set<string>)
    ensures Chosen(entries, AdmitsRunnable(userID, triggerType, path, space, runnable), RunOn(path),
                   RunsOf(Selected(entries, userID, triggerType, path, space), runnable, path))
  {
    var keep, run := AdmitsRunnable(userID, triggerType, path, space, runnable), RunOn(path);
    if entries == [] {
      ChosenNone(keep, run);
    } else {
      var n := |entries| - 1;
      var most, e := entries[..n], entries[n];
      RunsOfSelected(most, userID, triggerType, path, space, runnable);
      assert entries == most + [e];
      var runs := RunsOf(Selected(most, userID, triggerType, path, space), runnable, path);
      var last := if keep(e) then [run(e)] else [];
      ChosenStep(entries, keep, run, runs, last);
      OneMoreRun(most, e, userID, triggerType, path, space, runnable);
    }
  }

  /**
   An entry of the log, of a known type and naming an item whose path could be resolved: one run
   on that path for each index entry that admits it and whose workflow is runnable, in index
   order. Anything else, and everything in the internal folder, starts none.
   */
  lemma ActivityRunsTheAdmitted(entries: seq<TriggerIndexEntry>, userID: string, driveID: string,
                                paths: map<string, string>, runnable: set<string>, a: Activity)
    ensures var runs := ActivityRuns(entries, userID, driveID, paths, runnable, a);
      if a.resourceId !in paths || '!' !in a.resourceId || LoggedTriggerType(a.message).None?
           || FirstSegment(paths[a.resourceId]) == ".workflows" then runs == []
      else
        var path, triggerType := paths[a.resourceId], LoggedTriggerType(a.message).value;
        Chosen(entries, AdmitsRunnable(userID, triggerType, path, driveID, runnable), RunOn(path), runs)
  {
    if a.resourceId in paths && LoggedTriggerType(a.message).Some? {
      InternalExactlyWhen(paths[a.resourceId]);
      RunsOfSelected(entries, userID, LoggedTriggerType(a.message).value, paths[a.resourceId], driveID, runnable);
    }
  }

  /** Entries are dispatched one after another. */
  lemma {:induction false} PassRunsConcat(entries: seq<TriggerIndexEntry>, userID: string, driveID: string,
                                          paths: map<string, string>, runnable: set<string>, xs: seq<Activity>,
                                          ys: seq<Activity>)
    ensures PassRuns(entries, userID, driveID, paths, runnable, xs + ys)
         == PassRuns(entries, userID, driveID, paths, runnable, xs)
           + PassRuns(entries, userID, driveID, paths, runnable, ys)
  {
    if ys == [] {
      assert xs + ys == xs;
    } else {
      var most, y := ys[..|ys| - 1], ys[|ys| - 1];
      assert xs + ys == (xs + most) + [y] && ys == most + [y];
      PassRunsConcat(entries, userID, driveID, paths, runnable, xs, most);
      PassRunsOfSnoc(entries, userID, driveID, paths, runnable, xs + most, y);
      PassRunsOfSnoc(entries, userID, driveID, paths, runnable, most, y);
      Associate(PassRuns(entries, userID, driveID, paths, runnable, xs),
                PassRuns(entries, userID, driveID, paths, runnable, most),
                ActivityRuns(entries, userID, driveID, paths, runnable, y));
    }
  }

  // ---- drive scope -------------------------------------------------------------------------

  predicate Unscoped(entries: seq<TriggerIndexEntry>, userID: string) {
    exists e :: e in entries && e.userID == userID && e.spaceID == ""
  }

  function ScopedDrives(entries: seq<TriggerIndexEntry>, userID: string): set<string> {
    set e | e in entries && e.userID == userID && e.spaceID != "" :: e.spaceID
  }

  function RealDrives(all: seq<Drive>): seq<string> {
    if all == [] then []
    else RealDrives(all[..|all| - 1]) + if all[|all| - 1].driveType == "virtual" then [] else [all[|all| - 1].id]
  }

  /** The drives found for a user; without an unscoped trigger, their order is arbitrary. */
  ghost predicate InScope(entries: seq<TriggerIndexEntry>, userID: string, listing: Option<seq<Drive>>,
                          drives: Option<seq<string>>) {
    if Unscoped(entries, userID) then
      drives == (if listing.Some? then Some(RealDrives(listing.value)) else None)
    else
      && drives.Some?
      && (forall d :: d in drives.value <==> d in ScopedDrives(entries, userID))
      && (forall j, k :: 0 <= j < k < |drives.value| ==> drives.value[j] != drives.value[k])
  }

  /** Whichever way the drives were found: those scoped to, or, with an unscoped trigger, the listed real ones. */
  lemma ScopeIs(entries: seq<TriggerIndexEntry>, userID: string, listing: Option<seq<Drive>>, drives: seq<string>,
                d: string)
    requires InScope(entries, userID, listing, Some(drives))
    ensures d in drives <==>
      if exists e :: e in entries && e.userID == userID && e.spaceID == ""
      then listing.Some? && exists drive :: drive in listing.value && drive.id == d && drive.driveType != "virtual"
      else exists e :: e in entries && e.userID == userID && e.spaceID == d
  {
    if Unscoped(entries, userID) {
      RealDrivesAreListed(listing.value);
      ChosenMembers(listing.value, IsReal(), IdOf(), drives);
      assert d in drives <==>
        exists drive :: drive in listing.value && IsReal()(drive) && IdOf()(drive) == d;
    }
  }

  function IsReal(): Drive -> bool {
    (drive: Drive) => drive.driveType != "virtual"
  }

  function IdOf(): Drive -> string {
    (drive: Drive) => drive.id
  }

  /** The listed drives that are not virtual, in listing order. */
  lemma {:induction false} RealDrivesAreListed(all: seq<Drive>)
    ensures Chosen(all, IsReal(), IdOf(), RealDrives(all))
  {
    if all == [] {
      ChosenNone(IsReal(), IdOf());
    } else {
      var n := |all| - 1;
      RealDrivesAreListed(all[..n]);
      ChosenStep(all, IsReal(), IdOf(), RealDrives(all[..n]),
                 if all[n].driveType == "virtual" then [] else [all[n].id]);
    }
  }

  // ---- the rate limit ------------------------------------------------------------------------

  predicate Admits(cfg: Config, lastPassStart: map<string, Time>, userID: string, now: Time) {
    userID in lastPassStart ==> now - lastPassStart[userID] >= cfg.gracePeriod
  }

  datatype Request = Request(user: string, at: Time)

  /** Requests by any users, one after another: what ShouldStartPass answers, and the start table before each. */
  ghost predicate IsAdmission(cfg: Config, requests: seq<Request>, tables: seq<map<string, Time>>, ok: seq<bool>) {
    && |tables| == |requests| + 1 && |ok| == |requests|
    && forall i :: 0 <= i < |requests| ==> Answers(cfg, requests[i], tables[i], ok[i], tables[i + 1])
  }

  predicate Answers(cfg: Config, r: Request, table: map<string, Time>, ok: bool, next: map<string, Time>) {
    ok == Admits(cfg, table, r.user, r.at) && next == if ok then table[r.user := r.at] else table
  }

  /** Request j started a pass of the user's. */
  predicate Started(requests: seq<Request>, ok: seq<bool>, user: string, j: nat) {
    j < |requests| && j < |ok| && ok[j] && requests[j].user == user
  }

  /** The table holds the user's latest start. */
  lemma {:induction false} TableHoldsLatest(cfg: Config, requests: seq<Request>, tables: seq<map<string, Time>>,
                                            ok: seq<bool>, user: string, i: nat)
    requires IsAdmission(cfg, requests, tables, ok) && i <= |requests|
    ensures user in tables[0] ==> user in tables[i] && tables[0][user] <= tables[i][user]
    ensures forall j: nat :: j < i && Started(requests, ok, user, j) ==>
      user in tables[i] && requests[j].at <= tables[i][user]
    ensures user in tables[i] ==>
      || (user in tables[0] && tables[i][user] == tables[0][user])
      || exists j: nat :: j < i && Started(requests, ok, user, j) && requests[j].at == tables[i][user]
  {
    if i > 0 {
      TableHoldsLatest(cfg, requests, tables, ok, user, i - 1);
      assert Answers(cfg, requests[i - 1], tables[i - 1], ok[i - 1], tables[i]);
      assert ok[i - 1] && requests[i - 1].user == user <==> Started(requests, ok, user, i - 1);
    }
  }

  /**
   A request is admitted if and only if none of the same user's was admitted within the grace
   period before it, whatever other users ask for in between.
   */
  lemma AdmittedExactlyWhen(cfg: Config, requests: seq<Request>, tables: seq<map<string, Time>>, ok: seq<bool>, i: nat)
    requires IsAdmission(cfg, requests, tables, ok) && i < |requests|
    ensures ok[i] <==>
      && (requests[i].user in tables[0] ==> requests[i].at - tables[0][requests[i].user] >= cfg.gracePeriod)
      && forall j: nat :: j < i && Started(requests, ok, requests[i].user, j) ==>
           requests[i].at - requests[j].at >= cfg.gracePeriod
  {
    var user := requests[i].user;
    TableHoldsLatest(cfg, requests, tables, ok, user, i);
    assert Answers(cfg, requests[i], tables[i], ok[i], tables[i + 1]);
    if ok[i] {
      forall j: nat | j < i && Started(requests, ok, user, j)
        ensures requests[i].at - requests[j].at >= cfg.gracePeriod
      {
        assert requests[j].at <= tables[i][user];
      }
    }
  }

  /** Admitted requests of one user are a grace period apart. */
  lemma AdmittedAreApart(cfg: Config, requests: seq<Request>, tables: seq<map<string, Time>>, ok: seq<bool>,
                         user: string, j: nat, i: nat)
    requires IsAdmission(cfg, requests, tables, ok) && j < i
    requires Started(requests, ok, user, j) && Started(requests, ok, user, i)
    ensures requests[i].at - requests[j].at >= cfg.gracePeriod
  {
    AdmittedExactlyWhen(cfg, requests, tables, ok, i);
  }

  /** From an empty table, a request is turned away only for an admitted one of the same user's just before it. */
  lemma RejectionsHaveACause(cfg: Config, requests: seq<Request>, tables: seq<map<string, Time>>, ok: seq<bool>, i: nat)
    returns (j: nat)
    requires IsAdmission(cfg, requests, tables, ok) && tables[0] == map[] && i < |requests| && !ok[i]
    ensures j < i && Started(requests, ok, requests[i].user, j) && requests[i].at - requests[j].at < cfg.gracePeriod
  {
    AdmittedExactlyWhen(cfg, requests, tables, ok, i);
    j :| j < i && Started(requests, ok, requests[i].user, j) && requests[i].at - requests[j].at < cfg.gracePeriod;
  }

  // ---- a whole pass --------------------------------------------------------------------------

  datatype Effects = Effects(cursors: map<Key, EventCursor>, runs: seq<Run>)

  /** What a pass does for one drive, on the cursors and runs it finds. */
  function DriveEffects(cfg: Config, entries: seq<TriggerIndexEntry>, userID: string, d: string, c: DriveCalls,
                        runnable: set<string>, e: Effects): Effects
  {
    Effects(
      CursorsAfter(cfg, e.cursors, (userID, d), c),
      e.runs + PassRuns(entries, userID, d, c.paths, runnable, Handled(cfg, Lookup(e.cursors, (userID, d)), c)))
  }

  /** Drives are reconciled one after another, each on the cursors the previous one left. */
  function PassEffects(cfg: Config, entries: seq<TriggerIndexEntry>, userID: string, drives: seq<string>,
                       calls: string -> DriveCalls, runnable: set<string>, before: Effects): Effects
  {
    if drives == [] then before
    else
      var n := |drives| - 1;
      DriveEffects(cfg, entries, userID, drives[n], calls(drives[n]), runnable,
                   PassEffects(cfg, entries, userID, drives[..n], calls, runnable, before))
  }

  /**
   A pass over a drive changes the cursor of that user and drive and no other, and starts nothing
   unless its query was made and answered.
   */
  lemma DrivePassIsOwn(cfg: Config, entries: seq<TriggerIndexEntry>, userID: string, d: string, c: DriveCalls,
                       runnable: set<string>, e: Effects)
    ensures var after, key := DriveEffects(cfg, entries, userID, d, c, runnable, e), (userID, d);
      && Lookup(after.cursors, key) == CursorAfter(cfg, c.now, Lookup(e.cursors, key), c.read, c.query, c.writeOk)
      && (forall k :: k != key ==> Lookup(after.cursors, k) == Lookup(e.cursors, k))
      && after.runs == e.runs +
           if c.read.ReadOk? && c.query.Answered?
              && (key in e.cursors ==> c.now - e.cursors[key].lastChecked >= cfg.gracePeriod)
           then PassRuns(entries, userID, d, c.paths, runnable, Distinct(c.activities)) else []
  {
    assert PassRuns(entries, userID, d, c.paths, runnable, []) == [];
  }

  lemma PassEffectsOfSnoc(cfg: Config, entries: seq<TriggerIndexEntry>, userID: string, drives: seq<string>, d: string,
                          calls: string -> DriveCalls, runnable: set<string>, before: Effects)
    ensures PassEffects(cfg, entries, userID, drives + [d], calls, runnable, before)
      == DriveEffects(cfg, entries, userID, d, calls(d), runnable,
                      PassEffects(cfg, entries, userID, drives, calls, runnable, before))
  {
    assert (drives + [d])[..|drives|] == drives;
  }

  /** A pass touches no cursor but those of its own user and drives. */
  lemma {:induction false} PassEffectsFrame(cfg: Config, entries: seq<TriggerIndexEntry>, userID: string,
                                            drives: seq<string>, calls: string -> DriveCalls, runnable: set<string>,
                                            before: Effects, key: Key)
    requires key.0 != userID || key.1 !in drives
    ensures Lookup(PassEffects(cfg, entries, userID, drives, calls, runnable, before).cursors, key)
      == Lookup(before.cursors, key)
    ensures before.runs <= PassEffects(cfg, entries, userID, drives, calls, runnable, before).runs
  {
    if drives != [] {
      PassEffectsFrame(cfg, entries, userID, drives[..|drives| - 1], calls, runnable, before, key);
    }
  }

  class Reconciler {
    const cfg: Config
    var lastPassStart: map<string, Time>
    var cursors: map<Key, EventCursor>
    var runs: seq<Run>

    constructor (cfg: Config)
      ensures this.cfg == cfg && lastPassStart == map[] && cursors == map[] && runs == []
    {
      this.cfg := cfg;
      lastPassStart, cursors, runs := map[], map[], [];
    }

    method ShouldStartPass(userID: string, now: Time) returns (ok: bool)
      modifies this`lastPassStart
      ensures ok == Admits(cfg, old(lastPassStart), userID, now)
      ensures ok <==> userID !in old(lastPassStart) || now - old(lastPassStart)[userID] >= cfg.gracePeriod
      ensures lastPassStart == if ok then old(lastPassStart)[userID := now] else old(lastPassStart)
    {
      if userID in lastPassStart && now - lastPassStart[userID] < cfg.gracePeriod {
        return false;
      }
      lastPassStart := lastPassStart[userID := now];
      return true;
    }

    method DrivesForUser(entries: seq<TriggerIndexEntry>, userID: string, listing: Option<seq<Drive>>)
      returns (drives: Option<seq<string>>)
      ensures InScope(entries, userID, listing, drives)
    {
      var scoped: set<string> := {};
      var needsAll := false;
      for i := 0 to |entries|
        invariant needsAll == Unscoped(entries[..i], userID)
        invariant scoped == ScopedDrives(entries[..i], userID)
      {
        var e := entries[i];
        assert entries[..i + 1] == entries[..i] + [e];
        if e.userID == userID {
          if e.spaceID == "" {
            needsAll := true;
          } else {
            scoped := scoped + {e.spaceID};
          }
        }
        assert ScopedDrives(entries[..i + 1], userID) == scoped;
      }
      assert entries[..|entries|] == entries;

      if !needsAll {
        var found, left := [], scoped;
        while left != {}
          invariant left <= scoped
          invariant forall d :: d in found <==> d in scoped && d !in left
          invariant forall j, k :: 0 <= j < k < |found| ==> found[j] != found[k]
          decreases left
        {
          var d :| d in left;
          found, left := found + [d], left - {d};
        }
        return Some(found);
      }

      if listing.None? {
        return None;
      }
      var all, ids := listing.value, [];
      for i := 0 to |all|
        invariant ids == RealDrives(all[..i])
      {
        assert all[..i + 1][..i] == all[..i];
        if all[i].driveType != "virtual" {
          ids := ids + [all[i].id];
        }
      }
      assert all[..|all|] == all;
      return Some(ids);
    }

    method RunWorkflow(workflowID: string, path: string, runnable: set<string>)
      modifies this`runs
      ensures runs == old(runs) + RunOf(workflowID, runnable, path)
    {
      if workflowID in runnable {
        runs := runs + [Run(workflowID, path)];
      }
    }

    method Dispatch(entries: seq<TriggerIndexEntry>, userID: string, driveID: string, paths: map<string, string>,
                    runnable: set<string>, a: Activity)
      modifies this`runs
      ensures runs == old(runs) + ActivityRuns(entries, userID, driveID, paths, runnable, a)
    {
      var triggerType := LoggedTriggerType(a.message);
      if triggerType.None? || a.resourceId == "" || !NamesItem(a.resourceId) || a.resourceId !in paths {
        return;
      }
      var path := paths[a.resourceId];
      if IsInternalPath(path) {
        return;
      }
      StartMatches(entries, userID, triggerType.value, path, driveID, runnable);
    }

    method StartMatches(entries: seq<TriggerIndexEntry>, userID: string, triggerType: string, path: string,
                        driveID: string,
                        runnable: set<string>)
      modifies this`runs
      ensures runs == old(runs) + RunsOf(Selected(entries, userID, triggerType, path, driveID), runnable, path)
    {
      ghost var seen: seq<TriggerIndexEntry> := [];
      for i := 0 to |entries|
        invariant seen == entries[..i]
        invariant runs == old(runs) + RunsOf(Selected(seen, userID, triggerType, path, driveID), runnable, path)
      {
        var e := entries[i];
        OneMoreStart(old(runs), seen, e, userID, triggerType, path, driveID, runnable);
        seen := seen + [e];
        if e.userID == userID && e.eventType == triggerType && e.MatchesFilters(path, driveID) {
          RunWorkflow(e.workflowID, path, runnable);
        }
      }
      assert entries[..|entries|] == entries;
    }

    method HandleActivities(entries: seq<TriggerIndexEntry>, userID: string, driveID: string,
                            paths: map<string, string>,
                            runnable: set<string>, activities: seq<Activity>)
      modifies this`runs
      ensures runs == old(runs) + PassRuns(entries, userID, driveID, paths, runnable, Distinct(activities))
    {
      var seen: set<string> := {};
      ghost var handled: seq<Activity> := [];
      for i := 0 to |activities|
        invariant seen == Ids(activities[..i])
        invariant handled == Distinct(activities[..i])
        invariant runs == old(runs) + PassRuns(entries, userID, driveID, paths, runnable, handled)
      {
        var a := activities[i];
        assert activities[..i + 1] == activities[..i] + [a];
        IdsOfSnoc(activities[..i], a);
        DistinctOfSnoc(activities[..i], a);
        if a.id in seen {
          continue;
        }
        seen := seen + {a.id};
        PassRunsOfSnoc(entries, userID, driveID, paths, runnable, handled, a);
        ghost var done := PassRuns(entries, userID, driveID, paths, runnable, handled);
        Associate(old(runs), done, ActivityRuns(entries, userID, driveID, paths, runnable, a));
        handled := handled + [a];
        Dispatch(entries, userID, driveID, paths, runnable, a);
      }
      assert activities[..|activities|] == activities;
    }

    method ReconcileDrive(entries: seq<TriggerIndexEntry>, userID: string, driveID: string, calls: DriveCalls,
                          runnable: set<string>)
      modifies this`cursors, this`runs
      ensures cursors == CursorsAfter(cfg, old(cursors), (userID, driveID), calls)
      ensures runs == old(runs) + PassRuns(entries, userID, driveID, calls.paths, runnable,
                                           Handled(cfg, Lookup(old(cursors), (userID, driveID)), calls))
    {
      var now := calls.now;
      var key := (userID, driveID);
      PutBack(cursors, key);
      if calls.read.ReadFailed? {
        return;
      }
      var firstEver := key !in cursors;
      var cursor := if firstEver then EventCursor(now - cfg.lookback, Full) else cursors[key];
      if !firstEver && now - cursor.lastChecked < cfg.gracePeriod {
        return;
      }
      match calls.query {
        case Cancelled =>
        case Failed =>
          if calls.writeOk {
            cursors := cursors[key := Stored(cfg, EventCursor(cursor.lastChecked, SseOnly))];
          }
        case Answered =>
          HandleActivities(entries, userID, driveID, calls.paths, runnable, calls.activities);
          if calls.writeOk {
            cursors := cursors[key := Stored(cfg, EventCursor(now, Full))];
          }
      }
    }

    /**
     One pass for a user. `slot` says whether a semaphore slot came free before the caller's
     context was cancelled; `entries` and `listing` are None when the call failed.
     */
    method Reconcile(userID: string, now: Time, slot: bool, entries: Option<seq<TriggerIndexEntry>>,
                     listing: Option<seq<Drive>>, calls: string -> DriveCalls, runnable: set<string>)
      returns (drives: seq<string>)
      modifies this
      ensures lastPassStart == if Admits(cfg, old(lastPassStart), userID, now)
        then old(lastPassStart)[userID := now] else old(lastPassStart)
      ensures drives != [] ==> Admits(cfg, old(lastPassStart), userID, now) && slot && entries.Some?
      ensures Admits(cfg, old(lastPassStart), userID, now) && slot && entries.Some? ==>
        InScope(entries.value, userID, listing, Some(drives))
          || (listing.None? && Unscoped(entries.value, userID) && drives == [])
      ensures Effects(cursors, runs)
           == if drives == [] then Effects(old(cursors), old(runs))
              else PassEffects(cfg, entries.value, userID, drives, calls, runnable, Effects(old(cursors), old(runs)))
    {
      drives := [];
      var ok := ShouldStartPass(userID, now);
      if !ok || !slot || entries.None? {
        return;
      }
      var scope := DrivesForUser(entries.value, userID, listing);
      if scope.None? {
        return;
      }
      drives := scope.value;
      ReconcileDrives(entries.value, userID, drives, calls, runnable);
    }

    /** The pass's loop over its drives. */
    method ReconcileDrives(entries: seq<TriggerIndexEntry>, userID: string, drives: seq<string>,
                           calls: string -> DriveCalls, runnable: set<string>)
      modifies this`cursors, this`runs
      ensures Effects(cursors, runs)
           == PassEffects(cfg, entries, userID, drives, calls, runnable, Effects(old(cursors), old(runs)))
    {
      ghost var before := Effects(cursors, runs);
      ghost var now := before;
      for i := 0 to |drives|
        invariant now == Effects(cursors, runs)
        invariant now == PassEffects(cfg, entries, userID, drives[..i], calls, runnable, before)
      {
        var d := drives[i];
        PassEffectsOfSnoc(cfg, entries, userID, drives[..i], d, calls, runnable, before);
        assert drives[..i + 1] == drives[..i] + [d];
        now := DriveEffects(cfg, entries, userID, d, calls(d), runnable, now);
        ReconcileDrive(entries, userID, d, calls(d), runnable);
      }
      assert drives[..|drives|] == drives;
    }
  }
}

/**
 From a stored definition to the workflow that an event starts: the index, the matching, the
 consumers and the schedules put together. As long as every change was synced, what happens is
 what the definitions say.
 */
module EventDelivery {
  import opened Wrappers
  import opened EventMatching
  import Sync = TriggerSync
  import Sse = SseManager

  /** The definition is enabled, waits for this type of event, and its filters admit path and space. */
  ghost predicate Awaits(wf: Sync.Workflow, triggerType: string, path: string, space: string) {
    && wf.enabled && wf.trigger.triggerType == Event && wf.trigger.event.Some?
    && wf.trigger.event.value.eventType == triggerType
    && (wf.trigger.event.value.filters.Some? ==>
          var f := wf.trigger.event.value.filters.value;
          && (exists rest :: path == f.pathPrefix + rest)
          && (exists stem :: path == stem + f.extension)
          && (f.spaceID == "" || f.spaceID == space))
  }

  /** A row admits an event exactly when the definition that it belongs to awaits it. */
  lemma RowAdmitsExactlyWhen(e: TriggerIndexEntry, wf: Sync.Workflow, owner: string, userID: string,
                             triggerType: string, path: string, space: string)
    requires Sync.HasOwnFields(e, wf, owner) && wf.enabled && wf.trigger.triggerType == Event && triggerType != ""
    ensures AdmitsEvent(userID, triggerType, path, space)(e) <==>
      owner == userID && Awaits(wf, triggerType, path, space)
  {
    MatchesExactlyWhen(e, path, space);
    assert path == "" + path && path == path + "";
  }

  /** The index as the event routes read it, after a history of requests that were all synced. */
  ghost predicate InSync(states: seq<Sync.Db>, requests: seq<Sync.Request>, n: nat, rows: seq<TriggerIndexEntry>) {
    && Sync.IsHistory(states, requests) && n <= |requests| && Sync.Unsynced(states, requests, n) == {}
    && Sync.IsListing(states[n].index, Event, rows)
  }

  /** Some row of the user's admits the event for workflow `id` if and only if the user's definition awaits it. */
  lemma AdmittedExactlyWhen(states: seq<Sync.Db>, requests: seq<Sync.Request>, n: nat, rows: seq<TriggerIndexEntry>,
                            userID: string, triggerType: string, path: string, space: string, id: string)
    requires InSync(states, requests, n, rows) && triggerType != ""
    ensures (exists e :: e in rows && AdmitsEvent(userID, triggerType, path, space)(e) && e.workflowID == id) <==>
      (userID, id) in states[n].store && Awaits(states[n].store[(userID, id)], triggerType, path, space)
  {
    var db, key := states[n], (userID, id);
    Sync.ListingIsAScanOfDefinitions(states, requests, n, Event, rows);
    Sync.HistoryAgrees(states, requests, n);
    if e :| e in rows && AdmitsEvent(userID, triggerType, path, space)(e) && e.workflowID == id {
      var k :| Sync.HasRow(db, k, e, Event);
      RowAdmitsExactlyWhen(e, db.store[k], k.0, userID, triggerType, path, space);
      assert k == key;
    }
    if key in db.store && Awaits(db.store[key], triggerType, path, space) {
      var e := RowOf(db.store[key], userID);
      assert Sync.HasRow(db, key, e, Event);
      RowAdmitsExactlyWhen(e, db.store[key], userID, userID, triggerType, path, space);
      assert e in rows && e.workflowID == id;
    }
  }

  lemma RowOf(wf: Sync.Workflow, owner: string) returns (e: TriggerIndexEntry)
    requires wf.enabled && wf.trigger.triggerType in {Schedule, Event}
    ensures Sync.HasOwnFields(e, wf, owner)
  {
    Sync.DerivedExactlyWhen(wf, owner, TriggerIndexEntry("", "", Event, "", "", "", "", ""));
    e := Sync.Derived(wf, owner).value;
    Sync.DerivedExactlyWhen(wf, owner, e);
  }

  /**
   What a live event starts, in terms of the definitions alone: the workflows of the user's that are
   enabled and await this type of event at this path and space - unless the path lies in the
   internal folder, for which nothing is started.
   */
  lemma LiveEventsStartWhatDefinitionsSay(states: seq<Sync.Db>, requests: seq<Sync.Request>, n: nat,
                                          rows: seq<TriggerIndexEntry>, userID: string, sseEventType: string,
                                          payload: Payload, path: string, triggerType: string, id: string)
    requires InSync(states, requests, n, rows) && LiveTriggerType(sseEventType) == Some(triggerType)
    requires payload.spaceID != "" && payload.itemID != ""
    ensures id in LiveStarts(Some(rows), userID, sseEventType, Some(payload), Some(path)) <==>
      && FirstSegment(path) != ".workflows"
      && (userID, id) in states[n].store
      && Awaits(states[n].store[(userID, id)], triggerType, path, payload.spaceID)
  {
    EventsOfEachType(sseEventType, "");
    LiveStartsTheAdmitted(rows, userID, sseEventType, payload, Some(path), triggerType);
    AdmittedExactlyWhen(states, requests, n, rows, userID, triggerType, path, payload.spaceID, id);
    if FirstSegment(path) != ".workflows" {
      MembersAre(rows, AdmitsEvent(userID, triggerType, path, payload.spaceID),
                 LiveStarts(Some(rows), userID, sseEventType, Some(payload), Some(path)), id);
    }
  }

  /** And what the backstop starts for an entry of the log. */
  lemma LoggedEventsStartWhatDefinitionsSay(states: seq<Sync.Db>, requests: seq<Sync.Request>, n: nat,
                                            rows: seq<TriggerIndexEntry>, userID: string, driveID: string,
                                            message: string, resourceId: string, path: string, triggerType: string,
                                            id: string)
    requires InSync(states, requests, n, rows) && LoggedTriggerType(message) == Some(triggerType) && '!' in resourceId
    ensures id in BackstopStarts(rows, userID, driveID, message, resourceId, Some(path)) <==>
      && FirstSegment(path) != ".workflows"
      && (userID, id) in states[n].store
      && Awaits(states[n].store[(userID, id)], triggerType, path, driveID)
  {
    EventsOfEachType("", message);
    BackstopStartsTheAdmitted(rows, userID, driveID, message, resourceId, path, triggerType);
    AdmittedExactlyWhen(states, requests, n, rows, userID, triggerType, path, driveID, id);
    if FirstSegment(path) != ".workflows" {
      MembersAre(rows, AdmitsEvent(userID, triggerType, path, driveID),
                 BackstopStarts(rows, userID, driveID, message, resourceId, Some(path)), id);
    }
  }

  lemma MembersAre(rows: seq<TriggerIndexEntry>, keep: TriggerIndexEntry -> bool, started: seq<string>, id: string)
    requires Chosen(rows, keep, WorkflowOf(), started)
    ensures id in started <==> exists e :: e in rows && keep(e) && e.workflowID == id
  {
    ChosenMembers(rows, keep, WorkflowOf(), started);
    assert forall e: TriggerIndexEntry :: WorkflowOf()(e) == e.workflowID;
  }

  /** Whose events are listened to: a reconcile gives a consumer to exactly the owners of enabled event triggers. */
  lemma ConsumersFollowDefinitions(states: seq<Sync.Db>, requests: seq<Sync.Request>, n: nat,
                                   rows: seq<TriggerIndexEntry>, before: Sse.Registry, after: Sse.Registry,
                                   user: string)
    requires InSync(states, requests, n, rows) && Sse.WellKept(before)
    requires Sse.Reconciled(before, after, Sse.Users(rows))
    ensures user in after.active <==>
      exists k :: k in states[n].store && k.0 == user && states[n].store[k].enabled
                  && states[n].store[k].trigger.triggerType == Event
  {
    var db := states[n];
    Sync.ListingIsAScanOfDefinitions(states, requests, n, Event, rows);
    Sse.ReconcileFollowsTheIndex(before, after, rows, user);
    if e :| e in rows && e.userID == user {
      var k :| Sync.HasRow(db, k, e, Event);
      assert k in db.store;
    }
    if k :| k in db.store && k.0 == user && db.store[k].enabled && db.store[k].trigger.triggerType == Event {
      var e := RowOf(db.store[k], user);
      assert Sync.HasRow(db, k, e, Event);
    }
  }

  /** What the scheduler lists: the schedules of exactly the enabled definitions that have one. */
  lemma ScheduledFollowsDefinitions(states: seq<Sync.Db>, requests: seq<Sync.Request>, n: nat,
                                    rows: seq<TriggerIndexEntry>, user: string, id: string, schedule: string)
    requires Sync.IsHistory(states, requests) && n <= |requests| && Sync.Unsynced(states, requests, n) == {}
    requires Sync.IsListing(states[n].index, Schedule, rows)
    ensures (exists e :: e in rows && e.userID == user && e.workflowID == id && e.schedule == schedule) <==>
      && (user, id) in states[n].store && states[n].store[(user, id)].enabled
      && states[n].store[(user, id)].trigger.triggerType == Schedule
      && states[n].store[(user, id)].trigger.schedule == schedule
  {
    var db, key := states[n], (user, id);
    Sync.ListingIsAScanOfDefinitions(states, requests, n, Schedule, rows);
    Sync.HistoryAgrees(states, requests, n);
    if e :| e in rows && e.userID == user && e.workflowID == id && e.schedule == schedule {
      var k :| Sync.HasRow(db, k, e, Schedule);
      assert k == key;
    }
    if key in db.store && db.store[key].enabled && db.store[key].trigger.triggerType == Schedule
      && db.store[key].trigger.schedule == schedule
    {
      var e := RowOf(db.store[key], user);
      assert Sync.HasRow(db, key, e, Schedule);
      assert e in rows && e.schedule == schedule;
    }
  }
}

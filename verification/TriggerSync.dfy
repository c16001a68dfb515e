/**
 Workflow definitions live in their owners' spaces; the trigger index is a copy of the parts
 the scheduler and the SSE manager need. The handlers change a definition first and then try
 to bring the index in line, so the two can drift apart when a call fails. This module states
 what each request does to both, and for every history of requests where the index can be
 trusted.
 */
module TriggerSync {
  import opened Wrappers
  import opened EventMatching

  datatype EventFilters = EventFilters(pathPrefix: string, extension: string, spaceID: string)
  datatype EventTrigger = EventTrigger(eventType: string, filters: Option<EventFilters>)
  datatype WorkflowTrigger = WorkflowTrigger(triggerType: TriggerType, schedule: string, event: Option<EventTrigger>)

  /** The graph is stored verbatim and plays no part here. */
  datatype Workflow = Workflow(
    id: string, name: string, description: string, enabled: bool, trigger: WorkflowTrigger, graph: string,
    created: string, lastModified: string)

  datatype WorkflowPatch = WorkflowPatch(
    name: Option<string>, description: Option<string>, enabled: Option<bool>,
    trigger: Option<WorkflowTrigger>, graph: Option<string>)

  /** Unconfirmed: the store carried the call out but the answer was lost. */
  datatype StoreCall = Done | Refused | Unconfirmed

  datatype Calls = Calls(readOk: bool, write: StoreCall, meOk: bool, indexOk: bool)

  type Key = (string, string)   // owner, workflow id

  datatype Db = Db(store: map<Key, Workflow>, index: map<string, TriggerIndexEntry>)

  datatype Request =
    | Create(user: string, id: string, now: string, patch: WorkflowPatch, calls: Calls)
    | Patch(user: string, id: string, now: string, patch: WorkflowPatch, calls: Calls)
    | Delete(user: string, id: string, calls: Calls)

  // ---- what one request does -----------------------------------------------------------------

  predicate Triggered(wf: Workflow) {
    wf.enabled && !wf.trigger.triggerType.Other?
  }

  /** The index row a definition calls for. */
  function Derived(wf: Workflow, owner: string): Option<TriggerIndexEntry> {
    if !Triggered(wf) then None
    else if wf.trigger.triggerType.Schedule? then
      Some(TriggerIndexEntry(wf.id, owner, Schedule, wf.trigger.schedule, "", "", "", ""))
    else
      match wf.trigger.event
      case None => Some(TriggerIndexEntry(wf.id, owner, Event, "", "", "", "", ""))
      case Some(e) =>
        var f := if e.filters.Some? then e.filters.value else EventFilters("", "", "");
        Some(TriggerIndexEntry(wf.id, owner, Event, "", e.eventType, f.pathPrefix, f.extension, f.spaceID))
  }

  function Put<K, V>(m: map<K, V>, k: K, v: Option<V>): map<K, V> {
    match v
    case Some(x) => m[k := x]
    case None => m - {k}
  }

  /** Whether the sync after a change to `wf` gets through; only rows to be written need the owner. */
  predicate SyncWorks(wf: Workflow, calls: Calls) {
    (Triggered(wf) ==> calls.meOk) && calls.indexOk
  }

  function Merged(wf: Workflow, p: WorkflowPatch, now: string): Workflow {
    Workflow(
      wf.id,
      if p.name.Some? then p.name.value else wf.name,
      if p.description.Some? then p.description.value else wf.description,
      if p.enabled.Some? then p.enabled.value else wf.enabled,
      if p.trigger.Some? then p.trigger.value else wf.trigger,
      if p.graph.Some? then p.graph.value else wf.graph,
      wf.created,
      now)
  }

  /** The definition a request leaves at its key if it gets as far as writing; None removes it. */
  function Outcome(db: Db, r: Request): Option<Workflow> {
    match r
    case Create(_, id, now, p, _) =>
      Some(Merged(Workflow(id, "", "", false, WorkflowTrigger(Other("manual"), "", None), "", now, now), p, now))
    case Patch(user, id, now, p, _) =>
      if (user, id) in db.store then Some(Merged(db.store[(user, id)], p, now)) else None
    case Delete(_, _, _) => None
  }

  /** Requests that end before the store is written: unnamed, unreadable, not found or refused. */
  predicate Writes(db: Db, r: Request) {
    && !r.calls.write.Refused?
    && match r
       case Create(_, _, _, p, _) => p.name.Some? && p.name.value != ""
       case Patch(user, id, _, _, calls) => (user, id) in db.store && calls.readOk
       case Delete(user, id, _) => (user, id) in db.store
  }

  predicate Syncs(db: Db, r: Request) {
    && Writes(db, r) && r.calls.write.Done?
    && match Outcome(db, r)
       case Some(wf) => SyncWorks(wf, r.calls)
       case None => r.calls.indexOk
  }

  function Synced(index: map<string, TriggerIndexEntry>, owner: string, wf: Workflow,
                  calls: Calls): map<string, TriggerIndexEntry> {
    if SyncWorks(wf, calls) then Put(index, wf.id, Derived(wf, owner)) else index
  }

  function After(db: Db, r: Request): Db {
    if !Writes(db, r) then db
    else
      match Outcome(db, r)
      case Some(wf) =>
        Db(db.store[(r.user, r.id) := wf],
           if r.calls.write.Done? then Synced(db.index, r.user, wf, r.calls) else db.index)
      case None =>
        Db(db.store - {(r.user, r.id)}, if r.calls.write.Done? && r.calls.indexOk then db.index - {r.id} else db.index)
  }

  // ---- histories of requests -------------------------------------------------------------------

  /** New workflows get ids that no workflow or index row bears. */
  predicate FreshId(db: Db, r: Request) {
    r.Create? ==> r.id !in db.index && forall k :: k in db.store ==> k.1 != r.id
  }

  predicate IsHistory(states: seq<Db>, requests: seq<Request>) {
    && |states| == |requests| + 1
    && states[0] == Db(map[], map[])
    && forall i :: 0 <= i < |requests| ==>
         FreshId(states[i], requests[i]) && states[i + 1] == After(states[i], requests[i])
  }

  /** Every definition is kept under its own id, and no id occurs in two spaces. */
  predicate OneOwner(store: map<Key, Workflow>) {
    && (forall k :: k in store ==> store[k].id == k.1)
    && (forall j, k :: j in store && k in store && j.1 == k.1 ==> j == k)
  }

  ghost predicate Agrees(db: Db, except: set<string>) {
    && (forall k :: k in db.store && k.1 !in except ==> Lookup(db.index, k.1) == Derived(db.store[k], k.0))
    && (forall id :: id in db.index && id !in except ==> exists user :: (user, id) in db.store)
  }

  lemma RequestKeepsOneOwner(db: Db, r: Request)
    requires OneOwner(db.store) && FreshId(db, r)
    ensures OneOwner(After(db, r).store)
  {
  }

  /** A request touches one definition and one index row. */
  lemma RequestIsLocal(db: Db, r: Request)
    requires OneOwner(db.store)
    ensures forall k :: k != (r.user, r.id) ==> Lookup(After(db, r).store, k) == Lookup(db.store, k)
    ensures forall id :: id != r.id ==> Lookup(After(db, r).index, id) == Lookup(db.index, id)
  {
  }

  /** A request that gets its sync through leaves the row its definition calls for, or none. */
  lemma RequestSyncs(db: Db, r: Request)
    requires OneOwner(db.store) && Syncs(db, r)
    ensures var after, key := After(db, r), (r.user, r.id);
      Lookup(after.index, r.id) == if key in after.store then Derived(after.store[key], r.user) else None
  {
  }

  // ---- what requests do, without their steps -------------------------------------------------

  /** The row says about the workflow what the definition says, and nothing else. */
  predicate HasOwnFields(e: TriggerIndexEntry, wf: Workflow, owner: string) {
    var event := if wf.trigger.triggerType.Event? then wf.trigger.event else None;
    var filters := if event.Some? then event.value.filters else None;
    && e.workflowID == wf.id && e.userID == owner && e.triggerType == wf.trigger.triggerType
    && e.schedule == (if wf.trigger.triggerType.Schedule? then wf.trigger.schedule else "")
    && e.eventType == (if event.Some? then event.value.eventType else "")
    && e.pathPrefix == (if filters.Some? then filters.value.pathPrefix else "")
    && e.extension == (if filters.Some? then filters.value.extension else "")
    && e.spaceID == (if filters.Some? then filters.value.spaceID else "")
  }

  /** A definition calls for a row if and only if it is enabled with a schedule or an event, and then for its own. */
  lemma DerivedExactlyWhen(wf: Workflow, owner: string, e: TriggerIndexEntry)
    ensures Derived(wf, owner) == Some(e) <==>
      wf.enabled && wf.trigger.triggerType in {Schedule, Event} && HasOwnFields(e, wf, owner)
    ensures Derived(wf, owner).Some? <==> wf.enabled && wf.trigger.triggerType in {Schedule, Event}
  {
  }

  /** The calls that a request needed to bring the index in line all went through. */
  predicate GotThrough(r: Request, after: Db) {
    && r.calls.write.Done? && r.calls.indexOk
    && (r.calls.meOk || (r.user, r.id) !in after.store || !after.store[(r.user, r.id)].enabled
        || after.store[(r.user, r.id)].trigger.triggerType !in {Schedule, Event})
  }

  lemma SyncsExactlyWhen(db: Db, r: Request)
    requires Writes(db, r)
    ensures Syncs(db, r) <==> GotThrough(r, After(db, r))
  {
  }

  /**
   After a request whose calls went through there is a row under its id if and only if the
   definition is there, enabled, and triggered by a schedule or an event; the row is that
   definition's own. If they did not go through, the row is what it was.
   */
  lemma RowsFollowDefinitions(db: Db, r: Request)
    requires OneOwner(db.store) && FreshId(db, r) && Writes(db, r)
    ensures var after, key := After(db, r), (r.user, r.id);
      if GotThrough(r, after) then
        && (r.id in after.index <==>
              && key in after.store && after.store[key].enabled
              && after.store[key].trigger.triggerType in {Schedule, Event})
        && (r.id in after.index ==> HasOwnFields(after.index[r.id], after.store[key], r.user))
      else Lookup(after.index, r.id) == Lookup(db.index, r.id)
  {
    SyncsExactlyWhen(db, r);
    if Syncs(db, r) {
      RequestSyncs(db, r);
      if (r.user, r.id) in After(db, r).store && r.id in After(db, r).index {
        DerivedExactlyWhen(After(db, r).store[(r.user, r.id)], r.user, After(db, r).index[r.id]);
      }
    }
  }

  /** What a create stores: the name it must give, and defaults for what it leaves out - not enabled, run by hand. */
  lemma CreateStores(db: Db, user: string, id: string, now: string, p: WorkflowPatch, calls: Calls)
    ensures var after, key := After(db, Request.Create(user, id, now, p, calls)), (user, id);
      if calls.write.Refused? || p.name.None? || p.name == Some("") then after == db
      else
        && key in after.store
        && var wf := after.store[key];
           && wf.id == id && Some(wf.name) == p.name && wf.created == wf.lastModified == now
           && wf.description == (if p.description.Some? then p.description.value else "")
           && (wf.enabled <==> p.enabled == Some(true))
           && wf.trigger == (if p.trigger.Some? then p.trigger.value else WorkflowTrigger(Other("manual"), "", None))
           && wf.graph == (if p.graph.Some? then p.graph.value else "")
  {
  }

  /** What a patch stores: the fields it gives, and all others as they were. */
  lemma PatchStores(db: Db, user: string, id: string, now: string, p: WorkflowPatch, calls: Calls)
    ensures var after, key := After(db, Request.Patch(user, id, now, p, calls)), (user, id);
      if calls.write.Refused? || !calls.readOk || key !in db.store then after == db
      else
        && key in after.store
        && var was, wf := db.store[key], after.store[key];
           && wf.id == was.id && wf.created == was.created && wf.lastModified == now
           && (p.name.Some? ==> wf.name == p.name.value) && (p.name.None? ==> wf.name == was.name)
           && (p.description.Some? ==> wf.description == p.description.value)
           && (p.description.None? ==> wf.description == was.description)
           && (p.enabled.Some? ==> wf.enabled == p.enabled.value) && (p.enabled.None? ==> wf.enabled == was.enabled)
           && (p.trigger.Some? ==> wf.trigger == p.trigger.value) && (p.trigger.None? ==> wf.trigger == was.trigger)
           && (p.graph.Some? ==> wf.graph == p.graph.value) && (p.graph.None? ==> wf.graph == was.graph)
  {
  }

  /** A delete removes the definition, and the row with it if the index can be reached. */
  lemma DeleteRemoves(db: Db, user: string, id: string, calls: Calls)
    ensures var after := After(db, Request.Delete(user, id, calls));
      if calls.write.Refused? || (user, id) !in db.store then after == db
      else
        && (user, id) !in after.store
        && (calls.write.Done? && calls.indexOk ==> id !in after.index)
        && (!(calls.write.Done? && calls.indexOk) ==> after.index == db.index)
  {
  }

  function Overlaid(p: WorkflowPatch, q: WorkflowPatch): WorkflowPatch {
    WorkflowPatch(
      if q.name.Some? then q.name else p.name,
      if q.description.Some? then q.description else p.description,
      if q.enabled.Some? then q.enabled else p.enabled,
      if q.trigger.Some? then q.trigger else p.trigger,
      if q.graph.Some? then q.graph else p.graph)
  }

  /** Two patches in a row are one in which the second goes before the first. */
  lemma PatchesCompose(db: Db, user: string, id: string, t1: string, t2: string, p: WorkflowPatch, q: WorkflowPatch,
                       c1: Calls, c2: Calls)
    requires (user, id) in db.store && c1.readOk && c2.readOk && !c1.write.Refused? && !c2.write.Refused?
    ensures After(After(db, Request.Patch(user, id, t1, p, c1)), Request.Patch(user, id, t2, q, c2)).store
         == After(db, Request.Patch(user, id, t2, Overlaid(p, q), c2)).store
  {
  }

  function ExceptAfter(db: Db, r: Request, except: set<string>): set<string> {
    if !Writes(db, r) then except else if Syncs(db, r) then except - {r.id} else except + {r.id}
  }

  lemma RequestKeepsAgreement(db: Db, r: Request, except: set<string>)
    requires OneOwner(db.store) && Agrees(db, except) && FreshId(db, r)
    ensures Agrees(After(db, r), ExceptAfter(db, r, except))
  {
    if Writes(db, r) {
      var after, key, except' := After(db, r), (r.user, r.id), ExceptAfter(db, r, except);
      RequestIsLocal(db, r);
      RequestKeepsOneOwner(db, r);
      if Syncs(db, r) {
        RequestSyncs(db, r);
      }
      forall k | k in after.store && k.1 !in except'
        ensures Lookup(after.index, k.1) == Derived(after.store[k], k.0)
      {
        if k.1 == r.id {
          OneOwnerHere(db, r, k);
        } else {
          assert Lookup(after.store, k) == Lookup(db.store, k);
        }
      }
      forall id | id in after.index && id !in except' ensures exists user :: (user, id) in after.store {
        if id == r.id {
          assert key in after.store;
        } else {
          assert Lookup(after.index, id) == Lookup(db.index, id);
          var user :| (user, id) in db.store;
          assert Lookup(after.store, (user, id)) == Lookup(db.store, (user, id));
        }
      }
    }
  }

  /** The definition a writing request changes is the only one with its id. */
  lemma OneOwnerHere(db: Db, r: Request, k: Key)
    requires OneOwner(db.store) && FreshId(db, r) && Writes(db, r)
    requires k in After(db, r).store && k.1 == r.id
    ensures k == (r.user, r.id)
  {
  }

  /** Ids whose definition was changed by a request that did not get its sync through, and not synced since. */
  function Unsynced(states: seq<Db>, requests: seq<Request>, n: nat): set<string>
    requires n <= |requests| && |states| == |requests| + 1
  {
    if n == 0 then {} else ExceptAfter(states[n - 1], requests[n - 1], Unsynced(states, requests, n - 1))
  }

  /** Request i wrote the definition under `id` and did not get its calls through; no later one before `n` wrote it. */
  ghost predicate LeftUnsynced(states: seq<Db>, requests: seq<Request>, n: nat, id: string, i: nat)
    requires n <= |requests| && |states| == |requests| + 1
  {
    && i < n && requests[i].id == id && Writes(states[i], requests[i]) && !GotThrough(requests[i], states[i + 1])
    && forall j :: i < j < n && requests[j].id == id ==> !Writes(states[j], requests[j])
  }

  /** An id is unsynced if and only if the last request that wrote its definition did not get its calls through. */
  lemma {:induction false} UnsyncedExactlyWhen(states: seq<Db>, requests: seq<Request>, n: nat, id: string)
    requires IsHistory(states, requests) && n <= |requests|
    ensures id in Unsynced(states, requests, n) <==> exists i: nat :: LeftUnsynced(states, requests, n, id, i)
  {
    if n > 0 {
      var m := n - 1;
      UnsyncedExactlyWhen(states, requests, m, id);
      if Writes(states[m], requests[m]) {
        SyncsExactlyWhen(states[m], requests[m]);
      }
      if id in Unsynced(states, requests, n) {
        if requests[m].id == id && Writes(states[m], requests[m]) {
          assert LeftUnsynced(states, requests, n, id, m);
        } else {
          var i: nat :| LeftUnsynced(states, requests, m, id, i);
          assert LeftUnsynced(states, requests, n, id, i);
        }
      } else if i: nat :| LeftUnsynced(states, requests, n, id, i) {
        assert i < m ==> LeftUnsynced(states, requests, m, id, i);
      }
    }
  }

  /** The index agrees with the definitions at every point, except for the unsynced ids. */
  lemma {:induction false} HistoryAgrees(states: seq<Db>, requests: seq<Request>, n: nat)
    requires IsHistory(states, requests) && n <= |requests|
    ensures OneOwner(states[n].store) && Agrees(states[n], Unsynced(states, requests, n))
  {
    if n > 0 {
      HistoryAgrees(states, requests, n - 1);
      RequestKeepsOneOwner(states[n - 1], requests[n - 1]);
      RequestKeepsAgreement(states[n - 1], requests[n - 1], Unsynced(states, requests, n - 1));
    }
  }

  /** The definition under `k` is enabled with this trigger type, and the row is its own. */
  predicate HasRow(db: Db, k: Key, e: TriggerIndexEntry, triggerType: TriggerType) {
    && k in db.store && db.store[k].enabled && triggerType in {Schedule, Event}
    && db.store[k].trigger.triggerType == triggerType
    && HasOwnFields(e, db.store[k], k.0)
  }

  /** What a listing for one trigger type has to contain. */
  ghost predicate IsListing(index: map<string, TriggerIndexEntry>, triggerType: TriggerType,
                            rows: seq<TriggerIndexEntry>) {
    && (forall e :: e in rows <==> exists id :: id in index && index[id] == e && e.triggerType == triggerType)
    && (forall j, k :: 0 <= j < k < |rows| ==> rows[j].workflowID != rows[k].workflowID)
  }

  /**
   When no id is unsynced, what ListEventTriggers and ListScheduleTriggers return is what a scan
   of all definitions would: one row for each enabled definition with that trigger type.
   */
  lemma ListingIsAScanOfDefinitions(states: seq<Db>, requests: seq<Request>, n: nat, triggerType: TriggerType,
                                    rows: seq<TriggerIndexEntry>)
    requires IsHistory(states, requests) && n <= |requests| && Unsynced(states, requests, n) == {}
    requires IsListing(states[n].index, triggerType, rows)
    ensures forall e :: e in rows <==>
      exists k :: HasRow(states[n], k, e, triggerType)
  {
    HistoryAgrees(states, requests, n);
    var db := states[n];
    forall e | e in rows
      ensures exists k :: HasRow(db, k, e, triggerType)
    {
      RowHasADefinition(db, e, triggerType, rows);
    }
    forall k, e | HasRow(db, k, e, triggerType) ensures e in rows {
      DefinitionHasARow(db, k, e, triggerType, rows);
    }
  }

  lemma RowHasADefinition(db: Db, e: TriggerIndexEntry, triggerType: TriggerType, rows: seq<TriggerIndexEntry>)
    requires Agrees(db, {}) && IsListing(db.index, triggerType, rows) && e in rows
    ensures exists k :: HasRow(db, k, e, triggerType)
  {
    var id :| id in db.index && db.index[id] == e && e.triggerType == triggerType;
    var user :| (user, id) in db.store;
    assert Lookup(db.index, (user, id).1) == Derived(db.store[(user, id)], user);
    DerivedExactlyWhen(db.store[(user, id)], user, e);
    assert HasRow(db, (user, id), e, triggerType);
  }

  lemma DefinitionHasARow(db: Db, k: Key, e: TriggerIndexEntry, triggerType: TriggerType, rows: seq<TriggerIndexEntry>)
    requires Agrees(db, {}) && IsListing(db.index, triggerType, rows)
    requires HasRow(db, k, e, triggerType)
    ensures e in rows
  {
    DerivedExactlyWhen(db.store[k], k.0, e);
    assert Lookup(db.index, k.1) == Derived(db.store[k], k.0);
    assert k.1 in db.index;
  }

  // ---- the handlers ------------------------------------------------------------------------------

  datatype Reply = BadRequest | NotFound | Unavailable | Created(wf: Workflow) | Ok(wf: Workflow) | NoContent

  /** An event trigger has just become active: the SSE manager is to pick it up now. */
  predicate NeedsKick(wf: Workflow, calls: Calls) {
    wf.enabled && wf.trigger.triggerType.Event? && calls.meOk && calls.indexOk
  }

  class WorkflowsHandler {
    var store: map<Key, Workflow>
    var index: map<string, TriggerIndexEntry>
    var kicks: nat

    ghost function View(): Db
      reads this
    {
      Db(store, index)
    }

    constructor ()
      ensures View() == Db(map[], map[]) && kicks == 0
    {
      store, index, kicks := map[], map[], 0;
    }

    method SyncTriggerIndex(user: string, wf: Workflow, calls: Calls)
      modifies this`index, this`kicks
      ensures index == Synced(old(index), user, wf, calls)
      ensures kicks == old(kicks)
        + if NeedsKick(wf, calls) then 1 else 0
    {
      if !wf.enabled || wf.trigger.triggerType.Other? {
        if calls.indexOk {
          index := index - {wf.id};
        }
        return;
      }
      if !calls.meOk {
        return;
      }
      var entry := TriggerIndexEntry(wf.id, user, wf.trigger.triggerType, "", "", "", "", "");
      if wf.trigger.triggerType.Schedule? {
        entry := entry.(schedule := wf.trigger.schedule);
      }
      if wf.trigger.triggerType.Event? && wf.trigger.event.Some? {
        entry := entry.(eventType := wf.trigger.event.value.eventType);
        if wf.trigger.event.value.filters.Some? {
          var f := wf.trigger.event.value.filters.value;
          entry := entry.(pathPrefix := f.pathPrefix, extension := f.extension, spaceID := f.spaceID);
        }
      }
      if !calls.indexOk {
        return;
      }
      index := index[wf.id := entry];
      if entry.triggerType.Event? {
        kicks := kicks + 1;
      }
    }

    /** The definition that Create builds. */
    static method Fresh(id: string, now: string, patch: WorkflowPatch) returns (wf: Workflow)
      ensures wf
           == Merged(Workflow(id, "", "", false, WorkflowTrigger(Other("manual"), "", None), "", now, now), patch, now)
    {
      wf := Workflow(id, if patch.name.Some? then patch.name.value else "", "",
                     patch.enabled.Some? && patch.enabled.value, WorkflowTrigger(Other("manual"), "", None), "", now, now);
      if patch.description.Some? {
        wf := wf.(description := patch.description.value);
      }
      if patch.trigger.Some? {
        wf := wf.(trigger := patch.trigger.value);
      }
      if patch.graph.Some? {
        wf := wf.(graph := patch.graph.value);
      }
    }

    method Create(user: string, id: string, now: string, patch: WorkflowPatch, calls: Calls) returns (reply: Reply)
      modifies this
      ensures View() == After(old(View()), Request.Create(user, id, now, patch, calls))
      ensures reply.Created? <==> Writes(old(View()), Request.Create(user, id, now, patch, calls)) && calls.write.Done?
      ensures reply.Created? ==> Lookup(store, (user, id)) == Some(reply.wf)
      ensures reply.BadRequest? <==> patch.name.None? || patch.name == Some("")
      ensures reply.Created? || reply.BadRequest? || reply.Unavailable?
      ensures kicks == old(kicks) + if reply.Created? && NeedsKick(reply.wf, calls) then 1 else 0
    {
      if patch.name.None? || patch.name.value == "" {
        return BadRequest;
      }
      var wf := Fresh(id, now, patch);
      if !calls.write.Refused? {
        store := store[(user, id) := wf];
      }
      if !calls.write.Done? {
        return Unavailable;
      }
      SyncTriggerIndex(user, wf, calls);
      return Created(wf);
    }

    /** The field-by-field part of Patch. */
    static method Merge(wf: Workflow, patch: WorkflowPatch, now: string) returns (existing: Workflow)
      ensures existing == Merged(wf, patch, now)
    {
      existing := wf;
      if patch.name.Some? {
        existing := existing.(name := patch.name.value);
      }
      if patch.description.Some? {
        existing := existing.(description := patch.description.value);
      }
      if patch.enabled.Some? {
        existing := existing.(enabled := patch.enabled.value);
      }
      if patch.trigger.Some? {
        existing := existing.(trigger := patch.trigger.value);
      }
      if patch.graph.Some? {
        existing := existing.(graph := patch.graph.value);
      }
      existing := existing.(lastModified := now);
    }

    method Patch(user: string, id: string, now: string, patch: WorkflowPatch, calls: Calls) returns (reply: Reply)
      requires (user, id) in store ==> store[(user, id)].id == id
      modifies this
      ensures View() == After(old(View()), Request.Patch(user, id, now, patch, calls))
      ensures reply.Ok? <==> Writes(old(View()), Request.Patch(user, id, now, patch, calls)) && calls.write.Done?
      ensures reply.Ok? ==> Lookup(store, (user, id)) == Some(reply.wf)
      ensures reply.NotFound? <==> calls.readOk && (user, id) !in old(store)
      ensures reply.Ok? || reply.NotFound? || reply.Unavailable?
      ensures kicks == old(kicks) + if reply.Ok? && NeedsKick(reply.wf, calls) then 1 else 0
    {
      if !calls.readOk {
        return Unavailable;
      }
      if (user, id) !in store {
        return NotFound;
      }
      var existing := Merge(store[(user, id)], patch, now);
      if !calls.write.Refused? {
        store := store[(user, id) := existing];
      }
      if !calls.write.Done? {
        return Unavailable;
      }
      SyncTriggerIndex(user, existing, calls);
      return Ok(existing);
    }

    method Delete(user: string, id: string, calls: Calls) returns (reply: Reply)
      modifies this
      ensures View() == After(old(View()), Request.Delete(user, id, calls))
      ensures reply.NoContent? <==> Writes(old(View()), Request.Delete(user, id, calls)) && calls.write.Done?
      ensures reply.NotFound? <==> calls.write.Done? && (user, id) !in old(store)
      ensures reply.NoContent? || reply.NotFound? || reply.Unavailable?
      ensures kicks == old(kicks)
    {
      if calls.write.Refused? {
        return Unavailable;
      }
      if (user, id) !in store {
        return if calls.write.Done? then NotFound else Unavailable;
      }
      store := store - {(user, id)};
      if !calls.write.Done? {
        return Unavailable;
      }
      if calls.indexOk {
        index := index - {id};
      }
      return NoContent;
    }

    /** One row after another, in whatever order the table yields them. */
    method ListTriggers(triggerType: TriggerType) returns (rows: seq<TriggerIndexEntry>)
      requires forall id :: id in index ==> index[id].workflowID == id
      ensures IsListing(index, triggerType, rows)
    {
      rows := [];
      var left := index.Keys;
      while left != {}
        invariant left <= index.Keys
        invariant forall e ::
          e in rows <==> exists id :: id in index && id !in left && index[id] == e && e.triggerType == triggerType
        invariant forall j, k :: 0 <= j < k < |rows| ==> rows[j].workflowID != rows[k].workflowID
        decreases left
      {
        var id :| id in left;
        left := left - {id};
        if index[id].triggerType == triggerType {
          rows := rows + [index[id]];
        }
      }
    }
  }
}

/**
 The manager that keeps one SSE consumer per user with an event trigger. First the manager
 object: an `active` map changed under a lock, ids that are never reused, and a kick channel
 with one slot. Then the whole protocol as a machine whose steps are the manager's critical
 sections, the consumers' own steps, index writes and kicks, in any interleaving.
 */
module SseManager {
  import opened Wrappers
  import opened EventMatching

  /** How far a consumer goroutine has come. GivingUp: its credential lookup failed. */
  datatype Phase = Starting | GivingUp | Working | Exited

  /** `cancelled` says whether the consumer's own context was cancelled by the manager. */
  datatype Consumer = Consumer(user: string, cancelled: bool, phase: Phase)

  /** The manager's map and id counter, together with every consumer it has started. */
  datatype Registry = Registry(active: map<string, nat>, nextID: nat, consumers: map<nat, Consumer>)

  /** Entries point at consumers of that user, whose ids have been handed out and not cancelled. */
  predicate WellKept(r: Registry) {
    && (forall id :: id in r.consumers ==> 0 < id <= r.nextID)
    && (forall u :: u in r.active ==>
          r.active[u] in r.consumers && r.consumers[r.active[u]].user == u && !r.consumers[r.active[u]].cancelled)
    && (forall id :: id in r.consumers && !r.consumers[id].cancelled && !r.consumers[id].phase.Exited? ==>
          r.consumers[id].user in r.active && r.active[r.consumers[id].user] == id)
  }

  /** The users named by a list of event triggers. */
  function Users(entries: seq<TriggerIndexEntry>): set<string> {
    set e | e in entries :: e.userID
  }

  /** Cancels the user's consumer and removes the user's entry. */
  function CancelOne(r: Registry, user: string): Registry {
    if user in r.active && r.active[user] in r.consumers then
      var id := r.active[user];
      r.(active := r.active - {user}, consumers := r.consumers[id := r.consumers[id].(cancelled := true)])
    else r
  }

  /** Takes the next id, enters it for the user and starts the consumer. */
  function LaunchOne(r: Registry, user: string): Registry {
    var id := r.nextID + 1;
    Registry(r.active[user := id], id, r.consumers[id := Consumer(user, false, Starting)])
  }

  function CancelEach(r: Registry, users: seq<string>): Registry {
    if users == [] then r else CancelOne(CancelEach(r, users[..|users| - 1]), users[|users| - 1])
  }

  function LaunchEach(r: Registry, users: seq<string>): Registry {
    if users == [] then r else LaunchOne(LaunchEach(r, users[..|users| - 1]), users[|users| - 1])
  }

  /** What one reconcile over the snapshot `wanted` does; Go's map order decides `drops` and `adds`. */
  ghost predicate Reconciled(before: Registry, after: Registry, wanted: set<string>) {
    exists drops, adds ::
      && Lists(drops, before.active.Keys - wanted)
      && Lists(adds, wanted - before.active.Keys)
      && after == LaunchEach(CancelEach(before, drops), adds)
  }

  function Deactivated(r: Registry, user: string, id: nat): Registry {
    if user in r.active && r.active[user] == id then r.(active := r.active - {user}) else r
  }

  // ---- the manager object --------------------------------------------------------------------

  class Manager {
    var active: map<string, nat>
    var nextID: nat
    var consumers: map<nat, Consumer>
    var kick: bool

    ghost function View(): Registry
      reads this
    {
      Registry(active, nextID, consumers)
    }

    constructor ()
      ensures View() == Registry(map[], 0, map[]) && !kick
    {
      active, nextID, consumers, kick := map[], 0, map[], false;
    }

    /** A send that is skipped when the slot is taken: either way a token is there afterwards. */
    method Kick()
      modifies this`kick
      ensures kick
    {
      if !kick {
        kick := true;
      }
    }

    /** `entries` is None when the trigger index could not be read. */
    method Reconcile(entries: Option<seq<TriggerIndexEntry>>)
      requires WellKept(View())
      modifies this`active, this`nextID, this`consumers
      ensures WellKept(View())
      ensures entries.None? ==> View() == old(View())
      ensures entries.Some? ==> Reconciled(old(View()), View(), Users(entries.value))
    {
      if entries.None? {
        return;
      }
      var wanted: set<string> := {};
      for i := 0 to |entries.value|
        invariant wanted == Users(entries.value[..i])
      {
        wanted := wanted + {entries.value[i].userID};
        assert entries.value[..i + 1] == entries.value[..i] + [entries.value[i]];
        assert entries.value[i] in entries.value[..i + 1];
      }
      assert entries.value[..|entries.value|] == entries.value;

      ghost var before := View();
      ghost var drops := CancelAll(active.Keys - wanted);
      DropsLeaveWanted(before, drops, wanted);
      ghost var mid := View();
      ghost var adds := LaunchAll(wanted - active.Keys);
      AddsAreFresh(mid, adds, wanted);
      LaunchEachKeeps(mid, adds);
      assert Lists(adds, wanted - before.active.Keys) && View() == LaunchEach(CancelEach(before, drops), adds);
    }

    method CancelAll(users: set<string>) returns (ghost order: seq<string>)
      requires WellKept(View()) && users <= active.Keys
      modifies this`active, this`consumers
      ensures Lists(order, users) && View() == CancelEach(old(View()), order)
    {
      order := [];
      var left := users;
      while left != {}
        invariant left <= users && left <= active.Keys && WellKept(View())
        invariant Lists(order, users - left) && View() == CancelEach(old(View()), order)
        decreases left
      {
        var user :| user in left;
        CancelKeeps(View(), user);
        OneMoreListed(order, users, left, user);
        CancelOneMore(old(View()), order, user);
        order, left := order + [user], left - {user};
        CancelUser(user);
      }
    }

    method CancelUser(user: string)
      requires WellKept(View()) && user in active
      modifies this`active, this`consumers
      ensures View() == CancelOne(old(View()), user) && active == old(active) - {user}
    {
      var id := active[user];
      consumers := consumers[id := consumers[id].(cancelled := true)];
      active := active - {user};
    }

    method LaunchAll(users: set<string>) returns (ghost order: seq<string>)
      modifies this`active, this`nextID, this`consumers
      ensures Lists(order, users) && View() == LaunchEach(old(View()), order)
    {
      order := [];
      var left := users;
      while left != {}
        invariant left <= users
        invariant Lists(order, users - left) && View() == LaunchEach(old(View()), order)
        decreases left
      {
        var user :| user in left;
        OneMoreListed(order, users, left, user);
        LaunchOneMore(old(View()), order, user);
        order, left := order + [user], left - {user};
        LaunchUser(user);
      }
    }

    method LaunchUser(user: string)
      modifies this`active, this`nextID, this`consumers
      ensures View() == LaunchOne(old(View()), user)
    {
      nextID := nextID + 1;
      active := active[user := nextID];
      consumers := consumers[nextID := Consumer(user, false, Starting)];
    }

    method StopAll()
      requires WellKept(View())
      modifies this`active, this`consumers
      ensures Stopped(old(View()), View())
    {
      ghost var before := View();
      ghost var order := CancelAll(active.Keys);
      CancelEachDrops(before, order);
    }

    method Deactivate(user: string, id: nat)
      modifies this`active
      ensures View() == Deactivated(old(View()), user, id)
    {
      if user in active && active[user] == id {
        active := active - {user};
      }
    }
  }

  // ---- what the loops add up to ------------------------------------------------------------

  ghost predicate Stopped(before: Registry, after: Registry) {
    exists order :: Lists(order, before.active.Keys) && after == CancelEach(before, order)
  }

  /** Taking one more user off those that are left. */
  lemma OneMoreListed(order: seq<string>, users: set<string>, left: set<string>, user: string)
    requires left <= users && user in left && Lists(order, users - left)
    ensures Lists(order + [user], users - (left - {user}))
  {
    ListsOneMore(order, users - left, user);
    assert users - left + {user} == users - (left - {user});
  }

  lemma CancelOneMore(r: Registry, order: seq<string>, user: string)
    ensures CancelEach(r, order + [user]) == CancelOne(CancelEach(r, order), user)
  {
    assert (order + [user])[..|order|] == order;
  }

  lemma LaunchOneMore(r: Registry, order: seq<string>, user: string)
    ensures LaunchEach(r, order + [user]) == LaunchOne(LaunchEach(r, order), user)
  {
    assert (order + [user])[..|order|] == order;
  }

  lemma CancelKeeps(r: Registry, user: string)
    requires WellKept(r)
    ensures WellKept(CancelOne(r, user))
  {
  }

  lemma LaunchKeeps(r: Registry, user: string)
    requires WellKept(r) && user !in r.active
    ensures WellKept(LaunchOne(r, user))
  {
  }

  /** `after` is `r` with the consumers of the listed users cancelled and their entries gone. */
  ghost predicate Dropped(r: Registry, order: seq<string>, after: Registry) {
    && after.nextID == r.nextID && after.consumers.Keys == r.consumers.Keys
    && (forall u :: u in after.active <==> u in r.active && u !in order)
    && (forall u :: u in after.active ==> after.active[u] == r.active[u])
    && (forall id :: id in r.consumers ==> after.consumers[id] == CancelledIfListed(r, order, id))
  }

  function CancelledIfListed(r: Registry, order: seq<string>, id: nat): Consumer
    requires id in r.consumers
  {
    var c := r.consumers[id];
    if Owns(r, id) && c.user in order then c.(cancelled := true) else c
  }

  lemma OneMoreCancel(r: Registry, order: seq<string>, mid: Registry, user: string)
    requires WellKept(r) && Dropped(r, order, mid)
    ensures Dropped(r, order + [user], CancelOne(mid, user))
  {
    assert forall u :: u in order + [user] <==> u in order || u == user;
  }

  lemma {:induction false} CancelEachDrops(r: Registry, order: seq<string>)
    requires WellKept(r)
    ensures WellKept(CancelEach(r, order)) && Dropped(r, order, CancelEach(r, order))
  {
    if order != [] {
      var n := |order| - 1;
      CancelEachDrops(r, order[..n]);
      var mid := CancelEach(r, order[..n]);
      CancelKeeps(mid, order[n]);
      OneMoreCancel(r, order[..n], mid, order[n]);
      assert order == order[..n] + [order[n]];
    }
  }

  predicate Owns(r: Registry, id: nat) {
    id in r.consumers && r.consumers[id].user in r.active && r.active[r.consumers[id].user] == id
  }

  predicate Fresh(r: Registry, order: seq<string>) {
    && (forall u :: u in order ==> u !in r.active)
    && (forall j, k :: 0 <= j < k < |order| ==> order[j] != order[k])
  }

  predicate Numbered(r: Registry) {
    forall id :: id in r.consumers ==> id <= r.nextID
  }

  /** `after` holds the entries of `r` and, under ids in launch order, those of the launched users. */
  ghost predicate Launched(r: Registry, order: seq<string>, after: Registry) {
    && after.nextID == r.nextID + |order|
    && (forall u :: u in after.active <==> u in r.active || u in order)
    && (forall u :: u in r.active ==> after.active[u] == r.active[u])
    && (forall k :: 0 <= k < |order| ==> after.active[order[k]] == r.nextID + 1 + k)
  }

  lemma OneMoreLaunch(r: Registry, order: seq<string>, mid: Registry, user: string)
    requires Launched(r, order, mid) && user !in order && user !in r.active
    ensures Launched(r, order + [user], LaunchOne(mid, user))
  {
    var after, longer := LaunchOne(mid, user), order + [user];
    forall k | 0 <= k < |longer| ensures after.active[longer[k]] == r.nextID + 1 + k {
      if k < |order| {
        assert longer[k] == order[k];
      }
    }
  }

  /** New ids are handed out in launch order; entries already there stay. */
  lemma {:induction false} LaunchEachActive(r: Registry, order: seq<string>)
    requires Fresh(r, order)
    ensures Launched(r, order, LaunchEach(r, order))
  {
    if order != [] {
      var n := |order| - 1;
      LaunchEachActive(r, order[..n]);
      OneMoreLaunch(r, order[..n], LaunchEach(r, order[..n]), order[n]);
      assert order == order[..n] + [order[n]];
    }
  }

  lemma {:induction false} LaunchEachConsumers(r: Registry, order: seq<string>)
    requires Numbered(r)
    ensures var after := LaunchEach(r, order);
      && after.nextID == r.nextID + |order| && Numbered(after)
      && (forall id :: id in r.consumers ==> id in after.consumers && after.consumers[id] == r.consumers[id])
      && (forall id :: id in after.consumers && id !in r.consumers ==>
            r.nextID < id <= after.nextID && after.consumers[id] == Consumer(order[id - r.nextID - 1], false, Starting))
  {
    if order != [] {
      LaunchEachConsumers(r, order[..|order| - 1]);
    }
  }

  lemma {:induction false} LaunchEachKeeps(r: Registry, order: seq<string>)
    requires WellKept(r) && Fresh(r, order)
    ensures WellKept(LaunchEach(r, order))
  {
    if order != [] {
      var n := |order| - 1;
      LaunchEachKeeps(r, order[..n]);
      LaunchEachActive(r, order[..n]);
      assert order[n] !in order[..n];
      LaunchKeeps(LaunchEach(r, order[..n]), order[n]);
    }
  }

  // ---- main results about one critical section --------------------------------------------

  lemma DropsLeaveWanted(before: Registry, drops: seq<string>, wanted: set<string>)
    requires WellKept(before) && Lists(drops, before.active.Keys - wanted)
    ensures var mid := CancelEach(before, drops);
      && WellKept(mid) && Dropped(before, drops, mid)
      && mid.active.Keys == before.active.Keys * wanted
      && wanted - mid.active.Keys == wanted - before.active.Keys
  {
    CancelEachDrops(before, drops);
  }

  lemma AddsAreFresh(mid: Registry, adds: seq<string>, wanted: set<string>)
    requires Lists(adds, wanted - mid.active.Keys)
    ensures Fresh(mid, adds) && forall u :: u in adds <==> u in wanted && u !in mid.active
  {
  }

  lemma InstalledActive(before: Registry, drops: seq<string>, adds: seq<string>, wanted: set<string>)
    requires WellKept(before)
    requires Lists(drops, before.active.Keys - wanted) && Lists(adds, wanted - before.active.Keys)
    ensures var after := LaunchEach(CancelEach(before, drops), adds);
      && WellKept(after) && after.active.Keys == wanted
      && (forall u :: u in wanted && u in before.active ==> after.active[u] == before.active[u])
      && (forall u :: u in wanted && u !in before.active ==> before.nextID < after.active[u])
  {
    var mid := CancelEach(before, drops);
    DropsLeaveWanted(before, drops, wanted);
    AddsAreFresh(mid, adds, wanted);
    LaunchEachKeeps(mid, adds);
    LaunchEachActive(mid, adds);
  }

  /**
   A consumer that owns its user's entry is cancelled when that user is no longer wanted; any other stays as
   it was.
   */
  predicate KeptOrCancelled(before: Registry, after: Registry, wanted: set<string>, id: nat)
    requires id in before.consumers
  {
    var c := before.consumers[id];
    && id in after.consumers
    && after.consumers[id] == if Owns(before, id) && c.user !in wanted then c.(cancelled := true) else c
  }

  predicate NewlyStarted(before: Registry, after: Registry, id: nat)
    requires id in after.consumers
  {
    before.nextID < id && after.consumers[id].phase.Starting? && !after.consumers[id].cancelled
  }

  lemma InstalledConsumers(before: Registry, drops: seq<string>, adds: seq<string>, wanted: set<string>)
    requires WellKept(before)
    requires Lists(drops, before.active.Keys - wanted) && Lists(adds, wanted - before.active.Keys)
    ensures var after := LaunchEach(CancelEach(before, drops), adds);
      && (forall id :: id in before.consumers ==> KeptOrCancelled(before, after, wanted, id))
      && (forall id :: id in after.consumers && id !in before.consumers ==> NewlyStarted(before, after, id))
  {
    var mid := CancelEach(before, drops);
    CancelEachDrops(before, drops);
    LaunchEachConsumers(mid, adds);
  }

  /**
   A reconcile leaves exactly the snapshot's users active. Users that stay keep their consumer
   and its id; users that are new get a consumer under an id never used before; the consumers
   of users that left, and no others, are cancelled.
   */
  lemma ReconcileInstallsSnapshot(before: Registry, after: Registry, wanted: set<string>)
    requires WellKept(before) && Reconciled(before, after, wanted)
    ensures WellKept(after) && after.active.Keys == wanted
    ensures forall u :: u in wanted && u in before.active ==> after.active[u] == before.active[u]
    ensures forall u :: u in wanted && u !in before.active ==> before.nextID < after.active[u]
    ensures forall id :: id in before.consumers ==> KeptOrCancelled(before, after, wanted, id)
    ensures forall id :: id in after.consumers && id !in before.consumers ==> NewlyStarted(before, after, id)
  {
    var drops, adds :|
      && Lists(drops, before.active.Keys - wanted)
      && Lists(adds, wanted - before.active.Keys)
      && after == LaunchEach(CancelEach(before, drops), adds);
    InstalledActive(before, drops, adds, wanted);
    InstalledConsumers(before, drops, adds, wanted);
  }

  /** In terms of the index: whoever has an event trigger in it has a consumer, and nobody else. */
  lemma ReconcileFollowsTheIndex(before: Registry, after: Registry, entries: seq<TriggerIndexEntry>, user: string)
    requires WellKept(before) && Reconciled(before, after, Users(entries))
    ensures user in after.active <==> exists e :: e in entries && e.userID == user
    ensures user in after.active ==>
      && after.active[user] in after.consumers
      && var c := after.consumers[after.active[user]]; c.user == user && !c.cancelled
    ensures user in before.active && user !in after.active ==>
      before.active[user] in after.consumers && after.consumers[before.active[user]].cancelled
  {
    ReconcileInstallsSnapshot(before, after, Users(entries));
  }

  /** The exit of a consumer that reconcile has already cancelled or replaced changes nothing. */
  lemma LateDeactivateIsHarmless(r: Registry, id: nat)
    requires WellKept(r) && id in r.consumers
    ensures r.consumers[id].cancelled ==> Deactivated(r, r.consumers[id].user, id) == r
    ensures !Owns(r, id) ==> Deactivated(r, r.consumers[id].user, id) == r
  {
  }
}

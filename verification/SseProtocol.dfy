/**
 The manager's goroutine, its consumers, and the handlers that write the trigger index and
 kick it, interleaved in any order. Each critical section under the manager's lock is one step.
 */
module SseProtocol {
  import opened SseManager
  import opened Wrappers

  /** Where the manager's goroutine is: in its select, about to read the index, or holding a snapshot. */
  datatype Loop =
    | Waiting
    | Reading
    | Holding(wanted: set<string>, version: nat)
    | Done

  /**
   `index` is the set of users with an event trigger, `version` counts writes to it.
   The last six fields are history: the newest version a Kick has spoken for, the version at
   the last wake-up, the snapshot installed last and its version, the users whose consumer has
   given up since, and whether the last read failed.
   */
  datatype State = State(
    registry: Registry,
    token: bool,
    loop: Loop,
    live: bool,
    index: set<string>,
    version: nat,
    kickedFor: nat,
    wokenAt: nat,
    snapshot: set<string>,
    installed: nat,
    gone: set<string>,
    readFailed: bool)

  datatype Step =
    | WriteIndex(users: set<string>)
    | Kick
    | WakeByTick
    | WakeByKick
    | Read(ok: bool)
    | Install
    | CancelParent
    | Shutdown
    | Lookup(id: nat, ok: bool)
    | GiveUp(id: nat)
    | Leave(id: nat)

  predicate Init(s: State) {
    && s.registry == Registry(map[], 0, map[]) && !s.token && s.live
    && s.loop == Reading && s.version == s.kickedFor == s.wokenAt == s.installed == 0
    && s.snapshot == s.gone == {} && s.readFailed
  }

  predicate InPhase(s: State, id: nat, phase: Phase) {
    id in s.registry.consumers && s.registry.consumers[id].phase == phase
  }

  function Move(r: Registry, id: nat, phase: Phase): Registry
    requires id in r.consumers
  {
    r.(consumers := r.consumers[id := r.consumers[id].(phase := phase)])
  }

  ghost predicate Next(s: State, s': State, step: Step) {
    match step
    case WriteIndex(users) => s' == s.(index := users, version := s.version + 1)
    case Kick => s' == s.(token := true, kickedFor := s.version)
    case WakeByTick => s.loop.Waiting? && s' == s.(loop := Reading, wokenAt := s.version)
    case WakeByKick => s.loop.Waiting? && s.token && s' == s.(loop := Reading, token := false, wokenAt := s.version)
    case Read(ok) =>
      s.loop.Reading? &&
      s' == if ok then s.(loop := Holding(s.index, s.version)) else s.(loop := Waiting, readFailed := true)
    case Install =>
      && s.loop.Holding?
      && Reconciled(s.registry, s'.registry, s.loop.wanted)
      && s' == s.(registry := s'.registry, loop := Waiting, snapshot := s.loop.wanted, installed := s.loop.version,
                  gone := {}, readFailed := false)
    case CancelParent => s' == s.(live := false)
    case Shutdown =>
      && s.loop.Waiting? && !s.live
      && Stopped(s.registry, s'.registry)
      && s' == s.(registry := s'.registry, loop := Done)
    case Lookup(id, ok) =>
      InPhase(s, id, Starting) && s' == s.(registry := Move(s.registry, id, if ok then Working else GivingUp))
    case GiveUp(id) =>
      InPhase(s, id, GivingUp) &&
      var user := s.registry.consumers[id].user;
      s' == s.(registry := Move(Deactivated(s.registry, user, id), id, Exited),
               gone := if Owns(s.registry, id) then s.gone + {user} else s.gone)
    case Leave(id) =>
      InPhase(s, id, Working) && (s.registry.consumers[id].cancelled || !s.live) &&
      s' == s.(registry := Move(s.registry, id, Exited))
  }

  ghost predicate IsRun(states: seq<State>, steps: seq<Step>) {
    && |states| == |steps| + 1
    && Init(states[0])
    && forall i :: 0 <= i < |steps| ==> Next(states[i], states[i + 1], steps[i])
  }

  // ---- the invariant -------------------------------------------------------------------------

  ghost predicate ConsumersInv(s: State) {
    && WellKept(s.registry)
    && (s.live ==> forall u :: u in s.registry.active ==> !s.registry.consumers[s.registry.active[u]].phase.Exited?)
    && (!s.loop.Done? ==> s.registry.active.Keys == s.snapshot - s.gone)
  }

  ghost predicate WakeInv(s: State) {
    && s.kickedFor <= s.version && s.wokenAt <= s.version && s.installed <= s.version
    && (s.token || s.kickedFor <= s.wokenAt)
    && (s.loop.Holding? ==> s.wokenAt <= s.loop.version <= s.version)
    && (s.loop.Holding? && s.loop.version == s.version ==> s.loop.wanted == s.index)
    && (s.loop.Waiting? && !s.readFailed ==> s.wokenAt <= s.installed)
    && (s.installed == s.version && !s.readFailed ==> s.snapshot == s.index)
  }

  lemma ReadKeepsWakeInv(s: State, s': State, step: Step)
    requires WakeInv(s) && Next(s, s', step) && (step.Read? || step.Install?)
    ensures WakeInv(s')
  {
  }

  lemma WriteKeepsWakeInv(s: State, s': State, step: Step)
    requires WakeInv(s) && Next(s, s', step) && (step.WriteIndex? || step.Kick? || step.WakeByTick? || step.WakeByKick?)
    ensures WakeInv(s')
  {
  }

  lemma OtherStepKeepsWakeInv(s: State, s': State, step: Step)
    requires WakeInv(s) && Next(s, s', step) && !step.Read? && !step.Install?
    requires !step.WriteIndex? && !step.Kick? && !step.WakeByTick? && !step.WakeByKick?
    ensures WakeInv(s')
  {
  }

  lemma StepKeepsWakeInv(s: State, s': State, step: Step)
    requires WakeInv(s) && Next(s, s', step)
    ensures WakeInv(s')
  {
    if step.Read? || step.Install? {
      ReadKeepsWakeInv(s, s', step);
    } else if step.WriteIndex? || step.Kick? || step.WakeByTick? || step.WakeByKick? {
      WriteKeepsWakeInv(s, s', step);
    } else {
      OtherStepKeepsWakeInv(s, s', step);
    }
  }

  lemma InstallKeepsConsumersInv(s: State, s': State)
    requires ConsumersInv(s) && Next(s, s', Install)
    ensures ConsumersInv(s')
  {
    ReconcileInstallsSnapshot(s.registry, s'.registry, s.loop.wanted);
  }

  lemma ShutdownKeepsConsumersInv(s: State, s': State)
    requires ConsumersInv(s) && Next(s, s', Shutdown)
    ensures ConsumersInv(s')
  {
    var order :| Lists(order, s.registry.active.Keys) && s'.registry == CancelEach(s.registry, order);
    CancelEachDrops(s.registry, order);
  }

  lemma LookupKeepsConsumersInv(s: State, s': State, id: nat, ok: bool)
    requires ConsumersInv(s) && Next(s, s', Lookup(id, ok))
    ensures ConsumersInv(s')
  {
  }

  lemma GiveUpKeepsConsumersInv(s: State, s': State, id: nat)
    requires ConsumersInv(s) && Next(s, s', GiveUp(id))
    ensures ConsumersInv(s')
  {
  }

  lemma LeaveKeepsConsumersInv(s: State, s': State, id: nat)
    requires ConsumersInv(s) && Next(s, s', Leave(id))
    ensures ConsumersInv(s')
  {
  }

  /** Every other step leaves the registry alone. */
  lemma OtherStepKeepsConsumersInv(s: State, s': State, step: Step)
    requires ConsumersInv(s) && Next(s, s', step)
    requires !step.Install? && !step.Shutdown? && !step.Lookup? && !step.GiveUp? && !step.Leave?
    ensures ConsumersInv(s')
  {
    assert s'.registry == s.registry && s'.snapshot == s.snapshot && s'.gone == s.gone;
    assert (s'.live ==> s.live) && (!s'.loop.Done? ==> !s.loop.Done?);
  }

  lemma StepKeepsConsumersInv(s: State, s': State, step: Step)
    requires ConsumersInv(s) && Next(s, s', step)
    ensures ConsumersInv(s')
  {
    match step
    case Install => InstallKeepsConsumersInv(s, s');
    case Shutdown => ShutdownKeepsConsumersInv(s, s');
    case Lookup(id, ok) => LookupKeepsConsumersInv(s, s', id, ok);
    case GiveUp(id) => GiveUpKeepsConsumersInv(s, s', id);
    case Leave(id) => LeaveKeepsConsumersInv(s, s', id);
    case _ => OtherStepKeepsConsumersInv(s, s', step);
  }

  lemma {:induction false} RunKeepsInv(states: seq<State>, steps: seq<Step>, i: nat)
    requires IsRun(states, steps) && i < |states|
    ensures ConsumersInv(states[i]) && WakeInv(states[i])
  {
    if i > 0 {
      RunKeepsInv(states, steps, i - 1);
      StepKeepsConsumersInv(states[i - 1], states[i], steps[i - 1]);
      StepKeepsWakeInv(states[i - 1], states[i], steps[i - 1]);
    }
  }

  // ---- main results ------------------------------------------------------------------------

  /** A consumer that has neither been cancelled nor finished. */
  predicate Running(s: State, id: nat) {
    id in s.registry.consumers && !s.registry.consumers[id].cancelled && !s.registry.consumers[id].phase.Exited?
  }

  function UserOf(s: State, id: nat): string
    requires id in s.registry.consumers
  {
    s.registry.consumers[id].user
  }

  predicate HoldsEntry(s: State, id: nat)
    requires id in s.registry.consumers
  {
    UserOf(s, id) in s.registry.active && s.registry.active[UserOf(s, id)] == id
  }

  predicate EntryIsHeld(s: State, user: string)
    requires user in s.registry.active
  {
    Running(s, s.registry.active[user]) && UserOf(s, s.registry.active[user]) == user
  }

  /**
   In every state of every run: a running consumer holds its user's entry under its own id, so
   there is at most one per user; and while the parent context is live, every entry belongs to
   a running consumer of that user.
   */
  lemma ConsumerLifecycle(states: seq<State>, steps: seq<Step>, i: nat)
    requires IsRun(states, steps) && i < |states|
    ensures forall id :: Running(states[i], id) ==> HoldsEntry(states[i], id)
    ensures forall x, y ::
      Running(states[i], x) && Running(states[i], y) && UserOf(states[i], x) == UserOf(states[i], y) ==> x == y
    ensures states[i].live ==> forall u :: u in states[i].registry.active ==> EntryIsHeld(states[i], u)
  {
    RunKeepsInv(states, steps, i);
  }

  /** A consumer that reconcile cancelled, or replaced, leaves every entry alone when it gives up late. */
  lemma LateGiveUpChangesNoEntry(states: seq<State>, steps: seq<Step>, i: nat)
    requires IsRun(states, steps) && i < |steps| && steps[i].GiveUp?
    requires !Running(states[i], steps[i].id) || !Owns(states[i].registry, steps[i].id)
    ensures states[i + 1].registry.active == states[i].registry.active
  {
    RunKeepsInv(states, steps, i);
    assert Next(states[i], states[i + 1], steps[i]);
    LateDeactivateIsHarmless(states[i].registry, steps[i].id);
  }

  /** No wake-up is lost: after a write and its Kick, a token waits or a reconcile has begun since. */
  lemma {:induction false} NoLostWakeup(states: seq<State>, steps: seq<Step>, i: nat, j: nat)
    requires IsRun(states, steps) && i < j < |states| && steps[i].Kick?
    ensures states[j].token || states[i].version <= states[j].wokenAt
  {
    RunKeepsInv(states, steps, j);
    KickedForGrows(states, steps, i + 1, j);
  }

  lemma {:induction false} KickedForGrows(states: seq<State>, steps: seq<Step>, i: nat, j: nat)
    requires IsRun(states, steps) && i <= j < |states|
    ensures states[i].kickedFor <= states[j].kickedFor
  {
    RunKeepsInv(states, steps, i);
    if i < j {
      RunKeepsInv(states, steps, j - 1);
      KickedForGrows(states, steps, i, j - 1);
    }
  }

  /**
   Hence the manager never comes to rest on an old index. If it waits with no token, its last
   read went through and every write has been kicked for, then the active users are exactly
   the users of the current index, less those whose consumer gave up since.
   */
  lemma AtRestTheIndexIsInstalled(states: seq<State>, steps: seq<Step>, i: nat)
    requires IsRun(states, steps) && i < |states|
    requires var s := states[i]; s.loop.Waiting? && !s.token && !s.readFailed && s.kickedFor == s.version
    ensures states[i].registry.active.Keys == states[i].index - states[i].gone
  {
    RunKeepsInv(states, steps, i);
  }

  lemma {:induction false} ShutdownClearsEntries(states: seq<State>, steps: seq<Step>, i: nat)
    requires IsRun(states, steps) && i < |states| && states[i].loop.Done?
    ensures states[i].registry.active == map[]
  {
    assert Next(states[i - 1], states[i], steps[i - 1]);
    if steps[i - 1].Shutdown? {
      RunKeepsInv(states, steps, i - 1);
      var before := states[i - 1].registry;
      var order :| Lists(order, before.active.Keys) && states[i].registry == CancelEach(before, order);
      CancelEachDrops(before, order);
    } else {
      ShutdownClearsEntries(states, steps, i - 1);
    }
  }

  /** After shutdown no entry is left, and every consumer has been cancelled, if it has not finished already. */
  lemma ShutdownLeavesNothing(states: seq<State>, steps: seq<Step>, i: nat)
    requires IsRun(states, steps) && i < |states| && states[i].loop.Done?
    ensures states[i].registry.active == map[]
    ensures forall id :: id in states[i].registry.consumers ==>
      states[i].registry.consumers[id].cancelled || states[i].registry.consumers[id].phase.Exited?
  {
    ShutdownClearsEntries(states, steps, i);
    RunKeepsInv(states, steps, i);
  }
}

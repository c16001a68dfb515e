/**
 Renewals, connects and disconnects of one user's credential, interleaved in any way. Each
 process stops, fails or crashes at any point; a call may also be carried out and reported as
 failed. Tokens are numbered in the order the server mints them.
 */
module RenewalProtocol {
  import opened Wrappers

  type Token = nat

  /** How far a process has come. */
  datatype Phase =
    | Listed(current: Token)                  // a renewal that has read the row
    | Minted(current: Token, newer: Token)    // ... and holds a replacement
    | Replaced(current: Token)                // ... and has stored it, but not revoked the old one
    | Granted(newer: Token)                   // a connect that holds a new token
    | Leaving(current: Token)                 // a disconnect that has read the row
    | Left                                    // ... and has dealt with the token

  /** `everStored` and `disowned` record history: tokens stored at some time, tokens a disconnect revoked. */
  datatype State = State(
    stored: Option<Token>,
    accepted: set<Token>,
    next: Token,
    processes: map<nat, Phase>,
    everStored: set<Token>,
    disowned: set<Token>)

  datatype Step =
    | List(p: nat)
    | Mint(p: nat)
    | MintUnheard(p: nat)
    | Store(p: nat)
    | StoreUnheard(p: nat)
    | Revoke(p: nat)
    | ConnectMint(p: nat)
    | ReadToLeave(p: nat)
    | RevokeToLeave(p: nat)
    | KeepToLeave(p: nat)
    | Delete(p: nat)
    | Stop(p: nat)

  const INITIAL := State(None, {}, 0, map[], {}, {})

  predicate Enabled(s: State, step: Step) {
    match step
    case List(p) => p !in s.processes && s.stored.Some?
    case Mint(p) => p in s.processes && s.processes[p].Listed?
    case MintUnheard(p) => p in s.processes && s.processes[p].Listed?
    case Store(p) => p in s.processes && (s.processes[p].Minted? || s.processes[p].Granted?)
    case StoreUnheard(p) => p in s.processes && (s.processes[p].Minted? || s.processes[p].Granted?)
    case Revoke(p) => p in s.processes && s.processes[p].Replaced?
    case ConnectMint(p) => p !in s.processes
    case ReadToLeave(p) => p !in s.processes && s.stored.Some?
    case RevokeToLeave(p) => p in s.processes && s.processes[p].Leaving?
    case KeepToLeave(p) => p in s.processes && s.processes[p].Leaving?
    case Delete(p) => p in s.processes && s.processes[p].Left?
    case Stop(p) => p in s.processes
  }

  function Grant(s: State): State {
    s.(accepted := s.accepted + {s.next}, next := s.next + 1)
  }

  function Put(s: State, t: Token): State {
    s.(stored := Some(t), everStored := s.everStored + {t})
  }

  function Move(s: State, p: nat, phase: Phase): State {
    s.(processes := s.processes[p := phase])
  }

  function End(s: State, p: nat): State {
    s.(processes := s.processes - {p})
  }

  function After(s: State, step: Step): State
    requires Enabled(s, step)
  {
    match step
    case List(p) => Move(s, p, Listed(s.stored.value))
    case Mint(p) => Move(Grant(s), p, Minted(s.processes[p].current, s.next))
    case MintUnheard(p) => End(Grant(s), p)
    case Store(p) =>
      var done := Put(s, s.processes[p].newer);
      if s.processes[p].Minted? then Move(done, p, Replaced(s.processes[p].current)) else End(done, p)
    case StoreUnheard(p) => End(Put(s, s.processes[p].newer), p)
    case Revoke(p) => End(s.(accepted := s.accepted - {s.processes[p].current}), p)
    case ConnectMint(p) => Move(Grant(s), p, Granted(s.next))
    case ReadToLeave(p) => Move(s, p, Leaving(s.stored.value))
    case RevokeToLeave(p) =>
      var t := s.processes[p].current;
      Move(s.(accepted := s.accepted - {t}, disowned := s.disowned + {t}), p, Left)
    case KeepToLeave(p) => Move(s, p, Left)
    case Delete(p) => End(s.(stored := None), p)
    case Stop(p) => End(s, p)
  }

  ghost predicate IsRun(states: seq<State>, steps: seq<Step>) {
    && |states| == |steps| + 1 && states[0] == INITIAL
    && forall i :: 0 <= i < |steps| ==> Goes(states, steps, i)
  }

  predicate Goes(states: seq<State>, steps: seq<Step>, i: nat)
    requires i < |steps| && |states| == |steps| + 1
  {
    Enabled(states[i], steps[i]) && states[i + 1] == After(states[i], steps[i])
  }

  // ---- what every step keeps ---------------------------------------------------------------------------

  /** Only minted tokens are about; only stored ones were disowned, and those are gone for good. */
  predicate TokensInv(s: State) {
    && (forall t :: t in s.accepted ==> t < s.next)
    && (forall t :: t in s.everStored ==> t < s.next)
    && (forall t :: t in s.disowned ==> t in s.everStored && t !in s.accepted)
    && (s.stored.Some? ==> s.stored.value in s.everStored)
  }

  predicate HoldsFresh(phase: Phase) {
    phase.Minted? || phase.Granted?
  }

  /** A process's old token was stored once; its new one never was; a replaced token is not the stored one. */
  predicate PhaseInv(s: State, phase: Phase) {
    match phase
    case Listed(current) => current in s.everStored
    case Minted(current, newer) => current in s.everStored && newer in s.accepted && newer !in s.everStored
    case Replaced(current) => current in s.everStored && s.stored != Some(current)
    case Granted(newer) => newer in s.accepted && newer !in s.everStored
    case Leaving(current) => current in s.everStored
    case Left => true
  }

  predicate PhasesInv(s: State) {
    forall p :: p in s.processes ==> PhaseInv(s, s.processes[p])
  }

  /** No two processes hold the same new token. */
  predicate ApartInv(s: State) {
    forall p, q ::
      p in s.processes && q in s.processes && p != q && HoldsFresh(s.processes[p]) && HoldsFresh(s.processes[q])
      ==> s.processes[p].newer != s.processes[q].newer
  }

  predicate StoredInv(s: State) {
    s.stored.Some? ==> s.stored.value in s.accepted || s.stored.value in s.disowned
  }

  predicate Inv(s: State) {
    TokensInv(s) && PhasesInv(s) && ApartInv(s) && StoredInv(s)
  }

  lemma StepKeepsTokens(s: State, step: Step)
    requires Inv(s) && Enabled(s, step)
    ensures TokensInv(After(s, step)) && StoredInv(After(s, step))
  {
  }

  lemma StepKeepsPhases(s: State, step: Step)
    requires Inv(s) && Enabled(s, step)
    ensures PhasesInv(After(s, step))
  {
  }

  lemma StepKeepsApart(s: State, step: Step)
    requires TokensInv(s) && PhasesInv(s) && ApartInv(s) && Enabled(s, step)
    ensures ApartInv(After(s, step))
  {
  }

  lemma StepKeepsInv(s: State, step: Step)
    requires Inv(s) && Enabled(s, step)
    ensures Inv(After(s, step))
  {
    StepKeepsTokens(s, step);
    StepKeepsPhases(s, step);
    StepKeepsApart(s, step);
  }

  lemma {:induction false} RunKeepsInv(states: seq<State>, steps: seq<Step>, i: nat)
    requires IsRun(states, steps) && i < |states|
    ensures Inv(states[i])
  {
    if i > 0 {
      RunKeepsInv(states, steps, i - 1);
      assert Goes(states, steps, i - 1);
      StepKeepsInv(states[i - 1], steps[i - 1]);
    }
  }

  // ---- main results ------------------------------------------------------------------------------------

  /**
   Renewal is crash-safe: at every point of every interleaving, the server accepts the stored
   token - if and only if no disconnect has revoked it.
   */
  lemma StoredTokenIsAccepted(states: seq<State>, steps: seq<Step>, i: nat)
    requires IsRun(states, steps) && i < |states| && states[i].stored.Some?
    ensures states[i].stored.value in states[i].accepted <==> states[i].stored.value !in states[i].disowned
  {
    RunKeepsInv(states, steps, i);
  }

  /** In particular, without a disconnect's revocation it always does. */
  lemma {:induction false} WithoutDisconnectsAlwaysAccepted(states: seq<State>, steps: seq<Step>, i: nat)
    requires IsRun(states, steps) && i < |states|
    requires forall j :: 0 <= j < |steps| ==> !steps[j].RevokeToLeave?
    ensures states[i].disowned == {} && (states[i].stored.Some? ==> states[i].stored.value in states[i].accepted)
  {
    if i > 0 {
      WithoutDisconnectsAlwaysAccepted(states, steps, i - 1);
      assert Goes(states, steps, i - 1);
    }
    if states[i].stored.Some? {
      StoredTokenIsAccepted(states, steps, i);
    }
  }

  /** A disconnect whose delete fails leaves a token behind that the server no longer accepts. */
  lemma FailedDisconnectLeavesARevokedToken() returns (states: seq<State>, steps: seq<Step>)
    ensures IsRun(states, steps) && states[|steps|].processes == map[]
    ensures states[|steps|].stored.Some? && states[|steps|].stored.value !in states[|steps|].accepted
  {
    steps := [ConnectMint(0), Store(0), ReadToLeave(1), RevokeToLeave(1), Stop(1)];
    var s1 := After(INITIAL, steps[0]);
    var s2 := After(s1, steps[1]);
    var s3 := After(s2, steps[2]);
    var s4 := After(s3, steps[3]);
    states := [INITIAL, s1, s2, s3, s4, After(s4, steps[4])];
    forall i | 0 <= i < |steps| ensures Goes(states, steps, i) {
      assert i == 0 || i == 1 || i == 2 || i == 3 || i == 4;
    }
  }
}

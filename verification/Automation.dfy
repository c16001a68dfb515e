/**
 The automation service: connecting, disconnecting and renewing stored app-passwords. Every
 external call is a parameter that says how it ended; the server's tokens are part of the state.
 */
module Automation {
  import opened Clock
  import opened Wrappers
  import opened CredentialExpiry
  import P = RenewalProtocol
  import R = ReconcilePass

  type Token = P.Token

  datatype Credential = Credential(username: string, token: Token, expiresAt: Time, connectedAt: Time)

  /** The stored rows by user; the tokens the server accepts, and the next one it will mint. */
  datatype World = World(rows: map<string, Credential>, accepted: set<Token>, next: Token)

  datatype Minting = NotMinted | MintedUnheard | Minted(expiresAt: Time)
  datatype Storing = NotStored | StoredUnheard | StoredFine

  datatype RenewCalls = RenewCalls(minting: Minting, storing: Storing, revoked: bool)

  /** The database keeps whole seconds. */
  function Rounded(t: Time): Time {
    t / SECOND * SECOND
  }

  // ---- renewing one row ----------------------------------------------------------------------------

  function AfterMinting(w: World, m: Minting): World {
    if m.NotMinted? then w else w.(accepted := w.accepted + {w.next}, next := w.next + 1)
  }

  /** Does this renewal put a new credential in the row? */
  predicate Renews(c: RenewCalls) {
    c.minting.Minted? && !c.storing.NotStored?
  }

  function AfterRenewal(w: World, userID: string, a: Credential, c: RenewCalls): World {
    var minted := AfterMinting(w, c.minting);
    if !Renews(c) then minted
    else
      var renewed := a.(token := w.next, expiresAt := Rounded(c.minting.expiresAt));
      var stored := minted.(rows := minted.rows[userID := renewed]);
      if c.storing.StoredFine? && c.revoked then stored.(accepted := stored.accepted - {a.token}) else stored
  }

  /** The sweep goes through the rows as they were listed at its start. */
  function AfterSweep(w: World, listed: map<string, Credential>, users: seq<string>, now: Time,
                      calls: string -> RenewCalls): World
    requires forall u :: u in users ==> u in listed
  {
    if users == [] then w
    else
      var before, user := AfterSweep(w, listed, users[..|users| - 1], now, calls), users[|users| - 1];
      if Due(listed[user].expiresAt, now) then AfterRenewal(before, user, listed[user], calls(user)) else before
  }

  // ---- connecting and disconnecting ------------------------------------------------------------------

  datatype ConnectCalls = ConnectCalls(me: Option<string>, username: Option<string>, minting: Minting, storing: Storing)

  predicate Connects(c: ConnectCalls) {
    c.me.Some? && c.username.Some? && c.minting.Minted? && !c.storing.NotStored?
  }

  function AfterConnect(w: World, c: ConnectCalls, now: Time): World {
    if c.me.None? || c.username.None? then w
    else if !Connects(c) then AfterMinting(w, c.minting)
    else
      AfterMinting(w, c.minting).(rows := w.rows[c.me.value :=
        Credential(c.username.value, w.next, Rounded(c.minting.expiresAt), Rounded(now))])
  }

  datatype DisconnectCalls = DisconnectCalls(me: Option<string>, readOk: bool, revoked: bool, deleteOk: bool,
                                             cursorsOk: bool)

  function AfterDisconnect(w: World, c: DisconnectCalls): World {
    if c.me.None? || !c.readOk || c.me.value !in w.rows then w
    else
      var user := c.me.value;
      World(if c.deleteOk then w.rows - {user} else w.rows,
            if c.revoked then w.accepted - {w.rows[user].token} else w.accepted,
            w.next)
  }

  datatype Report = NotConnected | Connected(expiresAt: Time, reliability: Option<R.Status>)

  function StatusOf(row: Option<Credential>, now: Time, reliability: Option<R.Status>): Report {
    if row.None? || row.value.expiresAt < now then NotConnected else Connected(row.value.expiresAt, reliability)
  }

  function WithoutUser(cursors: map<(string, string), R.Status>, userID: string): map<(string, string), R.Status> {
    map k | k in cursors && k.0 != userID :: cursors[k]
  }

  /** "sse-only" as soon as one of the user's drives is. */
  predicate Degraded(cursors: map<(string, string), R.Status>, userID: string) {
    exists k :: k in cursors && k.0 == userID && cursors[k].SseOnly?
  }

  class Service {
    var rows: map<string, Credential>
    var accepted: set<Token>
    var next: Token
    var cursors: map<(string, string), R.Status>
    var kicked: bool

    constructor ()
      ensures View() == World(map[], {}, 0) && cursors == map[] && !kicked
    {
      rows, accepted, next, cursors, kicked := map[], {}, 0, map[], false;
    }

    ghost function View(): World
      reads this
    {
      World(rows, accepted, next)
    }

    /** MintAppPassword: the server may mint without the caller hearing of it. */
    method Mint(m: Minting) returns (token: Option<Token>)
      modifies this`accepted, this`next
      ensures View() == AfterMinting(old(View()), m)
      ensures token == if m.Minted? then Some(old(next)) else None
    {
      token := if m.Minted? then Some(next) else None;
      if !m.NotMinted? {
        accepted, next := accepted + {next}, next + 1;
      }
    }

    method RenewOne(userID: string, a: Credential, c: RenewCalls)
      modifies this`rows, this`accepted, this`next
      ensures View() == AfterRenewal(old(View()), userID, a, c)
    {
      var token := Mint(c.minting);
      if token.None? {
        return;
      }
      if !c.storing.NotStored? {
        rows := rows[userID := Credential(a.username, token.value, Rounded(c.minting.expiresAt), a.connectedAt)];
      }
      if !c.storing.StoredFine? {
        return;
      }
      if c.revoked {
        accepted := accepted - {a.token};
      }
    }

    /** `users` is the order in which the rows are listed; None when they cannot be. */
    method RenewDue(now: Time, users: Option<seq<string>>, calls: string -> RenewCalls)
      requires users.Some? ==> forall u :: u in users.value ==> u in rows
      modifies this`rows, this`accepted, this`next
      ensures View() == if users.None? then old(View()) else AfterSweep(old(View()), old(rows), users.value, now, calls)
    {
      if users.None? {
        return;
      }
      var listed := rows;
      for i := 0 to |users.value|
        invariant View() == AfterSweep(old(View()), listed, users.value[..i], now, calls)
      {
        assert users.value[..i + 1][..i] == users.value[..i];
        var user := users.value[i];
        if listed[user].expiresAt - now > RENEWAL_WINDOW {
          continue;
        }
        RenewOne(user, listed[user], calls(user));
      }
      assert users.value[..|users.value|] == users.value;
    }

    method Connect(c: ConnectCalls, now: Time, answeredAt: Time) returns (report: Option<Report>)
      modifies this`rows, this`accepted, this`next, this`kicked
      ensures View() == AfterConnect(old(View()), c, now)
      ensures report.Some? <==> Connects(c) && c.storing.StoredFine?
      ensures kicked == (old(kicked) || report.Some?)
      ensures report.Some? ==>
        report.value == if c.minting.expiresAt >= answeredAt then Connected(c.minting.expiresAt, None) else NotConnected
      ensures report.Some? ==>
        rows == old(rows)[c.me.value :=
          Credential(c.username.value, old(next), Rounded(c.minting.expiresAt), Rounded(now))]
    {
      if c.me.None? || c.username.None? {
        return None;
      }
      var token := Mint(c.minting);
      if token.None? {
        return None;
      }
      if !c.storing.NotStored? {
        var a := Credential(c.username.value, token.value, Rounded(c.minting.expiresAt), Rounded(now));
        rows := rows[c.me.value := a];
      }
      if !c.storing.StoredFine? {
        return None;
      }
      kicked := true;
      return Some(if c.minting.expiresAt < answeredAt then NotConnected else Connected(c.minting.expiresAt, None));
    }

    method Disconnect(c: DisconnectCalls) returns (ok: bool)
      modifies this`rows, this`accepted, this`cursors
      ensures View() == AfterDisconnect(old(View()), c)
      ensures ok <==> c.me.Some? && c.readOk && (c.me.value in old(rows) ==> c.deleteOk && c.cursorsOk)
      ensures ok ==> c.me.value !in rows
      ensures cursors == if ok && c.me.value in old(rows) then WithoutUser(old(cursors), c.me.value) else old(cursors)
      ensures forall k ::
        Lookup(cursors, k) == if ok && k.0 == c.me.value && k.0 in old(rows) then None else Lookup(old(cursors), k)
    {
      if c.me.None? || !c.readOk {
        return false;
      }
      var user := c.me.value;
      if user !in rows {
        return true;
      }
      if c.revoked {
        accepted := accepted - {rows[user].token};
      }
      if !c.deleteOk {
        return false;
      }
      rows := rows - {user};
      if !c.cursorsOk {
        return false;
      }
      cursors := WithoutUser(cursors, user);
      return true;
    }

    /** A failed read of the cursors only leaves the reliability out. */
    method Status(userID: string, readOk: bool, cursorsOk: bool, now: Time) returns (report: Option<Report>)
      ensures report == if !readOk then None else Some(StatusOf(Lookup(rows, userID), now,
        if !cursorsOk then None else if Degraded(cursors, userID) then Some(R.SseOnly) else Some(R.Full)))
      ensures report.Some? <==> readOk
      ensures report.Some? && report.value.Connected? <==>
        readOk && userID in rows && Unexpired(rows[userID].expiresAt, now)
      ensures report.Some? && report.value.Connected? ==>
        && report.value.expiresAt == rows[userID].expiresAt
        && (report.value.reliability.Some? <==> cursorsOk)
        && (report.value.reliability == Some(R.SseOnly) <==>
              cursorsOk && exists drive :: Lookup(cursors, (userID, drive)) == Some(R.SseOnly))
    {
      if !readOk {
        return None;
      }
      if userID !in rows || rows[userID].expiresAt < now {
        return Some(NotConnected);
      }
      var reliability := None;
      if cursorsOk {
        var degraded := exists k :: k in cursors && k.0 == userID && cursors[k].SseOnly?;
        reliability := Some(if degraded then R.SseOnly else R.Full);
      }
      return Some(Connected(rows[userID].expiresAt, reliability));
    }
  }

  // ---- main results ----------------------------------------------------------------------------------

  /** Every stored token is accepted, and no two users share one. */
  predicate Sound(w: World) {
    && (forall u :: u in w.rows ==> w.rows[u].token in w.accepted)
    && (forall t :: t in w.accepted ==> t < w.next)
    && (forall u, v :: u in w.rows && v in w.rows && u != v ==> w.rows[u].token != w.rows[v].token)
  }

  lemma RenewalIsSound(w: World, userID: string, a: Credential, c: RenewCalls)
    requires Sound(w) && userID in w.rows && w.rows[userID] == a
    ensures Sound(AfterRenewal(w, userID, a, c))
  {
  }

  lemma ConnectIsSound(w: World, c: ConnectCalls, now: Time)
    requires Sound(w)
    ensures Sound(AfterConnect(w, c, now))
  {
  }

  predicate Distinct(users: seq<string>) {
    forall j, k :: 0 <= j < k < |users| ==> users[j] != users[k]
  }

  /** What a sweep makes of one user's row depends on that row and that user's calls alone. */
  predicate RowSwept(listed: Credential, row: Credential, now: Time, c: RenewCalls, firstNew: Token) {
    if Due(listed.expiresAt, now) && Renews(c) then
      row == listed.(token := row.token, expiresAt := Rounded(c.minting.expiresAt)) && firstNew <= row.token
    else row == listed
  }

  ghost predicate Swept(w: World, users: seq<string>, now: Time, calls: string -> RenewCalls, after: World) {
    && Sound(after) && after.rows.Keys == w.rows.Keys && w.next <= after.next
    && forall u :: u in w.rows ==>
         if u in users then RowSwept(w.rows[u], after.rows[u], now, calls(u), w.next)
         else after.rows[u] == w.rows[u]
  }

  lemma RenewalTouchesOneRow(w: World, user: string, now: Time, c: RenewCalls)
    requires user in w.rows && Due(w.rows[user].expiresAt, now)
    ensures var after := AfterRenewal(w, user, w.rows[user], c);
      && after.rows.Keys == w.rows.Keys && w.next <= after.next
      && RowSwept(w.rows[user], after.rows[user], now, c, w.next)
      && forall u :: u in w.rows && u != user ==> after.rows[u] == w.rows[u]
  {
  }

  lemma OneMoreRow(w: World, users: seq<string>, now: Time, calls: string -> RenewCalls, mid: World, user: string)
    requires user in w.rows && user !in users
    requires Swept(w, users, now, calls, mid)
    ensures Swept(w, users + [user], now, calls,
                  if Due(w.rows[user].expiresAt, now) then AfterRenewal(mid, user, w.rows[user], calls(user)) else mid)
  {
    if Due(w.rows[user].expiresAt, now) {
      RenewalIsSound(mid, user, w.rows[user], calls(user));
      RenewalTouchesOneRow(mid, user, now, calls(user));
    }
    assert forall u :: u in users + [user] <==> u in users || u == user;
  }

  /**
   A sweep over all rows, with calls failing in any pattern: every stored token is still
   accepted; rows that are due and could be renewed hold a new token and expiry, all others are
   as they were.
   */
  lemma {:induction false} SweepRenewsExactlyTheDueRows(w: World, users: seq<string>, now: Time,
                                                        calls: string -> RenewCalls)
    requires Sound(w) && Distinct(users) && forall u :: u in users ==> u in w.rows
    ensures Swept(w, users, now, calls, AfterSweep(w, w.rows, users, now, calls))
  {
    if users != [] {
      var n := |users| - 1;
      SweepRenewsExactlyTheDueRows(w, users[..n], now, calls);
      OneMoreRow(w, users[..n], now, calls, AfterSweep(w, w.rows, users[..n], now, calls), users[n]);
      assert users == users[..n] + [users[n]];
    }
  }

  /**
   Disconnecting keeps everybody else's credentials sound; only a delete that fails after the revocation is
   unsound.
   */
  lemma DisconnectIsSoundExactlyWhen(w: World, c: DisconnectCalls)
    requires Sound(w)
    ensures Sound(AfterDisconnect(w, c)) <==>
      !(c.me.Some? && c.readOk && c.me.value in w.rows && c.revoked && !c.deleteOk)
  {
    if c.me.Some? && c.readOk && c.me.value in w.rows && c.revoked && !c.deleteOk {
      assert AfterDisconnect(w, c).rows[c.me.value].token !in AfterDisconnect(w, c).accepted;
    }
  }

  /** A connect stores the minted credential under the caller, if it gets that far, and touches nobody else's. */
  lemma ConnectTouchesOneUser(w: World, c: ConnectCalls, now: Time)
    requires Sound(w)
    ensures var after := AfterConnect(w, c, now);
      && (forall u :: Some(u) != c.me ==> Lookup(after.rows, u) == Lookup(w.rows, u))
      && (forall t :: t in w.accepted ==> t in after.accepted)
      && if c.me.Some? && c.username.Some? && c.minting.Minted? && !c.storing.NotStored? then
           && c.me.value in after.rows
           && var row := after.rows[c.me.value];
              && row.username == c.username.value && row.token !in w.accepted && row.token in after.accepted
              && row.expiresAt <= c.minting.expiresAt < row.expiresAt + SECOND
              && row.connectedAt <= now < row.connectedAt + SECOND
         else after.rows == w.rows
  {
    RoundedDown(now);
    if c.minting.Minted? {
      RoundedDown(c.minting.expiresAt);
    }
  }

  lemma RoundedDown(t: Time)
    ensures Rounded(t) <= t < Rounded(t) + SECOND
  {
  }

  /** A disconnect removes the caller's row and revokes its token, as far as its calls go, and touches nobody else's. */
  lemma DisconnectTouchesOneUser(w: World, c: DisconnectCalls)
    requires Sound(w)
    ensures var after := AfterDisconnect(w, c);
      && after.next == w.next
      && (forall u :: Some(u) != c.me ==> Lookup(after.rows, u) == Lookup(w.rows, u))
      && (forall u :: u in w.rows && Some(u) != c.me ==> w.rows[u].token in after.accepted)
      && if c.me.Some? && c.readOk && c.me.value in w.rows then
           && (c.me.value in after.rows <==> !c.deleteOk)
           && (w.rows[c.me.value].token in after.accepted <==> !c.revoked)
         else after == w
  {
  }

  // ---- every operation is a path through the interleaved protocol -----------------------------------

  /** One user's part of the world, as the protocol sees it. */
  predicate Shows(w: World, userID: string, s: P.State) {
    && s.accepted == w.accepted && s.next == w.next
    && s.stored == if userID in w.rows then Some(w.rows[userID].token) else None
  }

  /** Where the steps lead, if each is possible in its turn. */
  function Path(s: P.State, steps: seq<P.Step>): Option<P.State>
    decreases steps
  {
    if steps == [] then Some(s)
    else if P.Enabled(s, steps[0]) then Path(P.After(s, steps[0]), steps[1..])
    else None
  }

  lemma PathOfOne(s: P.State, one: P.Step)
    requires P.Enabled(s, one)
    ensures Path(s, [one]) == Some(P.After(s, one))
  {
    assert [one][1..] == [];
  }

  lemma PathOfTwo(s: P.State, one: P.Step, two: P.Step)
    requires P.Enabled(s, one) && P.Enabled(P.After(s, one), two)
    ensures Path(s, [one, two]) == Some(P.After(P.After(s, one), two))
  {
    assert [one, two][1..] == [two];
    PathOfOne(P.After(s, one), two);
  }

  lemma PathOfThree(s: P.State, one: P.Step, two: P.Step, three: P.Step)
    requires P.Enabled(s, one) && P.Enabled(P.After(s, one), two) && P.Enabled(P.After(P.After(s, one), two), three)
    ensures Path(s, [one, two, three]) == Some(P.After(P.After(P.After(s, one), two), three))
  {
    assert [one, two, three][1..] == [two, three];
    PathOfTwo(P.After(s, one), two, three);
  }

  function RenewalSteps(p: nat, c: RenewCalls): seq<P.Step> {
    match c.minting
    case NotMinted => [P.Stop(p)]
    case MintedUnheard => [P.MintUnheard(p)]
    case Minted(_) =>
      match c.storing
      case NotStored => [P.Mint(p), P.Stop(p)]
      case StoredUnheard => [P.Mint(p), P.StoreUnheard(p)]
      case StoredFine => [P.Mint(p), P.Store(p), if c.revoked then P.Revoke(p) else P.Stop(p)]
  }

  /** renewOne, whatever its calls answer, takes the steps of the protocol, in this order. */
  lemma RenewalIsAPath(w: World, userID: string, a: Credential, c: RenewCalls, s: P.State, p: nat)
    requires Shows(w, userID, s) && p in s.processes && s.processes[p] == P.Listed(a.token)
    ensures var end := Path(s, RenewalSteps(p, c));
      end.Some? && Shows(AfterRenewal(w, userID, a, c), userID, end.value)
  {
    match c.minting {
      case NotMinted => PathOfOne(s, P.Stop(p));
      case MintedUnheard => PathOfOne(s, P.MintUnheard(p));
      case Minted(_) =>
        match c.storing {
          case NotStored => PathOfTwo(s, P.Mint(p), P.Stop(p));
          case StoredUnheard => PathOfTwo(s, P.Mint(p), P.StoreUnheard(p));
          case StoredFine => PathOfThree(s, P.Mint(p), P.Store(p), if c.revoked then P.Revoke(p) else P.Stop(p));
        }
    }
  }

  function ConnectSteps(p: nat, c: ConnectCalls): seq<P.Step> {
    if c.me.None? || c.username.None? || c.minting.NotMinted? then []
    else [P.ConnectMint(p),
          if !Connects(c) then P.Stop(p) else if c.storing.StoredUnheard? then P.StoreUnheard(p) else P.Store(p)]
  }

  /** So does Connect. */
  lemma ConnectIsAPath(w: World, userID: string, c: ConnectCalls, now: Time, s: P.State, p: nat)
    requires Shows(w, userID, s) && p !in s.processes && (c.me.Some? ==> c.me.value == userID)
    ensures var end := Path(s, ConnectSteps(p, c));
      end.Some? && Shows(AfterConnect(w, c, now), userID, end.value)
  {
    if !(c.me.None? || c.username.None? || c.minting.NotMinted?) {
      PathOfTwo(s, P.ConnectMint(p),
                if !Connects(c) then P.Stop(p) else if c.storing.StoredUnheard? then P.StoreUnheard(p) else P.Store(p));
    }
  }

  function DisconnectSteps(w: World, p: nat, c: DisconnectCalls): seq<P.Step> {
    if c.me.None? || !c.readOk || c.me.value !in w.rows then []
    else [P.ReadToLeave(p),
          if c.revoked then P.RevokeToLeave(p) else P.KeepToLeave(p),
          if c.deleteOk then P.Delete(p) else P.Stop(p)]
  }

  /** And Disconnect. */
  lemma DisconnectIsAPath(w: World, userID: string, c: DisconnectCalls, s: P.State, p: nat)
    requires Shows(w, userID, s) && p !in s.processes && (c.me.Some? ==> c.me.value == userID)
    ensures var end := Path(s, DisconnectSteps(w, p, c));
      end.Some? && Shows(AfterDisconnect(w, c), userID, end.value)
  {
    if !(c.me.None? || !c.readOk || c.me.value !in w.rows) {
      PathOfThree(s, P.ReadToLeave(p), if c.revoked then P.RevokeToLeave(p) else P.KeepToLeave(p),
                  if c.deleteOk then P.Delete(p) else P.Stop(p));
    }
  }
}

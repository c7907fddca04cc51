/**
 * Connecting the workspace calendar: one row per workspace holding at most one
 * pending connect, consumed by the first callback that presents its nonce.
 */
module Calendar {
  import opened Prelude

  type Id = nat

  /** What is stored for a nonce. SHA-256 is taken to have no collisions. */
  datatype Hash = Sha256(nonce: nat)

  datatype Pending = Pending(hash: Hash, user: Id, verifier: nat, expiresAt: int)

  datatype Status = Disconnected | Connected

  datatype Row = Row(
    status: Status, account: Option<string>, token: Option<nat>, connectedBy: Option<Id>, pending: Option<Pending>)

  const STATE_TTL_MS := 10 * 60_000

  /** What a callback learns when it tries to take the pending connect. */
  datatype Taken = NothingPending | Mismatch | Match(user: Id, verifier: nat, live: bool)

  type Table = map<Id, Row>

  /** A second start overwrites the first; starting is not being connected. */
  function BeginConnect(t: Table, org: Id, p: Pending): Table {
    if org in t then t[org := t[org].(pending := Some(p))]
    else t[org := Row(Disconnected, None, None, None, Some(p))]
  }

  function TakePending(t: Table, org: Id, hash: Hash, now: int): (Table, Taken) {
    if org !in t || t[org].pending.None? then (t, NothingPending)
    else
      var p := t[org].pending.value;
      if p.hash != hash then (t, Mismatch)
      else (t[org := t[org].(pending := None)], Match(p.user, p.verifier, p.expiresAt > now))
  }

  function SaveConnected(t: Table, org: Id, account: Option<string>, token: nat, user: Id): Table {
    var pending := if org in t then t[org].pending else None;
    t[org := Row(Connected, account, Some(token), Some(user), pending)]
  }

  /** Forget the grant and any pending connect; a workspace that never connected gets no row. */
  function Disconnect(t: Table, org: Id): Table {
    if org !in t then t
    else t[org := t[org].(status := Disconnected, account := None, token := None, pending := None)]
  }

  class Repository {
    var rows: Table

    method Begin(org: Id, p: Pending)
      modifies this
      ensures rows == BeginConnect(old(rows), org, p)
    {
      if org in rows {
        rows := rows[org := rows[org].(pending := Some(p))];
      } else {
        rows := rows[org := Row(Disconnected, None, None, None, Some(p))];
      }
    }

    method Take(org: Id, hash: Hash, now: int) returns (taken: Taken)
      modifies this
      ensures (rows, taken) == TakePending(old(rows), org, hash, now)
    {
      if org !in rows || rows[org].pending.None? {
        return NothingPending;
      }
      var p := rows[org].pending.value;
      if p.hash != hash {
        return Mismatch;
      }
      rows := rows[org := rows[org].(pending := None)];
      taken := Match(p.user, p.verifier, p.expiresAt > now);
    }

    method Save(org: Id, account: Option<string>, token: nat, user: Id)
      modifies this
      ensures rows == SaveConnected(old(rows), org, account, token, user)
    {
      var pending := if org in rows then rows[org].pending else None;
      rows := rows[org := Row(Connected, account, Some(token), Some(user), pending)];
    }

    method Forget(org: Id) returns (held: Option<nat>)
      modifies this
      ensures rows == Disconnect(old(rows), org)
      ensures held == if org in old(rows) then old(rows)[org].token else None
    {
      if org !in rows {
        return None;
      }
      held := rows[org].token;
      rows := rows[org := rows[org].(status := Disconnected, account := None, token := None, pending := None)];
    }
  }

  /** What Google answered: refused by the user, refused otherwise, or a code that may or may not be exchanged. */
  datatype Grant = Grant(account: Option<string>, scopeGranted: bool, refreshToken: Option<nat>)
  datatype Consent = AccessDenied | OtherError | NoCode | CodeGiven(exchanged: Option<Grant>)

  datatype Outcome = Success | Declined | Failed

  datatype Verdict = Save(account: Option<string>, token: nat) | Stop(outcome: Outcome)

  /** What happens once the state is known to be ours and consumed. */
  function AfterConsent(c: Consent): Verdict {
    match c
    case AccessDenied => Stop(Declined)
    case OtherError => Stop(Failed)
    case NoCode => Stop(Failed)
    case CodeGiven(None) => Stop(Failed)
    case CodeGiven(Some(g)) =>
      if !g.scopeGranted then Stop(Declined)
      else if g.refreshToken.None? then Stop(Failed)
      else Save(g.account, g.refreshToken.value)
  }

  /** The part of an attempt between taking the state and reading Google's answer. */
  function Admitted(taken: Taken, mayManage: bool): Option<Id> {
    match taken
    case Match(user, _, live) => if live && mayManage then Some(user) else None
    case _ => None
  }

  // ---- What each of them leaves behind ----

  /** A workspace's row may differ, and no other workspace's does. */
  predicate OnlyTouches(before: Table, after: Table, org: Id) {
    after - {org} == before - {org}
  }

  predicate IsConnected(t: Table, org: Id) {
    org in t && t[org].status == Connected
  }

  /** Starting puts the pending connect there, whatever was pending before, and is not being connected. */
  lemma StartingIsPending(t: Table, org: Id, p: Pending)
    ensures var after := BeginConnect(t, org, p);
            && OnlyTouches(t, after, org) && org in after && after[org].pending == Some(p)
            && (IsConnected(after, org) <==> IsConnected(t, org))
            && (org in t ==>
                  && after[org].account == t[org].account && after[org].token == t[org].token
                  && after[org].connectedBy == t[org].connectedBy)
            && (org !in t ==>
                  after[org].account == None && after[org].token == None && after[org].connectedBy == None)
  {
  }

  /**
   * A nonce takes the pending connect exactly when it is the one pending there.
   * It then learns who started it, with what verifier and whether in time, and
   * nothing is pending any more, so it works once. Any other changes nothing.
   */
  lemma TakingTakesOnce(t: Table, org: Id, hash: Hash, now: int)
    ensures var (after, taken) := TakePending(t, org, hash, now);
            && (taken.NothingPending? <==> org !in t || t[org].pending == None)
            && (taken.Match? <==> org in t && t[org].pending.Some? && t[org].pending.value.hash == hash)
            && (!taken.Match? ==> after == t)
            && (taken.Match? ==>
                  && taken.user == t[org].pending.value.user && taken.verifier == t[org].pending.value.verifier
                  && (taken.live <==> now < t[org].pending.value.expiresAt)
                  && OnlyTouches(t, after, org) && org in after
                  && after[org].status == t[org].status && after[org].account == t[org].account
                  && after[org].token == t[org].token && after[org].connectedBy == t[org].connectedBy
                  && after[org].pending == None
                  && (forall other, later :: TakePending(after, org, other, later) == (after, NothingPending)))
  {
  }

  /** A saved grant makes the workspace connected, with the token and account Google gave and who asked for it. */
  lemma SavingConnects(t: Table, org: Id, account: Option<string>, token: nat, user: Id)
    ensures var after := SaveConnected(t, org, account, token, user);
            && OnlyTouches(t, after, org) && IsConnected(after, org)
            && after[org].token == Some(token) && after[org].account == account && after[org].connectedBy == Some(user)
            && after[org].pending == (if org in t then t[org].pending else None)
  {
  }

  /** After a disconnect no token, account or pending connect is left there, and a late callback finds nothing. */
  lemma DisconnectingForgets(t: Table, org: Id)
    ensures var after := Disconnect(t, org);
            && OnlyTouches(t, after, org) && after.Keys == t.Keys
            && !IsConnected(after, org)
            && (org in after ==> after[org].token == None && after[org].account == None && after[org].pending == None)
            && (org in after ==> after[org].connectedBy == t[org].connectedBy)
            && (forall hash, now :: TakePending(after, org, hash, now) == (after, NothingPending))
  {
  }

  /**
   * A grant is saved exactly when Google exchanged the code, the calendar scope
   * was granted and a refresh token came with it; declining is told exactly when
   * the user refused access or the scope; everything else fails.
   */
  lemma OnlyWholeGrantsAreSaved(c: Consent)
    ensures forall account, token :: AfterConsent(c) == Verdict.Save(account, token) <==>
              c == CodeGiven(Some(Grant(account, true, Some(token))))
    ensures AfterConsent(c) == Stop(Declined) <==>
              c == AccessDenied || (c.CodeGiven? && c.exchanged.Some? && !c.exchanged.value.scopeGranted)
    ensures AfterConsent(c) != Stop(Success)
  {
  }

  /** An attempt goes on exactly for who started it, in time, while they may manage the workspace's settings. */
  lemma OnlyTheStarterGoesOn(taken: Taken, mayManage: bool)
    ensures forall user :: Admitted(taken, mayManage) == Some(user) <==>
              taken.Match? && taken.user == user && taken.live && mayManage
  {
  }
}

/**
 * Sign-in sessions: rows that are opened once, revoked in place, and never
 * deleted. A session counts while it is neither revoked nor lapsed.
 */
module Sessions {
  import opened Prelude

  type Id = nat

  datatype Session = Session(org: Id, user: Id, expiresAt: int, revokedAt: Option<int>)

  type Table = map<Id, Session>

  predicate Live(s: Session, now: int) {
    s.revokedAt.None? && s.expiresAt > now
  }

  predicate Owns(s: Session, org: Id, user: Id) {
    s.org == org && s.user == user
  }

  /** The sessions that sign anybody in at `now`. */
  function LiveIds(t: Table, now: int): set<Id> {
    set id | id in t && Live(t[id], now)
  }

  /** The Sessions page of one member. */
  function ListLive(t: Table, org: Id, user: Id, now: int): set<Id> {
    set id | id in t && Owns(t[id], org, user) && Live(t[id], now)
  }

  /** What a refresh finds: the row's owner, or nothing. */
  function FindValid(t: Table, id: Id, now: int): Option<(Id, Id)> {
    if id in t && Live(t[id], now) then Some((t[id].user, t[id].org)) else None
  }

  datatype Event =
    | SignIn(id: Id, org: Id, user: Id, ttl: nat)
    | SignOut(id: Id)
    | RevokeOwn(org: Id, user: Id, id: Id)
    | RevokeOthers(org: Id, user: Id, keep: Id)
    | SetPassword(org: Id, user: Id, kept: Option<Id>)
    | EndAccess(user: Id)
    | Refresh(id: Id)

  /** The rows an event revokes. Only `SetPassword` asks whether a row has lapsed. */
  function Hits(t: Table, e: Event, now: int): (hits: set<Id>)
    ensures hits <= t.Keys && forall id <- hits :: t[id].revokedAt.None?
  {
    match e
    case SignIn(_, _, _, _) => {}
    case SignOut(id) => set x | x in t && x == id && t[x].revokedAt.None?
    case RevokeOwn(org, user, id) => set x | x in t && x == id && Owns(t[x], org, user) && t[x].revokedAt.None?
    case RevokeOthers(org, user, keep) => set x | x in t && Owns(t[x], org, user) && x != keep && t[x].revokedAt.None?
    case SetPassword(org, user, kept) =>
      set x | x in t && Owns(t[x], org, user) && t[x].revokedAt.None? && t[x].expiresAt > now && kept != Some(x)
    case EndAccess(user) => set x | x in t && t[x].user == user && t[x].revokedAt.None?
    case Refresh(_) => {}
  }

  function Revoke(t: Table, hits: set<Id>, now: int): Table {
    map id | id in t :: if id in hits then t[id].(revokedAt := Some(now)) else t[id]
  }

  /** One event. An id already used cannot be used again: it is the primary key. */
  function Step(t: Table, e: Event, now: int): Table {
    if e.SignIn? then
      if e.id in t then t else t[e.id := Session(e.org, e.user, now + e.ttl, None)]
    else Revoke(t, Hits(t, e, now), now)
  }

  class Store {
    var rows: Table

    method Open(id: Id, org: Id, user: Id, ttl: nat, now: int)
      requires id !in rows
      modifies this
      ensures rows == Step(old(rows), SignIn(id, org, user, ttl), now)
      ensures forall later :: FindValid(rows, id, later) == if later < now + ttl then Some((user, org)) else None
    {
      rows := rows[id := Session(org, user, now + ttl, None)];
    }

    method RevokeSession(id: Id, now: int)
      modifies this
      ensures rows == Step(old(rows), SignOut(id), now)
      ensures FindValid(rows, id, now).None?
    {
      if id in rows && rows[id].revokedAt.None? {
        rows := rows[id := rows[id].(revokedAt := Some(now))];
      }
    }

    method SignOutOwn(org: Id, user: Id, id: Id, now: int) returns (found: bool)
      modifies this
      ensures rows == Step(old(rows), RevokeOwn(org, user, id), now)
      ensures found <==> id in Hits(old(rows), RevokeOwn(org, user, id), now)
      ensures !found ==> rows == old(rows)
      ensures id in ListLive(old(rows), org, user, now) ==> found && FindValid(rows, id, now).None?
    {
      found := id in rows && Owns(rows[id], org, user) && rows[id].revokedAt.None?;
      if found {
        rows := rows[id := rows[id].(revokedAt := Some(now))];
      }
    }

    method SignOutOthers(org: Id, user: Id, keep: Id, now: int) returns (count: nat)
      modifies this
      ensures rows == Step(old(rows), RevokeOthers(org, user, keep), now)
      ensures count == |Hits(old(rows), RevokeOthers(org, user, keep), now)|
      ensures ListLive(rows, org, user, now) == ListLive(old(rows), org, user, now) * {keep}
    {
      var hits := set x | x in rows && Owns(rows[x], org, user) && x != keep && rows[x].revokedAt.None?;
      assert hits == Hits(rows, RevokeOthers(org, user, keep), now);
      rows := map x | x in rows :: if x in hits then rows[x].(revokedAt := Some(now)) else rows[x];
      count := |hits|;
    }

    /** The count is the number of other devices the member's Sessions page showed. */
    method ChangePassword(org: Id, user: Id, kept: Option<Id>, now: int) returns (count: nat)
      modifies this
      ensures rows == Step(old(rows), SetPassword(org, user, kept), now)
      ensures count == |ListLive(old(rows), org, user, now) - Kept(kept)|
      ensures ListLive(rows, org, user, now) == ListLive(old(rows), org, user, now) * Kept(kept)
    {
      var hits :=
        set x | x in rows && Owns(rows[x], org, user) && rows[x].revokedAt.None? && rows[x].expiresAt > now
                && kept != Some(x);
      HitsAreTheOthersShown(rows, org, user, kept, now);
      assert hits == Hits(rows, SetPassword(org, user, kept), now);
      RevokingLeavesTheKept(rows, org, user, kept, now);
      rows := map x | x in rows :: if x in hits then rows[x].(revokedAt := Some(now)) else rows[x];
      count := |hits|;
    }

    /** Suspending or removing a member ends every session of the user. */
    method EndAllAccess(user: Id, now: int)
      modifies this
      ensures rows == Step(old(rows), EndAccess(user), now)
      ensures forall id <- LiveIds(rows, now) :: rows[id].user != user
    {
      var hits := set x | x in rows && rows[x].user == user && rows[x].revokedAt.None?;
      rows := map x | x in rows :: if x in hits then rows[x].(revokedAt := Some(now)) else rows[x];
      assert rows == Step(old(rows), EndAccess(user), now);
    }

    method Find(id: Id, now: int) returns (owner: Option<(Id, Id)>)
      ensures owner == FindValid(rows, id, now)
      ensures owner.Some? <==> id in LiveIds(rows, now)
    {
      owner := if id in rows && Live(rows[id], now) then Some((rows[id].user, rows[id].org)) else None;
    }
  }

  function Kept(kept: Option<Id>): set<Id> {
    if kept.Some? then {kept.value} else {}
  }

  lemma HitsAreTheOthersShown(t: Table, org: Id, user: Id, kept: Option<Id>, now: int)
    ensures Hits(t, SetPassword(org, user, kept), now) == ListLive(t, org, user, now) - Kept(kept)
  {
  }

  lemma RevokingLeavesTheKept(t: Table, org: Id, user: Id, kept: Option<Id>, now: int)
    ensures ListLive(Step(t, SetPassword(org, user, kept), now), org, user, now)
         == ListLive(t, org, user, now) * Kept(kept)
  {
  }

  /** The bulk sign-out has no such promise: its count is right only when nothing lapsed unrevoked. */
  lemma BulkCountIsTheOthersShown(t: Table, org: Id, user: Id, keep: Id, now: int)
    ensures |Hits(t, RevokeOthers(org, user, keep), now)| == |ListLive(t, org, user, now) - {keep}|
       <==> forall id <- t :: Owns(t[id], org, user) && id != keep && t[id].revokedAt.None? ==> t[id].expiresAt > now
  {
    var hits := Hits(t, RevokeOthers(org, user, keep), now);
    var shown := ListLive(t, org, user, now) - {keep};
    var lapsed := hits - shown;
    assert shown <= hits;
    assert hits == shown + lapsed;
    assert lapsed == {} ==> hits == shown;
    assert forall id <- t :: id in hits <==> Owns(t[id], org, user) && id != keep && t[id].revokedAt.None?;
    forall id <- t
      ensures id in lapsed <==> id in hits && t[id].expiresAt <= now
    {
      assert id in shown <==> id in hits && t[id].expiresAt > now;
    }
  }

  // ---- Whole runs, on a clock that never goes back ----

  datatype Timed = At(now: int, event: Event)

  predicate Forward(run: seq<Timed>, start: int) {
    run == [] || (start <= run[0].now && Forward(run[1..], run[0].now))
  }

  function Play(t: Table, run: seq<Timed>): Table
    decreases run
  {
    if run == [] then t else Play(Step(t, run[0].event, run[0].now), run[1..])
  }

  function Ends(run: seq<Timed>, start: int): int {
    if run == [] then start else Ends(run[1..], run[0].now)
  }

  lemma {:induction false} EndsLater(run: seq<Timed>, start: int)
    requires Forward(run, start)
    ensures Ends(run, start) >= start
  {
    if run != [] { EndsLater(run[1..], run[0].now); }
  }

  /** A row keeps its owner, its expiry, and any revocation it has. */
  ghost predicate Aged(t: Table, u: Table) {
    t.Keys <= u.Keys &&
    forall id <- t :: u[id].org == t[id].org && u[id].user == t[id].user && u[id].expiresAt == t[id].expiresAt &&
                      (t[id].revokedAt.Some? ==> u[id] == t[id])
  }

  lemma {:induction false} RunsOnlyAge(t: Table, run: seq<Timed>)
    ensures Aged(t, Play(t, run))
    decreases run
  {
    if run != [] {
      var u := Step(t, run[0].event, run[0].now);
      assert Aged(t, u);
      RunsOnlyAge(u, run[1..]);
    }
  }

  /**
   * Once dead, always dead: whatever is signed in, refreshed, revoked or reset
   * afterwards, no refresh and no request finds the session again.
   */
  lemma DeadSessionsStayDead(t: Table, run: seq<Timed>, id: Id, start: int, later: int)
    requires id in t && FindValid(t, id, start).None?
    requires Forward(run, start) && later >= Ends(run, start)
    ensures FindValid(Play(t, run), id, later).None?
  {
    RunsOnlyAge(t, run);
    EndsLater(run, start);
  }

  /** Two tables nobody can tell apart by signing in, at `now` or ever after. */
  ghost predicate SameToUsers(a: Table, b: Table, now: int) {
    a.Keys == b.Keys &&
    forall id <- a :: a[id].org == b[id].org && a[id].user == b[id].user && a[id].expiresAt == b[id].expiresAt &&
                      (a[id].expiresAt > now ==> (a[id].revokedAt.None? <==> b[id].revokedAt.None?))
  }

  lemma {:induction false} RunsKeepSame(a: Table, b: Table, run: seq<Timed>, start: int)
    requires SameToUsers(a, b, start) && Forward(run, start)
    ensures SameToUsers(Play(a, run), Play(b, run), Ends(run, start))
    decreases run
  {
    if run != [] {
      var e, now := run[0].event, run[0].now;
      StepKeepsSame(a, b, e, start, now);
      RunsKeepSame(Step(a, e, now), Step(b, e, now), run[1..], now);
    }
  }

  lemma StepKeepsSame(a: Table, b: Table, e: Event, start: int, now: int)
    requires SameToUsers(a, b, start) && start <= now
    ensures SameToUsers(Step(a, e, now), Step(b, e, now), now)
  {
    if !e.SignIn? {
      var ha, hb := Hits(a, e, now), Hits(b, e, now);
      forall id | id in a && a[id].expiresAt > now
        ensures id in ha <==> id in hb
      {
        assert a[id].revokedAt.None? <==> b[id].revokedAt.None?;
      }
    }
  }

  /** Revoking every row of the member but the kept one, lapsed or not. */
  function RevokeEverythingElse(t: Table, org: Id, user: Id, kept: Option<Id>, now: int): Table {
    map id | id in t ::
      if Owns(t[id], org, user) && id !in Kept(kept) then t[id].(revokedAt := Some(now)) else t[id]
  }

  /**
   * Leaving lapsed rows alone costs nothing: after any further events, at every
   * later instant, the live sessions are those there would be had a password
   * change revoked every row but the kept one.
   */
  lemma NarrowRevocationIsEnough(t: Table, org: Id, user: Id, kept: Option<Id>, now: int, run: seq<Timed>, later: int)
    requires Forward(run, now) && later >= Ends(run, now)
    ensures LiveIds(Play(Step(t, SetPassword(org, user, kept), now), run), later)
         == LiveIds(Play(RevokeEverythingElse(t, org, user, kept, now), run), later)
  {
    var a := Step(t, SetPassword(org, user, kept), now);
    var b := RevokeEverythingElse(t, org, user, kept, now);
    assert SameToUsers(a, b, now);
    RunsKeepSame(a, b, run, now);
  }

  /** The ids a run opens for one member. */
  function Opened(run: seq<Timed>, org: Id, user: Id): set<Id> {
    if run == [] then {}
    else
      var e := run[0].event;
      (if e.SignIn? && e.org == org && e.user == user then {e.id} else {}) + Opened(run[1..], org, user)
  }

  lemma {:induction false} RowsComeFromSomewhere(t: Table, run: seq<Timed>, id: Id)
    requires id in Play(t, run) && id !in t
    ensures id in Opened(run, Play(t, run)[id].org, Play(t, run)[id].user)
    decreases run
  {
    if run != [] {
      var u := Step(t, run[0].event, run[0].now);
      if id in u {
        RunsOnlyAge(u, run[1..]);
      } else {
        RowsComeFromSomewhere(u, run[1..], id);
      }
    }
  }

  /** After a password change, whoever is signed in as the member is the kept device or signed in since. */
  lemma ResetSignsEveryoneElseOut(t: Table, org: Id, user: Id, kept: Option<Id>, now: int, run: seq<Timed>, later: int)
    requires Forward(run, now) && later >= Ends(run, now)
    ensures ListLive(Play(Step(t, SetPassword(org, user, kept), now), run), org, user, later)
         <= Kept(kept) + Opened(run, org, user)
  {
    var u := Step(t, SetPassword(org, user, kept), now);
    var end := Play(u, run);
    forall id | id in ListLive(end, org, user, later)
      ensures id in Kept(kept) + Opened(run, org, user)
    {
      RunsOnlyAge(u, run);
      if id !in u {
        RowsComeFromSomewhere(u, run, id);
      } else if id !in Kept(kept) {
        DeadSessionsStayDead(u, run, id, now, later);
      }
    }
  }

  /** Nothing one member does to their own sessions reaches anybody else's. */
  lemma OwnEventsTouchOwnRows(t: Table, e: Event, now: int, id: Id)
    requires id in t && (e.RevokeOwn? || e.RevokeOthers? || e.SetPassword?)
    requires !Owns(t[id], e.org, e.user)
    ensures id in Step(t, e, now) && Step(t, e, now)[id] == t[id]
  {
  }

  // ---- When a session is found ----

  /**
   * A session signed in is its owner's at every moment before its time to live
   * is over, and found at none from then on.
   */
  lemma SignedInUntilItLapses(t: Table, id: Id, org: Id, user: Id, ttl: nat, now: int)
    requires id !in t
    ensures var after := Step(t, SignIn(id, org, user, ttl), now);
            && id in after && after - {id} == t
            && forall later :: FindValid(after, id, later) == if later < now + ttl then Some((user, org)) else None
  {
  }

  /** The pages and the refresh agree: a member is shown exactly the sessions found to be theirs. */
  lemma ShownIsFound(t: Table, org: Id, user: Id, id: Id, now: int)
    ensures id in ListLive(t, org, user, now) <==> FindValid(t, id, now) == Some((user, org))
    ensures id in LiveIds(t, now) <==> FindValid(t, id, now).Some?
    ensures FindValid(t, id, now).Some? <==> id in t && t[id].revokedAt == None && now < t[id].expiresAt
  {
  }

  /** Whom an event signs out: the device named, one's other devices, or everything of the user. */
  predicate SignsOut(e: Event, id: Id, org: Id, user: Id) {
    match e
    case SignIn(_, _, _, _) => false
    case SignOut(x) => x == id
    case RevokeOwn(o, u, x) => o == org && u == user && x == id
    case RevokeOthers(o, u, keep) => o == org && u == user && keep != id
    case SetPassword(o, u, kept) => o == org && u == user && kept != Some(id)
    case EndAccess(u) => u == user
    case Refresh(_) => false
  }

  /**
   * An event stamps exactly the rows it signs out that nobody had revoked - the
   * lapsed ones too, but for a password change - and leaves every other row, and
   * everything else on those, as it was.
   */
  lemma EventsRevokeExactly(t: Table, e: Event, now: int, id: Id)
    requires id in t
    ensures var after := Step(t, e, now);
            && id in after
            && after[id].org == t[id].org && after[id].user == t[id].user && after[id].expiresAt == t[id].expiresAt
            && after[id].revokedAt ==
               if t[id].revokedAt == None && SignsOut(e, id, t[id].org, t[id].user)
                  && (e.SetPassword? ==> now < t[id].expiresAt)
               then Some(now) else t[id].revokedAt
  {
  }

  /** So a session nobody signs out is found, through any run, just as if nothing had happened. */
  lemma {:induction false} SparedSessionsStay(t: Table, run: seq<Timed>, id: Id, later: int)
    requires id in t
    requires forall timed <- run :: !SignsOut(timed.event, id, t[id].org, t[id].user)
    ensures FindValid(Play(t, run), id, later) == FindValid(t, id, later)
    decreases run
  {
    if run != [] {
      assert run[0] in run;
      EventsRevokeExactly(t, run[0].event, run[0].now, id);
      SparedSessionsStay(Step(t, run[0].event, run[0].now), run[1..], id, later);
    }
  }
}

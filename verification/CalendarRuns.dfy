/**
 * Every interleaving of connects: starts with fresh nonces, callbacks that each
 * take several steps, and disconnects, on any number of workspaces at once.
 */
module CalendarRuns {
  import opened Prelude
  import opened Calendar

  datatype Start = Start(org: Id, user: Id, verifier: nat, startedAt: int)

  /** A callback, from the moment its `state` parsed to the moment it ended. */
  datatype Phase =
    | Arrived
    | Took(taken: Taken)
    | Cleared(user: Id, verifier: nat)
    | Saving(user: Id, account: Option<string>, token: nat)
    | Done(outcome: Outcome)

  /** `takenAt` and `permitted` are history: when the state was taken, and what the permission read said. */
  datatype Callback = Callback(org: Id, nonce: nat, phase: Phase, takenAt: int, permitted: bool)

  /** `starts` is history: who started each nonce, and where. */
  datatype World = World(rows: Table, starts: map<nat, Start>, callbacks: map<nat, Callback>)

  datatype Step =
    | Begin(nonce: nat, org: Id, user: Id, verifier: nat, now: int)
    | Arrive(c: nat, org: Id, nonce: nat)
    | Take(c: nat, now: int)
    | CheckPermission(c: nat, mayManage: bool)
    | ReadAnswer(c: nat, consent: Consent)
    | SaveGrant(c: nat)
    | Drop(org: Id)

  predicate At(w: World, c: nat) {
    c in w.callbacks
  }

  predicate Enabled(w: World, s: Step) {
    match s
    case Begin(nonce, _, _, _, _) => nonce !in w.starts
    case Arrive(c, _, _) => c !in w.callbacks
    case Take(c, _) => At(w, c) && w.callbacks[c].phase.Arrived?
    case CheckPermission(c, _) => At(w, c) && w.callbacks[c].phase.Took?
    case ReadAnswer(c, _) => At(w, c) && w.callbacks[c].phase.Cleared?
    case SaveGrant(c) => At(w, c) && w.callbacks[c].phase.Saving?
    case Drop(_) => true
  }

  function Moved(w: World, c: nat, phase: Phase): map<nat, Callback>
    requires At(w, c)
  {
    w.callbacks[c := w.callbacks[c].(phase := phase)]
  }

  function Next(w: World, s: Step): World
    requires Enabled(w, s)
  {
    match s
    case Begin(nonce, org, user, verifier, now) =>
      w.(rows := BeginConnect(w.rows, org, Pending(Sha256(nonce), user, verifier, now + STATE_TTL_MS)),
         starts := w.starts[nonce := Start(org, user, verifier, now)])
    case Arrive(c, org, nonce) =>
      w.(callbacks := w.callbacks[c := Callback(org, nonce, Arrived, 0, false)])
    case Take(c, now) =>
      var (rows, taken) := TakePending(w.rows, w.callbacks[c].org, Sha256(w.callbacks[c].nonce), now);
      w.(rows := rows, callbacks := w.callbacks[c := w.callbacks[c].(phase := Took(taken), takenAt := now)])
    case CheckPermission(c, mayManage) =>
      var user := Admitted(w.callbacks[c].phase.taken, mayManage);
      var phase := if user.Some? then Cleared(user.value, w.callbacks[c].phase.taken.verifier) else Done(Failed);
      w.(callbacks := w.callbacks[c := w.callbacks[c].(phase := phase, permitted := mayManage)])
    case ReadAnswer(c, consent) =>
      (match AfterConsent(consent)
       case Stop(outcome) => w.(callbacks := Moved(w, c, Done(outcome)))
       case Save(account, token) => w.(callbacks := Moved(w, c, Saving(w.callbacks[c].phase.user, account, token))))
    case SaveGrant(c) =>
      var p := w.callbacks[c].phase;
      w.(rows := SaveConnected(w.rows, w.callbacks[c].org, p.account, p.token, p.user),
         callbacks := Moved(w, c, Done(Success)))
    case Drop(org) =>
      w.(rows := Disconnect(w.rows, org))
  }

  ghost predicate IsRun(w: World, steps: seq<Step>)
    decreases |steps|
  {
    steps == [] || (Enabled(w, steps[0]) && IsRun(Next(w, steps[0]), steps[1..]))
  }

  ghost function End(w: World, steps: seq<Step>): World
    requires IsRun(w, steps)
    decreases |steps|
  {
    if steps == [] then w else End(Next(w, steps[0]), steps[1..])
  }

  /** The callback has taken the pending connect its nonce names. */
  predicate Holding(cb: Callback) {
    match cb.phase
    case Took(taken) => taken.Match?
    case Cleared(_, _) => true
    case Saving(_, _, _) => true
    case Done(outcome) => outcome == Success
    case _ => false
  }

  /** What it does, it does for the user who started the nonce, with their verifier, in time and permitted. */
  predicate ActsFor(cb: Callback, s: Start) {
    && cb.org == s.org
    && (cb.phase.Took? && cb.phase.taken.Match? ==>
          && cb.phase.taken.user == s.user && cb.phase.taken.verifier == s.verifier
          && (cb.phase.taken.live <==> cb.takenAt < s.startedAt + STATE_TTL_MS))
    && (cb.phase.Cleared? ==> cb.phase.user == s.user && cb.phase.verifier == s.verifier)
    && (cb.phase.Saving? ==> cb.phase.user == s.user)
    && (!cb.phase.Took? ==> cb.permitted && cb.takenAt < s.startedAt + STATE_TTL_MS)
  }

  predicate PendingIsStarted(w: World, org: Id) {
    org in w.rows && w.rows[org].pending.Some? ==>
      var p := w.rows[org].pending.value;
      && p.hash.nonce in w.starts
      && w.starts[p.hash.nonce] == Start(org, p.user, p.verifier, p.expiresAt - STATE_TTL_MS)
      && (forall c | c in w.callbacks :: w.callbacks[c].nonce == p.hash.nonce ==> !Holding(w.callbacks[c]))
  }

  /** Some finished callback in this workspace presented a nonce that `user` had started. */
  predicate EarnedBy(w: World, org: Id, user: Id) {
    exists c | c in w.callbacks ::
      && w.callbacks[c].org == org && w.callbacks[c].phase == Done(Success)
      && w.callbacks[c].nonce in w.starts
      && w.starts[w.callbacks[c].nonce].org == org && w.starts[w.callbacks[c].nonce].user == user
  }

  predicate ConnectionIsEarned(w: World, org: Id) {
    org in w.rows && w.rows[org].status == Connected ==>
      w.rows[org].token.Some? && w.rows[org].connectedBy.Some? && EarnedBy(w, org, w.rows[org].connectedBy.value)
  }

  predicate HoldersAct(w: World) {
    forall c | c in w.callbacks && Holding(w.callbacks[c]) ::
      w.callbacks[c].nonce in w.starts && ActsFor(w.callbacks[c], w.starts[w.callbacks[c].nonce])
  }

  predicate NoncesHeldOnce(w: World) {
    forall c, d |
      c in w.callbacks && d in w.callbacks && c != d && Holding(w.callbacks[c]) && Holding(w.callbacks[d]) ::
      w.callbacks[c].nonce != w.callbacks[d].nonce
  }

  ghost predicate Invariant(w: World) {
    && (forall org | org in w.rows :: PendingIsStarted(w, org))
    && (forall org | org in w.rows :: ConnectionIsEarned(w, org))
    && HoldersAct(w)
    && NoncesHeldOnce(w)
  }

  lemma StepKeepsPending(w: World, s: Step, org: Id)
    requires Invariant(w) && Enabled(w, s) && org in Next(w, s).rows
    ensures PendingIsStarted(Next(w, s), org)
  {
    if org in w.rows {
      assert PendingIsStarted(w, org);
    }
    if s.Take? && w.callbacks[s.c].org in w.rows {
      assert PendingIsStarted(w, w.callbacks[s.c].org);
    }
  }

  lemma StepKeepsHolders(w: World, s: Step)
    requires Invariant(w) && Enabled(w, s)
    ensures HoldersAct(Next(w, s))
  {
    if s.Take? && w.callbacks[s.c].org in w.rows {
      assert PendingIsStarted(w, w.callbacks[s.c].org);
    }
  }

  lemma StepKeepsNonces(w: World, s: Step)
    requires Invariant(w) && Enabled(w, s)
    ensures NoncesHeldOnce(Next(w, s))
  {
    if s.Take? && w.callbacks[s.c].org in w.rows {
      assert PendingIsStarted(w, w.callbacks[s.c].org);
    }
  }

  /** A success, once earned, stays on record. */
  lemma EarnedStays(w: World, s: Step, org: Id, user: Id)
    requires Enabled(w, s) && EarnedBy(w, org, user)
    ensures EarnedBy(Next(w, s), org, user)
  {
    var c :| c in w.callbacks && w.callbacks[c].org == org && w.callbacks[c].phase == Done(Success)
             && w.callbacks[c].nonce in w.starts
             && w.starts[w.callbacks[c].nonce].org == org && w.starts[w.callbacks[c].nonce].user == user;
    assert Next(w, s).callbacks[c] == w.callbacks[c];
  }

  lemma StepKeepsConnections(w: World, s: Step, org: Id)
    requires Invariant(w) && Enabled(w, s) && org in Next(w, s).rows
    ensures ConnectionIsEarned(Next(w, s), org)
  {
    var after := Next(w, s);
    if after.rows[org].status == Connected {
      if s.SaveGrant? && w.callbacks[s.c].org == org {
        assert Holding(w.callbacks[s.c]);
        assert after.callbacks[s.c].phase == Done(Success);
      } else {
        assert org in w.rows && ConnectionIsEarned(w, org);
        EarnedStays(w, s, org, w.rows[org].connectedBy.value);
      }
    }
  }

  lemma StepKeepsInvariant(w: World, s: Step)
    requires Invariant(w) && Enabled(w, s)
    ensures Invariant(Next(w, s))
  {
    forall org | org in Next(w, s).rows ensures ConnectionIsEarned(Next(w, s), org) {
      StepKeepsConnections(w, s, org);
    }
    forall org | org in Next(w, s).rows ensures PendingIsStarted(Next(w, s), org) {
      StepKeepsPending(w, s, org);
    }
    StepKeepsHolders(w, s);
    StepKeepsNonces(w, s);
  }

  lemma {:induction false} RunKeepsInvariant(w: World, steps: seq<Step>)
    requires Invariant(w) && IsRun(w, steps)
    ensures Invariant(End(w, steps))
    decreases |steps|
  {
    if steps != [] {
      StepKeepsInvariant(w, steps[0]);
      RunKeepsInvariant(Next(w, steps[0]), steps[1..]);
    }
  }

  predicate Untouched(w: World) {
    w.rows == map[] && w.starts == map[] && w.callbacks == map[]
  }

  /** One start leads to at most one save, however many callbacks present its nonce. */
  lemma OneSavePerStart(w: World, steps: seq<Step>, c: nat, d: nat)
    requires Untouched(w) && IsRun(w, steps)
    requires var end := End(w, steps);
             && c in end.callbacks && d in end.callbacks
             && end.callbacks[c].phase == end.callbacks[d].phase == Done(Success)
             && end.callbacks[c].nonce == end.callbacks[d].nonce
    ensures c == d
  {
    RunKeepsInvariant(w, steps);
    var end := End(w, steps);
    assert Holding(end.callbacks[c]) && Holding(end.callbacks[d]);
  }

  /**
   * A connected row holds a token, and names a user whose own started nonce was
   * presented in that workspace, taken within ten minutes of its start, while
   * they were found to hold the permission.
   */
  lemma ConnectionsAreEarned(w: World, steps: seq<Step>, org: Id)
    requires Untouched(w) && IsRun(w, steps)
    requires org in End(w, steps).rows && End(w, steps).rows[org].status == Connected
    ensures var end := End(w, steps);
            && end.rows[org].token.Some? && end.rows[org].connectedBy.Some?
            && exists c | c in end.callbacks ::
                 var cb := end.callbacks[c];
                 && cb.org == org && cb.phase == Done(Success) && cb.nonce in end.starts
                 && end.starts[cb.nonce].org == org && end.starts[cb.nonce].user == end.rows[org].connectedBy.value
                 && cb.takenAt < end.starts[cb.nonce].startedAt + 600_000 && cb.permitted
  {
    RunKeepsInvariant(w, steps);
    var end := End(w, steps);
    assert ConnectionIsEarned(end, org);
    var c :| c in end.callbacks && end.callbacks[c].org == org && end.callbacks[c].phase == Done(Success)
             && end.callbacks[c].nonce in end.starts
             && end.starts[end.callbacks[c].nonce].org == org
             && end.starts[end.callbacks[c].nonce].user == end.rows[org].connectedBy.value;
    assert Holding(end.callbacks[c]);
    assert ActsFor(end.callbacks[c], end.starts[end.callbacks[c].nonce]);
  }

  /** The verifier sent with a code is the one made when its nonce was started. */
  lemma VerifierBelongsToItsStart(w: World, steps: seq<Step>, c: nat)
    requires Untouched(w) && IsRun(w, steps)
    requires c in End(w, steps).callbacks && End(w, steps).callbacks[c].phase.Cleared?
    ensures var end := End(w, steps);
            var cb := end.callbacks[c];
            && cb.nonce in end.starts && end.starts[cb.nonce].org == cb.org
            && end.starts[cb.nonce].verifier == cb.phase.verifier
  {
    RunKeepsInvariant(w, steps);
    assert Holding(End(w, steps).callbacks[c]);
  }

  predicate IsPending(w: World, org: Id, nonce: nat) {
    org in w.rows && w.rows[org].pending.Some? && w.rows[org].pending.value.hash == Sha256(nonce)
  }

  /** A callback step whose nonce is not the one pending in its workspace, and that holds nothing already. */
  predicate Stray(w: World, s: Step) {
    match s
    case Arrive(_, org, nonce) => !IsPending(w, org, nonce)
    case Begin(_, _, _, _, _) => false
    case Drop(_) => false
    case _ => At(w, s.c) && !Holding(w.callbacks[s.c]) && !IsPending(w, w.callbacks[s.c].org, w.callbacks[s.c].nonce)
  }

  ghost predicate AllStray(w: World, steps: seq<Step>)
    requires IsRun(w, steps)
    decreases |steps|
  {
    steps == [] || (Stray(w, steps[0]) && AllStray(Next(w, steps[0]), steps[1..]))
  }

  /** Callbacks with nonces of their own making change no row, however many arrive and however they interleave. */
  lemma {:induction false} StraysChangeNothing(w: World, steps: seq<Step>)
    requires IsRun(w, steps) && AllStray(w, steps)
    ensures End(w, steps).rows == w.rows
    decreases |steps|
  {
    if steps != [] {
      assert Next(w, steps[0]).rows == w.rows;
      StraysChangeNothing(Next(w, steps[0]), steps[1..]);
    }
  }

  // ---- Strays mixed into real connects ----

  /** The callback a step belongs to, if it belongs to one. */
  function Actor(s: Step): Option<nat> {
    match s
    case Begin(_, _, _, _, _) => None
    case Drop(_) => None
    case _ => Some(s.c)
  }

  predicate IsBy(s: Step, strays: set<nat>) {
    Actor(s).Some? && Actor(s).value in strays
  }

  /** No stray presents the nonce pending in its workspace at the moment it tries to take it. */
  ghost predicate AllMiss(w: World, steps: seq<Step>, strays: set<nat>)
    requires IsRun(w, steps)
    decreases |steps|
  {
    steps == [] ||
    (var s := steps[0];
     && (IsBy(s, strays) && s.Take? ==> !IsPending(w, w.callbacks[s.c].org, w.callbacks[s.c].nonce))
     && AllMiss(Next(w, s), steps[1..], strays))
  }

  function Without(steps: seq<Step>, strays: set<nat>): seq<Step> {
    if steps == [] then []
    else (if IsBy(steps[0], strays) then [] else [steps[0]]) + Without(steps[1..], strays)
  }

  /** Two worlds that differ at most in what callbacks they hold for `strays`, none of which has taken anything. */
  ghost predicate SameButFor(a: World, b: World, strays: set<nat>) {
    && a.rows == b.rows && a.starts == b.starts
    && a.callbacks - strays == b.callbacks - strays
    && forall c | c in a.callbacks && c in strays :: !Holding(a.callbacks[c])
  }

  lemma StrayStep(a: World, b: World, s: Step, strays: set<nat>)
    requires SameButFor(a, b, strays) && Enabled(a, s) && IsBy(s, strays)
    requires s.Take? ==> !IsPending(a, a.callbacks[s.c].org, a.callbacks[s.c].nonce)
    ensures SameButFor(Next(a, s), b, strays)
  {
    var after := Next(a, s);
    assert after.callbacks - strays == a.callbacks - strays;
  }

  lemma SharedStep(a: World, b: World, s: Step, strays: set<nat>)
    requires SameButFor(a, b, strays) && Enabled(a, s) && !IsBy(s, strays)
    ensures Enabled(b, s) && SameButFor(Next(a, s), Next(b, s), strays)
  {
    forall c | c !in strays
      ensures c in a.callbacks <==> c in b.callbacks
      ensures c in a.callbacks ==> a.callbacks[c] == b.callbacks[c]
    {
      assert c in a.callbacks - strays <==> c in b.callbacks - strays;
      assert c in a.callbacks ==> (a.callbacks - strays)[c] == (b.callbacks - strays)[c];
    }
    assert Next(a, s).callbacks - strays == Next(b, s).callbacks - strays;
  }

  lemma {:induction false} StraysFilterOut(a: World, b: World, steps: seq<Step>, strays: set<nat>)
    requires SameButFor(a, b, strays) && IsRun(a, steps) && AllMiss(a, steps, strays)
    ensures IsRun(b, Without(steps, strays))
    ensures SameButFor(End(a, steps), End(b, Without(steps, strays)), strays)
    decreases |steps|
  {
    if steps != [] {
      var s := steps[0];
      if IsBy(s, strays) {
        StrayStep(a, b, s, strays);
        StraysFilterOut(Next(a, s), b, steps[1..], strays);
        assert Without(steps, strays) == Without(steps[1..], strays);
      } else {
        SharedStep(a, b, s, strays);
        StraysFilterOut(Next(a, s), Next(b, s), steps[1..], strays);
        assert Without(steps, strays)[1..] == Without(steps[1..], strays);
      }
    }
  }

  /**
   * Callbacks that never present the pending nonce might as well not have come:
   * mixed in any way into real connects, starts and disconnects, the run without
   * them is a run too, and ends with the same rows, the same starts, and every
   * other callback in the same place.
   */
  lemma StraysDoNotInterfere(w: World, steps: seq<Step>, strays: set<nat>)
    requires IsRun(w, steps) && AllMiss(w, steps, strays) && strays !! w.callbacks.Keys
    ensures IsRun(w, Without(steps, strays))
    ensures var with, without := End(w, steps), End(w, Without(steps, strays));
            && with.rows == without.rows && with.starts == without.starts
            && with.callbacks - strays == without.callbacks - strays
  {
    StraysFilterOut(w, w, steps, strays);
  }
}

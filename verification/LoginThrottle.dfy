/**
 * Brute-force protection for sign-in: failures counted per identity, a lock
 * once there are too many, and the serial sign-in attempts that feed it. The
 * Redis clock ticks in whole seconds here.
 */
module LoginThrottle {
  import opened Prelude
  import opened Redis
  import opened WindowCounter

  datatype Limits = Limits(maxAttempts: nat, lockSeconds: nat)

  predicate Positive(l: Limits) {
    1 <= l.maxAttempts && 1 <= l.lockSeconds
  }

  datatype Standing = Free | Locked(secondsLeft: int)

  /** Is the identity locked? Unreachable, the answer is no. */
  function Asked(db: Db, id: string, attempt: Attempt, trip: Trip): (Db, Standing) {
    var (after, left) := Send(db, Ttl(Lock(attempt, id)), trip);
    (after, if left.None? || left.value == NO_SUCH_KEY then Free else Locked(left.value))
  }

  /** A failure counted and, at the limit, the identity locked; an error stops it where it is. */
  function Failed(db: Db, id: string, attempt: Attempt, l: Limits, trips: seq<Trip>): Db
    requires |trips| == 3
  {
    var (counted, fails) := Send(db, Incr(FailCount(attempt, id)), trips[0]);
    if fails.None? then counted
    else
      var (anchored, ok) :=
        if fails.value == 1 then Send(counted, Expire(FailCount(attempt, id), l.lockSeconds), trips[1])
        else (counted, Some(1));
      if ok.None? || fails.value < l.maxAttempts then anchored
      else Send(anchored, SetEx(Lock(attempt, id), l.lockSeconds), trips[2]).0
  }

  /**
   * How an attempt that was let in ended: a wrong credential is counted, a right
   * one clears the counter, and any other refusal or error does neither.
   */
  datatype Outcome = Wrong | Right | Other

  function SignedIn(db: Db, id: string, outcome: Outcome, l: Limits, check: Trip, trips: seq<Trip>): Db
    requires |trips| == 3
  {
    var (asked, standing) := Asked(db, id, SignIn, check);
    if standing.Locked? then asked
    else
      match outcome
      case Wrong => Failed(asked, id, SignIn, l, trips)
      case Right => Send(asked, Del({FailCount(SignIn, id), Lock(SignIn, id)}), trips[0]).0
      case Other => asked
  }

  class Service {
    const redis: Client
    const limits: Limits

    constructor (redis: Client, limits: Limits)
      ensures this.redis == redis && this.limits == limits
    {
      this.redis := redis;
      this.limits := limits;
    }

    method AssertNotLocked(id: string, attempt: Attempt, trip: Trip) returns (standing: Standing)
      modifies redis
      ensures (redis.Contents(), standing) == Asked(old(redis.Contents()), id, attempt, trip)
    {
      var left := redis.SendTtl(Lock(attempt, id), trip);
      if left.None? || left.value == NO_SUCH_KEY {
        return Free;
      }
      standing := Locked(left.value);
    }

    method RecordFailure(id: string, attempt: Attempt, trips: seq<Trip>)
      requires |trips| == 3
      modifies redis
      ensures redis.Contents() == Failed(old(redis.Contents()), id, attempt, limits, trips)
    {
      var fails := redis.SendIncr(FailCount(attempt, id), trips[0]);
      if fails.None? {
        return;
      }
      if fails.value == 1 {
        var ok := redis.SendExpire(FailCount(attempt, id), limits.lockSeconds, trips[1]);
        if ok.None? {
          return;
        }
      }
      if fails.value >= limits.maxAttempts {
        var _ := redis.SendSetEx(Lock(attempt, id), limits.lockSeconds, trips[2]);
      }
    }

    method RecordSuccess(id: string, trip: Trip)
      modifies redis
      ensures redis.Contents() ==
              Send(old(redis.Contents()), Del({FailCount(SignIn, id), Lock(SignIn, id)}), trip).0
    {
      var _ := redis.SendDel({FailCount(SignIn, id), Lock(SignIn, id)}, trip);
    }

    /** A sign-in: refused while locked, otherwise how it ended decides what is recorded. */
    method SignInOnce(id: string, outcome: Outcome, check: Trip, trips: seq<Trip>) returns (standing: Standing)
      requires |trips| == 3
      modifies redis
      ensures standing == Asked(old(redis.Contents()), id, SignIn, check).1
      ensures redis.Contents() == SignedIn(old(redis.Contents()), id, outcome, limits, check, trips)
    {
      standing := AssertNotLocked(id, SignIn, check);
      if standing.Locked? {
        return;
      }
      match outcome {
        case Wrong => RecordFailure(id, SignIn, trips);
        case Right => RecordSuccess(id, trips[0]);
        case Other =>
      }
    }
  }

  // ---- What one sign-in does ----

  /** The lock is told with the time it has left; a Redis that does not answer locks nobody. */
  lemma AskedTellsTheLock(db: Db, id: string, attempt: Attempt, trip: Trip)
    ensures var (after, standing) := Asked(db, id, attempt, trip);
            var lock := Lock(attempt, id);
            && after.store == db.store
            && (standing.Locked? <==> trip.wire.Answered? && Holds(after, lock))
            && (standing.Locked? ==>
                  match after.store[lock].expiresAt
                  case Some(at) => standing.secondsLeft == at - after.now
                  case None => standing.secondsLeft == -1)
  {
  }

  /** A locked identity's sign-in changes nothing, whatever the credential would have been. */
  lemma LockedSignInsChangeNothing(db: Db, id: string, outcome: Outcome, l: Limits, check: Trip, trips: seq<Trip>)
    requires |trips| == 3 && check.wire.Answered? && Holds(Pass(db, check.delay), Lock(SignIn, id))
    ensures SignedIn(db, id, outcome, l, check, trips).store == db.store
  {
  }

  predicate AnsweredTrips(trips: seq<Trip>) {
    forall t | t in trips :: t.wire.Answered?
  }

  /**
   * A wrong credential is one failure more, the first with a lock's length to
   * live, and locks at the limit; a right one leaves no trace; anything else
   * changes nothing.
   */
  lemma SignInsAreCounted(db: Db, id: string, outcome: Outcome, l: Limits, check: Trip, trips: seq<Trip>)
    requires |trips| == 3 && check.wire.Answered? && AnsweredTrips(trips) && Positive(l)
    requires !Holds(Pass(db, check.delay), Lock(SignIn, id))
    ensures var after := SignedIn(db, id, outcome, l, check, trips);
            var k, lock := FailCount(SignIn, id), Lock(SignIn, id);
            var counted := Pass(db, check.delay + trips[0].delay);
            var fails := if Holds(counted, k) then db.store[k].value + 1 else 1;
            match outcome
            case Wrong =>
              && k in after.store && after.store[k].value == fails
              && (!Holds(counted, k) ==>
                    after.store[k].expiresAt == Some(counted.now + trips[1].delay + l.lockSeconds))
              && (fails > 1 ==> after.store[k].expiresAt == db.store[k].expiresAt)
              && (fails >= l.maxAttempts ==>
                    Holds(after, lock) && after.store[lock].expiresAt == Some(after.now + l.lockSeconds))
              && (fails < l.maxAttempts ==> after.store - {k} == db.store - {k})
            case Right => after.store == db.store - {k, lock}
            case Other => after.store == db.store
  {
    assert trips[0] in trips && trips[1] in trips && trips[2] in trips;
  }

  // ---- Serial runs of wrong attempts ----

  /**
   * One attempt with a wrong credential, and what becomes of each command it
   * may send. A process that dies part way sends nothing after that.
   */
  datatype Try = Try(check: Trip, count: Trip, anchor: Trip, lock: Trip)
  {
    predicate Answered() {
      check.wire.Answered? && count.wire.Answered? && anchor.wire.Answered? && lock.wire.Answered?
    }

    function Trips(): seq<Trip> {
      [count, anchor, lock]
    }
  }

  function OnTime(delay: nat): Trip {
    Trip(delay, Answered)
  }

  predicate AllAnswered(tries: seq<Try>) {
    forall t | t in tries :: t.Answered()
  }

  /** The state of a serial run: the database, and the failures told their count so far, by attempt. */
  datatype Run = Run(db: Db, failures: map<nat, Spend>)

  function Attempted(r: Run, i: nat, t: Try, id: string, attempt: Attempt, l: Limits): Run {
    var (asked, standing) := Asked(r.db, id, attempt, t.check);
    if standing.Locked? then r.(db := asked)
    else
      var k := FailCount(attempt, id);
      var (counted, fails) := Send(asked, Incr(k), t.count);
      Run(Failed(asked, id, attempt, l, t.Trips()),
          if fails.Some? then r.failures[i := Spend(counted.now, counted.store[k].bornAt, fails.value)] else r.failures)
  }

  function AttemptedAll(r: Run, i: nat, tries: seq<Try>, id: string, attempt: Attempt, l: Limits): Run
    decreases |tries|
  {
    if tries == [] then r
    else AttemptedAll(Attempted(r, i, tries[0], id, attempt, l), i + 1, tries[1..], id, attempt, l)
  }

  /** So a sign-in with a wrong credential is an attempt of these runs, and what holds of them holds of it. */
  lemma WrongSignInIsAnAttempt(r: Run, i: nat, t: Try, id: string, l: Limits)
    ensures SignedIn(r.db, id, Wrong, l, t.check, t.Trips()) == Attempted(r, i, t, id, SignIn, l).db
  {
  }

  predicate Clean(db: Db, id: string, attempt: Attempt) {
    FailCount(attempt, id) !in db.store && Lock(attempt, id) !in db.store
  }

  // ---- With Redis answering: how many failures, and what a lapsed lock gives back ----

  /** A full counter is always locked until it lapses, or longer. */
  predicate LockCoversCounter(db: Db, id: string, attempt: Attempt, l: Limits) {
    var k, lock := FailCount(attempt, id), Lock(attempt, id);
    k in db.store ==>
      && db.store[k].expiresAt.Some? && db.store[k].expiresAt.value <= db.now + l.lockSeconds
      && db.store[k].value <= l.maxAttempts
      && (db.store[k].value == l.maxAttempts ==>
            lock in db.store && db.store[lock].expiresAt.Some?
            && db.store[k].expiresAt.value <= db.store[lock].expiresAt.value)
  }

  /** A failure told the limit keeps every later one a whole lock away, and lives follow one another. */
  ghost predicate LastCountsLock(r: Run, id: string, attempt: Attempt, l: Limits) {
    && (forall c | c in r.failures && r.failures[c].reply == l.maxAttempts ::
          Lock(attempt, id) in r.db.store && r.db.store[Lock(attempt, id)].expiresAt.Some?
          && r.failures[c].at + l.lockSeconds <= r.db.store[Lock(attempt, id)].expiresAt.value)
    && LockApart(r.failures, l)
  }

  /** Later failures count in the same life or a later one, and a whole lock after any that was told the limit. */
  ghost predicate LockApart(failures: map<nat, Spend>, l: Limits) {
    forall c, d | c in failures && d in failures && c < d ::
      && failures[c].bornAt <= failures[d].bornAt
      && (failures[c].reply == l.maxAttempts ==> failures[c].at + l.lockSeconds <= failures[d].at)
  }

  lemma LastIsLockApart(failures: map<nat, Spend>, i: nat, last: Spend, l: Limits)
    requires LockApart(failures, l) && forall c | c in failures :: c < i
    requires forall c | c in failures ::
               && failures[c].bornAt <= last.bornAt
               && (failures[c].reply == l.maxAttempts ==> failures[c].at + l.lockSeconds <= last.at)
    ensures LockApart(failures[i := last], l)
  {
  }

  ghost predicate Invariant(r: Run, i: nat, id: string, attempt: Attempt, l: Limits) {
    && Orderly(r.failures, r.db, FailCount(attempt, id), l.lockSeconds)
    && LockCoversCounter(r.db, id, attempt, l)
    && LastCountsLock(r, id, attempt, l)
    && (forall c | c in r.failures :: c < i && r.failures[c].reply <= l.maxAttempts)
    && (Lock(attempt, id) in r.db.store ==> r.db.store[Lock(attempt, id)].expiresAt.Some?)
  }

  lemma CoverSurvivesFailure(db: Db, id: string, attempt: Attempt, l: Limits, t: Try)
    requires LockCoversCounter(db, id, attempt, l) && Positive(l) && t.Answered()
    requires FailCount(attempt, id) in db.store ==> 1 <= db.store[FailCount(attempt, id)].value
    requires !Holds(db, Lock(attempt, id))
    requires Lock(attempt, id) in db.store ==> db.store[Lock(attempt, id)].expiresAt.Some?
    ensures var after := Failed(db, id, attempt, l, t.Trips());
            && LockCoversCounter(after, id, attempt, l)
            && (Lock(attempt, id) in after.store ==> after.store[Lock(attempt, id)].expiresAt.Some?)
            && Send(db, Incr(FailCount(attempt, id)), t.count).1.value <= l.maxAttempts
  {
    var (counted, fails) := Send(db, Incr(FailCount(attempt, id)), t.count);
    assert fails.value <= l.maxAttempts;
  }

  lemma FailureKeepsOrder(r: Run, i: nat, t: Try, id: string, attempt: Attempt, l: Limits)
    requires Invariant(r, i, id, attempt, l) && Positive(l) && t.Answered()
    ensures Orderly(Attempted(r, i, t, id, attempt, l).failures, Attempted(r, i, t, id, attempt, l).db,
                    FailCount(attempt, id), l.lockSeconds)
  {
    var k, window := FailCount(attempt, id), l.lockSeconds;
    var (asked, standing) := Asked(r.db, id, attempt, t.check);
    IdiomaticKeepsOrder(r.failures, r.db, Ttl(Lock(attempt, id)), t.check, k, window);
    if standing.Free? {
      var after := Attempted(r, i, t, id, attempt, l);
      var (counted, fails) := Send(asked, Incr(k), t.count);
      CountJoinsInOrder(r.failures, asked, t.count, k, window, i);
      IdiomaticKeepsOrder(after.failures, counted, Expire(k, window), t.anchor, k, window);
      var anchored := if fails.value == 1 then Send(counted, Expire(k, window), t.anchor).0 else counted;
      IdiomaticKeepsOrder(after.failures, anchored, SetEx(Lock(attempt, id), window), t.lock, k, window);
    }
  }

  /** What one let-in failure adds to the record, and when. */
  lemma FailureRecorded(r: Run, i: nat, t: Try, id: string, attempt: Attempt, l: Limits)
    requires Invariant(r, i, id, attempt, l) && Positive(l) && t.Answered()
    requires !Holds(Pass(r.db, t.check.delay), Lock(attempt, id))
    ensures var after := Attempted(r, i, t, id, attempt, l);
            && i in after.failures && after.failures == r.failures[i := after.failures[i]]
            && r.db.now + t.check.delay <= after.failures[i].at <= after.db.now
            && (FailCount(attempt, id) in r.db.store ==>
                  r.db.store[FailCount(attempt, id)].bornAt <= after.failures[i].bornAt)
            && (after.failures[i].reply == l.maxAttempts ==>
                  Lock(attempt, id) in after.db.store && after.db.store[Lock(attempt, id)].expiresAt.Some?
                  && after.failures[i].at + l.lockSeconds <= after.db.store[Lock(attempt, id)].expiresAt.value)
            && (after.failures[i].reply < l.maxAttempts ==>
                  (Lock(attempt, id) in after.db.store <==> Lock(attempt, id) in r.db.store)
                  && (Lock(attempt, id) in r.db.store ==>
                        after.db.store[Lock(attempt, id)] == r.db.store[Lock(attempt, id)]))
  {
  }

  /** A new failure comes after all the others, and a whole lock after any that was told the limit. */
  lemma FailureFollows(r: Run, i: nat, t: Try, id: string, attempt: Attempt, l: Limits, c: nat)
    requires Invariant(r, i, id, attempt, l) && Positive(l) && t.Answered() && c in r.failures
    requires !Holds(Pass(r.db, t.check.delay), Lock(attempt, id))
    ensures var after := Attempted(r, i, t, id, attempt, l);
            && i in after.failures && r.failures[c].bornAt <= after.failures[i].bornAt
            && (r.failures[c].reply == l.maxAttempts ==> r.failures[c].at + l.lockSeconds <= after.failures[i].at)
  {
    FailureRecorded(r, i, t, id, attempt, l);
    assert SeenBy(r.failures[c], r.db.store[FailCount(attempt, id)], l.lockSeconds);
  }

  /** What the lock says of failures told the limit, it goes on saying. */
  lemma LockStillCovers(r: Run, i: nat, t: Try, id: string, attempt: Attempt, l: Limits)
    requires Invariant(r, i, id, attempt, l) && Positive(l) && t.Answered()
    requires !Holds(Pass(r.db, t.check.delay), Lock(attempt, id))
    ensures var after := Attempted(r, i, t, id, attempt, l);
            forall c | c in after.failures && after.failures[c].reply == l.maxAttempts ::
              Lock(attempt, id) in after.db.store && after.db.store[Lock(attempt, id)].expiresAt.Some?
              && after.failures[c].at + l.lockSeconds <= after.db.store[Lock(attempt, id)].expiresAt.value
  {
    FailureRecorded(r, i, t, id, attempt, l);
    CoverSurvivesFailure(Pass(r.db, t.check.delay), id, attempt, l, t);
    var after := Attempted(r, i, t, id, attempt, l);
    forall c | c in r.failures && r.failures[c].reply == l.maxAttempts
      ensures r.failures[c].at + l.lockSeconds <= after.failures[i].at
    {
      FailureFollows(r, i, t, id, attempt, l, c);
    }
  }

  lemma AttemptKeepsLocking(r: Run, i: nat, t: Try, id: string, attempt: Attempt, l: Limits)
    requires Invariant(r, i, id, attempt, l) && Positive(l) && t.Answered()
    ensures LastCountsLock(Attempted(r, i, t, id, attempt, l), id, attempt, l)
  {
    if !Holds(Pass(r.db, t.check.delay), Lock(attempt, id)) {
      FailureRecorded(r, i, t, id, attempt, l);
      LockStillCovers(r, i, t, id, attempt, l);
      var last := Attempted(r, i, t, id, attempt, l).failures[i];
      forall c | c in r.failures
        ensures r.failures[c].bornAt <= last.bornAt
        ensures r.failures[c].reply == l.maxAttempts ==> r.failures[c].at + l.lockSeconds <= last.at
      {
        FailureFollows(r, i, t, id, attempt, l, c);
      }
      LastIsLockApart(r.failures, i, last, l);
    }
  }

  lemma AttemptKeepsInvariant(r: Run, i: nat, t: Try, id: string, attempt: Attempt, l: Limits)
    requires Invariant(r, i, id, attempt, l) && Positive(l) && t.Answered()
    ensures Invariant(Attempted(r, i, t, id, attempt, l), i + 1, id, attempt, l)
  {
    FailureKeepsOrder(r, i, t, id, attempt, l);
    AttemptKeepsLocking(r, i, t, id, attempt, l);
    var (asked, standing) := Asked(r.db, id, attempt, t.check);
    if standing.Free? {
      CoverSurvivesFailure(asked, id, attempt, l, t);
    }
  }

  lemma {:induction false} RunKeepsInvariant(r: Run, i: nat, tries: seq<Try>, id: string, attempt: Attempt, l: Limits)
    requires Invariant(r, i, id, attempt, l) && Positive(l) && AllAnswered(tries)
    ensures Invariant(AttemptedAll(r, i, tries, id, attempt, l), i + |tries|, id, attempt, l)
    decreases |tries|
  {
    if tries != [] {
      assert tries[0] in tries && forall t | t in tries[1..] :: t in tries;
      AttemptKeepsInvariant(r, i, tries[0], id, attempt, l);
      RunKeepsInvariant(Attempted(r, i, tries[0], id, attempt, l), i + 1, tries[1..], id, attempt, l);
    }
  }

  ghost function FailuresWithin(r: Run, from: nat, window: nat): set<nat> {
    set c | c in r.failures && from <= r.failures[c].at < from + window
  }

  /**
   * Where two lives of the counter meet, the earlier one never reached the limit:
   * that would have locked the later one out.
   */
  lemma EarlyCountsStayUnderTheLimit(
      r: Run, i: nat, id: string, attempt: Attempt, l: Limits, from: nat, early: set<nat>, late: set<nat>)
    requires Invariant(r, i, id, attempt, l) && Positive(l)
    requires early + late == FailuresWithin(r, from, l.lockSeconds) && Split(r.failures, early, late)
    ensures forall c | c in early :: r.failures[c].reply <= l.maxAttempts - 1
  {
    forall c | c in early
      ensures r.failures[c].reply <= l.maxAttempts - 1
    {
      var d :| d in late;
      assert c in early + late && d in early + late;
      assert r.failures[c].bornAt < r.failures[d].bornAt;
      assert c < d;
    }
  }

  /**
   * However wrong attempts are spaced, no interval of `lockSeconds` records more
   * than `2 * maxAttempts - 2` of them, or more than one when one is the limit.
   */
  lemma FailuresAreBounded(db: Db, tries: seq<Try>, id: string, attempt: Attempt, l: Limits, from: nat)
    requires Clean(db, id, attempt) && Positive(l) && AllAnswered(tries)
    ensures |FailuresWithin(AttemptedAll(Run(db, map[]), 0, tries, id, attempt, l), from, l.lockSeconds)|
            <= if l.maxAttempts == 1 then 1 else 2 * l.maxAttempts - 2
  {
    RunKeepsInvariant(Run(db, map[]), 0, tries, id, attempt, l);
    var end := AttemptedAll(Run(db, map[]), 0, tries, id, attempt, l);
    var window, max := l.lockSeconds, l.maxAttempts;
    var chosen := FailuresWithin(end, from, window);
    OrderlyIsSpread(end.failures, end.db, FailCount(attempt, id), window);
    var early, late := SplitByLife(end.failures, window, max, from, chosen);
    EarlyCountsStayUnderTheLimit(end, |tries|, id, attempt, l, from, early, late);
    EarlyCountsStartAtTwo(end.failures, window, max, from, chosen, early, late);
    if max == 1 {
      assert early == {};
      TwoLivesBound(end.failures, window, max, max, from, chosen, early, late);
    } else {
      TwoLivesBound(end.failures, window, max, max - 1, from, chosen, early, late);
    }
  }

  /**
   * No lock lapses onto a spent counter: at any time after any run, an identity
   * that is not locked has at least one counted attempt left, and when its last
   * failure set the lock it has all of them.
   */
  lemma UnlockedMeansAllowance(db: Db, tries: seq<Try>, id: string, attempt: Attempt, l: Limits, wait: nat)
    requires Clean(db, id, attempt) && Positive(l) && AllAnswered(tries)
    ensures var end := AttemptedAll(Run(db, map[]), 0, tries, id, attempt, l);
            var later := Pass(end.db, wait);
            var k := FailCount(attempt, id);
            !Holds(later, Lock(attempt, id)) ==>
              && (Holds(later, k) ==> later.store[k].value < l.maxAttempts)
              && (k in end.db.store && end.db.store[k].value == l.maxAttempts ==>
                    Send(later, Incr(k), OnTime(0)).1 == Some(1))
  {
    RunKeepsInvariant(Run(db, map[]), 0, tries, id, attempt, l);
  }

  // ---- Whatever Redis does: exactly when the allowance comes back ----

  /** At some later moment the identity is free to try and its next failure is its first. */
  ghost predicate Recovers(db: Db, id: string, attempt: Attempt) {
    exists wait: nat ::
      var later := Pass(db, wait);
      !Holds(later, Lock(attempt, id)) && Send(later, Incr(FailCount(attempt, id)), OnTime(0)).1 == Some(1)
  }

  /** The stored counter, if there is one, is due to lapse. */
  predicate CounterLapses(db: Db, id: string, attempt: Attempt) {
    var k := FailCount(attempt, id);
    k in db.store ==> db.store[k].expiresAt.Some?
  }

  /** Locks are always set with an expiry, and a stored counter has counted something. */
  predicate Sane(db: Db, id: string, attempt: Attempt) {
    var k, lock := FailCount(attempt, id), Lock(attempt, id);
    && (k in db.store ==> 1 <= db.store[k].value)
    && (lock in db.store ==> db.store[lock].expiresAt.Some?)
  }

  lemma FailedStaysSane(db: Db, t: Try, id: string, attempt: Attempt, l: Limits)
    requires Sane(db, id, attempt)
    ensures Sane(Failed(db, id, attempt, l, t.Trips()), id, attempt)
  {
  }

  lemma AttemptStaysSane(r: Run, i: nat, t: Try, id: string, attempt: Attempt, l: Limits)
    requires Sane(r.db, id, attempt)
    ensures Sane(Attempted(r, i, t, id, attempt, l).db, id, attempt)
  {
    FailedStaysSane(Asked(r.db, id, attempt, t.check).0, t, id, attempt, l);
  }

  lemma {:induction false} RunStaysSane(r: Run, i: nat, tries: seq<Try>, id: string, attempt: Attempt, l: Limits)
    requires Sane(r.db, id, attempt)
    ensures Sane(AttemptedAll(r, i, tries, id, attempt, l).db, id, attempt)
    decreases |tries|
  {
    if tries != [] {
      AttemptStaysSane(r, i, tries[0], id, attempt, l);
      RunStaysSane(Attempted(r, i, tries[0], id, attempt, l), i + 1, tries[1..], id, attempt, l);
    }
  }

  /**
   * After any run of wrong attempts, whichever commands were answered, applied
   * without a reply or lost, the whole allowance comes back at some moment if
   * and only if the counter was left with an expiry.
   */
  lemma AllowanceReturnsIffCounterLapses(r: Run, i: nat, tries: seq<Try>, id: string, attempt: Attempt, l: Limits)
    requires Sane(r.db, id, attempt)
    ensures var end := AttemptedAll(r, i, tries, id, attempt, l).db;
            Recovers(end, id, attempt) <==> CounterLapses(end, id, attempt)
  {
    RunStaysSane(r, i, tries, id, attempt, l);
    var end := AttemptedAll(r, i, tries, id, attempt, l).db;
    var k, lock := FailCount(attempt, id), Lock(attempt, id);
    if CounterLapses(end, id, attempt) {
      var counterEnds := if k in end.store then end.store[k].expiresAt.value else 0;
      var lockEnds := if lock in end.store then end.store[lock].expiresAt.value else 0;
      var later := Pass(end, counterEnds + lockEnds);
      assert !Holds(later, lock) && Send(later, Incr(k), OnTime(0)).1 == Some(1);
    }
  }

  /**
   * What leaves a counter without an expiry: a let-in failure opens a new count,
   * and either its INCR is applied without a reply or its EXPIRE is lost.
   */
  predicate LeavesBare(db: Db, t: Try, id: string, attempt: Attempt) {
    var (asked, standing) := Asked(db, id, attempt, t.check);
    && standing.Free?
    && !Holds(Pass(asked, t.count.delay), FailCount(attempt, id))
    && t.count.wire != NeverArrived
    && (t.count.wire == ReplyLost || t.anchor.wire == NeverArrived)
  }

  lemma OnlyBareCountsStayBare(r: Run, i: nat, t: Try, id: string, attempt: Attempt, l: Limits)
    requires Sane(r.db, id, attempt)
    ensures CounterLapses(Attempted(r, i, t, id, attempt, l).db, id, attempt) <==>
            CounterLapses(r.db, id, attempt) && !LeavesBare(r.db, t, id, attempt)
  {
  }

  /** Over a run, no attempt leaves the counter without an expiry. */
  predicate NoneLeavesBare(r: Run, i: nat, tries: seq<Try>, id: string, attempt: Attempt, l: Limits)
    decreases |tries|
  {
    tries == [] ||
    (&& !LeavesBare(r.db, tries[0], id, attempt)
     && NoneLeavesBare(Attempted(r, i, tries[0], id, attempt, l), i + 1, tries[1..], id, attempt, l))
  }

  lemma {:induction false} RunLapsesIffNoneBare(
      r: Run, i: nat, tries: seq<Try>, id: string, attempt: Attempt, l: Limits)
    requires Sane(r.db, id, attempt)
    ensures CounterLapses(AttemptedAll(r, i, tries, id, attempt, l).db, id, attempt) <==>
            CounterLapses(r.db, id, attempt) && NoneLeavesBare(r, i, tries, id, attempt, l)
    decreases |tries|
  {
    if tries != [] {
      var next := Attempted(r, i, tries[0], id, attempt, l);
      OnlyBareCountsStayBare(r, i, tries[0], id, attempt, l);
      AttemptStaysSane(r, i, tries[0], id, attempt, l);
      RunLapsesIffNoneBare(next, i + 1, tries[1..], id, attempt, l);
    }
  }

  /**
   * In terms of what becomes of the commands: from a clean start the whole
   * allowance comes back at some moment after the run if and only if no failure
   * that opened a count lost its INCR's reply or its EXPIRE.
   */
  lemma AllowanceReturnsIffNoneLeavesBare(db: Db, tries: seq<Try>, id: string, attempt: Attempt, l: Limits)
    requires Clean(db, id, attempt)
    ensures Recovers(AttemptedAll(Run(db, map[]), 0, tries, id, attempt, l).db, id, attempt) <==>
            NoneLeavesBare(Run(db, map[]), 0, tries, id, attempt, l)
  {
    AllowanceReturnsIffCounterLapses(Run(db, map[]), 0, tries, id, attempt, l);
    RunLapsesIffNoneBare(Run(db, map[]), 0, tries, id, attempt, l);
  }

  /** A counter without an expiry that the next failure fills. */
  predicate Stuck(db: Db, id: string, attempt: Attempt, l: Limits) {
    var k := FailCount(attempt, id);
    k in db.store && db.store[k].expiresAt == None && 1 <= db.store[k].value && l.maxAttempts - 1 <= db.store[k].value
  }

  lemma AttemptStaysStuck(r: Run, i: nat, t: Try, id: string, attempt: Attempt, l: Limits)
    requires Stuck(r.db, id, attempt, l) && Positive(l)
    ensures var after := Attempted(r, i, t, id, attempt, l).db;
            && Stuck(after, id, attempt, l)
            && (t.Answered() ==> Holds(after, Lock(attempt, id)))
  {
  }

  /**
   * A stuck counter never lapses: over any run of wrong attempts, with any time
   * between them, every one whose commands are answered ends locked.
   */
  lemma {:induction false} UnanchoredCounterKeepsLocking(
      r: Run, i: nat, tries: seq<Try>, id: string, attempt: Attempt, l: Limits)
    requires Stuck(r.db, id, attempt, l) && Positive(l)
    ensures var end := AttemptedAll(r, i, tries, id, attempt, l).db;
            && Stuck(end, id, attempt, l)
            && (tries != [] && tries[|tries| - 1].Answered() ==> Holds(end, Lock(attempt, id)))
    decreases |tries|
  {
    if tries != [] {
      var next := Attempted(r, i, tries[0], id, attempt, l);
      AttemptStaysStuck(r, i, tries[0], id, attempt, l);
      UnanchoredCounterKeepsLocking(next, i + 1, tries[1..], id, attempt, l);
    }
  }

  /** A wrong attempt on time; and one whose EXPIRE never arrives. */
  const PROMPT := Try(Trip(0, Answered), Trip(0, Answered), Trip(0, Answered), Trip(0, Answered))
  const UNANCHORED := PROMPT.(anchor := Trip(0, NeverArrived))

  lemma {:induction false} PromptFailuresFill(
      r: Run, i: nat, id: string, attempt: Attempt, l: Limits, n: nat) returns (tries: seq<Try>)
    requires FailCount(attempt, id) in r.db.store && r.db.store[FailCount(attempt, id)].expiresAt == None
    requires 1 <= r.db.store[FailCount(attempt, id)].value && Lock(attempt, id) !in r.db.store
    requires r.db.store[FailCount(attempt, id)].value + n < l.maxAttempts
    ensures AllAnswered(tries)
    ensures var k, end := FailCount(attempt, id), AttemptedAll(r, i, tries, id, attempt, l).db;
            && k in end.store && end.store[k].expiresAt == None
            && end.store[k].value == r.db.store[k].value + n
    decreases n
  {
    if n == 0 {
      tries := [];
    } else {
      var next := Attempted(r, i, PROMPT, id, attempt, l);
      var rest := PromptFailuresFill(next, i + 1, id, attempt, l, n - 1);
      tries := [PROMPT] + rest;
      assert tries[1..] == rest;
    }
  }

  /** It takes one lost EXPIRE: from a clean start, a run with nothing else amiss leaves the counter stuck. */
  lemma OneLostExpireSticks(db: Db, id: string, attempt: Attempt, l: Limits) returns (tries: seq<Try>)
    requires Clean(db, id, attempt) && Positive(l)
    ensures tries != [] && tries[0] == UNANCHORED && AllAnswered(tries[1..])
    ensures Stuck(AttemptedAll(Run(db, map[]), 0, tries, id, attempt, l).db, id, attempt, l)
  {
    var first := Attempted(Run(db, map[]), 0, UNANCHORED, id, attempt, l);
    var rest: seq<Try> := [];
    if l.maxAttempts > 2 {
      rest := PromptFailuresFill(first, 1, id, attempt, l, l.maxAttempts - 2);
    }
    tries := [UNANCHORED] + rest;
    assert tries[1..] == rest;
  }

  /** A failure on one form changes only that form's two keys for that identity. */
  lemma FormsDoNotShareKeys(db: Db, id: string, attempt: Attempt, l: Limits, trips: seq<Trip>, other: Key)
    requires |trips| == 3 && other != FailCount(attempt, id) && other != Lock(attempt, id)
    ensures var after := Failed(db, id, attempt, l, trips);
            && (other in after.store <==> other in db.store)
            && (other in db.store ==> after.store[other] == db.store[other])
  {
  }

  /** A success that reaches Redis restores the sign-in allowance and leaves the reset form's alone. */
  lemma SuccessClearsSignInOnly(db: Db, id: string, trip: Trip)
    requires trip.wire != NeverArrived
    ensures var after := Send(db, Del({FailCount(SignIn, id), Lock(SignIn, id)}), trip).0;
            && Clean(after, id, SignIn)
            && Asked(after, id, SignIn, OnTime(0)).1 == Free
            && (forall k | k in {FailCount(Reset, id), Lock(Reset, id)} ::
                  (k in after.store <==> k in db.store) && (k in db.store ==> after.store[k] == db.store[k]))
  {
  }
}

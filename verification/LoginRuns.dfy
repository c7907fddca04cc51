/**
 * Wrong attempts on one identity side by side, with Redis answering: any number
 * may pass the lock before any of them is counted.
 */
module LoginRuns {
  import opened LoginThrottle
  import opened Prelude
  import opened Redis
  import opened WindowCounter

  /** Where one attempt is: which command it sends next. `LetIn` is between the lock's answer and the count. */
  datatype Phase = Asking | LetIn | Anchoring | Locking | Finished

  /** `failures` is history: when each attempt was counted, in which life, and what it was told. */
  datatype World = World(db: Db, phases: map<nat, Phase>, failures: map<nat, Spend>)

  datatype Case = Case(id: string, attempt: Attempt, l: Limits)
  {
    function FailKey(): Key {
      FailCount(attempt, id)
    }

    function LockKey(): Key {
      Lock(attempt, id)
    }
  }

  datatype Event =
    | Wait(ticks: nat)
    | Begin(c: nat)
    | Step(c: nat, delay: nat)
    | Elsewhere(command: Command, trip: Trip)

  predicate Enabled(k: Case, w: World, e: Event) {
    match e
    case Wait(_) => true
    case Begin(c) => c !in w.phases
    case Step(c, _) => c in w.phases && w.phases[c] != Finished
    case Elsewhere(command, _) => !Touches(k.FailKey(), command) && !Touches(k.LockKey(), command)
  }

  function AfterCount(k: Case, reply: int): Phase {
    if reply == 1 then Anchoring else if reply >= k.l.maxAttempts then Locking else Finished
  }

  function Apply(k: Case, w: World, e: Event): World
    requires Enabled(k, w, e)
  {
    match e
    case Wait(ticks) => w.(db := Pass(w.db, ticks))
    case Begin(c) => w.(phases := w.phases[c := Asking])
    case Elsewhere(command, trip) => w.(db := Send(w.db, command, trip).0)
    case Step(c, delay) =>
      match w.phases[c]
      case Asking =>
        var (after, standing) := Asked(w.db, k.id, k.attempt, OnTime(delay));
        w.(db := after, phases := w.phases[c := if standing.Free? then LetIn else Finished])
      case LetIn =>
        var (after, reply) := Send(w.db, Incr(k.FailKey()), OnTime(delay));
        World(after, w.phases[c := AfterCount(k, reply.value)],
              w.failures[c := Spend(after.now, after.store[k.FailKey()].bornAt, reply.value)])
      case Anchoring =>
        w.(db := Send(w.db, Expire(k.FailKey(), k.l.lockSeconds), OnTime(delay)).0,
           phases := w.phases[c := if 1 < k.l.maxAttempts then Finished else Locking])
      case Locking =>
        w.(db := Send(w.db, SetEx(k.LockKey(), k.l.lockSeconds), OnTime(delay)).0, phases := w.phases[c := Finished])
  }

  /** An attempt nothing runs beside is an attempt of the serial runs. */
  lemma AloneIsAttempted(k: Case, w: World, c: nat, check: nat, count: nat, anchor: nat, lock: nat)
    requires c !in w.phases
    ensures var t := Try(OnTime(check), OnTime(count), OnTime(anchor), OnTime(lock));
            var r := Attempted(Run(w.db, w.failures), c, t, k.id, k.attempt, k.l);
            var asked := Apply(k, Apply(k, w, Begin(c)), Step(c, check));
            if asked.phases[c] == Finished then asked.db == r.db && asked.failures == r.failures
            else
              var counted := Apply(k, asked, Step(c, count));
              var anchored := if counted.phases[c] == Anchoring then Apply(k, counted, Step(c, anchor)) else counted;
              var end := if anchored.phases[c] == Locking then Apply(k, anchored, Step(c, lock)) else anchored;
              end.phases[c] == Finished && end.db == r.db && end.failures == r.failures
  {
  }

  /** Let in, and not finished: what the lock's next answer cannot stop any more. */
  function InFlight(w: World): set<nat> {
    set c | c in w.phases && w.phases[c] in {LetIn, Anchoring, Locking}
  }

  function Uncounted(w: World): set<nat> {
    set c | c in w.phases && w.phases[c] == LetIn
  }

  /** A run with never more than `p` attempts in flight. */
  ghost predicate IsRun(k: Case, w: World, es: seq<Event>, p: nat)
    decreases |es|
  {
    && |InFlight(w)| <= p
    && (es == [] || (Enabled(k, w, es[0]) && IsRun(k, Apply(k, w, es[0]), es[1..], p)))
  }

  ghost function End(k: Case, w: World, es: seq<Event>, p: nat): World
    requires IsRun(k, w, es, p)
    decreases |es|
  {
    if es == [] then w else End(k, Apply(k, w, es[0]), es[1..], p)
  }

  predicate Fresh(k: Case, w: World) {
    Clean(w.db, k.id, k.attempt) && w.phases == map[] && w.failures == map[]
  }

  function FailuresIn(k: Case, w: World, from: nat): set<nat> {
    set c | c in w.failures && from <= w.failures[c].at < from + k.l.lockSeconds
  }

  /** Those of them that were told the limit or more. */
  function OverIn(k: Case, w: World, from: nat): set<nat> {
    set c | c in FailuresIn(k, w, from) && k.l.maxAttempts <= w.failures[c].reply
  }

  ghost predicate LockedUntil(k: Case, w: World, until: nat) {
    && k.LockKey() in w.db.store && w.db.store[k.LockKey()].expiresAt.Some?
    && until <= w.db.store[k.LockKey()].expiresAt.value
  }

  /**
   * Until a lock is set in the interval, all who were told the limit are still
   * in flight; from then on nobody new is let in before the interval is over.
   */
  ghost predicate Contained(k: Case, w: World, from: nat, p: nat) {
    var until := from + k.l.lockSeconds;
    && |OverIn(k, w, from)| <= p
    && (w.db.now < until ==>
          || OverIn(k, w, from) <= InFlight(w)
          || (LockedUntil(k, w, until) && |OverIn(k, w, from) + Uncounted(w)| <= p))
  }

  ghost predicate Recorded(k: Case, w: World) {
    && Orderly(w.failures, w.db, k.FailKey(), k.l.lockSeconds)
    && (forall c | c in w.failures :: c in w.phases && w.phases[c] in {Anchoring, Locking, Finished})
    && (forall c | c in w.phases && w.phases[c] in {Anchoring, Locking} :: c in w.failures)
    && (forall c | c in w.phases && w.phases[c] == Anchoring :: w.failures[c].reply == 1)
  }

  lemma StepKeepsRecord(k: Case, w: World, e: Event)
    requires Recorded(k, w) && Enabled(k, w, e) && Positive(k.l)
    ensures Recorded(k, Apply(k, w, e))
  {
    var key, window := k.FailKey(), k.l.lockSeconds;
    match e {
      case Wait(_) =>
      case Begin(_) =>
      case Elsewhere(command, trip) => IdiomaticKeepsOrder(w.failures, w.db, command, trip, key, window);
      case Step(c, delay) =>
        match w.phases[c] {
          case Asking => IdiomaticKeepsOrder(w.failures, w.db, Ttl(k.LockKey()), OnTime(delay), key, window);
          case LetIn => CountJoinsInOrder(w.failures, w.db, OnTime(delay), key, window, c);
          case Anchoring => IdiomaticKeepsOrder(w.failures, w.db, Expire(key, window), OnTime(delay), key, window);
          case Locking => IdiomaticKeepsOrder(w.failures, w.db, SetEx(k.LockKey(), window), OnTime(delay), key, window);
        }
    }
  }

  /** Nothing but a count changes who was told the limit, and only its own entry. */
  lemma OverGrowsByCounts(k: Case, w: World, e: Event, from: nat)
    requires Recorded(k, w) && Enabled(k, w, e)
    ensures var before, after := OverIn(k, w, from), OverIn(k, Apply(k, w, e), from);
            && (after == before
                || (e.Step? && w.phases[e.c] == LetIn && after == before + {e.c}
                    && from <= w.db.now + e.delay < from + k.l.lockSeconds
                    && Apply(k, w, e).phases[e.c] in {Anchoring, Locking}))
  {
    var before, after := OverIn(k, w, from), OverIn(k, Apply(k, w, e), from);
    if e.Step? && w.phases[e.c] == LetIn {
      assert e.c !in w.failures;
      assert after - {e.c} == before;
    }
  }

  /** A lock that stands until `until` goes on doing so. */
  lemma LockStands(k: Case, w: World, e: Event, until: nat)
    requires Enabled(k, w, e) && LockedUntil(k, w, until) && w.db.now + k.l.lockSeconds >= until
    ensures LockedUntil(k, Apply(k, w, e), until)
  {
  }

  /** While it stands, an attempt that was not let in before is not let in now. */
  lemma NobodyNewIsLetIn(k: Case, w: World, e: Event, until: nat)
    requires Enabled(k, w, e) && LockedUntil(k, w, until) && Apply(k, w, e).db.now < until
    ensures Uncounted(Apply(k, w, e)) <= Uncounted(w)
    ensures e.Step? && w.phases[e.c] == LetIn ==> e.c in Uncounted(w)
  {
  }

  lemma LockedStaysContained(k: Case, w: World, e: Event, from: nat, p: nat)
    requires Recorded(k, w) && Enabled(k, w, e)
    requires LockedUntil(k, w, from + k.l.lockSeconds) && from <= w.db.now
    requires |OverIn(k, w, from) + Uncounted(w)| <= p
    ensures Contained(k, Apply(k, w, e), from, p)
  {
    var until := from + k.l.lockSeconds;
    var was, after := OverIn(k, w, from) + Uncounted(w), Apply(k, w, e);
    LockStands(k, w, e, until);
    OverGrowsByCounts(k, w, e, from);
    assert OverIn(k, after, from) <= was;
    SubsetIsSmaller(OverIn(k, after, from), was);
    if after.db.now < until {
      NobodyNewIsLetIn(k, w, e, until);
      assert OverIn(k, after, from) + Uncounted(after) <= was;
      SubsetIsSmaller(OverIn(k, after, from) + Uncounted(after), was);
    }
  }

  lemma LockingContains(k: Case, w: World, c: nat, delay: nat, from: nat, p: nat)
    requires Recorded(k, w) && Enabled(k, w, Step(c, delay)) && w.phases[c] == Locking
    requires OverIn(k, w, from) <= InFlight(w) && |InFlight(w)| <= p && from <= w.db.now + delay
    ensures Contained(k, Apply(k, w, Step(c, delay)), from, p)
  {
    var after := Apply(k, w, Step(c, delay));
    assert OverIn(k, after, from) == OverIn(k, w, from);
    SubsetIsSmaller(OverIn(k, after, from), InFlight(w));
    assert LockedUntil(k, after, from + k.l.lockSeconds);
    assert OverIn(k, after, from) + Uncounted(after) <= InFlight(w);
    SubsetIsSmaller(OverIn(k, after, from) + Uncounted(after), InFlight(w));
  }

  /** Who was told the limit leaves flight only by setting the lock. */
  lemma OverMovesOn(k: Case, w: World, c: nat, delay: nat, from: nat)
    requires Recorded(k, w) && Enabled(k, w, Step(c, delay)) && Positive(k.l)
    requires c in OverIn(k, Apply(k, w, Step(c, delay)), from) && w.phases[c] != Locking
    ensures c in InFlight(Apply(k, w, Step(c, delay)))
  {
    OverGrowsByCounts(k, w, Step(c, delay), from);
  }

  lemma NothingOverYet(k: Case, w: World, from: nat)
    requires Recorded(k, w) && w.db.now < from
    ensures OverIn(k, w, from) == {}
  {
    forall c | c in w.failures
      ensures c !in OverIn(k, w, from)
    {
      assert Timely(w.failures[c], w.db.now);
    }
  }

  lemma OverStaysInFlight(k: Case, w: World, e: Event, from: nat)
    requires Recorded(k, w) && Enabled(k, w, e) && Positive(k.l) && OverIn(k, w, from) <= InFlight(w)
    requires !(e.Step? && w.phases[e.c] == Locking)
    ensures OverIn(k, Apply(k, w, e), from) <= InFlight(Apply(k, w, e))
  {
    var after := Apply(k, w, e);
    OverGrowsByCounts(k, w, e, from);
    forall c | c in OverIn(k, after, from)
      ensures c in InFlight(after)
    {
      if e.Step? && c == e.c {
        OverMovesOn(k, w, c, e.delay, from);
      } else {
        assert c in InFlight(w);
      }
    }
  }

  lemma UnlockedStaysContained(k: Case, w: World, e: Event, from: nat, p: nat)
    requires Recorded(k, w) && Enabled(k, w, e) && Positive(k.l) && OverIn(k, w, from) <= InFlight(w)
    requires |InFlight(w)| <= p
    ensures Contained(k, Apply(k, w, e), from, p)
  {
    var after := Apply(k, w, e);
    if !(e.Step? && w.phases[e.c] == Locking) {
      OverGrowsByCounts(k, w, e, from);
      SubsetIsSmaller(OverIn(k, after, from), InFlight(w));
      OverStaysInFlight(k, w, e, from);
    } else if after.db.now < from {
      StepKeepsRecord(k, w, e);
      NothingOverYet(k, after, from);
    } else {
      LockingContains(k, w, e.c, e.delay, from, p);
    }
  }

  lemma TimeGoesOn(k: Case, w: World, e: Event)
    requires Enabled(k, w, e)
    ensures w.db.now <= Apply(k, w, e).db.now
  {
  }

  lemma StepStaysContained(k: Case, w: World, e: Event, from: nat, p: nat)
    requires Recorded(k, w) && Enabled(k, w, e) && Positive(k.l) && Contained(k, w, from, p) && |InFlight(w)| <= p
    ensures Contained(k, Apply(k, w, e), from, p)
  {
    if from + k.l.lockSeconds <= w.db.now {
      OverGrowsByCounts(k, w, e, from);
      TimeGoesOn(k, w, e);
    } else if OverIn(k, w, from) <= InFlight(w) {
      UnlockedStaysContained(k, w, e, from, p);
    } else {
      assert from <= w.db.now by {
        var c :| c in OverIn(k, w, from) && c !in InFlight(w);
        assert Timely(w.failures[c], w.db.now);
      }
      LockedStaysContained(k, w, e, from, p);
    }
  }

  lemma {:induction false} RunStaysContained(k: Case, w: World, es: seq<Event>, from: nat, p: nat)
    requires IsRun(k, w, es, p) && Recorded(k, w) && Positive(k.l) && Contained(k, w, from, p)
    ensures Recorded(k, End(k, w, es, p)) && Contained(k, End(k, w, es, p), from, p)
    decreases |es|
  {
    if es != [] {
      StepKeepsRecord(k, w, es[0]);
      StepStaysContained(k, w, es[0], from, p);
      RunStaysContained(k, Apply(k, w, es[0]), es[1..], from, p);
    }
  }

  /**
   * The failures short of the limit one lock's length can record: those of two
   * lives of the counter - or of one, when the limit is one or the lock lasts a
   * single second.
   */
  function MostUnderTheLimit(l: Limits): int {
    if l.maxAttempts == 1 || l.lockSeconds == 1 then l.maxAttempts - 1 else 2 * l.maxAttempts - 3
  }

  /** All failures: those, and one for each of the `p` attempts that may be in flight. */
  function MostFailures(l: Limits, p: nat): int {
    MostUnderTheLimit(l) + p
  }

  lemma UnderTheLimitAreFew(k: Case, w: World, from: nat, under: set<nat>)
    requires Recorded(k, w) && Positive(k.l) && under <= FailuresIn(k, w, from)
    requires forall c | c in under :: w.failures[c].reply <= k.l.maxAttempts - 1
    ensures |under| <= MostUnderTheLimit(k.l)
  {
    OrderlyIsSpread(w.failures, w.db, k.FailKey(), k.l.lockSeconds);
    if p :| p in under && (k.l.maxAttempts == 1 || k.l.lockSeconds == 1) {
      assert Timely(w.failures[p], w.db.now);
      forall c | c in under ensures w.failures[c].bornAt == w.failures[p].bornAt {
        assert c in FailuresIn(k, w, from) && p in FailuresIn(k, w, from);
        assert Timely(w.failures[c], w.db.now);
        assert c != p ==> Apart(w.failures[c], w.failures[p], k.l.lockSeconds)
                          && Apart(w.failures[p], w.failures[c], k.l.lockSeconds);
      }
      OneLifeBound(w.failures, k.l.lockSeconds, under, w.failures[p].bornAt, 1, k.l.maxAttempts - 1);
    } else if under != {} {
      QuotaOverAnyWindow(w.failures, k.l.lockSeconds, k.l.maxAttempts - 1, from, under);
    }
  }

  /**
   * However attempts interleave, with never more than `p` of them let in and not
   * finished, no interval of `lockSeconds` records more failures than that. For
   * one at a time this is the serial bound.
   */
  lemma InterleavedFailuresAreBounded(k: Case, w: World, es: seq<Event>, from: nat, p: nat)
    requires Fresh(k, w) && IsRun(k, w, es, p) && Positive(k.l)
    ensures |FailuresIn(k, End(k, w, es, p), from)| <= MostFailures(k.l, p)
  {
    RunStaysContained(k, w, es, from, p);
    var end := End(k, w, es, p);
    var all, over := FailuresIn(k, end, from), OverIn(k, end, from);
    SubsetIsSmaller(over, all);
    UnderTheLimitAreFew(k, end, from, all - over);
  }

  // ---- The bound is reached ----

  datatype Trace = Trace(start: World, es: seq<Event>, at: World)

  ghost predicate Valid(k: Case, p: nat, t: Trace) {
    Fresh(k, t.start) && IsRun(k, t.start, t.es, p) && End(k, t.start, t.es, p) == t.at
  }

  lemma {:induction false} RunExtends(k: Case, p: nat, w: World, es: seq<Event>, e: Event)
    requires IsRun(k, w, es, p) && Enabled(k, End(k, w, es, p), e)
    requires |InFlight(Apply(k, End(k, w, es, p), e))| <= p
    ensures IsRun(k, w, es + [e], p) && End(k, w, es + [e], p) == Apply(k, End(k, w, es, p), e)
    decreases |es|
  {
    if es == [] {
      assert es + [e] == [e];
    } else {
      RunExtends(k, p, Apply(k, w, es[0]), es[1..], e);
      assert (es + [e])[1..] == es[1..] + [e];
    }
  }

  lemma Take(k: Case, p: nat, t: Trace, e: Event) returns (u: Trace)
    requires Valid(k, p, t) && Enabled(k, t.at, e) && |InFlight(Apply(k, t.at, e))| <= p
    ensures Valid(k, p, u) && u.start == t.start && u.at == Apply(k, t.at, e)
  {
    RunExtends(k, p, t.start, t.es, e);
    u := Trace(t.start, t.es + [e], Apply(k, t.at, e));
  }

  /**
   * The first `done` attempts have finished, and `counted` of them were counted
   * at or after `from`; nothing is locked.
   */
  datatype Cast = Cast(done: nat, counted: set<nat>, from: nat)

  ghost predicate Staged(k: Case, w: World, c: Cast) {
    && k.LockKey() !in w.db.store
    && (forall i: nat :: i in w.phases <==> i < c.done)
    && (forall i | i in w.phases :: w.phases[i] == Finished)
    && (forall i | i in c.counted :: i < c.done && i in w.failures && c.from <= w.failures[i].at <= w.db.now)
  }

  ghost predicate Counter(k: Case, w: World, value: nat, lapse: nat) {
    var key := k.FailKey();
    key in w.db.store && w.db.store[key] == Entry(value, w.db.store[key].bornAt, Some(lapse)) && w.db.now < lapse
  }

  /** An attempt is let in while nothing is locked. */
  lemma IsLetIn(k: Case, p: nat, t: Trace, i: nat) returns (u: Trace)
    requires Valid(k, p, t) && i !in t.at.phases && k.LockKey() !in t.at.db.store && |InFlight(t.at)| < p
    ensures Valid(k, p, u) && u.at == t.at.(phases := t.at.phases[i := LetIn])
  {
    assert InFlight(Apply(k, t.at, Begin(i))) == InFlight(t.at);
    u := Take(k, p, t, Begin(i));
    assert InFlight(Apply(k, u.at, Step(i, 0))) == InFlight(t.at) + {i};
    u := Take(k, p, u, Step(i, 0));
    assert u.at.db == t.at.db;
  }

  lemma NobodyFlies(k: Case, w: World, c: Cast)
    requires Staged(k, w, c)
    ensures InFlight(w) == {}
  {
  }

  lemma CountsFirst(k: Case, p: nat, t: Trace, i: nat) returns (u: Trace)
    requires Valid(k, p, t) && i in t.at.phases && t.at.phases[i] == LetIn && InFlight(t.at) == {i} && 1 <= p
    requires !Holds(t.at.db, k.FailKey()) && k.LockKey() !in t.at.db.store
    ensures Valid(k, p, u) && u.at.phases == t.at.phases[i := Anchoring] && u.at.db.now == t.at.db.now
    ensures k.LockKey() !in u.at.db.store && Holds(u.at.db, k.FailKey())
    ensures u.at.db.store[k.FailKey()] == Entry(1, t.at.db.now, None)
    ensures u.at.failures == t.at.failures[i := Spend(t.at.db.now, t.at.db.now, 1)]
  {
    assert InFlight(Apply(k, t.at, Step(i, 0))) == {i};
    u := Take(k, p, t, Step(i, 0));
  }

  lemma Anchors(k: Case, p: nat, t: Trace, i: nat) returns (u: Trace)
    requires Valid(k, p, t) && i in t.at.phases && t.at.phases[i] == Anchoring && InFlight(t.at) == {i}
    requires Holds(t.at.db, k.FailKey()) && k.LockKey() !in t.at.db.store
    requires t.at.db.store[k.FailKey()] == Entry(1, t.at.db.now, None)
    requires 2 <= k.l.maxAttempts && 1 <= k.l.lockSeconds
    ensures Valid(k, p, u) && u.at.phases == t.at.phases[i := Finished] && u.at.db.now == t.at.db.now
    ensures k.LockKey() !in u.at.db.store && Counter(k, u.at, 1, t.at.db.now + k.l.lockSeconds)
    ensures u.at.failures == t.at.failures
  {
    var next := Apply(k, t.at, Step(i, 0));
    assert next.phases == t.at.phases[i := Finished];
    assert InFlight(next) <= InFlight(t.at) && i !in InFlight(next);
    assert InFlight(next) == {};
    u := Take(k, p, t, Step(i, 0));
  }

  /** One attempt by itself, the first of a life. */
  lemma FirstFails(k: Case, p: nat, t: Trace, c: Cast) returns (u: Trace)
    requires Valid(k, p, t) && Staged(k, t.at, c) && 1 <= p && 2 <= k.l.maxAttempts && 1 <= k.l.lockSeconds
    requires !Holds(t.at.db, k.FailKey()) && c.from <= t.at.db.now
    ensures Valid(k, p, u) && Staged(k, u.at, c.(done := c.done + 1, counted := c.counted + {c.done}))
    ensures Counter(k, u.at, 1, t.at.db.now + k.l.lockSeconds) && u.at.db.now == t.at.db.now
  {
    NobodyFlies(k, t.at, c);
    u := IsLetIn(k, p, t, c.done);
    assert InFlight(u.at) == {c.done};
    u := CountsFirst(k, p, u, c.done);
    assert InFlight(u.at) == {c.done};
    u := Anchors(k, p, u, c.done);
  }

  /** One attempt by itself, short of the limit. */
  lemma NextFails(k: Case, p: nat, t: Trace, c: Cast, value: nat, lapse: nat) returns (u: Trace)
    requires Valid(k, p, t) && Staged(k, t.at, c) && 1 <= p && c.from <= t.at.db.now
    requires Counter(k, t.at, value, lapse) && 1 <= value && value + 1 < k.l.maxAttempts
    ensures Valid(k, p, u) && Staged(k, u.at, c.(done := c.done + 1, counted := c.counted + {c.done}))
    ensures Counter(k, u.at, value + 1, lapse) && u.at.db.now == t.at.db.now
  {
    NobodyFlies(k, t.at, c);
    u := IsLetIn(k, p, t, c.done);
    assert InFlight(Apply(k, u.at, Step(c.done, 0))) == {};
    u := Take(k, p, u, Step(c.done, 0));
    assert u.at.phases == t.at.phases[c.done := Finished];
  }

  lemma {:induction false} ManyFail(k: Case, p: nat, t: Trace, c: Cast, value: nat, lapse: nat, some: nat)
    returns (u: Trace, d: Cast)
    requires Valid(k, p, t) && Staged(k, t.at, c) && 1 <= p && c.from <= t.at.db.now
    requires Counter(k, t.at, value, lapse) && 1 <= value && value + some < k.l.maxAttempts
    ensures Valid(k, p, u) && Staged(k, u.at, d) && Counter(k, u.at, value + some, lapse)
    ensures u.at.db.now == t.at.db.now && d.from == c.from && |d.counted| == |c.counted| + some
    decreases some
  {
    u, d := t, c;
    if some > 0 {
      u := NextFails(k, p, t, c, value, lapse);
      assert c.done !in c.counted;
      u, d := ManyFail(k, p, u, c.(done := c.done + 1, counted := c.counted + {c.done}), value + 1, lapse, some - 1);
    }
  }

  lemma TimePasses(k: Case, p: nat, t: Trace, c: Cast, ticks: nat) returns (u: Trace)
    requires Valid(k, p, t) && Staged(k, t.at, c)
    ensures Valid(k, p, u) && Staged(k, u.at, c) && u.at == t.at.(db := Pass(t.at.db, ticks))
  {
    NobodyFlies(k, t.at, c);
    assert InFlight(Apply(k, t.at, Event.Wait(ticks))) == {};
    u := Take(k, p, t, Event.Wait(ticks));
  }

  /** All but one of a life's counts, each attempt by itself. */
  lemma LifeFails(k: Case, p: nat, t: Trace, c: Cast) returns (u: Trace, d: Cast)
    requires Valid(k, p, t) && Staged(k, t.at, c) && 1 <= p && 2 <= k.l.maxAttempts && 1 <= k.l.lockSeconds
    requires !Holds(t.at.db, k.FailKey()) && c.from <= t.at.db.now
    ensures Valid(k, p, u) && Staged(k, u.at, d) && u.at.db.now == t.at.db.now && d.from == c.from
    ensures |d.counted| == |c.counted| + k.l.maxAttempts - 1
  {
    u := FirstFails(k, p, t, c);
    assert c.done !in c.counted;
    d := c.(done := c.done + 1, counted := c.counted + {c.done});
    u, d := ManyFail(k, p, u, d, 1, t.at.db.now + k.l.lockSeconds, k.l.maxAttempts - 2);
  }

  /** A life that starts a lock's length ago fails on at its very end, all but its last count, and lapses. */
  lemma EndOfLifeFails(k: Case, p: nat, t: Trace) returns (u: Trace, d: Cast)
    requires Valid(k, p, t) && Staged(k, t.at, Cast(0, {}, 0)) && 1 <= p
    requires 2 <= k.l.maxAttempts && 2 <= k.l.lockSeconds && !Holds(t.at.db, k.FailKey())
    ensures Valid(k, p, u) && Staged(k, u.at, d) && !Holds(u.at.db, k.FailKey())
    ensures |d.counted| == k.l.maxAttempts - 2 && u.at.db.now == d.from + 1
  {
    var lapse := t.at.db.now + k.l.lockSeconds;
    u := FirstFails(k, p, t, Cast(0, {}, 0));
    d := Cast(1, {0}, 0);
    assert {} + {0} == {0};
    u := TimePasses(k, p, u, d, k.l.lockSeconds - 1);
    u, d := ManyFail(k, p, u, Cast(1, {}, u.at.db.now), 1, lapse, k.l.maxAttempts - 2);
    u := TimePasses(k, p, u, d, 1);
  }

  /** Some attempts have finished, and those in `flying` are let in and counted or about to be. */
  ghost predicate Flying(k: Case, w: World, c: Cast, flying: set<nat>, waiting: set<nat>) {
    && InFlight(w) <= flying && waiting <= Uncounted(w) && waiting <= flying && c.counted !! waiting
    && (forall i | i in c.counted :: i in w.failures && c.from <= w.failures[i].at <= w.db.now)
  }

  /** Nothing keeps `p` attempts from being let in together, */
  lemma {:induction false} ManyAreLetIn(k: Case, p: nat, t: Trace, c: Cast, some: nat)
    returns (u: Trace, flying: set<nat>)
    requires Valid(k, p, t) && Staged(k, t.at, c) && some <= p
    ensures Valid(k, p, u) && |flying| == some && u.at.db == t.at.db && u.at.failures == t.at.failures
    ensures Flying(k, u.at, c, flying, flying) && InFlight(u.at) == flying
    ensures k.LockKey() !in u.at.db.store && (forall i | i in u.at.phases :: i < c.done + some)
    decreases some
  {
    if some == 0 {
      u, flying := t, {};
      NobodyFlies(k, t.at, c);
    } else {
      u, flying := ManyAreLetIn(k, p, t, c, some - 1);
      var i, before := c.done + some - 1, u.at;
      assert i !in flying;
      u := IsLetIn(k, p, u, i);
      flying := flying + {i};
      assert InFlight(u.at) == flying;
    }
  }

  lemma OneIsCounted(k: Case, p: nat, t: Trace, c: Cast, flying: set<nat>, waiting: set<nat>, i: nat)
    returns (u: Trace)
    requires Valid(k, p, t) && Flying(k, t.at, c, flying, waiting) && |flying| <= p && c.from <= t.at.db.now
    requires i in waiting
    ensures Valid(k, p, u) && u.at.db.now == t.at.db.now && i !in c.counted
    ensures Flying(k, u.at, c.(counted := c.counted + {i}), flying, waiting - {i})
  {
    var next := Apply(k, t.at, Step(i, 0));
    assert InFlight(next) <= flying;
    SubsetIsSmaller(InFlight(next), flying);
    u := Take(k, p, t, Step(i, 0));
  }

  /** and then every one of them is counted. */
  lemma {:induction false} AllAreCounted(
      k: Case, p: nat, t: Trace, c: Cast, flying: set<nat>, waiting: set<nat>)
    returns (u: Trace, d: Cast)
    requires Valid(k, p, t) && Flying(k, t.at, c, flying, waiting) && |flying| <= p && c.from <= t.at.db.now
    ensures Valid(k, p, u) && Flying(k, u.at, d, flying, {}) && u.at.db.now == t.at.db.now
    ensures d.from == c.from && |d.counted| == |c.counted| + |waiting|
    decreases |waiting|
  {
    u, d := t, c;
    if i :| i in waiting {
      u := OneIsCounted(k, p, t, c, flying, waiting, i);
      u, d := AllAreCounted(k, p, u, c.(counted := c.counted + {i}), flying, waiting - {i});
    }
  }

  lemma BoundIsReached(k: Case, p: nat) returns (w: World, es: seq<Event>, from: nat)
    requires Positive(k.l) && 1 <= p
    ensures Fresh(k, w) && IsRun(k, w, es, p)
    ensures |FailuresIn(k, End(k, w, es, p), from)| >= MostFailures(k.l, p)
  {
    w := World(Db(0, map[]), map[], map[]);
    assert InFlight(w) == {};
    var t, c := Trace(w, [], w), Cast(0, {}, 0);
    if k.l.maxAttempts > 1 {
      if k.l.lockSeconds > 1 {
        t, c := EndOfLifeFails(k, p, t);
      }
      t, c := LifeFails(k, p, t, c);
    }
    var flying;
    t, flying := ManyAreLetIn(k, p, t, c, p);
    t, c := AllAreCounted(k, p, t, c, flying, flying);
    w, es, from := t.start, t.es, c.from;
    assert c.counted <= FailuresIn(k, t.at, from);
    SubsetIsSmaller(c.counted, FailuresIn(k, t.at, from));
  }

  ghost predicate NeverMoreThan(k: Case, p: nat, most: int) {
    forall w, es, from: nat | Fresh(k, w) && IsRun(k, w, es, p) :: |FailuresIn(k, End(k, w, es, p), from)| <= most
  }

  /**
   * So that is exactly how many failures a lock's length can record, and the
   * serial bound is kept only while attempts do come one at a time.
   */
  lemma MostFailuresIsExact(k: Case, p: nat, most: int)
    requires Positive(k.l) && 1 <= p
    ensures NeverMoreThan(k, p, most) <==> MostFailures(k.l, p) <= most
  {
    if MostFailures(k.l, p) <= most {
      forall w, es, from: nat | Fresh(k, w) && IsRun(k, w, es, p)
        ensures |FailuresIn(k, End(k, w, es, p), from)| <= most
      {
        InterleavedFailuresAreBounded(k, w, es, from, p);
      }
    } else {
      var w, es, from := BoundIsReached(k, p);
      assert |FailuresIn(k, End(k, w, es, p), from)| > most;
    }
  }
}

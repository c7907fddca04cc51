/**
 * Everything that can happen to the resend throttle at once: any number of
 * claims whose commands interleave, are answered, lose their reply or never
 * arrive, and which may stop for good between any two commands; the older
 * `remember`; and other services on the same Redis.
 */
module ResendRuns {
  import opened Prelude
  import opened Redis
  import opened WindowCounter
  import opened ResendThrottle

  /**
   * History: when each claim took its cool-off, what its INCR was told and when
   * it was accepted.
   */
  datatype World = World(
    db: Db, claims: map<nat, Request>, wins: map<nat, nat>, spends: map<nat, Spend>, accepted: map<nat, nat>)

  datatype Event =
    | Wait(ticks: nat)
    | Begin(c: nat, identity: string, kind: Kind, budget: Option<Budget>)
    | Step(c: nat, trip: Trip)
    | Remember(identity: string, trip: Trip)
    | Elsewhere(command: Command, trip: Trip)

  predicate IsResendKey(k: Key) {
    k.ResendCooldown? || k.ResendBudget?
  }

  predicate LeavesThrottleAlone(c: Command) {
    match c
    case Del(keys) => forall k | k in keys :: !IsResendKey(k)
    case _ => !IsResendKey(c.key)
  }

  /** On this identity every code brings budget `b`, and a link brings `b` or none. */
  predicate Respects(identity: string, kind: Kind, budget: Option<Budget>, id: string, b: Budget) {
    identity == id ==> budget == Some(b) || (kind == Link && budget == None)
  }

  predicate Enabled(w: World, e: Event, id: string, b: Budget) {
    match e
    case Wait(_) => true
    case Begin(c, identity, kind, budget) => c !in w.claims && Respects(identity, kind, budget, id, b)
    case Step(c, _) => c in w.claims && w.claims[c].Valid() && !w.claims[c].Done()
    case Remember(_, _) => true
    case Elsewhere(command, _) => LeavesThrottleAlone(command)
  }

  function Apply(w: World, e: Event, id: string, b: Budget, cooldown: nat): World
    requires Enabled(w, e, id, b)
  {
    match e
    case Wait(ticks) => w.(db := Pass(w.db, ticks))
    case Begin(c, identity, kind, budget) => w.(claims := w.claims[c := Request(identity, kind, budget, Asking)])
    case Remember(identity, trip) => w.(db := Send(w.db, SetEx(ResendCooldown(identity), cooldown), trip).0)
    case Elsewhere(command, trip) => w.(db := Send(w.db, command, trip).0)
    case Step(c, trip) =>
      var r := w.claims[c];
      var reply := Send(w.db, NextCommand(r, cooldown), trip).1;
      var (after, next) := Advance(w.db, r, cooldown, trip);
      World(after, w.claims[c := next],
            if r.phase == Asking && reply == Some(1) then w.wins[c := after.now] else w.wins,
            if r.phase == Spending && reply.Some?
            then w.spends[c := Spend(after.now, after.store[ResendBudget(r.identity)].bornAt, reply.value)]
            else w.spends,
            if next.phase == Accepted then w.accepted[c := after.now] else w.accepted)
  }

  predicate On(w: World, c: nat, id: string) {
    c in w.claims && w.claims[c].identity == id
  }

  function SpendsOn(w: World, id: string): map<nat, Spend> {
    map c | c in w.spends && On(w, c, id) :: w.spends[c]
  }

  /** What a claim's phase says about its history. */
  predicate Accounted(w: World, c: nat, id: string, b: Budget)
    requires c in w.claims
  {
    var r := w.claims[c];
    && r.Valid()
    && Respects(r.identity, r.kind, r.budget, id, b)
    && (r.phase in {Asking, Spending} ==> c !in w.spends)
    && (r.phase == Asking ==> c !in w.wins)
    && (FailsClosed(r.kind) && r.phase in {Spending, Anchoring, Accepted} ==> c in w.wins)
    && (FailsClosed(r.kind) && r.identity == id && r.phase in {Anchoring, Accepted} ==>
          c in w.spends && (r.phase == Anchoring ==> w.spends[c].reply == 1))
    && (FailsClosed(r.kind) && r.identity == id && r.phase == Accepted ==> w.spends[c].reply <= b.max)
  }

  predicate FarApart(s: nat, t: nat, cooldown: nat) {
    s + cooldown <= t || t + cooldown <= s
  }

  function WinsOn(w: World, id: string): map<nat, nat> {
    map c | c in w.wins && On(w, c, id) :: w.wins[c]
  }

  /** Wins are a cool-off apart, and the standing key outlasts the latest one's. */
  ghost predicate Spaced(wins: map<nat, nat>, db: Db, k: Key, cooldown: nat) {
    && (forall c, d | c in wins && d in wins && c != d :: FarApart(wins[c], wins[d], cooldown))
    && (forall c | c in wins ::
          && wins[c] <= db.now && k in db.store && db.store[k].expiresAt.Some?
          && wins[c] + cooldown <= db.store[k].expiresAt.value)
  }

  /** A command that only ever takes or restarts this cool-off, for its full length. */
  predicate Rationed(c: Command, k: Key, cooldown: nat) {
    match c
    case SetNxEx(key, ttl) => key == k ==> ttl == cooldown
    case SetEx(key, ttl) => key == k ==> ttl == cooldown
    case Del(keys) => k !in keys
    case Incr(key) => key != k
    case Expire(key, _) => key != k
    case _ => true
  }

  lemma RationedKeepsSpacing(wins: map<nat, nat>, db: Db, c: Command, trip: Trip, k: Key, cooldown: nat)
    requires Spaced(wins, db, k, cooldown) && Rationed(c, k, cooldown)
    ensures Spaced(wins, Send(db, c, trip).0, k, cooldown)
  {
  }

  lemma WinJoinsSpaced(wins: map<nat, nat>, db: Db, trip: Trip, k: Key, cooldown: nat, c: nat)
    requires Spaced(wins, db, k, cooldown) && c !in wins
    requires Send(db, SetNxEx(k, cooldown), trip).1 == Some(1)
    ensures var after := Send(db, SetNxEx(k, cooldown), trip).0; Spaced(wins[c := after.now], after, k, cooldown)
  {
    var after := Send(db, SetNxEx(k, cooldown), trip).0;
    RationedKeepsSpacing(wins, db, SetNxEx(k, cooldown), trip, k, cooldown);
    forall d | d in wins ensures FarApart(wins[d], after.now, cooldown) {
      assert wins[d] + cooldown <= db.store[k].expiresAt.value <= after.now;
    }
  }

  ghost predicate Invariant(w: World, id: string, b: Budget, cooldown: nat) {
    && w.wins.Keys <= w.claims.Keys && w.spends.Keys <= w.claims.Keys
    && (forall c | c in w.claims :: Accounted(w, c, id, b))
    && Spaced(WinsOn(w, id), w.db, ResendCooldown(id), cooldown)
    && Orderly(SpendsOn(w, id), w.db, ResendBudget(id), b.windowSeconds)
  }

  /** A start: nothing claimed yet, and this identity has no keys standing. */
  predicate Fresh(w: World, id: string) {
    && w.claims == map[] && w.wins == map[] && w.spends == map[] && w.accepted == map[]
    && ResendCooldown(id) !in w.db.store && ResendBudget(id) !in w.db.store
  }

  ghost predicate IsRun(w: World, es: seq<Event>, id: string, b: Budget, cooldown: nat)
    decreases |es|
  {
    es == [] || (Enabled(w, es[0], id, b) && IsRun(Apply(w, es[0], id, b, cooldown), es[1..], id, b, cooldown))
  }

  ghost function End(w: World, es: seq<Event>, id: string, b: Budget, cooldown: nat): World
    requires IsRun(w, es, id, b, cooldown)
    decreases |es|
  {
    if es == [] then w else End(Apply(w, es[0], id, b, cooldown), es[1..], id, b, cooldown)
  }

  lemma OthersLeaveHistory(w: World, e: Event, id: string, b: Budget, cooldown: nat)
    requires w.wins.Keys <= w.claims.Keys && w.spends.Keys <= w.claims.Keys && Enabled(w, e, id, b) && !e.Step?
    ensures var after := Apply(w, e, id, b, cooldown);
            WinsOn(after, id) == WinsOn(w, id) && SpendsOn(after, id) == SpendsOn(w, id)
  {
  }

  lemma StepKeepsSpacing(w: World, e: Event, id: string, b: Budget, cooldown: nat)
    requires Invariant(w, id, b, cooldown) && Enabled(w, e, id, b)
    ensures var after := Apply(w, e, id, b, cooldown);
            Spaced(WinsOn(after, id), after.db, ResendCooldown(id), cooldown)
  {
    var k, wins := ResendCooldown(id), WinsOn(w, id);
    if e.Step? {
      ClaimKeepsSpacing(w, e.c, e.trip, id, b, cooldown);
    } else {
      OthersLeaveHistory(w, e, id, b, cooldown);
      if e.Remember? {
        RationedKeepsSpacing(wins, w.db, SetEx(ResendCooldown(e.identity), cooldown), e.trip, k, cooldown);
      } else if e.Elsewhere? {
        RationedKeepsSpacing(wins, w.db, e.command, e.trip, k, cooldown);
      }
    }
  }

  /** A claim's step adds to the history exactly when it won, or was told a count. */
  lemma WinHistory(w: World, c: nat, trip: Trip, id: string, b: Budget, cooldown: nat)
    requires w.wins.Keys <= w.claims.Keys && Enabled(w, Step(c, trip), id, b)
    ensures var r := w.claims[c];
            var reply := Send(w.db, NextCommand(r, cooldown), trip).1;
            var after := Apply(w, Step(c, trip), id, b, cooldown);
            && after.db == Send(w.db, NextCommand(r, cooldown), trip).0
            && WinsOn(after, id) == (if r.phase == Asking && r.identity == id && reply == Some(1)
                                     then WinsOn(w, id)[c := after.db.now] else WinsOn(w, id))
  {
    var after := Apply(w, Step(c, trip), id, b, cooldown);
    assert forall d :: On(after, d, id) <==> On(w, d, id);
  }

  lemma SpendHistory(w: World, c: nat, trip: Trip, id: string, b: Budget, cooldown: nat)
    requires w.spends.Keys <= w.claims.Keys && Enabled(w, Step(c, trip), id, b)
    ensures var r := w.claims[c];
            var reply := Send(w.db, NextCommand(r, cooldown), trip).1;
            var after := Apply(w, Step(c, trip), id, b, cooldown);
            && after.db == Send(w.db, NextCommand(r, cooldown), trip).0
            && SpendsOn(after, id) == (if r.phase == Spending && r.identity == id && reply.Some?
                                       then SpendsOn(w, id)[c := after.spends[c]] else SpendsOn(w, id))
  {
    var after := Apply(w, Step(c, trip), id, b, cooldown);
    assert forall d :: On(after, d, id) <==> On(w, d, id);
  }

  lemma ClaimKeepsSpacing(w: World, c: nat, trip: Trip, id: string, b: Budget, cooldown: nat)
    requires w.wins.Keys <= w.claims.Keys && w.spends.Keys <= w.claims.Keys && Enabled(w, Step(c, trip), id, b)
    requires Accounted(w, c, id, b) && Spaced(WinsOn(w, id), w.db, ResendCooldown(id), cooldown)
    ensures var after := Apply(w, Step(c, trip), id, b, cooldown);
            Spaced(WinsOn(after, id), after.db, ResendCooldown(id), cooldown)
  {
    var k, r := ResendCooldown(id), w.claims[c];
    WinHistory(w, c, trip, id, b, cooldown);
    RationedKeepsSpacing(WinsOn(w, id), w.db, NextCommand(r, cooldown), trip, k, cooldown);
    if r.phase == Asking && r.identity == id && Send(w.db, SetNxEx(k, cooldown), trip).1 == Some(1) {
      WinJoinsSpaced(WinsOn(w, id), w.db, trip, k, cooldown, c);
    }
  }

  lemma StepKeepsOrder(w: World, e: Event, id: string, b: Budget, cooldown: nat)
    requires Invariant(w, id, b, cooldown) && Enabled(w, e, id, b) && 1 <= b.windowSeconds
    ensures var after := Apply(w, e, id, b, cooldown);
            Orderly(SpendsOn(after, id), after.db, ResendBudget(id), b.windowSeconds)
  {
    var k, spends := ResendBudget(id), SpendsOn(w, id);
    if e.Step? {
      ClaimKeepsOrder(w, e.c, e.trip, id, b, cooldown);
    } else {
      OthersLeaveHistory(w, e, id, b, cooldown);
      if e.Remember? {
        IdiomaticKeepsOrder(spends, w.db, SetEx(ResendCooldown(e.identity), cooldown), e.trip, k, b.windowSeconds);
      } else if e.Elsewhere? {
        IdiomaticKeepsOrder(spends, w.db, e.command, e.trip, k, b.windowSeconds);
      }
    }
  }

  lemma ClaimKeepsOrder(w: World, c: nat, trip: Trip, id: string, b: Budget, cooldown: nat)
    requires w.wins.Keys <= w.claims.Keys && w.spends.Keys <= w.claims.Keys && Enabled(w, Step(c, trip), id, b)
    requires Accounted(w, c, id, b) && 1 <= b.windowSeconds
    requires Orderly(SpendsOn(w, id), w.db, ResendBudget(id), b.windowSeconds)
    ensures var after := Apply(w, Step(c, trip), id, b, cooldown);
            Orderly(SpendsOn(after, id), after.db, ResendBudget(id), b.windowSeconds)
  {
    var k, r := ResendBudget(id), w.claims[c];
    SpendHistory(w, c, trip, id, b, cooldown);
    IdiomaticKeepsOrder(SpendsOn(w, id), w.db, NextCommand(r, cooldown), trip, k, b.windowSeconds);
    if r.phase == Spending && r.identity == id && trip.wire == Answered {
      CountJoinsInOrder(SpendsOn(w, id), w.db, trip, k, b.windowSeconds, c);
    }
  }

  lemma ClaimKeepsItsAccount(w: World, c: nat, trip: Trip, id: string, b: Budget, cooldown: nat)
    requires Enabled(w, Step(c, trip), id, b) && Accounted(w, c, id, b)
    ensures Accounted(Apply(w, Step(c, trip), id, b, cooldown), c, id, b)
  {
  }

  lemma StepKeepsAccounts(w: World, e: Event, id: string, b: Budget, cooldown: nat)
    requires Invariant(w, id, b, cooldown) && Enabled(w, e, id, b)
    ensures var after := Apply(w, e, id, b, cooldown);
            forall c | c in after.claims :: Accounted(after, c, id, b)
  {
    var after := Apply(w, e, id, b, cooldown);
    forall c | c in after.claims ensures Accounted(after, c, id, b) {
      if e.Step? && c == e.c {
        ClaimKeepsItsAccount(w, c, e.trip, id, b, cooldown);
      } else if c in w.claims {
        assert Accounted(w, c, id, b);
      }
    }
  }

  lemma {:induction false} RunKeepsInvariant(w: World, es: seq<Event>, id: string, b: Budget, cooldown: nat)
    requires Invariant(w, id, b, cooldown) && IsRun(w, es, id, b, cooldown) && 1 <= b.windowSeconds
    ensures Invariant(End(w, es, id, b, cooldown), id, b, cooldown)
    decreases |es|
  {
    if es != [] {
      StepKeepsSpacing(w, es[0], id, b, cooldown);
      StepKeepsOrder(w, es[0], id, b, cooldown);
      StepKeepsAccounts(w, es[0], id, b, cooldown);
      RunKeepsInvariant(Apply(w, es[0], id, b, cooldown), es[1..], id, b, cooldown);
    }
  }

  predicate AcceptedCode(w: World, c: nat, id: string) {
    On(w, c, id) && w.claims[c].kind == Code && w.claims[c].phase == Accepted
  }

  /** The accepted codes whose budget was counted within `window` of `from`. */
  ghost function AcceptedWithin(w: World, id: string, from: nat, window: nat): set<nat> {
    set c | c in w.claims && AcceptedCode(w, c, id) && c in w.spends && from <= w.spends[c].at < from + window
  }

  /**
   * The total, by when the budget was counted. However commands interleave, fail
   * or stop, no half-open interval one window long sees more than `2 * max - 1`
   * accepted codes counted: one fewer than the "twice the budget across a
   * boundary" the configuration allows for.
   */
  lemma AcceptedCodesAreBounded(w: World, es: seq<Event>, id: string, b: Budget, cooldown: nat, from: nat)
    requires Fresh(w, id) && IsRun(w, es, id, b, cooldown) && 1 <= b.windowSeconds && 1 <= b.max
    ensures var end := End(w, es, id, b, cooldown);
            && (forall c | c in end.claims && AcceptedCode(end, c, id) :: c in end.wins && c in end.spends)
            && |AcceptedWithin(end, id, from, b.windowSeconds)| <= 2 * b.max - 1
  {
    RunKeepsInvariant(w, es, id, b, cooldown);
    var end := End(w, es, id, b, cooldown);
    forall c | c in end.claims && AcceptedCode(end, c, id)
      ensures c in end.wins && c in end.spends && end.spends[c].reply <= b.max
    {
      assert Accounted(end, c, id, b);
    }
    OrderlyIsSpread(SpendsOn(end, id), end.db, ResendBudget(id), b.windowSeconds);
    QuotaOverAnyWindow(SpendsOn(end, id), b.windowSeconds, b.max, from, AcceptedWithin(end, id, from, b.windowSeconds));
  }

  /** The rate. Two accepted codes took their cool-offs at least one cool-off apart. */
  lemma AcceptedCodesAreSpaced(w: World, es: seq<Event>, id: string, b: Budget, cooldown: nat, c: nat, d: nat)
    requires Fresh(w, id) && IsRun(w, es, id, b, cooldown) && 1 <= b.windowSeconds
    requires var end := End(w, es, id, b, cooldown); AcceptedCode(end, c, id) && AcceptedCode(end, d, id) && c != d
    ensures var end := End(w, es, id, b, cooldown);
            c in end.wins && d in end.wins && FarApart(end.wins[c], end.wins[d], cooldown)
  {
    RunKeepsInvariant(w, es, id, b, cooldown);
    var end := End(w, es, id, b, cooldown);
    assert Accounted(end, c, id, b) && Accounted(end, d, id, b);
    var wins := WinsOn(end, id);
    assert FarApart(wins[c], wins[d], cooldown);
  }
}

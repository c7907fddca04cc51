/** What serial runs of the resend throttle add: lockouts end, losers pay nothing, the wait told is long enough. */
module ResendSerial {
  import opened Prelude
  import opened Redis
  import opened ResendThrottle

  /** One call of `claim`; fewer trips than it needs means its process died on the way. */
  datatype Call = Call(identity: string, kind: Kind, budget: Option<Budget>, trips: seq<Trip>)

  function Start(call: Call): Request {
    Request(call.identity, call.kind, call.budget, Asking)
  }

  function PlayAll(db: Db, calls: seq<Call>, cooldown: nat): Db
    decreases |calls|
  {
    if calls == [] then db
    else PlayAll(Play(db, Start(calls[0]), cooldown, calls[0].trips).0, calls[1..], cooldown)
  }

  /** Claims on this identity that count at all count in windows of `window` seconds. */
  predicate SameWindow(calls: seq<Call>, id: string, window: nat) {
    forall call | call in calls ::
      call.identity == id && call.budget.Some? ==> call.budget.value.windowSeconds == window
  }

  /** The counter, if stored, was born by now and lapses within one window from now, if ever. */
  predicate Bounded(db: Db, k: Key, window: nat) {
    k in db.store ==>
      db.store[k].bornAt <= db.now && 1 <= db.store[k].value &&
      (db.store[k].expiresAt.Some? ==> db.store[k].bornAt < db.store[k].expiresAt.value <= db.now + window)
  }

  /** A counter that was to lapse at `x` still is, or was followed by one born at `x` or later. */
  predicate LapsesAt(db: Db, k: Key, x: nat) {
    && k in db.store && db.store[k].bornAt <= db.now
    && (db.store[k].expiresAt == Some(x) || x <= db.store[k].bornAt)
  }

  /** A claim about to anchor a counter has just found it without an expiry. */
  predicate AnchorsBareCounter(db: Db, c: Request, id: string) {
    var k := ResendBudget(id);
    c.identity == id && c.phase in {Anchoring, Repairing} ==> k in db.store && db.store[k].expiresAt == None
  }

  lemma AdvanceSerially(db: Db, c: Request, cooldown: nat, trip: Trip, id: string, window: nat)
    requires !c.Done() && c.Valid() && AnchorsBareCounter(db, c, id)
    requires c.identity == id && c.budget.Some? ==> c.budget.value.windowSeconds == window
    requires Bounded(db, ResendBudget(id), window) && 1 <= window
    ensures var (after, next) := Advance(db, c, cooldown, trip);
            && AnchorsBareCounter(after, next, id)
            && Bounded(after, ResendBudget(id), window)
            && (forall x :: LapsesAt(db, ResendBudget(id), x) ==> LapsesAt(after, ResendBudget(id), x))
  {
  }

  lemma {:induction false} PlaySerially(db: Db, c: Request, cooldown: nat, trips: seq<Trip>, id: string, window: nat)
    requires c.Valid() && AnchorsBareCounter(db, c, id)
    requires c.identity == id && c.budget.Some? ==> c.budget.value.windowSeconds == window
    requires Bounded(db, ResendBudget(id), window) && 1 <= window
    ensures var after := Play(db, c, cooldown, trips).0;
            && Bounded(after, ResendBudget(id), window)
            && (forall x :: LapsesAt(db, ResendBudget(id), x) ==> LapsesAt(after, ResendBudget(id), x))
    decreases |trips|
  {
    if trips != [] && !c.Done() {
      AdvanceSerially(db, c, cooldown, trips[0], id, window);
      var (after, next) := Advance(db, c, cooldown, trips[0]);
      PlaySerially(after, next, cooldown, trips[1..], id, window);
    }
  }

  lemma {:induction false} PlayAllSerially(db: Db, calls: seq<Call>, cooldown: nat, id: string, window: nat)
    requires SameWindow(calls, id, window) && Bounded(db, ResendBudget(id), window) && 1 <= window
    ensures var after := PlayAll(db, calls, cooldown);
            && Bounded(after, ResendBudget(id), window)
            && (forall x :: LapsesAt(db, ResendBudget(id), x) ==> LapsesAt(after, ResendBudget(id), x))
    decreases |calls|
  {
    if calls != [] {
      assert calls[0] in calls;
      PlaySerially(db, Start(calls[0]), cooldown, calls[0].trips, id, window);
      PlayAllSerially(Play(db, Start(calls[0]), cooldown, calls[0].trips).0, calls[1..], cooldown, id, window);
    }
  }

  /** A claim refused for its budget leaves behind a counter that has an expiry. */
  lemma {:induction false} RefusalAnchors(db: Db, c: Request, cooldown: nat, trips: seq<Trip>, window: nat)
    requires c.Valid() && AnchorsBareCounter(db, c, c.identity) && !c.Done()
    requires c.budget.Some? ==> c.budget.value.windowSeconds == window
    requires Bounded(db, ResendBudget(c.identity), window) && 1 <= window
    requires c.phase == Measuring ==> ResendBudget(c.identity) in db.store
    ensures var (after, done) := Play(db, c, cooldown, trips);
            done.phase.Refused? && done.phase.why.OverBudget? ==>
              ResendBudget(c.identity) in after.store && after.store[ResendBudget(c.identity)].expiresAt.Some?
    decreases |trips|
  {
    if trips != [] {
      AdvanceSerially(db, c, cooldown, trips[0], c.identity, window);
      var (after, next) := Advance(db, c, cooldown, trips[0]);
      PlayStep(db, c, cooldown, trips);
      if !next.Done() {
        RefusalAnchors(after, next, cooldown, trips[1..], window);
      }
    }
  }

  /**
   * A refusal is never a permanent lockout. Take any serial run of claims from
   * a clean start, with any failures and crashes, in which one claim is refused
   * for its budget. The counter that refused it lapses within one window of the
   * refusal, however many further claims arrive: every counter alive after that
   * was born no earlier than the lapse, so a full allowance has returned.
   */
  lemma LockoutIsTemporary(
      db: Db, before: seq<Call>, refused: Call, later: seq<Call>, cooldown: nat, id: string, window: nat)
    requires ResendBudget(id) !in db.store && 1 <= window
    requires refused.identity == id
    requires SameWindow(before, id, window) && SameWindow([refused], id, window) && SameWindow(later, id, window)
    ensures var k := ResendBudget(id);
            var (atRefusal, c) := Play(PlayAll(db, before, cooldown), Start(refused), cooldown, refused.trips);
            c.phase.Refused? && c.phase.why.OverBudget? ==>
              && k in atRefusal.store && atRefusal.store[k].expiresAt.Some?
              && var x := atRefusal.store[k].expiresAt.value;
                 var end := PlayAll(atRefusal, later, cooldown);
                 && atRefusal.store[k].bornAt < x <= atRefusal.now + window
                 && (x <= end.now && Holds(end, k) ==> x <= end.store[k].bornAt)
  {
    var k := ResendBudget(id);
    PlayAllSerially(db, before, cooldown, id, window);
    var mid := PlayAll(db, before, cooldown);
    assert refused in [refused];
    PlaySerially(mid, Start(refused), cooldown, refused.trips, id, window);
    RefusalAnchors(mid, Start(refused), cooldown, refused.trips, window);
    var (atRefusal, c) := Play(mid, Start(refused), cooldown, refused.trips);
    if c.phase.Refused? && c.phase.why.OverBudget? {
      var x := atRefusal.store[k].expiresAt.value;
      PlayAllSerially(atRefusal, later, cooldown, id, window);
      assert LapsesAt(atRefusal, k, x);
    }
  }

  // ---- What a claim is told ----

  /** The wait a refusal names is the time the counter has left, or nothing when there is no counter any more. */
  lemma {:induction false} RefusalTellsTheTimeLeft(db: Db, c: Request, cooldown: nat, trips: seq<Trip>)
    requires c.Valid() && !c.Done() && (c.budget.Some? ==> 1 <= c.budget.value.max)
    requires var k := ResendBudget(c.identity);
             c.phase == Repairing ==> Holds(db, k) && db.store[k].expiresAt == None
    ensures var (after, done) := Play(db, c, cooldown, trips);
            var k := ResendBudget(c.identity);
            done.phase.Refused? && done.phase.why.OverBudget? ==>
              var s := done.phase.why.secondsLeft;
              && c.budget.Some?
              && if Holds(after, k)
                 then after.store[k].expiresAt.Some? && after.store[k].expiresAt.value == after.now + s
                 else s == 0 || c.budget.value.windowSeconds == 0
    decreases |trips|
  {
    if trips != [] {
      var (after, next) := Advance(db, c, cooldown, trips[0]);
      PlayStep(db, c, cooldown, trips);
      if !next.Done() {
        RefusalTellsTheTimeLeft(after, next, cooldown, trips[1..]);
      }
    }
  }

  predicate AllAnswered(trips: seq<Trip>) {
    forall t | t in trips :: t.wire.Answered?
  }

  /** What the INCR of a claim would be told. */
  function CountTold(db: Db, k: Key): nat {
    if Holds(db, k) then db.store[k].value + 1 else 1
  }

  lemma CountedClaimIsDecided(db: Db, c: Request, cooldown: nat, trips: seq<Trip>)
    requires |trips| == 3 && AllAnswered(trips) && c.phase == Spending && c.budget.Some?
    ensures var done := Play(db, c, cooldown, trips).1.phase;
            var over := CountTold(Pass(db, trips[0].delay), ResendBudget(c.identity)) > c.budget.value.max;
            if over then done.Refused? && done.why.OverBudget? else done == Accepted
  {
    assert trips[0] in trips && trips[1] in trips && trips[2] in trips;
    var (d1, c1) := Advance(db, c, cooldown, trips[0]);
    PlayStep(db, c, cooldown, trips);
    PlayStep(d1, c1, cooldown, trips[1..]);
    if !c1.Done() {
      var (d2, c2) := Advance(d1, c1, cooldown, trips[1]);
      PlayStep(d2, c2, cooldown, trips[1..][1..]);
    }
  }

  /**
   * With every command answered: told to wait exactly while the cool-off stands,
   * and over budget exactly when the count passes the budget.
   */
  lemma AnsweredClaimIsDecided(db: Db, call: Call, cooldown: nat)
    requires |call.trips| == 4 && AllAnswered(call.trips)
    ensures var done := Play(db, Start(call), cooldown, call.trips).1.phase;
            var asked := Pass(db, call.trips[0].delay);
            var count := CountTold(Pass(asked, call.trips[1].delay), ResendBudget(call.identity));
            if Holds(asked, ResendCooldown(call.identity)) then done == Refused(Wait)
            else if call.budget.Some? && count > call.budget.value.max then done.Refused? && done.why.OverBudget?
            else done == Accepted
  {
    var trips := call.trips;
    assert trips[0] in trips && forall t | t in trips[1..] :: t in trips;
    var (after, next) := Advance(db, Start(call), cooldown, trips[0]);
    PlayStep(db, Start(call), cooldown, trips);
    if next.phase == Spending {
      CountedClaimIsDecided(after, next, cooldown, trips[1..]);
    }
  }

  /** When Redis does not answer, a code is told to wait, and a link is let go. */
  lemma SilenceRefusesCodesOnly(db: Db, c: Request, cooldown: nat, trip: Trip)
    requires c.Valid() && !c.Done() && !trip.wire.Answered?
    ensures var next := Advance(db, c, cooldown, trip).1.phase;
            && (c.kind == Code ==> next == Refused(Wait))
            && (c.kind == Link ==> next == if c.phase == Asking && c.budget.Some? then Spending else Accepted)
  {
  }

  /** A claim without a budget is never refused for one. */
  lemma NoBudgetNoBudgetRefusal(db: Db, call: Call, cooldown: nat)
    requires call.budget == None
    ensures var done := Play(db, Start(call), cooldown, call.trips).1.phase;
            done in {Asking, Accepted, Refused(Wait)}
  {
    if call.trips != [] {
      PlayStep(db, Start(call), cooldown, call.trips);
    }
  }

  /** A claim that finds the cool-off standing is refused, and changes no key at all. */
  lemma LosersSpendNothing(db: Db, call: Call, cooldown: nat)
    requires call.trips != [] && call.trips[0].wire.Answered?
    requires Holds(Pass(db, call.trips[0].delay), ResendCooldown(call.identity))
    ensures var (after, c) := Play(db, Start(call), cooldown, call.trips);
            after.store == db.store && c.phase == Refused(Wait)
  {
    PlayStep(db, Start(call), cooldown, call.trips);
  }

  /** A code can spend from the budget only after taking a cool-off nobody held. */
  lemma OnlyWinnersSpend(db: Db, call: Call, cooldown: nat, id: string)
    requires call.kind == Code
    ensures var after := Play(db, Start(call), cooldown, call.trips).0;
            var k := ResendBudget(id);
            (k in after.store) != (k in db.store) || (k in after.store && after.store[k] != db.store[k]) ==>
              && call.identity == id && call.budget.Some? && call.trips != []
              && call.trips[0].wire.Answered?
              && !Holds(Pass(db, call.trips[0].delay), ResendCooldown(id))
  {
    if call.trips != [] {
      PlayStep(db, Start(call), cooldown, call.trips);
      var (after, next) := Advance(db, Start(call), cooldown, call.trips[0]);
      if !next.Done() {
        OtherBudgetsUntouched(after, next, cooldown, call.trips[1..], id);
      }
    }
  }

  lemma {:induction false} OtherBudgetsUntouched(db: Db, c: Request, cooldown: nat, trips: seq<Trip>, id: string)
    requires c.Valid()
    ensures var after := Play(db, c, cooldown, trips).0;
            var k := ResendBudget(id);
            c.identity != id ==>
              (k in after.store <==> k in db.store) && (k in db.store ==> after.store[k] == db.store[k])
    decreases |trips|
  {
    if trips != [] && !c.Done() {
      var (after, next) := Advance(db, c, cooldown, trips[0]);
      OtherBudgetsUntouched(after, next, cooldown, trips[1..], id);
    }
  }

  const SECONDS_PER_MINUTE := 60
  const MINUTES_PER_HOUR := 60

  /** What a refused caller is told about the wait. */
  datatype Advice = LaterPlease | InMinutes(count: nat) | InHours(count: nat)

  function CeilDiv(a: nat, b: nat): nat
    requires 1 <= b
  {
    (a + b - 1) / b
  }

  function BudgetAdvice(secondsLeft: int): Advice {
    if secondsLeft > 0 then HumanWait(secondsLeft) else LaterPlease
  }

  function HumanWait(secondsLeft: nat): Advice {
    var minutes := CeilDiv(secondsLeft, SECONDS_PER_MINUTE);
    if minutes < MINUTES_PER_HOUR then InMinutes(minutes) else InHours(CeilDiv(minutes, MINUTES_PER_HOUR))
  }

  function AdvisedSeconds(a: Advice): nat {
    match a
    case LaterPlease => 0
    case InMinutes(count) => count * 60
    case InHours(count) => count * 3600
  }

  /**
   * Rounded up twice, the wait told is never short of the time left, and never
   * a whole unit longer; minutes are used exactly up to fifty-nine of them.
   */
  lemma WaitIsLongEnough(secondsLeft: int)
    ensures var a := BudgetAdvice(secondsLeft);
            && (a == LaterPlease <==> secondsLeft <= 0)
            && secondsLeft <= AdvisedSeconds(a)
            && (a.InMinutes? ==> AdvisedSeconds(a) < secondsLeft + 60 && 1 <= a.count <= 59)
            && (a.InHours? ==> AdvisedSeconds(a) < secondsLeft + 3600 && 3540 < secondsLeft && 1 <= a.count)
  {
  }

  /** A code asked for while the cool-off is free and the budget is not spent, all answered. */
  lemma AnsweredCode(db: Db, id: string, b: Budget, cooldown: nat, delay: nat)
    requires var later := Pass(db, delay);
             && !Holds(later, ResendCooldown(id)) && 1 <= b.max
             && (Holds(later, ResendBudget(id)) ==> 1 <= later.store[ResendBudget(id)].value < b.max)
    ensures var later := Pass(db, delay);
            var k := ResendBudget(id);
            var (after, c) := Play(db, Start(AskedAfter(id, b, delay)), cooldown, AskedAfter(id, b, delay).trips);
            && c.phase == Accepted && after.now == later.now
            && ResendCooldown(id) in after.store
            && after.store[ResendCooldown(id)].expiresAt == Some(later.now + cooldown)
            && k in after.store
            && after.store[k] == if Holds(later, k) then later.store[k].(value := later.store[k].value + 1)
                                 else Entry(1, later.now, Some(later.now + b.windowSeconds))
  {
    var call := AskedAfter(id, b, delay);
    var (d1, c1) := Advance(db, Start(call), cooldown, call.trips[0]);
    var (d2, c2) := Advance(d1, c1, cooldown, call.trips[1]);
    PlayStep(db, Start(call), cooldown, call.trips);
    PlayStep(d1, c1, cooldown, call.trips[1..]);
    if !c2.Done() {
      PlayStep(d2, c2, cooldown, call.trips[1..][1..]);
    }
  }

  function AskedAfter(id: string, b: Budget, delay: nat): Call {
    Call(id, Code, Some(b), [Trip(delay, Answered), Trip(0, Answered), Trip(0, Answered)])
  }

  /**
   * The bound of `ResendRuns.AcceptedCodesAreBounded` is reached: with a budget
   * of two and a window of ten, codes asked for at 0, 9, 10 and 11 are all
   * accepted, three of them within the window that starts at 9.
   */
  lemma BoundIsReached()
    ensures var b, id := Budget(2, 10), "a";
            var (d0, c0) := Play(Db(0, map[]), Start(AskedAfter(id, b, 0)), 1, AskedAfter(id, b, 0).trips);
            var (d1, c1) := Play(d0, Start(AskedAfter(id, b, 9)), 1, AskedAfter(id, b, 9).trips);
            var (d2, c2) := Play(d1, Start(AskedAfter(id, b, 1)), 1, AskedAfter(id, b, 1).trips);
            var (d3, c3) := Play(d2, Start(AskedAfter(id, b, 1)), 1, AskedAfter(id, b, 1).trips);
            && c0.phase.Accepted? && c1.phase.Accepted? && c2.phase.Accepted? && c3.phase.Accepted?
            && d1.now == 9 && d2.now == 10 && d3.now == 11
  {
    var b, id := Budget(2, 10), "a";
    AnsweredCode(Db(0, map[]), id, b, 1, 0);
    var d0 := Play(Db(0, map[]), Start(AskedAfter(id, b, 0)), 1, AskedAfter(id, b, 0).trips).0;
    AnsweredCode(d0, id, b, 1, 9);
    var d1 := Play(d0, Start(AskedAfter(id, b, 9)), 1, AskedAfter(id, b, 9).trips).0;
    AnsweredCode(d1, id, b, 1, 1);
    var d2 := Play(d1, Start(AskedAfter(id, b, 1)), 1, AskedAfter(id, b, 1).trips).0;
    AnsweredCode(d2, id, b, 1, 1);
  }
}

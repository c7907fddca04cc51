/**
 * The resend budget by the moment a claim lets its caller send, which may come
 * long after its count: a process can stall between its INCR and its EXPIRE.
 */
module ResendReleases {
  import opened Redis
  import opened WindowCounter
  import opened ResendThrottle
  import opened ResendRuns

  /** The claim was accepted less than one window after its INCR. */
  predicate Prompt(w: World, c: nat, window: nat) {
    c in w.spends && c in w.accepted && w.accepted[c] < w.spends[c].at + window
  }

  /** Every accepted code was accepted at most `lag` after its INCR. */
  ghost predicate AllWithin(w: World, id: string, lag: nat) {
    forall c | AcceptedCode(w, c, id) :: c in w.spends && c in w.accepted && w.accepted[c] <= w.spends[c].at + lag
  }

  ghost predicate AllPrompt(w: World, id: string, window: nat) {
    forall c | AcceptedCode(w, c, id) :: Prompt(w, c, window)
  }

  /** Only a first count is followed by another command, so only it can be accepted later than it was counted. */
  predicate Punctual(w: World, c: nat) {
    && c in w.spends && c in w.accepted
    && w.spends[c].at <= w.accepted[c] <= w.db.now
    && (w.spends[c].reply != 1 ==> w.accepted[c] == w.spends[c].at)
  }

  /** From its EXPIRE on, the life a prompt first count belongs to has a whole window still to go. */
  ghost predicate Renewed(w: World, c: nat, id: string, window: nat)
    requires c in w.spends && c in w.accepted
  {
    var k, until := ResendBudget(id), w.accepted[c] + window;
    && k in w.db.store && LastsUntil(until, w.spends[c], w.db.store[k])
    && forall d | d in SpendsOn(w, id) && w.spends[c].bornAt < w.spends[d].bornAt :: until <= w.spends[d].bornAt
  }

  ghost predicate Released(w: World, c: nat, id: string, window: nat) {
    Punctual(w, c) && (w.spends[c].reply == 1 && Prompt(w, c, window) ==> Renewed(w, c, id, window))
  }

  ghost predicate AllReleased(w: World, id: string, b: Budget) {
    forall c | AcceptedCode(w, c, id) :: Released(w, c, id, b.windowSeconds)
  }

  /** The claim whose step this is has not finished; what finished claims have on record stands. */
  lemma RecordStands(w: World, e: Event, c: nat, id: string, b: Budget, cooldown: nat)
    requires Enabled(w, e, id, b) && c in w.claims && w.claims[c].Done()
    ensures var after := Apply(w, e, id, b, cooldown);
            && w.db.now <= after.db.now
            && (c in w.spends ==> c in after.spends && after.spends[c] == w.spends[c])
            && (c in w.accepted ==> c in after.accepted && after.accepted[c] == w.accepted[c])
            && c in after.claims && after.claims[c] == w.claims[c]
  {
  }

  /** Whatever happens next, the counter goes on lasting as long as it was due to. */
  lemma StepKeepsLasting(w: World, e: Event, until: nat, s: Spend, id: string, b: Budget, cooldown: nat)
    requires Invariant(w, id, b, cooldown) && Enabled(w, e, id, b) && 1 <= b.windowSeconds
    requires var k := ResendBudget(id);
             k in w.db.store && until <= w.db.now + b.windowSeconds && LastsUntil(until, s, w.db.store[k])
    ensures var k, after := ResendBudget(id), Apply(w, e, id, b, cooldown).db;
            k in after.store && LastsUntil(until, s, after.store[k])
  {
    var k, window := ResendBudget(id), b.windowSeconds;
    match e {
      case Wait(_) =>
      case Begin(_, _, _, _) =>
      case Remember(identity, trip) =>
        IdiomaticKeepsLasting(until, s, w.db, SetEx(ResendCooldown(identity), cooldown), trip, k, window);
      case Elsewhere(command, trip) =>
        IdiomaticKeepsLasting(until, s, w.db, command, trip, k, window);
      case Step(c, trip) =>
        assert Accounted(w, c, id, b);
        IdiomaticKeepsLasting(until, s, w.db, NextCommand(w.claims[c], cooldown), trip, k, window);
    }
  }

  /** A count recorded by this step belongs to the life the counter is in after it. */
  lemma NewCountsAreCurrent(w: World, e: Event, d: nat, id: string, b: Budget, cooldown: nat)
    requires Invariant(w, id, b, cooldown) && Enabled(w, e, id, b)
    requires var after := Apply(w, e, id, b, cooldown);
             d in SpendsOn(after, id) && (d !in SpendsOn(w, id) || after.spends[d] != w.spends[d])
    ensures var after := Apply(w, e, id, b, cooldown);
            ResendBudget(id) in after.db.store && after.spends[d].bornAt == after.db.store[ResendBudget(id)].bornAt
  {
    if !e.Step? {
      OthersLeaveHistory(w, e, id, b, cooldown);
      assert false;
    }
  }

  lemma StepKeepsRenewed(w: World, e: Event, c: nat, id: string, b: Budget, cooldown: nat)
    requires Invariant(w, id, b, cooldown) && Enabled(w, e, id, b) && 1 <= b.windowSeconds
    requires AcceptedCode(w, c, id) && Punctual(w, c) && Renewed(w, c, id, b.windowSeconds)
    ensures var after := Apply(w, e, id, b, cooldown);
            c in after.spends && c in after.accepted && Renewed(after, c, id, b.windowSeconds)
  {
    var k, until, s := ResendBudget(id), w.accepted[c] + b.windowSeconds, w.spends[c];
    var after := Apply(w, e, id, b, cooldown);
    RecordStands(w, e, c, id, b, cooldown);
    StepKeepsLasting(w, e, until, s, id, b, cooldown);
    forall d | d in SpendsOn(after, id) && s.bornAt < after.spends[d].bornAt
      ensures until <= after.spends[d].bornAt
    {
      if d !in SpendsOn(w, id) || after.spends[d] != w.spends[d] {
        NewCountsAreCurrent(w, e, d, id, b, cooldown);
      }
    }
  }

  /** What a code about to anchor its counter knows of it: nobody has counted in a later life than its own. */
  lemma PromptAnchorsItsOwn(w: World, c: nat, trip: Trip, id: string, b: Budget, cooldown: nat)
    requires Invariant(w, id, b, cooldown) && 1 <= b.windowSeconds && On(w, c, id) && c in w.spends
    requires w.spends[c].reply == 1 && w.db.now + trip.delay < w.spends[c].at + b.windowSeconds
    ensures var k := ResendBudget(id);
            && k in w.db.store && w.db.store[k].bornAt == w.spends[c].bornAt
            && Holds(Pass(w.db, trip.delay), k)
    ensures forall d | d in SpendsOn(w, id) :: w.spends[d].bornAt <= w.spends[c].bornAt
  {
    var k, spends := ResendBudget(id), SpendsOn(w, id);
    assert Timely(spends[c], w.db.now) && SeenBy(spends[c], w.db.store[k], b.windowSeconds);
    forall d | d in spends
      ensures w.spends[d].bornAt <= w.spends[c].bornAt
    {
      assert SeenBy(spends[d], w.db.store[k], b.windowSeconds);
    }
  }

  /** The step that accepts a code: its INCR, or its EXPIRE - which a prompt claim sends to the life it counted in. */
  lemma AcceptanceIsReleased(w: World, c: nat, trip: Trip, id: string, b: Budget, cooldown: nat)
    requires Invariant(w, id, b, cooldown) && Enabled(w, Step(c, trip), id, b) && 1 <= b.windowSeconds
    requires AcceptedCode(Apply(w, Step(c, trip), id, b, cooldown), c, id)
    ensures Released(Apply(w, Step(c, trip), id, b, cooldown), c, id, b.windowSeconds)
  {
    var r, after := w.claims[c], Apply(w, Step(c, trip), id, b, cooldown);
    assert Accounted(w, c, id, b);
    if r.phase == Anchoring {
      assert Timely(SpendsOn(w, id)[c], w.db.now);
      SpendHistory(w, c, trip, id, b, cooldown);
      if Prompt(after, c, b.windowSeconds) {
        PromptAnchorsItsOwn(w, c, trip, id, b, cooldown);
      }
    } else {
      assert r.phase == Spending;
    }
  }

  lemma StepKeepsReleased(w: World, e: Event, id: string, b: Budget, cooldown: nat)
    requires Invariant(w, id, b, cooldown) && Enabled(w, e, id, b) && 1 <= b.windowSeconds
    requires AllReleased(w, id, b)
    ensures AllReleased(Apply(w, e, id, b, cooldown), id, b)
  {
    var after := Apply(w, e, id, b, cooldown);
    forall c | AcceptedCode(after, c, id)
      ensures Released(after, c, id, b.windowSeconds)
    {
      if e.Step? && e.c == c {
        AcceptanceIsReleased(w, c, e.trip, id, b, cooldown);
      } else {
        assert AcceptedCode(w, c, id) && Released(w, c, id, b.windowSeconds);
        RecordStands(w, e, c, id, b, cooldown);
        if w.spends[c].reply == 1 && Prompt(w, c, b.windowSeconds) {
          StepKeepsRenewed(w, e, c, id, b, cooldown);
        }
      }
    }
  }

  lemma {:induction false} RunKeepsReleased(w: World, es: seq<Event>, id: string, b: Budget, cooldown: nat)
    requires Invariant(w, id, b, cooldown) && IsRun(w, es, id, b, cooldown) && 1 <= b.windowSeconds
    requires AllReleased(w, id, b)
    ensures AllReleased(End(w, es, id, b, cooldown), id, b)
    decreases |es|
  {
    if es != [] {
      RunKeepsInvariant(w, [es[0]], id, b, cooldown);
      assert End(w, [es[0]], id, b, cooldown) == Apply(w, es[0], id, b, cooldown);
      StepKeepsReleased(w, es[0], id, b, cooldown);
      RunKeepsReleased(Apply(w, es[0], id, b, cooldown), es[1..], id, b, cooldown);
    }
  }

  /** The codes let go within `window` of `from`. */
  ghost function ReleasedWithin(w: World, id: string, from: nat, window: nat): set<nat> {
    set c | c in w.claims && AcceptedCode(w, c, id) && c in w.accepted && from <= w.accepted[c] < from + window
  }

  /** Every accepted code's count, dated by when it was let go. */
  ghost function Releases(w: World, id: string): map<nat, Spend> {
    map c | c in w.spends && c in w.accepted && AcceptedCode(w, c, id) ::
      Spend(w.accepted[c], w.spends[c].bornAt, w.spends[c].reply)
  }

  lemma ReleasesAreSpread(w: World, id: string, b: Budget, cooldown: nat)
    requires Invariant(w, id, b, cooldown) && AllReleased(w, id, b)
    requires AllPrompt(w, id, b.windowSeconds)
    ensures Spread(Releases(w, id), b.windowSeconds)
  {
    var releases, spends, window := Releases(w, id), SpendsOn(w, id), b.windowSeconds;
    forall c | c in releases
      ensures c in spends && spends[c] == w.spends[c] && Timely(spends[c], w.db.now) && Released(w, c, id, window)
    {
      assert AcceptedCode(w, c, id);
    }
    forall c, d | c in releases && d in releases && c != d
      ensures Separate(releases[c], releases[d], window)
    {
      assert Apart(spends[c], spends[d], window);
      assert Punctual(w, c) && Prompt(w, c, window);
    }
  }

  /**
   * The total, by when codes are let go. While every accepted code is accepted
   * less than one window after its INCR, no half-open interval one window long
   * lets more than `2 * max - 1` of them go.
   */
  lemma PromptReleasesAreBounded(w: World, es: seq<Event>, id: string, b: Budget, cooldown: nat, from: nat)
    requires Fresh(w, id) && IsRun(w, es, id, b, cooldown) && 1 <= b.windowSeconds && 1 <= b.max
    requires AllPrompt(End(w, es, id, b, cooldown), id, b.windowSeconds)
    ensures |ReleasedWithin(End(w, es, id, b, cooldown), id, from, b.windowSeconds)| <= 2 * b.max - 1
  {
    RunKeepsInvariant(w, es, id, b, cooldown);
    RunKeepsReleased(w, es, id, b, cooldown);
    var end := End(w, es, id, b, cooldown);
    ReleasesAreSpread(end, id, b, cooldown);
    var chosen := ReleasedWithin(end, id, from, b.windowSeconds);
    forall c | c in chosen
      ensures c in Releases(end, id) && end.spends[c].reply <= b.max
    {
      assert Released(end, c, id, b.windowSeconds) && Accounted(end, c, id, b);
    }
    QuotaOverAnyWindow(Releases(end, id), b.windowSeconds, b.max, from, chosen);
  }

  // ---- The rate ----

  /** A code counts only after it won its cool-off. */
  ghost predicate WonFirst(w: World, id: string) {
    forall c | c in w.spends && On(w, c, id) && w.claims[c].kind == Code :: c in w.wins && w.wins[c] <= w.spends[c].at
  }

  lemma StepKeepsWonFirst(w: World, e: Event, id: string, b: Budget, cooldown: nat)
    requires Invariant(w, id, b, cooldown) && Enabled(w, e, id, b) && WonFirst(w, id)
    ensures WonFirst(Apply(w, e, id, b, cooldown), id)
  {
    if e.Step? {
      assert Accounted(w, e.c, id, b);
      assert e.c in WinsOn(w, id) ==> w.wins[e.c] <= w.db.now;
    }
  }

  lemma {:induction false} RunKeepsWonFirst(w: World, es: seq<Event>, id: string, b: Budget, cooldown: nat)
    requires Invariant(w, id, b, cooldown) && IsRun(w, es, id, b, cooldown) && 1 <= b.windowSeconds
    requires WonFirst(w, id)
    ensures WonFirst(End(w, es, id, b, cooldown), id)
    decreases |es|
  {
    if es != [] {
      RunKeepsInvariant(w, [es[0]], id, b, cooldown);
      assert End(w, [es[0]], id, b, cooldown) == Apply(w, es[0], id, b, cooldown);
      StepKeepsWonFirst(w, es[0], id, b, cooldown);
      RunKeepsWonFirst(Apply(w, es[0], id, b, cooldown), es[1..], id, b, cooldown);
    }
  }

  /** Every accepted code was accepted at most `lag` after it took its cool-off. */
  ghost predicate WonWithin(w: World, id: string, lag: nat) {
    forall c | AcceptedCode(w, c, id) :: c in w.wins && c in w.accepted && w.accepted[c] <= w.wins[c] + lag
  }

  /**
   * The rate, by when codes are let go. While no code is accepted more than `lag`
   * after it took its cool-off, any two are let go at least a cool-off less `lag`
   * apart.
   */
  lemma ReleasesAreSpaced(
      w: World, es: seq<Event>, id: string, b: Budget, cooldown: nat, lag: nat, c: nat, d: nat)
    requires Fresh(w, id) && IsRun(w, es, id, b, cooldown) && 1 <= b.windowSeconds
    requires var end := End(w, es, id, b, cooldown);
             WonWithin(end, id, lag) && AcceptedCode(end, c, id) && AcceptedCode(end, d, id) && c != d
    ensures var end := End(w, es, id, b, cooldown);
            && c in end.accepted && d in end.accepted
            && (|| end.accepted[c] + cooldown <= end.accepted[d] + lag
                || end.accepted[d] + cooldown <= end.accepted[c] + lag)
  {
    AcceptedCodesAreSpaced(w, es, id, b, cooldown, c, d);
    RunKeepsInvariant(w, es, id, b, cooldown);
    RunKeepsReleased(w, es, id, b, cooldown);
    RunKeepsWonFirst(w, es, id, b, cooldown);
    var end := End(w, es, id, b, cooldown);
    assert Released(end, c, id, b.windowSeconds) && Released(end, d, id, b.windowSeconds);
  }
}

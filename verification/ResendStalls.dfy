/**
 * Runs in which codes are let go late, and break the budget's bound or the
 * cool-off's spacing: how late a claim may be, exactly.
 */
module ResendStalls {
  import opened Prelude
  import opened Redis
  import opened ResendReleases
  import opened ResendRuns
  import opened ResendThrottle
  import opened WindowCounter

  /** One identity with `codes` codes asked for on it, none to be accepted more than `lag` after its count. */
  datatype Case = Case(id: string, b: Budget, cooldown: nat, codes: nat, lag: nat)

  datatype Trace = Trace(start: World, es: seq<Event>, at: World)

  ghost predicate Valid(k: Case, t: Trace) {
    && Fresh(t.start, k.id)
    && IsRun(t.start, t.es, k.id, k.b, k.cooldown)
    && End(t.start, t.es, k.id, k.b, k.cooldown) == t.at
  }

  lemma {:induction false} RunExtends(k: Case, w: World, es: seq<Event>, e: Event)
    requires IsRun(w, es, k.id, k.b, k.cooldown) && Enabled(End(w, es, k.id, k.b, k.cooldown), e, k.id, k.b)
    ensures IsRun(w, es + [e], k.id, k.b, k.cooldown)
    ensures End(w, es + [e], k.id, k.b, k.cooldown)
         == Apply(End(w, es, k.id, k.b, k.cooldown), e, k.id, k.b, k.cooldown)
    decreases |es|
  {
    if es == [] {
      assert es + [e] == [e];
    } else {
      RunExtends(k, Apply(w, es[0], k.id, k.b, k.cooldown), es[1..], e);
      assert (es + [e])[1..] == es[1..] + [e];
    }
  }

  lemma Take(k: Case, t: Trace, e: Event) returns (u: Trace)
    requires Valid(k, t) && Enabled(t.at, e, k.id, k.b)
    ensures Valid(k, u) && u.start == t.start && u.at == Apply(t.at, e, k.id, k.b, k.cooldown)
  {
    RunExtends(k, t.start, t.es, e);
    u := Trace(t.start, t.es + [e], Apply(t.at, e, k.id, k.b, k.cooldown));
  }

  /** The next command of a claim, answered after `delay`. */
  function Answer(c: nat, delay: nat): Event {
    Step(c, Trip(delay, Answered))
  }

  function Coded(k: Case, phase: Phase): Request {
    Request(k.id, Code, Some(k.b), phase)
  }

  /**
   * Of the codes, all of which hold a cool-off, those from `next` on have not
   * counted; `stalled` counted one at or after `since` and have not anchored it;
   * `let` have been let go at or after `from`.
   */
  datatype Cast = Cast(next: nat, stalled: set<nat>, since: nat, let: set<nat>, from: nat)

  ghost predicate Staged(k: Case, w: World, c: Cast) {
    && c.next <= k.codes
    && (forall i: nat :: i in w.claims <==> i < k.codes)
    && (forall i | c.next <= i < k.codes :: w.claims[i] == Coded(k, Spending))
    && (forall i | i in c.stalled ::
          i < c.next && w.claims[i] == Coded(k, Anchoring) && i in w.spends && c.since <= w.spends[i].at)
    && (forall i | i in c.let ::
          i < c.next && AcceptedCode(w, i, k.id) && i in w.accepted && c.from <= w.accepted[i] <= w.db.now)
    && AllWithin(w, k.id, k.lag)
  }

  ghost predicate Counter(k: Case, w: World, value: nat, expiresAt: Option<nat>) {
    var key := ResendBudget(k.id);
    && Holds(w.db, key) && w.db.store[key].value == value && w.db.store[key].expiresAt == expiresAt
  }

  /** Whoever asks a cool-off after the last one did takes it. */
  ghost predicate Cooling(k: Case, w: World) {
    var cooling := ResendCooldown(k.id);
    cooling in w.db.store ==>
      w.db.store[cooling].expiresAt.Some? && w.db.store[cooling].expiresAt.value <= w.db.now + k.cooldown
  }

  lemma Asks(k: Case, t: Trace, i: nat) returns (u: Trace)
    requires Valid(k, t) && i !in t.at.claims && Cooling(k, t.at) && ResendBudget(k.id) !in t.at.db.store
    ensures Valid(k, u) && u.at.claims == t.at.claims[i := Coded(k, Spending)] && Cooling(k, u.at)
    ensures ResendBudget(k.id) !in u.at.db.store && u.at.accepted == t.at.accepted && u.at.spends == t.at.spends
  {
    u := Take(k, t, Begin(i, k.id, Code, Some(k.b)));
    u := Take(k, u, Answer(i, k.cooldown));
  }

  /** As many codes as one likes can take their cool-offs before any of them counts. */
  lemma {:induction false} ManyAsk(k: Case) returns (t: Trace)
    ensures Valid(k, t) && Staged(k, t.at, Cast(0, {}, 0, {}, 0)) && ResendBudget(k.id) !in t.at.db.store
    ensures t.at.accepted == map[] && t.at.spends == map[] && Cooling(k, t.at)
    decreases k.codes
  {
    if k.codes == 0 {
      var w := World(Db(0, map[]), map[], map[], map[], map[]);
      t := Trace(w, [], w);
    } else {
      var last := k.codes - 1;
      t := ManyAsk(k.(codes := last));
      t := Asks(k, t, last);
    }
  }

  ghost predicate SameCooling(k: Case, w: World, v: World) {
    var cooling := ResendCooldown(k.id);
    && v.wins == w.wins
    && (cooling in w.db.store <==> cooling in v.db.store)
    && (cooling in w.db.store ==> v.db.store[cooling] == w.db.store[cooling])
  }

  /** What a code's step after its cool-off changes: its own phase and history, and nothing of the others'. */
  ghost predicate OnlyMoves(k: Case, w: World, v: World, i: nat) {
    && i in w.claims && i in v.claims && v.claims == w.claims[i := v.claims[i]]
    && v.claims[i].identity == w.claims[i].identity
    && v.db.now == w.db.now && SameCooling(k, w, v)
    && (forall j | j != i && j in w.spends :: j in v.spends && v.spends[j] == w.spends[j])
    && (forall j | j != i && j in w.accepted :: j in v.accepted && v.accepted[j] == w.accepted[j])
  }

  lemma StagedAfter(k: Case, w: World, v: World, c: Cast, d: Cast, i: nat)
    requires Staged(k, w, c) && OnlyMoves(k, w, v, i) && d.since == c.since && d.from == c.from
    requires i < d.next <= k.codes && (d.next == c.next || (d.next == c.next + 1 && i == c.next))
    requires d.stalled - {i} <= c.stalled && d.let - {i} <= c.let
    requires i in d.stalled ==> v.claims[i] == Coded(k, Anchoring) && i in v.spends && d.since <= v.spends[i].at
    requires v.claims[i].phase == Accepted ==>
               i in v.accepted && i in v.spends && v.accepted[i] <= v.spends[i].at + k.lag
    requires i in d.let ==> v.claims[i] == Coded(k, Accepted) && i in v.accepted && d.from <= v.accepted[i] <= v.db.now
    ensures Staged(k, v, d)
  {
    forall j | j in d.stalled && j != i ensures j in c.stalled {
      assert j in d.stalled - {i};
    }
    forall j | j in d.let && j != i ensures j in c.let && AcceptedCode(v, j, k.id) {
      assert j in d.let - {i} && AcceptedCode(w, j, k.id);
    }
    forall j | AcceptedCode(v, j, k.id) && j != i ensures AcceptedCode(w, j, k.id) {
    }
  }

  lemma CountsFirst(k: Case, t: Trace, i: nat) returns (u: Trace)
    requires Valid(k, t) && i in t.at.claims && t.at.claims[i] == Coded(k, Spending)
    requires !Holds(t.at.db, ResendBudget(k.id))
    ensures Valid(k, u) && OnlyMoves(k, t.at, u.at, i) && u.at.claims[i] == Coded(k, Anchoring)
    ensures Counter(k, u.at, 1, None) && i in u.at.spends && u.at.spends[i].at == t.at.db.now
  {
    u := Take(k, t, Answer(i, 0));
  }

  lemma CountsNext(k: Case, t: Trace, i: nat, value: nat, expiresAt: Option<nat>) returns (u: Trace)
    requires Valid(k, t) && i in t.at.claims && t.at.claims[i] == Coded(k, Spending)
    requires Counter(k, t.at, value, expiresAt) && 1 <= value < k.b.max
    ensures Valid(k, u) && OnlyMoves(k, t.at, u.at, i) && u.at.claims[i] == Coded(k, Accepted)
    ensures Counter(k, u.at, value + 1, expiresAt) && i in u.at.spends && u.at.spends[i].at == t.at.db.now
    ensures i in u.at.accepted && u.at.accepted[i] == t.at.db.now
  {
    u := Take(k, t, Answer(i, 0));
  }

  lemma AnchorsNow(k: Case, t: Trace, i: nat, value: nat, expiresAt: Option<nat>) returns (u: Trace)
    requires Valid(k, t) && i in t.at.claims && t.at.claims[i] == Coded(k, Anchoring)
    requires Counter(k, t.at, value, expiresAt) && 1 <= k.b.max && 1 <= k.b.windowSeconds
    ensures Valid(k, u) && OnlyMoves(k, t.at, u.at, i) && u.at.claims[i] == Coded(k, Accepted)
    ensures Counter(k, u.at, value, Some(t.at.db.now + k.b.windowSeconds)) && u.at.spends == t.at.spends
    ensures i in u.at.accepted && u.at.accepted[i] == t.at.db.now
  {
    u := Take(k, t, Answer(i, 0));
  }

  /** Where no counter stands, the next code's count is a first one, and it stalls. */
  lemma FirstCount(k: Case, t: Trace, c: Cast) returns (u: Trace)
    requires Valid(k, t) && Staged(k, t.at, c) && c.next < k.codes && c.since <= t.at.db.now
    requires !Holds(t.at.db, ResendBudget(k.id))
    ensures Valid(k, u) && Staged(k, u.at, c.(next := c.next + 1, stalled := c.stalled + {c.next}))
    ensures Counter(k, u.at, 1, None) && u.at.db.now == t.at.db.now
    ensures c.next in u.at.spends && u.at.spends[c.next].at == t.at.db.now
  {
    u := CountsFirst(k, t, c.next);
    StagedAfter(k, t.at, u.at, c, c.(next := c.next + 1, stalled := c.stalled + {c.next}), c.next);
  }

  /** Within the budget, a further count lets its code go at once. */
  lemma CountsOn(k: Case, t: Trace, c: Cast, value: nat, expiresAt: Option<nat>) returns (u: Trace)
    requires Valid(k, t) && Staged(k, t.at, c) && c.next < k.codes && c.from <= t.at.db.now
    requires Counter(k, t.at, value, expiresAt) && 1 <= value < k.b.max
    ensures Valid(k, u) && Staged(k, u.at, c.(next := c.next + 1, let := c.let + {c.next}))
    ensures Counter(k, u.at, value + 1, expiresAt) && u.at.db.now == t.at.db.now
  {
    u := CountsNext(k, t, c.next, value, expiresAt);
    StagedAfter(k, t.at, u.at, c, c.(next := c.next + 1, let := c.let + {c.next}), c.next);
  }

  lemma {:induction false} ManyCount(k: Case, t: Trace, c: Cast, value: nat, expiresAt: Option<nat>, some: nat)
    returns (u: Trace, d: Cast)
    requires Valid(k, t) && Staged(k, t.at, c) && c.next + some <= k.codes && c.from <= t.at.db.now
    requires Counter(k, t.at, value, expiresAt) && 1 <= value && value + some <= k.b.max
    ensures Valid(k, u) && Staged(k, u.at, d) && Counter(k, u.at, value + some, expiresAt)
    ensures d == c.(next := c.next + some, let := d.let) && |d.let| == |c.let| + some
    ensures u.at.db.now == t.at.db.now
    decreases some
  {
    u, d := t, c;
    if some > 0 {
      u := CountsOn(k, t, c, value, expiresAt);
      d := c.(next := c.next + 1, let := c.let + {c.next});
      assert c.next !in c.let;
      u, d := ManyCount(k, u, d, value + 1, expiresAt, some - 1);
    }
  }

  /** A code over the budget measures the counter, finds no expiry, */
  lemma OverCounts(k: Case, t: Trace, i: nat) returns (u: Trace)
    requires Valid(k, t) && i in t.at.claims && t.at.claims[i] == Coded(k, Spending)
    requires Counter(k, t.at, k.b.max, None) && 1 <= k.b.max
    ensures Valid(k, u) && OnlyMoves(k, t.at, u.at, i) && u.at.claims[i] == Coded(k, Repairing)
    ensures Counter(k, u.at, k.b.max + 1, None)
  {
    u := Take(k, t, Answer(i, 0));
    assert OnlyMoves(k, t.at, u.at, i) && u.at.claims[i] == Coded(k, Measuring);
    u := Take(k, u, Answer(i, 0));
  }

  lemma Repairs(k: Case, t: Trace, i: nat) returns (u: Trace)
    requires Valid(k, t) && i in t.at.claims && t.at.claims[i] == Coded(k, Repairing)
    requires Counter(k, t.at, k.b.max + 1, None) && 1 <= k.b.windowSeconds
    ensures Valid(k, u) && OnlyMoves(k, t.at, u.at, i) && u.at.claims[i].phase.Refused?
    ensures Counter(k, u.at, k.b.max + 1, Some(t.at.db.now + k.b.windowSeconds))
  {
    u := Take(k, t, Answer(i, 0));
  }

  /** and anchors it, before it is refused. */
  lemma OneTooMany(k: Case, t: Trace, c: Cast) returns (u: Trace)
    requires Valid(k, t) && Staged(k, t.at, c) && c.next < k.codes
    requires Counter(k, t.at, k.b.max, None) && 1 <= k.b.max && 1 <= k.b.windowSeconds
    ensures Valid(k, u) && Staged(k, u.at, c.(next := c.next + 1))
    ensures Counter(k, u.at, k.b.max + 1, Some(t.at.db.now + k.b.windowSeconds)) && u.at.db.now == t.at.db.now
  {
    assert c.next !in c.stalled && c.next !in c.let;
    u := OverCounts(k, t, c.next);
    u := Repairs(k, u, c.next);
    assert OnlyMoves(k, t.at, u.at, c.next);
    StagedAfter(k, t.at, u.at, c, c.(next := c.next + 1), c.next);
  }

  /** A stalled code anchors whatever life the counter is in by then, and is let go. */
  lemma Anchors(k: Case, t: Trace, c: Cast, value: nat, expiresAt: Option<nat>, i: nat) returns (u: Trace)
    requires Valid(k, t) && Staged(k, t.at, c) && i in c.stalled && c.from <= t.at.db.now <= c.since + k.lag
    requires Counter(k, t.at, value, expiresAt) && 1 <= k.b.max && 1 <= k.b.windowSeconds
    ensures Valid(k, u) && Staged(k, u.at, c.(stalled := c.stalled - {i}, let := c.let + {i})) && i !in c.let
    ensures Counter(k, u.at, value, Some(t.at.db.now + k.b.windowSeconds))
    ensures u.at.db.now == t.at.db.now && u.at.spends == t.at.spends
  {
    assert i in c.let ==> AcceptedCode(t.at, i, k.id);
    u := AnchorsNow(k, t, i, value, expiresAt);
    StagedAfter(k, t.at, u.at, c, c.(stalled := c.stalled - {i}, let := c.let + {i}), i);
  }

  lemma {:induction false} AllAnchor(k: Case, t: Trace, c: Cast, value: nat, expiresAt: Option<nat>)
    returns (u: Trace, d: Cast)
    requires Valid(k, t) && Staged(k, t.at, c) && c.from <= t.at.db.now <= c.since + k.lag
    requires Counter(k, t.at, value, expiresAt) && 1 <= k.b.max && 1 <= k.b.windowSeconds
    ensures Valid(k, u) && Staged(k, u.at, d) && d == c.(stalled := {}, let := d.let)
    ensures |d.let| == |c.let| + |c.stalled| && u.at.db.now == t.at.db.now
    decreases |c.stalled|
  {
    u, d := t, c;
    if i :| i in c.stalled {
      u := Anchors(k, t, c, value, expiresAt, i);
      d := c.(stalled := c.stalled - {i}, let := c.let + {i});
      u, d := AllAnchor(k, u, d, value, Some(t.at.db.now + k.b.windowSeconds));
    } else {
      assert d == c.(stalled := {}, let := d.let);
    }
  }

  lemma TimePasses(k: Case, t: Trace, c: Cast, ticks: nat) returns (u: Trace)
    requires Valid(k, t) && Staged(k, t.at, c)
    ensures Valid(k, u) && Staged(k, u.at, c) && u.at == t.at.(db := Pass(t.at.db, ticks))
  {
    u := Take(k, t, Event.Wait(ticks));
    assert forall i | AcceptedCode(u.at, i, k.id) :: AcceptedCode(t.at, i, k.id);
  }

  /** Who was let go earlier need not be remembered. */
  lemma Forget(k: Case, w: World, c: Cast, from: nat)
    requires Staged(k, w, c)
    ensures Staged(k, w, c.(let := {}, from := from))
  {
  }

  /** Two budgets let go within one window are too many. */
  lemma TooManyGo(k: Case, t: Trace, c: Cast)
    requires Valid(k, t) && Staged(k, t.at, c) && |c.let| == 2 * k.b.max && t.at.db.now < c.from + k.b.windowSeconds
    ensures |ReleasedWithin(t.at, k.id, c.from, k.b.windowSeconds)| > 2 * k.b.max - 1
    ensures AllWithin(t.at, k.id, k.lag)
  {
    assert c.let <= ReleasedWithin(t.at, k.id, c.from, k.b.windowSeconds);
    SubsetIsSmaller(c.let, ReleasedWithin(t.at, k.id, c.from, k.b.windowSeconds));
  }

  // ---- One window's delay ----

  /** A life's budget: a first count that stalls, and the rest let go at once. */
  lemma BudgetIsCounted(k: Case, t: Trace, c: Cast) returns (u: Trace, d: Cast)
    requires Valid(k, t) && Staged(k, t.at, c) && c.next + k.b.max <= k.codes
    requires c.since <= t.at.db.now && c.from <= t.at.db.now && 1 <= k.b.max
    requires !Holds(t.at.db, ResendBudget(k.id))
    ensures Valid(k, u) && Staged(k, u.at, d) && Counter(k, u.at, k.b.max, None) && u.at.db.now == t.at.db.now
    ensures d == Cast(c.next + k.b.max, c.stalled + {c.next}, c.since, d.let, c.from)
    ensures |d.stalled| == |c.stalled| + 1 && |d.let| == |c.let| + k.b.max - 1
  {
    assert c.next !in c.stalled;
    u := FirstCount(k, t, c);
    d := c.(next := c.next + 1, stalled := c.stalled + {c.next});
    u, d := ManyCount(k, u, d, 1, None, k.b.max - 1);
  }

  /** One life: its budget, and a code too many that anchors the counter. */
  lemma LifeWithAStall(k: Case, t: Trace, c: Cast) returns (u: Trace, d: Cast)
    requires Valid(k, t) && Staged(k, t.at, c) && c.next + k.b.max + 1 <= k.codes
    requires c.since <= t.at.db.now && c.from <= t.at.db.now && 1 <= k.b.max && 1 <= k.b.windowSeconds
    requires !Holds(t.at.db, ResendBudget(k.id))
    ensures Valid(k, u) && Staged(k, u.at, d)
    ensures d == Cast(c.next + k.b.max + 1, c.stalled + {c.next}, c.since, d.let, c.from)
    ensures |d.stalled| == |c.stalled| + 1
    ensures Counter(k, u.at, k.b.max + 1, Some(t.at.db.now + k.b.windowSeconds)) && u.at.db.now == t.at.db.now
  {
    var mid: Trace, e: Cast;
    mid, e := BudgetIsCounted(k, t, c);
    u := OneTooMany(k, mid, e);
    d := e.(next := e.next + 1);
  }

  /** Of two stalled codes the older one wakes up, in the life the younger one counted in. */
  lemma OlderWakes(k: Case, t: Trace, c: Cast, i: nat, j: nat) returns (u: Trace)
    requires Valid(k, t) && Staged(k, t.at, c) && c.stalled == {i, j} && i != j
    requires c.from <= t.at.db.now <= c.since + k.lag && t.at.spends[j].at == t.at.db.now
    requires Counter(k, t.at, 1, None) && 1 <= k.b.max && 1 <= k.b.windowSeconds
    ensures Valid(k, u) && u.at.db.now == t.at.db.now
    ensures Staged(k, u.at, Cast(c.next, {j}, t.at.db.now, {}, t.at.db.now + 1))
    ensures Counter(k, u.at, 1, Some(t.at.db.now + k.b.windowSeconds))
  {
    u := Anchors(k, t, c, 1, None, i);
    Forget(k, u.at, c.(stalled := c.stalled - {i}, let := c.let + {i}), t.at.db.now + 1);
  }

  /** The rest of a life's budget goes to codes let go at once, and then it lapses. */
  lemma RestOfLifeGoes(k: Case, t: Trace, c: Cast) returns (u: Trace, d: Cast)
    requires Valid(k, t) && Staged(k, t.at, c) && c.next + k.b.max - 1 <= k.codes && c.let == {}
    requires c.from == t.at.db.now + 1 && 1 <= k.b.windowSeconds && (k.b.max == 1 || 2 <= k.b.windowSeconds)
    requires Counter(k, t.at, 1, Some(t.at.db.now + k.b.windowSeconds)) && 1 <= k.b.max
    ensures Valid(k, u) && Staged(k, u.at, d)
    ensures d == c.(next := c.next + k.b.max - 1, let := d.let) && |d.let| == k.b.max - 1
    ensures u.at.db.now == t.at.db.now + k.b.windowSeconds && !Holds(u.at.db, ResendBudget(k.id))
  {
    u := TimePasses(k, t, c, 1);
    d := c;
    if k.b.max > 1 {
      u, d := ManyCount(k, u, c, 1, Some(t.at.db.now + k.b.windowSeconds), k.b.max - 1);
    }
    u := TimePasses(k, u, d, k.b.windowSeconds - 1);
  }

  /** A new life serves a whole budget, and then every stalled first count wakes up in it. */
  lemma EveryoneGoes(k: Case, t: Trace, c: Cast) returns (u: Trace, d: Cast)
    requires Valid(k, t) && Staged(k, t.at, c) && c.next + k.b.max <= k.codes
    requires c.from <= t.at.db.now && c.since <= t.at.db.now <= c.since + k.lag
    requires 1 <= k.b.max && 1 <= k.b.windowSeconds && !Holds(t.at.db, ResendBudget(k.id))
    ensures Valid(k, u) && Staged(k, u.at, d) && u.at.db.now == t.at.db.now && d.from == c.from
    ensures |d.let| == |c.let| + k.b.max + |c.stalled|
  {
    u, d := BudgetIsCounted(k, t, c);
    u, d := AllAnchor(k, u, d, k.b.max, None);
  }

  /** A first count stalls for a window, */
  lemma OneStalls(k: Case) returns (t: Trace, c: Cast)
    requires 1 <= k.b.max && 1 <= k.b.windowSeconds && k.b.max + 1 <= k.codes
    ensures Valid(k, t) && Staged(k, t.at, c) && !Holds(t.at.db, ResendBudget(k.id))
    ensures c.next == k.b.max + 1 && c.stalled == {0} && c.since + k.b.windowSeconds == t.at.db.now && c.from == 0
  {
    t := ManyAsk(k);
    c := Cast(0, {}, t.at.db.now, {}, 0);
    t, c := LifeWithAStall(k, t, c);
    t := TimePasses(k, t, c, k.b.windowSeconds);
  }

  /** and the next one stalls as well, */
  lemma NextStalls(k: Case) returns (t: Trace, c: Cast)
    requires 1 <= k.b.max && 1 <= k.b.windowSeconds && k.b.max + 2 <= k.codes
    ensures Valid(k, t) && Staged(k, t.at, c) && Counter(k, t.at, 1, None)
    ensures c.next == k.b.max + 2 && c.stalled == {0, k.b.max + 1} && c.from == 0
    ensures c.since + k.b.windowSeconds == t.at.db.now && t.at.spends[k.b.max + 1].at == t.at.db.now
  {
    t, c := OneStalls(k);
    t := FirstCount(k, t, c);
    c := c.(next := c.next + 1, stalled := c.stalled + {c.next});
  }

  /** in a life the first one anchors when it wakes up. */
  lemma TwoStall(k: Case) returns (t: Trace, c: Cast)
    requires 1 <= k.b.max && 1 <= k.b.windowSeconds <= k.lag && k.b.max + 2 <= k.codes
    ensures Valid(k, t) && Staged(k, t.at, c) && Counter(k, t.at, 1, Some(t.at.db.now + k.b.windowSeconds))
    ensures c == Cast(k.b.max + 2, {k.b.max + 1}, t.at.db.now, {}, t.at.db.now + 1)
  {
    t, c := NextStalls(k);
    t := OlderWakes(k, t, c, 0, k.b.max + 1);
    c := Cast(k.b.max + 2, {k.b.max + 1}, t.at.db.now, {}, t.at.db.now + 1);
  }

  lemma AWindowBreaksIt(id: string, b: Budget, cooldown: nat) returns (k: Case, t: Trace, c: Cast)
    requires 1 <= b.max && 1 <= b.windowSeconds && (b.max == 1 || 2 <= b.windowSeconds)
    ensures k.id == id && k.b == b && k.cooldown == cooldown && k.lag == b.windowSeconds
    ensures Valid(k, t) && Staged(k, t.at, c) && |c.let| == 2 * b.max && t.at.db.now < c.from + b.windowSeconds
  {
    k := Case(id, b, cooldown, 3 * b.max + 1, b.windowSeconds);
    t, c := TwoStall(k);
    t, c := RestOfLifeGoes(k, t, c);
    t, c := EveryoneGoes(k, t, c);
  }

  // ---- A window of one second ----

  /** Life after life, a second each, leaves one stalled first count. */
  lemma {:induction false} LivesPass(k: Case, t: Trace, lives: nat) returns (u: Trace, d: Cast)
    requires Valid(k, t) && Staged(k, t.at, Cast(0, {}, 0, {}, 0)) && k.b.windowSeconds == 1 && 1 <= k.b.max
    requires lives * (k.b.max + 1) <= k.codes && ResendBudget(k.id) !in t.at.db.store
    ensures Valid(k, u) && Staged(k, u.at, d) && !Holds(u.at.db, ResendBudget(k.id))
    ensures d.next == lives * (k.b.max + 1) && |d.stalled| == lives && d.since == t.at.db.now && d.from == 0
    ensures u.at.db.now == t.at.db.now + lives
  {
    u, d := t, Cast(0, {}, t.at.db.now, {}, 0);
    if lives > 0 {
      assert (lives - 1) * (k.b.max + 1) + (k.b.max + 1) == lives * (k.b.max + 1);
      u, d := LivesPass(k, t, lives - 1);
      u, d := LifeWithAStall(k, u, d);
      u := TimePasses(k, u, d, 1);
    }
  }

  lemma ManySecondsBreakIt(id: string, b: Budget, cooldown: nat) returns (k: Case, t: Trace, c: Cast)
    requires 1 <= b.max && b.windowSeconds == 1
    ensures k.id == id && k.b == b && k.cooldown == cooldown && k.lag == b.max
    ensures Valid(k, t) && Staged(k, t.at, c) && |c.let| == 2 * b.max && t.at.db.now < c.from + b.windowSeconds
  {
    k := Case(id, b, cooldown, b.max * (b.max + 1) + b.max, b.max);
    t := ManyAsk(k);
    t, c := LivesPass(k, t, b.max);
    Forget(k, t.at, c, t.at.db.now);
    t, c := EveryoneGoes(k, t, c.(let := {}, from := t.at.db.now));
  }

  /** What each code let go in this second says of itself. */
  lemma LetGoInASecond(w: World, id: string, b: Budget, cooldown: nat, from: nat)
    requires Invariant(w, id, b, cooldown) && AllReleased(w, id, b) && b.windowSeconds == 1
    ensures forall c | c in ReleasedWithin(w, id, from, 1) ::
              && c in SpendsOn(w, id) && Timely(w.spends[c], w.db.now) && w.spends[c].reply <= b.max
              && (w.spends[c].reply != 1 ==> w.spends[c].at == from)
  {
    forall c | c in ReleasedWithin(w, id, from, 1)
      ensures c in SpendsOn(w, id) && Timely(w.spends[c], w.db.now) && w.spends[c].reply <= b.max
      ensures w.spends[c].reply != 1 ==> w.spends[c].at == from
    {
      assert Released(w, c, id, 1) && Accounted(w, c, id, b);
      assert Timely(SpendsOn(w, id)[c], w.db.now);
    }
  }

  /** Within one second only one life counts twice, */
  lemma LaterCountsAreOfOneLife(w: World, id: string, b: Budget, cooldown: nat, from: nat, later: set<nat>)
    requires Invariant(w, id, b, cooldown) && b.windowSeconds == 1 && 1 <= b.max && later <= SpendsOn(w, id).Keys
    requires forall c | c in later :: w.spends[c].at == from && 2 <= w.spends[c].reply <= b.max
    ensures |later| <= b.max - 1
  {
    var spends := SpendsOn(w, id);
    if p :| p in later {
      OrderlyIsSpread(spends, w.db, ResendBudget(id), 1);
      forall c | c in later ensures spends[c].bornAt == spends[p].bornAt {
        assert c != p ==> Apart(spends[c], spends[p], 1) && Apart(spends[p], spends[c], 1);
      }
      OneLifeBound(spends, 1, later, spends[p].bornAt, 2, b.max);
    }
  }

  /** and each stalled first count is from a second of its own. */
  lemma OneSecondLetsFewGo(w: World, id: string, b: Budget, cooldown: nat, lag: nat, from: nat)
    requires Invariant(w, id, b, cooldown) && AllReleased(w, id, b) && AllWithin(w, id, lag)
    requires b.windowSeconds == 1 && 1 <= b.max
    ensures |ReleasedWithin(w, id, from, 1)| <= b.max + lag
  {
    var chosen := ReleasedWithin(w, id, from, 1);
    LetGoInASecond(w, id, b, cooldown, from);
    var firsts := set c | c in chosen && w.spends[c].reply == 1;
    FirstsAreFewPerSecond(w, id, b, cooldown, lag, from, firsts);
    LaterCountsAreOfOneLife(w, id, b, cooldown, from, chosen - firsts);
    SubsetIsSmaller(firsts, chosen);
  }

  lemma FirstsAreFewPerSecond(
      w: World, id: string, b: Budget, cooldown: nat, lag: nat, from: nat, firsts: set<nat>)
    requires Invariant(w, id, b, cooldown) && AllWithin(w, id, lag) && AllReleased(w, id, b)
    requires b.windowSeconds == 1 && firsts <= ReleasedWithin(w, id, from, 1)
    requires forall c | c in firsts :: c in w.spends && w.spends[c].reply == 1
    ensures |firsts| <= lag + 1
  {
    var spends := SpendsOn(w, id);
    LetGoInASecond(w, id, b, cooldown, from);
    forall c | c in firsts
      ensures c in spends && spends[c] == w.spends[c] && from - lag <= spends[c].bornAt <= from
    {
      assert c in ReleasedWithin(w, id, from, 1);
      assert Released(w, c, id, 1);
    }
    var tag := map c | c in firsts :: spends[c].bornAt as int;
    forall c, d | c in firsts && d in firsts && c != d ensures tag[c] != tag[d] {
      assert Apart(spends[c], spends[d], 1);
    }
    DistinctLabelsBound(firsts, tag, from - lag, from);
  }

  // ---- Exactly how late ----

  /** The bound, for every run in which no code is accepted more than `lag` after its INCR. */
  ghost predicate BoundHolds(id: string, b: Budget, cooldown: nat, lag: nat) {
    forall w, es, from: nat | Fresh(w, id) && IsRun(w, es, id, b, cooldown) ::
      AllWithin(End(w, es, id, b, cooldown), id, lag) ==>
        |ReleasedWithin(End(w, es, id, b, cooldown), id, from, b.windowSeconds)| <= 2 * b.max - 1
  }

  lemma ShortDelaysKeepTheBound(
      w: World, es: seq<Event>, id: string, b: Budget, cooldown: nat, lag: nat, from: nat)
    requires Fresh(w, id) && IsRun(w, es, id, b, cooldown) && 1 <= b.max && 1 <= b.windowSeconds
    requires AllWithin(End(w, es, id, b, cooldown), id, lag)
    requires lag < if b.windowSeconds == 1 then b.max else b.windowSeconds
    ensures |ReleasedWithin(End(w, es, id, b, cooldown), id, from, b.windowSeconds)| <= 2 * b.max - 1
  {
    var end := End(w, es, id, b, cooldown);
    if b.windowSeconds == 1 {
      RunKeepsInvariant(w, es, id, b, cooldown);
      RunKeepsReleased(w, es, id, b, cooldown);
      OneSecondLetsFewGo(end, id, b, cooldown, lag, from);
    } else {
      assert AllPrompt(end, id, b.windowSeconds);
      PromptReleasesAreBounded(w, es, id, b, cooldown, from);
    }
  }

  /** Whatever the budget, the window and the cool-off, codes accepted as late as that can break the bound. */
  lemma LongDelaysBreakTheBound(id: string, b: Budget, cooldown: nat)
    returns (w: World, es: seq<Event>, from: nat)
    requires 1 <= b.max && 1 <= b.windowSeconds
    ensures Fresh(w, id) && IsRun(w, es, id, b, cooldown)
    ensures AllWithin(End(w, es, id, b, cooldown), id, if b.windowSeconds == 1 then b.max else b.windowSeconds)
    ensures |ReleasedWithin(End(w, es, id, b, cooldown), id, from, b.windowSeconds)| > 2 * b.max - 1
  {
    var k, t, c;
    if b.windowSeconds == 1 {
      k, t, c := ManySecondsBreakIt(id, b, cooldown);
    } else {
      k, t, c := AWindowBreaksIt(id, b, cooldown);
    }
    TooManyGo(k, t, c);
    w, es, from := t.start, t.es, c.from;
  }

  /**
   * How long a claim may take from its INCR on: the bound by when codes are let
   * go holds of all runs exactly while no claim takes a whole window - or, with a
   * window of a single second, as many seconds as the budget has codes.
   */
  lemma PromptEnoughIsUnderAWindow(id: string, b: Budget, cooldown: nat, lag: nat)
    requires 1 <= b.max && 1 <= b.windowSeconds
    ensures BoundHolds(id, b, cooldown, lag) <==>
            lag < if b.windowSeconds == 1 then b.max else b.windowSeconds
  {
    if lag < if b.windowSeconds == 1 then b.max else b.windowSeconds {
      forall w, es, from: nat | Fresh(w, id) && IsRun(w, es, id, b, cooldown)
                                && AllWithin(End(w, es, id, b, cooldown), id, lag)
        ensures |ReleasedWithin(End(w, es, id, b, cooldown), id, from, b.windowSeconds)| <= 2 * b.max - 1
      {
        ShortDelaysKeepTheBound(w, es, id, b, cooldown, lag, from);
      }
    } else {
      var w, es, from := LongDelaysBreakTheBound(id, b, cooldown);
      assert AllWithin(End(w, es, id, b, cooldown), id, lag);
    }
  }

  // ---- The spacing, by when codes are let go ----

  /** Any two accepted codes are let go at least `gap` apart. */
  ghost predicate GapKept(w: World, id: string, gap: nat) {
    forall c, d | AcceptedCode(w, c, id) && AcceptedCode(w, d, id) && c != d ::
      c in w.accepted && d in w.accepted && FarApart(w.accepted[c], w.accepted[d], gap)
  }

  ghost predicate SpacingHolds(id: string, b: Budget, cooldown: nat, lag: nat, gap: nat) {
    forall w, es | Fresh(w, id) && IsRun(w, es, id, b, cooldown) ::
      WonWithin(End(w, es, id, b, cooldown), id, lag) ==> GapKept(End(w, es, id, b, cooldown), id, gap)
  }

  lemma OneAsks(k: Case) returns (t: Trace)
    ensures Valid(k, t) && t.at.claims == map[0 := Coded(k, Spending)] && t.at.wins == map[0 := 0]
    ensures t.at.db == Db(0, map[ResendCooldown(k.id) := Entry(1, 0, Some(k.cooldown))])
  {
    var w := World(Db(0, map[]), map[], map[], map[], map[]);
    t := Take(k, Trace(w, [], w), Begin(0, k.id, Code, Some(k.b)));
    t := Take(k, t, Answer(0, 0));
  }

  /** One code takes `late` from its cool-off to its count and is anchored at once. */
  lemma LateCodeGoes(k: Case, late: nat) returns (t: Trace)
    requires 1 <= k.b.max && 1 <= k.b.windowSeconds
    ensures Valid(k, t) && t.at.claims == map[0 := Coded(k, Accepted)] && t.at.db.now == late
    ensures ResendCooldown(k.id) in t.at.db.store
    ensures t.at.db.store[ResendCooldown(k.id)].expiresAt == Some(k.cooldown)
    ensures Counter(k, t.at, 1, Some(late + k.b.windowSeconds))
    ensures t.at.wins == map[0 := 0] && 0 in t.at.accepted && t.at.accepted[0] == late
  {
    t := OneAsks(k);
    t := Take(k, t, Event.Wait(late));
    t := CountsFirst(k, t, 0);
    t := AnchorsNow(k, t, 0, 1, None);
  }

  lemma NextAsks(k: Case, t: Trace, late: nat) returns (u: Trace)
    requires Valid(k, t) && t.at.claims == map[0 := Coded(k, Accepted)] && t.at.db.now == late <= k.cooldown
    requires ResendCooldown(k.id) in t.at.db.store
    requires t.at.db.store[ResendCooldown(k.id)].expiresAt == Some(k.cooldown)
    requires Counter(k, t.at, 1, Some(late + k.b.windowSeconds)) && k.cooldown < k.b.windowSeconds
    ensures Valid(k, u) && u.at.claims == map[0 := Coded(k, Accepted), 1 := Coded(k, Spending)]
    ensures u.at.db.now == k.cooldown && Counter(k, u.at, 1, Some(late + k.b.windowSeconds))
    ensures u.at.wins == t.at.wins[1 := k.cooldown] && u.at.accepted == t.at.accepted
  {
    u := Take(k, t, Begin(1, k.id, Code, Some(k.b)));
    u := Take(k, u, Answer(1, k.cooldown - late));
  }

  /** The next code takes the cool-off as it lapses and is let go there and then. */
  lemma CloseCodesGo(k: Case, late: nat) returns (t: Trace)
    requires late <= k.cooldown < k.b.windowSeconds && 2 <= k.b.max
    ensures Valid(k, t) && t.at.claims == map[0 := Coded(k, Accepted), 1 := Coded(k, Accepted)]
    ensures t.at.wins == map[0 := 0, 1 := k.cooldown]
    ensures 0 in t.at.accepted && t.at.accepted[0] == late && 1 in t.at.accepted && t.at.accepted[1] == k.cooldown
  {
    t := LateCodeGoes(k, late);
    t := NextAsks(k, t, late);
    t := CountsNext(k, t, 1, 1, Some(late + k.b.windowSeconds));
  }

  /**
   * Codes are let go at least `gap` apart exactly when `gap` plus the time a claim
   * may take from its cool-off on is at most the cool-off. In particular nothing
   * keeps codes apart once a claim may stall for a whole cool-off.
   */
  lemma ReleasesKeepTheirDistance(id: string, b: Budget, cooldown: nat, lag: nat, gap: nat)
    requires 2 <= b.max && cooldown < b.windowSeconds
    ensures SpacingHolds(id, b, cooldown, lag, gap) <==> gap == 0 || gap + lag <= cooldown
  {
    if gap == 0 || gap + lag <= cooldown {
      forall w, es | Fresh(w, id) && IsRun(w, es, id, b, cooldown) && WonWithin(End(w, es, id, b, cooldown), id, lag)
        ensures GapKept(End(w, es, id, b, cooldown), id, gap)
      {
        var end := End(w, es, id, b, cooldown);
        forall c, d | AcceptedCode(end, c, id) && AcceptedCode(end, d, id) && c != d
          ensures FarApart(end.accepted[c], end.accepted[d], gap)
        {
          ReleasesAreSpaced(w, es, id, b, cooldown, lag, c, d);
        }
      }
    } else {
      var k, late := Case(id, b, cooldown, 2, 0), if lag <= cooldown then lag else cooldown;
      var t := CloseCodesGo(k, late);
      assert AcceptedCode(t.at, 0, id) && AcceptedCode(t.at, 1, id);
      assert !FarApart(t.at.accepted[0], t.at.accepted[1], gap);
      assert WonWithin(t.at, id, lag) && !GapKept(t.at, id, gap);
    }
  }
}

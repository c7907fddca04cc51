/**
 * How many confirmations one identity may be sent, and how often: a cool-off
 * taken atomically, then a budget counted per window. The Redis clock ticks in
 * whole seconds here.
 */
module ResendThrottle {
  import opened Prelude
  import opened Redis

  datatype Kind = Link | Code

  /** A `code` refuses while Redis cannot be reached; a `link` is let through. */
  predicate FailsClosed(kind: Kind) {
    kind == Code
  }

  datatype Budget = Budget(max: nat, windowSeconds: nat)

  datatype Refusal = Wait | OverBudget(secondsLeft: int)

  /** Where one call of `claim` is: which command it sends next, or how it ended. */
  datatype Phase =
    | Asking      // SET NX EX on the cool-off
    | Spending    // INCR on the budget
    | Anchoring   // EXPIRE after a count of one
    | Measuring   // TTL after a count over the budget
    | Repairing   // EXPIRE on a counter found without one
    | Accepted
    | Refused(why: Refusal)

  datatype Request = Request(identity: string, kind: Kind, budget: Option<Budget>, phase: Phase)
  {
    predicate Done() {
      phase.Accepted? || phase.Refused?
    }

    predicate Valid() {
      phase in {Spending, Anchoring, Measuring, Repairing} ==> budget.Some?
    }
  }

  function NextCommand(c: Request, cooldown: nat): Command
    requires !c.Done() && c.Valid()
  {
    if c.phase == Asking then SetNxEx(ResendCooldown(c.identity), cooldown)
    else if c.phase == Spending then Incr(ResendBudget(c.identity))
    else if c.phase == Measuring then Ttl(ResendBudget(c.identity))
    else Expire(ResendBudget(c.identity), c.budget.value.windowSeconds)
  }

  /** What a claim does with an answer; `None` is an error from the client. */
  function Resumed(c: Request, reply: Option<int>): Phase
    requires !c.Done() && c.Valid()
  {
    match reply
    case None =>
      if FailsClosed(c.kind) then Refused(Wait)
      else if c.phase.Asking? && c.budget.Some? then Spending
      else Accepted
    case Some(r) =>
      if c.phase == Asking then
        if r == 0 then Refused(Wait) else if c.budget.Some? then Spending else Accepted
      else if c.phase == Spending then
        if r == 1 then Anchoring else if r > c.budget.value.max then Measuring else Accepted
      else if c.phase == Anchoring then
        if 1 > c.budget.value.max then Refused(OverBudget(c.budget.value.windowSeconds)) else Accepted
      else if c.phase == Measuring then
        if r >= 0 then Refused(OverBudget(r)) else if r == NO_SUCH_KEY then Refused(OverBudget(0)) else Repairing
      else
        Refused(OverBudget(c.budget.value.windowSeconds))
  }

  function Advance(db: Db, c: Request, cooldown: nat, trip: Trip): (r: (Db, Request))
    requires !c.Done() && c.Valid()
    ensures r.1.Valid()
  {
    var (after, reply) := Send(db, NextCommand(c, cooldown), trip);
    (after, c.(phase := Resumed(c, reply)))
  }

  /** A claim run on its own. When the trips give out first, its process has died. */
  function Play(db: Db, c: Request, cooldown: nat, trips: seq<Trip>): (Db, Request)
    requires c.Valid()
    decreases |trips|
  {
    if c.Done() || trips == [] then (db, c)
    else
      var (after, next) := Advance(db, c, cooldown, trips[0]);
      Play(after, next, cooldown, trips[1..])
  }

  lemma PlayStep(db: Db, c: Request, cooldown: nat, trips: seq<Trip>)
    requires c.Valid() && trips != []
    ensures c.Done() ==> Play(db, c, cooldown, trips) == (db, c)
    ensures !c.Done() ==>
              var (after, next) := Advance(db, c, cooldown, trips[0]);
              && Play(db, c, cooldown, trips) == Play(after, next, cooldown, trips[1..])
              && (next.Done() ==> Play(db, c, cooldown, trips) == (after, next))
  {
  }

  datatype Verdict = Allowed | TooManyRequests(why: Refusal)

  /** The service itself: its commands change the shared client one at a time. */
  class Service {
    const redis: Client
    const cooldownSeconds: nat
    const defaultCodeBudget: Budget

    constructor (redis: Client, cooldownSeconds: nat, codeBudget: Budget)
      ensures this.redis == redis && this.cooldownSeconds == cooldownSeconds && this.defaultCodeBudget == codeBudget
    {
      this.redis := redis;
      this.cooldownSeconds := cooldownSeconds;
      this.defaultCodeBudget := codeBudget;
    }

    function DefaultBudget(kind: Kind): Option<Budget> {
      if kind == Code then Some(defaultCodeBudget) else None
    }

    /** The whole call, one round trip after another. */
    method Claim(identity: string, kind: Kind, budget: Option<Budget>, trips: seq<Trip>) returns (verdict: Verdict)
      requires |trips| == 4
      modifies redis
      ensures var start := Request(identity, kind, budget, Asking);
              var (after, c) := Play(old(redis.Contents()), start, cooldownSeconds, trips);
              && redis.Contents() == after
              && c.phase == match verdict case Allowed => Accepted case TooManyRequests(why) => Refused(why)
    {
      var won := ClaimWindow(identity, kind, trips[0]);
      match won {
        case Err(why) => verdict := TooManyRequests(why);
        case Ok(false) => verdict := TooManyRequests(Wait);
        case Ok(true) =>
          match budget {
            case None => verdict := Allowed;
            case Some(b) => verdict := SpendFromBudget(identity, kind, b, trips[1..]);
          }
      }
    }

    /** The call as made by a caller that brings no budget of its own. */
    method ClaimFromDefault(identity: string, kind: Kind, trips: seq<Trip>) returns (verdict: Verdict)
      requires |trips| == 4
      modifies redis
      ensures var budget := match kind case Code => Some(defaultCodeBudget) case Link => None;
              var start := Request(identity, kind, budget, Asking);
              var (after, c) := Play(old(redis.Contents()), start, cooldownSeconds, trips);
              && redis.Contents() == after
              && c.phase == match verdict case Allowed => Accepted case TooManyRequests(why) => Refused(why)
    {
      verdict := Claim(identity, kind, DefaultBudget(kind), trips);
    }

    /** Redis could not be reached: refuse or allow, per the kind. */
    function Unavailable(kind: Kind): Verdict {
      if FailsClosed(kind) then TooManyRequests(Wait) else Allowed
    }

    method ClaimWindow(identity: string, kind: Kind, trip: Trip) returns (won: Result<bool, Refusal>)
      modifies redis
      ensures var take := SetNxEx(ResendCooldown(identity), cooldownSeconds);
              var (after, reply) := Send(old(redis.Contents()), take, trip);
              && redis.Contents() == after
              && won == match reply
                        case Some(r) => Ok(r != 0)
                        case None => if kind == Code then Err(Wait) else Ok(true)
    {
      var reply := redis.SendSetNxEx(ResendCooldown(identity), cooldownSeconds, trip);
      match reply {
        case Some(r) => won := Ok(r != 0);
        case None => won := match Unavailable(kind) case TooManyRequests(why) => Err(why) case Allowed => Ok(true);
      }
    }

    method SpendFromBudget(identity: string, kind: Kind, budget: Budget, trips: seq<Trip>) returns (verdict: Verdict)
      requires |trips| == 3
      modifies redis
      ensures var c := Request(identity, kind, Some(budget), Spending);
              var (after, done) := Play(old(redis.Contents()), c, cooldownSeconds, trips);
              && redis.Contents() == after
              && done.phase == match verdict case Allowed => Accepted case TooManyRequests(why) => Refused(why)
    {
      var key := ResendBudget(identity);
      var secondsLeft: int := budget.windowSeconds;
      ghost var db0, c0 := redis.Contents(), Request(identity, kind, Some(budget), Spending);
      ghost var (db1, c1) := Advance(db0, c0, cooldownSeconds, trips[0]);
      PlayStep(db0, c0, cooldownSeconds, trips);
      var spent := redis.SendIncr(key, trips[0]);
      if spent.None? {
        return Unavailable(kind);
      }
      if spent.value == 1 {
        PlayStep(db1, c1, cooldownSeconds, trips[1..]);
        var anchored := redis.SendExpire(key, budget.windowSeconds, trips[1]);
        if anchored.None? {
          return Unavailable(kind);
        }
      } else if spent.value > budget.max {
        PlayStep(db1, c1, cooldownSeconds, trips[1..]);
        ghost var (db2, c2) := Advance(db1, c1, cooldownSeconds, trips[1]);
        PlayStep(db2, c2, cooldownSeconds, trips[2..]);
        var left := RemainingWindow(key, budget.windowSeconds, trips[1..]);
        if left.None? {
          return Unavailable(kind);
        }
        secondsLeft := left.value;
      }
      verdict := if spent.value > budget.max then TooManyRequests(OverBudget(secondsLeft)) else Allowed;
    }

    /** How long the window has left, re-anchoring a counter found without an expiry. */
    method RemainingWindow(key: Key, windowSeconds: nat, trips: seq<Trip>) returns (left: Option<int>)
      requires |trips| == 2
      modifies redis
      ensures var (afterTtl, ttl) := Send(old(redis.Contents()), Ttl(key), trips[0]);
              if ttl == Some(NO_EXPIRY) then
                var (after, anchored) := Send(afterTtl, Expire(key, windowSeconds), trips[1]);
                redis.Contents() == after && left == if anchored.Some? then Some(windowSeconds) else None
              else
                redis.Contents() == afterTtl && left == if ttl == Some(NO_SUCH_KEY) then Some(0) else ttl
    {
      var ttl := redis.SendTtl(key, trips[0]);
      if ttl.None? {
        return None;
      }
      if ttl.value >= 0 {
        return ttl;
      }
      if ttl.value == NO_SUCH_KEY {
        return Some(0);
      }
      var anchored := redis.SendExpire(key, windowSeconds, trips[1]);
      left := if anchored.Some? then Some(windowSeconds) else None;
    }

    /** The older pair: ask, and separately start the cool-off. */
    method AssertAllowed(identity: string, kind: Kind, trip: Trip) returns (verdict: Verdict)
      modifies redis
      ensures redis.store == old(redis.store)
      ensures verdict == if trip.wire != Answered
                         then (match kind case Code => TooManyRequests(Wait) case Link => Allowed)
                         else if Holds(redis.Contents(), ResendCooldown(identity)) then TooManyRequests(Wait)
                         else Allowed
    {
      var recent := redis.SendExists(ResendCooldown(identity), trip);
      if recent.None? {
        return Unavailable(kind);
      }
      verdict := if recent.value != 0 then TooManyRequests(Wait) else Allowed;
    }

    method Remember(identity: string, trip: Trip)
      modifies redis
      ensures redis.Contents() == Send(old(redis.Contents()), SetEx(ResendCooldown(identity), cooldownSeconds), trip).0
    {
      var _ := redis.SendSetEx(ResendCooldown(identity), cooldownSeconds, trip);
    }
  }
}

/**
 * The part of Redis the services talk to: keys with a value and an optional
 * expiry, on a clock that counts whole ticks. A key whose expiry has been
 * reached is gone, whether or not it has been swept from the store.
 */
module Redis {
  import opened Prelude

  datatype Attempt = SignIn | Reset

  /** Every key the modelled services own; `Render` is how each is spelled. */
  datatype Key =
    | ResendCooldown(identity: string)
    | ResendBudget(identity: string)
    | FailCount(attempt: Attempt, identity: string)
    | Lock(attempt: Attempt, identity: string)
    | ClaimSpent(digest: string)

  function Prefix(k: Key): string {
    match k
    case ResendCooldown(_) => "verify:resend:"
    case ResendBudget(_) => "verify:budget:"
    case FailCount(SignIn, _) => "login:fail:"
    case FailCount(Reset, _) => "reset:fail:"
    case Lock(SignIn, _) => "login:lock:"
    case Lock(Reset, _) => "reset:lock:"
    case ClaimSpent(_) => "booking-claim:spent:"
  }

  function Suffix(k: Key): string {
    match k
    case ResendCooldown(id) => id
    case ResendBudget(id) => id
    case FailCount(_, id) => id
    case Lock(_, id) => id
    case ClaimSpent(digest) => digest
  }

  function Render(k: Key): string {
    Prefix(k) + Suffix(k)
  }

  lemma PrefixesDiffer(a: Key, b: Key)
    requires Render(a) == Render(b)
    ensures Prefix(a) == Prefix(b)
  {
    forall i | i in {0, 6, 7} ensures Prefix(a)[i] == Prefix(b)[i] {
      assert Render(a)[i] == Prefix(a)[i] && Render(b)[i] == Prefix(b)[i];
    }
    assert Prefix(a)[0] == Prefix(b)[0] && Prefix(a)[6] == Prefix(b)[6] && Prefix(a)[7] == Prefix(b)[7];
  }

  /**
   * No identity, however it is spelled, makes two services share a key: the
   * owned prefixes cannot be reproduced by the part a caller chooses.
   */
  lemma RenderIsInjective(a: Key, b: Key)
    ensures Render(a) == Render(b) <==> a == b
  {
    if Render(a) == Render(b) {
      PrefixesDiffer(a, b);
      assert Suffix(a) == Render(a)[|Prefix(a)|..] == Render(b)[|Prefix(b)|..] == Suffix(b);
    }
  }

  /** `bornAt` is bookkeeping no command can read: when the key came to exist. */
  datatype Entry = Entry(value: nat, bornAt: nat, expiresAt: Option<nat>)

  datatype Db = Db(now: nat, store: map<Key, Entry>)

  predicate Lapsed(e: Entry, now: nat) {
    e.expiresAt.Some? && e.expiresAt.value <= now
  }

  predicate Holds(db: Db, k: Key) {
    k in db.store && !Lapsed(db.store[k], db.now)
  }

  datatype Command =
    | SetNxEx(key: Key, ttl: nat)
    | SetEx(key: Key, ttl: nat)
    | Incr(key: Key)
    | Expire(key: Key, ttl: nat)
    | Ttl(key: Key)
    | Exists(key: Key)
    | Del(keys: set<Key>)

  const NO_SUCH_KEY := -2
  const NO_EXPIRY := -1

  function Put(db: Db, k: Key, e: Entry): Db {
    db.(store := db.store[k := e])
  }

  /** One command, executed: the database after it, and its integer reply. */
  function Execute(db: Db, c: Command): (Db, int) {
    match c
    case SetNxEx(k, ttl) =>
      if Holds(db, k) then (db, 0) else (Put(db, k, Entry(1, db.now, Some(db.now + ttl))), 1)
    case SetEx(k, ttl) =>
      (Put(db, k, Entry(1, db.now, Some(db.now + ttl))), 1)
    case Incr(k) =>
      if Holds(db, k)
      then (Put(db, k, db.store[k].(value := db.store[k].value + 1)), db.store[k].value + 1)
      else (Put(db, k, Entry(1, db.now, None)), 1)
    case Expire(k, ttl) =>
      if Holds(db, k) then (Put(db, k, db.store[k].(expiresAt := Some(db.now + ttl))), 1) else (db, 0)
    case Ttl(k) =>
      if !Holds(db, k) then (db, NO_SUCH_KEY)
      else if db.store[k].expiresAt.None? then (db, NO_EXPIRY)
      else (db, db.store[k].expiresAt.value - db.now)
    case Exists(k) =>
      (db, if Holds(db, k) then 1 else 0)
    case Del(ks) => // no caller reads this reply
      (db.(store := db.store - ks), 0)
  }

  function Pass(db: Db, ticks: nat): Db {
    db.(now := db.now + ticks)
  }

  /** What the network does to a command: an error reply says nothing about the effect. */
  datatype Wire = Answered | ReplyLost | NeverArrived

  /** One round trip: how long it waits first, and what becomes of it. */
  datatype Trip = Trip(delay: nat, wire: Wire)

  /** A command sent over the wire; `None` is the client's error. */
  function Send(db: Db, c: Command, trip: Trip): (Db, Option<int>) {
    var later := Pass(db, trip.delay);
    var (after, reply) := Execute(later, c);
    (if trip.wire == NeverArrived then later else after,
     if trip.wire == Answered then Some(reply) else None)
  }

  predicate Touches(k: Key, c: Command) {
    match c
    case Del(keys) => k in keys
    case _ => c.key == k
  }

  // ---- What the commands promise, in terms of what later ones are told ----

  lemma KeysLiveTheirTime(db: Db, k: Key, ttl: nat, wait: nat)
    ensures var later := Pass(Execute(db, SetEx(k, ttl)).0, wait);
            && (Holds(later, k) <==> wait < ttl)
            && Execute(later, Ttl(k)).1 == (if wait < ttl then ttl - wait else -2)
            && Execute(later, Exists(k)).1 == (if wait < ttl then 1 else 0)
  {
  }

  lemma OnlyTheFirstTakes(db: Db, k: Key, ttl: nat)
    ensures var (after, reply) := Execute(db, SetNxEx(k, ttl));
            if Holds(db, k) then reply == 0 && after == db
            else reply == 1 && after == Execute(db, SetEx(k, ttl)).0
  {
  }

  /** A count goes on from what is stored and keeps its expiry; with nothing stored it starts at one, without any. */
  lemma CountsGoUpByOne(db: Db, k: Key)
    ensures var (once, first) := Execute(db, Incr(k));
            && Execute(once, Incr(k)).1 == first + 1
            && (Holds(db, k) ==> first == db.store[k].value + 1 && Execute(once, Ttl(k)).1 == Execute(db, Ttl(k)).1)
            && (!Holds(db, k) ==> first == 1 && Execute(once, Ttl(k)).1 == -1)
  {
  }

  lemma ExpireStartsTheClock(db: Db, k: Key, ttl: nat, wait: nat)
    ensures var (after, reply) := Execute(db, Expire(k, ttl));
            if Holds(db, k)
            then
              && reply == 1 && after.store[k].value == db.store[k].value
              && (Holds(Pass(after, wait), k) <==> wait < ttl)
            else reply == 0 && after == db
  {
  }

  lemma OtherKeysStand(db: Db, c: Command, k: Key)
    requires !Touches(k, c)
    ensures var after := Execute(db, c).0;
            && after.now == db.now && (k in after.store <==> k in db.store)
            && (k in db.store ==> after.store[k] == db.store[k])
    ensures c.Ttl? || c.Exists? ==> Execute(db, c).0 == db
  {
  }

  lemma DeletedKeysAreGone(db: Db, ks: set<Key>, k: Key)
    ensures Holds(Execute(db, Del(ks)).0, k) <==> Holds(db, k) && k !in ks
  {
  }

  /** A lost reply says nothing of the effect; a command that never arrives has none. */
  lemma RepliesMayBeLost(db: Db, c: Command, delay: nat)
    ensures Send(db, c, Trip(delay, NeverArrived)) == (Pass(db, delay), None)
    ensures Send(db, c, Trip(delay, ReplyLost)) == (Execute(Pass(db, delay), c).0, None)
    ensures Send(db, c, Trip(delay, Answered))
         == (Execute(Pass(db, delay), c).0, Some(Execute(Pass(db, delay), c).1))
  {
  }

  /** A connection to the one shared database, changed in place by each command. */
  class Client {
    var now: nat
    var store: map<Key, Entry>

    ghost function Contents(): Db
      reads this
    {
      Db(now, store)
    }

    predicate Has(k: Key)
      reads this
      ensures Has(k) == Holds(Contents(), k)
    {
      k in store && !Lapsed(store[k], now)
    }

    /** Time goes by without a command. */
    method Elapse(ticks: nat)
      modifies this
      ensures Contents() == Pass(old(Contents()), ticks)
    {
      now := now + ticks;
    }

    method SendSetNxEx(k: Key, ttl: nat, trip: Trip) returns (reply: Option<int>)
      modifies this
      ensures (Contents(), reply) == Send(old(Contents()), SetNxEx(k, ttl), trip)
    {
      now := now + trip.delay;
      var free := !Has(k);
      if free && trip.wire != NeverArrived {
        store := store[k := Entry(1, now, Some(now + ttl))];
      }
      reply := if trip.wire == Answered then Some(if free then 1 else 0) else None;
    }

    method SendSetEx(k: Key, ttl: nat, trip: Trip) returns (reply: Option<int>)
      modifies this
      ensures (Contents(), reply) == Send(old(Contents()), SetEx(k, ttl), trip)
    {
      now := now + trip.delay;
      if trip.wire != NeverArrived {
        store := store[k := Entry(1, now, Some(now + ttl))];
      }
      reply := if trip.wire == Answered then Some(1) else None;
    }

    method SendIncr(k: Key, trip: Trip) returns (reply: Option<int>)
      modifies this
      ensures (Contents(), reply) == Send(old(Contents()), Incr(k), trip)
    {
      now := now + trip.delay;
      var entry := if Has(k) then store[k].(value := store[k].value + 1) else Entry(1, now, None);
      if trip.wire != NeverArrived {
        store := store[k := entry];
      }
      reply := if trip.wire == Answered then Some(entry.value) else None;
    }

    method SendExpire(k: Key, ttl: nat, trip: Trip) returns (reply: Option<int>)
      modifies this
      ensures (Contents(), reply) == Send(old(Contents()), Expire(k, ttl), trip)
    {
      now := now + trip.delay;
      var there := Has(k);
      if there && trip.wire != NeverArrived {
        store := store[k := store[k].(expiresAt := Some(now + ttl))];
      }
      reply := if trip.wire == Answered then Some(if there then 1 else 0) else None;
    }

    method SendTtl(k: Key, trip: Trip) returns (reply: Option<int>)
      modifies this
      ensures (Contents(), reply) == Send(old(Contents()), Ttl(k), trip)
    {
      now := now + trip.delay;
      if trip.wire != Answered {
        return None;
      }
      if !Has(k) {
        return Some(NO_SUCH_KEY);
      }
      match store[k].expiresAt
      case None => reply := Some(NO_EXPIRY);
      case Some(at) => reply := Some(at - now);
    }

    method SendExists(k: Key, trip: Trip) returns (reply: Option<int>)
      modifies this
      ensures (Contents(), reply) == Send(old(Contents()), Exists(k), trip)
    {
      now := now + trip.delay;
      reply := if trip.wire == Answered then Some(if Has(k) then 1 else 0) else None;
    }

    method SendDel(ks: set<Key>, trip: Trip) returns (reply: Option<int>)
      modifies this
      ensures (Contents(), reply) == Send(old(Contents()), Del(ks), trip)
    {
      now := now + trip.delay;
      if trip.wire != NeverArrived {
        store := store - ks;
      }
      reply := if trip.wire == Answered then Some(0) else None;
    }
  }
}

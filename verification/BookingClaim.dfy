/**
 * Making or taking over an attendee account with the one-time link a booking's
 * address was emailed. The clock, Redis's included, ticks in milliseconds here.
 */
module BookingClaim {
  import opened Prelude
  import opened Redis

  type Id = nat

  const MS_PER_SECOND := 1000

  /** `Other` is any status but the one that waits for its address to be proven. */
  datatype Status = Unconfirmed | Active | Other

  /** Emails are written as the database compares them, in one case. */
  datatype Account = Account(
    email: string, name: string, password: nat, status: Status, deleted: bool, sessions: set<Id>)

  datatype Booking = Booking(buyerEmail: string, buyerName: string)

  /** A link this service signed; `digest` is its token's, which no other token shares. */
  datatype Link = Link(orderId: Id, email: string, exp: nat, digest: string)

  datatype Desk = Desk(db: Db, users: map<Id, Account>, bookings: map<Id, Booking>)

  datatype Reply = Invalid | SignInInstead | Made(user: Id) | TookOver(user: Id)

  /** The token still verifies: its expiry, in whole seconds, has not been reached. */
  predicate Verifies(link: Link, now: nat) {
    now / MS_PER_SECOND < link.exp
  }

  predicate LiveOn(users: map<Id, Account>, u: Id, email: string) {
    u in users && !users[u].deleted && users[u].email == email
  }

  /** The unique index over live rows. */
  predicate AddressesAreUnique(users: map<Id, Account>) {
    forall u, v | u in users && v in users && u != v && !users[u].deleted && !users[v].deleted ::
      users[u].email != users[v].email
  }

  predicate AddressFree(users: map<Id, Account>, email: string) {
    forall u | u in users :: !LiveOn(users, u, email)
  }

  /** The live account on an address, if there is one. */
  function FindAttendee(users: map<Id, Account>, email: string): (found: Option<Id>)
    requires AddressesAreUnique(users)
    ensures found.None? <==> AddressFree(users, email)
    ensures found.Some? ==> LiveOn(users, found.value, email)
  {
    if AddressFree(users, email) then None
    else
      var u :| u in users && LiveOn(users, u, email);
      Some(u)
  }

  predicate Confirmed(users: map<Id, Account>, found: Option<Id>) {
    found.Some? && found.value in users && users[found.value].status != Unconfirmed
  }

  /** How long the ledger remembers a used link: until it would have died, and at least a second. */
  function SecondsLeft(link: Link, now: nat): nat {
    var left := CeilSeconds(link.exp * MS_PER_SECOND - now);
    if left < 1 then 1 else left
  }

  function CeilSeconds(ms: int): int {
    -((-ms) / MS_PER_SECOND)
  }

  datatype Standing = Dead | Good(existing: Option<Id>)

  /** Is the link still good, and for whom: asked of the token, the ledger, the booking and the accounts. */
  function StandingOf(d: Desk, link: Link, trip: Trip): (Db, Standing)
    requires AddressesAreUnique(d.users)
  {
    if !Verifies(link, d.db.now) then (d.db, Dead)
    else
      var (db, reply) := Send(d.db, Exists(ClaimSpent(link.digest)), trip);
      var spent := reply.Some? && reply.value > 0;
      if link.orderId !in d.bookings || d.bookings[link.orderId].buyerEmail != link.email then (db, Dead)
      else
        var existing := FindAttendee(d.users, link.email);
        if spent && !Confirmed(d.users, existing) then (db, Dead) else (db, Good(existing))
  }

  /** Only an account still unconfirmed is taken over, with every session it had revoked. */
  function Superseded(users: map<Id, Account>, u: Id, name: string, password: nat): Option<map<Id, Account>> {
    if u !in users || users[u].status != Unconfirmed || users[u].deleted then None
    else Some(users[u := users[u].(name := name, password := password, status := Active, sessions := {})])
  }

  /** A new account, refused by the index when the address has one. */
  function Created(users: map<Id, Account>, u: Id, email: string, name: string, password: nat)
    : Option<map<Id, Account>>
  {
    if !AddressFree(users, email) then None
    else Some(users[u := Account(email, name, password, Active, false, {})])
  }

  /** The write a good standing leads to. */
  function Written(
      users: map<Id, Account>, link: Link, booking: Booking, existing: Option<Id>, newId: Id, password: nat)
    : (map<Id, Account>, Reply)
  {
    match existing
    case Some(u) =>
      (match Superseded(users, u, booking.buyerName, password)
       case None => (users, SignInInstead)
       case Some(after) => (after, TookOver(u)))
    case None =>
      (match Created(users, newId, link.email, booking.buyerName, password)
       case None => (users, SignInInstead)
       case Some(after) => (after, Made(newId)))
  }

  predicate Succeeds(r: Reply) {
    r.Made? || r.TookOver?
  }

  datatype ClaimInput = ClaimInput(
    link: Link, newId: Id, password: nat, session: Id, hashing: nat, read: Trip, spend: Trip)

  /** A claim that nothing runs beside: standing, hashing, the write, the ledger, the session. */
  function ClaimAlone(d: Desk, i: ClaimInput): (Desk, Reply)
    requires AddressesAreUnique(d.users)
  {
    var (db, standing) := StandingOf(d, i.link, i.read);
    if standing.Dead? then (d.(db := db), Invalid)
    else if Confirmed(d.users, standing.existing) then (d.(db := db), SignInInstead)
    else
      var hashed := Pass(db, i.hashing);
      var booking := d.bookings[i.link.orderId];
      var (users, reply) := Written(d.users, i.link, booking, standing.existing, i.newId, i.password);
      if !Succeeds(reply) then (d.(db := hashed), reply)
      else
        var ttl := SecondsLeft(i.link, hashed.now) * MS_PER_SECOND;
        (Desk(Send(hashed, SetEx(ClaimSpent(i.link.digest), ttl), i.spend).0,
              users[reply.user := users[reply.user].(sessions := users[reply.user].sessions + {i.session})],
              d.bookings), reply)
  }

  class Service {
    const redis: Client
    var users: map<Id, Account>
    var bookings: map<Id, Booking>

    constructor (redis: Client, users: map<Id, Account>, bookings: map<Id, Booking>)
      ensures this.redis == redis && this.users == users && this.bookings == bookings
    {
      this.redis := redis;
      this.users := users;
      this.bookings := bookings;
    }

    ghost function State(): Desk
      reads this, redis
    {
      Desk(redis.Contents(), users, bookings)
    }

    method Stand(link: Link, trip: Trip) returns (standing: Standing)
      requires AddressesAreUnique(users)
      modifies redis
      ensures (redis.Contents(), standing) == StandingOf(old(State()), link, trip)
    {
      if !Verifies(link, redis.now) {
        return Dead;
      }
      var reply := redis.SendExists(ClaimSpent(link.digest), trip);
      var spent := reply.Some? && reply.value > 0;
      if link.orderId !in bookings || bookings[link.orderId].buyerEmail != link.email {
        return Dead;
      }
      var existing := FindAttendee(users, link.email);
      if spent && !Confirmed(users, existing) {
        return Dead;
      }
      standing := Good(existing);
    }

    method Spend(link: Link, trip: Trip)
      modifies redis
      ensures redis.Contents() ==
              Send(old(redis.Contents()),
                   SetEx(ClaimSpent(link.digest), SecondsLeft(link, old(redis.now)) * MS_PER_SECOND), trip).0
    {
      var _ := redis.SendSetEx(ClaimSpent(link.digest), SecondsLeft(link, redis.now) * MS_PER_SECOND, trip);
    }

    method Claim(i: ClaimInput) returns (reply: Reply)
      requires AddressesAreUnique(users) && i.newId !in users
      modifies this, redis
      ensures (State(), reply) == ClaimAlone(old(State()), i)
    {
      var standing := Stand(i.link, i.read);
      if standing.Dead? {
        return Invalid;
      }
      if Confirmed(users, standing.existing) {
        return SignInInstead;
      }
      redis.Elapse(i.hashing);
      var name := bookings[i.link.orderId].buyerName;
      match standing.existing {
        case Some(u) =>
          var taken := Superseded(users, u, name, i.password);
          if taken.None? {
            return SignInInstead;
          }
          users := taken.value;
          reply := TookOver(u);
        case None =>
          var made := Created(users, i.newId, i.link.email, name, i.password);
          if made.None? {
            return SignInInstead;
          }
          users := made.value;
          reply := Made(i.newId);
      }
      Spend(i.link, i.spend);
      users := users[reply.user := users[reply.user].(sessions := users[reply.user].sessions + {i.session})];
    }
  }
}

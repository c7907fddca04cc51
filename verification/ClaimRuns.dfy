/** What holds of booking claims over whole runs, alone and side by side. */
module ClaimRuns {
  import opened Prelude
  import opened Redis
  import opened BookingClaim

  // ---- One link, one account, when claims run one at a time ----

  /** Everything else that may happen to accounts, bookings and other keys in between. */
  datatype Step =
    | Claiming(input: ClaimInput)
    | Waiting(ticks: nat)
    | SigningUp(u: Id, email: string, name: string, password: nat)
    | Confirming(u: Id)
    | Restating(u: Id, status: Status)
    | Deleting(u: Id)
    | Readdressing(u: Id, email: string)
    | Rebooking(order: Id, booking: Booking)

  predicate Reachable(trip: Trip) {
    trip.wire == Answered
  }

  /** The ledger is asked while the token it is asked about still verifies. */
  predicate InTime(now: nat, i: ClaimInput) {
    Verifies(i.link, now) ==> now + i.read.delay < i.link.exp * MS_PER_SECOND
  }

  /** Ids are new. */
  predicate Allowed(d: Desk, s: Step) {
    match s
    case Claiming(i) => i.newId !in d.users
    case SigningUp(u, _, _, _) => u !in d.users
    case Restating(u, status) => status != Unconfirmed
    case _ => true
  }

  /** When it is a claim with this link, the ledger answers it, and in time. */
  predicate Attended(d: Desk, s: Step, link: Link) {
    s.Claiming? && s.input.link == link ==>
      Reachable(s.input.read) && Reachable(s.input.spend) && InTime(d.db.now, s.input)
  }

  function Do(d: Desk, s: Step): Desk
    requires AddressesAreUnique(d.users)
  {
    match s
    case Claiming(i) => ClaimAlone(d, i).0
    case Waiting(ticks) => d.(db := Pass(d.db, ticks))
    case SigningUp(u, email, name, password) =>
      if AddressFree(d.users, email)
      then d.(users := d.users[u := Account(email, name, password, Unconfirmed, false, {})]) else d
    case Confirming(u) =>
      if u in d.users && !d.users[u].deleted && d.users[u].status == Unconfirmed
      then d.(users := d.users[u := d.users[u].(status := Active)]) else d
    case Restating(u, status) =>
      if u in d.users && d.users[u].status != Unconfirmed
      then d.(users := d.users[u := d.users[u].(status := status)]) else d
    case Deleting(u) =>
      if u in d.users then d.(users := d.users[u := d.users[u].(deleted := true)]) else d
    case Readdressing(u, email) =>
      if u in d.users && AddressFree(d.users, email)
      then d.(users := d.users[u := d.users[u].(email := email)]) else d
    case Rebooking(order, booking) => d.(bookings := d.bookings[order := booking])
  }

  lemma WritingKeepsAddressesUnique(
      users: map<Id, Account>, link: Link, booking: Booking, existing: Option<Id>, newId: Id, password: nat)
    requires AddressesAreUnique(users)
    ensures AddressesAreUnique(Written(users, link, booking, existing, newId, password).0)
  {
  }

  lemma StepKeepsAddressesUnique(d: Desk, s: Step)
    requires AddressesAreUnique(d.users) && Allowed(d, s)
    ensures AddressesAreUnique(Do(d, s).users)
  {
    if s.Claiming? {
      var standing := StandingOf(d, s.input.link, s.input.read).1;
      if standing.Good? {
        WritingKeepsAddressesUnique(d.users, s.input.link, d.bookings[s.input.link.orderId], standing.existing,
                                    s.input.newId, s.input.password);
      }
    }
  }

  /** A link is used up: the ledger remembers it for at least as long as its token verifies. */
  predicate UsedUp(db: Db, link: Link) {
    var k, death := ClaimSpent(link.digest), link.exp * MS_PER_SECOND;
    death <= db.now || (k in db.store && db.store[k].expiresAt.Some? && death <= db.store[k].expiresAt.value)
  }

  /** The ledger's TTL arithmetic: what `spend` records outlives the token. */
  lemma SpendingUsesUp(db: Db, link: Link, trip: Trip)
    requires Reachable(trip)
    ensures UsedUp(Send(db, SetEx(ClaimSpent(link.digest), SecondsLeft(link, db.now) * MS_PER_SECOND), trip).0, link)
  {
    var ms := link.exp * MS_PER_SECOND - db.now;
    assert ms <= CeilSeconds(ms) * MS_PER_SECOND;
  }

  lemma SpendingAnotherLeavesUsedUp(db: Db, link: Link, c: Command, trip: Trip)
    requires UsedUp(db, link)
    requires (c.SetEx? && c.key != ClaimSpent(link.digest)) || c.Exists?
    ensures UsedUp(Send(db, c, trip).0, link)
  {
  }

  /** A used link makes nothing, whatever became of the account it made. */
  lemma UsedLinkMakesNothing(d: Desk, i: ClaimInput)
    requires AddressesAreUnique(d.users) && UsedUp(d.db, i.link) && Reachable(i.read) && InTime(d.db.now, i)
    ensures !Succeeds(ClaimAlone(d, i).1)
  {
    if Verifies(i.link, d.db.now) {
      assert Holds(Pass(d.db, i.read.delay), ClaimSpent(i.link.digest));
    }
  }

  /**
   * Exactly when a claim makes or takes over an account: the token verifies, the
   * booking still names the address, no proven account has it, and the ledger -
   * asked after the token was verified - does not answer that the link was used.
   */
  lemma ClaimSucceedsExactlyWhen(d: Desk, i: ClaimInput)
    requires AddressesAreUnique(d.users)
    ensures Succeeds(ClaimAlone(d, i).1) <==>
            && Verifies(i.link, d.db.now)
            && i.link.orderId in d.bookings && d.bookings[i.link.orderId].buyerEmail == i.link.email
            && !Confirmed(d.users, FindAttendee(d.users, i.link.email))
            && !(Reachable(i.read) && Holds(Pass(d.db, i.read.delay), ClaimSpent(i.link.digest)))
  {
  }

  /**
   * So being asked in time is not for free. A used link that still verifies, for
   * a booking that still names its address, works again exactly when no proven
   * account has the address and the ledger's entry has lapsed by the time it is
   * asked - also to take over an account a stranger has yet to confirm.
   */
  lemma UsedLinkReopens(d: Desk, i: ClaimInput)
    requires AddressesAreUnique(d.users) && UsedUp(d.db, i.link) && Reachable(i.read)
    requires Verifies(i.link, d.db.now)
    requires i.link.orderId in d.bookings && d.bookings[i.link.orderId].buyerEmail == i.link.email
    ensures var k := ClaimSpent(i.link.digest);
            && k in d.db.store && d.db.store[k].expiresAt.Some?
            && (Succeeds(ClaimAlone(d, i).1) <==>
                  !Confirmed(d.users, FindAttendee(d.users, i.link.email))
                  && d.db.store[k].expiresAt.value <= d.db.now + i.read.delay)
  {
    ClaimSucceedsExactlyWhen(d, i);
  }

  /** A link used at 5 seconds that dies at 10, asked about a millisecond too late. */
  const LATE := ClaimInput(Link(1, "a", 10, "d"), 7, 0, 0, 0, Trip(1, Answered), Trip(0, Answered))

  function LateDesk(users: map<Id, Account>): Desk {
    Desk(Db(9_999, map[ClaimSpent("d") := Entry(1, 5_000, Some(10_000))]), users, map[1 := Booking("a", "A")])
  }

  /** It does happen: with the account gone one is made, and with a stranger's unconfirmed one that is taken over. */
  lemma LateAnswerReopensALink()
    ensures var stranger := map[3 := Account("a", "S", 1, Unconfirmed, false, {})];
            && UsedUp(LateDesk(map[]).db, LATE.link)
            && AddressesAreUnique(map[]) && ClaimAlone(LateDesk(map[]), LATE).1 == Made(7)
            && AddressesAreUnique(stranger) && ClaimAlone(LateDesk(stranger), LATE).1 == TookOver(3)
  {
    var stranger := map[3 := Account("a", "S", 1, Unconfirmed, false, {})];
    assert Verifies(LATE.link, 9_999);
    assert LiveOn(stranger, 3, "a");
    assert FindAttendee(stranger, "a") == Some(3);
    UsedLinkReopens(LateDesk(map[]), LATE);
    UsedLinkReopens(LateDesk(stranger), LATE);
  }

  /** Two links are told apart by their digests. */
  predicate DistinctDigests(link: Link, steps: seq<Step>) {
    forall s | s in steps :: s.Claiming? && s.input.link.digest == link.digest ==> s.input.link == link
  }

  lemma StepKeepsUsedUp(d: Desk, s: Step, link: Link)
    requires AddressesAreUnique(d.users) && Allowed(d, s) && Attended(d, s, link) && UsedUp(d.db, link)
    requires s.Claiming? && s.input.link.digest == link.digest ==> s.input.link == link
    ensures UsedUp(Do(d, s).db, link)
  {
    if s.Claiming? {
      var i := s.input;
      SpendingAnotherLeavesUsedUp(d.db, link, Exists(ClaimSpent(i.link.digest)), i.read);
      var (db, standing) := StandingOf(d, i.link, i.read);
      assert UsedUp(db, link);
      assert UsedUp(Pass(db, i.hashing), link);
      if i.link.digest == link.digest {
        UsedLinkMakesNothing(d, i);
      }
    }
  }

  ghost predicate IsRun(d: Desk, steps: seq<Step>)
    requires AddressesAreUnique(d.users)
    decreases |steps|
  {
    steps == [] ||
    (Allowed(d, steps[0]) && (StepKeepsAddressesUnique(d, steps[0]); IsRun(Do(d, steps[0]), steps[1..])))
  }

  /** Over the run, every claim with this link is answered in time; others may go any way. */
  ghost predicate AllAttended(d: Desk, steps: seq<Step>, link: Link)
    requires AddressesAreUnique(d.users) && IsRun(d, steps)
    decreases |steps|
  {
    steps == [] ||
    (StepKeepsAddressesUnique(d, steps[0]);
     Attended(d, steps[0], link) && AllAttended(Do(d, steps[0]), steps[1..], link))
  }

  /** How many claims with this link made or took over an account. */
  ghost function Successes(d: Desk, steps: seq<Step>, link: Link): nat
    requires AddressesAreUnique(d.users) && IsRun(d, steps)
    decreases |steps|
  {
    if steps == [] then 0
    else
      StepKeepsAddressesUnique(d, steps[0]);
      (if steps[0].Claiming? && steps[0].input.link == link && Succeeds(ClaimAlone(d, steps[0].input).1) then 1 else 0)
      + Successes(Do(d, steps[0]), steps[1..], link)
  }

  lemma {:induction false} UsedLinkStaysUsed(d: Desk, steps: seq<Step>, link: Link)
    requires AddressesAreUnique(d.users) && IsRun(d, steps) && AllAttended(d, steps, link)
    requires UsedUp(d.db, link) && DistinctDigests(link, steps)
    ensures Successes(d, steps, link) == 0
    decreases |steps|
  {
    if steps != [] {
      assert steps[0] in steps && forall s | s in steps[1..] :: s in steps;
      if steps[0].Claiming? && steps[0].input.link == link {
        UsedLinkMakesNothing(d, steps[0].input);
      }
      StepKeepsUsedUp(d, steps[0], link);
      StepKeepsAddressesUnique(d, steps[0]);
      UsedLinkStaysUsed(Do(d, steps[0]), steps[1..], link);
    }
  }

  /**
   * While the ledger answers claims with the link, in time, and claims run one at
   * a time, one link makes or takes over at most one account in any run - also when that account is
   * deleted, suspended or moved to another address in between.
   */
  lemma {:induction false} OneLinkOneAccount(d: Desk, steps: seq<Step>, link: Link)
    requires AddressesAreUnique(d.users) && IsRun(d, steps) && AllAttended(d, steps, link)
    requires DistinctDigests(link, steps)
    ensures Successes(d, steps, link) <= 1
    decreases |steps|
  {
    if steps != [] {
      var s := steps[0];
      assert s in steps && forall x | x in steps[1..] :: x in steps;
      StepKeepsAddressesUnique(d, s);
      if s.Claiming? && s.input.link == link && Succeeds(ClaimAlone(d, s.input).1) {
        var hashed := Pass(StandingOf(d, link, s.input.read).0, s.input.hashing);
        SpendingUsesUp(hashed, link, s.input.spend);
        assert UsedUp(Do(d, s).db, link);
        UsedLinkStaysUsed(Do(d, s), steps[1..], link);
      } else {
        OneLinkOneAccount(Do(d, s), steps[1..], link);
      }
    }
  }

  const EARLY := LATE.(newId := 3, read := Trip(0, Answered))

  /** A claim at 5 seconds with a link that dies at 10; its account is deleted; and the claim of `LATE`. */
  function LateRun(): seq<Step> {
    [Claiming(EARLY), Deleting(3), Waiting(4_999), Claiming(LATE)]
  }

  lemma LateStep(d: Desk, rest: seq<Step>, s: Step, n: nat)
    requires AddressesAreUnique(d.users) && Allowed(d, s) && AddressesAreUnique(Do(d, s).users)
    requires IsRun(Do(d, s), rest) && Successes(Do(d, s), rest, LATE.link) == n
    ensures IsRun(d, [s] + rest)
    ensures Successes(d, [s] + rest, LATE.link)
         == n + if s.Claiming? && s.input.link == LATE.link && Succeeds(ClaimAlone(d, s.input).1) then 1 else 0
  {
    assert ([s] + rest)[1..] == rest;
  }

  /** The claim on time makes account 3, and the ledger entry that lapses with the token. */
  lemma OnTimeClaim(d: Desk)
    requires d == Desk(Db(5_000, map[]), map[], map[1 := Booking("a", "A")])
    ensures AddressesAreUnique(d.users) && Succeeds(ClaimAlone(d, EARLY).1)
    ensures var after := ClaimAlone(d, EARLY).0;
            && after.users == map[3 := Account("a", "A", 0, Active, false, {0})]
            && after.db == LateDesk(map[]).db.(now := 5_000) && after.bookings == d.bookings
  {
    assert Verifies(EARLY.link, 5_000) && AddressFree(d.users, "a");
    assert StandingOf(d, EARLY.link, EARLY.read) == (d.db, Good(None));
    assert SecondsLeft(EARLY.link, 5_000) == 5;
    var spent := Send(d.db, SetEx(ClaimSpent("d"), 5_000), EARLY.spend).0;
    assert spent == LateDesk(map[]).db.(now := 5_000);
    var after := ClaimAlone(d, EARLY).0;
    assert after.users.Keys == {3} && after.users[3].sessions == {0};
  }

  lemma LateClaimMakes(gone: map<Id, Account>)
    requires gone == map[3 := Account("a", "A", 0, Active, true, {0})]
    ensures AddressesAreUnique(gone) && Succeeds(ClaimAlone(LateDesk(gone), LATE).1)
    ensures AddressesAreUnique(Do(LateDesk(gone), Claiming(LATE)).users)
  {
    assert AddressFree(gone, "a") && Verifies(LATE.link, 9_999);
    UsedLinkReopens(LateDesk(gone), LATE);
    StepKeepsAddressesUnique(LateDesk(gone), Claiming(LATE));
  }

  /** From the moment its account is gone, the wait and the late claim. */
  lemma LateHalf(d: Desk)
    requires d == LateDesk(map[3 := Account("a", "A", 0, Active, true, {0})]).(db := LateDesk(map[]).db.(now := 5_000))
    ensures AddressesAreUnique(d.users) && IsRun(d, [Waiting(4_999), Claiming(LATE)])
    ensures Successes(d, [Waiting(4_999), Claiming(LATE)], LATE.link) == 1
  {
    assert Do(d, Waiting(4_999)) == LateDesk(d.users);
    LateClaimMakes(d.users);
    LateStep(LateDesk(d.users), [], Claiming(LATE), 0);
    assert [Claiming(LATE)] + [] == [Claiming(LATE)];
    LateStep(d, [Claiming(LATE)], Waiting(4_999), 1);
    assert [Waiting(4_999)] + [Claiming(LATE)] == [Waiting(4_999), Claiming(LATE)];
  }

  /**
   * So the late answer needs no help: from an empty ledger, with every command
   * answered, one link makes two accounts when its second claim is asked about
   * too late. Being asked in time is needed for `OneLinkOneAccount`.
   */
  lemma OneLinkTwoAccounts()
    ensures var d := Desk(Db(5_000, map[]), map[], map[1 := Booking("a", "A")]);
            && AddressesAreUnique(d.users) && IsRun(d, LateRun()) && DistinctDigests(LATE.link, LateRun())
            && Successes(d, LateRun(), LATE.link) == 2
  {
    var d0 := Desk(Db(5_000, map[]), map[], map[1 := Booking("a", "A")]);
    var tail := [Waiting(4_999), Claiming(LATE)];
    OnTimeClaim(d0);
    var d1 := Do(d0, Claiming(EARLY));
    var d2 := Do(d1, Deleting(3));
    assert d2.users == map[3 := Account("a", "A", 0, Active, true, {0})];
    LateHalf(d2);
    LateStep(d1, tail, Deleting(3), 1);
    LateStep(d0, [Deleting(3)] + tail, Claiming(EARLY), 1);
    assert [Claiming(EARLY)] + ([Deleting(3)] + tail) == LateRun();
  }

  /**
   * What a success means for the claimant: the address's one account is theirs,
   * proven, and holds only their session.
   */
  lemma ClaimantOwnsTheAccount(d: Desk, i: ClaimInput)
    requires AddressesAreUnique(d.users) && i.newId !in d.users
    ensures var (after, reply) := ClaimAlone(d, i);
            Succeeds(reply) ==>
              && AddressesAreUnique(after.users)
              && FindAttendee(after.users, i.link.email) == Some(reply.user)
              && after.users[reply.user] == Account(
                   i.link.email, d.bookings[i.link.orderId].buyerName, i.password, Active, false, {i.session})
              && (forall u | u in d.users && u != reply.user :: u in after.users && after.users[u] == d.users[u])
  {
    var standing := StandingOf(d, i.link, i.read).1;
    if standing.Good? {
      WritingKeepsAddressesUnique(d.users, i.link, d.bookings[i.link.orderId], standing.existing, i.newId, i.password);
      var (after, reply) := ClaimAlone(d, i);
      if Succeeds(reply) {
        assert LiveOn(after.users, reply.user, i.link.email);
      }
    }
  }

  /** An address that already has a proven account is never touched by a claim. */
  lemma ProvenAccountsAreSafe(d: Desk, i: ClaimInput)
    requires AddressesAreUnique(d.users) && Confirmed(d.users, FindAttendee(d.users, i.link.email))
    ensures ClaimAlone(d, i).0.users == d.users && ClaimAlone(d, i).1 in {Invalid, SignInInstead}
  {
  }

  /** A live account on the address whose owner has proven it. */
  predicate ProvenOn(users: map<Id, Account>, email: string) {
    exists u | u in users :: IsLiveAccount(users, u, email) && users[u].status != Unconfirmed
  }

  predicate IsLiveAccount(users: map<Id, Account>, u: Id, email: string) {
    u in users && users[u].email == email && users[u].deleted == false
  }

  predicate BookingStands(d: Desk, link: Link) {
    link.orderId in d.bookings && d.bookings[link.orderId].buyerEmail == link.email
  }

  /** The ledger was asked, and remembered the link when it was asked. */
  predicate FoundUsed(d: Desk, link: Link, trip: Trip) {
    Reachable(trip) && Holds(Pass(d.db, trip.delay), ClaimSpent(link.digest))
  }

  /** No use to anybody: died, for a booking that no longer stands, or used up for an address nobody has proven. */
  predicate IsDead(d: Desk, link: Link, trip: Trip) {
    || d.db.now >= link.exp * 1000
    || !BookingStands(d, link)
    || (FoundUsed(d, link, trip) && !ProvenOn(d.users, link.email))
  }

  lemma ConfirmedIsProven(users: map<Id, Account>, email: string)
    requires AddressesAreUnique(users)
    ensures Confirmed(users, FindAttendee(users, email)) <==> ProvenOn(users, email)
  {
    if u :| u in users && IsLiveAccount(users, u, email) && users[u].status != Unconfirmed {
      assert FindAttendee(users, email) == Some(u);
    }
  }

  /** Asking whether a link stands changes no key; a dead one is told so, any other with the account on its address. */
  lemma StandingTells(d: Desk, link: Link, trip: Trip)
    requires AddressesAreUnique(d.users)
    ensures var (db, standing) := StandingOf(d, link, trip);
            && db.store == d.db.store && db.now >= d.db.now
            && (standing == Dead <==> IsDead(d, link, trip))
            && (standing != Dead ==> standing == Good(FindAttendee(d.users, link.email)))
  {
    ConfirmedIsProven(d.users, link.email);
  }

  /**
   * A claim that makes nothing changes nothing, and is told why: a link dead in
   * one of those ways is invalid, and a good one for an address somebody has
   * proven says to sign in. A claim that makes an account makes it on an address
   * nobody had, and one that takes over takes the unconfirmed account it found.
   */
  lemma ClaimIsTold(d: Desk, i: ClaimInput)
    requires AddressesAreUnique(d.users)
    ensures var (after, reply) := ClaimAlone(d, i);
            && (reply == Invalid <==> IsDead(d, i.link, i.read))
            && (reply == SignInInstead <==> !IsDead(d, i.link, i.read) && ProvenOn(d.users, i.link.email))
            && (reply.Made? ==>
                  reply.user == i.newId && forall u | u in d.users :: !IsLiveAccount(d.users, u, i.link.email))
            && (reply.TookOver? ==>
                  IsLiveAccount(d.users, reply.user, i.link.email) && d.users[reply.user].status == Unconfirmed)
            && after.bookings == d.bookings
            && (!Succeeds(reply) ==>
                  && after.users == d.users && after.db.store == d.db.store
                  && d.db.now <= after.db.now <= d.db.now + i.read.delay) // no password was hashed
  {
    StandingTells(d, i.link, i.read);
    ConfirmedIsProven(d.users, i.link.email);
    forall u | u in d.users ensures LiveOn(d.users, u, i.link.email) <==> IsLiveAccount(d.users, u, i.link.email) {
    }
  }

  /** The ledger's entry is set for the token's time left, rounded up to seconds, and for a second once it is past. */
  lemma LedgerKeepsTheTimeLeft(link: Link, now: nat)
    ensures var left := link.exp * 1000 - now;
            && (left > 0 ==> left <= SecondsLeft(link, now) * 1000 < left + 1000)
            && (left <= 0 ==> SecondsLeft(link, now) == 1)
  {
  }

  // ---- Claims side by side ----

  /** A claim between its steps; what it read may be out of date when it writes. */
  datatype Phase = Opened | Stood(existing: Option<Id>) | Wrote(reply: Reply) | Ended(reply: Reply)

  datatype Racer = Racer(input: ClaimInput, phase: Phase)

  datatype World = World(desk: Desk, racers: map<nat, Racer>)

  datatype Move =
    | Open(c: nat, input: ClaimInput)
    | Stand(c: nat)
    | Write(c: nat)
    | Record(c: nat)
    | Beside(step: Step)

  ghost predicate Enabled(w: World, m: Move) {
    match m
    case Open(c, _) => c !in w.racers
    case Stand(c) => c in w.racers && w.racers[c].phase.Opened? && AddressesAreUnique(w.desk.users)
    case Write(c) => c in w.racers && w.racers[c].phase.Stood? && w.racers[c].input.newId !in w.desk.users
    case Record(c) => c in w.racers && w.racers[c].phase.Wrote?
    case Beside(s) => !s.Claiming? && Allowed(w.desk, s) && AddressesAreUnique(w.desk.users)
  }

  /** The booking a claim found when it stood; should it be gone by now, only its name is lost. */
  function BookingOf(w: World, link: Link): Booking {
    if link.orderId in w.desk.bookings then w.desk.bookings[link.orderId] else Booking(link.email, "")
  }

  ghost function Next(w: World, m: Move): World
    requires Enabled(w, m)
  {
    match m
    case Open(c, input) => w.(racers := w.racers[c := Racer(input, Opened)])
    case Stand(c) =>
      var r := w.racers[c];
      var (db, standing) := StandingOf(w.desk, r.input.link, r.input.read);
      var phase := if standing.Dead? then Ended(Invalid)
                   else if Confirmed(w.desk.users, standing.existing) then Ended(SignInInstead)
                   else Stood(standing.existing);
      World(w.desk.(db := db), w.racers[c := r.(phase := phase)])
    case Write(c) =>
      var r := w.racers[c];
      var i := r.input;
      var (users, reply) := Written(w.desk.users, i.link, BookingOf(w, i.link), r.phase.existing, i.newId, i.password);
      World(w.desk.(users := users), w.racers[c := r.(phase := if Succeeds(reply) then Wrote(reply) else Ended(reply))])
    case Record(c) =>
      var r := w.racers[c];
      var ttl := SecondsLeft(r.input.link, w.desk.db.now) * MS_PER_SECOND;
      World(w.desk.(db := Send(w.desk.db, SetEx(ClaimSpent(r.input.link.digest), ttl), r.input.spend).0),
            w.racers[c := r.(phase := Ended(r.phase.reply))])
    case Beside(s) => w.(desk := Do(w.desk, s))
  }

  ghost predicate IsRace(w: World, moves: seq<Move>)
    decreases |moves|
  {
    moves == [] || (Enabled(w, moves[0]) && IsRace(Next(w, moves[0]), moves[1..]))
  }

  ghost function Finish(w: World, moves: seq<Move>): World
    requires IsRace(w, moves)
    decreases |moves|
  {
    if moves == [] then w else Finish(Next(w, moves[0]), moves[1..])
  }

  /** However claims race, with the ledger answering or not, no state holds two live accounts on one address. */
  lemma {:induction false} RacesKeepAddressesUnique(w: World, moves: seq<Move>)
    requires AddressesAreUnique(w.desk.users) && IsRace(w, moves)
    ensures AddressesAreUnique(Finish(w, moves).desk.users)
    decreases |moves|
  {
    if moves != [] {
      var m := moves[0];
      match m {
        case Write(c) =>
          var r := w.racers[c];
          var i := r.input;
          WritingKeepsAddressesUnique(
            w.desk.users, i.link, BookingOf(w, i.link), r.phase.existing, i.newId, i.password);
        case Beside(s) => StepKeepsAddressesUnique(w.desk, s);
        case _ =>
      }
      RacesKeepAddressesUnique(Next(w, m), moves[1..]);
    }
  }

  /** A racer that asks is told it is dead, or to sign in, or goes on with the account it found. */
  lemma RacerStands(w: World, c: nat)
    requires Enabled(w, Stand(c))
    ensures var r, after := w.racers[c], Next(w, Stand(c));
            var link, trip := r.input.link, r.input.read;
            var phase := after.racers[c].phase;
            && after.racers == w.racers[c := r.(phase := phase)]
            && after.desk.users == w.desk.users && after.desk.bookings == w.desk.bookings
            && after.desk.db.store == w.desk.db.store
            && (phase == Ended(Invalid) <==> IsDead(w.desk, link, trip))
            && (phase == Ended(SignInInstead) <==> !IsDead(w.desk, link, trip) && ProvenOn(w.desk.users, link.email))
            && (phase == Stood(FindAttendee(w.desk.users, link.email)) <==>
                  !IsDead(w.desk, link, trip) && !ProvenOn(w.desk.users, link.email))
  {
    StandingTells(w.desk, w.racers[c].input.link, w.racers[c].input.read);
    ConfirmedIsProven(w.desk.users, w.racers[c].input.link.email);
  }

  /** A racer whose write went through uses its link up when the ledger answers it, and keeps its answer. */
  lemma RacerUsesUp(w: World, c: nat)
    requires Enabled(w, Record(c))
    ensures var r, after := w.racers[c], Next(w, Record(c));
            && after.racers == w.racers[c := r.(phase := Ended(r.phase.reply))]
            && after.desk.users == w.desk.users && after.desk.bookings == w.desk.bookings
            && (Reachable(r.input.spend) ==> UsedUp(after.desk.db, r.input.link))
  {
    if Reachable(w.racers[c].input.spend) {
      SpendingUsesUp(w.desk.db, w.racers[c].input.link, w.racers[c].input.spend);
    }
  }

  /**
   * Whatever happened since a claim stood, its write goes through exactly when
   * the address it found free still is, or the account it found unconfirmed
   * still is; otherwise it is told to sign in, and nothing changes.
   */
  lemma WriteSucceedsExactlyWhen(w: World, c: nat)
    requires Enabled(w, Write(c))
    ensures var r, after := w.racers[c], Next(w, Write(c));
            var users := w.desk.users;
            && (after.racers[c].phase.Wrote? <==>
                  match r.phase.existing
                  case None => AddressFree(users, r.input.link.email)
                  case Some(u) => u in users && users[u].status == Unconfirmed && !users[u].deleted)
            && (!after.racers[c].phase.Wrote? ==>
                  after == w.(racers := w.racers[c := r.(phase := Ended(SignInInstead))]))
  {
  }

  /**
   * Of two claims that found the same - no account, or the same unconfirmed one -
   * the second to write is told to sign in and changes nothing, whatever happened
   * in between, while the account the first one made or took over stands proven.
   */
  lemma LoserIsToldToSignIn(w: World, c: nat, d: nat, between: seq<Move>)
    requires c != d && Enabled(w, Write(c)) && Enabled(w, Write(d))
    requires w.racers[c].phase == w.racers[d].phase && w.racers[c].input.link.email == w.racers[d].input.link.email
    requires Next(w, Write(c)).racers[c].phase.Wrote? && IsRace(Next(w, Write(c)), between)
    requires var mid, u := Finish(Next(w, Write(c)), between), Next(w, Write(c)).racers[c].phase.reply.user;
             && Enabled(mid, Write(d)) && mid.racers[d] == w.racers[d]
             && LiveOn(mid.desk.users, u, w.racers[c].input.link.email) && mid.desk.users[u].status != Unconfirmed
    ensures var mid := Finish(Next(w, Write(c)), between);
            Next(mid, Write(d)) == mid.(racers := mid.racers[d := w.racers[d].(phase := Ended(SignInInstead))])
  {
    WriteSucceedsExactlyWhen(w, c);
    WriteSucceedsExactlyWhen(Finish(Next(w, Write(c)), between), d);
  }
}

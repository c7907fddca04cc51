/**
 * What the door tells and writes, one scan at a time and while scans
 * interleave: who is admitted and who is turned away, and what each answer,
 * admission and undo leaves in the tables.
 */
module DoorRules {
  import opened Prelude
  import opened CheckIn
  import opened DoorRuns

  // ---- When the door is open, and what a pass is looked up by ----

  /**
   * An event admits while it is planned, upcoming or live, from two hours
   * before its start to an hour after its end - after its start, when it has no
   * end - and neither moment is shut out.
   */
  lemma DoorHours(status: EventStatus, startAt: int, endAt: Option<int>, now: int)
    ensures IsOpen(EventWindow(status, startAt, endAt), now) <==>
            && status in {Planned, Upcoming, Live}
            && now >= startAt - 7_200_000
            && (endAt.Some? ==> now <= endAt.value + 3_600_000)
            && (endAt.None? ==> now <= startAt + 3_600_000)
  {
  }

  /** Only a known event's open door answers a scan at all. */
  lemma GateTells(d: Door, e: Id, now: int)
    ensures Gate(d, e, now) == Some(NoSuchEvent) <==> e !in d.events
    ensures Gate(d, e, now) == Some(DoorShut) <==> e in d.events && !IsOpen(d.events[e], now)
    ensures Gate(d, e, now) == None <==> e in d.events && IsOpen(d.events[e], now)
  {
  }

  /** A code is the ticket's own, a hand-picked pass is the ticket's id, and what is read is what stands there. */
  lemma WhatIsRead(d: Door, pass: Pass, s: Seen)
    requires Reads(d, pass, Some(s))
    ensures s.id in d.tickets
    ensures pass.ByToken? ==> d.tickets[s.id].qrToken == pass.qrToken
    ensures pass.ByHand? ==> s.id == pass.ticketId
    ensures d.tickets[s.id].eventId == s.eventId && d.tickets[s.id].attendeeId == s.attendeeId
    ensures d.tickets[s.id].status == s.status
  {
  }

  /** Nothing is read exactly when no ticket carries that code, or has that id. */
  lemma NothingIsRead(d: Door, pass: Pass)
    ensures Reads(d, pass, None) <==>
            && (pass.ByToken? ==> forall t | t in d.tickets :: d.tickets[t].qrToken != pass.qrToken)
            && (pass.ByHand? ==> pass.ticketId !in d.tickets)
  {
    if Reads(d, pass, None) {
      forall t | t in d.tickets ensures !Shows(d, pass, t) {
      }
    }
  }

  // ---- Who is admitted and who is turned away ----

  predicate Lets(outcome: Outcome) {
    outcome in {Admitted, AlreadyCheckedIn}
  }

  /**
   * A ticket that was read is let in exactly when it is this event's and issued
   * or checked in already; told cancelled exactly when it is this event's and
   * void, refunded or transferred; and told the wrong event exactly when it is
   * another's. Being let in is news exactly when no row stood.
   */
  lemma TicketIsToldItsOutcome(d: Door, e: Id, s: Seen, context: Context, staff: Id, now: int)
    requires s.id in d.tickets
    ensures var reply := Decide(d, e, Some(s), context, staff, now).1;
            && reply.Scanned? && reply.ticketId == Some(s.id)
            && (Lets(reply.outcome) <==> s.eventId == e && s.status in {Issued, CheckedIn})
            && (reply.outcome == Cancelled <==> s.eventId == e && s.status in {Void, Refunded, Transferred})
            && (reply.outcome == WrongEvent <==> s.eventId != e)
            && (reply.outcome == Admitted <==> Lets(reply.outcome) && s.id !in d.rows)
            && (reply.checkedInAt.Some? <==> Lets(reply.outcome))
  {
    assert s.status.Issued? || s.status.CheckedIn? || s.status in {Void, Refunded, Transferred};
  }

  /** A pass no ticket answers to is invalid. */
  lemma StrangersAreInvalid(d: Door, e: Id, context: Context, staff: Id, now: int)
    ensures Decide(d, e, None, context, staff, now).1 == Scanned(Invalid, None, None)
  {
  }

  /**
   * Whoever is turned away changes nothing but the ledger, which gains one row:
   * the event, the outcome and ticket told, who scanned, how and when, and the
   * event a pass was for exactly when that is another one.
   */
  lemma RefusalsOnlyAddARecord(d: Door, e: Id, seen: Option<Seen>, context: Context, staff: Id, now: int)
    requires seen.Some? ==> seen.value.id in d.tickets
    requires !Lets(Decide(d, e, seen, context, staff, now).1.outcome)
    ensures var (after, reply) := Decide(d, e, seen, context, staff, now);
            && after.events == d.events && after.tickets == d.tickets
            && after.rows == d.rows && after.undos == d.undos
            && |after.scans| == |d.scans| + 1 && after.scans[..|d.scans|] == d.scans
            && var record := after.scans[|d.scans|];
               && record.eventId == e && record.outcome == reply.outcome && record.ticketId == reply.ticketId
               && record.context == context && record.scannedBy == staff && record.scannedAt == now
               && (reply.outcome == WrongEvent ==> record.ticketEventId == Some(seen.value.eventId))
               && (reply.outcome != WrongEvent ==> record.ticketEventId == None)
  {
  }

  // ---- What an admission and an undo write ----

  /**
   * Whoever is let in has a row from then on, with the earlier of the time it
   * had and now. Who let them in, where, how and to what event is written by
   * the first to do so and stays. The ticket is checked in at that time and is
   * otherwise as it was, and no other row or ticket changes.
   */
  lemma AdmissionsWriteTheRow(d: Door, e: Id, s: Seen, context: Context, staff: Id, now: int)
    requires s.id in d.tickets && Lets(Decide(d, e, Some(s), context, staff, now).1.outcome)
    ensures var (after, reply) := Decide(d, e, Some(s), context, staff, now);
            && after.events == d.events && after.undos == d.undos
            && after.rows.Keys == d.rows.Keys + {s.id} && after.rows - {s.id} == d.rows - {s.id}
            && after.tickets.Keys == d.tickets.Keys && after.tickets - {s.id} == d.tickets - {s.id}
            && var row, ticket := after.rows[s.id], after.tickets[s.id];
               && reply.checkedInAt == Some(row.checkedInAt)
               && row.checkedInAt <= now
               && (s.id in d.rows ==> row.checkedInAt <= d.rows[s.id].checkedInAt && row.stamp == d.rows[s.id].stamp)
               && (row.checkedInAt == now || (s.id in d.rows && row.checkedInAt == d.rows[s.id].checkedInAt))
               && (s.id !in d.rows ==>
                     && row.stamp.eventId == e && row.stamp.attendeeId == s.attendeeId
                     && row.stamp.via == context.via && row.stamp.stationId == context.stationId
                     && row.stamp.checkedInBy == staff)
               && ticket.status == CheckedIn && ticket.checkedInAt == Some(row.checkedInAt)
               && ticket.eventId == d.tickets[s.id].eventId && ticket.attendeeId == d.tickets[s.id].attendeeId
               && ticket.qrToken == d.tickets[s.id].qrToken
  {
  }

  /** The ledger gains one row for it: what was told, of which ticket, who scanned, how and when. */
  lemma AdmissionsAreRecorded(d: Door, e: Id, s: Seen, context: Context, staff: Id, now: int)
    requires s.id in d.tickets && Lets(Decide(d, e, Some(s), context, staff, now).1.outcome)
    ensures var (after, reply) := Decide(d, e, Some(s), context, staff, now);
            && |after.scans| == |d.scans| + 1 && after.scans[..|d.scans|] == d.scans
            && var record := after.scans[|d.scans|];
               && record.eventId == e && record.outcome == reply.outcome && record.ticketId == Some(s.id)
               && record.ticketEventId == None && record.context == context
               && record.scannedBy == staff && record.scannedAt == now
  {
  }

  /**
   * An undo of a ticket inside at that event takes its row away and lets the
   * ticket be scanned again, on the record; any other undo changes nothing.
   */
  lemma UndoLetsOutAgain(d: Door, e: Id, t: Id, staff: Id)
    ensures var after := Undo(d, e, t, staff);
            && after.events == d.events && after.scans == d.scans
            && after.tickets.Keys == d.tickets.Keys && after.tickets - {t} == d.tickets - {t}
            && after.rows - {t} == d.rows - {t}
            && if t in d.rows && d.rows[t].stamp.eventId == e then
                 && t !in after.rows
                 && after.undos == d.undos + [UndoRecord(t, staff)]
                 && (t in d.tickets ==>
                       && after.tickets[t].status == Issued && after.tickets[t].checkedInAt == None
                       && after.tickets[t].eventId == d.tickets[t].eventId
                       && after.tickets[t].attendeeId == d.tickets[t].attendeeId
                       && after.tickets[t].qrToken == d.tickets[t].qrToken)
               else after == d
  {
  }

  /**
   * Undoing a first admission of an issued ticket puts rows and tickets back as
   * they were, and only the two ledgers tell that it happened.
   */
  lemma UndoUndoesAdmission(d: Door, e: Id, s: Seen, context: Context, staff: Id, now: int, undoneBy: Id)
    requires s.id in d.tickets && s.id !in d.rows && s.eventId == e && s.status in {Issued, CheckedIn}
    requires d.tickets[s.id].status == Issued && d.tickets[s.id].checkedInAt == None
    ensures var after := Undo(Decide(d, e, Some(s), context, staff, now).0, e, s.id, undoneBy);
            && after.rows == d.rows && after.tickets == d.tickets
            && |after.scans| == |d.scans| + 1 && |after.undos| == |d.undos| + 1
  {
    AdmissionsWriteTheRow(d, e, s, context, staff, now);
    var inside := Decide(d, e, Some(s), context, staff, now).0;
    UndoLetsOutAgain(inside, e, s.id, undoneBy);
    var after := Undo(inside, e, s.id, undoneBy);
    assert after.tickets - {s.id} == d.tickets - {s.id} && after.tickets[s.id] == d.tickets[s.id];
    assert after.tickets == (after.tickets - {s.id})[s.id := after.tickets[s.id]];
    assert d.tickets == (d.tickets - {s.id})[s.id := d.tickets[s.id]];
    assert d.rows == d.rows - {s.id};
    assert after.rows == after.rows - {s.id};
  }

  // ---- While scans interleave ----

  /** A visit that read a ticket of this event which lets nobody in, or a ticket of another event, or none. */
  predicate TurnedAway(visit: Visit) {
    visit.Waiting? &&
    (visit.seen.None? || visit.seen.value.eventId != visit.eventId ||
     visit.seen.value.status in {Void, Refunded, Transferred})
  }

  /** What such a visit will be told, if anything. */
  function Verdict(visit: Visit): Outcome
    requires TurnedAway(visit)
  {
    if visit.seen.None? then Invalid else if visit.seen.value.eventId != visit.eventId then WrongEvent else Cancelled
  }

  ghost predicate WaitsOrIsTold(visits: map<nat, Visit>, v: nat, visit: Visit, outcome: Outcome) {
    v in visits && (visits[v] == visit || (visits[v].Told? && visits[v].reply.Scanned?
                                           && visits[v].reply.outcome == outcome))
  }

  lemma ToldStaysTold(w: World, s: Step, v: nat)
    requires Enabled(w, s) && v in w.visits && w.visits[v].Told?
    ensures v in Next(w, s).visits && Next(w, s).visits[v] == w.visits[v]
  {
  }

  lemma TurnedAwayWaitsOrIsTold(w: World, s: Step, v: nat)
    requires Enabled(w, s) && v in w.visits && TurnedAway(w.visits[v])
    ensures WaitsOrIsTold(Next(w, s).visits, v, w.visits[v], Verdict(w.visits[v]))
  {
    if s.Settle? && s.v == v {
      var p := w.visits[v];
      if p.seen.Some? && p.seen.value.id in w.door.tickets {
        TicketIsToldItsOutcome(w.door, p.eventId, p.seen.value, p.context, p.staff, s.now);
      } else if p.seen.None? {
        StrangersAreInvalid(w.door, p.eventId, p.context, p.staff, s.now);
      }
    }
  }

  /**
   * However scans, undos and changes made elsewhere interleave, a visit that
   * read a ticket which lets nobody in is never told it is let in: it waits, or
   * has been told what was wrong.
   */
  lemma {:induction false} NobodyDeniedIsLetIn(w: World, steps: seq<Step>, v: nat, visit: Visit)
    requires IsRun(w, steps) && TurnedAway(visit) && WaitsOrIsTold(w.visits, v, visit, Verdict(visit))
    ensures WaitsOrIsTold(End(w, steps).visits, v, visit, Verdict(visit))
    decreases |steps|
  {
    if steps != [] {
      if w.visits[v].Told? {
        ToldStaysTold(w, steps[0], v);
      } else {
        TurnedAwayWaitsOrIsTold(w, steps[0], v);
      }
      NobodyDeniedIsLetIn(Next(w, steps[0]), steps[1..], v, visit);
    }
  }

  /** Telling it so leaves every row and ticket as it was. */
  lemma TurningAwayWritesNoRow(w: World, v: nat, now: int)
    requires Enabled(w, Settle(v, now)) && TurnedAway(w.visits[v])
    ensures var after := Next(w, Settle(v, now));
            && after.door.rows == w.door.rows && after.door.tickets == w.door.tickets
            && after.door.undos == w.door.undos
  {
  }

  /** A scan at a shut door is told so and reads nothing; at an open one it waits with what it read. */
  lemma ReadingAtTheDoor(w: World, v: nat, seen: Option<Seen>, now: int)
    requires Enabled(w, Read(v, seen, now))
    ensures var p := w.visits[v];
            var after := Next(w, Read(v, seen, now));
            && after.door == w.door && after.ops == w.ops && after.visits - {v} == w.visits - {v}
            && v in after.visits
            && (p.eventId !in w.door.events ==> after.visits[v] == Told(NoSuchEvent))
            && (p.eventId in w.door.events && !IsOpen(w.door.events[p.eventId], now) ==>
                  after.visits[v] == Told(DoorShut))
            && (p.eventId in w.door.events && IsOpen(w.door.events[p.eventId], now) ==>
                  after.visits[v] == Waiting(p.eventId, seen, p.context, p.staff))
  {
  }

  /** An undo takes effect only at an open door. */
  lemma UndoingAtTheDoor(w: World, e: Id, t: Id, staff: Id, now: int)
    ensures var after := Next(w, UndoNow(e, t, staff, now));
            && after.visits == w.visits
            && (after.door != w.door <==> e in w.door.events && IsOpen(w.door.events[e], now)
                                          && t in w.door.rows && w.door.rows[t].stamp.eventId == e)
            && (after.door != w.door ==> t !in after.door.rows)
  {
    var after := Next(w, UndoNow(e, t, staff, now));
    UndoLetsOutAgain(w.door, e, t, staff);
  }
}

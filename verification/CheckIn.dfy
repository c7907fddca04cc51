/**
 * The door: one admission per ticket however many staff scan it, a projection
 * on the ticket, an append-only ledger of scans, and undo. One workspace; each
 * function on `Door` is one database transaction.
 */
module CheckIn {
  import opened Prelude

  type Id = nat

  datatype TicketStatus = Issued | CheckedIn | Void | Refunded | Transferred
  datatype Method = Qr | Manual | Upload
  datatype Outcome = Admitted | AlreadyCheckedIn | Invalid | WrongEvent | Cancelled

  predicate Denied(s: TicketStatus) {
    s in {Void, Refunded, Transferred}
  }

  datatype Ticket = Ticket(
    eventId: Id, attendeeId: Option<Id>, status: TicketStatus, checkedInAt: Option<int>, qrToken: string)

  /** A `check_ins` row; `stamp` is everything on it but the arrival time. */
  datatype Stamp = Stamp(eventId: Id, attendeeId: Option<Id>, via: Method, checkedInBy: Id, stationId: Option<string>)
  datatype Admission = Admission(stamp: Stamp, checkedInAt: int)

  /** What a scan was made with, whatever it decides. */
  datatype Context = Context(via: Method, stationId: Option<string>, fingerprint: Option<string>)

  datatype ScanRecord = ScanRecord(
    eventId: Id, outcome: Outcome, ticketId: Option<Id>, ticketEventId: Option<Id>, context: Context,
    scannedBy: Id, scannedAt: int)

  datatype UndoRecord = UndoRecord(ticketId: Id, undoneBy: Id)

  datatype EventStatus = Planned | Upcoming | Live | Other
  datatype EventWindow = EventWindow(status: EventStatus, startAt: int, endAt: Option<int>)

  datatype Door = Door(
    events: map<Id, EventWindow>, tickets: map<Id, Ticket>, rows: map<Id, Admission>,
    scans: seq<ScanRecord>, undos: seq<UndoRecord>)

  const OPENS_BEFORE_START_MS := 2 * 60 * 60_000
  const GRACE_AFTER_END_MS := 1 * 60 * 60_000

  predicate IsOpen(e: EventWindow, now: int) {
    && e.status != Other
    && e.startAt - OPENS_BEFORE_START_MS <= now
    && now <= (if e.endAt.Some? then e.endAt.value else e.startAt) + GRACE_AFTER_END_MS
  }

  function Min(a: int, b: int): int {
    if a <= b then a else b
  }

  datatype AdmitInput = AdmitInput(
    eventId: Id, ticketId: Id, attendeeId: Option<Id>, context: Context, checkedInBy: Id, now: int)

  function StampOf(i: AdmitInput): Stamp {
    Stamp(i.eventId, i.attendeeId, i.context.via, i.checkedInBy, i.context.stationId)
  }

  function AdmissionOutcome(inserted: bool): Outcome {
    if inserted then Admitted else AlreadyCheckedIn
  }

  datatype AdmitResult = AdmitResult(checkedInAt: int, inserted: bool)

  /** One upsert, the projection and the ledger row. The ticket exists: the row refers to it. */
  function Admit(d: Door, i: AdmitInput): (Door, AdmitResult)
    requires i.ticketId in d.tickets
  {
    var inserted := i.ticketId !in d.rows;
    var row := if inserted then Admission(StampOf(i), i.now)
               else d.rows[i.ticketId].(checkedInAt := Min(d.rows[i.ticketId].checkedInAt, i.now));
    var record := ScanRecord(
      i.eventId, AdmissionOutcome(inserted), Some(i.ticketId), None, i.context, i.checkedInBy, i.now);
    var ticket := d.tickets[i.ticketId].(status := CheckedIn, checkedInAt := Some(row.checkedInAt));
    (d.(rows := d.rows[i.ticketId := row],
        tickets := d.tickets[i.ticketId := ticket],
        scans := d.scans + [record]),
     AdmitResult(row.checkedInAt, inserted))
  }

  predicate Undoable(d: Door, eventId: Id, ticketId: Id) {
    ticketId in d.rows && d.rows[ticketId].stamp.eventId == eventId
  }

  /** The row goes, the ticket is issued again, and the audit trail remembers. */
  function Undo(d: Door, eventId: Id, ticketId: Id, undoneBy: Id): Door {
    if !Undoable(d, eventId, ticketId) then d
    else d.(rows := d.rows - {ticketId},
            tickets := if ticketId in d.tickets
                       then d.tickets[ticketId := d.tickets[ticketId].(status := Issued, checkedInAt := None)]
                       else d.tickets,
            undos := d.undos + [UndoRecord(ticketId, undoneBy)])
  }

  function Refuse(d: Door, record: ScanRecord): Door {
    d.(scans := d.scans + [record])
  }

  /** A ticket as a scan read it; by the time the scan decides, it may have changed. */
  datatype Seen = Seen(id: Id, eventId: Id, attendeeId: Option<Id>, status: TicketStatus)

  /** Which event a refused pass belonged to, when it is not this one. */
  function OtherEventId(eventId: Id, seen: Option<Seen>): Option<Id> {
    if seen.Some? && seen.value.eventId != eventId then Some(seen.value.eventId) else None
  }

  function Refusal(eventId: Id, seen: Option<Seen>): Option<Outcome> {
    if seen.None? then Some(Invalid)
    else if seen.value.eventId != eventId then Some(WrongEvent)
    else if Denied(seen.value.status) then Some(Cancelled)
    else None
  }

  datatype Reply = NoSuchEvent | DoorShut | Scanned(outcome: Outcome, ticketId: Option<Id>, checkedInAt: Option<int>)

  /** The five outcomes, decided from the ticket as it was read. */
  function Decide(d: Door, eventId: Id, seen: Option<Seen>, context: Context, staff: Id, now: int): (Door, Reply)
    requires seen.Some? ==> seen.value.id in d.tickets
  {
    match Refusal(eventId, seen)
    case Some(outcome) =>
      var id := if seen.Some? then Some(seen.value.id) else None;
      (Refuse(d, ScanRecord(eventId, outcome, id, OtherEventId(eventId, seen), context, staff, now)),
       Scanned(outcome, id, None))
    case None =>
      var (after, result) := Admit(d, AdmitInput(eventId, seen.value.id, seen.value.attendeeId, context, staff, now));
      (after, Scanned(AdmissionOutcome(result.inserted), Some(seen.value.id), Some(result.checkedInAt)))
  }

  /** A pass is looked up by the code presented, or by ticket id when found by hand. */
  datatype Pass = ByToken(qrToken: string) | ByHand(ticketId: Id)

  predicate Shows(d: Door, pass: Pass, t: Id) {
    t in d.tickets && match pass case ByToken(token) => d.tickets[t].qrToken == token case ByHand(id) => t == id
  }

  predicate Reads(d: Door, pass: Pass, seen: Option<Seen>) {
    match seen
    case None => forall t | t in d.tickets :: !Shows(d, pass, t)
    case Some(s) =>
      Shows(d, pass, s.id) &&
      var t := d.tickets[s.id];
      s == Seen(s.id, t.eventId, t.attendeeId, t.status)
  }

  function Gate(d: Door, eventId: Id, now: int): Option<Reply> {
    if eventId !in d.events then Some(NoSuchEvent)
    else if !IsOpen(d.events[eventId], now) then Some(DoorShut)
    else None
  }

  /** The tables, changed in place, and the service's calls on them. */
  class Station {
    var events: map<Id, EventWindow>
    var tickets: map<Id, Ticket>
    var rows: map<Id, Admission>
    var scans: seq<ScanRecord>
    var undos: seq<UndoRecord>

    ghost function State(): Door
      reads this
    {
      Door(events, tickets, rows, scans, undos)
    }

    method AppendScanAttempt(record: ScanRecord)
      modifies this`scans
      ensures scans == old(scans) + [record]
    {
      scans := scans + [record];
    }

    method AdmitTicket(i: AdmitInput) returns (result: AdmitResult)
      requires i.ticketId in tickets
      modifies this`rows, this`tickets, this`scans
      ensures (State(), result) == Admit(old(State()), i)
    {
      var inserted := i.ticketId !in rows;
      if inserted {
        rows := rows[i.ticketId := Admission(StampOf(i), i.now)];
      } else {
        var earliest := Min(rows[i.ticketId].checkedInAt, i.now);
        rows := rows[i.ticketId := rows[i.ticketId].(checkedInAt := earliest)];
      }
      var checkedInAt := rows[i.ticketId].checkedInAt;
      tickets := tickets[i.ticketId := tickets[i.ticketId].(status := CheckedIn, checkedInAt := Some(checkedInAt))];
      AppendScanAttempt(
        ScanRecord(i.eventId, AdmissionOutcome(inserted), Some(i.ticketId), None, i.context, i.checkedInBy, i.now));
      result := AdmitResult(checkedInAt, inserted);
    }

    method UndoAdmission(eventId: Id, ticketId: Id, undoneBy: Id) returns (undone: bool)
      modifies this`rows, this`tickets, this`undos
      ensures State() == Undo(old(State()), eventId, ticketId, undoneBy)
      ensures undone == old(Undoable(State(), eventId, ticketId))
    {
      if ticketId !in rows || rows[ticketId].stamp.eventId != eventId {
        return false;
      }
      rows := rows - {ticketId};
      if ticketId in tickets {
        tickets := tickets[ticketId := tickets[ticketId].(status := Issued, checkedInAt := None)];
      }
      undos := undos + [UndoRecord(ticketId, undoneBy)];
      undone := true;
    }

    method FindTicket(pass: Pass) returns (seen: Option<Seen>)
      ensures Reads(State(), pass, seen)
    {
      var left := tickets.Keys;
      while left != {}
        invariant left <= tickets.Keys
        invariant forall t | t in tickets.Keys - left :: !Shows(State(), pass, t)
        decreases |left|
      {
        var t :| t in left;
        if (match pass case ByToken(token) => tickets[t].qrToken == token case ByHand(id) => t == id) {
          return Some(Seen(t, tickets[t].eventId, tickets[t].attendeeId, tickets[t].status));
        }
        left := left - {t};
      }
      seen := None;
    }

    /** Read a code or a name at the station, and act on it: the door, the lookup, the decision. */
    method Present(eventId: Id, pass: Pass, context: Context, staff: Id, now: int) returns (reply: Reply)
      modifies this`rows, this`tickets, this`scans
      ensures var shut := Gate(old(State()), eventId, now);
              if shut.Some? then State() == old(State()) && reply == shut.value
              else exists seen: Option<Seen> ::
                     && Reads(old(State()), pass, seen)
                     && (State(), reply) == Decide(old(State()), eventId, seen, context, staff, now)
    {
      if eventId !in events {
        return NoSuchEvent;
      }
      if !IsOpen(events[eventId], now) {
        return DoorShut;
      }
      var seen := FindTicket(pass);
      match Refusal(eventId, seen) {
        case Some(outcome) =>
          var id := if seen.Some? then Some(seen.value.id) else None;
          AppendScanAttempt(ScanRecord(eventId, outcome, id, OtherEventId(eventId, seen), context, staff, now));
          reply := Scanned(outcome, id, None);
        case None =>
          var result := AdmitTicket(AdmitInput(eventId, seen.value.id, seen.value.attendeeId, context, staff, now));
          reply := Scanned(AdmissionOutcome(result.inserted), Some(seen.value.id), Some(result.checkedInAt));
      }
    }
  }
}

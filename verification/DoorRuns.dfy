/**
 * What holds of the door over every run: scans, manual admissions and undos by
 * any number of staff at once, each reading the ticket in one step and deciding
 * in another, while other parts of the system may change a ticket's status.
 */
module DoorRuns {
  import opened Prelude
  import opened CheckIn

  /** The transactions that change the door's tables, in the order they commit. */
  datatype Op =
    | Admitting(input: AdmitInput)
    | Refusing(record: ScanRecord)
    | Undoing(eventId: Id, ticketId: Id, undoneBy: Id)
    | Restatus(ticketId: Id, status: TicketStatus) // another part of the system

  function Apply(d: Door, op: Op): Door {
    match op
    case Admitting(i) => if i.ticketId in d.tickets then Admit(d, i).0 else d
    case Refusing(record) => Refuse(d, record)
    case Undoing(eventId, t, staff) => Undo(d, eventId, t, staff)
    case Restatus(t, s) => if t in d.tickets then d.(tickets := d.tickets[t := d.tickets[t].(status := s)]) else d
  }

  function ApplyAll(d: Door, ops: seq<Op>): Door {
    if ops == [] then d else Apply(ApplyAll(d, ops[..|ops| - 1]), ops[|ops| - 1])
  }

  predicate IsRefusal(o: Outcome) {
    o in {Invalid, WrongEvent, Cancelled}
  }

  /** Only `Admit` writes an admitting outcome; a refusal is written as one. */
  predicate Honest(ops: seq<Op>) {
    forall op | op in ops :: op.Refusing? ==> IsRefusal(op.record.outcome)
  }

  function AdmittedCount(scans: seq<ScanRecord>, t: Id): nat {
    if scans == [] then 0
    else
      var last := scans[|scans| - 1];
      AdmittedCount(scans[..|scans| - 1], t) + if last.outcome == Admitted && last.ticketId == Some(t) then 1 else 0
  }

  function UndoCount(undos: seq<UndoRecord>, t: Id): nat {
    if undos == [] then 0
    else UndoCount(undos[..|undos| - 1], t) + if undos[|undos| - 1].ticketId == t then 1 else 0
  }

  function Inside(d: Door, t: Id): nat {
    if t in d.rows then 1 else 0
  }

  /** What the ledgers say of a ticket agrees with whether it is inside. */
  predicate Balanced(d: Door, t: Id) {
    AdmittedCount(d.scans, t) == UndoCount(d.undos, t) + Inside(d, t)
  }

  lemma {:induction false} ScanCounted(scans: seq<ScanRecord>, record: ScanRecord, t: Id)
    ensures AdmittedCount(scans + [record], t)
         == AdmittedCount(scans, t) + if record.outcome == Admitted && record.ticketId == Some(t) then 1 else 0
  {
    assert (scans + [record])[..|scans|] == scans;
  }

  lemma {:induction false} UndoCounted(undos: seq<UndoRecord>, record: UndoRecord, t: Id)
    ensures UndoCount(undos + [record], t) == UndoCount(undos, t) + if record.ticketId == t then 1 else 0
  {
    assert (undos + [record])[..|undos|] == undos;
  }

  lemma {:induction false} AdmitKeepsBalance(d: Door, i: AdmitInput, t: Id)
    requires Balanced(d, t) && i.ticketId in d.tickets
    ensures Balanced(Admit(d, i).0, t)
  {
    var after := Admit(d, i).0;
    var record := after.scans[|d.scans|];
    assert after.scans == d.scans + [record];
    ScanCounted(d.scans, record, t);
  }

  lemma {:induction false} UndoKeepsBalance(d: Door, eventId: Id, ticketId: Id, undoneBy: Id, t: Id)
    requires Balanced(d, t)
    ensures Balanced(Undo(d, eventId, ticketId, undoneBy), t)
  {
    if Undoable(d, eventId, ticketId) {
      var after := Undo(d, eventId, ticketId, undoneBy);
      UndoCounted(d.undos, UndoRecord(ticketId, undoneBy), t);
      assert after.scans == d.scans && after.undos == d.undos + [UndoRecord(ticketId, undoneBy)];
      assert Inside(after, t) == if t == ticketId then 0 else Inside(d, t);
    }
  }

  lemma {:induction false} ApplyKeepsBalance(d: Door, op: Op, t: Id)
    requires Balanced(d, t) && (op.Refusing? ==> IsRefusal(op.record.outcome))
    ensures Balanced(Apply(d, op), t)
  {
    match op
    case Admitting(i) =>
      if i.ticketId in d.tickets { AdmitKeepsBalance(d, i, t); }
    case Refusing(record) => ScanCounted(d.scans, record, t);
    case Undoing(eventId, ticketId, staff) => UndoKeepsBalance(d, eventId, ticketId, staff, t);
    case Restatus(_, _) =>
  }

  /**
   * Conservation. After any run, whatever else happened to the tickets, a
   * ticket's `admitted` ledger rows less its undo records are one when it is
   * inside and none when it is not.
   */
  lemma {:induction false} LedgersBalance(d: Door, ops: seq<Op>, t: Id)
    requires Balanced(d, t) && Honest(ops)
    ensures Balanced(ApplyAll(d, ops), t)
  {
    if ops != [] {
      var before := ops[..|ops| - 1];
      assert forall op | op in before :: op in ops;
      LedgersBalance(d, before, t);
      assert ops[|ops| - 1] in ops;
      ApplyKeepsBalance(ApplyAll(d, before), ops[|ops| - 1], t);
    }
  }

  /** Scans and undos are only ever added to: what the ledgers once said they go on saying. */
  lemma {:induction false} LedgersOnlyGrow(d: Door, ops: seq<Op>)
    ensures d.scans <= ApplyAll(d, ops).scans && d.undos <= ApplyAll(d, ops).undos
  {
    if ops != [] {
      LedgersOnlyGrow(d, ops[..|ops| - 1]);
    }
  }

  /** The arrival times of a ticket's admissions since it was last let out again. */
  function Arrivals(d: Door, ops: seq<Op>, t: Id): seq<int> {
    if ops == [] then []
    else
      var before := ops[..|ops| - 1];
      match ops[|ops| - 1]
      case Admitting(i) =>
        if i.ticketId == t && t in d.tickets then Arrivals(d, before, t) + [i.now] else Arrivals(d, before, t)
      case Undoing(eventId, ticketId, _) =>
        if ticketId == t && Undoable(ApplyAll(d, before), eventId, t) then [] else Arrivals(d, before, t)
      case _ => Arrivals(d, before, t)
  }

  predicate IsEarliest(at: int, times: seq<int>) {
    at in times && forall x | x in times :: at <= x
  }

  lemma {:induction false} TicketsStay(d: Door, ops: seq<Op>)
    ensures ApplyAll(d, ops).tickets.Keys == d.tickets.Keys
  {
    if ops != [] {
      TicketsStay(d, ops[..|ops| - 1]);
    }
  }

  /**
   * A ticket is inside exactly when it was admitted since its last undo, and
   * the time on its row is the earliest of those admissions, in whatever order
   * they were written.
   */
  lemma {:induction false} RowKeepsEarliestArrival(d: Door, ops: seq<Op>, t: Id)
    requires t !in d.rows
    ensures var end := ApplyAll(d, ops);
            && (t in end.rows <==> Arrivals(d, ops, t) != [])
            && (t in end.rows ==> IsEarliest(end.rows[t].checkedInAt, Arrivals(d, ops, t)))
  {
    if ops != [] {
      var before := ops[..|ops| - 1];
      RowKeepsEarliestArrival(d, before, t);
      TicketsStay(d, before);
      var mid, end := ApplyAll(d, before), ApplyAll(d, ops);
      if t in end.rows && t in mid.rows {
        assert IsEarliest(mid.rows[t].checkedInAt, Arrivals(d, before, t));
      }
    }
  }

  /** Only the door's own transactions, no other writer of ticket status. */
  predicate DoorOnly(ops: seq<Op>) {
    forall op | op in ops :: !op.Restatus?
  }

  /** The projection on the ticket mirrors the row. */
  predicate Mirrors(d: Door, t: Id) {
    && (t in d.rows ==> t in d.tickets)
    && (t in d.tickets ==>
          && (t in d.rows <==> d.tickets[t].status == CheckedIn)
          && d.tickets[t].checkedInAt == (if t in d.rows then Some(d.rows[t].checkedInAt) else None))
  }

  /** In every state the door alone can reach, a row exists exactly when the ticket says so, with the same time. */
  lemma {:induction false} ProjectionAgrees(d: Door, ops: seq<Op>, t: Id)
    requires Mirrors(d, t) && DoorOnly(ops)
    ensures Mirrors(ApplyAll(d, ops), t)
  {
    if ops != [] {
      var before := ops[..|ops| - 1];
      assert forall op | op in before :: op in ops;
      ProjectionAgrees(d, before, t);
      TicketsStay(d, before);
      assert ops[|ops| - 1] in ops;
    }
  }

  function AdmitEach(d: Door, inputs: seq<AdmitInput>): Door {
    if inputs == [] then d else Apply(AdmitEach(d, inputs[..|inputs| - 1]), Admitting(inputs[|inputs| - 1]))
  }

  /** The arrival time after admissions at these times, given what stood before. */
  function EarliestOf(standing: Option<int>, inputs: seq<AdmitInput>): Option<int> {
    if inputs == [] then standing
    else
      var before := EarliestOf(standing, inputs[..|inputs| - 1]);
      Some(if before.Some? then Min(before.value, inputs[|inputs| - 1].now) else inputs[|inputs| - 1].now)
  }

  /** No later than what stood and all of these, and the time of one of them. */
  predicate IsLeast(at: int, standing: Option<int>, inputs: seq<AdmitInput>) {
    && (standing.Some? ==> at <= standing.value)
    && (forall i | i in inputs :: at <= i.now)
    && (Some(at) == standing || exists i | i in inputs :: at == i.now)
  }

  lemma LeastJoins(
      earlier: int, standing: Option<int>, before: seq<AdmitInput>, last: AdmitInput, inputs: seq<AdmitInput>)
    requires IsLeast(earlier, standing, before) && inputs == before + [last]
    ensures IsLeast(Min(earlier, last.now), standing, inputs)
  {
    assert forall i :: i in inputs <==> i in before || i == last;
  }

  lemma LeastOfOne(only: AdmitInput, inputs: seq<AdmitInput>)
    requires inputs == [only]
    ensures IsLeast(only.now, None, inputs)
  {
    assert only in inputs;
  }

  lemma {:induction false} EarliestIsLeast(standing: Option<int>, inputs: seq<AdmitInput>)
    requires inputs != []
    ensures EarliestOf(standing, inputs).Some? && IsLeast(EarliestOf(standing, inputs).value, standing, inputs)
  {
    var last := inputs[|inputs| - 1];
    var before := inputs[..|inputs| - 1];
    assert inputs == before + [last];
    if before != [] {
      EarliestIsLeast(standing, before);
      LeastJoins(EarliestOf(standing, before).value, standing, before, last, inputs);
    } else if standing.Some? {
      LeastJoins(standing.value, standing, before, last, inputs);
    } else {
      LeastOfOne(last, inputs);
    }
  }

  lemma {:induction false} AdmitEachEffect(d: Door, t: Id, inputs: seq<AdmitInput>)
    requires t in d.tickets && inputs != [] && forall i | i in inputs :: i.ticketId == t
    ensures var end := AdmitEach(d, inputs);
            var at := EarliestOf(if t in d.rows then Some(d.rows[t].checkedInAt) else None, inputs);
            && at.Some?
            && end.rows == d.rows[t := Admission(if t in d.rows then d.rows[t].stamp else StampOf(inputs[0]), at.value)]
            && end.tickets == d.tickets[t := d.tickets[t].(status := CheckedIn, checkedInAt := at)]
  {
    var before := inputs[..|inputs| - 1];
    assert inputs[|inputs| - 1] in inputs;
    if before != [] {
      assert forall i | i in before :: i in inputs;
      AdmitEachEffect(d, t, before);
      assert before[0] == inputs[0];
    }
  }

  lemma SameTimesSameEarliest(standing: Option<int>, xs: seq<AdmitInput>, ys: seq<AdmitInput>)
    requires xs != [] && multiset(xs) == multiset(ys)
    ensures ys != [] && EarliestOf(standing, xs) == EarliestOf(standing, ys)
  {
    assert xs[0] in multiset(xs) && multiset(xs)[xs[0]] > 0;
    assert forall i :: i in xs <==> i in multiset(xs);
    assert forall i :: i in ys <==> i in multiset(ys);
    EarliestIsLeast(standing, xs);
    EarliestIsLeast(standing, ys);
  }

  lemma SameTickets(t: Id, xs: seq<AdmitInput>, ys: seq<AdmitInput>)
    requires (forall i | i in xs :: i.ticketId == t) && multiset(xs) == multiset(ys)
    ensures forall i | i in ys :: i.ticketId == t
  {
    forall i | i in ys ensures i.ticketId == t {
      assert i in multiset(ys) && i in multiset(xs);
    }
  }

  lemma RowsWithOneReplaced(rows: map<Id, Admission>, t: Id, x: Admission, y: Admission)
    ensures rows[t := x] == rows[t := y] <==> x == y
    ensures rows[t := x] - {t} == rows[t := y] - {t} == rows - {t}
  {
    assert rows[t := x][t] == x && rows[t := y][t] == y;
  }

  /**
   * Admissions of one ticket may be written in any order: the arrival time, the
   * ticket and every other row come out the same. The rest of the row - who
   * admitted them, how and where - is the first writer's, so the whole row
   * comes out the same exactly when there was a row already or the two orders
   * start with the same stamp.
   */
  lemma OrderOfAdmissions(d: Door, t: Id, xs: seq<AdmitInput>, ys: seq<AdmitInput>)
    requires t in d.tickets && xs != [] && forall i | i in xs :: i.ticketId == t
    requires multiset(xs) == multiset(ys)
    ensures var a, b := AdmitEach(d, xs), AdmitEach(d, ys);
            && ys != [] && t in a.rows && t in b.rows
            && a.rows[t].checkedInAt == b.rows[t].checkedInAt
            && a.tickets == b.tickets
            && a.rows - {t} == b.rows - {t} == d.rows - {t}
            && (a.rows == b.rows <==> t in d.rows || StampOf(xs[0]) == StampOf(ys[0]))
  {
    var standing := if t in d.rows then Some(d.rows[t].checkedInAt) else None;
    SameTimesSameEarliest(standing, xs, ys);
    SameTickets(t, xs, ys);
    AdmitEachEffect(d, t, xs);
    AdmitEachEffect(d, t, ys);
    var at := EarliestOf(standing, xs).value;
    RowsWithOneReplaced(d.rows, t, Admission(if t in d.rows then d.rows[t].stamp else StampOf(xs[0]), at),
                        Admission(if t in d.rows then d.rows[t].stamp else StampOf(ys[0]), at));
  }

  /** Two orders of the same two admissions that leave different rows behind. */
  lemma FirstWriterSignsTheRow()
    ensures var d := Door(map[], map[7 := Ticket(1, None, Issued, None, "q")], map[], [], []);
            var x := AdmitInput(1, 7, None, Context(Qr, None, Some("f")), 100, 5);
            var y := AdmitInput(1, 7, None, Context(Manual, None, None), 200, 3);
            && multiset([x, y]) == multiset([y, x])
            && AdmitEach(d, [x, y]).rows != AdmitEach(d, [y, x]).rows
  {
    var d := Door(map[], map[7 := Ticket(1, None, Issued, None, "q")], map[], [], []);
    var x := AdmitInput(1, 7, None, Context(Qr, None, Some("f")), 100, 5);
    var y := AdmitInput(1, 7, None, Context(Manual, None, None), 200, 3);
    OrderOfAdmissions(d, 7, [x, y], [y, x]);
  }

  /** One visit to a station, between being presented and being told. */
  datatype Visit =
    | Presented(eventId: Id, pass: Pass, context: Context, staff: Id)
    | Waiting(eventId: Id, seen: Option<Seen>, context: Context, staff: Id)
    | Told(reply: Reply)

  /** `ops` is history: the transactions committed so far. */
  datatype World = World(door: Door, visits: map<nat, Visit>, ops: seq<Op>)

  datatype Step =
    | Present(v: nat, visit: Visit)
    | Read(v: nat, seen: Option<Seen>, now: int)
    | Settle(v: nat, now: int)
    | UndoNow(eventId: Id, ticketId: Id, undoneBy: Id, now: int)
    | Elsewhere(ticketId: Id, status: TicketStatus)

  ghost predicate Enabled(w: World, s: Step) {
    match s
    case Present(v, visit) => v !in w.visits && visit.Presented?
    case Read(v, seen, _) => v in w.visits && w.visits[v].Presented? && Reads(w.door, w.visits[v].pass, seen)
    case Settle(v, _) => v in w.visits && w.visits[v].Waiting?
    case UndoNow(_, _, _, _) => true
    case Elsewhere(_, _) => true
  }

  function Commit(w: World, op: Op): World {
    w.(door := Apply(w.door, op), ops := w.ops + [op])
  }

  /** The transaction a decision comes down to. */
  function Decision(visit: Visit, now: int): Op
    requires visit.Waiting?
  {
    match Refusal(visit.eventId, visit.seen)
    case Some(outcome) =>
      Refusing(ScanRecord(visit.eventId, outcome, if visit.seen.Some? then Some(visit.seen.value.id) else None,
                          OtherEventId(visit.eventId, visit.seen), visit.context, visit.staff, now))
    case None => 
      Admitting(AdmitInput(
        visit.eventId, visit.seen.value.id, visit.seen.value.attendeeId, visit.context, visit.staff, now))
  }

  ghost function Next(w: World, s: Step): World
    requires Enabled(w, s)
  {
    match s
    case Present(v, visit) => w.(visits := w.visits[v := visit])
    case Read(v, seen, now) =>
      var p := w.visits[v];
      var gate := Gate(w.door, p.eventId, now);
      w.(visits := w.visits[v := if gate.Some? then Told(gate.value) else Waiting(p.eventId, seen, p.context, p.staff)])
    case Settle(v, now) =>
      var p := w.visits[v];
      if p.seen.Some? && p.seen.value.id !in w.door.tickets then w
      else
        var reply := Decide(w.door, p.eventId, p.seen, p.context, p.staff, now).1;
        Commit(w, Decision(p, now)).(visits := w.visits[v := Told(reply)])
    case UndoNow(eventId, t, staff, now) =>
      if Gate(w.door, eventId, now).Some? then w else Commit(w, Undoing(eventId, t, staff))
    case Elsewhere(t, status) => Commit(w, Restatus(t, status))
  }

  ghost predicate IsRun(w: World, steps: seq<Step>)
    decreases |steps|
  {
    steps == [] || (Enabled(w, steps[0]) && IsRun(Next(w, steps[0]), steps[1..]))
  }

  ghost function End(w: World, steps: seq<Step>): World
    requires IsRun(w, steps)
    decreases |steps|
  {
    if steps == [] then w else End(Next(w, steps[0]), steps[1..])
  }

  ghost function ToldAdmitted(w: World, t: Id): set<nat> {
    set v | v in w.visits && w.visits[v].Told? && w.visits[v].reply.Scanned?
            && w.visits[v].reply.outcome == Admitted && w.visits[v].reply.ticketId == Some(t)
  }

  /** What has been committed is a serial run, and who was told `admitted` is who the ledger says. */
  ghost predicate Faithful(start: Door, w: World, t: Id) {
    && w.door == ApplyAll(start, w.ops)
    && Honest(w.ops)
    && Balanced(w.door, t)
    && |ToldAdmitted(w, t)| == AdmittedCount(w.door.scans, t)
  }

  /** What a visit settles on is the service's own decision, committed as one transaction. */
  lemma SettlingIsTheDecision(w: World, v: nat, now: int)
    requires Enabled(w, Settle(v, now))
    requires var p := w.visits[v]; p.seen.Some? ==> p.seen.value.id in w.door.tickets
    ensures var p := w.visits[v];
            var (door, reply) := Decide(w.door, p.eventId, p.seen, p.context, p.staff, now);
            var after := Next(w, Settle(v, now));
            && after.door == door && after.visits == w.visits[v := Told(reply)]
            && (reply.outcome in {Admitted, AlreadyCheckedIn} <==> Refusal(p.eventId, p.seen) == None)
            && (reply.outcome == Admitted <==> Refusal(p.eventId, p.seen) == None && p.seen.value.id !in w.door.rows)
  {
  }

  lemma CommitKeepsFaith(start: Door, w: World, op: Op, t: Id)
    requires w.door == ApplyAll(start, w.ops) && Honest(w.ops) && Balanced(w.door, t)
    requires op.Refusing? ==> IsRefusal(op.record.outcome)
    ensures var after := Commit(w, op);
            after.door == ApplyAll(start, after.ops) && Honest(after.ops) && Balanced(after.door, t)
  {
    var after := Commit(w, op);
    assert after.ops[..|after.ops| - 1] == w.ops;
    assert forall x | x in after.ops :: x in w.ops || x == op;
    ApplyKeepsBalance(w.door, op, t);
  }

  /** A decision writes one ledger row, and the reply says what the row says. */
  lemma DecisionIsRecorded(w: World, v: nat, now: int) returns (record: ScanRecord)
    requires Enabled(w, Settle(v, now))
    requires var p := w.visits[v]; p.seen.Some? ==> p.seen.value.id in w.door.tickets
    ensures var after := Next(w, Settle(v, now));
            && after.door.scans == w.door.scans + [record]
            && after.visits.Keys == w.visits.Keys
            && (forall x | x in w.visits && x != v :: after.visits[x] == w.visits[x])
            && after.visits[v].Told? && after.visits[v].reply.Scanned?
            && after.visits[v].reply.outcome == record.outcome && after.visits[v].reply.ticketId == record.ticketId
  {
    var after := Next(w, Settle(v, now));
    record := after.door.scans[|w.door.scans|];
  }

  /** One visit told: it joins those told `admitted` exactly when it was. */
  lemma ToldJoins(w: World, after: World, v: nat, t: Id)
    requires v in w.visits && !w.visits[v].Told? && after.visits.Keys == w.visits.Keys
    requires forall x | x in w.visits && x != v :: after.visits[x] == w.visits[x]
    ensures v !in ToldAdmitted(w, t)
    ensures ToldAdmitted(after, t) == ToldAdmitted(w, t) + if v in ToldAdmitted(after, t) then {v} else {}
  {
  }

  lemma {:induction false} SettleTellsTheLedger(w: World, v: nat, now: int, t: Id)
    requires Enabled(w, Settle(v, now))
    ensures var after := Next(w, Settle(v, now));
            |ToldAdmitted(after, t)| - |ToldAdmitted(w, t)|
            == AdmittedCount(after.door.scans, t) - AdmittedCount(w.door.scans, t)
  {
    var p := w.visits[v];
    if p.seen.None? || p.seen.value.id in w.door.tickets {
      var record := DecisionIsRecorded(w, v, now);
      ScanCounted(w.door.scans, record, t);
      ToldJoins(w, Next(w, Settle(v, now)), v, t);
    }
  }

  /** Every other step leaves the ledger of scans, and who was told what, as they were. */
  lemma OthersTellNobody(w: World, s: Step, t: Id)
    requires Enabled(w, s) && !s.Settle?
    ensures ToldAdmitted(Next(w, s), t) == ToldAdmitted(w, t)
    ensures Next(w, s).door.scans == w.door.scans
  {
  }

  lemma DecisionsAreHonest(visit: Visit, now: int)
    requires visit.Waiting?
    ensures Decision(visit, now).Refusing? ==> IsRefusal(Decision(visit, now).record.outcome)
  {
  }

  lemma StepStaysSerial(start: Door, w: World, s: Step, t: Id)
    requires w.door == ApplyAll(start, w.ops) && Honest(w.ops) && Balanced(w.door, t) && Enabled(w, s)
    ensures var after := Next(w, s);
            after.door == ApplyAll(start, after.ops) && Honest(after.ops) && Balanced(after.door, t)
  {
    match s {
      case Present(_, _) =>
      case Read(_, _, _) =>
      case Settle(v, now) =>
        DecisionsAreHonest(w.visits[v], now);
        CommitKeepsFaith(start, w, Decision(w.visits[v], now), t);
      case UndoNow(eventId, ticketId, staff, _) =>
        CommitKeepsFaith(start, w, Undoing(eventId, ticketId, staff), t);
      case Elsewhere(ticketId, status) =>
        CommitKeepsFaith(start, w, Restatus(ticketId, status), t);
    }
  }

  /** As many more visits are told `admitted` as the ledger gains admitted rows. */
  lemma StepTellsTheLedger(w: World, s: Step, t: Id)
    requires Enabled(w, s)
    ensures |ToldAdmitted(Next(w, s), t)| - |ToldAdmitted(w, t)|
         == AdmittedCount(Next(w, s).door.scans, t) - AdmittedCount(w.door.scans, t)
  {
    if s.Settle? {
      SettleTellsTheLedger(w, s.v, s.now, t);
    } else {
      OthersTellNobody(w, s, t);
    }
  }

  /**
   * Any interleaving is some serial run of its transactions, so every law above
   * holds of it; and exactly as many visits were told `admitted` as the ledger
   * records, which is one more than the undos when the ticket is inside.
   */
  lemma {:induction false} InterleavingsAreSerial(start: Door, w: World, steps: seq<Step>, t: Id)
    requires Faithful(start, w, t) && IsRun(w, steps)
    ensures Faithful(start, End(w, steps), t)
    decreases |steps|
  {
    if steps != [] {
      StepStaysSerial(start, w, steps[0], t);
      StepTellsTheLedger(w, steps[0], t);
      InterleavingsAreSerial(start, Next(w, steps[0]), steps[1..], t);
    }
  }

  /**
   * Between two undos exactly one visit is told `admitted`. From a moment when
   * the ticket is outside, run anything that undoes it no further: if it is
   * inside at the end, one visit was told so in between, and otherwise none;
   * every other visit that admits was told `already_checked_in`.
   */
  lemma OneAdmissionBetweenUndos(start: Door, w: World, steps: seq<Step>, t: Id)
    requires Faithful(start, w, t) && IsRun(w, steps) && t !in w.door.rows
    requires UndoCount(End(w, steps).door.undos, t) == UndoCount(w.door.undos, t)
    ensures |ToldAdmitted(End(w, steps), t)| == |ToldAdmitted(w, t)| + Inside(End(w, steps).door, t)
  {
    InterleavingsAreSerial(start, w, steps, t);
  }

  /** No other writer of ticket status took part. */
  predicate DoorAlone(steps: seq<Step>) {
    forall s | s in steps :: !s.Elsewhere?
  }

  lemma StepCommitsDoorOnly(w: World, s: Step)
    requires Enabled(w, s) && !s.Elsewhere? && DoorOnly(w.ops)
    ensures DoorOnly(Next(w, s).ops)
  {
  }

  lemma {:induction false} DoorAloneCommitsItsOwn(w: World, steps: seq<Step>)
    requires IsRun(w, steps) && DoorAlone(steps) && DoorOnly(w.ops)
    ensures DoorOnly(End(w, steps).ops)
    decreases |steps|
  {
    if steps != [] {
      assert steps[0] in steps && forall s | s in steps[1..] :: s in steps;
      StepCommitsDoorOnly(w, steps[0]);
      DoorAloneCommitsItsOwn(Next(w, steps[0]), steps[1..]);
    }
  }

  /**
   * Also while scans, manual admissions and undos interleave: in every state the
   * door reaches by itself, a row exists exactly when the ticket says so, with
   * the same time, and the ledgers still say all they said at the start.
   */
  lemma InterleavingsKeepTheProjection(start: Door, w: World, steps: seq<Step>, t: Id)
    requires Faithful(start, w, t) && IsRun(w, steps) && DoorAlone(steps) && DoorOnly(w.ops) && Mirrors(start, t)
    ensures Mirrors(End(w, steps).door, t)
    ensures start.scans <= End(w, steps).door.scans && start.undos <= End(w, steps).door.undos
  {
    InterleavingsAreSerial(start, w, steps, t);
    DoorAloneCommitsItsOwn(w, steps);
    ProjectionAgrees(start, End(w, steps).ops, t);
    LedgersOnlyGrow(start, End(w, steps).ops);
  }

  /** An unserved door with nobody inside is where such runs start. */
  lemma OpeningIsFaithful(d: Door, t: Id)
    requires d.rows == map[] && d.scans == [] && d.undos == []
    ensures Faithful(d, World(d, map[], []), t)
  {
    assert ToldAdmitted(World(d, map[], []), t) == {};
  }

  /** The headline figures of an event. */
  datatype Counts = Counts(total: nat, checkedIn: nat, expected: int, onSite: int, late: nat)

  function Admissible(d: Door, e: Id): set<Id> {
    set t | t in d.tickets && d.tickets[t].eventId == e && !Denied(d.tickets[t].status)
  }

  function Came(d: Door, e: Id): set<Id> {
    set t | t in Admissible(d, e) && t in d.rows
  }

  function Late(d: Door, e: Id): set<Id>
    requires e in d.events
  {
    set t | t in Came(d, e) && d.rows[t].checkedInAt > d.events[e].startAt
  }

  function CountAttendance(d: Door, e: Id): Counts
    requires e in d.events
  {
    var total, checkedIn, late := |Admissible(d, e)|, |Came(d, e)|, |Late(d, e)|;
    Counts(total, checkedIn, total - checkedIn, checkedIn - late, late)
  }

  /** The tickets of an event that read as `status` to their holders. */
  function Shown(d: Door, e: Id, status: TicketStatus): set<Id> {
    set t | t in d.tickets && d.tickets[t].eventId == e && d.tickets[t].status == status
  }

  /** Those checked in after the event's start, as their tickets show it. */
  function ShownLate(d: Door, e: Id): set<Id>
    requires e in d.events
  {
    set t | t in Shown(d, e, CheckedIn)
            && d.tickets[t].checkedInAt.Some? && d.tickets[t].checkedInAt.value > d.events[e].startAt
  }

  /**
   * While only the door writes, the figures counted from the rows are the
   * figures the tickets themselves show, and they add up.
   */
  lemma CountsMatchTickets(d: Door, ops: seq<Op>, e: Id)
    requires (forall t :: Mirrors(d, t)) && DoorOnly(ops) && e in ApplyAll(d, ops).events
    ensures var end := ApplyAll(d, ops);
            var counts := CountAttendance(end, e);
            && counts.checkedIn == |Shown(end, e, CheckedIn)| == counts.onSite + counts.late
            && counts.expected == |Shown(end, e, Issued)|
            && counts.total == counts.checkedIn + counts.expected
            && counts.late == |ShownLate(end, e)| && counts.onSite >= 0
  {
    var end := ApplyAll(d, ops);
    forall t ensures Mirrors(end, t) {
      ProjectionAgrees(d, ops, t);
    }
    CountsOfMirrored(end, e);
  }

  lemma MirroredRoll(d: Door, e: Id)
    requires forall t | t in d.tickets :: Mirrors(d, t)
    ensures Came(d, e) == Shown(d, e, CheckedIn)
    ensures Admissible(d, e) - Came(d, e) == Shown(d, e, Issued)
    ensures e in d.events ==> Late(d, e) == ShownLate(d, e)
  {
    forall t | t in d.tickets
      ensures t in Came(d, e) <==> t in Shown(d, e, CheckedIn)
      ensures t in Admissible(d, e) && t !in Came(d, e) <==> t in Shown(d, e, Issued)
    {
      assert Mirrors(d, t);
    }
  }

  lemma CountsOfMirrored(d: Door, e: Id)
    requires (forall t | t in d.tickets :: Mirrors(d, t)) && e in d.events
    ensures var counts := CountAttendance(d, e);
            && counts.checkedIn == |Shown(d, e, CheckedIn)| == counts.onSite + counts.late
            && counts.expected == |Shown(d, e, Issued)|
            && counts.total == counts.checkedIn + counts.expected
            && counts.late == |ShownLate(d, e)| && counts.onSite >= 0
  {
    MirroredRoll(d, e);
    SubsetIsSmaller(Came(d, e), Admissible(d, e));
    SubsetIsSmaller(Late(d, e), Came(d, e));
  }
}

/**
 * Applying migrations one transaction at a time, with every way a run can stop
 * short: between two migrations, at any statement of one, or at its journal row.
 */
module Migrator {
  import opened Prelude

  datatype Migration = Migration(hash: string, millis: int, sql: seq<string>)

  datatype Entry = Entry(hash: string, createdAt: int)

  /** The journal, and every statement committed so far: any schema is a function of that. */
  datatype Database = Database(journal: seq<Entry>, statements: seq<string>)

  const FRESH := Database([], [])

  /** `max(created_at)`. */
  function Newest(journal: seq<Entry>): Option<int> {
    if journal == [] then None
    else
      var before := Newest(journal[..|journal| - 1]);
      var last := journal[|journal| - 1].createdAt;
      if before.None? || before.value < last then Some(last) else before
  }

  predicate IsNewer(m: Migration, last: Option<int>) {
    last.None? || m.millis > last.value
  }

  function Pending(ms: seq<Migration>, last: Option<int>): seq<Migration> {
    if ms == [] then []
    else if IsNewer(ms[0], last) then [ms[0]] + Pending(ms[1..], last)
    else Pending(ms[1..], last)
  }

  function Commit(d: Database, m: Migration): Database {
    Database(d.journal + [Entry(m.hash, m.millis)], d.statements + m.sql)
  }

  function CommitAll(d: Database, ms: seq<Migration>): Database {
    if ms == [] then d else Commit(CommitAll(d, ms[..|ms| - 1]), ms[|ms| - 1])
  }

  function Min(a: nat, b: nat): nat {
    if a < b then a else b
  }

  /** One run, stopped once `stop` migrations are committed if it has not finished by then. */
  function Run(d: Database, ms: seq<Migration>, stop: nat): Database {
    var pending := Pending(ms, Newest(d.journal));
    CommitAll(d, pending[..Min(stop, |pending|)])
  }

  /** Statement `statement` of pending migration `at` fails; one past its last statement is the journal row. */
  datatype Fault = Fault(at: nat, statement: nat)

  class Target {
    var journal: seq<Entry>
    var statements: seq<string>

    function Value(): Database
      reads this
    {
      Database(journal, statements)
    }

    constructor ()
      ensures Value() == FRESH
    {
      journal, statements := [], [];
    }

    method LastAppliedAt() returns (last: Option<int>)
      ensures last == Newest(journal)
    {
      last := None;
      for i := 0 to |journal|
        invariant last == Newest(journal[..i])
      {
        assert journal[..i + 1][..i] == journal[..i];
        if last.None? || last.value < journal[i].createdAt {
          last := Some(journal[i].createdAt);
        }
      }
      assert journal[..|journal|] == journal;
    }

    /** A migration and its journal row, together or not at all. */
    method ApplyOne(m: Migration, failing: Option<nat>) returns (committed: bool)
      modifies this
      ensures committed <==> failing.None? || failing.value > |m.sql|
      ensures Value() == if committed then Commit(old(Value()), m) else old(Value())
    {
      var written := statements;
      for i := 0 to |m.sql|
        invariant written == statements + m.sql[..i]
        invariant failing.Some? ==> failing.value >= i
        invariant journal == old(journal) && statements == old(statements)
      {
        if failing == Some(i) {
          return false;
        }
        assert m.sql[..i + 1] == m.sql[..i] + [m.sql[i]];
        written := written + [m.sql[i]];
      }
      if failing == Some(|m.sql|) {
        return false;
      }
      assert m.sql[..|m.sql|] == m.sql;
      journal, statements := journal + [Entry(m.hash, m.millis)], written;
      committed := true;
    }

    /** `None` when the run stopped at a failure, which leaves all before it committed. */
    method MigrateEach(ms: seq<Migration>, fault: Option<Fault>) returns (applied: Option<nat>)
      modifies this
      ensures applied.Some? ==> applied.value == |Pending(ms, Newest(old(journal)))|
      ensures applied.Some? ==> Value() == Run(old(Value()), ms, applied.value)
      ensures applied.None? ==> fault.Some? && Value() == Run(old(Value()), ms, fault.value.at)
      ensures fault.None? ==> applied.Some?
    {
      var last := LastAppliedAt();
      var pending := Select(ms, last);
      for i := 0 to |pending|
        invariant Value() == CommitAll(old(Value()), pending[..i])
        invariant pending == Pending(ms, Newest(old(journal)))
      {
        var failing := if fault.Some? && fault.value.at == i then Some(fault.value.statement) else None;
        var committed := ApplyOne(pending[i], failing);
        if !committed {
          return None;
        }
        assert pending[..i + 1][..i] == pending[..i];
      }
      applied := Some(|pending|);
    }
  }

  method Select(ms: seq<Migration>, last: Option<int>) returns (pending: seq<Migration>)
    ensures pending == Pending(ms, last)
  {
    pending := [];
    for i := 0 to |ms|
      invariant pending + Pending(ms[i..], last) == Pending(ms, last)
    {
      if last.None? || ms[i].millis > last.value {
        pending := pending + [ms[i]];
      }
    }
  }

  // ---- Runs over a list with strictly increasing timestamps ----

  predicate Earlier(ms: seq<Migration>, i: nat, j: nat)
    requires i < |ms| && j < |ms|
  {
    ms[i].millis < ms[j].millis
  }

  ghost predicate Increasing(ms: seq<Migration>) {
    forall i: nat, j: nat | i < j < |ms| :: Earlier(ms, i, j)
  }

  lemma PrefixIncreases(ms: seq<Migration>, longer: seq<Migration>)
    requires ms <= longer && Increasing(longer)
    ensures Increasing(ms)
  {
    forall i: nat, j: nat | i < j < |ms| ensures Earlier(ms, i, j) {
      assert Earlier(longer, i, j) && ms[i] == longer[i] && ms[j] == longer[j];
    }
  }

  lemma {:induction false} CommitAllJoins(d: Database, a: seq<Migration>, b: seq<Migration>)
    ensures CommitAll(CommitAll(d, a), b) == CommitAll(d, a + b)
  {
    if b == [] {
      assert a + b == a;
    } else {
      CommitAllJoins(d, a, b[..|b| - 1]);
      assert (a + b)[..|a + b| - 1] == a + b[..|b| - 1];
    }
  }

  /** The journal of a fresh database, entry by entry. */
  lemma {:induction false} JournalOf(ms: seq<Migration>)
    ensures var j := CommitAll(FRESH, ms).journal;
      |j| == |ms| && forall i :: 0 <= i < |ms| ==> j[i] == Entry(ms[i].hash, ms[i].millis)
  {
    if ms != [] { JournalOf(ms[..|ms| - 1]); }
  }

  /** The statements of these migrations, one migration after the other. */
  function Flat(ms: seq<Migration>): seq<string> {
    if ms == [] then [] else ms[0].sql + Flat(ms[1..])
  }

  lemma {:induction false} FlatJoins(a: seq<Migration>, b: seq<Migration>)
    ensures Flat(a + b) == Flat(a) + Flat(b)
  {
    if a == [] {
      assert a + b == b;
    } else {
      assert (a + b)[1..] == a[1..] + b;
      FlatJoins(a[1..], b);
    }
  }

  /** Committing migrations executes all their statements, in order, after whatever was executed before. */
  lemma {:induction false} CommittedStatements(d: Database, ms: seq<Migration>)
    ensures CommitAll(d, ms).statements == d.statements + Flat(ms)
  {
    if ms != [] {
      var before, last := ms[..|ms| - 1], ms[|ms| - 1];
      CommittedStatements(d, before);
      assert ms == before + [last] && [last][1..] == [];
      FlatJoins(before, [last]);
      assert Flat([last]) == last.sql;
    }
  }

  lemma {:induction false} NewestIsTheMaximum(journal: seq<Entry>)
    ensures Newest(journal).None? <==> journal == []
    ensures forall i :: 0 <= i < |journal| ==> journal[i].createdAt <= Newest(journal).value
    ensures journal != [] ==> exists i :: 0 <= i < |journal| && journal[i].createdAt == Newest(journal).value
  {
    if journal != [] {
      var front := journal[..|journal| - 1];
      NewestIsTheMaximum(front);
      if front != [] {
        var i :| 0 <= i < |front| && front[i].createdAt == Newest(front).value;
        assert journal[i] == front[i];
      }
      forall k | 0 <= k < |journal|
        ensures journal[k].createdAt <= Newest(journal).value
      {
        if k < |front| { assert journal[k] == front[k]; }
      }
    }
  }

  lemma {:induction false} NewestOfMigrated(ms: seq<Migration>)
    requires Increasing(ms)
    ensures Newest(CommitAll(FRESH, ms).journal) == if ms == [] then None else Some(ms[|ms| - 1].millis)
  {
    var journal := CommitAll(FRESH, ms).journal;
    JournalOf(ms);
    NewestIsTheMaximum(journal);
    if ms != [] {
      var i :| 0 <= i < |journal| && journal[i].createdAt == Newest(journal).value;
      assert i < |ms| - 1 ==> Earlier(ms, i, |ms| - 1);
    }
  }

  lemma {:induction false} PendingJoins(a: seq<Migration>, b: seq<Migration>, last: Option<int>)
    ensures Pending(a + b, last) == Pending(a, last) + Pending(b, last)
  {
    if a == [] {
      assert a + b == b;
    } else {
      assert (a + b)[1..] == a[1..] + b;
      PendingJoins(a[1..], b, last);
    }
  }

  lemma {:induction false} NoneArePending(ms: seq<Migration>, last: Option<int>)
    requires forall m <- ms :: !IsNewer(m, last)
    ensures Pending(ms, last) == []
  {
    if ms != [] { NoneArePending(ms[1..], last); }
  }

  lemma {:induction false} AllArePending(ms: seq<Migration>, last: Option<int>)
    requires forall m <- ms :: IsNewer(m, last)
    ensures Pending(ms, last) == ms
  {
    if ms != [] { AllArePending(ms[1..], last); }
  }

  lemma {:induction false} PendingAfter(a: seq<Migration>, b: seq<Migration>)
    requires Increasing(a + b)
    ensures Pending(a + b, Newest(CommitAll(FRESH, a).journal)) == b
  {
    var last := Newest(CommitAll(FRESH, a).journal);
    PrefixIncreases(a, a + b);
    NewestOfMigrated(a);
    forall m <- a ensures !IsNewer(m, last) {
      var i: nat :| i < |a| && a[i] == m;
      assert i < |a| - 1 ==> Earlier(a, i, |a| - 1);
    }
    forall m <- b ensures IsNewer(m, last) {
      var j: nat :| j < |b| && b[j] == m;
      assert a != [] ==> Earlier(a + b, |a| - 1, |a| + j);
    }
    PendingJoins(a, b, last);
    NoneArePending(a, last);
    AllArePending(b, last);
  }

  lemma PendingAfterPrefix(ms: seq<Migration>, k: nat)
    requires Increasing(ms) && k <= |ms|
    ensures Pending(ms, Newest(CommitAll(FRESH, ms[..k]).journal)) == ms[k..]
  {
    assert ms[..k] + ms[k..] == ms;
    PendingAfter(ms[..k], ms[k..]);
  }

  lemma {:induction false} PrefixJoins(ms: seq<Migration>, k: nat, n: nat)
    requires k + n <= |ms|
    ensures CommitAll(CommitAll(FRESH, ms[..k]), ms[k..][..n]) == CommitAll(FRESH, ms[..k + n])
  {
    var middle := ms[k..][..n];
    CommitAllJoins(FRESH, ms[..k], middle);
    assert middle == ms[k..k + n];
    assert ms[..k] + ms[k..k + n] == ms[..k + n];
  }

  lemma RunCommits(d: Database, ms: seq<Migration>, stop: nat, rest: seq<Migration>)
    requires Pending(ms, Newest(d.journal)) == rest
    ensures Run(d, ms, stop) == CommitAll(d, rest[..Min(stop, |rest|)])
  {
  }

  /** A stopped run leaves a longer prefix, in order and once each; nothing is repeated and nothing missed. */
  lemma {:induction false} RunExtendsThePrefix(ms: seq<Migration>, k: nat, stop: nat)
    requires Increasing(ms) && k <= |ms|
    ensures Run(CommitAll(FRESH, ms[..k]), ms, stop) == CommitAll(FRESH, ms[..k + Min(stop, |ms| - k)])
  {
    PendingAfterPrefix(ms, k);
    RunCommits(CommitAll(FRESH, ms[..k]), ms, stop, ms[k..]);
    PrefixJoins(ms, k, Min(stop, |ms| - k));
  }

  /** A deployment: the list as it then stood, and where the run stopped. */
  datatype Attempt = Attempt(list: seq<Migration>, stop: nat)

  function Deploy(d: Database, history: seq<Attempt>): Database
    decreases history
  {
    if history == [] then d else Deploy(Run(d, history[0].list, history[0].stop), history[1..])
  }

  /** Every list only adds migrations at the end of the one before it. */
  ghost predicate Growing(start: seq<Migration>, history: seq<Attempt>)
    decreases history
  {
    history == [] || (start <= history[0].list && Growing(history[0].list, history[1..]))
  }

  function FinalList(start: seq<Migration>, history: seq<Attempt>): seq<Migration>
    decreases history
  {
    if history == [] then start else FinalList(history[0].list, history[1..])
  }

  lemma {:induction false} ListsGrow(start: seq<Migration>, history: seq<Attempt>)
    requires Growing(start, history)
    ensures start <= FinalList(start, history)
    decreases history
  {
    if history != [] { ListsGrow(history[0].list, history[1..]); }
  }

  /** One more run, on a list that may have grown by more migrations later on. */
  lemma {:induction false} RunReaches(prefix: seq<Migration>, list: seq<Migration>, stop: nat, final: seq<Migration>)
    returns (reached: seq<Migration>)
    requires prefix <= list <= final && Increasing(final)
    ensures prefix <= reached <= list && |reached| == |prefix| + Min(stop, |list| - |prefix|)
    ensures Run(CommitAll(FRESH, prefix), list, stop) == CommitAll(FRESH, reached)
  {
    PrefixIncreases(list, final);
    RunExtendsThePrefix(list, |prefix|, stop);
    assert prefix == list[..|prefix|];
    reached := list[..|prefix| + Min(stop, |list| - |prefix|)];
  }

  /**
   * Any number of runs, each stopped anywhere, over a list that grows between
   * them: the database is a prefix of the final list, applied in order, each
   * migration exactly once, and never shorter than it was. Its statements are
   * theirs, executed once each and in order, with one journal row a migration.
   */
  lemma {:induction false} RunsApplyAPrefix(prefix: seq<Migration>, list: seq<Migration>, history: seq<Attempt>)
    returns (applied: seq<Migration>)
    requires prefix <= list && Growing(list, history) && Increasing(FinalList(list, history))
    ensures prefix <= applied <= FinalList(list, history)
    ensures Deploy(CommitAll(FRESH, prefix), history) == CommitAll(FRESH, applied)
    ensures var end := Deploy(CommitAll(FRESH, prefix), history);
            && end.statements == Flat(applied)
            && |end.journal| == |applied|
            && forall i :: 0 <= i < |applied| ==> end.journal[i] == Entry(applied[i].hash, applied[i].millis)
    decreases history
  {
    if history == [] {
      applied := prefix;
      CommittedStatements(FRESH, applied);
      JournalOf(applied);
    } else {
      var next, rest := history[0].list, history[1..];
      ListsGrow(next, rest);
      var reached := RunReaches(prefix, next, history[0].stop, FinalList(next, rest));
      applied := RunsApplyAPrefix(reached, next, rest);
    }
  }

  /** However often earlier runs stopped, one that finishes leaves what a single run on a fresh database would. */
  lemma {:induction false} FinishedIsUninterrupted(history: seq<Attempt>, ms: seq<Migration>)
    requires Growing([], history) && FinalList([], history) <= ms && Increasing(ms)
    ensures Run(Deploy(FRESH, history), ms, |ms|) == Run(FRESH, ms, |ms|) == CommitAll(FRESH, ms)
    ensures Run(Deploy(FRESH, history), ms, |ms|).statements == Flat(ms)
  {
    CommittedStatements(FRESH, ms);
    PrefixIncreases(FinalList([], history), ms);
    var applied := RunsApplyAPrefix([], [], history);
    assert applied == ms[..|applied|] && ms[..0] == [];
    FinishingCompletes(ms, |applied|);
    FinishingCompletes(ms, 0);
  }

  lemma {:induction false} FinishingCompletes(ms: seq<Migration>, k: nat)
    requires Increasing(ms) && k <= |ms|
    ensures Run(CommitAll(FRESH, ms[..k]), ms, |ms|) == CommitAll(FRESH, ms)
  {
    RunExtendsThePrefix(ms, k, |ms|);
    assert ms[..|ms|] == ms;
  }

  // ---- Exactly when resuming works ----

  lemma {:induction false} PendingIsNewer(ms: seq<Migration>, last: Option<int>)
    ensures forall m <- Pending(ms, last) :: IsNewer(m, last)
    ensures last.None? ==> Pending(ms, last) == ms
  {
    if ms != [] { PendingIsNewer(ms[1..], last); }
  }

  /** Pending are exactly the listed migrations newer than all that was applied, when anything was. */
  lemma {:induction false} WhatIsPending(ms: seq<Migration>, last: Option<int>, m: Migration)
    ensures m in Pending(ms, last) <==> m in ms && (last.Some? ==> m.millis > last.value)
  {
    if ms != [] {
      WhatIsPending(ms[1..], last, m);
      assert ms == [ms[0]] + ms[1..];
    }
  }

  ghost predicate ResumesFrom(ms: seq<Migration>, k: nat) {
    Run(Run(FRESH, ms, k), ms, |ms|) == CommitAll(FRESH, ms)
  }

  /** Every stopping point can be resumed from if and only if the timestamps strictly increase. */
  lemma ResumableIffIncreasing(ms: seq<Migration>)
    ensures (forall k: nat :: k <= |ms| ==> ResumesFrom(ms, k)) <==> Increasing(ms)
  {
    if Increasing(ms) {
      forall k: nat | k <= |ms|
        ensures ResumesFrom(ms, k)
      {
        assert ms[..0] == [];
        RunExtendsThePrefix(ms, 0, k);
        FinishingCompletes(ms, k);
      }
    } else {
      var k := StepDown(ms);
      ResumingSkipsAStepDown(ms, k);
    }
  }

  /** A list that does not increase steps down, or stays level, somewhere. */
  lemma {:induction false} StepDown(ms: seq<Migration>) returns (k: nat)
    requires !Increasing(ms)
    ensures 1 <= k < |ms| && ms[k].millis <= ms[k - 1].millis
  {
    var front := ms[..|ms| - 1];
    if !Increasing(front) {
      k := StepDown(front);
    } else {
      k := |ms| - 1;
      if ms[k - 1].millis < ms[k].millis {
        forall i: nat, j: nat | i < j < |ms| ensures Earlier(ms, i, j) {
          assert j < k ==> Earlier(front, i, j);
          assert i < k - 1 ==> Earlier(front, i, k - 1);
        }
        assert false;
      }
    }
  }

  lemma {:induction false} ResumingSkipsAStepDown(ms: seq<Migration>, k: nat)
    requires 1 <= k < |ms| && ms[k].millis <= ms[k - 1].millis
    ensures !ResumesFrom(ms, k)
  {
    var d := Run(FRESH, ms, k);
    assert d == CommitAll(FRESH, ms[..k]) by {
      PendingIsNewer(ms, None);
    }
    var last := Newest(d.journal);
    NewestCovers(ms[..k], k - 1);
    var pending := Pending(ms, last);
    var tail := pending[..Min(|ms|, |pending|)];
    assert Run(d, ms, |ms|) == CommitAll(d, tail);
    if ResumesFrom(ms, k) {
      TailRow(d, tail, ms, k);
      assert tail[0] in pending;
      PendingIsNewer(ms, last);
    }
  }

  lemma {:induction false} NewestCovers(ms: seq<Migration>, i: nat)
    requires i < |ms|
    ensures var last := Newest(CommitAll(FRESH, ms).journal); last.Some? && ms[i].millis <= last.value
  {
    JournalOf(ms);
    NewestIsTheMaximum(CommitAll(FRESH, ms).journal);
  }

  /** Had the rest been applied after a stop at `k`, its first migration would carry the timestamp of `ms[k]`. */
  lemma {:induction false} TailRow(d: Database, tail: seq<Migration>, ms: seq<Migration>, k: nat)
    requires k < |ms| && d == CommitAll(FRESH, ms[..k]) && CommitAll(d, tail) == CommitAll(FRESH, ms)
    ensures tail != [] && tail[0].millis == ms[k].millis
  {
    JournalOf(ms[..k]);
    JournalOf(ms);
    CommittedRows(d, tail);
  }

  /** New journal rows of any runs are newer than all that was there: a migration merged late is skipped for good. */
  lemma {:induction false} NothingOlderIsEverApplied(d: Database, history: seq<Attempt>)
    requires d.journal != []
    ensures var after := Deploy(d, history);
      && d.journal <= after.journal
      && forall i :: |d.journal| <= i < |after.journal| ==> after.journal[i].createdAt > Newest(d.journal).value
    decreases history
  {
    if history != [] {
      var next := Run(d, history[0].list, history[0].stop);
      RunAddsNewerRows(d, history[0].list, history[0].stop);
      NothingOlderIsEverApplied(next, history[1..]);
      NewestNeverFalls(d.journal, next.journal);
      var after := Deploy(d, history);
      forall i | |d.journal| <= i < |after.journal|
        ensures after.journal[i].createdAt > Newest(d.journal).value
      {
        if i < |next.journal| { assert after.journal[i] == next.journal[i]; }
      }
    }
  }

  lemma {:induction false} RunAddsNewerRows(d: Database, list: seq<Migration>, stop: nat)
    requires d.journal != []
    ensures var next := Run(d, list, stop);
      && d.journal <= next.journal
      && forall i :: |d.journal| <= i < |next.journal| ==> next.journal[i].createdAt > Newest(d.journal).value
  {
    var pending := Pending(list, Newest(d.journal));
    var done := pending[..Min(stop, |pending|)];
    PendingIsNewer(list, Newest(d.journal));
    CommittedRows(d, done);
    var next := Run(d, list, stop);
    forall i | |d.journal| <= i < |next.journal|
      ensures next.journal[i].createdAt > Newest(d.journal).value
    {
      var m := done[i - |d.journal|];
      assert m in pending;
      assert next.journal[|d.journal| + (i - |d.journal|)] == Entry(m.hash, m.millis);
    }
  }

  lemma {:induction false} NewestNeverFalls(a: seq<Entry>, b: seq<Entry>)
    requires a != [] && a <= b
    ensures Newest(a).Some? && Newest(b).Some? && Newest(a).value <= Newest(b).value
  {
    NewestIsTheMaximum(a);
    NewestIsTheMaximum(b);
    var i :| 0 <= i < |a| && a[i].createdAt == Newest(a).value;
    assert b[i] == a[i];
  }

  lemma {:induction false} CommittedRows(d: Database, ms: seq<Migration>)
    ensures var j := CommitAll(d, ms).journal;
      && |j| == |d.journal| + |ms| && d.journal <= j
      && forall i :: 0 <= i < |ms| ==> j[|d.journal| + i] == Entry(ms[i].hash, ms[i].millis)
  {
    if ms != [] { CommittedRows(d, ms[..|ms| - 1]); }
  }
}

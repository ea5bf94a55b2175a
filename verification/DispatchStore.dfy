// The dispatch store. Each public method is one transaction of the source: it takes
// a snapshot where the source begins and puts it back where the source rolls back.
module DispatchStore {
  import opened Basics
  import opened DispatchModel
  import opened DispatchColumns
  import opened DispatchOutcomes
  import opened DispatchLimits

  datatype TerminalizeResult =
    | Recorded(record: Record)
    | AlreadyTerminal(existing: Option<Record>)
    | SupervisedRefused
    | NotFound
    | InvalidOutcome

  datatype UpdateResult = Updated | NoSuchDispatch | Stale | Disallowed | Aborted

  datatype RollbackResult = RolledBackRun(n: nat) | RollbackFailed

  datatype AdmitResult =
    | Admitted(id: string)
    | MalformedKernelPolicy
    | ParentNotFound
    | ParentScopeMismatch
    | NeedsScope
    | RunNotFound
    | BudgetUnavailable
    | BudgetExceeded(used: int, limit: int)
    | TooManyActiveInRun(count: int, limit: int)
    | TooManyActive(count: int, limit: int)
    | TooManyAgents(count: int, limit: int)
    | TooDeep(depth: int, limit: int)
    | DuplicateId

  // What a retry policy says about eligibility.
  predicate ShouldRetry(d: Dispatch, maxRetries: int, retryOnTimeout: bool) {
    && d.agentType != "flere" && !d.quarantined
    && maxRetries > 0 && d.retryCount < maxRetries
    && (d.status.Failed? || (d.status.Timeout? && retryOnTimeout))
  }

  predicate Retryable(rows: seq<Dispatch>, id: string, maxRetries: int, retryOnTimeout: bool) {
    exists k: nat :: k < |rows| && rows[k].id == id && ShouldRetry(rows[k], maxRetries, retryOnTimeout)
  }

  function RetryRequest(d: Dispatch): Request {
    Request(d.scope, d.id, RunIdOf(d), true, d.agentType, d.retryCount + 1, NO_POLICY)
  }

  lemma UniqueRow(rows: seq<Dispatch>, i: nat, j: nat)
    requires Keyed(rows) && i < |rows| && j < |rows| && rows[i].id == rows[j].id
    ensures i == j
  {
  }

  lemma {:induction false} KeptIntentsMembers(intents: seq<Intent>, rows: seq<Dispatch>)
    ensures forall i :: i in KeptIntents(intents, rows) <==> i in intents && Holds(rows, i.dispatchId)
  {
    if intents != [] {
      KeptIntentsMembers(intents[..|intents| - 1], rows);
      assert intents == intents[..|intents| - 1] + [intents[|intents| - 1]];
    }
  }

  // The rows that are recent or active stay, and what belongs to a row that stays.
  ghost predicate KeepsRecent(t: Tables, threshold: int, after: Tables) {
    && (forall d :: d in after.rows <==> d in t.rows && (d.createdAt >= threshold || d.status == Spawned || d.status == Running))
    && (forall id :: id in after.records <==> id in t.records && Holds(after.rows, id))
    && (forall id :: id in after.records ==> after.records[id] == t.records[id])
    && (forall id :: id in after.supervised <==> id in t.supervised && Holds(after.rows, id))
    && (forall i :: i in after.intents <==> i in t.intents && Holds(after.rows, i.dispatchId))
    && after.events == t.events && after.log == t.log
  }

  lemma PrunedColumns(t: Tables, threshold: int)
    ensures KeepsRecent(t, threshold, PrunedTables(t, threshold))
  {
    KeptRowsMembers(t.rows, threshold);
    KeptIntentsMembers(t.intents, KeptRows(t.rows, threshold));
  }

  lemma {:induction false} RolledBackSkips(t: Tables, run: string, a: nat, b: nat)
    requires a <= b <= |t.rows|
    requires forall k :: a <= k < b ==> !RollbackCandidate(t.rows[k], run)
    ensures RolledBack(t, run, b) == RolledBack(t, run, a)
  {
    if a < b {
      RolledBackSkips(t, run, a, b - 1);
      RolledBackFrame(t, run, b - 1);
    }
  }

  lemma {:induction false} RolledBackRecords(t: Tables, run: string, n: nat, k: nat)
    requires Keyed(t.rows) && n <= k < |t.rows|
    ensures t.rows[k].id in RolledBack(t, run, n).records <==> t.rows[k].id in t.records
  {
    if n > 0 {
      RolledBackRecords(t, run, n - 1, k);
      RolledBackFrame(t, run, n - 1);
    }
  }

  predicate NoneBlocked(t: Tables, run: string, n: nat)
    requires n <= |t.rows|
  {
    forall k :: 0 <= k < n ==> !RollbackBlocked(t, k, run)
  }

  // From one candidate to the next nothing is due.
  lemma SkipTo(t: Tables, run: string, a: nat, b: nat)
    requires a <= b <= |t.rows| && NoCandidate(t.rows, run, a, b)
    ensures RolledBack(t, run, b) == RolledBack(t, run, a)
    ensures CancelledRows(t, run, b) == CancelledRows(t, run, a)
    ensures NoneBlocked(t, run, a) ==> NoneBlocked(t, run, b)
  {
    RolledBackSkips(t, run, a, b);
  }

  // The next candidate's turn, in the tables as its predecessors left them.
  lemma TurnOf(t: Tables, run: string, a: nat, c: nat)
    requires Keyed(t.rows) && a <= c < |t.rows| && NoCandidate(t.rows, run, a, c) && RollbackCandidate(t.rows[c], run)
    ensures var u := RolledBack(t, run, a);
      && Keyed(u.rows) && u.rows[c] == t.rows[c] && u.supervised == t.supervised
      && (RollbackBlocked(u, c, run) <==> RollbackBlocked(t, c, run))
      && RolledBack(t, run, c + 1) == RollbackStep(u, c, run)
    ensures |CancelledRows(t, run, c + 1)| == |CancelledRows(t, run, a)| + if t.rows[c].id in t.supervised then 0 else 1
    ensures NoneBlocked(t, run, a) && !RollbackBlocked(t, c, run) ==> NoneBlocked(t, run, c + 1)
  {
    SkipTo(t, run, a, c);
    RolledBackFrame(t, run, c);
    RolledBackRecords(t, run, c, c);
    RolledBackKeyed(t, run, c);
    SetsNext(t, run, c + 1);
  }

  // The first n rows have had their turn, none was blocked, and so many were cancelled.
  ghost predicate Progress(t: Tables, run: string, n: nat, now: Tables, cancelled: nat) {
    n <= |t.rows| && now == RolledBack(t, run, n) && cancelled == |CancelledRows(t, run, n)| && NoneBlocked(t, run, n)
  }

  lemma ProgressStep(t: Tables, run: string, a: nat, c: nat, before: Tables, after: Tables, cancelled: nat)
    requires Keyed(t.rows) && a <= c < |t.rows| && NoCandidate(t.rows, run, a, c) && RollbackCandidate(t.rows[c], run)
    requires Progress(t, run, a, before, cancelled) && |before.rows| == |t.rows|
    requires !RollbackBlocked(before, c, run) && after == RollbackStep(before, c, run)
    ensures Progress(t, run, c + 1, after, cancelled + if t.rows[c].id in t.supervised then 0 else 1)
  {
    TurnOf(t, run, a, c);
  }

  lemma RolledBackKeyed(t: Tables, run: string, n: nat)
    requires Keyed(t.rows) && n <= |t.rows|
    ensures Keyed(RolledBack(t, run, n).rows)
  {
    RolledBackIds(t, run, n);
    var rows := RolledBack(t, run, n).rows;
    forall i, j | 0 <= i < j < |rows|
      ensures rows[i].id != rows[j].id
    {
      assert SameBirth(rows[i], t.rows[i]) && SameBirth(rows[j], t.rows[j]);
    }
  }

  class Store {
    var db: Tables

    constructor ()
      ensures db == EMPTY && Outcomes(db) && Forest(db)
    {
      db := EMPTY;
    }

    method FindRow(id: string) returns (r: Option<nat>)
      ensures r.Some? ==> r.value < |db.rows| && db.rows[r.value].id == id
      ensures r.None? ==> !Holds(db.rows, id)
    {
      for k := 0 to |db.rows|
        invariant forall i :: 0 <= i < k ==> db.rows[i].id != id
      {
        if db.rows[k].id == id {
          return Some(k);
        }
      }
      return None;
    }

    // UPDATE dispatches SET status = ... for one row, between its two triggers.
    method UpdateRow(k: nat, status: Status, fields: Fields) returns (ok: bool)
      requires k < |db.rows|
      modifies this
      ensures ok <==> !GuardAborts(old(db), k, status)
      ensures db == if ok then WriteStatus(old(db), k, status, fields) else old(db)
      ensures !ok <==>
        Live(old(db).rows[k].status) && !Live(status) && old(db).rows[k].id in old(db).supervised && old(db).rows[k].id !in old(db).records
      ensures ok ==> StatusWritten(old(db), k, status, fields, db)
    {
      GuardColumns(db, k, status);
      WriteStatusColumns(db, k, status, fields);
      var d := db.rows[k];
      if GuardAborts(db, k, status) {
        return false;
      }
      var fires := OutboxFires(db, k, status);
      var d' := WithFields(d, fields).(status := status);
      db := db.(rows := db.rows[k := d']);
      if fires {
        db := db.(events := db.events + [Event(d.id, RunIdOf(d), d.status, status, true, "status written without a terminal record")]);
        var eventId := |db.events|;
        db := db.(records := db.records[d.id := Record(RunIdOf(d), d'.retryCount, d.parent, status, d.status,
                                                       Trigger, Unrecorded, "", eventId)]);
      }
      return true;
    }

    // terminalizeTx: event, record, status, inside the caller's transaction. It may
    // leave the event behind when it fails; the caller rolls back.
    method TerminalizeTx(id: string, o: Terminal) returns (r: TerminalizeResult, ghost k: nat)
      requires Keyed(db.rows) && IsTerminal(o.status)
      modifies this
      ensures r.NotFound? <==> !Holds(old(db).rows, id)
      ensures !r.NotFound? ==> k < |old(db).rows| && old(db).rows[k].id == id
      ensures r.SupervisedRefused? <==>
        !r.NotFound? && !IsTerminal(old(db).rows[k].status) && !SupervisedWriter(o.source) && id in old(db).supervised
      ensures r.Recorded? <==> !r.NotFound? && Writable(old(db), k, o.source)
      ensures r.Recorded? ==> db == Terminalized(old(db), k, o) && r.record == db.records[id]
      ensures r.AlreadyTerminal? ==> r.existing == if id in old(db).records then Some(old(db).records[id]) else None
      ensures !r.InvalidOutcome?
      ensures r.Recorded? ==> OutcomeWritten(old(db), k, o, r.record, db)
      ensures r.Recorded? <==>
        && !r.NotFound? && Live(old(db).rows[k].status) && id !in old(db).records
        && (id in old(db).supervised ==> o.source == Supervisor || o.source == Reconcile || o.source == Spool)
    {
      k := 0;
      var found := FindRow(id);
      if found.None? {
        return NotFound, k;
      }
      k := found.value;
      TerminalizedColumns(db, k, o);
      WritableColumns(db, k, o);
      var row := found.value;
      var d := db.rows[row];
      var existing := if id in db.records then Some(db.records[id]) else None;
      if IsTerminal(d.status) {
        return AlreadyTerminal(existing), k;
      }
      if !SupervisedWriter(o.source) && id in db.supervised {
        return SupervisedRefused, k;
      }
      db := db.(events := db.events + [TerminalEvent(d, o)]);
      var eventId := |db.events|;
      if id in db.records { // UNIQUE constraint
        return AlreadyTerminal(existing), k;
      }
      db := db.(records := db.records[id := TerminalRecord(d, o, eventId)]);
      var written := UpdateRow(row, o.status, o.fields);
      assert written;
      return Recorded(db.records[id]), k;
    }

    method Terminalize(id: string, o: Terminal) returns (r: TerminalizeResult, ghost k: nat)
      requires Keyed(db.rows)
      modifies this
      ensures r.InvalidOutcome? <==> !ValidTerminal(o)
      ensures r.NotFound? <==> ValidTerminal(o) && !Holds(old(db).rows, id)
      ensures !r.InvalidOutcome? && !r.NotFound? ==> k < |old(db).rows| && old(db).rows[k].id == id
      ensures r.SupervisedRefused? ==> !SupervisedWriter(o.source) && id in old(db).supervised
      ensures r.Recorded? ==>
        && Enabled(old(db), Kernel(Absent, Absent, map[]), Op.Terminalize(k, o))
        && db == Terminalized(old(db), k, o) && r.record == db.records[id]
      // Column by column: the record, its event and the row are the caller's.
      ensures r.Recorded? ==>
        && r.record.source == o.source && r.record.evidence == o.evidence && r.record.evidenceFields == o.evidenceFields
        && r.record.status == o.status && r.record.fromStatus == old(db).rows[k].status
        && OutcomeWritten(old(db), k, o, r.record, db)
      ensures r.Recorded? && id in old(db).supervised ==> o.source == Supervisor || o.source == Reconcile || o.source == Spool
      ensures r.Recorded? <==>
        && !r.InvalidOutcome? && !r.NotFound? && Live(old(db).rows[k].status) && id !in old(db).records
        && (id in old(db).supervised ==> o.source == Supervisor || o.source == Reconcile || o.source == Spool)
      ensures r.InvalidOutcome? <==>
        Live(o.status) || o.evidence == Unrecorded || !o.fields.allowed || o.source == Trigger || o.source.UnknownSource?
      ensures !r.Recorded? ==> db == old(db)
      ensures r.AlreadyTerminal? ==> r.existing == if id in old(db).records then Some(old(db).records[id]) else None
      ensures Outcomes(old(db)) ==> Outcomes(db)
      // The one winner is the first writer who may write: nobody else's outcome gets in.
      ensures Outcomes(old(db)) && ValidTerminal(o) && Holds(old(db).rows, id) ==>
        && (r.AlreadyTerminal? <==> id in old(db).records)
        && (r.Recorded? <==> id !in old(db).records && (SupervisedWriter(o.source) || id !in old(db).supervised))
    {
      k := 0;
      if !ValidTerminal(o) {
        return InvalidOutcome, k;
      }
      var snapshot := db; // BEGIN IMMEDIATE
      r, k := TerminalizeTx(id, o);
      if !r.Recorded? {
        db := snapshot; // ROLLBACK
      }
      if Outcomes(snapshot) && !r.NotFound? {
        assert RowSound(snapshot, snapshot.rows[k]);
        if r.Recorded? {
          TerminalizedSound(snapshot, k, o);
        }
      }
    }

    method CancelByRun(run: string) returns (r: RollbackResult)
      requires Keyed(db.rows)
      modifies this
      ensures r.RolledBackRun? <==> Enabled(old(db), Kernel(Absent, Absent, map[]), Rollback(run))
      ensures r.RolledBackRun? ==>
        db == RolledBack(old(db), run, |old(db).rows|) && r.n == |CancelledRows(old(db), run, |old(db).rows|)|
      ensures r.RollbackFailed? ==> db == old(db)
      ensures Outcomes(old(db)) ==> r.RolledBackRun? && Outcomes(db)
      ensures Outcomes(old(db)) ==>
        && |db.rows| == |old(db).rows|
        && forall k {:trigger RollbackTurn(old(db), db, run, k)} :: 0 <= k < |db.rows| ==>
             RollbackTurn(old(db), db, run, k) && RecordTurn(old(db), db, run, |db.rows|, k)
    {
      var snapshot := db; // BEGIN IMMEDIATE
      var ok, cancelled := CancelCandidates(run);
      if !ok {
        db := snapshot; // ROLLBACK
        NeverBlocked(snapshot, run);
        return RollbackFailed;
      }
      if Outcomes(snapshot) {
        RollbackEffect(snapshot, run);
        forall k | 0 <= k < |snapshot.rows|
          ensures RollbackTurn(snapshot, db, run, k) && RecordTurn(snapshot, db, run, |db.rows|, k)
        {
          RollbackRecords(snapshot, run, |snapshot.rows|, k);
        }
      }
      return RolledBackRun(cancelled);
    }

    // The transaction of CancelByRun; when it fails it may have cancelled some rows.
    method CancelCandidates(run: string) returns (ok: bool, cancelled: nat)
      requires Keyed(db.rows)
      modifies this
      ensures ok <==> NoneBlocked(old(db), run, |old(db).rows|)
      ensures ok ==>
        db == RolledBack(old(db), run, |old(db).rows|) && cancelled == |CancelledRows(old(db), run, |old(db).rows|)|
    {
      ghost var snapshot := db;
      var rows, supervised := db.rows, db.supervised;
      var candidates := RollbackCandidates(run);
      cancelled := 0;
      ghost var next: nat := 0;
      for m := 0 to |candidates|
        invariant next == Resume(candidates, m) && next <= |snapshot.rows|
        invariant Progress(snapshot, run, next, db, cancelled)
      {
        assert NextCandidate(snapshot.rows, run, candidates, m);
        var c := candidates[m];
        TurnOf(snapshot, run, next, c);
        var id := rows[c].id;
        ghost var before := db;
        var fine := CancelOne(id, id in supervised, run, c);
        if !fine {
          return false, cancelled;
        }
        ProgressStep(snapshot, run, next, c, before, db, cancelled);
        if id !in supervised {
          cancelled := cancelled + 1;
        }
        next := c + 1;
      }
      SkipTo(snapshot, run, next, |snapshot.rows|);
      return true, cancelled;
    }

    // One candidate of CancelByRun, inside its transaction.
    method CancelOne(id: string, supervised: bool, run: string, ghost c: nat) returns (ok: bool)
      requires Keyed(db.rows) && c < |db.rows| && db.rows[c].id == id && RollbackCandidate(db.rows[c], run)
      requires supervised <==> id in db.supervised
      modifies this
      ensures ok <==> !RollbackBlocked(old(db), c, run)
      ensures ok ==> db == RollbackStep(old(db), c, run)
    {
      if supervised {
        db := db.(intents := db.intents + [RollbackIntent(id, run)]);
        return true;
      }
      ghost var before := db;
      var tx, at := TerminalizeTx(id, RollbackOutcome(run));
      UniqueRow(before.rows, at, c);
      return tx.Recorded?;
    }

    // SELECT ... WHERE scope_id = run AND status not terminal
    method RollbackCandidates(run: string) returns (candidates: seq<nat>)
      ensures forall m {:trigger NextCandidate(db.rows, run, candidates, m)} :: 0 <= m < |candidates| ==>
        NextCandidate(db.rows, run, candidates, m)
      ensures Resume(candidates, |candidates|) <= |db.rows|
      ensures NoCandidate(db.rows, run, Resume(candidates, |candidates|), |db.rows|)
    {
      candidates := [];
      for i := 0 to |db.rows|
        invariant forall m {:trigger NextCandidate(db.rows, run, candidates, m)} :: 0 <= m < |candidates| ==>
          NextCandidate(db.rows, run, candidates, m)
        invariant Resume(candidates, |candidates|) <= i
        invariant NoCandidate(db.rows, run, Resume(candidates, |candidates|), i)
      {
        if RollbackCandidate(db.rows[i], run) {
          ghost var was := candidates;
          candidates := candidates + [i];
          forall m | 0 <= m < |candidates|
            ensures NextCandidate(db.rows, run, candidates, m)
          {
            assert m < |was| ==> NextCandidate(db.rows, run, was, m);
          }
        }
      }
    }

    method RecordProcessIdentity(id: string) returns (ok: bool)
      requires Keyed(db.rows)
      modifies this
      ensures ok <==> exists k :: 0 <= k < |old(db).rows| && old(db).rows[k].id == id && old(db).rows[k].status.Spawned?
      ensures ok ==>
        exists k :: 0 <= k < |old(db).rows| && old(db).rows[k].id == id && db == WriteStatus(old(db), k, Running, NO_FIELDS)
      ensures ok ==>
        exists k :: 0 <= k < |old(db).rows| && RunningAt(old(db), id, k, db) && Enabled(old(db), Kernel(Absent, Absent, map[]), Identify(k))
      ensures !ok ==> db == old(db)
      ensures Outcomes(old(db)) ==> Outcomes(db)
    {
      var found := FindRow(id);
      if found.None? || !db.rows[found.value].status.Spawned? {
        assert found.Some? ==> forall k :: 0 <= k < |db.rows| && db.rows[k].id == id ==> k == found.value;
        return false;
      }
      ghost var before := db;
      ok := UpdateRow(found.value, Running, NO_FIELDS);
      assert RunningAt(before, id, found.value, db);
      if Outcomes(before) {
        WriteStatusSound(before, found.value, Running, NO_FIELDS);
      }
    }

    method UpdateStatus(id: string, status: Status, fields: Fields) returns (r: UpdateResult, ghost k: nat)
      requires Keyed(db.rows)
      modifies this
      ensures r.NoSuchDispatch? <==> !Holds(old(db).rows, id)
      ensures !r.NoSuchDispatch? ==> k < |old(db).rows| && old(db).rows[k].id == id
      ensures r.Stale? <==> !r.NoSuchDispatch? && IsTerminal(old(db).rows[k].status)
      ensures r.Updated? <==>
        !r.NoSuchDispatch? && Enabled(old(db), Kernel(Absent, Absent, map[]), SetStatus(k, status, fields))
      ensures r.Updated? ==> db == WriteStatus(old(db), k, status, fields)
      ensures r.Updated? ==> StatusWritten(old(db), k, status, fields, db)
      ensures r.Stale? <==> !r.NoSuchDispatch? && !Live(old(db).rows[k].status)
      ensures r.Aborted? <==>
        && !r.NoSuchDispatch? && fields.allowed && Live(old(db).rows[k].status) && !Live(status)
        && id in old(db).supervised && id !in old(db).records
      ensures !r.Updated? ==> db == old(db)
      ensures Outcomes(old(db)) ==> Outcomes(db)
    {
      k := 0;
      var found := FindRow(id);
      if found.None? {
        return NoSuchDispatch, k;
      }
      k := found.value;
      if IsTerminal(db.rows[found.value].status) {
        return Stale, k;
      }
      if !fields.allowed {
        return Disallowed, k;
      }
      ghost var before := db;
      var ok := UpdateRow(found.value, status, fields);
      if !ok {
        return Aborted, k;
      }
      if Outcomes(before) {
        WriteStatusSound(before, k, status, fields);
      }
      return Updated, k;
    }

    // Tokens are updated in any status, but not for a flere dispatch that is finished.
    method UpdateTokens(id: string, fields: Fields) returns (r: UpdateResult, ghost k: nat)
      requires Keyed(db.rows)
      modifies this
      ensures r.Disallowed? <==> !fields.allowed
      ensures r.NoSuchDispatch? <==> fields.allowed && !Holds(old(db).rows, id)
      ensures !r.Disallowed? && !r.NoSuchDispatch? ==> k < |old(db).rows| && old(db).rows[k].id == id
      ensures r.Stale? <==>
        !r.Disallowed? && !r.NoSuchDispatch? && old(db).rows[k].agentType == "flere" && !Live(old(db).rows[k].status)
      ensures r.Updated? <==>
        !r.Disallowed? && !r.NoSuchDispatch? && Enabled(old(db), Kernel(Absent, Absent, map[]), SetTokens(k, fields))
      ensures r.Updated? ==>
        db == old(db).(rows := old(db).rows[k := RowWith(old(db).rows[k], old(db).rows[k].status, fields)])
      ensures !r.Updated? ==> db == old(db)
      ensures !r.Aborted? && (Outcomes(old(db)) ==> Outcomes(db))
    {
      k := 0;
      if !fields.allowed {
        return Disallowed, k;
      }
      var found := FindRow(id);
      if found.None? {
        return NoSuchDispatch, k;
      }
      k := found.value;
      var d := db.rows[found.value];
      if d.agentType == "flere" && IsTerminal(d.status) {
        return Stale, k;
      }
      ghost var before := db;
      db := db.(rows := db.rows[found.value := WithFields(d, fields)]);
      if Outcomes(before) {
        RowTouched(before, k, WithFields(d, fields), db);
      }
      return Updated, k;
    }

    method Prune(threshold: int) returns (n: nat)
      requires Keyed(db.rows)
      modifies this
      ensures db == PrunedTables(old(db), threshold)
      ensures Enabled(old(db), Kernel(Absent, Absent, map[]), Op.Prune(threshold))
      ensures n == |old(db).rows| - |db.rows|
      ensures Outcomes(old(db)) ==> Outcomes(db)
      ensures KeepsRecent(old(db), threshold, db)
    {
      var before := db;
      var kept := KeepRows(before.rows, threshold);
      var intents := KeepIntents(before.intents, kept);
      db := db.(rows := kept,
                records := (map id | id in before.records && Holds(kept, id) :: before.records[id]),
                supervised := (set id | id in before.supervised && Holds(kept, id)),
                intents := intents);
      PrunedColumns(before, threshold);
      if Outcomes(before) {
        PrunedSound(before, threshold);
      }
      return |before.rows| - |kept|;
    }

    // DELETE FROM dispatches WHERE created_at < threshold AND not active
    static method KeepRows(rows: seq<Dispatch>, threshold: int) returns (kept: seq<Dispatch>)
      ensures kept == KeptRows(rows, threshold) && |kept| <= |rows|
    {
      kept := [];
      for k := 0 to |rows|
        invariant kept == KeptRows(rows[..k], threshold) && |kept| <= k
      {
        assert rows[..k + 1][..k] == rows[..k];
        if !Pruned(rows[k], threshold) {
          kept := kept + [rows[k]];
        }
      }
      assert rows[..|rows|] == rows;
    }

    // DELETE FROM dispatch_intents WHERE the dispatch is gone
    static method KeepIntents(intents: seq<Intent>, rows: seq<Dispatch>) returns (kept: seq<Intent>)
      ensures kept == KeptIntents(intents, rows)
    {
      kept := [];
      for k := 0 to |intents|
        invariant kept == KeptIntents(intents[..k], rows)
      {
        assert intents[..k + 1][..k] == intents[..k];
        if Holds(rows, intents[k].dispatchId) {
          kept := kept + [intents[k]];
        }
      }
      assert intents[..|intents|] == intents;
    }

    // ---- Admission ----

    method CountRows(w: Which) returns (n: nat)
      ensures n == Count(db.rows, w)
    {
      n := 0;
      for k := 0 to |db.rows|
        invariant n == Count(db.rows[..k], w)
      {
        assert db.rows[..k + 1][..k] == db.rows[..k];
        if Selects(w, db.rows[k]) {
          n := n + 1;
        }
      }
      assert db.rows[..|db.rows|] == db.rows;
    }

    method SumTokens(scope: string) returns (used: int)
      ensures used == TokensUsed(db.rows, scope)
    {
      used := 0;
      for k := 0 to |db.rows|
        invariant used == TokensUsed(db.rows[..k], scope)
      {
        assert db.rows[..k + 1][..k] == db.rows[..k];
        if db.rows[k].scope == Some(scope) {
          used := used + db.rows[k].inputTokens + db.rows[k].outputTokens;
        }
      }
      assert db.rows[..|db.rows|] == db.rows;
    }

    // checkPolicyCounts
    method CheckPolicyCounts(p: Policy, scope: string, depth: int) returns (r: Option<AdmitResult>)
      ensures r.None? <==> WithinCounts(db.rows, p, scope, depth)
      ensures r.Some? ==> CountRejection(db.rows, p, scope, depth, r.value)
    {
      if p.maxActivePerRun > 0 && scope != "" {
        var count := CountRows(ActiveIn(scope));
        if count >= p.maxActivePerRun {
          return Some(TooManyActiveInRun(count, p.maxActivePerRun));
        }
      }
      if p.maxActiveGlobal > 0 {
        var count := CountRows(ActiveAll);
        if count >= p.maxActiveGlobal {
          return Some(TooManyActive(count, p.maxActiveGlobal));
        }
      }
      if p.maxAgentsPerRun > 0 && scope != "" {
        var count := CountRows(AllIn(scope));
        if count >= p.maxAgentsPerRun {
          return Some(TooManyAgents(count, p.maxAgentsPerRun));
        }
      }
      if p.maxSpawnDepth > 0 && depth > p.maxSpawnDepth {
        return Some(TooDeep(depth, p.maxSpawnDepth));
      }
      return None;
    }

    // The parent row, and the scope and depth it gives the new one.
    method PlaceUnderParent(q: Request) returns (rejection: Option<AdmitResult>, parent: Option<nat>, scope: Option<string>, depth: int)
      ensures parent.Some? ==> q.parent != "" && parent.value < |db.rows| && db.rows[parent.value].id == q.parent
      ensures var p := ParentRow(db, parent);
              var parentScope := if p.Some? then p.value.scope else None;
        && (rejection.Some? ==>
              || (rejection.value.ParentNotFound? && q.parent != "" && !Holds(db.rows, q.parent))
              || (rejection.value.ParentScopeMismatch? && ScopeMismatch(q, parentScope)))
        && (rejection.None? ==>
              && (q.parent == "" <==> parent.None?) && !ScopeMismatch(q, parentScope)
              && scope == NewRow(q, p, "", 0).scope && depth == NewRow(q, p, "", 0).depth)
    {
      rejection, parent, scope, depth := None, None, q.scope, 0;
      if q.parent == "" {
        return;
      }
      parent := FindRow(q.parent);
      if parent.None? {
        rejection := Some(ParentNotFound);
        return;
      }
      var d := db.rows[parent.value];
      if Scoped(d.scope) {
        if q.scope.Some? && q.scope != d.scope {
          rejection := Some(ParentScopeMismatch);
          return;
        }
        scope := d.scope;
      }
      depth := d.depth + 1;
      if q.retry {
        depth := d.depth;
      }
    }

    // The enforced token budget, from the run and the tokens its dispatches report.
    method CheckBudget(p: Policy, kernel: Kernel, scope: string) returns (r: Option<AdmitResult>)
      ensures r.None? <==> WithinBudget(db.rows, p, kernel, scope)
      ensures r.Some? ==> BudgetRejection(db.rows, p, kernel, scope, r.value)
    {
      if !p.budgetEnforce {
        return None;
      }
      var tokenBudget: Option<int> := None;
      if scope != "" && scope in kernel.runs {
        tokenBudget := kernel.runs[scope].tokenBudget;
      }
      if tokenBudget.None? || tokenBudget.value <= 0 {
        return Some(BudgetUnavailable);
      }
      var used := SumTokens(scope);
      if used >= tokenBudget.value {
        return Some(BudgetExceeded(used, tokenBudget.value));
      }
      return None;
    }

    // Everything admit reads and decides before it inserts.
    method Decide(q: Request, kernel: Kernel) returns (rejection: Option<AdmitResult>, parent: Option<nat>, scope: Option<string>, depth: int)
      ensures parent.Some? ==> q.parent != "" && parent.value < |db.rows| && db.rows[parent.value].id == q.parent
      ensures rejection.None? <==> (parent.None? <==> q.parent == "") && MayAdmit(db.rows, kernel, q, ParentRow(db, parent))
      ensures rejection.None? ==>
        scope == NewRow(q, ParentRow(db, parent), "", 0).scope && depth == NewRow(q, ParentRow(db, parent), "", 0).depth
      ensures rejection.Some? ==> Rejection(db.rows, kernel, q, ParentRow(db, parent), rejection.value)
    {
      rejection, parent, scope, depth := None, None, None, 0;
      var policy := q.policy;
      if kernel.globalMax.Malformed? {
        rejection := Some(MalformedKernelPolicy);
        return;
      }
      policy := policy.(maxActiveGlobal := Tighten(policy.maxActiveGlobal, StoredValue(kernel.globalMax)));
      if kernel.maxDepth.Malformed? {
        rejection := Some(MalformedKernelPolicy);
        return;
      }
      policy := policy.(maxSpawnDepth := Tighten(policy.maxSpawnDepth, StoredValue(kernel.maxDepth)));
      rejection, parent, scope, depth := PlaceUnderParent(q);
      if rejection.Some? {
        return;
      }
      var scopeId := if scope.Some? then scope.value else "";
      if scopeId == "" && (policy.maxActivePerRun > 0 || policy.maxAgentsPerRun > 0) {
        rejection := Some(NeedsScope);
        return;
      }
      if scopeId != "" {
        if scopeId in kernel.runs {
          var run := kernel.runs[scopeId];
          policy := policy.(budgetEnforce := policy.budgetEnforce || run.budgetEnforce,
                            maxAgentsPerRun := Tighten(policy.maxAgentsPerRun, run.maxAgents));
        } else if q.runId != "" {
          rejection := Some(RunNotFound);
          return;
        }
      }
      assert policy == Effective(q.policy, kernel, scopeId);
      rejection := CheckBudget(policy, kernel, scopeId);
      if rejection.Some? {
        return;
      }
      rejection := CheckPolicyCounts(policy, scopeId, depth);
    }

    // admit: limits, parent, run policy, budget and counts are read, and the row is
    // inserted, in one transaction.
    method Admit(q: Request, kernel: Kernel, freshId: string, now: int) returns (r: AdmitResult, ghost parent: Option<nat>)
      requires Forest(db) && NonNegative(q.policy)
      requires freshId != "" && (Holds(db.log, freshId) ==> Holds(db.rows, freshId))
      modifies this
      ensures parent.Some? ==> parent.value < |old(db).rows| && old(db).rows[parent.value].id == q.parent
      ensures r.Admitted? <==> Enabled(old(db), kernel, Op.Admit(q, parent, freshId, now))
      ensures r.Admitted? ==> r.id == freshId && db == Apply(old(db), kernel, Op.Admit(q, parent, freshId, now))
      ensures !r.Admitted? ==> db == old(db) && Rejection(db.rows, kernel, q, ParentRow(db, parent), r)
      ensures Forest(db) && (Outcomes(old(db)) ==> Outcomes(db))
      // Column by column: when a row is admitted, and which.
      ensures r.Admitted? <==> !Holds(old(db).rows, freshId) && Admissible(old(db).rows, kernel, q, ParentRow(old(db), parent))
      ensures r.Admitted? ==>
        db.rows == old(db).rows + [AdmittedRow(q, ParentRow(old(db), parent), freshId, now)] && db.records == old(db).records
        && db.events == old(db).events && db.supervised == old(db).supervised && db.intents == old(db).intents
    {
      var rejection, p, scope, depth := Decide(q, kernel);
      parent := p;
      AdmissionMeans(db.rows, kernel, q, ParentRow(db, parent));
      AdmittedColumns(q, ParentRow(db, parent), freshId, now);
      if rejection.Some? {
        return rejection.value, parent;
      }
      var taken := FindRow(freshId);
      if taken.Some? { // PRIMARY KEY
        return DuplicateId, parent;
      }
      var row := Dispatch(freshId, Spawned, scope, q.parent, depth, p.Some? && q.retry, q.agentType, false, q.retryCount, 0, 0, now);
      ghost var before := db;
      assert row == NewRow(q, ParentRow(db, parent), freshId, now);
      db := db.(rows := db.rows + [row], log := db.log + [row]);
      AdmitKeepsForest(before, kernel, Op.Admit(q, parent, freshId, now));
      if Outcomes(before) {
        AdmittedSound(before, row);
      }
      return Admitted(freshId), parent;
    }

    // store.Get and ShouldRetry: the read that a retry starts with.
    method ReadForRetry(id: string, maxRetries: int, retryOnTimeout: bool) returns (orig: Option<Dispatch>, ghost k: nat)
      requires Keyed(db.rows)
      ensures orig.None? <==> !Retryable(db.rows, id, maxRetries, retryOnTimeout)
      ensures orig.Some? ==>
        k < |db.rows| && db.rows[k] == orig.value && orig.value.id == id && ShouldRetry(orig.value, maxRetries, retryOnTimeout)
      ensures orig.Some? ==>
        && orig.value.agentType != "flere" && !orig.value.quarantined && orig.value.retryCount < maxRetries && maxRetries > 0
        && (orig.value.status == Failed || (orig.value.status == Timeout && retryOnTimeout))
      ensures orig.None? ==> forall d :: d in db.rows && d.id == id ==>
        || d.agentType == "flere" || d.quarantined || maxRetries <= 0 || d.retryCount >= maxRetries
        || (d.status != Failed && (d.status != Timeout || !retryOnTimeout))
    {
      orig, k := None, 0;
      var found := FindRow(id);
      if found.Some? {
        k := found.value;
        assert forall m: nat :: m < |db.rows| && db.rows[m].id == id ==> m == k;
        if ShouldRetry(db.rows[found.value], maxRetries, retryOnTimeout) {
          orig := Some(db.rows[found.value]);
        }
      }
    }

    // A retry is a new reservation: a younger sibling in the same scope at the same
    // depth, and only for an outcome the policy allows to be retried. The read and the
    // admission are two statements; RetryOfWhatWasRead covers what commits in between.
    method Retry(originalId: string, maxRetries: int, retryOnTimeout: bool, kernel: Kernel, freshId: string, now: int)
      returns (r: Option<AdmitResult>, ghost k: nat)
      requires Forest(db) && freshId != "" && (Holds(db.log, freshId) ==> Holds(db.rows, freshId))
      modifies this
      ensures r.None? <==> !Retryable(old(db).rows, originalId, maxRetries, retryOnTimeout)
      ensures r.Some? ==>
        k < |old(db).rows| && old(db).rows[k].id == originalId && ShouldRetry(old(db).rows[k], maxRetries, retryOnTimeout)
      ensures r.Some? && r.value.Admitted? ==>
        && r.value.id == freshId && RetriedAs(old(db).rows, k, db.rows, freshId, maxRetries)
        && Enabled(old(db), kernel, Op.Admit(RetryRequest(old(db).rows[k]), Some(k), freshId, now))
        && db == Apply(old(db), kernel, Op.Admit(RetryRequest(old(db).rows[k]), Some(k), freshId, now))
      ensures r.None? || !r.value.Admitted? ==> db == old(db)
      ensures r.Some? && !r.value.Admitted? ==>
        Rejection(old(db).rows, kernel, RetryRequest(old(db).rows[k]), Some(old(db).rows[k]), r.value)
      ensures Forest(db) && (Outcomes(old(db)) ==> Outcomes(db))
    {
      var orig;
      orig, k := ReadForRetry(originalId, maxRetries, retryOnTimeout);
      if orig.None? {
        return None, k;
      }
      assert originalId != "" by {
        assert BornIn(db.log, orig.value);
      }
      ghost var before := db;
      var result, parent := Admit(RetryRequest(orig.value), kernel, freshId, now);
      if parent.Some? {
        UniqueRow(before.rows, parent.value, k);
      }
      assert ParentRow(before, parent) == Some(before.rows[k]) || !result.Admitted?;
      return Some(result), k;
    }
  }

  // The row runs; nothing else changed.
  predicate RunningAt(t: Tables, id: string, k: nat, after: Tables)
    requires k < |t.rows|
  {
    t.rows[k].id == id && t.rows[k].status == Spawned && after == t.(rows := t.rows[k := t.rows[k].(status := Running)])
  }

  predicate CountRejection(rows: seq<Dispatch>, p: Policy, scope: string, depth: int, r: AdmitResult) {
    match r
    case TooManyActiveInRun(count, limit) =>
      scope != "" && limit == p.maxActivePerRun && count == Count(rows, ActiveIn(scope)) && count >= limit > 0
    case TooManyActive(count, limit) =>
      limit == p.maxActiveGlobal && count == Count(rows, ActiveAll) && count >= limit > 0
    case TooManyAgents(count, limit) =>
      scope != "" && limit == p.maxAgentsPerRun && count == Count(rows, AllIn(scope)) && count >= limit > 0
    case TooDeep(d, limit) =>
      d == depth && limit == p.maxSpawnDepth && d > limit > 0
    case _ => false
  }

  // Every rejection names a condition that really fails.
  predicate Rejection(rows: seq<Dispatch>, kernel: Kernel, q: Request, parent: Option<Dispatch>, r: AdmitResult) {
    var parentScope := if parent.Some? then parent.value.scope else None;
    var row := NewRow(q, parent, "", 0);
    var scope := RunIdOf(row);
    var p := Effective(q.policy, kernel, scope);
    match r
    case Admitted(_) => false
    case DuplicateId => true
    case MalformedKernelPolicy => kernel.globalMax.Malformed? || kernel.maxDepth.Malformed?
    case ParentNotFound => q.parent != "" && !Holds(rows, q.parent)
    case ParentScopeMismatch => ScopeMismatch(q, parentScope)
    case NeedsScope => scope == "" && (q.policy.maxActivePerRun > 0 || q.policy.maxAgentsPerRun > 0)
    case RunNotFound => scope != "" && q.runId != "" && scope !in kernel.runs
    case BudgetUnavailable => BudgetRejection(rows, p, kernel, scope, r)
    case BudgetExceeded(_, _) => BudgetRejection(rows, p, kernel, scope, r)
    case _ => CountRejection(rows, p, scope, row.depth, r)
  }

  predicate BudgetRejection(rows: seq<Dispatch>, p: Policy, kernel: Kernel, scope: string, r: AdmitResult) {
    match r
    case BudgetUnavailable => p.budgetEnforce &&
      (scope == "" || scope !in kernel.runs || kernel.runs[scope].tokenBudget.None? || kernel.runs[scope].tokenBudget.value <= 0)
    case BudgetExceeded(used, limit) => p.budgetEnforce && scope in kernel.runs
      && kernel.runs[scope].tokenBudget == Some(limit) && used == TokensUsed(rows, scope) && used >= limit > 0
    case _ => false
  }

  // One row was added: a retry of row k.
  predicate RetriedAs(rows: seq<Dispatch>, k: nat, after: seq<Dispatch>, id: string, maxRetries: int)
    requires k < |rows|
  {
    && |after| == |rows| + 1 && after[..|rows|] == rows
    && var orig, d := rows[k], after[|rows|];
    && d.id == id && d.parent == orig.id && d.viaRetry && d.depth == orig.depth && d.status.Spawned?
    && (Scoped(orig.scope) ==> d.scope == orig.scope)
    && d.agentType == orig.agentType && d.retryCount == orig.retryCount + 1 <= maxRetries
  }

  // The row after candidate m - 1: everything before it has been handled.
  function Resume(candidates: seq<nat>, m: nat): nat
    requires m <= |candidates|
  {
    if m == 0 then 0 else candidates[m - 1] + 1
  }

  // Candidate m is the first one from where candidate m - 1 left off.
  predicate NextCandidate(rows: seq<Dispatch>, run: string, candidates: seq<nat>, m: nat)
    requires m < |candidates|
  {
    && Resume(candidates, m) <= candidates[m] < |rows|
    && RollbackCandidate(rows[candidates[m]], run)
    && NoCandidate(rows, run, Resume(candidates, m), candidates[m])
  }

  predicate NoCandidate(rows: seq<Dispatch>, run: string, a: nat, b: nat)
    requires b <= |rows|
  {
    forall k :: a <= k < b ==> !RollbackCandidate(rows[k], run)
  }

  lemma NeverBlocked(t: Tables, run: string)
    requires exists k :: 0 <= k < |t.rows| && RollbackBlocked(t, k, run)
    ensures !Outcomes(t)
  {
    var k :| 0 <= k < |t.rows| && RollbackBlocked(t, k, run);
    assert !RowSound(t, t.rows[k]);
  }
}

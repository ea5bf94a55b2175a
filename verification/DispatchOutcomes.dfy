// Exactly one outcome per dispatch, whichever writers compete.
module DispatchOutcomes {
  import opened Basics
  import opened DispatchModel
  import opened DispatchColumns

  // What no transaction but insertion sets.
  predicate SameBirth(d: Dispatch, b: Dispatch) {
    && d.id == b.id && d.scope == b.scope && d.parent == b.parent && d.depth == b.depth
    && d.viaRetry == b.viaRetry && d.agentType == b.agentType && d.createdAt == b.createdAt
  }

  // The event and the record tell the same story.
  predicate EventBacks(e: Event, id: string, r: Record) {
    e.terminal && e.dispatchId == id && e.runId == r.runId && e.fromStatus == r.fromStatus && e.toStatus == r.status
  }

  // Row, record and the event the record names agree.
  predicate Agrees(t: Tables, d: Dispatch)
    requires d.id in t.records
  {
    var r := t.records[d.id];
    && r.status == d.status && !IsTerminal(r.fromStatus)
    && r.parent == d.parent && r.runId == RunIdOf(d)
    && (r.source.Trigger? <==> r.evidence.Unrecorded?)
    && 1 <= r.eventId <= |t.events| && EventBacks(t.events[r.eventId - 1], d.id, r)
  }

  predicate RowSound(t: Tables, d: Dispatch) {
    && Holds(t.log, d.id)
    && (IsTerminal(d.status) <==> d.id in t.records)
    && (d.id in t.records ==> Agrees(t, d))
  }

  // A terminal event of a row still present is the one its record names.
  predicate EventSound(t: Tables, i: nat)
    requires i < |t.events|
  {
    var e := t.events[i];
    e.terminal ==>
      && Holds(t.log, e.dispatchId)
      && (Holds(t.rows, e.dispatchId) ==> e.dispatchId in t.records && t.records[e.dispatchId].eventId == i + 1)
      && forall j :: 0 <= j < i && t.events[j].terminal ==> t.events[j].dispatchId != e.dispatchId
  }

  predicate Outcomes(t: Tables) {
    && Keyed(t.rows)
    && (forall k {:trigger RowSound(t, t.rows[k])} :: 0 <= k < |t.rows| ==> RowSound(t, t.rows[k]))
    && (forall id :: id in t.records ==> Holds(t.rows, id))
    && (forall i {:trigger EventSound(t, i)} :: 0 <= i < |t.events| ==> EventSound(t, i))
  }

  // ---- Each transaction keeps it ----

  // The one way an outcome enters: event, record and status together.
  lemma OutcomeRecorded(t: Tables, k: nat, d: Dispatch, e: Event, r: Record, t': Tables)
    requires Outcomes(t) && k < |t.rows| && !IsTerminal(t.rows[k].status)
    requires SameBirth(d, t.rows[k]) && IsTerminal(d.status)
    requires r.status == d.status && r.fromStatus == t.rows[k].status && r.parent == d.parent && r.runId == RunIdOf(d)
    requires r.source.Trigger? <==> r.evidence.Unrecorded?
    requires r.eventId == |t.events| + 1 && EventBacks(e, d.id, r)
    requires t' == t.(rows := t.rows[k := d], events := t.events + [e], records := t.records[d.id := r])
    ensures Outcomes(t')
  {
    var id := d.id;
    assert RowSound(t, t.rows[k]) && id !in t.records;
    SameIds(t.rows, k, d);
    forall m | 0 <= m < |t'.rows|
      ensures RowSound(t', t'.rows[m])
    {
      assert RowSound(t, t.rows[m]);
      if m != k {
        assert t'.rows[m] == t.rows[m] && t.rows[m].id != id;
      }
    }
    forall x | x in t'.records
      ensures Holds(t'.rows, x)
    {
      assert x == id ==> t'.rows[k].id == x;
    }
    EventsAfterRecord(t, k, e, r, t');
  }

  lemma EventsAfterRecord(t: Tables, k: nat, e: Event, r: Record, t': Tables)
    requires k < |t.rows| && t.rows[k].id !in t.records
    requires Holds(t.log, t.rows[k].id) && t'.log == t.log
    requires forall i {:trigger EventSound(t, i)} :: 0 <= i < |t.events| ==> EventSound(t, i)
    requires e.terminal && e.dispatchId == t.rows[k].id && r.eventId == |t.events| + 1
    requires t'.events == t.events + [e] && t'.records == t.records[t.rows[k].id := r]
    requires forall id :: Holds(t'.rows, id) <==> Holds(t.rows, id)
    ensures forall i {:trigger EventSound(t', i)} :: 0 <= i < |t'.events| ==> EventSound(t', i)
  {
    var id := t.rows[k].id;
    assert Holds(t.rows, id);
    forall j | 0 <= j < |t.events| && t.events[j].terminal
      ensures t.events[j].dispatchId != id
    {
      assert EventSound(t, j);
    }
    forall i | 0 <= i < |t'.events|
      ensures EventSound(t', i)
    {
      assert i < |t.events| ==> EventSound(t, i) && t'.events[i] == t.events[i];
    }
  }

  lemma SameIds(rows: seq<Dispatch>, k: nat, d: Dispatch)
    requires k < |rows| && d.id == rows[k].id
    ensures Keyed(rows) ==> Keyed(rows[k := d])
    ensures forall id :: Holds(rows[k := d], id) <==> Holds(rows, id)
  {
    var after := rows[k := d];
    forall id
      ensures Holds(after, id) <==> Holds(rows, id)
    {
      if m :| 0 <= m < |rows| && rows[m].id == id {
        assert after[m].id == id;
      }
      if m :| 0 <= m < |after| && after[m].id == id {
        assert rows[m].id == id;
      }
    }
  }

  // A row changes without crossing into or out of a terminal status.
  lemma RowTouched(t: Tables, k: nat, d: Dispatch, t': Tables)
    requires Outcomes(t) && k < |t.rows| && SameBirth(d, t.rows[k])
    requires d.status == t.rows[k].status || (!IsTerminal(d.status) && !IsTerminal(t.rows[k].status))
    requires t' == t.(rows := t.rows[k := d])
    ensures Outcomes(t')
  {
    SameIds(t.rows, k, d);
    forall m | 0 <= m < |t'.rows|
      ensures RowSound(t', t'.rows[m])
    {
      assert RowSound(t, t.rows[m]);
      if m == k {
        assert t'.rows[m] == d;
      } else {
        assert t'.rows[m] == t.rows[m];
      }
    }
    EventsUnmoved(t, t');
  }

  // Events stay sound when only rows changed, and no id came or went.
  lemma EventsUnmoved(t: Tables, t': Tables)
    requires forall i {:trigger EventSound(t, i)} :: 0 <= i < |t.events| ==> EventSound(t, i)
    requires t'.events == t.events && t'.records == t.records && t'.log == t.log
    requires forall id :: Holds(t'.rows, id) ==> Holds(t.rows, id)
    ensures forall i {:trigger EventSound(t', i)} :: 0 <= i < |t'.events| ==> EventSound(t', i)
  {
    forall i | 0 <= i < |t'.events|
      ensures EventSound(t', i)
    {
      assert EventSound(t, i);
    }
  }

  lemma TerminalizedSound(t: Tables, k: nat, o: Terminal)
    requires Outcomes(t) && k < |t.rows| && ValidTerminal(o) && !IsTerminal(t.rows[k].status)
    ensures Outcomes(Terminalized(t, k, o))
  {
    var d := t.rows[k];
    OutcomeRecorded(t, k, WithFields(d, o.fields).(status := o.status), TerminalEvent(d, o),
                    TerminalRecord(d, o, |t.events| + 1), Terminalized(t, k, o));
  }

  lemma WriteStatusSound(t: Tables, k: nat, status: Status, f: Fields)
    requires Outcomes(t) && k < |t.rows| && !IsTerminal(t.rows[k].status)
    ensures Outcomes(WriteStatus(t, k, status, f))
  {
    var d := t.rows[k];
    var d' := WithFields(d, f).(status := status);
    assert RowSound(t, d);
    if OutboxFires(t, k, status) {
      OutcomeRecorded(t, k, d', Event(d.id, RunIdOf(d), d.status, status, true, "status written without a terminal record"),
                      Record(RunIdOf(d), d'.retryCount, d.parent, status, d.status, Trigger, Unrecorded, "", |t.events| + 1),
                      WriteStatus(t, k, status, f));
    } else {
      RowTouched(t, k, d', WriteStatus(t, k, status, f));
    }
  }

  // Row n - 1 is still as it was when its turn comes.
  lemma {:induction false} RolledBackFrame(t: Tables, run: string, n: nat)
    requires n <= |t.rows|
    ensures var u := RolledBack(t, run, n);
      && u.log == t.log && u.supervised == t.supervised
      && forall k :: n <= k < |t.rows| ==> u.rows[k] == t.rows[k]
  {
    if n > 0 {
      RolledBackFrame(t, run, n - 1);
    }
  }

  lemma RollbackStepSound(t: Tables, k: nat, run: string)
    requires Outcomes(t) && k < |t.rows|
    ensures Outcomes(RollbackStep(t, k, run))
  {
    var d := t.rows[k];
    if RollbackCandidate(d, run) {
      if d.id in t.supervised {
        IntentsIrrelevant(t, t.intents + [RollbackIntent(d.id, run)]);
      } else {
        TerminalizedSound(t, k, RollbackOutcome(run));
      }
    }
  }

  lemma {:induction false} RolledBackSound(t: Tables, run: string, n: nat)
    requires Outcomes(t) && n <= |t.rows|
    ensures Outcomes(RolledBack(t, run, n))
  {
    if n > 0 {
      RolledBackSound(t, run, n - 1);
      RollbackStepSound(RolledBack(t, run, n - 1), n - 1, run);
    }
  }

  lemma IntentsIrrelevant(t: Tables, intents: seq<Intent>)
    requires Outcomes(t)
    ensures Outcomes(t.(intents := intents))
  {
    var t' := t.(intents := intents);
    forall k | 0 <= k < |t.rows| ensures RowSound(t', t.rows[k]) { assert RowSound(t, t.rows[k]); }
    forall i | 0 <= i < |t.events| ensures EventSound(t', i) { assert EventSound(t, i); }
  }

  lemma {:induction false} KeptRowsMembers(rows: seq<Dispatch>, threshold: int)
    ensures var kept := KeptRows(rows, threshold);
      && (forall d :: d in kept <==> d in rows && !Pruned(d, threshold))
      && (Keyed(rows) ==> Keyed(kept))
  {
    if rows != [] {
      var front, last := rows[..|rows| - 1], rows[|rows| - 1];
      KeptRowsMembers(front, threshold);
      assert rows == front + [last];
      if Keyed(rows) {
        var kept := KeptRows(front, threshold);
        forall k | 0 <= k < |kept|
          ensures kept[k].id != last.id
        {
          assert kept[k] in front;
        }
      }
    }
  }

  lemma HoldsMember(rows: seq<Dispatch>, id: string)
    ensures Holds(rows, id) <==> exists d :: d in rows && d.id == id
  {
    if k :| 0 <= k < |rows| && rows[k].id == id {
      assert rows[k] in rows;
    }
  }

  lemma PrunedSound(t: Tables, threshold: int)
    requires Outcomes(t)
    ensures Outcomes(PrunedTables(t, threshold))
  {
    var t' := PrunedTables(t, threshold);
    KeptRowsMembers(t.rows, threshold);
    forall k | 0 <= k < |t'.rows|
      ensures RowSound(t', t'.rows[k])
    {
      var d := t'.rows[k];
      assert d in t'.rows && d in t.rows && RowSound(t, d) && Holds(t'.rows, d.id);
    }
    forall i | 0 <= i < |t.events|
      ensures EventSound(t', i)
    {
      assert EventSound(t, i);
      PrunedEventSound(t, threshold, i);
    }
  }

  lemma PrunedEventSound(t: Tables, threshold: int, i: nat)
    requires i < |t.events| && EventSound(t, i)
    ensures EventSound(PrunedTables(t, threshold), i)
  {
    var id := t.events[i].dispatchId;
    KeptRowsMembers(t.rows, threshold);
    HoldsMember(t.rows, id);
    HoldsMember(KeptRows(t.rows, threshold), id);
  }

  lemma AdmittedSound(t: Tables, row: Dispatch)
    requires Outcomes(t) && row.status.Spawned? && !Holds(t.rows, row.id) && !Holds(t.log, row.id)
    ensures Outcomes(t.(rows := t.rows + [row], log := t.log + [row]))
  {
    var t' := t.(rows := t.rows + [row], log := t.log + [row]);
    HoldsSnoc(t.rows, row);
    HoldsSnoc(t.log, row);
    forall k | 0 <= k < |t'.rows|
      ensures RowSound(t', t'.rows[k])
      ensures k < |t.rows| ==> t'.rows[k].id != row.id
    {
      if k < |t.rows| {
        assert t'.rows[k] == t.rows[k] && RowSound(t, t.rows[k]);
      }
    }
    forall i | 0 <= i < |t.events|
      ensures EventSound(t', i)
    {
      assert EventSound(t, i);
    }
  }

  lemma HoldsSnoc(rows: seq<Dispatch>, d: Dispatch)
    ensures forall id :: Holds(rows + [d], id) <==> Holds(rows, id) || id == d.id
  {
    var after := rows + [d];
    forall id
      ensures Holds(after, id) <==> Holds(rows, id) || id == d.id
    {
      if k :| 0 <= k < |rows| && rows[k].id == id {
        assert after[k].id == id;
      }
      assert after[|rows|] == d;
    }
  }

  lemma ObservedSound(t: Tables, e: Event)
    requires Outcomes(t) && !e.terminal
    ensures Outcomes(t.(events := t.events + [e]))
  {
    var t' := t.(events := t.events + [e]);
    forall k | 0 <= k < |t.rows| ensures RowSound(t', t.rows[k]) { assert RowSound(t, t.rows[k]); }
    forall i | 0 <= i < |t'.events|
      ensures EventSound(t', i)
    {
      assert i < |t.events| ==> EventSound(t, i);
    }
  }

  lemma SupervisedSound(t: Tables, id: string)
    requires Outcomes(t)
    ensures Outcomes(t.(supervised := t.supervised + {id}))
  {
    var t' := t.(supervised := t.supervised + {id});
    forall k | 0 <= k < |t.rows| ensures RowSound(t', t.rows[k]) { assert RowSound(t, t.rows[k]); }
    forall i | 0 <= i < |t.events| ensures EventSound(t', i) { assert EventSound(t, i); }
  }

  lemma StepSound(t: Tables, kernel: Kernel, op: Op)
    requires Outcomes(t) && Enabled(t, kernel, op)
    ensures Outcomes(Apply(t, kernel, op))
  {
    match op
    case Admit(q, parent, id, now) => AdmittedSound(t, NewRow(q, ParentRow(t, parent), id, now));
    case Terminalize(k, outcome) => TerminalizedSound(t, k, outcome);
    case Rollback(run) => RolledBackSound(t, run, |t.rows|);
    case Identify(k) => WriteStatusSound(t, k, Running, NO_FIELDS);
    case SetStatus(k, status, fields) => WriteStatusSound(t, k, status, fields);
    case SetTokens(k, fields) => RowTouched(t, k, WithFields(t.rows[k], fields), Apply(t, kernel, op));
    case Prune(threshold) => PrunedSound(t, threshold);
    case Supervise(id) => SupervisedSound(t, id);
    case Observe(event) => ObservedSound(t, event);
  }

  lemma {:induction false} ReachableOutcomes(kernel: Kernel, ops: seq<Op>, states: seq<Tables>, i: nat)
    requires Run(kernel, ops, states) && i < |states|
    ensures Outcomes(states[i])
  {
    if i > 0 {
      ReachableOutcomes(kernel, ops, states, i - 1);
      assert StepAt(kernel, ops, states, i - 1);
      StepSound(states[i - 1], kernel, ops[i - 1]);
    }
  }

  // ---- What it means ----

  // A row is terminal exactly when it has a record; then exactly one terminal event
  // carries its id, and the record names that event.
  lemma ExactlyOnce(kernel: Kernel, ops: seq<Op>, states: seq<Tables>, i: nat, k: nat)
    requires Run(kernel, ops, states) && i < |states| && k < |states[i].rows|
    ensures var t, d := states[i], states[i].rows[k];
      && (IsTerminal(d.status) <==> d.id in t.records)
      && (d.id in t.records ==>
            && t.records[d.id].status == d.status
            && 1 <= t.records[d.id].eventId <= |t.events|
            && t.events[t.records[d.id].eventId - 1].toStatus == d.status)
      && (forall n :: 0 <= n < |t.events| && t.events[n].terminal && t.events[n].dispatchId == d.id <==>
            d.id in t.records && n == t.records[d.id].eventId - 1)
  {
    ReachableOutcomes(kernel, ops, states, i);
    var t, d := states[i], states[i].rows[k];
    assert RowSound(t, d) && Holds(t.rows, d.id);
    forall n | 0 <= n < |t.events| && t.events[n].terminal && t.events[n].dispatchId == d.id
      ensures d.id in t.records && n == t.records[d.id].eventId - 1
    {
      assert EventSound(t, n);
    }
  }

  // One step neither alters nor removes the outcome of a row it leaves in place.
  ghost predicate Preserves(t: Tables, t': Tables) {
    forall id :: id in t.records ==>
      (id in t'.records && t'.records[id] == t.records[id]) || (id !in t'.records && !Holds(t'.rows, id))
  }

  lemma {:induction false} RolledBackPreserves(t: Tables, run: string, n: nat)
    requires Keyed(t.rows) && n <= |t.rows|
    requires forall k :: 0 <= k < |t.rows| ==> !RollbackBlocked(t, k, run)
    ensures forall id :: id in t.records ==>
      id in RolledBack(t, run, n).records && RolledBack(t, run, n).records[id] == t.records[id]
  {
    if n > 0 {
      RolledBackPreserves(t, run, n - 1);
      RolledBackFrame(t, run, n - 1);
      assert !RollbackBlocked(t, n - 1, run);
    }
  }

  lemma StepPreserves(t: Tables, kernel: Kernel, op: Op)
    requires Outcomes(t) && Enabled(t, kernel, op)
    ensures Preserves(t, Apply(t, kernel, op))
  {
    match op
    case Rollback(run) => RolledBackPreserves(t, run, |t.rows|);
    case Prune(threshold) => PrunePreserves(t, threshold);
    case Terminalize(k, o) => TerminalizedPreserves(t, k, o);
    case Identify(k) => WriteStatusPreserves(t, k, Running, NO_FIELDS);
    case SetStatus(k, status, fields) => WriteStatusPreserves(t, k, status, fields);
    case _ =>
  }

  lemma TerminalizedPreserves(t: Tables, k: nat, o: Terminal)
    requires k < |t.rows| && t.rows[k].id !in t.records
    ensures Preserves(t, Terminalized(t, k, o))
  {
  }

  lemma WriteStatusPreserves(t: Tables, k: nat, status: Status, f: Fields)
    requires k < |t.rows|
    ensures Preserves(t, WriteStatus(t, k, status, f))
  {
  }

  lemma PrunePreserves(t: Tables, threshold: int)
    ensures Preserves(t, PrunedTables(t, threshold))
  {
  }

  lemma {:induction false} RecordNeverChanges(kernel: Kernel, ops: seq<Op>, states: seq<Tables>, i: nat, j: nat, id: string)
    requires Run(kernel, ops, states) && i <= j < |states|
    requires id in states[i].records && Holds(states[j].rows, id)
    ensures id in states[j].records && states[j].records[id] == states[i].records[id]
    decreases j
  {
    if i < j {
      RecordedInLog(kernel, ops, states, i, j - 1, id);
      LastStepKeepsRecord(kernel, ops, states, j, id);
      RecordNeverChanges(kernel, ops, states, i, j - 1, id);
    }
  }

  lemma LastStepKeepsRecord(kernel: Kernel, ops: seq<Op>, states: seq<Tables>, j: nat, id: string)
    requires Run(kernel, ops, states) && 0 < j < |states|
    requires Holds(states[j - 1].log, id) && Holds(states[j].rows, id)
    ensures Holds(states[j - 1].rows, id)
    ensures id in states[j - 1].records ==>
      id in states[j].records && states[j].records[id] == states[j - 1].records[id]
  {
    ReachableOutcomes(kernel, ops, states, j - 1);
    assert StepAt(kernel, ops, states, j - 1);
    StepPreserves(states[j - 1], kernel, ops[j - 1]);
    RowsOnlyFromBefore(states[j - 1], kernel, ops[j - 1], id);
  }

  // The first recorded outcome stands for as long as the dispatch is retained.
  lemma OutcomeNeverChanges(kernel: Kernel, ops: seq<Op>, states: seq<Tables>, i: nat, j: nat, id: string)
    requires Run(kernel, ops, states) && i <= j < |states|
    requires id in states[i].records && Holds(states[j].rows, id)
    ensures id in states[j].records && states[j].records[id] == states[i].records[id]
    ensures forall k :: 0 <= k < |states[j].rows| && states[j].rows[k].id == id ==>
      states[j].rows[k].status == states[i].records[id].status
  {
    RecordNeverChanges(kernel, ops, states, i, j, id);
    ReachableOutcomes(kernel, ops, states, j);
    assert forall k :: 0 <= k < |states[j].rows| ==> RowSound(states[j], states[j].rows[k]);
  }

  lemma RowsOnlyFromBefore(t: Tables, kernel: Kernel, op: Op, id: string)
    requires Outcomes(t) && Enabled(t, kernel, op) && Holds(Apply(t, kernel, op).rows, id)
    ensures Holds(t.rows, id) || !Holds(t.log, id)
    ensures forall x :: Holds(t.log, x) ==> Holds(Apply(t, kernel, op).log, x)
  {
    forall x | Holds(t.log, x)
      ensures Holds(Apply(t, kernel, op).log, x)
    {
      LogGrows(t, kernel, op, x);
    }
    if op.Admit? {
      HoldsSnoc(t.rows, NewRow(op.q, ParentRow(t, op.parent), op.id, op.now));
    } else {
      OthersAddNoRow(t, kernel, op, id);
    }
  }

  lemma OthersAddNoRow(t: Tables, kernel: Kernel, op: Op, id: string)
    requires Enabled(t, kernel, op) && !op.Admit? && Holds(Apply(t, kernel, op).rows, id)
    ensures Holds(t.rows, id)
  {
    match op
    case Rollback(run) => RolledBackIds(t, run, |t.rows|);
    case Prune(threshold) => PruneAddsNoRow(t, threshold, id);
    case Terminalize(k, o) => SameIds(t.rows, k, Terminalized(t, k, o).rows[k]);
    case Identify(k) => SameIds(t.rows, k, WriteStatus(t, k, Running, NO_FIELDS).rows[k]);
    case SetStatus(k, s, f) => SameIds(t.rows, k, WriteStatus(t, k, s, f).rows[k]);
    case SetTokens(k, f) => SameIds(t.rows, k, WithFields(t.rows[k], f));
    case _ =>
  }

  lemma PruneAddsNoRow(t: Tables, threshold: int, id: string)
    requires Holds(KeptRows(t.rows, threshold), id)
    ensures Holds(t.rows, id)
  {
    KeptRowsMembers(t.rows, threshold);
    HoldsMember(t.rows, id);
    HoldsMember(KeptRows(t.rows, threshold), id);
  }

  lemma {:induction false} RolledBackIds(t: Tables, run: string, n: nat)
    requires n <= |t.rows|
    ensures forall k :: 0 <= k < |t.rows| ==> SameBirth(RolledBack(t, run, n).rows[k], t.rows[k])
    ensures forall x :: Holds(RolledBack(t, run, n).rows, x) <==> Holds(t.rows, x)
  {
    if n > 0 {
      RolledBackIds(t, run, n - 1);
      RolledBackFrame(t, run, n - 1);
      var u := RolledBack(t, run, n - 1);
      SameIds(u.rows, n - 1, RolledBack(t, run, n).rows[n - 1]);
    }
  }

  // An id once recorded stays used: it is never given to another row.
  lemma {:induction false} RecordedInLog(kernel: Kernel, ops: seq<Op>, states: seq<Tables>, i: nat, j: nat, id: string)
    requires Run(kernel, ops, states) && i <= j < |states| && id in states[i].records
    ensures Holds(states[j].log, id)
    decreases j
  {
    ReachableOutcomes(kernel, ops, states, i);
    if i == j {
      var k :| 0 <= k < |states[i].rows| && states[i].rows[k].id == id;
      assert RowSound(states[i], states[i].rows[k]);
    } else {
      RecordedInLog(kernel, ops, states, i, j - 1, id);
      ReachableOutcomes(kernel, ops, states, j - 1);
      assert StepAt(kernel, ops, states, j - 1);
      LogGrows(states[j - 1], kernel, ops[j - 1], id);
    }
  }

  lemma LogGrows(t: Tables, kernel: Kernel, op: Op, id: string)
    requires Outcomes(t) && Enabled(t, kernel, op) && Holds(t.log, id)
    ensures Holds(Apply(t, kernel, op).log, id)
  {
    match op
    case Admit(q, parent, x, now) => HoldsSnoc(t.log, NewRow(q, ParentRow(t, parent), x, now));
    case Rollback(run) => RolledBackFrame(t, run, |t.rows|);
    case _ =>
  }

  // A record written while its dispatch is supervised is the work of one Terminalize, whose
  // caller is a supervisor, reconciliation or the spool; the record names that caller.
  lemma SupervisedOutcomes(t: Tables, kernel: Kernel, op: Op, id: string)
    requires Outcomes(t) && Enabled(t, kernel, op) && id in t.supervised
    requires id in Apply(t, kernel, op).records && id !in t.records
    ensures op.Terminalize? && t.rows[op.k].id == id
    ensures op.outcome.source == Supervisor || op.outcome.source == Reconcile || op.outcome.source == Spool
    ensures Apply(t, kernel, op).records[id].source == op.outcome.source
  {
    match op
    case Rollback(run) => RolledBackSparesSupervised(t, run, |t.rows|, id);
    case _ =>
  }

  lemma {:induction false} RolledBackSparesSupervised(t: Tables, run: string, n: nat, id: string)
    requires n <= |t.rows| && id in t.supervised && id !in t.records
    ensures id !in RolledBack(t, run, n).records
  {
    if n > 0 {
      RolledBackSparesSupervised(t, run, n - 1, id);
      RolledBackFrame(t, run, n - 1);
    }
  }

  // A finished row keeps its outcome, and one of a flere agent all its columns: its tokens
  // are not updated any more.
  lemma FinishedRowStays(t: Tables, kernel: Kernel, op: Op, k: nat)
    requires Enabled(t, kernel, op) && k < |t.rows| && !Live(t.rows[k].status)
    requires op.Prune? ==> t.rows[k].createdAt >= op.threshold
    ensures exists d :: d in Apply(t, kernel, op).rows && SameBirth(d, t.rows[k]) && d.status == t.rows[k].status
                        && (t.rows[k].agentType == "flere" ==> d == t.rows[k])
  {
    var after := Apply(t, kernel, op).rows;
    match op
    case Rollback(run) =>
      RollbackRows(t, run, |t.rows|);
      assert after[k] == t.rows[k];
    case Prune(threshold) =>
      KeptRowsMembers(t.rows, threshold);
      assert t.rows[k] in t.rows;
    case _ =>
      assert after[k] in after && SameBirth(after[k], t.rows[k]);
  }

  // ---- A committed rollback ----

  ghost function CancelledRows(t: Tables, run: string, n: nat): set<int>
    requires n <= |t.rows|
  {
    set k | 0 <= k < n && t.rows[k].scope == Some(run) && Live(t.rows[k].status) && t.rows[k].id !in t.supervised
  }

  ghost function WarnedRows(t: Tables, run: string, n: nat): set<int>
    requires n <= |t.rows|
  {
    set k | 0 <= k < n && t.rows[k].scope == Some(run) && Live(t.rows[k].status) && t.rows[k].id in t.supervised
  }

  // The run_rollback intents a rollback adds for one dispatch.
  ghost function IntentsFor(intents: seq<Intent>, id: string): nat {
    |IntentRows(intents, id)|
  }

  ghost function IntentRows(intents: seq<Intent>, id: string): set<int> {
    set i | 0 <= i < |intents| && intents[i].dispatchId == id
  }

  lemma {:induction false} RollbackRows(t: Tables, run: string, n: nat)
    requires n <= |t.rows|
    ensures forall k :: 0 <= k < |t.rows| ==>
      RolledBack(t, run, n).rows[k] ==
        (if k < n && RollbackCandidate(t.rows[k], run) && t.rows[k].id !in t.supervised
         then t.rows[k].(status := Cancelled) else t.rows[k])
  {
    if n > 0 {
      RollbackRows(t, run, n - 1);
      RolledBackFrame(t, run, n - 1);
      RollbackStepRows(RolledBack(t, run, n - 1), n - 1, run);
    }
  }

  lemma RollbackStepRows(t: Tables, k: nat, run: string)
    requires k < |t.rows|
    ensures RollbackStep(t, k, run).rows ==
            if RollbackCandidate(t.rows[k], run) && t.rows[k].id !in t.supervised
            then t.rows[k := t.rows[k].(status := Cancelled)] else t.rows
  {
  }

  lemma SetsNext(t: Tables, run: string, n: nat)
    requires 0 < n <= |t.rows|
    ensures var c, s := RollbackCandidate(t.rows[n - 1], run), t.rows[n - 1].id in t.supervised;
      && |CancelledRows(t, run, n)| == |CancelledRows(t, run, n - 1)| + (if c && !s then 1 else 0)
      && |WarnedRows(t, run, n)| == |WarnedRows(t, run, n - 1)| + (if c && s then 1 else 0)
  {
    CancelledNext(t, run, n);
    WarnedNext(t, run, n);
  }

  lemma CancelledNext(t: Tables, run: string, n: nat)
    requires 0 < n <= |t.rows|
    ensures |CancelledRows(t, run, n)| == |CancelledRows(t, run, n - 1)| +
            if RollbackCandidate(t.rows[n - 1], run) && t.rows[n - 1].id !in t.supervised then 1 else 0
  {
    var was := CancelledRows(t, run, n - 1);
    assert CancelledRows(t, run, n) ==
           if RollbackCandidate(t.rows[n - 1], run) && t.rows[n - 1].id !in t.supervised then was + {n - 1} else was;
  }

  lemma WarnedNext(t: Tables, run: string, n: nat)
    requires 0 < n <= |t.rows|
    ensures |WarnedRows(t, run, n)| == |WarnedRows(t, run, n - 1)| +
            if RollbackCandidate(t.rows[n - 1], run) && t.rows[n - 1].id in t.supervised then 1 else 0
  {
    var was := WarnedRows(t, run, n - 1);
    assert WarnedRows(t, run, n) ==
           if RollbackCandidate(t.rows[n - 1], run) && t.rows[n - 1].id in t.supervised then was + {n - 1} else was;
  }

  // The new event and intent rows are as many as the dispatches they are about.
  lemma {:induction false} RollbackCounts(t: Tables, run: string, n: nat)
    requires n <= |t.rows|
    ensures |RolledBack(t, run, n).events| == |t.events| + |CancelledRows(t, run, n)|
    ensures |RolledBack(t, run, n).intents| == |t.intents| + |WarnedRows(t, run, n)|
  {
    if n > 0 {
      RollbackCounts(t, run, n - 1);
      RolledBackFrame(t, run, n - 1);
      var u := RolledBack(t, run, n - 1);
      RollbackStepCounts(u, n - 1, run);
      SetsNext(t, run, n);
    }
  }

  lemma RollbackStepCounts(t: Tables, k: nat, run: string)
    requires k < |t.rows|
    ensures var c, s, v := RollbackCandidate(t.rows[k], run), t.rows[k].id in t.supervised, RollbackStep(t, k, run);
      && |v.events| == |t.events| + (if c && !s then 1 else 0)
      && v.intents == t.intents + (if c && s then [RollbackIntent(t.rows[k].id, run)] else [])
  {
    assert t.intents + [] == t.intents;
  }

  // The intents of the first n rows' turns.
  function Warnings(t: Tables, run: string, n: nat): seq<Intent>
    requires n <= |t.rows|
  {
    if n == 0 then []
    else
      var d := t.rows[n - 1];
      Warnings(t, run, n - 1) +
      if RollbackCandidate(d, run) && d.id in t.supervised then [RollbackIntent(d.id, run)] else []
  }

  lemma RollbackStepWarns(t: Tables, u: Tables, run: string, n: nat)
    requires 0 < n <= |t.rows| && |u.rows| == |t.rows| && u.rows[n - 1] == t.rows[n - 1] && u.supervised == t.supervised
    requires u.intents == t.intents + Warnings(t, run, n - 1)
    ensures RollbackStep(u, n - 1, run).intents == t.intents + Warnings(t, run, n)
  {
    RollbackStepCounts(u, n - 1, run);
  }

  lemma {:induction false} RollbackAddsWarnings(t: Tables, run: string, n: nat)
    requires n <= |t.rows|
    ensures RolledBack(t, run, n).intents == t.intents + Warnings(t, run, n)
  {
    if n > 0 {
      RollbackAddsWarnings(t, run, n - 1);
      RolledBackFrame(t, run, n - 1);
      RollbackStepWarns(t, RolledBack(t, run, n - 1), run, n);
    }
  }

  lemma IntentsSnoc(intents: seq<Intent>, i: Intent, id: string)
    ensures IntentsFor(intents + [i], id) == IntentsFor(intents, id) + if i.dispatchId == id then 1 else 0
  {
    var rows := IntentRows(intents, id);
    assert IntentRows(intents + [i], id) == if i.dispatchId == id then rows + {|intents|} else rows;
  }

  lemma {:induction false} IntentsConcat(a: seq<Intent>, b: seq<Intent>, id: string)
    ensures IntentsFor(a + b, id) == IntentsFor(a, id) + IntentsFor(b, id)
  {
    if b == [] {
      assert a + b == a && IntentRows(b, id) == {};
    } else {
      var init, last := b[..|b| - 1], b[|b| - 1];
      assert a + b == (a + init) + [last] && b == init + [last];
      IntentsSnoc(a + init, last, id);
      IntentsSnoc(init, last, id);
      IntentsConcat(a, init, id);
    }
  }

  lemma WarningsNext(t: Tables, run: string, n: nat, id: string)
    requires 0 < n <= |t.rows|
    ensures var d := t.rows[n - 1];
      IntentsFor(Warnings(t, run, n), id) == IntentsFor(Warnings(t, run, n - 1), id) +
      if RollbackCandidate(d, run) && d.id in t.supervised && d.id == id then 1 else 0
  {
    var before := Warnings(t, run, n - 1);
    IntentsSnoc(before, RollbackIntent(t.rows[n - 1].id, run), id);
    assert before + [] == before;
  }

  lemma {:induction false} WarnedOnce(t: Tables, run: string, n: nat, k: nat)
    requires Keyed(t.rows) && n <= |t.rows| && k < |t.rows|
    ensures IntentsFor(Warnings(t, run, n), t.rows[k].id) ==
            if k < n && RollbackCandidate(t.rows[k], run) && t.rows[k].id in t.supervised then 1 else 0
  {
    if n > 0 {
      WarnedOnce(t, run, n - 1, k);
      assert k != n - 1 ==> t.rows[k].id != t.rows[n - 1].id;
      WarningsNext(t, run, n, t.rows[k].id);
    } else {
      assert IntentRows(Warnings(t, run, 0), t.rows[k].id) == {};
    }
  }

  lemma RollbackIntents(t: Tables, run: string, n: nat, k: nat)
    requires Keyed(t.rows) && n <= |t.rows| && k < |t.rows|
    ensures IntentsFor(RolledBack(t, run, n).intents, t.rows[k].id) ==
            IntentsFor(t.intents, t.rows[k].id) +
            if k < n && RollbackCandidate(t.rows[k], run) && t.rows[k].id in t.supervised then 1 else 0
  {
    RollbackAddsWarnings(t, run, n);
    IntentsConcat(t.intents, Warnings(t, run, n), t.rows[k].id);
    WarnedOnce(t, run, n, k);
  }

  // What a rollback records of the rows that had their turn: a cancellation in its own name,
  // with the event that backs it.
  ghost predicate CancelRecorded(t: Tables, u: Tables, run: string, k: nat)
    requires k < |t.rows|
  {
    var d := t.rows[k];
    && d.id in u.records
    && var r := u.records[d.id];
    && r == Record(run, d.retryCount, d.parent, Cancelled, d.status, CancelByRun, NotApplicable, "", r.eventId)
    && |t.events| < r.eventId <= |u.events|
    && u.events[r.eventId - 1] == Event(d.id, run, d.status, Cancelled, true, "run " + run + " rolled back")
  }

  ghost predicate RecordTurn(t: Tables, u: Tables, run: string, n: nat, k: nat)
    requires k < |t.rows| && n <= |t.rows|
  {
    if k in CancelledRows(t, run, n) then CancelRecorded(t, u, run, k)
    else t.rows[k].id in u.records <==> t.rows[k].id in t.records
  }

  lemma {:induction false} RollbackRecords(t: Tables, run: string, n: nat, k: nat)
    requires Keyed(t.rows) && n <= |t.rows| && k < |t.rows|
    ensures RecordTurn(t, RolledBack(t, run, n), run, n, k)
    ensures |t.events| <= |RolledBack(t, run, n).events|
  {
    if n > 0 {
      RollbackRecords(t, run, n - 1, k);
      RolledBackFrame(t, run, n - 1);
      assert k != n - 1 ==> t.rows[k].id != t.rows[n - 1].id;
      RecordStep(t, RolledBack(t, run, n - 1), run, n, k);
    }
  }

  lemma RecordStep(t: Tables, u: Tables, run: string, n: nat, k: nat)
    requires 0 < n <= |t.rows| && k < |t.rows| && |u.rows| == |t.rows| && u.rows[n - 1] == t.rows[n - 1] && u.supervised == t.supervised
    requires k != n - 1 ==> t.rows[k].id != t.rows[n - 1].id
    requires RecordTurn(t, u, run, n - 1, k) && |t.events| <= |u.events|
    ensures RecordTurn(t, RollbackStep(u, n - 1, run), run, n, k)
    ensures |t.events| <= |RollbackStep(u, n - 1, run).events|
  {
  }

  lemma {:induction false} WarningsSay(t: Tables, run: string, n: nat)
    requires n <= |t.rows|
    ensures forall i :: 0 <= i < |Warnings(t, run, n)| ==> Warnings(t, run, n)[i].reason == "run " + run + " rolled back"
  {
    if n > 0 {
      WarningsSay(t, run, n - 1);
    }
  }

  // What a rollback puts into the tables: every cancelled row has its record, and every new
  // intent gives the reason.
  lemma RollbackSays(t: Tables, run: string, k: nat)
    requires Keyed(t.rows) && k < |t.rows|
    ensures var u := RolledBack(t, run, |t.rows|);
      && RecordTurn(t, u, run, |t.rows|, k)
      && |t.intents| <= |u.intents| && u.intents[..|t.intents|] == t.intents
      && forall i :: |t.intents| <= i < |u.intents| ==> u.intents[i].reason == "run " + run + " rolled back"
  {
    RollbackRecords(t, run, |t.rows|, k);
    RollbackAddsWarnings(t, run, |t.rows|);
    WarningsSay(t, run, |t.rows|);
  }

  // A committed rollback: every unsupervised dispatch of the run is cancelled, each
  // supervised live one gains exactly one intent, nothing else changes, and all of the
  // run's remaining live dispatches are supervised.
  lemma RollbackEffect(t: Tables, run: string)
    requires Outcomes(t)
    ensures var u, n := RolledBack(t, run, |t.rows|), |t.rows|;
      && Outcomes(u)
      && |u.events| == |t.events| + |CancelledRows(t, run, n)|
      && |u.intents| == |t.intents| + |WarnedRows(t, run, n)|
      && u.supervised == t.supervised && |u.rows| == n
      && forall k {:trigger RollbackTurn(t, u, run, k)} :: 0 <= k < n ==> RollbackTurn(t, u, run, k)
  {
    var n := |t.rows|;
    RolledBackSound(t, run, n);
    RolledBackFrame(t, run, n);
    RollbackCounts(t, run, n);
    forall k | 0 <= k < n
      ensures RollbackTurn(t, RolledBack(t, run, n), run, k)
    {
      RollbackTurns(t, run, k);
    }
  }

  // One row: cancelled, or warned by one intent, or as it was.
  ghost predicate RollbackTurn(t: Tables, u: Tables, run: string, k: nat)
    requires k < |t.rows| == |u.rows|
  {
    var n, d := |t.rows|, t.rows[k];
    && u.rows[k] == (if k in CancelledRows(t, run, n) then d.(status := Cancelled) else d)
    && IntentsFor(u.intents, d.id) == IntentsFor(t.intents, d.id) + (if k in WarnedRows(t, run, n) then 1 else 0)
    && (u.rows[k].scope == Some(run) && Live(u.rows[k].status) ==> u.rows[k].id in u.supervised)
  }

  lemma RollbackTurns(t: Tables, run: string, k: nat)
    requires Keyed(t.rows) && k < |t.rows|
    ensures RollbackTurn(t, RolledBack(t, run, |t.rows|), run, k)
  {
    RolledBackFrame(t, run, |t.rows|);
    RollbackRows(t, run, |t.rows|);
    RollbackIntents(t, run, |t.rows|, k);
  }
}

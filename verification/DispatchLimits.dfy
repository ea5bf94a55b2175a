// What atomic admission guarantees over whole runs: caps, and a forest of parents.
module DispatchLimits {
  import opened Basics
  import opened DispatchModel
  import opened DispatchOutcomes

  // ---- Tightening ----

  // With nothing negative, tightening is the minimum in which zero is no limit.
  lemma TightenIsMinimum(target: int, stored: int)
    requires target >= 0 && stored >= 0
    ensures var r := Tighten(target, stored);
      && (r == 0 <==> target == 0 && stored == 0)
      && (target > 0 ==> 0 < r <= target) && (stored > 0 ==> 0 < r <= stored)
      && (r == target || r == stored)
  {
  }

  // Whatever a caller asks for, a row it gets admitted also obeys the stored limits.
  lemma CallerOnlyTightens(rows: seq<Dispatch>, kernel: Kernel, q: Request, parent: Option<Dispatch>)
    requires NonNegative(q.policy) && MayAdmit(rows, kernel, q, parent)
    ensures MayAdmit(rows, kernel, q.(policy := NO_POLICY), parent)
    ensures var row := NewRow(q, parent, "", 0);
            WithinCounts(rows, q.policy, RunIdOf(row), row.depth)
  {
    var row := NewRow(q, parent, "", 0);
    var scope := RunIdOf(row);
    assert row == NewRow(q.(policy := NO_POLICY), parent, "", 0);
    var p, p0 := Effective(q.policy, kernel, scope), Effective(NO_POLICY, kernel, scope);
    assert WithinCounts(rows, p, scope, row.depth);
    assert WithinCounts(rows, p0, scope, row.depth);
    assert WithinBudget(rows, p0, kernel, scope);
  }

  // ---- Counting ----

  function Bit(b: bool): nat { if b then 1 else 0 }

  lemma CountSnoc(rows: seq<Dispatch>, d: Dispatch, w: Which)
    ensures Count(rows + [d], w) == Count(rows, w) + Bit(Selects(w, d))
  {
    assert (rows + [d])[..|rows|] == rows;
  }

  lemma {:induction false} CountUpdate(rows: seq<Dispatch>, k: nat, d: Dispatch, w: Which)
    requires k < |rows|
    ensures Count(rows[k := d], w) == Count(rows, w) + Bit(Selects(w, d)) - Bit(Selects(w, rows[k]))
  {
    var n := |rows| - 1;
    if k == n {
      assert rows[k := d][..n] == rows[..n];
    } else {
      assert rows[k := d][..n] == rows[..n][k := d];
      CountUpdate(rows[..n], k, d, w);
    }
  }

  lemma {:induction false} CountKept(rows: seq<Dispatch>, threshold: int, w: Which)
    ensures Count(KeptRows(rows, threshold), w) <= Count(rows, w)
    ensures w.ActiveAll? || w.ActiveIn? ==> Count(KeptRows(rows, threshold), w) == Count(rows, w)
  {
    if rows != [] {
      var front, last := rows[..|rows| - 1], rows[|rows| - 1];
      CountKept(front, threshold, w);
      var kept := KeptRows(front, threshold);
      CountSnoc(kept, last, w);
      assert kept + [] == kept;
    }
  }

  // A pointwise change that deselects at most keeps the count down.
  lemma {:induction false} CountPointwise(rows: seq<Dispatch>, after: seq<Dispatch>, w: Which)
    requires |rows| == |after|
    requires forall k :: 0 <= k < |rows| ==> Selects(w, after[k]) ==> Selects(w, rows[k])
    ensures Count(after, w) <= Count(rows, w)
  {
    if rows != [] {
      CountPointwise(rows[..|rows| - 1], after[..|after| - 1], w);
    }
  }

  // ---- Caps ----

  // The limits on the rows of a run and on depth.
  predicate WithinStatic(t: Tables, kernel: Kernel) {
    && (forall run :: run != "" && run in kernel.runs && kernel.runs[run].maxAgents > 0 ==>
          Count(t.rows, AllIn(run)) <= kernel.runs[run].maxAgents)
    && (StoredValue(kernel.maxDepth) > 0 ==> forall k :: 0 <= k < |t.rows| ==> t.rows[k].depth <= kernel.maxDepth.n)
  }

  // The limit on active rows.
  predicate WithinGlobal(t: Tables, kernel: Kernel) {
    StoredValue(kernel.globalMax) > 0 ==> Count(t.rows, ActiveAll) <= kernel.globalMax.n
  }

  // A status write that wakes a row from an unknown status.
  predicate Reactivates(t: Tables, op: Op) {
    op.SetStatus? && op.k < |t.rows| && t.rows[op.k].status.Other? && IsActive(op.status)
  }

  // ... when the active rows are as many as the limit allows.
  predicate BreaksCap(t: Tables, kernel: Kernel, op: Op) {
    Reactivates(t, op) && StoredValue(kernel.globalMax) > 0 && Count(t.rows, ActiveAll) >= kernel.globalMax.n
  }

  // What admission checked of the row it inserts.
  lemma AdmittedWithinCounts(t: Tables, kernel: Kernel, op: Op)
    requires op.Admit? && Enabled(t, kernel, op)
    ensures var row := NewRow(op.q, ParentRow(t, op.parent), op.id, op.now);
            WithinCounts(t.rows, Effective(op.q.policy, kernel, RunIdOf(row)), RunIdOf(row), row.depth)
  {
    var row := NewRow(op.q, ParentRow(t, op.parent), op.id, op.now);
    assert RunIdOf(row) == RunIdOf(NewRow(op.q, ParentRow(t, op.parent), "", 0));
  }

  lemma AdmitWithinGlobal(t: Tables, kernel: Kernel, op: Op)
    requires op.Admit? && Enabled(t, kernel, op)
    ensures WithinGlobal(Apply(t, kernel, op), kernel)
  {
    AdmittedWithinCounts(t, kernel, op);
    CountSnoc(t.rows, NewRow(op.q, ParentRow(t, op.parent), op.id, op.now), ActiveAll);
  }

  lemma AdmitWithinStatic(t: Tables, kernel: Kernel, op: Op)
    requires op.Admit? && Enabled(t, kernel, op) && WithinStatic(t, kernel)
    ensures WithinStatic(Apply(t, kernel, op), kernel)
  {
    var row := NewRow(op.q, ParentRow(t, op.parent), op.id, op.now);
    AdmittedWithinCounts(t, kernel, op);
    forall run
      ensures Count(t.rows + [row], AllIn(run)) == Count(t.rows, AllIn(run)) + Bit(row.scope == Some(run))
    {
      CountSnoc(t.rows, row, AllIn(run));
    }
  }

  // Rows whose scope and depth stay.
  lemma SameScopesWithinStatic(t: Tables, t': Tables, kernel: Kernel)
    requires WithinStatic(t, kernel) && |t'.rows| == |t.rows|
    requires forall k :: 0 <= k < |t'.rows| ==> t'.rows[k].scope == t.rows[k].scope && t'.rows[k].depth == t.rows[k].depth
    ensures WithinStatic(t', kernel)
  {
    forall run
      ensures Count(t'.rows, AllIn(run)) <= Count(t.rows, AllIn(run))
    {
      CountPointwise(t.rows, t'.rows, AllIn(run));
    }
  }

  lemma PruneWithinStatic(t: Tables, threshold: int, kernel: Kernel)
    requires WithinStatic(t, kernel)
    ensures WithinStatic(PrunedTables(t, threshold), kernel)
  {
    var kept := KeptRows(t.rows, threshold);
    KeptRowsMembers(t.rows, threshold);
    forall run
      ensures Count(kept, AllIn(run)) <= Count(t.rows, AllIn(run))
    {
      CountKept(t.rows, threshold, AllIn(run));
    }
    forall k | 0 <= k < |kept|
      ensures kept[k] in t.rows
    {
      assert kept[k] in kept;
    }
  }

  lemma StepWithinStatic(t: Tables, kernel: Kernel, op: Op)
    requires Enabled(t, kernel, op) && WithinStatic(t, kernel)
    ensures WithinStatic(Apply(t, kernel, op), kernel)
  {
    match op
    case Admit(_, _, _, _) => AdmitWithinStatic(t, kernel, op);
    case Prune(threshold) => PruneWithinStatic(t, threshold, kernel);
    case Rollback(run) =>
      RollbackRows(t, run, |t.rows|);
      SameScopesWithinStatic(t, Apply(t, kernel, op), kernel);
    case _ => SameScopesWithinStatic(t, Apply(t, kernel, op), kernel);
  }

  // No transaction passes the limit on active rows but a reactivation at the limit.
  lemma StepWithinGlobal(t: Tables, kernel: Kernel, op: Op)
    requires Enabled(t, kernel, op) && WithinGlobal(t, kernel)
    ensures WithinGlobal(Apply(t, kernel, op), kernel) <==> !BreaksCap(t, kernel, op)
  {
    match op
    case Admit(_, _, _, _) => AdmitWithinGlobal(t, kernel, op);
    case Prune(threshold) => CountKept(t.rows, threshold, ActiveAll);
    case Rollback(run) =>
      RollbackRows(t, run, |t.rows|);
      CountPointwise(t.rows, Apply(t, kernel, op).rows, ActiveAll);
    case SetStatus(k, status, fields) =>
      CountUpdate(t.rows, k, WithFields(t.rows[k], fields).(status := status), ActiveAll);
    case Terminalize(k, o) => CountUpdate(t.rows, k, Apply(t, kernel, op).rows[k], ActiveAll);
    case Identify(k) => CountUpdate(t.rows, k, Apply(t, kernel, op).rows[k], ActiveAll);
    case SetTokens(k, fields) => CountUpdate(t.rows, k, Apply(t, kernel, op).rows[k], ActiveAll);
    case _ =>
  }

  // Under fixed stored limits no run exceeds them on a run's rows or on depth, whatever
  // the callers ask for and whatever statuses they write.
  lemma {:induction false} ReachableWithinStatic(kernel: Kernel, ops: seq<Op>, states: seq<Tables>, i: nat)
    requires Run(kernel, ops, states) && i < |states|
    ensures WithinStatic(states[i], kernel)
  {
    if i > 0 {
      ReachableWithinStatic(kernel, ops, states, i - 1);
      assert StepAt(kernel, ops, states, i - 1);
      StepWithinStatic(states[i - 1], kernel, ops[i - 1]);
    }
  }

  // The limit on active rows holds throughout a run exactly when no row is woken from an
  // unknown status at a moment when the limit is reached.
  lemma {:induction false} ReachableWithinGlobal(kernel: Kernel, ops: seq<Op>, states: seq<Tables>, n: nat)
    requires Run(kernel, ops, states) && n < |states|
    ensures (forall i :: 0 <= i <= n ==> WithinGlobal(states[i], kernel)) <==>
            (forall k :: 0 <= k < n ==> !BreaksCap(states[k], kernel, ops[k]))
  {
    if n > 0 {
      ReachableWithinGlobal(kernel, ops, states, n - 1);
      assert StepAt(kernel, ops, states, n - 1);
      if WithinGlobal(states[n - 1], kernel) {
        StepWithinGlobal(states[n - 1], kernel, ops[n - 1]);
      }
    }
  }

  // So it holds when every status written is one of the six known ones.
  lemma KnownStatusesKeepTheCap(kernel: Kernel, ops: seq<Op>, states: seq<Tables>, n: nat)
    requires Run(kernel, ops, states) && n < |states|
    requires forall k :: 0 <= k < n ==> KnownStatus(ops[k])
    ensures WithinGlobal(states[n], kernel)
  {
    forall k | 0 <= k < n
      ensures !BreaksCap(states[k], kernel, ops[k])
    {
      ReachableKnown(kernel, ops, states, k);
    }
    ReachableWithinGlobal(kernel, ops, states, n);
  }

  predicate KnownStatus(op: Op) {
    op.SetStatus? ==> !op.status.Other?
  }

  lemma {:induction false} ReachableKnown(kernel: Kernel, ops: seq<Op>, states: seq<Tables>, i: nat)
    requires Run(kernel, ops, states) && i < |states|
    requires forall k :: 0 <= k < i ==> KnownStatus(ops[k])
    ensures forall k :: 0 <= k < |states[i].rows| ==> !states[i].rows[k].status.Other?
  {
    if i > 0 {
      ReachableKnown(kernel, ops, states, i - 1);
      assert StepAt(kernel, ops, states, i - 1);
      StepKnown(states[i - 1], kernel, ops[i - 1]);
    }
  }

  lemma StepKnown(t: Tables, kernel: Kernel, op: Op)
    requires Enabled(t, kernel, op) && KnownStatus(op)
    requires forall k :: 0 <= k < |t.rows| ==> !t.rows[k].status.Other?
    ensures forall k :: 0 <= k < |Apply(t, kernel, op).rows| ==> !Apply(t, kernel, op).rows[k].status.Other?
  {
    match op
    case Prune(threshold) =>
      KeptRowsMembers(t.rows, threshold);
      assert forall k :: 0 <= k < |KeptRows(t.rows, threshold)| ==> KeptRows(t.rows, threshold)[k] in t.rows;
    case Rollback(run) => RollbackRows(t, run, |t.rows|);
    case _ =>
  }

  // UpdateStatus takes any text. The number of active rows rises exactly when a row
  // comes back from a status that is neither active nor terminal.
  lemma StatusWriteRaisesActive(t: Tables, k: nat, status: Status, f: Fields)
    requires k < |t.rows| && !IsTerminal(t.rows[k].status)
    ensures Count(WriteStatus(t, k, status, f).rows, ActiveAll) > Count(t.rows, ActiveAll) <==>
            t.rows[k].status.Other? && IsActive(status)
  {
    CountUpdate(t.rows, k, WithFields(t.rows[k], f).(status := status), ActiveAll);
  }

  const CAP_ONE: Kernel := Kernel(Limit(1), Absent, map[])
  const PLAIN: Request := Request(None, "", "", false, "codex", 0, NO_POLICY)

  function PlainRow(id: string, status: Status): Dispatch {
    NewRow(PLAIN, None, id, 0).(status := status)
  }

  function PlainTables(rows: seq<Dispatch>): Tables {
    EMPTY.(rows := rows, log := seq(|rows|, i requires 0 <= i < |rows| => rows[i].(status := Spawned)))
  }

  // Under a global limit of one, the transaction commits and leads from rows to rows.
  predicate Leads(rows: seq<Dispatch>, op: Op, after: seq<Dispatch>) {
    Enabled(PlainTables(rows), CAP_ONE, op) && Apply(PlainTables(rows), CAP_ONE, op) == PlainTables(after)
  }

  lemma PlainAdmission(rows: seq<Dispatch>, id: string, after: seq<Dispatch>)
    requires Count(rows, ActiveAll) == 0 && id != "" && !Holds(rows, id)
    requires after == rows + [PlainRow(id, Spawned)]
    ensures Leads(rows, Admit(PLAIN, None, id, 0), after)
  {
    var t := PlainTables(rows);
    assert forall k :: 0 <= k < |rows| ==> t.log[k].id == rows[k].id;
    assert PlainTables(after).log == t.log + [PlainRow(id, Spawned)];
  }

  lemma PlainStatus(rows: seq<Dispatch>, status: Status, after: seq<Dispatch>)
    requires rows != [] && !IsTerminal(rows[0].status) && !IsTerminal(status)
    requires after == rows[0 := rows[0].(status := status)]
    ensures Leads(rows, SetStatus(0, status, NO_FIELDS), after)
  {
    assert PlainTables(after).log == PlainTables(rows).log;
  }

  // So with such a status the global limit can be passed. Admit a, park it under an
  // unknown status, admit b, set a running: two rows are active under a limit of one.
  lemma UnknownStatusDefeatsTheCap(a: string, b: string, name: string)
    requires a != "" && b != "" && a != b
    ensures var r1, r2 := [PlainRow(a, Spawned)], [PlainRow(a, Other(name))];
            var r3, r4 := r2 + [PlainRow(b, Spawned)], [PlainRow(a, Running), PlainRow(b, Spawned)];
      && PlainTables([]) == EMPTY
      && Leads([], Admit(PLAIN, None, a, 0), r1)
      && Leads(r1, SetStatus(0, Other(name), NO_FIELDS), r2)
      && Leads(r2, Admit(PLAIN, None, b, 0), r3)
      && Leads(r3, SetStatus(0, Running, NO_FIELDS), r4)
      && Count(r4, ActiveAll) == 2
  {
    var r1, r2 := [PlainRow(a, Spawned)], [PlainRow(a, Other(name))];
    var r3, r4 := r2 + [PlainRow(b, Spawned)], [PlainRow(a, Running), PlainRow(b, Spawned)];
    PlainAdmission([], a, r1);
    PlainStatus(r1, Other(name), r2);
    PlainAdmission(r2, b, r3);
    PlainStatus(r3, Running, r4);
    CountSnoc([], PlainRow(a, Running), ActiveAll);
    CountSnoc([PlainRow(a, Running)], PlainRow(b, Spawned), ActiveAll);
    assert [] + [PlainRow(a, Running)] == [PlainRow(a, Running)];
    assert [PlainRow(a, Running)] + [PlainRow(b, Spawned)] == r4;
  }

  // ---- The forest of parents ----

  // c was admitted under p.
  predicate ChildOf(c: Dispatch, p: Dispatch) {
    && c.parent == p.id
    && c.depth == p.depth + (if c.viaRetry then 0 else 1)
    && (Scoped(p.scope) ==> c.scope == p.scope)
  }

  // A root, or the child of an earlier row.
  predicate Rooted(log: seq<Dispatch>, j: nat)
    requires j < |log|
  {
    if log[j].parent == "" then log[j].depth == 0
    else exists i :: 0 <= i < j && ChildOf(log[j], log[i])
  }

  predicate Forest(t: Tables) {
    && Keyed(t.log) && Keyed(t.rows)
    && (forall j :: 0 <= j < |t.log| ==> t.log[j].id != "")
    && (forall j {:trigger Rooted(t.log, j)} :: 0 <= j < |t.log| ==> Rooted(t.log, j))
    && (forall k {:trigger BornIn(t.log, t.rows[k])} :: 0 <= k < |t.rows| ==> BornIn(t.log, t.rows[k]))
  }

  predicate BornIn(log: seq<Dispatch>, d: Dispatch) {
    exists j :: 0 <= j < |log| && SameBirth(d, log[j])
  }

  lemma AdmitKeepsForest(t: Tables, kernel: Kernel, op: Op)
    requires op.Admit? && Enabled(t, kernel, op) && Forest(t)
    ensures Forest(Apply(t, kernel, op))
  {
    var row := NewRow(op.q, ParentRow(t, op.parent), op.id, op.now);
    var log, rows := t.log + [row], t.rows + [row];
    forall j | 0 <= j < |log|
      ensures log[j].id != "" && Rooted(log, j)
    {
      if j < |t.log| {
        assert log[j] == t.log[j] && Rooted(t.log, j);
        if log[j].parent != "" {
          var i :| 0 <= i < j && ChildOf(t.log[j], t.log[i]);
          assert ChildOf(log[j], log[i]);
        }
      } else if row.parent != "" {
        var p := t.rows[op.parent.value];
        assert BornIn(t.log, p);
        var i :| 0 <= i < |t.log| && SameBirth(p, t.log[i]);
        assert ChildOf(log[j], log[i]);
      }
    }
    forall k | 0 <= k < |rows|
      ensures BornIn(log, rows[k])
    {
      if k < |t.rows| {
        assert rows[k] == t.rows[k] && BornIn(t.log, t.rows[k]);
        var j :| 0 <= j < |t.log| && SameBirth(rows[k], t.log[j]);
        assert log[j] == t.log[j];
      } else {
        assert log[|t.log|] == row;
      }
    }
    forall i | 0 <= i < |t.log|
      ensures log[i].id != row.id
    {
      assert !Holds(t.log, row.id);
    }
  }

  // Rows that keep their birth, or leave, keep the forest: it is drawn in the log.
  lemma OthersKeepForest(t: Tables, t': Tables)
    requires Forest(t) && t'.log == t.log && Keyed(t'.rows)
    requires forall k :: 0 <= k < |t'.rows| ==> BornIn(t.rows, t'.rows[k])
    ensures Forest(t')
  {
    forall k | 0 <= k < |t'.rows|
      ensures BornIn(t'.log, t'.rows[k])
    {
      assert BornIn(t.rows, t'.rows[k]);
      var m :| 0 <= m < |t.rows| && SameBirth(t'.rows[k], t.rows[m]);
      assert BornIn(t.log, t.rows[m]);
    }
  }

  lemma StepKeepsForest(t: Tables, kernel: Kernel, op: Op)
    requires Enabled(t, kernel, op) && Forest(t)
    ensures Forest(Apply(t, kernel, op))
  {
    var t' := Apply(t, kernel, op);
    match op
    case Admit(_, _, _, _) => AdmitKeepsForest(t, kernel, op);
    case Prune(threshold) => PruneKeepsForest(t, threshold);
    case Rollback(run) =>
      RolledBackIds(t, run, |t.rows|);
      RolledBackFrame(t, run, |t.rows|);
      RowsInPlaceKeepForest(t, t');
    case _ => RowsInPlaceKeepForest(t, t');
  }

  lemma PruneKeepsForest(t: Tables, threshold: int)
    requires Forest(t)
    ensures Forest(PrunedTables(t, threshold))
  {
    var t' := PrunedTables(t, threshold);
    KeptRowsMembers(t.rows, threshold);
    forall k | 0 <= k < |t'.rows|
      ensures BornIn(t.rows, t'.rows[k])
    {
      assert t'.rows[k] in t'.rows;
      var m :| 0 <= m < |t.rows| && t.rows[m] == t'.rows[k];
      assert SameBirth(t'.rows[k], t.rows[m]);
    }
    OthersKeepForest(t, t');
  }

  lemma RowsInPlaceKeepForest(t: Tables, t': Tables)
    requires Forest(t) && t'.log == t.log && |t'.rows| == |t.rows|
    requires forall k :: 0 <= k < |t.rows| ==> SameBirth(t'.rows[k], t.rows[k])
    ensures Forest(t')
  {
    forall k | 0 <= k < |t'.rows|
      ensures BornIn(t.rows, t'.rows[k])
      ensures t'.rows[k].id == t.rows[k].id
    {
      assert SameBirth(t'.rows[k], t.rows[k]);
    }
    OthersKeepForest(t, t');
  }

  lemma {:induction false} ReachableForest(kernel: Kernel, ops: seq<Op>, states: seq<Tables>, i: nat)
    requires Run(kernel, ops, states) && i < |states|
    ensures Forest(states[i])
  {
    if i > 0 {
      ReachableForest(kernel, ops, states, i - 1);
      assert StepAt(kernel, ops, states, i - 1);
      StepKeepsForest(states[i - 1], kernel, ops[i - 1]);
    }
  }

  // ---- What the forest gives ----

  // Where a dispatch stands in creation order.
  ghost function BirthIndex(log: seq<Dispatch>, id: string): (j: nat)
    requires Holds(log, id)
    ensures j < |log| && log[j].id == id
  {
    var j: nat :| j < |log| && log[j].id == id;
    j
  }

  ghost function ParentIndex(log: seq<Dispatch>, j: nat): (i: nat)
    requires j < |log| && Rooted(log, j) && log[j].parent != ""
    ensures i < j && ChildOf(log[j], log[i])
  {
    var i: nat :| i < j && ChildOf(log[j], log[i]);
    i
  }

  // Edges from a dispatch up to its root that are not retries.
  ghost function SpawnEdges(log: seq<Dispatch>, j: nat): nat
    requires j < |log| && forall m :: 0 <= m < |log| ==> Rooted(log, m)
  {
    if log[j].parent == "" then 0
    else SpawnEdges(log, ParentIndex(log, j)) + (if log[j].viaRetry then 0 else 1)
  }

  lemma {:induction false} DepthCountsSpawnEdges(t: Tables, j: nat)
    requires Forest(t) && j < |t.log|
    ensures t.log[j].depth == SpawnEdges(t.log, j)
  {
    assert Rooted(t.log, j);
    if t.log[j].parent != "" {
      DepthCountsSpawnEdges(t, ParentIndex(t.log, j));
    }
  }

  ghost predicate Descends(log: seq<Dispatch>, j: nat, i: nat)
    requires j < |log| && i < |log| && forall m :: 0 <= m < |log| ==> Rooted(log, m)
    decreases j
  {
    i == j || (log[j].parent != "" && Descends(log, ParentIndex(log, j), i))
  }

  // Every descendant comes later, no shallower, and in the scope of a scoped ancestor.
  lemma {:induction false} DescendantsInherit(t: Tables, j: nat, i: nat)
    requires Forest(t) && j < |t.log| && i < |t.log| && Descends(t.log, j, i)
    ensures i <= j && t.log[i].depth <= t.log[j].depth
    ensures Scoped(t.log[i].scope) ==> t.log[j].scope == t.log[i].scope
    decreases j
  {
    if i != j {
      DescendantsInherit(t, ParentIndex(t.log, j), i);
    }
  }

  // A child that is retained was created after its parent and carries its scope.
  lemma ChildIsYounger(t: Tables, p: nat, c: nat)
    requires Forest(t) && p < |t.rows| && c < |t.rows| && t.rows[c].parent == t.rows[p].id
    ensures Holds(t.log, t.rows[p].id) && Holds(t.log, t.rows[c].id)
    ensures BirthIndex(t.log, t.rows[p].id) < BirthIndex(t.log, t.rows[c].id)
    ensures ChildOf(t.rows[c], t.rows[p])
  {
    assert BornIn(t.log, t.rows[p]) && BornIn(t.log, t.rows[c]);
    var a :| 0 <= a < |t.log| && SameBirth(t.rows[p], t.log[a]);
    var b :| 0 <= b < |t.log| && SameBirth(t.rows[c], t.log[b]);
    assert t.log[a].id == t.rows[p].id && t.log[b].id == t.rows[c].id;
    assert Rooted(t.log, b) && t.log[a].id != "";
    var i :| 0 <= i < b && ChildOf(t.log[b], t.log[i]);
    assert i == a;
    assert BirthIndex(t.log, t.rows[p].id) == a && BirthIndex(t.log, t.rows[c].id) == b;
  }

  // ---- Reading a dispatch now and retrying it later ----

  lemma StepExtendsLog(t: Tables, kernel: Kernel, op: Op)
    requires Enabled(t, kernel, op)
    ensures t.log <= Apply(t, kernel, op).log
  {
    if op.Rollback? {
      RolledBackFrame(t, op.run, |t.rows|);
    }
  }

  lemma {:induction false} LogIsPrefix(kernel: Kernel, ops: seq<Op>, states: seq<Tables>, i: nat, j: nat)
    requires Run(kernel, ops, states) && i <= j < |states|
    ensures states[i].log <= states[j].log
  {
    if i < j {
      LogIsPrefix(kernel, ops, states, i, j - 1);
      assert StepAt(kernel, ops, states, j - 1);
      StepExtendsLog(states[j - 1], kernel, ops[j - 1]);
    }
  }

  // An id always names the row it was given to.
  lemma SameRowLater(kernel: Kernel, ops: seq<Op>, states: seq<Tables>, i: nat, j: nat, k: nat, m: nat)
    requires Run(kernel, ops, states) && i <= j < |states|
    requires k < |states[i].rows| && m < |states[j].rows| && states[i].rows[k].id == states[j].rows[m].id
    ensures SameBirth(states[i].rows[k], states[j].rows[m])
  {
    ReachableForest(kernel, ops, states, i);
    ReachableForest(kernel, ops, states, j);
    LogIsPrefix(kernel, ops, states, i, j);
    assert BornIn(states[i].log, states[i].rows[k]) && BornIn(states[j].log, states[j].rows[m]);
    var a :| 0 <= a < |states[i].log| && SameBirth(states[i].rows[k], states[i].log[a]);
    var b :| 0 <= b < |states[j].log| && SameBirth(states[j].rows[m], states[j].log[b]);
    assert states[j].log[a] == states[i].log[a];
    assert a == b;
  }

  // Whatever commits between reading a finished dispatch and admitting its retry, the
  // retry is a child of that dispatch, which still has the outcome that was read, and
  // it stands at its depth and in its scope.
  lemma RetryOfWhatWasRead(kernel: Kernel, ops: seq<Op>, states: seq<Tables>, i: nat, j: nat, k: nat)
    requires Run(kernel, ops, states) && i <= j < |ops| && k < |states[i].rows| && IsTerminal(states[i].rows[k].status)
    requires ops[j].Admit? && ops[j].q.retry && ops[j].q.parent == states[i].rows[k].id
    ensures ops[j].parent.Some? && ops[j].parent.value < |states[j].rows| && |states[j + 1].rows| == |states[j].rows| + 1
    ensures var orig, parent := states[i].rows[k], states[j].rows[ops[j].parent.value];
      SameBirth(parent, orig) && parent.status == orig.status
    ensures var orig, retry := states[i].rows[k], states[j + 1].rows[|states[j].rows|];
      && retry.viaRetry && retry.parent == orig.id && retry.depth == orig.depth && retry.status.Spawned?
      && (Scoped(orig.scope) ==> retry.scope == orig.scope)
  {
    var orig := states[i].rows[k];
    assert StepAt(kernel, ops, states, j);
    ReachableForest(kernel, ops, states, i);
    assert BornIn(states[i].log, orig);
    assert orig.id != "";
    var m := ops[j].parent.value;
    SameRowLater(kernel, ops, states, i, j, k, m);
    ReachableOutcomes(kernel, ops, states, i);
    assert RowSound(states[i], orig);
    OutcomeNeverChanges(kernel, ops, states, i, j, orig.id);
  }
}

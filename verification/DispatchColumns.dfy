// What the dispatch transactions read and write, column by column: the statuses, sources
// and sums that the queries and triggers spell out.
module DispatchColumns {
  import opened Basics
  import opened DispatchModel

  // ---- What the counting queries count ----

  ghost function ActiveRows(rows: seq<Dispatch>): set<int> {
    set k | 0 <= k < |rows| && (rows[k].status == Spawned || rows[k].status == Running)
  }

  ghost function RunRows(rows: seq<Dispatch>, run: string): set<int> {
    set k | 0 <= k < |rows| && rows[k].scope == Some(run)
  }

  ghost function ActiveInRun(rows: seq<Dispatch>, run: string): set<int> {
    set k | 0 <= k < |rows| && (rows[k].status == Spawned || rows[k].status == Running) && rows[k].scope == Some(run)
  }

  // The last row joins a set of positions, or does not.
  lemma OneMore(was: set<int>, now: set<int>, n: int, joins: bool)
    requires n !in was && now == if joins then was + {n} else was
    ensures |now| == |was| + if joins then 1 else 0
  {
  }

  lemma LastRow(front: seq<Dispatch>, d: Dispatch, run: string)
    ensures var n, rows := |front|, front + [d];
            var active, mine := d.status == Spawned || d.status == Running, d.scope == Some(run);
      && ActiveRows(rows) == (if active then ActiveRows(front) + {n} else ActiveRows(front))
      && RunRows(rows, run) == (if mine then RunRows(front, run) + {n} else RunRows(front, run))
      && ActiveInRun(rows, run) == (if active && mine then ActiveInRun(front, run) + {n} else ActiveInRun(front, run))
  {
    var rows := front + [d];
    assert rows[|front|] == d && forall k :: 0 <= k < |front| ==> rows[k] == front[k];
  }

  // Each counting query counts the rows it names.
  lemma {:induction false} CountsAreSizes(rows: seq<Dispatch>, run: string)
    ensures Count(rows, ActiveAll) == |ActiveRows(rows)|
    ensures Count(rows, AllIn(run)) == |RunRows(rows, run)|
    ensures Count(rows, ActiveIn(run)) == |ActiveInRun(rows, run)|
  {
    if rows == [] {
      assert ActiveRows(rows) == {} && RunRows(rows, run) == {} && ActiveInRun(rows, run) == {};
    } else {
      var front, d := rows[..|rows| - 1], rows[|rows| - 1];
      CountsAreSizes(front, run);
      assert rows == front + [d];
      LastRow(front, d, run);
      var active, mine := d.status == Spawned || d.status == Running, d.scope == Some(run);
      OneMore(ActiveRows(front), ActiveRows(rows), |front|, active);
      OneMore(RunRows(front, run), RunRows(rows, run), |front|, mine);
      OneMore(ActiveInRun(front, run), ActiveInRun(rows, run), |front|, active && mine);
    }
  }

  // The tokens each dispatch of the run reports, the others nothing.
  function ReportedTokens(rows: seq<Dispatch>, run: string): (r: seq<int>)
    ensures |r| == |rows|
  {
    seq(|rows|, k requires 0 <= k < |rows| => if rows[k].scope == Some(run) then rows[k].inputTokens + rows[k].outputTokens else 0)
  }

  lemma {:induction false} TokensAreSummed(rows: seq<Dispatch>, run: string)
    ensures TokensUsed(rows, run) == Sum(ReportedTokens(rows, run))
  {
    if rows != [] {
      var front, last := rows[..|rows| - 1], rows[|rows| - 1];
      TokensAreSummed(front, run);
      var tokens := if last.scope == Some(run) then last.inputTokens + last.outputTokens else 0;
      assert ReportedTokens(rows, run) == ReportedTokens(front, run) + [tokens];
      SumSnoc(ReportedTokens(front, run), tokens);
    }
  }

  // ---- Admission ----

  // The run a request is for: that of a parent with one, else its own.
  function RunOf(q: Request, parent: Option<Dispatch>): string {
    if parent.Some? && parent.value.scope.Some? && parent.value.scope.value != "" then parent.value.scope.value
    else if q.scope.Some? then q.scope.value else ""
  }

  // A limit that is set is not reached.
  predicate Below(n: int, limit: int) {
    limit > 0 ==> n < limit
  }

  // The limits of the request, the kernel and the run, each by itself.
  ghost predicate Room(rows: seq<Dispatch>, kernel: Kernel, q: Request, run: string, depth: int) {
    && Below(|ActiveRows(rows)|, q.policy.maxActiveGlobal)
    && (kernel.globalMax.Limit? ==> Below(|ActiveRows(rows)|, kernel.globalMax.n))
    && (run != "" ==> Below(|ActiveInRun(rows, run)|, q.policy.maxActivePerRun))
    && (run != "" ==> Below(|RunRows(rows, run)|, q.policy.maxAgentsPerRun))
    && (run != "" && run in kernel.runs ==> Below(|RunRows(rows, run)|, kernel.runs[run].maxAgents))
    && Below(depth - 1, q.policy.maxSpawnDepth) && (kernel.maxDepth.Limit? ==> Below(depth - 1, kernel.maxDepth.n))
  }

  // An enforced budget is there, and the tokens reported so far are less.
  ghost predicate Funded(rows: seq<Dispatch>, kernel: Kernel, q: Request, run: string) {
    var known := run != "" && run in kernel.runs;
    q.policy.budgetEnforce || (known && kernel.runs[run].budgetEnforce) ==>
      known && kernel.runs[run].tokenBudget.Some? && kernel.runs[run].tokenBudget.value > 0
      && Sum(ReportedTokens(rows, run)) < kernel.runs[run].tokenBudget.value
  }

  // The request fits its parent and its run.
  predicate Fits(kernel: Kernel, q: Request, parent: Option<Dispatch>) {
    var run := RunOf(q, parent);
    && (q.parent == "" <==> parent.None?)
    && (parent.Some? && parent.value.scope.Some? && parent.value.scope.value != "" && q.scope.Some? ==> q.scope == parent.value.scope)
    && (run == "" ==> q.policy.maxActivePerRun == 0 && q.policy.maxAgentsPerRun == 0)
    && (run != "" && q.runId != "" ==> run in kernel.runs)
  }

  // What an admission takes, by the rows there are and the stored limits.
  ghost predicate Admissible(rows: seq<Dispatch>, kernel: Kernel, q: Request, parent: Option<Dispatch>) {
    && !kernel.globalMax.Malformed? && !kernel.maxDepth.Malformed? && Fits(kernel, q, parent)
    && Room(rows, kernel, q, RunOf(q, parent), DepthOf(q, parent)) && Funded(rows, kernel, q, RunOf(q, parent))
  }

  // A retry stays at its parent's depth.
  function DepthOf(q: Request, parent: Option<Dispatch>): int {
    match parent
    case None => 0
    case Some(d) => if q.retry then d.depth else d.depth + 1
  }

  lemma AdmissionMeans(rows: seq<Dispatch>, kernel: Kernel, q: Request, parent: Option<Dispatch>)
    requires NonNegative(q.policy)
    ensures MayAdmit(rows, kernel, q, parent) <==> Admissible(rows, kernel, q, parent)
  {
    var run := RunOf(q, parent);
    var row := NewRow(q, parent, "", 0);
    assert RunIdOf(row) == run;
    RoomMeans(rows, kernel, q, run, row.depth);
    FundedMeans(rows, kernel, q, run);
  }

  // The row of an admission: live, without tokens, in the parent's scope if that has one.
  function AdmittedRow(q: Request, parent: Option<Dispatch>, id: string, now: int): Dispatch {
    var inherits := parent.Some? && parent.value.scope.Some? && parent.value.scope.value != "";
    Dispatch(id, Spawned, if inherits then parent.value.scope else q.scope, q.parent, DepthOf(q, parent),
             parent.Some? && q.retry, q.agentType, false, q.retryCount, 0, 0, now)
  }

  lemma AdmittedColumns(q: Request, parent: Option<Dispatch>, id: string, now: int)
    ensures NewRow(q, parent, id, now) == AdmittedRow(q, parent, id, now)
  {
  }

  lemma RoomMeans(rows: seq<Dispatch>, kernel: Kernel, q: Request, run: string, depth: int)
    requires NonNegative(q.policy)
    ensures WithinCounts(rows, Effective(q.policy, kernel, run), run, depth) <==> Room(rows, kernel, q, run, depth)
  {
    CountsAreSizes(rows, run);
  }

  lemma FundedMeans(rows: seq<Dispatch>, kernel: Kernel, q: Request, run: string)
    ensures WithinBudget(rows, Effective(q.policy, kernel, run), kernel, run) <==> Funded(rows, kernel, q, run)
  {
    TokensAreSummed(rows, run);
  }

  // ---- Outcomes ----

  // None of the four outcomes.
  predicate Live(s: Status) {
    s != Completed && s != Failed && s != Timeout && s != Cancelled
  }

  function RunColumn(d: Dispatch): string {
    match d.scope
    case None => ""
    case Some(run) => run
  }

  // The row with another status and the columns given.
  function RowWith(d: Dispatch, status: Status, f: Fields): Dispatch {
    Dispatch(d.id, status, d.scope, d.parent, d.depth, d.viaRetry, d.agentType, d.quarantined,
             if f.retryCount.Some? then f.retryCount.value else d.retryCount,
             if f.inputTokens.Some? then f.inputTokens.value else d.inputTokens,
             if f.outputTokens.Some? then f.outputTokens.value else d.outputTokens,
             d.createdAt)
  }

  // The outcome of one row, as its writer gives it: the row, one event and the record.
  ghost predicate OutcomeWritten(t: Tables, k: nat, o: Terminal, r: Record, after: Tables)
    requires k < |t.rows|
  {
    var d := t.rows[k];
    && r == Record(RunColumn(d), d.retryCount, d.parent, o.status, d.status, o.source, o.evidence, o.evidenceFields, |t.events| + 1)
    && after == Tables(
         t.rows[k := RowWith(d, o.status, o.fields)],
         t.records[d.id := r],
         t.events + [Event(d.id, RunColumn(d), d.status, o.status, true, o.reason)],
         t.supervised, t.intents, t.log)
  }

  lemma TerminalizedColumns(t: Tables, k: nat, o: Terminal)
    requires k < |t.rows|
    ensures var after := Terminalized(t, k, o);
      t.rows[k].id in after.records && OutcomeWritten(t, k, o, after.records[t.rows[k].id], after)
  {
  }

  // A status written past the terminal writer: the trigger adds event and record when it
  // is an outcome and there is none yet.
  ghost predicate StatusWritten(t: Tables, k: nat, status: Status, f: Fields, after: Tables)
    requires k < |t.rows|
  {
    var d, row := t.rows[k], RowWith(t.rows[k], status, f);
    var fires := Live(d.status) && !Live(status) && d.id !in t.records;
    && after.rows == t.rows[k := row]
    && after.events == (if fires then t.events + [Event(d.id, RunColumn(d), d.status, status, true, "status written without a terminal record")]
                        else t.events)
    && after.records == (if fires then t.records[d.id := Record(RunColumn(d), row.retryCount, d.parent, status, d.status,
                                                                Trigger, Unrecorded, "", |t.events| + 1)]
                         else t.records)
    && after.supervised == t.supervised && after.intents == t.intents && after.log == t.log
  }

  lemma WriteStatusColumns(t: Tables, k: nat, status: Status, f: Fields)
    requires k < |t.rows|
    ensures StatusWritten(t, k, status, f, WriteStatus(t, k, status, f))
  {
  }

  // A supervised row refuses an outcome that has no record.
  lemma GuardColumns(t: Tables, k: nat, status: Status)
    requires k < |t.rows|
    ensures GuardAborts(t, k, status) <==>
      Live(t.rows[k].status) && !Live(status) && t.rows[k].id in t.supervised && t.rows[k].id !in t.records
  {
  }

  // Who may write an outcome, and what one is.
  lemma WritableColumns(t: Tables, k: nat, o: Terminal)
    requires k < |t.rows|
    ensures Writable(t, k, o.source) <==>
      && Live(t.rows[k].status) && t.rows[k].id !in t.records
      && (t.rows[k].id in t.supervised ==> o.source == Supervisor || o.source == Reconcile || o.source == Spool)
    ensures ValidTerminal(o) <==>
      && !Live(o.status) && o.evidence != Unrecorded && o.fields.allowed && o.source != Trigger && !o.source.UnknownSource?
  {
  }

  // The other writers: a supervisor takes charge of any dispatch at any time, and an event
  // recorder adds any event but a terminal one.
  lemma OtherWriters(t: Tables, kernel: Kernel, id: string, e: Event)
    ensures Enabled(t, kernel, Supervise(id))
    ensures Apply(t, kernel, Supervise(id)) == t.(supervised := t.supervised + {id})
    ensures Enabled(t, kernel, Observe(e)) <==> !e.terminal
    ensures !e.terminal ==> Apply(t, kernel, Observe(e)) == t.(events := t.events + [e])
  {
  }
}

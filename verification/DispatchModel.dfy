// The tables of the dispatch kernel and what each committed transaction does to
// them: internal/dispatch with the triggers of internal/db/schema.sql.
module DispatchModel {
  import opened Basics

  datatype Status =
    | Spawned | Running
    | Completed | Failed | Timeout | Cancelled
    | Other(name: string) // the column has no CHECK constraint

  predicate IsTerminal(s: Status) {
    s.Completed? || s.Failed? || s.Timeout? || s.Cancelled?
  }

  predicate IsActive(s: Status) {
    s.Spawned? || s.Running?
  }

  datatype Source =
    | Supervisor | Reconcile | Collect | Spawn | CancelByRun | Kill | Spool
    | Trigger | UnknownSource(name: string)

  predicate WriterSource(s: Source) {
    !s.Trigger? && !s.UnknownSource?
  }

  predicate SupervisedWriter(s: Source) {
    s.Supervisor? || s.Reconcile? || s.Spool?
  }

  datatype Evidence = Verified | Missing | Malformed | Mismatched | NotApplicable | Unrecorded

  // A row of dispatches. `viaRetry` is not a column: it notes how the row was admitted.
  datatype Dispatch = Dispatch(
    id: string,
    status: Status,
    scope: Option<string>,
    parent: string,
    depth: int,
    viaRetry: bool,
    agentType: string,
    quarantined: bool,
    retryCount: int,
    inputTokens: int,
    outputTokens: int,
    createdAt: int)

  // Column updates that ride along with a status; `allowed` is the whitelist check.
  datatype Fields = Fields(allowed: bool, retryCount: Option<int>, inputTokens: Option<int>, outputTokens: Option<int>)

  const NO_FIELDS: Fields := Fields(true, None, None, None)

  function Or(o: Option<int>, n: int): int {
    if o.Some? then o.value else n
  }

  function WithFields(d: Dispatch, f: Fields): Dispatch {
    d.(retryCount := Or(f.retryCount, d.retryCount),
       inputTokens := Or(f.inputTokens, d.inputTokens),
       outputTokens := Or(f.outputTokens, d.outputTokens))
  }

  // An outcome to record. `evidenceFields` stands for the columns copied verbatim.
  datatype Terminal = Terminal(
    status: Status, source: Source, evidence: Evidence, reason: string, fields: Fields, evidenceFields: string)

  predicate ValidTerminal(t: Terminal) {
    IsTerminal(t.status) && WriterSource(t.source) && !t.evidence.Unrecorded? && t.fields.allowed
  }

  // A row of dispatch_terminals, keyed by dispatch id.
  datatype Record = Record(
    runId: string, attempt: int, parent: string, status: Status, fromStatus: Status,
    source: Source, evidence: Evidence, evidenceFields: string, eventId: nat)

  // A row of dispatch_events; its id is its position counted from one.
  datatype Event = Event(dispatchId: string, runId: string, fromStatus: Status, toStatus: Status, terminal: bool, reason: string)

  // A run_rollback row of dispatch_intents.
  datatype Intent = Intent(dispatchId: string, reason: string)

  // `log` is no table: it keeps every row as it was inserted, pruned or not.
  datatype Tables = Tables(
    rows: seq<Dispatch>,
    records: map<string, Record>,
    events: seq<Event>,
    supervised: set<string>,
    intents: seq<Intent>,
    log: seq<Dispatch>)

  const EMPTY: Tables := Tables([], map[], [], {}, [], [])

  predicate Keyed(rows: seq<Dispatch>) {
    forall i, j :: 0 <= i < j < |rows| ==> rows[i].id != rows[j].id
  }

  predicate Holds(rows: seq<Dispatch>, id: string) {
    exists k :: 0 <= k < |rows| && rows[k].id == id
  }

  function RunIdOf(d: Dispatch): string {
    if d.scope.Some? then d.scope.value else ""
  }

  // ---- Writing a status, with the triggers on dispatches ----

  // A supervised row becomes terminal only when its record is already there.
  predicate GuardAborts(t: Tables, k: nat, status: Status)
    requires k < |t.rows|
  {
    !IsTerminal(t.rows[k].status) && IsTerminal(status)
    && t.rows[k].id in t.supervised && t.rows[k].id !in t.records
  }

  predicate OutboxFires(t: Tables, k: nat, status: Status)
    requires k < |t.rows|
  {
    !IsTerminal(t.rows[k].status) && IsTerminal(status) && t.rows[k].id !in t.records
  }

  function WriteStatus(t: Tables, k: nat, status: Status, f: Fields): Tables
    requires k < |t.rows|
  {
    var d := t.rows[k];
    var d' := WithFields(d, f).(status := status);
    var t' := t.(rows := t.rows[k := d']);
    if OutboxFires(t, k, status) then
      t'.(events := t.events + [Event(d.id, RunIdOf(d), d.status, status, true, "status written without a terminal record")],
          records := t.records[d.id := Record(RunIdOf(d), d'.retryCount, d.parent, status, d.status,
                                              Trigger, Unrecorded, "", |t.events| + 1)])
    else t'
  }

  // ---- The terminal writer ----

  // The row can take an outcome from this source.
  predicate Writable(t: Tables, k: nat, source: Source)
    requires k < |t.rows|
  {
    && !IsTerminal(t.rows[k].status)
    && (SupervisedWriter(source) || t.rows[k].id !in t.supervised)
    && t.rows[k].id !in t.records
  }

  function TerminalEvent(d: Dispatch, o: Terminal): Event {
    Event(d.id, RunIdOf(d), d.status, o.status, true, o.reason)
  }

  function TerminalRecord(d: Dispatch, o: Terminal, eventId: nat): Record {
    Record(RunIdOf(d), d.retryCount, d.parent, o.status, d.status, o.source, o.evidence, o.evidenceFields, eventId)
  }

  // Event, record naming it, and status: all three or none.
  function Terminalized(t: Tables, k: nat, o: Terminal): Tables
    requires k < |t.rows|
  {
    var d := t.rows[k];
    t.(rows := t.rows[k := WithFields(d, o.fields).(status := o.status)],
       events := t.events + [TerminalEvent(d, o)],
       records := t.records[d.id := TerminalRecord(d, o, |t.events| + 1)])
  }

  // ---- Rolling a run back ----

  predicate RollbackCandidate(d: Dispatch, run: string) {
    d.scope == Some(run) && !IsTerminal(d.status)
  }

  // A candidate the terminal writer would refuse: it has a record already.
  predicate RollbackBlocked(t: Tables, k: nat, run: string)
    requires k < |t.rows|
  {
    RollbackCandidate(t.rows[k], run) && t.rows[k].id !in t.supervised && t.rows[k].id in t.records
  }

  function RollbackOutcome(run: string): Terminal {
    Terminal(Cancelled, CancelByRun, NotApplicable, "run " + run + " rolled back", NO_FIELDS, "")
  }

  function RollbackIntent(id: string, run: string): Intent {
    Intent(id, "run " + run + " rolled back")
  }

  // One row's turn: cancelled, or its supervisor asked, or left alone.
  function RollbackStep(t: Tables, k: nat, run: string): (r: Tables)
    requires k < |t.rows|
    ensures |r.rows| == |t.rows|
  {
    var d := t.rows[k];
    if !RollbackCandidate(d, run) then t
    else if d.id in t.supervised then t.(intents := t.intents + [RollbackIntent(d.id, run)])
    else Terminalized(t, k, RollbackOutcome(run))
  }

  // The first n rows have had their turn, in table order.
  function RolledBack(t: Tables, run: string, n: nat): (r: Tables)
    requires n <= |t.rows|
    ensures |r.rows| == |t.rows|
  {
    if n == 0 then t else RollbackStep(RolledBack(t, run, n - 1), n - 1, run)
  }

  // ---- Pruning ----

  predicate Pruned(d: Dispatch, threshold: int) {
    d.createdAt < threshold && !IsActive(d.status)
  }

  function KeptRows(rows: seq<Dispatch>, threshold: int): seq<Dispatch> {
    if rows == [] then []
    else
      var last := rows[|rows| - 1];
      KeptRows(rows[..|rows| - 1], threshold) + if Pruned(last, threshold) then [] else [last]
  }

  function KeptIntents(intents: seq<Intent>, rows: seq<Dispatch>): seq<Intent> {
    if intents == [] then []
    else
      var last := intents[|intents| - 1];
      KeptIntents(intents[..|intents| - 1], rows) + if Holds(rows, last.dispatchId) then [last] else []
  }

  function PrunedTables(t: Tables, threshold: int): Tables {
    var rows := KeptRows(t.rows, threshold);
    t.(rows := rows,
       records := (map id | id in t.records && Holds(rows, id) :: t.records[id]),
       supervised := (set id | id in t.supervised && Holds(rows, id)),
       intents := KeptIntents(t.intents, rows))
  }

  // ---- Admission ----

  // A stored kernel limit: no live row, text that is no natural number, or a number.
  datatype Stored = Absent | Malformed | Limit(n: nat)

  datatype RunPolicy = RunPolicy(budgetEnforce: bool, tokenBudget: Option<int>, maxAgents: int)

  // What admission reads besides the dispatch tables.
  datatype Kernel = Kernel(globalMax: Stored, maxDepth: Stored, runs: map<string, RunPolicy>)

  datatype Policy = Policy(
    budgetEnforce: bool, maxActivePerRun: int, maxActiveGlobal: int, maxAgentsPerRun: int, maxSpawnDepth: int)

  const NO_POLICY: Policy := Policy(false, 0, 0, 0, 0)

  // The limit checks of SpawnOptions.Validate.
  predicate NonNegative(p: Policy) {
    p.maxActivePerRun >= 0 && p.maxActiveGlobal >= 0 && p.maxAgentsPerRun >= 0 && p.maxSpawnDepth >= 0
  }

  datatype Request = Request(
    scope: Option<string>, parent: string, runId: string, retry: bool,
    agentType: string, retryCount: int, policy: Policy)

  // Zero means unlimited; a positive stored limit replaces none or a larger one.
  function Tighten(target: int, stored: int): int {
    if stored > 0 && (target == 0 || stored < target) then stored else target
  }

  function StoredValue(s: Stored): int {
    if s.Limit? then s.n else 0
  }

  function Effective(p: Policy, kernel: Kernel, scope: string): Policy {
    var known := scope != "" && scope in kernel.runs;
    Policy(
      p.budgetEnforce || (known && kernel.runs[scope].budgetEnforce),
      p.maxActivePerRun,
      Tighten(p.maxActiveGlobal, StoredValue(kernel.globalMax)),
      if known then Tighten(p.maxAgentsPerRun, kernel.runs[scope].maxAgents) else p.maxAgentsPerRun,
      Tighten(p.maxSpawnDepth, StoredValue(kernel.maxDepth)))
  }

  datatype Which = ActiveAll | ActiveIn(scope: string) | AllIn(scope: string)

  predicate Selects(w: Which, d: Dispatch) {
    match w
    case ActiveAll => IsActive(d.status)
    case ActiveIn(scope) => d.scope == Some(scope) && IsActive(d.status)
    case AllIn(scope) => d.scope == Some(scope)
  }

  function Count(rows: seq<Dispatch>, w: Which): nat {
    if rows == [] then 0
    else Count(rows[..|rows| - 1], w) + if Selects(w, rows[|rows| - 1]) then 1 else 0
  }

  function TokensUsed(rows: seq<Dispatch>, scope: string): int {
    if rows == [] then 0
    else
      var last := rows[|rows| - 1];
      TokensUsed(rows[..|rows| - 1], scope) + if last.scope == Some(scope) then last.inputTokens + last.outputTokens else 0
  }

  predicate Scoped(o: Option<string>) {
    o.Some? && o.value != ""
  }

  // The scope a row gets: its parent's when the parent has one.
  function FinalScope(q: Request, parentScope: Option<string>): Option<string> {
    if Scoped(parentScope) then parentScope else q.scope
  }

  predicate ScopeMismatch(q: Request, parentScope: Option<string>) {
    Scoped(parentScope) && q.scope.Some? && q.scope != parentScope
  }

  predicate WithinCounts(rows: seq<Dispatch>, p: Policy, scope: string, depth: int) {
    && (p.maxActivePerRun > 0 && scope != "" ==> Count(rows, ActiveIn(scope)) < p.maxActivePerRun)
    && (p.maxActiveGlobal > 0 ==> Count(rows, ActiveAll) < p.maxActiveGlobal)
    && (p.maxAgentsPerRun > 0 && scope != "" ==> Count(rows, AllIn(scope)) < p.maxAgentsPerRun)
    && (p.maxSpawnDepth > 0 ==> depth <= p.maxSpawnDepth)
  }

  predicate WithinBudget(rows: seq<Dispatch>, p: Policy, kernel: Kernel, scope: string) {
    p.budgetEnforce ==>
      && scope != "" && scope in kernel.runs
      && kernel.runs[scope].tokenBudget.Some? && kernel.runs[scope].tokenBudget.value > 0
      && TokensUsed(rows, scope) < kernel.runs[scope].tokenBudget.value
  }

  // The row that admission inserts, given the parent row it found (if any).
  function NewRow(q: Request, parent: Option<Dispatch>, id: string, now: int): Dispatch {
    var parentScope := if parent.Some? then parent.value.scope else None;
    Dispatch(id, Spawned, FinalScope(q, parentScope), q.parent,
             if parent.None? then 0 else if q.retry then parent.value.depth else parent.value.depth + 1,
             parent.Some? && q.retry, q.agentType, false, q.retryCount, 0, 0, now)
  }

  // Every condition under which admission inserts the row.
  predicate MayAdmit(rows: seq<Dispatch>, kernel: Kernel, q: Request, parent: Option<Dispatch>) {
    var parentScope := if parent.Some? then parent.value.scope else None;
    var scope := RunIdOf(NewRow(q, parent, "", 0));
    var p := Effective(q.policy, kernel, scope);
    && !kernel.globalMax.Malformed? && !kernel.maxDepth.Malformed?
    && (q.parent == "" <==> parent.None?)
    && !ScopeMismatch(q, parentScope)
    && (scope == "" ==> q.policy.maxActivePerRun <= 0 && q.policy.maxAgentsPerRun <= 0)
    && (scope != "" && q.runId != "" ==> scope in kernel.runs)
    && WithinBudget(rows, p, kernel, scope)
    && WithinCounts(rows, p, scope, NewRow(q, parent, "", 0).depth)
  }

  // ---- Transactions that commit ----

  datatype Op =
    | Admit(q: Request, parent: Option<nat>, id: string, now: int)
    | Terminalize(k: nat, outcome: Terminal)
    | Rollback(run: string)
    | Identify(k: nat)
    | SetStatus(k: nat, status: Status, fields: Fields)
    | SetTokens(k: nat, fields: Fields)
    | Prune(threshold: int)
    | Supervise(id: string)
    | Observe(event: Event)

  function ParentRow(t: Tables, parent: Option<nat>): Option<Dispatch>
    requires parent.Some? ==> parent.value < |t.rows|
  {
    if parent.Some? then Some(t.rows[parent.value]) else None
  }

  predicate Enabled(t: Tables, kernel: Kernel, op: Op) {
    match op
    case Admit(q, parent, id, now) =>
      && (parent.Some? ==> parent.value < |t.rows| && t.rows[parent.value].id == q.parent)
      && NonNegative(q.policy)
      && MayAdmit(t.rows, kernel, q, ParentRow(t, parent))
      && id != "" && !Holds(t.rows, id) && !Holds(t.log, id) // random ids are not repeated
    case Terminalize(k, outcome) => k < |t.rows| && ValidTerminal(outcome) && Writable(t, k, outcome.source)
    case Rollback(run) => forall k :: 0 <= k < |t.rows| ==> !RollbackBlocked(t, k, run)
    case Identify(k) => k < |t.rows| && t.rows[k].status.Spawned?
    case SetStatus(k, status, fields) =>
      k < |t.rows| && fields.allowed && !IsTerminal(t.rows[k].status) && !GuardAborts(t, k, status)
    case SetTokens(k, fields) =>
      k < |t.rows| && fields.allowed && !(t.rows[k].agentType == "flere" && IsTerminal(t.rows[k].status))
    case Prune(_) => true
    case Supervise(_) => true  // inserted by the supervisor process
    case Observe(event) => !event.terminal  // the event recorders add no terminal event
  }

  function Apply(t: Tables, kernel: Kernel, op: Op): Tables
    requires Enabled(t, kernel, op)
  {
    match op
    case Admit(q, parent, id, now) =>
      var row := NewRow(q, ParentRow(t, parent), id, now);
      t.(rows := t.rows + [row], log := t.log + [row])
    case Terminalize(k, outcome) => Terminalized(t, k, outcome)
    case Rollback(run) => RolledBack(t, run, |t.rows|)
    case Identify(k) => WriteStatus(t, k, Running, NO_FIELDS)
    case SetStatus(k, status, fields) => WriteStatus(t, k, status, fields)
    case SetTokens(k, fields) => t.(rows := t.rows[k := WithFields(t.rows[k], fields)])
    case Prune(threshold) => PrunedTables(t, threshold)
    case Supervise(id) => t.(supervised := t.supervised + {id})
    case Observe(event) => t.(events := t.events + [event])
  }

  // The committed transactions of any clients, from an empty database.
  ghost predicate Run(kernel: Kernel, ops: seq<Op>, states: seq<Tables>) {
    && |states| == |ops| + 1 && states[0] == EMPTY
    && forall i {:trigger StepAt(kernel, ops, states, i)} :: 0 <= i < |ops| ==> StepAt(kernel, ops, states, i)
  }

  ghost predicate StepAt(kernel: Kernel, ops: seq<Op>, states: seq<Tables>, i: nat)
    requires |states| == |ops| + 1 && i < |ops|
  {
    Enabled(states[i], kernel, ops[i]) && states[i + 1] == Apply(states[i], kernel, ops[i])
  }
}

// Closing a goal under a fenced lease: internal/goal/goal.go.
module GoalClose {
  import opened Basics

  datatype Status = Open | Closing | Closed

  datatype Step = Verified | Reflected | Compounded | SuccessorProposed

  // The columns of a goal that the close protocol reads or writes.
  datatype Goal = Goal(
    status: Status, fence: int, closingRun: Option<string>, owner: Option<string>,
    expiresAt: Option<int>, stamped: map<Step, int>, closedAt: Option<int>, updatedAt: int)

  type Goals = map<string, Goal>

  // One UPDATE each. A client that finishes reads the goal back, as a separate
  // statement, only when its update changed nothing.
  datatype Op =
    | Create(id: string, now: int)
    | Acquire(id: string, run: string, owner: string, ttl: int, now: int)
    | Renew(id: string, fence: int, ttl: int, now: int)
    | Stamp(id: string, step: Step, fence: int, now: int)
    | Finish(id: string, fence: int, now: int)
    | ReadBack(id: string, fence: int)
    | Release(id: string, fence: int, now: int)

  datatype Result = Granted(fence: int) | Done | NotFound | LeaseHeld | StaleFence | Incomplete | UnknownStep | Refused

  // The fence is current and the goal is still being closed.
  predicate Holds(g: Goal, fence: int) {
    g.status.Closing? && g.fence == fence
  }

  predicate MayAcquire(g: Goal, now: int) {
    g.status.Open? || (g.status.Closing? && g.expiresAt.Some? && g.expiresAt.value < now)
  }

  predicate AllStamped(g: Goal) {
    Verified in g.stamped && Reflected in g.stamped && Compounded in g.stamped && SuccessorProposed in g.stamped
  }

  function Acquired(g: Goal, run: string, owner: string, ttl: int, now: int): Goal {
    g.(status := Closing, closingRun := Some(run), owner := Some(owner), expiresAt := Some(now + ttl),
       fence := g.fence + 1, updatedAt := now)
  }

  function Renewed(g: Goal, ttl: int, now: int): Goal {
    g.(expiresAt := Some(now + ttl), updatedAt := now)
  }

  function Stamped(g: Goal, step: Step, now: int): Goal {
    g.(stamped := g.stamped[step := now], updatedAt := now)
  }

  function Finished(g: Goal, now: int): Goal {
    g.(status := Closed, closedAt := Some(now), updatedAt := now, owner := None, expiresAt := None)
  }

  function Released(g: Goal, now: int): Goal {
    g.(status := Open, owner := None, expiresAt := None, closingRun := None, updatedAt := now)
  }

  function NewGoal(now: int): Goal {
    Goal(Open, 0, None, None, None, map[], None, now)
  }

  // The goal after the statement, and what the client sees.
  function OnGoal(g: Goal, op: Op): (Goal, Result) {
    match op
    case Create(_, _) => (g, Refused)
    case Acquire(_, run, owner, ttl, now) =>
      if MayAcquire(g, now) then (Acquired(g, run, owner, ttl, now), Granted(g.fence + 1)) else (g, LeaseHeld)
    case Renew(_, fence, ttl, now) => if Holds(g, fence) then (Renewed(g, ttl, now), Done) else (g, StaleFence)
    case Stamp(_, step, fence, now) => if Holds(g, fence) then (Stamped(g, step, now), Done) else (g, StaleFence)
    case Finish(_, fence, now) => if Holds(g, fence) && AllStamped(g) then (Finished(g, now), Done) else (g, Refused)
    case ReadBack(_, fence) => (g, if Holds(g, fence) then Incomplete else StaleFence)
    case Release(_, fence, now) => if Holds(g, fence) then (Released(g, now), Done) else (g, StaleFence)
  }

  function Apply(goals: Goals, op: Op): (Goals, Result) {
    if op.id in goals then
      var r := OnGoal(goals[op.id], op);
      (goals[op.id := r.0], r.1)
    else if op.Create? then (goals[op.id := NewGoal(op.now)], Done)
    else (goals, if op.Acquire? || op.ReadBack? then NotFound else if op.Finish? then Refused else StaleFence)
  }

  // Statements of any clients, in the order they took effect.
  ghost predicate Run(ops: seq<Op>, states: seq<Goals>) {
    && |states| == |ops| + 1 && states[0] == map[]
    && forall i {:trigger StepAt(ops, states, i)} :: 0 <= i < |ops| ==> StepAt(ops, states, i)
  }

  ghost predicate StepAt(ops: seq<Op>, states: seq<Goals>, i: nat)
    requires |states| == |ops| + 1 && i < |ops|
  {
    states[i + 1] == Apply(states[i], ops[i]).0
  }

  function Seen(ops: seq<Op>, states: seq<Goals>, i: nat): Result
    requires i < |ops| && i < |states|
  {
    Apply(states[i], ops[i]).1
  }

  // ---- One statement at a time ----

  // What a statement can do to a goal.
  lemma Moves(goals: Goals, op: Op, id: string)
    requires id in goals
    ensures var g, g' := goals[id], Apply(goals, op).0[id];
      && id in Apply(goals, op).0
      && g'.fence == g.fence + (if op.id == id && Apply(goals, op).1.Granted? then 1 else 0)
      && (g.status.Closed? ==> g' == g)
      && (forall s :: s in g.stamped ==> s in g'.stamped)
      && (g' != g ==> op.id == id && (Apply(goals, op).1.Granted? || Apply(goals, op).1.Done?))
  {
  }

  lemma {:induction false} FenceGrows(ops: seq<Op>, states: seq<Goals>, i: nat, j: nat, id: string)
    requires Run(ops, states) && i <= j < |states| && id in states[i]
    ensures id in states[j] && states[i][id].fence <= states[j][id].fence
  {
    if i < j {
      FenceGrows(ops, states, i, j - 1, id);
      assert StepAt(ops, states, j - 1);
      Moves(states[j - 1], ops[j - 1], id);
    }
  }

  // ---- Fences ----

  lemma GrantsIncrease(ops: seq<Op>, states: seq<Goals>, i: nat, j: nat)
    requires Run(ops, states) && i < j < |ops| && ops[i].id == ops[j].id
    requires Seen(ops, states, i).Granted? && Seen(ops, states, j).Granted?
    ensures Seen(ops, states, i).fence < Seen(ops, states, j).fence
  {
    assert StepAt(ops, states, i);
    FenceGrows(ops, states, i + 1, j, ops[i].id);
  }

  predicate UsesFence(op: Op) {
    op.Renew? || op.Stamp? || op.Finish? || op.Release?
  }

  // Once a later fence has been granted, nothing done under an earlier one succeeds.
  lemma StaleFencesFail(ops: seq<Op>, states: seq<Goals>, j: nat, k: nat)
    requires Run(ops, states) && j < k < |ops| && ops[j].id == ops[k].id
    requires Seen(ops, states, j).Granted? && UsesFence(ops[k]) && ops[k].fence < Seen(ops, states, j).fence
    ensures !Seen(ops, states, k).Done? && states[k + 1] == states[k]
  {
    assert StepAt(ops, states, j) && StepAt(ops, states, k);
    FenceGrows(ops, states, j + 1, k, ops[j].id);
    assert states[k][ops[k].id := states[k][ops[k].id]] == states[k];
  }

  // ---- The lease ----

  // The op set the expiry that the goal now shows.
  predicate SetsExpiry(op: Op, id: string, at: int) {
    op.id == id && (op.Acquire? || op.Renew?) && at == op.now + op.ttl
  }

  predicate Frees(ops: seq<Op>, states: seq<Goals>, m: nat, id: string)
    requires m < |ops| && m < |states|
  {
    ops[m].id == id && (ops[m].Release? || ops[m].Finish?) && Seen(ops, states, m).Done?
  }

  // From a grant on, until the lease is freed, the goal is closing and its expiry is the
  // one its last acquisition or renewal wrote.
  lemma {:induction false} LeaseStands(ops: seq<Op>, states: seq<Goals>, i: nat, k: nat) returns (m: nat)
    requires Run(ops, states) && i < k < |states| && i < |ops| && Seen(ops, states, i).Granted?
    requires forall n :: i < n < k ==> !Frees(ops, states, n, ops[i].id)
    ensures ops[i].id in states[k] && i <= m < k
    ensures var g := states[k][ops[i].id];
            g.status.Closing? && g.expiresAt.Some? && SetsExpiry(ops[m], ops[i].id, g.expiresAt.value)
    ensures Seen(ops, states, m).Granted? || Seen(ops, states, m).Done?
    decreases k
  {
    assert StepAt(ops, states, k - 1);
    if k == i + 1 {
      m := i;
    } else {
      m := LeaseStands(ops, states, i, k - 1);
      var id := ops[i].id;
      Moves(states[k - 1], ops[k - 1], id);
      assert !Frees(ops, states, k - 1, id);
      if ops[k - 1].id == id && (Seen(ops, states, k - 1).Granted? || (ops[k - 1].Renew? && Seen(ops, states, k - 1).Done?)) {
        m := k - 1;
      }
    }
  }

  // The lease that statement m wrote has run out by the clock of statement k.
  predicate RanOut(ops: seq<Op>, states: seq<Goals>, m: nat, k: nat)
    requires m < k < |ops| && k < |states|
  {
    && ops[k].Acquire? && ops[m].id == ops[k].id && (ops[m].Acquire? || ops[m].Renew?)
    && (Seen(ops, states, m).Granted? || Seen(ops, states, m).Done?)
    && ops[m].now + ops[m].ttl < ops[k].now
  }

  // Nobody acquires a lease that is neither released nor, by his own clock, expired.
  lemma LeaseProtects(ops: seq<Op>, states: seq<Goals>, i: nat, k: nat)
    requires Run(ops, states) && i < k < |ops| && ops[k].Acquire? && ops[k].id == ops[i].id
    requires Seen(ops, states, i).Granted? && Seen(ops, states, k).Granted?
    requires forall n :: i < n < k ==> !Frees(ops, states, n, ops[i].id)
    ensures exists m ::
      i <= m < k && RanOut(ops, states, m, k) && states[k][ops[i].id].expiresAt == Some(ops[m].now + ops[m].ttl)
  {
    var m := LeaseStands(ops, states, i, k);
    assert RanOut(ops, states, m, k);
  }

  // Whoever asks after a lease has run out gets it, whatever its holder does or does not do.
  lemma ExpiredLeaseIsGranted(ops: seq<Op>, states: seq<Goals>, i: nat, k: nat)
    requires Run(ops, states) && i < k < |ops| && ops[k].Acquire? && ops[k].id == ops[i].id
    requires Seen(ops, states, i).Granted? && forall n :: i < n < k ==> !Frees(ops, states, n, ops[i].id)
    requires forall m :: i <= m < k && ops[m].id == ops[i].id && (ops[m].Acquire? || ops[m].Renew?) ==> ops[m].now + ops[m].ttl < ops[k].now
    ensures Seen(ops, states, k).Granted?
  {
    var m := LeaseStands(ops, states, i, k);
  }

  // A goal is created once, open, with no fence granted and no step stamped.
  lemma CreatedOpen(goals: Goals, id: string, now: int)
    ensures var (after, r) := Apply(goals, Create(id, now));
      && (r.Done? <==> id !in goals) && (r.Done? ==> after == goals[id := Goal(Open, 0, None, None, None, map[], None, now)])
      && (!r.Done? ==> after == goals)
  {
    assert id in goals ==> goals[id := goals[id]] == goals;
  }

  // Nothing is done about a goal that is not there.
  lemma UnknownGoal(goals: Goals, op: Op)
    requires op.id !in goals && !op.Create?
    ensures var (after, r) := Apply(goals, op);
      && after == goals
      && r == (if op.Acquire? || op.ReadBack? then NotFound else if op.Finish? then Refused else StaleFence)
  {
  }

  // And a free goal is granted to whoever asks.
  lemma FreeGoalIsGranted(ops: seq<Op>, states: seq<Goals>, n: nat, k: nat)
    requires Run(ops, states) && n < k < |ops| && ops[k].Acquire? && ops[k].id == ops[n].id
    requires ops[n].Create? || ops[n].Release?
    requires Seen(ops, states, n).Done? && forall m :: n < m < k ==> ops[m].id != ops[n].id
    ensures Seen(ops, states, k).Granted?
  {
    assert StepAt(ops, states, n);
    Untouched(ops, states, n + 1, k, ops[n].id);
  }

  lemma {:induction false} Untouched(ops: seq<Op>, states: seq<Goals>, i: nat, j: nat, id: string)
    requires Run(ops, states) && i <= j < |states| && id in states[i] && forall m :: i <= m < j ==> ops[m].id != id
    ensures id in states[j] && states[j][id] == states[i][id]
  {
    if i < j {
      Untouched(ops, states, i, j - 1, id);
      assert StepAt(ops, states, j - 1);
    }
  }

  // ---- Closing ----

  // A stamp that took, under the fence current at that moment.
  predicate StampedAt(ops: seq<Op>, states: seq<Goals>, m: nat, id: string, step: Step)
    requires m < |ops| && m < |states|
  {
    && ops[m].Stamp? && ops[m].id == id && ops[m].step == step
    && id in states[m] && Holds(states[m][id], ops[m].fence)
  }

  lemma {:induction false} StampsComeFromHolders(ops: seq<Op>, states: seq<Goals>, i: nat, id: string, step: Step) returns (m: nat)
    requires Run(ops, states) && i < |states| && id in states[i] && step in states[i][id].stamped
    ensures m < i && StampedAt(ops, states, m, id, step)
  {
    assert StepAt(ops, states, i - 1);
    if id in states[i - 1] && step in states[i - 1][id].stamped {
      m := StampsComeFromHolders(ops, states, i - 1, id, step);
    } else {
      m := i - 1;
    }
  }

  // The update that closed the goal, under the fence current at that moment.
  predicate FinishedAt(ops: seq<Op>, states: seq<Goals>, f: nat, id: string)
    requires f < |ops| && f < |states|
  {
    && ops[f].Finish? && ops[f].id == id
    && id in states[f] && Holds(states[f][id], ops[f].fence) && AllStamped(states[f][id])
  }

  lemma {:induction false} ClosedByFinish(ops: seq<Op>, states: seq<Goals>, i: nat, id: string) returns (f: nat)
    requires Run(ops, states) && i < |states| && id in states[i] && states[i][id].status.Closed?
    ensures f < i && FinishedAt(ops, states, f, id)
  {
    assert StepAt(ops, states, i - 1);
    if id in states[i - 1] && states[i - 1][id].status.Closed? {
      f := ClosedByFinish(ops, states, i - 1, id);
    } else {
      f := i - 1;
    }
  }

  // A closed goal was finished by a holder, after a holder had stamped each of the steps.
  lemma ClosedMeansDone(ops: seq<Op>, states: seq<Goals>, i: nat, id: string, step: Step)
    requires Run(ops, states) && i < |states| && id in states[i] && states[i][id].status.Closed?
    ensures exists m: nat, f: nat :: m < f < i && FinishedAt(ops, states, f, id) && StampedAt(ops, states, m, id, step)
  {
    var f := ClosedByFinish(ops, states, i, id);
    assert step in states[f][id].stamped by {
      assert AllStamped(states[f][id]);
    }
    var m := StampsComeFromHolders(ops, states, f, id, step);
    assert StampedAt(ops, states, m, id, step);
  }

  lemma {:induction false} ClosedForGood(ops: seq<Op>, states: seq<Goals>, i: nat, j: nat, id: string)
    requires Run(ops, states) && i <= j < |states| && id in states[i] && states[i][id].status.Closed?
    ensures id in states[j] && states[j][id] == states[i][id]
    ensures j < |ops| && ops[j].id == id ==> !Seen(ops, states, j).Granted? && !Seen(ops, states, j).Done?
  {
    if i < j {
      ClosedForGood(ops, states, i, j - 1, id);
      assert StepAt(ops, states, j - 1);
      Moves(states[j - 1], ops[j - 1], id);
    }
  }

  // ---- What a failed finish reports ----

  // A holder now, whose fence had been granted before an earlier moment, was one then.
  lemma {:induction false} HeldThroughout(ops: seq<Op>, states: seq<Goals>, i: nat, j: nat, id: string, fence: int)
    requires Run(ops, states) && i <= j < |states| && id in states[i] && fence <= states[i][id].fence
    requires id in states[j] && Holds(states[j][id], fence)
    ensures Holds(states[i][id], fence)
  {
    if i < j {
      FenceGrows(ops, states, i, j - 1, id);
      assert StepAt(ops, states, j - 1);
      Moves(states[j - 1], ops[j - 1], id);
      HeldThroughout(ops, states, i, j - 1, id, fence);
    }
  }

  // Reading the goal back says incomplete exactly to the holder of its lease.
  lemma ReadBackSays(goals: Goals, id: string, fence: int)
    requires id in goals
    ensures var r := Apply(goals, ReadBack(id, fence)).1;
      && (r == Incomplete <==> goals[id].status == Closing && goals[id].fence == fence)
      && (r == Incomplete || r == StaleFence)
  {
  }

  // Whatever happens between the update and the read: a client that is told its close is
  // incomplete held the lease at its update, and a step was missing then.
  lemma IncompleteIsTrue(ops: seq<Op>, states: seq<Goals>, i: nat, j: nat)
    requires Run(ops, states) && i < j < |ops| && ops[i].Finish? && ops[j] == ReadBack(ops[i].id, ops[i].fence)
    requires ops[i].id in states[i] && ops[i].fence <= states[i][ops[i].id].fence
    requires !Seen(ops, states, i).Done? && Seen(ops, states, j).Incomplete?
    ensures Holds(states[i][ops[i].id], ops[i].fence) && !AllStamped(states[i][ops[i].id])
  {
    FenceGrows(ops, states, i, j, ops[i].id);
    HeldThroughout(ops, states, i, j, ops[i].id, ops[i].fence);
  }

  // ---- The program ----

  function StepNamed(name: string): Option<Step> {
    if name == "verified" then Some(Verified)
    else if name == "reflected" then Some(Reflected)
    else if name == "compounded" then Some(Compounded)
    else if name == "successor_proposed" then Some(SuccessorProposed)
    else None
  }

  // The step carries this time, or what it carried before.
  predicate StampedIf(now: bool, was: Goal, g: Goal, step: Step, at: int) {
    if now then step in g.stamped && g.stamped[step] == at
    else (step in g.stamped <==> step in was.stamped) && (step in g.stamped ==> g.stamped[step] == was.stamped[step])
  }

  class Store {
    var goals: Goals

    constructor ()
      ensures goals == map[]
    {
      goals := map[];
    }

    method AcquireClose(id: string, run: string, owner: string, ttl: int, now: int) returns (r: Result)
      modifies this
      ensures (goals, r) == Apply(old(goals), Acquire(id, run, owner, ttl, now))
      ensures r.NotFound? <==> id !in old(goals)
      ensures r.Granted? <==> id in old(goals) && MayAcquire(old(goals)[id], now)
      // An open goal, or one whose lease has run out, is granted; nothing else is.
      ensures r.Granted? <==>
        && id in old(goals)
        && var g := old(goals)[id];
        && (g.status == Open || (g.status == Closing && g.expiresAt != None && g.expiresAt.value < now))
      ensures r.Granted? ==>
        && r.fence == old(goals)[id].fence + 1
        && goals[id] == Goal(Closing, r.fence, Some(run), Some(owner), Some(now + ttl),
                             old(goals)[id].stamped, old(goals)[id].closedAt, now)
      ensures r.Granted? || r.NotFound? || r.LeaseHeld?
      ensures !r.Granted? ==> goals == old(goals)
      ensures forall other :: other != id ==> (other in goals <==> other in old(goals))
      ensures forall other :: other != id && other in goals ==> goals[other] == old(goals)[other]
    {
      if id !in goals {
        return NotFound;
      }
      var g := goals[id];
      if g.status.Open? || (g.status.Closing? && g.expiresAt.Some? && g.expiresAt.value < now) {
        var fence := g.fence + 1;
        goals := goals[id := g.(status := Closing, closingRun := Some(run), owner := Some(owner),
                                expiresAt := Some(now + ttl), fence := fence, updatedAt := now)];
        return Granted(fence);
      }
      assert goals == goals[id := g];
      return LeaseHeld;
    }

    method RenewLease(id: string, fence: int, ttl: int, now: int) returns (r: Result)
      modifies this
      ensures (goals, r) == Apply(old(goals), Renew(id, fence, ttl, now))
      ensures r.Done? <==> id in old(goals) && Holds(old(goals)[id], fence)
      ensures r.Done? <==> id in old(goals) && old(goals)[id].status == Closing && old(goals)[id].fence == fence
      ensures r.Done? ==> goals == old(goals)[id := old(goals)[id].(expiresAt := Some(now + ttl), updatedAt := now)]
      ensures !r.Done? ==> r.StaleFence? && goals == old(goals)
    {
      if id in goals && Holds(goals[id], fence) {
        goals := goals[id := goals[id].(expiresAt := Some(now + ttl), updatedAt := now)];
        return Done;
      }
      assert id in goals ==> goals == goals[id := goals[id]];
      return StaleFence;
    }

    method StampStep(id: string, step: string, fence: int, now: int) returns (r: Result)
      modifies this
      ensures StepNamed(step).None? ==> r == UnknownStep && goals == old(goals)
      ensures StepNamed(step).Some? ==> (goals, r) == Apply(old(goals), Stamp(id, StepNamed(step).value, fence, now))
      ensures r.Done? <==> StepNamed(step).Some? && id in old(goals) && Holds(old(goals)[id], fence)
      // A name stamps its own step, and no other.
      ensures r.Done? ==>
        && id in goals && old(goals)[id].status == Closing && old(goals)[id].fence == fence
        && goals == old(goals)[id := old(goals)[id].(stamped := goals[id].stamped, updatedAt := now)]
        && (step == "verified" || step == "reflected" || step == "compounded" || step == "successor_proposed")
        && StampedIf(step == "verified", old(goals)[id], goals[id], Verified, now)
        && StampedIf(step == "reflected", old(goals)[id], goals[id], Reflected, now)
        && StampedIf(step == "compounded", old(goals)[id], goals[id], Compounded, now)
        && StampedIf(step == "successor_proposed", old(goals)[id], goals[id], SuccessorProposed, now)
      ensures r == UnknownStep <==>
        step != "verified" && step != "reflected" && step != "compounded" && step != "successor_proposed"
      ensures !r.Done? ==> (r.UnknownStep? || r.StaleFence?) && goals == old(goals)
    {
      var column := StepNamed(step);
      if column.None? {
        return UnknownStep;
      }
      if id in goals && Holds(goals[id], fence) {
        var g := goals[id];
        goals := goals[id := g.(stamped := g.stamped[column.value := now], updatedAt := now)];
        return Done;
      }
      assert id in goals ==> goals == goals[id := goals[id]];
      return StaleFence;
    }

    // Alone, a client is told that its close is incomplete exactly when its fence is
    // current and a step is missing.
    method FinishClose(id: string, fence: int, now: int) returns (r: Result)
      modifies this
      ensures goals == Apply(old(goals), Finish(id, fence, now)).0
      ensures r.Done? <==> id in old(goals) && Holds(old(goals)[id], fence) && AllStamped(old(goals)[id])
      ensures r.Incomplete? <==> id in old(goals) && Holds(old(goals)[id], fence) && !AllStamped(old(goals)[id])
      ensures r.NotFound? <==> id !in old(goals)
      ensures r.Done? || r.Incomplete? || r.NotFound? || r.StaleFence?
      // All four steps, each by itself.
      ensures r.Done? <==>
        && id in old(goals)
        && var g := old(goals)[id];
        && g.status == Closing && g.fence == fence
        && Verified in g.stamped && Reflected in g.stamped && Compounded in g.stamped && SuccessorProposed in g.stamped
      ensures goals == if r.Done? then old(goals)[id := old(goals)[id].(status := Closed, closedAt := Some(now), updatedAt := now,
                                                                        owner := None, expiresAt := None)]
                       else old(goals)
    {
      if id in goals && Holds(goals[id], fence) && AllStamped(goals[id]) {
        goals := goals[id := goals[id].(status := Closed, closedAt := Some(now), updatedAt := now,
                                        owner := None, expiresAt := None)];
        return Done;
      }
      assert id in goals ==> goals == goals[id := goals[id]];
      if id !in goals {
        return NotFound;
      }
      if goals[id].status.Closing? && goals[id].fence == fence {
        return Incomplete;
      }
      return StaleFence;
    }

    method ReleaseLease(id: string, fence: int, now: int) returns (r: Result)
      modifies this
      ensures (goals, r) == Apply(old(goals), Release(id, fence, now))
      ensures r.Done? <==> id in old(goals) && Holds(old(goals)[id], fence)
      ensures r.Done? <==> id in old(goals) && old(goals)[id].status == Closing && old(goals)[id].fence == fence
      ensures r.Done? ==>
        goals == old(goals)[id := old(goals)[id].(status := Open, owner := None, expiresAt := None, closingRun := None, updatedAt := now)]
      ensures !r.Done? ==> r.StaleFence? && goals == old(goals)
    {
      if id in goals && Holds(goals[id], fence) {
        goals := goals[id := goals[id].(status := Open, owner := None, expiresAt := None, closingRun := None, updatedAt := now)];
        return Done;
      }
      assert id in goals ==> goals == goals[id := goals[id]];
      return StaleFence;
    }
  }
}

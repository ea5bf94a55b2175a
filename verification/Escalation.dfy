// The two-strikes escalation ladder: RetryWithEscalation of
// internal/dispatch/escalate.go. What the routing resolver answers is an input.
module Escalation {
  import opened Basics
  import DispatchModel
  import DispatchLimits
  import DispatchOutcomes
  import DispatchStore

  datatype FailureMode =
    | Timeout | Error | Verdict | Criteria | Unknown | Capability | Premise
    | Authentication | RateLimit | Permission | Infrastructure

  // Failures that say the model was not up to the work.
  predicate CapabilityStrike(m: FailureMode) {
    m.Capability? || m.Premise? || m.Criteria? || m.Verdict?
  }

  // A routing configuration: its hash, and the identity it gives a model name.
  datatype Routing = Routing(policyHash: string, identity: string -> string)

  datatype Policy = Policy(
    maxRetries: int, retryOnTimeout: bool, ladder: seq<string>, strikesPerRung: int, maxEscalations: int,
    routing: Option<Routing>)

  // A routing decision, as far as escalation looks at it.
  datatype Decision = Decision(review: bool, backend: string, policyHash: string)

  // One model the resolver offers, with the decision it comes with.
  datatype Candidate = Candidate(model: string, identity: string, decision: Decision)

  datatype Failure = Failure(mode: FailureMode, detail: string)

  datatype Chain = Chain(
    dispatches: seq<string>, models: seq<string>, failures: seq<Failure>,
    currentModel: string, strikes: int, escalations: int, exhausted: bool,
    decision: Option<Decision>, retries: map<string, string>)

  const FRESH: Chain := Chain([], [], [], "", 0, 0, false, None, map[])

  // ---- The ladder ----

  predicate RungAt(ladder: seq<string>, model: string, i: nat) {
    i + 1 < |ladder| && ladder[i] == model
  }

  // The first place where the model stands with a rung above it.
  function FindRung(ladder: seq<string>, model: string, from: nat): (i: nat)
    requires from <= |ladder|
    ensures from <= i <= |ladder|
    ensures i < |ladder| ==> RungAt(ladder, model, i)
    ensures forall j :: from <= j < i ==> !RungAt(ladder, model, j)
    decreases |ladder| - from
  {
    if from == |ladder| || RungAt(ladder, model, from) then from else FindRung(ladder, model, from + 1)
  }

  // None: unknown models and the top rung fail closed.
  function NextRung(ladder: seq<string>, model: string): Option<string> {
    var i := FindRung(ladder, model, 0);
    if i < |ladder| then Some(ladder[i + 1]) else None
  }

  method NextRungModel(p: Policy, current: string, strikes: int) returns (r: Option<string>)
    ensures strikes < p.strikesPerRung ==> r == Some(current)
    ensures strikes >= p.strikesPerRung ==> r == NextRung(p.ladder, current)
  {
    if strikes < p.strikesPerRung {
      return Some(current);
    }
    for i := 0 to |p.ladder|
      invariant forall j :: 0 <= j < i ==> !RungAt(p.ladder, current, j)
    {
      if p.ladder[i] == current && i + 1 < |p.ladder| {
        assert RungAt(p.ladder, current, i);
        return Some(p.ladder[i + 1]);
      }
    }
    return None;
  }

  // ---- Candidates of the resolver ----

  predicate Tried(identity: string -> string, models: seq<string>, id: string) {
    exists m :: m in models && identity(m) == id
  }

  // The first candidate whose identity no model of the chain has.
  function FindUntried(candidates: seq<Candidate>, identity: string -> string, models: seq<string>, from: nat): (i: nat)
    requires from <= |candidates|
    ensures from <= i <= |candidates|
    ensures i < |candidates| ==> !Tried(identity, models, candidates[i].identity)
    ensures forall j :: from <= j < i ==> Tried(identity, models, candidates[j].identity)
    decreases |candidates| - from
  {
    if from == |candidates| || !Tried(identity, models, candidates[from].identity) then from
    else FindUntried(candidates, identity, models, from + 1)
  }

  method FirstUntried(candidates: seq<Candidate>, identity: string -> string, models: seq<string>) returns (i: nat)
    ensures i == FindUntried(candidates, identity, models, 0)
  {
    i := 0;
    while i < |candidates|
      invariant i <= |candidates|
      invariant forall j :: 0 <= j < i ==> Tried(identity, models, candidates[j].identity)
    {
      var seen := false;
      for k := 0 to |models|
        invariant seen <==> Tried(identity, models[..k], candidates[i].identity)
      {
        assert models[..k + 1] == models[..k] + [models[k]];
        if identity(models[k]) == candidates[i].identity {
          seen := true;
        }
      }
      assert models[..|models|] == models;
      if !seen {
        return;
      }
      i := i + 1;
    }
  }

  // ---- One call ----

  // Where the call is cut short by the state store or the decision store, if it is.
  datatype Fault =
    | Fine
    | ChainUnread     // the chain is not read
    | FailureUnsaved  // the failure is not saved
    | DecisionUnread  // the decision of the failed dispatch is not read
    | OutcomeUnsaved  // the decision of the retry is not recorded, or the chain not saved again

  // A failed dispatch, the model it ran, the decision stored for it, and what the
  // resolver offers when asked for an escalation: its choice, then its fallbacks.
  datatype Call = Call(
    id: string, model: string, mode: FailureMode, detail: string,
    stored: Option<Decision>, offered: Option<seq<Candidate>>, fault: Fault)

  datatype Outcome =
    | NotRetryable
    | AlreadyExhausted
    | AlreadyRetried(retry: string)
    | PolicyChanged
    | NeedsReviewContract
    | FrontierUnavailable
    | Exhausted
    | NotAdmitted
    | StoreFailed
    | Retried(newId: string, model: string, escalated: bool)

  // The failure is put on the chain once per dispatch.
  function Recorded(cs: Chain, p: Policy, call: Call): Chain {
    var model := if cs.currentModel == "" then call.model else cs.currentModel;
    if call.id in cs.dispatches then cs.(currentModel := model)
    else
      cs.(currentModel := model,
          dispatches := cs.dispatches + [call.id],
          models := cs.models + [model],
          failures := cs.failures + [Failure(call.mode, call.detail)],
          strikes := if call.mode.Premise? then p.strikesPerRung
                     else if CapabilityStrike(call.mode) then cs.strikes + 1 else cs.strikes)
  }

  function DecisionFor(cs: Chain, call: Call): Option<Decision> {
    if cs.decision.Some? then cs.decision else call.stored
  }

  predicate StrikeDue(cs: Chain, p: Policy, mode: FailureMode) {
    CapabilityStrike(mode) && cs.strikes >= p.strikesPerRung
  }

  // Decided under another routing configuration than the one in force.
  predicate OtherPolicy(cs: Chain, p: Policy, call: Call) {
    var decision := DecisionFor(cs, call);
    decision.Some? && p.routing.Some? && decision.value.policyHash != p.routing.value.policyHash
  }

  predicate ReviewDue(cs: Chain, p: Policy, call: Call) {
    var decision := DecisionFor(cs, call);
    decision.Some? && decision.value.review && StrikeDue(cs, p, call.mode)
  }

  // Why no model is looked for, if none is.
  function Refusal(cs: Chain, p: Policy, call: Call): Option<Outcome> {
    if OtherPolicy(cs, p, call) then Some(PolicyChanged)
    else if ReviewDue(cs, p, call) then Some(NeedsReviewContract)
    else if StrikeDue(cs, p, call.mode) && p.routing.Some? && call.offered.None? then Some(FrontierUnavailable)
    else None
  }

  datatype Next = Next(model: string, decision: Option<Decision>)

  // The model above: the first untried candidate, or the next rung of the ladder.
  function NextUp(cs: Chain, p: Policy, call: Call): Option<Next> {
    if p.routing.Some? then
      if call.offered.None? then None
      else
        var candidates := call.offered.value;
        var i := FindUntried(candidates, p.routing.value.identity, cs.models, 0);
        if i < |candidates| then Some(Next(candidates[i].model, Some(candidates[i].decision))) else None
    else
      var rung := NextRung(p.ladder, cs.currentModel);
      if rung.Some? then Some(Next(rung.value, DecisionFor(cs, call))) else None
  }

  // The next attempt; None when the chain can go no further.
  function NextAttempt(cs: Chain, p: Policy, call: Call): Option<Next> {
    var next := if StrikeDue(cs, p, call.mode) then NextUp(cs, p, call)
                else Some(Next(cs.currentModel, DecisionFor(cs, call)));
    if next.Some? && next.value.model != cs.currentModel && cs.escalations >= p.maxEscalations then None else next
  }

  function Escalated(cs: Chain, model: string): Chain {
    if model == cs.currentModel then cs
    else cs.(escalations := cs.escalations + 1, currentModel := model, strikes := 0)
  }

  // What the call stores and reports. `admitted` is the id the admission gives, if any.
  function Attempt(cs: Chain, p: Policy, call: Call, admitted: Option<string>): (Chain, Outcome) {
    if call.fault.ChainUnread? then (cs, StoreFailed)
    else if cs.exhausted then (cs, AlreadyExhausted)
    else if call.id in cs.retries then (cs, AlreadyRetried(cs.retries[call.id]))
    else if call.fault.FailureUnsaved? then (cs, StoreFailed)
    else
      Resolved(Recorded(cs, p, call), p, call, admitted)
  }

  // What becomes of the chain once the failure is on it.
  function Resolved(r: Chain, p: Policy, call: Call, admitted: Option<string>): (Chain, Outcome) {
    var refusal, next := Refusal(r, p, call), NextAttempt(r, p, call);
    if call.fault.DecisionUnread? then (r, StoreFailed)
    else if refusal.Some? then (r, refusal.value)
    else if next.None? then (if call.fault.OutcomeUnsaved? then r else r.(exhausted := true), Exhausted)
    else if admitted.None? then (r, NotAdmitted)
    else if call.fault.OutcomeUnsaved? then (r, StoreFailed)
    else
      (Escalated(r, next.value.model).(decision := next.value.decision, retries := r.retries[call.id := admitted.value]),
       Retried(admitted.value, next.value.model, next.value.model != r.currentModel))
  }

  // ---- Which failures count ----

  // Failures that are not the model's fault never strike, escalate or exhaust.
  lemma OtherFailuresAreFree(cs: Chain, p: Policy, call: Call, admitted: Option<string>)
    requires call.mode == Timeout || call.mode == Error || call.mode == Unknown || call.mode == Authentication
             || call.mode == RateLimit || call.mode == Permission || call.mode == Infrastructure
    ensures var (after, outcome) := Attempt(cs, p, call, admitted);
      && after.strikes == cs.strikes && after.escalations == cs.escalations && after.exhausted == cs.exhausted
      && after.currentModel == (if cs.currentModel != "" || after == cs then cs.currentModel else call.model)
      && outcome != Exhausted && outcome != NeedsReviewContract && outcome != FrontierUnavailable
      && (outcome.Retried? ==> !outcome.escalated && outcome.model == after.currentModel)
  {
  }

  // Whether the call gets as far as putting a failure on the chain that was not there.
  predicate Records(cs: Chain, call: Call) {
    && call.fault != ChainUnread && call.fault != FailureUnsaved && !cs.exhausted
    && call.id !in cs.retries && call.id !in cs.dispatches
  }

  // The strikes with the failure: one more for a capability failure, failed criteria or a
  // failed verdict; a false premise takes all of the rung.
  function StrikesWith(cs: Chain, p: Policy, mode: FailureMode): int {
    if mode == Premise then p.strikesPerRung
    else if mode == Capability || mode == Criteria || mode == Verdict then cs.strikes + 1
    else cs.strikes
  }

  lemma StrikesAreCounted(cs: Chain, p: Policy, call: Call, admitted: Option<string>)
    requires Records(cs, call)
    ensures var (after, outcome) := Attempt(cs, p, call, admitted);
      && after.strikes == (if outcome.Retried? && outcome.escalated then 0 else StrikesWith(cs, p, call.mode))
      && |after.dispatches| == |cs.dispatches| + 1 && after.dispatches[|cs.dispatches|] == call.id
      && |after.failures| == |cs.failures| + 1 && after.failures[|cs.failures|] == Failure(call.mode, call.detail)
      && |after.models| == |cs.models| + 1
      && after.models[|cs.models|] == (if cs.currentModel == "" then call.model else cs.currentModel)
  {
  }

  // Below the limit a recorded failure is retried on the model it failed on.
  lemma BelowTheLimit(cs: Chain, p: Policy, call: Call, admitted: Option<string>)
    requires Records(cs, call) && StrikesWith(cs, p, call.mode) < p.strikesPerRung
    ensures var outcome := Attempt(cs, p, call, admitted).1;
      && outcome != Exhausted && outcome != NeedsReviewContract && outcome != FrontierUnavailable
      && (outcome.Retried? ==> !outcome.escalated && outcome.model == if cs.currentModel == "" then call.model else cs.currentModel)
  {
  }

  // The rung after the first place of the model on the ladder.
  predicate NextOnLadder(ladder: seq<string>, model: string, next: string) {
    exists i :: 0 <= i < |ladder| - 1 && ladder[i] == model && ladder[i + 1] == next && model !in ladder[..i]
  }

  // At the limit each of the four goes up the ladder, or exhausts the chain.
  lemma AtTheLimit(cs: Chain, p: Policy, call: Call, admitted: Option<string>)
    requires Records(cs, call) && p.routing.None? && Refusal(Recorded(cs, p, call), p, call).None? && call.fault != DecisionUnread
    requires call.mode == Capability || call.mode == Criteria || call.mode == Verdict || call.mode == Premise
    requires StrikesWith(cs, p, call.mode) >= p.strikesPerRung
    ensures var outcome := Attempt(cs, p, call, admitted).1;
            var model := if cs.currentModel == "" then call.model else cs.currentModel;
      && (outcome.Retried? ==> NextOnLadder(p.ladder, model, outcome.model))
      && (outcome.Retried? ==> outcome.escalated == (outcome.model != model))
      && (call.fault.Fine? ==>
            (outcome.Exhausted? <==>
             forall next :: NextOnLadder(p.ladder, model, next) ==> next != model && cs.escalations >= p.maxEscalations))
  {
    var model := if cs.currentModel == "" then call.model else cs.currentModel;
    var i := FindRung(p.ladder, model, 0);
    if i < |p.ladder| {
      assert model !in p.ladder[..i] by {
        forall j | 0 <= j < i
          ensures p.ladder[j] != model
        {
          assert !RungAt(p.ladder, model, j);
        }
      }
      assert NextOnLadder(p.ladder, model, p.ladder[i + 1]);
    } else {
      forall next
        ensures !NextOnLadder(p.ladder, model, next)
      {
        forall j | 0 <= j < |p.ladder| - 1
          ensures p.ladder[j] != model
        {
          assert !RungAt(p.ladder, model, j);
        }
      }
    }
  }

  predicate IsNew(p: Policy, models: seq<string>, c: Candidate)
    requires p.routing.Some?
  {
    forall m :: m in models ==> p.routing.value.identity(m) != c.identity
  }

  // The first candidate on offer whose identity no model of the list has.
  predicate FirstNew(p: Policy, call: Call, models: seq<string>, c: Candidate)
    requires p.routing.Some? && call.offered.Some?
  {
    exists i :: 0 <= i < |call.offered.value| && call.offered.value[i] == c && IsNew(p, models, c)
                && forall j :: 0 <= j < i ==> !IsNew(p, models, call.offered.value[j])
  }

  // With a routing configuration it goes to the first offered model that no earlier
  // failure ran on, or exhausts the chain when there is none.
  lemma AtTheLimitOfRouting(cs: Chain, p: Policy, call: Call, admitted: Option<string>)
    requires Records(cs, call) && p.routing.Some? && call.offered.Some?
    requires Refusal(Recorded(cs, p, call), p, call).None? && call.fault != DecisionUnread
    requires call.mode == Capability || call.mode == Criteria || call.mode == Verdict || call.mode == Premise
    requires StrikesWith(cs, p, call.mode) >= p.strikesPerRung
    ensures var after, outcome := Attempt(cs, p, call, admitted).0, Attempt(cs, p, call, admitted).1;
      && (outcome.Retried? ==> exists c :: FirstNew(p, call, after.models, c) && c.model == outcome.model && after.decision == Some(c.decision))
      && (call.fault.Fine? ==>
            (outcome.Exhausted? <==>
             forall c :: FirstNew(p, call, after.models, c) ==>
               c.model != (if cs.currentModel == "" then call.model else cs.currentModel) && cs.escalations >= p.maxEscalations))
  {
    FirstNewIsFound(p, call, Recorded(cs, p, call).models);
  }

  // Looking for an untried candidate finds the first new one, if there is one.
  lemma FirstNewIsFound(p: Policy, call: Call, models: seq<string>)
    requires p.routing.Some? && call.offered.Some?
    ensures var candidates := call.offered.value;
            var i := FindUntried(candidates, p.routing.value.identity, models, 0);
      && (i < |candidates| ==> FirstNew(p, call, models, candidates[i]))
      && forall c :: FirstNew(p, call, models, c) ==> i < |candidates| && c == candidates[i]
  {
    var candidates := call.offered.value;
    forall j | 0 <= j < |candidates|
      ensures IsNew(p, models, candidates[j]) <==> !Tried(p.routing.value.identity, models, candidates[j].identity)
    {
    }
  }

  // Why a call is refused, if it is: the decision in force is the chain's, or the one stored
  // for the failed dispatch.
  lemma RefusalMeans(cs: Chain, p: Policy, call: Call)
    ensures var decision := if cs.decision == None then call.stored else cs.decision;
            var due := (call.mode == Capability || call.mode == Criteria || call.mode == Verdict || call.mode == Premise)
                       && cs.strikes >= p.strikesPerRung;
      && (Refusal(cs, p, call) == Some(PolicyChanged) <==>
            decision.Some? && p.routing.Some? && decision.value.policyHash != p.routing.value.policyHash)
      && (Refusal(cs, p, call) == Some(NeedsReviewContract) <==>
            Refusal(cs, p, call) != Some(PolicyChanged) && decision.Some? && decision.value.review && due)
      && (Refusal(cs, p, call) == Some(FrontierUnavailable) <==>
            Refusal(cs, p, call) != Some(PolicyChanged) && Refusal(cs, p, call) != Some(NeedsReviewContract)
            && due && p.routing.Some? && call.offered.None?)
      && (Refusal(cs, p, call).Some? ==>
            Refusal(cs, p, call).value in {PolicyChanged, NeedsReviewContract, FrontierUnavailable})
  {
  }

  // ---- Runs of calls on one chain ----

  datatype Turn = Turn(call: Call, admitted: Option<string>)

  ghost predicate Run(p: Policy, turns: seq<Turn>, states: seq<Chain>) {
    && |states| == |turns| + 1 && states[0] == FRESH
    && forall i {:trigger TurnAt(p, turns, states, i)} :: 0 <= i < |turns| ==> TurnAt(p, turns, states, i)
  }

  ghost predicate TurnAt(p: Policy, turns: seq<Turn>, states: seq<Chain>, i: nat)
    requires |states| == |turns| + 1 && i < |turns|
  {
    states[i + 1] == Attempt(states[i], p, turns[i].call, turns[i].admitted).0
  }

  function Reported(p: Policy, turns: seq<Turn>, states: seq<Chain>, i: nat): Outcome
    requires i < |turns| && i < |states|
  {
    Attempt(states[i], p, turns[i].call, turns[i].admitted).1
  }

  // ---- What every call keeps ----

  // Histories of one length, one entry per dispatch; only recorded dispatches are retried.
  predicate Kept(cs: Chain, p: Policy) {
    && |cs.dispatches| == |cs.models| == |cs.failures|
    && (forall i, j :: 0 <= i < j < |cs.dispatches| ==> cs.dispatches[i] != cs.dispatches[j])
    && (forall id :: id in cs.retries ==> id in cs.dispatches)
    && 0 <= cs.escalations && (cs.escalations <= p.maxEscalations || cs.escalations == 0)
  }

  lemma AttemptKeeps(cs: Chain, p: Policy, call: Call, admitted: Option<string>)
    requires Kept(cs, p)
    ensures Kept(Attempt(cs, p, call, admitted).0, p)
  {
    RecordedKeeps(cs, p, call);
    ResolvedKeeps(Recorded(cs, p, call), p, call, admitted);
  }

  lemma RecordedKeeps(cs: Chain, p: Policy, call: Call)
    requires Kept(cs, p)
    ensures Kept(Recorded(cs, p, call), p) && call.id in Recorded(cs, p, call).dispatches
  {
    var dispatches := Recorded(cs, p, call).dispatches;
    assert forall id :: id in cs.dispatches ==> id in dispatches;
  }

  lemma ResolvedKeeps(r: Chain, p: Policy, call: Call, admitted: Option<string>)
    requires Kept(r, p) && call.id in r.dispatches
    ensures Kept(Resolved(r, p, call, admitted).0, p)
  {
  }

  lemma {:induction false} ReachableKept(p: Policy, turns: seq<Turn>, states: seq<Chain>, i: nat)
    requires Run(p, turns, states) && i < |states|
    ensures Kept(states[i], p)
  {
    if i > 0 {
      ReachableKept(p, turns, states, i - 1);
      assert TurnAt(p, turns, states, i - 1);
      AttemptKeeps(states[i - 1], p, turns[i - 1].call, turns[i - 1].admitted);
    }
  }

  // ---- Termination ----

  function NonNegative(n: int): nat {
    if n < 0 then 0 else n
  }

  // Escalations left, then strikes left on the rung.
  function Measure(cs: Chain, p: Policy): nat
    requires p.strikesPerRung >= 0
  {
    NonNegative(p.maxEscalations - cs.escalations) * (p.strikesPerRung + 1) + NonNegative(p.strikesPerRung - cs.strikes)
  }

  // The model above is not the model itself.
  predicate StepsUp(cs: Chain, p: Policy, call: Call) {
    var next := NextUp(cs, p, call);
    next.Some? ==> next.value.model != cs.currentModel
  }

  // On a ladder without repetitions it never is.
  lemma DistinctLadderStepsUp(cs: Chain, p: Policy, call: Call)
    requires p.routing.None? && forall i, j :: 0 <= i < j < |p.ladder| ==> p.ladder[i] != p.ladder[j]
    ensures StepsUp(cs, p, call)
  {
  }

  // The resolver gives a candidate the identity the configuration gives its model.
  predicate Consistent(p: Policy, call: Call) {
    p.routing.Some? && call.offered.Some? ==>
      forall c :: c in call.offered.value ==> c.model != "" && p.routing.value.identity(c.model) == c.identity
  }

  // Nor is it for the resolver: the model that just failed counts as tried.
  lemma RoutingStepsUp(cs: Chain, p: Policy, call: Call)
    requires p.routing.Some? && Consistent(p, call) && call.id !in cs.dispatches
    ensures StepsUp(Recorded(cs, p, call), p, call)
  {
    var r := Recorded(cs, p, call);
    assert r.models[|r.models| - 1] == r.currentModel;
    assert r.currentModel in r.models;
  }

  // A capability failure that gets another attempt, recorded by this call or earlier.
  predicate CapabilityRetry(cs: Chain, p: Policy, call: Call, admitted: Option<string>) {
    CapabilityStrike(call.mode) && Attempt(cs, p, call, admitted).1.Retried?
  }

  lemma OneLess(a: nat, b: nat, s: nat)
    requires a == b + 1
    ensures b * (s + 1) + s == a * (s + 1) - 1
  {
  }

  // For a failure that this call records it falls, unless the rung is out of strikes and
  // the model above is the same model. For one recorded earlier it falls only when the
  // rung is out of strikes and the call steps up.
  lemma MeasureFalls(cs: Chain, p: Policy, call: Call, admitted: Option<string>)
    requires p.strikesPerRung >= 0 && CapabilityRetry(cs, p, call, admitted)
    ensures Measure(Attempt(cs, p, call, admitted).0, p) < Measure(cs, p) <==>
            if call.id in cs.dispatches then cs.strikes >= p.strikesPerRung && StepsUp(Recorded(cs, p, call), p, call)
            else cs.strikes < p.strikesPerRung || StepsUp(Recorded(cs, p, call), p, call)
  {
    if Attempt(cs, p, call, admitted).1.escalated {
      OneLess(p.maxEscalations - cs.escalations, p.maxEscalations - cs.escalations - 1, p.strikesPerRung);
    }
  }

  lemma MeasureNeverRises(cs: Chain, p: Policy, call: Call, admitted: Option<string>)
    requires p.strikesPerRung >= 0
    ensures Measure(Attempt(cs, p, call, admitted).0, p) <= Measure(cs, p)
  {
    var after, outcome := Attempt(cs, p, call, admitted).0, Attempt(cs, p, call, admitted).1;
    if outcome.Retried? && outcome.escalated {
      OneLess(p.maxEscalations - cs.escalations, p.maxEscalations - cs.escalations - 1, p.strikesPerRung);
    }
  }

  // The simpler measure falls only for failures that the call records, and not even for
  // those when the rung has all its strikes already and the call steps up.
  function PlainMeasure(cs: Chain, p: Policy): int {
    (p.maxEscalations - cs.escalations) * p.strikesPerRung + (p.strikesPerRung - cs.strikes)
  }

  lemma PlainMeasureFalls(cs: Chain, p: Policy, call: Call, admitted: Option<string>)
    requires p.strikesPerRung >= 0 && CapabilityRetry(cs, p, call, admitted)
    ensures PlainMeasure(Attempt(cs, p, call, admitted).0, p) < PlainMeasure(cs, p) <==>
      && call.id !in cs.dispatches
      && (cs.strikes < p.strikesPerRung || (!call.mode.Premise? && !StepsUp(Recorded(cs, p, call), p, call)))
  {
    if Attempt(cs, p, call, admitted).1.escalated {
      var left := p.maxEscalations - cs.escalations;
      assert (left - 1) * p.strikesPerRung + p.strikesPerRung == left * p.strikesPerRung;
    }
  }

  // One escalation refused, and the next failure escalates without its falling.
  lemma PlainMeasureStalls(m0: string, m1: string, first: Call, second: Call, id: string)
    requires m0 != "" && m1 != m0 && first.model == m0 && first.id != second.id
    requires first.mode.Capability? && second.mode.Capability? && first.stored.None? && second.stored.None?
    requires first.fault.Fine? && second.fault.Fine?
    ensures var p := Policy(4, true, [m0, m1], 1, 2, None);
            var refused, climbed := Attempt(FRESH, p, first, None), Attempt(Attempt(FRESH, p, first, None).0, p, second, Some(id));
      && Run(p, [Turn(first, None), Turn(second, Some(id))], [FRESH, refused.0, climbed.0])
      && refused.1 == NotAdmitted && climbed.1 == Retried(id, m1, true)
      && CapabilityRetry(refused.0, p, second, Some(id))
      && PlainMeasure(climbed.0, p) == PlainMeasure(refused.0, p)
  {
    var p := Policy(4, true, [m0, m1], 1, 2, None);
    var refused := Attempt(FRESH, p, first, None);
    assert RungAt(p.ladder, m0, 0);
    assert refused.0.strikes == 1 && refused.0.currentModel == m0 && refused.0.dispatches == [first.id];
  }

  // ---- How many retries a run can have ----

  function CapabilityRetries(p: Policy, turns: seq<Turn>, states: seq<Chain>, n: nat): nat
    requires n <= |turns| && n <= |states|
  {
    if n == 0 then 0
    else CapabilityRetries(p, turns, states, n - 1) +
         if CapabilityRetry(states[n - 1], p, turns[n - 1].call, turns[n - 1].admitted) then 1 else 0
  }

  // The call records a failure and does not retry it.
  predicate Defers(cs: Chain, p: Policy, call: Call, admitted: Option<string>) {
    var (after, outcome) := Attempt(cs, p, call, admitted);
    call.id !in cs.dispatches && call.id in after.dispatches && !outcome.Retried?
  }

  function Deferrals(p: Policy, turns: seq<Turn>, states: seq<Chain>, n: nat): nat
    requires n <= |turns| && n <= |states|
  {
    if n == 0 then 0
    else Deferrals(p, turns, states, n - 1) +
         if Defers(states[n - 1], p, turns[n - 1].call, turns[n - 1].admitted) then 1 else 0
  }

  // Failures on the chain that were not retried so far.
  function Waiting(cs: Chain): int {
    |cs.dispatches| - |cs.retries|
  }

  // Every newly recorded capability failure that is retried steps up when it escalates.
  predicate StepsUpAt(p: Policy, turns: seq<Turn>, states: seq<Chain>, i: nat)
    requires i < |turns| && i < |states|
  {
    var cs, call := states[i], turns[i].call;
    CapabilityRetry(cs, p, call, turns[i].admitted) && call.id !in cs.dispatches ==> StepsUp(Recorded(cs, p, call), p, call)
  }

  lemma RetriesAreFew(cs: Chain, p: Policy)
    requires Kept(cs, p)
    ensures Waiting(cs) >= 0
  {
    NoRepeatsSize(cs.dispatches);
    assert cs.retries.Keys <= Elements(cs.dispatches);
    SubsetSize(cs.retries.Keys, Elements(cs.dispatches));
  }

  lemma AttemptCounts(cs: Chain, p: Policy, call: Call, admitted: Option<string>)
    requires p.strikesPerRung >= 0 && Kept(cs, p)
    requires CapabilityRetry(cs, p, call, admitted) && call.id !in cs.dispatches ==> StepsUp(Recorded(cs, p, call), p, call)
    ensures var after := Attempt(cs, p, call, admitted).0;
      Measure(after, p) + Waiting(after) + (if CapabilityRetry(cs, p, call, admitted) then 1 else 0) <=
      Measure(cs, p) + Waiting(cs) + (if Defers(cs, p, call, admitted) then 1 else 0)
  {
    MeasureNeverRises(cs, p, call, admitted);
    if CapabilityRetry(cs, p, call, admitted) {
      MeasureFalls(cs, p, call, admitted);
    }
    WaitingMoves(cs, p, call, admitted);
  }

  lemma WaitingMoves(cs: Chain, p: Policy, call: Call, admitted: Option<string>)
    requires Kept(cs, p)
    ensures var after, retried := Attempt(cs, p, call, admitted).0, Attempt(cs, p, call, admitted).1.Retried?;
      Waiting(after) == Waiting(cs) + (if Defers(cs, p, call, admitted) then 1 else 0)
                                    - (if retried && call.id in cs.dispatches then 1 else 0)
  {
    assert call.id !in cs.retries ==> |cs.retries[call.id := if admitted.Some? then admitted.value else ""]| == |cs.retries| + 1;
  }

  // The capability failures that get another attempt are at most the first measure and
  // the failures that were recorded without being retried, less those still waiting.
  lemma {:induction false} ChainIsBounded(p: Policy, turns: seq<Turn>, states: seq<Chain>, n: nat)
    requires p.strikesPerRung >= 0 && Run(p, turns, states) && n <= |turns|
    requires forall i {:trigger StepsUpAt(p, turns, states, i)} :: 0 <= i < n ==> StepsUpAt(p, turns, states, i)
    ensures CapabilityRetries(p, turns, states, n) + Measure(states[n], p) + Waiting(states[n]) <=
            Measure(FRESH, p) + Deferrals(p, turns, states, n)
    ensures Waiting(states[n]) >= 0
    ensures Measure(FRESH, p) == NonNegative(p.maxEscalations) * (p.strikesPerRung + 1) + p.strikesPerRung
  {
    WaitingIsNatural(p, turns, states, n);
    if n > 0 {
      ChainIsBounded(p, turns, states, n - 1);
      assert StepsUpAt(p, turns, states, n - 1);
      TurnCounts(p, turns, states, n - 1);
    }
  }

  lemma WaitingIsNatural(p: Policy, turns: seq<Turn>, states: seq<Chain>, n: nat)
    requires Run(p, turns, states) && n < |states|
    ensures Waiting(states[n]) >= 0
  {
    ReachableKept(p, turns, states, n);
    RetriesAreFew(states[n], p);
  }

  lemma TurnCounts(p: Policy, turns: seq<Turn>, states: seq<Chain>, i: nat)
    requires p.strikesPerRung >= 0 && Run(p, turns, states) && i < |turns| && StepsUpAt(p, turns, states, i)
    ensures Measure(states[i + 1], p) + Waiting(states[i + 1]) +
            (if CapabilityRetry(states[i], p, turns[i].call, turns[i].admitted) then 1 else 0) <=
            Measure(states[i], p) + Waiting(states[i]) +
            (if Defers(states[i], p, turns[i].call, turns[i].admitted) then 1 else 0)
  {
    ReachableKept(p, turns, states, i);
    assert TurnAt(p, turns, states, i);
    AttemptCounts(states[i], p, turns[i].call, turns[i].admitted);
  }

  // On a ladder of distinct models, whatever the calls.
  lemma DistinctLadderIsBounded(p: Policy, turns: seq<Turn>, states: seq<Chain>, n: nat)
    requires p.strikesPerRung >= 0 && Run(p, turns, states) && n <= |turns|
    requires p.routing.None? && forall i, j :: 0 <= i < j < |p.ladder| ==> p.ladder[i] != p.ladder[j]
    ensures CapabilityRetries(p, turns, states, n) <=
            NonNegative(p.maxEscalations) * (p.strikesPerRung + 1) + p.strikesPerRung + Deferrals(p, turns, states, n)
  {
    forall i | 0 <= i < n
      ensures StepsUpAt(p, turns, states, i)
    {
      DistinctLadderStepsUp(Recorded(states[i], p, turns[i].call), p, turns[i].call);
    }
    ChainIsBounded(p, turns, states, n);
  }

  // With a routing configuration, whatever the resolver offers.
  lemma RoutingIsBounded(p: Policy, turns: seq<Turn>, states: seq<Chain>, n: nat)
    requires p.strikesPerRung >= 0 && Run(p, turns, states) && n <= |turns|
    requires p.routing.Some? && forall i :: 0 <= i < n ==> Consistent(p, turns[i].call)
    ensures CapabilityRetries(p, turns, states, n) <=
            NonNegative(p.maxEscalations) * (p.strikesPerRung + 1) + p.strikesPerRung + Deferrals(p, turns, states, n)
  {
    forall i | 0 <= i < n
      ensures StepsUpAt(p, turns, states, i)
    {
      if turns[i].call.id !in states[i].dispatches {
        RoutingStepsUp(states[i], p, turns[i].call);
      }
    }
    ChainIsBounded(p, turns, states, n);
  }

  // With nothing left, a capability failure that was not retried yet exhausts the chain
  // exactly when the call is not refused or cut short first.
  lemma SpentChainExhausts(cs: Chain, p: Policy, call: Call, admitted: Option<string>)
    requires p.strikesPerRung >= 0 && Kept(cs, p) && Measure(cs, p) == 0
    requires !cs.exhausted && CapabilityStrike(call.mode) && call.id !in cs.retries
    requires StepsUp(Recorded(cs, p, call), p, call)
    ensures Attempt(cs, p, call, admitted).1.Exhausted? <==>
      (call.fault.Fine? || call.fault.OutcomeUnsaved?) && Refusal(Recorded(cs, p, call), p, call).None?
    ensures Attempt(cs, p, call, admitted).0.exhausted <==>
      call.fault.Fine? && Refusal(Recorded(cs, p, call), p, call).None?
    ensures !Attempt(cs, p, call, admitted).1.Retried?
  {
    FactorAtMostProduct(NonNegative(p.maxEscalations - cs.escalations), p.strikesPerRung);
  }

  lemma FactorAtMostProduct(a: nat, b: nat)
    ensures a <= a * (b + 1)
  {
  }

  // ---- Failures refused first and retried later ----

  // Two models, one strike per rung, one escalation: the first measure is three.
  function TwoRungs(m0: string, m1: string): Policy {
    Policy(4, true, [m0, m1], 1, 1, None)
  }

  function FailedOn(m0: string, id: string): Call {
    Call(id, m0, Capability, "", None, None, Fine)
  }

  // Two models, and failures of different dispatches.
  predicate Setting(m0: string, m1: string, ids: seq<string>) {
    m0 != "" && m1 != "" && m0 != m1 && forall i, j :: 0 <= i < j < |ids| ==> ids[i] != ids[j]
  }

  // The first k failures are on the chain, none is retried.
  function Refused(m0: string, ids: seq<string>, k: nat): Chain
    requires k <= |ids|
  {
    Chain(ids[..k], seq(k, _ => m0), seq(k, _ => Failure(Capability, "")),
          if k == 0 then "" else m0, k, 0, false, None, map[])
  }

  function RetryMap(ids: seq<string>, k: nat): (r: map<string, string>)
    requires k <= |ids|
    ensures forall x :: x in r <==> x in ids[..k]
  {
    if k == 0 then map[]
    else
      assert ids[..k] == ids[..k - 1] + [ids[k - 1]];
      RetryMap(ids, k - 1)[ids[k - 1] := ids[k - 1]]
  }

  // All failures are on the chain and the first k are retried.
  function Served(m0: string, m1: string, ids: seq<string>, k: nat): Chain
    requires k <= |ids|
  {
    if k == 0 then Refused(m0, ids, |ids|)
    else Refused(m0, ids, |ids|).(currentModel := m1, strikes := 0, escalations := 1, retries := RetryMap(ids, k))
  }

  // Every failure refused once, then every one retried.
  function RefusedTurns(m0: string, ids: seq<string>): seq<Turn> {
    seq(2 * |ids|, i requires 0 <= i < 2 * |ids| =>
      if i < |ids| then Turn(FailedOn(m0, ids[i]), None) else Turn(FailedOn(m0, ids[i - |ids|]), Some(ids[i - |ids|])))
  }

  function RefusedStates(m0: string, m1: string, ids: seq<string>): seq<Chain> {
    seq(2 * |ids| + 1, i requires 0 <= i < 2 * |ids| + 1 =>
      if i <= |ids| then Refused(m0, ids, i) else Served(m0, m1, ids, i - |ids|))
  }

  lemma RefusedStep(m0: string, m1: string, ids: seq<string>, k: nat)
    requires k < |ids| && Setting(m0, m1, ids)
    ensures Attempt(Refused(m0, ids, k), TwoRungs(m0, m1), FailedOn(m0, ids[k]), None) == (Refused(m0, ids, k + 1), NotAdmitted)
  {
    var p := TwoRungs(m0, m1);
    assert RungAt(p.ladder, m0, 0);
    assert ids[..k + 1] == ids[..k] + [ids[k]];
    assert ids[k] !in ids[..k];
    assert seq(k, _ => m0) + [m0] == seq(k + 1, _ => m0);
    assert seq(k, _ => Failure(Capability, "")) + [Failure(Capability, "")] == seq(k + 1, _ => Failure(Capability, ""));
  }

  lemma ServedStep(m0: string, m1: string, ids: seq<string>, k: nat)
    requires k < |ids| && Setting(m0, m1, ids)
    ensures Attempt(Served(m0, m1, ids, k), TwoRungs(m0, m1), FailedOn(m0, ids[k]), Some(ids[k])) ==
            (Served(m0, m1, ids, k + 1), Retried(ids[k], m1, k == 0))
  {
    var p, cs, call := TwoRungs(m0, m1), Served(m0, m1, ids, k), FailedOn(m0, ids[k]);
    assert ids[..|ids|] == ids && ids[k] in ids;
    assert ids[k] !in ids[..k];
    assert Recorded(cs, p, call) == cs && call.id !in cs.retries;
    if k == 0 {
      assert RungAt(p.ladder, m0, 0);
      assert NextAttempt(cs, p, call) == Some(Next(m1, None));
    } else {
      assert NextAttempt(cs, p, call) == Some(Next(m1, None));
    }
  }

  // So there is no bound in the policy alone: any number of failures, refused first, can
  // all be retried after one escalation, and the chain is not exhausted.
  lemma RefusedFailuresAreFree(m0: string, m1: string, ids: seq<string>)
    requires Setting(m0, m1, ids)
    ensures var p, turns, states := TwoRungs(m0, m1), RefusedTurns(m0, ids), RefusedStates(m0, m1, ids);
      && Run(p, turns, states) && Measure(FRESH, p) == 3
      && CapabilityRetries(p, turns, states, |turns|) == |ids| && !states[|turns|].exhausted
  {
    var p, turns, states := TwoRungs(m0, m1), RefusedTurns(m0, ids), RefusedStates(m0, m1, ids);
    assert states[0] == FRESH;
    forall i | 0 <= i < |turns|
      ensures TurnAt(p, turns, states, i) && RetriedPast(p, turns, states, |ids|, i)
    {
      RefusedTurn(m0, m1, ids, i);
    }
    assert |turns| == 2 * |ids| && states[|turns|] == Served(m0, m1, ids, |ids|);
    RetriesPast(p, turns, states, |ids|, |turns|);
  }

  lemma RefusedTurn(m0: string, m1: string, ids: seq<string>, i: nat)
    requires Setting(m0, m1, ids) && i < 2 * |ids|
    ensures var p, turns, states := TwoRungs(m0, m1), RefusedTurns(m0, ids), RefusedStates(m0, m1, ids);
      TurnAt(p, turns, states, i) && RetriedPast(p, turns, states, |ids|, i)
  {
    var p, turns, states := TwoRungs(m0, m1), RefusedTurns(m0, ids), RefusedStates(m0, m1, ids);
    if i < |ids| {
      RefusedStep(m0, m1, ids, i);
      TurnIs(p, turns, states, i, FailedOn(m0, ids[i]), None, (Refused(m0, ids, i + 1), NotAdmitted));
    } else {
      var k := i - |ids|;
      ServedStep(m0, m1, ids, k);
      TurnIs(p, turns, states, i, FailedOn(m0, ids[k]), Some(ids[k]), (Served(m0, m1, ids, k + 1), Retried(ids[k], m1, k == 0)));
    }
  }

  lemma TurnIs(p: Policy, turns: seq<Turn>, states: seq<Chain>, i: nat, call: Call, admitted: Option<string>, result: (Chain, Outcome))
    requires |states| == |turns| + 1 && i < |turns| && turns[i] == Turn(call, admitted) && states[i + 1] == result.0
    requires Attempt(states[i], p, call, admitted) == result
    ensures TurnAt(p, turns, states, i)
    ensures CapabilityRetry(states[i], p, turns[i].call, turns[i].admitted) <==> CapabilityStrike(call.mode) && result.1.Retried?
  {
  }

  // Call i is a capability failure that is retried exactly when it is past the first k.
  predicate RetriedPast(p: Policy, turns: seq<Turn>, states: seq<Chain>, k: nat, i: nat)
    requires i < |turns| && i < |states|
  {
    CapabilityRetry(states[i], p, turns[i].call, turns[i].admitted) <==> i >= k
  }

  lemma {:induction false} RetriesPast(p: Policy, turns: seq<Turn>, states: seq<Chain>, k: nat, n: nat)
    requires n <= |turns| && n <= |states|
    requires forall i {:trigger RetriedPast(p, turns, states, k, i)} :: 0 <= i < n ==> RetriedPast(p, turns, states, k, i)
    ensures CapabilityRetries(p, turns, states, n) == if n <= k then 0 else n - k
  {
    if n > 0 {
      RetriesPast(p, turns, states, k, n - 1);
      assert RetriedPast(p, turns, states, k, n - 1);
    }
  }

  // ---- Rungs ----

  // The call puts a failure of the model on a fresh chain.
  predicate Begins(call: Call, model: string) {
    call.model == model && !call.fault.ChainUnread? && !call.fault.FailureUnsaved?
  }

  // On a ladder where the rung above a model is that model, no chain that has come to it,
  // or starts with it, ever exhausts.
  lemma {:induction false} RepeatedRungNeverExhausts(p: Policy, model: string, turns: seq<Turn>, states: seq<Chain>, i: nat, j: nat)
    requires p.routing.None? && model != "" && NextRung(p.ladder, model) == Some(model)
    requires Run(p, turns, states) && i <= j < |states| && !states[i].exhausted
    requires states[i].currentModel == model || (i == 0 && |turns| > 0 && Begins(turns[0].call, model))
    ensures !states[j].exhausted && (j > i ==> states[j].currentModel == model)
  {
    if i < j {
      RepeatedRungNeverExhausts(p, model, turns, states, i, j - 1);
      assert TurnAt(p, turns, states, j - 1);
      StaysOnRung(states[j - 1], p, turns[j - 1].call, turns[j - 1].admitted, model);
    }
  }

  lemma StaysOnRung(cs: Chain, p: Policy, call: Call, admitted: Option<string>, model: string)
    requires p.routing.None? && NextRung(p.ladder, model) == Some(model) && !cs.exhausted
    requires cs.currentModel == model || (cs == FRESH && Begins(call, model))
    requires model != ""
    ensures !Attempt(cs, p, call, admitted).0.exhausted && Attempt(cs, p, call, admitted).0.currentModel == model
  {
  }

  // A further failure of the work on the chain's model, neither refused, cut short nor
  // recorded yet.
  predicate FurtherFailure(p: Policy, turns: seq<Turn>, states: seq<Chain>, i: nat)
    requires i < |turns| && i < |states|
  {
    var cs, call := states[i], turns[i].call;
    call.id !in cs.dispatches && !call.mode.Premise? && call.fault.Fine? && !OtherPolicy(Recorded(cs, p, call), p, call)
  }

  // Call j stays on the rung that call i left the chain on: it is retried there, or not admitted.
  predicate StaysAt(p: Policy, turns: seq<Turn>, states: seq<Chain>, i: nat, j: nat)
    requires i < j < |turns| && j < |states|
  {
    Reported(p, turns, states, j) ==
      if turns[j].admitted.Some? then Retried(turns[j].admitted.value, states[i + 1].currentModel, false) else NotAdmitted
  }

  // A new rung starts with no strikes and takes all of them: after an escalation the next
  // strikesPerRung - 1 failures are retried on the same rung.
  lemma NewRungHasAllItsStrikes(p: Policy, turns: seq<Turn>, states: seq<Chain>, i: nat, n: nat)
    requires Run(p, turns, states) && i < |turns| && i + n < |turns| && n < p.strikesPerRung
    requires Reported(p, turns, states, i).Retried? && Reported(p, turns, states, i).escalated && states[i + 1].currentModel != ""
    requires forall j {:trigger FurtherFailure(p, turns, states, j)} :: i < j <= i + n ==> FurtherFailure(p, turns, states, j)
    ensures forall j {:trigger StaysAt(p, turns, states, i, j)} :: i < j <= i + n ==> StaysAt(p, turns, states, i, j)
  {
    assert TurnAt(p, turns, states, i);
    forall j | i < j <= i + n
      ensures StaysAt(p, turns, states, i, j)
    {
      OnTheRung(p, turns, states, i, j);
      ReachableKept(p, turns, states, j);
      assert FurtherFailure(p, turns, states, j);
    }
  }

  lemma {:induction false} OnTheRung(p: Policy, turns: seq<Turn>, states: seq<Chain>, i: nat, j: nat)
    requires Run(p, turns, states) && i < j < |states| && j - i <= p.strikesPerRung
    requires Reported(p, turns, states, i).Retried? && Reported(p, turns, states, i).escalated && states[i + 1].currentModel != ""
    requires forall k {:trigger FurtherFailure(p, turns, states, k)} :: i < k < j ==> FurtherFailure(p, turns, states, k)
    ensures !states[j].exhausted && states[j].currentModel == states[i + 1].currentModel && states[j].strikes < j - i
  {
    assert TurnAt(p, turns, states, j - 1);
    if j > i + 1 {
      OnTheRung(p, turns, states, i, j - 1);
      ReachableKept(p, turns, states, j - 1);
      assert FurtherFailure(p, turns, states, j - 1);
    }
  }

  // ---- Exhaustion and retries over runs ----

  lemma {:induction false} ExhaustedForGood(p: Policy, turns: seq<Turn>, states: seq<Chain>, i: nat, j: nat)
    requires Run(p, turns, states) && i <= j < |states| && states[i].exhausted
    ensures states[j] == states[i]
    ensures j < |turns| ==>
      Reported(p, turns, states, j) == if turns[j].call.fault.ChainUnread? then StoreFailed else AlreadyExhausted
  {
    if i < j {
      ExhaustedForGood(p, turns, states, i, j - 1);
      assert TurnAt(p, turns, states, j - 1);
    }
  }

  lemma {:induction false} RetriesStay(p: Policy, turns: seq<Turn>, states: seq<Chain>, i: nat, j: nat, id: string)
    requires Run(p, turns, states) && i <= j < |states| && id in states[i].retries
    ensures id in states[j].retries && states[j].retries[id] == states[i].retries[id]
  {
    if i < j {
      RetriesStay(p, turns, states, i, j - 1, id);
      assert TurnAt(p, turns, states, j - 1);
    }
  }

  // No dispatch is retried twice on a chain.
  lemma RetriedOnce(p: Policy, turns: seq<Turn>, states: seq<Chain>, i: nat, j: nat)
    requires Run(p, turns, states) && i < j < |turns|
    requires Reported(p, turns, states, i).Retried? && Reported(p, turns, states, j).Retried?
    ensures turns[i].call.id != turns[j].call.id
  {
    assert TurnAt(p, turns, states, i);
    if turns[i].call.id == turns[j].call.id {
      RetriesStay(p, turns, states, i + 1, j, turns[i].call.id);
    }
  }

  // The call has the store admit a row.
  predicate Admits(cs: Chain, p: Policy, call: Call, admitted: Option<string>) {
    && (call.fault.Fine? || call.fault.OutcomeUnsaved?) && !cs.exhausted && call.id !in cs.retries
    && Refusal(Recorded(cs, p, call), p, call).None? && NextAttempt(Recorded(cs, p, call), p, call).Some? && admitted.Some?
  }

  // Two rows are admitted for one dispatch only when the outcome of the first call was lost.
  lemma AdmittedOnce(p: Policy, turns: seq<Turn>, states: seq<Chain>, i: nat, j: nat)
    requires Run(p, turns, states) && i < j < |turns| && turns[i].call.id == turns[j].call.id
    requires Admits(states[i], p, turns[i].call, turns[i].admitted) && Admits(states[j], p, turns[j].call, turns[j].admitted)
    ensures turns[i].call.fault.OutcomeUnsaved?
  {
    assert TurnAt(p, turns, states, i);
    if !turns[i].call.fault.OutcomeUnsaved? {
      RetriesStay(p, turns, states, i + 1, j, turns[i].call.id);
    }
  }

  // And then always: the call admits another row when it is made again.
  lemma LostOutcomeAdmitsAgain(cs: Chain, p: Policy, call: Call, first: string, second: string)
    requires call.fault.OutcomeUnsaved? && Admits(cs, p, call, Some(first))
    ensures var lost, again := Attempt(cs, p, call, Some(first)), call.(fault := Fine);
      && lost.1.StoreFailed? && Admits(lost.0, p, again, Some(second))
      && Attempt(lost.0, p, again, Some(second)).1.Retried?
  {
    var r := Recorded(cs, p, call);
    assert call.id in r.dispatches by {
      if call.id !in cs.dispatches {
        assert r.dispatches[|cs.dispatches|] == call.id;
      }
    }
    assert Recorded(r, p, call.(fault := Fine)) == r;
  }

  // ---- Climbing ----

  predicate Distinct(ladder: seq<string>) {
    "" !in ladder && forall i, j :: 0 <= i < j < |ladder| ==> ladder[i] != ladder[j]
  }

  predicate Above(ladder: seq<string>, a: string, b: string) {
    exists i, j :: 0 <= i < j < |ladder| && ladder[i] == a && ladder[j] == b
  }

  // b is a, or comes later: after no model yet, or higher on the ladder.
  predicate NotBefore(ladder: seq<string>, a: string, b: string) {
    a == b || a == "" || Above(ladder, a, b)
  }

  lemma ClimbingIsTransitive(ladder: seq<string>, a: string, b: string, c: string)
    requires Distinct(ladder) && NotBefore(ladder, a, b) && NotBefore(ladder, b, c)
    ensures NotBefore(ladder, a, c)
  {
    if Above(ladder, a, b) && Above(ladder, b, c) {
      var i, j :| 0 <= i < j < |ladder| && ladder[i] == a && ladder[j] == b;
      var k, l :| 0 <= k < l < |ladder| && ladder[k] == b && ladder[l] == c;
      assert j == k;
    }
  }

  lemma AboveIsStrict(ladder: seq<string>, a: string, b: string)
    requires Distinct(ladder) && Above(ladder, a, b)
    ensures !Above(ladder, b, a) && b != ""
  {
    var i, j :| 0 <= i < j < |ladder| && ladder[i] == a && ladder[j] == b;
    forall k, l | 0 <= k < l < |ladder| && ladder[k] == b
      ensures ladder[l] != a
    {
      assert k == j;
    }
  }

  lemma ClimbingIsOneWay(ladder: seq<string>, a: string, b: string)
    requires Distinct(ladder) && NotBefore(ladder, a, b) && NotBefore(ladder, b, a)
    ensures a == b
  {
    if Above(ladder, a, b) {
      AboveIsStrict(ladder, a, b);
    } else if Above(ladder, b, a) {
      AboveIsStrict(ladder, b, a);
    }
  }

  // The models tried, and the one to try next.
  function Trail(cs: Chain): seq<string> {
    cs.models + [cs.currentModel]
  }

  predicate Climbs(ladder: seq<string>, s: seq<string>) {
    forall i, j {:trigger NotBefore(ladder, s[i], s[j])} :: 0 <= i < j < |s| ==> NotBefore(ladder, s[i], s[j])
  }

  // The last entry may be repeated, or replaced by a later model.
  lemma TrailGrows(ladder: seq<string>, s: seq<string>, last: string, x: string, more: bool)
    requires Distinct(ladder) && Climbs(ladder, s + [last]) && NotBefore(ladder, last, x)
    ensures Climbs(ladder, s + [x])
    ensures more ==> Climbs(ladder, s + [last] + [x])
  {
    var was := s + [last];
    forall i | 0 <= i < |s|
      ensures NotBefore(ladder, s[i], x)
    {
      assert was[i] == s[i] && was[|s|] == last;
      assert NotBefore(ladder, was[i], was[|s|]);
      ClimbingIsTransitive(ladder, s[i], last, x);
    }
    forall i, j | 0 <= i < j < |s|
      ensures NotBefore(ladder, s[i], s[j])
    {
      assert NotBefore(ladder, was[i], was[j]);
    }
    var longer := was + [x];
    forall i, j | 0 <= i < j < |longer|
      ensures NotBefore(ladder, longer[i], longer[j])
    {
      if j < |was| {
        assert NotBefore(ladder, was[i], was[j]);
      }
    }
  }

  lemma AttemptClimbs(cs: Chain, p: Policy, call: Call, admitted: Option<string>)
    requires p.routing.None? && Distinct(p.ladder) && Climbs(p.ladder, Trail(cs))
    ensures Climbs(p.ladder, Trail(Attempt(cs, p, call, admitted).0))
  {
    var r := Recorded(cs, p, call);
    TrailGrows(p.ladder, cs.models, cs.currentModel, r.currentModel, false);
    TrailGrows(p.ladder, cs.models, r.currentModel, r.currentModel, true);
    assert Climbs(p.ladder, Trail(r));
    var after := Attempt(cs, p, call, admitted).0;
    var outcome := Attempt(cs, p, call, admitted).1;
    if outcome.Retried? && outcome.escalated {
      var i := FindRung(p.ladder, r.currentModel, 0);
      assert RungAt(p.ladder, r.currentModel, i) && after.currentModel == p.ladder[i + 1];
      TrailGrows(p.ladder, r.models, r.currentModel, after.currentModel, false);
    }
  }

  lemma {:induction false} ReachableClimbs(p: Policy, turns: seq<Turn>, states: seq<Chain>, i: nat)
    requires Run(p, turns, states) && p.routing.None? && Distinct(p.ladder) && i < |states|
    ensures Climbs(p.ladder, Trail(states[i]))
  {
    if i > 0 {
      ReachableClimbs(p, turns, states, i - 1);
      assert TurnAt(p, turns, states, i - 1);
      AttemptClimbs(states[i - 1], p, turns[i - 1].call, turns[i - 1].admitted);
    }
  }

  lemma ModelClimbs(cs: Chain, p: Policy, call: Call, admitted: Option<string>)
    requires p.routing.None? && Distinct(p.ladder)
    ensures NotBefore(p.ladder, cs.currentModel, Attempt(cs, p, call, admitted).0.currentModel)
  {
    var r, outcome := Recorded(cs, p, call), Attempt(cs, p, call, admitted).1;
    if outcome.Retried? && outcome.escalated {
      var i := FindRung(p.ladder, r.currentModel, 0);
      assert RungAt(p.ladder, r.currentModel, i) && outcome.model == p.ladder[i + 1];
    }
  }

  lemma {:induction false} RunClimbs(p: Policy, turns: seq<Turn>, states: seq<Chain>, i: nat, k: nat)
    requires Run(p, turns, states) && p.routing.None? && Distinct(p.ladder) && i <= k < |states|
    ensures NotBefore(p.ladder, states[i].currentModel, states[k].currentModel)
  {
    if i < k {
      RunClimbs(p, turns, states, i, k - 1);
      assert TurnAt(p, turns, states, k - 1);
      ModelClimbs(states[k - 1], p, turns[k - 1].call, turns[k - 1].admitted);
      ClimbingIsTransitive(p.ladder, states[i].currentModel, states[k - 1].currentModel, states[k].currentModel);
    }
  }

  // A chain that has left a model never returns to it, however its calls come.
  lemma NoModelRevisited(p: Policy, turns: seq<Turn>, states: seq<Chain>, i: nat, j: nat, k: nat)
    requires Run(p, turns, states) && p.routing.None? && Distinct(p.ladder) && i <= j <= k < |states|
    requires states[i].currentModel == states[k].currentModel
    ensures states[j].currentModel == states[i].currentModel
  {
    RunClimbs(p, turns, states, i, j);
    RunClimbs(p, turns, states, j, k);
    ClimbingIsOneWay(p.ladder, states[i].currentModel, states[j].currentModel);
  }

  // Nor do the models its failures are recorded with, followed by the model to try next.
  lemma NoRecordedModelRevisited(p: Policy, turns: seq<Turn>, states: seq<Chain>, n: nat, i: nat, j: nat, k: nat)
    requires Run(p, turns, states) && p.routing.None? && Distinct(p.ladder) && n < |states|
    requires i < j < k <= |states[n].models| && Trail(states[n])[i] == Trail(states[n])[k]
    ensures Trail(states[n])[j] == Trail(states[n])[i]
  {
    ReachableClimbs(p, turns, states, n);
    var s := Trail(states[n]);
    assert NotBefore(p.ladder, s[i], s[j]) && NotBefore(p.ladder, s[j], s[k]);
    ClimbingIsOneWay(p.ladder, s[i], s[j]);
  }

  // ---- No identity comes back ----

  // Equal entries stand next to each other.
  predicate Contiguous(s: seq<string>) {
    forall i, j, k :: 0 <= i < j < k < |s| && s[i] == s[k] ==> s[j] == s[i]
  }

  function Identities(identity: string -> string, models: seq<string>): (r: seq<string>)
    ensures |r| == |models| && forall i :: 0 <= i < |models| ==> r[i] == identity(models[i])
  {
    seq(|models|, i requires 0 <= i < |models| => identity(models[i]))
  }

  lemma ContiguousRepeat(s: seq<string>, x: string)
    requires Contiguous(s + [x])
    ensures Contiguous(s + [x] + [x])
  {
    var was, r := s + [x], s + [x] + [x];
    forall i, j, k | 0 <= i < j < k < |r| && r[i] == r[k]
      ensures r[j] == r[i]
    {
      assert was[i] == r[i] && was[j] == r[j];
      assert k < |was| ==> was[k] == r[k];
      assert was[|s|] == x;
    }
  }

  // The last entry may become one that is not among the others.
  lemma ContiguousReplace(s: seq<string>, x: string, y: string)
    requires Contiguous(s + [x]) && y !in s
    ensures Contiguous(s + [y])
  {
    var was, r := s + [x], s + [y];
    forall i, j, k | 0 <= i < j < k < |r| && r[i] == r[k]
      ensures r[j] == r[i]
    {
      assert r[i] in s;
      assert was[i] == r[i] && was[j] == r[j] && was[k] == r[k];
    }
  }

  // ... or anything, when the others are all alike.
  lemma ContiguousAfterAlike(s: seq<string>, x: string)
    requires forall i, j :: 0 <= i < j < |s| ==> s[i] == s[j]
    ensures Contiguous(s + [x])
  {
  }

  // The identities tried, in order, and that of the model to try next.
  function IdentityTrail(p: Policy, cs: Chain): seq<string>
    requires p.routing.Some?
  {
    Identities(p.routing.value.identity, cs.models) + [p.routing.value.identity(cs.currentModel)]
  }

  predicate Orderly(p: Policy, cs: Chain)
    requires p.routing.Some?
  {
    Contiguous(IdentityTrail(p, cs)) && (cs.currentModel == "" ==> forall m :: m in cs.models ==> m == "")
  }

  lemma RecordedOrderly(cs: Chain, p: Policy, call: Call)
    requires p.routing.Some? && Orderly(p, cs)
    ensures Orderly(p, Recorded(cs, p, call))
  {
    var identity := p.routing.value.identity;
    var r := Recorded(cs, p, call);
    var tried, x := Identities(identity, cs.models), identity(r.currentModel);
    if cs.currentModel == "" {
      assert forall i :: 0 <= i < |cs.models| ==> cs.models[i] in cs.models;
      ContiguousAfterAlike(tried, x);
    }
    assert Contiguous(tried + [x]);
    ContiguousRepeat(tried, x);
    assert call.id !in cs.dispatches ==> Identities(identity, r.models) == tried + [x];
  }

  lemma ResolvedOrderly(r: Chain, p: Policy, call: Call, admitted: Option<string>)
    requires p.routing.Some? && Orderly(p, r) && Consistent(p, call)
    ensures Orderly(p, Resolved(r, p, call, admitted).0)
  {
    var identity := p.routing.value.identity;
    var after, outcome := Resolved(r, p, call, admitted).0, Resolved(r, p, call, admitted).1;
    if outcome.Retried? && outcome.escalated {
      var tried := Identities(identity, r.models);
      var i := FindUntried(call.offered.value, identity, r.models, 0);
      var c := call.offered.value[i];
      assert c in call.offered.value && after.currentModel == c.model;
      forall k | 0 <= k < |tried|
        ensures tried[k] != c.identity
      {
        assert r.models[k] in r.models;
      }
      ContiguousReplace(tried, identity(r.currentModel), c.identity);
    }
  }

  lemma {:induction false} ReachableOrderly(p: Policy, turns: seq<Turn>, states: seq<Chain>, n: nat)
    requires Run(p, turns, states) && p.routing.Some? && n < |states|
    requires forall i :: 0 <= i < n ==> Consistent(p, turns[i].call)
    ensures Orderly(p, states[n])
  {
    if n > 0 {
      ReachableOrderly(p, turns, states, n - 1);
      assert TurnAt(p, turns, states, n - 1);
      RecordedOrderly(states[n - 1], p, turns[n - 1].call);
      ResolvedOrderly(Recorded(states[n - 1], p, turns[n - 1].call), p, turns[n - 1].call, turns[n - 1].admitted);
    }
  }

  // With a resolver the identities of the recorded models, followed by that of the model to
  // try next, do not come back, whatever the resolver offers.
  lemma NoRecordedIdentityRevisited(p: Policy, turns: seq<Turn>, states: seq<Chain>, n: nat, i: nat, j: nat, k: nat)
    requires Run(p, turns, states) && p.routing.Some? && n < |states|
    requires forall m :: 0 <= m < n ==> Consistent(p, turns[m].call)
    requires i < j < k <= |states[n].models|
    requires IdentityTrail(p, states[n])[i] == IdentityTrail(p, states[n])[k]
    ensures IdentityTrail(p, states[n])[j] == IdentityTrail(p, states[n])[i]
  {
    ReachableOrderly(p, turns, states, n);
  }

  // A dispatch has one model: no call reports another for it.
  predicate OneModelEach(turns: seq<Turn>) {
    forall a, b :: 0 <= a < |turns| && 0 <= b < |turns| && turns[a].call.id == turns[b].call.id ==>
      turns[a].call.model == turns[b].call.model
  }

  // No model of the dispatch is known.
  predicate Modelless(turns: seq<Turn>, id: string) {
    forall a {:trigger turns[a]} :: 0 <= a < |turns| && turns[a].call.id == id ==> turns[a].call.model == ""
  }

  lemma StaysModelless(cs: Chain, p: Policy, call: Call, admitted: Option<string>)
    requires p.routing.Some? && Consistent(p, call)
    ensures var after := Attempt(cs, p, call, admitted).0;
      after.currentModel == "" && after != cs ==>
        && cs.currentModel == "" && call.model == ""
        && forall id :: id in after.dispatches ==> id in cs.dispatches || id == call.id
  {
    var after, outcome := Attempt(cs, p, call, admitted).0, Attempt(cs, p, call, admitted).1;
    if outcome.Retried? && outcome.escalated {
      var candidates := call.offered.value;
      var i := FindUntried(candidates, p.routing.value.identity, Recorded(cs, p, call).models, 0);
      assert candidates[i] in candidates && after.currentModel == candidates[i].model;
    }
  }

  // While the chain has no model, its failures have none.
  lemma {:induction false} NoModelYet(p: Policy, turns: seq<Turn>, states: seq<Chain>, n: nat)
    requires Run(p, turns, states) && OneModelEach(turns) && n < |states|
    requires p.routing.Some? && forall m :: 0 <= m < n ==> Consistent(p, turns[m].call)
    ensures states[n].currentModel == "" ==> forall id :: id in states[n].dispatches ==> Modelless(turns, id)
  {
    if n > 0 {
      NoModelYet(p, turns, states, n - 1);
      assert TurnAt(p, turns, states, n - 1);
      var cs, call, after := states[n - 1], turns[n - 1].call, states[n];
      if after.currentModel == "" && after != cs {
        StaysModelless(cs, p, call, turns[n - 1].admitted);
        assert Modelless(turns, call.id);
      }
    }
  }

  // A rung with strikes is a rung some failure was recorded on.
  predicate Anchored(cs: Chain) {
    cs.strikes > 0 ==> cs.currentModel in cs.models
  }

  lemma RecordedAnchored(cs: Chain, p: Policy, call: Call)
    requires Anchored(cs) && (cs.currentModel == "" && call.id in cs.dispatches ==> call.model == "")
    ensures Anchored(Recorded(cs, p, call)) && forall m :: m in cs.models ==> m in Recorded(cs, p, call).models
  {
    var r := Recorded(cs, p, call);
    if call.id !in cs.dispatches {
      assert r.models[|cs.models|] == r.currentModel;
    }
  }

  lemma {:induction false} ReachableAnchored(p: Policy, turns: seq<Turn>, states: seq<Chain>, n: nat)
    requires Run(p, turns, states) && OneModelEach(turns) && n < |states|
    requires p.routing.Some? && forall m :: 0 <= m < n ==> Consistent(p, turns[m].call)
    ensures Anchored(states[n])
    ensures n < |turns| ==> Anchored(Recorded(states[n], p, turns[n].call))
    ensures n < |turns| ==> forall m :: m in states[n].models ==> m in Recorded(states[n], p, turns[n].call).models
  {
    if n > 0 {
      ReachableAnchored(p, turns, states, n - 1);
      assert TurnAt(p, turns, states, n - 1);
    }
    if n < |turns| {
      NoModelYet(p, turns, states, n);
      RecordedAnchored(states[n], p, turns[n].call);
    }
  }

  // The call keeps the chain's identity, or leaves it, a tried one, for one that is untried.
  predicate Leaves(identity: string -> string, was: string, after: Chain) {
    identity(after.currentModel) == identity(was)
    || (Tried(identity, after.models, identity(was)) && !Tried(identity, after.models, identity(after.currentModel)))
  }

  lemma ResolvedLeaves(r: Chain, p: Policy, call: Call, admitted: Option<string>)
    requires p.routing.Some? && Consistent(p, call) && p.strikesPerRung >= 1 && Anchored(r)
    ensures Leaves(p.routing.value.identity, r.currentModel, Resolved(r, p, call, admitted).0)
    ensures Resolved(r, p, call, admitted).0.models == r.models
    ensures r.currentModel != "" ==> Resolved(r, p, call, admitted).0.currentModel != ""
  {
    var after, outcome := Resolved(r, p, call, admitted).0, Resolved(r, p, call, admitted).1;
    if outcome.Retried? && outcome.escalated {
      var i := FindUntried(call.offered.value, p.routing.value.identity, r.models, 0);
      var c := call.offered.value[i];
      assert c in call.offered.value && after.currentModel == c.model;
      assert r.currentModel in r.models;
    }
  }

  // One call of a run whose chain has a model.
  lemma TurnLeaves(p: Policy, turns: seq<Turn>, states: seq<Chain>, n: nat)
    requires Run(p, turns, states) && OneModelEach(turns) && n < |turns| && states[n].currentModel != ""
    requires p.routing.Some? && p.strikesPerRung >= 1 && forall m :: 0 <= m <= n ==> Consistent(p, turns[m].call)
    ensures Leaves(p.routing.value.identity, states[n].currentModel, states[n + 1])
    ensures forall m :: m in states[n].models ==> m in states[n + 1].models
    ensures states[n + 1].currentModel != ""
  {
    ReachableAnchored(p, turns, states, n);
    assert TurnAt(p, turns, states, n);
    ResolvedLeaves(Recorded(states[n], p, turns[n].call), p, turns[n].call, turns[n].admitted);
  }

  // An earlier identity of the chain is the present one, or one that was tried.
  lemma {:induction false} IdentitiesAreTried(p: Policy, turns: seq<Turn>, states: seq<Chain>, i: nat, n: nat)
    requires Run(p, turns, states) && OneModelEach(turns) && i <= n < |states| && states[i].currentModel != ""
    requires p.routing.Some? && p.strikesPerRung >= 1 && forall m :: 0 <= m < n ==> Consistent(p, turns[m].call)
    ensures states[n].currentModel != ""
    ensures var identity := p.routing.value.identity;
      || identity(states[n].currentModel) == identity(states[i].currentModel)
      || Tried(identity, states[n].models, identity(states[i].currentModel))
  {
    if i < n {
      IdentitiesAreTried(p, turns, states, i, n - 1);
      TurnLeaves(p, turns, states, n - 1);
      TriedStays(p.routing.value.identity, states[n - 1].models, states[n].models, p.routing.value.identity(states[i].currentModel));
    }
  }

  lemma TriedStays(identity: string -> string, was: seq<string>, models: seq<string>, id: string)
    requires forall m :: m in was ==> m in models
    ensures Tried(identity, was, id) ==> Tried(identity, models, id)
  {
  }

  // With a resolver, and a strike to spend on every rung, a chain that has left an identity
  // never returns to it, whatever the resolver offers and however the calls come.
  lemma {:induction false} NoIdentityRevisited(p: Policy, turns: seq<Turn>, states: seq<Chain>, i: nat, j: nat, k: nat)
    requires Run(p, turns, states) && OneModelEach(turns) && i <= j <= k < |states| && states[i].currentModel != ""
    requires p.routing.Some? && p.strikesPerRung >= 1 && forall m :: 0 <= m < k ==> Consistent(p, turns[m].call)
    requires p.routing.value.identity(states[i].currentModel) == p.routing.value.identity(states[k].currentModel)
    ensures p.routing.value.identity(states[j].currentModel) == p.routing.value.identity(states[i].currentModel)
  {
    if j < k {
      var identity := p.routing.value.identity;
      IdentitiesAreTried(p, turns, states, i, k - 1);
      TurnLeaves(p, turns, states, k - 1);
      TriedStays(identity, states[k - 1].models, states[k].models, identity(states[i].currentModel));
      assert identity(states[k].currentModel) == identity(states[k - 1].currentModel);
      NoIdentityRevisited(p, turns, states, i, j, k - 1);
    }
  }

  // ---- No strike to spend ----

  function ZeroStrikes(routing: Routing): Policy {
    Policy(4, true, [], 0, 3, Some(routing))
  }

  // A capability failure, with one model on offer.
  function Offer(routing: Routing, id: string, model: string, choice: string): Call {
    Call(id, model, Capability, "", None,
         Some([Candidate(choice, routing.identity(choice), Decision(false, "", routing.policyHash))]), Fine)
  }

  // The chain takes the offered model, when it is untried and an escalation is left.
  lemma TakesOffer(cs: Chain, routing: Routing, id: string, model: string, choice: string)
    requires !cs.exhausted && id !in cs.retries && 0 <= cs.strikes && cs.escalations < 3
    requires cs.decision.Some? ==> cs.decision.value == Decision(false, "", routing.policyHash)
    requires var r := Recorded(cs, ZeroStrikes(routing), Offer(routing, id, model, choice));
      choice != r.currentModel && forall m :: m in r.models ==> routing.identity(m) != routing.identity(choice)
    ensures Attempt(cs, ZeroStrikes(routing), Offer(routing, id, model, choice), Some(id)).0 ==
      Recorded(cs, ZeroStrikes(routing), Offer(routing, id, model, choice)).(
        escalations := cs.escalations + 1, currentModel := choice, strikes := 0,
        decision := Some(Decision(false, "", routing.policyHash)), retries := cs.retries[id := id])
  {
    var call := Offer(routing, id, model, choice);
    var r := Recorded(cs, ZeroStrikes(routing), call);
    assert !Tried(routing.identity, r.models, call.offered.value[0].identity);
  }

  // c fails and is refused; d, c and e are retried.
  function BackTurns(routing: Routing, w: string, a: string, b: string, c: string, d: string, e: string): seq<Turn> {
    [Turn(Offer(routing, c, w, b), None), Turn(Offer(routing, d, w, a), Some(d)),
     Turn(Offer(routing, c, w, b), Some(c)), Turn(Offer(routing, e, b, a), Some(e))]
  }

  lemma BackCalls(routing: Routing, w: string, a: string, b: string, c: string, d: string, e: string)
    requires a != "" && b != "" && c != d && d != e && c != e
    ensures OneModelEach(BackTurns(routing, w, a, b, c, d, e))
    ensures forall t :: t in BackTurns(routing, w, a, b, c, d, e) ==> Consistent(ZeroStrikes(routing), t.call)
  {
  }

  lemma FourTurns(p: Policy, t0: Turn, t1: Turn, t2: Turn, t3: Turn, s1: Chain, s2: Chain, s3: Chain, s4: Chain)
    requires s1 == Attempt(FRESH, p, t0.call, t0.admitted).0 && s2 == Attempt(s1, p, t1.call, t1.admitted).0
    requires s3 == Attempt(s2, p, t2.call, t2.admitted).0 && s4 == Attempt(s3, p, t3.call, t3.admitted).0
    ensures Run(p, [t0, t1, t2, t3], [FRESH, s1, s2, s3, s4])
  {
  }

  // The chain after each of the four calls.
  lemma BackChains(routing: Routing, w: string, a: string, b: string, c: string, d: string, e: string)
    returns (s1: Chain, s2: Chain, s3: Chain, s4: Chain)
    requires w != "" && a != "" && b != "" && c != d && d != e && c != e
    requires routing.identity(w) != routing.identity(a) && routing.identity(a) != routing.identity(b)
    requires routing.identity(b) != routing.identity(w)
    ensures s1 == Attempt(FRESH, ZeroStrikes(routing), Offer(routing, c, w, b), None).0
    ensures s2 == Attempt(s1, ZeroStrikes(routing), Offer(routing, d, w, a), Some(d)).0 && s2.currentModel == a
    ensures s3 == Attempt(s2, ZeroStrikes(routing), Offer(routing, c, w, b), Some(c)).0 && s3.currentModel == b
    ensures s4 == Attempt(s3, ZeroStrikes(routing), Offer(routing, e, b, a), Some(e)).0 && s4.currentModel == a
  {
    var p := ZeroStrikes(routing);
    s1 := Attempt(FRESH, p, Offer(routing, c, w, b), None).0;
    assert s1 == Recorded(FRESH, p, Offer(routing, c, w, b));
    TakesOffer(s1, routing, d, w, a);
    s2 := Attempt(s1, p, Offer(routing, d, w, a), Some(d)).0;
    TakesOffer(s2, routing, c, w, b);
    s3 := Attempt(s2, p, Offer(routing, c, w, b), Some(c)).0;
    TakesOffer(s3, routing, e, b, a);
    s4 := Attempt(s3, p, Offer(routing, e, b, a), Some(e)).0;
  }

  // With no strikes per rung it does return: the failure refused before the first escalation
  // takes the chain from a to b, and b's own failure takes it back to a.
  lemma ZeroStrikesGoBack(routing: Routing, w: string, a: string, b: string, c: string, d: string, e: string)
    requires w != "" && a != "" && b != "" && c != d && d != e && c != e
    requires routing.identity(w) != routing.identity(a) && routing.identity(a) != routing.identity(b)
    requires routing.identity(b) != routing.identity(w)
    ensures exists states: seq<Chain> :: var p, turns := ZeroStrikes(routing), BackTurns(routing, w, a, b, c, d, e);
      && Run(p, turns, states) && OneModelEach(turns) && (forall t :: t in turns ==> Consistent(p, t.call))
      && states[2].currentModel == a && states[3].currentModel == b && states[4].currentModel == a
  {
    BackCalls(routing, w, a, b, c, d, e);
    var s1, s2, s3, s4 := BackChains(routing, w, a, b, c, d, e);
    var turns := BackTurns(routing, w, a, b, c, d, e);
    FourTurns(ZeroStrikes(routing), turns[0], turns[1], turns[2], turns[3], s1, s2, s3, s4);
    assert turns == [turns[0], turns[1], turns[2], turns[3]];
  }

  // ---- The program ----

  class Chains {
    var chains: map<string, Chain>

    constructor ()
      ensures chains == map[]
    {
      chains := map[];
    }

    function Load(key: string): Chain
      reads this
    {
      if key in chains then chains[key] else FRESH
    }

    static method AlreadyRecorded(cs: Chain, id: string) returns (found: bool)
      ensures found <==> id in cs.dispatches
    {
      found := false;
      for i := 0 to |cs.dispatches|
        invariant found <==> id in cs.dispatches[..i]
      {
        if cs.dispatches[i] == id {
          found := true;
        }
      }
      assert cs.dispatches[..|cs.dispatches|] == cs.dispatches;
    }

    // The failure goes on the chain, and the chain is stored, before anything is decided.
    method Record(key: string, p: Policy, call: Call) returns (cs: Chain, ok: bool)
      modifies this
      ensures cs == Recorded(old(Load(key)), p, call) && ok == !call.fault.FailureUnsaved?
      ensures chains == if ok then old(chains)[key := cs] else old(chains)
    {
      cs := Load(key);
      if cs.currentModel == "" {
        cs := cs.(currentModel := call.model);
      }
      var alreadyRecorded := AlreadyRecorded(cs, call.id);
      if !alreadyRecorded {
        cs := cs.(dispatches := cs.dispatches + [call.id], models := cs.models + [cs.currentModel],
                  failures := cs.failures + [Failure(call.mode, call.detail)]);
        if CapabilityStrike(call.mode) {
          cs := cs.(strikes := cs.strikes + 1);
        }
        if call.mode.Premise? {
          cs := cs.(strikes := p.strikesPerRung);
        }
      }
      ok := !call.fault.FailureUnsaved?;
      if ok {
        chains := chains[key := cs];
      }
    }

    // Why no model is looked for, and otherwise the model to try next.
    static method Choose(cs: Chain, p: Policy, call: Call) returns (refusal: Option<Outcome>, next: Option<Next>)
      ensures refusal == Refusal(cs, p, call)
      ensures refusal.None? ==> next == NextAttempt(cs, p, call)
    {
      var decision := call.stored;
      if cs.decision.Some? {
        decision := cs.decision;
      }
      refusal, next := None, Some(Next(cs.currentModel, decision));
      if decision.Some? && p.routing.Some? && decision.value.policyHash != p.routing.value.policyHash {
        refusal := Some(PolicyChanged);
        return;
      }
      if decision.Some? && decision.value.review && CapabilityStrike(call.mode) && cs.strikes >= p.strikesPerRung {
        refusal := Some(NeedsReviewContract);
        return;
      }
      if CapabilityStrike(call.mode) && cs.strikes >= p.strikesPerRung {
        if p.routing.Some? {
          if call.offered.None? {
            refusal := Some(FrontierUnavailable);
            return;
          }
          var candidates := call.offered.value;
          var i := FirstUntried(candidates, p.routing.value.identity, cs.models);
          next := None;
          if i < |candidates| {
            next := Some(Next(candidates[i].model, Some(candidates[i].decision)));
          }
        } else {
          var rung := NextRungModel(p, cs.currentModel, cs.strikes);
          next := if rung.Some? then Some(Next(rung.value, decision)) else None;
        }
      }
      if next.Some? && next.value.model != cs.currentModel && cs.escalations >= p.maxEscalations {
        next := None;
      }
    }

    static method FindRetryable(store: DispatchStore.Store, id: string, p: Policy) returns (found: Option<nat>)
      requires DispatchModel.Keyed(store.db.rows)
      ensures found.None? <==> !DispatchStore.Retryable(store.db.rows, id, p.maxRetries, p.retryOnTimeout)
      ensures found.Some? ==> found.value < |store.db.rows| && store.db.rows[found.value].id == id
    {
      found := store.FindRow(id);
      if found.Some? && !DispatchStore.ShouldRetry(store.db.rows[found.value], p.maxRetries, p.retryOnTimeout) {
        assert forall k: nat :: k < |store.db.rows| && store.db.rows[k].id == id ==> k == found.value;
        found := None;
      }
    }

    // The retry row, in the backend the decision names.
    static method AdmitRetry(store: DispatchStore.Store, k: nat, decision: Option<Decision>,
                             kernel: DispatchModel.Kernel, freshId: string, now: int)
      returns (ok: bool)
      requires DispatchLimits.Forest(store.db) && k < |store.db.rows|
      requires freshId != "" && (DispatchModel.Holds(store.db.log, freshId) ==> DispatchModel.Holds(store.db.rows, freshId))
      modifies store
      ensures ok ==> AdmittedAs(old(store.db), k, store.db, kernel, freshId, now, decision)
      ensures !ok ==> store.db == old(store.db)
      ensures DispatchLimits.Forest(store.db)
      ensures DispatchOutcomes.Outcomes(old(store.db)) ==> DispatchOutcomes.Outcomes(store.db)
    {
      var orig := store.db.rows[k];
      assert orig.id != "" by {
        assert DispatchLimits.BornIn(store.db.log, orig);
      }
      ghost var before := store.db;
      var result, parent := store.Admit(EscalatedRequest(orig, decision), kernel, freshId, now);
      ok := result.Admitted?;
      if ok {
        DispatchStore.UniqueRow(before.rows, parent.value, k);
      }
    }

    // `admitted` is what the dispatch store answered, when it was asked.
    method RetryWithEscalation(store: DispatchStore.Store, p: Policy, chainKey: string, call: Call,
                               kernel: DispatchModel.Kernel, freshId: string, now: int)
      returns (outcome: Outcome, ghost key: string, ghost admitted: Option<string>)
      requires DispatchLimits.Forest(store.db)
      requires freshId != "" && (DispatchModel.Holds(store.db.log, freshId) ==> DispatchModel.Holds(store.db.rows, freshId))
      modifies this, store
      ensures key == if chainKey == "" then call.id else chainKey
      ensures outcome.NotRetryable? <==> !DispatchStore.Retryable(old(store.db).rows, call.id, p.maxRetries, p.retryOnTimeout)
      ensures outcome.NotRetryable? ==> chains == old(chains) && admitted.None?
      ensures !outcome.NotRetryable? ==>
        && outcome == Attempt(old(Load(key)), p, call, admitted).1
        && chains == Stored(old(chains), key, old(Load(key)), Attempt(old(Load(key)), p, call, admitted).0)
      ensures admitted.Some? ==>
        && admitted == Some(freshId) && Admits(old(Load(key)), p, call, admitted)
        && RetryAdded(old(store.db), call.id, store.db, kernel, freshId, now,
                      NextAttempt(Recorded(old(Load(key)), p, call), p, call).value.decision)
      ensures admitted.None? ==> store.db == old(store.db)
      ensures DispatchLimits.Forest(store.db)
      ensures DispatchOutcomes.Outcomes(old(store.db)) ==> DispatchOutcomes.Outcomes(store.db)
    {
      key, admitted := if chainKey == "" then call.id else chainKey, None;
      var found := FindRetryable(store, call.id, p);
      if found.None? {
        outcome := NotRetryable;
        return;
      }
      var at := if chainKey == "" then call.id else chainKey;
      outcome, admitted := RetryOnChain(store, found.value, at, p, call, kernel, freshId, now);
    }

    // Load the chain, put the failure on it, and go on from there.
    method RetryOnChain(store: DispatchStore.Store, k: nat, at: string, p: Policy, call: Call,
                        kernel: DispatchModel.Kernel, freshId: string, now: int)
      returns (outcome: Outcome, ghost admitted: Option<string>)
      requires DispatchLimits.Forest(store.db) && k < |store.db.rows|
      requires freshId != "" && (DispatchModel.Holds(store.db.log, freshId) ==> DispatchModel.Holds(store.db.rows, freshId))
      modifies this, store
      ensures outcome == Attempt(old(Load(at)), p, call, admitted).1
      ensures chains == Stored(old(chains), at, old(Load(at)), Attempt(old(Load(at)), p, call, admitted).0)
      ensures admitted.Some? ==>
        && admitted == Some(freshId) && Admits(old(Load(at)), p, call, admitted)
        && AdmittedAs(old(store.db), k, store.db, kernel, freshId, now,
                      NextAttempt(Recorded(old(Load(at)), p, call), p, call).value.decision)
      ensures admitted.None? ==> store.db == old(store.db)
      ensures DispatchLimits.Forest(store.db)
      ensures DispatchOutcomes.Outcomes(old(store.db)) ==> DispatchOutcomes.Outcomes(store.db)
    {
      admitted := None;
      if call.fault.ChainUnread? {
        outcome := StoreFailed;
        return;
      }
      var cs := Load(at);
      if cs.exhausted {
        outcome := AlreadyExhausted;
        return;
      }
      if call.id in cs.retries {
        outcome := AlreadyRetried(cs.retries[call.id]);
        return;
      }
      ghost var loaded := cs;
      var ok: bool;
      cs, ok := Record(at, p, call);
      if !ok {
        outcome := StoreFailed;
        return;
      }
      outcome, admitted := Resolve(store, k, at, cs, p, call, kernel, freshId, now);
      AttemptResolves(loaded, p, call, admitted);
      StoredTwice(old(chains), at, loaded, cs, Resolved(cs, p, call, admitted).0);
    }

    // Choose, admit, and store the chain.
    method Resolve(store: DispatchStore.Store, k: nat, at: string, recorded: Chain, p: Policy, call: Call,
                   kernel: DispatchModel.Kernel, freshId: string, now: int)
      returns (outcome: Outcome, ghost admitted: Option<string>)
      requires DispatchLimits.Forest(store.db) && k < |store.db.rows|
      requires freshId != "" && (DispatchModel.Holds(store.db.log, freshId) ==> DispatchModel.Holds(store.db.rows, freshId))
      requires at in chains && chains[at] == recorded
      modifies this, store
      ensures outcome == Resolved(recorded, p, call, admitted).1
      ensures chains == old(chains)[at := Resolved(recorded, p, call, admitted).0]
      ensures admitted.Some? ==>
        && admitted == Some(freshId) && !call.fault.DecisionUnread?
        && Refusal(recorded, p, call).None? && NextAttempt(recorded, p, call).Some?
        && AdmittedAs(old(store.db), k, store.db, kernel, freshId, now, NextAttempt(recorded, p, call).value.decision)
      ensures admitted.None? ==> store.db == old(store.db)
      ensures DispatchLimits.Forest(store.db)
      ensures DispatchOutcomes.Outcomes(old(store.db)) ==> DispatchOutcomes.Outcomes(store.db)
    {
      admitted := None;
      var cs := recorded;
      assert chains == chains[at := recorded];
      if call.fault.DecisionUnread? {
        outcome := StoreFailed;
        return;
      }
      var refusal, next := Choose(cs, p, call);
      if refusal.Some? {
        outcome := refusal.value;
        return;
      }
      if next.None? {
        outcome := Exhausted;
        if !call.fault.OutcomeUnsaved? {
          chains := chains[at := cs.(exhausted := true)];
        }
        return;
      }
      var escalated := next.value.model != cs.currentModel;
      if escalated {
        cs := cs.(escalations := cs.escalations + 1, currentModel := next.value.model, strikes := 0);
      }
      var ok := AdmitRetry(store, k, next.value.decision, kernel, freshId, now);
      if !ok {
        outcome := NotAdmitted;
        return;
      }
      admitted := Some(freshId);
      cs := cs.(decision := next.value.decision, retries := cs.retries[call.id := freshId]);
      if call.fault.OutcomeUnsaved? {
        outcome := StoreFailed;
        return;
      }
      chains := chains[at := cs];
      outcome := Retried(freshId, next.value.model, escalated);
    }
  }

  // The chain is stored under its key when the call has changed it.
  function Stored(chains: map<string, Chain>, key: string, was: Chain, now: Chain): map<string, Chain> {
    if now == was then chains else chains[key := now]
  }

  lemma StoredTwice(chains: map<string, Chain>, key: string, was: Chain, recorded: Chain, now: Chain)
    requires was == (if key in chains then chains[key] else FRESH) && now != FRESH
    ensures chains[key := recorded][key := now] == Stored(chains, key, was, now)
  {
  }

  lemma AttemptResolves(cs: Chain, p: Policy, call: Call, admitted: Option<string>)
    requires !call.fault.ChainUnread? && !cs.exhausted && call.id !in cs.retries && !call.fault.FailureUnsaved?
    ensures Attempt(cs, p, call, admitted) == Resolved(Recorded(cs, p, call), p, call, admitted)
    ensures Resolved(Recorded(cs, p, call), p, call, admitted).0 != FRESH
  {
    assert |Recorded(cs, p, call).dispatches| > 0;
  }

  // The request for a retry, in the backend the decision names.
  function EscalatedRequest(orig: DispatchModel.Dispatch, decision: Option<Decision>): DispatchModel.Request {
    DispatchStore.RetryRequest(orig).(agentType := if decision.Some? then decision.value.backend else orig.agentType)
  }

  predicate RetryAdded(t: DispatchModel.Tables, id: string, after: DispatchModel.Tables, kernel: DispatchModel.Kernel,
                       newId: string, now: int, decision: Option<Decision>) {
    exists k: nat :: k < |t.rows| && t.rows[k].id == id && AdmittedAs(t, k, after, kernel, newId, now, decision)
  }

  // The admission of a retry of row k, as a step of a run.
  predicate AdmittedAs(t: DispatchModel.Tables, k: nat, after: DispatchModel.Tables, kernel: DispatchModel.Kernel,
                       id: string, now: int, decision: Option<Decision>)
    requires k < |t.rows|
  {
    var op := DispatchModel.Admit(EscalatedRequest(t.rows[k], decision), Some(k), id, now);
    DispatchModel.Enabled(t, kernel, op) && after == DispatchModel.Apply(t, kernel, op)
  }

  // It adds one row: a child at the same depth and in the same scope, one attempt later.
  lemma AdmittedRow(t: DispatchModel.Tables, k: nat, after: DispatchModel.Tables, kernel: DispatchModel.Kernel,
                    id: string, now: int, decision: Option<Decision>)
    requires k < |t.rows| && AdmittedAs(t, k, after, kernel, id, now, decision)
    ensures |after.rows| == |t.rows| + 1 && after.rows[..|t.rows|] == t.rows
    ensures var orig, d := t.rows[k], after.rows[|t.rows|];
      && d.id == id && d.parent == orig.id && d.viaRetry && d.depth == orig.depth && d.status.Spawned?
      && (DispatchModel.Scoped(orig.scope) ==> d.scope == orig.scope)
      && d.retryCount == orig.retryCount + 1
      && d.agentType == if decision.Some? then decision.value.backend else orig.agentType
  {
  }
}

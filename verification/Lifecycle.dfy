// The agent lifecycle machine: internal/lifecycle/lifecycle.go. Times and durations
// are nanoseconds; rates are real numbers.
module Lifecycle {
  import opened Basics

  datatype Phase = Waiting | Generating | Thinking | Idle | Stalled | Error | Completed

  // validTransitions
  function Allowed(s: Phase): set<Phase> {
    match s
    case Waiting => {Generating, Thinking, Error, Completed}
    case Generating => {Thinking, Idle, Stalled, Error, Completed}
    case Thinking => {Generating, Idle, Stalled, Error, Completed}
    case Idle => {Generating, Thinking, Stalled, Error, Completed}
    case Stalled => {Generating, Thinking, Idle, Error, Completed}
    case Error => {Waiting, Idle}
    case Completed => {}
  }

  // The same table, by target: from where a phase can be entered.
  function WaysInto(t: Phase): set<Phase> {
    match t
    case Waiting => {Error}
    case Generating => {Waiting, Thinking, Idle, Stalled}
    case Thinking => {Waiting, Generating, Idle, Stalled}
    case Idle => {Generating, Thinking, Stalled, Error}
    case Stalled => {Generating, Thinking, Idle}
    case Error => {Waiting, Generating, Thinking, Idle, Stalled}
    case Completed => {Waiting, Generating, Thinking, Idle, Stalled}
  }

  lemma WaysAreAllowed(s: Phase, t: Phase)
    ensures t in Allowed(s) <==> s in WaysInto(t)
  {
  }

  datatype Change = Change(source: Phase, target: Phase, reason: string, at: int)

  datatype Sample = Sample(at: int, tokens: int)

  datatype Config = Config(stallTimeout: int, velocityWindow: int, minTokensPerMin: real)

  const MINUTE: real := 60000000000.0

  // ---- Velocity, from all the samples there ever were ----

  function TokensAfter(samples: seq<Sample>, cutoff: int): int {
    if samples == [] then 0
    else
      var last := samples[|samples| - 1];
      TokensAfter(samples[..|samples| - 1], cutoff) + if last.at > cutoff then last.tokens else 0
  }

  // Tokens per minute over the window that ends now.
  function Rate(samples: seq<Sample>, window: int, now: int): real {
    var minutes := window as real / MINUTE;
    if minutes <= 0.0 then 0.0 else TokensAfter(samples, now - window) as real / minutes
  }

  // What each sample adds to a window that starts after the cutoff.
  function InWindow(samples: seq<Sample>, cutoff: int): (r: seq<int>)
    ensures |r| == |samples|
  {
    seq(|samples|, i requires 0 <= i < |samples| => if samples[i].at > cutoff then samples[i].tokens else 0)
  }

  lemma {:induction false} TokensAreSummed(samples: seq<Sample>, cutoff: int)
    ensures TokensAfter(samples, cutoff) == Sum(InWindow(samples, cutoff))
  {
    if samples != [] {
      var front, last := samples[..|samples| - 1], samples[|samples| - 1];
      TokensAreSummed(front, cutoff);
      var tokens := if last.at > cutoff then last.tokens else 0;
      assert InWindow(samples, cutoff) == InWindow(front, cutoff) + [tokens];
      SumSnoc(InWindow(front, cutoff), tokens);
    }
  }

  // A rate per minute of sixty billion nanoseconds: over the window it gives the tokens.
  lemma RateIsPerMinute(samples: seq<Sample>, window: int, now: int)
    ensures window > 0 ==>
      Rate(samples, window, now) * (window as real) == (Sum(InWindow(samples, now - window)) as real) * 60000000000.0
    ensures window <= 0 ==> Rate(samples, window, now) == 0.0
  {
    TokensAreSummed(samples, now - window);
    if window > 0 {
      var minutes, tokens := window as real / MINUTE, TokensAfter(samples, now - window) as real;
      assert minutes * MINUTE == window as real;
      assert Rate(samples, window, now) * minutes == tokens;
    }
  }

  predicate InTimeOrder(samples: seq<Sample>) {
    forall i, j :: 0 <= i < j < |samples| ==> samples[i].at <= samples[j].at
  }

  predicate Older(samples: seq<Sample>, time: int) {
    forall i :: 0 <= i < |samples| ==> samples[i].at < time
  }

  lemma {:induction false} TokensConcat(a: seq<Sample>, b: seq<Sample>, cutoff: int)
    ensures TokensAfter(a + b, cutoff) == TokensAfter(a, cutoff) + TokensAfter(b, cutoff)
  {
    if b == [] {
      assert a + b == a;
    } else {
      assert (a + b)[..|a + b| - 1] == a + b[..|b| - 1];
      TokensConcat(a, b[..|b| - 1], cutoff);
    }
  }

  lemma {:induction false} OldSamplesCountNothing(a: seq<Sample>, cutoff: int)
    requires forall i :: 0 <= i < |a| ==> a[i].at <= cutoff
    ensures TokensAfter(a, cutoff) == 0
  {
    if a != [] {
      OldSamplesCountNothing(a[..|a| - 1], cutoff);
    }
  }

  lemma DropOld(pruned: seq<Sample>, samples: seq<Sample>, n: nat, cutoff: int)
    requires InTimeOrder(samples) && n <= |samples| && Older(pruned, cutoff) && Older(samples[..n], cutoff)
    requires n < |samples| ==> samples[n].at >= cutoff
    ensures (pruned + samples[..n]) + samples[n..] == pruned + samples
    ensures Older(pruned + samples[..n], cutoff) && InTimeOrder(samples[n..])
    ensures samples[n..] != [] ==> samples[n..][|samples[n..]| - 1] == samples[|samples| - 1]
    ensures forall i :: 0 <= i < |samples[n..]| ==> samples[n..][i].at >= cutoff
  {
  }

  // What was pruned is too old to count in any later window.
  lemma PrunedRateIsExact(pruned: seq<Sample>, kept: seq<Sample>, window: int, clock: int, now: int)
    requires clock <= now && Older(pruned, clock - 2 * window)
    ensures Rate(kept, window, now) == Rate(pruned + kept, window, now)
  {
    if window as real / MINUTE > 0.0 {
      assert window > 0;
      OldSamplesCountNothing(pruned, now - window);
      TokensConcat(pruned, kept, now - window);
    }
  }

  // ---- Histories ----

  // The changes lead from waiting to this state, each one allowed.
  predicate Leads(history: seq<Change>, state: Phase) {
    && (forall i :: 0 <= i < |history| ==> history[i].target in Allowed(history[i].source))
    && (forall i {:trigger Joined(history, i)} :: 0 <= i < |history| ==> Joined(history, i))
    && state == StateAfter(history)
  }

  function StateAfter(history: seq<Change>): Phase {
    if history == [] then Waiting else history[|history| - 1].target
  }

  predicate Joined(history: seq<Change>, i: nat)
    requires i < |history|
  {
    history[i].source == StateAfter(history[..i])
  }

  lemma LeadsOn(history: seq<Change>, c: Change)
    requires Leads(history, c.source) && c.target in Allowed(c.source)
    ensures Leads(history + [c], c.target)
  {
    var longer := history + [c];
    forall i | 0 <= i < |longer|
      ensures Joined(longer, i)
    {
      if i < |history| {
        assert longer[..i] == history[..i] && Joined(history, i);
      } else {
        assert longer[..i] == history;
      }
    }
  }

  // Nothing follows a completion, and only work in progress stalls.
  lemma CompletionIsLast(history: seq<Change>, state: Phase, i: nat)
    requires Leads(history, state) && i < |history|
    ensures history[i].target.Completed? <==> i == |history| - 1 && state.Completed?
    ensures history[i].target.Stalled? ==> history[i].source.Generating? || history[i].source.Thinking? || history[i].source.Idle?
  {
    if i < |history| - 1 {
      assert Joined(history, i + 1);
      assert history[..i + 1][i] == history[i];
    }
  }

  class Machine {
    const config: Config
    var state: Phase
    var lastActivity: int
    var lastTransition: int
    var history: seq<Change>
    var samples: seq<Sample>
    ghost var pruned: seq<Sample>
    ghost var clock: int // the latest time seen

    ghost predicate Valid()
      reads this
    {
      && Leads(history, state)
      && lastActivity <= clock
      && InTimeOrder(samples) && (samples != [] ==> samples[|samples| - 1].at <= clock)
      && Older(pruned, clock - 2 * config.velocityWindow)
    }

    // Every sample there ever was.
    ghost function Recorded(): seq<Sample>
      reads this
    {
      pruned + samples
    }

    constructor (config: Config, now: int)
      ensures Valid() && this.config == config && state == Waiting && history == [] && Recorded() == [] && clock == now
    {
      this.config := config;
      state, lastActivity, lastTransition, history, samples := Waiting, now, now, [], [];
      pruned, clock := [], now;
    }

    // An unlisted change is refused; a change to the same state is no change.
    method Transition(target: Phase, reason: string, now: int) returns (ok: bool)
      requires Valid() && clock <= now
      modifies this
      ensures Valid() && clock == now && pruned == old(pruned) && samples == old(samples)
      ensures ok <==> target == old(state) || target in Allowed(old(state))
      ensures ok <==> target == old(state) || old(state) in WaysInto(target)
      ensures state == if ok then target else old(state)
      ensures history == if ok && target != old(state) then old(history) + [Change(old(state), target, reason, now)] else old(history)
      ensures lastActivity == if state != old(state) then now else old(lastActivity)
    {
      clock := now;
      WaysAreAllowed(state, target);
      if state == target {
        return true;
      }
      if target !in Allowed(state) {
        return false;
      }
      var c := Change(state, target, reason, now);
      LeadsOn(history, c);
      state, lastTransition, lastActivity := target, now, now;
      history := history + [c];
      return true;
    }

    method RecordActivity(tokens: int, now: int)
      requires Valid() && clock <= now
      modifies this
      ensures Valid() && clock == now && Recorded() == old(Recorded()) + [Sample(now, tokens)]
      ensures state == old(state) && history == old(history) && lastActivity == now
      ensures forall i :: 0 <= i < |samples| ==> samples[i].at >= now - 2 * config.velocityWindow
    {
      var grown := samples + [Sample(now, tokens)];
      var cutoff := now - config.velocityWindow * 2;
      var prune := CountOld(grown, cutoff);
      ghost var dropped := pruned;
      DropOld(dropped, grown, prune, cutoff);
      assert dropped + grown == (dropped + samples) + [Sample(now, tokens)];
      clock, lastActivity := now, now;
      pruned, samples := dropped + grown[..prune], grown[prune..];
    }

    // How many samples at the front are older than the cutoff.
    static method CountOld(samples: seq<Sample>, cutoff: int) returns (n: nat)
      ensures n <= |samples| && Older(samples[..n], cutoff)
      ensures n < |samples| ==> samples[n].at >= cutoff
    {
      n := 0;
      while n < |samples| && samples[n].at < cutoff
        invariant n <= |samples| && Older(samples[..n], cutoff)
      {
        n := n + 1;
      }
    }

    // The pruned buffer gives the rate of the whole history.
    method Velocity(now: int) returns (v: real)
      requires Valid() && clock <= now
      ensures v == Rate(Recorded(), config.velocityWindow, now)
    {
      var cutoff := now - config.velocityWindow;
      var total := 0;
      for i := 0 to |samples|
        invariant total == TokensAfter(samples[..i], cutoff)
      {
        assert samples[..i + 1][..i] == samples[..i];
        if samples[i].at > cutoff {
          total := total + samples[i].tokens;
        }
      }
      assert samples[..|samples|] == samples;
      PrunedRateIsExact(pruned, samples, config.velocityWindow, clock, now);
      var minutes := config.velocityWindow as real / MINUTE;
      if minutes <= 0.0 {
        return 0.0;
      }
      return total as real / minutes;
    }

    // Work in progress stalls exactly when it has been silent too long, or for longer than
    // the window at too low a rate; the stall leaves the activity time alone.
    method CheckStall(now: int) returns (stalled: bool)
      requires Valid() && clock <= now
      modifies this
      ensures Valid() && clock == now && Recorded() == old(Recorded()) && lastActivity == old(lastActivity)
      ensures stalled <==>
        && (old(state) == Generating || old(state) == Thinking)
        && (now - old(lastActivity) >= config.stallTimeout
            || (now - old(lastActivity) > config.velocityWindow
                && Rate(old(Recorded()), config.velocityWindow, now) < config.minTokensPerMin))
      ensures state == if stalled then Stalled else old(state)
      ensures !stalled ==> history == old(history)
      ensures stalled ==>
        history == old(history) + [Change(old(state), Stalled, if now - old(lastActivity) >= config.stallTimeout then "no activity"
                                          else "velocity below threshold", now)]
    {
      if state != Generating && state != Thinking {
        clock := now;
        return false;
      }
      var silent := now - lastActivity;
      if silent >= config.stallTimeout {
        TransitionLocked(Stalled, "no activity", now);
        return true;
      }
      var v := Velocity(now);
      if v < config.minTokensPerMin && silent > config.velocityWindow {
        TransitionLocked(Stalled, "velocity below threshold", now);
        return true;
      }
      clock := now;
      return false;
    }

    // transitionLocked does not check; its callers do.
    method TransitionLocked(target: Phase, reason: string, now: int)
      requires Valid() && clock <= now && target in Allowed(state)
      modifies this
      ensures Valid() && clock == now && pruned == old(pruned) && samples == old(samples) && lastActivity == old(lastActivity)
      ensures state == target && history == old(history) + [Change(old(state), target, reason, now)]
    {
      var c := Change(state, target, reason, now);
      LeadsOn(history, c);
      clock := now;
      state, lastTransition, history := target, now, history + [c];
    }
  }
}

/** The sidecar lifecycle of `lifecycle.rs`: generation fencing, bounded restarts and backoff arithmetic. */
module Lifecycle {
  import opened Wrappers

  const U64_MAX := 0xFFFF_FFFF_FFFF_FFFF
  const U32_MAX := 0xFFFF_FFFF
  const NANOS_PER_MILLI := 1_000_000
  const NANOS_PER_SECOND := 1_000_000_000
  const STABLE_WINDOW_MILLIS := 30_000

  /** The longest `Duration`, in nanoseconds. */
  const DURATION_MAX := U64_MAX * NANOS_PER_SECOND + 999_999_999

  datatype State = Starting | Ready | Busy | Stopping | Exited | Backoff | Incompatible | Faulted

  /** Delays in nanoseconds. */
  datatype Policy = Policy(maxAttempts: nat, baseDelay: nat, maxDelay: nat)

  const MAX_WINDOW := 3_600 * NANOS_PER_SECOND

  predicate ValidPolicy(p: Policy) { 0 < p.maxAttempts && 0 < p.baseDelay <= p.maxDelay <= MAX_WINDOW }

  datatype Machine = Machine(state: State, generation: nat, attempts: nat, nextRetry: Option<nat>,
      readySince: Option<nat>)

  const FreshMachine := Machine(Exited, 0, 0, None, None)

  datatype StartError = InBackoff(retryAfter: nat) | NotCompatible | HasFaulted | InvalidState

  predicate Terminal(state: State) { state == Faulted || state == Incompatible }

  predicate Running(state: State) { state == Starting || state == Ready || state == Busy }

  // ---- Arithmetic ------------------------------------------------------------------------

  function Min(a: nat, b: nat): nat { if a <= b then a else b }

  function SaturatingSub(a: nat, b: nat): nat { if a >= b then a - b else 0 }

  function Pow2(n: nat): nat { if n == 0 then 1 else 2 * Pow2(n - 1) }

  /** The delay before retry number `attempt`: the shift is capped at 31 and the product saturates. */
  function Delay(p: Policy, attempt: nat): nat {
    Min(Min(p.baseDelay * Pow2(Min(SaturatingSub(attempt, 1), 31)), DURATION_MAX), p.maxDelay)
  }

  function DelayMillis(p: Policy, attempt: nat): nat { Min(Delay(p, attempt) / NANOS_PER_MILLI, U64_MAX) }

  // ---- Calls -----------------------------------------------------------------------------

  /** A call with the clock readings it takes; `later` is its second reading. */
  datatype Call =
    | BeginStart(now: nat, later: nat)
    | MarkReady(generation: nat, now: nat)
    | MarkBusy(generation: nat)
    | MarkReadyAgain(generation: nat)
    | BeginStop(generation: nat)
    | MarkExited(generation: nat)
    | MarkIncompatible(generation: nat)
    | MarkFaulted(generation: nat)
    | RecordCrash(generation: nat, now: nat, later: nat)

  predicate BackoffDue(m: Machine, now: nat) { m.nextRetry == None || now >= m.nextRetry.value }

  function RetryAfter(m: Machine, now: nat): nat {
    if m.nextRetry.Some? then SaturatingSub(m.nextRetry.value, now) else 0
  }

  function StartRefusal(m: Machine, now: nat, later: nat): Option<StartError> {
    match m.state
    case Exited => None
    case Backoff => if BackoffDue(m, now) then None else Some(InBackoff(RetryAfter(m, later)))
    case Incompatible => Some(NotCompatible)
    case Faulted => Some(HasFaulted)
    case _ => Some(InvalidState)
  }

  /** `wrapping_add(1).max(1)` on 64 bits. */
  function NextGeneration(generation: nat): nat {
    if generation >= U64_MAX then 1 else generation + 1
  }

  /** A crash is charged to a running generation, once; everything else is only diagnosed. */
  predicate Charged(m: Machine, generation: nat) { generation == m.generation && Running(m.state) }

  predicate Stable(m: Machine, now: nat) {
    m.readySince.Some? && SaturatingSub(now, m.readySince.value) >= STABLE_WINDOW_MILLIS
  }

  function AttemptsAfterCrash(m: Machine, now: nat): nat {
    Min((if Stable(m, now) then 0 else m.attempts) + 1, U32_MAX)
  }

  function AfterCrash(p: Policy, m: Machine, now: nat, later: nat): Machine {
    var attempts := AttemptsAfterCrash(m, now);
    if attempts > p.maxAttempts then m.(attempts := attempts, state := Faulted, nextRetry := None)
    else m.(attempts := attempts, nextRetry := Some(Min(later + DelayMillis(p, attempts), U64_MAX)), state := Backoff)
  }

  function Step(p: Policy, m: Machine, call: Call): Machine {
    match call
    case BeginStart(now, later) =>
      if StartRefusal(m, now, later).Some? then m
      else m.(generation := NextGeneration(m.generation), state := Starting, nextRetry := None, readySince := None)
    case MarkReady(g, now) =>
      if g != m.generation || m.state != Starting then m else m.(state := Ready, readySince := Some(now))
    case MarkBusy(g) => if g != m.generation || m.state != Ready then m else m.(state := Busy)
    case MarkReadyAgain(g) => if g != m.generation || m.state != Busy then m else m.(state := Ready)
    case BeginStop(g) => if g != m.generation || !Running(m.state) then m else m.(state := Stopping)
    case MarkExited(g) => if g != m.generation || Terminal(m.state) then m else m.(state := Exited)
    case MarkIncompatible(g) =>
      if g != m.generation then m else m.(state := Incompatible, nextRetry := None, readySince := None)
    case MarkFaulted(g) =>
      if g != m.generation then m else m.(state := Faulted, nextRetry := None, readySince := None)
    case RecordCrash(g, now, later) => if Charged(m, g) then AfterCrash(p, m, now, later) else m
  }

  // ---- The machine -----------------------------------------------------------------------

  datatype ConfigError = InvalidConfig

  /** `with_clock`: a policy without retries or with an unusable window never becomes a machine. */
  method NewMachine(policy: Policy) returns (r: Result<LifecycleMachine, ConfigError>)
    ensures r.Ok? <==> policy.maxAttempts > 0 && 0 < policy.baseDelay <= policy.maxDelay <= 3_600_000_000_000
    ensures r.Ok? ==> ValidPolicy(policy)
    ensures r.Ok? ==> r.value.View() == FreshMachine && r.value.policy == policy
  {
    if policy.maxAttempts == 0 || policy.baseDelay == 0 || policy.maxDelay < policy.baseDelay
        || policy.maxDelay > MAX_WINDOW {
      return Err(InvalidConfig);
    }
    var machine := new LifecycleMachine(policy);
    return Ok(machine);
  }

  class LifecycleMachine {
    var state: State
    var generation: nat
    var restartAttempt: nat
    var nextRetryMillis: Option<nat>
    var readySinceMillis: Option<nat>
    const policy: Policy

    ghost function View(): Machine
      reads this
    {
      Machine(state, generation, restartAttempt, nextRetryMillis, readySinceMillis)
    }

    constructor (policy: Policy)
      ensures View() == FreshMachine && this.policy == policy
    {
      state, generation, restartAttempt, nextRetryMillis, readySinceMillis := Exited, 0, 0, None, None;
      this.policy := policy;
    }

    method BeginStart(now: nat, later: nat) returns (r: Result<nat, StartError>)
      modifies this
      ensures View() == Step(policy, old(View()), Call.BeginStart(now, later))
      ensures match StartRefusal(old(View()), now, later)
              case None => r == Ok(generation)
              case Some(error) => r == Err(error)
    {
      if state == Exited {
      } else if state == Backoff {
        var due := nextRetryMillis == None || now >= nextRetryMillis.value;
        if !due {
          return Err(InBackoff(SaturatingSub(nextRetryMillis.value, later)));
        }
      } else if state == Incompatible {
        return Err(NotCompatible);
      } else if state == Faulted {
        return Err(HasFaulted);
      } else {
        return Err(InvalidState);
      }
      generation := NextGeneration(generation);
      state := Starting;
      nextRetryMillis := None;
      readySinceMillis := None;
      return Ok(generation);
    }

    method MarkReady(g: nat, now: nat) returns (ok: bool)
      modifies this
      ensures View() == Step(policy, old(View()), Call.MarkReady(g, now))
      ensures ok == (g == old(generation) && old(state) == Starting)
    {
      if g != generation || state != Starting {
        return false;
      }
      state := Ready;
      readySinceMillis := Some(now);
      return true;
    }

    method MarkBusy(g: nat) returns (ok: bool)
      modifies this
      ensures View() == Step(policy, old(View()), Call.MarkBusy(g))
      ensures ok == (g == old(generation) && old(state) == Ready)
    {
      ok := g == generation && state == Ready;
      if ok {
        state := Busy;
      }
    }

    method MarkReadyAgain(g: nat) returns (ok: bool)
      modifies this
      ensures View() == Step(policy, old(View()), Call.MarkReadyAgain(g))
      ensures ok == (g == old(generation) && old(state) == Busy)
    {
      ok := g == generation && state == Busy;
      if ok {
        state := Ready;
      }
    }

    method BeginStop(g: nat) returns (ok: bool)
      modifies this
      ensures View() == Step(policy, old(View()), Call.BeginStop(g))
      ensures ok == (g == old(generation) && Running(old(state)))
    {
      ok := g == generation && Running(state);
      if ok {
        state := Stopping;
      }
    }

    method MarkExited(g: nat) returns (current: bool)
      modifies this
      ensures View() == Step(policy, old(View()), Call.MarkExited(g))
      ensures current == (g == old(generation) && !Terminal(old(state)))
    {
      if g != generation || Terminal(state) {
        return false;
      }
      state := Exited;
      return true;
    }

    method MarkIncompatible(g: nat) returns (current: bool)
      modifies this
      ensures View() == Step(policy, old(View()), Call.MarkIncompatible(g))
      ensures current == (g == old(generation))
    {
      if g != generation {
        return false;
      }
      state, nextRetryMillis, readySinceMillis := Incompatible, None, None;
      return true;
    }

    method MarkFaulted(g: nat) returns (current: bool)
      modifies this
      ensures View() == Step(policy, old(View()), Call.MarkFaulted(g))
      ensures current == (g == old(generation))
    {
      if g != generation {
        return false;
      }
      state, nextRetryMillis, readySinceMillis := Faulted, None, None;
      return true;
    }

    method RecordCrash(g: nat, now: nat, later: nat) returns (after: State)
      modifies this
      ensures View() == Step(policy, old(View()), Call.RecordCrash(g, now, later))
      ensures after == state
    {
      if g != generation || state == Exited || state == Faulted || state == Incompatible {
        return state;
      }
      if state == Stopping || state == Backoff {
        return state;
      }
      if readySinceMillis.Some? && SaturatingSub(now, readySinceMillis.value) >= STABLE_WINDOW_MILLIS {
        restartAttempt := 0;
      }
      restartAttempt := Min(restartAttempt + 1, U32_MAX);
      if restartAttempt > policy.maxAttempts {
        state := Faulted;
        nextRetryMillis := None;
        return state;
      }
      nextRetryMillis := Some(Min(later + DelayMillis(policy, restartAttempt), U64_MAX));
      state := Backoff;
      return state;
    }
  }
}

/** What every run of the lifecycle machine keeps. */
module LifecycleRuns {
  import opened Wrappers
  import opened Seqs
  import opened Lifecycle

  function Run(p: Policy, m: Machine, calls: seq<Call>): Machine
    decreases |calls|
  {
    if |calls| == 0 then m else Run(p, Step(p, m, calls[0]), calls[1..])
  }

  predicate NamesGeneration(call: Call, generation: nat) { call.BeginStart? || call.generation == generation }

  /** A call for another generation than the current one changes nothing. */
  lemma StaleCallsChangeNothing(p: Policy, m: Machine, call: Call)
    requires !NamesGeneration(call, m.generation)
    ensures Step(p, m, call) == m
  {
  }

  /** Faulted and Incompatible are never left, and nothing is started or charged any more. */
  lemma {:induction false} TerminalIsForever(p: Policy, m: Machine, calls: seq<Call>)
    requires Terminal(m.state)
    ensures Terminal(Run(p, m, calls).state)
    ensures Run(p, m, calls).generation == m.generation && Run(p, m, calls).attempts == m.attempts
    ensures Charges(p, m, calls) == []
    decreases |calls|
  {
    if |calls| > 0 {
      TerminalIsForever(p, Step(p, m, calls[0]), calls[1..]);
    }
  }

  // ---- Charged crashes -------------------------------------------------------------------

  /**
   * A crash of the running generation, and what the machine holds after its report; `stable` says that the
   * generation had been ready for half a minute, and `reading` is the clock reading the deadline counts from.
   */
  datatype Charge =
    Charge(generation: nat, stable: bool, attempt: nat, reading: nat, deadline: Option<nat>, faulted: bool)

  function ChargeOf(p: Policy, m: Machine, call: Call): seq<Charge> {
    if call.RecordCrash? && call.generation == m.generation
        && (m.state == Starting || m.state == Ready || m.state == Busy) then
      var after := Step(p, m, call);
      var stable := m.readySince.Some? && call.now - m.readySince.value >= 30_000;
      [Charge(m.generation, stable, after.attempts, call.later, after.nextRetry, after.state == Faulted)]
    else []
  }

  /** The crashes charged along a run, in order. */
  function Charges(p: Policy, m: Machine, calls: seq<Call>): seq<Charge>
    decreases |calls|
  {
    if |calls| == 0 then [] else ChargeOf(p, m, calls[0]) + Charges(p, Step(p, m, calls[0]), calls[1..])
  }

  /** The lowest generation that can still be charged. */
  function FirstChargeable(m: Machine): nat { if Running(m.state) then m.generation else m.generation + 1 }

  lemma StepRaisesChargeable(p: Policy, m: Machine, call: Call)
    requires m.generation < U64_MAX
    ensures FirstChargeable(m) <= FirstChargeable(Step(p, m, call))
    ensures m.generation <= Step(p, m, call).generation <= m.generation + 1
    ensures ChargeOf(p, m, call) != [] ==>
              && |ChargeOf(p, m, call)| == 1
              && FirstChargeable(m) <= ChargeOf(p, m, call)[0].generation < FirstChargeable(Step(p, m, call))
  {
  }

  ghost predicate Rising(from: nat, charges: seq<Charge>) {
    && (forall i :: 0 <= i < |charges| ==> charges[i].generation >= from)
    && (forall i, j :: 0 <= i < j < |charges| ==> charges[i].generation < charges[j].generation)
  }

  /** Every charge belongs to a later generation than the one before it, so no generation is charged twice. */
  lemma {:induction false} EachGenerationIsChargedOnce(p: Policy, m: Machine, calls: seq<Call>)
    requires m.generation + |calls| < U64_MAX
    ensures Rising(FirstChargeable(m), Charges(p, m, calls))
    decreases |calls|
  {
    hide Step, ChargeOf, FirstChargeable;
    if |calls| > 0 {
      var next := Step(p, m, calls[0]);
      StepRaisesChargeable(p, m, calls[0]);
      EachGenerationIsChargedOnce(p, next, calls[1..]);
      var head, tail := ChargeOf(p, m, calls[0]), Charges(p, next, calls[1..]);
      var charges := head + tail;
      forall i | |head| <= i < |charges|
        ensures charges[i].generation >= FirstChargeable(next)
      {
        assert charges[i] == tail[i - |head|];
      }
    }
  }

  // ---- The restart budget ----------------------------------------------------------------

  ghost predicate Inv(p: Policy, m: Machine) {
    && m.attempts <= p.maxAttempts + 1
    && (m.attempts == p.maxAttempts + 1 ==> Terminal(m.state))
    && (m.state == Backoff ==> m.nextRetry.Some? && m.attempts > 0)
  }

  lemma StepKeepsInv(p: Policy, m: Machine, call: Call)
    requires Inv(p, m) && p.maxAttempts < U32_MAX
    ensures Inv(p, Step(p, m, call))
  {
  }

  /** The counter restarts at one after a stable window and otherwise counts on from the charge before. */
  ghost predicate CountsOn(from: nat, charges: seq<Charge>)
    decreases |charges|
  {
    |charges| == 0
    || (charges[0].attempt == (if charges[0].stable then 1 else from + 1) && CountsOn(charges[0].attempt, charges[1..]))
  }

  /** A charge is a fault exactly when it exceeds the allowed attempts. */
  ghost predicate FaultsAtLimit(p: Policy, charges: seq<Charge>) {
    forall i :: 0 <= i < |charges| ==>
      charges[i].attempt <= p.maxAttempts + 1 && (charges[i].faulted <==> charges[i].attempt == p.maxAttempts + 1)
  }

  function LastAttempt(from: nat, charges: seq<Charge>): nat {
    if |charges| == 0 then from else charges[|charges| - 1].attempt
  }

  /** The attempt counter follows the charges of the run, and a faulting charge is the last one. */
  lemma {:induction false} AttemptsFollowCharges(p: Policy, m: Machine, calls: seq<Call>)
    requires Inv(p, m) && p.maxAttempts < U32_MAX
    ensures Inv(p, Run(p, m, calls))
    ensures var charges := Charges(p, m, calls);
            && Run(p, m, calls).attempts == LastAttempt(m.attempts, charges)
            && CountsOn(m.attempts, charges) && FaultsAtLimit(p, charges)
            && (forall i :: 0 <= i < |charges| && charges[i].faulted ==>
                  i == |charges| - 1 && Terminal(Run(p, m, calls).state))
    decreases |calls|
  {
    if |calls| > 0 {
      hide Inv, Step, ChargeOf, Terminal, CountsOn, FaultsAtLimit;
      var next := Step(p, m, calls[0]);
      FirstCharge(p, m, calls[0]);
      AttemptsFollowCharges(p, next, calls[1..]);
      var head, tail := ChargeOf(p, m, calls[0]), Charges(p, next, calls[1..]);
      if |head| == 1 {
        assert head == [head[0]];
        Prepend(p, m.attempts, head[0], tail);
        if head[0].faulted {
          TerminalIsForever(p, next, calls[1..]);
        }
        forall i | 1 <= i < |head + tail|
          ensures (head + tail)[i] == tail[i - 1]
        {
        }
      } else {
        assert head + tail == tail;
      }
    }
  }

  lemma Prepend(p: Policy, from: nat, first: Charge, tail: seq<Charge>)
    requires CountsOn(from, [first]) && FaultsAtLimit(p, [first])
    requires CountsOn(first.attempt, tail) && FaultsAtLimit(p, tail)
    ensures CountsOn(from, [first] + tail) && FaultsAtLimit(p, [first] + tail)
    ensures LastAttempt(from, [first] + tail) == LastAttempt(first.attempt, tail)
  {
    assert [first][0] == first && ([first] + tail)[1..] == tail;
  }

  lemma FirstCharge(p: Policy, m: Machine, call: Call)
    requires Inv(p, m) && p.maxAttempts < U32_MAX
    ensures Inv(p, Step(p, m, call))
    ensures var charges := ChargeOf(p, m, call);
            && |charges| <= 1 && Step(p, m, call).attempts == LastAttempt(m.attempts, charges)
            && CountsOn(m.attempts, charges) && FaultsAtLimit(p, charges)
            && (|charges| == 1 && charges[0].faulted ==> Terminal(Step(p, m, call).state))
  {
    StepKeepsInv(p, m, call);
  }

  /**
   * No crash loop: while no crash follows a stable window, a run enters Backoff at most `maxAttempts`
   * times; the next crash is the last one and leaves the machine terminal.
   */
  lemma {:induction false} RestartsAreBounded(p: Policy, calls: seq<Call>)
    requires ValidPolicy(p) && p.maxAttempts < U32_MAX
    requires forall charge :: charge in Charges(p, FreshMachine, calls) ==> !charge.stable
    ensures var charges := Charges(p, FreshMachine, calls);
            && |charges| <= p.maxAttempts + 1
            && (forall i :: 0 <= i < |charges| ==>
                  charges[i].attempt == i + 1 && (charges[i].faulted <==> i == p.maxAttempts))
            && (|charges| == p.maxAttempts + 1 ==> Terminal(Run(p, FreshMachine, calls).state))
  {
    var charges := Charges(p, FreshMachine, calls);
    AttemptsFollowCharges(p, FreshMachine, calls);
    CountsFromZero(charges, |charges|);
  }

  lemma {:induction false} CountsAt(from: nat, charges: seq<Charge>, i: nat)
    requires CountsOn(from, charges) && i < |charges|
    ensures charges[i].attempt == if charges[i].stable then 1 else 1 + LastAttempt(from, charges[..i])
    decreases i
  {
    if i > 0 {
      CountsAt(charges[0].attempt, charges[1..], i - 1);
      assert charges[1..][..i - 1] == charges[1..i];
    }
  }

  lemma {:induction false} CountsFromZero(charges: seq<Charge>, n: nat)
    requires n <= |charges| && CountsOn(0, charges)
    requires forall charge :: charge in charges ==> !charge.stable
    ensures forall i :: 0 <= i < n ==> charges[i].attempt == i + 1
  {
    if n > 0 {
      CountsFromZero(charges, n - 1);
      CountsAt(0, charges, n - 1);
      assert charges[n - 1] in charges;
    }
  }

  // ---- Backoff arithmetic ----------------------------------------------------------------

  lemma {:induction false} Pow2Grows(a: nat, b: nat)
    requires a <= b
    ensures 1 <= Pow2(a) <= Pow2(b)
    decreases b
  {
    if b > 0 {
      Pow2Grows(if a > 0 then a - 1 else 0, b - 1);
    }
  }

  /** The first delay is the base, every further one doubles up to the maximum. */
  lemma DelayDoubles(p: Policy, attempt: nat)
    requires ValidPolicy(p) && 1 <= attempt
    ensures Delay(p, 1) == p.baseDelay
    ensures attempt <= 31 ==> Delay(p, attempt + 1) == Min(2 * Delay(p, attempt), p.maxDelay)
    ensures attempt > 31 ==> Delay(p, attempt + 1) == Delay(p, attempt)
  {
    Pow2Grows(0, Min(attempt - 1, 31));
    ScaledDouble(p.baseDelay, Min(attempt - 1, 31));
  }

  lemma ScaledDouble(base: nat, n: nat)
    ensures base * Pow2(n + 1) == 2 * (base * Pow2(n))
  {
    assert base * (2 * Pow2(n)) == 2 * (base * Pow2(n));
  }

  /** Every delay lies between the base and the maximum, and later attempts never wait less. */
  lemma DelayIsBoundedAndMonotone(p: Policy, attempt: nat, later: nat)
    requires ValidPolicy(p) && 1 <= attempt <= later
    ensures p.baseDelay <= Delay(p, attempt) <= Delay(p, later) <= p.maxDelay
    ensures p.baseDelay / NANOS_PER_MILLI <= DelayMillis(p, attempt) <= DelayMillis(p, later)
    ensures DelayMillis(p, later) <= p.maxDelay / NANOS_PER_MILLI
  {
    var a, b := Min(attempt - 1, 31), Min(later - 1, 31);
    Pow2Grows(0, a);
    Pow2Grows(a, b);
    ScaledMonotone(p.baseDelay, 1, Pow2(a));
    ScaledMonotone(p.baseDelay, Pow2(a), Pow2(b));
  }

  lemma {:induction false} ScaledMonotone(base: nat, x: nat, y: nat)
    requires x <= y
    ensures base * x <= base * y
    decreases y - x
  {
    if x < y {
      ScaledMonotone(base, x, y - 1);
      assert base * y == base * (y - 1) + base;
    }
  }

  // ---- Waiting out the backoff -------------------------------------------------------------

  /** A start succeeds exactly from Exited, or from Backoff once the deadline has come. */
  lemma StartsIff(p: Policy, m: Machine, now: nat, later: nat)
    requires Inv(p, m)
    ensures StartRefusal(m, now, later) == None
            <==> m.state == Exited || (m.state == Backoff && now >= m.nextRetry.value)
    ensures StartRefusal(m, now, later) == None ==> Step(p, m, BeginStart(now, later)).state == Starting
    ensures StartRefusal(m, now, later).Some? ==> Step(p, m, BeginStart(now, later)) == m
    ensures m.state == Backoff && now < m.nextRetry.value ==>
              StartRefusal(m, now, later)
              == Some(InBackoff(if later < m.nextRetry.value then m.nextRetry.value - later else 0))
    ensures StartRefusal(m, now, later) == Some(NotCompatible) <==> m.state == Incompatible
    ensures StartRefusal(m, now, later) == Some(HasFaulted) <==> m.state == Faulted
    ensures StartRefusal(m, now, later) == Some(InvalidState)
            <==> m.state == Starting || m.state == Ready || m.state == Busy || m.state == Stopping
  {
  }

  predicate SomeCall(calls: seq<Call>, call: Call) { call in calls }

  /** No start of the run succeeds. */
  predicate NoStart(p: Policy, m: Machine, calls: seq<Call>)
    decreases |calls|
  {
    |calls| == 0
    || (!(calls[0].BeginStart? && StartRefusal(m, calls[0].now, calls[0].later) == None)
        && NoStart(p, Step(p, m, calls[0]), calls[1..]))
  }

  /**
   * From Backoff until the next start only the exit, fault and incompatibility reports of the current generation do
   * anything.
   */
  lemma {:induction false} BackoffUntilStart(p: Policy, m: Machine, calls: seq<Call>)
    requires (m.state == Backoff || m.state == Exited) && m.nextRetry.Some? && NoStart(p, m, calls)
    ensures var after := Run(p, m, calls);
            var g := m.generation;
            if SomeCall(calls, MarkIncompatible(g)) || SomeCall(calls, MarkFaulted(g)) then Terminal(after.state)
            else if m.state == Exited || SomeCall(calls, MarkExited(g)) then after == m.(state := Exited)
            else after == m
    decreases |calls|
  {
    if |calls| > 0 {
      var next := Step(p, m, calls[0]);
      assert calls == [calls[0]] + calls[1..];
      if Terminal(next.state) {
        TerminalIsForever(p, next, calls[1..]);
      } else {
        BackoffUntilStart(p, next, calls[1..]);
      }
    }
  }

  /**
   * When the start after a crash waits out its backoff: it succeeds before the deadline if and only if the
   * exit of the crashed generation was also reported in between, and that report is what skips the wait.
   */
  lemma StartSkipsBackoffIffExitReported(p: Policy, m: Machine, calls: seq<Call>, now: nat, later: nat)
    requires Inv(p, m) && m.state == Backoff && NoStart(p, m, calls)
    requires !SomeCall(calls, MarkIncompatible(m.generation)) && !SomeCall(calls, MarkFaulted(m.generation))
    ensures StartRefusal(Run(p, m, calls), now, later) == None
            <==> now >= m.nextRetry.value || SomeCall(calls, MarkExited(m.generation))
  {
    BackoffUntilStart(p, m, calls);
  }

  /** A concrete run: crash, exit report, and a start without any wait although the first delay is 100 ms. */
  lemma ExitReportSkipsBackoff()
    ensures var p := Policy(3, 100 * NANOS_PER_MILLI, 5 * NANOS_PER_SECOND);
            var m := Run(p, FreshMachine, [BeginStart(0, 0), RecordCrash(1, 7, 7)]);
            && ValidPolicy(p) && m.state == Backoff && m.nextRetry == Some(107)
            && StartRefusal(m, 8, 8) == Some(InBackoff(99))
            && StartRefusal(Step(p, m, MarkExited(1)), 8, 8) == None
  {
    var p := Policy(3, 100 * NANOS_PER_MILLI, 5 * NANOS_PER_SECOND);
    var started := Step(p, FreshMachine, BeginStart(0, 0));
    DelayDoubles(p, 1);
    assert DelayMillis(p, 1) == 100;
    var calls := [BeginStart(0, 0), RecordCrash(1, 7, 7)];
    assert calls[1..] == [RecordCrash(1, 7, 7)] && calls[1..][1..] == [];
    assert Run(p, started, calls[1..]) == Step(p, started, RecordCrash(1, 7, 7));
  }
}

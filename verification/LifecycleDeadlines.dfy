/** The deadlines that crashes set along whole runs of the lifecycle machine, and where its states come from. */
module LifecycleDeadlines {
  import opened Wrappers
  import opened Lifecycle
  import opened LifecycleRuns

  // ---- The deadline of a charge ------------------------------------------------------------

  /** How many crashes have been charged since the last stable window when charge `i` is made, itself included. */
  function Streak(from: nat, charges: seq<Charge>, i: nat): (k: nat)
    requires i < |charges|
    ensures k >= 1
  {
    if charges[i].stable then 1 else if i == 0 then from + 1 else 1 + Streak(from, charges, i - 1)
  }

  lemma {:induction false} StreakGoesOn(from: nat, head: Charge, tail: seq<Charge>, i: nat)
    requires i < |tail|
    ensures Streak(from, [head] + tail, i + 1) == Streak(Streak(from, [head] + tail, 0), tail, i)
  {
    var charges := [head] + tail;
    assert charges[i + 1] == tail[i];
    if i > 0 {
      StreakGoesOn(from, head, tail, i - 1);
    }
  }

  /** Whole milliseconds of min(base * 2^(k - 1), max), the exponent capped at 31. */
  function WaitMillis(p: Policy, k: nat): nat
    requires k >= 1
  {
    var nanos := p.baseDelay * Pow2(if k <= 32 then k - 1 else 31);
    (if nanos < p.maxDelay then nanos else p.maxDelay) / 1_000_000
  }

  /** Charge number `k` of a streak: a fault beyond the limit, otherwise a deadline that far after the reading. */
  predicate Lawful(p: Policy, charge: Charge, k: nat)
    requires k >= 1
  {
    && charge.attempt == (if k <= U32_MAX then k else U32_MAX)
    && (charge.faulted <==> charge.attempt > p.maxAttempts)
    && charge.deadline == if charge.faulted then None
                          else if charge.reading + WaitMillis(p, k) <= U64_MAX
                              then Some(charge.reading + WaitMillis(p, k)) else Some(U64_MAX)
  }

  lemma WaitOfAttempt(p: Policy, k: nat)
    requires ValidPolicy(p) && k >= 1
    ensures DelayMillis(p, if k <= U32_MAX then k else U32_MAX) == WaitMillis(p, k)
  {
    var attempt := if k <= U32_MAX then k else U32_MAX;
    assert Min(SaturatingSub(attempt, 1), 31) == if k <= 32 then k - 1 else 31;
    hide Pow2;
  }

  lemma FirstIsLawful(p: Policy, m: Machine, call: Call, from: nat)
    requires ValidPolicy(p) && m.attempts == (if from <= U32_MAX then from else U32_MAX)
    requires ChargeOf(p, m, call) != []
    ensures var charges := ChargeOf(p, m, call);
            && |charges| == 1 && charges[0].reading == call.later && charges[0].generation == m.generation
            && Lawful(p, charges[0], Streak(from, charges, 0))
            && Step(p, m, call).attempts == charges[0].attempt
  {
    WaitOfAttempt(p, Streak(from, ChargeOf(p, m, call), 0));
    hide DelayMillis, WaitMillis;
  }

  lemma OthersKeepAttempts(p: Policy, m: Machine, call: Call)
    requires ChargeOf(p, m, call) == []
    ensures Step(p, m, call).attempts == m.attempts
  {
  }

  ghost predicate AllLawful(p: Policy, from: nat, charges: seq<Charge>) {
    forall i :: 0 <= i < |charges| ==> Lawful(p, charges[i], Streak(from, charges, i))
  }

  lemma PrependLawful(p: Policy, from: nat, head: Charge, tail: seq<Charge>)
    requires Lawful(p, head, Streak(from, [head], 0)) && AllLawful(p, Streak(from, [head], 0), tail)
    ensures AllLawful(p, from, [head] + tail)
  {
    hide Lawful;
    var charges := [head] + tail;
    assert charges[0] == head;
    forall i | 0 <= i < |charges|
      ensures Lawful(p, charges[i], Streak(from, charges, i))
    {
      if i > 0 {
        StreakGoesOn(from, head, tail, i - 1);
        assert charges[i] == tail[i - 1];
      }
    }
  }

  /** For every run: the k-th charge since the last stable window faults or waits exactly the k-th delay. */
  lemma {:induction false} DeadlinesFollowTheStreak(p: Policy, m: Machine, calls: seq<Call>, from: nat)
    requires ValidPolicy(p) && m.attempts == (if from <= U32_MAX then from else U32_MAX)
    ensures AllLawful(p, from, Charges(p, m, calls))
    decreases |calls|
  {
    hide Step, ChargeOf, Lawful;
    if |calls| > 0 {
      var next := Step(p, m, calls[0]);
      var head, tail := ChargeOf(p, m, calls[0]), Charges(p, next, calls[1..]);
      if head == [] {
        OthersKeepAttempts(p, m, calls[0]);
        DeadlinesFollowTheStreak(p, next, calls[1..], from);
        assert head + tail == tail;
      } else {
        FirstIsLawful(p, m, calls[0], from);
        var k := Streak(from, head, 0);
        AttemptOfLawful(p, head[0], k);
        DeadlinesFollowTheStreak(p, next, calls[1..], k);
        assert head == [head[0]];
        PrependLawful(p, from, head[0], tail);
      }
    }
  }

  lemma AttemptOfLawful(p: Policy, charge: Charge, k: nat)
    requires k >= 1 && Lawful(p, charge, k)
    ensures charge.attempt == if k <= U32_MAX then k else U32_MAX
  {
  }

  /** The same for a machine from its creation on. */
  lemma EveryDeadlineFollowsTheStreak(p: Policy, calls: seq<Call>, i: nat)
    requires ValidPolicy(p) && i < |Charges(p, FreshMachine, calls)|
    ensures Lawful(p, Charges(p, FreshMachine, calls)[i], Streak(0, Charges(p, FreshMachine, calls), i))
  {
    DeadlinesFollowTheStreak(p, FreshMachine, calls, 0);
  }

  lemma WaitsGrow(p: Policy, k: nat, n: nat)
    requires ValidPolicy(p) && 1 <= k <= n
    ensures p.baseDelay / 1_000_000 <= WaitMillis(p, k) <= WaitMillis(p, n) <= p.maxDelay / 1_000_000
  {
    var a, b := if k <= 32 then k - 1 else 31, if n <= 32 then n - 1 else 31;
    Pow2Grows(0, a);
    Pow2Grows(a, b);
    ScaledMonotone(p.baseDelay, 1, Pow2(a));
    ScaledMonotone(p.baseDelay, Pow2(a), Pow2(b));
    hide Pow2;
  }

  /**
   * Deadlines lie between the reading plus the base and the reading plus the maximum, never more than an hour ahead, as
   * far as the clock goes.
   */
  lemma DeadlinesAreBounded(p: Policy, calls: seq<Call>, i: nat)
    requires ValidPolicy(p) && i < |Charges(p, FreshMachine, calls)|
    ensures var charge := Charges(p, FreshMachine, calls)[i];
            !charge.faulted ==>
              && charge.deadline.Some?
              && charge.deadline.value <= charge.reading + p.maxDelay / 1_000_000 <= charge.reading + 3_600_000
              && (charge.deadline.value < U64_MAX ==>
                    charge.deadline.value >= charge.reading + p.baseDelay / 1_000_000)
  {
    EveryDeadlineFollowsTheStreak(p, calls, i);
    var k := Streak(0, Charges(p, FreshMachine, calls), i);
    WaitsGrow(p, k, k);
    hide WaitMillis;
  }

  /**
   * Along a run, a crash without a stable window since the one before never waits less than that one did, unless its
   * deadline is the end of the clock.
   */
  lemma DelaysNeverShrinkInAStreak(p: Policy, calls: seq<Call>, i: nat)
    requires ValidPolicy(p) && i + 1 < |Charges(p, FreshMachine, calls)|
    ensures var first, second := Charges(p, FreshMachine, calls)[i], Charges(p, FreshMachine, calls)[i + 1];
            !second.stable && !second.faulted ==>
              && !first.faulted && first.deadline.Some? && second.deadline.Some?
              && (second.deadline.value < U64_MAX ==>
                    first.deadline.value - first.reading <= second.deadline.value - second.reading)
  {
    var charges := Charges(p, FreshMachine, calls);
    EveryDeadlineFollowsTheStreak(p, calls, i);
    EveryDeadlineFollowsTheStreak(p, calls, i + 1);
    var k := Streak(0, charges, i);
    WaitsGrow(p, k, k + 1);
    hide WaitMillis;
  }

  // ---- Where the states come from --------------------------------------------------------------

  predicate Due(m: Machine, now: nat) { m.nextRetry.Some? ==> now >= m.nextRetry.value }

  /** The call that a change of state goes back to: it names the current generation and comes from the right state. */
  predicate Causes(m: Machine, call: Call, after: State) {
    match call
    case BeginStart(now, _) => after == Starting && (m.state == Exited || (m.state == Backoff && Due(m, now)))
    case MarkReady(g, _) => after == Ready && g == m.generation && m.state == Starting
    case MarkBusy(g) => after == Busy && g == m.generation && m.state == Ready
    case MarkReadyAgain(g) => after == Ready && g == m.generation && m.state == Busy
    case BeginStop(g) =>
      after == Stopping && g == m.generation && (m.state == Starting || m.state == Ready || m.state == Busy)
    case MarkExited(g) => after == Exited && g == m.generation && m.state != Faulted && m.state != Incompatible
    case MarkIncompatible(g) => after == Incompatible && g == m.generation
    case MarkFaulted(g) => after == Faulted && g == m.generation
    case RecordCrash(g, _, _) =>
      (after == Backoff || after == Faulted) && g == m.generation
      && (m.state == Starting || m.state == Ready || m.state == Busy)
  }

  /** Each state is entered by its own calls only, and a call that enters none leaves the machine as it was. */
  lemma StatesHaveCauses(p: Policy, m: Machine, call: Call)
    ensures var after := Step(p, m, call);
            && (Causes(m, call, after.state) || after == m)
            && (!call.RecordCrash? ==> forall s :: Causes(m, call, s) ==> after.state == s)
            && (call.RecordCrash? && Causes(m, call, Backoff) ==> after.state == Backoff || after.state == Faulted)
            && (after.generation != m.generation ==> call.BeginStart? && Causes(m, call, Starting))
            && (call.BeginStart? && Causes(m, call, Starting) ==>
                  after.generation == (if m.generation < U64_MAX then m.generation + 1 else 1))
  {
    hide DelayMillis;
  }

  /** Ready and Busy machines know since when, starting ones do not, and a waiting one has its deadline. */
  predicate Dated(m: Machine) {
    && (m.state == Ready || m.state == Busy ==> m.readySince.Some?)
    && (m.state == Starting ==> m.readySince == None && m.nextRetry == None)
    && (m.state == Backoff ==> m.nextRetry.Some?)
    && (Terminal(m.state) ==> m.nextRetry == None)
  }

  lemma {:induction false} RunStaysDated(p: Policy, m: Machine, calls: seq<Call>)
    requires Dated(m)
    ensures Dated(Run(p, m, calls))
    decreases |calls|
  {
    if |calls| > 0 {
      StepStaysDated(p, m, calls[0]);
      RunStaysDated(p, Step(p, m, calls[0]), calls[1..]);
    }
  }

  lemma StepStaysDated(p: Policy, m: Machine, call: Call)
    requires Dated(m)
    ensures Dated(Step(p, m, call))
  {
    hide DelayMillis;
  }

  lemma StepDatesReady(p: Policy, m: Machine, call: Call)
    ensures var after := Step(p, m, call);
            after.readySince.Some? ==>
              || call == MarkReady(after.generation, after.readySince.value)
              || (m.readySince == after.readySince && m.generation == after.generation)
  {
    hide DelayMillis;
  }

  /** The instant a stable window counts from is the reading of a ready report of the current generation. */
  lemma {:induction false} ReadySinceWasReported(p: Policy, m: Machine, calls: seq<Call>)
    ensures var r := Run(p, m, calls);
            r.readySince.Some? ==>
              || MarkReady(r.generation, r.readySince.value) in calls
              || (m.readySince == r.readySince && m.generation == r.generation)
    decreases |calls|
  {
    if |calls| > 0 {
      StepDatesReady(p, m, calls[0]);
      ReadySinceWasReported(p, Step(p, m, calls[0]), calls[1..]);
      assert calls == [calls[0]] + calls[1..];
    }
  }

  /** A crash that forgives the earlier ones follows a ready report of its generation at least half a minute old. */
  lemma ForgivenAfterHalfAMinute(p: Policy, calls: seq<Call>, call: Call)
    requires ValidPolicy(p)
    requires ChargeOf(p, Run(p, FreshMachine, calls), call) != []
    ensures var m := Run(p, FreshMachine, calls);
            var charge := ChargeOf(p, m, call)[0];
            && (charge.stable ==> charge.attempt == 1 && m.readySince.Some?
                                  && MarkReady(call.generation, m.readySince.value) in calls
                                  && call.now >= m.readySince.value + 30_000)
            && (!charge.stable && m.attempts < U32_MAX ==> charge.attempt == m.attempts + 1)
  {
    hide DelayMillis, Run;
    ReadySinceWasReported(p, FreshMachine, calls);
  }
}

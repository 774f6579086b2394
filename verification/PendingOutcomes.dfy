/**
 * What becomes of requests: which are admitted, which a tick or a close ends, and that along every run each admitted
 * request is waiting or has been told its outcome, never both and never neither.
 */
module PendingOutcomes {
  import opened Wrappers
  import opened Seqs
  import opened RequestIds
  import opened Pending
  import opened PendingSession

  /** A registration is refused for one of two reasons, in this order; otherwise it adds that one entry. */
  lemma RegisterIff(r: Registry, id: string, deadline: nat)
    ensures var repeated := id in r.active || exists k :: 0 <= k < |r.tombstones| && r.tombstones[k].id == id;
            && (Register(r, id, deadline).Ok? <==> !repeated && |r.active| < r.maxActive)
            && (Register(r, id, deadline) == Err(RegisterError.DuplicateRequest) <==> repeated)
            && (Register(r, id, deadline).Ok? ==>
                  Register(r, id, deadline).value == r.(active := r.active[id := deadline]))
  {
  }

  /** An issued identifier is admitted whenever there is room. */
  lemma AdmitIffRoom(s: System, id: string, deadline: nat)
    requires Inv(s) && id in s.unregistered
    ensures var r := Do(s, Admit(id, deadline));
            && (id in r.registry.active <==> |s.registry.active| < s.registry.maxActive)
            && r.registry.active == (if id in r.registry.active then s.registry.active[id := deadline]
                                     else s.registry.active)
            && r.registry.tombstones == s.registry.tombstones
            && r.unregistered == s.unregistered - {id}
            && r.completions == s.completions && r.duplicates == 0
  {
    AdmitIsNeverDuplicate(s, id, deadline);
    hide LedgerInv, Tracks, Told;
  }

  /** After a tick exactly the requests with a later deadline wait on, and exactly the others were told. */
  lemma TickEndsTheDue(s: System, now: nat, order: seq<string>)
    requires Inv(s) && Can(s, Tick(now, order))
    ensures var r := Do(s, Tick(now, order));
            && (forall id :: id in r.registry.active <==> id in s.registry.active && s.registry.active[id] > now)
            && (forall id :: id in r.registry.active ==> r.registry.active[id] == s.registry.active[id])
            && (forall id :: (id, DeadlineExceeded) in r.completions[|s.completions|..]
                             <==> id in s.registry.active && s.registry.active[id] <= now)
            && |r.completions| == |s.completions| + |order|
  {
    TracksBound(s.registry, s.history);
    hide LedgerInv, Tracks, Placed, Told;
    FinishAllActive(s.registry, order, TimedOut);
    var told := Do(s, Tick(now, order)).completions[|s.completions|..];
    ToldAre(order, DeadlineExceeded);
    assert told == Tell(order, DeadlineExceeded);
  }

  /** A close ends everything. */
  lemma ShutEndsAll(s: System, order: seq<string>)
    requires Inv(s) && Can(s, Shut(order))
    ensures var r := Do(s, Shut(order));
            && r.registry.active == map[]
            && (forall id :: (id, SessionClosed) in r.completions[|s.completions|..] <==> id in s.registry.active)
  {
    TracksBound(s.registry, s.history);
    hide LedgerInv, Tracks, Placed, Told;
    FinishAllActive(s.registry, order, Terminal.Cancelled);
    var told := Do(s, Shut(order)).completions[|s.completions|..];
    ToldAre(order, SessionClosed);
    assert told == Tell(order, SessionClosed);
  }

  lemma ToldAre(ids: seq<string>, c: Completion)
    ensures forall id :: (id, c) in Tell(ids, c) <==> id in ids
  {
    forall id | id in ids
      ensures (id, c) in Tell(ids, c)
    {
      var k :| 0 <= k < |ids| && ids[k] == id;
      assert Tell(ids, c)[k] == (id, c);
    }
  }

  /** An answer or a cancellation ends the request it names and no other. */
  lemma OneRequestEnds(s: System, step: Step)
    requires Inv(s) && (step.Respond? || step.Withdraw?)
    ensures var id := if step.Respond? then step.frame.id else step.id;
            var r := Do(s, step);
            if id in s.registry.active
            then && r.registry.active == s.registry.active - {id}
                 && r.completions == s.completions
                    + [(id, if step.Respond? then Answer(step.frame) else WasCancelled)]
            else r == s
  {
    TracksBound(s.registry, s.history);
    hide LedgerInv, Tracks, Placed, Told, Remember;
    var id := if step.Respond? then step.frame.id else step.id;
    assert [id][..0] == [];
    assert FinishAll(s.registry, [id][..0], Resolved) == s.registry;
    assert FinishAll(s.registry, [id][..0], Terminal.Cancelled) == s.registry;
  }

  /** A registry is created only with limits in the allowed range, and stays within them along every run. */
  lemma RegistryIsBounded(maxActive: nat, maxTombstones: nat, steps: seq<Step>, s: System)
    ensures NewRegistry(maxActive, maxTombstones).Ok? <==> 1 <= maxActive <= 1024 && 1 <= maxTombstones <= 8192
    ensures Reaches(maxActive, maxTombstones, steps, s) ==>
              |s.registry.active| <= s.registry.maxActive && |s.registry.tombstones| <= maxTombstones <= 8192
  {
    if Reaches(maxActive, maxTombstones, steps, s) {
      ReachedInv(maxActive, maxTombstones, steps, s);
    }
  }

  // ---- Every admitted request is waiting or told ------------------------------------------------

  /** The identifier that a step lets in, if it lets one in. */
  function LetIn(s: System, step: Step): set<string>
    requires s.registry.maxTombstones > 0
  {
    if step.Admit? && step.id !in s.registry.active && step.id in Do(s, step).registry.active then {step.id} else {}
  }

  /** All identifiers admitted along a run. */
  ghost function Admitted(s: System, steps: seq<Step>): set<string>
    requires CanRun(s, steps)
    decreases |steps|
  {
    if |steps| == 0 then {} else LetIn(s, steps[0]) + Admitted(Do(s, steps[0]), steps[1..])
  }

  /** Those whose waiter has been told an outcome. */
  ghost function ToldIds(completions: seq<(string, Completion)>): set<string> { set c | c in completions :: c.0 }

  lemma ToldIdsGrow(before: seq<(string, Completion)>, ids: seq<string>, c: Completion)
    ensures ToldIds(before + Tell(ids, c)) == ToldIds(before) + (set id | id in ids)
  {
    var all := before + Tell(ids, c);
    forall id | id in ids
      ensures id in ToldIds(all)
    {
      ToldAre(ids, c);
      assert (id, c) in all;
    }
    forall t | t in before
      ensures t in all
    {
    }
  }

  lemma EndManyConserves(s: System, ids: seq<string>, terminal: Terminal, c: Completion)
    requires s.registry.maxTombstones > 0 && forall id :: id in ids ==> id in s.registry.active
    ensures var r := EndMany(s, ids, terminal, c);
            r.registry.active.Keys + ToldIds(r.completions) == s.registry.active.Keys + ToldIds(s.completions)
  {
    FinishAllActive(s.registry, ids, terminal);
    ToldIdsGrow(s.completions, ids, c);
    hide ToldIds;
    var r := EndMany(s, ids, terminal, c);
    assert forall id :: id in r.registry.active.Keys <==> id in s.registry.active.Keys && id !in ids;
  }

  lemma StepConserves(s: System, step: Step)
    requires Inv(s) && Can(s, step) && s.registry.maxTombstones > 0
    ensures var r := Do(s, step);
            r.registry.active.Keys + ToldIds(r.completions)
            == s.registry.active.Keys + ToldIds(s.completions) + LetIn(s, step)
  {
    hide LedgerInv, Tracks, Told, ToldIds;
    match step
    case Issue => hide Placed, Allocate;
    case Abandon(_) => hide Placed;
    case Admit(id, deadline) => AdmitConserves(s, id, deadline);
    case Respond(frame) =>
      if frame.id in s.registry.active {
        EndManyConserves(s, [frame.id], Resolved, Answer(frame));
      }
    case Tick(now, order) => EndManyConserves(s, order, TimedOut, DeadlineExceeded);
    case Withdraw(id) =>
      if id in s.registry.active {
        EndManyConserves(s, [id], Terminal.Cancelled, WasCancelled);
      }
    case Shut(order) => EndManyConserves(s, order, Terminal.Cancelled, SessionClosed);
  }

  lemma AdmitConserves(s: System, id: string, deadline: nat)
    requires Inv(s) && id in s.unregistered && s.registry.maxTombstones > 0
    ensures var r := Do(s, Admit(id, deadline));
            r.completions == s.completions
            && r.registry.active.Keys == s.registry.active.Keys + LetIn(s, Admit(id, deadline))
  {
    AdmitIffRoom(s, id, deadline);
    hide Inv, Do;
  }

  lemma {:induction false} RunConserves(s: System, steps: seq<Step>)
    requires Inv(s) && CanRun(s, steps)
    ensures Inv(Run(s, steps))
    ensures var r := Run(s, steps);
            r.registry.active.Keys + ToldIds(r.completions)
            == s.registry.active.Keys + ToldIds(s.completions) + Admitted(s, steps)
    decreases |steps|
  {
    hide Inv, Do, Can, ToldIds, LetIn;
    if |steps| > 0 {
      StepConserves(s, steps[0]);
      StepKeepsInv(s, steps[0]);
      RunConserves(Do(s, steps[0]), steps[1..]);
    }
  }

  /**
   * Along every run an admitted request is either still waiting or has been told exactly one outcome, and nobody
   * else is told anything; once everything has been shut, all of them have been told.
   */
  lemma EveryRequestIsWaitingOrTold(maxActive: nat, maxTombstones: nat, steps: seq<Step>, s: System, id: string)
    requires Reaches(maxActive, maxTombstones, steps, s)
    ensures var waiting := id in s.registry.active;
            var told := exists c :: (id, c) in s.completions;
            && !(waiting && told)
            && (waiting || told <==> id in Admitted(Start(maxActive, maxTombstones), steps))
    ensures forall i, j :: 0 <= i < |s.completions| && 0 <= j < |s.completions| ==>
                             (s.completions[i].0 == id == s.completions[j].0 ==> i == j)
  {
    EveryRequestCompletesAtMostOnce(maxActive, maxTombstones, steps, s);
    var start := Start(maxActive, maxTombstones);
    StartIsInv(maxActive, maxTombstones);
    hide Inv, Admitted, Do, Can;
    RunConserves(start, steps);
    assert start.registry.active.Keys + ToldIds(start.completions) == {};
    if c :| (id, c) in s.completions {
      assert (id, c).0 in ToldIds(s.completions);
    }
    if id in ToldIds(s.completions) {
      var t :| t in s.completions && t.0 == id;
      assert t == (id, t.1);
    }
  }

  lemma StartIsInv(maxActive: nat, maxTombstones: nat)
    requires NewRegistry(maxActive, maxTombstones).Ok?
    ensures Inv(Start(maxActive, maxTombstones))
  {
  }
}

/**
 * The request path of `session.rs` across its two locks: an identifier is allocated under the ledger
 * lock, registered later under the registry lock, and then ended by whichever of response, timeout,
 * cancellation and close reaches it first.
 */
module PendingSession {
  import opened Wrappers
  import opened Seqs
  import opened RequestIds
  import opened Pending

  datatype System = System(
    ledger: Ledger,
    registry: Registry,
    unregistered: set<string>,              // allocated, registration still to come
    history: seq<Tombstone>,                // every request that ever ended, oldest first
    completions: seq<(string, Completion)>, // everything ever sent to a waiter
    duplicates: nat)                        // registrations refused as duplicates

  datatype Step =
    | Issue
    | Abandon(id: string)              // frame construction, encoding or deadline failed after allocation
    | Admit(id: string, deadline: nat)
    | Respond(frame: Frame)
    | Tick(now: nat, order: seq<string>)
    | Withdraw(id: string)
    | Shut(order: seq<string>)

  ghost predicate Can(s: System, step: Step) {
    match step
    case Issue => true
    case Abandon(id) => id in s.unregistered
    case Admit(id, _) => id in s.unregistered
    case Respond(_) => true
    case Tick(now, order) => Lists(order, DueIds(s.registry, now))
    case Withdraw(_) => true
    case Shut(order) => Lists(order, s.registry.active.Keys)
  }

  function Tell(ids: seq<string>, c: Completion): (cs: seq<(string, Completion)>)
    ensures |cs| == |ids| && forall k :: 0 <= k < |ids| ==> cs[k] == (ids[k], c)
  {
    seq(|ids|, k requires 0 <= k < |ids| => (ids[k], c))
  }

  function EndMany(s: System, ids: seq<string>, terminal: Terminal, c: Completion): System
    requires s.registry.maxTombstones > 0
  {
    s.(registry := FinishAll(s.registry, ids, terminal), history := s.history + Ends(ids, terminal),
    completions := s.completions + Tell(ids, c))
  }

  function Do(s: System, step: Step): System
    requires s.registry.maxTombstones > 0
  {
    match step
    case Issue =>
      var (ledger, id) := Allocate(s.ledger);
      s.(ledger := ledger, unregistered := if id.Some? then s.unregistered + {id.value} else s.unregistered)
    case Abandon(id) => s.(unregistered := s.unregistered - {id})
    case Admit(id, deadline) =>
      (match Register(s.registry, id, deadline)
       case Ok(r) => s.(registry := r, unregistered := s.unregistered - {id})
       case Err(DuplicateRequest) => s.(unregistered := s.unregistered - {id}, duplicates := s.duplicates + 1)
       case Err(LimitReached) => s.(unregistered := s.unregistered - {id}))
    case Respond(frame) => if frame.id in s.registry.active then EndMany(s, [frame.id], Resolved, Answer(frame)) else s
    case Tick(_, order) => EndMany(s, order, TimedOut, DeadlineExceeded)
    case Withdraw(id) => if id in s.registry.active then EndMany(s, [id], Cancelled, WasCancelled) else s
    case Shut(order) => EndMany(s, order, Cancelled, SessionClosed)
  }

  predicate Fits(id: string, terminal: Terminal, c: Completion) {
    match c
    case Answer(frame) => terminal == Resolved && frame.id == id
    case DeadlineExceeded => terminal == TimedOut
    case WasCancelled => terminal == Cancelled
    case SessionClosed => terminal == Cancelled
  }

  predicate Ended(history: seq<Tombstone>, id: string) { Buried(history, id) }

  /** Where an identifier is: waiting to be registered, active, or ended, never in two places. */
  ghost predicate Placed(s: System) {
    && UniqueIds(s.history)
    && s.unregistered <= s.ledger.seen
    && (forall id :: id in s.registry.active ==> id in s.ledger.seen && id !in s.unregistered)
    && (forall k :: 0 <= k < |s.history| ==>
          s.history[k].id in s.ledger.seen && s.history[k].id !in s.unregistered
              && s.history[k].id !in s.registry.active)
  }

  /** One completion per ended request, of the kind that ended it. */
  ghost predicate Told(s: System) {
    && |s.completions| == |s.history|
    && forall k :: 0 <= k < |s.history| ==>
         s.completions[k].0 == s.history[k].id && Fits(s.history[k].id, s.history[k].terminal, s.completions[k].1)
  }

  ghost predicate Inv(s: System) {
    LedgerInv(s.ledger) && Tracks(s.registry, s.history) && Placed(s) && Told(s) && s.duplicates == 0
  }

  lemma EndsStayUnique(history: seq<Tombstone>, ids: seq<string>, terminal: Terminal)
    requires UniqueIds(history) && Distinct(ids)
    requires forall k :: 0 <= k < |history| ==> history[k].id !in ids
    ensures UniqueIds(history + Ends(ids, terminal))
  {
    var all := history + Ends(ids, terminal);
    forall i, j | 0 <= i < j < |all| ensures all[i].id != all[j].id {
      if i < |history| <= j {
        assert all[j].id == ids[j - |history|];
      }
    }
  }

  lemma EndManyKeepsPlaced(s: System, ids: seq<string>, terminal: Terminal, c: Completion)
    requires s.registry.maxTombstones > 0
    requires Placed(s) && Distinct(ids) && (forall id :: id in ids ==> id in s.registry.active)
    ensures Placed(EndMany(s, ids, terminal, c))
  {
    FinishAllActive(s.registry, ids, terminal);
    EndsStayUnique(s.history, ids, terminal);
    hide FinishAll, UniqueIds;
    var r := EndMany(s, ids, terminal, c);
    forall k | 0 <= k < |r.history|
      ensures r.history[k].id in r.ledger.seen && r.history[k].id !in r.unregistered
              && r.history[k].id !in r.registry.active
    {
      if k >= |s.history| {
        assert r.history[k].id == ids[k - |s.history|] && ids[k - |s.history|] in ids;
      }
    }
  }

  lemma EndManyKeepsTold(s: System, ids: seq<string>, terminal: Terminal, c: Completion)
    requires s.registry.maxTombstones > 0
    requires Told(s) && forall id :: id in ids ==> Fits(id, terminal, c)
    ensures Told(EndMany(s, ids, terminal, c))
  {
    hide FinishAll;
    var r := EndMany(s, ids, terminal, c);
    forall k | |s.history| <= k < |r.history| ensures Fits(r.history[k].id, r.history[k].terminal, r.completions[k].1) {
      assert ids[k - |s.history|] in ids;
    }
  }

  lemma EndManyKeepsInv(s: System, ids: seq<string>, terminal: Terminal, c: Completion)
    requires Inv(s) && Distinct(ids) && (forall id :: id in ids ==> id in s.registry.active)
    requires forall id :: id in ids ==> Fits(id, terminal, c)
    ensures Inv(EndMany(s, ids, terminal, c))
  {
    TracksBound(s.registry, s.history);
    hide LedgerInv, Tracks, Placed, Told, FinishAll;
    FinishAllTracks(s.registry, s.history, ids, terminal);
    EndManyKeepsPlaced(s, ids, terminal, c);
    EndManyKeepsTold(s, ids, terminal, c);
  }

  /** A freshly allocated identifier is neither active nor in the tombstone window. */
  lemma AdmitIsNeverDuplicate(s: System, id: string, deadline: nat)
    requires Inv(s) && id in s.unregistered
    ensures Register(s.registry, id, deadline) != Err(RegisterError.DuplicateRequest)
  {
    hide LedgerInv, Told;
    forall k | 0 <= k < |s.registry.tombstones| ensures s.registry.tombstones[k].id != id {
      assert s.registry.tombstones[k] == s.history[|s.history| - |s.registry.tombstones| + k];
    }
  }

  lemma StepKeepsInv(s: System, step: Step)
    requires Inv(s) && Can(s, step)
    ensures Inv(Do(s, step))
  {
    match step
    case Issue => IssueKeepsInv(s);
    case Abandon(_) => hide LedgerInv, Tracks;
    case Admit(id, deadline) => AdmitKeepsInv(s, id, deadline);
    case Respond(frame) => if frame.id in s.registry.active { EndManyKeepsInv(s, [frame.id], Resolved, Answer(frame)); }
    case Tick(now, order) => EndManyKeepsInv(s, order, TimedOut, DeadlineExceeded);
    case Withdraw(id) => if id in s.registry.active { EndManyKeepsInv(s, [id], Cancelled, WasCancelled); }
    case Shut(order) => EndManyKeepsInv(s, order, Cancelled, SessionClosed);
  }

  lemma WideningKeepsPlaced(s: System, ledger: Ledger, added: set<string>)
    requires Placed(s) && ledger.seen == s.ledger.seen + added && added !! s.ledger.seen
    ensures Placed(s.(ledger := ledger, unregistered := s.unregistered + added))
  {
    hide UniqueIds;
  }

  lemma IssueKeepsInv(s: System)
    requires Inv(s)
    ensures Inv(Do(s, Issue))
  {
    hide LedgerInv, Tracks, Placed, RequestId;
    AllocateIsFresh(s.ledger);
    var (ledger, id) := Allocate(s.ledger);
    WideningKeepsPlaced(s, ledger, if id.Some? then {id.value} else {});
  }

  lemma AdmitKeepsInv(s: System, id: string, deadline: nat)
    requires Inv(s) && id in s.unregistered
    ensures Inv(Do(s, Admit(id, deadline)))
  {
    AdmitIsNeverDuplicate(s, id, deadline);
    hide LedgerInv;
  }

  lemma StepKeepsLimits(s: System, step: Step)
    requires s.registry.maxTombstones > 0
    ensures Do(s, step).registry.maxTombstones == s.registry.maxTombstones
  {
    match step
    case Respond(frame) => FinishAllActive(s.registry, [frame.id], Resolved);
    case Tick(_, order) => FinishAllActive(s.registry, order, TimedOut);
    case Withdraw(id) => FinishAllActive(s.registry, [id], Cancelled);
    case Shut(order) => FinishAllActive(s.registry, order, Cancelled);
    case _ =>
  }

  ghost predicate CanRun(s: System, steps: seq<Step>)
    decreases |steps|
  {
    |steps| == 0 || (s.registry.maxTombstones > 0 && Can(s, steps[0]) && CanRun(Do(s, steps[0]), steps[1..]))
  }

  ghost function Run(s: System, steps: seq<Step>): System
    requires CanRun(s, steps)
    decreases |steps|
  {
    if |steps| == 0 then s else Run(Do(s, steps[0]), steps[1..])
  }

  function Start(maxActive: nat, maxTombstones: nat): System {
    System(FreshLedger, Registry(map[], [], maxActive, maxTombstones), {}, [], [], 0)
  }

  lemma {:induction false} RunKeepsInv(s: System, steps: seq<Step>)
    requires Inv(s) && CanRun(s, steps)
    ensures Inv(Run(s, steps)) && Run(s, steps).registry.maxTombstones == s.registry.maxTombstones
    decreases |steps|
  {
    hide Inv, Can, Do;
    if |steps| > 0 {
      StepKeepsInv(s, steps[0]);
      StepKeepsLimits(s, steps[0]);
      RunKeepsInv(Do(s, steps[0]), steps[1..]);
    }
  }

  /** The state a session reaches from a fresh registry with the given limits. */
  ghost predicate Reaches(maxActive: nat, maxTombstones: nat, steps: seq<Step>, s: System) {
    && NewRegistry(maxActive, maxTombstones).Ok?
    && CanRun(Start(maxActive, maxTombstones), steps)
    && s == Run(Start(maxActive, maxTombstones), steps)
  }

  lemma ReachedInv(maxActive: nat, maxTombstones: nat, steps: seq<Step>, s: System)
    requires Reaches(maxActive, maxTombstones, steps, s)
    ensures Inv(s) && s.registry.maxTombstones == maxTombstones
  {
    RunKeepsInv(Start(maxActive, maxTombstones), steps);
  }

  /** Identifiers are issued once, no registration is refused as a duplicate, and every waiter hears at most once. */
  lemma EveryRequestCompletesAtMostOnce(maxActive: nat, maxTombstones: nat, steps: seq<Step>, s: System)
    requires Reaches(maxActive, maxTombstones, steps, s)
    ensures s.duplicates == 0
    ensures forall id :: id in s.registry.active ==> id in s.ledger.seen
    ensures forall k :: 0 <= k < |s.registry.tombstones| ==> s.registry.tombstones[k].id in s.ledger.seen
    ensures forall i, j :: 0 <= i < j < |s.completions| ==> s.completions[i].0 != s.completions[j].0
    ensures forall k :: 0 <= k < |s.completions| ==> s.completions[k].0 !in s.registry.active
  {
    ReachedInv(maxActive, maxTombstones, steps, s);
    hide LedgerInv, Reaches;
    forall k | 0 <= k < |s.registry.tombstones| ensures s.registry.tombstones[k].id in s.ledger.seen {
      assert s.registry.tombstones[k] == s.history[|s.history| - |s.registry.tombstones| + k];
    }
  }

  /** Whoever ends a request ends only requests the step is entitled to, and they were still waiting. */
  lemma CompletionsHaveTheirOwnCause(s: System, step: Step, k: nat)
    requires Inv(s) && Can(s, step)
    requires |s.completions| <= k < |Do(s, step).completions|
    ensures var (id, c) := Do(s, step).completions[k];
            && id in s.registry.active
            && match c
               case Answer(frame) => step == Respond(frame) && frame.id == id
               case DeadlineExceeded => step.Tick? && s.registry.active[id] <= step.now
               case WasCancelled => step == Withdraw(id)
               case SessionClosed => step.Shut?
  {
    hide LedgerInv, Tracks, Placed, Told, FinishAll;
    if step.Tick? || step.Shut? {
      assert step.order[k - |s.completions|] in step.order;
    }
  }

  /** A response to a request that has ended changes nothing at all, inside the tombstone window or long after. */
  lemma LateResponseIsInert(maxActive: nat, maxTombstones: nat, steps: seq<Step>, s: System, frame: Frame)
    requires Reaches(maxActive, maxTombstones, steps, s) && Ended(s.history, frame.id)
    ensures s.registry.maxTombstones == maxTombstones > 0 && Do(s, Respond(frame)) == s
    ensures Classify(s.registry.tombstones, frame.id)
            == if Buried(LastN(s.history, maxTombstones), frame.id) then Latest(s.history, frame.id) else UnknownRequest
    ensures Latest(s.history, frame.id) == Disposition.DuplicateResponse || Latest(s.history, frame.id) == LateResponse
  {
    hide Reaches, LedgerInv, Told, LastN;
    ReachedInv(maxActive, maxTombstones, steps, s);
    var k :| 0 <= k < |s.history| && s.history[k].id == frame.id;
    LatestAt(s.history, k);
    BoundedClassificationAgrees(s.registry, s.history, frame.id);
  }
}

/**
 * Interleavings of the ready handshake: callers of `notify("initialized")`, the writer, the reader, the thread
 * that installs challenges store by store, the owner that promotes, and whoever closes the session.
 */
module ReadyGate {
  import opened Wrappers
  import opened ReadyShared

  /** Where a `notify("initialized")` call stands between two of its atomic actions. */
  datatype Notify =
    | Checked(token: Token)   // params compared with the challenge, compare-exchange still to come
    | Won(token: Token)       // `initialized_sent` taken, `ready_token_consumed` not yet reset
    | Cleared(token: Token)   // reset done, frame not yet handed to the writer
    | Undoing                 // send refused and session closed, `initialized_sent` still to be reset

  /** The writer loop; `begun` is the install the current send began under. */
  datatype Writer = Idle | Writing(token: Token, begun: nat) | Stopped

  /** `with_ready_promotion`, which holds the ready/terminal gate from Entered on. */
  datatype Owner =
    | Away
    | Entered(echo: Token)
    | SawConfirmed(echo: Token)
    | SawClaimed(echo: Token)
    | Matched(echo: Token)
    | Vetted(echo: Token)     // the rest of the frame checked against the forbidden tokens
    | Granted(echo: Token)    // `ready_token_consumed` taken, promote closure still to run

  /** How far an install has come; it holds the lock of the forbidden tokens throughout, and no other lock. */
  datatype Stage =
    | NoInstall
    | Locked(token: Token)    // nothing stored yet
    | Stored                  // challenge visible
    | Unsent                  // `initialized_sent` cleared
    | Reopened                // barrier reset
    | Unclaimed               // ready slot freed, `ready_token_consumed` still to be cleared

  /** One run of the promote closure and what was true when it ran; `safe` is what its frame's check said. */
  datatype Promotion =
    Promotion(install: nat, echo: Token, challenge: Option<Token>, send: Option<(nat, Token)>, claimed: bool,
              safe: bool, closed: bool)

  /** One claim of the ready slot that was answered with yes, and what was true then. */
  datatype Grant = Grant(install: nat, barrier: Barrier, send: Option<(nat, Token)>, closed: bool)

  datatype State = State(
    cells: Shared,
    install: nat,                      // number of challenges made visible so far
    stage: Stage,
    calls: map<nat, Notify>,           // notify calls in flight, by caller
    queue: seq<Token>,                 // initialized frames waiting for the writer
    writer: Writer,
    confirmedBy: Option<(nat, Token)>, // the latest send whose complete(true) confirmed the barrier
    owner: Owner,
    safe: bool,                        // the verdict of the latest check of a frame
    grants: seq<Grant>,                // every claim of the ready slot answered with yes
    promotions: seq<Promotion>)

  const Fresh := State(FreshShared, 0, NoInstall, map[], [], Idle, None, Away, false, [], [])

  datatype Step =
    | BeginInstall(token: Token)
    | StoreChallenge
    | StoreSent
    | ResetBarrier
    | StoreClaimed
    | StoreConsumed
    | Check(caller: nat, token: Token)
    | Cas(caller: nat)
    | Clear(caller: nat)
    | EncodeFails(caller: nat)
    | SendOk(caller: nat)
    | SendFails(caller: nat)
    | Undo(caller: nat)
    | Begin
    | Complete(ok: bool)
    | WriterStops
    | Claim
    | Look                    // one look of `wait_confirmation` at the barrier, between two waits
    | Enter(echo: Token)
    | SeeConfirmed
    | SeeClaimed
    | Match
    | Vet(safe: bool)
    | Consume
    | Promote
    | Close

  /** The barrier mutex is free: no send guard is alive. */
  predicate BarrierFree(s: State) { !s.writer.Writing? }

  /** The ready/terminal gate is free: no promotion is under way. */
  predicate GateFree(s: State) { s.owner.Away? }

  /** The lock of the forbidden tokens is free: no install is under way. */
  predicate TokensFree(s: State) { s.stage.NoInstall? }

  predicate Can(s: State, step: Step) {
    match step
    case BeginInstall(_) => TokensFree(s)
    case StoreChallenge => s.stage.Locked?
    case StoreSent => s.stage.Stored?
    case ResetBarrier => s.stage.Unsent? && BarrierFree(s)
    case StoreClaimed => s.stage.Reopened?
    case StoreConsumed => s.stage.Unclaimed?
    case Check(c, token) => c !in s.calls && s.cells.challenge == Some(token)
    case Cas(c) => c in s.calls && s.calls[c].Checked?
    case Clear(c) => c in s.calls && s.calls[c].Won?
    case EncodeFails(c) => c in s.calls && s.calls[c].Cleared?
    case SendOk(c) => c in s.calls && s.calls[c].Cleared?
    case SendFails(c) => c in s.calls && s.calls[c].Cleared? && GateFree(s)
    case Undo(c) => c in s.calls && s.calls[c].Undoing?
    case Begin => s.writer.Idle? && |s.queue| > 0
    case Complete(_) => s.writer.Writing?
    case WriterStops => s.writer.Idle?
    case Claim => BarrierFree(s)
    case Look => BarrierFree(s)
    case Enter(_) => GateFree(s)
    case SeeConfirmed => s.owner.Entered? && BarrierFree(s)
    case SeeClaimed => s.owner.SawConfirmed?
    case Match => s.owner.SawClaimed?
    case Vet(_) => s.owner.Matched? && TokensFree(s)
    case Consume => s.owner.Vetted?
    case Promote => s.owner.Granted?
    case Close => GateFree(s)
  }

  function Do(s: State, step: Step): State
    requires Can(s, step)
  {
    match step
    case BeginInstall(token) => s.(stage := Locked(token))
    case StoreChallenge => s.(cells := WithChallenge(s.cells, s.stage.token), install := s.install + 1, stage := Stored)
    case StoreSent => s.(cells := WithSent(s.cells, false), stage := Unsent)
    case ResetBarrier => s.(cells := BarrierReset(s.cells), stage := Reopened)
    case StoreClaimed => s.(cells := WithoutClaim(s.cells), stage := Unclaimed)
    case StoreConsumed => s.(cells := WithConsumed(s.cells, false), stage := NoInstall)
    case Check(c, token) => s.(calls := s.calls[c := Checked(token)])
    case Cas(c) =>
      if s.cells.sent then s.(calls := s.calls - {c})
      else s.(cells := WithSent(s.cells, true), calls := s.calls[c := Won(s.calls[c].token)])
    case Clear(c) => s.(cells := WithConsumed(s.cells, false), calls := s.calls[c := Cleared(s.calls[c].token)])
    case EncodeFails(c) => s.(cells := WithSent(s.cells, false), calls := s.calls - {c})
    case SendOk(c) => s.(queue := s.queue + [s.calls[c].token], calls := s.calls - {c})
    case SendFails(c) => s.(cells := WithClosed(s.cells), calls := s.calls[c := Undoing])
    case Undo(c) => s.(cells := WithSent(s.cells, false), calls := s.calls - {c})
    case Begin =>
      s.(cells := AfterBegin(s.cells), queue := s.queue[1..],
      writer := if s.cells.barrier == NotSent then Writing(s.queue[0], s.install) else Stopped)
    case Complete(ok) =>
      s.(cells := AfterComplete(s.cells, ok), writer := if ok then Idle else Stopped,
      confirmedBy := if ok then Some((s.writer.begun, s.writer.token)) else s.confirmedBy)
    case WriterStops => s.(writer := Stopped)
    case Claim =>
      s.(cells := AfterClaim(s.cells),
      grants := if MayClaim(s.cells)
                then s.grants + [Grant(s.install, s.cells.barrier, s.confirmedBy, s.cells.closed)] else s.grants)
    case Look => s
    case Enter(echo) => if s.cells.closed then s else s.(owner := Entered(echo))
    case SeeConfirmed => s.(owner := if s.cells.barrier == Confirmed then SawConfirmed(s.owner.echo) else Away)
    case SeeClaimed => s.(owner := if s.cells.claimed then SawClaimed(s.owner.echo) else Away)
    case Match => s.(owner := if s.cells.challenge == Some(s.owner.echo) then Matched(s.owner.echo) else Away)
    case Vet(safe) => s.(safe := safe, owner := if safe then Vetted(s.owner.echo) else Away)
    case Consume =>
      if s.cells.consumed then s.(owner := Away)
      else s.(cells := WithConsumed(s.cells, true), owner := Granted(s.owner.echo))
    case Promote =>
      s.(owner := Away, promotions := s.promotions
         + [Promotion(s.install, s.owner.echo, s.cells.challenge, s.confirmedBy, s.cells.claimed, s.safe,
                      s.cells.closed)])
    case Close => s.(cells := WithClosed(s.cells))
  }

  // ---- Runs ----------------------------------------------------------------------------

  /** A call past its compare-exchange. */
  predicate InFlight(s: State, c: nat) { c in s.calls && !s.calls[c].Checked? }

  /** No initialized frame is with a call past its compare-exchange or in the queue. */
  ghost predicate Quiet(s: State) {
    (forall c :: !InFlight(s, c)) && s.queue == []
  }

  /**
   * The state an install may start from: a closed session, or one whose barrier is neither confirmed nor being
   * sent and of which either the writer has stopped or no initialized frame is under way.
   */
  ghost predicate SafeToInstall(s: State) {
    s.cells.closed || (s.cells.barrier != Confirmed && s.cells.barrier != Sending && (s.writer.Stopped? || Quiet(s)))
  }

  datatype Installs = Never | Once | WhenSafe | Anytime

  /** What a run may do: whether a notify may take `initialized_sent` during an install, and when installs start. */
  datatype Rules = Rules(racing: bool, installs: Installs)

  const Disciplined := Rules(false, WhenSafe)

  ghost predicate May(s: State, step: Step, rules: Rules) {
    && Can(s, step)
    && (step.Cas? ==> rules.racing || TokensFree(s))
    && (step.BeginInstall? ==>
          match rules.installs
          case Never => false
          case Once => s.install == 0
          case WhenSafe => SafeToInstall(s)
          case Anytime => true)
  }

  ghost predicate CanRun(s: State, steps: seq<Step>, rules: Rules)
    decreases |steps|
  {
    |steps| == 0 || (May(s, steps[0], rules) && CanRun(Do(s, steps[0]), steps[1..], rules))
  }

  ghost function Run(s: State, steps: seq<Step>, rules: Rules): State
    requires CanRun(s, steps, rules)
    decreases |steps|
  {
    if |steps| == 0 then s else Run(Do(s, steps[0]), steps[1..], rules)
  }

  /** Some run under the rules leads from `s` to `r`. */
  ghost predicate Reach(s: State, r: State, rules: Rules) {
    exists steps :: CanRun(s, steps, rules) && Run(s, steps, rules) == r
  }

  lemma ReachSelf(s: State, rules: Rules)
    ensures Reach(s, s, rules)
  {
    assert CanRun(s, [], rules) && Run(s, [], rules) == s;
  }

  lemma {:induction false} RunThenStep(s: State, steps: seq<Step>, step: Step, rules: Rules)
    requires CanRun(s, steps, rules) && May(Run(s, steps, rules), step, rules)
    ensures CanRun(s, steps + [step], rules)
    ensures Run(s, steps + [step], rules) == Do(Run(s, steps, rules), step)
    decreases |steps|
  {
    hide Do;
    var longer := steps + [step];
    if |steps| == 0 {
      assert longer == [step] && longer[1..] == [];
      assert CanRun(Do(s, step), [], rules);
    } else {
      RunThenStep(Do(s, steps[0]), steps[1..], step, rules);
      assert longer[0] == steps[0] && longer[1..] == steps[1..] + [step];
    }
  }

  /** One more step of a run. */
  lemma Go(s: State, m: State, step: Step, rules: Rules) returns (r: State)
    requires Reach(s, m, rules) && May(m, step, rules)
    ensures r == Do(m, step) && Reach(s, r, rules)
  {
    hide Do;
    r := Do(m, step);
    var steps :| CanRun(s, steps, rules) && Run(s, steps, rules) == m;
    RunThenStep(s, steps, step, rules);
  }

  // ---- What every interleaving keeps ---------------------------------------------------

  /** The mutex of the barrier is held exactly while it is Sending; only an open session has a promotion under way. */
  ghost predicate General(s: State) { Gates(s) && UndoneWhenClosed(s) && Numbered(s) }

  predicate Gates(s: State) {
    (s.cells.barrier == Sending <==> s.writer.Writing?) && (s.cells.closed ==> s.owner.Away?)
  }

  ghost predicate UndoneWhenClosed(s: State) {
    forall c :: c in s.calls && s.calls[c].Undoing? ==> s.cells.closed
  }

  ghost predicate Numbered(s: State) {
    && (forall k :: 0 <= k < |s.promotions| ==> s.promotions[k].install <= s.install)
    && (forall k :: 0 <= k < |s.grants| ==> s.grants[k].install <= s.install)
  }

  lemma StepKeepsGates(s: State, step: Step)
    requires Gates(s) && Can(s, step)
    ensures Gates(Do(s, step))
  {
  }

  lemma StepKeepsUndone(s: State, step: Step)
    requires UndoneWhenClosed(s) && Can(s, step)
    ensures UndoneWhenClosed(Do(s, step))
  {
  }

  lemma StepKeepsNumbered(s: State, step: Step)
    requires Numbered(s) && Can(s, step)
    ensures Numbered(Do(s, step))
  {
    var r := Do(s, step);
    assert r.install >= s.install;
    assert step.Promote? || r.promotions == s.promotions;
    assert step.Claim? || r.grants == s.grants;
  }

  lemma StepKeepsGeneral(s: State, step: Step)
    requires General(s) && Can(s, step)
    ensures General(Do(s, step))
  {
    StepKeepsGates(s, step);
    StepKeepsUndone(s, step);
    StepKeepsNumbered(s, step);
    hide Gates, UndoneWhenClosed, Numbered, Do, Can;
  }

  lemma {:induction false} RunKeepsGeneral(s: State, steps: seq<Step>, rules: Rules)
    requires General(s) && CanRun(s, steps, rules)
    ensures General(Run(s, steps, rules))
    decreases |steps|
  {
    hide General, Do;
    if |steps| > 0 {
      StepKeepsGeneral(s, steps[0]);
      RunKeepsGeneral(Do(s, steps[0]), steps[1..], rules);
    }
  }

  /** A step of anyone but the guard's holder looks at the barrier. */
  predicate Observes(step: Step) {
    step.ResetBarrier? || step.Claim? || step.Look? || step.SeeConfirmed? || step.Begin?
  }

  /**
   * In every interleaving, racing installs included: Sending lasts exactly as long as the guard, and nobody else sees
   * it.
   */
  lemma SendingIsNeverObserved(s: State, step: Step)
    requires Reach(Fresh, s, Rules(true, Anytime)) && Can(s, step) && Observes(step)
    ensures s.cells.barrier == Sending <==> s.writer.Writing?
    ensures s.cells.barrier != Sending
  {
    var steps :| CanRun(Fresh, steps, Rules(true, Anytime)) && Run(Fresh, steps, Rules(true, Anytime)) == s;
    RunKeepsGeneral(Fresh, steps, Rules(true, Anytime));
  }

  // ---- What disciplined runs keep ------------------------------------------------------

  /**
   * Every promotion echoed the challenge in a frame found safe, on an open session, with the ready slot claimed, after
   * a confirmed send begun under that install.
   */
  ghost predicate Justified(p: Promotion) {
    && p.challenge == Some(p.echo)
    && p.claimed && p.safe && !p.closed
    && p.send.Some? && p.send.value.0 == p.install
  }

  /** The slot was granted on an open session behind a barrier confirmed by a send of that install. */
  ghost predicate Rightful(g: Grant) {
    !g.closed && g.barrier == Confirmed && g.send.Some? && g.send.value.0 == g.install
  }

  ghost predicate GrantedOnce(grants: seq<Grant>) {
    forall i, j :: 0 <= i < j < |grants| ==> grants[i].install != grants[j].install
  }

  ghost predicate GrantedFor(grants: seq<Grant>, n: nat) {
    exists k :: 0 <= k < |grants| && grants[k].install == n
  }

  ghost predicate GrantedNow(s: State) { GrantedFor(s.grants, s.install) }

  ghost predicate AllOnce(promotions: seq<Promotion>) {
    forall i, j :: 0 <= i < j < |promotions| ==> promotions[i].install != promotions[j].install
  }

  predicate PastMatch(owner: Owner) { owner.Matched? || owner.Vetted? || owner.Granted? }

  predicate PastClaim(owner: Owner) { owner.SawClaimed? || PastMatch(owner) }

  predicate PastBarrier(owner: Owner) { owner.SawConfirmed? || PastClaim(owner) }

  ghost predicate PromotedNow(s: State) {
    exists k :: 0 <= k < |s.promotions| && s.promotions[k].install == s.install
  }

  /** How the barrier, the writer and the owner of an open session belong together. */
  ghost predicate Aligned(s: State) { Sent(s) && Owned(s) && Spent(s) }

  /** The send under way and the one that confirmed the barrier are of this install; a failed one was the last. */
  predicate Sent(s: State) {
    && (s.writer.Writing? ==> s.writer.begun == s.install)
    && (s.cells.barrier == Confirmed ==> s.confirmedBy.Some? && s.confirmedBy.value.0 == s.install)
    && (s.cells.barrier == Failed ==> s.writer.Stopped?)
  }

  /** What the owner has seen still holds. */
  predicate Owned(s: State) {
    && (PastBarrier(s.owner) ==> s.cells.barrier == Confirmed)
    && (PastMatch(s.owner) ==> s.cells.challenge == Some(s.owner.echo))
    && (PastClaim(s.owner) ==> s.cells.claimed)
    && (s.owner.Vetted? || s.owner.Granted? ==> s.safe)
  }

  /** The consumed flag stands between two promotions of one install. */
  ghost predicate Spent(s: State) {
    && (s.owner.Granted? ==> s.cells.consumed && !PromotedNow(s))
    && (PromotedNow(s) ==> s.cells.consumed && s.cells.barrier == Confirmed)
  }

  /** On an open session the slot counts as taken exactly when it was granted under the current install. */
  ghost predicate Slotted(s: State) {
    && (GrantedNow(s) ==> s.cells.claimed && s.cells.barrier == Confirmed)
    && (TokensFree(s) && s.cells.claimed ==> GrantedNow(s))
  }

  /** Nothing carries an initialized frame or is about to. */
  ghost predicate NothingSent(s: State) {
    Quiet(s) && s.cells.barrier == NotSent && !s.writer.Writing?
  }

  /** The single frame of the current install is with one call, in the queue, with the writer, or done. */
  ghost predicate SingleFrame(s: State) {
    && (!s.cells.sent ==> NothingSent(s))
    && (forall c, d :: InFlight(s, c) && InFlight(s, d) ==> c == d)
    && (forall c :: InFlight(s, c) ==> s.queue == [] && s.cells.barrier == NotSent && !s.writer.Writing?)
    && |s.queue| <= 1
    && (s.queue != [] ==> s.cells.barrier == NotSent && !s.writer.Writing?)
    && (s.cells.sent && Quiet(s) && s.cells.barrier == NotSent ==> s.writer.Stopped?)
  }

  /** No further send can confirm the barrier. */
  predicate Barred(s: State) { s.writer.Stopped? && s.cells.barrier == NotSent }

  /** While an install that started safely stores its values and no notify takes the flag, nothing can move. */
  ghost predicate Window(s: State) {
    && s.cells.barrier != Confirmed && s.cells.barrier != Sending
    && (s.stage.Reopened? || s.stage.Unclaimed? ==> s.cells.barrier == NotSent)
    && (s.stage.Unclaimed? ==> !s.cells.claimed)
    && (s.writer.Stopped? || (Quiet(s) && (s.stage.Locked? || s.stage.Stored? || !s.cells.sent)))
  }

  /** The installs of the promotions are among those of the grants. */
  ghost predicate PromotionsFollowGrants(promotions: seq<Promotion>, grants: seq<Grant>) {
    forall k :: 0 <= k < |promotions| ==> GrantedFor(grants, promotions[k].install)
  }

  ghost predicate Base(s: State) {
    && General(s)
    && AllOnce(s.promotions)
    && (forall k :: 0 <= k < |s.promotions| ==> Justified(s.promotions[k]))
    && GrantedOnce(s.grants)
    && (forall k :: 0 <= k < |s.grants| ==> Rightful(s.grants[k]))
    && PromotionsFollowGrants(s.promotions, s.grants)
    && (!s.cells.closed ==>
          Aligned(s) && Slotted(s) && if TokensFree(s) then SingleFrame(s) || Barred(s) else Window(s))
  }

  /** Steps of an install. */
  predicate OfInstall(step: Step) {
    step.BeginInstall? || step.StoreChallenge? || step.StoreSent? || step.ResetBarrier? || step.StoreClaimed?
    || step.StoreConsumed?
  }

  lemma InFlightOnlyShrinks(s: State, step: Step)
    requires Can(s, step) && (step.Cas? ==> s.cells.sent)
    ensures forall c :: InFlight(Do(s, step), c) ==> InFlight(s, c)
  {
  }

  lemma StepKeepsSingleFrame(s: State, step: Step)
    requires General(s) && SingleFrame(s) && Can(s, step) && !OfInstall(step)
    ensures SingleFrame(Do(s, step))
  {
    var r := Do(s, step);
    if step.Cas? && !s.cells.sent {
      assert forall d :: InFlight(r, d) ==> d == step.caller || InFlight(s, d);
      assert InFlight(r, step.caller);
    } else {
      InFlightOnlyShrinks(s, step);
      if step.Clear? || step.EncodeFails? || step.SendOk? || step.SendFails? || step.Undo? {
        assert InFlight(s, step.caller);
        if step.Clear? || step.SendFails? {
          assert InFlight(r, step.caller);
        }
      } else {
        assert forall d :: InFlight(s, d) ==> InFlight(r, d);
      }
    }
  }

  lemma StepKeepsWindow(s: State, step: Step)
    requires General(s) && Aligned(s) && Window(s) && !TokensFree(s) && !s.cells.closed
    requires May(s, step, Disciplined) && !step.StoreConsumed?
    ensures Window(Do(s, step)) && !TokensFree(Do(s, step))
  {
    hide Owned, Spent;
    assert step.Clear? || step.EncodeFails? || step.SendOk? || step.SendFails? || step.Undo? ==>
        InFlight(s, step.caller);
    if !s.writer.Stopped? {
      InFlightOnlyShrinks(s, step);
    }
  }

  /** The last store of a safely started install leaves a single empty slot for the frame, or a stopped writer. */
  lemma WindowCloses(s: State)
    requires General(s) && Window(s) && s.stage.Unclaimed?
    ensures var r := Do(s, StoreConsumed); SingleFrame(r) || Barred(r)
  {
    var r := Do(s, StoreConsumed);
    InFlightOnlyShrinks(s, StoreConsumed);
  }

  lemma StepKeepsBarred(s: State, step: Step)
    requires General(s) && Aligned(s) && Barred(s) && Can(s, step)
    ensures Barred(Do(s, step))
  {
  }

  lemma StepKeepsSent(s: State, step: Step)
    requires Gates(s) && Sent(s) && Can(s, step) && !OfInstall(step)
    ensures Sent(Do(s, step))
  {
  }

  lemma StepKeepsOwned(s: State, step: Step)
    requires Gates(s) && Owned(s) && Can(s, step) && !OfInstall(step)
    ensures Owned(Do(s, step))
  {
  }

  lemma StepKeepsSpent(s: State, step: Step)
    requires Gates(s) && Owned(s) && Spent(s) && Can(s, step) && !OfInstall(step)
    requires step.Clear? ==> s.cells.barrier == NotSent || !PromotedNow(s)
    requires step.Clear? ==> !s.owner.Granted?
    ensures Spent(Do(s, step))
  {
    var r := Do(s, step);
    if !step.Promote? {
      assert r.promotions == s.promotions && r.install == s.install;
      assert PromotedNow(r) <==> PromotedNow(s);
      hide PromotedNow;
    }
  }

  lemma StepKeepsAligned(s: State, step: Step)
    requires General(s) && Aligned(s) && Can(s, step) && !OfInstall(step)
    requires step.Clear? ==> s.cells.barrier == NotSent || !PromotedNow(s)
    requires step.Clear? ==> !s.owner.Granted?
    ensures Aligned(Do(s, step))
  {
    StepKeepsSent(s, step);
    StepKeepsOwned(s, step);
    StepKeepsSpent(s, step);
    hide Sent, Owned, Spent, Do, Can;
  }

  lemma InstallKeepsAligned(s: State, step: Step)
    requires General(s) && Aligned(s) && Can(s, step) && OfInstall(step)
    requires s.cells.barrier != Confirmed && s.cells.barrier != Sending
    ensures Aligned(Do(s, step))
  {
    var r := Do(s, step);
    assert r.promotions == s.promotions;
    assert !PromotedNow(s);
    assert !PromotedNow(r);
  }

  lemma GrantsDecideGrantedNow(s: State, r: State)
    requires r.grants == s.grants && r.install == s.install
    ensures GrantedNow(r) <==> GrantedNow(s)
  {
  }

  lemma StepKeepsSlotted(s: State, step: Step)
    requires Gates(s) && Slotted(s) && Can(s, step) && !OfInstall(step)
    ensures Slotted(Do(s, step))
  {
    var r := Do(s, step);
    if step.Claim? && MayClaim(s.cells) {
      assert r.grants[|s.grants|].install == r.install;
    } else {
      GrantsDecideGrantedNow(s, r);
      hide GrantedFor;
    }
  }

  lemma InstallKeepsSlotted(s: State, step: Step)
    requires Numbered(s) && Slotted(s) && Can(s, step) && OfInstall(step)
    requires s.cells.barrier != Confirmed && s.cells.barrier != Sending
    requires step.StoreConsumed? ==> !s.cells.claimed
    ensures Slotted(Do(s, step))
  {
    var r := Do(s, step);
    assert !GrantedNow(s) && r.grants == s.grants;
    assert !GrantedNow(r);
  }

  /** The promotions stay justified and one per install; Aligned says why the next one is. */
  lemma StepKeepsPromotions(s: State, step: Step)
    requires Base(s) && Can(s, step)
    ensures AllOnce(Do(s, step).promotions)
    ensures forall k :: 0 <= k < |Do(s, step).promotions| ==> Justified(Do(s, step).promotions[k])
  {
    hide SingleFrame, Window;
  }

  lemma StepKeepsGrants(s: State, step: Step)
    requires Base(s) && Can(s, step)
    ensures GrantedOnce(Do(s, step).grants)
    ensures forall k :: 0 <= k < |Do(s, step).grants| ==> Rightful(Do(s, step).grants[k])
  {
    hide SingleFrame, Window, AllOnce, Justified;
    var r := Do(s, step);
    if r.grants != s.grants {
      assert !s.cells.closed && !GrantedNow(s);
      assert Rightful(r.grants[|s.grants|]);
    }
  }

  lemma StepKeepsFollowing(s: State, step: Step)
    requires Base(s) && Can(s, step)
    ensures PromotionsFollowGrants(Do(s, step).promotions, Do(s, step).grants)
  {
    hide SingleFrame, AllOnce, Justified, Rightful, GrantedOnce, GrantedFor;
    var r := Do(s, step);
    if step.Promote? {
      assert GrantedNow(s);
      assert forall k :: 0 <= k < |s.promotions| ==> r.promotions[k] == s.promotions[k];
    } else {
      assert r.promotions == s.promotions;
      forall k | 0 <= k < |r.promotions|
        ensures GrantedFor(r.grants, r.promotions[k].install)
      {
        GrantsStay(s, step, r.promotions[k].install);
      }
    }
  }

  lemma GrantsStay(s: State, step: Step, n: nat)
    requires Can(s, step) && GrantedFor(s.grants, n)
    ensures GrantedFor(Do(s, step).grants, n)
  {
    var k :| 0 <= k < |s.grants| && s.grants[k].install == n;
    assert Do(s, step).grants[k].install == n;
  }

  lemma StepKeepsBase(s: State, step: Step)
    requires Base(s) && May(s, step, Disciplined)
    ensures Base(Do(s, step))
  {
    StepKeepsGeneral(s, step);
    StepKeepsPromotions(s, step);
    StepKeepsGrants(s, step);
    StepKeepsFollowing(s, step);
    hide AllOnce, Justified, GrantedOnce, Rightful, PromotionsFollowGrants;
    var r := Do(s, step);
    if !r.cells.closed {
      assert !s.cells.closed;
      if TokensFree(s) {
        StepOutsideWindow(s, step);
      } else {
        StepInsideWindow(s, step);
      }
    }
  }

  lemma StepInsideWindow(s: State, step: Step)
    requires Base(s) && May(s, step, Disciplined) && !TokensFree(s) && !s.cells.closed
    ensures var r := Do(s, step);
            Aligned(r) && Slotted(r) && if TokensFree(r) then SingleFrame(r) || Barred(r) else Window(r)
  {
    if OfInstall(step) {
      InstallKeepsAligned(s, step);
      InstallKeepsSlotted(s, step);
    } else {
      StepKeepsAligned(s, step);
      StepKeepsSlotted(s, step);
    }
    hide Slotted;
    if step.StoreConsumed? {
      WindowCloses(s);
    } else {
      StepKeepsWindow(s, step);
    }
  }

  lemma StepOutsideWindow(s: State, step: Step)
    requires Base(s) && May(s, step, Disciplined) && TokensFree(s) && !s.cells.closed
    ensures var r := Do(s, step);
            Aligned(r) && Slotted(r) && if TokensFree(r) then SingleFrame(r) || Barred(r) else Window(r)
  {
    if step.BeginInstall? {
      InstallKeepsAligned(s, step);
      InstallKeepsSlotted(s, step);
      assert forall c :: InFlight(Do(s, step), c) ==> InFlight(s, c);
    } else {
      assert step.Clear? ==> InFlight(s, step.caller);
      StepKeepsAligned(s, step);
      StepKeepsSlotted(s, step);
      hide Slotted;
      if SingleFrame(s) {
        StepKeepsSingleFrame(s, step);
      } else {
        StepKeepsBarred(s, step);
      }
    }
  }

  lemma {:induction false} RunKeepsBase(s: State, steps: seq<Step>)
    requires Base(s) && CanRun(s, steps, Disciplined)
    ensures Base(Run(s, steps, Disciplined))
    decreases |steps|
  {
    hide Base, Do;
    if |steps| > 0 {
      StepKeepsBase(s, steps[0]);
      RunKeepsBase(Do(s, steps[0]), steps[1..]);
    }
  }

  /**
   * In every disciplined run each promotion is for the installed challenge, on an open session, behind a send begun
   * after that install, and no challenge is promoted twice. The installs themselves are interleaved with checks,
   * sends, claims, promotions and close in any way; only the compare-exchange of a notify waits for their end.
   */
  lemma DisciplinedRunsPromoteOnce(s: State)
    requires Reach(Fresh, s, Disciplined)
    ensures Base(s)
    ensures GrantedOnce(s.grants) && PromotionsFollowGrants(s.promotions, s.grants)
    ensures forall k :: 0 <= k < |s.grants| ==> Rightful(s.grants[k])
    ensures AllOnce(s.promotions)
    ensures forall k :: 0 <= k < |s.promotions| ==> Justified(s.promotions[k])
  {
    var steps :| CanRun(Fresh, steps, Disciplined) && Run(Fresh, steps, Disciplined) == s;
    FreshIsBase();
    RunKeepsBase(Fresh, steps);
  }

  lemma FreshIsBase()
    ensures Base(Fresh)
  {
  }

  // ---- One install ---------------------------------------------------------------------

  /** The session's only challenge; before it is visible nothing of the handshake can have happened. */
  ghost predicate OneInstall(s: State) {
    && s.install <= 1
    && (s.install == 0 ==>
          && s.cells.challenge == None && s.calls == map[] && s.queue == [] && s.cells.barrier == NotSent
          && s.promotions == [] && !PastMatch(s.owner) && (TokensFree(s) || s.stage.Locked?))
    && (s.install == 1 ==> !s.stage.Locked?)
    && (forall k :: 0 <= k < |s.promotions| ==> s.promotions[k].install == 1)
  }

  lemma StepKeepsOneInstall(s: State, step: Step)
    requires General(s) && OneInstall(s) && May(s, step, Rules(false, Once))
    ensures OneInstall(Do(s, step))
  {
  }

  /** Everything on its way to the peer, and every send that justified a promotion, carries the one challenge. */
  ghost predicate OneToken(s: State) { CallsCarry(s) && SendsCarry(s) && PromotionsCarry(s) }

  ghost predicate CallsCarry(s: State) {
    forall c :: c in s.calls && !s.calls[c].Undoing? ==> Some(s.calls[c].token) == s.cells.challenge
  }

  ghost predicate SendsCarry(s: State) {
    && (s.install == 0 ==> !s.writer.Writing? && s.confirmedBy == None)
    && (forall k :: 0 <= k < |s.queue| ==> Some(s.queue[k]) == s.cells.challenge)
    && (s.writer.Writing? ==> Some(s.writer.token) == s.cells.challenge)
    && (s.confirmedBy.Some? ==> Some(s.confirmedBy.value.1) == s.cells.challenge)
  }

  ghost predicate PromotionsCarry(s: State) {
    forall k :: 0 <= k < |s.promotions| ==>
                  var p := s.promotions[k];
                  p.challenge == s.cells.challenge && (p.send.Some? ==> Some(p.send.value.1) == s.cells.challenge)
  }

  /** The challenge is stored once, when nothing has been sent yet. */
  lemma ChallengeIsStoredOnce(s: State, step: Step)
    requires OneInstall(s) && Can(s, step)
    ensures !step.StoreChallenge? ==> Do(s, step).cells.challenge == s.cells.challenge
    ensures step.StoreChallenge? ==> s.install == 0 && s.calls == map[] && s.queue == [] && s.promotions == []
  {
  }

  lemma StepKeepsCallsCarry(s: State, step: Step)
    requires CallsCarry(s) && OneInstall(s) && Can(s, step)
    ensures CallsCarry(Do(s, step))
  {
    ChallengeIsStoredOnce(s, step);
    hide OneInstall;
  }

  lemma StepKeepsSendsCarry(s: State, step: Step)
    requires CallsCarry(s) && SendsCarry(s) && OneInstall(s) && Can(s, step)
    ensures SendsCarry(Do(s, step))
  {
    ChallengeIsStoredOnce(s, step);
  }

  lemma StepKeepsPromotionsCarry(s: State, step: Step)
    requires SendsCarry(s) && PromotionsCarry(s) && OneInstall(s) && Can(s, step)
    ensures PromotionsCarry(Do(s, step))
  {
    ChallengeIsStoredOnce(s, step);
    hide OneInstall;
  }

  lemma StepKeepsOneToken(s: State, step: Step)
    requires OneToken(s) && OneInstall(s) && Can(s, step)
    ensures OneToken(Do(s, step))
  {
    StepKeepsCallsCarry(s, step);
    StepKeepsSendsCarry(s, step);
    StepKeepsPromotionsCarry(s, step);
    hide CallsCarry, SendsCarry, PromotionsCarry, Do, Can;
  }

  lemma {:induction false} SingleInstallKeepsBase(s: State, steps: seq<Step>)
    requires Base(s) && OneInstall(s) && OneToken(s) && CanRun(s, steps, Rules(false, Once))
    ensures var r := Run(s, steps, Rules(false, Once)); Base(r) && OneInstall(r) && OneToken(r)
    decreases |steps|
  {
    hide Base, Do;
    if |steps| > 0 {
      BaseIsGeneral(s);
      StepKeepsOneInstall(s, steps[0]);
      StepKeepsOneToken(s, steps[0]);
      hide OneInstall, OneToken;
      if steps[0].BeginInstall? {
        FirstInstallIsSafe(s);
      }
      StepKeepsBase(s, steps[0]);
      SingleInstallKeepsBase(Do(s, steps[0]), steps[1..]);
    }
  }

  lemma BaseIsGeneral(s: State)
    requires Base(s)
    ensures General(s)
  {
  }

  lemma FirstInstallIsSafe(s: State)
    requires OneInstall(s) && s.install == 0
    ensures SafeToInstall(s)
  {
  }

  /**
   * A session that gets one challenge in its life, as a supervisor gives it, promotes it justly and at most once
   * in every interleaving in which no notify takes the flag before the install has returned; the frame that was
   * confirmed beforehand carried that challenge.
   */
  lemma SingleInstallPromotesOnce(s: State)
    requires Reach(Fresh, s, Rules(false, Once))
    ensures |s.promotions| <= 1
    ensures forall k :: 0 <= k < |s.promotions| ==> Justified(s.promotions[k])
    ensures forall k :: 0 <= k < |s.promotions| ==> s.promotions[k].send == Some((1, s.promotions[k].echo))
  {
    var steps :| CanRun(Fresh, steps, Rules(false, Once)) && Run(Fresh, steps, Rules(false, Once)) == s;
    FreshIsBase();
    SingleInstallKeepsBase(Fresh, steps);
    if s.promotions != [] {
      var first, last := s.promotions[0], s.promotions[|s.promotions| - 1];
      assert first.install == last.install;
    }
  }

  // ---- When the next install is safe -----------------------------------------------------

  /** Among the promotions of install `n` there is at most one, and it is justified. */
  ghost predicate Good(promotions: seq<Promotion>, n: nat) {
    && (forall i, j :: 0 <= i < j < |promotions| && promotions[i].install == n ==> promotions[j].install != n)
    && (forall k :: 0 <= k < |promotions| && promotions[k].install == n ==> Justified(promotions[k]))
  }

  /** Whatever happens after an install has begun, short of another one, its challenge is promoted justly and once. */
  ghost predicate InstallIsGood(s: State, token: Token, racing: bool)
    requires TokensFree(s)
  {
    forall r :: Reach(Do(s, BeginInstall(token)), r, Rules(racing, Never)) ==> Good(r.promotions, s.install + 1)
  }

  lemma {:induction false} QuietRunKeepsBase(s: State, steps: seq<Step>)
    requires Base(s) && CanRun(s, steps, Rules(false, Never))
    ensures Base(Run(s, steps, Rules(false, Never)))
    decreases |steps|
  {
    hide Base, Do;
    if |steps| > 0 {
      StepKeepsBase(s, steps[0]);
      QuietRunKeepsBase(Do(s, steps[0]), steps[1..]);
    }
  }

  lemma SafeInstallIsGood(s: State, token: Token)
    requires Base(s) && TokensFree(s) && SafeToInstall(s)
    ensures InstallIsGood(s, token, false)
  {
    var start := Do(s, BeginInstall(token));
    StepKeepsBase(s, BeginInstall(token));
    forall r | Reach(start, r, Rules(false, Never))
      ensures Good(r.promotions, s.install + 1)
    {
      var steps :| CanRun(start, steps, Rules(false, Never)) && Run(start, steps, Rules(false, Never)) == r;
      QuietRunKeepsBase(start, steps);
    }
  }

  /** The session can promote nothing any more. */
  ghost predicate Dead(s: State, n: nat) {
    Stuck(s) && forall k :: 0 <= k < |s.promotions| ==> s.promotions[k].install != n
  }

  predicate Stuck(s: State) {
    || (s.cells.closed && s.owner.Away?)
    || (s.writer.Stopped? && s.cells.barrier != Confirmed && s.cells.barrier != Sending && !PastBarrier(s.owner))
  }

  lemma StuckStep(s: State, step: Step)
    requires Stuck(s) && Can(s, step)
    ensures Stuck(Do(s, step)) && Do(s, step).promotions == s.promotions
  {
  }

  lemma {:induction false} DeadStaysDead(s: State, n: nat, steps: seq<Step>, rules: Rules)
    requires Dead(s, n) && CanRun(s, steps, rules)
    ensures Dead(Run(s, steps, rules), n)
    decreases |steps|
  {
    if |steps| > 0 {
      DeadStep(s, n, steps[0]);
      hide Dead, Do;
      DeadStaysDead(Do(s, steps[0]), n, steps[1..], rules);
    }
  }

  lemma DeadStep(s: State, n: nat, step: Step)
    requires Dead(s, n) && Can(s, step)
    ensures Dead(Do(s, step), n)
  {
    StuckStep(s, step);
    hide Stuck, Do;
  }

  // ---- Otherwise some continuation breaks it ---------------------------------------------

  /** The remaining stores of an install, from the visible challenge on. */
  lemma FinishStores(s: State, m: State, rules: Rules) returns (r: State)
    requires Reach(s, m, rules) && m.stage.Stored? && BarrierFree(m)
    ensures Reach(s, r, rules)
    ensures r == m.(cells := WithConsumed(WithoutClaim(BarrierReset(WithSent(m.cells, false))), false),
            stage := NoInstall)
  {
    hide Reach;
    r := Go(s, m, StoreSent, rules);
    r := Go(s, r, ResetBarrier, rules);
    r := Go(s, r, StoreClaimed, rules);
    r := Go(s, r, StoreConsumed, rules);
  }

  /** All stores of an install without anything in between. */
  lemma FinishInstall(s: State, m: State, rules: Rules) returns (r: State)
    requires Reach(s, m, rules) && m.stage.Locked? && BarrierFree(m)
    ensures Reach(s, r, rules)
    ensures r == m.(cells := Installed(m.cells, m.stage.token), install := m.install + 1, stage := NoInstall)
  {
    hide Reach;
    r := Go(s, m, StoreChallenge, rules);
    r := FinishStores(s, r, rules);
  }

  /** A promotion recorded for install `n` by the send of an earlier one. */
  lemma StalePromotion(s: State, m: State, n: nat, rules: Rules) returns (r: State)
    requires Reach(s, m, rules) && m.owner.Granted? && m.install == n
    requires m.confirmedBy.Some? ==> m.confirmedBy.value.0 < n
    ensures Reach(s, r, rules) && !Good(r.promotions, n)
  {
    r := Go(s, m, Promote, rules);
    var last := r.promotions[|m.promotions|];
    assert last.install == n && !Justified(last);
  }

  /** An owner past the challenge comparison gets through once the install has cleared the consumed flag. */
  lemma LateGrant(s: State, m: State, n: nat, rules: Rules) returns (r: State)
    requires Reach(s, m, rules) && (m.owner.Matched? || m.owner.Vetted?) && m.install == n && TokensFree(m)
    requires !m.cells.consumed && (m.confirmedBy.Some? ==> m.confirmedBy.value.0 < n)
    ensures Reach(s, r, rules) && !Good(r.promotions, n)
  {
    r := m;
    if r.owner.Matched? {
      r := Go(s, r, Vet(true), rules);
    }
    r := Go(s, r, Consume, rules);
    r := StalePromotion(s, r, n, rules);
  }

  /** The owner compares a frame that echoes the challenge, up to the check of its other fields. */
  lemma Compare(s: State, m: State, token: Token, rules: Rules) returns (r: State)
    requires Reach(s, m, rules) && m.owner.Away? && !m.cells.closed && BarrierFree(m)
    requires m.cells.barrier == Confirmed && m.cells.claimed && m.cells.challenge == Some(token)
    ensures Reach(s, r, rules) && r == m.(owner := Matched(token))
  {
    hide Reach;
    r := Go(s, m, Enter(token), rules);
    r := Go(s, r, SeeConfirmed, rules);
    r := Go(s, r, SeeClaimed, rules);
    r := Go(s, r, Match, rules);
  }

  /** A whole notify call by a caller without another one under way. */
  lemma NotifySends(s: State, m: State, c: nat, token: Token, rules: Rules) returns (r: State)
    requires Reach(s, m, rules) && c !in m.calls && m.cells.challenge == Some(token) && !m.cells.sent
    requires rules.racing || TokensFree(m)
    ensures Reach(s, r, rules)
    ensures r == m.(cells := WithConsumed(WithSent(m.cells, true), false), queue := m.queue + [token])
  {
    hide Reach;
    r := Go(s, m, Check(c, token), rules);
    r := Go(s, r, Cas(c), rules);
    r := Go(s, r, Clear(c), rules);
    r := Go(s, r, SendOk(c), rules);
    assert r.calls == m.calls;
  }

  /** The writer confirms a queued frame and the reader claims the ready slot. */
  lemma ConfirmsAndClaims(s: State, m: State, rules: Rules) returns (r: State)
    requires Reach(s, m, rules) && m.queue != [] && m.writer.Idle? && !m.cells.closed
    requires m.cells.barrier == NotSent && !m.cells.claimed
    ensures Reach(s, r, rules)
    ensures r == m.(cells := m.cells.(barrier := Confirmed, claimed := true), queue := m.queue[1..],
                 confirmedBy := Some((m.install, m.queue[0])),
                 grants := m.grants + [Grant(m.install, Confirmed, Some((m.install, m.queue[0])), false)])
  {
    hide Reach;
    r := Go(s, m, Begin, rules);
    r := Go(s, r, Complete(true), rules);
    r := Go(s, r, Claim, rules);
  }

  /** A promotion that compares its frame while the old barrier is still confirmed and the new challenge visible. */
  lemma EntersInWindow(s: State, m: State, token: Token, rules: Rules) returns (r: State)
    requires Reach(s, m, rules) && m.stage == Locked(token) && m.owner.Away? && !m.cells.closed
    requires m.cells.barrier == Confirmed && BarrierFree(m)
    requires m.confirmedBy.Some? ==> m.confirmedBy.value.0 <= m.install
    ensures Reach(s, r, rules) && !Good(r.promotions, m.install + 1)
  {
    hide Reach;
    r := Go(s, m, StoreChallenge, rules);
    r := Go(s, r, Claim, rules);
    r := Compare(s, r, token, rules);
    r := FinishStores(s, r, rules);
    r := LateGrant(s, r, m.install + 1, rules);
  }

  /** The owner goes on behind a confirmed barrier until it has compared its frame or turned back. */
  lemma OwnerCompares(s: State, m: State, rules: Rules) returns (r: State)
    requires Reach(s, m, rules) && !m.cells.closed && m.cells.barrier == Confirmed && BarrierFree(m)
    ensures Reach(s, r, rules) && (r.owner.Away? || PastMatch(r.owner))
    ensures r == m.(owner := r.owner, cells := m.cells.(claimed := r.cells.claimed), grants := r.grants)
  {
    hide Reach;
    r := m;
    if r.owner.Entered? {
      r := Go(s, r, SeeConfirmed, rules);
    }
    if r.owner.SawConfirmed? || r.owner.SawClaimed? {
      r := OwnerMatches(s, r, rules);
    }
  }

  lemma OwnerMatches(s: State, m: State, rules: Rules) returns (r: State)
    requires Reach(s, m, rules) && !m.cells.closed && m.cells.barrier == Confirmed && BarrierFree(m)
    requires m.owner.SawConfirmed? || m.owner.SawClaimed?
    ensures Reach(s, r, rules) && (r.owner.Away? || PastMatch(r.owner))
    ensures r == m.(owner := r.owner, cells := m.cells.(claimed := r.cells.claimed), grants := r.grants)
  {
    hide Reach;
    r := m;
    if r.owner.SawConfirmed? {
      r := Go(s, r, Claim, rules);
      r := Go(s, r, SeeClaimed, rules);
    }
    r := Go(s, r, Match, rules);
  }

  /** Wherever the owner stands, a confirmed barrier at the start lets a promotion slip past the reset. */
  lemma ConfirmedStartBreaks(s: State, m: State, token: Token, rules: Rules) returns (r: State)
    requires Reach(s, m, rules) && m.stage == Locked(token) && !m.cells.closed
    requires m.cells.barrier == Confirmed && BarrierFree(m)
    requires m.confirmedBy.Some? ==> m.confirmedBy.value.0 <= m.install
    ensures Reach(s, r, rules) && !Good(r.promotions, m.install + 1)
  {
    hide Reach, Good;
    r := OwnerCompares(s, m, rules);
    if r.owner.Away? {
      r := EntersInWindow(s, r, token, rules);
    } else if r.owner.Granted? {
      r := Go(s, r, StoreChallenge, rules);
      r := StalePromotion(s, r, m.install + 1, rules);
    } else {
      r := FinishInstall(s, r, rules);
      r := LateGrant(s, r, m.install + 1, rules);
    }
  }

  /** Some caller number is above every one in use. */
  lemma FreeCaller(used: set<nat>) returns (c: nat)
    ensures forall x :: x in used ==> x < c
  {
    c := 0;
    if used != {} {
      var x :| x in used;
      var d := FreeCaller(used - {x});
      c := if x < d then d else x + 1;
      forall y | y in used
        ensures y < c
      {
        if y != x {
          assert y in used - {x};
        }
      }
    }
  }

  /** The steps of one successful promotion. */
  lemma PromoteOnce(s: State, m: State, token: Token, rules: Rules) returns (r: State)
    requires Reach(s, m, rules) && m.owner.Away? && !m.cells.closed && BarrierFree(m) && TokensFree(m)
    requires m.cells.barrier == Confirmed && m.cells.claimed && m.cells.challenge == Some(token) && !m.cells.consumed
    ensures Reach(s, r, rules)
    ensures r == m.(cells := WithConsumed(m.cells, true), safe := true, promotions := m.promotions
                 + [Promotion(m.install, token, Some(token), m.confirmedBy, true, true, false)])
  {
    hide Reach;
    r := Compare(s, m, token, rules);
    r := Go(s, r, Vet(true), rules);
    r := GrantsAndPromotes(s, r, rules);
  }

  /** A stale queued frame confirms the barrier while a new call has yet to reset the consumed flag. */
  lemma QueuedFrameBreaks(s: State, m: State, token: Token, rules: Rules) returns (r: State)
    requires Reach(s, m, rules) && TokensFree(m) && m.queue != [] && m.writer.Idle? && m.owner.Away? && !m.cells.closed
    requires m.cells == Installed(m.cells, token)
    ensures Reach(s, r, rules) && !Good(r.promotions, m.install)
  {
    hide Reach;
    var c := FreeCaller(m.calls.Keys);
    r := Go(s, m, Check(c, token), rules);
    r := Go(s, r, Cas(c), rules);
    r := ConfirmsAndClaims(s, r, rules);
    r := PromotesTwice(s, r, c, token, rules);
  }

  /** Two promotions, with the reset of the consumed flag by a call of the same install in between. */
  lemma PromotesTwice(s: State, m: State, c: nat, token: Token, rules: Rules) returns (r: State)
    requires Reach(s, m, rules) && m.owner.Away? && !m.cells.closed && BarrierFree(m) && TokensFree(m)
    requires m.cells.barrier == Confirmed && m.cells.claimed && m.cells.challenge == Some(token) && !m.cells.consumed
    requires c in m.calls && m.calls[c].Won?
    ensures Reach(s, r, rules) && !Good(r.promotions, m.install)
    ensures |r.promotions| == |m.promotions| + 2
    ensures forall k :: |m.promotions| <= k < |r.promotions| ==> r.promotions[k].install == m.install
  {
    hide Reach;
    r := PromoteOnce(s, m, token, rules);
    r := Go(s, r, Clear(c), rules);
    r := PromoteOnce(s, r, token, rules);
    var n := |m.promotions|;
    assert r.promotions[n].install == m.install && r.promotions[n + 1].install == m.install;
  }

  /** A call past its compare-exchange can still queue its old frame. */
  lemma InFlightCallBreaks(s: State, m: State, c: nat, token: Token, rules: Rules) returns (r: State)
    requires Reach(s, m, rules) && TokensFree(m) && m.writer.Idle? && m.owner.Away? && !m.cells.closed
    requires InFlight(m, c) && !m.calls[c].Undoing? && m.cells == Installed(m.cells, token)
    ensures Reach(s, r, rules) && !Good(r.promotions, m.install)
  {
    hide Reach;
    r := m;
    if r.calls[c].Won? {
      r := Go(s, r, Clear(c), rules);
    }
    r := Go(s, r, SendOk(c), rules);
    r := QueuedFrameBreaks(s, r, token, rules);
  }

  /** The owner of an unconfirmed barrier turns back. */
  lemma OwnerTurnsBack(s: State, m: State, rules: Rules) returns (r: State)
    requires Reach(s, m, rules) && !PastBarrier(m.owner) && m.cells.barrier != Confirmed && BarrierFree(m)
    ensures Reach(s, r, rules) && r == m.(owner := Away)
  {
    r := m;
    if r.owner.Entered? {
      r := Go(s, r, SeeConfirmed, rules);
    }
  }

  lemma UnsafeInstallBreaks(s: State, token: Token, racing: bool)
    requires Base(s) && TokensFree(s) && !SafeToInstall(s)
    ensures !InstallIsGood(s, token, racing)
  {
    hide Reach;
    var rules := Rules(racing, Never);
    var start := Do(s, BeginInstall(token));
    ReachSelf(start, rules);
    var r := start;
    if s.cells.barrier == Sending {
      r := Go(start, r, Complete(true), rules);
    }
    if r.cells.barrier == Confirmed {
      r := ConfirmedStartBreaks(start, r, token, rules);
    } else {
      r := OwnerTurnsBack(start, r, rules);
      r := FinishInstall(start, r, rules);
      if s.queue != [] {
        r := QueuedFrameBreaks(start, r, token, rules);
      } else {
        var c :| InFlight(s, c);
        assert InFlight(r, c);
        r := InFlightCallBreaks(start, r, c, token, rules);
      }
    }
    assert Reach(start, r, rules) && !Good(r.promotions, s.install + 1);
  }

  /**
   * The exact condition: with no notify taking the flag during it, an install is safe in every interleaving if and
   * only if it starts on a closed session, or on an unconfirmed barrier with a stopped writer or no frame under way.
   */
  lemma InstallIsSafeIff(s: State, token: Token)
    requires Base(s) && TokensFree(s)
    ensures InstallIsGood(s, token, false) <==> SafeToInstall(s)
  {
    if SafeToInstall(s) {
      SafeInstallIsGood(s, token);
    } else {
      UnsafeInstallBreaks(s, token, false);
    }
  }

  /** A notify that takes the flag between the first two stores leaves a frame behind that the second store forgets. */
  lemma RacingNotifyBreaks(s: State, token: Token)
    requires Base(s) && TokensFree(s) && SafeToInstall(s) && !s.cells.closed && !s.writer.Stopped?
    ensures !InstallIsGood(s, token, true)
  {
    hide Reach;
    var rules := Rules(true, Never);
    var start := Do(s, BeginInstall(token));
    ReachSelf(start, rules);
    assert s.cells.barrier == NotSent && !s.cells.sent;
    var r := OwnerTurnsBack(start, start, rules);
    r := Go(start, r, StoreChallenge, rules);
    var c := FreeCaller(r.calls.Keys);
    r := NotifySends(start, r, c, token, rules);
    r := FinishStores(start, r, rules);
    r := QueuedFrameBreaks(start, r, token, rules);
    assert Reach(start, r, rules) && !Good(r.promotions, s.install + 1);
  }

  /**
   * Without that restraint of notify, an install is safe only on a session that can promote nothing any more:
   * a closed one, or one whose writer has stopped behind an unconfirmed barrier.
   */
  lemma RacingInstallIsSafeIff(s: State, token: Token)
    requires Base(s) && TokensFree(s)
    ensures InstallIsGood(s, token, true)
            <==> s.cells.closed || (s.writer.Stopped? && s.cells.barrier != Confirmed && s.cells.barrier != Sending)
  {
    if s.cells.closed || (s.writer.Stopped? && s.cells.barrier != Confirmed && s.cells.barrier != Sending) {
      var start := Do(s, BeginInstall(token));
      assert Dead(start, s.install + 1);
      forall r | Reach(start, r, Rules(true, Never))
        ensures Good(r.promotions, s.install + 1)
      {
        var steps :| CanRun(start, steps, Rules(true, Never)) && Run(start, steps, Rules(true, Never)) == r;
        DeadStaysDead(start, s.install + 1, steps, Rules(true, Never));
      }
    } else if SafeToInstall(s) {
      RacingNotifyBreaks(s, token);
    } else {
      UnsafeInstallBreaks(s, token, true);
    }
  }

  // ---- Two runs from a fresh session -------------------------------------------------------

  /** The full handshake of a challenge up to a promotion that has compared and checked its frame. */
  lemma ReachVetted(token: Token, rules: Rules) returns (r: State)
    requires rules.installs != Never
    ensures Reach(Fresh, r, rules) && TokensFree(r) && r.install == 1 && r.promotions == []
    ensures r.owner == Vetted(token) && r.cells == Shared(Some(token), true, Confirmed, true, false, false)
    ensures r.writer.Idle? && r.confirmedBy.Some? && r.confirmedBy.value.0 == 1
  {
    hide Reach;
    ReachSelf(Fresh, rules);
    r := Go(Fresh, Fresh, BeginInstall(token), rules);
    r := FinishInstall(Fresh, r, rules);
    r := NotifySends(Fresh, r, 0, token, rules);
    r := ConfirmsAndClaims(Fresh, r, rules);
    r := Compare(Fresh, r, token, rules);
    r := Go(Fresh, r, Vet(true), rules);
  }

  lemma GrantsAndPromotes(s: State, m: State, rules: Rules) returns (r: State)
    requires Reach(s, m, rules) && m.owner.Vetted? && !m.cells.consumed
    ensures Reach(s, r, rules)
    ensures r == m.(cells := WithConsumed(m.cells, true), owner := Away, promotions := m.promotions
                 + [Promotion(m.install, m.owner.echo, m.cells.challenge, m.confirmedBy, m.cells.claimed, m.safe,
                              m.cells.closed)])
  {
    hide Reach;
    r := Go(s, m, Consume, rules);
    r := Go(s, r, Promote, rules);
  }

  /** A second install between the check and the grant: the first challenge is promoted under the second. */
  lemma InstallOvertakesPromotion(first: Token, second: Token) returns (r: State)
    requires first != second
    ensures Reach(Fresh, r, Rules(false, Anytime))
    ensures |r.promotions| == 1 && r.promotions[0].install == 2
    ensures r.promotions[0].echo == first && r.promotions[0].challenge == Some(second) && !Justified(r.promotions[0])
  {
    hide Reach;
    var rules := Rules(false, Anytime);
    r := ReachVetted(first, rules);
    r := Go(Fresh, r, BeginInstall(second), rules);
    r := FinishInstall(Fresh, r, rules);
    assert r.owner == Vetted(first) && r.install == 2 && r.promotions == [];
    assert r.cells.challenge == Some(second) && !r.cells.consumed;
    r := GrantsAndPromotes(Fresh, r, rules);
  }

  /** A notify inside the first install of a session: its challenge is promoted twice. */
  lemma NotifyInsideInstallPromotesTwice(token: Token) returns (r: State)
    ensures Reach(Fresh, r, Rules(true, Once))
    ensures |r.promotions| == 2 && r.promotions[0].install == 1 && r.promotions[1].install == 1
  {
    hide Reach;
    var rules := Rules(true, Once);
    ReachSelf(Fresh, rules);
    r := Go(Fresh, Fresh, BeginInstall(token), rules);
    r := Go(Fresh, r, StoreChallenge, rules);
    r := NotifySends(Fresh, r, 0, token, rules);
    r := FinishStores(Fresh, r, rules);
    r := Go(Fresh, r, Check(1, token), rules);
    r := Go(Fresh, r, Cas(1), rules);
    r := ConfirmsAndClaims(Fresh, r, rules);
    r := PromotesTwice(Fresh, r, 1, token, rules);
  }

  /**
   * Even in a disciplined run a notify may have been compared with the challenge before: its frame carries the first
   * challenge, confirms the barrier under the second, and the second is promoted.
   */
  lemma StaleNotifyConfirms(first: Token, second: Token) returns (r: State)
    requires first != second
    ensures Reach(Fresh, r, Disciplined)
    ensures |r.promotions| == 1 && r.promotions[0].install == 2 && r.promotions[0].echo == second
    ensures Justified(r.promotions[0]) && r.promotions[0].send == Some((2, first))
  {
    hide Reach;
    var rules := Disciplined;
    ReachSelf(Fresh, rules);
    r := Go(Fresh, Fresh, BeginInstall(first), rules);
    r := FinishInstall(Fresh, r, rules);
    r := Go(Fresh, r, Check(0, first), rules);
    r := Go(Fresh, r, BeginInstall(second), rules);
    r := FinishInstall(Fresh, r, rules);
    r := StaleNotifySends(Fresh, r, first, rules);
    r := ConfirmsAndClaims(Fresh, r, rules);
    r := PromoteOnce(Fresh, r, second, rules);
  }

  lemma StaleNotifySends(s: State, m: State, token: Token, rules: Rules) returns (r: State)
    requires Reach(s, m, rules) && TokensFree(m) && m.calls == map[0 := Checked(token)] && !m.cells.sent
    ensures Reach(s, r, rules)
    ensures r == m.(cells := WithConsumed(WithSent(m.cells, true), false), queue := m.queue + [token], calls := map[])
  {
    hide Reach;
    r := Go(s, m, Cas(0), rules);
    r := Go(s, r, Clear(0), rules);
    r := Go(s, r, SendOk(0), rules);
    assert r.calls == map[];
  }
}

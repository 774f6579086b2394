/** Whole runs of the event queue: conservation, overflow reporting and the scheduler bound. */
module EventRuns {
  import opened Wrappers
  import opened EventQueue

  datatype Step =
    | PushStep(event: Event, priority: Priority, kind: Kind)
    | PopStep
    | PopServerStep
    | CloseStep

  /** The queue together with what each lane accepted and delivered, and what overflowed. */
  datatype Trace = Trace(
    q: Queue,
    acceptedServer: seq<Event>, acceptedControl: seq<Event>, acceptedData: seq<Event>,
    deliveredServer: seq<Event>, deliveredControl: seq<Event>, deliveredData: seq<Event>,
    controlRefused: bool, dataRefused: bool,
    notices: nat, fatalNotices: nat, pops: nat)

  const Begin := Trace(EmptyQueue, [], [], [], [], [], [], false, false, 0, 0, 0)

  predicate PublishesNotice(c: Config, q: Queue, e: Event, p: Priority, kind: Kind) {
    Refused(c, q, e, p) && p == Data && !q.overflowReported && NoticeFits(c, q, QueueOverflow(kind))
  }

  function DoPush(c: Config, t: Trace, e: Event, p: Priority, kind: Kind): Trace {
    var next := t.(q := Push(c, t.q, e, p, kind));
    if Refused(c, t.q, e, p) then
      if p == Control then next.(controlRefused := true)
      else if PublishesNotice(c, t.q, e, p, kind)
      then next.(dataRefused := true, notices := t.notices + 1,
          acceptedControl := t.acceptedControl + [QueueOverflow(kind)])
      else next.(dataRefused := true)
    else if e.ServerRequest? then next.(acceptedServer := t.acceptedServer + [e])
    else if p == Control then next.(acceptedControl := t.acceptedControl + [e])
    else next.(acceptedData := t.acceptedData + [e])
  }

  function DoPop(c: Config, t: Trace): Trace {
    var (q, event) := Pop(c, t.q);
    var next := t.(q := q, pops := if event.Some? then t.pops + 1 else t.pops);
    match PopSource(t.q)
    case FromFatal => next.(fatalNotices := t.fatalNotices + 1)
    case FromServer => next.(deliveredServer := t.deliveredServer + [event.value])
    case FromControl => next.(deliveredControl := t.deliveredControl + [event.value])
    case FromData => next.(deliveredData := t.deliveredData + [event.value])
    case FromNowhere => next
  }

  function DoPopServer(c: Config, t: Trace): Trace {
    var (q, frame) := PopServer(c, t.q);
    t.(q := q,
    deliveredServer := if frame.Some? then t.deliveredServer + [ServerRequest(frame.value)] else t.deliveredServer)
  }

  function Do(c: Config, t: Trace, step: Step): Trace {
    match step
    case PushStep(e, p, kind) => DoPush(c, t, e, p, kind)
    case PopStep => DoPop(c, t)
    case PopServerStep => DoPopServer(c, t)
    case CloseStep => t.(q := Close(c, t.q))
  }

  function Run(c: Config, t: Trace, steps: seq<Step>): Trace
    decreases |steps|
  {
    if |steps| == 0 then t else Run(c, Do(c, t, steps[0]), steps[1..])
  }

  ghost predicate Routed(steps: seq<Step>) {
    forall k :: 0 <= k < |steps| && steps[k].PushStep? ==> RoutedRight(steps[k].event, steps[k].priority)
  }

  // ---- Conservation and reporting ------------------------------------------------------

  /** Until close, what a lane accepted is what it delivered followed by what it still holds. */
  ghost predicate Conserves(t: Trace) {
    !t.q.closed ==>
      && t.acceptedServer == t.deliveredServer + t.q.server
      && t.acceptedControl == t.deliveredControl + t.q.control
      && t.acceptedData == t.deliveredData + t.q.data
  }

  /** The fatal notice is pending or has been handed out. */
  predicate FatalSignalled(q: Queue) { q.fatal.Some? || q.fatalReported }

  ghost predicate Reports(t: Trace) {
    && (t.controlRefused ==> FatalSignalled(t.q))
    && (t.dataRefused ==> t.notices == 1 || FatalSignalled(t.q))
    && t.notices <= (if t.q.overflowReported then 1 else 0)
    && (t.dataRefused ==> t.q.overflowReported)
    && (t.q.overflowReported ==> t.notices == 1 || FatalSignalled(t.q))
    && t.fatalNotices == (if t.q.fatalReported then 1 else 0)
  }

  ghost predicate TraceInv(c: Config, t: Trace) { Inv(c, t.q) && Conserves(t) && Reports(t) }

  /** What a push does to the lanes. */
  lemma PushLanes(c: Config, q: Queue, e: Event, p: Priority, kind: Kind)
    ensures var r := Push(c, q, e, p, kind);
            var taken := !Refused(c, q, e, p);
            && r.closed == q.closed && r.burst == q.burst
            && r.server == (if taken && e.ServerRequest? then q.server + [e] else q.server)
            && r.control == (if taken && !e.ServerRequest? && p == Control then q.control + [e]
                             else if PublishesNotice(c, q, e, p, kind) then q.control + [QueueOverflow(kind)]
                             else q.control)
            && r.data == (if taken && !e.ServerRequest? && p == Data then q.data + [e] else q.data)
  {
    hide Size, SatAdd, Refused, NoticeFits;
  }

  lemma PushConserves(c: Config, t: Trace, e: Event, p: Priority, kind: Kind)
    requires Conserves(t)
    ensures Conserves(DoPush(c, t, e, p, kind))
  {
    PushLanes(c, t.q, e, p, kind);
    hide Push, Refused, NoticeFits;
  }

  /** What a push does to the reporting flags. */
  lemma PushFlags(c: Config, q: Queue, e: Event, p: Priority, kind: Kind)
    ensures var r := Push(c, q, e, p, kind);
            var refused := Refused(c, q, e, p);
            && r.fatalReported == q.fatalReported
            && r.overflowReported == (q.overflowReported || (refused && p == Data))
            && (!refused ==> r.fatal == q.fatal)
            && (FatalSignalled(q) ==> FatalSignalled(r))
            && (refused && (p == Control || (!q.overflowReported && !PublishesNotice(c, q, e, p, kind)))
                ==> FatalSignalled(r))
  {
    hide Size, SatAdd, Refused, NoticeFits;
  }

  lemma PushReports(c: Config, t: Trace, e: Event, p: Priority, kind: Kind)
    requires Reports(t)
    ensures Reports(DoPush(c, t, e, p, kind))
  {
    PushFlags(c, t.q, e, p, kind);
    hide Push, Refused, NoticeFits, FatalSignalled;
  }

  /** The burst counter as far as the scheduler looks at it. */
  function Burst(q: Queue): (b: nat)
    ensures b <= MAX_BURST
  {
    if q.burst < MAX_BURST then q.burst else MAX_BURST
  }

  /** What one pass of `pop` does to the lanes and the burst counter. */
  lemma PopLanes(c: Config, q: Queue)
    ensures var r := Pop(c, q).0;
            var event := Pop(c, q).1;
            var source := PopSource(q);
            && r.closed == q.closed
            && (event.None? <==> source.FromNowhere?)
            && (source.FromServer? ==> |q.server| > 0 && event.value == q.server[0])
            && r.server == (if source.FromServer? then q.server[1..] else q.server)
            && (source.FromControl? ==> |q.control| > 0 && event.value == q.control[0])
            && r.control == (if source.FromControl? then q.control[1..] else q.control)
            && (source.FromData? ==> |q.data| > 0 && event.value == q.data[0])
            && r.data == (if source.FromData? then q.data[1..] else q.data)
            && Burst(r) == (if source.FromData? then 0
                            else if source.FromServer? || source.FromControl?
                                then (if Burst(q) < MAX_BURST then Burst(q) + 1 else MAX_BURST)
                            else Burst(q))
            && (Burst(q) == MAX_BURST && |q.data| > 0 ==> source.FromData? || source.FromFatal?)
            && (|q.data| > 0 ==> !source.FromNowhere?)
  {
    hide Size, SatSub;
  }

  lemma PopConserves(c: Config, t: Trace)
    requires Conserves(t)
    ensures Conserves(DoPop(c, t))
  {
    PopLanes(c, t.q);
    hide Pop, PopSource;
  }

  lemma PopReports(c: Config, t: Trace)
    requires Reports(t)
    ensures Reports(DoPop(c, t))
  {
    hide Size, SatAdd, SatSub;
  }

  lemma PopServerConserves(c: Config, t: Trace)
    requires Conserves(t) && Inv(c, t.q)
    ensures Conserves(DoPopServer(c, t))
  {
    if |t.q.server| > 0 {
      assert t.q.server[0] in t.q.server;
    }
    hide Size, SatAdd, SatSub, Total;
  }

  lemma StepKeepsTrace(c: Config, t: Trace, step: Step)
    requires ValidConfig(c) && TraceInv(c, t) && (step.PushStep? ==> RoutedRight(step.event, step.priority))
    ensures TraceInv(c, Do(c, t, step))
  {
    hide Inv, Conserves, Reports, Push, Pop, PopServer, Close;
    match step
    case PushStep(e, p, kind) =>
      PushKeepsInv(c, t.q, e, p, kind);
      PushConserves(c, t, e, p, kind);
      PushReports(c, t, e, p, kind);
    case PopStep =>
      PopKeepsInv(c, t.q);
      PopConserves(c, t);
      PopReports(c, t);
    case PopServerStep =>
      PopServerKeepsInv(c, t.q);
      PopServerConserves(c, t);
      PopServerReports(c, t);
    case CloseStep =>
      CloseKeepsInv(c, t.q);
      CloseReports(c, t);
  }

  lemma PopServerReports(c: Config, t: Trace)
    requires Reports(t)
    ensures Reports(DoPopServer(c, t))
  {
    hide Size, SatAdd, SatSub;
  }

  lemma CloseReports(c: Config, t: Trace)
    requires Reports(t)
    ensures Reports(Do(c, t, CloseStep)) && Conserves(Do(c, t, CloseStep))
  {
    hide Retain, Total;
  }

  lemma {:induction false} RunKeepsTrace(c: Config, t: Trace, steps: seq<Step>)
    requires ValidConfig(c) && TraceInv(c, t) && Routed(steps)
    ensures TraceInv(c, Run(c, t, steps))
    decreases |steps|
  {
    hide TraceInv, Do;
    if |steps| > 0 {
      StepKeepsTrace(c, t, steps[0]);
      RunKeepsTrace(c, Do(c, t, steps[0]), steps[1..]);
    }
  }

  /**
   * In every reachable state the byte counters are exact and within budget, each lane is FIFO and loses
   * nothing before close, a refused control event is signalled as fatal, and at most one overflow notice exists.
   */
  lemma QueueAccountsExactly(c: Config, steps: seq<Step>)
    requires ValidConfig(c) && Routed(steps)
    ensures var t := Run(c, Begin, steps);
            && Inv(c, t.q) && Conserves(t)
            && (t.controlRefused ==> FatalSignalled(t.q))
            && (t.dataRefused ==> t.notices == 1 || FatalSignalled(t.q))
            && t.notices <= 1 && t.fatalNotices <= 1
  {
    RunKeepsTrace(c, Begin, steps);
  }

  // ---- The scheduler bound -------------------------------------------------------------

  ghost predicate NeverCloses(steps: seq<Step>) { forall k :: 0 <= k < |steps| ==> !steps[k].CloseStep? }

  /** Pops that returned an event other than the fatal notice. */
  function Deliveries(t: Trace): int { t.pops - t.fatalNotices }

  /** How many more deliveries the event at position `p` of the data lane can wait for, its own included. */
  function Patience(q: Queue, p: nat): int { 9 * p + 9 - Burst(q) }

  /** From `t` to `r` the event at position `p` was delivered, moved up, or waits with less patience left. */
  ghost predicate Advances(t: Trace, r: Trace, p: nat)
    requires p < |t.q.data|
  {
    && 0 <= Deliveries(r) - Deliveries(t)
    && if r.deliveredData == t.deliveredData
       then p < |r.q.data| && r.q.data[p] == t.q.data[p]
            && Patience(r.q, p) <= Patience(t.q, p) - (Deliveries(r) - Deliveries(t))
       else r.deliveredData == t.deliveredData + [t.q.data[0]]
            && (p > 0 ==> p - 1 < |r.q.data| && r.q.data[p - 1] == t.q.data[p]
                          && Patience(r.q, p - 1) <= Patience(t.q, p) - (Deliveries(r) - Deliveries(t)))
  }

  lemma PushAdvances(c: Config, t: Trace, e: Event, prio: Priority, kind: Kind, p: nat)
    requires p < |t.q.data|
    ensures Advances(t, DoPush(c, t, e, prio, kind), p)
  {
    PushLanes(c, t.q, e, prio, kind);
    hide Push, Refused, PublishesNotice;
  }

  lemma PopAdvances(c: Config, t: Trace, p: nat)
    requires p < |t.q.data|
    ensures Advances(t, DoPop(c, t), p)
  {
    PopLanes(c, t.q);
    hide Pop, PopSource, Burst;
  }

  lemma PopServerAdvances(c: Config, t: Trace, p: nat)
    requires p < |t.q.data|
    ensures Advances(t, DoPopServer(c, t), p)
  {
    hide Size, SatSub;
  }

  /** No step but close lets a waiting data event fall back. */
  lemma StepAdvances(c: Config, t: Trace, step: Step, p: nat)
    requires !step.CloseStep? && p < |t.q.data|
    ensures Advances(t, Do(c, t, step), p)
  {
    hide Advances, DoPush, DoPop, DoPopServer;
    match step
    case PushStep(e, prio, kind) => PushAdvances(c, t, e, prio, kind, p);
    case PopStep => PopAdvances(c, t, p);
    case PopServerStep => PopServerAdvances(c, t, p);
  }

  /** Deliveries made before the step can only grow, and what was delivered stays delivered. */
  lemma {:induction false} DeliveredDataGrows(c: Config, t: Trace, steps: seq<Step>)
    ensures |t.deliveredData| <= |Run(c, t, steps).deliveredData|
    ensures Run(c, t, steps).deliveredData[..|t.deliveredData|] == t.deliveredData
    decreases |steps|
  {
    if |steps| > 0 {
      StepKeepsDelivered(c, t, steps[0]);
      DeliveredDataGrows(c, Do(c, t, steps[0]), steps[1..]);
    }
  }

  lemma StepKeepsDelivered(c: Config, t: Trace, step: Step)
    ensures t.deliveredData <= Do(c, t, step).deliveredData
  {
    hide Push, Size, SatSub, SatAdd, Close, PublishesNotice, Refused;
  }

  /**
   * While the queue is not closed, the data event at position `p` is delivered, in its place, before the run
   * has made `Patience` further deliveries, whatever is pushed and whatever `pop_server_request` takes meanwhile.
   */
  lemma {:induction false} DataIsNotStarved(c: Config, t: Trace, steps: seq<Step>, p: nat)
    requires NeverCloses(steps) && p < |t.q.data|
    requires Deliveries(Run(c, t, steps)) - Deliveries(t) >= Patience(t.q, p)
    ensures var r := Run(c, t, steps);
            |r.deliveredData| > |t.deliveredData| + p && r.deliveredData[|t.deliveredData| + p] == t.q.data[p]
    decreases |steps|
  {
    hide Do, Patience, Deliveries;
    if |steps| == 0 {
      PatienceIsPositive(t.q, p);
    } else {
      var m := Do(c, t, steps[0]);
      StepAdvances(c, t, steps[0], p);
      if m.deliveredData == t.deliveredData {
        DataIsNotStarved(c, m, steps[1..], p);
      } else if p > 0 {
        DataIsNotStarved(c, m, steps[1..], p - 1);
      } else {
        DeliveredDataGrows(c, m, steps[1..]);
        assert Run(c, m, steps[1..]).deliveredData[..|m.deliveredData|][|t.deliveredData|] == t.q.data[0];
      }
    }
  }

  lemma PatienceIsPositive(q: Queue, p: nat)
    ensures Patience(q, p) >= 1
  {
  }

  /** A data event at the head is returned within nine deliveries. */
  lemma HeadIsReturnedWithinNine(c: Config, t: Trace, steps: seq<Step>)
    requires NeverCloses(steps) && |t.q.data| > 0
    requires Deliveries(Run(c, t, steps)) - Deliveries(t) >= 9
    ensures var r := Run(c, t, steps);
            |r.deliveredData| > |t.deliveredData| && r.deliveredData[|t.deliveredData|] == t.q.data[0]
  {
    DataIsNotStarved(c, t, steps, 0);
  }

  /** While data waits, every pop returns something, so nine calls besides the fatal notice are nine deliveries. */
  lemma PopNeverIdlesOverData(c: Config, t: Trace)
    requires |t.q.data| > 0
    ensures DoPop(c, t).pops == t.pops + 1
    ensures Deliveries(DoPop(c, t)) == Deliveries(t) + (if PopSource(t.q).FromFatal? then 0 else 1)
    ensures PopSource(t.q).FromFatal? ==> !PopSource(DoPop(c, t).q).FromFatal? && DoPop(c, t).q.fatalReported
  {
    hide Size, SatSub;
  }

  function PopCalls(steps: seq<Step>): nat {
    if |steps| == 0 then 0 else (if steps[0].PopStep? then 1 else 0) + PopCalls(steps[1..])
  }

  /** Calls that may still be spent on the single fatal notice. */
  function FatalBudget(q: Queue): nat { if q.fatalReported then 0 else 1 }

  lemma StepSpends(c: Config, t: Trace, step: Step)
    requires !step.CloseStep? && |t.q.data| > 0
    ensures var m := Do(c, t, step);
            Deliveries(m) - Deliveries(t) + FatalBudget(t.q) - FatalBudget(m.q) >= if step.PopStep? then 1 else 0
  {
    match step
    case PushStep(e, prio, kind) =>
      PushFlags(c, t.q, e, prio, kind);
      hide Push, Refused, NoticeFits;
    case PopStep =>
      PopNeverIdlesOverData(c, t);
      hide Size, SatSub;
    case PopServerStep =>
      hide Size, SatSub;
  }

  /** Until the head is delivered, every pop call but the one for the fatal notice is a delivery. */
  lemma {:induction false} PopCallsDeliver(c: Config, t: Trace, steps: seq<Step>)
    requires NeverCloses(steps) && |t.q.data| > 0
    ensures var r := Run(c, t, steps);
            || (|r.deliveredData| > |t.deliveredData| && r.deliveredData[|t.deliveredData|] == t.q.data[0])
            || Deliveries(r) - Deliveries(t) + FatalBudget(t.q) >= PopCalls(steps)
    decreases |steps|
  {
    hide Do, Deliveries, FatalBudget, Patience;
    if |steps| > 0 {
      var m := Do(c, t, steps[0]);
      StepAdvances(c, t, steps[0], 0);
      StepSpends(c, t, steps[0]);
      if m.deliveredData == t.deliveredData {
        PopCallsDeliver(c, m, steps[1..]);
      } else {
        DeliveredDataGrows(c, m, steps[1..]);
        assert Run(c, m, steps[1..]).deliveredData[..|m.deliveredData|][|t.deliveredData|] == t.q.data[0];
      }
    }
  }

  /**
   * The scheduler bound: the head of the data lane is returned within nine calls of `pop`, the fatal notice not
   * counted.
   */
  lemma HeadIsReturnedWithinNineCalls(c: Config, t: Trace, steps: seq<Step>)
    requires NeverCloses(steps) && |t.q.data| > 0
    requires PopCalls(steps) >= 9 + FatalBudget(t.q)
    ensures var r := Run(c, t, steps);
            |r.deliveredData| > |t.deliveredData| && r.deliveredData[|t.deliveredData|] == t.q.data[0]
  {
    hide Do, Deliveries, FatalBudget;
    PopCallsDeliver(c, t, steps);
    if Deliveries(Run(c, t, steps)) - Deliveries(t) >= 9 {
      HeadIsReturnedWithinNine(c, t, steps);
    }
  }
}

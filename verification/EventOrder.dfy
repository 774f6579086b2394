/**
 * What the event queue does, said on its fields: which events a push takes, in which order the lanes are served,
 * how the lanes share the deliveries of whole runs, and what is left after close.
 */
module EventOrder {
  import opened Wrappers
  import opened EventQueue
  import opened EventRuns

  // ---- Which lane a pop serves -----------------------------------------------------------

  predicate FatalTurn(q: Queue) { q.fatal.Some? && !q.fatalReported }

  /** Data comes first only after eight other deliveries in a row; otherwise it waits for both other lanes. */
  predicate DataTurn(q: Queue) {
    !FatalTurn(q) && q.data != [] && (q.burst >= 8 || (q.server == [] && q.control == []))
  }

  predicate ServerTurn(q: Queue) { !FatalTurn(q) && q.server != [] && (q.burst >= 8 ==> q.data == []) }

  predicate ControlTurn(q: Queue) {
    !FatalTurn(q) && q.control != [] && q.server == [] && (q.burst >= 8 ==> q.data == [])
  }

  function OneMore(burst: Usize): Usize { if burst == USIZE_MAX then USIZE_MAX else burst + 1 }

  /** The four turns exclude each other, and a pop without any of them returns nothing. */
  lemma PopMeaning(c: Config, q: Queue)
    ensures var (r, event) := Pop(c, q);
            && (FatalTurn(q) ==>
                  && event == Some(QueueFatalOverflow(q.fatal.value)) && r.fatalReported
                  && r.server == q.server && r.control == q.control && r.data == q.data && r.burst == q.burst)
            && (DataTurn(q) ==>
                  && event == Some(q.data[0]) && r.data == q.data[1..] && r.burst == 0
                  && r.server == q.server && r.control == q.control)
            && (ServerTurn(q) ==>
                  && event == Some(q.server[0]) && r.server == q.server[1..] && r.burst == OneMore(q.burst)
                  && r.control == q.control && r.data == q.data)
            && (ControlTurn(q) ==>
                  && event == Some(q.control[0]) && r.control == q.control[1..] && r.burst == OneMore(q.burst)
                  && r.server == q.server && r.data == q.data)
            && (event == None <==> !FatalTurn(q) && q.server == [] && q.control == [] && q.data == [])
            && (event == None ==> r == q.(fatal := None))
            && r.fatal == None && r.closed == q.closed && r.overflowReported == q.overflowReported
            && (!FatalTurn(q) ==> r.fatalReported == q.fatalReported)
  {
    hide Size, SatSub;
  }

  /** `pop_server_request` serves that lane alone, and its deliveries count towards the burst as well. */
  lemma PopServerMeaning(c: Config, q: Queue)
    requires Inv(c, q)
    ensures var (r, frame) := PopServer(c, q);
            if q.server == [] then r == q && frame == None
            else && frame.Some? && ServerRequest(frame.value) == q.server[0]
                 && r == q.(server := q.server[1..], serverBytes := Total(c, q.server[1..]), burst := OneMore(q.burst))
  {
    if q.server != [] {
      assert q.server[0] in q.server;
    }
    hide Size;
  }

  // ---- Which events a push takes ----------------------------------------------------------

  /** The lane has a free place, and the bytes it shares stay within their budget. */
  predicate Room(c: Config, q: Queue, e: Event, p: Priority) {
    var shared := Total(c, q.server) + Total(c, q.control) + Size(c, e);
    match (e, p)
    case (ServerRequest(_), _) => |q.server| < 64 && shared <= c.maxControlBytes
    case (_, Control) => |q.control| < 64 && shared <= c.maxControlBytes
    case (_, Data) => |q.data| < c.dataCapacity && Total(c, q.data) + Size(c, e) <= c.maxDataBytes
  }

  /** An event with room is appended to its lane and nothing else changes but the lane's byte counter. */
  lemma PushAccepts(c: Config, q: Queue, e: Event, p: Priority, kind: Kind)
    requires ValidConfig(c) && Inv(c, q) && RoutedRight(e, p) && Room(c, q, e, p)
    ensures var r := Push(c, q, e, p, kind);
            && (e.ServerRequest? ==>
                  && r == q.(server := q.server + [e], serverBytes := r.serverBytes)
                  && r.serverBytes == Total(c, q.server) + Size(c, e))
            && (!e.ServerRequest? && p == Control ==>
                  && r == q.(control := q.control + [e], controlBytes := r.controlBytes)
                  && r.controlBytes == Total(c, q.control) + Size(c, e))
            && (!e.ServerRequest? && p == Data ==>
                  && r == q.(data := q.data + [e], dataBytes := r.dataBytes)
                  && r.dataBytes == Total(c, q.data) + Size(c, e))
  {
    hide Size, Total;
  }

  /**
   * An event without room is dropped. If it was a control event, the first fatal kind is its own; of the data
   * events only the first one leaves a trace: the notice of its kind, or the fatal kind of the control lane when the
   * notice itself has no room.
   */
  lemma PushRefuses(c: Config, q: Queue, e: Event, p: Priority, kind: Kind)
    requires ValidConfig(c) && Inv(c, q) && RoutedRight(e, p) && !Room(c, q, e, p)
    ensures var r := Push(c, q, e, p, kind);
            var notice := QueueOverflow(kind);
            && (p == Control ==>
                  && r == q.(fatal := r.fatal)
                  && r.fatal == Some(if q.fatal.Some? then q.fatal.value else kind))
            && (p == Data && q.overflowReported ==> r == q)
            && (p == Data && !q.overflowReported && Room(c, q, notice, Control) ==>
                  && r == q.(overflowReported := true, control := q.control + [notice], controlBytes := r.controlBytes)
                  && r.controlBytes == Total(c, q.control) + 64)
            && (p == Data && !q.overflowReported && !Room(c, q, notice, Control) ==>
                  && r == q.(overflowReported := true, fatal := r.fatal)
                  && r.fatal == Some(if q.fatal.Some? then q.fatal.value else ControlKind))
  {
    hide Total;
  }

  /** What each event counts for: a frame or line its length, a protocol fault 128 bytes, anything else 64. */
  lemma SizesByKind(c: Config, e: Event)
    ensures Size(c, e) ==
            (if e.ServerRequest? || e.Notification?
             then (if e.frame.encoded.Some? then e.frame.encoded.value
                   else if c.maxFrameBytes < USIZE_MAX then c.maxFrameBytes + 1 else USIZE_MAX)
             else if e.StderrLine? then e.length else if e.ProtocolFault? then 128 else 64)
  {
  }

  // ---- What the budgets are for -----------------------------------------------------------

  /** The bytes an event really holds: the encoding of a frame, the text of a line. */
  function Held(e: Event): nat {
    match e
    case ServerRequest(f) => (match f.encoded case Some(n) => n case None => 0)
    case Notification(f) => (match f.encoded case Some(n) => n case None => 0)
    case StderrLine(_, n) => n
    case _ => 0
  }

  function HeldBy(lane: seq<Event>): nat {
    if |lane| == 0 then 0 else Held(lane[0]) + HeldBy(lane[1..])
  }

  lemma {:induction false} TotalCoversHeld(c: Config, lane: seq<Event>)
    ensures HeldBy(lane) <= Total(c, lane)
  {
    if |lane| > 0 {
      TotalCoversHeld(c, lane[1..]);
    }
  }

  lemma {:induction false} TotalCoversEach(c: Config, lane: seq<Event>, e: Event)
    requires e in lane
    ensures Size(c, e) <= Total(c, lane)
  {
    if e != lane[0] {
      TotalCoversEach(c, lane[1..], e);
    }
  }

  /** A frame that does not encode counts as too long, so a lane whose budget is one frame never holds it. */
  predicate Unencodable(e: Event) { (e.ServerRequest? || e.Notification?) && e.frame.encoded.None? }

  /** In every run the frames and lines waiting in the lanes hold no more bytes than the budgets allow. */
  lemma LanesHoldWithinBudget(c: Config, steps: seq<Step>)
    requires ValidConfig(c) && Routed(steps)
    ensures var q := Run(c, Begin, steps).q;
            && HeldBy(q.server) + HeldBy(q.control) <= c.maxControlBytes && HeldBy(q.data) <= c.maxDataBytes
            && (c.maxDataBytes <= c.maxFrameBytes < USIZE_MAX ==> forall e :: e in q.data ==> !Unencodable(e))
            && (c.maxControlBytes <= c.maxFrameBytes < USIZE_MAX ==>
                  forall e :: e in q.control + q.server ==> !Unencodable(e))
  {
    QueueAccountsExactly(c, steps);
    var q := Run(c, Begin, steps).q;
    TotalCoversHeld(c, q.server);
    TotalCoversHeld(c, q.control);
    TotalCoversHeld(c, q.data);
    forall e | e in q.data && Unencodable(e)
      ensures Size(c, e) <= c.maxDataBytes
    {
      TotalCoversEach(c, q.data, e);
    }
    forall e | e in q.control + q.server && Unencodable(e)
      ensures Size(c, e) <= c.maxControlBytes
    {
      TotalCoversEach(c, if e in q.control then q.control else q.server, e);
    }
  }

  // ---- How the lanes share the deliveries ----------------------------------------------------

  /** Server requests and control events handed out, by whichever call. */
  function Others(t: Trace): nat { |t.deliveredServer| + |t.deliveredControl| }

  function Delivered(t: Trace): nat { Others(t) + |t.deliveredData| }

  /** Every pop of the run finds a server request or a control event waiting. */
  ghost predicate Contested(c: Config, t: Trace, steps: seq<Step>)
    decreases |steps|
  {
    |steps| == 0
    || ((steps[0].PopStep? ==> t.q.server != [] || t.q.control != []) && Contested(c, Do(c, t, steps[0]), steps[1..]))
  }

  /** What a step adds to the deliveries of each lane, as far as the shares are concerned. */
  ghost predicate Pays(t: Trace, r: Trace) {
    && |t.deliveredData| <= |r.deliveredData| && Others(t) <= Others(r)
    && 8 * (|r.deliveredData| - |t.deliveredData|) <= Others(r) - Others(t) + Burst(t.q) - Burst(r.q)
  }

  lemma StepPays(c: Config, t: Trace, step: Step)
    requires step.PopStep? ==> t.q.server != [] || t.q.control != []
    ensures Pays(t, Do(c, t, step))
  {
    match step
    case PushStep(e, p, kind) =>
      PushLanes(c, t.q, e, p, kind);
      hide Push, Refused, PublishesNotice;
    case PopStep =>
      PopMeaning(c, t.q);
      PopLanes(c, t.q);
      hide Pop;
    case PopServerStep =>
      hide Size, SatSub;
    case CloseStep =>
      hide Retain, Total;
  }

  /** While others wait, eight of them are served for each data event; the burst counter is the credit. */
  lemma {:induction false} OthersKeepTheirShare(c: Config, t: Trace, steps: seq<Step>)
    requires Contested(c, t, steps)
    ensures Pays(t, Run(c, t, steps))
    decreases |steps|
  {
    hide Do, Burst;
    if |steps| > 0 {
      StepPays(c, t, steps[0]);
      OthersKeepTheirShare(c, Do(c, t, steps[0]), steps[1..]);
    }
  }

  /** Between two data deliveries with others waiting throughout there are at least eight other deliveries. */
  lemma EightBetweenDataDeliveries(c: Config, t: Trace, steps: seq<Step>)
    requires Contested(c, t, steps)
    ensures var r := Run(c, t, steps);
            && (|r.deliveredData| >= |t.deliveredData| + 2 ==> Others(r) >= Others(t) + 8)
            && (t.q.burst == 0 && |r.deliveredData| > |t.deliveredData| ==> Others(r) >= Others(t) + 8)
  {
    OthersKeepTheirShare(c, t, steps);
  }

  // ---- How long a control event waits ---------------------------------------------------------

  /** The control event at position `p` has been delivered, in its place. */
  ghost predicate Got(t: Trace, r: Trace, p: nat)
    requires p < |t.q.control|
  {
    |r.deliveredControl| > |t.deliveredControl| + p
    && r.deliveredControl[|t.deliveredControl| + p] == t.q.control[p]
  }

  /** Where the control event at position `p` stands after a step. */
  ghost predicate MovesUp(t: Trace, r: Trace, p: nat)
    requires p < |t.q.control|
  {
    if r.deliveredControl == t.deliveredControl then p < |r.q.control| && r.q.control[p] == t.q.control[p]
    else && r.deliveredControl == t.deliveredControl + [t.q.control[0]]
         && (p > 0 ==> p - 1 < |r.q.control| && r.q.control[p - 1] == t.q.control[p])
  }

  lemma StepMovesUp(c: Config, t: Trace, step: Step, p: nat)
    requires !step.CloseStep? && p < |t.q.control|
    ensures MovesUp(t, Do(c, t, step), p)
  {
    match step
    case PushStep(e, prio, kind) =>
      PushLanes(c, t.q, e, prio, kind);
      hide Push, Refused, PublishesNotice;
    case PopStep =>
      PopLanes(c, t.q);
      hide Pop, PopSource, Burst;
    case PopServerStep =>
      hide Size, SatSub;
  }

  lemma StepKeepsDeliveredControl(c: Config, t: Trace, step: Step)
    ensures t.deliveredControl <= Do(c, t, step).deliveredControl
  {
    hide Push, Size, SatSub, SatAdd, Close, PublishesNotice, Refused;
  }

  lemma {:induction false} DeliveredControlGrows(c: Config, t: Trace, steps: seq<Step>)
    ensures t.deliveredControl <= Run(c, t, steps).deliveredControl
    decreases |steps|
  {
    hide Do;
    if |steps| > 0 {
      StepKeepsDeliveredControl(c, t, steps[0]);
      DeliveredControlGrows(c, Do(c, t, steps[0]), steps[1..]);
    }
  }

  /** Until the event is delivered, only the control events ahead of it are, and data gets no more than its share. */
  lemma {:induction false} ControlWaits(c: Config, t: Trace, steps: seq<Step>, p: nat)
    requires NeverCloses(steps) && p < |t.q.control|
    ensures var r := Run(c, t, steps);
            Got(t, r, p) || (|r.deliveredControl| - |t.deliveredControl| <= p && Pays(t, r))
    decreases |steps|
  {
    hide Do, Burst;
    if |steps| > 0 {
      var m := Do(c, t, steps[0]);
      StepMovesUp(c, t, steps[0], p);
      StepPays(c, t, steps[0]);
      if m.deliveredControl == t.deliveredControl {
        ControlWaits(c, m, steps[1..], p);
      } else if p > 0 {
        ControlWaits(c, m, steps[1..], p - 1);
      } else {
        DeliveredControlGrows(c, m, steps[1..]);
        assert Run(c, m, steps[1..]).deliveredControl[|t.deliveredControl|] == m.deliveredControl[|t.deliveredControl|];
      }
    }
  }

  /** The open queue of a run stays open without close. */
  lemma {:induction false} StaysOpen(c: Config, t: Trace, steps: seq<Step>)
    requires NeverCloses(steps)
    ensures Run(c, t, steps).q.closed == t.q.closed
    decreases |steps|
  {
    if |steps| > 0 {
      StepStaysOpen(c, t, steps[0]);
      StaysOpen(c, Do(c, t, steps[0]), steps[1..]);
    }
  }

  lemma StepStaysOpen(c: Config, t: Trace, step: Step)
    requires !step.CloseStep?
    ensures Do(c, t, step).q.closed == t.q.closed
  {
    match step
    case PushStep(e, prio, kind) =>
      PushLanes(c, t.q, e, prio, kind);
      hide Push, Refused, PublishesNotice;
    case PopStep =>
      PopLanes(c, t.q);
      hide Pop, PopSource, Burst;
    case PopServerStep =>
      hide Size, SatSub;
  }

  /**
   * A control event at position `p` outlasts at most the `p` ahead of it, the server requests waiting or accepted
   * meanwhile, and one data event for every eight of these and one more: any run with more deliveries delivers it.
   */
  lemma ControlIsNotStarved(c: Config, t: Trace, steps: seq<Step>, p: nat)
    requires ValidConfig(c) && TraceInv(c, t) && !t.q.closed && Routed(steps) && NeverCloses(steps)
    requires p < |t.q.control|
    requires var r := Run(c, t, steps);
             var ahead := p + |t.q.server| + |r.acceptedServer| - |t.acceptedServer|;
             8 * (Delivered(r) - Delivered(t)) > 9 * ahead + 8
    ensures Got(t, Run(c, t, steps), p)
  {
    hide Inv, Reports;
    ControlWaits(c, t, steps, p);
    RunKeepsTrace(c, t, steps);
    StaysOpen(c, t, steps);
    hide Run, Got;
  }

  /** One server request, accepted and at once delivered. */
  function OneRequest(request: Event): seq<Step> { [PushStep(request, Control, ControlKind), PopStep] }

  function Requests(request: Event, n: nat): seq<Step>
    decreases n
  {
    if n == 0 then [] else OneRequest(request) + Requests(request, n - 1)
  }

  /**
   * The server requests cannot be left out of that bound: as long as each pop finds a new one, the control lane is
   * not served at all, however many pops there are.
   */
  lemma {:induction false} ServerRequestsHoldBackControl(c: Config, t: Trace, request: Event, n: nat)
    requires ValidConfig(c) && Inv(c, t.q) && request.ServerRequest?
    requires t.q.server == [] && t.q.data == [] && t.q.fatal == None
    requires Total(c, t.q.control) + Size(c, request) <= c.maxControlBytes
    ensures var r := Run(c, t, Requests(request, n));
            && r.q.control == t.q.control && r.deliveredControl == t.deliveredControl
            && |r.deliveredServer| == |t.deliveredServer| + n
    decreases n
  {
    if n > 0 {
      var m := Served(c, t, request);
      hide Do, Size;
      ServerRequestsHoldBackControl(c, m, request, n - 1);
      assert Requests(request, n)[1..] == [PopStep] + Requests(request, n - 1);
      assert Requests(request, n)[1..][1..] == Requests(request, n - 1);
    }
  }

  lemma Served(c: Config, t: Trace, request: Event) returns (m: Trace)
    requires ValidConfig(c) && Inv(c, t.q) && request.ServerRequest?
    requires t.q.server == [] && t.q.data == [] && t.q.fatal == None
    requires Total(c, t.q.control) + Size(c, request) <= c.maxControlBytes
    ensures m == Do(c, Do(c, t, PushStep(request, Control, ControlKind)), PopStep)
    ensures Inv(c, m.q) && m.q.server == [] && m.q.data == [] && m.q.control == t.q.control && m.q.fatal == None
    ensures m.deliveredControl == t.deliveredControl && |m.deliveredServer| == |t.deliveredServer| + 1
  {
    var a := Do(c, t, PushStep(request, Control, ControlKind));
    PushAccepts(c, t.q, request, Control, ControlKind);
    PushKeepsInv(c, t.q, request, Control, ControlKind);
    PopKeepsInv(c, a.q);
    PopMeaning(c, a.q);
    m := Do(c, a, PopStep);
    hide Size, Total, SatAdd, SatSub;
  }

  // ---- What close leaves ---------------------------------------------------------------------

  /** The kept events are a filter of the lane: it goes event by event and keeps the order. */
  lemma {:induction false} RetainOfConcat(a: seq<Event>, b: seq<Event>)
    ensures Retain(a + b) == Retain(a) + Retain(b)
  {
    hide Terminal;
    if |a| == 0 {
      assert a + b == b && [] + Retain(b) == Retain(b);
    } else {
      var first := if Terminal(a[0]) then [a[0]] else [];
      RetainOfConcat(a[1..], b);
      assert (a + b)[0] == a[0] && (a + b)[1..] == a[1..] + b;
      assert first + (Retain(a[1..]) + Retain(b)) == (first + Retain(a[1..])) + Retain(b);
    }
  }

  /** What close drops from the control lane: notices of overflow, stderr and ordinary notifications. */
  predicate Passing(e: Event) {
    || e.QueueOverflow? || e.StderrLine? || e.StderrTruncated? || e.ServerRequest?
    || (e.Notification? && !e.frame.terminal)
  }

  /** Close empties the request and data lanes and keeps, in order, the events that tell how the session ended. */
  lemma CloseMeaning(c: Config, q: Queue, before: seq<Event>, e: Event, after: seq<Event>)
    requires Inv(c, q) && q.control == before + [e] + after
    ensures var r := Close(c, q);
            && r.closed && r.server == [] && r.data == [] && r.serverBytes == 0 && r.dataBytes == 0
            && r.controlBytes == Total(c, r.control)
            && r.control == Retain(before) + (if Passing(e) then [] else [e]) + Retain(after)
            && r.fatal == q.fatal && r.fatalReported == q.fatalReported && r.burst == q.burst
  {
    RetainShrinks(c, q.control);
    RetainOfConcat(before + [e], after);
    RetainOfConcat(before, [e]);
    assert Retain([e]) == if Passing(e) then [] else [e];
    hide Size;
  }
}

/** The bounded event queue of `events.rs`: three lanes, shared byte budgets, a burst-limited scheduler. */
module EventQueue {
  import opened Wrappers

  const USIZE_MAX := 0xFFFF_FFFF_FFFF_FFFF
  const CONTROL_CAPACITY := 64
  const MAX_BURST := 8

  type Usize = n: nat | n <= USIZE_MAX

  function SatAdd(a: Usize, b: Usize): Usize { if a + b > USIZE_MAX then USIZE_MAX else a + b }

  function SatSub(a: Usize, b: Usize): Usize { if a < b then 0 else a - b }

  datatype Kind = ControlKind | DataKind | StderrKind
  datatype Priority = Control | Data

  /** A frame as the queue sees it: the length of its encoding, when it encodes, and whether its method is terminal. */
  datatype Frame = Frame(name: string, encoded: Option<Usize>, terminal: bool)

  datatype Event =
    | ServerRequest(frame: Frame) | Notification(frame: Frame)
    | StderrLine(line: string, length: Usize) | StderrTruncated
    | ResponseRejected(reason: string) | ProtocolFault(fault: string)
    | WriterTimedOut | HandshakeFailed | Eof
    | QueueOverflow(kind: Kind) | QueueFatalOverflow(kind: Kind)
    | ProcessExited(generation: nat, code: Option<int>)

  datatype Config = Config(dataCapacity: nat, maxDataBytes: Usize, maxControlBytes: Usize, maxFrameBytes: Usize)

  /** Budgets leave room above them, as the negotiated limits and the 64 MiB data budget do. */
  ghost predicate ValidConfig(c: Config) { c.maxDataBytes < USIZE_MAX && c.maxControlBytes < USIZE_MAX }

  function Size(c: Config, e: Event): Usize {
    match e
    case ServerRequest(f) => (match f.encoded case Some(n) => n case None => SatAdd(c.maxFrameBytes, 1))
    case Notification(f) => (match f.encoded case Some(n) => n case None => SatAdd(c.maxFrameBytes, 1))
    case StderrLine(_, n) => n
    case ProtocolFault(_) => 128
    case _ => 64
  }

  predicate Terminal(e: Event) {
    || e.ProtocolFault? || e.WriterTimedOut? || e.HandshakeFailed? || e.Eof? || e.QueueFatalOverflow?
    || e.ProcessExited? || e.ResponseRejected? || (e.Notification? && e.frame.terminal)
  }

  datatype Queue = Queue(
    server: seq<Event>, data: seq<Event>, control: seq<Event>,
    serverBytes: Usize, dataBytes: Usize, controlBytes: Usize,
    fatal: Option<Kind>, fatalReported: bool, overflowReported: bool, burst: Usize, closed: bool)

  const EmptyQueue := Queue([], [], [], 0, 0, 0, None, false, false, 0, false)

  // ---- Operations ----------------------------------------------------------------------

  /** The lane an event of this priority goes to is full in count or in shared bytes. */
  predicate Refused(c: Config, q: Queue, e: Event, p: Priority) {
    var length := if e.ServerRequest? then |q.server| else if p == Control then |q.control| else |q.data|;
    var capacity := if p == Control then CONTROL_CAPACITY else c.dataCapacity;
    var bytes := if p == Control then SatAdd(q.serverBytes, q.controlBytes) else q.dataBytes;
    var limit := if p == Control then c.maxControlBytes else c.maxDataBytes;
    length >= capacity || SatAdd(bytes, Size(c, e)) > limit
  }

  predicate NoticeFits(c: Config, q: Queue, notice: Event) {
    |q.control| < CONTROL_CAPACITY
    && SatAdd(SatAdd(q.serverBytes, q.controlBytes), Size(c, notice)) <= c.maxControlBytes
  }

  /** A refused data event publishes one notice in the queue's life; a refused control event is fatal. */
  function Overflow(c: Config, q: Queue, p: Priority, kind: Kind): Queue {
    if p == Control then q.(fatal := if q.fatal.None? then Some(kind) else q.fatal)
    else if q.overflowReported then q
    else
      var notice := QueueOverflow(kind);
      if NoticeFits(c, q, notice)
      then q.(overflowReported := true, control := q.control + [notice],
           controlBytes := SatAdd(q.controlBytes, Size(c, notice)))
      else q.(overflowReported := true, fatal := if q.fatal.None? then Some(ControlKind) else q.fatal)
  }

  function Enqueue(c: Config, q: Queue, e: Event, p: Priority): Queue {
    if e.ServerRequest? then q.(server := q.server + [e], serverBytes := SatAdd(q.serverBytes, Size(c, e)))
    else if p == Control then q.(control := q.control + [e], controlBytes := SatAdd(q.controlBytes, Size(c, e)))
    else q.(data := q.data + [e], dataBytes := SatAdd(q.dataBytes, Size(c, e)))
  }

  function Push(c: Config, q: Queue, e: Event, p: Priority, kind: Kind): Queue {
    if Refused(c, q, e, p) then Overflow(c, q, p, kind) else Enqueue(c, q, e, p)
  }

  /** Where one pass of `pop` takes its event from. */
  datatype Source = FromFatal | FromServer | FromControl | FromData | FromNowhere

  function PopSource(q: Queue): Source {
    if q.fatal.Some? && !q.fatalReported then FromFatal
    else if q.burst >= MAX_BURST && |q.data| > 0 then FromData
    else if |q.server| > 0 then FromServer
    else if |q.control| > 0 then FromControl
    else if |q.data| > 0 then FromData
    else FromNowhere
  }

  /** One pass of the `pop` loop; the pending fatal kind is taken whether or not it is reported. */
  function Pop(c: Config, q: Queue): (Queue, Option<Event>) {
    var taken := q.(fatal := None);
    match PopSource(q)
    case FromFatal => (taken.(fatalReported := true), Some(QueueFatalOverflow(q.fatal.value)))
    case FromServer =>
      (taken.(server := q.server[1..], serverBytes := SatSub(q.serverBytes, Size(c, q.server[0])),
       burst := SatAdd(q.burst, 1)), Some(q.server[0]))
    case FromControl =>
      (taken.(control := q.control[1..], controlBytes := SatSub(q.controlBytes, Size(c, q.control[0])),
       burst := SatAdd(q.burst, 1)), Some(q.control[0]))
    case FromData =>
      (taken.(data := q.data[1..], dataBytes := SatSub(q.dataBytes, Size(c, q.data[0])), burst := 0), Some(q.data[0]))
    case FromNowhere => (taken, None)
  }

  /** One pass of `pop_server_request`; a front event of another kind would be lost. */
  function PopServer(c: Config, q: Queue): (Queue, Option<Frame>) {
    if |q.server| == 0 then (q, None)
    else if !q.server[0].ServerRequest? then (q.(server := q.server[1..]), None)
    else (q.(server := q.server[1..], serverBytes := SatSub(q.serverBytes, Size(c, q.server[0])),
          burst := SatAdd(q.burst, 1)), Some(q.server[0].frame))
  }

  function Retain(lane: seq<Event>): seq<Event> {
    if |lane| == 0 then []
    else (if Terminal(lane[0]) then [lane[0]] else []) + Retain(lane[1..])
  }

  /** Exact byte total of a lane. */
  function Total(c: Config, lane: seq<Event>): nat {
    if |lane| == 0 then 0 else Size(c, lane[0]) + Total(c, lane[1..])
  }

  function Close(c: Config, q: Queue): Queue {
    var kept := Retain(q.control);
    var total := Total(c, kept);
    q.(closed := true, server := [], serverBytes := 0, data := [], dataBytes := 0, control := kept,
    controlBytes := if total > USIZE_MAX then USIZE_MAX else total)
  }

  // ---- Byte accounting -----------------------------------------------------------------

  /** The counter of a lane is its exact byte total, and the lane holds only its own kind of event. */
  ghost predicate LaneOk(c: Config, lane: seq<Event>, bytes: nat, requests: bool) {
    bytes == Total(c, lane) && forall e :: e in lane ==> e.ServerRequest? == requests
  }

  ghost predicate Inv(c: Config, q: Queue) {
    && LaneOk(c, q.server, q.serverBytes, true)
    && LaneOk(c, q.control, q.controlBytes, false)
    && LaneOk(c, q.data, q.dataBytes, false)
    && |q.server| <= CONTROL_CAPACITY && |q.control| <= CONTROL_CAPACITY && |q.data| <= c.dataCapacity
    && q.serverBytes + q.controlBytes <= c.maxControlBytes && q.dataBytes <= c.maxDataBytes
  }

  lemma {:induction false} TotalOfAppend(c: Config, lane: seq<Event>, e: Event)
    ensures Total(c, lane + [e]) == Total(c, lane) + Size(c, e)
  {
    if |lane| == 0 {
      assert lane + [e] == [e];
    } else {
      TotalOfAppend(c, lane[1..], e);
      assert (lane + [e])[1..] == lane[1..] + [e];
    }
  }

  lemma {:induction false} RetainShrinks(c: Config, lane: seq<Event>)
    ensures |Retain(lane)| <= |lane| && Total(c, Retain(lane)) <= Total(c, lane)
    ensures forall e :: e in Retain(lane) <==> e in lane && Terminal(e)
  {
    if |lane| > 0 {
      RetainShrinks(c, lane[1..]);
      var rest := Retain(lane[1..]);
      if Terminal(lane[0]) {
        assert ([lane[0]] + rest)[1..] == rest;
      } else {
        assert [] + rest == rest;
      }
    }
  }

  /** Server requests are only ever pushed with Control priority. */
  predicate RoutedRight(e: Event, p: Priority) { e.ServerRequest? ==> p == Control }

  lemma LanePush(c: Config, lane: seq<Event>, bytes: nat, requests: bool, e: Event)
    requires LaneOk(c, lane, bytes, requests) && e.ServerRequest? == requests
    ensures LaneOk(c, lane + [e], bytes + Size(c, e), requests)
  {
    TotalOfAppend(c, lane, e);
  }

  lemma LanePop(c: Config, lane: seq<Event>, bytes: Usize, requests: bool)
    requires LaneOk(c, lane, bytes, requests) && |lane| > 0
    ensures LaneOk(c, lane[1..], SatSub(bytes, Size(c, lane[0])), requests) && lane[0].ServerRequest? == requests
  {
    assert lane[0] in lane;
  }

  /** Sums never reach the top of the machine word, so the saturating additions are exact. */
  lemma PushKeepsInv(c: Config, q: Queue, e: Event, p: Priority, kind: Kind)
    requires ValidConfig(c) && Inv(c, q) && RoutedRight(e, p)
    ensures Inv(c, Push(c, q, e, p, kind))
  {
    hide LaneOk, Size;
    if Refused(c, q, e, p) {
      LanePush(c, q.control, q.controlBytes, false, QueueOverflow(kind));
    } else if e.ServerRequest? {
      LanePush(c, q.server, q.serverBytes, true, e);
    } else if p == Control {
      LanePush(c, q.control, q.controlBytes, false, e);
    } else {
      LanePush(c, q.data, q.dataBytes, false, e);
    }
  }

  lemma PopKeepsInv(c: Config, q: Queue)
    requires Inv(c, q)
    ensures Inv(c, Pop(c, q).0)
  {
    hide LaneOk, Size;
    match PopSource(q)
    case FromServer => LanePop(c, q.server, q.serverBytes, true);
    case FromControl => LanePop(c, q.control, q.controlBytes, false);
    case FromData => LanePop(c, q.data, q.dataBytes, false);
    case _ =>
  }

  lemma PopServerKeepsInv(c: Config, q: Queue)
    requires Inv(c, q)
    ensures Inv(c, PopServer(c, q).0)
  {
    hide LaneOk, Size;
    if |q.server| > 0 {
      LanePop(c, q.server, q.serverBytes, true);
    }
  }

  lemma CloseKeepsInv(c: Config, q: Queue)
    requires Inv(c, q)
    ensures Inv(c, Close(c, q))
  {
    RetainShrinks(c, q.control);
  }

  // ---- The queue object ----------------------------------------------------------------

  class EventQueue {
    const config: Config
    var server: seq<Event>
    var data: seq<Event>
    var control: seq<Event>
    var serverBytes: Usize
    var dataBytes: Usize
    var controlBytes: Usize
    var fatal: Option<Kind>
    var fatalReported: bool
    var overflowReported: bool
    var burst: Usize
    var closed: bool

    ghost function View(): Queue
      reads this
    {
      Queue(server, data, control, serverBytes, dataBytes, controlBytes, fatal, fatalReported, overflowReported, burst,
          closed)
    }

    constructor (config: Config)
      ensures View() == EmptyQueue && this.config == config
    {
      this.config := config;
      server, data, control := [], [], [];
      serverBytes, dataBytes, controlBytes := 0, 0, 0;
      fatal, fatalReported, overflowReported, burst, closed := None, false, false, 0, false;
    }

    /** The refused branch of `push`. */
    method Overflowed(p: Priority, kind: Kind)
      modifies this`overflowReported, this`fatal, this`control, this`controlBytes
      ensures View() == Overflow(config, old(View()), p, kind)
    {
      if p == Control {
        if fatal.None? {
          fatal := Some(kind);
        }
        return;
      }
      if overflowReported {
        return;
      }
      overflowReported := true;
      var notice := QueueOverflow(kind);
      var noticeBytes := Size(config, notice);
      if |control| >= CONTROL_CAPACITY
         || SatAdd(SatAdd(serverBytes, controlBytes), noticeBytes) > config.maxControlBytes {
        if fatal.None? {
          fatal := Some(ControlKind);
        }
      } else {
        control := control + [notice];
        controlBytes := SatAdd(controlBytes, noticeBytes);
      }
    }

    method PushEvent(e: Event, p: Priority, kind: Kind)
      modifies this
      ensures View() == Push(config, old(View()), e, p, kind)
    {
      hide Overflow;
      var bytes := Size(config, e);
      var capacity := if p == Control then CONTROL_CAPACITY else config.dataCapacity;
      var length := if p == Control then |control| else |data|;
      if e.ServerRequest? {
        length := |server|;
      }
      var queued := if p == Control then SatAdd(serverBytes, controlBytes) else dataBytes;
      var limit := if p == Control then config.maxControlBytes else config.maxDataBytes;
      hide Size, SatAdd;
      if length >= capacity || SatAdd(queued, bytes) > limit {
        assert Refused(config, View(), e, p);
        Overflowed(p, kind);
      } else if e.ServerRequest? {
        server := server + [e];
        serverBytes := SatAdd(serverBytes, bytes);
      } else if p == Control {
        control := control + [e];
        controlBytes := SatAdd(controlBytes, bytes);
      } else {
        data := data + [e];
        dataBytes := SatAdd(dataBytes, bytes);
      }
    }

    /** One pass of the waiting loop under the state lock. */
    method PopPass() returns (result: Option<Event>)
      modifies this
      ensures (View(), result) == Pop(config, old(View()))
    {
      var pending := fatal;
      fatal := None;
      if pending.Some? && !fatalReported {
        fatalReported := true;
        return Some(QueueFatalOverflow(pending.value));
      }
      if burst >= MAX_BURST && |data| > 0 {
        result := Some(data[0]);
        dataBytes := SatSub(dataBytes, Size(config, data[0]));
        data := data[1..];
        burst := 0;
        return;
      }
      if |server| > 0 {
        result := Some(server[0]);
        serverBytes := SatSub(serverBytes, Size(config, server[0]));
        server := server[1..];
        burst := SatAdd(burst, 1);
        return;
      }
      if |control| > 0 {
        result := Some(control[0]);
        controlBytes := SatSub(controlBytes, Size(config, control[0]));
        control := control[1..];
        burst := SatAdd(burst, 1);
        return;
      }
      if |data| > 0 {
        result := Some(data[0]);
        dataBytes := SatSub(dataBytes, Size(config, data[0]));
        data := data[1..];
        burst := 0;
        return;
      }
      return None;
    }

    method PopServerPass() returns (result: Option<Frame>)
      modifies this
      ensures (View(), result) == PopServer(config, old(View()))
    {
      if |server| == 0 {
        return None;
      }
      var front := server[0];
      server := server[1..];
      if !front.ServerRequest? {
        return None;
      }
      serverBytes := SatSub(serverBytes, Size(config, front));
      burst := SatAdd(burst, 1);
      return Some(front.frame);
    }

    method CloseQueue()
      modifies this
      ensures View() == Close(config, old(View()))
    {
      closed := true;
      server, serverBytes, data, dataBytes := [], 0, [], 0;
      var total: nat;
      control, total := RetainTerminal(config, control);
      controlBytes := if total > USIZE_MAX then USIZE_MAX else total;
    }
  }

  method RetainTerminal(c: Config, lane: seq<Event>) returns (kept: seq<Event>, total: nat)
    ensures kept == Retain(lane) && total == Total(c, kept)
  {
    kept, total := [], 0;
    for k := 0 to |lane|
      invariant Retain(lane) == kept + Retain(lane[k..])
      invariant total == Total(c, kept)
    {
      assert lane[k..][1..] == lane[k + 1..];
      if Terminal(lane[k]) {
        TotalOfAppend(c, kept, lane[k]);
        assert kept + ([lane[k]] + Retain(lane[k + 1..])) == kept + [lane[k]] + Retain(lane[k + 1..]);
        kept := kept + [lane[k]];
        total := total + Size(c, lane[k]);
      } else {
        assert [] + Retain(lane[k + 1..]) == Retain(lane[k + 1..]);
      }
    }
    assert kept + [] == kept;
  }
}

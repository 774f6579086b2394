/**
 * The client's ready handshake (`handshake.ts`): an immutable projection with its private metadata, the
 * transition between projections, and the object that owns the current one.
 */
module Handshake {
  import opened Wrappers
  import opened Seqs
  import TokenMarkers

  type Token = string
  type Fingerprint = string

  const MAX_TOKEN_HISTORY := 64

  datatype Phase = Disconnected | AwaitingInitialized | AwaitingReady | Ready | ReconnectRequired

  datatype Status = Starting | ReadyStatus | Degraded | ShuttingDown | Stopped | Crashed

  predicate Ends(status: Status) { status == Stopped || status == Crashed }

  /** The public fields and the metadata kept beside them; `failed` is the stable handshake error. */
  datatype Projection = Projection(phase: Phase, generation: nat, failed: bool, expected: Option<Fingerprint>,
      used: seq<Fingerprint>)

  const FreshProjection := Projection(AwaitingInitialized, 0, false, None, [])

  datatype Signal = Initialized(token: Token) | Runtime(status: Status, echo: Option<Token>)

  predicate ValidToken(token: Token) { TokenMarkers.ValidReadyToken(token) }

  function WithFailure(s: Projection): Projection { s.(phase := ReconnectRequired, failed := true) }

  /** `transitionHandshake`: anything out of order or without its challenge fails closed. */
  function Transition(fp: Token -> Fingerprint, s: Projection, signal: Signal): Projection {
    if s.phase == Disconnected || s.phase == ReconnectRequired then WithFailure(s)
    else match signal
      case Initialized(token) =>
        if !ValidToken(token) || s.phase != AwaitingInitialized || fp(token) in s.used then WithFailure(s)
        else Projection(AwaitingReady, s.generation + 1, false, Some(fp(token)),
            LastN(s.used + [fp(token)], MAX_TOKEN_HISTORY))
      case Runtime(status, echo) =>
        if status == ReadyStatus then
          if s.phase != AwaitingReady || echo == None || !ValidToken(echo.value) || s.expected != Some(fp(echo.value))
              then WithFailure(s)
          else s.(phase := Ready, failed := false)
        else if echo.Some? then WithFailure(s)
        else if Ends(status) then
          if s.phase == AwaitingReady then WithFailure(s)
          else Projection(AwaitingInitialized, s.generation, false, None, s.used)
        else s
  }

  /** The object's state: the projection and the fingerprint it holds on its own. */
  datatype Owner = Owner(projection: Projection, expected: Option<Fingerprint>)

  const FreshOwner := Owner(FreshProjection, None)

  function Failed(o: Owner): Owner { Owner(WithFailure(o.projection), None) }

  function Started(o: Owner): Owner {
    Owner(Projection(AwaitingInitialized, o.projection.generation, false, None, o.projection.used), None)
  }

  function Dropped(o: Owner): Owner {
    Owner(Projection(Disconnected, o.projection.generation, false, None, o.projection.used), None)
  }

  function AfterInitialized(fp: Token -> Fingerprint, o: Owner, token: Token): Owner {
    var next := Transition(fp, o.projection, Initialized(token));
    if !ValidToken(token) || next.phase != AwaitingReady then Failed(o) else Owner(next, Some(fp(token)))
  }

  function AfterStatus(fp: Token -> Fingerprint, o: Owner, status: Status, echo: Option<Token>): Owner {
    if status == ReadyStatus && (echo == None || !ValidToken(echo.value) || Some(fp(echo.value)) != o.expected)
        then Failed(o)
    else
      var next := Transition(fp, o.projection, Runtime(status, echo));
      if next.phase == ReconnectRequired then Failed(o)
      else Owner(next, if Ends(status) then None else o.expected)
  }

  class ReadyHandshake {
    var projection: Projection
    var expectedFingerprint: Option<Fingerprint>
    const fingerprint: Token -> Fingerprint

    ghost function View(): Owner
      reads this
    {
      Owner(projection, expectedFingerprint)
    }

    constructor (fingerprint: Token -> Fingerprint)
      ensures View() == FreshOwner && this.fingerprint == fingerprint
    {
      projection, expectedFingerprint := FreshProjection, None;
      this.fingerprint := fingerprint;
    }

    method Start()
      modifies this
      ensures View() == Started(old(View()))
    {
      var used := projection.used;
      expectedFingerprint := None;
      projection := Projection(AwaitingInitialized, projection.generation, false, None, used);
    }

    method Disconnect()
      modifies this
      ensures View() == Dropped(old(View()))
    {
      var used := projection.used;
      expectedFingerprint := None;
      projection := Projection(Disconnected, projection.generation, false, None, used);
    }

    method Fail()
      modifies this
      ensures View() == Failed(old(View()))
    {
      expectedFingerprint := None;
      projection := WithFailure(projection);
    }

    method AcceptInitialized(token: Token)
      modifies this
      ensures View() == AfterInitialized(fingerprint, old(View()), token)
    {
      if !ValidToken(token) {
        Fail();
        return;
      }
      var next := Transition(fingerprint, projection, Initialized(token));
      if next.phase != AwaitingReady {
        Fail();
        return;
      }
      expectedFingerprint := Some(fingerprint(token));
      projection := next;
    }

    method AcceptRuntimeStatus(status: Status, echo: Option<Token>)
      modifies this
      ensures View() == AfterStatus(fingerprint, old(View()), status, echo)
    {
      if status == ReadyStatus {
        if echo == None || !ValidToken(echo.value) || Some(fingerprint(echo.value)) != expectedFingerprint {
          Fail();
          return;
        }
      }
      var next := Transition(fingerprint, projection, Runtime(status, echo));
      if next.phase == ReconnectRequired {
        Fail();
        return;
      }
      projection := next;
      if Ends(status) {
        expectedFingerprint := None;
      }
    }
  }

  // ---- Every run of the object ---------------------------------------------------------------

  datatype Act = Start | Disconnect | Fail | AcceptInitialized(token: Token)
      | AcceptStatus(status: Status, echo: Option<Token>)

  function Perform(fp: Token -> Fingerprint, o: Owner, act: Act): Owner {
    match act
    case Start => Started(o)
    case Disconnect => Dropped(o)
    case Fail => Failed(o)
    case AcceptInitialized(token) => AfterInitialized(fp, o, token)
    case AcceptStatus(status, echo) => AfterStatus(fp, o, status, echo)
  }

  /** The challenges admitted by a call, one per admission. */
  function Admitted(fp: Token -> Fingerprint, o: Owner, act: Act): seq<Fingerprint> {
    if act.AcceptInitialized? && Perform(fp, o, act).projection.phase == AwaitingReady then [fp(act.token)] else []
  }

  /** The owner's state against the whole history of admitted challenges. */
  ghost predicate Tracks(o: Owner, history: seq<Fingerprint>) {
    && o.projection.used == LastN(history, MAX_TOKEN_HISTORY)
    && o.projection.generation == |history|
    && (o.projection.phase == AwaitingReady || o.projection.phase == Ready ==>
          |history| > 0 && o.expected == o.projection.expected == Some(history[|history| - 1]))
    && (o.projection.phase == AwaitingInitialized ==> o.expected == None)
    && (o.projection.failed <==> o.projection.phase == ReconnectRequired)
  }

  ghost predicate WindowDistinct(history: seq<Fingerprint>) {
    forall i, j :: 0 <= i < j < |history| && j - i <= MAX_TOKEN_HISTORY ==> history[i] != history[j]
  }

  lemma PerformTracks(fp: Token -> Fingerprint, o: Owner, act: Act, history: seq<Fingerprint>)
    requires Tracks(o, history) && WindowDistinct(history)
    ensures Tracks(Perform(fp, o, act), history + Admitted(fp, o, act))
    ensures WindowDistinct(history + Admitted(fp, o, act))
    ensures Perform(fp, o, act).projection.phase == Ready && o.projection.phase != Ready ==>
              act.AcceptStatus? && act.echo.Some? && |history| > 0 && fp(act.echo.value) == history[|history| - 1]
              && o.projection.phase == AwaitingReady
  {
    hide ValidToken;
    if Admitted(fp, o, act) != [] {
      var token := act.token;
      assert fp(token) !in o.projection.used;
      assert Perform(fp, o, act).projection.used == LastN(o.projection.used + [fp(token)], MAX_TOKEN_HISTORY);
      LastNOfAppend(history, fp(token), MAX_TOKEN_HISTORY);
      NotInWindow(history, fp(token));
    } else {
      assert history + [] == history;
    }
  }

  lemma NotInWindow(history: seq<Fingerprint>, f: Fingerprint)
    requires WindowDistinct(history) && f !in LastN(history, MAX_TOKEN_HISTORY)
    ensures WindowDistinct(history + [f])
  {
    var longer := history + [f];
    forall i | 0 <= i < |history| && |history| - i <= MAX_TOKEN_HISTORY
      ensures history[i] != f
    {
      var window := LastN(history, MAX_TOKEN_HISTORY);
      assert history[i] == window[i - (|history| - |window|)];
    }
  }

  function RunActs(fp: Token -> Fingerprint, o: Owner, acts: seq<Act>): Owner {
    if |acts| == 0 then o else Perform(fp, RunActs(fp, o, acts[..|acts| - 1]), acts[|acts| - 1])
  }

  function History(fp: Token -> Fingerprint, o: Owner, acts: seq<Act>): seq<Fingerprint> {
    if |acts| == 0 then []
    else History(fp, o, acts[..|acts| - 1]) + Admitted(fp, RunActs(fp, o, acts[..|acts| - 1]), acts[|acts| - 1])
  }

  /**
   * In every run, with starts and disconnects anywhere: the kept history is the last 64 admitted challenges,
   * no challenge is admitted again while it is among them, the generation counts the admissions, and a
   * waiting or ready owner expects exactly the latest one.
   */
  lemma {:induction false} RunTracksHistory(fp: Token -> Fingerprint, acts: seq<Act>)
    ensures Tracks(RunActs(fp, FreshOwner, acts), History(fp, FreshOwner, acts))
    ensures WindowDistinct(History(fp, FreshOwner, acts))
    decreases |acts|
  {
    if |acts| > 0 {
      var before := acts[..|acts| - 1];
      RunTracksHistory(fp, before);
      PerformTracks(fp, RunActs(fp, FreshOwner, before), acts[|acts| - 1], History(fp, FreshOwner, before));
    }
  }
}

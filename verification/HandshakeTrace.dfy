/**
 * The offline trace validator (`validate_handshake_sequence` of `validate.py`) against the client's online
 * handshake: both accept the well-ordered traces, and differ only in how far back they remember a challenge.
 */
module HandshakeTrace {
  import opened Wrappers
  import opened Seqs
  import H = Handshake

  type Token = H.Token

  /** A frame of a trace; `Other` is any method that is no part of the handshake. */
  datatype Frame = Initialized(token: Token) | Runtime(status: H.Status, echo: Option<Token>) | Other

  // ---- Offline ---------------------------------------------------------------------------

  /** The validator's variables. */
  datatype Audit = Audit(expected: Option<Token>, readySeen: bool, ended: bool, used: set<Token>, initializedSeen: bool)

  const FreshAudit := Audit(None, false, false, {}, false)

  /** `finish_generation` raises nothing. */
  predicate Finished(a: Audit) { a.expected == None || a.readySeen }

  /** One pass of the loop; nothing when it raises. */
  function AuditStep(a: Audit, frame: Frame): Option<Audit> {
    match frame
    case Initialized(token) =>
      if a.expected.Some? && (!a.ended || !Finished(a)) then None
      else if token in a.used then None
      else Some(Audit(Some(token), false, false, a.used + {token}, true))
    case Runtime(status, echo) =>
      if status != H.ReadyStatus then
        if echo.Some? then None
        else if H.Ends(status) then if Finished(a) then Some(a.(ended := true)) else None
        else Some(a)
      else if a.expected == None || a.ended || a.readySeen || echo != a.expected then None
      else Some(a.(readySeen := true))
    case Other => Some(a)
  }

  function AuditRun(a: Audit, frames: seq<Frame>): Option<Audit>
    decreases |frames|
  {
    if |frames| == 0 then Some(a)
    else
      var next := AuditStep(a, frames[0]);
      if next == None then None else AuditRun(next.value, frames[1..])
  }

  predicate OfflineAccepts(frames: seq<Frame>) {
    var end := AuditRun(FreshAudit, frames);
    end.Some? && end.value.initializedSeen && Finished(end.value)
  }

  /** `validate_handshake_sequence`: false where the original raises. */
  method ValidateHandshakeSequence(frames: seq<Frame>) returns (accepted: bool)
    ensures accepted == OfflineAccepts(frames)
  {
    if |frames| == 0 {
      return false;
    }
    var expected: Option<Token> := None;
    var readySeen, ended, initializedSeen := false, false, false;
    var used: set<Token> := {};
    var index := 0;
    while index < |frames|
      invariant index <= |frames|
      invariant AuditRun(FreshAudit, frames)
                == AuditRun(Audit(expected, readySeen, ended, used, initializedSeen), frames[index..])
    {
      var frame := frames[index];
      assert frames[index..][0] == frame && frames[index..][1..] == frames[index + 1..];
      index := index + 1;
      if frame.Initialized? {
        initializedSeen := true;
        if expected.Some? {
          if !ended {
            return false;
          }
          if !readySeen {
            return false;
          }
        }
        if frame.token in used {
          return false;
        }
        expected := Some(frame.token);
        used := used + {frame.token};
        readySeen := false;
        ended := false;
        continue;
      }
      if !frame.Runtime? {
        continue;
      }
      if frame.status != H.ReadyStatus {
        if frame.echo.Some? {
          return false;
        }
        if H.Ends(frame.status) {
          if expected.Some? && !readySeen {
            return false;
          }
          ended := true;
        }
        continue;
      }
      if expected == None || ended || readySeen || frame.echo != expected {
        return false;
      }
      readySeen := true;
    }
    if !initializedSeen {
      return false;
    }
    return expected == None || readySeen;
  }

  // ---- Online ----------------------------------------------------------------------------

  function Feed(fp: Token -> H.Fingerprint, o: H.Owner, frame: Frame): H.Owner {
    match frame
    case Initialized(token) => H.AfterInitialized(fp, o, token)
    case Runtime(status, echo) => H.AfterStatus(fp, o, status, echo)
    case Other => o
  }

  function FeedAll(fp: Token -> H.Fingerprint, o: H.Owner, frames: seq<Frame>): H.Owner
    decreases |frames|
  {
    if |frames| == 0 then o else FeedAll(fp, Feed(fp, o, frames[0]), frames[1..])
  }

  /** No prefix of the trace reaches the failure phase. */
  predicate NeverFails(fp: Token -> H.Fingerprint, o: H.Owner, frames: seq<Frame>)
    decreases |frames|
  {
    && o.projection.phase != H.ReconnectRequired
    && (|frames| > 0 ==> NeverFails(fp, Feed(fp, o, frames[0]), frames[1..]))
  }

  /** A fresh handshake fed the trace never fails, is not left waiting, and saw a challenge. */
  predicate OnlineAccepts(fp: Token -> H.Fingerprint, frames: seq<Frame>) {
    && NeverFails(fp, H.FreshOwner, frames)
    && FeedAll(fp, H.FreshOwner, frames).projection.phase != H.AwaitingReady
    && |Challenges(frames)| > 0
  }

  // ---- The order both enforce ------------------------------------------------------------

  function Challenge(frame: Frame): seq<Token> { if frame.Initialized? then [frame.token] else [] }

  /** The challenges of a trace, in order. */
  function Challenges(frames: seq<Frame>): seq<Token> {
    if |frames| == 0 then [] else Challenge(frames[0]) + Challenges(frames[1..])
  }

  datatype Order = Idle | Waiting(token: Token) | Live(token: Token) | Broken

  function OrderStep(order: Order, frame: Frame): Order {
    match frame
    case Initialized(token) => if order == Idle then Waiting(token) else Broken
    case Runtime(status, echo) =>
      if order == Broken then Broken
      else if status == H.ReadyStatus then
        if order.Waiting? && echo == Some(order.token) then Live(order.token) else Broken
      else if echo.Some? then Broken
      else if !H.Ends(status) then order
      else if order.Waiting? then Broken
      else Idle
    case Other => order
  }

  function OrderRun(order: Order, frames: seq<Frame>): Order
    decreases |frames|
  {
    if |frames| == 0 then order else OrderRun(OrderStep(order, frames[0]), frames[1..])
  }

  /** One challenge per generation, echoed by exactly one ready before the generation ends. */
  predicate WellOrdered(frames: seq<Frame>) {
    |Challenges(frames)| > 0 && (OrderRun(Idle, frames) == Idle || OrderRun(Idle, frames).Live?)
  }

  /** No challenge repeats one of the `n` before it. */
  ghost predicate DistinctWithin(s: seq<Token>, n: nat) {
    forall i, j :: 0 <= i < j < |s| && j - i <= n ==> s[i] != s[j]
  }

  lemma {:induction false} BrokenStays(frames: seq<Frame>)
    ensures OrderRun(Broken, frames) == Broken
  {
    if |frames| > 0 {
      BrokenStays(frames[1..]);
    }
  }

  /** Extending a distinct history by a challenge: distinct again unless it is still in the window. */
  lemma ExtendDistinct(past: seq<Token>, token: Token, n: nat)
    requires DistinctWithin(past, n)
    ensures DistinctWithin(past + [token], n) <==> token !in LastN(past, n)
  {
    var window := LastN(past, n);
    var longer := past + [token];
    if token in window {
      var k :| 0 <= k < |window| && window[k] == token;
      var i := |past| - |window| + k;
      assert longer[i] == longer[|past|];
    } else {
      forall i | 0 <= i < |past| && |past| - i <= n
        ensures past[i] != token
      {
        assert past[i] == window[i - (|past| - |window|)];
      }
    }
  }

  lemma PrefixDistinct(past: seq<Token>, rest: seq<Token>, n: nat)
    requires DistinctWithin(past + rest, n)
    ensures DistinctWithin(past, n)
  {
    var all := past + rest;
    forall i, j | 0 <= i < j < |past| && j - i <= n
      ensures past[i] != past[j]
    {
      assert all[i] == past[i] && all[j] == past[j];
    }
  }

  // ---- Offline is order and global distinctness ------------------------------------------

  ghost predicate AuditMatches(a: Audit, order: Order, past: seq<Token>) {
    && (forall t :: t in a.used <==> t in past)
    && (a.initializedSeen <==> |past| > 0)
    && match order
       case Idle => a.expected == None || (a.readySeen && a.ended)
       case Waiting(t) => a.expected == Some(t) && !a.readySeen && !a.ended
       case Live(t) => a.expected == Some(t) && a.readySeen && !a.ended
       case Broken => false
  }

  /** A pass of the loop raises exactly on a broken order or on a challenge seen before. */
  lemma AuditStepMatches(a: Audit, order: Order, past: seq<Token>, frame: Frame)
    requires AuditMatches(a, order, past)
    ensures var next := AuditStep(a, frame);
            && (next == None <==> OrderStep(order, frame) == Broken || (frame.Initialized? && frame.token in past))
            && (next.Some? ==> AuditMatches(next.value, OrderStep(order, frame), past + Challenge(frame)))
  {
    assert past + [] == past;
  }

  lemma {:induction false} AuditRunMatches(a: Audit, order: Order, past: seq<Token>, frames: seq<Frame>)
    requires AuditMatches(a, order, past) && Distinct(past)
    ensures var end, last := AuditRun(a, frames), OrderRun(order, frames);
            && (end == None <==> last == Broken || !Distinct(past + Challenges(frames)))
            && (end.Some? ==> AuditMatches(end.value, last, past + Challenges(frames)))
    decreases |frames|
  {
    if |frames| == 0 {
      assert past + [] == past;
    } else {
      hide AuditMatches, AuditStep, OrderStep, Distinct, Challenge;
      var frame, rest := frames[0], frames[1..];
      AuditStepMatches(a, order, past, frame);
      assert past + Challenges(frames) == past + Challenge(frame) + Challenges(rest);
      if OrderStep(order, frame) == Broken {
        BrokenStays(rest);
      } else if frame.Initialized? && frame.token in past {
        RepeatIsNotDistinct(past, frame, Challenges(rest));
      } else {
        ExtendFully(past, frame);
        AuditRunMatches(AuditStep(a, frame).value, OrderStep(order, frame), past + Challenge(frame), rest);
      }
    }
  }

  lemma RepeatIsNotDistinct(past: seq<Token>, frame: Frame, rest: seq<Token>)
    requires frame.Initialized? && frame.token in past
    ensures !Distinct(past + Challenge(frame) + rest)
  {
    var all := past + Challenge(frame) + rest;
    var i :| 0 <= i < |past| && past[i] == frame.token;
    assert all[i] == all[|past|];
  }

  lemma ExtendFully(past: seq<Token>, frame: Frame)
    requires Distinct(past) && (frame.Initialized? ==> frame.token !in past)
    ensures Distinct(past + Challenge(frame))
  {
  }

  /** Offline acceptance, for traces of any length: the order is kept and no challenge is ever used twice. */
  lemma OfflineIff(frames: seq<Frame>)
    ensures OfflineAccepts(frames) <==> WellOrdered(frames) && Distinct(Challenges(frames))
  {
    AuditRunMatches(FreshAudit, Idle, [], frames);
    assert [] + Challenges(frames) == Challenges(frames);
  }

  // ---- Online is order and distinctness within the window --------------------------------

  /** The fingerprint separates the tokens of a trace, all challenges of which are valid. */
  ghost predicate Separates(fp: Token -> H.Fingerprint, tokens: set<Token>) {
    forall a, b :: a in tokens && b in tokens && fp(a) == fp(b) ==> a == b
  }

  ghost predicate Within(frames: seq<Frame>, tokens: set<Token>) {
    forall i :: 0 <= i < |frames| ==>
      && (frames[i].Initialized? ==> H.ValidToken(frames[i].token) && frames[i].token in tokens)
      && (frames[i].Runtime? && frames[i].echo.Some? ==> frames[i].echo.value in tokens)
  }

  function Prints(fp: Token -> H.Fingerprint, past: seq<Token>): seq<H.Fingerprint> {
    seq(|past|, i requires 0 <= i < |past| => fp(past[i]))
  }

  ghost predicate OwnerMatches(fp: Token -> H.Fingerprint, o: H.Owner, order: Order, past: seq<Token>) {
    && o.projection.used == Prints(fp, LastN(past, H.MAX_TOKEN_HISTORY))
    && o.expected == o.projection.expected
    && match order
       case Idle => o.projection.phase == H.AwaitingInitialized
       case Waiting(t) => o.projection.phase == H.AwaitingReady && o.expected == Some(fp(t)) && t in past
           && H.ValidToken(t)
       case Live(t) => o.projection.phase == H.Ready && o.expected == Some(fp(t)) && t in past
       case Broken => false
  }

  /** Whether the client, whose order is not broken, takes a challenge. */
  lemma KnownToWindow(fp: Token -> H.Fingerprint, past: seq<Token>, token: Token, tokens: set<Token>)
    requires Separates(fp, tokens) && token in tokens && (forall t :: t in past ==> t in tokens)
    ensures fp(token) in Prints(fp, LastN(past, H.MAX_TOKEN_HISTORY)) <==> token in LastN(past, H.MAX_TOKEN_HISTORY)
    ensures LastN(Prints(fp, LastN(past, H.MAX_TOKEN_HISTORY)) + [fp(token)], H.MAX_TOKEN_HISTORY)
            == Prints(fp, LastN(past + [token], H.MAX_TOKEN_HISTORY))
  {
    var window := LastN(past, H.MAX_TOKEN_HISTORY);
    var prints := Prints(fp, window);
    forall i | 0 <= i < |window|
      ensures prints[i] == fp(window[i]) && window[i] in past
    {
    }
    if token in window {
      var i :| 0 <= i < |window| && window[i] == token;
      assert prints[i] == fp(token);
    }
    LastNOfAppend(past, token, H.MAX_TOKEN_HISTORY);
    assert prints + [fp(token)] == Prints(fp, window + [token]);
  }

  lemma FeedMatches(fp: Token -> H.Fingerprint, o: H.Owner, order: Order, past: seq<Token>, frame: Frame,
      tokens: set<Token>)
    requires OwnerMatches(fp, o, order, past) && Separates(fp, tokens) && Within([frame], tokens)
    requires forall t :: t in past ==> t in tokens
    ensures var next := Feed(fp, o, frame);
            && (next.projection.phase == H.ReconnectRequired <==>
                  OrderStep(order, frame) == Broken
                      || (frame.Initialized? && frame.token in LastN(past, H.MAX_TOKEN_HISTORY)))
            && (next.projection.phase != H.ReconnectRequired
                ==> OwnerMatches(fp, next, OrderStep(order, frame), past + Challenge(frame)))
  {
    assert frame == [frame][0];
    assert past + [] == past;
    if frame.Initialized? {
      KnownToWindow(fp, past, frame.token, tokens);
    }
  }

  lemma {:induction false} FeedAllMatches(fp: Token -> H.Fingerprint, o: H.Owner, order: Order, past: seq<Token>,
                                          frames: seq<Frame>, tokens: set<Token>)
    requires OwnerMatches(fp, o, order, past) && Separates(fp, tokens) && Within(frames, tokens)
    requires DistinctWithin(past, H.MAX_TOKEN_HISTORY) && forall t :: t in past ==> t in tokens
    ensures var last, all := OrderRun(order, frames), past + Challenges(frames);
            && (NeverFails(fp, o, frames) <==> last != Broken && DistinctWithin(all, H.MAX_TOKEN_HISTORY))
            && (NeverFails(fp, o, frames) ==> OwnerMatches(fp, FeedAll(fp, o, frames), last, all))
    decreases |frames|
  {
    if |frames| == 0 {
      assert past + [] == past;
    } else {
      hide OwnerMatches, Feed, OrderStep, DistinctWithin, Separates, Challenge;
      var frame, rest := frames[0], frames[1..];
      MatchingPhase(fp, o, order, past);
      FeedMatches(fp, o, order, past, frame, tokens);
      assert past + Challenges(frames) == past + Challenge(frame) + Challenges(rest);
      if OrderStep(order, frame) == Broken {
        BrokenStays(rest);
        FailureStays(fp, Feed(fp, o, frame), rest);
      } else {
        ExtendWindow(past, frame, Challenges(rest), tokens);
        if Feed(fp, o, frame).projection.phase == H.ReconnectRequired {
          FailureStays(fp, Feed(fp, o, frame), rest);
        } else {
          FeedAllMatches(fp, Feed(fp, o, frame), OrderStep(order, frame), past + Challenge(frame), rest, tokens);
        }
      }
    }
  }

  lemma MatchingPhase(fp: Token -> H.Fingerprint, o: H.Owner, order: Order, past: seq<Token>)
    requires OwnerMatches(fp, o, order, past)
    ensures o.projection.phase != H.ReconnectRequired && order != Broken
    ensures o.projection.phase == H.AwaitingReady <==> order.Waiting?
  {
  }

  /** A failed handshake stays failed, whatever it is fed. */
  lemma {:induction false} FailureStays(fp: Token -> H.Fingerprint, o: H.Owner, frames: seq<Frame>)
    requires o.projection.phase == H.ReconnectRequired
    ensures FeedAll(fp, o, frames).projection.phase == H.ReconnectRequired && !NeverFails(fp, o, frames)
    decreases |frames|
  {
    if |frames| > 0 {
      FailureStays(fp, Feed(fp, o, frames[0]), frames[1..]);
    }
  }

  lemma ExtendWindow(past: seq<Token>, frame: Frame, rest: seq<Token>, tokens: set<Token>)
    requires DistinctWithin(past, H.MAX_TOKEN_HISTORY) && (frame.Initialized? ==> frame.token in tokens)
    requires forall t :: t in past ==> t in tokens
    ensures forall t :: t in past + Challenge(frame) ==> t in tokens
    ensures DistinctWithin(past + Challenge(frame), H.MAX_TOKEN_HISTORY)
            <==> !(frame.Initialized? && frame.token in LastN(past, H.MAX_TOKEN_HISTORY))
    ensures frame.Initialized? && frame.token in LastN(past, H.MAX_TOKEN_HISTORY) ==>
              !DistinctWithin(past + Challenge(frame) + rest, H.MAX_TOKEN_HISTORY)
  {
    hide DistinctWithin;
    if frame.Initialized? {
      ExtendDistinct(past, frame.token, H.MAX_TOKEN_HISTORY);
      if DistinctWithin(past + Challenge(frame) + rest, H.MAX_TOKEN_HISTORY) {
        PrefixDistinct(past + Challenge(frame), rest, H.MAX_TOKEN_HISTORY);
      }
    } else {
      assert past + [] == past;
    }
  }

  /**
   * Online acceptance, for traces of any length: the order is kept and no challenge repeats one of the 64 before it.
   */
  lemma OnlineIff(fp: Token -> H.Fingerprint, frames: seq<Frame>, tokens: set<Token>)
    requires Separates(fp, tokens) && Within(frames, tokens)
    ensures OnlineAccepts(fp, frames)
            <==> WellOrdered(frames) && DistinctWithin(Challenges(frames), H.MAX_TOKEN_HISTORY)
  {
    FeedAllMatches(fp, H.FreshOwner, Idle, [], frames, tokens);
    assert [] + Challenges(frames) == Challenges(frames);
    if NeverFails(fp, H.FreshOwner, frames) {
      MatchingPhase(fp, FeedAll(fp, H.FreshOwner, frames), OrderRun(Idle, frames), Challenges(frames));
    }
  }

  // ---- Agreement -------------------------------------------------------------------------

  /**
   * Offline acceptance implies online acceptance; the two agree exactly unless a challenge returns from outside the
   * window.
   */
  lemma OfflineAgreesWithOnline(fp: Token -> H.Fingerprint, frames: seq<Frame>, tokens: set<Token>)
    requires Separates(fp, tokens) && Within(frames, tokens)
    ensures OfflineAccepts(frames) ==> OnlineAccepts(fp, frames)
    ensures |Challenges(frames)| <= H.MAX_TOKEN_HISTORY ==> (OfflineAccepts(frames) <==> OnlineAccepts(fp, frames))
    ensures OfflineAccepts(frames) <==> OnlineAccepts(fp, frames) && Distinct(Challenges(frames))
  {
    OfflineIff(frames);
    OnlineIff(fp, frames, tokens);
  }

  // ---- Where they differ -----------------------------------------------------------------

  /** One complete generation: challenge, echo, end. */
  function Generation(token: Token): seq<Frame> {
    [Initialized(token), Runtime(H.ReadyStatus, Some(token)), Runtime(H.Stopped, None)]
  }

  function TraceOf(tokens: seq<Token>): seq<Frame> {
    if |tokens| == 0 then [] else Generation(tokens[0]) + TraceOf(tokens[1..])
  }

  lemma GenerationThen(t: Token, rest: seq<Frame>)
    ensures Challenges(Generation(t) + rest) == [t] + Challenges(rest)
    ensures OrderRun(Idle, Generation(t) + rest) == OrderRun(Idle, rest)
  {
    var frames := Generation(t) + rest;
    var afterFirst := [Runtime(H.ReadyStatus, Some(t)), Runtime(H.Stopped, None)] + rest;
    var afterSecond := [Runtime(H.Stopped, None)] + rest;
    assert frames[1..] == afterFirst && afterFirst[1..] == afterSecond && afterSecond[1..] == rest;
    assert Challenges(afterFirst) == [] + Challenges(afterSecond) && Challenges(afterSecond) == [] + Challenges(rest);
    assert OrderRun(Idle, frames) == OrderRun(Waiting(t), afterFirst);
    assert OrderRun(Waiting(t), afterFirst) == OrderRun(Live(t), afterSecond);
    assert OrderRun(Live(t), afterSecond) == OrderRun(Idle, rest);
  }

  lemma {:induction false} TraceIsOrdered(tokens: seq<Token>)
    ensures Challenges(TraceOf(tokens)) == tokens && OrderRun(Idle, TraceOf(tokens)) == Idle
  {
    if |tokens| > 0 {
      TraceIsOrdered(tokens[1..]);
      GenerationThen(tokens[0], TraceOf(tokens[1..]));
    }
  }

  lemma {:induction false} TraceIsWithin(tokens: seq<Token>, all: set<Token>)
    requires forall t :: t in tokens ==> t in all && H.ValidToken(t)
    ensures Within(TraceOf(tokens), all)
  {
    hide H.ValidToken;
    if |tokens| > 0 {
      TraceIsWithin(tokens[1..], all);
      var first, rest := Generation(tokens[0]), TraceOf(tokens[1..]);
      forall i | 3 <= i < |first + rest|
        ensures (first + rest)[i] == rest[i - 3]
      {
      }
    }
  }

  /** 65 different challenges and then the first one again: the client has forgotten it, the validator has not. */
  lemma LongTracesDisagree(fp: Token -> H.Fingerprint, tokens: seq<Token>)
    requires |tokens| == H.MAX_TOKEN_HISTORY + 1 && Distinct(tokens)
    requires forall t :: t in tokens ==> H.ValidToken(t)
    requires Separates(fp, set t | t in tokens)
    ensures var trace := TraceOf(tokens + [tokens[0]]);
            OnlineAccepts(fp, trace) && !OfflineAccepts(trace)
  {
    hide H.ValidToken, Separates, Within, Distinct, DistinctWithin, OnlineAccepts, OfflineAccepts, TraceOf, Challenges,
         OrderRun;
    var repeated := tokens + [tokens[0]];
    var trace := TraceOf(repeated);
    TraceIsOrdered(repeated);
    TraceIsWithin(repeated, set t | t in tokens);
    RepeatOutsideWindow(tokens);
    OfflineIff(trace);
    OnlineIff(fp, trace, set t | t in tokens);
  }

  lemma RepeatOutsideWindow(tokens: seq<Token>)
    requires |tokens| == H.MAX_TOKEN_HISTORY + 1 && Distinct(tokens)
    ensures DistinctWithin(tokens + [tokens[0]], H.MAX_TOKEN_HISTORY) && !Distinct(tokens + [tokens[0]])
  {
    var repeated := tokens + [tokens[0]];
    assert repeated[0] == repeated[|tokens|];
  }
}

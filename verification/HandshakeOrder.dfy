/**
 * The order of a handshake trace without any automaton: which of its frames open a generation, echo it or close it,
 * and how these have to follow each other. Both the offline validator and the client accept exactly that order.
 */
module HandshakeOrder {
  import opened Wrappers
  import opened Seqs
  import H = Handshake
  import opened HandshakeTrace

  /** A frame that matters for the order. */
  datatype Mark = Opens(token: Token) | Echoes(echo: Option<Token>) | Closes

  /** A challenge opens a generation, ready echoes it, stopped and crashed close it; nothing else counts. */
  function MarkOf(frame: Frame): seq<Mark> {
    match frame
    case Initialized(token) => [Opens(token)]
    case Runtime(ReadyStatus, echo) => [Echoes(echo)]
    case Runtime(Stopped, _) => [Closes]
    case Runtime(Crashed, _) => [Closes]
    case _ => []
  }

  function Marks(frames: seq<Frame>): seq<Mark> {
    if |frames| == 0 then [] else MarkOf(frames[0]) + Marks(frames[1..])
  }

  /** Position `k` is in order with its neighbours. */
  predicate InOrder(marks: seq<Mark>, k: nat)
    requires k < |marks|
  {
    match marks[k]
    case Opens(token) =>
      (k == 0 || marks[k - 1].Closes?) && k + 1 < |marks| && marks[k + 1] == Echoes(Some(token))
    case Echoes(echo) => k > 0 && marks[k - 1].Opens? && echo == Some(marks[k - 1].token)
    case Closes => true
  }

  /** Each challenge comes first or right after a close, and its echo comes right after it and nowhere else. */
  ghost predicate Alternates(marks: seq<Mark>) {
    forall k :: 0 <= k < |marks| ==> InOrder(marks, k)
  }

  /** Only ready carries a challenge back. */
  predicate Stray(frame: Frame) { frame.Runtime? && frame.echo.Some? && frame.status != H.ReadyStatus }

  predicate EchoesOnlyReady(frames: seq<Frame>) { forall i :: 0 <= i < |frames| ==> !Stray(frames[i]) }

  // ---- The automaton decides that order ------------------------------------------------------

  /** What the state of the automaton remembers of the marks so far. */
  function Open(order: Order): seq<Mark> {
    match order
    case Waiting(t) => [Opens(t)]
    case Live(t) => [Opens(t), Echoes(Some(t))]
    case _ => []
  }

  /** After a close everything starts afresh. */
  lemma CloseCuts(before: seq<Mark>, rest: seq<Mark>)
    requires |before| > 0 && before[|before| - 1].Closes?
    ensures Alternates(before + rest) <==> Alternates(before) && Alternates(rest)
  {
    var all, n := before + rest, |before|;
    forall k | 0 <= k < n
      ensures InOrder(all, k) <==> InOrder(before, k)
    {
    }
    forall k | 0 <= k < |rest|
      ensures InOrder(all, n + k) <==> InOrder(rest, k)
    {
    }
    if Alternates(all) {
      forall k | 0 <= k < |rest|
        ensures InOrder(rest, k)
      {
        assert InOrder(all, n + k);
      }
    }
    if Alternates(before) && Alternates(rest) {
      forall k | n <= k < |all|
        ensures InOrder(all, k)
      {
        assert InOrder(rest, k - n);
      }
    }
  }

  /** A mark that does not fit the state spoils the whole sequence, one that fits leads to the next state. */
  lemma MarkFits(order: Order, mark: Mark, rest: seq<Mark>)
    requires order != Broken
    ensures var next := match (order, mark)
                        case (Idle, Opens(t)) => Waiting(t)
                        case (Waiting(t), Echoes(echo)) => if echo == Some(t) then Live(t) else Broken
                        case (Idle, Closes) => Idle
                        case (Live(_), Closes) => Idle
                        case _ => Broken;
            && (next == Broken ==> !Alternates(Open(order) + [mark] + rest))
            && (next != Broken ==> (Alternates(Open(order) + [mark] + rest) <==> Alternates(Open(next) + rest)))
  {
    var before := Open(order) + [mark];
    var all := before + rest;
    var n := |before|;
    if mark.Closes? && !order.Waiting? {
      if order.Live? {
        assert before[0] == Opens(order.token) && before[1] == Echoes(Some(order.token)) && before[2] == Closes;
        assert InOrder(before, 0) && InOrder(before, 1) && InOrder(before, 2);
      }
      CloseCuts(before, rest);
      assert Open(Idle) + rest == rest;
    } else if order == Idle && mark.Opens? {
      assert before == Open(Waiting(mark.token));
    } else if order.Waiting? {
      assert all[0] == Opens(order.token) && all[1] == mark;
      assert InOrder(all, 0) <==> mark == Echoes(Some(order.token));
      assert mark == Echoes(Some(order.token)) ==> before == Open(Live(order.token));
    } else {
      assert all[n - 1] == mark;
      assert !InOrder(all, n - 1);
    }
  }

  lemma UnfinishedIsNoOrder(order: Order)
    ensures order != Broken ==> (Alternates(Open(order)) <==> !order.Waiting?)
  {
    match order
    case Waiting(t) => assert !InOrder(Open(order), 0);
    case Live(t) => assert InOrder(Open(order), 0) && InOrder(Open(order), 1);
    case _ =>
  }

  lemma EchoesOfTail(frames: seq<Frame>)
    requires |frames| > 0
    ensures EchoesOnlyReady(frames) <==>
            EchoesOnlyReady(frames[1..]) && !Stray(frames[0])
  {
    forall i | 1 <= i < |frames|
      ensures frames[i] == frames[1..][i - 1]
    {
    }
    if EchoesOnlyReady(frames) {
      forall i | 0 <= i < |frames[1..]|
        ensures !Stray(frames[1..][i])
      {
        assert !Stray(frames[i + 1]);
      }
    }
  }

  /** One step of the automaton against the marks of its frame. */
  lemma FrameFits(order: Order, frame: Frame, rest: seq<Mark>)
    requires order != Broken
    ensures var next, marks := OrderStep(order, frame), Open(order) + (MarkOf(frame) + rest);
            && (next == Broken ==> Stray(frame) || !Alternates(marks))
            && (next != Broken ==> !Stray(frame) && (Alternates(marks) <==> Alternates(Open(next) + rest)))
  {
    var marks := MarkOf(frame);
    if marks == [] {
      assert [] + rest == rest;
    } else {
      assert Open(order) + (marks + rest) == Open(order) + [marks[0]] + rest;
      MarkFits(order, marks[0], rest);
    }
    hide Alternates, Open;
  }

  lemma {:induction false} OrderIsAlternation(order: Order, frames: seq<Frame>)
    requires order != Broken
    ensures var end := OrderRun(order, frames);
            (end == Idle || end.Live?) <==> EchoesOnlyReady(frames) && Alternates(Open(order) + Marks(frames))
    decreases |frames|
  {
    hide Alternates, EchoesOnlyReady, OrderStep, MarkOf;
    if |frames| == 0 {
      NothingLeft(order, frames);
    } else {
      var frame, rest := frames[0], frames[1..];
      EchoesOfTail(frames);
      FrameFits(order, frame, Marks(rest));
      hide Open, Marks;
      assert Marks(frames) == MarkOf(frame) + Marks(rest) by {
        MarksOfTail(frames);
      }
      if OrderStep(order, frame) == Broken {
        BrokenStays(rest);
      } else {
        OrderIsAlternation(OrderStep(order, frame), rest);
      }
    }
  }

  lemma MarksOfTail(frames: seq<Frame>)
    requires |frames| > 0
    ensures Marks(frames) == MarkOf(frames[0]) + Marks(frames[1..])
  {
  }

  lemma NothingLeft(order: Order, frames: seq<Frame>)
    requires order != Broken && |frames| == 0
    ensures OrderRun(order, frames) == order && EchoesOnlyReady(frames)
    ensures Alternates(Open(order) + Marks(frames)) <==> !order.Waiting?
  {
    assert Open(order) + [] == Open(order);
    UnfinishedIsNoOrder(order);
  }

  /** The automaton's acceptance, said by the sequence of marks alone. */
  lemma WellOrderedIff(frames: seq<Frame>)
    ensures WellOrdered(frames)
            <==> |Challenges(frames)| > 0 && EchoesOnlyReady(frames) && Alternates(Marks(frames))
  {
    OrderIsAlternation(Idle, frames);
    assert Open(Idle) + Marks(frames) == Marks(frames);
  }

  /** What both sides accept: this order, and no challenge twice within what each of them remembers. */
  lemma AcceptanceByMarks(fp: Token -> H.Fingerprint, frames: seq<Frame>, tokens: set<Token>)
    requires Separates(fp, tokens) && Within(frames, tokens)
    ensures var ordered := |Challenges(frames)| > 0 && EchoesOnlyReady(frames) && Alternates(Marks(frames));
            && (OfflineAccepts(frames) <==> ordered && Distinct(Challenges(frames)))
            && (OnlineAccepts(fp, frames) <==> ordered && DistinctWithin(Challenges(frames), 64))
  {
    WellOrderedIff(frames);
    OfflineIff(frames);
    OnlineIff(fp, frames, tokens);
  }

  // ---- Disconnecting and starting again ---------------------------------------------------------

  /** A disconnected or failed client refuses every frame of the handshake and forgets what it expected. */
  lemma NothingPassesWhileDown(fp: Token -> H.Fingerprint, o: H.Owner, frame: Frame)
    requires frame != Other
    ensures var down := H.Perform(fp, o, H.Disconnect);
            Feed(fp, down, frame).projection.phase == H.ReconnectRequired && Feed(fp, down, frame).expected == None
    ensures var failed := H.Perform(fp, o, H.Fail);
            Feed(fp, failed, frame).projection.phase == H.ReconnectRequired && Feed(fp, failed, frame).expected == None
  {
    hide H.ValidToken;
  }

  /**
   * A start at any moment, even in the middle of a handshake or after a failure, begins a new trace, which is judged
   * as from the beginning except that the last 64 challenges still count as used.
   */
  lemma StartBeginsAnew(fp: Token -> H.Fingerprint, o: H.Owner, past: seq<Token>, frames: seq<Frame>,
                        tokens: set<Token>)
    requires o.projection.used == Prints(fp, LastN(past, 64)) && DistinctWithin(past, 64)
    requires Separates(fp, tokens) && Within(frames, tokens) && forall t :: t in past ==> t in tokens
    ensures var anew := H.Perform(fp, o, H.Start);
            && (NeverFails(fp, anew, frames)
                <==> OrderRun(Idle, frames) != Broken && DistinctWithin(past + Challenges(frames), 64))
            && anew.projection.generation == o.projection.generation
  {
    FeedAllMatches(fp, H.Perform(fp, o, H.Start), Idle, past, frames, tokens);
  }
}

/** Whole runs of the reorder buffer: what is kept, what is applied, and convergence whatever the delivery order. */
module ReorderingRuns {
  import opened Wrappers
  import opened Seqs
  import opened Reordering

  // ---- Any run, with snapshots and drains anywhere -----------------------------------------

  datatype Op = ApplyLive(event: Event) | ApplySnapshot(snapshot: Seq) | DrainBuffered

  function Step(s: Reducer, op: Op): Reducer {
    match op
    case ApplyLive(event) => Live(s, event)
    case ApplySnapshot(snapshot) => Snapshot(s, snapshot)
    case DrainBuffered => Drain(s)
  }

  function Run(s: Reducer, ops: seq<Op>): Reducer
    decreases |ops|
  {
    if |ops| == 0 then s else Step(Run(s, ops[..|ops| - 1]), ops[|ops| - 1])
  }

  /** The events a drain applies, in order. */
  function Drained(s: Reducer): seq<Event>
    decreases |s.buffered|
  {
    if Expected(s) in s.buffered then
      assert |s.buffered.Keys - {Expected(s)}| < |s.buffered.Keys|;
      [s.buffered[Expected(s)]] + Drained(ApplyContiguous(Unbuffer(s, Expected(s)), s.buffered[Expected(s)]))
    else []
  }

  /** The events an operation applies, in order. */
  function AppliedBy(s: Reducer, op: Op): seq<Event> {
    match op
    case ApplyLive(event) => if Live(s, event) != s && event.number == Expected(s) then [event] else []
    case ApplySnapshot(_) => []
    case DrainBuffered => Drained(s)
  }

  function AppliedIn(s: Reducer, ops: seq<Op>): seq<Event>
    decreases |ops|
  {
    if |ops| == 0 then [] else AppliedIn(s, ops[..|ops| - 1]) + AppliedBy(Run(s, ops[..|ops| - 1]), ops[|ops| - 1])
  }

  /** The applied identifiers: each at most once, and exactly the remembered ones. */
  ghost predicate LogAgrees(log: seq<Event>, ids: set<string>) {
    && (forall i :: 0 <= i < |log| ==> log[i].id in ids)
    && (forall id :: id in ids ==> exists i :: 0 <= i < |log| && log[i].id == id)
    && (forall i, j :: 0 <= i < j < |log| ==> log[i].id != log[j].id)
  }

  lemma LogGrows(log: seq<Event>, ids: set<string>, event: Event)
    requires LogAgrees(log, ids) && event.id !in ids
    ensures LogAgrees(log + [event], ids + {event.id})
  {
    var longer := log + [event];
    forall id | id in ids + {event.id}
      ensures exists i :: 0 <= i < |longer| && longer[i].id == id
    {
      if id == event.id {
        assert longer[|log|].id == id;
      } else {
        var i :| 0 <= i < |log| && log[i].id == id;
        assert longer[i].id == id;
      }
    }
  }

  /** Events with the numbers directly above `lastSeq`, without a gap. */
  ghost predicate Consecutive(lastSeq: nat, events: seq<Event>) {
    forall i :: 0 <= i < |events| ==> events[i].number == lastSeq + 1 + i
  }

  lemma {:induction false} DrainedAgrees(s: Reducer, log: seq<Event>)
    requires Inv(s) && LogAgrees(log, s.eventIds)
    ensures LogAgrees(log + Drained(s), Drain(s).eventIds)
    ensures Consecutive(s.lastSeq, Drained(s)) && Drain(s).lastSeq == s.lastSeq + |Drained(s)|
    decreases |s.buffered|
  {
    hide LogAgrees, IdsAgree;
    if Expected(s) in s.buffered {
      var event := s.buffered[Expected(s)];
      var next := ApplyContiguous(Unbuffer(s, Expected(s)), event);
      UnbufferKeepsInv(s, Expected(s));
      DrainStepKeepsInv(s);
      BufferedIsUnapplied(s, Expected(s));
      LogGrows(log, s.eventIds, event);
      DrainedAgrees(next, log + [event]);
      assert log + [event] + Drained(next) == log + Drained(s);
    } else {
      assert log + [] == log;
    }
  }

  lemma BufferedIsUnapplied(s: Reducer, number: nat)
    requires Inv(s) && number in s.buffered
    ensures s.buffered[number].id !in s.eventIds
  {
    assert s.buffered[number].id in s.bufferedIds;
  }

  /** One operation applies consecutive events only, and leaves the log and the remembered identifiers in agreement. */
  lemma StepAgrees(s: Reducer, op: Op, log: seq<Event>)
    requires Inv(s) && LogAgrees(log, s.eventIds)
    ensures Inv(Step(s, op)) && LogAgrees(log + AppliedBy(s, op), Step(s, op).eventIds)
    ensures Consecutive(s.lastSeq, AppliedBy(s, op))
    ensures !op.ApplySnapshot? ==> Step(s, op).lastSeq == s.lastSeq + |AppliedBy(s, op)|
  {
    hide LogAgrees, Inv;
    match op
    case ApplyLive(event) =>
      LiveKeepsInv(s, event);
      if AppliedBy(s, op) == [event] {
        LogGrows(log, s.eventIds, event);
      } else {
        assert log + [] == log;
      }
    case ApplySnapshot(snapshot) =>
      SnapshotKeepsInv(s, snapshot);
      assert log + [] == log;
    case DrainBuffered =>
      DrainKeepsInv(s);
      DrainedAgrees(s, log);
  }

  /**
   * In every run from a new reducer: the buffer stays bounded and above the last number, its identifiers
   * agree with it, and no event identifier is ever applied twice, snapshots that move backwards included.
   */
  lemma {:induction false} RunAppliesOnce(maxBuffer: nat, ops: seq<Op>)
    ensures Inv(Run(Fresh(maxBuffer), ops))
    ensures LogAgrees(AppliedIn(Fresh(maxBuffer), ops), Run(Fresh(maxBuffer), ops).eventIds)
    decreases |ops|
  {
    if |ops| > 0 {
      var before := ops[..|ops| - 1];
      RunAppliesOnce(maxBuffer, before);
      StepAgrees(Run(Fresh(maxBuffer), before), ops[|ops| - 1], AppliedIn(Fresh(maxBuffer), before));
    }
  }

  // ---- Convergence -------------------------------------------------------------------------

  function Above(delivered: set<Seq>, m: nat): set<Seq> { set k | k in delivered && k > m }

  function Range(base: nat, m: Seq): (r: set<Seq>)
    ensures forall k: Seq :: k in r <==> base < k <= m
  {
    if m <= base then {} else Range(base, m - 1) + {m}
  }

  /** The end of the run of numbers directly above `base` that has been delivered. */
  function Lead(base: Seq, delivered: set<Seq>): (m: Seq)
    ensures base <= m && Range(base, m) <= delivered && m + 1 !in delivered
    decreases |Above(delivered, base)|
  {
    if base + 1 in delivered then
      assert Above(delivered, base) == Above(delivered, base + 1) + {base + 1};
      Lead(base + 1, delivered)
    else base
  }

  lemma LeadIs(base: Seq, delivered: set<Seq>, m: Seq)
    requires base <= m && Range(base, m) <= delivered && m + 1 !in delivered
    ensures Lead(base, delivered) == m
  {
  }

  ghost predicate Injective(idOf: nat -> string) {
    forall j: Seq, k: Seq :: idOf(j) == idOf(k) ==> j == k
  }

  function EventAt(idOf: nat -> string, k: Seq): Event { Event(k, idOf(k)) }

  function Ids(idOf: nat -> string, ks: set<Seq>): set<string> { set k | k in ks :: idOf(k) }

  lemma IdsMember(idOf: nat -> string, ks: set<Seq>, k: Seq)
    requires Injective(idOf)
    ensures idOf(k) in Ids(idOf, ks) <==> k in ks
    ensures Ids(idOf, ks + {k}) == Ids(idOf, ks) + {idOf(k)}
    ensures Ids(idOf, ks - {k}) == Ids(idOf, ks) - {idOf(k)}
  {
  }

  /** The buffer holds exactly the waiting events. */
  ghost predicate Buffers(buffered: map<nat, Event>, waiting: set<Seq>, idOf: nat -> string) {
    buffered.Keys == waiting && forall k :: k in buffered ==> buffered[k] == EventAt(idOf, k)
  }

  /** Everything in (base, lastSeq] is applied, everything delivered above waits. */
  ghost predicate Holds(s: Reducer, base: Seq, delivered: set<Seq>, idOf: nat -> string) {
    && base <= s.lastSeq && Range(base, s.lastSeq) <= delivered
    && s.eventIds == Ids(idOf, Range(base, s.lastSeq))
    && Buffers(s.buffered, Above(delivered, s.lastSeq), idOf)
    && s.bufferedIds == Ids(idOf, Above(delivered, s.lastSeq))
  }

  /** The delivered numbers have led to this state and to no other. */
  ghost predicate Reached(s: Reducer, base: Seq, delivered: set<Seq>, idOf: nat -> string) {
    Holds(s, base, delivered, idOf) && s.lastSeq == Lead(base, delivered)
  }

  lemma AppliedNext(s: Reducer, base: Seq, delivered: set<Seq>, idOf: nat -> string)
    requires Injective(idOf) && Holds(s, base, delivered, idOf) && Expected(s) in s.buffered
    ensures var next := ApplyContiguous(Unbuffer(s, Expected(s)), s.buffered[Expected(s)]);
            Holds(next, base, delivered, idOf) && |next.buffered| < |s.buffered|
  {
    hide Ids, Injective;
    var number := Expected(s);
    var waiting := Above(delivered, s.lastSeq);
    assert number in waiting;
    var next := ApplyContiguous(Unbuffer(s, number), s.buffered[number]);
    assert s.buffered.Keys == next.buffered.Keys + {number};
    assert next.buffered.Keys == waiting - {number} == Above(delivered, number);
    assert Range(base, number) == Range(base, s.lastSeq) + {number};
    IdsMember(idOf, Range(base, s.lastSeq), number);
    IdsMember(idOf, waiting, number);
  }

  lemma {:induction false} DrainReaches(s: Reducer, base: Seq, delivered: set<Seq>, idOf: nat -> string)
    requires Injective(idOf) && Holds(s, base, delivered, idOf)
    ensures Reached(Drain(s), base, delivered, idOf)
    decreases |s.buffered|
  {
    hide Ids, Injective;
    if Expected(s) in s.buffered {
      AppliedNext(s, base, delivered, idOf);
      DrainReaches(ApplyContiguous(Unbuffer(s, Expected(s)), s.buffered[Expected(s)]), base, delivered, idOf);
    } else {
      assert s.lastSeq + 1 in delivered ==> s.lastSeq + 1 in Above(delivered, s.lastSeq);
      LeadIs(base, delivered, s.lastSeq);
    }
  }

  function Deliver(s: Reducer, idOf: nat -> string, k: Seq): Reducer { Drain(Live(s, EventAt(idOf, k))) }

  function DeliverAll(s: Reducer, idOf: nat -> string, ks: seq<Seq>): Reducer
    decreases |ks|
  {
    if |ks| == 0 then s else Deliver(DeliverAll(s, idOf, ks[..|ks| - 1]), idOf, ks[|ks| - 1])
  }

  function Delivered(ks: seq<Seq>): set<Seq> { set k | k in ks }

  /** What still waits once the numbers `delivered` have come in on top of a snapshot at `base`. */
  function Waiting(base: Seq, delivered: set<Seq>): set<Seq> { Above(delivered, Lead(base, delivered)) }

  /** Which branch a delivery takes in a state that earlier deliveries led to. */
  lemma DeliveryBranch(s: Reducer, base: Seq, delivered: set<Seq>, idOf: nat -> string, k: Seq)
    requires Injective(idOf) && Reached(s, base, delivered, idOf)
    ensures IsDuplicate(s, EventAt(idOf, k)) <==> k <= s.lastSeq || k in delivered
    ensures Expected(s) !in s.buffered
    ensures k in s.buffered <==> k in Above(delivered, s.lastSeq)
  {
    hide Ids, Injective;
    IdsMember(idOf, Range(base, s.lastSeq), k);
    IdsMember(idOf, Above(delivered, s.lastSeq), k);
  }

  lemma LiveHolds(s: Reducer, base: Seq, delivered: set<Seq>, idOf: nat -> string, k: Seq)
    requires Injective(idOf) && Reached(s, base, delivered, idOf)
    requires |Waiting(base, delivered + {k})| <= s.maxBuffer
    ensures Holds(Live(s, EventAt(idOf, k)), base, delivered + {k}, idOf)
  {
    hide Ids, Injective, IsDuplicate, Lead;
    var m, more := s.lastSeq, delivered + {k};
    DeliveryBranch(s, base, delivered, idOf, k);
    if k <= m || k in delivered {
      assert Above(more, m) == Above(delivered, m);
    } else if k == m + 1 {
      assert Above(more, k) == Above(delivered, m);
      assert Range(base, k) == Range(base, m) + {k};
      IdsMember(idOf, Range(base, m), k);
    } else {
      BufferedDelivery(s, base, delivered, idOf, k);
    }
  }

  lemma BufferedDelivery(s: Reducer, base: Seq, delivered: set<Seq>, idOf: nat -> string, k: Seq)
    requires Injective(idOf) && Reached(s, base, delivered, idOf)
    requires k > s.lastSeq + 1 && k !in delivered && |Waiting(base, delivered + {k})| <= s.maxBuffer
    ensures Holds(Live(s, EventAt(idOf, k)), base, delivered + {k}, idOf)
  {
    hide Ids, Injective, IsDuplicate;
    var m, more := s.lastSeq, delivered + {k};
    DeliveryBranch(s, base, delivered, idOf, k);
    LeadIs(base, more, m);
    assert Above(more, m) == Above(delivered, m) + {k};
    assert |s.buffered| == |s.buffered.Keys| < s.maxBuffer;
    var next := Live(s, EventAt(idOf, k));
    assert next.buffered.Keys == s.buffered.Keys + {k};
    IdsMember(idOf, Above(delivered, m), k);
  }

  lemma {:induction false} DrainKeepsBound(s: Reducer)
    ensures Drain(s).maxBuffer == s.maxBuffer
    decreases |s.buffered|
  {
    if Expected(s) in s.buffered {
      assert |s.buffered.Keys - {Expected(s)}| < |s.buffered.Keys|;
      DrainKeepsBound(ApplyContiguous(Unbuffer(s, Expected(s)), s.buffered[Expected(s)]));
    }
  }

  lemma DeliverReaches(s: Reducer, base: Seq, delivered: set<Seq>, idOf: nat -> string, k: Seq)
    requires Injective(idOf) && Reached(s, base, delivered, idOf)
    requires |Waiting(base, delivered + {k})| <= s.maxBuffer
    ensures Reached(Deliver(s, idOf, k), base, delivered + {k}, idOf) && Deliver(s, idOf, k).maxBuffer == s.maxBuffer
  {
    hide Injective, Holds;
    LiveHolds(s, base, delivered, idOf, k);
    DrainReaches(Live(s, EventAt(idOf, k)), base, delivered + {k}, idOf);
    DrainKeepsBound(Live(s, EventAt(idOf, k)));
  }

  /** Enough room: at no point of the delivery do more events wait than the buffer takes. */
  ghost predicate Fits(base: Seq, ks: seq<Seq>, maxBuffer: nat) {
    forall i :: 0 <= i <= |ks| ==> |Waiting(base, Delivered(ks[..i]))| <= maxBuffer
  }

  /**
   * Convergence: whatever the order and however often numbers are repeated, after every delivery the last
   * number is the longest gap-free prefix of what was delivered and exactly the rest waits.
   */
  lemma {:induction false} DeliveriesConverge(base: Seq, maxBuffer: nat, idOf: nat -> string, ks: seq<Seq>)
    requires Injective(idOf) && Fits(base, ks, maxBuffer)
    ensures var s := DeliverAll(Snapshot(Fresh(maxBuffer), base), idOf, ks);
            Reached(s, base, Delivered(ks), idOf) && s.maxBuffer == maxBuffer
    decreases |ks|
  {
    hide Injective, Reached, Deliver, Waiting, Snapshot;
    var start := Snapshot(Fresh(maxBuffer), base);
    if |ks| == 0 {
      StartHolds(base, maxBuffer, idOf);
    } else {
      var before, k := ks[..|ks| - 1], ks[|ks| - 1];
      assert forall i :: 0 <= i <= |before| ==> before[..i] == ks[..i];
      DeliveriesConverge(base, maxBuffer, idOf, before);
      assert Delivered(ks) == Delivered(before) + {k};
      assert ks[..|ks|] == ks;
      DeliverReaches(DeliverAll(start, idOf, before), base, Delivered(before), idOf, k);
    }
  }

  lemma StartHolds(base: Seq, maxBuffer: nat, idOf: nat -> string)
    ensures Reached(Snapshot(Fresh(maxBuffer), base), base, Delivered([]), idOf)
    ensures Snapshot(Fresh(maxBuffer), base).maxBuffer == maxBuffer
  {
  }

  /** The end state depends only on which numbers came in, not on their order or repetition. */
  lemma OrderDoesNotMatter(base: Seq, maxBuffer: nat, idOf: nat -> string, left: seq<Seq>, right: seq<Seq>)
    requires Injective(idOf) && Fits(base, left, maxBuffer) && Fits(base, right, maxBuffer)
    requires Delivered(left) == Delivered(right)
    ensures DeliverAll(Snapshot(Fresh(maxBuffer), base), idOf, left)
            == DeliverAll(Snapshot(Fresh(maxBuffer), base), idOf, right)
  {
    hide Ids, Injective, Lead;
    DeliveriesConverge(base, maxBuffer, idOf, left);
    DeliveriesConverge(base, maxBuffer, idOf, right);
    var a := DeliverAll(Snapshot(Fresh(maxBuffer), base), idOf, left);
    var b := DeliverAll(Snapshot(Fresh(maxBuffer), base), idOf, right);
    assert a.buffered == b.buffered;
  }

  /** Once all of 1..n have come in, the state is that of in-order delivery: everything applied, nothing waiting. */
  lemma CompleteDeliveryApplies(maxBuffer: nat, idOf: nat -> string, n: Seq, ks: seq<Seq>)
    requires Injective(idOf) && Fits(0, ks, maxBuffer)
    requires Delivered(ks) == Range(0, n)
    ensures DeliverAll(Snapshot(Fresh(maxBuffer), 0), idOf, ks)
            == Reducer(n, Ids(idOf, Range(0, n)), map[], {}, maxBuffer)
  {
    hide Injective, Lead;
    DeliveriesConverge(0, maxBuffer, idOf, ks);
    LeadIs(0, Delivered(ks), n);
    assert Above(Range(0, n), n) == {};
  }
}

/** What each operation of the reorder buffer answers and leaves behind, in terms of the run before it. */
module ReorderingOutcomes {
  import opened Wrappers
  import opened Seqs
  import opened Reordering
  import opened ReorderingRuns

  /** An event with this identifier has been applied or waits. */
  ghost predicate Known(log: seq<Event>, s: Reducer, id: string) {
    || (exists i :: 0 <= i < |log| && log[i].id == id)
    || (exists k :: k in s.buffered && s.buffered[k].id == id)
  }

  /**
   * In every run, a live event is a duplicate exactly when its number has been passed or its identifier is known. A
   * new one is applied when it is the next one and its place is free; it waits when it is further ahead, its place is
   * free and there is room; otherwise a resync is asked for and nothing changes.
   */
  lemma LiveOutcomeIff(maxBuffer: nat, ops: seq<Op>, event: Event)
    ensures var s := Run(Fresh(maxBuffer), ops);
            var log := AppliedIn(Fresh(maxBuffer), ops);
            var (r, outcome) := (Live(s, event), LiveOutcome(s, event));
            if event.number <= s.lastSeq || Known(log, s, event.id) then outcome == Duplicate && r == s
            else if event.number in s.buffered || (event.number > s.lastSeq + 1 && |s.buffered| >= s.maxBuffer)
                then outcome == ResyncRequired(s.lastSeq + 1, event.number) && r == s
            else if event.number == s.lastSeq + 1
                then && outcome == Applied
                     && r == s.(lastSeq := event.number, eventIds := s.eventIds + {event.id})
            else && outcome.Gap? && outcome.expected == s.lastSeq + 1 && outcome.received in r.buffered
                 && (forall k :: k in r.buffered ==> outcome.received <= k)
                 && r == s.(buffered := s.buffered[event.number := event],
                     bufferedIds := s.bufferedIds + {event.id})
  {
    RunAppliesOnce(maxBuffer, ops);
    var s := Run(Fresh(maxBuffer), ops);
    var log := AppliedIn(Fresh(maxBuffer), ops);
    KnownIff(log, s, event.id);
    hide Known, Inv, LogAgrees, Run, AppliedIn;
    BufferIsAhead(maxBuffer, ops);
    assert s.buffered[event.number := event].Keys == s.buffered.Keys + {event.number};
  }

  lemma BufferIsAhead(maxBuffer: nat, ops: seq<Op>)
    ensures var s := Run(Fresh(maxBuffer), ops);
            |s.buffered| <= s.maxBuffer && forall k :: k in s.buffered ==> k > s.lastSeq
  {
    RunAppliesOnce(maxBuffer, ops);
  }

  lemma KnownIff(log: seq<Event>, s: Reducer, id: string)
    requires Inv(s) && LogAgrees(log, s.eventIds)
    ensures Known(log, s, id) <==> id in s.eventIds || id in s.bufferedIds
  {
  }

  /** A snapshot moves the last number and forgets exactly the waiting events it covers. */
  lemma SnapshotMeaning(s: Reducer, snapshot: Seq)
    requires Inv(s)
    ensures var r := Snapshot(s, snapshot);
            && r.lastSeq == snapshot && r.eventIds == s.eventIds && r.maxBuffer == s.maxBuffer
            && (forall k :: k in r.buffered <==> k in s.buffered && k > snapshot)
            && (forall k :: k in r.buffered ==> r.buffered[k] == s.buffered[k])
            && (forall id :: id in r.bufferedIds <==> exists k :: k in r.buffered && r.buffered[k].id == id)
  {
    SnapshotKeepsInv(s, snapshot);
  }

  /** A drain takes out the waiting events up to the first number that is missing, and leaves those behind it. */
  lemma {:induction false} DrainMeaning(s: Reducer)
    requires Inv(s)
    ensures var r := Drain(s);
            && s.lastSeq <= r.lastSeq && r.lastSeq + 1 !in s.buffered
            && (forall k :: s.lastSeq < k <= r.lastSeq ==> k in s.buffered)
            && (forall k :: k in r.buffered <==> k in s.buffered && k > r.lastSeq)
            && (forall k :: k in r.buffered ==> r.buffered[k] == s.buffered[k])
    decreases |s.buffered|
  {
    hide IdsAgree;
    var number := Expected(s);
    if number in s.buffered {
      var next := ApplyContiguous(Unbuffer(s, number), s.buffered[number]);
      UnbufferKeepsInv(s, number);
      DrainStepKeepsInv(s);
      DrainMeaning(next);
      assert next.lastSeq == number == s.lastSeq + 1;
      assert next.buffered == s.buffered - {number};
      assert forall k :: k in s.buffered <==> k == number || k in next.buffered;
    } else {
      assert s.lastSeq + 1 in s.buffered ==> s.buffered[s.lastSeq + 1].number == s.lastSeq + 1;
    }
  }

  /** It applies them in the order of their numbers, each as it was received. */
  lemma {:induction false} DrainedAreTheBuffered(s: Reducer, i: nat)
    requires Inv(s) && i < |Drained(s)|
    ensures s.lastSeq + 1 + i in s.buffered && Drained(s)[i] == s.buffered[s.lastSeq + 1 + i]
    decreases i
  {
    hide IdsAgree;
    var number := Expected(s);
    if i > 0 {
      UnbufferKeepsInv(s, number);
      DrainStepKeepsInv(s);
      DrainedAreTheBuffered(ApplyContiguous(Unbuffer(s, number), s.buffered[number]), i - 1);
    }
  }
}

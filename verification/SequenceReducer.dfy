/** The reorder buffer of the protocol spike: consecutive events are applied, later ones wait for the gap to close. */
module Reordering {
  import opened Wrappers

  const U64_MAX := 0xFFFF_FFFF_FFFF_FFFF

  type Seq = n: nat | n <= 0xFFFF_FFFF_FFFF_FFFF

  datatype Event = Event(number: Seq, id: string)

  datatype Outcome = Applied | Duplicate | Gap(expected: nat, received: nat)
      | ResyncRequired(expected: nat, received: nat)

  datatype Reducer = Reducer(lastSeq: Seq, eventIds: set<string>, buffered: map<nat, Event>, bufferedIds: set<string>,
      maxBuffer: nat)

  function Fresh(maxBuffer: nat): Reducer { Reducer(0, {}, map[], {}, maxBuffer) }

  /** `saturating_add(1)`. */
  function Next(number: Seq): Seq { if number < U64_MAX then number + 1 else U64_MAX }

  function Expected(s: Reducer): Seq { Next(s.lastSeq) }

  predicate IsLeast(k: nat, keys: set<nat>) { k in keys && forall j :: j in keys ==> k <= j }

  lemma {:induction false} LeastExists(keys: set<nat>)
    requires keys != {}
    ensures exists k :: IsLeast(k, keys)
    decreases |keys|
  {
    var x :| x in keys;
    if keys == {x} {
      assert IsLeast(x, keys);
    } else {
      var rest := keys - {x};
      assert rest != {} && keys == rest + {x};
      LeastExists(rest);
      var k :| IsLeast(k, rest);
      assert IsLeast(if x < k then x else k, keys);
    }
  }

  ghost function Least(keys: set<nat>): (k: nat)
    requires keys != {}
    ensures IsLeast(k, keys)
  {
    LeastExists(keys);
    var k :| IsLeast(k, keys);
    k
  }

  // ---- Operations as functions -------------------------------------------------------------

  function ApplyContiguous(s: Reducer, event: Event): Reducer {
    s.(eventIds := s.eventIds + {event.id}, lastSeq := event.number)
  }

  predicate IsDuplicate(s: Reducer, event: Event) {
    event.id in s.eventIds || event.number <= s.lastSeq || event.id in s.bufferedIds
  }

  predicate NeedsResync(s: Reducer, event: Event) {
    event.number in s.buffered || (event.number != Expected(s) && |s.buffered| >= s.maxBuffer)
  }

  /** The state after `apply_live`. */
  function Live(s: Reducer, event: Event): Reducer {
    if IsDuplicate(s, event) || NeedsResync(s, event) then s
    else if event.number == Expected(s) then ApplyContiguous(s, event)
    else s.(bufferedIds := s.bufferedIds + {event.id}, buffered := s.buffered[event.number := event])
  }

  ghost function LiveOutcome(s: Reducer, event: Event): Outcome {
    if IsDuplicate(s, event) then Duplicate
    else if NeedsResync(s, event) then ResyncRequired(Expected(s), event.number)
    else if event.number == Expected(s) then Applied
    else Gap(Expected(s), Least(s.buffered.Keys + {event.number}))
  }

  function Unbuffer(s: Reducer, number: nat): Reducer
    requires number in s.buffered
  {
    s.(buffered := s.buffered - {number}, bufferedIds := s.bufferedIds - {s.buffered[number].id})
  }

  function StaleKeys(s: Reducer, snapshot: Seq): set<nat> { set k: nat | k in s.buffered && k <= snapshot }

  function StaleIds(s: Reducer, snapshot: Seq): set<string> {
    set k: nat | k in s.buffered && k <= snapshot :: s.buffered[k].id
  }

  /** The state after `apply_snapshot`. */
  function Snapshot(s: Reducer, snapshot: Seq): Reducer {
    s.(lastSeq := snapshot, buffered := s.buffered - StaleKeys(s, snapshot),
        bufferedIds := s.bufferedIds - StaleIds(s, snapshot))
  }

  /** The state after `drain_buffered`. */
  function Drain(s: Reducer): Reducer
    decreases |s.buffered|
  {
    if Expected(s) in s.buffered then
      assert |s.buffered.Keys - {Expected(s)}| < |s.buffered.Keys|;
      Drain(ApplyContiguous(Unbuffer(s, Expected(s)), s.buffered[Expected(s)]))
    else s
  }

  ghost function IdsAt(buffered: map<nat, Event>, keys: set<nat>): set<string> {
    set k: nat | k in keys && k in buffered :: buffered[k].id
  }

  ghost function Without(buffered: map<nat, Event>, keys: set<nat>): map<nat, Event> { buffered - keys }

  lemma WithoutNone(buffered: map<nat, Event>)
    ensures Without(buffered, {}) == buffered && IdsAt(buffered, {}) == {}
  {
  }

  lemma WithoutOneMore(buffered: map<nat, Event>, keys: set<nat>, number: nat)
    requires number in buffered && number !in keys
    ensures number in Without(buffered, keys) && Without(buffered, keys)[number] == buffered[number]
    ensures Without(buffered, keys) - {number} == Without(buffered, keys + {number})
    ensures IdsAt(buffered, keys + {number}) == IdsAt(buffered, keys) + {buffered[number].id}
  {
  }

  lemma WithoutStale(s: Reducer, snapshot: Seq)
    ensures Without(s.buffered, StaleKeys(s, snapshot)) == Snapshot(s, snapshot).buffered
    ensures IdsAt(s.buffered, StaleKeys(s, snapshot)) == StaleIds(s, snapshot)
  {
  }

  // ---- The object --------------------------------------------------------------------------

  class SequenceReducer {
    var lastSeq: Seq
    var eventIds: set<string>
    var buffered: map<nat, Event>
    var bufferedIds: set<string>
    const maxBuffer: nat

    ghost function View(): Reducer
      reads this
    {
      Reducer(lastSeq, eventIds, buffered, bufferedIds, maxBuffer)
    }

    constructor (maxBuffer: nat)
      ensures View() == Fresh(maxBuffer)
    {
      lastSeq, eventIds, buffered, bufferedIds := 0, {}, map[], {};
      this.maxBuffer := maxBuffer;
    }

    /** `buffered.keys().next()` of an ordered map. */
    method FirstKey() returns (first: Option<nat>)
      ensures first == if buffered == map[] then None else Some(Least(buffered.Keys))
    {
      if buffered == map[] {
        return None;
      }
      assert buffered.Keys != {};
      var best: nat :| best in buffered.Keys;
      var rest := buffered.Keys - {best};
      while rest != {}
        invariant best in buffered.Keys && rest <= buffered.Keys
        invariant forall k :: k in buffered.Keys && k !in rest ==> best <= k
        decreases |rest|
      {
        var k: nat :| k in rest;
        rest := rest - {k};
        if k < best {
          best := k;
        }
      }
      assert IsLeast(best, buffered.Keys);
      return Some(best);
    }

    method ApplyLive(event: Event) returns (outcome: Outcome)
      modifies this
      ensures View() == Live(old(View()), event)
      ensures outcome == LiveOutcome(old(View()), event)
    {
      if event.id in eventIds || event.number <= lastSeq {
        return Duplicate;
      }
      if event.id in bufferedIds {
        return Duplicate;
      }
      var expected := Next(lastSeq);
      if event.number in buffered {
        return ResyncRequired(expected, event.number);
      }
      if event.number == expected {
        eventIds := eventIds + {event.id};
        lastSeq := event.number;
        return Applied;
      }
      if |buffered| >= maxBuffer {
        return ResyncRequired(expected, event.number);
      }
      bufferedIds := bufferedIds + {event.id};
      ghost var keys := buffered.Keys + {event.number};
      buffered := buffered[event.number := event];
      assert buffered.Keys == keys && buffered != map[];
      var first := FirstKey();
      assert first.Some?;
      return Gap(expected, first.value);
    }

    method ApplySnapshot(snapshot: Seq)
      modifies this
      ensures View() == Snapshot(old(View()), snapshot)
    {
      hide IdsAt, Without;
      ghost var removed: set<nat> := {};
      var stale := set k: nat | k in buffered && k <= snapshot;
      ghost var all := stale;
      lastSeq := snapshot;
      WithoutNone(buffered);
      while stale != {}
        invariant lastSeq == snapshot && eventIds == old(eventIds)
        invariant stale + removed == all && stale !! removed && all <= old(buffered).Keys
        invariant buffered == Without(old(buffered), removed)
        invariant bufferedIds == old(bufferedIds) - IdsAt(old(buffered), removed)
        decreases |stale|
      {
        var number: nat :| number in stale;
        WithoutOneMore(old(buffered), removed, number);
        bufferedIds := bufferedIds - {buffered[number].id};
        buffered := buffered - {number};
        stale := stale - {number};
        removed := removed + {number};
      }
      assert removed == StaleKeys(old(View()), snapshot);
      WithoutStale(old(View()), snapshot);
    }

    method DrainBuffered() returns (outcome: Outcome)
      modifies this
      ensures View() == Drain(old(View()))
      ensures outcome == if buffered == map[] then Applied else Gap(Expected(View()), Least(buffered.Keys))
    {
      while true
        invariant Drain(View()) == Drain(old(View()))
        decreases |buffered|
      {
        var expected := Next(lastSeq);
        if expected !in buffered {
          var first := FirstKey();
          return if first.Some? then Gap(expected, first.value) else Applied;
        }
        var event := buffered[expected];
        assert |buffered.Keys - {expected}| < |buffered.Keys|;
        buffered := buffered - {expected};
        bufferedIds := bufferedIds - {event.id};
        eventIds := eventIds + {event.id};
        lastSeq := event.number;
      }
    }
  }

  // ---- What every run keeps ----------------------------------------------------------------

  /** The identifiers on the side are exactly those of the buffered events, one each. */
  ghost predicate IdsAgree(buffered: map<nat, Event>, ids: set<string>) {
    && (forall k :: k in buffered ==> buffered[k].id in ids)
    && (forall id :: id in ids ==> exists k :: k in buffered && buffered[k].id == id)
    && (forall j, k :: j in buffered && k in buffered && buffered[j].id == buffered[k].id ==> j == k)
  }

  ghost predicate KeysAgree(buffered: map<nat, Event>, lastSeq: nat) {
    forall k :: k in buffered ==> lastSeq < k && buffered[k].number == k
  }

  ghost predicate Inv(s: Reducer) {
    && |s.buffered| <= s.maxBuffer
    && KeysAgree(s.buffered, s.lastSeq)
    && IdsAgree(s.buffered, s.bufferedIds)
    && s.eventIds !! s.bufferedIds
  }

  lemma InsertAgrees(buffered: map<nat, Event>, ids: set<string>, event: Event)
    requires IdsAgree(buffered, ids) && event.number !in buffered && event.id !in ids
    ensures IdsAgree(buffered[event.number := event], ids + {event.id})
  {
    var next := buffered[event.number := event];
    forall id | id in ids + {event.id}
      ensures exists k :: k in next && next[k].id == id
    {
      if id == event.id {
        assert next[event.number].id == id;
      } else {
        var k :| k in buffered && buffered[k].id == id;
        assert next[k].id == id;
      }
    }
  }

  lemma RemoveAgrees(buffered: map<nat, Event>, ids: set<string>, number: nat)
    requires IdsAgree(buffered, ids) && number in buffered
    ensures IdsAgree(buffered - {number}, ids - {buffered[number].id})
  {
    var next := buffered - {number};
    forall id | id in ids - {buffered[number].id}
      ensures exists k :: k in next && next[k].id == id
    {
      var k :| k in buffered && buffered[k].id == id;
      assert next[k].id == id;
    }
  }

  lemma LiveKeepsInv(s: Reducer, event: Event)
    requires Inv(s)
    ensures Inv(Live(s, event))
  {
    hide IdsAgree;
    var next := Live(s, event);
    if next != s && event.number != Expected(s) {
      InsertAgrees(s.buffered, s.bufferedIds, event);
      assert next.buffered.Keys == s.buffered.Keys + {event.number};
    }
  }

  lemma UnbufferKeepsInv(s: Reducer, number: nat)
    requires Inv(s) && number in s.buffered
    ensures Inv(Unbuffer(s, number)) && s.buffered[number].id !in Unbuffer(s, number).bufferedIds
    ensures |Unbuffer(s, number).buffered| < |s.buffered|
  {
    RemoveAgrees(s.buffered, s.bufferedIds, number);
    assert s.buffered.Keys == Unbuffer(s, number).buffered.Keys + {number};
  }

  lemma {:induction false} DrainKeepsInv(s: Reducer)
    requires Inv(s)
    ensures Inv(Drain(s)) && Expected(Drain(s)) !in Drain(s).buffered
    decreases |s.buffered|
  {
    hide IdsAgree, Unbuffer;
    var number := Expected(s);
    if number in s.buffered {
      UnbufferKeepsInv(s, number);
      DrainStepKeepsInv(s);
      DrainKeepsInv(ApplyContiguous(Unbuffer(s, number), s.buffered[number]));
    }
  }

  lemma DrainStepKeepsInv(s: Reducer)
    requires Inv(s) && Expected(s) in s.buffered
    ensures Inv(ApplyContiguous(Unbuffer(s, Expected(s)), s.buffered[Expected(s)]))
  {
    hide IdsAgree;
    UnbufferKeepsInv(s, Expected(s));
  }

  lemma SnapshotKeepsInv(s: Reducer, snapshot: Seq)
    requires Inv(s)
    ensures Inv(Snapshot(s, snapshot))
  {
    var next := Snapshot(s, snapshot);
    assert next.buffered.Keys <= s.buffered.Keys;
    CardinalityOfSubset(next.buffered.Keys, s.buffered.Keys);
    forall k | k in next.buffered
      ensures next.buffered[k].id in next.bufferedIds && next.lastSeq < k
    {
      assert k !in StaleKeys(s, snapshot);
      forall j | j in s.buffered && j <= snapshot
        ensures s.buffered[j].id != next.buffered[k].id
      {
      }
    }
    forall id | id in next.bufferedIds
      ensures exists k :: k in next.buffered && next.buffered[k].id == id
    {
      var k :| k in s.buffered && s.buffered[k].id == id;
      assert k !in StaleKeys(s, snapshot);
      assert next.buffered[k].id == id;
    }
  }

  lemma CardinalityOfSubset<T>(a: set<T>, b: set<T>)
    requires a <= b
    ensures |a| <= |b|
  {
    assert b == a + (b - a);
  }
}

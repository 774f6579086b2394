/** Recovering a thread from a snapshot converges with a run that never lost it. */
module TimelineResync {
  import opened Wrappers
  import opened Seqs
  import opened Utf8
  import opened TimelineState
  import opened TimelineReducer
  import opened TimelineInvariant
  import opened TimelineRuns
  import opened TimelineExact
  import opened TimelineLog

  /** Both states hold equal items at the given ids. */
  ghost predicate EqualItems(a: Items, b: Items, ids: seq<ItemId>) {
    forall i :: i in ids ==> i in a && i in b && a[i] == b[i]
  }

  /** Item order, item contents and last sequence number of thread `t` agree; byte counters need not. */
  ghost predicate Agree(a: State, b: State, t: ThreadId) {
    && Order(a, t) == Order(b, t)
    && EqualItems(a.items, b.items, Order(a, t))
    && LastSeq(a, t) == LastSeq(b, t)
  }

  /** The snapshot holds the item projection the state has, at the state's sequence number. */
  ghost predicate Captures(snap: Snapshot, s: State) {
    var t := snap.thread.threadId;
    && snap.snapshotSeq == LastSeq(s, t)
    && ItemIdsOf(snap.items) == Order(s, t)
    && forall k :: 0 <= k < |snap.items|
        ==> snap.items[k].itemId in s.items && s.items[snap.items[k].itemId] == snap.items[k]
  }

  lemma InstallHoldsSnapshot(s: State, snap: Snapshot)
    requires ValidSnapshotStructure(s, snap)
    ensures var r := InstallSnapshot(s, snap);
            var t := snap.thread.threadId;
            && Order(r, t) == ItemIdsOf(snap.items) && LastSeq(r, t) == snap.snapshotSeq
            && forall k :: 0 <= k < |snap.items| ==>
                 snap.items[k].itemId in r.items && r.items[snap.items[k].itemId] == snap.items[k]
  {
    forall k | 0 <= k < |snap.items|
      ensures var r := InstallSnapshot(s, snap);
              snap.items[k].itemId in r.items && r.items[snap.items[k].itemId] == snap.items[k]
    {
      ItemMapAt(snap.items, k);
      hide ClearSeenScope, Removed, ItemIdsOf, CountersOf, OwnersOf, ItemMap;
    }
    hide ClearSeenScope, Removed, CountersOf, OwnersOf, ItemMap;
  }

  lemma CapturedItemsMatch(a: State, r: State, snap: Snapshot)
    requires Captures(snap, a)
    requires forall k :: 0 <= k < |snap.items| ==>
               snap.items[k].itemId in r.items && r.items[snap.items[k].itemId] == snap.items[k]
    ensures EqualItems(a.items, r.items, Order(a, snap.thread.threadId))
  {
    forall i | i in Order(a, snap.thread.threadId) ensures i in a.items && i in r.items && a.items[i] == r.items[i] {
      var k :| 0 <= k < |snap.items| && ItemIdsOf(snap.items)[k] == i;
      assert snap.items[k].itemId == i;
    }
  }

  /** A snapshot that captures one run's thread brings the other run to agreement. */
  lemma SnapshotEstablishesAgreement(a: State, b: State, snap: Snapshot)
    requires GuardSnapshot(b, snap).Pass? && Captures(snap, a)
    ensures Agree(a, Apply(b, ApplySnap(snap)), snap.thread.threadId)
  {
    hide InstallSnapshot, EqualItems, ValidSnapshotEvents, SnapshotTextsFit;
    InstallHoldsSnapshot(b, snap);
    CapturedItemsMatch(a, InstallSnapshot(b, snap), snap);
    hide GuardSnapshot, ValidSnapshotStructure;
  }

  // ---- One event on both sides ---------------------------------------------------------

  lemma FilingOrder(s: State, item: Item, t: ThreadId)
    ensures var r := ApplyItem(s, item, t);
            && Order(r, t) == (if item.itemId in Order(s, t) then Order(s, t) else Order(s, t) + [item.itemId])
            && r.items == s.items[item.itemId := item] && LastSeq(r, t) == LastSeq(s, t)
  {
    hide ByteLength;
  }

  lemma EqualItemsFiled(a: Items, b: Items, ids: seq<ItemId>, item: Item)
    requires EqualItems(a, b, ids)
    ensures EqualItems(a[item.itemId := item], b[item.itemId := item], ids)
    ensures EqualItems(a[item.itemId := item], b[item.itemId := item], ids + [item.itemId])
  {
  }

  lemma ItemKeepsAgreement(a: State, b: State, item: Item, t: ThreadId)
    requires Agree(a, b, t)
    ensures Agree(ApplyItem(a, item, t), ApplyItem(b, item, t), t)
  {
    FilingOrder(a, item, t);
    FilingOrder(b, item, t);
    EqualItemsFiled(a.items, b.items, Order(a, t), item);
    hide ByteLength, ApplyItem, EqualItems, Order, LastSeq;
  }

  lemma DeltaKeepsAgreement(a: State, b: State, i: ItemId, delta: Text, t: ThreadId)
    requires Agree(a, b, t) && i in Order(a, t) && i in a.items && i in b.items
    ensures Agree(ApplyDelta(a, i, delta), ApplyDelta(b, i, delta), t)
  {
    hide ByteLength, CachedBytes;
  }

  lemma OwnedIsListed(s: State, i: ItemId)
    requires Structure(s) && i in s.itemThread
    ensures i in Order(s, s.itemThread[i])
  {
    hide KeysAgree, TurnsOwned;
  }

  /** A payload that is neither an item nor a delta leaves items and order lists alone. */
  lemma OtherPayloadFrame(s: State, t: ThreadId, payload: Payload)
    requires Project(s, t, payload).Ok? && !payload.ItemChanged? && !payload.ItemDelta?
    ensures var n := Project(s, t, payload).value;
            n.items == s.items && n.itemIds == s.itemIds && n.lastSeq == s.lastSeq
  {
    hide TurnItemsBelongTo, ThreadAfterTurn;
  }

  lemma ProjectKeepsAgreement(a: State, b: State, t: ThreadId, payload: Payload)
    requires Structure(a) && Structure(b) && Agree(a, b, t)
    requires Project(a, t, payload).Ok? && Project(b, t, payload).Ok?
    ensures Agree(Project(a, t, payload).value, Project(b, t, payload).value, t)
  {
    hide Structure, EqualItems, ApplyItem, ApplyDelta, ByteLength, CachedBytes, DurableUserItem;
    if payload.ItemChanged? {
      hide Agree;
      ItemKeepsAgreement(a, b, payload.item, t);
    } else if payload.ItemDelta? {
      hide Agree;
      OwnedIsListed(a, payload.itemId);
      DeltaKeepsAgreement(a, b, payload.itemId, payload.delta, t);
    } else {
      OtherPayloadFrame(a, t, payload);
      OtherPayloadFrame(b, t, payload);
      hide Project;
    }
  }

  lemma CommitKeepsAgreement(a: State, b: State, e: ThreadEvent)
    requires Agree(a, b, e.threadId)
    ensures Agree(Commit(a, e), Commit(b, e), e.threadId)
  {
    CommitFrame(a, e);
    CommitFrame(b, e);
    hide Commit, RememberEvent, EqualItems;
  }

  lemma EventKeepsAgreement(a: State, b: State, e: ThreadEvent)
    requires Structure(a) && Structure(b) && Agree(a, b, e.threadId)
    requires GuardThread(a, e).Pass? && GuardThread(b, e).Pass?
    ensures Agree(ApplyThreadEvent(a, e), ApplyThreadEvent(b, e), e.threadId)
  {
    hide Structure, Agree, Commit, Project;
    ProjectKeepsAgreement(a, b, e.threadId, e.payload);
    CommitKeepsAgreement(Project(a, e.threadId, e.payload).value, Project(b, e.threadId, e.payload).value, e);
  }

  // ---- Two runs ------------------------------------------------------------------------

  predicate IsEventOf(action: Action, t: ThreadId) {
    action.ApplyThread? && action.event.threadId == t
  }

  /** The events of thread `t` in a run, in order. */
  function EventsOf(actions: seq<Action>, t: ThreadId): seq<ThreadEvent> {
    if |actions| == 0 then []
    else (if IsEventOf(actions[0], t) then [actions[0].event] else []) + EventsOf(actions[1..], t)
  }

  /** Every event of `t` is applied, and nothing else in the run replaces or clears thread `t`. */
  ghost predicate Follows(s: State, actions: seq<Action>, t: ThreadId)
    decreases |actions|
  {
    |actions| == 0 ||
    (var head := actions[0];
     && (if IsEventOf(head, t) then GuardThread(s, head.event).Pass? else !Releases(s, head, t))
     && Follows(Apply(s, head), actions[1..], t))
  }

  lemma SameProjectionAgrees(a: State, a': State, b: State, t: ThreadId)
    requires SameProjection(a, a', t) && Agree(a, b, t) && Structure(a)
    ensures Agree(a', b, t)
  {
    hide SameApprovals, KeysAgree, TurnsOwned;
  }

  lemma AgreeIsSymmetric(a: State, b: State, t: ThreadId)
    requires Agree(a, b, t)
    ensures Agree(b, a, t)
  {
  }

  lemma OtherStepKeepsProjection(s: State, action: Action, t: ThreadId)
    requires Inv(s) && !IsEventOf(action, t) && !Releases(s, action, t)
    ensures SameProjection(s, Apply(s, action), t)
  {
    hide Inv, ApplyThreadEvent, ApplyRuntimeEvent, InstallSnapshot, ApplyRuntimeStatus, GuardSnapshot, Refuse,
         StatusKeepsEntities, StatusAccepted, SameProjection;
    match action
    case ApplyStatus(host) => StatusKeepsProjection(s, host, t);
    case ApplySnap(snap) =>
      if snap.thread.threadId == t {
        RefuseKeepsProjection(s, GuardSnapshot(s, snap), t);
      } else {
        StepIsolates(s, action, t);
      }
    case ApplyThread(_) => StepIsolates(s, action, t);
    case ApplyRuntime(_) => StepIsolates(s, action, t);
  }

  lemma StatusKeepsProjection(s: State, host: HostStatus, t: ThreadId)
    requires !Releases(s, ApplyStatus(host), t)
    ensures SameProjection(s, ApplyRuntimeStatus(s, host), t)
  {
    StatusFrame(s, host);
    SameThreadIsReflexive(s, t);
    hide SameOwned, SameApprovals, SameAt, ApplyRuntimeStatus;
  }

  lemma RefuseKeepsProjection(s: State, verdict: Verdict, t: ThreadId)
    requires !verdict.Pass?
    ensures SameProjection(s, Refuse(s, verdict), t)
  {
    SameThreadIsReflexive(s, t);
    hide SameOwned, SameApprovals, SameAt;
  }

  /**
   * Two runs that agree on a thread and apply the same events of it, whatever else each of them does with
   * other threads, agree on it at the end. Taken on prefixes this is agreement at every later point.
   */
  lemma {:induction false} AgreementPersists(a: State, left: seq<Action>, b: State, right: seq<Action>, t: ThreadId)
    requires Inv(a) && Inv(b) && Agree(a, b, t)
    requires AdmissibleRun(a, left) && AdmissibleRun(b, right)
    requires Follows(a, left, t) && Follows(b, right, t)
    requires EventsOf(left, t) == EventsOf(right, t)
    ensures Agree(Run(a, left), Run(b, right), t)
    decreases |left| + |right|
  {
    hide Inv, Agree, Apply, SameProjection, Releases, GuardThread, Admissible;
    if |left| > 0 && !IsEventOf(left[0], t) {
      var a' := Apply(a, left[0]);
      StepKeepsInv(a, left[0]);
      OtherStepKeepsProjection(a, left[0], t);
      InvHasStructure(a);
      SameProjectionAgrees(a, a', b, t);
      AgreementPersists(a', left[1..], b, right, t);
    } else if |right| > 0 && !IsEventOf(right[0], t) {
      var b' := Apply(b, right[0]);
      StepKeepsInv(b, right[0]);
      OtherStepKeepsProjection(b, right[0], t);
      InvHasStructure(b);
      AgreeIsSymmetric(a, b, t);
      SameProjectionAgrees(b, b', a, t);
      AgreeIsSymmetric(b', a, t);
      AgreementPersists(a, left, b', right[1..], t);
    } else if |left| > 0 && |right| > 0 {
      BothStep(a, left, b, right, t);
      AgreementPersists(Apply(a, left[0]), left[1..], Apply(b, right[0]), right[1..], t);
    } else {
      EventsOfEmptySide(left, right, t);
    }
  }

  lemma InvHasStructure(s: State)
    requires Inv(s)
    ensures Structure(s)
  {
  }

  lemma EventsOfEmptySide(left: seq<Action>, right: seq<Action>, t: ThreadId)
    requires EventsOf(left, t) == EventsOf(right, t)
    requires |left| > 0 ==> IsEventOf(left[0], t)
    requires |right| > 0 ==> IsEventOf(right[0], t)
    requires |left| == 0 || |right| == 0
    ensures |left| == 0 && |right| == 0
  {
    assert |left| > 0 ==> |EventsOf(left, t)| > 0;
    assert |right| > 0 ==> |EventsOf(right, t)| > 0;
  }

  lemma BothStep(a: State, left: seq<Action>, b: State, right: seq<Action>, t: ThreadId)
    requires Inv(a) && Inv(b) && Agree(a, b, t) && |left| > 0 && |right| > 0
    requires IsEventOf(left[0], t) && IsEventOf(right[0], t) && EventsOf(left, t) == EventsOf(right, t)
    requires GuardThread(a, left[0].event).Pass? && GuardThread(b, right[0].event).Pass?
    requires Admissible(a, left[0]) && Admissible(b, right[0])
    ensures left[0] == right[0] && EventsOf(left[1..], t) == EventsOf(right[1..], t)
    ensures Inv(Apply(a, left[0])) && Inv(Apply(b, right[0]))
    ensures Agree(Apply(a, left[0]), Apply(b, right[0]), t)
  {
    hide Inv, Agree, ApplyThreadEvent, GuardThread, Admissible;
    assert EventsOf(left, t)[0] == left[0].event && EventsOf(right, t)[0] == right[0].event;
    assert EventsOf(left[1..], t) == EventsOf(left, t)[1..];
    assert EventsOf(right[1..], t) == EventsOf(right, t)[1..];
    StepKeepsInv(a, left[0]);
    StepKeepsInv(b, right[0]);
    InvHasStructure(a);
    InvHasStructure(b);
    EventKeepsAgreement(a, b, left[0].event);
  }

  /** Resync soundness: recover one run by a snapshot of the other's projection, then follow the same events. */
  lemma ResyncConverges(a: State, left: seq<Action>, b: State, snap: Snapshot, right: seq<Action>)
    requires Inv(a) && Inv(b) && GuardSnapshot(b, snap).Pass? && Captures(snap, a)
    requires AdmissibleRun(a, left) && AdmissibleRun(b, [ApplySnap(snap)] + right)
    requires Follows(a, left, snap.thread.threadId)
    requires Follows(Apply(b, ApplySnap(snap)), right, snap.thread.threadId)
    requires EventsOf(left, snap.thread.threadId) == EventsOf(right, snap.thread.threadId)
    ensures Agree(Run(a, left), Run(b, [ApplySnap(snap)] + right), snap.thread.threadId)
  {
    hide Inv, Agree, Apply, Admissible, GuardSnapshot, Captures, Follows;
    var all := [ApplySnap(snap)] + right;
    assert all[0] == ApplySnap(snap) && all[1..] == right;
    SnapshotEstablishesAgreement(a, b, snap);
    StepKeepsInv(b, ApplySnap(snap));
    AgreementPersists(a, left, Apply(b, ApplySnap(snap)), right, snap.thread.threadId);
  }
}

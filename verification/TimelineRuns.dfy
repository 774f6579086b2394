/** Whole-run invariant, thread isolation, and the exact role of the two environment hypotheses. */
module TimelineRuns {
  import opened Wrappers
  import opened Seqs
  import opened Utf8
  import opened TimelineState
  import opened TimelineReducer
  import opened TimelineInvariant

  /** Two maps hold the same entry, or none, at one key. */
  ghost predicate SameAt<K, V>(old_: map<K, V>, new_: map<K, V>, k: K) {
    && (k in old_ <==> k in new_)
    && (k in old_ ==> old_[k] == new_[k])
  }

  // ---- One thread event ----------------------------------------------------------------

  /** A payload that files an item or delta, or is about approvals and tools, leaves threads and sequencing alone. */
  lemma PlainFrame(s: State, t: ThreadId, payload: Payload)
    requires Project(s, t, payload).Ok? && !payload.ThreadChanged? && !payload.TurnChanged?
    ensures var n := Project(s, t, payload).value;
            n == s.(items := n.items, itemThread := n.itemThread, itemBytes := n.itemBytes, itemIds := n.itemIds,
                 approvals := n.approvals)
  {
    hide DurableUserItem, ByteLength, CachedBytes, TextOf, Order;
  }

  lemma TurnFrame(s: State, t: ThreadId, payload: Payload)
    requires Project(s, t, payload).Ok? && (payload.ThreadChanged? || payload.TurnChanged?)
    ensures var n := Project(s, t, payload).value;
            && n == s.(threads := n.threads, turns := n.turns)
            && (forall b :: b != t ==> (b in n.threads <==> b in s.threads))
            && (forall b :: b != t && b in s.threads ==> n.threads[b] == s.threads[b])
  {
    hide TurnItemsBelongTo, ThreadAfterTurn;
  }

  /** The `switch` touches neither sequence numbers nor the dedup window nor any other thread's entry. */
  lemma ProjectFrame(s: State, t: ThreadId, payload: Payload)
    requires Project(s, t, payload).Ok?
    ensures var n := Project(s, t, payload).value;
            && n.phase == s.phase && n.server == s.server && n.generation == s.generation
            && n.lastSeq == s.lastSeq && n.seen == s.seen && n.seenOrder == s.seenOrder && n.resync == s.resync
            && (forall b :: b != t ==> (b in n.threads <==> b in s.threads))
            && (forall b :: b != t && b in s.threads ==> n.threads[b] == s.threads[b])
  {
    hide Project;
    if payload.ThreadChanged? || payload.TurnChanged? {
      TurnFrame(s, t, payload);
    } else {
      PlainFrame(s, t, payload);
    }
  }

  lemma ProjectItemKeeps(s: State, t: ThreadId, on: ItemMethod, item: Item)
    requires Structure(s) && BytesBounded(s.items, s.itemBytes) && ProjectItem(s, t, on, item).Ok?
    ensures Structure(ProjectItem(s, t, on, item).value)
    ensures BytesBounded(ProjectItem(s, t, on, item).value.items, ProjectItem(s, t, on, item).value.itemBytes)
  {
    if item.itemId in s.items && item.turnId in s.turns {
      assert s.turns[item.turnId].threadId == s.itemThread[item.itemId];
    }
    ApplyItemKeepsStructure(s, item, t);
  }

  lemma ProjectDeltaKeeps(s: State, t: ThreadId, i: ItemId, delta: Text)
    requires Structure(s) && BytesBounded(s.items, s.itemBytes) && ProjectDelta(s, t, i, delta).Ok?
    ensures Structure(ProjectDelta(s, t, i, delta).value)
    ensures BytesBounded(ProjectDelta(s, t, i, delta).value.items, ProjectDelta(s, t, i, delta).value.itemBytes)
  {
    ApplyDeltaKeepsStructure(s, i, delta);
    ByteLengthOfConcat(TextOf(s.items[i]), delta);
  }

  lemma ProjectKeeps(s: State, t: ThreadId, payload: Payload)
    requires Structure(s) && BytesBounded(s.items, s.itemBytes) && Project(s, t, payload).Ok?
    ensures Structure(Project(s, t, payload).value)
    ensures BytesBounded(Project(s, t, payload).value.items, Project(s, t, payload).value.itemBytes)
  {
    hide KeysAgree, OrderExact, TurnsOwned, BytesBounded, TurnItemsBelongTo, ProjectItem, ProjectDelta, ThreadAfterTurn;
    match payload
    case ThreadChanged(_) =>
    case TurnChanged(turn) => ApplyTurnKeepsStructure(s, turn);
    case ItemChanged(on, item) => ProjectItemKeeps(s, t, on, item);
    case ItemDelta(i, delta) => ProjectDeltaKeeps(s, t, i, delta);
    case ApprovalRequested(_) =>
    case ApprovalResolved(_, _, _) =>
    case ExternalTool(_) =>
  }

  lemma CommitRestoresSeqCopies(threads: map<ThreadId, Thread>, lastSeq: map<ThreadId, nat>, t: ThreadId, n: nat)
    requires forall b :: b != t && b in threads ==> b in lastSeq && threads[b].lastSeq == lastSeq[b]
    ensures SeqCopies(if t in threads then threads[t := threads[t].(lastSeq := n)] else threads, lastSeq[t := n])
  {
  }

  /** A refused step leaves at most a resync mark behind and is never reported as applied. */
  lemma RefuseShape(s: State, verdict: Verdict)
    requires !verdict.Pass?
    ensures var r := Refuse(s, verdict); r == s.(resync := r.resync, lastOutcome := r.lastOutcome)
    ensures Refuse(s, verdict).lastOutcome == Some(verdict.outcome)
    ensures Refuse(s, verdict).resync == if verdict.Latch? then s.resync[verdict.scope := verdict.reason] else s.resync
  {
  }

  lemma RefuseKeepsInv(s: State, verdict: Verdict)
    requires Inv(s) && !verdict.Pass?
    ensures Inv(Refuse(s, verdict))
  {
    hide KeysAgree, OrderExact, TurnsOwned, SeqCopies, WindowExact, BytesBounded;
  }

  lemma CommitKeepsInv(s: State, n: State, e: ThreadEvent)
    requires Structure(n) && BytesBounded(n.items, n.itemBytes) && WindowExact(n.seen, n.seenOrder) && Anchored(n)
    requires e.Key() !in n.seen
    requires forall b :: b != e.threadId && b in n.threads ==> b in n.lastSeq && n.threads[b].lastSeq == n.lastSeq[b]
    ensures Inv(Commit(n, e))
  {
    hide KeysAgree, OrderExact, TurnsOwned, SeqCopies, WindowExact, BytesBounded;
    CommitRestoresSeqCopies(n.threads, n.lastSeq, e.threadId, e.seqNo);
    RememberKeepsWindow(n, e.Key());
  }

  lemma ThreadEventKeepsInv(s: State, e: ThreadEvent)
    requires Inv(s)
    ensures Inv(ApplyThreadEvent(s, e))
  {
    hide Structure, WindowExact, BytesBounded, Commit, Refuse;
    if GuardThread(s, e).Pass? {
      var n := Project(s, e.threadId, e.payload).value;
      ProjectFrame(s, e.threadId, e.payload);
      ProjectKeeps(s, e.threadId, e.payload);
      hide Project;
      CommitKeepsInv(s, n, e);
    } else {
      RefuseKeepsInv(s, GuardThread(s, e));
    }
  }

  // ---- Snapshots, statuses and runtime events ------------------------------------------

  lemma MergingKeepsBytes(items: Items, bytes: Counters, gone: set<ItemId>, arriving: Items)
    requires BytesBounded(items, bytes) && items.Keys == bytes.Keys
    requires forall i :: i in arriving ==> ByteLength(TextOf(arriving[i])) <= MAX_TEXT_BYTES
    ensures BytesBounded(items - gone + arriving, bytes - gone + CountersOf(arriving))
  {
  }

  lemma InstallKeepsBytes(s: State, snap: Snapshot)
    requires Structure(s) && BytesBounded(s.items, s.itemBytes) && SnapshotTextsFit(snap)
    ensures BytesBounded(InstallSnapshot(s, snap).items, InstallSnapshot(s, snap).itemBytes)
  {
    hide BytesBounded, OrderExact, TurnsOwned;
    MergingKeepsBytes(s.items, s.itemBytes, Removed(s, snap.thread.threadId), ItemMap(snap.items));
  }

  lemma AcceptedStealsNothing(s: State, snap: Snapshot)
    requires GuardSnapshot(s, snap).Pass? && Anchored(s)
    ensures StealsNoItem(s, snap)
  {
  }

  lemma InstallKeepsStructure(s: State, snap: Snapshot)
    requires Structure(s) && ValidSnapshotStructure(s, snap) && StealsNoItem(s, snap) && NamesNoForeignTurn(s, snap)
    ensures Structure(InstallSnapshot(s, snap))
  {
    InstallKeepsKeys(s, snap);
    InstallKeepsOrder(s, snap);
    InstallKeepsTurns(s, snap);
    hide KeysAgree, OrderExact, TurnsOwned, InstallSnapshot;
  }

  lemma InstallKeepsRest(s: State, snap: Snapshot)
    requires WindowExact(s.seen, s.seenOrder) && SeqCopies(s.threads, s.lastSeq)
             && snap.thread.lastSeq == snap.snapshotSeq
    ensures var r := InstallSnapshot(s, snap);
            WindowExact(r.seen, r.seenOrder) && SeqCopies(r.threads, r.lastSeq) && Anchored(r)
  {
    hide WindowExact, Removed, ItemMap, ItemIdsOf, CountersOf, OwnersOf;
    ClearKeepsWindow(s, ThreadScope(snap.thread.threadId));
  }

  lemma AcceptedSnapshotKeepsInv(s: State, snap: Snapshot)
    requires Inv(s) && NamesNoForeignTurn(s, snap) && GuardSnapshot(s, snap).Pass?
    ensures Inv(InstallSnapshot(s, snap))
  {
    AcceptedStealsNothing(s, snap);
    InstallKeepsStructure(s, snap);
    InstallKeepsBytes(s, snap);
    InstallKeepsRest(s, snap);
    hide Structure, SeqCopies, WindowExact, BytesBounded, NamesNoForeignTurn, StealsNoItem, InstallSnapshot;
  }

  lemma SnapshotKeepsInv(s: State, snap: Snapshot)
    requires Inv(s) && NamesNoForeignTurn(s, snap)
    ensures Inv(ApplySnapshot(s, snap))
  {
    hide Inv, InstallSnapshot, NamesNoForeignTurn, GuardSnapshot, Refuse;
    if GuardSnapshot(s, snap).Pass? {
      AcceptedSnapshotKeepsInv(s, snap);
    } else {
      RefuseKeepsInv(s, GuardSnapshot(s, snap));
    }
  }

  lemma AdmittedRuntimeKeepsInv(s: State, e: RuntimeEvent)
    requires Inv(s) && e.Key() !in s.seen
    ensures Inv(AdmitRuntime(s, e))
  {
    hide KeysAgree, OrderExact, TurnsOwned, SeqCopies, WindowExact, BytesBounded;
    RememberKeepsWindow(s, e.Key());
  }

  lemma RuntimeEventKeepsInv(s: State, e: RuntimeEvent)
    requires Inv(s)
    ensures Inv(ApplyRuntimeEvent(s, e))
  {
    hide Inv, AdmitRuntime, Refuse;
    if GuardRuntime(s, e).Pass? {
      AdmittedRuntimeKeepsInv(s, e);
    } else {
      RefuseKeepsInv(s, GuardRuntime(s, e));
    }
  }

  lemma StatusKeepsInv(s: State, host: HostStatus)
    requires Inv(s) && (IsReadyStatus(host.status) ==> host.server.Some?)
    ensures Inv(ApplyRuntimeStatus(s, host))
  {
    if StatusAccepted(s, host) && StatusKeepsEntities(s, host) {
      hide KeysAgree, OrderExact, TurnsOwned, SeqCopies, WindowExact, BytesBounded;
    }
  }

  lemma StepKeepsInv(s: State, action: Action)
    requires Inv(s) && Admissible(s, action)
    ensures Inv(Apply(s, action))
  {
    hide Inv, ApplyThreadEvent, ApplyRuntimeEvent, ApplyRuntimeStatus, ApplySnapshot;
    match action
    case ApplyStatus(host) => StatusKeepsInv(s, host);
    case ApplySnap(snap) => SnapshotKeepsInv(s, snap);
    case ApplyThread(e) => ThreadEventKeepsInv(s, e);
    case ApplyRuntime(e) => RuntimeEventKeepsInv(s, e);
  }

  // ---- Whole runs ----------------------------------------------------------------------

  ghost function Run(s: State, actions: seq<Action>): State
    decreases |actions|
  {
    if |actions| == 0 then s else Run(Apply(s, actions[0]), actions[1..])
  }

  ghost predicate AdmissibleRun(s: State, actions: seq<Action>)
    decreases |actions|
  {
    |actions| == 0 || (Admissible(s, actions[0]) && AdmissibleRun(Apply(s, actions[0]), actions[1..]))
  }

  lemma {:induction false} RunKeepsInv(s: State, actions: seq<Action>)
    requires Inv(s) && AdmissibleRun(s, actions)
    ensures Inv(Run(s, actions))
    decreases |actions|
  {
    if |actions| > 0 {
      StepKeepsInv(s, actions[0]);
      RunKeepsInv(Apply(s, actions[0]), actions[1..]);
    }
  }

  /** Every state an admissible run reaches from the empty timeline satisfies the invariant. */
  lemma ReachableStatesAreConsistent(actions: seq<Action>)
    requires AdmissibleRun(EmptyState, actions)
    ensures Inv(Run(EmptyState, actions))
  {
    RunKeepsInv(EmptyState, actions);
  }

  // ---- Isolation -----------------------------------------------------------------------

  ghost predicate SameOwned<V>(values: map<ItemId, V>, owner: Owners, values': map<ItemId, V>, owner': Owners,
                               b: ThreadId)
  {
    && (forall i :: i in owner && owner[i] == b <==> i in owner' && owner'[i] == b)
    && (forall i :: i in owner && owner[i] == b ==> (i in values <==> i in values'))
    && (forall i :: i in owner && owner[i] == b && i in values ==> values[i] == values'[i])
  }

  ghost predicate SameApprovals(old_: map<ApprovalId, ApprovalState>, new_: map<ApprovalId, ApprovalState>,
                               b: ThreadId)
  {
    && (forall a :: a in old_ && old_[a].threadId == b ==> a in new_ && new_[a] == old_[a])
    && (forall a :: a in new_ && new_[a].threadId == b ==> a in old_ && old_[a] == new_[a])
  }

  /** Items, order, sequence, entry and approvals of thread `b` are the same in both states. */
  ghost predicate SameProjection(s: State, r: State, b: ThreadId) {
    && Order(s, b) == Order(r, b)
    && SameOwned(s.items, s.itemThread, r.items, r.itemThread, b)
    && SameOwned(s.itemBytes, s.itemThread, r.itemBytes, r.itemThread, b)
    && SameAt(s.threads, r.threads, b)
    && SameAt(s.lastSeq, r.lastSeq, b)
    && SameApprovals(s.approvals, r.approvals, b)
  }

  /** So is its resync mark. */
  ghost predicate SameThread(s: State, r: State, b: ThreadId) {
    SameProjection(s, r, b) && SameAt(s.resync, r.resync, ThreadScope(b))
  }

  lemma FilingIsolates<V>(values: map<ItemId, V>, owner: Owners, i: ItemId, v: V, t: ThreadId, b: ThreadId)
    requires t != b && (i in owner ==> owner[i] == t)
    ensures SameOwned(values, owner, values[i := v], owner[i := t], b)
  {
  }

  lemma ProjectItemIsolates(s: State, t: ThreadId, on: ItemMethod, item: Item, b: ThreadId)
    requires KeysAgree(s.items, s.itemThread, s.itemBytes) && t != b && ProjectItem(s, t, on, item).Ok?
    ensures SameThread(s, ProjectItem(s, t, on, item).value, b)
  {
    hide KeysAgree, DurableUserItem, ByteLength, SameOwned;
    FilingIsolates(s.items, s.itemThread, item.itemId, item, t, b);
    FilingIsolates(s.itemBytes, s.itemThread, item.itemId, ByteLength(TextOf(item)), t, b);
  }

  lemma ProjectDeltaIsolates(s: State, t: ThreadId, i: ItemId, delta: Text, b: ThreadId)
    requires t != b && ProjectDelta(s, t, i, delta).Ok?
    ensures SameThread(s, ProjectDelta(s, t, i, delta).value, b)
  {
    hide ByteLength;
  }

  lemma ProjectTurnIsolates(s: State, t: ThreadId, turn: Turn, b: ThreadId)
    requires t != b && ProjectTurn(s, t, turn).Ok?
    ensures SameThread(s, ProjectTurn(s, t, turn).value, b)
  {
    hide TurnItemsBelongTo, ThreadAfterTurn;
  }

  lemma ApprovalWriteIsolates(s: State, a: ApprovalId, next: ApprovalState, b: ThreadId)
    requires next.threadId != b && (a in s.approvals ==> s.approvals[a].threadId != b)
    ensures SameThread(s, s.(approvals := s.approvals[a := next]), b)
  {
  }

  lemma ProjectApprovalIsolates(s: State, t: ThreadId, approval: ApprovalSummary, b: ThreadId)
    requires t != b && ProjectApproval(s, t, approval).Ok?
    ensures SameThread(s, ProjectApproval(s, t, approval).value, b)
  {
    hide SameThread;
    ApprovalWriteIsolates(s, approval.approvalId, ApplyApprovalRequested(s, approval).approvals[approval.approvalId],
        b);
  }

  lemma ProjectResolutionIsolates(s: State, t: ThreadId, a: ApprovalId, d: Decision, at: string, b: ThreadId)
    requires t != b && ProjectResolution(s, t, a, d, at).Ok?
    ensures SameThread(s, ProjectResolution(s, t, a, d, at).value, b)
  {
    var r := ApplyApprovalResolved(s, a, d, at, t);
    if r == s {
      hide SameOwned, SameApprovals, SameAt;
      SameThreadIsReflexive(s, b);
    } else {
      hide SameThread;
      ApprovalWriteIsolates(s, a, r.approvals[a], b);
    }
  }

  lemma SameThreadIsReflexive(s: State, b: ThreadId)
    ensures SameThread(s, s, b)
  {
  }

  lemma ProjectIsolates(s: State, t: ThreadId, payload: Payload, b: ThreadId)
    requires KeysAgree(s.items, s.itemThread, s.itemBytes) && t != b && Project(s, t, payload).Ok?
    ensures SameThread(s, Project(s, t, payload).value, b)
  {
    hide SameThread, ProjectItem, ProjectDelta, ProjectTurn, ProjectApproval, ProjectResolution, KeysAgree;
    match payload
    case ThreadChanged(_) => ProjectPlainIsolates(s, t, payload, b);
    case TurnChanged(turn) => ProjectTurnIsolates(s, t, turn, b);
    case ItemChanged(on, item) => ProjectItemIsolates(s, t, on, item, b);
    case ItemDelta(i, delta) => ProjectDeltaIsolates(s, t, i, delta, b);
    case ApprovalRequested(approval) => ProjectApprovalIsolates(s, t, approval, b);
    case ApprovalResolved(a, d, at) => ProjectResolutionIsolates(s, t, a, d, at, b);
    case ExternalTool(_) => ProjectPlainIsolates(s, t, payload, b);
  }

  lemma ProjectPlainIsolates(s: State, t: ThreadId, payload: Payload, b: ThreadId)
    requires t != b && (payload.ThreadChanged? || payload.ExternalTool?) && Project(s, t, payload).Ok?
    ensures SameThread(s, Project(s, t, payload).value, b)
  {
  }

  lemma CommitIsolates(s: State, e: ThreadEvent, b: ThreadId)
    requires e.threadId != b
    ensures SameThread(s, Commit(s, e), b)
  {
    hide RememberEvent, SameOwned, SameApprovals;
    RememberFrame(s, ThreadScope(e.threadId), e.Key());
    SameThreadIsReflexive(s, b);
  }

  lemma RememberFrame(s: State, scope: Scope, key: Fingerprint)
    ensures var r := RememberEvent(s, scope, key); r == s.(seen := r.seen, seenOrder := r.seenOrder)
  {
  }

  lemma RemoveIsolates(s: State, t: ThreadId, b: ThreadId)
    requires Structure(s) && t != b
    ensures SameThread(s, RemoveThreadEntities(s, t), b)
  {
    RemovedAreOwned(s, t);
  }

  lemma FillingIsolates<V>(values: map<ItemId, V>, owner: Owners, without: map<ItemId, V>, kept: Owners,
                           arriving: map<ItemId, V>, filed: Owners, t: ThreadId, b: ThreadId)
    requires SameOwned(values, owner, without, kept, b)
    requires t != b && arriving.Keys == filed.Keys
    requires forall i :: i in filed ==> filed[i] == t && i !in kept
    ensures SameOwned(values, owner, without + arriving, kept + filed, b)
  {
  }

  lemma ArrivingAreNew(s: State, snap: Snapshot)
    requires Structure(s) && StealsNoItem(s, snap)
    ensures forall i :: i in ItemMap(snap.items) ==> i !in RemoveThreadEntities(s, snap.thread.threadId).itemThread
  {
    hide ClearSeenScope;
    RemovedAreOwned(s, snap.thread.threadId);
    forall i | i in ItemMap(snap.items) ensures i !in RemoveThreadEntities(s, snap.thread.threadId).itemThread {
      var k :| 0 <= k < |snap.items| && snap.items[k].itemId == i;
    }
  }

  lemma InstallIsolatesItems(s: State, snap: Snapshot, b: ThreadId)
    requires Structure(s) && StealsNoItem(s, snap) && snap.thread.threadId != b
    ensures var r := InstallSnapshot(s, snap);
            && SameOwned(s.items, s.itemThread, r.items, r.itemThread, b)
            && SameOwned(s.itemBytes, s.itemThread, r.itemBytes, r.itemThread, b)
  {
    hide SameOwned, RemoveThreadEntities, Structure, StealsNoItem;
    var t := snap.thread.threadId;
    var w := RemoveThreadEntities(s, t);
    RemoveIsolates(s, t, b);
    ArrivingAreNew(s, snap);
    var arriving := ItemMap(snap.items);
    var filed := OwnersOf(arriving, t);
    var counted := CountersOf(arriving);
    FillingIsolates(s.items, s.itemThread, w.items, w.itemThread, arriving, filed, t, b);
    FillingIsolates(s.itemBytes, s.itemThread, w.itemBytes, w.itemThread, counted, filed, t, b);
  }

  lemma InstallIsolates(s: State, snap: Snapshot, b: ThreadId)
    requires Structure(s) && StealsNoItem(s, snap) && snap.thread.threadId != b
    ensures SameThread(s, InstallSnapshot(s, snap), b)
  {
    hide SameOwned, SameApprovals, RemoveThreadEntities, InstallSnapshot, Structure, StealsNoItem;
    InstallIsolatesItems(s, snap, b);
    RemoveIsolates(s, snap.thread.threadId, b);
    InstallFrame(s, snap, b);
  }

  lemma InstallFrame(s: State, snap: Snapshot, b: ThreadId)
    requires snap.thread.threadId != b
    ensures var w := RemoveThreadEntities(s, snap.thread.threadId);
            var r := InstallSnapshot(s, snap);
            && Order(r, b) == Order(w, b) && r.approvals == w.approvals
            && SameAt(w.threads, r.threads, b) && SameAt(w.lastSeq, r.lastSeq, b)
            && SameAt(w.resync, r.resync, ThreadScope(b))
  {
    hide RemoveThreadEntities, ItemMap, ItemIdsOf, CountersOf, OwnersOf;
  }

  /** The action is about the given thread. */
  ghost predicate Concerns(action: Action, t: ThreadId) {
    match action
    case ApplySnap(snap) => snap.thread.threadId == t
    case ApplyThread(e) => e.threadId == t
    case _ => false
  }

  lemma SameThreadIsTransitive(s: State, m: State, r: State, b: ThreadId)
    requires SameThread(s, m, b) && SameThread(m, r, b)
    ensures SameThread(s, r, b)
  {
  }

  lemma RefuseIsolates(s: State, verdict: Verdict, b: ThreadId)
    requires !verdict.Pass? && (verdict.Latch? ==> verdict.scope != ThreadScope(b))
    ensures SameThread(s, Refuse(s, verdict), b)
  {
    SameThreadIsReflexive(s, b);
    hide SameOwned, SameApprovals;
  }

  lemma ThreadEventIsolates(s: State, e: ThreadEvent, b: ThreadId)
    requires Inv(s) && e.threadId != b
    ensures SameThread(s, ApplyThreadEvent(s, e), b)
  {
    hide SameThread, Commit, Refuse;
    if GuardThread(s, e).Pass? {
      var n := Project(s, e.threadId, e.payload).value;
      ProjectIsolates(s, e.threadId, e.payload, b);
      CommitIsolates(n, e, b);
      SameThreadIsTransitive(s, n, Commit(n, e), b);
      hide Project;
    } else {
      hide Project;
      RefuseIsolates(s, GuardThread(s, e), b);
    }
  }

  lemma AdmitRuntimeIsolates(s: State, e: RuntimeEvent, b: ThreadId)
    ensures SameThread(s, AdmitRuntime(s, e), b)
  {
    RememberFrame(s, RuntimeScope, e.Key());
    SameThreadIsReflexive(s, b);
    hide SameOwned, SameApprovals, RememberEvent;
  }

  lemma RuntimeEventIsolates(s: State, e: RuntimeEvent, b: ThreadId)
    ensures SameThread(s, ApplyRuntimeEvent(s, e), b)
  {
    hide SameThread, AdmitRuntime, Refuse;
    if GuardRuntime(s, e).Pass? {
      AdmitRuntimeIsolates(s, e, b);
    } else {
      RefuseIsolates(s, GuardRuntime(s, e), b);
    }
  }

  lemma SnapshotIsolates(s: State, snap: Snapshot, b: ThreadId)
    requires Inv(s) && snap.thread.threadId != b
    ensures SameThread(s, ApplySnapshot(s, snap), b)
  {
    hide SameThread, InstallSnapshot, Refuse;
    if GuardSnapshot(s, snap).Pass? {
      AcceptedStealsNothing(s, snap);
      InstallIsolates(s, snap, b);
    } else {
      RefuseIsolates(s, GuardSnapshot(s, snap), b);
    }
  }

  /** A live event or snapshot never disturbs a thread it is not about. */
  lemma StepIsolates(s: State, action: Action, b: ThreadId)
    requires Inv(s) && !action.ApplyStatus? && !Concerns(action, b)
    ensures SameThread(s, Apply(s, action), b)
  {
    hide Inv, SameThread, ApplyThreadEvent, ApplyRuntimeEvent, ApplySnapshot;
    match action
    case ApplySnap(snap) => SnapshotIsolates(s, snap, b);
    case ApplyThread(e) => ThreadEventIsolates(s, e, b);
    case ApplyRuntime(e) => RuntimeEventIsolates(s, e, b);
  }

  // ---- Outcomes ------------------------------------------------------------------------

  /** The guards in front of the action let it through. */
  ghost predicate Admitted(s: State, action: Action) {
    match action
    case ApplyStatus(host) => StatusAccepted(s, host)
    case ApplySnap(snap) => GuardSnapshot(s, snap).Pass?
    case ApplyThread(e) => GuardThread(s, e).Pass?
    case ApplyRuntime(e) => GuardRuntime(s, e).Pass?
  }

  lemma SnapshotGuardOutcome(s: State, snap: Snapshot)
    requires !GuardSnapshot(s, snap).Pass?
    ensures GuardSnapshot(s, snap).outcome != Applied
  {
    hide ValidSnapshotStructure, ValidSnapshotEvents, SnapshotTextsFit;
  }

  lemma ThreadGuardOutcome(s: State, e: ThreadEvent)
    requires !GuardThread(s, e).Pass?
    ensures GuardThread(s, e).outcome != Applied
  {
    hide Project;
  }

  lemma RuntimeGuardOutcome(s: State, e: RuntimeEvent)
    requires !GuardRuntime(s, e).Pass?
    ensures GuardRuntime(s, e).outcome != Applied
  {
  }

  /** Two resync maps that differ at one scope at most. */
  ghost predicate OneMark(old_: map<Scope, ResyncReason>, new_: map<Scope, ResyncReason>) {
    forall c, d :: !SameAt(old_, new_, c) && !SameAt(old_, new_, d) ==> c == d
  }

  lemma OneWrite(marks: map<Scope, ResyncReason>, scope: Scope, reason: ResyncReason)
    ensures OneMark(marks, marks) && OneMark(marks, marks[scope := reason])
  {
  }

  /** Nothing but the outcome and at most one resync mark has changed. */
  ghost predicate OnlyReports(s: State, r: State) {
    r == s.(resync := r.resync, lastOutcome := r.lastOutcome) && OneMark(s.resync, r.resync)
  }

  lemma RefusalIsReported(s: State, verdict: Verdict)
    requires !verdict.Pass? && verdict.outcome != Applied
    ensures OnlyReports(s, Refuse(s, verdict)) && Refuse(s, verdict).lastOutcome != Some(Applied)
  {
    RefuseShape(s, verdict);
    hide OneMark, SameAt;
    if verdict.Latch? {
      OneWrite(s.resync, verdict.scope, verdict.reason);
    } else {
      OneWrite(s.resync, RuntimeScope, HandshakeRequired);
    }
  }

  lemma StatusOutcome(s: State, host: HostStatus)
    ensures ApplyRuntimeStatus(s, host).lastOutcome == Some(Applied) <==> StatusAccepted(s, host)
    ensures !StatusAccepted(s, host) ==> OnlyReports(s, ApplyRuntimeStatus(s, host))
  {
    hide OneMark;
    OneWrite(s.resync, RuntimeScope, HandshakeRequired);
  }

  lemma SnapshotOutcome(s: State, snap: Snapshot)
    ensures ApplySnapshot(s, snap).lastOutcome == Some(Applied) <==> GuardSnapshot(s, snap).Pass?
    ensures !GuardSnapshot(s, snap).Pass? ==> OnlyReports(s, ApplySnapshot(s, snap))
  {
    if !GuardSnapshot(s, snap).Pass? {
      SnapshotGuardOutcome(s, snap);
      RefusalIsReported(s, GuardSnapshot(s, snap));
    }
    hide GuardSnapshot, OnlyReports, Refuse, Removed, ClearSeenScope, ItemMap, OwnersOf, CountersOf, ItemIdsOf;
  }

  lemma ThreadOutcome(s: State, e: ThreadEvent)
    ensures ApplyThreadEvent(s, e).lastOutcome == Some(Applied) <==> GuardThread(s, e).Pass?
    ensures !GuardThread(s, e).Pass? ==> OnlyReports(s, ApplyThreadEvent(s, e))
  {
    if !GuardThread(s, e).Pass? {
      ThreadGuardOutcome(s, e);
      RefusalIsReported(s, GuardThread(s, e));
    }
    hide OnlyReports, Refuse, Project, RememberEvent, GuardThread;
  }

  lemma RuntimeOutcome(s: State, e: RuntimeEvent)
    ensures ApplyRuntimeEvent(s, e).lastOutcome == Some(Applied) <==> GuardRuntime(s, e).Pass?
    ensures !GuardRuntime(s, e).Pass? ==> OnlyReports(s, ApplyRuntimeEvent(s, e))
  {
    if !GuardRuntime(s, e).Pass? {
      RuntimeGuardOutcome(s, e);
      RefusalIsReported(s, GuardRuntime(s, e));
    }
    hide OnlyReports, Refuse, GuardRuntime, RememberEvent;
  }

  /**
   * The reported outcome is `applied` exactly when the action passed its guards; otherwise nothing but the outcome
   * and at most one resync mark has changed.
   */
  lemma AppliedIffAdmitted(s: State, action: Action)
    ensures Apply(s, action).lastOutcome == Some(Applied) <==> Admitted(s, action)
    ensures !Admitted(s, action) ==> OnlyReports(s, Apply(s, action))
  {
    hide OnlyReports, StatusAccepted, ApplyRuntimeStatus, ApplySnapshot, ApplyThreadEvent, ApplyRuntimeEvent;
    match action
    case ApplyStatus(host) => StatusOutcome(s, host);
    case ApplySnap(snap) => SnapshotOutcome(s, snap);
    case ApplyThread(e) => ThreadOutcome(s, e);
    case ApplyRuntime(e) => RuntimeOutcome(s, e);
  }

  // ---- Turns of other threads ----------------------------------------------------------

  /** Thread `b` holds the same turns in both states. */
  ghost predicate SameTurns(old_: Turns, new_: Turns, b: ThreadId) {
    && (forall u :: u in old_ && old_[u].threadId == b ==> u in new_ && new_[u] == old_[u])
    && (forall u :: u in new_ && new_[u].threadId == b ==> u in old_ && old_[u] == new_[u])
  }

  /** An admitted turn event names a turn that thread `b` holds. */
  ghost predicate TakesTurnOf(s: State, action: Action, b: ThreadId) {
    && action.ApplyThread? && action.event.payload.TurnChanged? && GuardThread(s, action.event).Pass?
    && action.event.payload.turn.turnId in s.turns && s.turns[action.event.payload.turn.turnId].threadId == b
  }

  lemma ProjectedTurns(s: State, t: ThreadId, payload: Payload)
    requires Project(s, t, payload).Ok?
    ensures Project(s, t, payload).value.turns
            == if payload.TurnChanged? then s.turns[payload.turn.turnId := payload.turn] else s.turns
    ensures payload.TurnChanged? ==> payload.turn.threadId == t
  {
    hide TurnItemsBelongTo, ThreadAfterTurn;
  }

  lemma CommittedTurns(n: State, e: ThreadEvent)
    ensures Commit(n, e).turns == n.turns
  {
    hide RememberEvent;
    RememberFrame(n, ThreadScope(e.threadId), e.Key());
  }

  lemma FiledTurnIff(turns: Turns, turn: Turn, b: ThreadId)
    requires turn.threadId != b
    ensures SameTurns(turns, turns[turn.turnId := turn], b)
            <==> !(turn.turnId in turns && turns[turn.turnId].threadId == b)
  {
  }

  lemma RemovedTurns(s: State, t: ThreadId, b: ThreadId)
    requires t != b
    ensures SameTurns(s.turns, RemoveThreadEntities(s, t).turns, b)
  {
    hide Removed, ClearSeenScope;
  }

  lemma SnapshotTurns(s: State, snap: Snapshot, b: ThreadId)
    requires snap.thread.threadId != b
    ensures SameTurns(s.turns, ApplySnapshot(s, snap).turns, b)
  {
    hide SameTurns, RemoveThreadEntities, ItemMap, OwnersOf, CountersOf, ItemIdsOf, GuardSnapshot, Refuse;
    if GuardSnapshot(s, snap).Pass? {
      RemovedTurns(s, snap.thread.threadId, b);
    } else {
      RefuseShape(s, GuardSnapshot(s, snap));
      TurnsAreThemselves(s.turns, b);
    }
  }

  lemma ThreadEventTurns(s: State, e: ThreadEvent, b: ThreadId)
    requires e.threadId != b
    ensures SameTurns(s.turns, ApplyThreadEvent(s, e).turns, b) <==> !TakesTurnOf(s, ApplyThread(e), b)
  {
    hide SameTurns, GuardThread, Project, Commit, Refuse;
    if GuardThread(s, e).Pass? {
      PassedProjects(s, e);
      ProjectedTurns(s, e.threadId, e.payload);
      CommittedTurns(Project(s, e.threadId, e.payload).value, e);
      if e.payload.TurnChanged? {
        FiledTurnIff(s.turns, e.payload.turn, b);
      } else {
        TurnsAreThemselves(s.turns, b);
      }
    } else {
      RefuseShape(s, GuardThread(s, e));
      TurnsAreThemselves(s.turns, b);
    }
  }

  lemma RuntimeEventTurns(s: State, e: RuntimeEvent)
    ensures ApplyRuntimeEvent(s, e).turns == s.turns
  {
    hide RememberEvent, GuardRuntime, Refuse;
    if GuardRuntime(s, e).Pass? {
      RememberFrame(s, RuntimeScope, e.Key());
    } else {
      RefuseShape(s, GuardRuntime(s, e));
    }
  }

  /**
   * A live event or snapshot leaves the turns of every thread it is not about unchanged, with one exception: an
   * admitted turn event whose turn identifier another thread holds, without items, takes that turn over.
   */
  lemma TurnsAreIsolatedIff(s: State, action: Action, b: ThreadId)
    requires !action.ApplyStatus? && !Concerns(action, b)
    ensures SameTurns(s.turns, Apply(s, action).turns, b) <==> !TakesTurnOf(s, action, b)
  {
    hide SameTurns, GuardThread, ApplySnapshot, ApplyThreadEvent, ApplyRuntimeEvent;
    match action
    case ApplySnap(snap) => SnapshotTurns(s, snap, b);
    case ApplyThread(e) => ThreadEventTurns(s, e, b);
    case ApplyRuntime(e) =>
      RuntimeEventTurns(s, e);
      TurnsAreThemselves(s.turns, b);
  }

  lemma TurnsAreThemselves(turns: Turns, b: ThreadId)
    ensures SameTurns(turns, turns, b)
  {
  }

  lemma PassedProjects(s: State, e: ThreadEvent)
    requires GuardThread(s, e).Pass?
    ensures Project(s, e.threadId, e.payload).Ok?
  {
    hide Project;
  }
}

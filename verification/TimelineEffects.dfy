/** What each action leaves in the timeline, said on its maps, and what that means over whole runs. */
module TimelineEffects {
  import opened Wrappers
  import opened Seqs
  import opened Utf8
  import opened TimelineState
  import opened TimelineReducer
  import opened TimelineInvariant
  import opened TimelineRuns
  import opened TimelineExact
  import opened TimelineLog

  // ---- Thread events -------------------------------------------------------------------

  /** A completed user message, which may come before its turn is known. */
  predicate IsDurable(on: ItemMethod, item: Item) {
    on == OnCompleted && item.kind == UserMessage && item.status == ItemCompleted
  }

  predicate TurnIsOn(s: State, u: TurnId, t: ThreadId) { u in s.turns && s.turns[u].threadId == t }

  predicate ItemIsOn(s: State, i: ItemId, t: ThreadId) { i in s.itemThread && s.itemThread[i] == t }

  /** What an event of thread `t` must bring with it. */
  ghost predicate PayloadFits(s: State, t: ThreadId, payload: Payload) {
    match payload
    case ThreadChanged(thread) => thread.threadId == t
    case TurnChanged(turn) => turn.threadId == t && TurnItemsBelongTo(s, turn.turnId, t)
    case ItemChanged(on, item) =>
      && (item.itemId in s.items ==> s.items[item.itemId].turnId == item.turnId)
      && ByteLength(TextOf(item)) <= MAX_TEXT_BYTES
      && (IsDurable(on, item) && item.turnId in s.turns ==> TurnIsOn(s, item.turnId, t))
      && (if item.itemId in s.itemThread then ItemIsOn(s, item.itemId, t)
          else IsDurable(on, item) || (on == OnStarted && TurnIsOn(s, item.turnId, t)))
    case ItemDelta(i, delta) =>
      i in s.items && ItemIsOn(s, i, t) && i in s.itemBytes && s.itemBytes[i] + ByteLength(delta) <= MAX_TEXT_BYTES
    case ApprovalRequested(approval) =>
      && approval.threadId == t
      && (approval.approvalId in s.approvals ==>
            && s.approvals[approval.approvalId].threadId == t
            && (s.approvals[approval.approvalId].approval == None
                || s.approvals[approval.approvalId].approval == Some(approval)))
    case ApprovalResolved(a, _, _) => a in s.approvals ==> s.approvals[a].threadId == t
    case ExternalTool(owner) => owner == None || owner == Some(t)
    case Malformed => false
  }

  lemma ProjectsIff(s: State, t: ThreadId, payload: Payload)
    requires KeysAgree(s.items, s.itemThread, s.itemBytes)
    ensures Project(s, t, payload).Ok? <==> PayloadFits(s, t, payload)
  {
    hide ByteLength, TurnItemsBelongTo, ThreadAfterTurn, ApplyItem, ApplyDelta, ApplyTurn, TextOf;
    hide ApplyApprovalRequested, ApplyApprovalResolved;
  }

  /** An event is applied exactly when it is the next one of its thread, from this server, new, and fits. */
  lemma ThreadEventAppliedIff(s: State, e: ThreadEvent)
    requires KeysAgree(s.items, s.itemThread, s.itemBytes)
    ensures Apply(s, ApplyThread(e)).lastOutcome == Some(Applied)
            <==> && s.phase == ReadyPhase && s.server == Some(e.server)
                 && Fingerprint(e.server, ThreadScope(e.threadId), e.eventId) !in s.seen
                 && ThreadScope(e.threadId) !in s.resync
                 && e.seqNo == 1 + (if e.threadId in s.lastSeq then s.lastSeq[e.threadId] else 0)
                 && PayloadFits(s, e.threadId, e.payload)
  {
    AppliedIffAdmitted(s, ApplyThread(e));
    ProjectsIff(s, e.threadId, e.payload);
    hide Project, PayloadFits, Apply, OnlyReports;
  }

  /** What a payload refers to is not there: the item of a delta, or the item or turn that should have come before. */
  predicate RefersToNothing(s: State, t: ThreadId, payload: Payload) {
    match payload
    case ItemChanged(on, item) =>
      item.itemId !in s.itemThread && !IsDurable(on, item) && !(on == OnStarted && TurnIsOn(s, item.turnId, t))
    case ItemDelta(i, _) => !(i in s.items && ItemIsOn(s, i, t))
    case _ => false
  }

  /** The event is the first failing check's to report: which outcome, and which mark. */
  lemma RefusedEventReports(s: State, e: ThreadEvent)
    requires KeysAgree(s.items, s.itemThread, s.itemBytes)
    requires Apply(s, ApplyThread(e)).lastOutcome != Some(Applied)
    ensures var r := Apply(s, ApplyThread(e));
            var t := ThreadScope(e.threadId);
            var last := if e.threadId in s.lastSeq then s.lastSeq[e.threadId] else 0;
            if s.phase != ReadyPhase then
              r.lastOutcome == Some(Rejected) && r.resync == s.resync[RuntimeScope := HandshakeRequired]
            else if Fingerprint(e.server, t, e.eventId) in s.seen then
              r.lastOutcome == Some(Duplicate) && r.resync == s.resync
            else if s.server != Some(e.server) then
              r.lastOutcome == Some(ResyncRequired) && r.resync == s.resync[t := ServerInstanceChanged]
            else if t in s.resync then
              r.lastOutcome == Some(ResyncRequired) && r.resync == s.resync
            else if e.seqNo <= last then
              r.lastOutcome == Some(Late) && r.resync == s.resync[t := LateEvent]
            else if e.seqNo > last + 1 then
              r.lastOutcome == Some(GapOutcome) && r.resync == s.resync[t := Gap]
            else
              && r.lastOutcome == Some(ResyncRequired)
              && r.resync == s.resync[t := if RefersToNothing(s, e.threadId, e.payload) then MissingItem
                                           else InvalidEvent]
  {
    AppliedIffAdmitted(s, ApplyThread(e));
    RefuseShape(s, GuardThread(s, e));
    if Project(s, e.threadId, e.payload).Err? {
      ProjectReason(s, e.threadId, e.payload);
    }
    hide Project, Refuse, OnlyReports, RefersToNothing;
  }

  lemma ProjectReason(s: State, t: ThreadId, payload: Payload)
    requires KeysAgree(s.items, s.itemThread, s.itemBytes) && Project(s, t, payload).Err?
    ensures Project(s, t, payload).error == if RefersToNothing(s, t, payload) then MissingItem else InvalidEvent
  {
    hide ByteLength, TurnItemsBelongTo, ThreadAfterTurn, ApplyItem, ApplyDelta, ApplyTurn, TextOf, CachedBytes;
    hide ApplyApprovalRequested, ApplyApprovalResolved;
  }

  /** The entities of the committed state are those of the projected one. */
  lemma CommittedEntities(n: State, e: ThreadEvent)
    ensures var r := Commit(n, e);
            && r.items == n.items && r.itemThread == n.itemThread && r.itemBytes == n.itemBytes
            && r.itemIds == n.itemIds && r.turns == n.turns && r.approvals == n.approvals
            && r.threads == (if e.threadId in n.threads
                             then n.threads[e.threadId := n.threads[e.threadId].(lastSeq := e.seqNo)] else n.threads)
  {
    RememberFrame(n, ThreadScope(e.threadId), e.Key());
    hide RememberEvent;
  }

  /** An applied event is its projection, committed. */
  lemma AppliedIsProjected(s: State, e: ThreadEvent)
    requires Apply(s, ApplyThread(e)).lastOutcome == Some(Applied)
    ensures Project(s, e.threadId, e.payload).Ok?
    ensures Apply(s, ApplyThread(e)) == Commit(Project(s, e.threadId, e.payload).value, e)
  {
    AppliedIffAdmitted(s, ApplyThread(e));
    PassedProjects(s, e);
    hide Project, Commit, GuardThread;
  }

  /** A full item replaces what was held under its identifier, and is listed once, at the end when new. */
  lemma ItemEventStores(s: State, e: ThreadEvent)
    requires e.payload.ItemChanged? && Apply(s, ApplyThread(e)).lastOutcome == Some(Applied)
    ensures var r := Apply(s, ApplyThread(e));
            var item, t := e.payload.item, e.threadId;
            && r.items == s.items[item.itemId := item]
            && r.itemThread == s.itemThread[item.itemId := t]
            && r.itemBytes == s.itemBytes[item.itemId := ByteLength(TextOf(item))]
            && Order(r, t) == (if item.itemId in Order(s, t) then Order(s, t) else Order(s, t) + [item.itemId])
            && r.turns == s.turns && r.approvals == s.approvals
  {
    AppliedIsProjected(s, e);
    CommittedEntities(Project(s, e.threadId, e.payload).value, e);
    hide Apply, Commit, ByteLength, DurableUserItem;
  }

  /** A delta is appended to the text of its item and to nothing else. */
  lemma DeltaEventAppends(s: State, e: ThreadEvent)
    requires KeysAgree(s.items, s.itemThread, s.itemBytes)
    requires e.payload.ItemDelta? && Apply(s, ApplyThread(e)).lastOutcome == Some(Applied)
    ensures var r := Apply(s, ApplyThread(e));
            var i, delta := e.payload.itemId, e.payload.delta;
            && i in s.items
            && r.items == s.items[i := s.items[i].(text := Some(TextOf(s.items[i]) + delta))]
            && r.itemBytes == s.itemBytes[i := s.itemBytes[i] + ByteLength(delta)]
            && r.itemThread == s.itemThread && r.itemIds == s.itemIds && r.turns == s.turns
            && r.approvals == s.approvals
  {
    AppliedIsProjected(s, e);
    CommittedEntities(Project(s, e.threadId, e.payload).value, e);
    hide Apply, Commit, ByteLength;
  }

  /** A turn is stored, and its thread shows what the turn is doing. */
  lemma TurnEventStores(s: State, e: ThreadEvent)
    requires e.payload.TurnChanged? && Apply(s, ApplyThread(e)).lastOutcome == Some(Applied)
    ensures var r := Apply(s, ApplyThread(e));
            var turn, t := e.payload.turn, e.threadId;
            && r.turns == s.turns[turn.turnId := turn]
            && r.items == s.items && r.itemThread == s.itemThread && r.itemIds == s.itemIds
            && r.approvals == s.approvals
            && r.threads.Keys == s.threads.Keys
            && (t in s.threads ==>
                  var thread := r.threads[t];
                  && thread.threadId == s.threads[t].threadId && thread.detail == s.threads[t].detail
                  && thread.lastSeq == e.seqNo
                  && match turn.status
                     case TurnWaitingApproval =>
                       thread.status == WaitingApproval && thread.activeTurnId == Some(turn.turnId)
                     case Queued => thread.status == Running && thread.activeTurnId == Some(turn.turnId)
                     case TurnRunning => thread.status == Running && thread.activeTurnId == Some(turn.turnId)
                     case Interrupting => thread.status == Running && thread.activeTurnId == Some(turn.turnId)
                     case TurnCompleted => thread.status == Idle && thread.activeTurnId == None
                     case Interrupted => thread.status == Idle && thread.activeTurnId == None
                     case Failed => thread.status == Idle && thread.activeTurnId == None
                     case AbortedByRuntime => thread.status == Idle && thread.activeTurnId == None)
  {
    AppliedIsProjected(s, e);
    CommittedEntities(Project(s, e.threadId, e.payload).value, e);
    hide Apply, Commit, TurnItemsBelongTo;
  }

  /** A thread entry is replaced as a whole; only its sequence number is the event's. */
  lemma ThreadEntryStores(s: State, e: ThreadEvent)
    requires e.payload.ThreadChanged? && Apply(s, ApplyThread(e)).lastOutcome == Some(Applied)
    ensures var r := Apply(s, ApplyThread(e));
            && r.threads == s.threads[e.threadId := e.payload.thread.(lastSeq := e.seqNo)]
            && r.items == s.items && r.itemThread == s.itemThread && r.itemIds == s.itemIds
            && r.turns == s.turns && r.approvals == s.approvals
  {
    AppliedIsProjected(s, e);
    CommittedEntities(Project(s, e.threadId, e.payload).value, e);
    hide Apply, Commit;
  }

  /** A request files its summary and keeps a decision that came before it. */
  lemma RequestEventStores(s: State, e: ThreadEvent)
    requires e.payload.ApprovalRequested? && Apply(s, ApplyThread(e)).lastOutcome == Some(Applied)
    ensures var r := Apply(s, ApplyThread(e));
            var summary := e.payload.approval;
            var a := summary.approvalId;
            && r.approvals.Keys == s.approvals.Keys + {a} && r.approvals - {a} == s.approvals - {a}
            && r.approvals[a].threadId == e.threadId && r.approvals[a].approval == Some(summary)
            && r.approvals[a].decision == (if a in s.approvals then s.approvals[a].decision else None)
            && r.approvals[a].resolvedAt == (if a in s.approvals then s.approvals[a].resolvedAt else None)
            && r.items == s.items && r.itemThread == s.itemThread && r.itemIds == s.itemIds && r.turns == s.turns
  {
    AppliedIsProjected(s, e);
    CommittedEntities(Project(s, e.threadId, e.payload).value, e);
    hide Apply, Commit;
  }

  lemma ResolvedApprovals(s: State, a: ApprovalId, d: Decision, at: string, t: ThreadId)
    requires a in s.approvals ==> s.approvals[a].threadId == t
    ensures var r := ApplyApprovalResolved(s, a, d, at, t);
            && r == s.(approvals := r.approvals)
            && (a in s.approvals && s.approvals[a].decision.Some? ==> r.approvals == s.approvals)
            && (!(a in s.approvals && s.approvals[a].decision.Some?) ==>
                  && r.approvals.Keys == s.approvals.Keys + {a} && r.approvals - {a} == s.approvals - {a}
                  && r.approvals[a].threadId == t
                  && r.approvals[a].approval == (if a in s.approvals then s.approvals[a].approval else None)
                  && r.approvals[a].decision == Some(d) && r.approvals[a].resolvedAt == Some(at))
  {
  }

  /** The first resolution stores its decision and time beside the summary; every later one changes nothing. */
  lemma ResolutionEventStores(s: State, e: ThreadEvent)
    requires e.payload.ApprovalResolved? && Apply(s, ApplyThread(e)).lastOutcome == Some(Applied)
    ensures var r := Apply(s, ApplyThread(e));
            var a := e.payload.approvalId;
            && (a in s.approvals && s.approvals[a].decision.Some? ==> r.approvals == s.approvals)
            && (!(a in s.approvals && s.approvals[a].decision.Some?) ==>
                  && r.approvals.Keys == s.approvals.Keys + {a} && r.approvals - {a} == s.approvals - {a}
                  && r.approvals[a].threadId == e.threadId
                  && r.approvals[a].approval == (if a in s.approvals then s.approvals[a].approval else None)
                  && r.approvals[a].decision == Some(e.payload.decision)
                  && r.approvals[a].resolvedAt == Some(e.payload.resolvedAt))
            && r.items == s.items && r.itemThread == s.itemThread && r.itemIds == s.itemIds && r.turns == s.turns
  {
    AppliedIsProjected(s, e);
    CommittedEntities(Project(s, e.threadId, e.payload).value, e);
    hide Apply, Commit, ApplyApprovalResolved;
    ResolvedApprovals(s, e.payload.approvalId, e.payload.decision, e.payload.resolvedAt, e.threadId);
  }

  /** A tool event only counts. */
  lemma ToolEventStores(s: State, e: ThreadEvent)
    requires e.payload.ExternalTool? && Apply(s, ApplyThread(e)).lastOutcome == Some(Applied)
    ensures var r := Apply(s, ApplyThread(e));
            && r.items == s.items && r.itemThread == s.itemThread && r.itemIds == s.itemIds
            && r.turns == s.turns && r.approvals == s.approvals && r.threads.Keys == s.threads.Keys
  {
    AppliedIsProjected(s, e);
    CommittedEntities(Project(s, e.threadId, e.payload).value, e);
    hide Apply, Commit;
  }

  // ---- Statuses, snapshots and runtime events --------------------------------------------

  /**
   * An accepted status decides the phase; anything but a ready status of the current generation empties the timeline.
   */
  lemma StatusStores(s: State, host: HostStatus)
    ensures var r := Apply(s, ApplyStatus(host));
            var ready := host.status == Ready || host.status == Busy;
            if host.generation < 1 || host.generation > 9_007_199_254_740_991 || host.generation < s.generation then
              r == s.(lastOutcome := Some(Rejected))
            else
              && r.phase == (if ready then ReadyPhase else DisconnectedPhase)
              && r.generation == host.generation && r.server == (if ready then host.server else None)
              && r.lastOutcome == Some(Applied)
              && r.runtime.Some? && r.runtime.value.status == host.status
              && r.runtime.value.eventId == host.eventId && r.runtime.value.occurredAt == host.occurredAt
              && (if ready && host.generation == s.generation then
                    && r.threads == s.threads && r.turns == s.turns && r.items == s.items
                    && r.itemThread == s.itemThread
                    && r.itemBytes == s.itemBytes && r.itemIds == s.itemIds && r.approvals == s.approvals
                    && r.lastSeq == s.lastSeq && r.seen == s.seen && r.seenOrder == s.seenOrder && r.resync == s.resync
                  else
                    && r.threads == map[] && r.turns == map[] && r.items == map[] && r.itemThread == map[]
                    && r.itemBytes == map[] && r.itemIds == map[] && r.approvals == map[]
                    && r.lastSeq == map[] && r.seen == {} && r.seenOrder == map[] && r.resync == map[])
  {
    hide SafeReason;
  }

  /** Only the known reasons are shown; any other text becomes `unknown`. */
  lemma ReasonsAreSafe(s: State, host: HostStatus)
    requires Apply(s, ApplyStatus(host)).lastOutcome == Some(Applied)
    ensures var shown := Apply(s, ApplyStatus(host)).runtime.value.reason;
            && (host.reason == None <==> shown == None)
            && (shown.Some? && shown != host.reason ==> shown == Some("unknown"))
            && (shown.Some? ==> IsSafeReason(shown.value) || shown == Some("unknown"))
  {
  }

  /** The snapshot names each item once, and none that is filed elsewhere or under nobody. */
  ghost predicate ItemsFit(s: State, snap: Snapshot) {
    && (forall j, k :: 0 <= j < k < |snap.items| ==> snap.items[j].itemId != snap.items[k].itemId)
    && (s.server.Some? ==> forall k :: 0 <= k < |snap.items| ==>
          if snap.items[k].itemId in s.itemThread then ItemIsOn(s, snap.items[k].itemId, snap.thread.threadId)
          else snap.items[k].itemId !in s.items)
  }

  lemma ItemsFitIff(s: State, snap: Snapshot)
    requires s.server == None || s.server == Some(snap.server)
    ensures ValidSnapshotStructure(s, snap) <==> snap.thread.lastSeq == snap.snapshotSeq && ItemsFit(s, snap)
  {
  }

  /** When a snapshot replaces its thread. */
  lemma SnapshotAppliedIff(s: State, snap: Snapshot)
    ensures Apply(s, ApplySnap(snap)).lastOutcome == Some(Applied)
            <==> && s.phase == ReadyPhase && (s.server == None || s.server == Some(snap.server))
                 && snap.thread.lastSeq == snap.snapshotSeq && ItemsFit(s, snap)
                 && (forall k :: 0 <= k < |snap.items| ==> ByteLength(TextOf(snap.items[k])) <= MAX_TEXT_BYTES)
                 && (snap.events.Some? ==> HistoryFits(snap, snap.events.value))
  {
    hide Apply, OnlyReports, HistoryFits, ValidSnapshotEvents, ByteLength, TextOf, ItemsFit, ValidSnapshotStructure;
    AppliedIffAdmitted(s, ApplySnap(snap));
    if s.server == None || s.server == Some(snap.server) {
      ItemsFitIff(s, snap);
    }
    if snap.events.Some? {
      HistoryIff(snap);
    } else {
      NoHistory(snap);
    }
  }

  lemma NoHistory(snap: Snapshot)
    requires snap.events == None
    ensures ValidSnapshotEvents(snap)
  {
  }

  /** A history page: entries of this thread and server, rising from one to the cutoff, and below the next number. */
  ghost predicate HistoryFits(snap: Snapshot, entries: seq<HistoryEntry>) {
    && (forall k :: 0 <= k < |entries| ==>
          && entries[k].ThreadEntry? && entries[k].threadId == snap.thread.threadId && entries[k].server == snap.server
          && 1 <= entries[k].seqNo <= snap.snapshotSeq
          && (snap.nextSeq.Some? ==> entries[k].seqNo < snap.nextSeq.value))
    && (forall j, k :: 0 <= j < k < |entries| ==> entries[j].seqNo < entries[k].seqNo)
  }

  lemma HistoryIff(snap: Snapshot)
    requires snap.events.Some?
    ensures ValidSnapshotEvents(snap) <==> HistoryFits(snap, snap.events.value)
  {
    var entries := snap.events.value;
    if ValidSnapshotEvents(snap) && snap.nextSeq.Some? {
      forall k | 0 <= k < |entries|
        ensures entries[k].seqNo < snap.nextSeq.value
      {
        assert k < |entries| - 1 ==> entries[k].seqNo < entries[|entries| - 1].seqNo;
      }
    }
  }

  /**
   * An applied snapshot is the whole projection of its thread: its entry, exactly its items in its order with fresh
   * counters, its sequence number, and no turn, approval, mark or remembered event of the thread from before.
   */
  lemma SnapshotStores(s: State, snap: Snapshot)
    requires Structure(s) && WindowExact(s.seen, s.seenOrder)
    requires Apply(s, ApplySnap(snap)).lastOutcome == Some(Applied)
    ensures var r := Apply(s, ApplySnap(snap));
            var t := snap.thread.threadId;
            && r.phase == s.phase && r.generation == s.generation && r.server == Some(snap.server)
            && r.threads == s.threads[t := snap.thread]
            && r.lastSeq == s.lastSeq[t := snap.snapshotSeq]
            && Order(r, t) == seq(|snap.items|, k requires 0 <= k < |snap.items| => snap.items[k].itemId)
            && ThreadScope(t) !in r.resync && r.resync == s.resync - {ThreadScope(t)}
            && (forall u :: u in r.turns <==> u in s.turns && s.turns[u].threadId != t)
            && (forall a :: a in r.approvals <==> a in s.approvals && s.approvals[a].threadId != t)
            && (forall a :: a in r.approvals ==> r.approvals[a] == s.approvals[a])
            && (forall f :: f in r.seen <==> f in s.seen && f.scope != ThreadScope(t))
  {
    AppliedIffAdmitted(s, ApplySnap(snap));
    hide GuardSnapshot, OnlyReports, Removed, ItemMap, OwnersOf, CountersOf, ClearSeenScope, Structure;
    var r := InstallSnapshot(s, snap);
    ClearedFrame(s, ThreadScope(snap.thread.threadId));
    forall f
      ensures f in r.seen <==> f in s.seen && f.scope != ThreadScope(snap.thread.threadId)
    {
      ClearingIsExact(s, ThreadScope(snap.thread.threadId), f);
    }
  }

  lemma ClearedFrame(s: State, scope: Scope)
    ensures var c := ClearSeenScope(s, scope); c == s.(seen := c.seen, seenOrder := c.seenOrder)
  {
  }

  /** The items of the snapshot are stored under its thread with their own byte lengths; other threads' items stay. */
  lemma SnapshotItemsStored(s: State, snap: Snapshot)
    requires Structure(s)
    requires Apply(s, ApplySnap(snap)).lastOutcome == Some(Applied)
    ensures var r := Apply(s, ApplySnap(snap));
            var t := snap.thread.threadId;
            && (forall k :: 0 <= k < |snap.items| ==>
                  var i := snap.items[k].itemId;
                  && i in r.items && r.items[i] == snap.items[k]
                  && i in r.itemThread && r.itemThread[i] == t
                  && i in r.itemBytes && r.itemBytes[i] == ByteLength(TextOf(snap.items[k])))
            && (forall i :: i in r.items ==>
                  (exists k :: 0 <= k < |snap.items| && snap.items[k].itemId == i)
                  || (i in s.items && !ItemIsOn(s, i, t)))
  {
    AppliedIffAdmitted(s, ApplySnap(snap));
    var t, arriving := snap.thread.threadId, ItemMap(snap.items);
    var without := RemoveThreadEntities(s, t);
    RemovalIsExact(s, t);
    InstalledMaps(s, snap);
    StructureKeys(s);
    hide InstallSnapshot, Structure, GuardSnapshot, OnlyReports, RemoveThreadEntities, ByteLength, ItemMap, OwnersOf;
    hide CountersOf;
    forall k | 0 <= k < |snap.items|
      ensures snap.items[k].itemId in arriving && arriving[snap.items[k].itemId] == snap.items[k]
      ensures snap.items[k].itemId in OwnersOf(arriving, t) && OwnersOf(arriving, t)[snap.items[k].itemId] == t
      ensures snap.items[k].itemId in CountersOf(arriving)
      ensures CountersOf(arriving)[snap.items[k].itemId] == ByteLength(TextOf(snap.items[k]))
    {
      ArrivingItem(s, snap, k);
    }
  }

  lemma StructureKeys(s: State)
    requires Structure(s)
    ensures s.items.Keys == s.itemThread.Keys
  {
  }

  lemma InstalledMaps(s: State, snap: Snapshot)
    ensures var r, without := InstallSnapshot(s, snap), RemoveThreadEntities(s, snap.thread.threadId);
            && r.items == without.items + ItemMap(snap.items)
            && r.itemThread == without.itemThread + OwnersOf(ItemMap(snap.items), snap.thread.threadId)
            && r.itemBytes == without.itemBytes + CountersOf(ItemMap(snap.items))
  {
    hide Removed, ClearSeenScope;
  }

  lemma ArrivingItem(s: State, snap: Snapshot, k: nat)
    requires GuardSnapshot(s, snap).Pass? && k < |snap.items|
    ensures var i, arriving := snap.items[k].itemId, ItemMap(snap.items);
            && i in arriving && arriving[i] == snap.items[k]
            && i in OwnersOf(arriving, snap.thread.threadId)
            && OwnersOf(arriving, snap.thread.threadId)[i] == snap.thread.threadId
            && i in CountersOf(arriving) && CountersOf(arriving)[i] == ByteLength(TextOf(snap.items[k]))
  {
    PassedStructure(s, snap);
    ItemMapAt(snap.items, k);
    hide ItemMap, ByteLength, GuardSnapshot;
  }

  lemma PassedStructure(s: State, snap: Snapshot)
    requires GuardSnapshot(s, snap).Pass?
    ensures ValidSnapshotStructure(s, snap)
  {
  }

  /** When a runtime event is applied. */
  lemma RuntimeEventAppliedIff(s: State, e: RuntimeEvent)
    ensures Apply(s, ApplyRuntime(e)).lastOutcome == Some(Applied)
            <==> && s.phase == ReadyPhase && Fingerprint(e.server, RuntimeScope, e.eventId) !in s.seen
                 && (s.server == None || s.server == Some(e.server))
                 && (e.payload.StatusChanged? ==>
                       e.payload.status.Some?
                       && match e.payload.status.value
                          case Starting => true
                          case Degraded => true
                          case ShuttingDown => true
                          case Stopped => true
                          case Crashed => true
                          case Incompatible => true
                          case Faulted => true
                          case _ => false)
  {
    AppliedIffAdmitted(s, ApplyRuntime(e));
    hide Apply, OnlyReports;
  }

  /** An applied runtime event shows its status, learns the server if unknown, and touches no entity and no thread. */
  lemma RuntimeEventStores(s: State, e: RuntimeEvent)
    requires Apply(s, ApplyRuntime(e)).lastOutcome == Some(Applied)
    ensures var r := Apply(s, ApplyRuntime(e));
            && r.server == Some(if s.server.Some? then s.server.value else e.server)
            && r.phase == s.phase && r.generation == s.generation && r.resync == s.resync && r.lastSeq == s.lastSeq
            && r.threads == s.threads && r.turns == s.turns && r.items == s.items && r.itemThread == s.itemThread
            && r.itemBytes == s.itemBytes && r.itemIds == s.itemIds && r.approvals == s.approvals
            && (if e.payload.StatusChanged? then
                  && e.payload.status.Some?
                  && r.runtime == Some(Runtime(e.payload.status.value, e.eventId, e.occurredAt, None))
                else r.runtime == s.runtime)
  {
    AppliedIffAdmitted(s, ApplyRuntime(e));
    RememberFrame(s, RuntimeScope, e.Key());
    hide RememberEvent, OnlyReports;
  }

  // ---- Whole runs ------------------------------------------------------------------------

  /** The approval of thread `t` is decided, this way and at this time. */
  predicate Decided(s: State, a: ApprovalId, t: ThreadId, d: Decision, at: Option<string>) {
    && a in s.approvals && s.approvals[a].threadId == t
    && s.approvals[a].decision == Some(d) && s.approvals[a].resolvedAt == at
  }

  lemma EventKeepsDecision(s: State, e: ThreadEvent, a: ApprovalId, t: ThreadId, d: Decision, at: Option<string>)
    requires Decided(s, a, t, d, at)
    ensures Decided(Apply(s, ApplyThread(e)), a, t, d, at)
  {
    AppliedIffAdmitted(s, ApplyThread(e));
    if Apply(s, ApplyThread(e)).lastOutcome == Some(Applied) {
      AppliedIsProjected(s, e);
      CommittedEntities(Project(s, e.threadId, e.payload).value, e);
      ProjectKeepsDecision(s, e.threadId, e.payload, a, t, d, at);
      hide Apply, Commit, Project;
    } else {
      hide Apply, GuardThread;
    }
  }

  lemma ProjectKeepsDecision(s: State, q: ThreadId, payload: Payload, a: ApprovalId, t: ThreadId, d: Decision,
                             at: Option<string>)
    requires Decided(s, a, t, d, at) && Project(s, q, payload).Ok?
    ensures Decided(Project(s, q, payload).value, a, t, d, at)
  {
    hide TurnItemsBelongTo, ThreadAfterTurn, ByteLength, CachedBytes, DurableUserItem, TextOf;
  }

  lemma StepKeepsDecision(s: State, action: Action, a: ApprovalId, t: ThreadId, d: Decision, at: Option<string>)
    requires Decided(s, a, t, d, at) && !Releases(s, action, t)
    ensures Decided(Apply(s, action), a, t, d, at)
  {
    AppliedIffAdmitted(s, action);
    match action
    case ApplyThread(e) =>
      hide Apply;
      EventKeepsDecision(s, e, a, t, d, at);
    case ApplySnap(snap) =>
      hide Removed, ItemMap, OwnersOf, CountersOf, ItemIdsOf, ClearSeenScope, GuardSnapshot, Refuse;
      if GuardSnapshot(s, snap).Pass? {
        ClearedFrame(s, ThreadScope(snap.thread.threadId));
      }
    case ApplyStatus(host) =>
      StatusFrameOf(s, host);
      hide ApplyRuntimeStatus;
    case ApplyRuntime(e) =>
      hide AdmitRuntime, GuardRuntime, Refuse;
      if Apply(s, action).lastOutcome == Some(Applied) {
        RuntimeEventStores(s, e);
      }
  }

  lemma StatusFrameOf(s: State, host: HostStatus)
    requires !StatusAccepted(s, host) || StatusKeepsEntities(s, host)
    ensures ApplyRuntimeStatus(s, host).approvals == s.approvals
  {
  }

  /** A decision once stored stays, with its time, until a snapshot of its thread or a clearing status. */
  lemma {:induction false} DecisionIsFinal(s: State, actions: seq<Action>, a: ApprovalId, t: ThreadId, d: Decision,
                                           at: Option<string>)
    requires Decided(s, a, t, d, at) && NeverReleases(s, actions, t)
    ensures Decided(Run(s, actions), a, t, d, at)
    decreases |actions|
  {
    hide Decided, Releases, Apply;
    if |actions| > 0 {
      StepKeepsDecision(s, actions[0], a, t, d, at);
      DecisionIsFinal(Apply(s, actions[0]), actions[1..], a, t, d, at);
    }
  }

  /** The text an applied action adds to item `i`. */
  ghost function DeltaFor(s: State, action: Action, i: ItemId): Text {
    if action.ApplyThread? && action.event.payload.ItemDelta? && action.event.payload.itemId == i
       && Apply(s, action).lastOutcome == Some(Applied) then action.event.payload.delta
    else []
  }

  /** The action stores a full item under `i`. */
  ghost predicate Replaces(s: State, action: Action, i: ItemId) {
    action.ApplyThread? && action.event.payload.ItemChanged? && action.event.payload.item.itemId == i
    && Apply(s, action).lastOutcome == Some(Applied)
  }

  ghost function Streamed(s: State, actions: seq<Action>, i: ItemId): Text
    decreases |actions|
  {
    if |actions| == 0 then [] else DeltaFor(s, actions[0], i) + Streamed(Apply(s, actions[0]), actions[1..], i)
  }

  ghost predicate NeverReplaced(s: State, actions: seq<Action>, i: ItemId)
    decreases |actions|
  {
    |actions| == 0 || (!Replaces(s, actions[0], i) && NeverReplaced(Apply(s, actions[0]), actions[1..], i))
  }

  /** Item `i` of thread `t` is `item` with `text` as its text. */
  ghost predicate Shows(s: State, i: ItemId, t: ThreadId, item: Item, text: Text) {
    i in s.items && ItemIsOn(s, i, t) && TextOf(s.items[i]) == text && s.items[i] == item.(text := s.items[i].text)
  }

  lemma PlainEventKeepsItems(s: State, e: ThreadEvent)
    requires Apply(s, ApplyThread(e)).lastOutcome == Some(Applied)
    requires !e.payload.ItemChanged? && !e.payload.ItemDelta?
    ensures Apply(s, ApplyThread(e)).items == s.items && Apply(s, ApplyThread(e)).itemThread == s.itemThread
  {
    AppliedIsProjected(s, e);
    CommittedEntities(Project(s, e.threadId, e.payload).value, e);
    PlainPayloadKeepsItems(s, e.threadId, e.payload);
    hide Apply, Commit, Project;
  }

  lemma PlainPayloadKeepsItems(s: State, t: ThreadId, payload: Payload)
    requires Project(s, t, payload).Ok? && !payload.ItemChanged? && !payload.ItemDelta?
    ensures Project(s, t, payload).value.items == s.items && Project(s, t, payload).value.itemThread == s.itemThread
  {
    hide TurnItemsBelongTo, ThreadAfterTurn;
  }

  lemma OwnEventShows(s: State, e: ThreadEvent, i: ItemId, t: ThreadId, item: Item, text: Text)
    requires Inv(s) && Shows(s, i, t, item, text) && e.threadId == t && !Replaces(s, ApplyThread(e), i)
    requires Apply(s, ApplyThread(e)).lastOutcome == Some(Applied)
    ensures Shows(Apply(s, ApplyThread(e)), i, t, item, text + DeltaFor(s, ApplyThread(e), i))
  {
    InvHasKeys(s);
    hide Inv, Apply, KeysAgree, Shows, Replaces, DeltaFor;
    if e.payload.ItemChanged? {
      OwnItemShows(s, e, i, t, item, text);
    } else if e.payload.ItemDelta? {
      OwnDeltaShows(s, e, i, t, item, text);
    } else {
      OwnPlainShows(s, e, i, t, item, text);
    }
  }

  lemma OwnItemShows(s: State, e: ThreadEvent, i: ItemId, t: ThreadId, item: Item, text: Text)
    requires Shows(s, i, t, item, text) && !Replaces(s, ApplyThread(e), i) && e.payload.ItemChanged?
    requires Apply(s, ApplyThread(e)).lastOutcome == Some(Applied)
    ensures Shows(Apply(s, ApplyThread(e)), i, t, item, text + DeltaFor(s, ApplyThread(e), i))
  {
    hide Apply;
    ItemEventStores(s, e);
    assert text + [] == text;
  }

  lemma OwnDeltaShows(s: State, e: ThreadEvent, i: ItemId, t: ThreadId, item: Item, text: Text)
    requires KeysAgree(s.items, s.itemThread, s.itemBytes) && Shows(s, i, t, item, text) && e.payload.ItemDelta?
    requires Apply(s, ApplyThread(e)).lastOutcome == Some(Applied)
    ensures Shows(Apply(s, ApplyThread(e)), i, t, item, text + DeltaFor(s, ApplyThread(e), i))
  {
    hide Apply;
    DeltaEventAppends(s, e);
    assert text + [] == text;
  }

  lemma OwnPlainShows(s: State, e: ThreadEvent, i: ItemId, t: ThreadId, item: Item, text: Text)
    requires Shows(s, i, t, item, text) && !e.payload.ItemChanged? && !e.payload.ItemDelta?
    requires Apply(s, ApplyThread(e)).lastOutcome == Some(Applied)
    ensures Shows(Apply(s, ApplyThread(e)), i, t, item, text + DeltaFor(s, ApplyThread(e), i))
  {
    hide Apply;
    PlainEventKeepsItems(s, e);
    assert text + [] == text;
  }

  lemma InvHasKeys(s: State)
    requires Inv(s)
    ensures KeysAgree(s.items, s.itemThread, s.itemBytes)
  {
  }

  lemma StepShows(s: State, action: Action, i: ItemId, t: ThreadId, item: Item, text: Text)
    requires Inv(s) && Shows(s, i, t, item, text) && !Releases(s, action, t) && !Replaces(s, action, i)
    ensures Shows(Apply(s, action), i, t, item, text + DeltaFor(s, action, i))
  {
    assert text + [] == text;
    if action.ApplyStatus? {
      StatusKeepsItems(s, action.host);
    } else if !Concerns(action, t) {
      OtherStepShows(s, action, i, t, item, text);
    } else if Apply(s, action).lastOutcome == Some(Applied) {
      AppliedIffAdmitted(s, action);
      hide Apply, Inv, Shows;
      if action.ApplyThread? {
        OwnEventShows(s, action.event, i, t, item, text);
      }
    } else {
      AppliedIffAdmitted(s, action);
      hide Apply, Inv;
    }
  }

  lemma StatusKeepsItems(s: State, host: HostStatus)
    requires !StatusAccepted(s, host) || StatusKeepsEntities(s, host)
    ensures ApplyRuntimeStatus(s, host).items == s.items && ApplyRuntimeStatus(s, host).itemThread == s.itemThread
  {
  }

  lemma OtherStepShows(s: State, action: Action, i: ItemId, t: ThreadId, item: Item, text: Text)
    requires Inv(s) && Shows(s, i, t, item, text) && !action.ApplyStatus? && !Concerns(action, t)
    ensures Shows(Apply(s, action), i, t, item, text) && DeltaFor(s, action, i) == []
  {
    StepIsolates(s, action, t);
    SameThreadShows(s, Apply(s, action), i, t, item, text);
    OtherDelta(s, action, i, t);
    hide Apply, Inv, Shows, DeltaFor;
  }

  lemma SameThreadShows(s: State, r: State, i: ItemId, t: ThreadId, item: Item, text: Text)
    requires SameThread(s, r, t) && Shows(s, i, t, item, text)
    ensures Shows(r, i, t, item, text)
  {
    hide SameAt, SameApprovals;
  }

  lemma OtherDelta(s: State, action: Action, i: ItemId, t: ThreadId)
    requires Inv(s) && ItemIsOn(s, i, t) && !Concerns(action, t)
    ensures DeltaFor(s, action, i) == []
  {
    hide Inv, Apply, Commit;
    if action.ApplyThread? && Apply(s, action).lastOutcome == Some(Applied) {
      AppliedIsProjected(s, action.event);
    }
  }

  /**
   * Streaming: until an item is replaced or its thread is, its text is what it was with all applied deltas of that
   * item appended in order, and nothing else about it changes, whatever happens to other items and threads.
   */
  lemma {:induction false} TextIsStreamed(s: State, actions: seq<Action>, i: ItemId, t: ThreadId, item: Item,
                                          text: Text)
    requires Inv(s) && AdmissibleRun(s, actions) && Shows(s, i, t, item, text)
    requires NeverReleases(s, actions, t) && NeverReplaced(s, actions, i)
    ensures Shows(Run(s, actions), i, t, item, text + Streamed(s, actions, i))
    decreases |actions|
  {
    hide Inv, Shows, Releases, Replaces, Apply, DeltaFor;
    if |actions| > 0 {
      var m := Apply(s, actions[0]);
      StepKeepsInv(s, actions[0]);
      StepShows(s, actions[0], i, t, item, text);
      TextIsStreamed(m, actions[1..], i, t, item, text + DeltaFor(s, actions[0], i));
      assert text + DeltaFor(s, actions[0], i) + Streamed(m, actions[1..], i) == text + Streamed(s, actions, i);
    } else {
      assert text + [] == text;
    }
  }
}

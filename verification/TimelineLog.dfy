/**
 * A run together with its history: which events each thread has applied since its baseline,
 * which fingerprints each scope has remembered since it was cleared, and how often a delta
 * joined a surrogate pair inside an item. The bounded state is a function of that history.
 */
module TimelineLog {
  import opened Wrappers
  import opened Seqs
  import opened Utf8
  import opened TimelineState
  import opened TimelineReducer
  import opened TimelineInvariant
  import opened TimelineRuns

  datatype ThreadLog = ThreadLog(base: nat, applied: seq<ThreadEvent>)

  datatype Log = Log(threads: map<ThreadId, ThreadLog>, remembered: map<Scope, seq<Fingerprint>>,
                     joins: map<ItemId, nat>)

  const EmptyLog := Log(map[], map[], map[])

  function ThreadLogOf(log: Log, t: ThreadId): ThreadLog {
    if t in log.threads then log.threads[t] else ThreadLog(0, [])
  }

  function Remembered(log: Log, scope: Scope): seq<Fingerprint> {
    if scope in log.remembered then log.remembered[scope] else []
  }

  function JoinsOf(log: Log, i: ItemId): nat { if i in log.joins then log.joins[i] else 0 }

  /** A full item starts a new count; a delta adds one exactly when it completes a surrogate pair. */
  function RecordJoins(s: State, log: Log, payload: Payload): map<ItemId, nat> {
    match payload
    case ItemChanged(_, item) => log.joins[item.itemId := 0]
    case ItemDelta(i, delta) =>
      if i in s.items && JoinsPair(TextOf(s.items[i]), delta) then log.joins[i := JoinsOf(log, i) + 1] else log.joins
    case _ => log.joins
  }

  function RecordThread(s: State, log: Log, e: ThreadEvent): Log {
    var t := e.threadId;
    var scope := ThreadScope(t);
    var entry := ThreadLogOf(log, t);
    Log(log.threads[t := entry.(applied := entry.applied + [e])],
        log.remembered[scope := Remembered(log, scope) + [e.Key()]],
        RecordJoins(s, log, e.payload))
  }

  function NoJoins(items: map<ItemId, Item>): map<ItemId, nat> { map i | i in items :: 0 }

  function RecordSnapshot(log: Log, snap: Snapshot): Log {
    var t := snap.thread.threadId;
    Log(log.threads[t := ThreadLog(snap.snapshotSeq, [])],
        log.remembered - {ThreadScope(t)},
        log.joins + NoJoins(ItemMap(snap.items)))
  }

  ghost function Record(s: State, log: Log, action: Action): Log {
    match action
    case ApplyStatus(host) => if StatusAccepted(s, host) && !StatusKeepsEntities(s, host) then EmptyLog else log
    case ApplySnap(snap) => if GuardSnapshot(s, snap).Pass? then RecordSnapshot(log, snap) else log
    case ApplyThread(e) => if GuardThread(s, e).Pass? then RecordThread(s, log, e) else log
    case ApplyRuntime(e) =>
      if GuardRuntime(s, e).Pass?
      then log.(remembered := log.remembered[RuntimeScope := Remembered(log, RuntimeScope) + [e.Key()]])
      else log
  }

  /** Applied events of a thread carry the consecutive numbers after its baseline, and the last one is current. */
  ghost predicate Consecutive(lastSeq: map<ThreadId, nat>, threads: map<ThreadId, ThreadLog>) {
    && (forall t :: t in threads ==> t in lastSeq && lastSeq[t] == threads[t].base + |threads[t].applied|)
    && (forall t :: t in lastSeq ==> t in threads)
    && (forall t, k :: t in threads && 0 <= k < |threads[t].applied| ==>
          threads[t].applied[k].threadId == t && threads[t].applied[k].seqNo == threads[t].base + 1 + k)
  }

  /** Each order list is the window over everything its scope remembered since it was cleared. */
  ghost predicate WindowsOfLog(windows: Windows, remembered: map<Scope, seq<Fingerprint>>) {
    && windows.Keys == remembered.Keys
    && (forall c :: c in remembered ==> windows[c] == LastN(remembered[c], DEDUP_WINDOW))
  }

  /** The cached counter is the byte length of the text plus two for every pair a delta joined. */
  ghost predicate ExactCounters(items: Items, bytes: Counters, joins: map<ItemId, nat>) {
    forall i :: i in items && i in bytes ==>
      bytes[i] == ByteLength(TextOf(items[i])) + 2 * (if i in joins then joins[i] else 0)
  }

  ghost predicate LogInv(s: State, log: Log) {
    && Consecutive(s.lastSeq, log.threads)
    && WindowsOfLog(s.seenOrder, log.remembered)
    && ExactCounters(s.items, s.itemBytes, log.joins)
  }

  // ---- Steps ---------------------------------------------------------------------------

  lemma AppendKeepsWindowsOfLog(windows: Windows, remembered: map<Scope, seq<Fingerprint>>, scope: Scope,
      key: Fingerprint)
    requires WindowsOfLog(windows, remembered)
    ensures var current := if scope in windows then windows[scope] else [];
            var history := if scope in remembered then remembered[scope] else [];
            WindowsOfLog(windows[scope := LastN(current + [key], DEDUP_WINDOW)], remembered[scope := history + [key]])
  {
    var history := if scope in remembered then remembered[scope] else [];
    LastNOfAppend(history, key, DEDUP_WINDOW);
  }

  /** Remembering an unseen key slides the window exactly as the history does. */
  lemma RememberTracksLog(s: State, log: Log, key: Fingerprint)
    requires WindowExact(s.seen, s.seenOrder) && key !in s.seen && WindowsOfLog(s.seenOrder, log.remembered)
    ensures WindowsOfLog(RememberEvent(s, key.scope, key).seenOrder,
                         log.remembered[key.scope := Remembered(log, key.scope) + [key]])
  {
    UnseenIsUnlisted(s.seen, s.seenOrder, key);
    RememberSlides(s, key);
    AppendKeepsWindowsOfLog(s.seenOrder, log.remembered, key.scope, key);
    hide RememberEvent, WindowsOfLog, WindowExact;
  }

  lemma AppendKeepsConsecutive(lastSeq: map<ThreadId, nat>, threads: map<ThreadId, ThreadLog>, e: ThreadEvent)
    requires Consecutive(lastSeq, threads)
    requires e.seqNo == (if e.threadId in lastSeq then lastSeq[e.threadId] else 0) + 1
    ensures var entry := if e.threadId in threads then threads[e.threadId] else ThreadLog(0, []);
            Consecutive(lastSeq[e.threadId := e.seqNo], threads[e.threadId := entry.(applied := entry.applied + [e])])
  {
  }

  lemma OtherPayloadKeepsText(s: State, log: Log, t: ThreadId, payload: Payload)
    requires Project(s, t, payload).Ok? && !payload.ItemChanged? && !payload.ItemDelta?
    ensures Project(s, t, payload).value.items == s.items && Project(s, t, payload).value.itemBytes == s.itemBytes
    ensures RecordJoins(s, log, payload) == log.joins
  {
    hide TurnItemsBelongTo, ThreadAfterTurn;
  }

  lemma CounterFiled(items: Items, bytes: Counters, joins: map<ItemId, nat>, item: Item, n: nat, j: nat)
    requires ExactCounters(items, bytes, joins) && n == ByteLength(TextOf(item)) + 2 * j
    ensures ExactCounters(items[item.itemId := item], bytes[item.itemId := n], joins[item.itemId := j])
  {
    hide ByteLength;
  }

  lemma ItemTracksCounters(s: State, log: Log, t: ThreadId, on: ItemMethod, item: Item)
    requires Project(s, t, ItemChanged(on, item)).Ok? && ExactCounters(s.items, s.itemBytes, log.joins)
    ensures var n := Project(s, t, ItemChanged(on, item)).value;
            ExactCounters(n.items, n.itemBytes, RecordJoins(s, log, ItemChanged(on, item)))
  {
    hide ExactCounters, ByteLength;
    CounterFiled(s.items, s.itemBytes, log.joins, item, ByteLength(TextOf(item)), 0);
  }

  lemma DeltaTracksCounters(s: State, log: Log, t: ThreadId, i: ItemId, delta: Text)
    requires KeysAgree(s.items, s.itemThread, s.itemBytes) && Project(s, t, ItemDelta(i, delta)).Ok?
    requires ExactCounters(s.items, s.itemBytes, log.joins)
    ensures var n := Project(s, t, ItemDelta(i, delta)).value;
            ExactCounters(n.items, n.itemBytes, RecordJoins(s, log, ItemDelta(i, delta)))
  {
    hide ByteLength, JoinsPair;
    var item := ApplyDelta(s, i, delta).items[i];
    var joined := RecordJoins(s, log, ItemDelta(i, delta));
    ByteLengthOfConcat(TextOf(s.items[i]), delta);
    var j := JoinsOf(log, i) + (if JoinsPair(TextOf(s.items[i]), delta) then 1 else 0);
    CounterFiled(s.items, s.itemBytes, log.joins, item, ApplyDelta(s, i, delta).itemBytes[i], j);
    assert forall k :: k in joined && k != i ==> k in log.joins && joined[k] == log.joins[k];
  }

  lemma ProjectTracksCounters(s: State, log: Log, t: ThreadId, payload: Payload)
    requires KeysAgree(s.items, s.itemThread, s.itemBytes) && Project(s, t, payload).Ok?
    requires ExactCounters(s.items, s.itemBytes, log.joins)
    ensures ExactCounters(Project(s, t, payload).value.items, Project(s, t, payload).value.itemBytes,
                          RecordJoins(s, log, payload))
  {
    hide ByteLength, JoinsPair, ExactCounters, Project, RecordJoins;
    match payload
    case ItemDelta(i, delta) => DeltaTracksCounters(s, log, t, i, delta);
    case ItemChanged(on, item) => ItemTracksCounters(s, log, t, on, item);
    case _ => OtherPayloadKeepsText(s, log, t, payload);
  }

  lemma CommitFrame(n: State, e: ThreadEvent)
    ensures var r := Commit(n, e);
            && r.items == n.items && r.itemBytes == n.itemBytes && r.itemThread == n.itemThread
                && r.itemIds == n.itemIds
            && r.seenOrder == RememberEvent(n, ThreadScope(e.threadId), e.Key()).seenOrder
            && r.lastSeq == n.lastSeq[e.threadId := e.seqNo]
  {
    RememberFrame(n, ThreadScope(e.threadId), e.Key());
    hide RememberEvent;
  }

  lemma ThreadEventTracksLog(s: State, log: Log, e: ThreadEvent)
    requires Inv(s) && LogInv(s, log) && GuardThread(s, e).Pass?
    ensures LogInv(ApplyThreadEvent(s, e), RecordThread(s, log, e))
  {
    hide WindowExact, OrderExact, TurnsOwned, SeqCopies, BytesBounded, KeysAgree, Consecutive, WindowsOfLog,
         ExactCounters, Commit, RememberEvent;
    var n := Project(s, e.threadId, e.payload).value;
    ProjectFrame(s, e.threadId, e.payload);
    ProjectTracksCounters(s, log, e.threadId, e.payload);
    hide Project, RecordJoins;
    RememberTracksLog(n, log, e.Key());
    AppendKeepsConsecutive(s.lastSeq, log.threads, e);
    CommitFrame(n, e);
  }

  lemma SnapshotTracksCounters(items: Items, bytes: Counters, joins: map<ItemId, nat>, gone: set<ItemId>,
      arriving: Items)
    requires ExactCounters(items, bytes, joins) && items.Keys == bytes.Keys
    ensures ExactCounters(items - gone + arriving, bytes - gone + CountersOf(arriving),
                          joins + NoJoins(arriving))
  {
    hide ByteLength;
    var items' := items - gone + arriving;
    var bytes' := bytes - gone + CountersOf(arriving);
    var joins' := joins + NoJoins(arriving);
    forall i | i in items' && i in bytes'
      ensures bytes'[i] == ByteLength(TextOf(items'[i])) + 2 * (if i in joins' then joins'[i] else 0)
    {
      if i in arriving {
        assert items'[i] == arriving[i];
      } else {
        assert items'[i] == items[i] && bytes'[i] == bytes[i];
      }
    }
  }

  lemma ForgettingKeepsWindowsOfLog(windows: Windows, remembered: map<Scope, seq<Fingerprint>>, scope: Scope)
    requires WindowsOfLog(windows, remembered)
    ensures WindowsOfLog(windows - {scope}, remembered - {scope})
  {
  }

  lemma InstallParts(s: State, snap: Snapshot)
    ensures var r := InstallSnapshot(s, snap);
            var t := snap.thread.threadId;
            && r.items == s.items - Removed(s, t) + ItemMap(snap.items)
            && r.itemBytes == s.itemBytes - Removed(s, t)
                              + CountersOf(ItemMap(snap.items))
            && r.seenOrder == s.seenOrder - {ThreadScope(t)}
            && r.lastSeq == s.lastSeq[t := snap.snapshotSeq]
            && r.lastOutcome == Some(Applied)
  {
    hide Removed, ItemMap, CountersOf, OwnersOf, ItemIdsOf;
  }

  lemma RebaseKeepsConsecutive(lastSeq: map<ThreadId, nat>, threads: map<ThreadId, ThreadLog>, t: ThreadId, n: nat)
    requires Consecutive(lastSeq, threads)
    ensures Consecutive(lastSeq[t := n], threads[t := ThreadLog(n, [])])
  {
  }

  lemma SnapshotTracksLog(s: State, log: Log, snap: Snapshot)
    requires Inv(s) && LogInv(s, log)
    ensures LogInv(InstallSnapshot(s, snap), RecordSnapshot(log, snap))
  {
    hide WindowExact, OrderExact, TurnsOwned, SeqCopies, BytesBounded, Consecutive, ExactCounters, WindowsOfLog,
         InstallSnapshot, ItemMap, Removed;
    var t := snap.thread.threadId;
    InstallParts(s, snap);
    SnapshotTracksCounters(s.items, s.itemBytes, log.joins, Removed(s, t), ItemMap(snap.items));
    RebaseKeepsConsecutive(s.lastSeq, log.threads, t, snap.snapshotSeq);
    ForgettingKeepsWindowsOfLog(s.seenOrder, log.remembered, ThreadScope(t));
  }

  lemma RuntimeTracksLog(s: State, log: Log, e: RuntimeEvent)
    requires Inv(s) && LogInv(s, log) && GuardRuntime(s, e).Pass?
    ensures LogInv(ApplyRuntimeEvent(s, e), Record(s, log, ApplyRuntime(e)))
  {
    hide WindowExact, OrderExact, TurnsOwned, SeqCopies, BytesBounded, KeysAgree, Consecutive, WindowsOfLog,
         ExactCounters;
    RememberTracksLog(s, log, e.Key());
    RememberFrame(s, RuntimeScope, e.Key());
    hide RememberEvent;
  }

  lemma StepTracksLog(s: State, log: Log, action: Action)
    requires Inv(s) && LogInv(s, log)
    ensures LogInv(Apply(s, action), Record(s, log, action))
  {
    hide Inv, Consecutive, WindowsOfLog, ExactCounters, ApplyRuntimeStatus, InstallSnapshot, GuardSnapshot, GuardThread,
         GuardRuntime, Refuse, Commit, Project, RecordThread, RecordSnapshot, AdmitRuntime;
    match action
    case ApplyStatus(host) => StatusTracksLog(s, log, host);
    case ApplySnap(snap) =>
      if GuardSnapshot(s, snap).Pass? {
        SnapshotTracksLog(s, log, snap);
      } else {
        RefuseShape(s, GuardSnapshot(s, snap));
      }
    case ApplyThread(e) =>
      if GuardThread(s, e).Pass? { ThreadEventTracksLog(s, log, e); } else { RefuseShape(s, GuardThread(s, e)); }
    case ApplyRuntime(e) =>
      if GuardRuntime(s, e).Pass? { RuntimeTracksLog(s, log, e); } else { RefuseShape(s, GuardRuntime(s, e)); }
  }

  lemma StatusTracksLog(s: State, log: Log, host: HostStatus)
    requires LogInv(s, log)
    ensures LogInv(ApplyRuntimeStatus(s, host), Record(s, log, ApplyStatus(host)))
  {
    if StatusAccepted(s, host) && !StatusKeepsEntities(s, host) {
    } else {
      hide Consecutive, WindowsOfLog, ExactCounters;
    }
  }

  // ---- Whole runs ----------------------------------------------------------------------

  ghost function RunLog(s: State, log: Log, actions: seq<Action>): Log
    decreases |actions|
  {
    if |actions| == 0 then log else RunLog(Apply(s, actions[0]), Record(s, log, actions[0]), actions[1..])
  }

  lemma {:induction false} RunTracksLog(s: State, log: Log, actions: seq<Action>)
    requires Inv(s) && LogInv(s, log) && AdmissibleRun(s, actions)
    ensures Inv(Run(s, actions)) && LogInv(Run(s, actions), RunLog(s, log, actions))
    decreases |actions|
  {
    hide Inv, LogInv, Apply, Record;
    if |actions| > 0 {
      StepKeepsInv(s, actions[0]);
      StepTracksLog(s, log, actions[0]);
      RunTracksLog(Apply(s, actions[0]), Record(s, log, actions[0]), actions[1..]);
    }
  }

  lemma EmptyTracksLog()
    ensures Inv(EmptyState) && LogInv(EmptyState, EmptyLog)
  {
  }

  /** A run of the reducer from the empty timeline, with the history it has recorded. */
  ghost predicate Reaches(actions: seq<Action>, s: State, log: Log) {
    && AdmissibleRun(EmptyState, actions)
    && s == Run(EmptyState, actions)
    && log == RunLog(EmptyState, EmptyLog, actions)
  }

  lemma ReachedStatesTrackTheirLog(actions: seq<Action>, s: State, log: Log)
    requires Reaches(actions, s, log)
    ensures Inv(s) && LogInv(s, log)
  {
    EmptyTracksLog();
    RunTracksLog(EmptyState, EmptyLog, actions);
  }

  // ---- Consequences --------------------------------------------------------------------

  /** Applied events since the baseline are numbered without a gap up to the stored sequence number. */
  lemma AppliedEventsAreConsecutive(actions: seq<Action>, s: State, log: Log, t: ThreadId, k: nat)
    requires Reaches(actions, s, log) && k < |ThreadLogOf(log, t).applied|
    ensures ThreadLogOf(log, t).applied[k].seqNo == ThreadLogOf(log, t).base + 1 + k <= LastSeq(s, t)
    ensures LastSeq(s, t) == ThreadLogOf(log, t).base + |ThreadLogOf(log, t).applied|
    ensures t in s.threads ==> s.threads[t].lastSeq == LastSeq(s, t)
  {
    ReachedStatesTrackTheirLog(actions, s, log);
    hide Structure, WindowExact, BytesBounded, WindowsOfLog, ExactCounters, Reaches;
  }

  /** The window is the last 1024 remembered fingerprints and the set is their union over all scopes. */
  lemma DedupWindowIsExact(actions: seq<Action>, s: State, log: Log, f: Fingerprint)
    requires Reaches(actions, s, log)
    ensures SeenOrder(s, f.scope) == LastN(Remembered(log, f.scope), DEDUP_WINDOW)
    ensures Distinct(SeenOrder(s, f.scope))
    ensures f in s.seen <==> f in LastN(Remembered(log, f.scope), DEDUP_WINDOW)
  {
    ReachedStatesTrackTheirLog(actions, s, log);
    hide Structure, SeqCopies, BytesBounded, Consecutive, ExactCounters, Reaches;
  }

  lemma LateEventIsRefused(s: State, e: ThreadEvent)
    requires e.seqNo <= LastSeq(s, e.threadId)
    ensures !GuardThread(s, e).Pass?
    ensures e.Key() in s.seen && s.phase == ReadyPhase ==> GuardThread(s, e) == Ignore(Duplicate)
  {
    hide Project;
  }

  lemma RefusedEventFrame(s: State, e: ThreadEvent)
    requires !GuardThread(s, e).Pass?
    ensures GuardThread(s, e) == Ignore(Duplicate) ==> Apply(s, ApplyThread(e)) == s.(lastOutcome := Some(Duplicate))
    ensures SameProjection(s, Apply(s, ApplyThread(e)), e.threadId)
  {
    hide GuardThread;
    RefuseShape(s, GuardThread(s, e));
    SameThreadIsReflexive(s, e.threadId);
    hide SameOwned, SameApprovals, SameAt, Refuse;
  }

  /** An event applied since its thread's baseline is never applied again, not even after its fingerprint is evicted. */
  lemma RedeliveryIsNeverApplied(actions: seq<Action>, s: State, log: Log, e: ThreadEvent)
    requires Reaches(actions, s, log) && e in ThreadLogOf(log, e.threadId).applied
    ensures !GuardThread(s, e).Pass?
    ensures e.Key() in s.seen && s.phase == ReadyPhase
            ==> Apply(s, ApplyThread(e)) == s.(lastOutcome := Some(Duplicate))
    ensures SameProjection(s, Apply(s, ApplyThread(e)), e.threadId)
  {
    hide Reaches, Project, GuardThread, SameProjection, Apply, ThreadLogOf, LastSeq;
    var k :| 0 <= k < |ThreadLogOf(log, e.threadId).applied| && ThreadLogOf(log, e.threadId).applied[k] == e;
    AppliedEventsAreConsecutive(actions, s, log, e.threadId, k);
    LateEventIsRefused(s, e);
    RefusedEventFrame(s, e);
  }

  /** The counter bounds the text's bytes, and equals them unless a delta joined a surrogate pair. */
  lemma CounterIsExactUnlessJoined(actions: seq<Action>, s: State, log: Log, i: ItemId)
    requires Reaches(actions, s, log) && i in s.items
    ensures i in s.itemBytes
    ensures s.itemBytes[i] == ByteLength(TextOf(s.items[i])) + 2 * JoinsOf(log, i)
    ensures ByteLength(TextOf(s.items[i])) <= s.itemBytes[i] <= MAX_TEXT_BYTES
  {
    ReachedStatesTrackTheirLog(actions, s, log);
    hide OrderExact, TurnsOwned, WindowExact, SeqCopies, WindowsOfLog, Consecutive, Reaches, ByteLength;
  }

  // ---- The resync latch ----------------------------------------------------------------

  /** The step ends the latch of thread `t`: an accepted snapshot of `t`, or a status that clears the entities. */
  ghost predicate Releases(s: State, action: Action, t: ThreadId) {
    match action
    case ApplyStatus(host) => StatusAccepted(s, host) && !StatusKeepsEntities(s, host)
    case ApplySnap(snap) => snap.thread.threadId == t && GuardSnapshot(s, snap).Pass?
    case _ => false
  }

  ghost predicate NeverReleases(s: State, actions: seq<Action>, t: ThreadId)
    decreases |actions|
  {
    |actions| == 0 || (!Releases(s, actions[0], t) && NeverReleases(Apply(s, actions[0]), actions[1..], t))
  }

  lemma RefuseKeepsLatch(s: State, verdict: Verdict, t: ThreadId)
    requires !verdict.Pass? && ThreadScope(t) in s.resync
    ensures ThreadScope(t) in Refuse(s, verdict).resync && SameProjection(s, Refuse(s, verdict), t)
  {
    SameThreadIsReflexive(s, t);
    hide SameOwned, SameApprovals, SameAt;
  }

  lemma StatusFrame(s: State, host: HostStatus)
    requires !StatusAccepted(s, host) || StatusKeepsEntities(s, host)
    ensures var r := ApplyRuntimeStatus(s, host);
            r == s.(phase := r.phase, generation := r.generation, server := r.server, runtime := r.runtime,
                 lastOutcome := r.lastOutcome)
  {
  }

  lemma StatusKeepsLatch(s: State, host: HostStatus, t: ThreadId)
    requires ThreadScope(t) in s.resync && !Releases(s, ApplyStatus(host), t)
    ensures ThreadScope(t) in ApplyRuntimeStatus(s, host).resync && SameProjection(s, ApplyRuntimeStatus(s, host), t)
  {
    StatusFrame(s, host);
    SameThreadIsReflexive(s, t);
    hide SameOwned, SameApprovals, SameAt, ApplyRuntimeStatus;
  }

  lemma StepKeepsLatch(s: State, action: Action, t: ThreadId)
    requires Inv(s) && ThreadScope(t) in s.resync && !Releases(s, action, t)
    ensures ThreadScope(t) in Apply(s, action).resync && SameProjection(s, Apply(s, action), t)
  {
    hide Inv, SameProjection, Commit, Refuse, AdmitRuntime, InstallSnapshot, ApplyRuntimeStatus, Project,
         StatusKeepsEntities;
    match action
    case ApplyStatus(host) => StatusKeepsLatch(s, host, t);
    case ApplySnap(snap) =>
      hide GuardSnapshot;
      if snap.thread.threadId == t {
        RefuseKeepsLatch(s, GuardSnapshot(s, snap), t);
      } else {
        StepIsolates(s, action, t);
      }
    case ApplyThread(e) =>
      if e.threadId == t { RefuseKeepsLatch(s, GuardThread(s, e), t); } else { StepIsolates(s, action, t); }
    case ApplyRuntime(e) => StepIsolates(s, action, t);
  }

  lemma SameProjectionIsTransitive(s: State, m: State, r: State, b: ThreadId)
    requires SameProjection(s, m, b) && SameProjection(m, r, b)
    ensures SameProjection(s, r, b)
  {
  }

  /** Once a thread needs a resync, nothing changes its projection until a snapshot or a clearing status. */
  lemma {:induction false} LatchedThreadIsFrozen(s: State, actions: seq<Action>, t: ThreadId)
    requires Inv(s) && AdmissibleRun(s, actions) && ThreadScope(t) in s.resync && NeverReleases(s, actions, t)
    ensures ThreadScope(t) in Run(s, actions).resync && SameProjection(s, Run(s, actions), t)
    decreases |actions|
  {
    hide Inv, Apply, Releases, SameProjection;
    if |actions| > 0 {
      var m := Apply(s, actions[0]);
      StepKeepsInv(s, actions[0]);
      StepKeepsLatch(s, actions[0], t);
      LatchedThreadIsFrozen(m, actions[1..], t);
      SameProjectionIsTransitive(s, m, Run(s, actions), t);
    } else {
      SameThreadIsReflexive(s, t);
    }
  }
}

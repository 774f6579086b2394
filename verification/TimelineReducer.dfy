/** The reducer functions of `src/stores/timelineReducer.ts`, branch by branch. */
module TimelineReducer {
  import opened Wrappers
  import opened Seqs
  import opened Utf8
  import opened TimelineState

  function WithOutcome(s: State, outcome: Outcome): State { s.(lastOutcome := Some(outcome)) }

  function Resync(s: State, scope: Scope, reason: ResyncReason, outcome: Outcome): State {
    WithOutcome(s.(resync := s.resync[scope := reason]), outcome)
  }

  /** What the guards in front of a step decide: ignore it, latch a resync mark, or let it through. */
  datatype Verdict = Ignore(outcome: Outcome) | Latch(scope: Scope, reason: ResyncReason, outcome: Outcome) | Pass

  function Refuse(s: State, verdict: Verdict): State
    requires !verdict.Pass?
  {
    match verdict
    case Ignore(outcome) => WithOutcome(s, outcome)
    case Latch(scope, reason, outcome) => Resync(s, scope, reason, outcome)
  }

  // ---- Host lifecycle ------------------------------------------------------------------

  function ClearBusinessProjection(s: State): State {
    s.(server := None, threads := map[], turns := map[], items := map[], itemThread := map[],
    itemBytes := map[], itemIds := map[], approvals := map[], lastSeq := map[], seen := {},
    seenOrder := map[], resync := map[], runtime := None)
  }

  predicate IsSafeReason(text: string) {
    || text == "starting" || text == "ready" || text == "turn_started" || text == "stopping"
    || text == "stopped" || text == "start_failed" || text == "event_queue_overflow"
  }

  function SafeReason(reason: Option<string>): Option<string> {
    match reason
    case None => None
    case Some(text) => if IsSafeReason(text) then reason else Some("unknown")
  }

  const MAX_SAFE_INTEGER := 9_007_199_254_740_991

  predicate IsReadyStatus(status: RuntimeStatus) { status == Ready || status == Busy }

  /** A status is refused when its generation is not a positive safe integer or is older than the current one. */
  predicate StatusAccepted(s: State, host: HostStatus) {
    0 < host.generation <= MAX_SAFE_INTEGER && s.generation <= host.generation
  }

  /** Whether the accepted status keeps the entities of the current generation. */
  predicate StatusKeepsEntities(s: State, host: HostStatus) {
    IsReadyStatus(host.status) && host.generation == s.generation
  }

  function ApplyRuntimeStatus(s: State, host: HostStatus): State {
    if !StatusAccepted(s, host) then WithOutcome(s, Rejected)
    else
      var base := if StatusKeepsEntities(s, host) then s else ClearBusinessProjection(s);
      WithOutcome(
        base.(phase := if IsReadyStatus(host.status) then ReadyPhase else DisconnectedPhase,
        generation := host.generation,
        server := if IsReadyStatus(host.status) then host.server else None,
        runtime := Some(Runtime(host.status, host.eventId, host.occurredAt, SafeReason(host.reason)))),
        Applied)
  }

  // ---- Dedup window --------------------------------------------------------------------

  function ClearSeenScope(s: State, scope: Scope): State {
    s.(seen := s.seen - Elements(SeenOrder(s, scope)), seenOrder := s.seenOrder - {scope})
  }

  function RememberEvent(s: State, scope: Scope, key: Fingerprint): State {
    var current := SeenOrder(s, scope);
    var order := if key in current then current else current + [key];
    var retained := LastN(order, DEDUP_WINDOW);
    var evicted := order[..|order| - |retained|];
    s.(seen := s.seen + {key} - Elements(evicted), seenOrder := s.seenOrder[scope := retained])
  }

  // ---- Snapshots -----------------------------------------------------------------------

  /** An item goes with its thread by ownership or by the thread of its turn. */
  predicate GoesWith(s: State, i: ItemId, t: ThreadId)
    requires i in s.items
  {
    || (i in s.itemThread && s.itemThread[i] == t)
    || (s.items[i].turnId in s.turns && s.turns[s.items[i].turnId].threadId == t)
  }

  /** The items `removeThreadEntities` deletes. */
  function Removed(s: State, t: ThreadId): set<ItemId> {
    set i | i in s.items && GoesWith(s, i, t)
  }

  function RemoveThreadEntities(s: State, t: ThreadId): State {
    var gone := Removed(s, t);
    var cleaned := ClearSeenScope(s, ThreadScope(t));
    cleaned.(turns := map u | u in s.turns && s.turns[u].threadId != t :: s.turns[u],
    items := s.items - gone,
    itemThread := s.itemThread - gone,
    itemBytes := s.itemBytes - gone,
    approvals := map a | a in s.approvals && s.approvals[a].threadId != t :: s.approvals[a],
    itemIds := s.itemIds[t := []])
  }

  /** An item id already filed under another thread of the same server instance, or without an owner. */
  predicate ItemConflicts(s: State, i: ItemId, t: ThreadId) {
    if i in s.itemThread then s.itemThread[i] != t else i in s.items
  }

  ghost predicate ValidSnapshotStructure(s: State, snap: Snapshot) {
    && snap.thread.lastSeq == snap.snapshotSeq
    && (forall j, k :: 0 <= j < k < |snap.items| ==> snap.items[j].itemId != snap.items[k].itemId)
    && (s.server == Some(snap.server) ==>
          forall k :: 0 <= k < |snap.items| ==> !ItemConflicts(s, snap.items[k].itemId, snap.thread.threadId))
  }

  /** One history entry belongs to the snapshot's thread and server and stays at or below its cutoff. */
  predicate EntryFits(snap: Snapshot, entry: HistoryEntry) {
    entry.ThreadEntry? && entry.threadId == snap.thread.threadId && entry.server == snap.server
    && entry.seqNo <= snap.snapshotSeq
  }

  /** The sequence numbers of a history page rise strictly from zero. */
  ghost predicate RisingEntries(snap: Snapshot, entries: seq<HistoryEntry>) {
    && (forall k :: 0 <= k < |entries| ==> EntryFits(snap, entries[k]) && 0 < entries[k].seqNo)
    && (forall j, k :: 0 <= j < k < |entries| ==> entries[j].seqNo < entries[k].seqNo)
  }

  ghost predicate ValidSnapshotEvents(snap: Snapshot) {
    snap.events.Some? ==>
      && RisingEntries(snap, snap.events.value)
      && (snap.nextSeq.Some? && |snap.events.value| > 0 ==>
            snap.events.value[|snap.events.value| - 1].seqNo < snap.nextSeq.value)
  }

  ghost predicate SnapshotTextsFit(snap: Snapshot) {
    forall k :: 0 <= k < |snap.items| ==> ByteLength(TextOf(snap.items[k])) <= MAX_TEXT_BYTES
  }

  function ItemIdsOf(items: seq<Item>): (ids: seq<ItemId>)
    ensures |ids| == |items|
    ensures forall k :: 0 <= k < |items| ==> ids[k] == items[k].itemId
  {
    seq(|items|, k requires 0 <= k < |items| => items[k].itemId)
  }

  /** The last item with the given id, as a loop of map writes leaves it. */
  function ItemMap(items: seq<Item>): (m: map<ItemId, Item>)
    ensures forall i :: i in m <==> exists k :: 0 <= k < |items| && items[k].itemId == i
    ensures forall i :: i in m ==> m[i] in items && m[i].itemId == i
  {
    if |items| == 0 then map[] else ItemMap(items[..|items| - 1])[items[|items| - 1].itemId := items[|items| - 1]]
  }

  function CountersOf(items: map<ItemId, Item>): map<ItemId, nat> { map i | i in items :: ByteLength(TextOf(items[i])) }

  function OwnersOf(items: map<ItemId, Item>, t: ThreadId): map<ItemId, ThreadId> { map i | i in items :: t }

  /** Replaces a thread's whole projection by an already validated snapshot. */
  function InstallSnapshot(s: State, snap: Snapshot): State {
    var t := snap.thread.threadId;
    var without := RemoveThreadEntities(s, t);
    var arriving := ItemMap(snap.items);
    without.(server := Some(snap.server),
    threads := without.threads[t := snap.thread],
    items := without.items + arriving,
    itemThread := without.itemThread + OwnersOf(arriving, t),
    itemBytes := without.itemBytes + CountersOf(arriving),
    itemIds := without.itemIds[t := ItemIdsOf(snap.items)],
    lastSeq := without.lastSeq[t := snap.snapshotSeq],
    resync := without.resync - {ThreadScope(t)},
    lastOutcome := Some(Applied))
  }

  ghost function GuardSnapshot(s: State, snap: Snapshot): Verdict {
    if s.phase != ReadyPhase || (s.server.Some? && s.server.value != snap.server) then
      Latch(RuntimeScope, HandshakeRequired, Rejected)
    else if !ValidSnapshotStructure(s, snap) || !ValidSnapshotEvents(snap) || !SnapshotTextsFit(snap) then
      Latch(ThreadScope(snap.thread.threadId), SnapshotInvalid, ResyncRequired)
    else Pass
  }

  ghost function ApplySnapshot(s: State, snap: Snapshot): State {
    if GuardSnapshot(s, snap).Pass? then InstallSnapshot(s, snap) else Refuse(s, GuardSnapshot(s, snap))
  }

  // ---- Projection of one thread event --------------------------------------------------

  predicate IsActive(status: TurnStatus) {
    status.Queued? || status.TurnRunning? || status.TurnWaitingApproval? || status.Interrupting?
  }

  predicate IsTerminal(status: TurnStatus) {
    status.TurnCompleted? || status.Interrupted? || status.Failed? || status.AbortedByRuntime?
  }

  function ThreadAfterTurn(thread: Thread, turn: Turn): Thread {
    thread.(status := if turn.status == TurnWaitingApproval then WaitingApproval
                      else if IsTerminal(turn.status) then Idle
                      else if IsActive(turn.status) then Running
                      else thread.status,
    activeTurnId := if IsTerminal(turn.status) then None
                    else if IsActive(turn.status) then Some(turn.turnId)
                    else thread.activeTurnId)
  }

  function ApplyTurn(s: State, turn: Turn): State {
    s.(turns := s.turns[turn.turnId := turn],
    threads := if turn.threadId in s.threads
               then s.threads[turn.threadId := ThreadAfterTurn(s.threads[turn.threadId], turn)]
               else s.threads)
  }

  function ApplyItem(s: State, item: Item, t: ThreadId): State {
    s.(items := s.items[item.itemId := item],
    itemThread := s.itemThread[item.itemId := t],
    itemBytes := s.itemBytes[item.itemId := ByteLength(TextOf(item))],
    itemIds := if item.itemId in Order(s, t) then s.itemIds else s.itemIds[t := Order(s, t) + [item.itemId]])
  }

  /** `itemUtf8BytesById[id] ?? utf8ByteLength(text)`. */
  function CachedBytes(s: State, i: ItemId): nat
    requires i in s.items
  {
    if i in s.itemBytes then s.itemBytes[i] else ByteLength(TextOf(s.items[i]))
  }

  function ApplyDelta(s: State, i: ItemId, delta: Text): State
    requires i in s.items
  {
    s.(items := s.items[i := s.items[i].(text := Some(TextOf(s.items[i]) + delta))],
    itemBytes := s.itemBytes[i := CachedBytes(s, i) + ByteLength(delta)])
  }

  function ApplyApprovalRequested(s: State, approval: ApprovalSummary): State {
    var a := approval.approvalId;
    var next := if a in s.approvals then s.approvals[a].(approval := Some(approval))
                else ApprovalState(approval.threadId, Some(approval), None, None);
    s.(approvals := s.approvals[a := next])
  }

  function ApplyApprovalResolved(s: State, a: ApprovalId, decision: Decision, at: string, t: ThreadId): State {
    if a in s.approvals && s.approvals[a].decision.Some? then s
    else
      var next := if a in s.approvals then s.approvals[a].(decision := Some(decision), resolvedAt := Some(at))
                  else ApprovalState(t, None, Some(decision), Some(at));
      s.(approvals := s.approvals[a := next])
  }

  predicate DurableUserItem(m: ItemMethod, item: Item) {
    m == OnCompleted && item.kind == UserMessage && item.status == ItemCompleted
  }

  ghost predicate TurnItemsBelongTo(s: State, u: TurnId, t: ThreadId) {
    && (forall o, i :: o in s.itemIds && o != t && i in s.itemIds[o] && i in s.items ==> s.items[i].turnId != u)
    && (forall i :: i in s.items && s.items[i].turnId == u ==> i in s.itemThread && s.itemThread[i] == t)
  }

  ghost function ProjectTurn(s: State, t: ThreadId, turn: Turn): Result<State, ResyncReason> {
    if turn.threadId != t || !TurnItemsBelongTo(s, turn.turnId, t) then Err(InvalidEvent)
    else Ok(ApplyTurn(s, turn))
  }

  function ProjectItem(s: State, t: ThreadId, m: ItemMethod, item: Item): Result<State, ResyncReason> {
    var known := item.itemId in s.itemThread;
    var turnKnown := item.turnId in s.turns;
    if item.itemId in s.items && s.items[item.itemId].turnId != item.turnId then Err(InvalidEvent)
    else if known && s.itemThread[item.itemId] != t then Err(InvalidEvent)
    else if DurableUserItem(m, item) && turnKnown && s.turns[item.turnId].threadId != t then Err(InvalidEvent)
    else if !known && !DurableUserItem(m, item)
            && (m != OnStarted || !turnKnown || s.turns[item.turnId].threadId != t) then Err(MissingItem)
    else if ByteLength(TextOf(item)) > MAX_TEXT_BYTES then Err(InvalidEvent)
    else Ok(ApplyItem(s, item, t))
  }

  function ProjectDelta(s: State, t: ThreadId, i: ItemId, delta: Text): Result<State, ResyncReason> {
    if i !in s.items || i !in s.itemThread || s.itemThread[i] != t then Err(MissingItem)
    else if CachedBytes(s, i) > MAX_TEXT_BYTES || CachedBytes(s, i) + ByteLength(delta) > MAX_TEXT_BYTES
        then Err(InvalidEvent)
    else Ok(ApplyDelta(s, i, delta))
  }

  function ProjectApproval(s: State, t: ThreadId, approval: ApprovalSummary): Result<State, ResyncReason> {
    var a := approval.approvalId;
    if approval.threadId != t then Err(InvalidEvent)
    else if a in s.approvals && s.approvals[a].threadId != t then Err(InvalidEvent)
    else if a in s.approvals && s.approvals[a].approval.Some? && s.approvals[a].approval.value != approval
        then Err(InvalidEvent)
    else Ok(ApplyApprovalRequested(s, approval))
  }

  function ProjectResolution(s: State, t: ThreadId, a: ApprovalId, d: Decision, at: string)
    : Result<State, ResyncReason>
  {
    if a in s.approvals && s.approvals[a].threadId != t then Err(InvalidEvent)
    else Ok(ApplyApprovalResolved(s, a, d, at, t))
  }

  /** The `switch` on the event method. */
  ghost function Project(s: State, t: ThreadId, payload: Payload): Result<State, ResyncReason> {
    match payload
    case ThreadChanged(thread) =>
      if thread.threadId != t then Err(InvalidEvent) else Ok(s.(threads := s.threads[t := thread]))
    case TurnChanged(turn) => ProjectTurn(s, t, turn)
    case ItemChanged(m, item) => ProjectItem(s, t, m, item)
    case ItemDelta(i, delta) => ProjectDelta(s, t, i, delta)
    case ApprovalRequested(approval) => ProjectApproval(s, t, approval)
    case ApprovalResolved(a, d, at) => ProjectResolution(s, t, a, d, at)
    case ExternalTool(owner) => if owner.Some? && owner.value != t then Err(InvalidEvent) else Ok(s)
    case Malformed => Err(InvalidEvent)
  }

  /** Records the event and advances both copies of the thread's sequence number. */
  function Commit(s: State, e: ThreadEvent): State {
    var t := e.threadId;
    var remembered := RememberEvent(s, ThreadScope(t), e.Key());
    remembered.(threads := if t in s.threads then s.threads[t := s.threads[t].(lastSeq := e.seqNo)] else s.threads,
    lastSeq := s.lastSeq[t := e.seqNo],
    lastOutcome := Some(Applied))
  }

  /** The source checks, the sequence checks and the payload checks, in the order they are made. */
  ghost function GuardThread(s: State, e: ThreadEvent): Verdict {
    var scope := ThreadScope(e.threadId);
    if s.phase != ReadyPhase then Latch(RuntimeScope, HandshakeRequired, Rejected)
    else if e.Key() in s.seen then Ignore(Duplicate)
    else if s.server != Some(e.server) then Latch(scope, ServerInstanceChanged, ResyncRequired)
    else if scope in s.resync then Ignore(ResyncRequired)
    else if e.seqNo <= LastSeq(s, e.threadId) then Latch(scope, LateEvent, Late)
    else if e.seqNo != LastSeq(s, e.threadId) + 1 then Latch(scope, Gap, GapOutcome)
    else
      match Project(s, e.threadId, e.payload)
      case Err(reason) => Latch(scope, reason, ResyncRequired)
      case Ok(_) => Pass
  }

  ghost function ApplyThreadEvent(s: State, e: ThreadEvent): State {
    if GuardThread(s, e).Pass? then Commit(Project(s, e.threadId, e.payload).value, e)
    else Refuse(s, GuardThread(s, e))
  }

  // ---- Runtime events ------------------------------------------------------------------

  predicate IsWireStatus(status: RuntimeStatus) {
    status.Starting? || status.Degraded? || status.ShuttingDown? || status.Stopped? || status.Crashed?
    || status.Incompatible? || status.Faulted?
  }

  function GuardRuntime(s: State, e: RuntimeEvent): Verdict {
    if s.phase != ReadyPhase then Latch(RuntimeScope, HandshakeRequired, Rejected)
    else if e.Key() in s.seen then Ignore(Duplicate)
    else if e.payload.StatusChanged? && (e.payload.status.None? || !IsWireStatus(e.payload.status.value)) then
      Latch(RuntimeScope, InvalidEvent, ResyncRequired)
    else if s.server.Some? && s.server.value != e.server then Latch(RuntimeScope, ServerInstanceChanged, ResyncRequired)
    else Pass
  }

  function AdmitRuntime(s: State, e: RuntimeEvent): State {
    var runtime := if e.payload.StatusChanged? && e.payload.status.Some?
                   then Some(Runtime(e.payload.status.value, e.eventId, e.occurredAt, None)) else s.runtime;
    var remembered := RememberEvent(s, RuntimeScope, e.Key());
    remembered.(server := Some(if s.server.Some? then s.server.value else e.server),
    runtime := runtime, lastOutcome := Some(Applied))
  }

  function ApplyRuntimeEvent(s: State, e: RuntimeEvent): State {
    if GuardRuntime(s, e).Pass? then AdmitRuntime(s, e) else Refuse(s, GuardRuntime(s, e))
  }

  ghost function Apply(s: State, action: Action): State {
    match action
    case ApplyStatus(host) => ApplyRuntimeStatus(s, host)
    case ApplySnap(snap) => ApplySnapshot(s, snap)
    case ApplyThread(e) => ApplyThreadEvent(s, e)
    case ApplyRuntime(e) => ApplyRuntimeEvent(s, e)
  }
}

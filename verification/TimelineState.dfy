/**
 * The normalized timeline of `src/stores/timelineReducer.ts`: Java-owned threads, turns,
 * items and approvals, the redundant indexes over items, per-thread sequence numbers,
 * the bounded dedup window and the resync latch.
 */
module TimelineState {
  import opened Wrappers
  import opened Utf8

  type ThreadId = string
  type TurnId = string
  type ItemId = string
  type ApprovalId = string
  type ServerId = string

  const DEDUP_WINDOW := 1024
  const MAX_TEXT_BYTES := 1_048_576

  datatype ThreadStatus = Idle | Running | WaitingApproval | Archived
  datatype TurnStatus =
    | Queued | TurnRunning | TurnWaitingApproval | Interrupting
    | TurnCompleted | Interrupted | Failed | AbortedByRuntime
  datatype ItemKind = UserMessage | AgentMessage | Commentary | ToolCall | Command | FileChange | ApprovalItem
  datatype ItemStatus = ItemStarted | InProgress | ItemCompleted | ItemFailed | Cancelled

  /** `detail` carries the workspace and title, which the reducer only copies. */
  datatype Thread = Thread(threadId: ThreadId, status: ThreadStatus, lastSeq: nat,
                           activeTurnId: Option<TurnId>, detail: string)
  /** `detail` carries access mode, timestamps and error, which the reducer only copies. */
  datatype Turn = Turn(turnId: TurnId, threadId: ThreadId, status: TurnStatus, detail: string)
  datatype Item = Item(itemId: ItemId, turnId: TurnId, kind: ItemKind, status: ItemStatus,
                       title: Option<string>, text: Option<Text>)

  datatype ApprovalAction = ApprovalAction(kind: string, command: Option<string>, cwd: Option<string>,
                                           relativePaths: Option<seq<string>>)
  datatype ApprovalSummary = ApprovalSummary(approvalId: ApprovalId, threadId: ThreadId, turnId: TurnId,
                                             itemId: ItemId, action: ApprovalAction, risk: string,
                                             accessMode: string, expiresAt: string)
  datatype Decision = AllowOnce | AllowSession | Deny | Expired | Disconnected
  datatype ApprovalState = ApprovalState(threadId: ThreadId, approval: Option<ApprovalSummary>,
                                         decision: Option<Decision>, resolvedAt: Option<string>)

  /** Resync and dedup scopes: the literal key "runtime" or a thread, which never share a name ("thr_" prefix). */
  datatype Scope = RuntimeScope | ThreadScope(threadId: ThreadId)

  /** `eventKey`: its three components contain no ':' so the joined text determines them. */
  datatype Fingerprint = Fingerprint(server: ServerId, scope: Scope, eventId: string)

  datatype ResyncReason =
    | ServerInstanceChanged | Gap | LateEvent | MissingItem | InvalidEvent
    | SnapshotInvalid | HandshakeRequired
  datatype Outcome = Applied | Duplicate | Late | GapOutcome | ResyncRequired | Rejected

  datatype Phase = DisconnectedPhase | ReadyPhase
  datatype RuntimeStatus =
    | Starting | Ready | Busy | Stopping | Degraded | ShuttingDown | Stopped
    | RecoveryRequired | Crashed | Incompatible | Faulted
  datatype Runtime = Runtime(status: RuntimeStatus, eventId: string, occurredAt: string, reason: Option<string>)

  datatype State = State(
    phase: Phase,
    generation: nat,
    server: Option<ServerId>,
    threads: map<ThreadId, Thread>,
    turns: map<TurnId, Turn>,
    items: map<ItemId, Item>,
    itemThread: map<ItemId, ThreadId>,
    itemBytes: map<ItemId, nat>,
    itemIds: map<ThreadId, seq<ItemId>>,
    approvals: map<ApprovalId, ApprovalState>,
    lastSeq: map<ThreadId, nat>,
    seen: set<Fingerprint>,
    seenOrder: map<Scope, seq<Fingerprint>>,
    resync: map<Scope, ResyncReason>,
    runtime: Option<Runtime>,
    lastOutcome: Option<Outcome>)

  datatype ItemMethod = OnStarted | OnUpdated | OnCompleted

  /** One constructor per `method` branch; `Malformed` is a payload its schema refuses. */
  datatype Payload =
    | ThreadChanged(thread: Thread)
    | TurnChanged(turn: Turn)
    | ItemChanged(on: ItemMethod, item: Item)
    | ItemDelta(itemId: ItemId, delta: Text)
    | ApprovalRequested(approval: ApprovalSummary)
    | ApprovalResolved(approvalId: ApprovalId, decision: Decision, resolvedAt: string)
    | ExternalTool(owner: Option<ThreadId>)
    | Malformed

  datatype ThreadEvent = ThreadEvent(server: ServerId, threadId: ThreadId, seqNo: nat, eventId: string,
      payload: Payload)
  {
    function Key(): Fingerprint { Fingerprint(server, ThreadScope(threadId), eventId) }
  }

  datatype RuntimePayload = StatusChanged(status: Option<RuntimeStatus>) | Notice
  datatype RuntimeEvent = RuntimeEvent(server: ServerId, eventId: string, occurredAt: string, payload: RuntimePayload)
  {
    function Key(): Fingerprint { Fingerprint(server, RuntimeScope, eventId) }
  }

  /** What `parseEvent` makes of one embedded history entry. */
  datatype HistoryEntry = Unparseable | RuntimeEntry | ThreadEntry(server: ServerId, threadId: ThreadId, seqNo: nat)

  datatype Snapshot = Snapshot(server: ServerId, thread: Thread, items: seq<Item>, snapshotSeq: nat,
                               events: Option<seq<HistoryEntry>>, nextSeq: Option<nat>)

  datatype HostStatus = HostStatus(status: RuntimeStatus, generation: int, server: Option<ServerId>,
                                   eventId: string, occurredAt: string, reason: Option<string>)

  datatype Action =
    | ApplyStatus(host: HostStatus)
    | ApplySnap(snapshot: Snapshot)
    | ApplyThread(event: ThreadEvent)
    | ApplyRuntime(runtimeEvent: RuntimeEvent)

  const EmptyState := State(DisconnectedPhase, 0, None, map[], map[], map[], map[], map[], map[], map[],
                            map[], {}, map[], map[], None, None)

  /** `item.text ?? ""`. */
  function TextOf(item: Item): Text {
    if item.text.Some? then item.text.value else []
  }

  /** `state.itemIdsByThread[threadId] ?? []`. */
  function Order(s: State, t: ThreadId): seq<ItemId> {
    if t in s.itemIds then s.itemIds[t] else []
  }

  /** `state.lastSeqByThread[key] ?? 0`. */
  function LastSeq(s: State, t: ThreadId): nat {
    if t in s.lastSeq then s.lastSeq[t] else 0
  }

  /** `state.seenEventOrderByScope[scope] ?? []`. */
  function SeenOrder(s: State, scope: Scope): seq<Fingerprint> {
    if scope in s.seenOrder then s.seenOrder[scope] else []
  }

  function Elements<T>(xs: seq<T>): set<T> { set x | x in xs }
}

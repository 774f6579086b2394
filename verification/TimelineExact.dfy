/** Which hypotheses of the run invariant are needed, and exactly where. */
module TimelineExact {
  import opened Wrappers
  import opened Seqs
  import opened TimelineState
  import opened TimelineReducer
  import opened TimelineInvariant
  import opened TimelineRuns

  lemma ItemMapAt(items: seq<Item>, k: nat)
    requires k < |items|
    requires forall i, j :: 0 <= i < j < |items| ==> items[i].itemId != items[j].itemId
    ensures items[k].itemId in ItemMap(items) && ItemMap(items)[items[k].itemId] == items[k]
  {
  }

  /** An installed snapshot keeps turns and threads aligned exactly when it names no turn of another thread. */
  lemma SnapshotKeepsTurnsIff(s: State, snap: Snapshot)
    requires Structure(s) && ValidSnapshotStructure(s, snap)
    ensures TurnsOwned(InstallSnapshot(s, snap).items, InstallSnapshot(s, snap).turns,
            InstallSnapshot(s, snap).itemThread)
            <==> NamesNoForeignTurn(s, snap)
  {
    if NamesNoForeignTurn(s, snap) {
      InstallKeepsTurns(s, snap);
    } else {
      var k :| 0 <= k < |snap.items| && snap.items[k].turnId in s.turns
               && s.turns[snap.items[k].turnId].threadId != snap.thread.threadId;
      ItemMapAt(snap.items, k);
      var r := InstallSnapshot(s, snap);
      var i := snap.items[k].itemId;
      assert r.items[i] == snap.items[k] && r.itemThread[i] == snap.thread.threadId;
      assert r.turns[snap.items[k].turnId] == s.turns[snap.items[k].turnId];
    }
  }

  /** An installed snapshot keeps order lists exact exactly when it takes no item from another thread. */
  lemma SnapshotKeepsOrderIff(s: State, snap: Snapshot)
    requires Structure(s) && ValidSnapshotStructure(s, snap)
    ensures OrderExact(InstallSnapshot(s, snap).itemIds, InstallSnapshot(s, snap).itemThread) <==> StealsNoItem(s, snap)
  {
    if StealsNoItem(s, snap) {
      InstallKeepsOrder(s, snap);
    } else {
      var k :| 0 <= k < |snap.items| && snap.items[k].itemId in s.itemThread
               && s.itemThread[snap.items[k].itemId] != snap.thread.threadId;
      StolenItemIsListedTwice(s, snap, k);
    }
  }

  lemma StolenItemIsListedTwice(s: State, snap: Snapshot, k: nat)
    requires Structure(s) && ValidSnapshotStructure(s, snap) && k < |snap.items|
    requires snap.items[k].itemId in s.itemThread
    requires s.itemThread[snap.items[k].itemId] != snap.thread.threadId
    ensures var r := InstallSnapshot(s, snap);
            var i := snap.items[k].itemId;
            && i in Order(r, s.itemThread[i]) && i in r.itemThread && r.itemThread[i] == snap.thread.threadId
  {
    hide SameOwned, SameApprovals, RemoveThreadEntities, InstallSnapshot, CountersOf;
    var i := snap.items[k].itemId;
    var x := s.itemThread[i];
    ItemMapAt(snap.items, k);
    InstallFilesArriving(s, snap);
    assert i in Order(s, x);
    RemoveIsolates(s, snap.thread.threadId, x);
    InstallFrame(s, snap, x);
  }

  lemma InstallFilesArriving(s: State, snap: Snapshot)
    ensures forall i :: i in ItemMap(snap.items) ==>
              i in InstallSnapshot(s, snap).itemThread && InstallSnapshot(s, snap).itemThread[i] == snap.thread.threadId
  {
    hide ItemMap, ItemIdsOf, CountersOf, Removed, ClearSeenScope;
  }

  /**
   * A ready status without a server instance keeps the entities but forgets whose they are; a snapshot
   * of any other instance may then take an item from another thread, and the order lists are wrong.
   */
  lemma UnanchoredSnapshotSteals(s: State, host: HostStatus, snap: Snapshot, k: nat)
    requires Inv(s) && StatusAccepted(s, host) && StatusKeepsEntities(s, host) && host.server.None?
    requires snap.thread.lastSeq == snap.snapshotSeq && ValidSnapshotEvents(snap) && SnapshotTextsFit(snap)
    requires forall i, j :: 0 <= i < j < |snap.items| ==> snap.items[i].itemId != snap.items[j].itemId
    requires k < |snap.items| && snap.items[k].itemId in s.itemThread
    requires s.itemThread[snap.items[k].itemId] != snap.thread.threadId
    ensures var r := Apply(Apply(s, ApplyStatus(host)), ApplySnap(snap));
            r.lastOutcome == Some(Applied) && !OrderExact(r.itemIds, r.itemThread)
  {
    hide KeysAgree, TurnsOwned, OrderExact, WindowExact, SeqCopies, BytesBounded, ValidSnapshotEvents, SnapshotTextsFit,
         InstallSnapshot;
    var m := Apply(s, ApplyStatus(host));
    assert m.items == s.items && m.turns == s.turns && m.itemThread == s.itemThread && m.itemIds == s.itemIds;
    assert Structure(m) && GuardSnapshot(m, snap).Pass?;
    assert !StealsNoItem(m, snap);
    SnapshotKeepsOrderIff(m, snap);
    InstallIsApplied(m, snap);
  }

  lemma InstallIsApplied(s: State, snap: Snapshot)
    ensures InstallSnapshot(s, snap).lastOutcome == Some(Applied)
  {
  }

  // ---- Concrete runs -------------------------------------------------------------------

  const ReadyA := HostStatus(Ready, 1, Some("srv_a"), "evt_0", "t0", None)
  const ReadyNoServer := HostStatus(Ready, 1, None, "evt_0", "t0", None)

  function PlainThread(t: ThreadId): Thread { Thread(t, Idle, 0, None, "") }

  function PlainItem(i: ItemId, u: TurnId): Item { Item(i, u, AgentMessage, InProgress, None, None) }

  function PlainSnapshot(server: ServerId, t: ThreadId, i: ItemId, u: TurnId): Snapshot {
    Snapshot(server, PlainThread(t), [PlainItem(i, u)], 0, None, None)
  }

  function FirstTurn(t: ThreadId, u: TurnId): ThreadEvent {
    ThreadEvent("srv_a", t, 1, "evt_1", TurnChanged(Turn(u, t, TurnRunning, "")))
  }

  /** The empty timeline after the first ready status. */
  lemma ReadyFromEmpty()
    ensures var s := Apply(EmptyState, ApplyStatus(ReadyA));
            && Inv(s) && s.phase == ReadyPhase && s.generation == 1 && s.server == Some("srv_a")
            && s.items == map[] && s.itemThread == map[] && s.turns == map[] && s.seen == {} && s.resync == map[]
            && s.lastSeq == map[] && s.itemIds == map[]
  {
    StatusKeepsInv(EmptyState, ReadyA);
  }

  /** On an empty ready timeline a one-item snapshot is accepted and files its item. */
  lemma FirstSnapshot(s: State, t: ThreadId, i: ItemId, u: TurnId)
    requires Inv(s) && s.phase == ReadyPhase && s.generation == 1 && s.server == Some("srv_a")
    requires i !in s.items && s.turns == map[]
    ensures var r := Apply(s, ApplySnap(PlainSnapshot("srv_a", t, i, u)));
            Inv(r) && r.generation == 1 && i in r.itemThread && r.itemThread[i] == t
  {
    hide Inv, KeysAgree, GuardSnapshot;
    PlainSnapshotPasses(s, t, i, u);
    var snap := PlainSnapshot("srv_a", t, i, u);
    SnapshotKeepsInv(s, snap);
    ItemMapAt(snap.items, 0);
  }

  lemma PlainSnapshotPasses(s: State, t: ThreadId, i: ItemId, u: TurnId)
    requires Inv(s) && s.phase == ReadyPhase && s.server == Some("srv_a") && i !in s.items
    ensures GuardSnapshot(s, PlainSnapshot("srv_a", t, i, u)).Pass?
  {
    hide OrderExact, TurnsOwned, SeqCopies, WindowExact, BytesBounded;
  }

  /** Thread one gets an item, a status forgets the server, and thread two's snapshot takes the item. */
  lemma OrderBreaksWithoutServerId()
    ensures var r := Run(EmptyState, [ApplyStatus(ReadyA),
                                      ApplySnap(PlainSnapshot("srv_a", "thr_1", "item_1", "turn_1")),
                                      ApplyStatus(ReadyNoServer),
                                      ApplySnap(PlainSnapshot("srv_b", "thr_2", "item_1", "turn_1"))]);
            !OrderExact(r.itemIds, r.itemThread)
  {
    var snap1 := PlainSnapshot("srv_a", "thr_1", "item_1", "turn_1");
    var snap2 := PlainSnapshot("srv_b", "thr_2", "item_1", "turn_1");
    var s1 := Apply(EmptyState, ApplyStatus(ReadyA));
    ReadyFromEmpty();
    FirstSnapshot(s1, "thr_1", "item_1", "turn_1");
    assert "thr_1"[4] != "thr_2"[4];
    hide Apply, Inv, OrderExact;
    UnanchoredSnapshotSteals(Apply(s1, ApplySnap(snap1)), ReadyNoServer, snap2, 0);
    RunOfFour(EmptyState, ApplyStatus(ReadyA), ApplySnap(snap1), ApplyStatus(ReadyNoServer), ApplySnap(snap2));
    hide Run;
  }

  /** A ready timeline without items that has heard nothing of thread `t` yet. */
  ghost predicate NewThread(s: State, t: ThreadId) {
    && s.phase == ReadyPhase && s.server == Some("srv_a") && s.items == map[] && s.itemIds == map[]
    && FirstTurn(t, "").Key() !in s.seen && ThreadScope(t) !in s.resync && t !in s.lastSeq
  }

  /** The first turn of a thread is admitted, whoever holds its identifier so far. */
  lemma FirstTurnEvent(s: State, t: ThreadId, u: TurnId)
    requires Inv(s) && NewThread(s, t)
    ensures var r := Apply(s, ApplyThread(FirstTurn(t, u)));
            && Inv(r) && r.items == map[] && r.phase == ReadyPhase && r.server == Some("srv_a")
            && r.turns == s.turns[u := FirstTurn(t, u).payload.turn]
    ensures forall b :: b != t && NewThread(s, b) ==> NewThread(Apply(s, ApplyThread(FirstTurn(t, u))), b)
  {
    hide Inv, GuardThread, Project, RememberEvent;
    var e := FirstTurn(t, u);
    ThreadEventKeepsInv(s, e);
    FirstTurnPasses(s, t, u);
    RememberFrame(ApplyTurn(s, e.payload.turn), ThreadScope(t), e.Key());
    RememberAddsOne(ApplyTurn(s, e.payload.turn), e.Key());
  }

  lemma RememberAddsOne(s: State, key: Fingerprint)
    ensures RememberEvent(s, key.scope, key).seen <= s.seen + {key}
  {
  }

  lemma FirstTurnPasses(s: State, t: ThreadId, u: TurnId)
    requires NewThread(s, t)
    ensures Project(s, t, FirstTurn(t, u).payload) == Ok(ApplyTurn(s, FirstTurn(t, u).payload.turn))
    ensures GuardThread(s, FirstTurn(t, u)).Pass?
  {
    hide ApplyTurn;
  }

  /** Two threads start the same turn identifier: the second one takes the turn from the first. */
  lemma TurnMovesToAnotherThread()
    ensures var one := Run(EmptyState, [ApplyStatus(ReadyA), ApplyThread(FirstTurn("thr_1", "turn_1"))]);
            var two := Apply(one, ApplyThread(FirstTurn("thr_2", "turn_1")));
            && "turn_1" in one.turns && one.turns["turn_1"].threadId == "thr_1"
            && "turn_1" in two.turns && two.turns["turn_1"].threadId == "thr_2"
            && two.lastOutcome == Some(Applied) && !SameTurns(one.turns, two.turns, "thr_1")
  {
    FirstThreadStarts();
    var one := Run(EmptyState, [ApplyStatus(ReadyA), ApplyThread(FirstTurn("thr_1", "turn_1"))]);
    assert "thr_1"[4] != "thr_2"[4];
    hide Apply, Inv, Run, NewThread, GuardThread, OnlyReports;
    FirstTurnEvent(one, "thr_2", "turn_1");
    FirstTurnPasses(one, "thr_2", "turn_1");
    AppliedIffAdmitted(one, ApplyThread(FirstTurn("thr_2", "turn_1")));
  }

  lemma FirstThreadStarts()
    ensures var one := Run(EmptyState, [ApplyStatus(ReadyA), ApplyThread(FirstTurn("thr_1", "turn_1"))]);
            && Inv(one) && NewThread(one, "thr_2")
            && "turn_1" in one.turns && one.turns["turn_1"].threadId == "thr_1"
  {
    ReadyFromEmpty();
    var s1 := Apply(EmptyState, ApplyStatus(ReadyA));
    assert NewThread(s1, "thr_1") && NewThread(s1, "thr_2");
    assert "thr_1"[4] != "thr_2"[4];
    hide Apply, Inv, NewThread;
    FirstTurnEvent(s1, "thr_1", "turn_1");
    RunOfTwo(EmptyState, ApplyStatus(ReadyA), ApplyThread(FirstTurn("thr_1", "turn_1")));
    hide Run;
  }

  lemma RunOfTwo(s: State, a: Action, b: Action)
    ensures Run(s, [a, b]) == Apply(Apply(s, a), b)
  {
    hide Apply;
    assert [a, b][1..] == [b] && [b][1..] == [];
    assert Run(Apply(s, a), [b]) == Apply(Apply(s, a), b);
  }

  /** A one-item snapshot naming a turn of another thread is accepted and breaks the alignment. */
  lemma ForeignSnapshot(s: State, t: ThreadId, i: ItemId, u: TurnId)
    requires Inv(s) && s.phase == ReadyPhase && s.server == Some("srv_a") && s.items == map[]
    requires u in s.turns && s.turns[u].threadId != t
    ensures var r := Apply(s, ApplySnap(PlainSnapshot("srv_a", t, i, u)));
            !TurnsOwned(r.items, r.turns, r.itemThread)
  {
    var snap := PlainSnapshot("srv_a", t, i, u);
    PlainSnapshotPasses(s, t, i, u);
    assert !NamesNoForeignTurn(s, snap) by { assert snap.items[0].turnId == u; }
    SnapshotKeepsTurnsIff(s, snap);
    hide Inv, PlainSnapshot, GuardSnapshot, TurnsOwned, InstallSnapshot;
  }

  /** Thread one holds a turn, and thread two's snapshot files an item under that turn. */
  lemma TurnsBreakOnForeignTurn()
    ensures var r := Run(EmptyState, [ApplyStatus(ReadyA), ApplyThread(FirstTurn("thr_1", "turn_1")),
                                      ApplySnap(PlainSnapshot("srv_a", "thr_2", "item_1", "turn_1"))]);
            !TurnsOwned(r.items, r.turns, r.itemThread)
  {
    ReadyFromEmpty();
    var s1 := Apply(EmptyState, ApplyStatus(ReadyA));
    assert NewThread(s1, "thr_1");
    hide Apply, Inv, TurnsOwned, PlainSnapshot, NewThread;
    FirstTurnEvent(s1, "thr_1", "turn_1");
    assert "thr_1"[4] != "thr_2"[4];
    ForeignSnapshot(Apply(s1, ApplyThread(FirstTurn("thr_1", "turn_1"))), "thr_2", "item_1", "turn_1");
    RunOfThree(EmptyState, ApplyStatus(ReadyA), ApplyThread(FirstTurn("thr_1", "turn_1")),
               ApplySnap(PlainSnapshot("srv_a", "thr_2", "item_1", "turn_1")));
    hide Run;
  }

  lemma RunOfThree(s: State, a: Action, b: Action, c: Action)
    ensures Run(s, [a, b, c]) == Apply(Apply(Apply(s, a), b), c)
  {
    hide Apply;
    assert [a, b, c][1..] == [b, c] && [b, c][1..] == [c] && [c][1..] == [];
    assert Run(Apply(Apply(s, a), b), [c]) == Apply(Apply(Apply(s, a), b), c);
  }

  lemma RunOfFour(s: State, a: Action, b: Action, c: Action, d: Action)
    ensures Run(s, [a, b, c, d]) == Apply(Apply(Apply(Apply(s, a), b), c), d)
  {
    hide Apply;
    assert [a, b, c, d][1..] == [b, c, d];
    RunOfThree(Apply(s, a), b, c, d);
  }
}

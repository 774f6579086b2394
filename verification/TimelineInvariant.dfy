/** What every admissible step of the timeline reducer keeps. */
module TimelineInvariant {
  import opened Wrappers
  import opened Seqs
  import opened Utf8
  import opened TimelineState
  import opened TimelineReducer

  type Items = map<ItemId, Item>
  type Owners = map<ItemId, ThreadId>
  type Counters = map<ItemId, nat>
  type Orders = map<ThreadId, seq<ItemId>>
  type Turns = map<TurnId, Turn>
  type Windows = map<Scope, seq<Fingerprint>>

  /** The three item indexes have the same keys and file each item under its own id. */
  ghost predicate KeysAgree(items: Items, owner: Owners, bytes: Counters) {
    && items.Keys == owner.Keys
    && items.Keys == bytes.Keys
    && (forall i :: i in items ==> items[i].itemId == i)
  }

  /** Each order list is duplicate-free and holds exactly the items its thread owns. */
  ghost predicate OrderExact(orders: Orders, owner: Owners) {
    && (forall t :: t in orders ==> Distinct(orders[t]))
    && (forall t, i :: t in orders && i in orders[t] ==> i in owner && owner[i] == t)
    && (forall i :: i in owner ==> owner[i] in orders && i in orders[owner[i]])
  }

  /** An item whose turn is known sits on the thread of that turn. */
  ghost predicate TurnsOwned(items: Items, turns: Turns, owner: Owners) {
    forall i :: i in items && items[i].turnId in turns ==>
      i in owner && turns[items[i].turnId].threadId == owner[i]
  }

  /** The thread projection and the sequence index carry the same number. */
  ghost predicate SeqCopies(threads: map<ThreadId, Thread>, lastSeq: map<ThreadId, nat>) {
    forall t :: t in threads ==> t in lastSeq && threads[t].lastSeq == lastSeq[t]
  }

  /** The dedup set is exactly the union of the bounded, duplicate-free order lists. */
  ghost predicate WindowExact(seen: set<Fingerprint>, windows: Windows) {
    && (forall c :: c in windows ==> |windows[c]| <= DEDUP_WINDOW && Distinct(windows[c]))
    && (forall c, f :: c in windows && f in windows[c] ==> f in seen && f.scope == c)
    && (forall f :: f in seen ==> f.scope in windows && f in windows[f.scope])
  }

  /** The cached byte counter never undercounts an item's text and stays within the limit. */
  ghost predicate BytesBounded(items: Items, bytes: Counters) {
    forall i :: i in items && i in bytes ==> ByteLength(TextOf(items[i])) <= bytes[i] <= MAX_TEXT_BYTES
  }

  ghost predicate Structure(s: State) {
    && KeysAgree(s.items, s.itemThread, s.itemBytes)
    && OrderExact(s.itemIds, s.itemThread)
    && TurnsOwned(s.items, s.turns, s.itemThread)
  }

  /** A ready timeline knows which server instance it projects. */
  ghost predicate Anchored(s: State) { s.phase == ReadyPhase ==> s.server.Some? }

  ghost predicate Inv(s: State) {
    && Structure(s)
    && SeqCopies(s.threads, s.lastSeq)
    && WindowExact(s.seen, s.seenOrder)
    && BytesBounded(s.items, s.itemBytes)
    && Anchored(s)
  }

  /** The snapshot mentions no turn that another thread holds. */
  ghost predicate NamesNoForeignTurn(s: State, snap: Snapshot) {
    forall k :: 0 <= k < |snap.items| && snap.items[k].turnId in s.turns ==>
      s.turns[snap.items[k].turnId].threadId == snap.thread.threadId
  }

  /** The environment hypotheses of the whole-run theorem. */
  ghost predicate Admissible(s: State, action: Action) {
    match action
    case ApplyStatus(host) => IsReadyStatus(host.status) ==> host.server.Some?
    case ApplySnap(snap) => NamesNoForeignTurn(s, snap)
    case ApplyThread(_) => true
    case ApplyRuntime(_) => true
  }

  // ---- Dedup window --------------------------------------------------------------------

  lemma EvictedIsGone(evicted: seq<Fingerprint>, retained: seq<Fingerprint>, f: Fingerprint)
    requires Distinct(evicted + retained) && f in retained
    ensures f !in evicted
  {
    var k :| 0 <= k < |retained| && retained[k] == f;
    assert (evicted + retained)[|evicted| + k] == f;
    forall j | 0 <= j < |evicted| ensures evicted[j] != f {
      assert (evicted + retained)[j] == evicted[j];
    }
  }

  lemma SlideKeepsWindow(seen: set<Fingerprint>, windows: Windows, key: Fingerprint,
                         evicted: seq<Fingerprint>, retained: seq<Fingerprint>)
    requires WindowExact(seen, windows) && key !in seen
    requires (if key.scope in windows then windows[key.scope] else []) + [key] == evicted + retained
    requires Distinct(evicted + retained) && |retained| <= DEDUP_WINDOW
    ensures WindowExact(seen + {key} - Elements(evicted), windows[key.scope := retained])
  {
    var order := evicted + retained;
    forall f | f in retained ensures f !in evicted && f in order && f.scope == key.scope && f in seen + {key} {
      EvictedIsGone(evicted, retained, f);
      assert f in order;
    }
    forall f | f in evicted ensures f.scope == key.scope {
      assert f in order;
    }
    forall f | f in seen + {key} && f.scope == key.scope && f !in evicted ensures f in retained {
      assert f in order;
    }
    forall i, j | 0 <= i < j < |retained| ensures retained[i] != retained[j] {
      assert order[|evicted| + i] == retained[i] && order[|evicted| + j] == retained[j];
    }
  }

  /** The order list with the new key, cut into what leaves the window and what stays. */
  lemma WindowSplit(current: seq<Fingerprint>, key: Fingerprint)
    requires Distinct(current) && key !in current
    ensures var order := current + [key];
            var retained := LastN(order, DEDUP_WINDOW);
            && Distinct(order[..|order| - |retained|] + retained)
            && order == order[..|order| - |retained|] + retained
            && |retained| <= DEDUP_WINDOW
  {
    DistinctAppend(current, key);
    var order := current + [key];
    assert order == order[..|order| - |LastN(order, DEDUP_WINDOW)|] + LastN(order, DEDUP_WINDOW);
  }

  lemma UnseenIsUnlisted(seen: set<Fingerprint>, windows: Windows, key: Fingerprint)
    requires WindowExact(seen, windows) && key !in seen
    ensures key.scope in windows ==> Distinct(windows[key.scope]) && key !in windows[key.scope]
  {
  }

  lemma UnseenIsOutOfOrder(s: State, key: Fingerprint)
    requires WindowExact(s.seen, s.seenOrder) && key !in s.seen
    ensures Distinct(SeenOrder(s, key.scope)) && key !in SeenOrder(s, key.scope)
  {
    UnseenIsUnlisted(s.seen, s.seenOrder, key);
  }

  /** Remembering an unlisted key slides the scope's window over the appended list. */
  lemma RememberSlides(s: State, key: Fingerprint)
    requires key !in SeenOrder(s, key.scope)
    ensures var order := SeenOrder(s, key.scope) + [key];
            var retained := LastN(order, DEDUP_WINDOW);
            var r := RememberEvent(s, key.scope, key);
            && r.seen == s.seen + {key} - Elements(order[..|order| - |retained|])
            && r.seenOrder == s.seenOrder[key.scope := retained]
  {
  }

  lemma RememberKeepsWindow(s: State, key: Fingerprint)
    requires WindowExact(s.seen, s.seenOrder) && key !in s.seen
    ensures WindowExact(RememberEvent(s, key.scope, key).seen, RememberEvent(s, key.scope, key).seenOrder)
    ensures SeenOrder(RememberEvent(s, key.scope, key), key.scope)
            == LastN(SeenOrder(s, key.scope) + [key], DEDUP_WINDOW)
  {
    hide RememberEvent, WindowExact, LastN, Elements, Distinct;
    var current := SeenOrder(s, key.scope);
    UnseenIsOutOfOrder(s, key);
    WindowSplit(current, key);
    RememberSlides(s, key);
    var order := current + [key];
    var retained := LastN(order, DEDUP_WINDOW);
    SlideKeepsWindow(s.seen, s.seenOrder, key, order[..|order| - |retained|], retained);
  }

  lemma ListedIsSeen(seen: set<Fingerprint>, windows: Windows, c: Scope, f: Fingerprint)
    requires WindowExact(seen, windows) && c in windows && f in windows[c]
    ensures f in seen && f.scope == c
  {
  }

  lemma DroppingKeepsWindow(seen: set<Fingerprint>, windows: Windows, scope: Scope)
    requires WindowExact(seen, windows)
    ensures WindowExact(seen - Elements(if scope in windows then windows[scope] else []), windows - {scope})
  {
    var gone := Elements(if scope in windows then windows[scope] else []);
    forall f | f in seen - gone
      ensures f.scope != scope && f.scope in windows && f in windows[f.scope]
    {
      assert f.scope in windows && f in windows[f.scope];
      assert f.scope == scope ==> f in gone;
    }
    forall c, f | c in windows - {scope} && f in windows[c]
      ensures f in seen - gone && f.scope == c
    {
      ListedIsSeen(seen, windows, c, f);
      if f in gone {
        ListedIsSeen(seen, windows, scope, f);
      }
    }
  }

  lemma ClearKeepsWindow(s: State, scope: Scope)
    requires WindowExact(s.seen, s.seenOrder)
    ensures WindowExact(ClearSeenScope(s, scope).seen, ClearSeenScope(s, scope).seenOrder)
  {
    DroppingKeepsWindow(s.seen, s.seenOrder, scope);
  }

  lemma SeenIsListed(seen: set<Fingerprint>, windows: Windows, f: Fingerprint)
    requires WindowExact(seen, windows) && f in seen
    ensures f.scope in windows && f in windows[f.scope]
  {
  }

  /** Clearing a scope forgets exactly its fingerprints. */
  lemma ClearingIsExact(s: State, scope: Scope, f: Fingerprint)
    requires WindowExact(s.seen, s.seenOrder)
    ensures f in ClearSeenScope(s, scope).seen <==> f in s.seen && f.scope != scope
  {
    hide WindowExact;
    if f in s.seen && f.scope == scope {
      SeenIsListed(s.seen, s.seenOrder, f);
    } else if f in SeenOrder(s, scope) {
      ListedIsSeen(s.seen, s.seenOrder, scope, f);
    }
  }

  // ---- Items, turns and snapshots ------------------------------------------------------

  lemma FilingKeepsOrder(orders: Orders, owner: Owners, i: ItemId, t: ThreadId)
    requires OrderExact(orders, owner)
    requires i in owner ==> owner[i] == t
    ensures var list := if t in orders then orders[t] else [];
            OrderExact(if i in list then orders else orders[t := list + [i]], owner[i := t])
  {
    var list := if t in orders then orders[t] else [];
    if i !in list {
      DistinctAppend(list, i);
    }
  }

  lemma FilingKeepsKeys(items: Items, owner: Owners, bytes: Counters, item: Item, t: ThreadId, n: nat)
    requires KeysAgree(items, owner, bytes)
    ensures KeysAgree(items[item.itemId := item], owner[item.itemId := t], bytes[item.itemId := n])
  {
  }

  lemma FilingKeepsTurns(items: Items, turns: Turns, owner: Owners, item: Item, t: ThreadId)
    requires TurnsOwned(items, turns, owner)
    requires item.turnId in turns ==> turns[item.turnId].threadId == t
    ensures TurnsOwned(items[item.itemId := item], turns, owner[item.itemId := t])
  {
  }

  lemma ApplyItemKeepsStructure(s: State, item: Item, t: ThreadId)
    requires Structure(s)
    requires item.itemId in s.itemThread ==> s.itemThread[item.itemId] == t
    requires item.turnId in s.turns ==> s.turns[item.turnId].threadId == t
    ensures Structure(ApplyItem(s, item, t))
  {
    FilingKeepsKeys(s.items, s.itemThread, s.itemBytes, item, t, ByteLength(TextOf(item)));
    FilingKeepsTurns(s.items, s.turns, s.itemThread, item, t);
    FilingKeepsOrder(s.itemIds, s.itemThread, item.itemId, t);
  }

  lemma ApplyDeltaKeepsStructure(s: State, i: ItemId, delta: Text)
    requires Structure(s) && i in s.items
    ensures Structure(ApplyDelta(s, i, delta))
  {
    var item, t := ApplyDelta(s, i, delta).items[i], s.itemThread[i];
    FilingKeepsKeys(s.items, s.itemThread, s.itemBytes, item, t, ApplyDelta(s, i, delta).itemBytes[i]);
    FilingKeepsTurns(s.items, s.turns, s.itemThread, item, t);
    assert s.itemThread[i := t] == s.itemThread;
    hide OrderExact, TurnsOwned, ByteLength;
  }

  lemma ApplyTurnKeepsStructure(s: State, turn: Turn)
    requires Structure(s) && TurnItemsBelongTo(s, turn.turnId, turn.threadId)
    ensures Structure(ApplyTurn(s, turn))
  {
  }

  /** With the structure intact, the two deletion tests pick the same items. */
  lemma RemovedAreOwned(s: State, t: ThreadId)
    requires Structure(s)
    ensures forall i :: i in Removed(s, t) <==> i in s.itemThread && s.itemThread[i] == t
  {
  }

  lemma DroppingKeepsOrder(orders: Orders, owner: Owners, gone: set<ItemId>, t: ThreadId)
    requires OrderExact(orders, owner)
    requires forall i :: i in gone <==> i in owner && owner[i] == t
    ensures OrderExact(orders[t := []], owner - gone)
  {
  }

  lemma RemoveKeepsStructure(s: State, t: ThreadId)
    requires Structure(s)
    ensures Structure(RemoveThreadEntities(s, t))
  {
    RemovedAreOwned(s, t);
    DroppingKeepsOrder(s.itemIds, s.itemThread, Removed(s, t), t);
  }

  /** Removing a thread drops exactly its items and turns, and leaves what remains as it was. */
  lemma RemovalIsExact(s: State, t: ThreadId)
    requires Structure(s)
    ensures var r := RemoveThreadEntities(s, t);
            && (forall i :: i in r.items <==> i in s.items && s.itemThread[i] != t)
            && (forall i :: i in r.items ==> r.items[i] == s.items[i] && r.itemThread[i] == s.itemThread[i])
            && (forall i :: i in r.items ==> r.itemBytes[i] == s.itemBytes[i])
            && (forall u :: u in r.turns <==> u in s.turns && s.turns[u].threadId != t)
            && (forall u :: u in r.turns ==> r.turns[u] == s.turns[u])
            && (if t in r.itemIds then r.itemIds[t] else []) == []
  {
    hide OrderExact, TurnsOwned, ClearSeenScope;
    RemoveKeepsStructure(s, t);
    RemovedOwners(s, t);
  }

  lemma RemovedOwners(s: State, t: ThreadId)
    requires Structure(s)
    ensures KeysAgree(s.items, s.itemThread, s.itemBytes)
    ensures forall i :: i in Removed(s, t) <==> i in s.itemThread && s.itemThread[i] == t
  {
    RemovedAreOwned(s, t);
  }

  /** No snapshot item is filed under another thread. */
  ghost predicate StealsNoItem(s: State, snap: Snapshot) {
    forall k :: 0 <= k < |snap.items| && snap.items[k].itemId in s.itemThread ==>
      s.itemThread[snap.items[k].itemId] == snap.thread.threadId
  }

  lemma ItemIdsDistinct(items: seq<Item>)
    requires forall j, k :: 0 <= j < k < |items| ==> items[j].itemId != items[k].itemId
    ensures Distinct(ItemIdsOf(items))
    ensures forall i :: i in ItemIdsOf(items) <==> i in ItemMap(items)
  {
    forall i | i in ItemMap(items) ensures i in ItemIdsOf(items) {
      var k :| 0 <= k < |items| && items[k].itemId == i;
      assert ItemIdsOf(items)[k] == i;
    }
  }

  lemma FillingKeepsOrder(orders: Orders, owner: Owners, ids: seq<ItemId>, t: ThreadId, filed: Owners)
    requires OrderExact(orders, owner) && Distinct(ids)
    requires forall i :: i in owner ==> owner[i] != t
    requires forall i :: i in filed <==> i in ids
    requires forall i :: i in filed ==> filed[i] == t && i !in owner
    ensures OrderExact(orders[t := ids], owner + filed)
  {
  }

  lemma InstallKeepsOrder(s: State, snap: Snapshot)
    requires Structure(s) && ValidSnapshotStructure(s, snap) && StealsNoItem(s, snap)
    ensures OrderExact(InstallSnapshot(s, snap).itemIds, InstallSnapshot(s, snap).itemThread)
  {
    var t := snap.thread.threadId;
    RemovedAreOwned(s, t);
    ItemIdsDistinct(snap.items);
    var w := RemoveThreadEntities(s, t);
    var arriving := ItemMap(snap.items);
    RemoveKeepsStructure(s, t);
    forall i | i in arriving ensures i !in w.itemThread {
      var k :| 0 <= k < |snap.items| && snap.items[k].itemId == i;
    }
    FillingKeepsOrder(w.itemIds, w.itemThread, ItemIdsOf(snap.items), t, OwnersOf(arriving, t));
  }

  lemma MergingKeepsKeys(items: Items, owner: Owners, bytes: Counters, arriving: Items, filed: Owners,
      counted: Counters)
    requires KeysAgree(items, owner, bytes) && KeysAgree(arriving, filed, counted)
    ensures KeysAgree(items + arriving, owner + filed, bytes + counted)
  {
  }

  lemma InstallKeepsKeys(s: State, snap: Snapshot)
    requires Structure(s)
    ensures KeysAgree(InstallSnapshot(s, snap).items, InstallSnapshot(s, snap).itemThread,
            InstallSnapshot(s, snap).itemBytes)
  {
    var t := snap.thread.threadId;
    RemoveKeepsStructure(s, t);
    var w := RemoveThreadEntities(s, t);
    var arriving := ItemMap(snap.items);
    MergingKeepsKeys(w.items, w.itemThread, w.itemBytes, arriving,
                     OwnersOf(arriving, t), CountersOf(arriving));
  }

  lemma InstallKeepsTurns(s: State, snap: Snapshot)
    requires Structure(s) && NamesNoForeignTurn(s, snap)
    ensures TurnsOwned(InstallSnapshot(s, snap).items, InstallSnapshot(s, snap).turns,
            InstallSnapshot(s, snap).itemThread)
  {
    var t := snap.thread.threadId;
    RemoveKeepsStructure(s, t);
    var w := RemoveThreadEntities(s, t);
    var r := InstallSnapshot(s, snap);
    var arriving := ItemMap(snap.items);
    forall i | i in r.items && r.items[i].turnId in r.turns
      ensures i in r.itemThread && r.turns[r.items[i].turnId].threadId == r.itemThread[i]
    {
      if i !in arriving {
        assert i in w.items && w.items[i] == r.items[i];
      }
    }
  }
}

/** The looping helpers of the reducer, each proved against the function the theorems use. */
module TimelineLoops {
  import opened Wrappers
  import opened Seqs
  import opened Utf8
  import opened TimelineState
  import opened TimelineReducer

  method ClearSeen(s: State, scope: Scope) returns (r: State)
    ensures r == ClearSeenScope(s, scope)
  {
    var order := SeenOrder(s, scope);
    var seen := s.seen;
    for k := 0 to |order|
      invariant seen == s.seen - Elements(order[..k])
    {
      assert Elements(order[..k + 1]) == Elements(order[..k]) + {order[k]};
      seen := seen - {order[k]};
    }
    assert order[..|order|] == order;
    r := s.(seen := seen, seenOrder := s.seenOrder - {scope});
  }

  method Remember(s: State, scope: Scope, key: Fingerprint) returns (r: State)
    ensures r == RememberEvent(s, scope, key)
  {
    var current := SeenOrder(s, scope);
    var order := if key in current then current else current + [key];
    var evicted := if |order| > DEDUP_WINDOW then order[..|order| - DEDUP_WINDOW] else [];
    var retained := LastN(order, DEDUP_WINDOW);
    var seen := s.seen + {key};
    for k := 0 to |evicted|
      invariant seen == s.seen + {key} - Elements(evicted[..k])
    {
      assert Elements(evicted[..k + 1]) == Elements(evicted[..k]) + {evicted[k]};
      seen := seen - {evicted[k]};
    }
    assert evicted[..|evicted|] == evicted;
    assert evicted == order[..|order| - |retained|];
    r := s.(seen := seen, seenOrder := s.seenOrder[scope := retained]);
  }

  /** The entries of a map that a walk over its keys, in any order, leaves undeleted. */
  method DeleteTurnsOf(turns: map<TurnId, Turn>, t: ThreadId) returns (r: map<TurnId, Turn>)
    ensures r == map u | u in turns && turns[u].threadId != t :: turns[u]
  {
    r := turns;
    var rest := turns.Keys;
    while rest != {}
      invariant rest <= turns.Keys
      invariant r == map u | u in turns && (u in rest || turns[u].threadId != t) :: turns[u]
      decreases |rest|
    {
      var u :| u in rest;
      if turns[u].threadId == t {
        r := r - {u};
      }
      rest := rest - {u};
    }
  }

  method DeleteApprovalsOf(approvals: map<ApprovalId, ApprovalState>, t: ThreadId)
    returns (r: map<ApprovalId, ApprovalState>)
    ensures r == map a | a in approvals && approvals[a].threadId != t :: approvals[a]
  {
    r := approvals;
    var rest := approvals.Keys;
    while rest != {}
      invariant rest <= approvals.Keys
      invariant r == map a | a in approvals && (a in rest || approvals[a].threadId != t) :: approvals[a]
      decreases |rest|
    {
      var a :| a in rest;
      if approvals[a].threadId == t {
        r := r - {a};
      }
      rest := rest - {a};
    }
  }

  lemma DropOneMore<V>(m: map<ItemId, V>, gone: set<ItemId>, i: ItemId)
    ensures m - gone - {i} == m - (gone + {i})
  {
  }

  method DeleteItemsOf(s: State, t: ThreadId)
    returns (items: map<ItemId, Item>, owner: map<ItemId, ThreadId>, bytes: map<ItemId, nat>)
    ensures items == s.items - Removed(s, t)
    ensures owner == s.itemThread - Removed(s, t)
    ensures bytes == s.itemBytes - Removed(s, t)
  {
    hide GoesWith;
    items, owner, bytes := s.items, s.itemThread, s.itemBytes;
    var rest := s.items.Keys;
    ghost var gone: set<ItemId> := {};
    while rest != {}
      invariant rest <= s.items.Keys
      invariant forall i :: i in gone <==> i in s.items && GoesWith(s, i, t) && i !in rest
      invariant items == s.items - gone && owner == s.itemThread - gone && bytes == s.itemBytes - gone
      decreases |rest|
    {
      var i :| i in rest;
      if GoesWith(s, i, t) {
        DropOneMore(s.items, gone, i);
        DropOneMore(s.itemThread, gone, i);
        DropOneMore(s.itemBytes, gone, i);
        items, owner, bytes := items - {i}, owner - {i}, bytes - {i};
        gone := gone + {i};
      }
      rest := rest - {i};
    }
    assert gone == Removed(s, t);
  }

  method RemoveThread(s: State, t: ThreadId) returns (r: State)
    ensures r == RemoveThreadEntities(s, t)
  {
    var cleaned := ClearSeen(s, ThreadScope(t));
    var turns := DeleteTurnsOf(cleaned.turns, t);
    var items, owner, bytes := DeleteItemsOf(cleaned, t);
    var approvals := DeleteApprovalsOf(cleaned.approvals, t);
    assert Removed(cleaned, t) == Removed(s, t);
    r := cleaned.(turns := turns, items := items, itemThread := owner, itemBytes := bytes, approvals := approvals,
         itemIds := cleaned.itemIds[t := []]);
  }

  method SnapshotStructureOk(s: State, snap: Snapshot) returns (ok: bool)
    ensures ok <==> ValidSnapshotStructure(s, snap)
  {
    if snap.thread.lastSeq != snap.snapshotSeq {
      return false;
    }
    var ids: set<ItemId> := {};
    for k := 0 to |snap.items|
      invariant forall i :: i in ids <==> exists j :: 0 <= j < k && snap.items[j].itemId == i
      invariant forall i, j :: 0 <= i < j < k ==> snap.items[i].itemId != snap.items[j].itemId
      invariant s.server == Some(snap.server) ==>
                  forall j :: 0 <= j < k ==> !ItemConflicts(s, snap.items[j].itemId, snap.thread.threadId)
    {
      var id := snap.items[k].itemId;
      if id in ids {
        return false;
      }
      ids := ids + {id};
      if s.server == Some(snap.server) && ItemConflicts(s, id, snap.thread.threadId) {
        return false;
      }
    }
    return true;
  }

  method SnapshotEventsOk(snap: Snapshot) returns (ok: bool)
    ensures ok <==> ValidSnapshotEvents(snap)
  {
    if snap.events.None? {
      return true;
    }
    var entries := snap.events.value;
    var previous := 0;
    for k := 0 to |entries|
      invariant RisingEntries(snap, entries[..k])
      invariant previous == if k == 0 then 0 else entries[k - 1].seqNo
    {
      if !EntryFits(snap, entries[k]) || entries[k].seqNo <= previous {
        RefusedEntry(snap, entries, k, previous);
        return false;
      }
      AdmittedEntry(snap, entries, k, previous);
      previous := entries[k].seqNo;
    }
    assert entries[..|entries|] == entries;
    if snap.nextSeq.Some? && |entries| > 0 {
      return snap.nextSeq.value > previous;
    }
    return true;
  }

  lemma RefusedEntry(snap: Snapshot, entries: seq<HistoryEntry>, k: nat, previous: nat)
    requires k < |entries| && RisingEntries(snap, entries[..k])
    requires previous == if k == 0 then 0 else entries[k - 1].seqNo
    requires !EntryFits(snap, entries[k]) || entries[k].seqNo <= previous
    ensures !RisingEntries(snap, entries)
  {
  }

  lemma AdmittedEntry(snap: Snapshot, entries: seq<HistoryEntry>, k: nat, previous: nat)
    requires k < |entries| && RisingEntries(snap, entries[..k])
    requires previous == if k == 0 then 0 else entries[k - 1].seqNo
    requires EntryFits(snap, entries[k]) && entries[k].seqNo > previous
    ensures RisingEntries(snap, entries[..k + 1])
  {
    var longer := entries[..k + 1];
    forall i, j | 0 <= i < j < |longer| ensures longer[i].seqNo < longer[j].seqNo {
      assert i < k - 1 ==> entries[..k][i].seqNo < entries[..k][k - 1].seqNo;
      assert j < k ==> entries[..k][i].seqNo < entries[..k][j].seqNo;
    }
    assert forall j :: 0 <= j < k ==> longer[j] == entries[..k][j];
  }

  method SnapshotTextsOk(snap: Snapshot) returns (ok: bool)
    ensures ok <==> SnapshotTextsFit(snap)
  {
    for k := 0 to |snap.items|
      invariant forall j :: 0 <= j < k ==> ByteLength(TextOf(snap.items[j])) <= MAX_TEXT_BYTES
    {
      if ByteLength(TextOf(snap.items[k])) > MAX_TEXT_BYTES {
        return false;
      }
    }
    return true;
  }

  /** One more filed item extends the arriving maps by one write. */
  lemma FileOneMore(items: seq<Item>, k: nat, t: ThreadId)
    requires k < |items|
    ensures var before := ItemMap(items[..k]);
            var after := ItemMap(items[..k + 1]);
            && after == before[items[k].itemId := items[k]]
            && OwnersOf(after, t) == OwnersOf(before, t)[items[k].itemId := t]
            && CountersOf(after) == CountersOf(before)[items[k].itemId := ByteLength(TextOf(items[k]))]
            && ItemIdsOf(items[..k + 1]) == ItemIdsOf(items[..k]) + [items[k].itemId]
  {
    hide ByteLength, CountersOf, OwnersOf;
    assert items[..k + 1][..k] == items[..k];
    IndexOneMore(ItemMap(items[..k]), items[k], t);
  }

  lemma IndexOneMore(m: map<ItemId, Item>, item: Item, t: ThreadId)
    ensures OwnersOf(m[item.itemId := item], t) == OwnersOf(m, t)[item.itemId := t]
    ensures CountersOf(m[item.itemId := item]) == CountersOf(m)[item.itemId := ByteLength(TextOf(item))]
  {
    hide ByteLength;
  }

  lemma NothingFiled(t: ThreadId)
    ensures ItemMap([]) == map[] && OwnersOf(map[], t) == map[] && CountersOf(map[]) == map[] && ItemIdsOf([]) == []
  {
  }

  lemma WriteThrough<V>(base: map<ItemId, V>, extra: map<ItemId, V>, i: ItemId, v: V)
    ensures (base + extra)[i := v] == base + extra[i := v]
  {
  }

  method FileItems(snap: Snapshot, items: map<ItemId, Item>, owner: map<ItemId, ThreadId>, bytes: map<ItemId, nat>)
    returns (items': map<ItemId, Item>, owner': map<ItemId, ThreadId>, bytes': map<ItemId, nat>, ids: seq<ItemId>)
    ensures items' == items + ItemMap(snap.items)
    ensures owner' == owner + OwnersOf(ItemMap(snap.items), snap.thread.threadId)
    ensures bytes' == bytes + CountersOf(ItemMap(snap.items))
    ensures ids == ItemIdsOf(snap.items)
  {
    hide ItemMap, OwnersOf, CountersOf, ItemIdsOf, ByteLength;
    items', owner', bytes', ids := items, owner, bytes, [];
    NothingFiled(snap.thread.threadId);
    for k := 0 to |snap.items|
      invariant items' == items + ItemMap(snap.items[..k])
      invariant owner' == owner + OwnersOf(ItemMap(snap.items[..k]), snap.thread.threadId)
      invariant bytes' == bytes + CountersOf(ItemMap(snap.items[..k]))
      invariant ids == ItemIdsOf(snap.items[..k])
    {
      var item := snap.items[k];
      ghost var t := snap.thread.threadId;
      FileOneMore(snap.items, k, t);
      ghost var before := ItemMap(snap.items[..k]);
      WriteThrough(items, before, item.itemId, item);
      WriteThrough(owner, OwnersOf(before, t), item.itemId, t);
      WriteThrough(bytes, CountersOf(before), item.itemId, ByteLength(TextOf(item)));
      items' := items'[item.itemId := item];
      owner' := owner'[item.itemId := snap.thread.threadId];
      bytes' := bytes'[item.itemId := ByteLength(TextOf(item))];
      ids := ids + [item.itemId];
    }
    assert snap.items[..|snap.items|] == snap.items;
  }

  /** `applySnapshot` as written, loops and all. */
  method ReplaceThread(s: State, snap: Snapshot) returns (r: State)
    ensures r == ApplySnapshot(s, snap)
  {
    if s.phase != ReadyPhase || (s.server.Some? && s.server.value != snap.server) {
      return Resync(s, RuntimeScope, HandshakeRequired, Rejected);
    }
    var structureOk := SnapshotStructureOk(s, snap);
    var eventsOk := SnapshotEventsOk(snap);
    var textsOk := SnapshotTextsOk(snap);
    if !structureOk || !eventsOk || !textsOk {
      return Resync(s, ThreadScope(snap.thread.threadId), SnapshotInvalid, ResyncRequired);
    }
    var t := snap.thread.threadId;
    var without := RemoveThread(s, t);
    var items, owner, bytes, ids := FileItems(snap, without.items, without.itemThread, without.itemBytes);
    r := without.(server := Some(snap.server), threads := without.threads[t := snap.thread],
         items := items, itemThread := owner, itemBytes := bytes, itemIds := without.itemIds[t := ids],
         lastSeq := without.lastSeq[t := snap.snapshotSeq], resync := without.resync - {ThreadScope(t)},
         lastOutcome := Some(Applied));
  }

  /** `turnItemsBelongToThread`: first the order lists of the other threads, then every item of the turn. */
  method TurnItemsOk(s: State, u: TurnId, t: ThreadId) returns (ok: bool)
    ensures ok <==> TurnItemsBelongTo(s, u, t)
  {
    var rest := s.itemIds.Keys;
    while rest != {}
      invariant rest <= s.itemIds.Keys
      invariant forall o, i :: o in s.itemIds && o !in rest && o != t && i in s.itemIds[o] && i in s.items ==>
                  s.items[i].turnId != u
      decreases |rest|
    {
      var o :| o in rest;
      if o != t && exists i :: i in s.itemIds[o] && i in s.items && s.items[i].turnId == u {
        return false;
      }
      rest := rest - {o};
    }
    return forall i :: i in s.items && s.items[i].turnId == u ==> i in s.itemThread && s.itemThread[i] == t;
  }
}

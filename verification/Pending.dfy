/** The bounded pending registry of `pending.rs` and its tombstone window. */
module Pending {
  import opened Wrappers
  import opened Seqs

  datatype Terminal = Resolved | TimedOut | Cancelled
  datatype Tombstone = Tombstone(id: string, terminal: Terminal)
  datatype Disposition = Delivered | DuplicateResponse | LateResponse | UnknownRequest
  datatype RegisterError = DuplicateRequest | LimitReached

  /** A response frame: its id and whatever else it carries. */
  datatype Frame = Frame(id: string, body: string)

  /** What the waiter of a request is sent, once. */
  datatype Completion = Answer(frame: Frame) | DeadlineExceeded | WasCancelled | SessionClosed

  const MAX_PENDING := 1_024
  const MAX_TOMBSTONES := 8_192

  datatype Registry = Registry(active: map<string, nat>, tombstones: seq<Tombstone>, maxActive: nat, maxTombstones: nat)

  function NewRegistry(maxActive: nat, maxTombstones: nat): Result<Registry, RegisterError> {
    if maxActive == 0 || maxActive > MAX_PENDING || maxTombstones == 0 || maxTombstones > MAX_TOMBSTONES
    then Err(LimitReached)
    else Ok(Registry(map[], [], maxActive, maxTombstones))
  }

  predicate Buried(tombstones: seq<Tombstone>, id: string) {
    exists k :: 0 <= k < |tombstones| && tombstones[k].id == id
  }

  function Register(r: Registry, id: string, deadline: nat): Result<Registry, RegisterError> {
    if id in r.active || Buried(r.tombstones, id) then Err(DuplicateRequest)
    else if |r.active| >= r.maxActive then Err(LimitReached)
    else Ok(r.(active := r.active[id := deadline]))
  }

  /** Drops the first tombstone of the id, if there is one. */
  function WithoutFirst(tombstones: seq<Tombstone>, id: string): seq<Tombstone> {
    if |tombstones| == 0 then []
    else if tombstones[0].id == id then tombstones[1..]
    else [tombstones[0]] + WithoutFirst(tombstones[1..], id)
  }

  /** `remember`: an older tombstone of the id goes, then the oldest ones until there is room. */
  function Remember(tombstones: seq<Tombstone>, t: Tombstone, max: nat): seq<Tombstone>
    requires max > 0
  {
    LastN(WithoutFirst(tombstones, t.id), max - 1) + [t]
  }

  function Finish(r: Registry, id: string, terminal: Terminal): Registry
    requires r.maxTombstones > 0
  {
    r.(active := r.active - {id}, tombstones := Remember(r.tombstones, Tombstone(id, terminal), r.maxTombstones))
  }

  /** First matching tombstone decides. */
  function Classify(tombstones: seq<Tombstone>, id: string): Disposition {
    if |tombstones| == 0 then UnknownRequest
    else if tombstones[0].id == id then (if tombstones[0].terminal == Resolved then DuplicateResponse else LateResponse)
    else Classify(tombstones[1..], id)
  }

  function FinishAll(r: Registry, ids: seq<string>, terminal: Terminal): Registry
    requires r.maxTombstones > 0
    decreases |ids|
  {
    if |ids| == 0 then r
    else Finish(FinishAll(r, ids[..|ids| - 1], terminal), ids[|ids| - 1], terminal)
  }

  /** The listing a hash map gives of a set of keys: each once, in some order. */
  ghost predicate Lists(ids: seq<string>, keys: set<string>) {
    Distinct(ids) && (forall id :: id in ids <==> id in keys)
  }

  ghost function DueIds(r: Registry, now: nat): set<string> { set id | id in r.active && r.active[id] <= now }

  // ---- The registry as the session owns it ---------------------------------------------

  /** Dropping the first match at `k` cuts it out; with no match nothing changes. */
  lemma {:induction false} WithoutFirstAt(tombstones: seq<Tombstone>, id: string, k: nat)
    requires k <= |tombstones| && (forall j :: 0 <= j < k ==> tombstones[j].id != id)
    requires k < |tombstones| ==> tombstones[k].id == id
    ensures WithoutFirst(tombstones, id)
            == if k < |tombstones| then tombstones[..k] + tombstones[k + 1..] else tombstones
  {
    if k > 0 {
      var rest := tombstones[1..];
      WithoutFirstAt(rest, id, k - 1);
      assert [tombstones[0]] + rest == tombstones;
      if k < |tombstones| {
        assert [tombstones[0]] + (rest[..k - 1] + rest[k..]) == tombstones[..k] + tombstones[k + 1..];
      }
    }
  }

  /** The same completion for every listed request. */
  ghost function Each(ids: seq<string>, completion: Completion): seq<(string, Completion)> {
    seq(|ids|, k requires 0 <= k < |ids| => (ids[k], completion))
  }

  lemma EachNone(completion: Completion)
    ensures Each([], completion) == []
  {
  }

  lemma EachMore(ids: seq<string>, id: string, completion: Completion)
    ensures Each(ids, completion) + [(id, completion)] == Each(ids + [id], completion)
  {
  }

  class PendingRegistry {
    var active: map<string, nat>
    var tombstones: seq<Tombstone>
    const maxActive: nat
    const maxTombstones: nat
    ghost var completions: seq<(string, Completion)>

    ghost function View(): Registry
      reads this
    {
      Registry(active, tombstones, maxActive, maxTombstones)
    }

    ghost predicate Valid()
      reads this
    {
      0 < maxTombstones
    }

    constructor (maxActive: nat, maxTombstones: nat)
      requires 0 < maxTombstones
      ensures Valid() && View() == Registry(map[], [], maxActive, maxTombstones) && completions == []
    {
      this.maxActive, this.maxTombstones := maxActive, maxTombstones;
      active, tombstones, completions := map[], [], [];
    }

    method RegisterRequest(id: string, deadline: nat) returns (error: Option<RegisterError>)
      modifies this`active
      ensures match Register(old(View()), id, deadline)
              case Ok(r) => error == None && View() == r
              case Err(e) => error == Some(e) && View() == old(View())
    {
      if id in active || Buried(tombstones, id) {
        return Some(DuplicateRequest);
      }
      if |active| >= maxActive {
        return Some(LimitReached);
      }
      active := active[id := deadline];
      return None;
    }

    method DropTombstone(id: string)
      modifies this`tombstones
      ensures tombstones == WithoutFirst(old(tombstones), id)
    {
      var k := 0;
      while k < |tombstones| && tombstones[k].id != id
        invariant 0 <= k <= |tombstones| && forall j :: 0 <= j < k ==> tombstones[j].id != id
      {
        k := k + 1;
      }
      WithoutFirstAt(tombstones, id, k);
      if k < |tombstones| {
        tombstones := tombstones[..k] + tombstones[k + 1..];
      }
    }

    /** `remember`: drop an older tombstone of the id, pop from the front until there is room, push. */
    method RememberEnd(id: string, terminal: Terminal)
      requires Valid()
      modifies this`tombstones
      ensures tombstones == Remember(old(tombstones), Tombstone(id, terminal), maxTombstones)
    {
      DropTombstone(id);
      ghost var without := tombstones;
      while |tombstones| >= maxTombstones
        invariant |tombstones| <= |without| && tombstones == without[|without| - |tombstones|..]
        invariant |tombstones| < |without| ==> |tombstones| >= maxTombstones - 1
        decreases |tombstones|
      {
        tombstones := tombstones[1..];
      }
      tombstones := tombstones + [Tombstone(id, terminal)];
    }

    method ResolveFrame(frame: Frame) returns (d: Disposition)
      requires Valid()
      modifies this
      ensures Valid()
      ensures if frame.id in old(active)
              then d == Delivered && View() == Finish(old(View()), frame.id, Resolved)
                   && completions == old(completions) + [(frame.id, Answer(frame))]
              else d == Classify(old(tombstones), frame.id) && View() == old(View()) && completions == old(completions)
    {
      if frame.id in active {
        active := active - {frame.id};
        completions := completions + [(frame.id, Answer(frame))];
        RememberEnd(frame.id, Resolved);
        return Delivered;
      }
      d := FindTombstone(frame.id);
    }

    method FindTombstone(id: string) returns (d: Disposition)
      ensures d == Classify(tombstones, id)
    {
      for k := 0 to |tombstones|
        invariant Classify(tombstones, id) == Classify(tombstones[k..], id)
      {
        if tombstones[k].id == id {
          return if tombstones[k].terminal == Resolved then DuplicateResponse else LateResponse;
        }
        assert tombstones[k..][1..] == tombstones[k + 1..];
      }
      return UnknownRequest;
    }

    /** Ends the given active requests one by one, in the order the hash map happens to list them. */
    method FinishEach(keys: set<string>, terminal: Terminal, completion: Completion) returns (ghost order: seq<string>)
      requires Valid() && keys <= active.Keys
      modifies this
      ensures Valid() && Lists(order, keys)
      ensures View() == FinishAll(old(View()), order, terminal)
      ensures completions == old(completions) + Each(order, completion)
    {
      hide Each, Remember;
      order := [];
      assert completions == completions + Each([], completion) by { EachNone(completion); }
      var rest := keys;
      while rest != {}
        invariant rest <= keys && Lists(order, keys - rest)
        invariant View() == FinishAll(old(View()), order, terminal)
        invariant completions == old(completions) + Each(order, completion)
        decreases |rest|
      {
        var id :| id in rest;
        ghost var longer := order + [id];
        assert longer[..|longer| - 1] == order;
        EachMore(order, id, completion);
        active := active - {id};
        completions := completions + [(id, completion)];
        RememberEnd(id, terminal);
        rest := rest - {id};
        order := longer;
      }
    }

    method Expire(now: nat) returns (count: nat, ghost order: seq<string>)
      requires Valid()
      modifies this
      ensures Valid() && Lists(order, DueIds(old(View()), now)) && count == |DueIds(old(View()), now)|
      ensures View() == FinishAll(old(View()), order, TimedOut)
      ensures completions == old(completions) + Each(order, DeadlineExceeded)
    {
      var due := set id | id in active && active[id] <= now;
      order := FinishEach(due, TimedOut, DeadlineExceeded);
      count := |due|;
    }

    method Cancel(id: string) returns (cancelled: bool)
      requires Valid()
      modifies this
      ensures Valid() && cancelled == (id in old(active))
      ensures View() == if cancelled then Finish(old(View()), id, Cancelled) else old(View())
      ensures completions == if cancelled then old(completions) + [(id, WasCancelled)] else old(completions)
    {
      if id !in active {
        return false;
      }
      active := active - {id};
      completions := completions + [(id, WasCancelled)];
      RememberEnd(id, Cancelled);
      return true;
    }

    method CloseAll() returns (count: nat, ghost order: seq<string>)
      requires Valid()
      modifies this
      ensures Valid() && Lists(order, old(active).Keys) && count == |old(active)|
      ensures View() == FinishAll(old(View()), order, Cancelled)
      ensures completions == old(completions) + Each(order, SessionClosed)
    {
      count := |active|;
      order := FinishEach(active.Keys, Cancelled, SessionClosed);
    }
  }

  // ---- The window over the termination history -----------------------------------------

  ghost predicate UniqueIds(tombstones: seq<Tombstone>) {
    forall i, j :: 0 <= i < j < |tombstones| ==> tombstones[i].id != tombstones[j].id
  }

  /** The registry next to everything that ever ended, oldest first; identifiers may be reused by the caller. */
  ghost predicate Tracks(r: Registry, history: seq<Tombstone>) {
    && 0 < r.maxTombstones
    && r.tombstones == LastN(history, r.maxTombstones)
    && UniqueIds(r.tombstones)
    && (forall k :: 0 <= k < |r.tombstones| ==> r.tombstones[k].id !in r.active)
    && |r.active| <= r.maxActive
  }

  lemma UnburiedStays(tombstones: seq<Tombstone>, id: string)
    requires !Buried(tombstones, id)
    ensures WithoutFirst(tombstones, id) == tombstones
  {
    if |tombstones| > 0 {
      assert tombstones[0].id != id;
      forall k | 0 <= k < |tombstones[1..]| ensures tombstones[1..][k].id != id {
        assert tombstones[1..][k] == tombstones[k + 1];
      }
      UnburiedStays(tombstones[1..], id);
    }
  }

  lemma WindowSlides(history: seq<Tombstone>, t: Tombstone, max: nat)
    requires max > 0
    ensures LastN(LastN(history, max), max - 1) + [t] == LastN(history + [t], max)
  {
  }

  lemma PushKeepsUnique(tombstones: seq<Tombstone>, t: Tombstone, max: nat)
    requires max > 0 && UniqueIds(tombstones) && !Buried(tombstones, t.id)
    ensures var pushed := LastN(tombstones, max - 1) + [t];
            UniqueIds(pushed) && forall k :: 0 <= k < |pushed| ==> pushed[k] == t || pushed[k] in tombstones
  {
  }

  lemma RemovalShrinks(active: map<string, nat>, id: string)
    requires id in active
    ensures |active - {id}| == |active| - 1
  {
    assert (active - {id}).Keys == active.Keys - {id};
  }

  /** Ending an active request slides the window by one. */
  lemma FinishTracks(r: Registry, history: seq<Tombstone>, id: string, terminal: Terminal)
    requires Tracks(r, history) && id in r.active
    ensures Tracks(Finish(r, id, terminal), history + [Tombstone(id, terminal)])
  {
    assert !Buried(r.tombstones, id);
    UnburiedStays(r.tombstones, id);
    PushKeepsUnique(r.tombstones, Tombstone(id, terminal), r.maxTombstones);
    hide UniqueIds, Buried, LastN;
    WindowSlides(history, Tombstone(id, terminal), r.maxTombstones);
    RemovalShrinks(r.active, id);
  }

  function Ends(ids: seq<string>, terminal: Terminal): (ts: seq<Tombstone>)
    ensures |ts| == |ids| && forall k :: 0 <= k < |ids| ==> ts[k] == Tombstone(ids[k], terminal)
  {
    seq(|ids|, k requires 0 <= k < |ids| => Tombstone(ids[k], terminal))
  }

  /** Ending the listed requests removes exactly them and leaves every other deadline alone. */
  lemma {:induction false} FinishAllActive(r: Registry, ids: seq<string>, terminal: Terminal)
    requires r.maxTombstones > 0
    ensures forall id :: id in FinishAll(r, ids, terminal).active <==> id in r.active && id !in ids
    ensures forall id :: id in FinishAll(r, ids, terminal).active ==>
              FinishAll(r, ids, terminal).active[id] == r.active[id]
    ensures FinishAll(r, ids, terminal).maxActive == r.maxActive
    ensures FinishAll(r, ids, terminal).maxTombstones == r.maxTombstones
    decreases |ids|
  {
    hide Remember;
    if |ids| > 0 {
      FinishAllActive(r, ids[..|ids| - 1], terminal);
      assert ids == ids[..|ids| - 1] + [ids[|ids| - 1]];
    }
  }

  lemma {:induction false} FinishAllTracks(r: Registry, history: seq<Tombstone>, ids: seq<string>, terminal: Terminal)
    requires Tracks(r, history) && Distinct(ids) && forall id :: id in ids ==> id in r.active
    ensures Tracks(FinishAll(r, ids, terminal), history + Ends(ids, terminal))
    decreases |ids|
  {
    hide Tracks, Finish;
    if |ids| > 0 {
      var init := ids[..|ids| - 1];
      var last := ids[|ids| - 1];
      assert ids == init + [last];
      TracksBound(r, history);
      FinishAllTracks(r, history, init, terminal);
      FinishAllActive(r, init, terminal);
      FinishTracks(FinishAll(r, init, terminal), history + Ends(init, terminal), last, terminal);
      assert history + Ends(init, terminal) + [Tombstone(last, terminal)] == history + Ends(ids, terminal);
    } else {
      assert history + Ends(ids, terminal) == history;
    }
  }

  lemma TracksBound(r: Registry, history: seq<Tombstone>)
    requires Tracks(r, history)
    ensures r.maxTombstones > 0
  {
  }

  /** The classification an unbounded history would give: its most recent entry for the id. */
  function Latest(history: seq<Tombstone>, id: string): Disposition {
    if |history| == 0 then UnknownRequest
    else if history[|history| - 1].id == id
    then (if history[|history| - 1].terminal == Resolved then DuplicateResponse else LateResponse)
    else Latest(history[..|history| - 1], id)
  }

  lemma {:induction false} ClassifyAt(tombstones: seq<Tombstone>, k: nat)
    requires k < |tombstones| && UniqueIds(tombstones)
    ensures Classify(tombstones, tombstones[k].id)
            == if tombstones[k].terminal == Resolved then DuplicateResponse else LateResponse
  {
    if k > 0 {
      ClassifyAt(tombstones[1..], k - 1);
    }
  }

  lemma {:induction false} ClassifyAbsent(tombstones: seq<Tombstone>, id: string)
    requires !Buried(tombstones, id)
    ensures Classify(tombstones, id) == UnknownRequest
  {
    if |tombstones| > 0 {
      assert tombstones[0].id != id;
      forall k | 0 <= k < |tombstones[1..]| ensures tombstones[1..][k].id != id {
        assert tombstones[1..][k] == tombstones[k + 1];
      }
      ClassifyAbsent(tombstones[1..], id);
    }
  }

  lemma {:induction false} LatestAt(history: seq<Tombstone>, k: nat)
    requires k < |history| && forall j :: k < j < |history| ==> history[j].id != history[k].id
    ensures Latest(history, history[k].id)
            == if history[k].terminal == Resolved then DuplicateResponse else LateResponse
  {
    if k < |history| - 1 {
      LatestAt(history[..|history| - 1], k);
    }
  }

  /** The latest end of an identifier that is still in the window is the one in the window. */
  lemma LatestInWindow(history: seq<Tombstone>, n: nat, k: nat)
    requires UniqueIds(LastN(history, n)) && k < |LastN(history, n)|
    ensures Latest(history, LastN(history, n)[k].id)
            == if LastN(history, n)[k].terminal == Resolved then DuplicateResponse else LateResponse
  {
    hide Latest;
    var window := LastN(history, n);
    var gone := |history| - |window|;
    assert history[gone + k] == window[k];
    forall j | gone + k < j < |history|
      ensures history[j].id != window[k].id
    {
      assert history[j] == window[j - gone];
    }
    LatestAt(history, gone + k);
  }

  /** Inside the window the bounded classification is the unbounded one; outside it knows nothing. */
  lemma BoundedClassificationAgrees(r: Registry, history: seq<Tombstone>, id: string)
    requires Tracks(r, history)
    ensures Classify(r.tombstones, id)
            == if Buried(LastN(history, r.maxTombstones), id) then Latest(history, id) else UnknownRequest
  {
    hide Latest, Classify, LastN, UniqueIds;
    if Buried(r.tombstones, id) {
      var k :| 0 <= k < |r.tombstones| && r.tombstones[k].id == id;
      ClassifyAt(r.tombstones, k);
      LatestInWindow(history, r.maxTombstones, k);
    } else {
      ClassifyAbsent(r.tombstones, id);
    }
  }
}

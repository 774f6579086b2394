/** Request identifiers `c:rpc-<n>` of `session.rs`, and the two ledgers that keep them from being reused. */
module RequestIds {
  import opened Wrappers

  function Digit(d: nat): char
    requires d < 10
  {
    '0' + d as char
  }

  /** Rust's decimal rendering of an unsigned number. */
  function Decimal(n: nat): (s: string)
    ensures |s| > 0
  {
    if n < 10 then [Digit(n)] else Decimal(n / 10) + [Digit(n % 10)]
  }

  function ValueOf(s: string): int {
    if |s| == 0 then 0 else ValueOf(s[..|s| - 1]) * 10 + (s[|s| - 1] as int - '0' as int)
  }

  lemma {:induction false} DecimalRoundTrip(n: nat)
    ensures ValueOf(Decimal(n)) == n
  {
    if n < 10 {
      assert Decimal(n)[..0] == [];
    } else {
      DecimalRoundTrip(n / 10);
      assert Decimal(n)[..|Decimal(n)| - 1] == Decimal(n / 10);
    }
  }

  function RequestId(n: nat): string { "c:rpc-" + Decimal(n) }

  /** Different counters never render to the same identifier. */
  lemma RequestIdIsInjective(m: nat, n: nat)
    requires RequestId(m) == RequestId(n)
    ensures m == n
  {
    assert RequestId(m)[6..] == Decimal(m);
    assert RequestId(n)[6..] == Decimal(n);
    DecimalRoundTrip(m);
    DecimalRoundTrip(n);
  }

  const MAX_LEDGER := 8_192
  const U64_MAX := 0xFFFF_FFFF_FFFF_FFFF

  datatype Ledger = Ledger(seen: set<string>, next: nat)

  const FreshLedger := Ledger({}, 1)

  /** The identifiers below the counter. */
  ghost predicate SeenBelow(seen: set<string>, next: nat) {
    forall id :: id in seen <==> exists k :: 1 <= k < next && id == RequestId(k)
  }

  /** The ledger has seen exactly the identifiers below its counter. */
  ghost predicate LedgerInv(l: Ledger) {
    && 1 <= l.next <= MAX_LEDGER + 1
    && |l.seen| == l.next - 1
    && SeenBelow(l.seen, l.next)
  }

  /** `allocate`: refused at the ledger bound, at counter overflow and on a repeated identifier. */
  function Allocate(l: Ledger): (Ledger, Option<string>) {
    if |l.seen| >= MAX_LEDGER || l.next + 1 > U64_MAX then (l, None)
    else if RequestId(l.next) in l.seen then (l.(next := l.next + 1), None)
    else (Ledger(l.seen + {RequestId(l.next)}, l.next + 1), Some(RequestId(l.next)))
  }

  lemma NextIsUnseen(l: Ledger)
    requires LedgerInv(l)
    ensures RequestId(l.next) !in l.seen
  {
    if RequestId(l.next) in l.seen {
      var k :| 1 <= k < l.next && RequestId(l.next) == RequestId(k);
      RequestIdIsInjective(l.next, k);
    }
  }

  /** An allocation yields a never-seen identifier, and fails only when 8192 have been issued. */
  lemma AllocateIsFresh(l: Ledger)
    requires LedgerInv(l)
    ensures var (l', id) := Allocate(l);
            && LedgerInv(l')
            && (id.None? <==> |l.seen| == MAX_LEDGER)
            && (id.None? ==> l' == l)
            && (id.Some? ==> id.value !in l.seen && l'.seen == l.seen + {id.value})
  {
    NextIsUnseen(l);
    SeenGrows(l.seen, l.next);
    hide RequestId;
  }

  lemma SeenGrows(seen: set<string>, next: nat)
    requires SeenBelow(seen, next) && next >= 1
    ensures SeenBelow(seen + {RequestId(next)}, next + 1)
  {
    hide RequestId;
    forall id | id in seen + {RequestId(next)}
      ensures exists k :: 1 <= k < next + 1 && id == RequestId(k)
    {
      if id != RequestId(next) {
        var k :| 1 <= k < next && id == RequestId(k);
      }
    }
  }

  /** The mutex-guarded ledger. */
  class OutboundRequestLedger {
    var seen: set<string>
    var next: nat

    ghost function View(): Ledger
      reads this
    {
      Ledger(seen, next)
    }

    constructor ()
      ensures View() == FreshLedger
    {
      seen, next := {}, 1;
    }

    method AllocateId() returns (id: Option<string>)
      modifies this
      ensures (View(), id) == Allocate(old(View()))
    {
      if |seen| >= MAX_LEDGER {
        return None;
      }
      var number := next;
      if next + 1 > U64_MAX {
        return None;
      }
      next := next + 1;
      if RequestId(number) in seen {
        return None;
      }
      seen := seen + {RequestId(number)};
      return Some(RequestId(number));
    }
  }

  // ---- Inbound server requests ---------------------------------------------------------

  datatype InboundError = DuplicateRequest | PendingLimit | LedgerExhausted | DuplicateResponse | UnknownRequestId

  datatype Inbound = Inbound(active: set<string>, seen: set<string>, max: nat)

  function RegisterInbound(q: Inbound, id: string): Result<Inbound, InboundError> {
    if id in q.seen then Err(DuplicateRequest)
    else if |q.active| >= q.max then Err(PendingLimit)
    else if |q.seen| >= MAX_LEDGER then Err(LedgerExhausted)
    else Ok(q.(active := q.active + {id}, seen := q.seen + {id}))
  }

  function ResolveInbound(q: Inbound, id: string): Result<Inbound, InboundError> {
    if id in q.active then Ok(q.(active := q.active - {id}))
    else if id in q.seen then Err(DuplicateResponse)
    else Err(UnknownRequestId)
  }

  class InboundServerRequests {
    var active: set<string>
    var seen: set<string>
    const max: nat

    ghost function View(): Inbound
      reads this
    {
      Inbound(active, seen, max)
    }

    constructor (max: nat)
      ensures View() == Inbound({}, {}, max)
    {
      this.max := max;
      active, seen := {}, {};
    }

    method Register(id: string) returns (error: Option<InboundError>)
      modifies this
      ensures match RegisterInbound(old(View()), id)
              case Ok(q) => error == None && View() == q
              case Err(e) => error == Some(e) && View() == old(View())
    {
      if id in seen {
        return Some(DuplicateRequest);
      }
      if |active| >= max {
        return Some(PendingLimit);
      }
      if |seen| >= MAX_LEDGER {
        return Some(LedgerExhausted);
      }
      seen := seen + {id};
      active := active + {id};
      return None;
    }

    method Resolve(id: string) returns (error: Option<InboundError>)
      modifies this
      ensures match ResolveInbound(old(View()), id)
              case Ok(q) => error == None && View() == q
              case Err(e) => error == Some(e) && View() == old(View())
    {
      if id !in active {
        return Some(if id in seen then DuplicateResponse else UnknownRequestId);
      }
      active := active - {id};
      return None;
    }
  }

  datatype InboundStep = Arrives(id: string) | Answers(id: string)

  /** The registry, the identifiers it accepted and the ones it let the host answer, in order. */
  datatype InboundRun = InboundRun(q: Inbound, accepted: seq<string>, answered: seq<string>)

  function InboundDo(r: InboundRun, step: InboundStep): InboundRun {
    match step
    case Arrives(id) =>
      (match RegisterInbound(r.q, id) case Ok(q) => r.(q := q, accepted := r.accepted + [id]) case Err(_) => r)
    case Answers(id) =>
      (match ResolveInbound(r.q, id) case Ok(q) => r.(q := q, answered := r.answered + [id]) case Err(_) => r)
  }

  function InboundAfter(max: nat, steps: seq<InboundStep>): InboundRun {
    if |steps| == 0 then InboundRun(Inbound({}, {}, max), [], [])
    else InboundDo(InboundAfter(max, steps[..|steps| - 1]), steps[|steps| - 1])
  }

  ghost predicate NoRepeat(ids: seq<string>) { forall i, j :: 0 <= i < j < |ids| ==> ids[i] != ids[j] }

  ghost predicate InboundInv(r: InboundRun) {
    && NoRepeat(r.accepted) && NoRepeat(r.answered)
    && (forall id :: id in r.q.seen <==> id in r.accepted)
    && (forall id :: id in r.q.active <==> id in r.accepted && id !in r.answered)
    && (forall id :: id in r.answered ==> id in r.accepted)
    && |r.q.active| == |r.accepted| - |r.answered| <= r.q.max
    && |r.q.seen| == |r.accepted| <= MAX_LEDGER
  }

  /** Whatever arrives and whatever the host tries to answer: each accepted request is answered at most once. */
  lemma {:induction false} ServerRequestsAnsweredAtMostOnce(max: nat, steps: seq<InboundStep>)
    ensures InboundInv(InboundAfter(max, steps)) && InboundAfter(max, steps).q.max == max
  {
    if |steps| > 0 {
      ServerRequestsAnsweredAtMostOnce(max, steps[..|steps| - 1]);
      var r := InboundAfter(max, steps[..|steps| - 1]);
      var step := steps[|steps| - 1];
      assert step.Arrives? && RegisterInbound(r.q, step.id).Ok? ==> step.id !in r.accepted;
      assert step.Answers? && ResolveInbound(r.q, step.id).Ok? ==> step.id !in r.answered && step.id in r.accepted;
    }
  }

  /**
   * What happens to the next arrival and the next answer depends on the history alone: an identifier is accepted the
   * first time, with room for another open request and fewer than 8192 accepted so far; an answer goes through
   * exactly once, after the acceptance.
   */
  lemma InboundOutcomes(max: nat, steps: seq<InboundStep>, id: string)
    ensures var r := InboundAfter(max, steps);
            && RegisterInbound(r.q, id) ==
               (if id in r.accepted then Err(DuplicateRequest)
                else if |r.accepted| - |r.answered| >= max then Err(PendingLimit)
                else if |r.accepted| >= 8192 then Err(LedgerExhausted)
                else Ok(Inbound(r.q.active + {id}, r.q.seen + {id}, max)))
            && ResolveInbound(r.q, id) ==
               (if id in r.answered then Err(DuplicateResponse)
                else if id in r.accepted then Ok(Inbound(r.q.active - {id}, r.q.seen, max))
                else Err(UnknownRequestId))
  {
    ServerRequestsAnsweredAtMostOnce(max, steps);
  }
}

/**
 * The shared cells of the ready handshake in `session.rs`: the one-shot challenge, the
 * initialized barrier and the flags, and the class whose methods are their atomic updates.
 */
module ReadyShared {
  import opened Wrappers

  type Token = string

  datatype Barrier = NotSent | Sending | Confirmed | Failed

  datatype Shared = Shared(
    challenge: Option<Token>,
    sent: bool,
    barrier: Barrier,
    claimed: bool,
    consumed: bool,
    closed: bool)

  const FreshShared := Shared(None, false, NotSent, false, false, false)

  // ---- The atomic updates ----------------------------------------------------------------

  function WithChallenge(v: Shared, token: Token): Shared { v.(challenge := Some(token)) }

  function WithSent(v: Shared, sent: bool): Shared { v.(sent := sent) }

  function BarrierReset(v: Shared): Shared { v.(barrier := NotSent) }

  function WithoutClaim(v: Shared): Shared { v.(claimed := false) }

  function WithConsumed(v: Shared, consumed: bool): Shared { v.(consumed := consumed) }

  /** `begin_send`: only an unsent barrier admits a guard. */
  function AfterBegin(v: Shared): Shared { if v.barrier == NotSent then v.(barrier := Sending) else v }

  function AfterComplete(v: Shared, ok: bool): Shared { v.(barrier := if ok then Confirmed else Failed) }

  /** `claim_ready`: the slot is taken only on an open session behind a confirmed barrier. */
  predicate MayClaim(v: Shared) { !v.closed && v.barrier == Confirmed && !v.claimed }

  function AfterClaim(v: Shared): Shared { if MayClaim(v) then v.(claimed := true) else v }

  function WithClosed(v: Shared): Shared { v.(closed := true) }

  /** All stores of one install, seen from after its last one when nothing came in between. */
  function Installed(v: Shared, token: Token): Shared {
    WithConsumed(WithoutClaim(BarrierReset(WithSent(WithChallenge(v, token), false))), false)
  }

  // ---- The cells -------------------------------------------------------------------------

  /** The barrier and the flags; the mutex of the barrier is held exactly while it is Sending. */
  class HandshakeCells {
    var challenge: Option<Token>
    var sent: bool
    var barrier: Barrier
    var claimed: bool
    var consumed: bool
    var closed: bool

    ghost function View(): Shared
      reads this
    {
      Shared(challenge, sent, barrier, claimed, consumed, closed)
    }

    constructor ()
      ensures View() == FreshShared
    {
      challenge, sent, barrier, claimed, consumed, closed := None, false, NotSent, false, false, false;
    }

    method StoreChallenge(token: Token)
      modifies this`challenge
      ensures View() == WithChallenge(old(View()), token)
    {
      challenge := Some(token);
    }

    method StoreSent(value: bool)
      modifies this`sent
      ensures View() == WithSent(old(View()), value)
    {
      sent := value;
    }

    /** `reset` takes the barrier's mutex, so it waits while a guard holds it. */
    method ResetBarrier()
      requires barrier != Sending
      modifies this`barrier
      ensures View() == BarrierReset(old(View()))
    {
      barrier := NotSent;
    }

    method StoreClaimed()
      modifies this`claimed
      ensures View() == WithoutClaim(old(View()))
    {
      claimed := false;
    }

    method StoreConsumed(value: bool)
      modifies this`consumed
      ensures View() == WithConsumed(old(View()), value)
    {
      consumed := value;
    }

    /** The body of an install, run without interruption: five stores in this order. */
    method Install(token: Token)
      requires barrier != Sending
      modifies this
      ensures View() == Installed(old(View()), token)
    {
      StoreChallenge(token);
      StoreSent(false);
      ResetBarrier();
      StoreClaimed();
      StoreConsumed(false);
    }

    method CasSent() returns (won: bool)
      modifies this`sent
      ensures won == !old(sent)
      ensures View() == WithSent(old(View()), true)
    {
      won := !sent;
      sent := true;
    }

    method BeginSend() returns (admitted: bool)
      requires barrier != Sending
      modifies this`barrier
      ensures admitted == (old(barrier) == NotSent)
      ensures View() == AfterBegin(old(View()))
    {
      admitted := barrier == NotSent;
      if admitted {
        barrier := Sending;
      }
    }

    /** Completing or dropping the guard always leaves a final state, so the gate never stays in Sending. */
    method Complete(ok: bool)
      requires barrier == Sending
      modifies this`barrier
      ensures View() == AfterComplete(old(View()), ok)
    {
      barrier := if ok then Confirmed else Failed;
    }

    method ClaimReady() returns (claimedNow: bool)
      requires barrier != Sending
      modifies this`claimed
      ensures claimedNow <==> !old(closed) && old(barrier) == Confirmed && !old(claimed)
      ensures claimed == (old(claimed) || claimedNow)
      ensures View() == AfterClaim(old(View()))
    {
      if closed || barrier != Confirmed {
        return false;
      }
      claimedNow := !claimed;
      claimed := true;
    }

    method CasConsumed() returns (won: bool)
      modifies this`consumed
      ensures won == !old(consumed)
      ensures View() == WithConsumed(old(View()), true)
    {
      won := !consumed;
      consumed := true;
    }

    method Close()
      modifies this`closed
      ensures View() == WithClosed(old(View()))
    {
      closed := true;
    }
  }
}

/**
 The card access gate of pkg/manager/card_access_gate.go: shared holders, a ticketed exclusive barrier,
 cancellation, and a close-and-replace notification channel. The channel is an epoch counter: a waiter
 records the epoch it saw, and closing the channel moves to the next epoch.
 */
module CardAccessGate {

  datatype Gate = Gate(
    active: nat,
    barrier: bool,
    next: nat,
    serving: nat,
    canceled: set<nat>,
    epoch: nat)
  {
    function Signal(): Gate {
      this.(epoch := epoch + 1)
    }

    /** Tickets start at 1; 0 marks a gate nobody has entered yet. */
    function Started(): Gate {
      if next == 0 then this.(next := 1, serving := 1) else this
    }

    /** Step over the cancelled tickets at the head of the queue. */
    function Skip(): Gate
      decreases |canceled|
    {
      if serving in canceled then this.(serving := serving + 1, canceled := canceled - {serving}).Skip()
      else this
    }

    predicate AdmitsAcquire() {
      !barrier && next == serving
    }

    predicate AdmitsBegin(ticket: nat) {
      !barrier && active == 0 && ticket == serving
    }

    // One function per critical section.

    function Acquire(): Gate {
      var g := Started().Skip();
      if g.AdmitsAcquire() then g.(active := g.active + 1) else g
    }

    function Release(): Gate {
      var g := if active > 0 then this.(active := active - 1) else this;
      if g.active == 0 then g.Signal() else g
    }

    function Retry(ticket: nat): Gate {
      var g := Skip();
      if g.AdmitsBegin(ticket) then g.(serving := g.serving + 1, barrier := true) else g
    }

    function Begin(): Gate {
      var g := Started();
      g.(next := g.next + 1).Retry(g.next)
    }

    function Cancel(ticket: nat): Gate {
      this.(canceled := canceled + {ticket}).Skip().Signal()
    }

    function ReleaseBarrier(): Gate {
      this.(barrier := false).Signal()
    }
  }

  const IDLE := Gate(0, false, 0, 0, {}, 0)

  /** Skipping only moves the head: it stops at the first ticket that is not cancelled. */
  lemma {:induction false} SkipFacts(g: Gate)
    ensures
      var h := g.Skip();
      && h == g.(serving := h.serving, canceled := h.canceled)
      && g.serving <= h.serving
      && h.serving !in h.canceled
      && (forall t :: g.serving <= t < h.serving ==> t in g.canceled)
      && h.canceled == (set t | t in g.canceled && !(g.serving <= t < h.serving))
      && h.Skip() == h
    decreases |g.canceled|
  {
    if g.serving in g.canceled {
      var n := g.(serving := g.serving + 1, canceled := g.canceled - {g.serving});
      SkipFacts(n);
      forall t | g.serving <= t < g.Skip().serving ensures t in g.canceled {
        assert t == g.serving || t in n.canceled;
      }
    }
  }

  /** Two gates that agree on the queue skip to the same head. */
  lemma {:induction false} SkipFrame(g: Gate, h: Gate)
    requires g.serving == h.serving && g.canceled == h.canceled
    ensures h.Skip() == h.(serving := g.Skip().serving, canceled := g.Skip().canceled)
    decreases |g.canceled|
  {
    if g.serving in g.canceled {
      var s, c := g.serving + 1, g.canceled - {g.serving};
      SkipFrame(g.(serving := s, canceled := c), h.(serving := s, canceled := c));
    }
  }

  /** The gate as the source keeps it: fields changed in place, one method per critical section. */
  class CardAccess {
    var active: nat
    var barrier: bool
    var next: nat
    var serving: nat
    var canceled: set<nat>
    var epoch: nat

    ghost function State(): Gate
      reads this
    {
      Gate(active, barrier, next, serving, canceled, epoch)
    }

    constructor ()
      ensures State() == IDLE
    {
      active, barrier, next, serving, canceled, epoch := 0, false, 0, 0, {}, 0;
    }

    method InitLocked()
      modifies this
      ensures State() == old(State()).Started()
    {
      if next == 0 {
        next, serving := 1, 1;
      }
    }

    method SignalLocked()
      modifies this
      ensures State() == old(State()).Signal()
    {
      epoch := epoch + 1;
    }

    /** The source initialises here once more; every caller already has, so that is a no-op. */
    method SkipCanceledLocked()
      modifies this
      ensures State() == old(State()).Skip()
    {
      while serving in canceled
        invariant State().Skip() == old(State()).Skip()
        decreases |canceled|
      {
        canceled := canceled - {serving};
        serving := serving + 1;
      }
    }

    /** One round of `acquire`: admitted, or the epoch to sleep on. */
    method TryAcquire() returns (admitted: bool, waitEpoch: nat)
      modifies this
      ensures State() == old(State()).Acquire()
      ensures admitted == old(State()).Started().Skip().AdmitsAcquire()
      ensures waitEpoch == epoch
    {
      InitLocked();
      SkipCanceledLocked();
      admitted := !barrier && next == serving;
      if admitted {
        active := active + 1;
      }
      waitEpoch := epoch;
    }

    method Release()
      modifies this
      ensures State() == old(State()).Release()
    {
      if active > 0 {
        active := active - 1;
      }
      if active == 0 {
        SignalLocked();
      }
    }

    /** One round of `waitBarrierIdle`; it neither initialises nor skips. */
    method PollBarrier() returns (idle: bool, waitEpoch: nat)
      ensures idle == !barrier && waitEpoch == epoch
    {
      idle, waitEpoch := !barrier, epoch;
    }

    /** The entry of `begin`: draw a ticket and try once under the same lock. */
    method EnterBegin() returns (ticket: nat, admitted: bool, waitEpoch: nat)
      modifies this
      ensures State() == old(State()).Begin()
      ensures ticket == old(State()).Started().next
      ensures admitted == (State().barrier && !old(barrier))
      ensures waitEpoch == epoch
    {
      InitLocked();
      ticket := next;
      next := next + 1;
      ghost var drawn := State();
      SkipFacts(drawn);
      admitted, waitEpoch := TryBegin(ticket);
    }

    /** A woken `begin`: skip, then test the admission condition under the same lock. */
    method TryBegin(ticket: nat) returns (admitted: bool, waitEpoch: nat)
      modifies this
      ensures State() == old(State()).Retry(ticket)
      ensures admitted == old(State()).Skip().AdmitsBegin(ticket)
      ensures admitted == (barrier && !old(barrier))
      ensures waitEpoch == epoch
    {
      SkipFacts(State());
      SkipCanceledLocked();
      admitted := !barrier && active == 0 && ticket == serving;
      if admitted {
        serving := serving + 1;
        barrier := true;
      }
      waitEpoch := epoch;
    }

    /** A `begin` whose context ended. */
    method CancelBegin(ticket: nat)
      modifies this
      ensures State() == old(State()).Cancel(ticket)
    {
      canceled := canceled + {ticket};
      SkipCanceledLocked();
      SignalLocked();
    }

    method ReleaseBarrier()
      modifies this
      ensures State() == old(State()).ReleaseBarrier()
    {
      barrier := false;
      SignalLocked();
    }
  }
}

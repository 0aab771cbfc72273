/**
 The IMS probe barrier of pkg/manager/ims_probe.go: a one-token slot channel serialises probes, a wait
 group and a blocked flag let cleanup drain them. One critical section or channel operation is one step.
 */
module ImsProbe {
  import opened Bytes

  type ProbeId = nat
  type BlockerId = nat

  /** The manager fields the probe protocol shares. */
  datatype Slot = Slot(made: bool, tokens: nat, wg: int, cancel: Option<ProbeId>, blocked: bool) {
    /** The slot is created on first use, with its token inside. */
    function Entered(): Slot {
      if made then this else this.(made := true, tokens := 1)
    }

    function Started(p: ProbeId): Slot {
      this.(wg := wg + 1, cancel := Some(p))
    }
  }

  class ProbeSlot {
    var made: bool
    var tokens: nat
    var wg: int
    var cancel: Option<ProbeId>
    var blocked: bool

    ghost function State(): Slot
      reads this
    {
      Slot(made, tokens, wg, cancel, blocked)
    }

    /** The first critical section of `beginIMSProbe`; `available` stands for the core being ready. */
    method Enter(available: bool) returns (ok: bool)
      modifies this
      ensures ok == (!old(blocked) && available)
      ensures State() == if ok then old(State()).Entered() else old(State())
    {
      if blocked || !available {
        return false;
      }
      if !made {
        made, tokens := true, 1;
      }
      return true;
    }

    /** The second one, with the token in hand; `allowed` stands for no active PDN and a running core. */
    method Start(p: ProbeId, allowed: bool) returns (ok: bool)
      modifies this
      ensures ok == (!old(blocked) && allowed)
      ensures State() == if ok then old(State()).Started(p) else old(State())
    {
      ok := !blocked && allowed;
      if ok {
        wg := wg + 1;
        cancel := Some(p);
      }
    }

    /** `blockIMSProbes` up to its wait: the cancel function it must call is the one installed now. */
    method Block() returns (toCancel: Option<ProbeId>)
      modifies this
      ensures toCancel == old(cancel)
      ensures State() == old(State()).(blocked := true)
    {
      blocked := true;
      toCancel := cancel;
    }
  }

  // ---------------------------------------------------------------- all parties

  /** Checking to Returning hold the token; Running and Draining are inside the wait group. */
  datatype Phase = Waiting | Checking | Rejected | Running | Draining | Returning

  datatype Blocking = Cancelling(target: Option<ProbeId>) | AwaitingGroup | Returned

  datatype System = System(
    slot: Slot,
    probes: map<ProbeId, Phase>,
    blockers: map<BlockerId, Blocking>,
    cancelled: set<ProbeId>,
    holder: Option<ProbeId>,    // the probe that took the token last and has not returned it
    quiet: bool)                // a block has returned and the flag has not been cleared since

  const INITIAL := System(Slot(false, 0, 0, None, false), map[], map[], {}, None, false)

  datatype Step =
    | Arrive(p: ProbeId)
    | TakeToken(p: ProbeId)
    | GiveUp(p: ProbeId)
    | Check(p: ProbeId, allowed: bool)
    | Reject(p: ProbeId)
    | ReleaseClear(p: ProbeId)
    | ReleaseDone(p: ProbeId)
    | ReleaseToken(p: ProbeId)
    | Block(b: BlockerId)
    | BlockCancel(b: BlockerId)
    | BlockReturn(b: BlockerId)
    | Unblock

  predicate At(s: System, p: ProbeId, phase: Phase) {
    p in s.probes && s.probes[p] == phase
  }

  predicate Enabled(s: System, step: Step) {
    match step
    case Arrive(p) => p !in s.probes && !s.slot.blocked
    case TakeToken(p) => At(s, p, Waiting) && s.slot.tokens > 0
    case GiveUp(p) => At(s, p, Waiting)
    case Check(p, _) => At(s, p, Checking)
    case Reject(p) => At(s, p, Rejected)
    case ReleaseClear(p) => At(s, p, Running)
    case ReleaseDone(p) => At(s, p, Draining)
    case ReleaseToken(p) => At(s, p, Returning)
    case Block(b) => b !in s.blockers
    case BlockCancel(b) => b in s.blockers && s.blockers[b].Cancelling?
    case BlockReturn(b) => b in s.blockers && s.blockers[b].AwaitingGroup? && s.slot.wg == 0
    case Unblock => true
  }

  function Apply(s: System, step: Step): System
    requires Enabled(s, step)
  {
    match step
    case Arrive(p) => s.(slot := s.slot.Entered(), probes := s.probes[p := Waiting])
    case TakeToken(p) =>
      s.(slot := s.slot.(tokens := s.slot.tokens - 1), probes := s.probes[p := Checking], holder := Some(p))
    case GiveUp(p) => s.(probes := s.probes - {p})
    case Check(p, allowed) =>
      if !s.slot.blocked && allowed then s.(slot := s.slot.Started(p), probes := s.probes[p := Running])
      else s.(probes := s.probes[p := Rejected])
    case Reject(p) => s.(slot := s.slot.(tokens := s.slot.tokens + 1), probes := s.probes - {p}, holder := None)
    case ReleaseClear(p) => s.(slot := s.slot.(cancel := None), probes := s.probes[p := Draining])
    case ReleaseDone(p) => s.(slot := s.slot.(wg := s.slot.wg - 1), probes := s.probes[p := Returning])
    case ReleaseToken(p) => s.(slot := s.slot.(tokens := s.slot.tokens + 1), probes := s.probes - {p}, holder := None)
    case Block(b) =>
      s.(slot := s.slot.(blocked := true), blockers := s.blockers[b := Cancelling(s.slot.cancel)])
    case BlockCancel(b) =>
      var hit := match s.blockers[b].target case None => {} case Some(p) => {p};
      s.(cancelled := s.cancelled + hit, blockers := s.blockers[b := AwaitingGroup])
    case BlockReturn(b) => s.(blockers := s.blockers[b := Returned], quiet := s.slot.blocked)
    case Unblock => s.(slot := s.slot.(blocked := false), quiet := false)
  }

  // ---------------------------------------------------------------- invariants

  predicate Holds(phase: Phase) {
    phase != Waiting
  }

  /** Between `Add` and `Done`. */
  predicate InGroup(phase: Phase) {
    phase == Running || phase == Draining
  }

  function Holders(s: System): set<ProbeId> {
    set p | p in s.probes && Holds(s.probes[p])
  }

  /** The token is in the slot or with the one probe past it; group, cancel function and flag follow that probe. */
  ghost predicate Inv(s: System) {
    && (!s.slot.made ==> s.probes == map[])
    && s.slot.tokens == (if s.slot.made && s.holder.None? then 1 else 0)
    && (s.holder.Some? ==> s.holder.value in s.probes)
    && (forall p :: p in s.probes ==> (Holds(s.probes[p]) <==> s.holder == Some(p)))
    && s.slot.wg == (if s.holder.Some? && InGroup(s.probes[s.holder.value]) then 1 else 0)
    && s.slot.cancel == (if s.holder.Some? && s.probes[s.holder.value] == Running then s.holder else None)
    && (s.quiet ==> s.slot.blocked && s.slot.wg == 0)
  }

  lemma StepKeepsInv(s: System, step: Step)
    requires Inv(s) && Enabled(s, step)
    ensures Inv(Apply(s, step))
  {
  }

  function Run(s: System, steps: seq<Step>): Option<System>
    decreases |steps|
  {
    if steps == [] then Some(s)
    else if Enabled(s, steps[0]) then Run(Apply(s, steps[0]), steps[1..])
    else None
  }

  lemma {:induction false} RunKeepsInv(s: System, steps: seq<Step>)
    requires Inv(s) && Run(s, steps).Some?
    ensures Inv(Run(s, steps).value)
    decreases |steps|
  {
    hide Inv, Apply, Enabled;
    if steps == [] {
    } else {
      StepKeepsInv(s, steps[0]);
      RunKeepsInv(Apply(s, steps[0]), steps[1..]);
    }
  }

  /**
   After every schedule: the token is in the slot or with exactly one probe, so at most one probe is
   past the slot; once every probe has left, the token is back; and the installed cancel function is the
   running probe's.
   */
  lemma TokenConserved(steps: seq<Step>)
    requires Run(INITIAL, steps).Some?
    ensures
      var s := Run(INITIAL, steps).value;
      && (s.slot.made ==> s.slot.tokens + |Holders(s)| == 1)
      && (forall p, q :: p in Holders(s) && q in Holders(s) ==> p == q)
      && (s.slot.made && s.probes == map[] ==> s.slot.tokens == 1)
      && (forall p: ProbeId :: s.slot.cancel == Some(p) <==> At(s, p, Running))
  {
    RunKeepsInv(INITIAL, steps);
    var s := Run(INITIAL, steps).value;
    assert Holders(s) == match s.holder case None => {} case Some(p) => {p};
  }

  /**
   After `blockIMSProbes` returned and until the flag is cleared, no probe is between its start and its
   release, and no step other than clearing the flag can start one.
   */
  lemma QuietUntilUnblocked(steps: seq<Step>, step: Step)
    requires Run(INITIAL, steps).Some?
    ensures
      var s := Run(INITIAL, steps).value;
      s.quiet ==>
        && (forall p :: p in s.probes ==> !InGroup(s.probes[p]))
        && (Enabled(s, step) && step != Unblock ==>
              var t := Apply(s, step);
              t.quiet && forall p :: p in t.probes ==> !InGroup(t.probes[p]))
  {
    RunKeepsInv(INITIAL, steps);
    var s := Run(INITIAL, steps).value;
    if s.quiet {
      QuietIsEmpty(s);
      if Enabled(s, step) && step != Unblock {
        StepKeepsInv(s, step);
        QuietIsEmpty(Apply(s, step));
      }
    }
  }

  lemma QuietIsEmpty(s: System)
    requires Inv(s) && s.quiet
    ensures forall p :: p in s.probes ==> !InGroup(s.probes[p])
  {
  }

  /** A block that finds a probe running holds exactly that probe's cancel function, and calling it reaches it. */
  lemma BlockReachesRunningProbe(s: System, b: BlockerId, p: ProbeId)
    requires Inv(s) && Enabled(s, Block(b)) && At(s, p, Running)
    ensures
      var t := Apply(s, Block(b));
      Enabled(t, BlockCancel(b)) && p in Apply(t, BlockCancel(b)).cancelled
  {
  }

  /**
   When the token is in its slot a waiting probe gets it, and starts exactly if probes are not blocked and it
   is allowed; otherwise it puts the token back and is gone.
   */
  lemma ProbeStartsIff(s: System, p: ProbeId, permitted: bool)
    requires Inv(s) && At(s, p, Waiting) && s.holder.None?
    ensures Enabled(s, TakeToken(p))
    ensures
      var a := Apply(s, TakeToken(p));
      && Enabled(a, Check(p, permitted))
      && var b := Apply(a, Check(p, permitted));
         && (At(b, p, Running) <==> !s.slot.blocked && permitted)
         && (!At(b, p, Running) ==> Enabled(b, Reject(p)) && Apply(b, Reject(p)) == s.(probes := s.probes - {p}))
  {
  }

  /** A running probe is the one in the group, with its cancel function installed; its release undoes all of it. */
  lemma RunningProbeLeaves(s: System, p: ProbeId)
    requires Inv(s) && At(s, p, Running)
    ensures s.slot.cancel == Some(p) && s.slot.wg == 1 && s.slot.tokens == 0 && Enabled(s, ReleaseClear(p))
    ensures
      var c := Apply(s, ReleaseClear(p));
      && Enabled(c, ReleaseDone(p))
      && var d := Apply(c, ReleaseDone(p));
         && Enabled(d, ReleaseToken(p))
         && Apply(d, ReleaseToken(p)) ==
            s.(slot := s.slot.(cancel := None, wg := 0, tokens := 1), probes := s.probes - {p}, holder := None)
  {
  }

  /** A block stops new probes until the flag is cleared, and clearing it lets them in again. */
  lemma BlockShutsUnblockOpens(s: System, b: BlockerId, p: ProbeId)
    requires p !in s.probes && b !in s.blockers
    ensures !Enabled(Apply(s, Block(b)), Arrive(p))
    ensures Enabled(Apply(s, Unblock), Arrive(p))
  {
  }

  /** A probe that arrives waits for the one token there is; a waiting probe whose context ends is gone without a trace. */
  lemma ProbeArrivesAndMayGiveUp(s: System, p: ProbeId)
    requires Inv(s) && Enabled(s, Arrive(p))
    ensures
      var a := Apply(s, Arrive(p));
      && At(a, p, Waiting) && a.slot.made && a.holder == s.holder && (s.holder.None? ==> a.slot.tokens == 1)
      && Enabled(a, GiveUp(p)) && Apply(a, GiveUp(p)) == s.(slot := a.slot)
  {
    assert s.probes[p := Waiting] - {p} == s.probes;
  }
}

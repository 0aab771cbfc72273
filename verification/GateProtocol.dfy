/**
 Every caller of the card access gate at once. One critical section is one step; callers between
 critical sections are sleepers that recorded an epoch, shared holders, or release closures.
 */
module GateProtocol {
  import opened Bytes
  import opened CardAccessGate

  datatype System = System(
    gate: Gate,
    sharing: set<nat>,            // callers inside `acquire`/`release`
    acquiring: map<nat, nat>,     // sleeping acquirers and the epoch each recorded
    beginning: map<nat, nat>,     // waiting tickets and the epoch each recorded
    idling: map<nat, nat>,        // sleeping `waitBarrierIdle` callers
    closures: map<nat, bool>,     // per granted ticket: has its release closure run?
    grants: seq<nat>)             // tickets in the order the barrier was granted

  const INITIAL := System(IDLE, {}, map[], map[], map[], map[], [])

  datatype Step =
    | AcquireArrive(caller: nat)
    | AcquireWake(caller: nat)
    | AcquireGiveUp(caller: nat)
    | ReleaseShared(caller: nat)
    | BeginArrive
    | BeginWake(ticket: nat)
    | BeginCancel(ticket: nat)
    | CallRelease(ticket: nat)
    | IdleArrive(caller: nat)
    | IdleWake(caller: nat)
    | IdleGiveUp(caller: nat)

  /** A sleeper wakes only through a closed channel: its recorded epoch is no longer current. */
  predicate Enabled(s: System, step: Step) {
    match step
    case AcquireArrive(c) => c !in s.sharing && c !in s.acquiring
    case AcquireWake(c) => c in s.acquiring && s.acquiring[c] != s.gate.epoch
    case AcquireGiveUp(c) => c in s.acquiring
    case ReleaseShared(c) => c in s.sharing
    case BeginArrive => true
    case BeginWake(t) => t in s.beginning && s.beginning[t] != s.gate.epoch
    case BeginCancel(t) => t in s.beginning
    case CallRelease(t) => t in s.closures
    case IdleArrive(c) => c !in s.idling
    case IdleWake(c) => c in s.idling && s.idling[c] != s.gate.epoch
    case IdleGiveUp(c) => c in s.idling
  }

  function TryAcquire(s: System, c: nat): System {
    var g := s.gate.Acquire();
    if s.gate.Started().Skip().AdmitsAcquire() then
      s.(gate := g, sharing := s.sharing + {c}, acquiring := s.acquiring - {c})
    else
      s.(gate := g, acquiring := s.acquiring[c := g.epoch])
  }

  /** `drawn` is the gate on which the ticket is tried. */
  function TryBegin(s: System, drawn: Gate, t: nat): System {
    var g := drawn.Retry(t);
    if drawn.Skip().AdmitsBegin(t) then
      s.(gate := g, beginning := s.beginning - {t}, closures := s.closures[t := false], grants := s.grants + [t])
    else
      s.(gate := g, beginning := s.beginning[t := g.epoch])
  }

  function PollIdle(s: System, c: nat): System {
    if s.gate.barrier then s.(idling := s.idling[c := s.gate.epoch]) else s.(idling := s.idling - {c})
  }

  function Apply(s: System, step: Step): System
    requires Enabled(s, step)
  {
    match step
    case AcquireArrive(c) => TryAcquire(s, c)
    case AcquireWake(c) => TryAcquire(s, c)
    case AcquireGiveUp(c) => s.(acquiring := s.acquiring - {c})
    case ReleaseShared(c) => s.(gate := s.gate.Release(), sharing := s.sharing - {c})
    case BeginArrive =>
      var g := s.gate.Started();
      TryBegin(s, g.(next := g.next + 1), g.next)
    case BeginWake(t) => TryBegin(s, s.gate, t)
    case BeginCancel(t) => s.(gate := s.gate.Cancel(t), beginning := s.beginning - {t})
    case CallRelease(t) =>
      if s.closures[t] then s
      else s.(gate := s.gate.ReleaseBarrier(), closures := s.closures[t := true])
    case IdleArrive(c) => PollIdle(s, c)
    case IdleWake(c) => PollIdle(s, c)
    case IdleGiveUp(c) => s.(idling := s.idling - {c})
  }

  // ---------------------------------------------------------------- invariants

  /** Undecided tickets are exactly the live waiters and the cancelled ones. */
  ghost predicate QueueInv(s: System) {
    && s.gate.serving <= s.gate.next
    && (s.gate.next == 0 ==> s.acquiring == map[])
    && s.beginning.Keys !! s.gate.canceled
    && (forall t :: t in s.beginning || t in s.gate.canceled <==> s.gate.serving <= t < s.gate.next)
  }

  /** The barrier excludes shared holders and belongs to exactly one unspent closure. */
  ghost predicate HolderInv(s: System) {
    && s.gate.active == |s.sharing|
    && (forall c :: c in s.acquiring ==> c !in s.sharing)
    && (s.gate.barrier ==> s.gate.active == 0)
    && (s.gate.barrier <==> exists t :: t in s.closures && !s.closures[t])
    && (forall t, u :: t in s.closures && u in s.closures && !s.closures[t] && !s.closures[u] ==> t == u)
  }

  ghost predicate Increasing(ts: seq<nat>) {
    forall i, j :: 0 <= i < j < |ts| ==> ts[i] < ts[j]
  }

  /** The barrier was granted in ticket order, to decided tickets only; only the last grant may be unspent. */
  ghost predicate GrantInv(s: System) {
    && Increasing(s.grants)
    && (forall t :: t in s.grants ==> t < s.gate.serving)
    && (forall t :: t in s.grants <==> t in s.closures)
    && (forall i :: 0 <= i < |s.grants| - 1 ==> s.closures[s.grants[i]])
  }

  ghost predicate EpochInv(s: System) {
    && (forall c :: c in s.acquiring ==> s.acquiring[c] <= s.gate.epoch)
    && (forall t :: t in s.beginning ==> s.beginning[t] <= s.gate.epoch)
    && (forall c :: c in s.idling ==> s.idling[c] <= s.gate.epoch)
  }

  /** No lost wakeup: whoever sleeps on the current epoch would not be admitted if it ran now. */
  ghost predicate NoLostWakeup(s: System) {
    && (forall c :: c in s.acquiring && s.acquiring[c] == s.gate.epoch ==> !s.gate.Skip().AdmitsAcquire())
    && (forall t :: t in s.beginning && s.beginning[t] == s.gate.epoch ==> !s.gate.Skip().AdmitsBegin(t))
    && (forall c :: c in s.idling && s.idling[c] == s.gate.epoch ==> s.gate.barrier)
  }

  ghost predicate Inv(s: System) {
    QueueInv(s) && HolderInv(s) && GrantInv(s) && EpochInv(s) && NoLostWakeup(s)
  }

  /** After skipping, the head of the queue is a live ticket or the queue is empty. */
  lemma HeadIsLive(s: System)
    requires QueueInv(s)
    ensures s.gate.Skip().serving <= s.gate.next
    ensures s.gate.Skip().serving == s.gate.next <==> s.beginning.Keys == {}
    ensures s.beginning.Keys != {} ==> s.gate.Skip().serving in s.beginning
  {
    hide Gate.Skip;
    SkipFacts(s.gate);
    var h := s.gate.Skip();
    assert h.serving > s.gate.next ==> s.gate.next in s.gate.canceled;
    if h.serving < s.gate.next {
      assert h.serving in s.beginning;
    } else {
      assert forall t :: t in s.beginning ==> t in s.gate.canceled;
    }
  }

  lemma AcquireKeepsQueue(s: System, c: nat)
    requires QueueInv(s)
    ensures QueueInv(TryAcquire(s, c))
  {
    hide Gate.Skip;
    var m := s.(gate := s.gate.Started());
    SkipFacts(m.gate);
    HeadIsLive(m);
    var s' := TryAcquire(s, c);
    forall u ensures u in s'.beginning || u in s'.gate.canceled <==> s'.gate.serving <= u < s'.gate.next {
      assert u in m.beginning || u in m.gate.canceled <==> m.gate.serving <= u < m.gate.next;
    }
  }

  lemma AcquireKeepsWakeups(s: System, c: nat)
    requires Inv(s)
    ensures EpochInv(TryAcquire(s, c)) && NoLostWakeup(TryAcquire(s, c))
  {
    hide Gate.Skip;
    hide HolderInv, GrantInv;
    var s' := TryAcquire(s, c);
    SkipFacts(s.gate);
    SkipFacts(s.gate.Started());
    SkipFrame(s.gate.Started().Skip(), s'.gate);
    assert s'.gate.Skip() == s'.gate;
  }

  lemma AcquireKeepsHolders(s: System, c: nat)
    requires HolderInv(s) && GrantInv(s) && s.gate.serving <= s.gate.next && c !in s.sharing
    ensures HolderInv(TryAcquire(s, c)) && GrantInv(TryAcquire(s, c))
  {
    AcquireKeepsGrants(s, c);
    hide Gate.Skip, GrantInv;
    SkipFacts(s.gate.Started());
    assert |s.sharing + {c}| == |s.sharing| + 1;
  }

  lemma AcquireKeepsGrants(s: System, c: nat)
    requires GrantInv(s) && s.gate.serving <= s.gate.next
    ensures GrantInv(TryAcquire(s, c))
  {
    hide Gate.Skip;
    SkipFacts(s.gate.Started());
  }

  lemma AcquireKeepsInv(s: System, c: nat)
    requires Inv(s) && c !in s.sharing
    ensures Inv(TryAcquire(s, c))
  {
    hide Gate.Skip, HolderInv, GrantInv, EpochInv, NoLostWakeup, TryAcquire;
    AcquireKeepsQueue(s, c);
    AcquireKeepsHolders(s, c);
    AcquireKeepsWakeups(s, c);
  }

  /** The system with ticket `t` drawn on gate `drawn` and about to be tried. */
  ghost predicate Trying(s: System, drawn: Gate, t: nat) {
    var others := s.(gate := drawn, beginning := s.beginning - {t});
    && QueueInv(s.(gate := drawn, beginning := s.beginning[t := 0]))
    && HolderInv(others) && GrantInv(others) && EpochInv(others) && NoLostWakeup(others)
  }

  lemma TryKeepsQueue(s: System, drawn: Gate, t: nat)
    requires Trying(s, drawn, t)
    ensures QueueInv(TryBegin(s, drawn, t))
  {
    hide Gate.Skip;
    SkipFacts(drawn);
    var m := s.(gate := drawn, beginning := s.beginning[t := 0]);
    HeadIsLive(m);
    var s' := TryBegin(s, drawn, t);
    forall u ensures u in s'.beginning || u in s'.gate.canceled <==> s'.gate.serving <= u < s'.gate.next {
      assert u in m.beginning || u in drawn.canceled <==> drawn.serving <= u < drawn.next;
      assert u in m.beginning <==> u == t || u in s.beginning;
    }
  }

  lemma TryKeepsHolders(s: System, drawn: Gate, t: nat)
    requires Trying(s, drawn, t)
    ensures HolderInv(TryBegin(s, drawn, t)) && GrantInv(TryBegin(s, drawn, t))
  {
    hide Gate.Skip;
    SkipFacts(drawn);
    var s' := TryBegin(s, drawn, t);
    if drawn.Skip().AdmitsBegin(t) {
      assert t in s'.closures && !s'.closures[t];
      assert forall u :: u in s'.grants <==> u in s.grants || u == t;
      assert forall i :: 0 <= i < |s.grants| ==> s.grants[i] in s.grants;
    } else {
      assert s'.closures == s.closures;
    }
  }

  lemma TryKeepsWakeups(s: System, drawn: Gate, t: nat)
    requires Trying(s, drawn, t)
    ensures EpochInv(TryBegin(s, drawn, t)) && NoLostWakeup(TryBegin(s, drawn, t))
  {
    hide Gate.Skip, QueueInv, HolderInv, GrantInv;
    SkipFacts(drawn);
    var s' := TryBegin(s, drawn, t);
    var others := s.(gate := drawn, beginning := s.beginning - {t});
    assert forall u :: u in s'.beginning && u != t ==> u in others.beginning && s'.beginning[u] == others.beginning[u];
    if drawn.Skip().AdmitsBegin(t) {
      SkipFacts(s'.gate);
    } else {
      assert s'.gate.Skip() == s'.gate == drawn.Skip();
    }
  }

  lemma TryKeepsInv(s: System, drawn: Gate, t: nat)
    requires Trying(s, drawn, t)
    ensures Inv(TryBegin(s, drawn, t))
  {
    hide Trying, TryBegin, QueueInv, HolderInv, GrantInv, EpochInv, NoLostWakeup;
    TryKeepsQueue(s, drawn, t);
    TryKeepsHolders(s, drawn, t);
    TryKeepsWakeups(s, drawn, t);
  }

  lemma DrawnTicketIsTrying(s: System)
    requires Inv(s)
    ensures
      var g := s.gate.Started();
      Trying(s, g.(next := g.next + 1), g.next)
  {
    hide Gate.Skip, QueueInv, HolderInv, GrantInv, EpochInv, NoLostWakeup;
    DrawnTicketQueue(s);
    var g := s.gate.Started();
    assert s.beginning - {g.next} == s.beginning;
    DrawnTicketHolders(s);
    DrawnTicketWakeups(s);
  }

  lemma DrawnTicketHolders(s: System)
    requires Inv(s)
    ensures
      var g := s.gate.Started();
      var t := s.(gate := g.(next := g.next + 1));
      HolderInv(t) && GrantInv(t)
  {
    hide Gate.Skip, EpochInv, NoLostWakeup;
  }

  lemma DrawnTicketWakeups(s: System)
    requires Inv(s)
    ensures
      var g := s.gate.Started();
      var t := s.(gate := g.(next := g.next + 1));
      EpochInv(t) && NoLostWakeup(t)
  {
    DrawnTicketQueue(s);
    hide Gate.Skip, QueueInv, HolderInv, GrantInv;
    var g := s.gate.Started();
    var drawn := g.(next := g.next + 1);
    SkipFacts(g);
    SkipFrame(g, drawn);
    assert !drawn.Skip().AdmitsAcquire();
    assert s.gate.next != 0 ==> g == s.gate;
    assert forall u :: g.Skip().AdmitsBegin(u) == drawn.Skip().AdmitsBegin(u);
  }

  lemma DrawnTicketQueue(s: System)
    requires QueueInv(s)
    ensures
      var g := s.gate.Started();
      && g.next !in s.beginning
      && QueueInv(s.(gate := g.(next := g.next + 1), beginning := s.beginning[g.next := 0]))
      && (s.gate.next == 0 ==> s.gate.serving == 0 && s.beginning == map[] && s.acquiring == map[])
      && g.Skip().serving < g.next + 1
  {
    hide Gate.Skip;
    var g := s.gate.Started();
    var m := s.(gate := g);
    if s.gate.next == 0 {
      assert s.beginning == map[];
    }
    assert QueueInv(m);
    HeadIsLive(m);
    var b := s.beginning[g.next := 0];
    forall u ensures u in b || u in g.canceled <==> g.serving <= u < g.next + 1 {
      assert u in m.beginning || u in m.gate.canceled <==> m.gate.serving <= u < m.gate.next;
    }
  }

  lemma WokenTicketIsTrying(s: System, t: nat)
    requires Inv(s) && t in s.beginning
    ensures Trying(s, s.gate, t)
  {
    hide Gate.Skip;
    assert s.beginning[t := 0].Keys == s.beginning.Keys;
  }

  lemma CancelKeepsQueue(s: System, t: nat)
    requires QueueInv(s) && t in s.beginning
    ensures QueueInv(Apply(s, BeginCancel(t)))
  {
    hide Gate.Skip;
    var marked := s.gate.(canceled := s.gate.canceled + {t});
    SkipFacts(marked);
    HeadIsLive(s.(gate := marked, beginning := s.beginning - {t}));
  }

  lemma CancelKeepsInv(s: System, t: nat)
    requires Inv(s) && t in s.beginning
    ensures Inv(Apply(s, BeginCancel(t)))
  {
    CancelKeepsQueue(s, t);
    hide Gate.Skip, QueueInv;
    SkipFacts(s.gate.(canceled := s.gate.canceled + {t}));
  }

  lemma ReleaseSharedKeepsInv(s: System, c: nat)
    requires Inv(s) && c in s.sharing
    ensures Inv(Apply(s, ReleaseShared(c)))
  {
    hide Gate.Skip;
    assert |s.sharing - {c}| == |s.sharing| - 1;
    SkipFacts(s.gate);
    SkipFrame(s.gate, s.gate.Release());
  }

  lemma CallReleaseKeepsInv(s: System, t: nat)
    requires Inv(s) && t in s.closures
    ensures Inv(Apply(s, CallRelease(t)))
  {
    hide Gate.Skip;
  }

  /** Steps that touch no gate field: polling the barrier and giving up a wait without a ticket. */
  lemma SleeperKeepsInv(s: System, step: Step)
    requires Inv(s) && Enabled(s, step)
    requires step.AcquireGiveUp? || step.IdleArrive? || step.IdleWake? || step.IdleGiveUp?
    ensures Inv(Apply(s, step))
  {
    SleeperKeepsGate(s, step);
    hide Gate.Skip, QueueInv, HolderInv, GrantInv;
  }

  lemma SleeperKeepsGate(s: System, step: Step)
    requires QueueInv(s) && HolderInv(s) && GrantInv(s) && Enabled(s, step)
    requires step.AcquireGiveUp? || step.IdleArrive? || step.IdleWake? || step.IdleGiveUp?
    ensures
      var s' := Apply(s, step);
      QueueInv(s') && HolderInv(s') && GrantInv(s')
  {
    hide QueueInv, HolderInv, GrantInv, TryAcquire, TryBegin;
    var s' := Apply(s, step);
    FewerSleepersKeepGate(s, s'.acquiring, s'.idling);
  }

  lemma FewerSleepersKeepGate(s: System, acquiring: map<nat, nat>, idling: map<nat, nat>)
    requires QueueInv(s) && HolderInv(s) && GrantInv(s) && acquiring.Keys <= s.acquiring.Keys
    ensures
      var s' := s.(acquiring := acquiring, idling := idling);
      QueueInv(s') && HolderInv(s') && GrantInv(s')
  {
    assert s.acquiring == map[] ==> acquiring == map[];
  }

  lemma StepKeepsInv(s: System, step: Step)
    requires Inv(s) && Enabled(s, step)
    ensures Inv(Apply(s, step))
  {
    hide TryAcquire, TryBegin, Trying, QueueInv, GrantInv, EpochInv, NoLostWakeup;
    match step
    case AcquireArrive(c) => AcquireKeepsInv(s, c);
    case AcquireWake(c) => AcquireKeepsInv(s, c);
    case ReleaseShared(c) => ReleaseSharedKeepsInv(s, c);
    case BeginArrive =>
      var g := s.gate.Started();
      DrawnTicketIsTrying(s);
      TryKeepsInv(s, g.(next := g.next + 1), g.next);
    case BeginWake(t) =>
      WokenTicketIsTrying(s, t);
      TryKeepsInv(s, s.gate, t);
    case BeginCancel(t) => CancelKeepsInv(s, t);
    case CallRelease(t) => CallReleaseKeepsInv(s, t);
    case _ => SleeperKeepsInv(s, step);
  }

  // ---------------------------------------------------------------- whole runs

  /** The state after a schedule, or None when some step was not enabled. */
  function Run(s: System, steps: seq<Step>): Option<System>
    decreases |steps|
  {
    if steps == [] then Some(s)
    else if Enabled(s, steps[0]) then Run(Apply(s, steps[0]), steps[1..])
    else None
  }

  /** The invariants, no lost wakeup among them, hold after every schedule of every set of callers. */
  lemma {:induction false} EveryRunIsSafe(s: System, steps: seq<Step>)
    requires Inv(s) && Run(s, steps).Some?
    ensures Inv(Run(s, steps).value)
    decreases |steps|
  {
    hide Inv, Apply, Enabled;
    if steps == [] {
    } else {
      StepKeepsInv(s, steps[0]);
      EveryRunIsSafe(Apply(s, steps[0]), steps[1..]);
    }
  }

  lemma InitialIsSafe()
    ensures Inv(INITIAL)
  {
  }

  /** A held barrier excludes every shared holder, in every reachable state. */
  lemma MutualExclusion(steps: seq<Step>)
    requires Run(INITIAL, steps).Some?
    ensures
      var s := Run(INITIAL, steps).value;
      s.gate.barrier ==> s.sharing == {}
  {
    InitialIsSafe();
    EveryRunIsSafe(INITIAL, steps);
  }

  /** An acquirer gets in only when no ticket is waiting: the barrier is never overtaken. */
  lemma NoOvertaking(s: System, step: Step, c: nat)
    requires Inv(s) && Enabled(s, step)
    requires c !in s.sharing && c in Apply(s, step).sharing
    ensures s.beginning.Keys == {} && !s.gate.barrier
  {
    hide Gate.Skip, TryBegin, HolderInv, GrantInv, EpochInv, NoLostWakeup;
    SkipFacts(s.gate.Started());
    TryBeginKeepsSharing(s, step);
    HeadIsLive(s.(gate := s.gate.Started()));
  }

  lemma TryBeginKeepsSharing(s: System, step: Step)
    ensures Enabled(s, step) && (step.BeginArrive? || step.BeginWake?) ==> Apply(s, step).sharing == s.sharing
  {
    hide Gate.Skip;
  }

  /** Only the closure of the current grant can open the barrier; a repeated call changes nothing. */
  lemma OnlyTheOwnerReleases(s: System, step: Step)
    requires Inv(s) && Enabled(s, step)
    requires s.gate.barrier && !Apply(s, step).gate.barrier
    ensures step.CallRelease? && s.grants != [] && step.ticket == s.grants[|s.grants| - 1]
    ensures Enabled(Apply(s, step), step) && Apply(Apply(s, step), step) == Apply(s, step)
  {
    hide Gate.Skip;
    match step
    case AcquireArrive(_) => SkipFacts(s.gate.Started());
    case AcquireWake(_) => SkipFacts(s.gate.Started());
    case BeginArrive => SkipFacts(s.gate.Started().(next := s.gate.Started().next + 1));
    case BeginWake(_) => SkipFacts(s.gate);
    case BeginCancel(t) => SkipFacts(s.gate.(canceled := s.gate.canceled + {t}));
    case CallRelease(t) =>
      var i :| 0 <= i < |s.grants| && s.grants[i] == t;
    case _ =>
  }

  /** Closing and replacing the channel reaches everybody: after a step that signals, no sleeper is left asleep. */
  lemma SignalWakesEveryone(s: System, step: Step)
    requires Inv(s) && Enabled(s, step) && Apply(s, step).gate.epoch != s.gate.epoch
    ensures
      var t := Apply(s, step);
      && (forall c :: c in t.acquiring ==> Enabled(t, AcquireWake(c)))
      && (forall k :: k in t.beginning ==> Enabled(t, BeginWake(k)))
      && (forall c :: c in t.idling ==> Enabled(t, IdleWake(c)))
  {
    hide Gate.Skip, QueueInv, HolderInv, GrantInv, NoLostWakeup;
    var g := s.gate.Started();
    SkipFacts(g);
    SkipFacts(g.(next := g.next + 1));
    SkipFacts(s.gate);
    if step.BeginCancel? {
      SkipFacts(s.gate.(canceled := s.gate.canceled + {step.ticket}));
    }
  }

  /** The holder count is the number of holders, never below zero, and exactly the last one to leave signals. */
  lemma LastHolderSignals(s: System, c: nat)
    requires Inv(s) && c in s.sharing
    ensures
      var t := Apply(s, ReleaseShared(c));
      && t.gate.active == |t.sharing| == |s.sharing| - 1
      && t.gate.epoch == if s.sharing == {c} then s.gate.epoch + 1 else s.gate.epoch
  {
    hide Gate.Skip, QueueInv, GrantInv, EpochInv, NoLostWakeup;
    var left := s.sharing - {c};
    assert |left| == |s.sharing| - 1;
    assert |left| == 0 <==> left == {};
    assert left == {} <==> s.sharing == {c};
  }

  /** Nobody is stuck: when the gate is free, the first waiting ticket is awake, and running it grants it. */
  lemma FreeGateGrantsHead(s: System)
    requires Inv(s) && !s.gate.barrier && s.gate.active == 0 && s.beginning.Keys != {}
    ensures
      var head := s.gate.Skip().serving;
      && head in s.beginning
      && (forall t :: t in s.beginning ==> head <= t)
      && Enabled(s, BeginWake(head))
      && Apply(s, BeginWake(head)).gate.barrier
      && Apply(s, BeginWake(head)).grants == s.grants + [head]
  {
    hide Gate.Skip;
    hide HolderInv, GrantInv, EpochInv;
    SkipFacts(s.gate);
    HeadIsLive(s);
    var head := s.gate.Skip().serving;
    forall t | t in s.beginning ensures head <= t {
      assert s.gate.serving <= t < head ==> t in s.gate.canceled;
    }
  }

  /** With the barrier down and no ticket waiting, every sleeping acquirer is awake and gets in. */
  lemma FreeGateAdmitsAcquirers(s: System, c: nat)
    requires Inv(s) && !s.gate.barrier && s.beginning.Keys == {} && c in s.acquiring
    ensures Enabled(s, AcquireWake(c)) && c in Apply(s, AcquireWake(c)).sharing
  {
    hide Gate.Skip;
    hide HolderInv, GrantInv, EpochInv;
    SkipFacts(s.gate);
    HeadIsLive(s);
  }

  /** Every `waitBarrierIdle` sleeper is awake and returns as soon as the barrier is down. */
  lemma FreeBarrierWakesIdlers(s: System, c: nat)
    requires Inv(s) && !s.gate.barrier && c in s.idling
    ensures Enabled(s, IdleWake(c)) && c !in Apply(s, IdleWake(c)).idling
  {
    hide Gate.Skip;
    hide HolderInv, GrantInv, EpochInv, QueueInv;
  }

  // ---------------------------------------------------------------- who gets in, and who leaves

  /** A new acquirer gets in at once exactly when no barrier is held and no ticket waits; otherwise it sleeps on the current epoch. */
  lemma AdmittedOnArrivalIff(s: System, c: nat)
    requires Inv(s) && Enabled(s, AcquireArrive(c))
    ensures
      var t := Apply(s, AcquireArrive(c));
      && (c in t.sharing <==> !s.gate.barrier && s.beginning.Keys == {})
      && (c !in t.sharing ==> c in t.acquiring && t.acquiring[c] == t.gate.epoch)
  {
    hide Gate.Skip, HolderInv, GrantInv, EpochInv, NoLostWakeup;
    SkipFacts(s.gate.Started());
    HeadIsLive(s.(gate := s.gate.Started()));
  }

  /** A new ticket is granted at once exactly on an idle gate with no other ticket; otherwise it waits. */
  lemma GrantedOnArrivalIff(s: System)
    requires Inv(s)
    ensures
      var t, ticket := Apply(s, BeginArrive), s.gate.Started().next;
      && (t.grants == s.grants + [ticket] <==> !s.gate.barrier && s.gate.active == 0 && s.beginning.Keys == {})
      && (t.grants != s.grants + [ticket] ==> t.grants == s.grants && ticket in t.beginning && t.beginning[ticket] == t.gate.epoch)
  {
    hide Gate.Skip, HolderInv, GrantInv, EpochInv, NoLostWakeup;
    var g := s.gate.Started();
    var drawn := g.(next := g.next + 1);
    SkipFacts(drawn);
    SkipFacts(g);
    SkipFrame(g, drawn);
    HeadIsLive(s.(gate := g));
    assert |s.grants + [g.next]| != |s.grants|;
  }

  /** A held barrier can always be given back: the closure of the latest grant is unspent, and calling it lowers the barrier. */
  lemma HolderCanRelease(s: System)
    requires Inv(s) && s.gate.barrier
    ensures s.grants != []
    ensures
      var last := s.grants[|s.grants| - 1];
      && Enabled(s, CallRelease(last)) && !s.closures[last]
      && Apply(s, CallRelease(last)).gate == s.gate.(barrier := false, epoch := s.gate.epoch + 1)
  {
    hide Gate.Skip, QueueInv, EpochInv, NoLostWakeup;
    var t :| t in s.closures && !s.closures[t];
    assert t in s.grants;
    var i :| 0 <= i < |s.grants| && s.grants[i] == t;
  }

  /** `waitBarrierIdle` returns exactly when the barrier is down. */
  lemma IdleReturnsIffDown(s: System, c: nat, step: Step)
    requires Enabled(s, step) && (step == IdleArrive(c) || step == IdleWake(c))
    ensures c !in Apply(s, step).idling <==> !s.gate.barrier
  {
  }

  /** A waiter whose context ended is gone, and nothing else is: neither the gate nor any other waiter notices. */
  lemma GivingUpLeavesNoTrace(s: System, c: nat)
    ensures Enabled(s, AcquireGiveUp(c)) ==>
              var t := Apply(s, AcquireGiveUp(c));
              && c !in t.acquiring && t == s.(acquiring := t.acquiring)
              && forall x :: x in s.acquiring && x != c ==> x in t.acquiring && t.acquiring[x] == s.acquiring[x]
    ensures Enabled(s, IdleGiveUp(c)) ==>
              var t := Apply(s, IdleGiveUp(c));
              && c !in t.idling && t == s.(idling := t.idling)
              && forall x :: x in s.idling && x != c ==> x in t.idling && t.idling[x] == s.idling[x]
  {
  }

  /** Tickets are consecutive and the first one is 1. */
  lemma TicketsAreConsecutive(s: System)
    requires Inv(s)
    ensures
      var t, ticket := Apply(s, BeginArrive), if s.gate.next == 0 then 1 else s.gate.next;
      t.gate.next == ticket + 1 && (ticket in t.beginning || (t.grants != [] && t.grants[|t.grants| - 1] == ticket))
  {
    hide Gate.Skip, HolderInv, GrantInv, EpochInv, NoLostWakeup;
    var g := s.gate.Started();
    SkipFacts(g.(next := g.next + 1));
  }

  /** A ticket that has left the queue without a grant. */
  ghost predicate Withdrawn(s: System, t: nat) {
    t !in s.beginning && t < s.gate.next && t !in s.grants
  }

  lemma CancelWithdraws(s: System, t: nat)
    requires Inv(s) && t in s.beginning
    ensures Withdrawn(Apply(s, BeginCancel(t)), t)
  {
    hide Gate.Skip, HolderInv, EpochInv, NoLostWakeup;
    SkipFacts(s.gate.(canceled := s.gate.canceled + {t}));
    assert s.gate.serving <= t < s.gate.next;
  }

  /** Cancelling cleans the queue: a live ticket heads it afterwards, or none waits and no cancelled ticket is remembered. */
  lemma CancelCleansQueue(s: System, t: nat)
    requires Inv(s) && t in s.beginning
    ensures
      var u := Apply(s, BeginCancel(t));
      && u.beginning == s.beginning - {t}
      && (if u.beginning.Keys == {} then u.gate.serving == u.gate.next && u.gate.canceled == {} else u.gate.serving in u.beginning)
  {
    CancelKeepsQueue(s, t);
    hide Gate.Skip, HolderInv, GrantInv, EpochInv, NoLostWakeup;
    var u := Apply(s, BeginCancel(t));
    SkipFacts(s.gate.(canceled := s.gate.canceled + {t}));
    SkipFrame(s.gate.(canceled := s.gate.canceled + {t}).Skip(), u.gate);
    HeadIsLive(u);
  }

  lemma StepKeepsWithdrawn(s: System, step: Step, t: nat)
    requires Withdrawn(s, t) && Enabled(s, step)
    ensures Withdrawn(Apply(s, step), t)
  {
    hide Gate.Skip;
    var g := s.gate.Started();
    SkipFacts(g);
    SkipFacts(g.(next := g.next + 1));
    SkipFacts(s.gate);
    if step.BeginCancel? {
      SkipFacts(s.gate.(canceled := s.gate.canceled + {step.ticket}));
    }
  }

  /** A cancelled ticket is never granted, whatever happens afterwards. */
  lemma {:induction false} CancelledIsNeverGranted(s: System, t: nat, steps: seq<Step>)
    requires Withdrawn(s, t) && Run(s, steps).Some?
    ensures Withdrawn(Run(s, steps).value, t)
    decreases |steps|
  {
    hide Apply, Enabled, Withdrawn;
    if steps == [] {
    } else {
      StepKeepsWithdrawn(s, steps[0], t);
      CancelledIsNeverGranted(Apply(s, steps[0]), t, steps[1..]);
    }
  }
}

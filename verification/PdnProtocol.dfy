/**
 Secondary PDN sessions under every interleaving of one opener (`OpenPDN` holds the data-plane lock
 throughout), any number of closers (which work outside the lock between two critical sections),
 convergence and residual-mux reconciliation. Sources: pkg/manager/pdn_session.go,
 pkg/manager/data_plane.go and pkg/manager/manager.go. Runs are those between two full cleanups.
 */
module PdnProtocol {
  import opened Bytes
  import opened DataPlane
  import opened PdnSessions

  /** How far the rollback of a failed open has come; it runs under the lock, but closers do not wait for it. */
  datatype Rollback = Unneeded | CallStopped | LeaseReleased

  /** The open in progress; its ID is the last one drawn. */
  datatype Opening = Opening(
    mux: MuxId, generation: nat, leased: bool, wds: Option<Wds>, handle: Option<nat>, rollback: Rollback)

  datatype Phase = Sampled | Stopped | Released | Deleted

  /** `owned` is what the closer saw in its first critical section. */
  datatype Closing = Closing(owned: bool, phase: Phase)

  /** What became of an attempt to open a session that got as far as its mux. */
  datatype Fate = Pending | Registered | Aborted | Closed

  datatype System = System(
    generation: nat,
    mode: Mode,
    defaultMux: MuxId,
    declaredMux: MuxId,
    muxes: set<MuxId>,                  // mux interfaces in the kernel
    nextId: SessionId,
    sessions: map<SessionId, Session>,
    opener: Option<Opening>,            // the lock is held by an open in progress
    closing: map<SessionId, Closing>,
    fate: map<SessionId, Fate>,
    leased: map<SessionId, Wds>,        // every WDS client handed out, by the attempt it was handed to
    releases: map<SessionId, nat>,      // how often each attempt's client was released
    handles: map<SessionId, nat>,       // every data call started, by attempt
    stops: map<SessionId, nat>)         // how often each attempt's call was stopped

  const INITIAL := System(0, Undeclared, 0, 0, {}, 0, map[], None, map[], map[], map[], map[], map[], map[])

  datatype Step =
    | OpenRefused
    | OpenBegin(mux: MuxId)
    | OpenLease(wds: Option<Wds>)
    | OpenStart(handle: nat)
    | OpenCommit
    | AbortStop
    | AbortRelease
    | AbortDelete
    | CloseSample(id: SessionId)
    | CloseStop(id: SessionId)
    | CloseRelease(id: SessionId)
    | CloseDelete(id: SessionId)
    | CloseFinish(id: SessionId)
    | Declare(mux: MuxId)
    | PublishQmap
    | PublishNative
    | Reconcile(gone: set<MuxId>)

  predicate MuxFree(sessions: map<SessionId, Session>, mux: MuxId) {
    forall id :: id in sessions ==> sessions[id].mux != mux
  }

  function SessionMuxes(sessions: map<SessionId, Session>): set<MuxId> {
    set id | id in sessions :: sessions[id].mux
  }

  /** What residual cleanup computes before it deletes anything. */
  function Keep(s: System): set<MuxId> {
    KeepSet(
      Plane(Snapshot(s.generation, s.mode, "", s.defaultMux, false), Spec(s.mode, s.declaredMux), ""),
      SessionMuxes(s.sessions))
  }

  predicate InPhase(s: System, id: SessionId, phase: Phase) {
    id in s.closing && id in s.sessions && s.closing[id].phase == phase
  }

  /** The open in progress is at this point of its rollback. */
  predicate Opens(s: System, rollback: Rollback) {
    s.opener.Some? && s.opener.value.rollback == rollback
  }

  /** Steps under the data-plane lock need the opener to be out of the way. */
  predicate Enabled(s: System, step: Step) {
    match step
    case OpenRefused => s.opener.None?
    case OpenBegin(mux) =>
      && s.opener.None? && s.generation != 0 && s.mode == Qmap
      && mux != 0 && mux != s.defaultMux && MuxFree(s.sessions, mux)
    case OpenLease(w) => Opens(s, Unneeded) && !s.opener.value.leased && AsSet(w) !! s.leased.Values
    case OpenStart(_) => Opens(s, Unneeded) && s.opener.value.leased && s.opener.value.handle.None?
    case OpenCommit => Opens(s, Unneeded) && s.opener.value.handle.Some?
    case AbortStop => Opens(s, Unneeded)
    case AbortRelease => Opens(s, CallStopped)
    case AbortDelete => Opens(s, LeaseReleased)
    case CloseSample(id) => s.opener.None? && id in s.sessions && id !in s.closing
    case CloseStop(id) => InPhase(s, id, Sampled)
    case CloseRelease(id) => InPhase(s, id, Stopped)
    case CloseDelete(id) => InPhase(s, id, Released)
    case CloseFinish(id) => s.opener.None? && InPhase(s, id, Deleted)
    case Declare(_) => s.opener.None?
    case PublishQmap => s.opener.None? && s.declaredMux != 0
    case PublishNative => s.opener.None?
    case Reconcile(gone) => s.opener.None? && gone !! Keep(s)
  }

  /** One more for this attempt. */
  function Bump(m: map<SessionId, nat>, id: SessionId): map<SessionId, nat> {
    m[id := Count(m, id) + 1]
  }

  function Count(m: map<SessionId, nat>, id: SessionId): nat {
    if id in m then m[id] else 0
  }

  function Apply(s: System, step: Step): System
    requires Enabled(s, step)
  {
    match step
    case OpenRefused => s.(nextId := s.nextId + 1)
    case OpenBegin(mux) =>
      s.(nextId := s.nextId + 1,
         muxes := s.muxes + {mux},
         opener := Some(Opening(mux, s.generation, false, None, None, Unneeded)),
         fate := s.fate[s.nextId + 1 := Pending])
    case OpenLease(w) =>
      s.(opener := Some(s.opener.value.(leased := true, wds := w)),
         leased := if w.Some? then s.leased[s.nextId := w.value] else s.leased)
    case OpenStart(h) =>
      s.(opener := Some(s.opener.value.(handle := Some(h))), handles := s.handles[s.nextId := h])
    case OpenCommit =>
      var o := s.opener.value;
      s.(opener := None,
         sessions := s.sessions[s.nextId := Session(o.mux, o.generation, o.wds, o.handle.value)],
         fate := s.fate[s.nextId := Registered])
    case AbortStop =>
      s.(opener := Some(s.opener.value.(rollback := CallStopped)),
         stops := if s.opener.value.handle.Some? then Bump(s.stops, s.nextId) else s.stops)
    case AbortRelease =>
      s.(opener := Some(s.opener.value.(rollback := LeaseReleased)),
         releases := if s.opener.value.wds.Some? then Bump(s.releases, s.nextId) else s.releases)
    case AbortDelete =>
      s.(opener := None, muxes := s.muxes - {s.opener.value.mux}, fate := s.fate[s.nextId := Aborted])
    case CloseSample(id) =>
      s.(closing := s.closing[id := Closing(s.sessions[id].generation == s.generation, Sampled)])
    case CloseStop(id) =>
      s.(closing := s.closing[id := s.closing[id].(phase := Stopped)],
         stops := if s.sessions[id].handle != 0 then Bump(s.stops, id) else s.stops)
    case CloseRelease(id) =>
      s.(closing := s.closing[id := s.closing[id].(phase := Released)],
         releases := if s.sessions[id].wds.Some? then Bump(s.releases, id) else s.releases)
    case CloseDelete(id) =>
      s.(closing := s.closing[id := s.closing[id].(phase := Deleted)],
         muxes := if s.closing[id].owned then s.muxes - {s.sessions[id].mux} else s.muxes)
    case CloseFinish(id) =>
      s.(closing := s.closing - {id}, sessions := s.sessions - {id}, fate := s.fate[id := Closed])
    case Declare(mux) => s.(declaredMux := mux)
    case PublishQmap =>
      s.(generation := s.generation + 1, mode := Qmap, defaultMux := s.declaredMux, muxes := s.muxes + {s.declaredMux})
    case PublishNative => s.(generation := s.generation + 1, mode := Native, defaultMux := 0)
    case Reconcile(gone) => s.(muxes := s.muxes - gone)
  }

  // ---------------------------------------------------------------- invariants

  ghost predicate PastDelete(s: System, id: SessionId) {
    id in s.closing && s.closing[id].phase == Deleted
  }

  ghost predicate PastRelease(s: System, id: SessionId) {
    id in s.closing && (s.closing[id].phase == Released || s.closing[id].phase == Deleted)
  }

  ghost predicate PastStop(s: System, id: SessionId) {
    id in s.closing && s.closing[id].phase != Sampled
  }

  /** Registered sessions own distinct nonzero muxes, present until their own close deletes them. */
  ghost predicate MuxInv(s: System) {
    && (forall id :: id in s.sessions ==> id <= s.nextId && s.sessions[id].mux != 0)
    && (forall a, b :: a in s.sessions && b in s.sessions && a != b ==> s.sessions[a].mux != s.sessions[b].mux)
    && (forall id :: id in s.sessions && !PastDelete(s, id) ==> s.sessions[id].mux in s.muxes)
    && (forall id :: id in s.closing ==> id in s.sessions)
    && (s.opener.Some? ==>
          && s.nextId !in s.sessions && s.opener.value.mux != 0 && s.opener.value.mux in s.muxes
          && MuxFree(s.sessions, s.opener.value.mux))
  }

  /** A session of the current generation never shares the default mux. */
  ghost predicate TopologyInv(s: System) {
    && (forall id :: id in s.sessions ==> s.sessions[id].generation <= s.generation)
    && (forall id :: id in s.sessions && s.sessions[id].generation == s.generation ==> s.sessions[id].mux != s.defaultMux)
    && (s.opener.Some? ==> s.opener.value.generation == s.generation && s.opener.value.mux != s.defaultMux)
  }

  function LeaseOf(s: System, id: SessionId): Option<Wds> {
    if id in s.leased then Some(s.leased[id]) else None
  }

  function CallOf(s: System, id: SessionId): Option<nat> {
    if id in s.handles then Some(s.handles[id]) else None
  }

  /** One attempt's account: releases and stops are exactly what it has come to. */
  ghost predicate Account(s: System, id: SessionId)
    requires id in s.fate
  {
    match s.fate[id]
    case Pending =>
      && s.opener.Some? && id == s.nextId && s.opener.value.wds == LeaseOf(s, id) && s.opener.value.handle == CallOf(s, id)
      && (!s.opener.value.leased ==> id !in s.leased)
      && Count(s.releases, id) == (if s.opener.value.rollback == LeaseReleased && id in s.leased then 1 else 0)
      && Count(s.stops, id) == (if s.opener.value.rollback != Unneeded && id in s.handles then 1 else 0)
    case Registered =>
      && id in s.sessions && s.sessions[id].wds == LeaseOf(s, id) && CallOf(s, id) == Some(s.sessions[id].handle)
      && Count(s.releases, id) == (if PastRelease(s, id) && id in s.leased then 1 else 0)
      && Count(s.stops, id) == (if PastStop(s, id) && s.handles[id] != 0 then 1 else 0)
    case Aborted => AbortedAccount(s, id)
    case Closed => ClosedAccount(s, id)
  }

  /** A failed open gave its client back, and stopped its call if it had started one, whatever the handle. */
  ghost predicate AbortedAccount(s: System, id: SessionId) {
    Count(s.releases, id) == (if id in s.leased then 1 else 0) && Count(s.stops, id) == (if id in s.handles then 1 else 0)
  }

  /** A closed session gave its client back, and stopped its call exactly if that has a nonzero handle. */
  ghost predicate ClosedAccount(s: System, id: SessionId) {
    && Count(s.releases, id) == (if id in s.leased then 1 else 0)
    && id in s.handles && Count(s.stops, id) == (if s.handles[id] != 0 then 1 else 0)
  }

  /** Sessions and the opener are the attempts the ledger says they are. */
  ghost predicate FateInv(s: System) {
    && (forall id :: id in s.fate ==> id <= s.nextId)
    && (forall id :: id in s.leased || id in s.releases || id in s.handles || id in s.stops ==> id in s.fate)
    && (forall id :: id in s.sessions ==> id in s.fate && s.fate[id] == Registered)
    && (s.opener.Some? ==> s.nextId in s.fate && s.fate[s.nextId] == Pending)
    && (forall a, b :: a in s.leased && b in s.leased && s.leased[a] == s.leased[b] ==> a == b)
  }

  ghost predicate LedgerInv(s: System) {
    FateInv(s) && forall id :: id in s.fate ==> Account(s, id)
  }

  ghost predicate Inv(s: System) {
    MuxInv(s) && TopologyInv(s) && LedgerInv(s)
  }

  /** The keep set spares every registered session and both default muxes. */
  lemma KeepSpares(s: System)
    ensures forall id :: id in s.sessions && s.sessions[id].mux != 0 ==> s.sessions[id].mux in Keep(s)
    ensures s.defaultMux != 0 ==> s.defaultMux in Keep(s)
    ensures s.declaredMux != 0 ==> s.declaredMux in Keep(s)
  {
    forall id | id in s.sessions && s.sessions[id].mux != 0 ensures s.sessions[id].mux in Keep(s) {
      assert s.sessions[id].mux in SessionMuxes(s.sessions);
    }
  }

  predicate IsOpenStep(step: Step) {
    step.OpenBegin? || step.OpenLease? || step.OpenStart? || step.OpenCommit? || IsAbortStep(step)
  }

  predicate IsAbortStep(step: Step) {
    step.AbortStop? || step.AbortRelease? || step.AbortDelete?
  }

  predicate IsCloseStep(step: Step) {
    step.CloseSample? || step.CloseStop? || step.CloseRelease? || step.CloseDelete? || step.CloseFinish?
  }

  lemma OpenKeepsMuxInv(s: System, step: Step)
    requires MuxInv(s) && Enabled(s, step) && IsOpenStep(step)
    ensures MuxInv(Apply(s, step))
  {
    hide MuxInv, Enabled, Apply;
    if step.OpenBegin? || step.OpenCommit? {
      RegistryStepsKeepMuxInv(s, step);
    } else {
      AttemptStepsKeepMuxInv(s, step);
    }
  }

  lemma RegistryStepsKeepMuxInv(s: System, step: Step)
    requires MuxInv(s) && Enabled(s, step) && (step.OpenBegin? || step.OpenCommit?)
    ensures MuxInv(Apply(s, step))
  {
  }

  lemma AttemptStepsKeepMuxInv(s: System, step: Step)
    requires MuxInv(s) && Enabled(s, step) && IsOpenStep(step) && !step.OpenBegin? && !step.OpenCommit?
    ensures MuxInv(Apply(s, step))
  {
    hide Bump, Count;
  }

  lemma CloseKeepsMuxInv(s: System, step: Step)
    requires MuxInv(s) && Enabled(s, step) && IsCloseStep(step)
    ensures MuxInv(Apply(s, step))
  {
    hide Enabled, Apply, MuxInv;
    if step.CloseDelete? || step.CloseFinish? {
      LastCloseStepsKeepMuxInv(s, step);
    } else {
      FirstCloseStepsKeepMuxInv(s, step);
    }
  }

  lemma FirstCloseStepsKeepMuxInv(s: System, step: Step)
    requires MuxInv(s) && Enabled(s, step) && (step.CloseSample? || step.CloseStop? || step.CloseRelease?)
    ensures MuxInv(Apply(s, step))
  {
    hide Bump, MuxFree;
  }

  lemma LastCloseStepsKeepMuxInv(s: System, step: Step)
    requires MuxInv(s) && Enabled(s, step) && (step.CloseDelete? || step.CloseFinish?)
    ensures MuxInv(Apply(s, step))
  {
    var t := Apply(s, step);
    forall id | id in t.sessions && !PastDelete(t, id) ensures t.sessions[id].mux in t.muxes {
      assert id != step.id && !PastDelete(s, id);
    }
  }

  lemma StepKeepsMuxInv(s: System, step: Step)
    requires MuxInv(s) && Enabled(s, step)
    ensures MuxInv(Apply(s, step))
  {
    if IsOpenStep(step) {
      OpenKeepsMuxInv(s, step);
    } else if IsCloseStep(step) {
      CloseKeepsMuxInv(s, step);
    } else {
      hide Keep;
      KeepSpares(s);
    }
  }

  lemma StepKeepsTopologyInv(s: System, step: Step)
    requires TopologyInv(s) && Enabled(s, step)
    ensures TopologyInv(Apply(s, step))
  {
    hide Bump, Keep;
  }

  /** The attempt a step is about, if any. */
  ghost function Touched(s: System, step: Step): Option<SessionId> {
    match step
    case OpenBegin(_) => Some(s.nextId + 1)
    case CloseSample(id) => Some(id)
    case CloseStop(id) => Some(id)
    case CloseRelease(id) => Some(id)
    case CloseDelete(id) => Some(id)
    case CloseFinish(id) => Some(id)
    case _ => if IsOpenStep(step) then Some(s.nextId) else None
  }

  lemma LeaseKeepsFateInv(s: System, w: Option<Wds>)
    requires FateInv(s) && Enabled(s, OpenLease(w))
    ensures FateInv(Apply(s, OpenLease(w)))
  {
    assert forall id :: id in s.leased ==> s.leased[id] in s.leased.Values;
  }

  lemma OpenKeepsFateInv(s: System, step: Step)
    requires FateInv(s) && Enabled(s, step) && IsOpenStep(step) && (s.opener.Some? ==> s.nextId !in s.sessions)
    ensures FateInv(Apply(s, step))
  {
    hide MuxFree, Count;
    if step.OpenLease? {
      LeaseKeepsFateInv(s, step.wds);
    } else {
      assert Apply(s, step).leased == s.leased;
    }
  }

  lemma StepKeepsFateInv(s: System, step: Step)
    requires FateInv(s) && Enabled(s, step) && (s.opener.Some? ==> s.nextId !in s.sessions)
    ensures FateInv(Apply(s, step))
  {
    hide Keep, MuxFree, Count;
    if IsOpenStep(step) {
      OpenKeepsFateInv(s, step);
    }
  }

  /** Nothing of the attempt's own has changed. */
  ghost predicate SameEntries(s: System, t: System, id: SessionId)
    requires id in s.fate
  {
    && id in t.fate && s.fate[id] == t.fate[id]
    && LeaseOf(s, id) == LeaseOf(t, id) && CallOf(s, id) == CallOf(t, id)
    && Count(s.releases, id) == Count(t.releases, id) && Count(s.stops, id) == Count(t.stops, id)
    && (s.fate[id] == Pending ==> t.opener == s.opener && t.nextId == s.nextId)
    && (s.fate[id] == Registered && id in s.sessions ==>
          && id in t.sessions && t.sessions[id] == s.sessions[id]
          && (id in s.closing <==> id in t.closing) && (id in s.closing ==> s.closing[id] == t.closing[id]))
  }

  /** An account depends only on its own entries. */
  lemma AccountFrame(s: System, t: System, id: SessionId)
    requires id in s.fate && Account(s, id) && SameEntries(s, t, id)
    ensures Account(t, id)
  {
    hide Count;
  }

  lemma OpenKeepsOthers(s: System, step: Step, id: SessionId)
    requires Enabled(s, step) && IsOpenStep(step) && id in s.fate && Touched(s, step) != Some(id)
    requires s.fate[id] == Pending ==> s.opener.Some? && id == s.nextId
    ensures SameEntries(s, Apply(s, step), id)
  {
    hide MuxFree;
  }

  lemma CloseKeepsOthers(s: System, step: Step, id: SessionId)
    requires Enabled(s, step) && !IsOpenStep(step) && id in s.fate && Touched(s, step) != Some(id)
    requires s.fate[id] == Pending ==> s.opener.Some?
    ensures SameEntries(s, Apply(s, step), id)
  {
    hide MuxFree, Keep;
  }

  /** Accounts a step is not about stay as they are. */
  lemma OtherAccountsKept(s: System, step: Step, id: SessionId)
    requires Enabled(s, step) && id in s.fate && Account(s, id) && Touched(s, step) != Some(id)
    ensures id in Apply(s, step).fate && Account(Apply(s, step), id)
  {
    hide Enabled, Apply, Touched, Count, LeaseOf, CallOf;
    if IsOpenStep(step) {
      OpenKeepsOthers(s, step, id);
    } else {
      CloseKeepsOthers(s, step, id);
    }
    AccountFrame(s, Apply(s, step), id);
  }

  lemma OpenKeepsAccount(s: System, step: Step, id: SessionId)
    requires FateInv(s) && Enabled(s, step) && IsOpenStep(step)
    requires id in s.fate ==> Account(s, id)
    requires s.opener.Some? ==> s.nextId !in s.closing
    requires Touched(s, step) == Some(id)
    ensures id in Apply(s, step).fate && Account(Apply(s, step), id)
  {
    hide MuxFree;
  }

  lemma CloseKeepsAccount(s: System, step: Step, id: SessionId)
    requires Enabled(s, step) && IsCloseStep(step) && Touched(s, step) == Some(id)
    requires id in s.fate && s.fate[id] == Registered && Account(s, id)
    ensures id in Apply(s, step).fate && Account(Apply(s, step), id)
  {
    hide MuxFree, AbortedAccount;
  }

  lemma StepKeepsLedgerInv(s: System, step: Step)
    requires MuxInv(s) && LedgerInv(s) && Enabled(s, step)
    ensures LedgerInv(Apply(s, step))
  {
    StepKeepsFateInv(s, step);
    var t := Apply(s, step);
    forall id | id in t.fate ensures Account(t, id) {
      StepKeepsAccount(s, step, id);
    }
  }

  lemma StepKeepsAccount(s: System, step: Step, id: SessionId)
    requires MuxInv(s) && LedgerInv(s) && Enabled(s, step) && id in Apply(s, step).fate
    ensures Account(Apply(s, step), id)
  {
    hide Account;
    if Touched(s, step) != Some(id) {
      assert id in s.fate;
      OtherAccountsKept(s, step, id);
    } else if IsOpenStep(step) {
      OpenKeepsAccount(s, step, id);
    } else {
      assert id in s.fate;
      CloseKeepsAccount(s, step, id);
    }
  }

  lemma StepKeepsInv(s: System, step: Step)
    requires Inv(s) && Enabled(s, step)
    ensures Inv(Apply(s, step))
  {
    hide MuxInv, TopologyInv, LedgerInv, Apply, Enabled;
    StepKeepsMuxInv(s, step);
    StepKeepsTopologyInv(s, step);
    StepKeepsLedgerInv(s, step);
  }

  // ---------------------------------------------------------------- whole runs

  function Run(s: System, steps: seq<Step>): Option<System>
    decreases |steps|
  {
    if steps == [] then Some(s)
    else if Enabled(s, steps[0]) then Run(Apply(s, steps[0]), steps[1..])
    else None
  }

  lemma {:induction false} RunKeepsInv(s: System, steps: seq<Step>)
    requires Inv(s) && Run(s, steps).Some?
    ensures Inv(Run(s, steps).value)
    decreases |steps|
  {
    hide Inv, Apply, Enabled;
    if steps == [] {
    } else {
      StepKeepsInv(s, steps[0]);
      RunKeepsInv(Apply(s, steps[0]), steps[1..]);
    }
  }

  lemma ReachableInv(steps: seq<Step>)
    requires Run(INITIAL, steps).Some?
    ensures Inv(Run(INITIAL, steps).value)
  {
    assert Inv(INITIAL);
    RunKeepsInv(INITIAL, steps);
  }

  /**
   After every schedule registered sessions have distinct nonzero muxes, and each one's mux interface is
   there until its own close deletes it: no failed open, other close or reconciliation takes it away.
   */
  lemma RegisteredMuxesAreSafe(steps: seq<Step>)
    requires Run(INITIAL, steps).Some?
    ensures
      var s := Run(INITIAL, steps).value;
      && (forall id :: id in s.sessions ==> s.sessions[id].mux != 0)
      && (forall a, b :: a in s.sessions && b in s.sessions && a != b ==> s.sessions[a].mux != s.sessions[b].mux)
      && (forall id :: id in s.sessions && !PastDelete(s, id) ==> s.sessions[id].mux in s.muxes)
  {
    hide Run;
    ReachableInv(steps);
  }

  /**
   After every schedule the books are exact. No two attempts share a client; none is released twice and no
   call stopped twice. Once nothing is being opened and no session is registered, every attempt was
   aborted or closed, every client handed out is released once, and a call that was started is stopped
   once, unless its session was closed and its handle is zero: then it is never stopped.
   */
  lemma ResourcesConserved(steps: seq<Step>)
    requires Run(INITIAL, steps).Some?
    ensures
      var s := Run(INITIAL, steps).value;
      && (forall a, b :: a in s.leased && b in s.leased && a != b ==> s.leased[a] != s.leased[b])
      && (forall id :: id in s.leased || id in s.handles ==> id in s.fate)
      && (forall id :: id in s.fate ==> Count(s.releases, id) <= 1 && Count(s.stops, id) <= 1)
      && (s.opener.None? && s.sessions == map[] ==>
            forall id :: id in s.fate ==>
                           && (s.fate[id] == Aborted || s.fate[id] == Closed)
                           && Count(s.releases, id) == (if id in s.leased then 1 else 0)
                           && Count(s.stops, id) ==
                              (if id in s.handles && (s.fate[id] == Aborted || s.handles[id] != 0) then 1 else 0))
  {
    hide Run;
    ReachableInv(steps);
    hide MuxInv, TopologyInv, PastStop, PastRelease;
    var s := Run(INITIAL, steps).value;
    forall id | id in s.fate
      ensures Count(s.releases, id) <= 1 && Count(s.stops, id) <= 1
      ensures s.opener.None? && s.sessions == map[] ==> s.fate[id] == Aborted || s.fate[id] == Closed
      ensures s.fate[id] == Aborted || s.fate[id] == Closed ==>
                && Count(s.releases, id) == (if id in s.leased then 1 else 0)
                && Count(s.stops, id) == (if id in s.handles && (s.fate[id] == Aborted || s.handles[id] != 0) then 1 else 0)
    {
      assert Account(s, id);
    }
  }

  /** Which steps can take the published default mux away, and exactly when they do. */
  lemma DefaultMuxLostIff(s: System, step: Step)
    requires Inv(s) && Enabled(s, step) && s.defaultMux != 0 && s.defaultMux in s.muxes
    ensures
      var t := Apply(s, step);
      (t.defaultMux == s.defaultMux && s.defaultMux !in t.muxes) <==>
      && step.CloseDelete?
      && s.closing[step.id].owned
      && s.sessions[step.id].mux == s.defaultMux
    ensures step.CloseDelete? && s.sessions[step.id].mux == s.defaultMux ==>
              s.sessions[step.id].generation < s.generation
  {
    hide Keep, MuxFree, LedgerInv;
    KeepSpares(s);
  }

  lemma RunCons(s: System, step: Step, rest: seq<Step>)
    requires Enabled(s, step)
    ensures Run(s, [step] + rest) == Run(Apply(s, step), rest)
  {
    hide Enabled, Apply;
    assert ([step] + rest)[1..] == rest;
  }

  lemma {:induction false} RunAppend(s: System, first: seq<Step>, rest: seq<Step>)
    requires Run(s, first).Some?
    ensures Run(s, first + rest) == Run(Run(s, first).value, rest)
    decreases |first|
  {
    hide Enabled, Apply;
    if first == [] {
      assert first + rest == rest;
    } else {
      var t := Apply(s, first[0]);
      assert Run(s, first) == Run(t, first[1..]);
      RunAppend(t, first[1..], rest);
      hide Run;
      assert first + rest == [first[0]] + (first[1..] + rest);
      RunCons(s, first[0], first[1..] + rest);
    }
  }

  // ---------------------------------------------------------------- who keeps the default mux

  /** A close in progress that saw its session current and has not deleted its mux yet, which is this one. */
  ghost predicate WillDelete(s: System, id: SessionId, mux: MuxId) {
    id in s.closing && id in s.sessions && s.closing[id].owned && s.closing[id].phase != Deleted && s.sessions[id].mux == mux
  }

  ghost predicate Threatened(s: System) {
    exists id :: WillDelete(s, id, s.defaultMux)
  }

  /** The schedule publishes no other topology. */
  predicate KeepsTopology(steps: seq<Step>) {
    forall i :: 0 <= i < |steps| ==> !steps[i].PublishQmap? && !steps[i].PublishNative?
  }

  lemma UnthreatenedStep(s: System, step: Step)
    requires Inv(s) && Enabled(s, step) && !step.PublishQmap? && !step.PublishNative?
    requires s.defaultMux != 0 && s.defaultMux in s.muxes && !Threatened(s)
    ensures
      var t := Apply(s, step);
      t.defaultMux == s.defaultMux && t.defaultMux in t.muxes && !Threatened(t)
  {
    hide Keep, MuxFree, LedgerInv, Count;
    KeepSpares(s);
    var t := Apply(s, step);
    if step.CloseDelete? {
      assert !WillDelete(s, step.id, s.defaultMux);
    }
    forall id ensures !WillDelete(t, id, t.defaultMux) {
      assert !WillDelete(s, id, s.defaultMux);
    }
  }

  lemma {:induction false} UnthreatenedRun(s: System, steps: seq<Step>)
    requires Inv(s) && KeepsTopology(steps) && Run(s, steps).Some?
    requires s.defaultMux != 0 && s.defaultMux in s.muxes && !Threatened(s)
    ensures
      var t := Run(s, steps).value;
      t.defaultMux == s.defaultMux && t.defaultMux in t.muxes && !Threatened(t)
    decreases |steps|
  {
    hide Inv, Enabled, Apply, Threatened;
    if steps == [] {
    } else {
      StepKeepsInv(s, steps[0]);
      UnthreatenedStep(s, steps[0]);
      UnthreatenedRun(Apply(s, steps[0]), steps[1..]);
    }
  }

  /** The close in progress needs nobody's permission to go on until it deletes the mux. */
  lemma {:induction false} ThreatCarriedOut(s: System, id: SessionId) returns (steps: seq<Step>)
    requires WillDelete(s, id, s.defaultMux)
    ensures KeepsTopology(steps) && Run(s, steps).Some?
    ensures Run(s, steps).value.defaultMux == s.defaultMux && Run(s, steps).value.mode == s.mode
    ensures s.defaultMux !in Run(s, steps).value.muxes
    decreases s.closing[id].phase.Sampled?, s.closing[id].phase.Stopped?
  {
    hide Run, Count, MuxFree;
    var step :=
      match s.closing[id].phase
      case Sampled => CloseStop(id)
      case Stopped => CloseRelease(id)
      case Released => CloseDelete(id);
    var t := Apply(s, step);
    if step.CloseDelete? {
      steps := [];
      RunNothing(t);
    } else {
      steps := ThreatCarriedOut(t, id);
    }
    RunCons(s, step, steps);
    steps := [step] + steps;
  }

  lemma RunNothing(s: System)
    ensures Run(s, []) == Some(s)
  {
  }

  /**
   A default mux that is published now stays in the kernel, whatever happens until the next publication,
   exactly when no close in progress on that mux saw its session current.
   */
  lemma PublishedMuxStaysIff(s: System)
    requires Inv(s) && Enabled(s, PublishQmap)
    ensures
      var t := Apply(s, PublishQmap);
      (forall steps :: KeepsTopology(steps) && Run(t, steps).Some? ==> s.declaredMux in Run(t, steps).value.muxes) <==>
      !exists id :: WillDelete(s, id, s.declaredMux)
  {
    var t := Apply(s, PublishQmap);
    StepKeepsInv(s, PublishQmap);
    assert t.defaultMux == s.declaredMux != 0 && t.defaultMux in t.muxes;
    assert forall id :: WillDelete(t, id, t.defaultMux) <==> WillDelete(s, id, s.declaredMux);
    hide Inv, Enabled, Apply, WillDelete;
    if id :| WillDelete(s, id, s.declaredMux) {
      var steps := ThreatCarriedOut(t, id);
      assert KeepsTopology(steps) && Run(t, steps).Some?;
    } else {
      forall steps | KeepsTopology(steps) && Run(t, steps).Some? ensures s.declaredMux in Run(t, steps).value.muxes {
        UnthreatenedRun(t, steps);
      }
    }
  }

  /** Residual cleanup may delete every other mux, and then exactly the kept ones that were there remain. */
  lemma ReconcileLeavesTheKept(s: System)
    requires s.opener.None?
    ensures Enabled(s, Reconcile(s.muxes - Keep(s)))
    ensures Apply(s, Reconcile(s.muxes - Keep(s))) == s.(muxes := s.muxes * Keep(s))
  {
    hide Keep;
    assert s.muxes - (s.muxes - Keep(s)) == s.muxes * Keep(s);
  }
}

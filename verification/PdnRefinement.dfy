/**
 How the three views of secondary sessions fit together: the call-by-call operations of `PdnSessions` and
 the convergence of `DataPlane` are the undisturbed runs of the interleaved protocol in `PdnProtocol`.
 Sources: pkg/manager/pdn_session.go and pkg/manager/data_plane.go.
 */
module PdnRefinement {
  import opened Bytes
  import opened DataPlane
  import opened PdnSessions
  import opened PdnProtocol

  // ---------------------------------------------------------------- undisturbed runs

  function Leasing(s: System, id: SessionId, w: Option<Wds>): map<SessionId, Wds> {
    if w.Some? then s.leased[id := w.value] else s.leased
  }

  function OpenSteps(mux: MuxId, w: Option<Wds>, handle: nat): seq<Step> {
    [OpenBegin(mux)] + ([OpenLease(w)] + ([OpenStart(handle)] + ([OpenCommit] + [])))
  }

  function OpenedBy(s: System, mux: MuxId, w: Option<Wds>, handle: nat): System {
    var id := s.nextId + 1;
    s.(nextId := id, muxes := s.muxes + {mux}, sessions := s.sessions[id := Session(mux, s.generation, w, handle)],
       fate := s.fate[id := Registered], leased := Leasing(s, id, w), handles := s.handles[id := handle])
  }

  /** Under the lock, with the mux added and the lease made. */
  function LeasedBy(s: System, mux: MuxId, w: Option<Wds>): System {
    var id := s.nextId + 1;
    s.(nextId := id, muxes := s.muxes + {mux}, opener := Some(Opening(mux, s.generation, true, w, None, Unneeded)),
       fate := s.fate[id := Pending], leased := Leasing(s, id, w))
  }

  lemma BeginAndLease(s: System, mux: MuxId, w: Option<Wds>, rest: seq<Step>)
    requires Enabled(s, OpenBegin(mux)) && AsSet(w) !! s.leased.Values
    ensures Run(s, [OpenBegin(mux)] + ([OpenLease(w)] + rest)) == Run(LeasedBy(s, mux, w), rest)
  {
    hide Run, MuxFree;
    var a := Apply(s, OpenBegin(mux));
    assert Apply(a, OpenLease(w)) == LeasedBy(s, mux, w);
    RunCons(a, OpenLease(w), rest);
    RunCons(s, OpenBegin(mux), [OpenLease(w)] + rest);
  }

  lemma UndisturbedOpen(s: System, mux: MuxId, w: Option<Wds>, handle: nat)
    requires Enabled(s, OpenBegin(mux)) && AsSet(w) !! s.leased.Values
    ensures Run(s, OpenSteps(mux, w, handle)) == Some(OpenedBy(s, mux, w, handle))
  {
    hide Run, MuxFree, Leasing;
    var b := LeasedBy(s, mux, w);
    var c := Apply(b, OpenStart(handle));
    var d := Apply(c, OpenCommit);
    assert d == OpenedBy(s, mux, w, handle);
    RunNothing(d);
    RunCons(c, OpenCommit, []);
    RunCons(b, OpenStart(handle), [OpenCommit] + []);
    BeginAndLease(s, mux, w, [OpenStart(handle)] + ([OpenCommit] + []));
  }

  function RollbackSteps(): seq<Step> {
    [AbortStop] + ([AbortRelease] + ([AbortDelete] + []))
  }

  function AbortSteps(mux: MuxId, w: Option<Wds>, started: Option<nat>): seq<Step> {
    [OpenBegin(mux)] + ([OpenLease(w)] + (if started.Some? then [OpenStart(started.value)] + RollbackSteps() else RollbackSteps()))
  }

  function AbortedBy(s: System, mux: MuxId, w: Option<Wds>, started: Option<nat>): System {
    var id := s.nextId + 1;
    s.(nextId := id, muxes := s.muxes - {mux}, fate := s.fate[id := Aborted],
       leased := Leasing(s, id, w), releases := if w.Some? then Bump(s.releases, id) else s.releases,
       handles := if started.Some? then s.handles[id := started.value] else s.handles,
       stops := if started.Some? then Bump(s.stops, id) else s.stops)
  }

  lemma UndisturbedRollback(s: System)
    requires Opens(s, Unneeded)
    ensures
      var o := s.opener.value;
      Run(s, RollbackSteps()) ==
      Some(s.(opener := None, muxes := s.muxes - {o.mux}, fate := s.fate[s.nextId := Aborted],
              stops := if o.handle.Some? then Bump(s.stops, s.nextId) else s.stops,
              releases := if o.wds.Some? then Bump(s.releases, s.nextId) else s.releases))
  {
    hide Run, Bump;
    var a := Apply(s, AbortStop);
    var b := Apply(a, AbortRelease);
    var c := Apply(b, AbortDelete);
    RunNothing(c);
    RunCons(b, AbortDelete, []);
    RunCons(a, AbortRelease, [AbortDelete] + []);
    RunCons(s, AbortStop, [AbortRelease] + ([AbortDelete] + []));
  }

  lemma UndisturbedAbort(s: System, mux: MuxId, w: Option<Wds>, started: Option<nat>)
    requires Enabled(s, OpenBegin(mux)) && AsSet(w) !! s.leased.Values
    ensures Run(s, AbortSteps(mux, w, started)) == Some(AbortedBy(s, mux, w, started))
  {
    hide Run, RollbackSteps, Bump, Leasing, MuxFree;
    var b := LeasedBy(s, mux, w);
    assert s.muxes + {mux} - {mux} == s.muxes - {mux};
    assert b.fate[b.nextId := Aborted] == s.fate[b.nextId := Aborted];
    if started.Some? {
      var c := Apply(b, OpenStart(started.value));
      UndisturbedRollback(c);
      RunCons(b, OpenStart(started.value), RollbackSteps());
      BeginAndLease(s, mux, w, [OpenStart(started.value)] + RollbackSteps());
    } else {
      UndisturbedRollback(b);
      BeginAndLease(s, mux, w, RollbackSteps());
    }
  }

  function CloseSteps(id: SessionId): seq<Step> {
    [CloseSample(id)] + ([CloseStop(id)] + ([CloseRelease(id)] + ([CloseDelete(id)] + ([CloseFinish(id)] + []))))
  }

  function ClosedBy(s: System, id: SessionId): System
    requires id in s.sessions
  {
    var session := s.sessions[id];
    s.(sessions := s.sessions - {id}, fate := s.fate[id := Closed],
       muxes := if session.generation == s.generation then s.muxes - {session.mux} else s.muxes,
       releases := if session.wds.Some? then Bump(s.releases, id) else s.releases,
       stops := if session.handle != 0 then Bump(s.stops, id) else s.stops)
  }

  /** The session's call stopped and its client released, its mux and its entry still there. */
  function HalfClosedBy(s: System, id: SessionId): System
    requires id in s.sessions
  {
    var session := s.sessions[id];
    s.(closing := s.closing[id := Closing(session.generation == s.generation, Released)],
       releases := if session.wds.Some? then Bump(s.releases, id) else s.releases,
       stops := if session.handle != 0 then Bump(s.stops, id) else s.stops)
  }

  lemma FirstHalfOfClose(s: System, id: SessionId, rest: seq<Step>)
    requires Enabled(s, CloseSample(id))
    ensures Run(s, [CloseSample(id)] + ([CloseStop(id)] + ([CloseRelease(id)] + rest))) == Run(HalfClosedBy(s, id), rest)
  {
    hide Run, Bump;
    var a := Apply(s, CloseSample(id));
    var b := Apply(a, CloseStop(id));
    var c := Apply(b, CloseRelease(id));
    assert c == HalfClosedBy(s, id);
    RunCons(b, CloseRelease(id), rest);
    RunCons(a, CloseStop(id), [CloseRelease(id)] + rest);
    RunCons(s, CloseSample(id), [CloseStop(id)] + ([CloseRelease(id)] + rest));
  }

  lemma SecondHalfOfClose(s: System, id: SessionId)
    requires Enabled(s, CloseSample(id))
    ensures Run(HalfClosedBy(s, id), [CloseDelete(id)] + ([CloseFinish(id)] + [])) == Some(ClosedBy(s, id))
  {
    hide Run, Bump;
    var c := HalfClosedBy(s, id);
    var d := Apply(c, CloseDelete(id));
    var e := Apply(d, CloseFinish(id));
    assert e.closing == s.closing;
    assert e == ClosedBy(s, id);
    RunNothing(e);
    RunCons(d, CloseFinish(id), []);
    RunCons(c, CloseDelete(id), [CloseFinish(id)] + []);
  }

  lemma UndisturbedClose(s: System, id: SessionId)
    requires Enabled(s, CloseSample(id))
    ensures Run(s, CloseSteps(id)) == Some(ClosedBy(s, id))
  {
    hide Run, ClosedBy, HalfClosedBy;
    FirstHalfOfClose(s, id, [CloseDelete(id)] + ([CloseFinish(id)] + []));
    SecondHalfOfClose(s, id);
  }

  // ---------------------------------------------------------------- opening and closing

  ghost function Outstanding(s: System): set<Wds> {
    set id | id in s.leased && Count(s.releases, id) == 0 :: s.leased[id]
  }

  ghost function Ongoing(s: System): set<Call> {
    set id | id in s.handles && Count(s.stops, id) == 0 :: Call(id, LeaseOf(s, id), s.handles[id])
  }

  /** The manager's world and the protocol at rest: the same fields, and a ledger that is what the accounts leave. */
  ghost predicate Agrees(w: World, s: System) {
    && s.opener.None? && s.closing == map[]
    && w.generation == s.generation && w.mode == s.mode && w.defaultMux == s.defaultMux
    && w.nextId == s.nextId && w.sessions == s.sessions && w.muxes == s.muxes
    && w.used == s.leased.Values && w.leases == Outstanding(s) && w.calls == Ongoing(s)
  }

  /** The handle of the call an attempt had started when it failed. */
  function StartedCall(req: Request, env: PdnSessions.Env): Option<nat> {
    if env.lease.failed || (req.interfaceId == 0 && !env.endpointFound) || !env.bound then None else env.started
  }

  ghost function OpenRun(w: World, req: Request, env: PdnSessions.Env): seq<Step> {
    if Refusal(w, req, env).Some? then []
    else if EarlyFault(w, req, env).Some? then [OpenRefused] + []
    else if LateFault(req, env).Some? then AbortSteps(req.mux, env.lease.wds, StartedCall(req, env))
    else OpenSteps(req.mux, env.lease.wds, env.started.value)
  }

  lemma FreshAttempt(s: System)
    requires FateInv(s)
    ensures
      var id := s.nextId + 1;
      id !in s.leased && id !in s.releases && id !in s.handles && id !in s.stops
  {
  }

  lemma OneMoreLease(s: System, id: SessionId, w: Option<Wds>)
    requires id !in s.leased
    ensures Leasing(s, id, w).Values == s.leased.Values + AsSet(w)
  {
    if w.Some? {
      var m := Leasing(s, id, w);
      assert m[id] == w.value;
      forall x | x in s.leased.Values ensures x in m.Values {
        var i :| i in s.leased && s.leased[i] == x;
        assert m[i] == x;
      }
    }
  }

  /** A fresh attempt that keeps its lease and call adds them to the ledger. */
  lemma OpenedLedger(s: System, mux: MuxId, w: Option<Wds>, handle: nat)
    requires FateInv(s)
    ensures
      var t, id := OpenedBy(s, mux, w, handle), s.nextId + 1;
      && t.leased.Values == s.leased.Values + AsSet(w) && Outstanding(t) == Outstanding(s) + AsSet(w)
      && Ongoing(t) == Ongoing(s) + {Call(id, w, handle)}
  {
    FreshAttempt(s);
    hide FateInv;
    var t, id := OpenedBy(s, mux, w, handle), s.nextId + 1;
    OneMoreLease(s, id, w);
    SameOutstanding(s, t, id);
    SameOngoing(s, t, id);
    assert id in t.handles && Call(id, w, handle) in Ongoing(t);
    assert w.Some? ==> w.value in Outstanding(t);
  }

  /** One that gives them back leaves the ledger as it was. */
  lemma AbortedLedger(s: System, mux: MuxId, w: Option<Wds>, started: Option<nat>)
    requires FateInv(s)
    ensures
      var t := AbortedBy(s, mux, w, started);
      && t.leased.Values == s.leased.Values + AsSet(w) && Outstanding(t) == Outstanding(s) && Ongoing(t) == Ongoing(s)
  {
    FreshAttempt(s);
    hide FateInv;
    var t, id := AbortedBy(s, mux, w, started), s.nextId + 1;
    OneMoreLease(s, id, w);
    SameOutstanding(s, t, id);
    SameOngoing(s, t, id);
  }

  /** States that differ in one attempt's entries have, apart from it, the same outstanding leases. */
  lemma SameOutstanding(s: System, t: System, id: SessionId)
    requires forall x :: x != id ==> LeaseOf(s, x) == LeaseOf(t, x) && Count(s.releases, x) == Count(t.releases, x)
    ensures forall w :: w in Outstanding(s) ==> w in Outstanding(t) || (id in s.leased && s.leased[id] == w)
    ensures forall w :: w in Outstanding(t) ==>
                          w in Outstanding(s) || (id in t.leased && t.leased[id] == w && Count(t.releases, id) == 0)
  {
    hide Count;
    forall w | w in Outstanding(s) && !(id in s.leased && s.leased[id] == w) ensures w in Outstanding(t) {
      var x :| x in s.leased && Count(s.releases, x) == 0 && s.leased[x] == w;
      assert LeaseOf(s, x) == LeaseOf(t, x);
    }
    forall w | w in Outstanding(t) && !(id in t.leased && t.leased[id] == w && Count(t.releases, id) == 0)
      ensures w in Outstanding(s)
    {
      var x :| x in t.leased && Count(t.releases, x) == 0 && t.leased[x] == w;
      assert LeaseOf(s, x) == LeaseOf(t, x);
    }
  }

  /** And the same ongoing calls. */
  lemma SameOngoing(s: System, t: System, id: SessionId)
    requires forall x :: x != id ==> LeaseOf(s, x) == LeaseOf(t, x) && CallOf(s, x) == CallOf(t, x) && Count(s.stops, x) == Count(t.stops, x)
    ensures forall c :: c in Ongoing(s) && c.id != id ==> c in Ongoing(t)
    ensures forall c :: c in Ongoing(t) && c.id != id ==> c in Ongoing(s)
    ensures forall c :: c in Ongoing(s) && c.id == id ==> id in s.handles && Count(s.stops, id) == 0 && c == Call(id, LeaseOf(s, id), s.handles[id])
    ensures forall c :: c in Ongoing(t) && c.id == id ==> id in t.handles && Count(t.stops, id) == 0 && c == Call(id, LeaseOf(t, id), t.handles[id])
  {
    hide Count, LeaseOf;
    forall c | c in Ongoing(s) && c.id != id ensures c in Ongoing(t) {
      assert CallOf(s, c.id) == CallOf(t, c.id);
    }
    forall c | c in Ongoing(t) && c.id != id ensures c in Ongoing(s) {
      assert CallOf(s, c.id) == CallOf(t, c.id);
    }
  }

  /** `OpenPDN`, call by call, is an undisturbed run of the protocol, on success and at every point of failure. */
  lemma OpenIsARun(before: World, after: World, s: System, req: Request, env: PdnSessions.Env)
    requires Inv(s) && Agrees(before, s) && AsSet(env.lease.wds) !! before.used
    requires OpenOutcome(before, after, req, env)
    ensures Run(s, OpenRun(before, req, env)).Some? && Agrees(after, Run(s, OpenRun(before, req, env)).value)
  {
    hide Run, LateFault, SetupFault, OpenSteps, AbortSteps, Inv, AsSet, Outstanding, Ongoing, StartedCall;
    var w := env.lease.wds;
    if Refusal(before, req, env).Some? {
      RunNothing(s);
    } else if EarlyFault(before, req, env).Some? {
      var t := s.(nextId := s.nextId + 1);
      assert Apply(s, OpenRefused) == t;
      RunNothing(t);
      RunCons(s, OpenRefused, []);
      SameLedger(s, t);
    } else {
      InvMeansFate(s);
      assert Enabled(s, OpenBegin(req.mux)) by {
        FreeMux(before.sessions, req.mux);
      }
      hide Enabled;
      if LateFault(req, env).Some? {
        UndisturbedAbort(s, req.mux, w, StartedCall(req, env));
        AbortedLedger(s, req.mux, w, StartedCall(req, env));
      } else {
        SuccessfulStart(req, env);
        UndisturbedOpen(s, req.mux, w, env.started.value);
        OpenedLedger(s, req.mux, w, env.started.value);
      }
    }
  }

  lemma SuccessfulStart(req: Request, env: PdnSessions.Env)
    requires LateFault(req, env).None?
    ensures env.started.Some?
  {
  }

  lemma InvMeansFate(s: System)
    requires Inv(s)
    ensures FateInv(s)
  {
  }

  lemma FreeMux(sessions: map<SessionId, Session>, mux: MuxId)
    ensures MuxFree(sessions, mux) <==> !MuxInUse(sessions, mux)
  {
  }

  lemma SameLedger(s: System, t: System)
    requires t == s.(nextId := t.nextId)
    ensures Outstanding(t) == Outstanding(s) && Ongoing(t) == Ongoing(s)
  {
  }

  /** What a close gives back leaves the ledger, and nothing else does. */
  lemma ClosedLeases(s: System, id: SessionId)
    requires FateInv(s) && id in s.sessions && LeaseOf(s, id) == s.sessions[id].wds
    ensures Outstanding(ClosedBy(s, id)) == Outstanding(s) - AsSet(s.sessions[id].wds)
  {
    var t := ClosedBy(s, id);
    forall x | x in s.leased && x != id ensures id in s.leased ==> s.leased[x] != s.leased[id] {
    }
    hide FateInv;
    SameOutstanding(s, t, id);
    if id in s.leased {
      assert forall x :: x in t.leased && Count(t.releases, x) == 0 ==> x != id;
    }
  }

  lemma ClosedCalls(s: System, id: SessionId)
    requires id in s.sessions && LeaseOf(s, id) == s.sessions[id].wds && CallOf(s, id) == Some(s.sessions[id].handle)
    requires Count(s.stops, id) == 0
    ensures
      var session := s.sessions[id];
      Ongoing(ClosedBy(s, id)) == if session.handle != 0 then Ongoing(s) - {session.DataCall(id)} else Ongoing(s)
  {
    var t, session := ClosedBy(s, id), s.sessions[id];
    SameOngoing(s, t, id);
    assert session.DataCall(id) in Ongoing(s);
    if session.handle == 0 {
      assert session.DataCall(id) in Ongoing(t);
    }
  }

  lemma ClosedLedger(s: System, id: SessionId)
    requires Inv(s) && id in s.sessions && s.closing == map[]
    ensures
      var t, session := ClosedBy(s, id), s.sessions[id];
      && Outstanding(t) == Outstanding(s) - AsSet(session.wds)
      && Ongoing(t) == if session.handle != 0 then Ongoing(s) - {session.DataCall(id)} else Ongoing(s)
  {
    hide Outstanding, Ongoing, ClosedBy, MuxInv, TopologyInv, AsSet;
    assert Account(s, id);
    ClosedLeases(s, id);
    ClosedCalls(s, id);
  }

  /** So is the first `Close` of a session. */
  lemma CloseIsARun(before: World, after: World, s: System, id: SessionId)
    requires Inv(s) && Agrees(before, s) && id in before.sessions && CloseOutcome(before, after, id)
    ensures Run(s, CloseSteps(id)).Some? && Agrees(after, Run(s, CloseSteps(id)).value)
  {
    hide Run, CloseSteps, Inv, AsSet, Outstanding, Ongoing;
    UndisturbedClose(s, id);
    ClosedLedger(s, id);
  }

  // ---------------------------------------------------------------- convergence

  ghost predicate PlaneAgrees(p: Plane, s: System) {
    && s.generation == p.snapshot.generation && s.mode == p.snapshot.mode && s.defaultMux == p.snapshot.defaultMux
    && s.declaredMux == p.declared.defaultMux
  }

  predicate Usable(spec: Spec) {
    spec.mode == Native || (spec.mode == Qmap && spec.defaultMux != 0)
  }

  /** The steps that lead from plane `p` to plane `q`, the outcome of converging to `spec`. */
  function ConvergeRun(p: Plane, q: Plane, spec: Spec): seq<Step> {
    if !Usable(spec) then []
    else if q.snapshot == p.snapshot then [Declare(spec.defaultMux)] + []
    else [Declare(spec.defaultMux)] + ([if q.snapshot.mode == Qmap then PublishQmap else PublishNative] + [])
  }

  /** An unusable specification changes nothing; any other is declared, and publishes at most once. */
  ghost predicate Converged(p: Plane, q: Plane, spec: Spec) {
    if !Usable(spec) then q == p
    else
      && q.declared == spec
      && (|| q.snapshot == p.snapshot
          || (&& q.snapshot.generation == p.snapshot.generation + 1
              && if q.snapshot.mode == Qmap then q.snapshot.defaultMux == spec.defaultMux != 0
                 else q.snapshot.mode == Native && q.snapshot.defaultMux == 0))
  }

  /** The protocol state with the topology of plane `q`; a newly published QMAP default is in the kernel. */
  function Moved(s: System, p: Plane, q: Plane): System {
    s.(generation := q.snapshot.generation, mode := q.snapshot.mode, defaultMux := q.snapshot.defaultMux,
       declaredMux := q.declared.defaultMux,
       muxes := if q.snapshot != p.snapshot && q.snapshot.mode == Qmap then s.muxes + {q.snapshot.defaultMux} else s.muxes)
  }

  lemma ConvergedIsARun(s: System, p: Plane, q: Plane, spec: Spec)
    requires s.opener.None? && PlaneAgrees(p, s) && Converged(p, q, spec)
    ensures Run(s, ConvergeRun(p, q, spec)) == Some(Moved(s, p, q))
  {
    hide Run, Enabled, Apply;
    var t := s.(declaredMux := spec.defaultMux);
    if !Usable(spec) {
      RunNothing(s);
    } else if q.snapshot == p.snapshot {
      DeclareRun(s, spec.defaultMux, []);
      RunNothing(t);
    } else {
      var publish := if q.snapshot.mode == Qmap then PublishQmap else PublishNative;
      DeclareRun(s, spec.defaultMux, [publish] + []);
      PublishRun(t, publish);
    }
  }

  /**
   A convergence is a declaration followed by at most one publication. It leaves sessions, closers and the
   ledger alone, and the only mux it may add is the default it publishes.
   */
  lemma ConvergeIsARun(s: System, p: Plane, spec: Spec, env: DataPlane.Env)
    requires s.opener.None? && PlaneAgrees(p, s)
    ensures
      var q := p.Converge(spec, env).0;
      Run(s, ConvergeRun(p, q, spec)) == Some(Moved(s, p, q)) && PlaneAgrees(q, Moved(s, p, q))
  {
    hide Run, Moved;
    var q := p.Converge(spec, env).0;
    assert Converged(p, q, spec);
    ConvergedIsARun(s, p, q, spec);
    MovedAgrees(s, p, q);
  }

  lemma MovedAgrees(s: System, p: Plane, q: Plane)
    ensures PlaneAgrees(q, Moved(s, p, q))
  {
  }

  lemma DeclareRun(s: System, mux: MuxId, rest: seq<Step>)
    requires s.opener.None?
    ensures Run(s, [Declare(mux)] + rest) == Run(s.(declaredMux := mux), rest)
  {
    hide Run, Keep, MuxFree;
    RunCons(s, Declare(mux), rest);
  }

  lemma PublishRun(s: System, publish: Step)
    requires s.opener.None? && (publish == PublishNative || (publish == PublishQmap && s.declaredMux != 0))
    ensures
      Run(s, [publish] + []) ==
      Some(if publish == PublishNative then s.(generation := s.generation + 1, mode := Native, defaultMux := 0)
           else s.(generation := s.generation + 1, mode := Qmap, defaultMux := s.declaredMux, muxes := s.muxes + {s.declaredMux}))
  {
    hide Run, Keep, MuxFree;
    RunNothing(Apply(s, publish));
    RunCons(s, publish, []);
  }

  // ---------------------------------------------------------------- two runs

  /** Mux 1 published as the default, nothing opened yet. */
  const PUBLISHED := System(1, Qmap, 1, 1, {1}, 0, map[], None, map[], map[], map[], map[], map[], map[])

  lemma PublishedReached() returns (steps: seq<Step>)
    ensures Run(INITIAL, steps) == Some(PUBLISHED)
  {
    var a := Apply(INITIAL, Declare(1));
    assert Apply(a, PublishQmap) == PUBLISHED;
    hide Run;
    RunNothing(PUBLISHED);
    RunCons(a, PublishQmap, []);
    RunCons(INITIAL, Declare(1), [PublishQmap] + []);
    steps := [Declare(1)] + ([PublishQmap] + []);
  }

  lemma OneSessionReached(mux: MuxId, handle: nat) returns (steps: seq<Step>)
    requires mux > 1
    ensures Run(INITIAL, steps) == Some(OpenedBy(PUBLISHED, mux, Some(0), handle))
  {
    var first := PublishedReached();
    assert Enabled(PUBLISHED, OpenBegin(mux));
    hide Run, OpenSteps, OpenedBy;
    UndisturbedOpen(PUBLISHED, mux, Some(0), handle);
    RunAppend(INITIAL, first, OpenSteps(mux, Some(0), handle));
    steps := first + OpenSteps(mux, Some(0), handle);
  }

  /** While a session of the current topology is being closed, a convergence onto its mux can lose that mux. */
  lemma TakeOver(s: System, id: SessionId) returns (steps: seq<Step>)
    requires Enabled(s, CloseSample(id)) && s.sessions[id].generation == s.generation && s.sessions[id].mux != 0
    ensures Run(s, steps).Some?
    ensures
      var t, mux := Run(s, steps).value, s.sessions[id].mux;
      t.mode == Qmap && t.defaultMux == mux && mux !in t.muxes
  {
    hide Run, Keep, MuxFree;
    var mux := s.sessions[id].mux;
    var a := Apply(s, CloseSample(id));
    var b := Apply(a, Declare(mux));
    var c := Apply(b, PublishQmap);
    assert c.mode == Qmap && c.defaultMux == mux && WillDelete(c, id, mux);
    var rest := ThreatCarriedOut(c, id);
    RunCons(b, PublishQmap, rest);
    RunCons(a, Declare(mux), [PublishQmap] + rest);
    RunCons(s, CloseSample(id), [Declare(mux)] + ([PublishQmap] + rest));
    steps := [CloseSample(id)] + ([Declare(mux)] + ([PublishQmap] + rest));
  }

  /** The default mux is lost: a convergence takes over a session's mux between the two halves of its close. */
  lemma DefaultMuxLostToConcurrentClose(mux: MuxId) returns (steps: seq<Step>)
    requires mux > 1
    ensures Run(INITIAL, steps).Some?
    ensures
      var s := Run(INITIAL, steps).value;
      s.mode == Qmap && s.defaultMux == mux && mux !in s.muxes
  {
    steps := OneSessionReached(mux, 7);
    hide Run;
    var s := OpenedBy(PUBLISHED, mux, Some(0), 7);
    var rest := TakeOver(s, 1);
    RunAppend(INITIAL, steps, rest);
    steps := steps + rest;
  }

  /** A call is never stopped: opened with handle zero, then closed. */
  lemma ZeroHandleCallIsNeverStopped() returns (steps: seq<Step>)
    ensures Run(INITIAL, steps).Some?
    ensures
      var s := Run(INITIAL, steps).value;
      && s.opener.None? && s.sessions == map[] && s.fate == map[1 := Closed]
      && s.handles == map[1 := 0] && Count(s.stops, 1) == 0 && Count(s.releases, 1) == 1
  {
    steps := OneSessionReached(5, 0);
    var s := OpenedBy(PUBLISHED, 5, Some(0), 0);
    assert Enabled(s, CloseSample(1));
    var t := ClosedBy(s, 1);
    assert t.sessions == map[] && t.fate == map[1 := Closed];
    hide Enabled, Run, OpenedBy, ClosedBy, CloseSteps;
    UndisturbedClose(s, 1);
    RunAppend(INITIAL, steps, CloseSteps(1));
    steps := steps + CloseSteps(1);
  }
}

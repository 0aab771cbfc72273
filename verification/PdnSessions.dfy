/**
 Opening and closing one secondary PDN session (pkg/manager/pdn_session.go), call by call. The manager
 class carries a ledger of what the kernel and the modem hold for it: mux interfaces, WDS leases and
 data calls. Ledger operations demand what must be true when the source calls them, so their order is
 part of what is proved.
 */
module PdnSessions {
  import opened Bytes
  import opened DataPlane

  type Wds = nat
  type SessionId = nat

  /** A data call: the attempt that started it, the WDS client it was started on, and the modem's handle. */
  datatype Call = Call(id: SessionId, wds: Option<Wds>, handle: nat)

  /** The source guards against a session without a WDS client. */
  datatype Session = Session(mux: MuxId, generation: nat, wds: Option<Wds>, handle: nat) {
    function DataCall(id: SessionId): Call {
      Call(id, wds, handle)
    }
  }

  function AsSet(wds: Option<Wds>): set<Wds> {
    if wds.Some? then {wds.value} else {}
  }

  datatype Request = Request(mux: MuxId, interfaceId: nat, userspaceOnly: bool)

  datatype Settings = SettingsError | SettingsEmpty | SettingsRead

  /** A failing lease may still hand out a client, which must then be released; a successful one may hand out none. */
  datatype Lease = Lease(wds: Option<Wds>, failed: bool)

  /** Answers of the modem and the kernel while a session is being issued. */
  datatype Env = Env(
    stopping: bool,
    clientPresent: bool,
    masterUp: bool,
    muxAdded: bool,
    lease: Lease,
    endpointFound: bool,
    bound: bool,
    started: Option<nat>,
    settings: Settings,
    prepared: bool,
    broughtUp: bool)

  datatype OpenError =
    | Stopping | TopologyNotReady | MuxConflict | NoClient | MasterDown | AddMuxFailed | LeaseFailed
    | EndpointUnknown | BindFailed | StartFailed | SettingsFailed | PrepareFailed | BringUpFailed

  /** The manager's data-plane fields and the ledger. */
  datatype World = World(
    generation: nat,
    mode: Mode,
    defaultMux: MuxId,
    master: string,
    nextId: SessionId,
    sessions: map<SessionId, Session>,
    muxes: set<MuxId>,
    used: set<Wds>,         // every WDS client ever leased
    leases: set<Wds>,       // those not yet released
    calls: set<Call>)       // data calls started and not yet stopped

  ghost predicate MuxInUse(sessions: map<SessionId, Session>, mux: MuxId) {
    exists id :: id in sessions && sessions[id].mux == mux
  }

  function First(a: Option<OpenError>, b: Option<OpenError>): Option<OpenError> {
    if a.Some? then a else b
  }

  /** The first check or call that fails, in the order the source makes them. */
  ghost function Fault(w: World, req: Request, env: Env): Option<OpenError> {
    First(EarlyFault(w, req, env), LateFault(req, env))
  }

  /** Faults before the mux is added: nothing has been acquired yet. */
  ghost function EarlyFault(w: World, req: Request, env: Env): Option<OpenError> {
    First(Refusal(w, req, env), SetupFault(w.master, env))
  }

  /** Checks made before a session ID is drawn. */
  ghost function Refusal(w: World, req: Request, env: Env): Option<OpenError> {
    if env.stopping then Some(Stopping)
    else if w.generation == 0 || w.mode != Qmap then Some(TopologyNotReady)
    else if req.mux == 0 || req.mux == w.defaultMux || MuxInUse(w.sessions, req.mux) then Some(MuxConflict)
    else None
  }

  /** Checks and calls made under the reservation, up to adding the mux. */
  function SetupFault(master: string, env: Env): Option<OpenError> {
    if !env.clientPresent then Some(NoClient)
    else if master == "" then Some(TopologyNotReady)
    else if !env.masterUp then Some(MasterDown)
    else if !env.muxAdded then Some(AddMuxFailed)
    else None
  }

  /** Faults after the mux exists: these must be rolled back. */
  ghost function LateFault(req: Request, env: Env): Option<OpenError> {
    if env.lease.failed then Some(LeaseFailed)
    else if req.interfaceId == 0 && !env.endpointFound then Some(EndpointUnknown)
    else if !env.bound then Some(BindFailed)
    else if env.started.None? then Some(StartFailed)
    else CallFault(req, env)
  }

  /** Faults after the data call was started. */
  function CallFault(req: Request, env: Env): Option<OpenError> {
    if env.settings != SettingsRead then Some(SettingsFailed)
    else if req.userspaceOnly && !env.prepared then Some(PrepareFailed)
    else if !env.broughtUp then Some(BringUpFailed)
    else None
  }

  /** Everything that must hold before the first call is made. */
  ghost predicate Admissible(w: World, req: Request) {
    && w.generation != 0 && w.mode == Qmap
    && req.mux != 0 && req.mux != w.defaultMux && forall id :: id in w.sessions ==> w.sessions[id].mux != req.mux
  }

  /** Answers an open needs, in the order it asks for them, each with the error that reports its lack. */
  type Needs = seq<(bool, OpenError)>

  function NeedsBeforeMux(w: World, env: Env): Needs {
    [(env.clientPresent, NoClient)] + ([(w.master != "", TopologyNotReady)] + ([(env.masterUp, MasterDown)]
    + ([(env.muxAdded, AddMuxFailed)] + [])))
  }

  function NeedsOnMux(req: Request, env: Env): Needs {
    [(!env.lease.failed, LeaseFailed)] + ([(req.interfaceId != 0 || env.endpointFound, EndpointUnknown)]
    + ([(env.bound, BindFailed)] + ([(env.started.Some?, StartFailed)] + NeedsOnCall(req, env))))
  }

  function NeedsOnCall(req: Request, env: Env): Needs {
    [(env.settings == SettingsRead, SettingsFailed)] + ([(!req.userspaceOnly || env.prepared, PrepareFailed)]
    + ([(env.broughtUp, BringUpFailed)] + []))
  }

  function FirstMissing(needs: Needs): Option<OpenError> {
    if needs == [] then None else if !needs[0].0 then Some(needs[0].1) else FirstMissing(needs[1..])
  }

  lemma MissingCons(met: bool, e: OpenError, rest: Needs)
    ensures FirstMissing([(met, e)] + rest) == if met then FirstMissing(rest) else Some(e)
  {
    assert ([(met, e)] + rest)[1..] == rest;
  }

  lemma EarlyFaultIsFirstMissing(w: World, req: Request, env: Env)
    requires !env.stopping && Admissible(w, req)
    ensures EarlyFault(w, req, env) == FirstMissing(NeedsBeforeMux(w, env))
  {
    hide FirstMissing;
    assert FirstMissing([]) == None by {
      NothingMissing();
    }
    MissingCons(env.muxAdded, AddMuxFailed, []);
    MissingCons(env.masterUp, MasterDown, [(env.muxAdded, AddMuxFailed)] + []);
    MissingCons(w.master != "", TopologyNotReady, [(env.masterUp, MasterDown)] + ([(env.muxAdded, AddMuxFailed)] + []));
    MissingCons(env.clientPresent, NoClient,
                [(w.master != "", TopologyNotReady)] + ([(env.masterUp, MasterDown)] + ([(env.muxAdded, AddMuxFailed)] + [])));
  }

  lemma NothingMissing()
    ensures FirstMissing([]) == None
  {
  }

  lemma CallFaultIsFirstMissing(req: Request, env: Env)
    ensures CallFault(req, env) == FirstMissing(NeedsOnCall(req, env))
  {
    NothingMissing();
    hide FirstMissing;
    MissingCons(env.broughtUp, BringUpFailed, []);
    MissingCons(!req.userspaceOnly || env.prepared, PrepareFailed, [(env.broughtUp, BringUpFailed)] + []);
    MissingCons(env.settings == SettingsRead, SettingsFailed,
                [(!req.userspaceOnly || env.prepared, PrepareFailed)] + ([(env.broughtUp, BringUpFailed)] + []));
  }

  lemma LateFaultIsFirstMissing(req: Request, env: Env)
    ensures LateFault(req, env) == FirstMissing(NeedsOnMux(req, env))
  {
    hide FirstMissing, NeedsOnCall, CallFault;
    CallFaultIsFirstMissing(req, env);
    var rest := NeedsOnCall(req, env);
    MissingCons(env.started.Some?, StartFailed, rest);
    MissingCons(env.bound, BindFailed, [(env.started.Some?, StartFailed)] + rest);
    MissingCons(req.interfaceId != 0 || env.endpointFound, EndpointUnknown, [(env.bound, BindFailed)] + ([(env.started.Some?, StartFailed)] + rest));
    MissingCons(!env.lease.failed, LeaseFailed,
                [(req.interfaceId != 0 || env.endpointFound, EndpointUnknown)] + ([(env.bound, BindFailed)] + ([(env.started.Some?, StartFailed)] + rest)));
  }

  /** An admissible open fails at the first answer that is missing, with its error, and succeeds when none is. */
  lemma FaultIsFirstMissing(w: World, req: Request, env: Env)
    requires !env.stopping && Admissible(w, req)
    ensures EarlyFault(w, req, env) == FirstMissing(NeedsBeforeMux(w, env))
    ensures Fault(w, req, env) ==
            if FirstMissing(NeedsBeforeMux(w, env)).Some? then FirstMissing(NeedsBeforeMux(w, env)) else FirstMissing(NeedsOnMux(req, env))
  {
    hide FirstMissing, NeedsBeforeMux, NeedsOnMux, EarlyFault, LateFault;
    EarlyFaultIsFirstMissing(w, req, env);
    LateFaultIsFirstMissing(req, env);
  }

  /** What is not admissible is refused before anything happens, for the first reason that applies. */
  lemma RefusedIff(w: World, req: Request, env: Env)
    ensures Refusal(w, req, env).None? <==> !env.stopping && Admissible(w, req)
    ensures Refusal(w, req, env) == Some(Stopping) <==> env.stopping
    ensures Refusal(w, req, env) == Some(TopologyNotReady) <==> !env.stopping && (w.generation == 0 || w.mode != Qmap)
    ensures Refusal(w, req, env) == Some(MuxConflict) <==>
            && !env.stopping && w.generation != 0 && w.mode == Qmap
            && (req.mux == 0 || req.mux == w.defaultMux || exists id :: id in w.sessions && w.sessions[id].mux == req.mux)
    ensures Refusal(w, req, env).Some? ==> Fault(w, req, env) == Refusal(w, req, env)
  {
  }

  /** Sessions own distinct muxes and leases, all of them on the ledger, each with its one call. */
  ghost predicate Consistent(w: World) {
    && (forall id :: id in w.sessions ==>
                       && w.sessions[id].mux != 0 && w.sessions[id].mux in w.muxes
                       && AsSet(w.sessions[id].wds) <= w.leases
                       && w.sessions[id].DataCall(id) in w.calls)
    && (forall a, b :: a in w.sessions && b in w.sessions && a != b ==>
                         w.sessions[a].mux != w.sessions[b].mux && AsSet(w.sessions[a].wds) !! AsSet(w.sessions[b].wds))
    && w.leases <= w.used
    && CallsApart(w)
  }

  /** An attempt has at most one call, and so has a WDS client. */
  ghost predicate CallsApart(w: World) {
    && (forall c :: c in w.calls ==> c.id <= w.nextId && AsSet(c.wds) <= w.used)
    && (forall c, d :: c in w.calls && d in w.calls && (c.id == d.id || (c.wds.Some? && c.wds == d.wds)) ==> c == d)
  }

  /** All that an open may have changed: on failure nothing it acquired is left, on success the session owns it. */
  ghost predicate OpenOutcome(before: World, after: World, req: Request, env: Env) {
    var leased := AsSet(env.lease.wds);
    match Fault(before, req, env)
    case Some(_) =>
      var id := if Refusal(before, req, env).Some? then before.nextId else before.nextId + 1;
      if EarlyFault(before, req, env).Some? then after == before.(nextId := id)
      else after == before.(nextId := id, used := before.used + leased, muxes := before.muxes - {req.mux})
    case None =>
      var id, s := before.nextId + 1, Session(req.mux, before.generation, env.lease.wds, env.started.value);
      after == before.(nextId := id, sessions := before.sessions[id := s], muxes := before.muxes + {req.mux},
                       used := before.used + leased, leases := before.leases + leased, calls := before.calls + {s.DataCall(id)})
  }

  /** All that the calls under the reservation may have changed, and the session they yield. */
  ghost predicate Attempted(before: World, after: World, req: Request, env: Env, r: Result<Session, OpenError>) {
    var leased := AsSet(env.lease.wds);
    match First(SetupFault(before.master, env), LateFault(req, env))
    case Some(e) =>
      && r == Err(e)
      && after == (if SetupFault(before.master, env).Some? then before
                   else before.(used := before.used + leased, muxes := before.muxes - {req.mux}))
    case None =>
      var s := Session(req.mux, before.generation, env.lease.wds, env.started.value);
      && r == Ok(s)
      && after == before.(muxes := before.muxes + {req.mux}, used := before.used + leased,
                          leases := before.leases + leased, calls := before.calls + {s.DataCall(before.nextId)})
  }

  lemma AttemptIsOutcome(before: World, after: World, req: Request, env: Env, r: Result<Session, OpenError>)
    requires Refusal(before, req, env).None?
    requires Attempted(before.(nextId := before.nextId + 1), after, req, env, r)
    ensures Fault(before, req, env) == if r.Err? then Some(r.error) else None
    ensures r.Err? ==> OpenOutcome(before, after, req, env)
    ensures r.Ok? ==> OpenOutcome(before, after.(sessions := before.sessions[after.nextId := r.value]), req, env)
  {
    hide SetupFault, LateFault, Refusal, AsSet;
  }

  lemma AttemptIsConsistent(before: World, after: World, req: Request, env: Env, r: Result<Session, OpenError>)
    requires Refusal(before, req, env).None? && Consistent(before) && AsSet(env.lease.wds) !! before.used
    requires Attempted(before.(nextId := before.nextId + 1), after, req, env, r)
    ensures r.Err? ==> Consistent(after)
    ensures r.Ok? && after.nextId !in before.sessions ==>
              Consistent(after.(sessions := before.sessions[after.nextId := r.value]))
  {
    hide SetupFault, LateFault, Consistent, MuxInUse, AsSet;
    if r.Err? {
      FailedOpenIsConsistent(before, after, req.mux);
    } else if after.nextId !in before.sessions {
      OpenIsConsistent(before, after.(sessions := before.sessions[after.nextId := r.value]), after.nextId, r.value);
    }
  }

  /** All that the first close of a session changes. */
  ghost predicate CloseOutcome(before: World, after: World, id: SessionId)
    requires id in before.sessions
  {
    var s := before.sessions[id];
    after == before.(
      sessions := before.sessions - {id},
      muxes := if s.generation == before.generation then before.muxes - {s.mux} else before.muxes,
      leases := before.leases - AsSet(s.wds),
      calls := if s.handle != 0 then before.calls - {s.DataCall(id)} else before.calls)
  }

  /** Every session handed out is registered or closed, never both. */
  ghost predicate Recorded(
    sessions: map<SessionId, Session>, issued: map<SessionId, Session>, closedOnce: set<SessionId>, nextId: SessionId)
  {
    && (forall id :: id in issued <==> id in sessions || id in closedOnce)
    && (forall id :: id in sessions ==> id !in closedOnce && issued[id] == sessions[id])
    && (forall id :: id in issued ==> id <= nextId)
  }

  class PdnManager {
    var stateGeneration: nat
    var mode: Mode
    var defaultMux: MuxId
    var master: string
    var nextId: SessionId
    var sessions: map<SessionId, Session>
    var reserved: map<MuxId, SessionId>
    var issued: map<SessionId, Session>     // every session handed out
    var closedOnce: set<SessionId>          // sessions whose close has run
    var muxes: set<MuxId>
    var used: set<Wds>
    var leases: set<Wds>
    var calls: set<Call>

    ghost function State(): World
      reads this
    {
      World(stateGeneration, mode, defaultMux, master, nextId, sessions, muxes, used, leases, calls)
    }

    ghost predicate Valid()
      reads this
    {
      && Consistent(State())
      && reserved == map[]
      && Recorded(sessions, issued, closedOnce, nextId)
    }

    // Ledger operations, with what must hold when the source performs them.

    method StopCall(c: Call)
      requires c in calls && AsSet(c.wds) <= leases
      modifies this`calls
      ensures calls == old(calls) - {c}
    {
      calls := calls - {c};
    }

    method ReleaseWds(w: Wds)
      requires w in leases && forall c :: c in calls && c.wds == Some(w) ==> c.handle == 0
      modifies this`leases
      ensures leases == old(leases) - {w}
    {
      leases := leases - {w};
    }

    method DeleteMux(mux: MuxId)
      modifies this`muxes
      ensures muxes == old(muxes) - {mux}
    {
      muxes := muxes - {mux};
    }

    // Opening.

    method MuxTaken(mux: MuxId) returns (taken: bool)
      ensures taken == MuxInUse(sessions, mux)
    {
      var left := sessions;
      while left != map[]
        invariant forall id :: id in left ==> id in sessions && left[id] == sessions[id]
        invariant forall id :: id in sessions && id !in left ==> sessions[id].mux != mux
        decreases |left|
      {
        var id :| id in left;
        if left[id].mux == mux {
          return true;
        }
        left := left - {id};
      }
      return false;
    }

    /** The deferred closure of `OpenPDN`: stop, release, delete, in that order. */
    method Rollback(call: Option<Call>, wds: Option<Wds>, mux: MuxId)
      requires AsSet(wds) <= leases
      requires call.Some? ==> call.value.wds == wds && call.value in calls
      requires forall c :: c in calls && wds.Some? && c.wds == wds ==> call == Some(c)
      modifies this`calls, this`leases, this`muxes
      ensures calls == (if call.Some? then old(calls) - {call.value} else old(calls))
      ensures leases == old(leases) - AsSet(wds)
      ensures muxes == old(muxes) - {mux}
    {
      if call.Some? {
        StopCall(call.value);
      }
      if wds.Some? {
        ReleaseWds(wds.value);
      }
      DeleteMux(mux);
    }

    /** The part of `OpenPDN` after the mux exists. */
    method OpenOnMux(req: Request, env: Env) returns (r: Result<Session, OpenError>)
      requires CallsApart(State()) && leases <= used && req.mux in muxes && forall c :: c in calls ==> c.id < nextId
      requires AsSet(env.lease.wds) !! used
      modifies this`calls, this`leases, this`used, this`muxes
      ensures used == old(used) + AsSet(env.lease.wds)
      ensures
        match LateFault(req, env)
        case Some(e) =>
          r == Err(e) && calls == old(calls) && leases == old(leases) && muxes == old(muxes) - {req.mux}
        case None =>
          var s := Session(req.mux, stateGeneration, env.lease.wds, env.started.value);
          && r == Ok(s) && muxes == old(muxes)
          && leases == old(leases) + AsSet(s.wds) && calls == old(calls) + {s.DataCall(nextId)}
    {
      var wds := env.lease.wds;
      leases, used := leases + AsSet(wds), used + AsSet(wds);
      if env.lease.failed {
        Rollback(None, wds, req.mux);
        return Err(LeaseFailed);
      }
      if req.interfaceId == 0 && !env.endpointFound {
        Rollback(None, wds, req.mux);
        return Err(EndpointUnknown);
      }
      if !env.bound {
        Rollback(None, wds, req.mux);
        return Err(BindFailed);
      }
      if env.started.None? {
        Rollback(None, wds, req.mux);
        return Err(StartFailed);
      }
      r := OpenOnCall(req, env);
    }

    /** The part after the data call was started. */
    method OpenOnCall(req: Request, env: Env) returns (r: Result<Session, OpenError>)
      requires AsSet(env.lease.wds) <= leases && env.started.Some? && req.mux in muxes
      requires forall c :: c in calls ==> c.id < nextId && (c.wds.Some? ==> c.wds != env.lease.wds)
      modifies this`calls, this`leases, this`muxes
      ensures
        match CallFault(req, env)
        case Some(e) =>
          && r == Err(e) && calls == old(calls) && leases == old(leases) - AsSet(env.lease.wds)
          && muxes == old(muxes) - {req.mux}
        case None =>
          var s := Session(req.mux, stateGeneration, env.lease.wds, env.started.value);
          r == Ok(s) && muxes == old(muxes) && leases == old(leases) && calls == old(calls) + {s.DataCall(nextId)}
    {
      var wds := env.lease.wds;
      var call := Call(nextId, wds, env.started.value);
      calls := calls + {call};
      if env.settings != SettingsRead {
        Rollback(Some(call), wds, req.mux);
        return Err(SettingsFailed);
      }
      if req.userspaceOnly && !env.prepared {
        Rollback(Some(call), wds, req.mux);
        return Err(PrepareFailed);
      }
      if !env.broughtUp {
        Rollback(Some(call), wds, req.mux);
        return Err(BringUpFailed);
      }
      return Ok(Session(req.mux, stateGeneration, wds, env.started.value));
    }

    /**
     `OpenPDN`. A failure, wherever it happens, leaves no lease, call or session behind and at most
     removes the requested mux; a success owns one of each. The leased client, if any, is a new object.
     */
    method OpenPdn(req: Request, env: Env) returns (r: Result<SessionId, OpenError>)
      requires Valid() && AsSet(env.lease.wds) !! used
      modifies this`nextId, this`reserved, this`sessions, this`issued, this`muxes, this`used, this`leases, this`calls
      ensures Valid() && OpenOutcome(old(State()), State(), req, env)
      ensures r == match Fault(old(State()), req, env) case Some(e) => Err(e) case None => Ok(nextId)
    {
      hide LateFault, SetupFault, Consistent, MuxInUse, Recorded;
      var refused := Refuse(req, env);
      if refused.Some? {
        return Err(refused.value);
      }
      r := OpenAdmitted(req, env);
    }

    /** The part of `OpenPDN` after its checks: draw an ID, reserve the mux, issue the calls, register. */
    method OpenAdmitted(req: Request, env: Env) returns (r: Result<SessionId, OpenError>)
      requires Valid() && Refusal(State(), req, env).None? && AsSet(env.lease.wds) !! used
      modifies this`nextId, this`reserved, this`sessions, this`issued, this`muxes, this`used, this`leases, this`calls
      ensures Valid() && OpenOutcome(old(State()), State(), req, env)
      ensures r == match Fault(old(State()), req, env) case Some(e) => Err(e) case None => Ok(nextId)
    {
      hide Consistent, Recorded, CallsApart, AsSet, Attempted, OpenOutcome, Refusal, Fault;
      ghost var before := State();
      nextId := nextId + 1;
      var id := nextId;
      reserved := reserved[req.mux := id];
      FreshIdIsConsistent(before, State());
      var opening := OpenReserved(req, env);
      reserved := reserved - {req.mux};
      assert reserved == map[];
      AttemptIsOutcome(before, State(), req, env, opening);
      AttemptIsConsistent(before, State(), req, env, opening);
      if opening.Err? {
        RecordedGrows(sessions, issued, closedOnce, before.nextId, Session(0, 0, None, 0));
        return Err(opening.error);
      }
      Register(id, opening.value);
      return Ok(id);
    }

    /** The session joins the registry under the ID just drawn, and will not be issued again. */
    method Register(id: SessionId, s: Session)
      requires 0 < id == nextId && reserved == map[] && Recorded(sessions, issued, closedOnce, id - 1)
      requires id !in sessions ==> Consistent(State().(sessions := sessions[id := s]))
      modifies this`sessions, this`issued
      ensures Valid() && sessions == old(sessions)[id := s] && id !in old(sessions)
    {
      hide Consistent, Recorded;
      RecordedGrows(sessions, issued, closedOnce, id - 1, s);
      sessions := sessions[id := s];
      issued := issued[id := s];
    }

    /** The checks `OpenPDN` makes before it draws a session ID and reserves the mux. */
    method Refuse(req: Request, env: Env) returns (r: Option<OpenError>)
      requires reserved == map[]
      ensures r == Refusal(State(), req, env)
    {
      if env.stopping {
        return Some(Stopping);
      }
      if stateGeneration == 0 || mode != Qmap {
        return Some(TopologyNotReady);
      }
      if req.mux == 0 || req.mux == defaultMux {
        return Some(MuxConflict);
      }
      var taken := MuxTaken(req.mux);
      if taken || req.mux in reserved {
        return Some(MuxConflict);
      }
      return None;
    }

    /** The calls made under the reservation. */
    method OpenReserved(req: Request, env: Env) returns (r: Result<Session, OpenError>)
      requires CallsApart(State()) && leases <= used && forall c :: c in calls ==> c.id < nextId
      requires AsSet(env.lease.wds) !! used
      modifies this`calls, this`leases, this`used, this`muxes
      ensures Attempted(old(State()), State(), req, env, r)
    {
      hide LateFault, MuxInUse;
      if !env.clientPresent {
        return Err(NoClient);
      }
      if master == "" {
        return Err(TopologyNotReady);
      }
      if !env.masterUp {
        return Err(MasterDown);
      }
      if !env.muxAdded {
        return Err(AddMuxFailed);
      }
      muxes := muxes + {req.mux};
      r := OpenOnMux(req, env);
    }

    // Closing.

    /**
     `managedPDNSession.Close` run without interference. The first call stops a call with a nonzero handle,
     releases the lease once and unregisters the session; it deletes the mux only while the session's
     topology generation is current. Every further call changes nothing.
     */
    method CloseSession(id: SessionId) returns (stale: bool)
      requires Valid() && id in issued
      modifies this`sessions, this`closedOnce, this`muxes, this`leases, this`calls
      ensures Valid() && closedOnce == old(closedOnce) + {id}
      ensures old(id in closedOnce) ==> State() == old(State())
      ensures !old(id in closedOnce) ==>
                && id in old(State()).sessions && CloseOutcome(old(State()), State(), id)
                && stale == (old(issued[id]).generation != stateGeneration)
    {
      hide Consistent, Recorded, CloseOutcome;
      if id in closedOnce {
        return false;
      }
      stale := FirstClose(id);
    }

    /** What `closeOnce` guards. */
    method FirstClose(id: SessionId) returns (stale: bool)
      requires Valid() && id in issued && id !in closedOnce
      modifies this`sessions, this`closedOnce, this`muxes, this`leases, this`calls
      ensures Valid() && closedOnce == old(closedOnce) + {id}
      ensures id in old(State()).sessions && CloseOutcome(old(State()), State(), id)
      ensures stale == (issued[id].generation != stateGeneration)
    {
      hide Consistent, Recorded, AsSet;
      ghost var before := State();
      RecordedCloses(sessions, issued, closedOnce, nextId, id);
      OwnedByOne(before, id);
      closedOnce := closedOnce + {id};
      var s := issued[id];
      var owned := id in sessions && stateGeneration == s.generation;
      Teardown(id, s, owned);
      if id in sessions {
        sessions := sessions - {id};
      }
      CloseIsConsistent(before, State(), id);
      stale := !owned;
    }

    /** The calls of a close, between its two critical sections. */
    method Teardown(id: SessionId, s: Session, owned: bool)
      requires AsSet(s.wds) <= leases && s.DataCall(id) in calls
      requires forall c :: c in calls && c.wds.Some? && c.wds == s.wds ==> c == s.DataCall(id)
      modifies this`muxes, this`leases, this`calls
      ensures muxes == if owned then old(muxes) - {s.mux} else old(muxes)
      ensures leases == old(leases) - AsSet(s.wds)
      ensures calls == if s.handle != 0 then old(calls) - {s.DataCall(id)} else old(calls)
    {
      if s.handle != 0 {
        StopCall(s.DataCall(id));
      }
      if s.wds.Some? {
        ReleaseWds(s.wds.value);
      }
      if owned {
        DeleteMux(s.mux);
      }
    }

    /** `closeManagedPDNSessions`: a copy of the registry is taken, then every session in it is closed. */
    method CloseAllSessions()
      requires Valid()
      modifies this
      ensures Valid() && sessions == map[]
      ensures forall id :: id in old(sessions) ==> Gone(State(), id, old(sessions)[id])
      ensures muxes <= old(muxes) && leases <= old(leases) && calls <= old(calls)
    {
      hide Consistent;
      var copy := sessions;
      ghost var all := sessions;
      while copy != map[]
        invariant Valid() && copy == sessions && sessions.Keys <= all.Keys
        invariant forall id :: id in sessions ==> sessions[id] == all[id]
        invariant forall id :: id in all && id !in copy ==> Gone(State(), id, all[id])
        invariant muxes <= old(muxes) && leases <= old(leases) && calls <= old(calls)
        invariant stateGeneration == old(stateGeneration)
        decreases |copy|
      {
        var id :| id in copy;
        assert issued[id] == all[id];
        var _ := CloseSession(id);
        copy := copy - {id};
      }
    }
  }

  /** Nothing of the session is left, except a mux of an outdated topology and a call without a handle. */
  ghost predicate Gone(w: World, id: SessionId, s: Session) {
    && AsSet(s.wds) !! w.leases
    && (s.handle != 0 ==> s.DataCall(id) !in w.calls)
    && (s.generation == w.generation ==> s.mux !in w.muxes)
  }

  lemma CloseIsConsistent(before: World, after: World, id: SessionId)
    requires Consistent(before) && id in before.sessions && CloseOutcome(before, after, id)
    ensures Consistent(after)
  {
  }

  /** What a registered session owns, as the calls of its close demand it. */
  lemma OwnedByOne(w: World, id: SessionId)
    requires Consistent(w) && id in w.sessions
    ensures
      var s := w.sessions[id];
      && AsSet(s.wds) <= w.leases && s.DataCall(id) in w.calls
      && forall c :: c in w.calls && c.wds.Some? && c.wds == s.wds ==> c == s.DataCall(id)
  {
  }

  lemma RecordedCloses(
    sessions: map<SessionId, Session>, issued: map<SessionId, Session>, closedOnce: set<SessionId>, nextId: SessionId, id: SessionId)
    requires Recorded(sessions, issued, closedOnce, nextId) && id in issued && id !in closedOnce
    ensures id in sessions && issued[id] == sessions[id]
    ensures Recorded(sessions - {id}, issued, closedOnce + {id}, nextId)
  {
  }

  lemma RecordedGrows(
    sessions: map<SessionId, Session>, issued: map<SessionId, Session>, closedOnce: set<SessionId>, nextId: SessionId, s: Session)
    requires Recorded(sessions, issued, closedOnce, nextId)
    ensures Recorded(sessions, issued, closedOnce, nextId + 1) && nextId + 1 !in sessions
    ensures Recorded(sessions[nextId + 1 := s], issued[nextId + 1 := s], closedOnce, nextId + 1)
  {
  }

  lemma FreshIdIsConsistent(before: World, after: World)
    requires Consistent(before) && after == before.(nextId := before.nextId + 1)
    ensures Consistent(after) && CallsApart(after) && after.leases <= after.used
    ensures forall c :: c in after.calls ==> c.id < after.nextId
  {
  }

  lemma FailedOpenIsConsistent(before: World, after: World, mux: MuxId)
    requires Consistent(before)
    requires after.sessions == before.sessions && after.leases == before.leases && after.calls == before.calls
    requires before.used <= after.used && before.nextId <= after.nextId
    requires after.muxes == before.muxes || (after.muxes == before.muxes - {mux} && !MuxInUse(before.sessions, mux))
    ensures Consistent(after)
  {
  }

  lemma OpenIsConsistent(before: World, after: World, id: SessionId, s: Session)
    requires Consistent(before) && id !in before.sessions && id == before.nextId + 1 == after.nextId
    requires s.mux != 0 && !MuxInUse(before.sessions, s.mux) && AsSet(s.wds) !! before.used
    requires after.sessions == before.sessions[id := s] && after.used == before.used + AsSet(s.wds)
    requires after.muxes == before.muxes + {s.mux}
    requires after.leases == before.leases + AsSet(s.wds) && after.calls == before.calls + {s.DataCall(id)}
    ensures Consistent(after)
  {
    forall a, b | a in after.sessions && b in after.sessions && a != b
      ensures after.sessions[a].mux != after.sessions[b].mux
      ensures AsSet(after.sessions[a].wds) !! AsSet(after.sessions[b].wds)
    {
      assert a != id ==> AsSet(before.sessions[a].wds) <= before.used;
      assert b != id ==> AsSet(before.sessions[b].wds) <= before.used;
    }
  }
}

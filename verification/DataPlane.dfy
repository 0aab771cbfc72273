/**
 Convergence of the default data plane (pkg/manager/data_plane.go): QMAP preferred, native framing as the
 fallback, a topology generation per published change, and the set of muxes residual cleanup must spare.
 */
module DataPlane {
  import opened Bytes

  type MuxId = Byte

  datatype Mode = Undeclared | Native | Qmap

  datatype Spec = Spec(mode: Mode, defaultMux: MuxId)

  datatype Snapshot = Snapshot(generation: nat, mode: Mode, iface: string, defaultMux: MuxId, degraded: bool) {
    /** A published snapshot that already is what the specification asks for. */
    predicate Satisfies(spec: Spec) {
      generation != 0 && mode == spec.mode && defaultMux == spec.defaultMux
    }
  }

  const NO_SNAPSHOT := Snapshot(0, Undeclared, "", 0, false)

  datatype Topology = Topology(master: string, muxInterfaces: map<MuxId, string>)

  /** Answers of the modem and the kernel during one convergence. */
  datatype Env = Env(
    servicesOk: bool,
    netInterface: string,
    nativeFormatOk: bool,
    qmapFormatOk: bool,
    topology: Option<Topology>,
    addedMux: Option<string>)

  /** `master` is set only once a QMAP master was discovered. */
  datatype Plane = Plane(snapshot: Snapshot, declared: Spec, master: string) {
    function Publish(mode: Mode, iface: string, mux: MuxId, degraded: bool): Snapshot {
      Snapshot(snapshot.generation + 1, mode, iface, mux, degraded)
    }

    function ToNative(env: Env, degraded: bool): Option<Snapshot> {
      if env.nativeFormatOk then Some(Publish(Native, env.netInterface, 0, degraded)) else None
    }

    /** The default mux may already exist when the topology is first discovered; otherwise it is added. */
    function ToQmap(env: Env, mux: MuxId): Option<(Snapshot, string)> {
      if !env.qmapFormatOk then None
      else if master == "" && env.topology.None? then None
      else if master == "" && mux in env.topology.value.muxInterfaces && env.topology.value.muxInterfaces[mux] != "" then
        Some((Publish(Qmap, env.topology.value.muxInterfaces[mux], mux, false), env.topology.value.master))
      else if env.addedMux.None? then None
      else
        Some((Publish(Qmap, env.addedMux.value, mux, false), if master == "" then env.topology.value.master else master))
    }

    function Converge(spec: Spec, env: Env): (Plane, Option<Snapshot>) {
      if spec.mode == Undeclared || (spec.mode == Qmap && spec.defaultMux == 0) then (this, None)
      else
        var p := this.(declared := spec);
        if snapshot.Satisfies(spec) then (p, Some(snapshot))
        else if !env.servicesOk || env.netInterface == "" then (p, None)
        else if spec.mode == Native then
          match p.ToNative(env, false)
          case None => (p, None)
          case Some(s) => (p.(snapshot := s), Some(s))
        else
          match p.ToQmap(env, spec.defaultMux)
          case Some((s, m)) => (p.(snapshot := s, master := m), Some(s))
          case None =>
            match p.ToNative(env, true)
            case None => (p, None)
            case Some(s) => (p.(snapshot := s), Some(s))
    }
  }

  class Controller {
    var snapshot: Snapshot
    var declared: Spec
    var master: string
    var sessionMuxes: map<nat, MuxId>     // mux of every registered secondary session

    ghost function State(): Plane
      reads this
    {
      Plane(snapshot, declared, master)
    }

    constructor ()
      ensures State() == UNCONVERGED && sessionMuxes == map[]
    {
      snapshot, declared, master, sessionMuxes := NO_SNAPSHOT, Spec(Undeclared, 0), "", map[];
    }

    /** `convergeDataPlaneLocked` with its two rungs inlined as the source calls them. */
    method Converge(spec: Spec, env: Env) returns (r: Option<Snapshot>)
      modifies this
      ensures (State(), r) == old(State()).Converge(spec, env)
      ensures sessionMuxes == old(sessionMuxes)
    {
      if spec.mode != Native && spec.mode != Qmap {
        return None;
      }
      if spec.mode == Qmap && spec.defaultMux == 0 {
        return None;
      }
      declared := spec;
      if snapshot.generation != 0 && snapshot.mode == spec.mode && snapshot.defaultMux == spec.defaultMux {
        return Some(snapshot);
      }
      if !env.servicesOk || env.netInterface == "" {
        return None;
      }
      if spec.mode == Native {
        r := ConvergeNative(env, false);
      } else {
        r := ConvergeQmap(spec, env);
        if r.None? {
          r := ConvergeNative(env, true);
        }
      }
      if r.Some? {
        snapshot := r.value;
      }
    }

    method ConvergeNative(env: Env, degraded: bool) returns (r: Option<Snapshot>)
      ensures r == State().ToNative(env, degraded)
    {
      if !env.nativeFormatOk {
        return None;
      }
      return Some(Snapshot(snapshot.generation + 1, Native, env.netInterface, 0, degraded));
    }

    method ConvergeQmap(spec: Spec, env: Env) returns (r: Option<Snapshot>)
      modifies this`master
      ensures
        match old(State()).ToQmap(env, spec.defaultMux)
        case None => r == None && master == old(master)
        case Some((s, m)) => r == Some(s) && master == m
    {
      if !env.qmapFormatOk {
        return None;
      }
      var next := master;
      if next == "" {
        if env.topology.None? {
          return None;
        }
        next := env.topology.value.master;
        var ifaces := env.topology.value.muxInterfaces;
        if spec.defaultMux in ifaces && ifaces[spec.defaultMux] != "" {
          master := next;
          return Some(Snapshot(snapshot.generation + 1, Qmap, ifaces[spec.defaultMux], spec.defaultMux, false));
        }
      }
      if env.addedMux.None? {
        return None;
      }
      master := next;
      return Some(Snapshot(snapshot.generation + 1, Qmap, env.addedMux.value, spec.defaultMux, false));
    }

    /** `activeMuxIDsLocked`: a set built in a loop, handed out as a list without repetition. */
    method ActiveMuxIds() returns (ids: seq<MuxId>)
      ensures forall id :: id in ids <==>
                             id != 0 && (id == snapshot.defaultMux || id == declared.defaultMux || id in sessionMuxes.Values)
      ensures forall id :: id in ids <==> id in KeepSet(State(), sessionMuxes.Values)
      ensures forall i, j :: 0 <= i < j < |ids| ==> ids[i] != ids[j]
    {
      var seen: set<MuxId> := {};
      if snapshot.defaultMux > 0 {
        seen := seen + {snapshot.defaultMux};
      }
      if declared.defaultMux > 0 {
        seen := seen + {declared.defaultMux};
      }
      seen := AddSessions(seen, sessionMuxes);
      ids := ListOf(seen);
    }
  }

  method AddSessions(base: set<MuxId>, muxes: map<nat, MuxId>) returns (seen: set<MuxId>)
    ensures seen == base + (muxes.Values - {0})
  {
    hide Visited;
    seen := base;
    var left := muxes;
    while left != map[]
      invariant left.Keys <= muxes.Keys && forall s :: s in left ==> left[s] == muxes[s]
      invariant seen == base + (Visited(muxes, left) - {0})
      decreases |left|
    {
      var s :| s in left;
      VisitOne(muxes, left, s);
      if left[s] > 0 {
        seen := seen + {left[s]};
      }
      left := left - {s};
    }
  }

  /** Values of the entries of `all` that are no longer in `left`. */
  ghost function Visited(all: map<nat, MuxId>, left: map<nat, MuxId>): (r: set<MuxId>)
    ensures left == all ==> r == {}
    ensures left == map[] ==> r == all.Values
  {
    set s | s in all && s !in left :: all[s]
  }

  lemma VisitOne(all: map<nat, MuxId>, left: map<nat, MuxId>, s: nat)
    requires s in left && s in all
    ensures Visited(all, left - {s}) == Visited(all, left) + {all[s]}
  {
    var r, t := Visited(all, left), Visited(all, left - {s});
    forall m | m in r ensures m in t {
      var x :| x in all && x !in left && all[x] == m;
      assert x !in left - {s};
    }
    assert s !in left - {s};
  }

  method ListOf(ids: set<MuxId>) returns (r: seq<MuxId>)
    ensures forall id :: id in r <==> id in ids
    ensures forall i, j :: 0 <= i < j < |r| ==> r[i] != r[j]
  {
    r := [];
    var left := ids;
    while left != {}
      invariant forall id :: id in ids <==> id in left || id in r
      invariant forall id :: id in left ==> id !in r
      invariant forall i, j :: 0 <= i < j < |r| ==> r[i] != r[j]
      decreases |left|
    {
      var id :| id in left;
      r := r + [id];
      left := left - {id};
    }
  }

  /** Published default, declared default and every registered session's mux; never the unset mux. */
  function KeepSet(p: Plane, sessions: set<MuxId>): set<MuxId> {
    ({p.snapshot.defaultMux, p.declared.defaultMux} + sessions) - {0}
  }

  // ---------------------------------------------------------------- what convergence guarantees

  /**
   A failed convergence publishes nothing. A successful one keeps a publication that satisfies the
   specification, or publishes under the next generation what was asked for, or native framing marked
   degraded when QMAP was asked for; only QMAP sets the master.
   */
  lemma ConvergencePublishes(p: Plane, spec: Spec, env: Env)
    ensures
      var (q, r) := p.Converge(spec, env);
      match r
      case None => q.snapshot == p.snapshot && q.master == p.master
      case Some(s) =>
        && q.snapshot == s && q.declared == spec
        && if p.snapshot.Satisfies(spec) then s == p.snapshot && q.master == p.master
           else
             && s.generation == p.snapshot.generation + 1
             && (s.degraded ==> spec.mode == Qmap)
             && (spec.mode == Qmap && !s.degraded ==> s.mode == Qmap && s.defaultMux == spec.defaultMux != 0)
             && (spec.mode == Native || s.degraded ==> s.mode == Native && s.defaultMux == 0 && q.master == p.master)
  {
  }

  /** The default mux has an interface already, or one can be added, on a master that is known or can be discovered. */
  predicate QmapReachable(p: Plane, mux: MuxId, env: Env) {
    && env.qmapFormatOk && (p.master != "" || env.topology.Some?)
    && (HasInterface(p, mux, env) || env.addedMux.Some?)
  }

  /** Only a discovery looks for an interface that is there already. */
  predicate HasInterface(p: Plane, mux: MuxId, env: Env) {
    && p.master == "" && env.topology.Some?
    && mux in env.topology.value.muxInterfaces && env.topology.value.muxInterfaces[mux] != ""
  }

  /** What every convergence that has something to do publishes: which interface, under which master, and when it degrades. */
  lemma LadderOutcome(p: Plane, spec: Spec, env: Env)
    requires spec.mode == Native || (spec.mode == Qmap && spec.defaultMux != 0)
    requires !(p.snapshot.generation != 0 && p.snapshot.mode == spec.mode && p.snapshot.defaultMux == spec.defaultMux)
    requires env.servicesOk && env.netInterface != ""
    ensures
      var (q, r) := p.Converge(spec, env);
      var next := p.snapshot.generation + 1;
      if spec.mode == Qmap && QmapReachable(p, spec.defaultMux, env) then
        && r == Some(q.snapshot) && q.snapshot.generation == next && q.snapshot.mode == Qmap && !q.snapshot.degraded
        && q.snapshot.defaultMux == spec.defaultMux
        && q.snapshot.iface == (if HasInterface(p, spec.defaultMux, env) then env.topology.value.muxInterfaces[spec.defaultMux] else env.addedMux.value)
        && q.master == (if p.master != "" then p.master else env.topology.value.master)
      else if env.nativeFormatOk then
        r == Some(q.snapshot) && q.snapshot == Snapshot(next, Native, env.netInterface, 0, spec.mode == Qmap) && q.master == p.master
      else r == None && q.snapshot == p.snapshot && q.master == p.master
  {
  }

  /** Generations never go back over any sequence of convergences. */
  lemma {:induction false} GenerationMonotone(p: Plane, specs: seq<Spec>, envs: seq<Env>)
    requires |specs| == |envs|
    ensures ConvergeAll(p, specs, envs).snapshot.generation >= p.snapshot.generation
    ensures ConvergeAll(p, specs, envs).snapshot.generation == p.snapshot.generation ==>
              ConvergeAll(p, specs, envs).snapshot == p.snapshot
    decreases |specs|
  {
    if specs == [] {
    } else {
      GenerationMonotone(p.Converge(specs[0], envs[0]).0, specs[1..], envs[1..]);
    }
  }

  function ConvergeAll(p: Plane, specs: seq<Spec>, envs: seq<Env>): Plane
    requires |specs| == |envs|
    decreases |specs|
  {
    if specs == [] then p else ConvergeAll(p.Converge(specs[0], envs[0]).0, specs[1..], envs[1..])
  }

  /**
   Whether repeating a convergence is a no-op, decided before the call: the plane already satisfies the
   specification, native framing is asked for without a mux, or QMAP is asked for and can be reached.
   */
  predicate Settles(p: Plane, spec: Spec, env: Env) {
    || p.snapshot.Satisfies(spec)
    || (spec.mode == Native && spec.defaultMux == 0)
    || (spec.mode == Qmap && p.ToQmap(env, spec.defaultMux).Some?)
  }

  /**
   Repeating a successful convergence changes nothing, whatever the modem and the kernel answer the second
   time, exactly when the inputs of the first call settle it. Otherwise the same answers publish again.
   */
  lemma RepeatIsNoopIff(p: Plane, spec: Spec, env: Env)
    requires p.Converge(spec, env).1.Some?
    ensures
      var (q, r) := p.Converge(spec, env);
      && (q.Converge(spec, env) == (q, r) <==> Settles(p, spec, env))
      && (Settles(p, spec, env) ==> forall other :: q.Converge(spec, other) == (q, r))
      && (!Settles(p, spec, env) ==> q.Converge(spec, env).0.snapshot.generation == q.snapshot.generation + 1)
  {
    var (q, r) := p.Converge(spec, env);
    assert r.value.Satisfies(spec) <==> Settles(p, spec, env);
    assert q.master == p.master || Settles(p, spec, env);
  }

  /** Everything answers, but the modem refuses QMAP framing when `qmap` is false. */
  function Answers(qmap: bool): Env {
    Env(true, "wwan0", true, qmap, Some(Topology("wwan0", map[])), Some("qmimux0"))
  }

  const UNCONVERGED := Plane(NO_SNAPSHOT, Spec(Undeclared, 0), "")

  /** Native framing declared with a mux publishes on every call, although every call succeeds. */
  lemma NativeWithMuxRepublishes(mux: MuxId)
    requires mux != 0
    ensures
      var (first, _) := UNCONVERGED.Converge(Spec(Native, mux), Answers(true));
      var (second, r) := first.Converge(Spec(Native, mux), Answers(true));
      first.snapshot.generation == 1 && r == Some(second.snapshot) && second.snapshot.generation == 2
  {
  }

  /** A degraded plane is converged anew on every call until QMAP works. */
  lemma DegradedPlaneRepublishes(mux: MuxId)
    requires mux != 0
    ensures
      var (first, _) := UNCONVERGED.Converge(Spec(Qmap, mux), Answers(false));
      var (second, r) := first.Converge(Spec(Qmap, mux), Answers(false));
      && first.snapshot.degraded && first.snapshot.generation == 1
      && r == Some(second.snapshot) && second.snapshot.degraded && second.snapshot.generation == 2
      && first.Converge(Spec(Qmap, mux), Answers(true)).0.snapshot == Snapshot(2, Qmap, "qmimux0", mux, false)
  {
  }
}

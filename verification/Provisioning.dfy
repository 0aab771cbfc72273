/**
 The SIM provisioning loop of pkg/manager/uim_provisioning.go. Everything the loop asks the modem is an
 answer from the environment; the loop's own behaviour is the trace of calls it makes.
 */
module Provisioning {
  import opened Bytes

  datatype Reason = CardAbsent | SimBlocked | TransportFatal | ControlUnavailable | OtherReason

  datatype Readiness = Readiness(
    ready: bool,
    reason: Reason,
    needsProvisioning: bool,
    appUnknown: bool,
    slotKnown: bool,
    activeSlot: Byte)
  {
    predicate Terminal() {
      reason != OtherReason
    }

  }

  datatype RebindOutcome = Rebound | NotSupported | RebindFailed

  /** What the environment answers during one attempt, whether or not it is asked. */
  datatype Answers = Answers(readiness: Option<Readiness>, aid: bool, rebind: RebindOutcome, sleepOk: bool)

  datatype Options = Options(defaultSlot: Byte, maxAttempts: int, backstop: int, maxActivations: int)

  /** Each option that is unset or nonsensical takes its documented default; each usable one is kept, whatever the others are. */
  function Normalize(o: Options): (r: Options)
    ensures r.defaultSlot == o.defaultSlot || (o.defaultSlot == 0 && r.defaultSlot == 1)
    ensures (o.maxAttempts > 0 && r.maxAttempts == o.maxAttempts) || (o.maxAttempts <= 0 && r.maxAttempts == 10)
    ensures (o.backstop > 0 && r.backstop == o.backstop) || (o.backstop <= 0 && r.backstop == 3)
    ensures (o.maxActivations > 0 && r.maxActivations == o.maxActivations) || (o.maxActivations <= 0 && r.maxActivations == 2)
    ensures r.defaultSlot > 0 && r.maxAttempts > 0 && r.backstop > 0 && r.maxActivations > 0
  {
    Options(
      if o.defaultSlot == 0 then 1 else o.defaultSlot,
      if o.maxAttempts <= 0 then 10 else o.maxAttempts,
      if o.backstop <= 0 then 3 else o.backstop,
      if o.maxActivations <= 0 then 2 else o.maxActivations)
  }

  /** The active slot when it is known, else the default, else slot 1. */
  function ReloadSlot(r: Readiness, defaultSlot: Byte): (slot: Byte)
    ensures slot > 0
    ensures r.slotKnown && r.activeSlot > 0 ==> slot == r.activeSlot
    ensures (!r.slotKnown || r.activeSlot == 0) && defaultSlot > 0 ==> slot == defaultSlot
    ensures (!r.slotKnown || r.activeSlot == 0) && defaultSlot == 0 ==> slot == 1
  {
    if r.slotKnown && r.activeSlot != 0 then r.activeSlot
    else if defaultSlot != 0 then defaultSlot
    else 1
  }

  // ---------------------------------------------------------------- traces

  datatype Call =
    | Query(answer: Option<Readiness>)
    | ReadAid(found: bool)
    | Rebind(slot: Byte, outcome: RebindOutcome)
    | Sleep(settle: bool, ok: bool)

  type Trace = seq<Call>

  function Queries(t: Trace): nat {
    if t == [] then 0 else Queries(t[..|t| - 1]) + if t[|t| - 1].Query? then 1 else 0
  }

  function Rebinds(t: Trace): nat {
    if t == [] then 0 else Rebinds(t[..|t| - 1]) + if t[|t| - 1].Rebind? then 1 else 0
  }

  function Sleeps(t: Trace): nat {
    if t == [] then 0 else Sleeps(t[..|t| - 1]) + if t[|t| - 1].Sleep? then 1 else 0
  }

  /** The latest successful readiness answer. */
  function LastSeen(t: Trace): Option<Readiness> {
    if t == [] then None
    else
      match t[|t| - 1]
      case Query(Some(r)) => Some(r)
      case _ => LastSeen(t[..|t| - 1])
  }

  /** Unknown observations since the last one that asked for provisioning and the last successful rebind. */
  function UnknownSince(t: Trace): nat {
    if t == [] then 0
    else
      var before := UnknownSince(t[..|t| - 1]);
      match t[|t| - 1]
      case Query(Some(r)) => if r.needsProvisioning then 0 else if r.appUnknown then before + 1 else before
      case Rebind(_, Rebound) => 0
      case _ => before
  }

  /** The observation justifies an activation: it asks for one, or the unknown state has lasted long enough. */
  ghost predicate Justifies(t: Trace, o: Options, r: Readiness) {
    && !r.ready && r.reason == OtherReason
    && (r.needsProvisioning || (r.appUnknown && UnknownSince(t) >= o.backstop))
  }

  /** And there is budget left for it. */
  ghost predicate Wants(t: Trace, o: Options, r: Readiness) {
    Justifies(t, o, r) && Rebinds(t) < o.maxActivations
  }

  /** Calls after which the loop returns: an error, a final observation, a modem that provisions by itself, an interrupted sleep. */
  predicate Ends(call: Call) {
    match call
    case Query(None) => true
    case Query(Some(r)) => r.ready || r.reason in {CardAbsent, SimBlocked, TransportFatal, ControlUnavailable}
    case ReadAid(_) => false
    case Rebind(_, outcome) => outcome == NotSupported
    case Sleep(_, ok) => !ok
  }

  /** May and must `call` follow `t`? Nothing follows an end; an activation follows exactly an observation that wants one. */
  ghost predicate Follows(t: Trace, call: Call, o: Options) {
    if t == [] then call.Query?
    else
      var last := t[|t| - 1];
      && !Ends(last)
      && match last
         case Query(Some(r)) => if Wants(t, o, r) then call.ReadAid? else call == Sleep(false, true) || call == Sleep(false, false)
         case ReadAid(found) => if found then call.Rebind? else call == Sleep(false, true) || call == Sleep(false, false)
         case Rebind(_, outcome) => call.Sleep? && call.settle == (outcome == Rebound)
         case Sleep(_, _) => call.Query?
         case Query(None) => false
  }

  /** A rebind goes to the slot of the latest observation, and each answer is the environment's for this attempt. */
  ghost predicate Answered(t: Trace, call: Call, o: Options, env: nat -> Answers) {
    match call
    case Query(answer) => answer == env(Queries(t) + 1).readiness
    case ReadAid(found) => found == env(Queries(t)).aid
    case Rebind(slot, outcome) =>
      && outcome == env(Queries(t)).rebind
      && LastSeen(t).Some? && slot == ReloadSlot(LastSeen(t).value, o.defaultSlot)
    case Sleep(_, ok) => ok == env(Queries(t)).sleepOk
  }

  ghost predicate Disciplined(t: Trace, o: Options, env: nat -> Answers) {
    t == [] ||
    (var before, call := t[..|t| - 1], t[|t| - 1];
     Disciplined(before, o, env) && Follows(before, call, o) && Answered(before, call, o, env))
  }

  lemma Extend(t: Trace, c: Call, o: Options, env: nat -> Answers)
    ensures Disciplined(t + [c], o, env) <==> Disciplined(t, o, env) && Follows(t, c, o) && Answered(t, c, o, env)
    ensures Queries(t + [c]) == Queries(t) + if c.Query? then 1 else 0
    ensures Rebinds(t + [c]) == Rebinds(t) + if c.Rebind? then 1 else 0
    ensures Sleeps(t + [c]) == Sleeps(t) + if c.Sleep? then 1 else 0
    ensures LastSeen(t + [c]) == if c.Query? && c.answer.Some? then c.answer else LastSeen(t)
    ensures UnknownSince(t + [c]) ==
            match c
            case Query(Some(r)) =>
              if r.needsProvisioning then 0 else if r.appUnknown then UnknownSince(t) + 1 else UnknownSince(t)
            case Rebind(_, Rebound) => 0
            case _ => UnknownSince(t)
  {
    assert (t + [c])[..|t|] == t;
  }

  datatype Outcome = Returned(last: Readiness) | QueryError | SleepError(last: Readiness)

  /** What a finished call reports, and that it did not give up early: it ended, or its attempts are used up. */
  ghost predicate Reports(t: Trace, o: Options, out: Outcome) {
    && t != []
    && var end := t[|t| - 1];
       && (match out
           case QueryError => end == Query(None)
           case SleepError(r) => end.Sleep? && !end.ok && LastSeen(t) == Some(r)
           case Returned(r) => LastSeen(t) == Some(r) && end != Query(None) && !(end.Sleep? && !end.ok))
       && (Ends(end) || (Queries(t) == o.maxAttempts && Exhausted(t, o)))
  }

  /** The last attempt has done all it can but sleep. */
  ghost predicate Exhausted(t: Trace, o: Options)
    requires t != []
  {
    match t[|t| - 1]
    case Query(Some(r)) => !Wants(t, o, r)
    case ReadAid(found) => !found
    case Rebind(_, _) => true
    case _ => false
  }

  /** State between two attempts. */
  ghost predicate Between(t: Trace, o: Options, env: nat -> Answers, attempt: nat, unknownStreak: nat, activations: nat) {
    && Disciplined(t, o, env)
    && Queries(t) == attempt - 1
    && Rebinds(t) == activations <= o.maxActivations
    && Sleeps(t) == (if attempt <= o.maxAttempts then attempt - 1 else o.maxAttempts - 1)
    && UnknownSince(t) == unknownStreak
    && (if attempt == 1 then t == []
        else
          && t != [] && LastSeen(t).Some?
          && if attempt <= o.maxAttempts then t[|t| - 1].Sleep? && t[|t| - 1].ok
             else Exhausted(t, o) && !Ends(t[|t| - 1]))
  }

  /** `ensureSIMProvisioned`, for every environment. */
  method EnsureProvisioned(opts: Options, env: nat -> Answers) returns (out: Outcome, trace: Trace)
    ensures
      var o := Normalize(opts);
      && Disciplined(trace, o, env)
      && Queries(trace) <= o.maxAttempts
      && Rebinds(trace) <= o.maxActivations
      && Sleeps(trace) <= o.maxAttempts - 1
      && Reports(trace, o, out)
  {
    hide Disciplined, Queries, Rebinds, Sleeps, LastSeen, UnknownSince, Normalize, ReloadSlot;
    var o := Normalize(opts);
    var attempt, unknownStreak, activations := 1, 0, 0;
    var last: Option<Readiness> := None;
    trace := [];
    EmptyTrace(o, env);
    while attempt <= o.maxAttempts
      invariant 1 <= attempt <= o.maxAttempts + 1
      invariant Between(trace, o, env, attempt, unknownStreak, activations)
      invariant attempt > 1 ==> last == LastSeen(trace)
    {
      var a := env(attempt);
      Extend(trace, Query(a.readiness), o, env);
      trace := trace + [Query(a.readiness)];
      if a.readiness.None? {
        return QueryError, trace;
      }
      last := a.readiness;
      var r := a.readiness.value;
      if r.ready || r.Terminal() {
        return Returned(r), trace;
      }

      var wantActivate := false;
      if r.needsProvisioning {
        wantActivate, unknownStreak := true, 0;
      } else if r.appUnknown {
        unknownStreak := unknownStreak + 1;
        wantActivate := unknownStreak >= o.backstop;
      }

      var settle, unsupported;
      trace, activations, settle, unsupported := Activate(trace, r, a, o, env, wantActivate, activations);
      if unsupported {
        return Returned(r), trace;
      }
      if settle {
        unknownStreak := 0;
      }

      if attempt < o.maxAttempts {
        Extend(trace, Sleep(settle, a.sleepOk), o, env);
        trace := trace + [Sleep(settle, a.sleepOk)];
        if !a.sleepOk {
          return SleepError(r), trace;
        }
      }
      attempt := attempt + 1;
    }
    return Returned(last.value), trace;
  }

  /** The loop has observed `r` and goes on. */
  ghost predicate Observed(t: Trace, o: Options, env: nat -> Answers, r: Readiness) {
    && Disciplined(t, o, env) && t != [] && t[|t| - 1] == Query(Some(r)) && !Ends(t[|t| - 1])
    && LastSeen(t) == Some(r) && Rebinds(t) <= o.maxActivations
  }

  /** What the activation block adds to the trace `t`: nothing, a failed AID read, or an AID read and a rebind. */
  ghost predicate Activated(t: Trace, t': Trace, o: Options, env: nat -> Answers, settle: bool, unsupported: bool) {
    && Disciplined(t', o, env) && t' != [] && !t'[|t'| - 1].Sleep?
    && Queries(t') == Queries(t) && Sleeps(t') == Sleeps(t) && LastSeen(t') == LastSeen(t)
    && Rebinds(t') <= o.maxActivations
    && UnknownSince(t') == (if settle then 0 else UnknownSince(t))
    && Exhausted(t', o)
    && (settle <==> t'[|t'| - 1].Rebind? && t'[|t'| - 1].outcome == Rebound)
    && (unsupported <==> Ends(t'[|t'| - 1]))
  }

  /** The activation block: read the AID, rebind if there is one, and never mind a transient failure. */
  method Activate(t: Trace, r: Readiness, a: Answers, o: Options, env: nat -> Answers, want: bool, before: nat)
    returns (trace: Trace, activations: nat, settle: bool, unsupported: bool)
    requires Observed(t, o, env, r) && a == env(Queries(t)) && (want <==> Justifies(t, o, r)) && Rebinds(t) == before
    ensures Activated(t, trace, o, env, settle, unsupported) && Rebinds(trace) == activations
  {
    hide Disciplined, Queries, Rebinds, Sleeps, LastSeen, UnknownSince, ReloadSlot, Justifies;
    trace, activations, settle, unsupported := t, before, false, false;
    if want && activations < o.maxActivations {
      Extend(trace, ReadAid(a.aid), o, env);
      trace := trace + [ReadAid(a.aid)];
      if a.aid {
        activations := activations + 1;
        var call := Rebind(ReloadSlot(r, o.defaultSlot), a.rebind);
        Extend(trace, call, o, env);
        trace := trace + [call];
        unsupported := a.rebind.NotSupported?;
        settle := a.rebind.Rebound?;
      }
    }
  }

  lemma EmptyTrace(o: Options, env: nat -> Answers)
    requires o.maxAttempts > 0 && o.maxActivations > 0
    ensures Between([], o, env, 1, 0, 0)
  {
  }

  // ---------------------------------------------------------------- what every trace of the loop shows

  lemma {:induction false} FollowsAt(t: Trace, o: Options, env: nat -> Answers, i: nat)
    requires Disciplined(t, o, env) && i < |t|
    ensures Follows(t[..i], t[i], o) && Answered(t[..i], t[i], o, env)
    decreases |t|
  {
    hide Follows, Answered;
    var before := t[..|t| - 1];
    if i == |before| {
    } else {
      FollowsAt(before, o, env, i);
      assert before[..i] == t[..i];
    }
  }

  /**
   An activation is begun after an observation if and only if the observation is neither ready nor final,
   asks for provisioning or completes the backstop of unknown ones, and budget is left; and an AID that was
   found is always used.
   */
  lemma ActivatesIff(t: Trace, o: Options, env: nat -> Answers, out: Outcome, i: nat)
    requires Disciplined(t, o, env) && Reports(t, o, out) && i < |t|
    ensures t[i].Query? && t[i].answer.Some? ==>
              var r := t[i].answer.value;
              (i + 1 < |t| && t[i + 1].ReadAid?) <==>
              && !r.ready && r.reason == OtherReason
              && (r.needsProvisioning || (r.appUnknown && UnknownSince(t[..i + 1]) >= o.backstop))
              && Rebinds(t[..i]) < o.maxActivations
    ensures t[i] == ReadAid(true) ==> i + 1 < |t| && t[i + 1].Rebind?
  {
    hide Disciplined, Queries, UnknownSince, LastSeen, Answered;
    assert t[..i + 1] == t[..i] + [t[i]] && t[..|t|] == t;
    RebindsGrow(t[..i], t[i]);
    if i + 1 < |t| {
      FollowsAt(t, o, env, i + 1);
      assert t[..i + 1][i] == t[i];
    }
  }

  lemma RebindsGrow(t: Trace, c: Call)
    ensures Rebinds(t + [c]) == Rebinds(t) + if c.Rebind? then 1 else 0
  {
    assert (t + [c])[..|t|] == t;
  }

  /** The loop stops at once: nothing follows an error, a final observation, an unsupported rebind or an interrupted sleep. */
  lemma EndIsLast(t: Trace, o: Options, env: nat -> Answers, i: nat)
    requires Disciplined(t, o, env) && i < |t| && Ends(t[i])
    ensures i == |t| - 1
  {
    hide Disciplined, Answered, Wants, Ends;
    assert t[..i + 1][i] == t[i];
    if i < |t| - 1 {
      FollowsAt(t, o, env, i + 1);
    }
  }

  /**
   Every rebind in a disciplined trace follows an observation that is neither ready nor terminal and that
   either asks for provisioning or ends a long enough run of unknown observations, and goes to that
   observation's slot.
   */
  lemma RebindIsJustified(t: Trace, o: Options, env: nat -> Answers, i: nat)
    requires Disciplined(t, o, env) && i < |t| && t[i].Rebind?
    ensures i >= 2 && t[i - 1] == ReadAid(true)
    ensures t[i - 2].Query? && t[i - 2].answer.Some? && Justifies(t[..i - 1], o, t[i - 2].answer.value)
    ensures
      var r := t[i - 2].answer.value;
      t[i].slot == if r.slotKnown && r.activeSlot > 0 then r.activeSlot else if o.defaultSlot > 0 then o.defaultSlot else 1
  {
    hide Disciplined, Queries, UnknownSince, Rebinds, Ends;
    FollowsAt(t, o, env, i);
    var before := t[..i];
    assert before[i - 1] == t[i - 1];
    FollowsAt(t, o, env, i - 1);
    assert t[..i - 1][i - 2] == t[i - 2];
    assert before[..i - 1] == t[..i - 1] && t[..i - 1][..i - 2] == t[..i - 2];
    assert LastSeen(before) == LastSeen(t[..i - 1]) == t[i - 2].answer;
  }
}

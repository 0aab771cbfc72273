/**
 `Client.SendRequest` from its first atomic addition on (pkg/qmi/client.go): identifiers are drawn from two
 shared counters by concurrent senders, and the requests then enter the transaction engine under the keys
 they drew. Proves that the identifier cycle is what keeps requests apart, over whole runs.
 */
module RequestProtocol {
  import opened Bytes
  import opened TransactionIds
  import F = Frame
  import T = Transactions

  /** A counter, where it started, and the log of its additions: which of them gave a sender its identifier. */
  datatype Counter = Counter(start: nat, value: U32, log: seq<bool>) {
    function Add(allocates: bool): Counter {
      this.(value := FetchAdd(value), log := log + [allocates])
    }
  }

  /** The addition that gave a request its identifier: its counter follows from the service. */
  datatype Claim = Claim(service: U16, turn: nat, id: nat) {
    function Key(): T.TxKey {
      TransactionIds.Key(service, id)
    }
  }

  datatype Client = Client(
    engine: T.System,
    ctl: Counter,
    data: Counter,
    retrying: map<T.Chan, U16>,     // requests whose first addition masked to zero, with their service
    claims: map<T.Chan, Claim>)     // requests that have their identifier, registered or about to be

  function Initial(ctl: U32, data: U32): Client {
    Client(T.INITIAL, Counter(ctl, ctl, []), Counter(data, data, []), map[], map[])
  }

  datatype Step =
    | Draw(ch: T.Chan, service: U16)      // the first addition
    | Redraw(ch: T.Chan)                  // the second one
    | Enter(ch: T.Chan)                   // storing the entry under the lock
    | Engine(step: T.Step)                // every other step of the engine

  function Range(service: U16): nat {
    if service == 0 then 0x100 else 0x1_0000
  }

  function CounterOf(c: Client, service: U16): Counter {
    if service == 0 then c.ctl else c.data
  }

  function Add(c: Client, service: U16, allocates: bool): Client {
    if service == 0 then c.(ctl := c.ctl.Add(allocates)) else c.(data := c.data.Add(allocates))
  }

  /** The identifier the next addition for this service leaves after masking. */
  function NextId(c: Client, service: U16): nat {
    FetchAdd(CounterOf(c, service).value) % Range(service)
  }

  function NextClaim(c: Client, service: U16): Claim {
    Claim(service, |CounterOf(c, service).log|, NextId(c, service))
  }

  /** The step of the engine that a step of the client takes, if any. */
  function EngineStep(c: Client, step: Step): Option<T.Step> {
    match step
    case Enter(ch) => if ch in c.claims then Some(T.Register(ch, c.claims[ch].Key())) else None
    case Engine(t) => Some(t)
    case _ => None
  }

  predicate Enabled(c: Client, step: Step) {
    match step
    case Draw(ch, _) => ch !in c.retrying && ch !in c.claims
    case Redraw(ch) => ch in c.retrying
    case Enter(ch) => ch in c.claims && T.Enabled(c.engine, T.Register(ch, c.claims[ch].Key()))
    case Engine(t) => !t.Register? && T.Enabled(c.engine, t)
  }

  function Apply(c: Client, step: Step): Client
    requires Enabled(c, step)
  {
    match step
    case Draw(ch, service) =>
      if NextId(c, service) == 0 then Add(c, service, false).(retrying := c.retrying[ch := service])
      else Add(c, service, true).(claims := c.claims[ch := NextClaim(c, service)])
    case Redraw(ch) =>
      var service := c.retrying[ch];
      Add(c, service, true).(retrying := c.retrying - {ch}, claims := c.claims[ch := NextClaim(c, service)])
    case Enter(ch) => c.(engine := T.Apply(c.engine, T.Register(ch, c.claims[ch].Key())))
    case Engine(t) => c.(engine := T.Apply(c.engine, t))
  }

  // ---------------------------------------------------------------- invariants

  ghost predicate CounterInv(k: Counter, m: nat) {
    && IsMaskRange(m) && IsLog(k.start, m, k.log)
    && k.value == (k.start + |k.log|) % COUNTER_RANGE
  }

  /** The claim is backed by an allocating addition of its own counter. */
  ghost predicate Backed(ctl: Counter, data: Counter, claim: Claim) {
    var k, m := if claim.service == 0 then ctl else data, Range(claim.service);
    claim.turn < |k.log| && k.log[claim.turn] && claim.id == MaskedAdd(k.start, m, claim.turn)
  }

  ghost predicate SameCounter(a: Claim, b: Claim) {
    (a.service == 0) == (b.service == 0)
  }

  ghost predicate ClaimInv(ctl: Counter, data: Counter, claims: map<T.Chan, Claim>) {
    && (forall ch :: ch in claims ==> Backed(ctl, data, claims[ch]))
    && (forall a, b :: a in claims && b in claims && a != b && SameCounter(claims[a], claims[b]) ==>
                         claims[a].turn != claims[b].turn)
  }

  /** Registered requests have claims, and are filed under the keys they claimed. */
  ghost predicate SenderInv(engine: T.System, claims: map<T.Chan, Claim>) {
    forall ch :: ch in engine.senders ==> ch in claims && engine.senders[ch].key == claims[ch].Key()
  }

  ghost predicate Inv(c: Client) {
    && T.Inv(c.engine) && CounterInv(c.ctl, 0x100) && CounterInv(c.data, 0x1_0000)
    && c.retrying.Keys !! c.claims.Keys
    && ClaimInv(c.ctl, c.data, c.claims) && SenderInv(c.engine, c.claims)
  }

  /** The next addition keeps its counter's log, and leaves what the log says it leaves. */
  lemma AddKeepsCounter(k: Counter, m: nat, allocates: bool)
    requires CounterInv(k, m) && (!allocates ==> FetchAdd(k.value) % m == 0)
    ensures CounterInv(k.Add(allocates), m)
    ensures FetchAdd(k.value) % m == MaskedAdd(k.start, m, |k.log|)
  {
    hide FetchAdd, MaskedAdd;
    FetchAddOfResidue(k.start + |k.log|);
    AddIsMasked(k.start, m, |k.log|);
    var log := k.log + [allocates];
    assert forall i :: 0 <= i < |k.log| ==> log[i] == k.log[i];
  }

  lemma AddIsMasked(start: nat, m: nat, n: nat)
    requires IsMaskRange(m)
    ensures ((start + n + 1) % COUNTER_RANGE) % m == MaskedAdd(start, m, n)
  {
    MaskAfterWrap(start + n + 1, m);
  }

  /** Both counters after an addition still back what they backed, and a claim to an allocating addition. */
  lemma AddKeepsCounters(c: Client, service: U16, allocates: bool)
    requires Inv(c) && (!allocates ==> NextId(c, service) == 0)
    ensures
      var d := Add(c, service, allocates);
      && CounterInv(d.ctl, 0x100) && CounterInv(d.data, 0x1_0000) && ClaimInv(d.ctl, d.data, c.claims)
      && (allocates ==> Backed(d.ctl, d.data, NextClaim(c, service)))
  {
    AddKeepsCounter(CounterOf(c, service), Range(service), allocates);
    hide FetchAdd, MaskedAdd, T.Inv, CounterInv, SenderInv;
  }

  lemma NextTurnIsNew(c: Client, service: U16, claim: Claim)
    requires Backed(c.ctl, c.data, claim) && SameCounter(claim, NextClaim(c, service))
    ensures claim.turn != NextClaim(c, service).turn
  {
    hide MaskedAdd, FetchAdd;
  }

  lemma OneMoreClaim(ctl: Counter, data: Counter, claims: map<T.Chan, Claim>, ch: T.Chan, claim: Claim)
    requires ClaimInv(ctl, data, claims) && ch !in claims && Backed(ctl, data, claim)
    requires forall x :: x in claims && SameCounter(claims[x], claim) ==> claims[x].turn != claim.turn
    ensures ClaimInv(ctl, data, claims[ch := claim])
  {
    hide Backed;
  }

  /** A request that claims the next addition of its counter. */
  lemma ClaimKeepsInv(c: Client, ch: T.Chan, service: U16)
    requires Inv(c) && ch !in c.claims
    ensures Inv(Add(c, service, true).(retrying := c.retrying - {ch}, claims := c.claims[ch := NextClaim(c, service)]))
  {
    hide Backed, T.Inv, CounterInv, Claim.Key, NextClaim, Counter.Add, SameCounter;
    AddKeepsCounters(c, service, true);
    var claim, d := NextClaim(c, service), Add(c, service, true);
    forall x | x in c.claims && SameCounter(c.claims[x], claim) ensures c.claims[x].turn != claim.turn {
      NextTurnIsNew(c, service, c.claims[x]);
    }
    OneMoreClaim(d.ctl, d.data, c.claims, ch, claim);
  }

  lemma RetryKeepsInv(c: Client, ch: T.Chan, service: U16)
    requires Inv(c) && ch !in c.claims && NextId(c, service) == 0
    ensures Inv(Add(c, service, false).(retrying := c.retrying[ch := service]))
  {
    hide ClaimInv, T.Inv, CounterInv, SenderInv, Counter.Add, NextId;
    AddKeepsCounters(c, service, false);
  }

  lemma EngineKeepsSenders(e: T.System, claims: map<T.Chan, Claim>, t: T.Step)
    requires SenderInv(e, claims) && T.Enabled(e, t)
    requires t.Register? ==> t.ch in claims && t.key == claims[t.ch].Key()
    ensures SenderInv(T.Apply(e, t), claims)
  {
    hide Claim.Key;
  }

  /** Requests enter under the key they claimed and keep it. */
  lemma EngineKeepsInv(c: Client, step: Step)
    requires Inv(c) && Enabled(c, step) && (step.Enter? || step.Engine?)
    ensures Inv(Apply(c, step))
  {
    hide T.Inv, T.Apply, T.Enabled, CounterInv, ClaimInv, SenderInv, Claim.Key;
    var t := EngineStep(c, step).value;
    T.StepKeepsInv(c.engine, t);
    EngineKeepsSenders(c.engine, c.claims, t);
  }

  lemma StepKeepsInv(c: Client, step: Step)
    requires Inv(c) && Enabled(c, step)
    ensures Inv(Apply(c, step))
  {
    hide Inv, NextId, NextClaim, T.Apply, T.Enabled;
    match step
    case Draw(ch, service) =>
      if NextId(c, service) == 0 {
        RetryKeepsInv(c, ch, service);
      } else {
        assert c.retrying - {ch} == c.retrying;
        ClaimKeepsInv(c, ch, service);
      }
    case Redraw(ch) =>
      assert ch !in c.claims by {
        RetryingHasNoClaim(c, ch);
      }
      ClaimKeepsInv(c, ch, c.retrying[ch]);
    case _ => EngineKeepsInv(c, step);
  }

  lemma RetryingHasNoClaim(c: Client, ch: T.Chan)
    requires Inv(c) && ch in c.retrying
    ensures ch !in c.claims
  {
  }

  // ---------------------------------------------------------------- one exchange

  /** What a request does before it waits: one addition, a second one exactly if the first masks to zero, its entry. */
  function SendSteps(c: Client, ch: T.Chan, service: U16): seq<Step> {
    [Draw(ch, service)] + (if NextId(c, service) == 0 then [Redraw(ch)] + ([Enter(ch)] + []) else [Enter(ch)] + [])
  }

  /** The client when the request has its identifier. */
  function DrawnBy(c: Client, ch: T.Chan, service: U16): Client {
    if NextId(c, service) == 0 then
      var a := Add(c, service, false);
      Add(a, service, true).(claims := c.claims[ch := NextClaim(a, service)])
    else Add(c, service, true).(claims := c.claims[ch := NextClaim(c, service)])
  }

  lemma DrawRun(c: Client, ch: T.Chan, service: U16, rest: seq<Step>)
    requires Enabled(c, Draw(ch, service))
    ensures
      var draws := if NextId(c, service) == 0 then [Redraw(ch)] + rest else rest;
      Run(c, [Draw(ch, service)] + draws) == Run(DrawnBy(c, ch, service), rest)
  {
    hide FetchAdd, Run, NextClaim, NextId, Add;
    var a := Apply(c, Draw(ch, service));
    if NextId(c, service) == 0 {
      AddKeepsRest(c, service, false);
      AddKeepsRest(Add(c, service, false), service, true);
      RetryIsClaimed(c, ch, service);
      RunCons(a, Redraw(ch), rest);
      RunCons(c, Draw(ch, service), [Redraw(ch)] + rest);
    } else {
      RunCons(c, Draw(ch, service), rest);
    }
  }

  lemma RetryIsClaimed(c: Client, ch: T.Chan, service: U16)
    requires Enabled(c, Draw(ch, service)) && NextId(c, service) == 0
    ensures
      var a := Apply(c, Draw(ch, service));
      Enabled(a, Redraw(ch)) && Apply(a, Redraw(ch)) == DrawnBy(c, ch, service)
  {
    hide FetchAdd;
    assert c.retrying[ch := service] - {ch} == c.retrying;
  }

  lemma AddKeepsRest(c: Client, service: U16, allocates: bool)
    ensures
      var d := Add(c, service, allocates);
      d.engine == c.engine && d.retrying == c.retrying && d.claims == c.claims
  {
  }

  lemma DrawnFacts(c: Client, ch: T.Chan, service: U16)
    ensures
      var d := DrawnBy(c, ch, service);
      && d.engine == c.engine && d.retrying == c.retrying && d.claims.Keys == c.claims.Keys + {ch}
      && d.claims[ch].service == service
      && d.claims[ch].id == FetchAddTimes(CounterOf(c, service).value, if NextId(c, service) == 0 then 2 else 1) % Range(service)
  {
    hide FetchAdd;
    var v := CounterOf(c, service).value;
    assert FetchAddTimes(v, 1) == FetchAdd(v) && FetchAddTimes(v, 2) == FetchAdd(FetchAdd(v));
  }

  /** The client when the request waits: its entry is in the table under the key it claimed. */
  function WaitingWith(c: Client, ch: T.Chan, claim: Claim): Client {
    c.(engine := c.engine.(table := c.engine.table[claim.Key() := ch],
                           senders := c.engine.senders[ch := T.Sender(claim.Key(), T.Waiting)]))
  }

  lemma EnterRun(c: Client, ch: T.Chan)
    requires ch in c.claims && ch !in c.engine.senders
    ensures Run(c, [Enter(ch)] + []) == Some(WaitingWith(c, ch, c.claims[ch]))
  {
    hide Run, Claim.Key;
    RunNothing(Apply(c, Enter(ch)));
    RunCons(c, Enter(ch), []);
  }

  /**
   Undisturbed, a new request ends up waiting, with its entry in the table under the identifier it drew:
   the masked value of the first addition, or of the second if that is zero.
   */
  lemma RequestReachesTable(c: Client, ch: T.Chan, service: U16)
    requires Inv(c) && Enabled(c, Draw(ch, service))
    ensures
      var d := DrawnBy(c, ch, service);
      && ch in d.claims && d.claims[ch].service == service && d.retrying == c.retrying && d.engine == c.engine
      && d.claims[ch].id == FetchAddTimes(CounterOf(c, service).value, if NextId(c, service) == 0 then 2 else 1) % Range(service)
      && Run(c, SendSteps(c, ch, service)) == Some(WaitingWith(d, ch, d.claims[ch]))
  {
    assert ch !in c.engine.senders;
    hide Inv, FetchAddTimes, Run, DrawnBy, NextId, Range, WaitingWith;
    DrawnFacts(c, ch, service);
    EnterRun(DrawnBy(c, ch, service), ch);
    DrawRun(c, ch, service, [Enter(ch)] + []);
  }

  lemma RunNothing(c: Client)
    ensures Run(c, []) == Some(c)
  {
  }

  lemma RunCons(c: Client, step: Step, rest: seq<Step>)
    requires Enabled(c, step)
    ensures Run(c, [step] + rest) == Run(Apply(c, step), rest)
  {
    hide Enabled, Apply;
    assert ([step] + rest)[1..] == rest;
  }

  /** The packet a request with this claim puts on the wire. */
  predicate Sends(claim: Claim, request: F.Packet) {
    request.service == claim.service && request.txId == claim.id
  }

  /** The response carries the service and the transaction ID that travel: one octet of the latter on the control service. */
  predicate Echoes(request: F.Packet, response: F.Packet) {
    && response.service == request.service
    && response.txId == if request.service == 0 then request.txId % 0x100 else request.txId
  }

  /** A peer that answers with the service and transaction ID it read off the wire echoes the request. */
  lemma PeerEchoes(request: F.Packet, seen: F.Packet, response: F.Packet)
    requires F.Fits(request) && F.UnmarshalPacket(F.Marshal(request)) == Ok(seen)
    requires response.service == seen.service && response.txId == seen.txId
    ensures Echoes(request, response)
  {
    hide F.Marshal, F.UnmarshalPacket, F.Fits;
    F.RoundTripIffFits(request);
  }

  /**
   An echoing response is filed under the key the request claimed, although a control identifier is cut to
   eight bits on the way.
   */
  lemma ResponseKeyMatches(c: Client, ch: T.Chan, request: F.Packet, response: F.Packet)
    requires Inv(c) && ch in c.claims && Sends(c.claims[ch], request) && Echoes(request, response)
    ensures Key(response.service, response.txId) == c.claims[ch].Key()
  {
    ClaimFacts(c, ch);
    hide Inv;
    var id := c.claims[ch].id;
    assert request.service == 0 ==> id < 0x100 && id % 0x100 == id;
  }

  /** The read loop is ready for the next packet, and the request waits for it. */
  ghost predicate Awaits(s: T.System, ch: T.Chan) {
    && s.reader.Reading? && ch in s.senders && s.senders[ch].phase == T.Waiting
    && T.Owns(s, ch) && ch !in s.inbox
  }

  function ResponseSteps(ch: T.Chan, response: F.Packet): seq<Step> {
    [Engine(T.Lookup(Key(response.service, response.txId), response.indication))]
    + (if response.indication then [] else [Engine(T.Deliver)] + ([Engine(T.Receive(ch))] + []))
  }

  function ReturningWith(c: Client, ch: T.Chan, key: T.TxKey): Client {
    c.(engine := c.engine.(senders := c.engine.senders[ch := T.Sender(key, T.Returning)]))
  }

  lemma AnswerRun(c: Client, ch: T.Chan)
    requires T.Inv(c.engine) && Awaits(c.engine, ch)
    ensures
      var key := c.engine.senders[ch].key;
      Run(c, [Engine(T.Lookup(key, false))] + ([Engine(T.Deliver)] + ([Engine(T.Receive(ch))] + []))) ==
      Some(ReturningWith(c, ch, key))
  {
    T.ResponseAnswersRequest(c.engine, ch);
    hide Run, T.Apply, T.Enabled, T.Inv;
    var lookup := Engine(T.Lookup(c.engine.senders[ch].key, false));
    var a := Apply(c, lookup);
    var b := Apply(a, Engine(T.Deliver));
    var d := Apply(b, Engine(T.Receive(ch)));
    RunNothing(d);
    RunCons(b, Engine(T.Receive(ch)), []);
    RunCons(a, Engine(T.Deliver), [Engine(T.Receive(ch))] + []);
    RunCons(c, lookup, [Engine(T.Deliver)] + ([Engine(T.Receive(ch))] + []));
  }

  lemma IndicationRun(c: Client, key: T.TxKey)
    requires c.engine.reader.Reading?
    ensures Run(c, [Engine(T.Lookup(key, true))] + []) == Some(c)
  {
    T.UnmatchedReachesNobody(c.engine, key, true);
    hide Run;
    RunNothing(c);
    RunCons(c, Engine(T.Lookup(key, true)), []);
  }

  /** The whole way back: such a response ends the wait of that request, unless it is marked as an indication. */
  lemma ResponseEndsWait(c: Client, ch: T.Chan, request: F.Packet, response: F.Packet)
    requires Inv(c) && ch in c.claims && Sends(c.claims[ch], request) && Echoes(request, response)
    requires Awaits(c.engine, ch)
    ensures Run(c, ResponseSteps(ch, response)) == Some(if response.indication then c else ReturningWith(c, ch, c.claims[ch].Key()))
  {
    hide Sends, Echoes, Run, ReturningWith, Claim.Key, Key;
    ResponseKeyMatches(c, ch, request, response);
    assert c.engine.senders[ch].key == c.claims[ch].Key();
    if response.indication {
      IndicationRun(c, c.claims[ch].Key());
    } else {
      AnswerRun(c, ch);
    }
  }

  // ---------------------------------------------------------------- the window

  /** A request's life: from the addition that gave it its identifier to the end of its completion. */
  predicate Alive(c: Client, ch: T.Chan) {
    ch in c.claims && (ch in c.engine.senders ==> c.engine.senders[ch].Live())
  }

  /** Identifiers handed out on the request's counter since its own. */
  ghost function AllocatedSince(c: Client, ch: T.Chan): nat
    requires ch in c.claims
  {
    var log := CounterOf(c, c.claims[ch].service).log;
    Allocations(log, c.claims[ch].turn + 1, |log|)
  }

  /** No living request has seen a full cycle of allocations on its counter: 255 for control, 65535 elsewhere. */
  ghost predicate InWindow(c: Client) {
    forall ch :: Alive(c, ch) ==> AllocatedSince(c, ch) < Range(c.claims[ch].service) - 1
  }

  /** Two additions of one counter with fewer than a cycle of allocations since the first left different keys. */
  lemma EarlierTurnDiffers(k: Counter, m: nat, x: Claim, y: Claim)
    requires IsMaskRange(m) && IsLog(k.start, m, k.log) && x.turn < y.turn < |k.log| && k.log[x.turn] && k.log[y.turn]
    requires x.id == MaskedAdd(k.start, m, x.turn) && y.id == MaskedAdd(k.start, m, y.turn)
    requires Allocations(k.log, x.turn + 1, |k.log|) < m - 1
    ensures x.Key() != y.Key()
  {
    hide Key, MaskedAdd, Allocations;
    LaterAllocationCounts(k.log, x.turn, y.turn);
    KeysDistinctInWindow(k.start, m, k.log, x.turn, y.turn, x.service, y.service);
  }

  /** What the invariant says of a claim and its counter. */
  lemma ClaimFacts(c: Client, ch: T.Chan)
    requires Inv(c) && ch in c.claims
    ensures
      var claim := c.claims[ch];
      var k, m := CounterOf(c, claim.service), Range(claim.service);
      && IsMaskRange(m) && IsLog(k.start, m, k.log) && claim.turn < |k.log| && k.log[claim.turn]
      && claim.id == MaskedAdd(k.start, m, claim.turn) && claim.id < m
  {
    hide T.Inv, SenderInv;
    assert Backed(c.ctl, c.data, c.claims[ch]);
  }

  /** An allocation among those since `i` makes those up to it, `i` included, at most as many. */
  lemma LaterAllocationCounts(log: seq<bool>, i: nat, j: nat)
    requires i < j < |log| && log[i] && log[j]
    ensures Allocations(log, i, j) <= Allocations(log, i + 1, |log|)
  {
    AllocationsSplit(log, i, i + 1, j);
    AllocationsSplit(log, i + 1, j, |log|);
    AllocationsSplit(log, j, j + 1, |log|);
  }

  /** Living requests never share a key, whether they are in the table yet or not. */
  lemma AliveKeysDiffer(c: Client, a: T.Chan, b: T.Chan)
    requires Inv(c) && InWindow(c) && Alive(c, a) && Alive(c, b) && a != b
    ensures c.claims[a].Key() != c.claims[b].Key()
  {
    ClaimFacts(c, a);
    ClaimFacts(c, b);
    hide T.Inv, CounterInv, IsLog, MaskedAdd, SenderInv, Backed;
    var x, y := c.claims[a], c.claims[b];
    if SameCounter(x, y) {
      hide Claim.Key;
      var k, m := CounterOf(c, x.service), Range(x.service);
      assert AllocatedSince(c, a) < m - 1 && AllocatedSince(c, b) < m - 1;
      if x.turn < y.turn {
        EarlierTurnDiffers(k, m, x, y);
      } else {
        EarlierTurnDiffers(k, m, y, x);
      }
    } else {
      hide Key;
      KeyInjective(x.service, x.id, y.service, y.id);
    }
  }

  /** In the window no step of the client takes an entry away from a request that needs it. */
  lemma NoCollisionInWindow(c: Client, step: Step)
    requires Inv(c) && InWindow(c) && Enabled(c, step) && EngineStep(c, step).Some?
    ensures !T.Collides(c.engine, EngineStep(c, step).value)
  {
    hide InWindow, Claim.Key, T.Apply;
    var t := EngineStep(c, step).value;
    if T.Collides(c.engine, t) {
      var key := if t.Register? then t.key else c.engine.senders[t.ch].key;
      var owner := c.engine.table[key];
      AliveKeysDiffer(c, t.ch, owner);
    }
  }

  // ---------------------------------------------------------------- whole runs

  function Run(c: Client, steps: seq<Step>): Option<Client>
    decreases |steps|
  {
    if steps == [] then Some(c)
    else if Enabled(c, steps[0]) then Run(Apply(c, steps[0]), steps[1..])
    else None
  }

  /** No request enters when nobody will look at the table again. */
  predicate Timely(c: Client, step: Step) {
    EngineStep(c, step).Some? ==> !T.TooLate(c.engine, EngineStep(c, step).value)
  }

  /** At every point of the schedule the window holds, and no request enters too late. */
  ghost predicate Orderly(c: Client, steps: seq<Step>)
    decreases |steps|
  {
    && InWindow(c)
    && (steps != [] && Enabled(c, steps[0]) ==> Timely(c, steps[0]) && Orderly(Apply(c, steps[0]), steps[1..]))
  }

  lemma StepKeepsAnswerable(c: Client, step: Step)
    requires Inv(c) && InWindow(c) && T.Answerable(c.engine) && Enabled(c, step) && Timely(c, step)
    ensures T.Answerable(Apply(c, step).engine)
  {
    hide InWindow, T.Answerable, T.Collides, T.TooLate, T.Apply, T.Enabled, Claim.Key;
    if EngineStep(c, step).Some? {
      NoCollisionInWindow(c, step);
      T.StepOrphansIff(c.engine, EngineStep(c, step).value);
    }
  }

  /** Fewer allocations during each request's life than one cycle keep every waiting request answerable. */
  lemma {:induction false} OrderlyRunOrphansNobody(c: Client, steps: seq<Step>)
    requires Inv(c) && T.Answerable(c.engine) && Orderly(c, steps) && Run(c, steps).Some?
    ensures Inv(Run(c, steps).value) && T.Answerable(Run(c, steps).value.engine)
    decreases |steps|
  {
    hide Inv, InWindow, Timely, Enabled, Apply, T.Answerable;
    if steps == [] {
    } else {
      StepKeepsInv(c, steps[0]);
      StepKeepsAnswerable(c, steps[0]);
      OrderlyRunOrphansNobody(Apply(c, steps[0]), steps[1..]);
    }
  }

  lemma {:induction false} RunKeepsInv(c: Client, steps: seq<Step>)
    requires Inv(c) && Run(c, steps).Some?
    ensures Inv(Run(c, steps).value)
    decreases |steps|
  {
    hide Inv, Apply, Enabled;
    if steps == [] {
    } else {
      StepKeepsInv(c, steps[0]);
      RunKeepsInv(Apply(c, steps[0]), steps[1..]);
    }
  }

  lemma InitialInv(ctl: U32, data: U32)
    ensures Inv(Initial(ctl, data)) && T.Answerable(Initial(ctl, data).engine)
  {
  }

  /**
   From any counter values, in every interleaving of all senders' additions, the read loop, read failures
   and Close: as long as no living request has seen a full cycle of allocations, live requests have
   distinct keys, and the next step takes no entry away from a request that needs it.
   */
  lemma KeysDistinctInEveryRun(ctl: U32, data: U32, steps: seq<Step>, step: Step)
    requires Run(Initial(ctl, data), steps).Some?
    ensures
      var c := Run(Initial(ctl, data), steps).value;
      InWindow(c) ==>
        && T.DistinctKeys(c.engine)
        && (Enabled(c, step) && EngineStep(c, step).Some? ==> !T.Collides(c.engine, EngineStep(c, step).value))
  {
    hide InWindow, T.Collides, Enabled, Run, Claim.Key;
    InitialInv(ctl, data);
    RunKeepsInv(Initial(ctl, data), steps);
    var c := Run(Initial(ctl, data), steps).value;
    if InWindow(c) {
      forall a, b | a in c.engine.senders && b in c.engine.senders && a != b
                    && c.engine.senders[a].Live() && c.engine.senders[b].Live()
        ensures c.engine.senders[a].key != c.engine.senders[b].key
      {
        AliveKeysDiffer(c, a, b);
      }
      if Enabled(c, step) && EngineStep(c, step).Some? {
        NoCollisionInWindow(c, step);
      }
    }
  }

  /** And the whole run: every waiting request was failed, has its answer, or owns an entry that is still looked at. */
  lemma EveryRequestAnswerable(ctl: U32, data: U32, steps: seq<Step>)
    requires Run(Initial(ctl, data), steps).Some? && Orderly(Initial(ctl, data), steps)
    ensures T.Answerable(Run(Initial(ctl, data), steps).value.engine)
  {
    hide *;
    InitialInv(ctl, data);
    OrderlyRunOrphansNobody(Initial(ctl, data), steps);
  }
}

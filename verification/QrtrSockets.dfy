/**
 Data-socket ownership in pkg/qmi/qrtr_transport_linux.go: one socket per service, allocation and release
 that run outside the lock in between, and a `Close` that races with both.
 */
module QrtrSockets {
  import opened Bytes
  import opened TransactionIds

  type Sock = nat
  type Service = nat

  // ---------------------------------------------------------------- critical sections in place

  /** Client IDs count up in eight bits and skip zero. */
  function NextCid(c: Byte): Byte {
    var next := (c + 1) % 0x100;
    if next == 0 then 1 else next
  }

  ghost predicate Injective(clients: map<Service, Sock>) {
    forall s, t :: s in clients && t in clients && clients[s] == clients[t] ==> s == t
  }

  ghost predicate Registered(clients: map<Service, Sock>, k: Sock) {
    exists service :: service in clients && clients[service] == k
  }

  function CloseOne(shut: map<Sock, nat>, k: Sock): map<Sock, nat>
    requires k in shut
  {
    shut[k := shut[k] + 1]
  }

  /** Every registered socket is closed once more. */
  ghost function CloseAll(shut: map<Sock, nat>, clients: map<Service, Sock>): map<Sock, nat> {
    map k | k in shut :: if Registered(clients, k) then shut[k] + 1 else shut[k]
  }

  lemma CloseAllStep(shut: map<Sock, nat>, clients: map<Service, Sock>, s: Service)
    requires Injective(clients) && s in clients && clients[s] in shut
    ensures CloseAll(CloseOne(shut, clients[s]), clients - {s}) == CloseAll(shut, clients)
  {
    var k, rest := clients[s], clients - {s};
    assert !Registered(rest, k) && Registered(clients, k);
    forall x | x in shut && x != k ensures Registered(rest, x) <==> Registered(clients, x) {
      if Registered(clients, x) {
        var t :| t in clients && clients[t] == x;
        assert t in rest;
      }
    }
  }

  class QrtrTransport {
    var closed: bool
    var clients: map<Service, Sock>
    var nextCid: Byte
    var shut: map<Sock, nat>     // every data socket opened, with the number of times it was closed

    ghost predicate Valid()
      reads this
    {
      && Injective(clients)
      && (forall s :: s in clients ==> clients[s] in shut)
      && (closed ==> clients == map[])
    }

    constructor ()
      ensures Valid() && !closed && clients == map[] && nextCid == 0 && shut == map[]
    {
      closed, clients, nextCid, shut := false, map[], 0, map[];
    }

    method AllocateCid() returns (cid: Byte)
      modifies this`nextCid
      ensures cid == nextCid == NextCid(old(nextCid)) && cid != 0
    {
      nextCid := (nextCid + 1) % 0x100;
      if nextCid == 0 {
        nextCid := 1;
      }
      cid := nextCid;
    }

    /** The critical section of `handleAllocateClientID`: refused once closed, else a stale socket is closed. */
    method Register(service: Service, k: Sock) returns (registered: bool)
      requires Valid() && k in shut && !Registered(clients, k)
      modifies this`clients, this`shut
      ensures Valid() && registered == !closed
      ensures clients == if registered then old(clients)[service := k] else old(clients)
      ensures shut == if registered && service in old(clients) then CloseOne(old(shut), old(clients)[service]) else old(shut)
    {
      if closed {
        return false;
      }
      if service in clients {
        shut := CloseOne(shut, clients[service]);
      }
      clients := clients[service := k];
      return true;
    }

    /** The critical section of `handleReleaseClientID`; the socket is closed after the lock is dropped. */
    method Detach(service: Service) returns (k: Option<Sock>)
      requires Valid()
      modifies this`clients
      ensures Valid() && clients == old(clients) - {service}
      ensures k == if service in old(clients) then Some(old(clients)[service]) else None
    {
      k := if service in clients then Some(clients[service]) else None;
      clients := clients - {service};
    }

    /** The critical section of `Close`. */
    method MarkClosed()
      requires Valid()
      modifies this`closed, this`clients, this`shut
      ensures Valid() && closed && clients == map[] && shut == CloseAll(old(shut), old(clients))
    {
      closed := true;
      var left := clients;
      while left != map[]
        invariant closed && Injective(left) && forall s :: s in left ==> left[s] in shut
        invariant CloseAll(shut, left) == CloseAll(old(shut), old(clients))
        decreases |left|
      {
        var service :| service in left;
        CloseAllStep(shut, left, service);
        shut := CloseOne(shut, left[service]);
        left := left - {service};
      }
      clients := map[];
      assert CloseAll(shut, left) == shut;
    }
  }

  // ---------------------------------------------------------------- client IDs

  lemma {:induction false} IdsOfResidue(c: nat, d: nat, n: nat)
    requires c % 0x100 == d % 0x100
    ensures Ids(c, 0x100, n) == Ids(d, 0x100, n)
    decreases n
  {
    if n == 0 {
    } else {
      hide Allocate;
      AllocateResidue(c, 0x100);
      AllocateResidue(d, 0x100);
      IdsOfResidue(Allocate(c, 0x100).0, Allocate(d, 0x100).0, n - 1);
    }
  }

  function Cids(c: Byte, n: nat): (r: seq<Byte>)
    ensures |r| == n
    decreases n
  {
    if n == 0 then [] else [NextCid(c)] + Cids(NextCid(c), n - 1)
  }

  lemma {:induction false} CidsAreIds(c: Byte, n: nat)
    ensures Cids(c, n) == Ids(c, 0x100, n)
    decreases n
  {
    if n == 0 {
    } else {
      AllocateResidue(c, 0x100);
      IdsOfResidue(NextCid(c), Allocate(c, 0x100).0, n - 1);
      CidsAreIds(NextCid(c), n - 1);
    }
  }

  /** Two client IDs of one transport agree exactly when whole cycles of 255 allocations separate them. */
  lemma CidsRepeatExactly(c: Byte, n: nat, i: nat, j: nat)
    requires i <= j < n
    ensures Cids(c, n)[i] == Cids(c, n)[j] <==> (j - i) % 0xFF == 0
  {
    hide Ids, Cids;
    CidsAreIds(c, n);
    IdsRepeatExactly(c, 0x100, n, i, j);
  }

  // ---------------------------------------------------------------- all writers, readers and Close

  datatype Closer = NotClosing | AwaitingReaders | Done

  datatype System = System(
    closed: bool,
    clients: map<Service, Sock>,
    held: set<Sock>,          // opened by an allocation that has not registered yet
    dropping: set<Sock>,      // refused by a closed transport, not yet closed by its allocation
    detached: set<Sock>,      // removed by a release, not yet closed by it
    shut: map<Sock, nat>,     // every socket ever opened, with the number of times it was closed
    readers: set<Sock>,       // reader goroutines counted in the wait group
    closer: Closer)

  const INITIAL := System(false, map[], {}, {}, {}, map[], {}, NotClosing)

  datatype Step =
    | Open(k: Sock)
    | SetupFails(k: Sock)
    | Register(k: Sock, service: Service)
    | Drop(k: Sock)
    | Detach(service: Service)
    | CloseDetached(k: Sock)
    | ReaderExit(k: Sock)
    | CloseMark
    | CloseDone

  predicate Enabled(s: System, step: Step) {
    match step
    case Open(k) => k !in s.shut
    case SetupFails(k) => k in s.held
    case Register(k, _) => k in s.held
    case Drop(k) => k in s.dropping
    case Detach(_) => true
    case CloseDetached(k) => k in s.detached
    case ReaderExit(k) => k in s.readers
    case CloseMark => s.closer.NotClosing?
    case CloseDone => s.closer.AwaitingReaders? && s.readers == {}
  }

  /** Closing a socket that was never opened would leave the table as it is; the invariant rules it out. */
  function ShutDown(shut: map<Sock, nat>, k: Sock): map<Sock, nat> {
    if k in shut then CloseOne(shut, k) else shut
  }

  ghost function Apply(s: System, step: Step): System
    requires Enabled(s, step)
  {
    match step
    case Open(k) => s.(held := s.held + {k}, shut := s.shut[k := 0])
    case SetupFails(k) => s.(held := s.held - {k}, shut := ShutDown(s.shut, k))
    case Register(k, service) =>
      if s.closed then s.(held := s.held - {k}, dropping := s.dropping + {k})
      else
        s.(held := s.held - {k},
           clients := s.clients[service := k],
           shut := if service in s.clients then ShutDown(s.shut, s.clients[service]) else s.shut,
           readers := s.readers + {k})
    case Drop(k) => s.(dropping := s.dropping - {k}, shut := ShutDown(s.shut, k))
    case Detach(service) =>
      if service in s.clients then
        s.(clients := s.clients - {service}, detached := s.detached + {s.clients[service]})
      else s
    case CloseDetached(k) => s.(detached := s.detached - {k}, shut := ShutDown(s.shut, k))
    case ReaderExit(k) => s.(readers := s.readers - {k})
    case CloseMark => s.(closed := true, clients := map[], shut := CloseAll(s.shut, s.clients), closer := AwaitingReaders)
    case CloseDone => s.(closer := Done)
  }

  /** In how many places a socket is: held, refused, registered, detached, or closed so many times. */
  ghost function Places(s: System, k: Sock): nat
    requires k in s.shut
  {
    (if k in s.held then 1 else 0) + (if k in s.dropping then 1 else 0) + (if Registered(s.clients, k) then 1 else 0)
    + (if k in s.detached then 1 else 0) + s.shut[k]
  }

  ghost predicate Inv(s: System) {
    && Injective(s.clients)
    && (forall k :: k in s.held || k in s.dropping || k in s.detached || k in s.readers || Registered(s.clients, k) ==> k in s.shut)
    && (forall k :: k in s.shut ==> Places(s, k) == 1)
    && (forall k :: k in s.readers ==> k !in s.held && k !in s.dropping)
    && (s.closed <==> !s.closer.NotClosing?)
    && (s.closed ==> s.clients == map[])
    && (s.closer.Done? ==> s.readers == {})
  }

  lemma StepKeepsInv(s: System, step: Step)
    requires Inv(s) && Enabled(s, step)
    ensures Inv(Apply(s, step))
  {
    match step
    case Register(k, service) => RegisterKeepsInv(s, k, service);
    case Detach(service) => DetachKeepsInv(s, service);
    case CloseMark => MarkKeepsInv(s);
    case _ => OtherKeepsInv(s, step);
  }

  lemma RegisterKeepsInv(s: System, k: Sock, service: Service)
    requires Inv(s) && k in s.held
    ensures Inv(Apply(s, Register(k, service)))
  {
    var t := Apply(s, Register(k, service));
    assert Places(s, k) == 1;
    if !s.closed {
      assert t.clients[service] == k;
      forall x | x != k ensures Registered(t.clients, x) <==> Registered(s.clients, x) && !(service in s.clients && s.clients[service] == x) {
        if Registered(s.clients, x) {
          var u :| u in s.clients && s.clients[u] == x;
          assert u != service ==> t.clients[u] == x;
        }
      }
    }
  }

  lemma DetachKeepsInv(s: System, service: Service)
    requires Inv(s)
    ensures Inv(Apply(s, Detach(service)))
  {
    var t := Apply(s, Detach(service));
    if service in s.clients {
      var k := s.clients[service];
      assert Registered(s.clients, k) && Places(s, k) == 1;
      forall x ensures Registered(t.clients, x) <==> Registered(s.clients, x) && x != k {
        if Registered(s.clients, x) && x != k {
          var u :| u in s.clients && s.clients[u] == x;
          assert t.clients[u] == x;
        }
      }
    }
  }

  lemma MarkKeepsInv(s: System)
    requires Inv(s) && Enabled(s, CloseMark)
    ensures Inv(Apply(s, CloseMark))
  {
    var t := Apply(s, CloseMark);
    forall k | k in t.shut ensures Places(t, k) == 1 {
      assert Places(s, k) == 1;
    }
  }

  lemma OtherKeepsInv(s: System, step: Step)
    requires Inv(s) && Enabled(s, step) && !step.Register? && !step.Detach? && !step.CloseMark?
    ensures Inv(Apply(s, step))
  {
    var t := Apply(s, step);
    forall k | k in t.shut ensures Places(t, k) == 1 {
      assert k in s.shut ==> Places(s, k) == 1;
    }
  }

  ghost function Run(s: System, steps: seq<Step>): Option<System>
    decreases |steps|
  {
    if steps == [] then Some(s)
    else if Enabled(s, steps[0]) then Run(Apply(s, steps[0]), steps[1..])
    else None
  }

  lemma {:induction false} RunKeepsInv(s: System, steps: seq<Step>)
    requires Inv(s) && Run(s, steps).Some?
    ensures Inv(Run(s, steps).value)
    decreases |steps|
  {
    hide Inv, Apply, Enabled;
    if steps == [] {
    } else {
      StepKeepsInv(s, steps[0]);
      RunKeepsInv(Apply(s, steps[0]), steps[1..]);
    }
  }

  /** After every schedule each socket is in exactly one place, so none leaks and none is closed twice. */
  lemma SocketsConserved(steps: seq<Step>)
    requires Run(INITIAL, steps).Some?
    ensures
      var s := Run(INITIAL, steps).value;
      forall k :: k in s.shut ==> Places(s, k) == 1 && s.shut[k] <= 1
  {
    RunKeepsInv(INITIAL, steps);
  }

  /** Once `Close` returned and no write is in flight, every socket ever opened is closed and no reader is left. */
  lemma NothingLeftOpen(steps: seq<Step>)
    requires Run(INITIAL, steps).Some?
    ensures
      var s := Run(INITIAL, steps).value;
      s.closer.Done? && s.held == {} && s.dropping == {} && s.detached == {} ==>
        s.readers == {} && forall k :: k in s.shut ==> s.shut[k] == 1
  {
    RunKeepsInv(INITIAL, steps);
    var s := Run(INITIAL, steps).value;
    forall k | k in s.shut && s.closer.Done? && s.held == {} && s.dropping == {} && s.detached == {}
      ensures s.shut[k] == 1
    {
      assert Places(s, k) == 1;
    }
  }

  /**
   The wait of `Close` is safe and ends: no reader joins the group after the mark, and every reader still
   in it reads a socket that is closed or that a release in progress is about to close.
   */
  lemma ReadersDrain(s: System, step: Step)
    requires Inv(s) && Enabled(s, step) && s.closed
    ensures Apply(s, step).closed && Apply(s, step).readers <= s.readers
    ensures forall k :: k in s.readers ==> k in s.shut && (s.shut[k] == 1 || k in s.detached)
  {
    forall k | k in s.readers ensures k in s.shut && (s.shut[k] == 1 || k in s.detached) {
      assert Places(s, k) == 1;
    }
  }

  /** An allocation on an open transport makes its socket the service's, with a reader; on a closed one it only keeps it to close it. */
  lemma AllocationTakesEffect(s: System, k: Sock, service: Service)
    requires Inv(s) && Enabled(s, Register(k, service))
    ensures
      var t := Apply(s, Register(k, service));
      if s.closed then
        t == s.(held := s.held - {k}, dropping := s.dropping + {k})
      else
        && service in t.clients && t.clients[service] == k && k in t.readers && s.readers <= t.readers
        && (forall other :: other != service ==>
              (other in s.clients <==> other in t.clients) && (other in s.clients ==> t.clients[other] == s.clients[other]))
        && (forall x :: x in s.shut ==> t.shut[x] == s.shut[x] + if service in s.clients && x == s.clients[service] then 1 else 0)
  {
    assert service in s.clients ==> Registered(s.clients, s.clients[service]);
  }

  /** A release takes exactly its own service's socket, and that socket is then closed once. */
  lemma ReleaseTakesEffect(s: System, service: Service)
    requires Inv(s) && service in s.clients
    ensures
      var t, k := Apply(s, Detach(service)), s.clients[service];
      && t.clients == s.clients - {service} && k in t.detached && t.shut == s.shut
      && Enabled(t, CloseDetached(k)) && Apply(t, CloseDetached(k)).shut == s.shut[k := 1]
  {
    var k := s.clients[service];
    assert Registered(s.clients, k) && Places(s, k) == 1;
  }

  /** The schedule neither allocates nor releases this service, nor closes the transport. */
  predicate LeavesAlone(steps: seq<Step>, service: Service) {
    forall i :: 0 <= i < |steps| ==>
                  !(steps[i].Register? && steps[i].service == service) && steps[i] != Detach(service) && !steps[i].CloseMark?
  }

  /** Over runs: a service keeps the socket of its latest allocation, and it stays open, until it is released, reallocated or closed. */
  lemma {:induction false} ServiceKeepsItsSocket(s: System, service: Service, steps: seq<Step>)
    requires Inv(s) && service in s.clients && LeavesAlone(steps, service) && Run(s, steps).Some?
    ensures
      var t := Run(s, steps).value;
      service in t.clients && t.clients[service] == s.clients[service] && t.clients[service] in t.shut && t.shut[t.clients[service]] == 0
    decreases |steps|
  {
    assert Registered(s.clients, s.clients[service]) && Places(s, s.clients[service]) == 1;
    if steps == [] {
    } else {
      StepKeepsInv(s, steps[0]);
      ServiceKeepsItsSocket(Apply(s, steps[0]), service, steps[1..]);
    }
  }

  /** The end of Close: a reader that exits leaves the group, alone, and with the group empty Close returns. */
  lemma CloseReturns(s: System, step: Step)
    requires Enabled(s, step) && (step.ReaderExit? || step.CloseDone?)
    ensures step.ReaderExit? ==> Apply(s, step) == s.(readers := s.readers - {step.k})
    ensures step.CloseDone? ==> Apply(s, step).closer.Done? && s.readers == {}
  {
  }
}

/**
 The pending-transaction table of `Client` (pkg/qmi/client.go) under every interleaving of senders, the
 read loop, a read failure and `Close`. Go panics when a channel is closed twice or sent on after it was
 closed; the model records such a panic instead of ruling it out.
 */
module Transactions {
  import opened Bytes
  import opened TransactionIds

  type Chan = nat
  type TxKey = nat

  // ---------------------------------------------------------------- the table in place

  /** Channels of the entries of `table` that are no longer in `left`. */
  ghost function Removed(table: map<TxKey, Chan>, left: map<TxKey, Chan>): (r: set<Chan>)
    ensures left == table ==> r == {}
    ensures left == map[] ==> r == table.Values
  {
    set k | k in table && k !in left :: table[k]
  }

  lemma RemoveOne(table: map<TxKey, Chan>, left: map<TxKey, Chan>, key: TxKey)
    requires key in left && key in table
    ensures Removed(table, left - {key}) == Removed(table, left) + {table[key]}
  {
    var r, t := Removed(table, left), Removed(table, left - {key});
    forall ch | ch in r ensures ch in t {
      var k :| k in table && k !in left && table[k] == ch;
      assert k !in left - {key};
    }
    assert key !in left - {key};
  }

  class TransactionTable {
    var transactions: map<TxKey, Chan>
    var closed: set<Chan>

    /** Entries hold distinct channels that are still open. */
    ghost predicate Valid()
      reads this
    {
      && (forall k :: k in transactions ==> transactions[k] !in closed)
      && (forall k, l :: k in transactions && l in transactions && transactions[k] == transactions[l] ==> k == l)
    }

    constructor ()
      ensures Valid() && transactions == map[] && closed == {}
    {
      transactions, closed := map[], {};
    }

    /** `SendRequest` stores a fresh channel, silently replacing any entry under the same key. */
    method Register(key: TxKey, ch: Chan)
      requires Valid() && ch !in closed && ch !in transactions.Values
      modifies this
      ensures Valid() && closed == old(closed) && transactions == old(transactions)[key := ch]
    {
      transactions := transactions[key := ch];
    }

    /** `completeTransaction` removes whatever entry the key names now. */
    method Complete(key: TxKey)
      requires Valid()
      modifies this
      ensures Valid() && closed == old(closed) && transactions == old(transactions) - {key}
    {
      transactions := transactions - {key};
    }

    /** `close(ch)`: closing a closed channel panics. */
    method CloseChannel(ch: Chan)
      requires ch !in closed
      modifies this`closed
      ensures closed == old(closed) + {ch}
    {
      closed := closed + {ch};
    }

    /** `failPendingTransactions`: every entry leaves the table and its channel is closed, once. */
    method FailPending()
      requires Valid()
      modifies this
      ensures Valid() && transactions == map[]
      ensures closed == old(closed) + old(transactions).Values
    {
      hide Removed;
      ghost var table := transactions;
      while transactions != map[]
        invariant Valid() && transactions.Keys <= table.Keys
        invariant forall k :: k in transactions ==> transactions[k] == table[k]
        invariant closed == old(closed) + Removed(table, transactions)
        decreases |transactions|
      {
        var key :| key in transactions;
        var ch := transactions[key];
        RemoveOne(table, transactions, key);
        transactions := transactions - {key};
        CloseChannel(ch);
      }
    }
  }

  // ---------------------------------------------------------------- all parties at once

  /** Waiting for an answer, returning with one, or gone: its deferred completion has run. */
  datatype Phase = Waiting | Returning | Gone

  datatype Sender = Sender(key: TxKey, phase: Phase) {
    predicate Live() {
      phase != Gone
    }
  }
  datatype Reader = Reading | Delivering(ch: Chan, key: TxKey) | Exited
  datatype Closer = Running | Draining | Done

  datatype System = System(
    table: map<TxKey, Chan>,
    senders: map<Chan, Sender>,
    closed: set<Chan>,
    inbox: map<Chan, TxKey>,      // buffered response per channel: the key it was received under
    reader: Reader,
    closer: Closer,
    panicked: bool)

  const INITIAL := System(map[], map[], {}, map[], Reading, Running, false)

  datatype Step =
    | Register(ch: Chan, key: TxKey)
    | Receive(ch: Chan)
    | Complete(ch: Chan)
    | Lookup(key: TxKey, indication: bool)     // a packet has arrived
    | Deliver
    | ReadFailure
    | ReaderExit
    | CloseStart
    | CloseFinish

  /** The read loop looks an entry up under the lock but sends outside it; `Close` waits for it to exit. */
  predicate Enabled(s: System, step: Step) {
    match step
    case Register(ch, _) => ch !in s.senders
    case Receive(ch) => ch in s.senders && s.senders[ch].phase == Waiting && ch in s.inbox
    case Complete(ch) => ch in s.senders && s.senders[ch].Live()
    case Lookup(_, _) => s.reader.Reading?
    case Deliver => s.reader.Delivering?
    case ReadFailure => s.reader.Reading?
    case ReaderExit => s.reader.Reading? && !s.closer.Running?
    case CloseStart => s.closer.Running?
    case CloseFinish => s.closer.Draining? && s.reader.Exited?
  }

  /** Closing every channel in the table panics if one is closed already or appears twice. */
  predicate FailPanics(s: System) {
    || (exists k :: k in s.table && s.table[k] in s.closed)
    || (exists k, l :: k in s.table && l in s.table && k != l && s.table[k] == s.table[l])
  }

  function Fail(s: System): System {
    s.(table := map[], closed := s.closed + s.table.Values, panicked := s.panicked || FailPanics(s))
  }

  function Apply(s: System, step: Step): System
    requires Enabled(s, step)
  {
    match step
    case Register(ch, key) => s.(table := s.table[key := ch], senders := s.senders[ch := Sender(key, Waiting)])
    case Receive(ch) => s.(inbox := s.inbox - {ch}, senders := s.senders[ch := s.senders[ch].(phase := Returning)])
    case Complete(ch) =>
      s.(table := s.table - {s.senders[ch].key}, senders := s.senders[ch := s.senders[ch].(phase := Gone)])
    case Lookup(key, indication) =>
      if key in s.table && !indication then s.(reader := Delivering(s.table[key], key)) else s
    case Deliver =>
      var ch := s.reader.ch;
      var t := s.(reader := Reading);
      if ch in s.closed then t.(panicked := true)
      else if ch in s.inbox then t
      else t.(inbox := s.inbox[ch := s.reader.key])
    case ReadFailure => Fail(s).(reader := Exited)
    case ReaderExit => s.(reader := Exited)
    case CloseStart => s.(closer := Draining)
    case CloseFinish => Fail(s).(closer := Done)
  }

  ghost predicate Inv(s: System) {
    && !s.panicked
    && (forall k :: k in s.table ==>
                      && s.table[k] in s.senders
                      && s.senders[s.table[k]].key == k && s.senders[s.table[k]].Live()
                      && s.table[k] !in s.closed)
    && (forall ch :: ch in s.closed ==> ch in s.senders)
    && (forall ch :: ch in s.inbox ==> ch in s.senders && s.inbox[ch] == s.senders[ch].key)
    && (s.reader.Delivering? ==>
          && s.reader.ch in s.senders
          && s.reader.key == s.senders[s.reader.ch].key
          && s.reader.ch !in s.closed)
    && (s.closer.Done? ==> s.reader.Exited?)
  }

  lemma StepKeepsInv(s: System, step: Step)
    requires Inv(s) && Enabled(s, step)
    ensures Inv(Apply(s, step))
  {
    assert forall ch :: ch in s.table.Values ==> exists k :: k in s.table && s.table[k] == ch;
  }

  function Run(s: System, steps: seq<Step>): Option<System>
    decreases |steps|
  {
    if steps == [] then Some(s)
    else if Enabled(s, steps[0]) then Run(Apply(s, steps[0]), steps[1..])
    else None
  }

  lemma {:induction false} RunKeepsInv(s: System, steps: seq<Step>)
    requires Inv(s) && Run(s, steps).Some?
    ensures Inv(Run(s, steps).value)
    decreases |steps|
  {
    hide Inv, Apply, Enabled;
    if steps == [] {
    } else {
      StepKeepsInv(s, steps[0]);
      RunKeepsInv(Apply(s, steps[0]), steps[1..]);
    }
  }

  /**
   No schedule closes a channel twice or sends on a closed one, even when keys collide; and a response
   sits only in the inbox of a request that was registered under the key it carried.
   */
  lemma ChannelSafety(steps: seq<Step>)
    requires Run(INITIAL, steps).Some?
    ensures
      var s := Run(INITIAL, steps).value;
      && !s.panicked
      && forall ch :: ch in s.inbox ==> ch in s.senders && s.inbox[ch] == s.senders[ch].key
  {
    RunKeepsInv(INITIAL, steps);
  }

  // ---------------------------------------------------------------- a response finds its request

  /**
   The path of an answer: a response under the key of a waiting request that owns its entry is put into
   that request's empty channel, the request takes it out and returns, and nobody else notices.
   */
  lemma ResponseAnswersRequest(s: System, ch: Chan)
    requires Inv(s) && s.reader.Reading? && ch in s.senders && s.senders[ch].phase == Waiting
    requires s.senders[ch].key in s.table && s.table[s.senders[ch].key] == ch && ch !in s.inbox
    ensures
      var key := s.senders[ch].key;
      && Enabled(s, Lookup(key, false))
      && var a := Apply(s, Lookup(key, false));
         && Enabled(a, Deliver)
         && var b := Apply(a, Deliver);
            && b == s.(inbox := s.inbox[ch := key])
            && Enabled(b, Receive(ch))
            && Apply(b, Receive(ch)) == s.(senders := s.senders[ch := Sender(key, Returning)])
  {
  }

  /** A response nobody waits for, and an indication whatever its key, reach no request. */
  lemma UnmatchedReachesNobody(s: System, key: TxKey, indication: bool)
    requires s.reader.Reading? && (indication || key !in s.table)
    ensures Apply(s, Lookup(key, indication)) == s
  {
  }

  /** The send that follows a lookup has not happened yet. */
  predicate BeforeDelivery(steps: seq<Step>) {
    forall i :: 0 <= i < |steps| ==> !steps[i].Deliver?
  }

  /**
   Over runs: whatever happens between the lookup and the send outside the lock, replacement, completion
   and Close included, the response reaches the request that owned the entry at the moment of the lookup.
   */
  lemma LookedUpReachesOwner(s: System, key: TxKey, steps: seq<Step>)
    requires Inv(s) && s.reader.Reading? && key in s.table && BeforeDelivery(steps)
    requires Run(Apply(s, Lookup(key, false)), steps).Some?
    ensures
      var t, owner := Run(Apply(s, Lookup(key, false)), steps).value, s.table[key];
      && Enabled(t, Deliver) && !Apply(t, Deliver).panicked
      && owner in Apply(t, Deliver).inbox && Apply(t, Deliver).inbox[owner] == key
      && owner in t.senders && t.senders[owner].key == key
      && (forall ch :: ch != owner && ch !in t.inbox ==> ch !in Apply(t, Deliver).inbox)
  {
    var a := Apply(s, Lookup(key, false));
    StepKeepsInv(s, Lookup(key, false));
    DeliveryIsPinned(a, steps);
    RunKeepsInv(a, steps);
  }

  lemma {:induction false} DeliveryIsPinned(s: System, steps: seq<Step>)
    requires s.reader.Delivering? && BeforeDelivery(steps) && Run(s, steps).Some?
    ensures Run(s, steps).value.reader == s.reader
    decreases |steps|
  {
    if steps == [] {
    } else {
      DeliveryIsPinned(Apply(s, steps[0]), steps[1..]);
    }
  }

  /** A completed request is over: its key is out of the table, and no channel was touched for it. */
  lemma CompletionEndsRequest(s: System, ch: Chan)
    requires Enabled(s, Complete(ch))
    ensures
      var t, key := Apply(s, Complete(ch)), s.senders[ch].key;
      && t.senders == s.senders[ch := Sender(key, Gone)] && key !in t.table
      && (forall k :: k in s.table && k != key ==> k in t.table && t.table[k] == s.table[k])
      && t == s.(table := t.table, senders := t.senders)
  {
  }

  // ---------------------------------------------------------------- when is every request answerable?

  /** The entry of the request's key is its own. */
  predicate Owns(s: System, ch: Chan)
    requires ch in s.senders
  {
    s.senders[ch].key in s.table && s.table[s.senders[ch].key] == ch
  }

  /** An answer is buffered or on its way into the buffer. */
  predicate Answered(s: System, ch: Chan) {
    ch in s.inbox || (s.reader.Delivering? && s.reader.ch == ch)
  }

  /** Somebody looks at the table again: the read loop, or a `Close` that has begun and will fail what is left. */
  predicate Served(s: System) {
    !s.reader.Exited? || s.closer.Draining?
  }

  /** Every waiting request was failed, has its answer, or owns an entry that somebody will look at. */
  ghost predicate Answerable(s: System) {
    forall ch :: ch in s.senders && s.senders[ch].phase == Waiting ==>
                   ch in s.closed || Answered(s, ch) || (Owns(s, ch) && Served(s))
  }

  /** The key's entry belongs to a request, other than `ch`, that still needs it. */
  predicate Needed(s: System, key: TxKey, ch: Chan) {
    && key in s.table && s.table[key] != ch && s.table[key] in s.senders
    && s.senders[s.table[key]].phase == Waiting && !Answered(s, s.table[key])
  }

  /**
   Steps that take away an entry a waiting request needs: registering over it, and completing a request
   whose own entry was replaced by it.
   */
  predicate Collides(s: System, step: Step)
    requires Enabled(s, step)
  {
    match step
    case Register(ch, key) => Needed(s, key, ch)
    case Complete(ch) => Needed(s, s.senders[ch].key, ch)
    case _ => false
  }

  /** A request registered when nobody will look at the table again. */
  predicate TooLate(s: System, step: Step) {
    step.Register? && !Served(s)
  }

  /** One step leaves a waiting request unanswerable exactly when it collides or comes too late. */
  lemma StepOrphansIff(s: System, step: Step)
    requires Inv(s) && Answerable(s) && Enabled(s, step)
    ensures !Answerable(Apply(s, step)) <==> Collides(s, step) || TooLate(s, step)
  {
    var t := Apply(s, step);
    if Collides(s, step) {
      var owner := s.table[if step.Register? then step.key else s.senders[step.ch].key];
      assert t.senders[owner].phase == Waiting && owner !in t.closed && !Answered(t, owner) && !Owns(t, owner);
    } else if TooLate(s, step) {
      assert t.senders[step.ch].phase == Waiting && step.ch !in t.closed && !Answered(t, step.ch) && !Served(t);
    } else {
      HarmlessStep(s, step);
    }
  }

  lemma HarmlessStep(s: System, step: Step)
    requires Inv(s) && Answerable(s) && Enabled(s, step) && !Collides(s, step) && !TooLate(s, step)
    ensures Answerable(Apply(s, step))
  {
    var t := Apply(s, step);
    forall ch | ch in t.senders && t.senders[ch].phase == Waiting
      ensures ch in t.closed || Answered(t, ch) || (Owns(t, ch) && Served(t))
    {
      if step.ReadFailure? || step.CloseFinish? {
        assert Owns(s, ch) ==> s.table[s.senders[ch].key] in s.table.Values;
      }
    }
  }

  /** A read failure and the end of Close leave nobody waiting for an entry: whoever has no answer yet is failed. */
  lemma FailureReachesEveryone(s: System, step: Step)
    requires Inv(s) && Answerable(s) && Enabled(s, step) && (step.ReadFailure? || step.CloseFinish?)
    ensures
      var t := Apply(s, step);
      && t.table == map[] && t.reader.Exited? && t.senders == s.senders && t.inbox == s.inbox
      && forall ch :: ch in t.senders && t.senders[ch].phase == Waiting ==> ch in t.closed || ch in t.inbox
  {
    HarmlessStep(s, step);
  }

  /** Close, undisturbed: it begins, the read loop sees it and exits, and everything left in the table is failed. */
  lemma CloseDrains(s: System)
    requires Inv(s) && s.closer.Running? && s.reader.Reading?
    ensures Enabled(s, CloseStart)
    ensures
      var a := Apply(s, CloseStart);
      && Enabled(a, ReaderExit)
      && var b := Apply(a, ReaderExit);
         && Enabled(b, CloseFinish)
         && Apply(b, CloseFinish) ==
            s.(table := map[], closed := s.closed + s.table.Values, reader := Exited, closer := Done)
  {
  }

  ghost predicate AnswerableAlong(s: System, steps: seq<Step>)
    decreases |steps|
  {
    Answerable(s) && (steps != [] && Enabled(s, steps[0]) ==> AnswerableAlong(Apply(s, steps[0]), steps[1..]))
  }

  predicate NeverOrphans(s: System, steps: seq<Step>)
    decreases |steps|
  {
    steps != [] && Enabled(s, steps[0]) ==>
      && !Collides(s, steps[0]) && !TooLate(s, steps[0])
      && NeverOrphans(Apply(s, steps[0]), steps[1..])
  }

  /** Every waiting request stays answerable throughout a schedule exactly when no step of it orphans one. */
  lemma {:induction false} AnswerableIffNeverOrphans(s: System, steps: seq<Step>)
    requires Inv(s) && Answerable(s)
    ensures AnswerableAlong(s, steps) <==> NeverOrphans(s, steps)
    decreases |steps|
  {
    hide Inv, Apply, Enabled, Answerable, Collides, TooLate;
    if steps == [] || !Enabled(s, steps[0]) {
    } else {
      StepOrphansIff(s, steps[0]);
      StepKeepsInv(s, steps[0]);
      if !Collides(s, steps[0]) && !TooLate(s, steps[0]) {
        AnswerableIffNeverOrphans(Apply(s, steps[0]), steps[1..]);
      }
    }
  }

  ghost predicate DistinctKeys(s: System) {
    forall a, b | a in s.senders && b in s.senders && s.senders[a].Live() && s.senders[b].Live() ::
      s.senders[a].key == s.senders[b].key ==> a == b
  }

  /** Only live requests under one key can collide. */
  lemma CollisionNeedsEqualKeys(s: System, step: Step)
    requires Inv(s) && Enabled(s, step) && Collides(s, step)
    ensures !DistinctKeys(s) || !DistinctKeys(Apply(s, step))
  {
    var t := Apply(s, step);
    if step.Register? {
      var owner := s.table[step.key];
      assert t.senders[owner].Live() && t.senders[step.ch].Live() && t.senders[owner].key == t.senders[step.ch].key;
    }
  }

  lemma RunCons(s: System, step: Step, rest: seq<Step>)
    requires Enabled(s, step)
    ensures Run(s, [step] + rest) == Run(Apply(s, step), rest)
  {
    hide Enabled, Apply;
    assert ([step] + rest)[1..] == rest;
  }

  /** With a collision one is orphaned: completing the replaced request removes its successor's entry. */
  lemma CollisionOrphansRequest(key: TxKey)
    ensures
      var r := Run(INITIAL, [Register(0, key)] + ([Register(1, key)] + ([Complete(0)] + [])));
      r.Some? && 1 in r.value.senders && r.value.senders[1].phase == Waiting && !Owns(r.value, 1) && !Answerable(r.value)
  {
    var a := Apply(INITIAL, Register(0, key));
    var b := Apply(a, Register(1, key));
    var c := Apply(b, Complete(0));
    assert c.senders[1].phase == Waiting && !Owns(c, 1) && 1 !in c.closed && !Answered(c, 1);
    assert Run(c, []) == Some(c);
    hide Run, Apply;
    RunCons(b, Complete(0), []);
    RunCons(a, Register(1, key), [Complete(0)] + []);
    RunCons(INITIAL, Register(0, key), [Register(1, key)] + ([Complete(0)] + []));
  }

  /** Without a collision one can be too late: a client whose reader failed and that was closed still registers. */
  lemma LateRequestIsOrphaned(key: TxKey)
    ensures
      var r := Run(INITIAL, [ReadFailure] + ([CloseStart] + ([CloseFinish] + ([Register(0, key)] + []))));
      && r.Some? && 0 in r.value.senders && r.value.senders[0].phase == Waiting && Owns(r.value, 0)
      && r.value.closer.Done? && !Answerable(r.value)
  {
    var a := Apply(INITIAL, ReadFailure);
    var b := Apply(a, CloseStart);
    var c := Apply(b, CloseFinish);
    var d := Apply(c, Register(0, key));
    assert d.senders[0].phase == Waiting && 0 !in d.closed && !Answered(d, 0) && !Served(d);
    assert Run(d, []) == Some(d);
    hide Run, Apply;
    RunCons(c, Register(0, key), []);
    RunCons(b, CloseFinish, [Register(0, key)] + []);
    RunCons(a, CloseStart, [CloseFinish] + ([Register(0, key)] + []));
    RunCons(INITIAL, ReadFailure, [CloseStart] + ([CloseFinish] + ([Register(0, key)] + [])));
  }

  /**
   After the read loop has exited no answer arrives any more: a request without one gets none in any
   schedule, and its channel is closed by nothing but the end of a `Close` still to come.
   */
  lemma {:induction false} NothingArrivesAfterReaderExit(s: System, steps: seq<Step>, ch: Chan)
    requires s.reader.Exited? && ch !in s.inbox && ch !in s.closed && Run(s, steps).Some?
    ensures
      var t := Run(s, steps).value;
      t.reader.Exited? && ch !in t.inbox && (ch in t.closed ==> !s.closer.Done? && t.closer.Done?)
    decreases |steps|
  {
    if steps == [] {
    } else {
      var next := Apply(s, steps[0]);
      if ch in next.closed {
        ReaderStaysOut(next, steps[1..], ch);
      } else {
        NothingArrivesAfterReaderExit(next, steps[1..], ch);
      }
    }
  }

  lemma {:induction false} ReaderStaysOut(s: System, steps: seq<Step>, ch: Chan)
    requires s.reader.Exited? && ch !in s.inbox && s.closer.Done? && Run(s, steps).Some?
    ensures
      var t := Run(s, steps).value;
      t.reader.Exited? && ch !in t.inbox && t.closer.Done?
    decreases |steps|
  {
    if steps == [] {
    } else {
      ReaderStaysOut(Apply(s, steps[0]), steps[1..], ch);
    }
  }
}

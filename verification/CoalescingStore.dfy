/**
 The coalescing event store of `Client` (pkg/qmi/client.go): a map of latest events plus the order in
 which their keys were first stored.
 */
module CoalescingStore {
  import opened Bytes

  type Key = string

  /** The abstract store: pending keys in first-stored order, each with its latest value. */
  type Pending<V> = seq<(Key, V)>

  ghost predicate DistinctKeys<V>(p: Pending<V>) {
    forall i, j :: 0 <= i < j < |p| ==> p[i].0 != p[j].0
  }

  ghost predicate Has<V>(p: Pending<V>, k: Key) {
    exists i :: 0 <= i < |p| && p[i].0 == k
  }

  /** Replace the value in place, or append a new key at the end. */
  function Put<V>(p: Pending<V>, k: Key, v: V): Pending<V> {
    if p == [] then [(k, v)]
    else if p[0].0 == k then [(k, v)] + p[1..]
    else [p[0]] + Put(p[1..], k, v)
  }

  class Store<V> {
    var events: map<Key, V>
    var order: seq<Key>

    /** `order` lists exactly the keys of `events`, each once. */
    ghost predicate Valid()
      reads this
    {
      && (forall i, j :: 0 <= i < j < |order| ==> order[i] != order[j])
      && (forall k :: k in order <==> k in events)
    }

    ghost function Contents(): Pending<V>
      requires Valid()
      reads this
    {
      Zip(order, events)
    }

    constructor ()
      ensures Valid() && Contents() == []
    {
      events, order := map[], [];
    }

    method StoreEvent(key: Key, event: V)
      requires Valid()
      modifies this
      ensures Valid() && Contents() == Put(old(Contents()), key, event)
    {
      ghost var before, keys := events, order;
      if key !in events {
        order := order + [key];
      }
      events := events[key := event];
      ZipPut(keys, before, key, event);
    }

    /**
     The source's loop skips keys without an event. It is correct on any store; on a valid one the first
     key always has its event and the head of the contents comes out.
     */
    method PopEvent() returns (event: Option<V>)
      modifies this
      ensures event.None? ==> order == [] && events == old(events)
      ensures event.None? <==> forall k :: k in old(order) ==> k !in old(events)
      ensures old(Valid()) ==>
                && Valid()
                && var before := old(Zip(order, events));
                   if before == [] then event == None && Contents() == []
                   else event == Some(before[0].1) && Contents() == before[1..]
    {
      hide Zip;
      ghost var before, keys, skipped := events, order, 0;
      while |order| > 0
        invariant events == before && 0 <= skipped <= |keys| && order == keys[skipped..]
        invariant forall i :: 0 <= i < skipped ==> keys[i] !in before
        decreases |order|
      {
        var key := order[0];
        order := order[1..];
        var found := if key in events then Some(events[key]) else None;
        events := events - {key};
        if found.Some? {
          assert key == keys[skipped];
          if old(Valid()) {
            assert keys[0] in old(order);
            assert skipped == 0;
            ZipTail(keys, before);
          }
          return found;
        }
        assert events == before;
        skipped := skipped + 1;
      }
      return None;
    }
  }

  ghost function Zip<V>(order: seq<Key>, events: map<Key, V>): (r: Pending<V>)
    requires forall k :: k in order ==> k in events
    ensures |r| == |order|
    ensures forall i :: 0 <= i < |r| ==> r[i] == (order[i], events[order[i]])
  {
    seq(|order|, i requires 0 <= i < |order| => (order[i], events[order[i]]))
  }

  lemma ZipTail<V>(order: seq<Key>, events: map<Key, V>)
    requires order != [] && forall x :: x in order ==> x in events
    requires forall i, j :: 0 <= i < j < |order| ==> order[i] != order[j]
    ensures forall x :: x in order[1..] <==> x in order && x != order[0]
    ensures Zip(order[1..], events - {order[0]}) == Zip(order, events)[1..]
  {
    assert forall x :: x in order[1..] ==> x in events - {order[0]};
  }

  lemma ZipPut<V>(order: seq<Key>, events: map<Key, V>, k: Key, v: V)
    requires forall x :: x in order ==> x in events
    requires forall i, j :: 0 <= i < j < |order| ==> order[i] != order[j]
    ensures Put(Zip(order, events), k, v) ==
            Zip(if k in order then order else order + [k], events[k := v])
  {
    hide Zip, Put;
    var p := Zip(order, events);
    var i := PutAt(p, k, v);
    if i < |p| {
      assert p[i := (k, v)] == Zip(order, events[k := v]);
    } else {
      assert forall x :: 0 <= x < |order| ==> order[x] == p[x].0;
      assert p + [(k, v)] == Zip(order + [k], events[k := v]);
    }
  }

  // ---------------------------------------------------------------- what a consumer observes

  datatype Event<V> = Stored(key: Key, value: V) | Popped

  function Replay<V>(history: seq<Event<V>>): Pending<V> {
    if history == [] then []
    else
      var p := Replay(history[..|history| - 1]);
      match history[|history| - 1]
      case Stored(k, v) => Put(p, k, v)
      case Popped => if p == [] then [] else p[1..]
  }

  /** Was key `k` handed to the consumer by event `i`? */
  predicate PopsKey<V>(history: seq<Event<V>>, i: nat, k: Key)
    requires i < |history|
  {
    history[i].Popped? && var p := Replay(history[..i]); p != [] && p[0].0 == k
  }

  predicate StoresKey<V>(history: seq<Event<V>>, i: nat, k: Key)
    requires i < |history|
  {
    history[i].Stored? && history[i].key == k
  }

  /** Event `f` started the current stay of key `k`: stored then, and neither pending before nor popped since. */
  ghost predicate StartsStay<V>(history: seq<Event<V>>, f: nat, k: Key) {
    && f < |history|
    && StoresKey(history, f, k)
    && !Has(Replay(history[..f]), k)
    && (forall i :: f < i < |history| ==> !PopsKey(history, i, k))
  }

  /** Event `l` is the latest store of key `k`. */
  ghost predicate LatestStore<V>(history: seq<Event<V>>, l: nat, k: Key) {
    && l < |history|
    && StoresKey(history, l, k)
    && (forall i :: l < i < |history| ==> !StoresKey(history, i, k))
  }

  /** A pending entry whose stay began at event `f` and whose value is that of the latest store, event `l`. */
  ghost predicate Entry<V>(history: seq<Event<V>>, e: (Key, V), f: nat, l: nat) {
    StartsStay(history, f, e.0) && LatestStore(history, l, e.0) && history[l].value == e.1
  }

  /** Each pending entry carries the latest value of its key, and entries are ordered by when their stay began. */
  ghost predicate Reflects<V>(history: seq<Event<V>>, p: Pending<V>, started: seq<nat>, latest: seq<nat>) {
    && DistinctKeys(p)
    && |started| == |latest| == |p|
    && (forall i :: 0 <= i < |p| ==> started[i] < |history| && Entry(history, p[i], started[i], latest[i]))
    && (forall i, j :: 0 <= i < j < |p| ==> started[i] < started[j])
  }

  /** Storing changes one entry in place or adds one at the end, and nothing else. */
  lemma {:induction false} PutAt<V>(p: Pending<V>, k: Key, v: V) returns (i: nat)
    requires DistinctKeys(p)
    ensures i <= |p|
    ensures i < |p| ==> p[i].0 == k && Put(p, k, v) == p[i := (k, v)]
    ensures i == |p| ==> !Has(p, k) && Put(p, k, v) == p + [(k, v)]
  {
    if p == [] || p[0].0 == k {
      i := 0;
    } else {
      var j := PutAt(p[1..], k, v);
      i := j + 1;
      assert p == [p[0]] + p[1..];
      forall x | 0 <= x < |p| && i == |p| ensures p[x].0 != k {
        assert x == 0 || p[x] == p[1..][x - 1];
      }
    }
  }

  /** Earlier events keep their meaning when the history grows. */
  lemma SameEarlier<V>(h: seq<Event<V>>, e: Event<V>, i: nat)
    requires i < |h|
    ensures (h + [e])[..i] == h[..i] && (h + [e])[i] == h[i]
    ensures forall k :: PopsKey(h + [e], i, k) == PopsKey(h, i, k)
    ensures forall k :: StoresKey(h + [e], i, k) == StoresKey(h, i, k)
  {
    assert (h + [e])[..i] == h[..i];
  }

  lemma StayGrows<V>(h: seq<Event<V>>, e: Event<V>, f: nat, k: Key)
    requires StartsStay(h, f, k) && !PopsKey(h + [e], |h|, k)
    ensures StartsStay(h + [e], f, k)
  {
    SameEarlier(h, e, f);
    forall i | f < i < |h + [e]| ensures !PopsKey(h + [e], i, k) {
      if i < |h| {
        SameEarlier(h, e, i);
      }
    }
  }

  lemma LatestGrows<V>(h: seq<Event<V>>, e: Event<V>, l: nat, k: Key)
    requires LatestStore(h, l, k) && !StoresKey(h + [e], |h|, k)
    ensures LatestStore(h + [e], l, k)
  {
    forall i | l < i < |h + [e]| ensures !StoresKey(h + [e], i, k) {
      if i < |h| {
        SameEarlier(h, e, i);
      }
    }
  }

  lemma NewStay<V>(h: seq<Event<V>>, k: Key, v: V)
    ensures LatestStore(h + [Stored(k, v)], |h|, k)
    ensures !Has(Replay(h), k) ==> Entry(h + [Stored(k, v)], (k, v), |h|, |h|)
  {
    hide Replay;
    assert (h + [Stored(k, v)])[..|h|] == h;
  }

  /** An entry survives an event that neither pops its key nor stores it again. */
  lemma EntryKept<V>(h: seq<Event<V>>, e: Event<V>, x: (Key, V), f: nat, l: nat)
    requires Entry(h, x, f, l) && !PopsKey(h + [e], |h|, x.0) && !StoresKey(h + [e], |h|, x.0)
    ensures Entry(h + [e], x, f, l)
  {
    hide Replay;
    StayGrows(h, e, f, x.0);
    LatestGrows(h, e, l, x.0);
    assert (h + [e])[l] == h[l];
  }

  /** Storing a pending key again keeps its stay and moves its value to the new event. */
  lemma EntryUpdated<V>(h: seq<Event<V>>, k: Key, v: V, was: V, f: nat, l: nat)
    requires Entry(h, (k, was), f, l)
    ensures Entry(h + [Stored(k, v)], (k, v), f, |h|)
  {
    hide Replay;
    StayGrows(h, Stored(k, v), f, k);
    NewStay(h, k, v);
  }

  lemma ReflectsUpdate<V>(h: seq<Event<V>>, p: Pending<V>, i: nat, v: V, started: seq<nat>, latest: seq<nat>)
    requires Reflects(h, p, started, latest) && i < |p|
    ensures Reflects(h + [Stored(p[i].0, v)], p[i := (p[i].0, v)], started, latest[i := |h|])
  {
    hide Entry, Replay;
    var k := p[i].0;
    EntryUpdated(h, k, v, p[i].1, started[i], latest[i]);
    forall j | 0 <= j < |p| && j != i ensures Entry(h + [Stored(k, v)], p[j], started[j], latest[j]) {
      assert j < i ==> p[j].0 != p[i].0;
      assert i < j ==> p[i].0 != p[j].0;
      EntryKept(h, Stored(k, v), p[j], started[j], latest[j]);
    }
  }

  lemma DistinctAppend<V>(p: Pending<V>, k: Key, v: V)
    requires DistinctKeys(p) && !Has(p, k)
    ensures DistinctKeys(p + [(k, v)])
  {
    var p' := p + [(k, v)];
    forall i, j | 0 <= i < j < |p'| ensures p'[i].0 != p'[j].0 {
      assert p'[i] == p[i];
    }
  }

  lemma ReflectsAppend<V>(h: seq<Event<V>>, p: Pending<V>, k: Key, v: V, started: seq<nat>, latest: seq<nat>)
    requires Reflects(h, p, started, latest) && !Has(p, k) && Replay(h) == p
    ensures Reflects(h + [Stored(k, v)], p + [(k, v)], started + [|h|], latest + [|h|])
  {
    hide Entry, Replay;
    var h', p', s', l' := h + [Stored(k, v)], p + [(k, v)], started + [|h|], latest + [|h|];
    NewStay(h, k, v);
    forall j | 0 <= j < |p'| ensures s'[j] < |h'| && Entry(h', p'[j], s'[j], l'[j]) {
      if j < |p| {
        EntryKept(h, Stored(k, v), p[j], started[j], latest[j]);
      }
    }
    DistinctAppend(p, k, v);
  }

  lemma ReflectsStored<V>(h: seq<Event<V>>, p: Pending<V>, k: Key, v: V, started: seq<nat>, latest: seq<nat>)
    returns (started': seq<nat>, latest': seq<nat>)
    requires Reflects(h, p, started, latest) && Replay(h) == p
    ensures Reflects(h + [Stored(k, v)], Put(p, k, v), started', latest')
  {
    hide Entry, Put, Has, Replay;
    var i := PutAt(p, k, v);
    if i < |p| {
      started', latest' := started, latest[i := |h|];
      ReflectsUpdate(h, p, i, v, started, latest);
    } else {
      started', latest' := started + [|h|], latest + [|h|];
      ReflectsAppend(h, p, k, v, started, latest);
    }
  }

  lemma ReflectsPopped<V>(h: seq<Event<V>>, p: Pending<V>, started: seq<nat>, latest: seq<nat>)
    returns (started': seq<nat>, latest': seq<nat>)
    requires Reflects(h, p, started, latest) && Replay(h) == p
    ensures Reflects(h + [Popped], if p == [] then [] else p[1..], started', latest')
  {
    hide Entry, Replay;
    if p == [] {
      return [], [];
    }
    started', latest' := started[1..], latest[1..];
    assert (h + [Popped])[..|h|] == h;
    forall j | 1 <= j < |p| ensures Entry(h + [Popped], p[j], started[j], latest[j]) {
      EntryKept(h, Popped, p[j], started[j], latest[j]);
    }
  }

  /**
   After every history the store holds, per key, the latest value, in the order in which the keys were
   first stored since the consumer last took them.
   */
  lemma {:induction false} LatestValueFirstStoredOrder<V>(h: seq<Event<V>>) returns (started: seq<nat>, latest: seq<nat>)
    ensures Reflects(h, Replay(h), started, latest)
    decreases |h|
  {
    if h == [] {
      started, latest := [], [];
    } else {
      hide Reflects;
      var before, e := h[..|h| - 1], h[|h| - 1];
      started, latest := LatestValueFirstStoredOrder(before);
      assert h == before + [e];
      match e {
        case Stored(k, v) => started, latest := ReflectsStored(before, Replay(before), k, v, started, latest);
        case Popped => started, latest := ReflectsPopped(before, Replay(before), started, latest);
      }
    }
  }

  /** No key is lost: what was stored and not taken since is still pending. */
  lemma {:induction false} NoKeyLost<V>(h: seq<Event<V>>, f: nat, k: Key)
    requires f < |h| && StoresKey(h, f, k)
    requires forall i :: f < i < |h| ==> !PopsKey(h, i, k)
    ensures Has(Replay(h), k)
    decreases |h|
  {
    var before, e := h[..|h| - 1], h[|h| - 1];
    assert h == before + [e];
    var started, latest := LatestValueFirstStoredOrder(before);
    var p := Replay(before);
    if f < |before| {
      forall i | f < i < |before| ensures !PopsKey(before, i, k) {
        SameEarlier(before, e, i);
      }
      NoKeyLost(before, f, k);
      var i :| 0 <= i < |p| && p[i].0 == k;
      if e.Popped? {
        assert !PopsKey(h, |before|, k);
        assert p[0].0 != k && p[1..][i - 1].0 == k;
      } else {
        var at := PutAt(p, e.key, e.value);
        assert Put(p, e.key, e.value)[i].0 == k;
      }
    } else {
      var at := PutAt(p, k, e.value);
      assert Put(p, k, e.value)[at].0 == k;
    }
  }
}

/**
 Transaction identifiers of `Client.SendRequest` (pkg/qmi/client.go): a 32-bit atomic counter masked to
 16 bits, or to 8 bits on the control service, that steps once more when the mask leaves zero.
 */
module TransactionIds {

  const COUNTER_RANGE := 0x1_0000_0000

  type U32 = x: int | 0 <= x < COUNTER_RANGE

  /** Number of values the mask leaves: 0x100 on the control service, 0x1_0000 elsewhere. */
  predicate IsMaskRange(m: nat) {
    m == 0x100 || m == 0x1_0000
  }

  /** `atomic.AddUint32(&c, 1)`. */
  function FetchAdd(c: nat): U32 {
    (c + 1) % COUNTER_RANGE
  }

  /** New counter and identifier of one allocation that nobody interferes with. */
  function Allocate(c: nat, m: nat): (nat, nat)
    requires IsMaskRange(m)
  {
    var once := FetchAdd(c);
    if once % m != 0 then (once, once % m)
    else
      var twice := FetchAdd(once);
      (twice, twice % m)
  }

  /** The identifiers of `n` consecutive allocations starting at counter `c`. */
  function Ids(c: nat, m: nat, n: nat): (r: seq<nat>)
    requires IsMaskRange(m)
    ensures |r| == n
    decreases n
  {
    if n == 0 then [] else [Allocate(c, m).1] + Ids(Allocate(c, m).0, m, n - 1)
  }

  // ---------------------------------------------------------------- residues

  lemma ResidueUnique(v: nat, p: nat, q: int, r: nat)
    requires v == p * q + r && r < p
    ensures v % p == r
  {
    var k := v / p - q;
    assert p * k == r - v % p;
    assert k >= 1 ==> p * k >= p;
    assert k <= -1 ==> p * k + p <= 0;
  }

  lemma ResidueOfMultiplePlus(q: nat, r: nat, p: nat)
    requires p > 0
    ensures (p * q + r) % p == r % p
  {
    assert p * q + r == p * (q + r / p) + r % p;
    ResidueUnique(p * q + r, p, q + r / p, r % p);
  }

  lemma SuccessorResidue(x: nat, p: nat)
    requires p > 1
    ensures (x + 1) % p == if x % p + 1 < p then x % p + 1 else 0
  {
    if x % p + 1 < p {
      ResidueUnique(x + 1, p, x / p, x % p + 1);
    } else {
      assert x + 1 == p * (x / p + 1);
      ResidueUnique(x + 1, p, x / p + 1, 0);
    }
  }

  lemma SameResidue(x: nat, y: nat, p: nat)
    requires x <= y && p > 0
    ensures x % p == y % p <==> (y - x) % p == 0
  {
    if x % p == y % p {
      assert y - x == p * (y / p - x / p);
      ResidueUnique(y - x, p, y / p - x / p, 0);
    }
    if (y - x) % p == 0 {
      assert y == p * ((y - x) / p) + x;
      ResidueOfMultiplePlus((y - x) / p, x, p);
    }
  }

  /** The counter wraps at a multiple of the mask range, so only its residue matters. */
  lemma MaskAfterWrap(x: nat, m: nat)
    requires IsMaskRange(m)
    ensures (x % COUNTER_RANGE) % m == x % m
  {
    var q := x / COUNTER_RANGE;
    var k := if m == 0x100 then 0x100_0000 * q else 0x1_0000 * q;
    assert x == m * k + x % COUNTER_RANGE;
    ResidueOfMultiplePlus(k, x % COUNTER_RANGE, m);
  }

  lemma MaskSuccessor(x: nat, m: nat)
    requires IsMaskRange(m)
    ensures FetchAdd(x) % m == if x % m + 1 < m then x % m + 1 else 0
  {
    MaskAfterWrap(x + 1, m);
    SuccessorResidue(x, m);
  }

  lemma AllocateResidue(c: nat, m: nat)
    requires IsMaskRange(m)
    ensures Allocate(c, m).1 == if c % m + 1 < m then c % m + 1 else 1
    ensures Allocate(c, m).0 % m == Allocate(c, m).1
    ensures 0 < Allocate(c, m).1 < m
  {
    hide FetchAdd;
    MaskSuccessor(c, m);
    MaskSuccessor(FetchAdd(c), m);
  }

  /** Identifiers walk the nonzero values in a cycle of length `m - 1`. */
  lemma {:induction false} IdsCycle(c: nat, m: nat, n: nat, k: nat)
    requires IsMaskRange(m) && k < n
    ensures Ids(c, m, n)[0] == Allocate(c, m).1
    ensures 0 < Ids(c, m, n)[0] < m && 0 < Ids(c, m, n)[k] < m
    ensures Ids(c, m, n)[k] == (Ids(c, m, n)[0] - 1 + k) % (m - 1) + 1
    decreases n
  {
    hide Allocate;
    AllocateResidue(c, m);
    if k == 0 {
      CycleStart(Allocate(c, m).1, m);
    } else {
      var next := Allocate(c, m).0;
      assert Ids(c, m, n)[k] == Ids(next, m, n - 1)[k - 1];
      IdsCycle(next, m, n - 1, k - 1);
      hide Ids;
      AllocateResidue(next, m);
      CycleStep(Allocate(c, m).1 - 1, k, m - 1);
    }
  }

  lemma CycleStart(id: nat, m: nat)
    requires 0 < id < m
    ensures (id - 1) % (m - 1) + 1 == id
  {
    ResidueUnique(id - 1, m - 1, 0, id - 1);
  }

  lemma CycleStep(x: nat, k: nat, p: nat)
    requires x < p && k > 0
    ensures ((if x + 1 < p then x + 1 else 0) + (k - 1)) % p == (x + k) % p
  {
    if x + 1 == p {
      ResidueOfMultiplePlus(1, k - 1, p);
    }
  }

  /** Every identifier is nonzero, and two of them agree exactly when whole cycles separate them. */
  lemma IdsRepeatExactly(c: nat, m: nat, n: nat, i: nat, j: nat)
    requires IsMaskRange(m) && i <= j < n
    ensures Ids(c, m, n)[i] > 0
    ensures Ids(c, m, n)[i] == Ids(c, m, n)[j] <==> (j - i) % (m - 1) == 0
  {
    hide Ids;
    IdsCycle(c, m, n, i);
    IdsCycle(c, m, n, j);
    var x := Ids(c, m, n)[0] - 1;
    SameResidue(x + i, x + j, m - 1);
  }

  // ---------------------------------------------------------------- table keys

  function Key(service: nat, txId: nat): nat {
    service * 0x1_0000 + txId
  }

  lemma KeyInjective(s: nat, x: nat, t: nat, y: nat)
    requires x < 0x1_0000 && y < 0x1_0000
    ensures Key(s, x) == Key(t, y) <==> s == t && x == y
  {
  }

  // ---------------------------------------------------------------- concurrent senders

  function FetchAddTimes(c: U32, k: nat): U32 {
    if k == 0 then c else FetchAdd(FetchAddTimes(c, k - 1))
  }

  /** One addition to a counter that has seen `x` additions since zero. */
  lemma FetchAddOfResidue(x: nat)
    ensures FetchAdd(x % COUNTER_RANGE) == (x + 1) % COUNTER_RANGE
  {
    ResidueOfMultiplePlus(x / COUNTER_RANGE, x % COUNTER_RANGE + 1, COUNTER_RANGE);
  }

  lemma {:induction false} FetchAddTimesClosed(c: U32, k: nat)
    ensures FetchAddTimes(c, k) == (c + k) % COUNTER_RANGE
  {
    if k == 0 {
    } else {
      hide FetchAdd;
      FetchAddTimesClosed(c, k - 1);
      FetchAddOfResidue(c + k - 1);
    }
  }

  /**
   The two additions of one allocation are separate atomic steps. With `k` additions by other senders
   between them the retry yields `k + 1` modulo the range: zero, the reserved value, exactly when `k + 1`
   is a multiple of it.
   */
  lemma RetryYields(first: U32, m: nat, k: nat)
    requires IsMaskRange(m) && first % m == 0
    ensures FetchAddTimes(first, k + 1) % m == (k + 1) % m
  {
    hide FetchAddTimes;
    FetchAddTimesClosed(first, k + 1);
    MaskAfterWrap(first + k + 1, m);
    assert first + k + 1 == m * (first / m) + (k + 1);
    ResidueOfMultiplePlus(first / m, k + 1, m);
  }

  class TxCounters {
    var lastTxId: U32
    var ctlTxId: U32

    /**
     The allocation at the top of `SendRequest`. Between its two atomic additions, if it needs the second,
     other senders make `others` additions to the same counter. The identifier is nonzero unless they
     bring the counter to the next multiple of the range.
     */
    method Next(control: bool, others: nat) returns (id: nat)
      modifies this
      ensures
        var m := if control then 0x100 else 0x1_0000;
        var first := FetchAdd(if control then old(ctlTxId) else old(lastTxId));
        && (if control then lastTxId == old(lastTxId) else ctlTxId == old(ctlTxId))
        && (if control then ctlTxId else lastTxId) == (if first % m != 0 then first else FetchAddTimes(first, others + 1))
        && id == (if first % m != 0 then first else others + 1) % m
        && (id == 0 <==> first % m == 0 && (others + 1) % m == 0)
    {
      hide FetchAdd;
      if control {
        ctlTxId := FetchAdd(ctlTxId);
        id := ctlTxId % 0x100;
        if id == 0 {
          RetryYields(ctlTxId, 0x100, others);
          ctlTxId := FetchAddTimes(ctlTxId, others);
          ctlTxId := FetchAdd(ctlTxId);
          id := ctlTxId % 0x100;
        }
      } else {
        lastTxId := FetchAdd(lastTxId);
        id := lastTxId % 0x1_0000;
        if id == 0 {
          RetryYields(lastTxId, 0x1_0000, others);
          lastTxId := FetchAddTimes(lastTxId, others);
          lastTxId := FetchAdd(lastTxId);
          id := lastTxId % 0x1_0000;
        }
      }
    }
  }

  /** The failing interleaving: a control sender overtaken by 255 others gets the identifier zero. */
  lemma OvertakenRetryIsZero()
    ensures FetchAddTimes(0x100, 0xFF + 1) % 0x100 == 0
  {
    RetryYields(0x100, 0x100, 0xFF);
  }

  // ---------------------------------------------------------------- every interleaving of the additions

  /** What addition number `i` to a counter that began at `start` leaves after masking. */
  function MaskedAdd(start: nat, m: nat, i: nat): nat
    requires m > 0
  {
    (start + i + 1) % m
  }

  /**
   A log of all additions to one counter, by all senders: did addition `i` give its sender its identifier?
   One that did not is the first addition of an allocation that must retry.
   */
  ghost predicate IsLog(start: nat, m: nat, fin: seq<bool>) {
    m > 0 && forall i :: 0 <= i < |fin| && !fin[i] ==> MaskedAdd(start, m, i) == 0
  }

  /** Identifiers handed out by additions `i` to `j`, the latter excluded. */
  ghost function Allocations(fin: seq<bool>, i: nat, j: nat): nat
    requires j <= |fin|
    decreases j
  {
    if j <= i then 0 else Allocations(fin, i, j - 1) + if fin[j - 1] then 1 else 0
  }

  lemma {:induction false} AllocationsSplit(fin: seq<bool>, i: nat, k: nat, j: nat)
    requires i <= k <= j <= |fin|
    ensures Allocations(fin, i, j) == Allocations(fin, i, k) + Allocations(fin, k, j)
    decreases j
  {
    if j == k {
    } else {
      AllocationsSplit(fin, i, k, j - 1);
    }
  }

  /** Two additions leave the same value exactly when their distance is a multiple of the range. */
  lemma SameMaskedAdd(start: nat, m: nat, i: nat, j: nat)
    requires m > 0 && i <= j
    ensures MaskedAdd(start, m, i) == MaskedAdd(start, m, j) <==> (j - i) % m == 0
  {
    SameResidue(start + i + 1, start + j + 1, m);
  }

  lemma RetriesAreARangeApart(start: nat, m: nat, fin: seq<bool>, x: nat, y: nat)
    requires IsLog(start, m, fin) && x < y < |fin| && y - x < m && !fin[y]
    ensures fin[x]
  {
    hide MaskedAdd;
    SameMaskedAdd(start, m, x, y);
    ResidueUnique(y - x, m, 0, y - x);
  }

  /** Within one range of additions at most one masks to zero, so at most one fails to allocate. */
  lemma {:induction false} OneRetryPerRange(start: nat, m: nat, fin: seq<bool>, i: nat, n: nat)
    requires IsLog(start, m, fin) && n <= m && i + n <= |fin|
    ensures Allocations(fin, i, i + n) + 1 >= n
    ensures (forall x :: i <= x < i + n ==> fin[x]) ==> Allocations(fin, i, i + n) == n
    decreases n
  {
    if n == 0 {
    } else {
      OneRetryPerRange(start, m, fin, i, n - 1);
      hide IsLog;
      var last := i + n - 1;
      if !fin[last] {
        forall x | i <= x < last ensures fin[x] {
          RetriesAreARangeApart(start, m, fin, x, last);
        }
      }
    }
  }

  /**
   However the additions of concurrent senders interleave, retries overtaken or not: two allocations on one
   counter that got the same identifier have a whole cycle of allocations, the first included, between them.
   */
  lemma EqualIdsAreACycleApart(start: nat, m: nat, fin: seq<bool>, i: nat, j: nat)
    requires IsLog(start, m, fin) && i < j < |fin| && fin[i] && fin[j]
    requires MaskedAdd(start, m, i) == MaskedAdd(start, m, j)
    ensures Allocations(fin, i, j) >= m - 1
  {
    hide MaskedAdd;
    SameMaskedAdd(start, m, i, j);
    if j - i < m {
      ResidueUnique(j - i, m, 0, j - i);
    }
    OneRetryPerRange(start, m, fin, i, m);
    AllocationsSplit(fin, i, i + m, j);
  }

  /** Fewer than a cycle of allocations apart, two requests never share a table key, whatever services they address. */
  lemma KeysDistinctInWindow(start: nat, m: nat, fin: seq<bool>, i: nat, j: nat, s: nat, t: nat)
    requires IsMaskRange(m) && IsLog(start, m, fin) && i < j < |fin| && fin[i] && fin[j]
    requires Allocations(fin, i, j) < m - 1
    ensures Key(s, MaskedAdd(start, m, i)) != Key(t, MaskedAdd(start, m, j))
  {
    hide Key;
    KeyInjective(s, MaskedAdd(start, m, i), t, MaskedAdd(start, m, j));
    if MaskedAdd(start, m, i) == MaskedAdd(start, m, j) {
      EqualIdsAreACycleApart(start, m, fin, i, j);
    }
  }

  /** A log in which an allocation retries exactly when its first addition masks to zero. */
  ghost function EagerLog(start: nat, m: nat, n: nat): (fin: seq<bool>)
    requires m > 0
    ensures |fin| == n && IsLog(start, m, fin)
    ensures forall i :: 0 <= i < n ==> (fin[i] <==> MaskedAdd(start, m, i) != 0)
  {
    seq(n, i requires 0 <= i < n => MaskedAdd(start, m, i) != 0)
  }

  lemma {:induction false} RetryIsNoAllocation(fin: seq<bool>, i: nat, z: nat, j: nat)
    requires i <= z < j <= |fin| && !fin[z]
    ensures Allocations(fin, i, j) < j - i
    decreases j
  {
    if j == z + 1 {
      AllocationsBounded(fin, i, z);
    } else {
      RetryIsNoAllocation(fin, i, z, j - 1);
    }
  }

  lemma {:induction false} AllocationsBounded(fin: seq<bool>, i: nat, j: nat)
    requires i <= j <= |fin|
    ensures Allocations(fin, i, j) <= j - i
    decreases j
  {
    if i == j {
    } else {
      AllocationsBounded(fin, i, j - 1);
    }
  }

  lemma NextZero(start: nat, m: nat) returns (z: nat)
    requires m > 1
    ensures z < m && MaskedAdd(start, m, z) == 0
  {
    var q, r := start / m, start % m;
    z := m - 1 - r;
    assert start + z + 1 == m * q + m == m * (q + 1);
    ResidueUnique(start + z + 1, m, q + 1, 0);
  }

  /** The cycle is no longer than that: `m - 1` allocations after the first, its identifier comes again. */
  lemma CycleBoundIsAttained(start: nat, m: nat)
    requires m > 1 && MaskedAdd(start, m, 0) != 0
    ensures
      var fin := EagerLog(start, m, m + 1);
      && fin[0] && fin[m] && MaskedAdd(start, m, 0) == MaskedAdd(start, m, m)
      && Allocations(fin, 0, m) == m - 1
  {
    hide MaskedAdd;
    var fin := EagerLog(start, m, m + 1);
    var z := NextZero(start, m);
    SameMaskedAdd(start, m, 0, m);
    ResidueUnique(m, m, 1, 0);
    OneRetryPerRange(start, m, fin, 0, m);
    RetryIsNoAllocation(fin, 0, z, m);
  }
}

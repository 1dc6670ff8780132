/**
 * The retry loop of `AddDeviceEndpoint`: 16-bit endpoint ids tried one after the other, with
 * wrap-around to the first dynamic id, until the SDK does not answer EXISTS.
 */
module EndpointSearch {
  import opened Bytes

  /** `++mCurrentEndpointId`, and back to the first dynamic id when the result is below it. */
  function NextId(id: u16, first: u16): u16 {
    var n := (id + 1) % 0x1_0000;
    if n < first then first else n
  }

  /** The id tried after `k` retries. */
  function IdAfter(start: u16, first: u16, k: nat): u16 {
    if k == 0 then start else NextId(IdAfter(start, first, k - 1), first)
  }

  /** Retries from `id` until `goal` is tried. */
  function Distance(id: u16, goal: u16, first: u16): nat
    requires first <= goal
  {
    if id < first then 1 + goal - first
    else if id <= goal then goal - id
    else 0x1_0000 - id + goal - first
  }

  /** One retry comes one step nearer to every id at or above the first dynamic one. */
  lemma DistanceDecreases(id: u16, goal: u16, first: u16)
    requires first <= goal && id != goal
    ensures Distance(NextId(id, first), goal, first) == Distance(id, goal, first) - 1
  {
  }

  /** The retries reach every id at or above the first dynamic one, in as many steps as the distance says. */
  lemma {:induction false} EveryIdIsReached(start: u16, goal: u16, first: u16, k: nat)
    requires first <= goal && k <= Distance(start, goal, first)
    ensures Distance(IdAfter(start, first, k), goal, first) == Distance(start, goal, first) - k
    ensures k == Distance(start, goal, first) ==> IdAfter(start, first, k) == goal
  {
    if k > 0 {
      EveryIdIsReached(start, goal, first, k - 1);
      DistanceDecreases(IdAfter(start, first, k - 1), goal, first);
    }
  }

  /** `id` is the first id in cyclic order from `start` that is not used, tried after `k` retries. */
  predicate FirstUnused(start: u16, first: u16, used: set<u16>, k: nat, id: u16) {
    && id == IdAfter(start, first, k) && id !in used
    && forall j :: 0 <= j < k ==> IdAfter(start, first, j) in used
  }

  predicate Ends(start: u16, first: u16, used: set<u16>, k: nat) { IdAfter(start, first, k) !in used }

  predicate Free(first: u16, used: set<u16>, id: u16) { first <= id && id !in used }

  /** The retries meet an unused id exactly when the first id or some id at or above the first dynamic one is unused. */
  lemma SearchEndsExactlyWhen(start: u16, first: u16, used: set<u16>)
    ensures (exists k: nat :: Ends(start, first, used, k)) <==> (start !in used || exists id: u16 :: Free(first, used, id))
  {
    if start !in used {
      assert Ends(start, first, used, 0);
    }
    forall id: u16 | Free(first, used, id)
      ensures exists k: nat :: Ends(start, first, used, k)
    {
      EveryIdIsReached(start, id, first, Distance(start, id, first));
      assert Ends(start, first, used, Distance(start, id, first));
    }
    forall k: nat | Ends(start, first, used, k)
      ensures start !in used || exists id: u16 :: Free(first, used, id)
    {
      if k > 0 {
        assert Free(first, used, IdAfter(start, first, k));
      }
    }
  }

  /** The id found within `tries` retries. */
  function FirstUnusedFrom(id: u16, first: u16, used: set<u16>, tries: nat): u16
    decreases tries
  {
    if tries == 0 || id !in used then id else FirstUnusedFrom(NextId(id, first), first, used, tries - 1)
  }

  lemma {:induction false} IdAfterShift(start: u16, first: u16, k: nat)
    ensures IdAfter(NextId(start, first), first, k) == IdAfter(start, first, k + 1)
  {
    if k > 0 {
      IdAfterShift(start, first, k - 1);
    }
  }

  lemma {:induction false} FirstUnusedFromIs(start: u16, first: u16, used: set<u16>, k: nat, id: u16, tries: nat)
    requires FirstUnused(start, first, used, k, id) && k <= tries
    ensures FirstUnusedFrom(start, first, used, tries) == id
    decreases k
  {
    if k > 0 {
      assert IdAfter(start, first, 0) in used;
      forall j | 0 <= j < k
        ensures IdAfter(NextId(start, first), first, j) == IdAfter(start, first, j + 1)
      {
        IdAfterShift(start, first, j);
      }
      assert FirstUnused(NextId(start, first), first, used, k - 1, id);
      FirstUnusedFromIs(NextId(start, first), first, used, k - 1, id, tries - 1);
    }
  }

  const MAX_TRIES: nat := 0x1_0000

  /** The id the retry loop ends on. */
  function AllocatedId(start: u16, first: u16, used: set<u16>): u16 {
    FirstUnusedFrom(start, first, used, MAX_TRIES)
  }

  /**
   * The retry loop. `free` witnesses that some id at or above the first dynamic one is unused; the loop
   * ends within the distance to it, which is at most 65536 retries.
   */
  method Search(start: u16, first: u16, used: set<u16>, ghost free: u16) returns (id: u16, ghost k: nat)
    requires first <= free && free !in used
    ensures FirstUnused(start, first, used, k, id)
    ensures k <= Distance(start, free, first) <= MAX_TRIES
    ensures id == AllocatedId(start, first, used)
  {
    id, k := start, 0;
    while id in used
      invariant id == IdAfter(start, first, k)
      invariant forall j :: 0 <= j < k ==> IdAfter(start, first, j) in used
      invariant Distance(id, free, first) == Distance(start, free, first) - k
      decreases Distance(id, free, first)
    {
      DistanceDecreases(id, free, first);
      id, k := NextId(id, first), k + 1;
    }
    FirstUnusedFromIs(start, first, used, k, id, MAX_TRIES);
  }

  /** The id found is unused, and a dynamic one when every id below the first dynamic one is taken. */
  lemma AllocatedIdIsUnused(start: u16, first: u16, used: set<u16>, free: u16)
    requires first <= free && free !in used
    ensures AllocatedId(start, first, used) !in used
    ensures (forall x: u16 :: x < first ==> x in used) ==> first <= AllocatedId(start, first, used)
  {
    var k := RetriesNeeded(start, first, used, free, 0);
    FirstUnusedFromIs(start, first, used, k, IdAfter(start, first, k), MAX_TRIES);
  }

  lemma {:induction false} RetriesNeeded(start: u16, first: u16, used: set<u16>, free: u16, j: nat) returns (k: nat)
    requires first <= free && free !in used
    requires j <= Distance(start, free, first)
    requires forall i :: 0 <= i < j ==> IdAfter(start, first, i) in used
    ensures k <= MAX_TRIES && FirstUnused(start, first, used, k, IdAfter(start, first, k))
    decreases Distance(start, free, first) - j
  {
    EveryIdIsReached(start, free, first, j);
    if IdAfter(start, first, j) !in used {
      k := j;
    } else {
      k := RetriesNeeded(start, first, used, free, j + 1);
    }
  }

  // ---- The order of the search, without its steps ----

  /** All ids from `a` up to, not including, `b` are used. */
  predicate AllUsed(used: set<u16>, a: nat, b: nat) { forall x: u16 :: a <= x < b ==> x in used }

  /**
   * `id` is the first unused id going up from `start`; past 0xFFFF, or from below the first dynamic id, the search goes on
   * at the first dynamic id.
   */
  predicate FirstGoingUp(start: u16, first: u16, used: set<u16>, id: u16) {
    && id !in used
    && if start < first then id == start || (start in used && first <= id && AllUsed(used, first, id))
       else if start <= id then AllUsed(used, start, id)
       else first <= id && AllUsed(used, start, 0x1_0000) && AllUsed(used, first, id)
  }

  lemma {:induction false} TriedBefore(start: u16, first: u16, used: set<u16>, k: nat, id: u16, x: u16)
    requires FirstUnused(start, first, used, k, id) && first <= id && first <= x
    requires Distance(start, x, first) < Distance(start, id, first)
    ensures x in used
  {
    EveryIdIsReached(start, id, first, Distance(start, id, first));
    if k <= Distance(start, id, first) {
      EveryIdIsReached(start, id, first, k);
    }
    EveryIdIsReached(start, x, first, Distance(start, x, first));
  }

  lemma {:induction false} LaterIdsAreDynamic(start: u16, first: u16, k: nat)
    requires k > 0
    ensures first <= IdAfter(start, first, k)
  {
  }

  /** What the retries find is the first unused id in that order. */
  lemma {:induction false} FoundGoingUp(start: u16, first: u16, used: set<u16>, k: nat, id: u16)
    requires FirstUnused(start, first, used, k, id)
    ensures FirstGoingUp(start, first, used, id)
  {
    if k > 0 {
      LaterIdsAreDynamic(start, first, k);
      assert IdAfter(start, first, 0) in used;
    }
    if first <= id {
      forall x: u16 | first <= x && Distance(start, x, first) < Distance(start, id, first)
        ensures x in used
      {
        TriedBefore(start, first, used, k, id, x);
      }
    }
  }

  lemma {:induction false} AllocatedGoingUp(start: u16, first: u16, used: set<u16>, free: u16)
    requires first <= free && free !in used
    ensures FirstGoingUp(start, first, used, AllocatedId(start, first, used))
  {
    var k := RetriesNeeded(start, first, used, free, 0);
    FirstUnusedFromIs(start, first, used, k, IdAfter(start, first, k), MAX_TRIES);
    FoundGoingUp(start, first, used, k, IdAfter(start, first, k));
  }
}

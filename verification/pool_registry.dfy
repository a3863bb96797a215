/**
 * The pool registry as a value: a dictionary from a prefab key (the prefab's
 * instance id) to a FIFO queue of object handles, and the effect of the two
 * registry operations on it. The class in pool_manager.dfy is proved to
 * update its dictionary exactly as these functions say.
 */
module PoolRegistry {

  /** What a call to ReuseObject ends in. */
  datatype ReuseOutcome<H> =
    | Reused(handle: H)  // the front handle was rotated to the back and placed
    | PoolNotFound       // no pool under the key: the call does nothing
    | EmptyPool          // a pool exists but its queue is empty: Dequeue throws

  /** No handle occurs twice in the queue. */
  predicate Distinct<H(==)>(q: seq<H>) {
    forall i, j :: 0 <= i < j < |q| ==> q[i] != q[j]
  }

  // ---------------------------------------------------------------------------
  // One queue
  // ---------------------------------------------------------------------------

  /** Dequeue the front handle and enqueue it again at the back. */
  function Rotate<H>(q: seq<H>): (r: seq<H>)
    requires q != []
    ensures |r| == |q|
    ensures r[|r| - 1] == q[0]
  {
    q[1..] + [q[0]]
  }

  /** A rotation keeps exactly the same handles, each as often as before. */
  lemma RotateKeepsHandles<H>(q: seq<H>)
    requires q != []
    ensures multiset(Rotate(q)) == multiset(q)
  {
    assert q == [q[0]] + q[1..];
  }

  /** The queue after n rotations in a row. */
  function RotateTimes<H>(q: seq<H>, n: nat): (r: seq<H>)
    requires q != []
    ensures |r| == |q|
  {
    if n == 0 then q else Rotate(RotateTimes(q, n - 1))
  }

  /** After n <= |q| rotations the first n handles have moved, in order, to the back. */
  lemma {:induction false} RotateTimesShifts<H>(q: seq<H>, n: nat)
    requires q != [] && n <= |q|
    ensures RotateTimes(q, n) == q[n..] + q[..n]
  {
    if n == 0 {
      assert q[0..] + q[..0] == q;
    } else {
      RotateTimesShifts(q, n - 1);
      var s := q[n - 1..] + q[..n - 1];
      assert s[0] == q[n - 1];
      assert s[1..] + [s[0]] == q[n..] + q[..n] by {
        assert s[1..] == q[n..] + q[..n - 1];
        assert q[..n - 1] + [q[n - 1]] == q[..n];
      }
    }
  }

  /** Rotating a queue as many times as it has handles restores its order. */
  lemma FullRotationRestores<H>(q: seq<H>)
    requires q != []
    ensures RotateTimes(q, |q|) == q
  {
    RotateTimesShifts(q, |q|);
    assert q[|q|..] + q[..|q|] == q;
  }

  /** Rotations compose: a + b rotations are a rotations followed by b. */
  lemma {:induction false} RotateTimesAdd<H>(q: seq<H>, a: nat, b: nat)
    requires q != []
    ensures RotateTimes(q, a + b) == RotateTimes(RotateTimes(q, a), b)
  {
    if b != 0 {
      RotateTimesAdd(q, a, b - 1);
      assert RotateTimes(q, a + b) == Rotate(RotateTimes(q, a + (b - 1)));
    }
  }

  /** The rotations repeat with period |q|. */
  lemma RotateTimesPeriodic<H>(q: seq<H>, k: nat)
    requires q != []
    ensures RotateTimes(q, k + |q|) == RotateTimes(q, k)
  {
    RotateTimesAdd(q, |q|, k);
    FullRotationRestores(q);
  }

  /** Within the first round, k rotations bring the handle at position k to the front. */
  lemma RotateTimesFront<H>(q: seq<H>, k: nat)
    requires k < |q|
    ensures RotateTimes(q, k)[0] == q[k]
  {
    RotateTimesShifts(q, k);
  }

  // ---------------------------------------------------------------------------
  // The dictionary of queues
  // ---------------------------------------------------------------------------

  /**
   * CreatePool as the source writes it: an empty queue is registered under a
   * key that is absent; a key already present keeps its queue.
   */
  function AddPool<H>(pools: map<int, seq<H>>, key: int): (r: map<int, seq<H>>)
    ensures r.Keys == pools.Keys + {key}
    ensures forall k :: k in pools ==> r[k] == pools[k]
    ensures key !in pools ==> r[key] == []
  {
    if key in pools then pools else pools[key := []]
  }

  /**
   * CreatePool as evidently intended: the instantiated handles are registered,
   * in creation order, under a key that is absent.
   */
  function AddFilledPool<H>(pools: map<int, seq<H>>, key: int, handles: seq<H>): (r: map<int, seq<H>>)
    ensures r.Keys == pools.Keys + {key}
    ensures forall k :: k in pools ==> r[k] == pools[k]
    ensures key !in pools ==> r[key] == handles
  {
    if key in pools then pools else pools[key := handles]
  }

  /** The handle a call to ReuseObject acts on, or why it acts on none. */
  function NextHandle<H>(pools: map<int, seq<H>>, key: int): (r: ReuseOutcome<H>)
    ensures r.PoolNotFound? <==> key !in pools
    ensures r.EmptyPool? <==> key in pools && pools[key] == []
    ensures r.Reused? ==> key in pools && |pools[key]| > 0 && r.handle == pools[key][0]
  {
    if key !in pools then PoolNotFound
    else if pools[key] == [] then EmptyPool
    else Reused(pools[key][0])
  }

  /** The dictionary after a call to ReuseObject. */
  function AfterReuse<H>(pools: map<int, seq<H>>, key: int): (r: map<int, seq<H>>)
    ensures r.Keys == pools.Keys
    ensures forall k :: k in pools && k != key ==> r[k] == pools[k]
    ensures key in pools ==> |r[key]| == |pools[key]|
    ensures !NextHandle(pools, key).Reused? ==> r == pools
  {
    if key in pools && pools[key] != [] then pools[key := Rotate(pools[key])] else pools
  }

  /** The dictionary after n calls to ReuseObject with the same key. */
  function ReuseTimes<H>(pools: map<int, seq<H>>, key: int, n: nat): (r: map<int, seq<H>>)
    ensures r.Keys == pools.Keys
    ensures forall k :: k in pools && k != key ==> r[k] == pools[k]
    ensures key in pools ==> |r[key]| == |pools[key]|
  {
    if n == 0 then pools else AfterReuse(ReuseTimes(pools, key, n - 1), key)
  }

  // ---------------------------------------------------------------------------
  // Properties of the registry operations
  // ---------------------------------------------------------------------------

  /**
   * CreatePool is idempotent: on a key already present it changes nothing,
   * so a second call with the same key leaves the first call's result.
   */
  lemma AddPoolIdempotent<H>(pools: map<int, seq<H>>, key: int)
    ensures key in pools ==> AddPool(pools, key) == pools
    ensures AddPool(AddPool(pools, key), key) == AddPool(pools, key)
  {
  }

  /**
   * The consequence of the handles never being enqueued: right after
   * CreatePool registers a key, ReuseObject on that key fails, whatever the
   * pool size was.
   */
  lemma ReuseAfterAddPoolFails<H>(pools: map<int, seq<H>>, key: int)
    requires key !in pools
    ensures AddPool(pools, key)[key] == []
    ensures NextHandle(AddPool(pools, key), key) == EmptyPool
    ensures AfterReuse(AddPool(pools, key), key) == AddPool(pools, key)
  {
  }

  /**
   * With the handles enqueued, the first ReuseObject after creating the pool
   * acts on the first handle created and moves it to the back.
   */
  lemma ReuseAfterAddFilledPool<H>(pools: map<int, seq<H>>, key: int, handles: seq<H>)
    requires key !in pools && handles != []
    ensures NextHandle(AddFilledPool(pools, key, handles), key) == Reused(handles[0])
    ensures AfterReuse(AddFilledPool(pools, key, handles), key)[key] == handles[1..] + [handles[0]]
  {
  }

  /**
   * A successful ReuseObject keeps the pool's handles (same length, same
   * multiset), moves the front handle to the back, and leaves every other
   * key's queue as it was.
   */
  lemma ReuseKeepsPool<H>(pools: map<int, seq<H>>, key: int)
    requires key in pools && pools[key] != []
    ensures AfterReuse(pools, key).Keys == pools.Keys
    ensures multiset(AfterReuse(pools, key)[key]) == multiset(pools[key])
    ensures AfterReuse(pools, key)[key] == pools[key][1..] + [pools[key][0]]
    ensures forall k :: k in pools && k != key ==> AfterReuse(pools, key)[k] == pools[k]
  {
    RotateKeepsHandles(pools[key]);
  }

  /** n calls to ReuseObject rotate the key's queue n times and touch nothing else. */
  lemma {:induction false} ReuseTimesRotates<H>(pools: map<int, seq<H>>, key: int, n: nat)
    requires key in pools && pools[key] != []
    ensures ReuseTimes(pools, key, n) == pools[key := RotateTimes(pools[key], n)]
  {
    if n != 0 {
      ReuseTimesRotates(pools, key, n - 1);
      var before := RotateTimes(pools[key], n - 1);
      assert ReuseTimes(pools, key, n) == AfterReuse(pools[key := before], key);
      assert AfterReuse(pools[key := before], key) == pools[key := before][key := Rotate(before)];
    }
  }

  /** As many calls to ReuseObject as the pool has handles restore the dictionary. */
  lemma FullCycleRestoresRegistry<H>(pools: map<int, seq<H>>, key: int)
    requires key in pools && pools[key] != []
    ensures ReuseTimes(pools, key, |pools[key]|) == pools
  {
    ReuseTimesRotates(pools, key, |pools[key]|);
    FullRotationRestores(pools[key]);
  }

  /**
   * Round-robin reuse: in a pool of N handles, call k + 1 (for k < N) acts on
   * the handle that was at position k of the queue.
   */
  lemma ReuseTimesHandle<H>(pools: map<int, seq<H>>, key: int, k: nat)
    requires key in pools && k < |pools[key]|
    ensures NextHandle(ReuseTimes(pools, key, k), key) == Reused(pools[key][k])
  {
    ReuseTimesRotates(pools, key, k);
    RotateTimesFront(pools[key], k);
  }

  /** The rotation period is N: k + N calls leave the dictionary as k calls do. */
  lemma ReuseTimesPeriodic<H>(pools: map<int, seq<H>>, key: int, k: nat)
    requires key in pools && pools[key] != []
    ensures ReuseTimes(pools, key, k + |pools[key]|) == ReuseTimes(pools, key, k)
  {
    ReuseTimesRotates(pools, key, k + |pools[key]|);
    ReuseTimesRotates(pools, key, k);
    RotateTimesPeriodic(pools[key], k);
  }

  /** In a pool of N distinct handles the first N calls act on N different handles. */
  lemma FirstRoundDistinct<H>(pools: map<int, seq<H>>, key: int, i: nat, j: nat)
    requires key in pools && Distinct(pools[key])
    requires i < j < |pools[key]|
    ensures NextHandle(ReuseTimes(pools, key, i), key) != NextHandle(ReuseTimes(pools, key, j), key)
  {
    ReuseTimesHandle(pools, key, i);
    ReuseTimesHandle(pools, key, j);
  }

  /** In a pool of N >= 1 handles, call N + 1 acts on the same handle as call 1. */
  lemma NextRoundSameHandle<H>(pools: map<int, seq<H>>, key: int)
    requires key in pools && pools[key] != []
    ensures NextHandle(ReuseTimes(pools, key, |pools[key]|), key) == Reused(pools[key][0])
  {
    FullCycleRestoresRegistry(pools, key);
  }
}

/**
 * The PoolManager component: a dictionary from a prefab's instance id to a
 * FIFO queue of pooled game objects, with the two operations that create a
 * pool and reuse the next object of a pool. The dictionary is a map field
 * that the methods reassign; each method is proved to change it exactly as
 * the functions of PoolRegistry say, and to change no object but the ones it
 * creates or places.
 */
module PoolManagement {
  import opened PoolRegistry

  /**
   * A scene object, reduced to what the pool touches: whether it is active,
   * and its transform's position and rotation (opaque values of types P, R).
   */
  class GameObject<P, R> {
    var active: bool
    var position: P
    var rotation: R

    /** Instantiate(prefab): a new object that starts as a copy of the prefab. */
    constructor Instantiate(prefab: GameObject<P, R>)
      ensures active == prefab.active
      ensures position == prefab.position && rotation == prefab.rotation
    {
      active := prefab.active;
      position := prefab.position;
      rotation := prefab.rotation;
    }

    method SetActive(value: bool)
      modifies this
      ensures active == value
      ensures position == old(position) && rotation == old(rotation)
    {
      active := value;
    }
  }

  class PoolManager<P, R> {
    /** Prefab instance id to the queue of that prefab's pooled objects, front first. */
    var poolDictionary: map<int, seq<GameObject<P, R>>>

    constructor ()
      ensures poolDictionary == map[]
    {
      poolDictionary := map[];
    }

    /**
     * CreatePool as written: registers an empty queue under an absent key and
     * instantiates poolsize inactive copies of the prefab, which it never
     * enqueues. A key already present changes nothing and creates nothing.
     * The created objects are returned so that their state can be stated;
     * poolKey stands for prefab.GetInstanceID().
     */
    method CreatePool(poolKey: int, prefab: GameObject<P, R>, poolsize: int)
      returns (instantiated: seq<GameObject<P, R>>)
      modifies this
      ensures poolDictionary == AddPool(old(poolDictionary), poolKey)
      ensures |instantiated| == if poolKey in old(poolDictionary) || poolsize < 0 then 0 else poolsize
      ensures Distinct(instantiated)
      ensures forall o :: o in instantiated ==>
                fresh(o) && !o.active && o.position == prefab.position && o.rotation == prefab.rotation
    {
      instantiated := [];
      if poolKey !in poolDictionary {
        poolDictionary := poolDictionary[poolKey := []];
        var i := 0;
        while i < poolsize
          invariant poolDictionary == old(poolDictionary)[poolKey := []]
          invariant 0 <= i && |instantiated| == i
          invariant i <= if poolsize < 0 then 0 else poolsize
          invariant Distinct(instantiated)
          invariant forall o :: o in instantiated ==>
                      fresh(o) && !o.active && o.position == prefab.position && o.rotation == prefab.rotation
        {
          var newObject := new GameObject.Instantiate(prefab);
          newObject.SetActive(false);
          instantiated := instantiated + [newObject];
          i := i + 1;
        }
      }
    }

    /**
     * CreatePool as evidently intended: the same, except that every
     * instantiated object is enqueued, in creation order.
     */
    method CreatePoolFilled(poolKey: int, prefab: GameObject<P, R>, poolsize: int)
      returns (instantiated: seq<GameObject<P, R>>)
      modifies this
      ensures poolDictionary == AddFilledPool(old(poolDictionary), poolKey, instantiated)
      ensures |instantiated| == if poolKey in old(poolDictionary) || poolsize < 0 then 0 else poolsize
      ensures Distinct(instantiated)
      ensures forall o :: o in instantiated ==>
                fresh(o) && !o.active && o.position == prefab.position && o.rotation == prefab.rotation
    {
      instantiated := [];
      if poolKey !in poolDictionary {
        poolDictionary := poolDictionary[poolKey := []];
        var i := 0;
        while i < poolsize
          invariant poolDictionary == old(poolDictionary)[poolKey := instantiated]
          invariant 0 <= i && |instantiated| == i
          invariant i <= if poolsize < 0 then 0 else poolsize
          invariant Distinct(instantiated)
          invariant forall o :: o in instantiated ==>
                      fresh(o) && !o.active && o.position == prefab.position && o.rotation == prefab.rotation
        {
          var newObject := new GameObject.Instantiate(prefab);
          newObject.SetActive(false);
          poolDictionary := poolDictionary[poolKey := poolDictionary[poolKey] + [newObject]];
          instantiated := instantiated + [newObject];
          i := i + 1;
        }
      }
    }

    /**
     * ReuseObject: dequeues the front object of the key's queue, enqueues it
     * again at the back, activates it and places it. A missing key does
     * nothing; an empty queue makes Dequeue throw before anything changes.
     */
    method ReuseObject(poolKey: int, position: P, rotation: R)
      returns (outcome: ReuseOutcome<GameObject<P, R>>)
      modifies this
      modifies if poolKey in poolDictionary && poolDictionary[poolKey] != []
               then {poolDictionary[poolKey][0]} else {}
      ensures outcome == NextHandle(old(poolDictionary), poolKey)
      ensures poolDictionary == AfterReuse(old(poolDictionary), poolKey)
      ensures outcome.Reused? ==>
                outcome.handle.active && outcome.handle.position == position && outcome.handle.rotation == rotation
    {
      if poolKey in poolDictionary {
        if poolDictionary[poolKey] == [] {
          return EmptyPool;
        }
        var objectToReuse := poolDictionary[poolKey][0];
        poolDictionary := poolDictionary[poolKey := poolDictionary[poolKey][1..]];
        poolDictionary := poolDictionary[poolKey := poolDictionary[poolKey] + [objectToReuse]];

        objectToReuse.SetActive(true);
        objectToReuse.position := position;
        objectToReuse.rotation := rotation;
        outcome := Reused(objectToReuse);
      } else {
        outcome := PoolNotFound;
      }
    }
  }

  /**
   * What a caller of the source sees: ReuseObject right after CreatePool on
   * a fresh manager fails with an empty queue, whatever the pool size.
   */
  method ReuseRightAfterCreatePool<P, R>(prefab: GameObject<P, R>, poolKey: int, poolsize: int, position: P, rotation: R)
    returns (outcome: ReuseOutcome<GameObject<P, R>>)
    ensures outcome == EmptyPool
  {
    var manager := new PoolManager<P, R>();
    var _ := manager.CreatePool(poolKey, prefab, poolsize);
    outcome := manager.ReuseObject(poolKey, position, rotation);
  }

  /**
   * Round-robin reuse with the corrected CreatePool: a pool of three, reused
   * four times, places three distinct objects, and the fourth call takes the
   * first object again and moves it to the fourth position and rotation.
   */
  method ReuseRoundRobin<P, R>(prefab: GameObject<P, R>, poolKey: int, p1: P, p2: P, p3: P, p4: P, r1: R, r2: R, r3: R, r4: R)
    returns (first: GameObject<P, R>, second: GameObject<P, R>, third: GameObject<P, R>, fourth: GameObject<P, R>)
    ensures first != second && second != third && first != third
    ensures fourth == first
    ensures first.active && first.position == p4 && first.rotation == r4
    ensures second.active && second.position == p2 && second.rotation == r2
    ensures third.active && third.position == p3 && third.rotation == r3
  {
    var manager := new PoolManager<P, R>();
    var handles := manager.CreatePoolFilled(poolKey, prefab, 3);
    var a, b, c := handles[0], handles[1], handles[2];
    assert a in handles && b in handles && c in handles;
    assert manager.poolDictionary[poolKey] == [a, b, c];
    var o1 := manager.ReuseObject(poolKey, p1, r1);
    assert manager.poolDictionary[poolKey] == [b, c, a];
    var o2 := manager.ReuseObject(poolKey, p2, r2);
    assert manager.poolDictionary[poolKey] == [c, a, b];
    var o3 := manager.ReuseObject(poolKey, p3, r3);
    var o4 := manager.ReuseObject(poolKey, p4, r4);
    first, second, third, fourth := o1.handle, o2.handle, o3.handle, o4.handle;
  }
}

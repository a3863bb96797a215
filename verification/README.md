# Object pooling: the PoolManager registry

A Dafny model of the object pool of the Object-Pooling Unity project. The
`PoolManager` component keeps a dictionary from a prefab's instance id to a
FIFO queue of game objects. `CreatePool(prefab, poolsize)` registers a queue
for a prefab that has none and instantiates `poolsize` inactive copies of the
prefab. `ReuseObject(prefab, position, rotation)` takes the object at the front
of the prefab's queue, puts it back at the end, activates it and places it at
the given position and rotation.

The project has two modules:

- `PoolRegistry` (`pool_registry.dfy`) treats the dictionary as a value, a
  `map<int, seq<H>>` from key to queue (front first). It defines the effect of
  each operation as a function: `AddPool`, `AddFilledPool`, `NextHandle`,
  `AfterReuse`, and `ReuseTimes` for repeated calls. On one queue, `Rotate`
  is a single Dequeue-then-Enqueue and `RotateTimes` is n of them in a row. It also proves the
  registry's properties: idempotent creation, "nothing else changes",
  preservation of the pool's handles, rotation period and round-robin order.
- `PoolManagement` (`pool_manager.dfy`) is the component itself. A
  `GameObject` class has the three fields the pool touches: `active`,
  `position` and `rotation`. A `PoolManager` class holds the dictionary as a
  `map` field that its methods reassign. Each method is proved to leave the
  dictionary exactly as the matching `PoolRegistry` function says. Its frame
  shows that it changes no object except the ones it creates or places.

`CreatePool` never puts the objects it instantiates into the queue, so every
pool it creates is empty and the next `ReuseObject` on that key throws. The
model reproduces this behaviour. It also gives the evidently intended version
as a separate member; see "## Findings".

Modelling choices:

- The prefab key is an `int` parameter (`poolKey`) in place of
  `prefab.GetInstanceID()`.
- Position and rotation are type parameters `P` and `R`. The pool only copies
  them.
- `Instantiate(prefab)` is the constructor `GameObject.Instantiate`. It creates
  a fresh object whose three fields copy the prefab's.
- `ReuseObject` returns a `ReuseOutcome`:
  - `Reused(handle)` names the object acted on.
  - `PoolNotFound` is the source's silent no-op for a missing key.
  - `EmptyPool` stands for the `InvalidOperationException` that
    `Queue.Dequeue` throws on an empty queue. Nothing has changed at that
    point.
- `CreatePool` returns the objects it instantiated. The source discards them.
  Returning them lets the contract say that they exist, are fresh, distinct
  and inactive, and are in no queue.

## Model

| member | source | states |
|---|---|---|
| `PoolRegistry.AddPool` | Assets/_SCRIPTS/PoolManager.cs:46-50 | creating a pool adds exactly the given key; every key already present keeps its queue; a newly added key maps to the empty queue |
| `PoolRegistry.AddPoolIdempotent` | Assets/_SCRIPTS/PoolManager.cs:43-47 | on a key already present, CreatePool leaves the dictionary unchanged whatever the pool size, so a second call has no effect |
| `PoolRegistry.ReuseAfterAddPoolFails` | Assets/_SCRIPTS/PoolManager.cs:50-57 | the queue registered by CreatePool is empty, so the next ReuseObject on that key is an empty-queue failure that leaves the dictionary as it was |
| `PoolRegistry.AddFilledPool` | Assets/_SCRIPTS/PoolManager.cs:50-57 | intended CreatePool: adds exactly the given key, mapped to the instantiated handles in creation order; keys already present keep their queues |
| `PoolRegistry.ReuseAfterAddFilledPool` | Assets/_SCRIPTS/PoolManager.cs:53-77 | with the handles enqueued, the first ReuseObject acts on the first handle created and moves it to the back |
| `PoolRegistry.NextHandle` | Assets/_SCRIPTS/PoolManager.cs:74-76 | ReuseObject finds no pool exactly when the key is absent; it fails exactly when the key's queue is empty; otherwise it acts on the front handle |
| `PoolRegistry.AfterReuse` | Assets/_SCRIPTS/PoolManager.cs:74-77 | ReuseObject keeps the set of keys and every other key's queue; it keeps the length of the key's queue; on a missing key or an empty queue it changes nothing |
| `PoolRegistry.Rotate` | Assets/_SCRIPTS/PoolManager.cs:76-77 | dequeue-then-enqueue keeps the queue's length and puts the old front handle last |
| `PoolRegistry.RotateTimes` | Assets/_SCRIPTS/PoolManager.cs:76-77 | n rotations in a row keep the queue's length |
| `PoolRegistry.RotateKeepsHandles` | Assets/_SCRIPTS/PoolManager.cs:76-77 | a rotation keeps the multiset of handles |
| `PoolRegistry.ReuseKeepsPool` | Assets/_SCRIPTS/PoolManager.cs:76-77 | a successful ReuseObject turns queue q into q[1..] + [q[0]], keeps its multiset of handles, and leaves the keys and every other queue unchanged |
| `PoolRegistry.RotateTimesShifts` | Assets/_SCRIPTS/PoolManager.cs:61-77 | after n rotations, with n at most the queue's length, the first n handles have moved in order to the back |
| `PoolRegistry.FullRotationRestores` | Assets/_SCRIPTS/PoolManager.cs:61-77 | rotating a queue of N handles N times restores its order |
| `PoolRegistry.RotateTimesAdd` | Assets/_SCRIPTS/PoolManager.cs:76-77 | a + b rotations equal a rotations followed by b |
| `PoolRegistry.RotateTimesPeriodic` | Assets/_SCRIPTS/PoolManager.cs:61-77 | k + N rotations of a queue of N handles give the same queue as k rotations |
| `PoolRegistry.RotateTimesFront` | Assets/_SCRIPTS/PoolManager.cs:61-77 | for k below N, k rotations bring the handle at position k to the front |
| `PoolRegistry.ReuseTimes` | Assets/_SCRIPTS/PoolManager.cs:68-84 | repeated ReuseObject calls on one key keep the set of keys, every other key's queue and the key's queue length |
| `PoolRegistry.ReuseTimesRotates` | Assets/_SCRIPTS/PoolManager.cs:68-84 | n ReuseObject calls on a non-empty pool rotate its queue n times and change no other entry |
| `PoolRegistry.FullCycleRestoresRegistry` | Assets/_SCRIPTS/PoolManager.cs:61-77 | N ReuseObject calls on a pool of N handles restore the whole dictionary |
| `PoolRegistry.ReuseTimesHandle` | Assets/_SCRIPTS/PoolManager.cs:61-77 | round-robin: for k below N, call k + 1 acts on the handle that was at position k of the queue |
| `PoolRegistry.ReuseTimesPeriodic` | Assets/_SCRIPTS/PoolManager.cs:61-77 | the rotation period is N: k + N calls leave the dictionary as k calls do |
| `PoolRegistry.FirstRoundDistinct` | Assets/_SCRIPTS/PoolManager.cs:61-77 | in a pool of N distinct handles, the first N calls act on pairwise different handles |
| `PoolRegistry.NextRoundSameHandle` | Assets/_SCRIPTS/PoolManager.cs:61-77 | in a pool of N >= 1 handles, call N + 1 acts on the same handle as call 1, the one at the front of the original queue |
| `PoolManagement.GameObject.Instantiate` | Assets/_SCRIPTS/PoolManager.cs:55 | a new object starts with the prefab's activity, position and rotation |
| `PoolManagement.GameObject.SetActive` | Assets/_SCRIPTS/PoolManager.cs:56 | sets the object's activity and leaves its position and rotation unchanged |
| `PoolManagement.PoolManager.constructor` | Assets/_SCRIPTS/PoolManager.cs:13 | a new manager starts with an empty dictionary |
| `PoolManagement.PoolManager.CreatePool` | Assets/_SCRIPTS/PoolManager.cs:41-59 | the dictionary becomes AddPool of the old one. On an absent key it makes max(poolsize, 0) fresh, distinct, inactive copies of the prefab, none of them in a queue; on a present key it makes none. Only the manager and new objects change |
| `PoolManagement.PoolManager.CreatePoolFilled` | Assets/_SCRIPTS/PoolManager.cs:41-59 | intended CreatePool: the same, except that the new objects become the key's queue in creation order |
| `PoolManagement.PoolManager.ReuseObject` | Assets/_SCRIPTS/PoolManager.cs:68-84 | the outcome is NextHandle and the dictionary becomes AfterReuse of the old one. On success the front object is active at the given position and rotation. No other object changes, and nothing changes on a missing key or an empty queue |
| `PoolManagement.ReuseRightAfterCreatePool` | Assets/_SCRIPTS/PoolManager.cs:47-84 | on a fresh manager, ReuseObject right after CreatePool with the same key fails with an empty queue, whatever the pool size |
| `PoolManagement.ReuseRoundRobin` | Assets/_SCRIPTS/PoolManager.cs:61-84 | with the intended CreatePool and a pool of three, three ReuseObject calls place three distinct objects at their positions and rotations; the fourth call takes the first object again and moves it to the fourth position and rotation |

## Left out

- The `Instance` singleton and its `FindObjectOfType` scene lookup
  (PoolManager.cs:18-32). They are engine plumbing with no logic beyond
  caching. A caller constructs a `PoolManager` explicitly.
- `GetInstanceID()` is an engine call. The key is an `int` parameter that is
  assumed to be stable for a prefab, and the model does not check that
  `poolKey` belongs to `prefab`. A null prefab makes `GetInstanceID()` throw
  a NullReferenceException (PoolManager.cs:46, 71). That exception is not
  modelled: `CreatePool` takes a non-null `GameObject`, and `ReuseObject`
  takes only the key.
- `Instantiate` internals are an engine call. The model keeps only "a fresh
  object copying the prefab's activity, position and rotation". Components,
  children, and the object's registration in the scene are not modelled.
- `Vector3` and `Quaternion` are floating-point engine types that the pool
  only copies. They are the opaque type parameters `P` and `R`.
- Exceptions: the model does not model the exception type thrown by
  `Queue.Dequeue` or its propagation to the caller. It returns `EmptyPool`
  instead, with the state unchanged.
- MonoBehaviour lifecycle, rendering, and transforms beyond position and
  rotation are not modelled. Neither is the destruction of pooled objects by
  other code.
- `int` width: `poolsize` and the loop counter are unbounded integers. The
  loop counter stays below `poolsize`, so 32-bit overflow cannot arise there.

## Findings

| source | as written | input that shows it | evidently intended | confidence | as-written member | corrected member |
|---|---|---|---|---|---|---|
| Assets/_SCRIPTS/PoolManager.cs:53-57 | the loop instantiates and deactivates `poolsize` objects but never enqueues them, so the registered queue stays empty; any later `ReuseObject` on that key calls `Dequeue` on an empty queue (line 76) and throws | `CreatePool(prefab, 3)` then `ReuseObject(prefab, p, r)` | each new object is enqueued, so the pool holds `poolsize` objects and `ReuseObject` hands them out round-robin | high; not executed | `PoolManagement.PoolManager.CreatePool`, `PoolRegistry.ReuseAfterAddPoolFails`, `PoolManagement.ReuseRightAfterCreatePool` | `PoolManagement.PoolManager.CreatePoolFilled`, `PoolRegistry.ReuseAfterAddFilledPool`, `PoolManagement.ReuseRoundRobin` |

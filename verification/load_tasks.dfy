/** The load task descriptors of the resource manager: `LoadResourceTaskBase`
    and its two concrete kinds, `LoadAssetTask` and `LoadSceneTask`. A task
    is pooled; `Create` acquires one, initialises it with a fresh serial id
    and attaches the caller's callback set; the agent's outcome is routed to
    that set's success or failure delegate. */
module LoadTasks {
  import opened Common
  import opened Addresses
  import Int32
  import ReferencePool
  import AssetObjects

  /** A `LoadAssetCallbacks` or `LoadSceneCallbacks` object: its identity,
      and whether its success and failure delegates are set. */
  datatype CallbackSet = CallbackSet(id: nat, hasSuccess: bool, hasFailure: bool)

  datatype TaskKind = AssetTask | SceneTask

  datatype LoadTask = LoadTask(
    kind: TaskKind,
    // kept by `TaskBase`
    serialId: int,
    tag: NString,
    priority: int,
    userData: Ref,
    // kept by `LoadResourceTaskBase`
    address: AssetAddress,
    assetType: Ref,
    startTime: int,
    // `m_LoadAssetCallbacks` or `m_LoadSceneCallbacks`; `None` is `null`
    callbacks: Option<CallbackSet>)

  /** A newly constructed task: every field at its default. The default of
      the address struct has two `null` fields; it is not `Empty`. */
  function Constructed(kind: TaskKind): (t: LoadTask)
    ensures t.kind == kind && t.callbacks.None? && t.address == AssetAddress(Null, Null)
  {
    LoadTask(kind, 0, Null, 0, NullRef, AssetAddress(Null, Null), NullRef, 0, None)
  }

  /** The tag every load task hands to `TaskBase.Initialize`. */
  const TaskTag: NString := Str("LoadResourceTask")

  /** `IsScene`: false for an asset task, true for a scene task. */
  function IsScene(t: LoadTask): (r: bool)
    ensures t.kind == AssetTask ==> !r
    ensures t.kind == SceneTask ==> r
  {
    match t.kind
    case AssetTask => false
    case SceneTask => true
  }

  /** `Initialize`: pre-increment the shared serial counter `s_Serial`, hand
      the new serial, the tag, the priority and the user data to the base,
      and store the address and the asset type. Nothing else changes. */
  function Initialize(serial: int, t: LoadTask, address: AssetAddress, assetType: Ref, priority: int, userData: Ref)
    : (r: (int, LoadTask))
    requires Int32.InRange(serial)
    ensures r.0 == Int32.Increment(serial) && r.1.serialId == r.0
    ensures r.1.tag == TaskTag && r.1.priority == priority && r.1.userData == userData
    ensures r.1.address == address && r.1.assetType == assetType
    ensures r.1.kind == t.kind && r.1.startTime == t.startTime && r.1.callbacks == t.callbacks
  {
    var next := Int32.Increment(serial);
    (next, t.(serialId := next, tag := TaskTag, priority := priority, userData := userData,
              address := address, assetType := assetType))
  }

  /** A load request as `Create` receives it. A scene request carries no
      asset type: scene tasks are initialised with `null`. */
  datatype TaskRequest =
    | AssetRequest(address: AssetAddress, assetType: Ref, priority: int, callbacks: Option<CallbackSet>, userData: Ref)
    | SceneRequest(address: AssetAddress, priority: int, callbacks: Option<CallbackSet>, userData: Ref)
  {
    function Kind(): TaskKind {
      if AssetRequest? then AssetTask else SceneTask
    }

    function RequestedType(): Ref {
      if AssetRequest? then assetType else NullRef
    }
  }

  /** The body of both `Create`s once an instance `acquired` of the right
      kind is in hand: initialise it, then attach the callback set. */
  function CreateFrom(serial: int, acquired: LoadTask, req: TaskRequest): (r: (int, LoadTask))
    requires Int32.InRange(serial) && acquired.kind == req.Kind()
    ensures r.0 == Int32.Increment(serial)
    ensures r.1 == LoadTask(req.Kind(), r.0, TaskTag, req.priority, req.userData,
                            req.address, req.RequestedType(), acquired.startTime, req.callbacks)
  {
    var (next, t) := Initialize(serial, acquired, req.address, req.RequestedType(), req.priority, req.userData);
    (next, t.(callbacks := req.callbacks))
  }

  /** The pool of one task class holds instances of that class only. */
  ghost predicate PoolOfKind(pool: ReferencePool.Pool<LoadTask>, kind: TaskKind) {
    forall i :: 0 <= i < |pool.free| ==> pool.free[i].kind == kind
  }

  /** `LoadAssetTask.Create`. */
  function CreateAssetTask(serial: int, pool: ReferencePool.Pool<LoadTask>, pick: nat,
                           address: AssetAddress, assetType: Ref, priority: int,
                           callbacks: Option<CallbackSet>, userData: Ref)
    : (r: (int, ReferencePool.Pool<LoadTask>, LoadTask))
    requires Int32.InRange(serial) && PoolOfKind(pool, AssetTask)
    ensures r.0 == Int32.Increment(serial) && r.2.serialId == r.0
    ensures r.1 == ReferencePool.Acquire(pool, Constructed(AssetTask), pick).0
    ensures !IsScene(r.2)
    ensures r.2.address == address && r.2.assetType == assetType && r.2.priority == priority
    ensures r.2.userData == userData && r.2.callbacks == callbacks && r.2.tag == TaskTag
  {
    var (rest, t) := ReferencePool.Acquire(pool, Constructed(AssetTask), pick);
    var (next, task) := CreateFrom(serial, t, AssetRequest(address, assetType, priority, callbacks, userData));
    (next, rest, task)
  }

  /** `LoadSceneTask.Create`: the asset type is always `null`. */
  function CreateSceneTask(serial: int, pool: ReferencePool.Pool<LoadTask>, pick: nat,
                           address: AssetAddress, priority: int,
                           callbacks: Option<CallbackSet>, userData: Ref)
    : (r: (int, ReferencePool.Pool<LoadTask>, LoadTask))
    requires Int32.InRange(serial) && PoolOfKind(pool, SceneTask)
    ensures r.0 == Int32.Increment(serial) && r.2.serialId == r.0
    ensures r.1 == ReferencePool.Acquire(pool, Constructed(SceneTask), pick).0
    ensures IsScene(r.2)
    ensures r.2.address == address && r.2.assetType == NullRef && r.2.priority == priority
    ensures r.2.userData == userData && r.2.callbacks == callbacks && r.2.tag == TaskTag
  {
    var (rest, t) := ReferencePool.Acquire(pool, Constructed(SceneTask), pick);
    var (next, task) := CreateFrom(serial, t, SceneRequest(address, priority, callbacks, userData));
    (next, rest, task)
  }

  /** Which instance the pool hands out makes no difference to a created
      task, except for `StartTime`, which neither `Initialize` nor `Clear`
      touches: a recycled task keeps its previous start time until the
      caller sets it. */
  lemma CreateIgnoresRecycledInstance(serial: int, a: LoadTask, b: LoadTask, req: TaskRequest)
    requires Int32.InRange(serial) && a.kind == req.Kind() && b.kind == req.Kind()
    ensures CreateFrom(serial, a, req).1.(startTime := 0) == CreateFrom(serial, b, req).1.(startTime := 0)
    ensures CreateFrom(serial, a, req).1.startTime == a.startTime
  {
  }

  /** `Clear`: the base clear resets what `TaskBase` keeps, then the callback
      set is dropped. `LoadResourceTaskBase` has no `Clear` of its own, so
      the address, the asset type and the start time stay as they were. */
  function Clear(t: LoadTask): (r: LoadTask)
    ensures r.callbacks.None?
    ensures r.serialId == 0 && r.tag.Null? && r.priority == 0 && r.userData.NullRef?
    ensures r.kind == t.kind && r.address == t.address && r.assetType == t.assetType && r.startTime == t.startTime
  {
    t.(serialId := 0, tag := Null, priority := 0, userData := NullRef, callbacks := None)
  }

  lemma ClearIsIdempotent(t: LoadTask)
    ensures Clear(Clear(t)) == Clear(t)
  {
  }

  /** What the task's hook does with the callback set. */
  datatype Invocation =
    | NoCall
    | SuccessCalled(callbacks: nat, address: AssetAddress, asset: Ref, duration: Float, userData: Ref)
    | FailureCalled(callbacks: nat, address: AssetAddress, status: LoadResourceStatus,
                    errorMessage: NString, userData: Ref)

  /** The exception a member access on a `null` reference raises, as the
      asset object's accessors raise it. */
  type Fault = AssetObjects.Fault

  /** `OnLoadAssetSuccess` of either task kind: when the set's success
      delegate is present, call it with the task's address, the asset held
      by the asset object, the duration and the task's user data; otherwise
      do nothing. A task without a callback set (a cleared one) faults, and
      so does a `null` asset object when the delegate is present. */
  function OnLoadAssetSuccess(t: LoadTask, assetObject: Option<AssetObjects.AssetObject>, duration: Float)
    : (r: Result<Invocation, Fault>)
    ensures t.callbacks.None? ==> r == Err(AssetObjects.NullReference)
    ensures t.callbacks.Some? && !t.callbacks.value.hasSuccess ==> r == Ok(NoCall)
    ensures t.callbacks.Some? && t.callbacks.value.hasSuccess && assetObject.Some? ==>
              r == Ok(SuccessCalled(t.callbacks.value.id, t.address, assetObject.value.asset, duration, t.userData))
    ensures t.callbacks.Some? && t.callbacks.value.hasSuccess && assetObject.None? ==> r == Err(AssetObjects.NullReference)
    ensures r.Ok? ==> !r.value.FailureCalled?
  {
    match t.callbacks
    case None => Err(AssetObjects.NullReference)
    case Some(cb) =>
      if !cb.hasSuccess then Ok(NoCall)
      else if assetObject.None? then Err(AssetObjects.NullReference)
      else Ok(SuccessCalled(cb.id, t.address, assetObject.value.asset, duration, t.userData))
  }

  /** `OnLoadAssetFailure` of either task kind: when the set's failure
      delegate is present, call it with the task's address, the status, the
      message and the task's user data; otherwise the failure is dropped. */
  function OnLoadAssetFailure(t: LoadTask, status: LoadResourceStatus, errorMessage: NString)
    : (r: Result<Invocation, Fault>)
    ensures t.callbacks.None? ==> r == Err(AssetObjects.NullReference)
    ensures t.callbacks.Some? && !t.callbacks.value.hasFailure ==> r == Ok(NoCall)
    ensures t.callbacks.Some? && t.callbacks.value.hasFailure ==>
              r == Ok(FailureCalled(t.callbacks.value.id, t.address, status, errorMessage, t.userData))
    ensures r.Ok? ==> !r.value.SuccessCalled?
  {
    match t.callbacks
    case None => Err(AssetObjects.NullReference)
    case Some(cb) =>
      if cb.hasFailure then Ok(FailureCalled(cb.id, t.address, status, errorMessage, t.userData))
      else Ok(NoCall)
  }

  /** A created task routes its outcome to the callback set it was created
      with, and to no other; after `Clear` no callback can be reached. */
  lemma HooksReachOnlyOwnCallbacks(serial: int, acquired: LoadTask, req: TaskRequest,
                                   assetObject: AssetObjects.AssetObject, duration: Float,
                                   status: LoadResourceStatus, errorMessage: NString)
    requires Int32.InRange(serial) && acquired.kind == req.Kind()
    requires req.callbacks.Some? && req.callbacks.value.hasSuccess && req.callbacks.value.hasFailure
    ensures var t := CreateFrom(serial, acquired, req).1;
            && OnLoadAssetSuccess(t, Some(assetObject), duration)
                 == Ok(SuccessCalled(req.callbacks.value.id, req.address, assetObject.asset, duration, req.userData))
            && OnLoadAssetFailure(t, status, errorMessage)
                 == Ok(FailureCalled(req.callbacks.value.id, req.address, status, errorMessage, req.userData))
            && OnLoadAssetSuccess(Clear(t), Some(assetObject), duration) == Err(AssetObjects.NullReference)
            && OnLoadAssetFailure(Clear(t), status, errorMessage) == Err(AssetObjects.NullReference)
  {
  }

  /** A run of `Create` calls, asset and scene requests mixed, each on a
      newly constructed instance: the serial counter after the run and the
      tasks in creation order. */
  function CreateMany(serial: int, reqs: seq<TaskRequest>): (r: (int, seq<LoadTask>))
    requires Int32.MinValue <= serial && serial + |reqs| <= Int32.MaxValue
    ensures r.0 == serial + |reqs| && |r.1| == |reqs|
    ensures forall i :: 0 <= i < |reqs| ==> r.1[i].serialId == serial + i + 1
    ensures forall i :: 0 <= i < |reqs| ==> r.1[i].kind == reqs[i].Kind() && r.1[i].address == reqs[i].address
    decreases |reqs|
  {
    if reqs == [] then (serial, [])
    else
      var (next, t) := CreateFrom(serial, Constructed(reqs[0].Kind()), reqs[0]);
      var (last, ts) := CreateMany(next, reqs[1..]);
      (last, [t] + ts)
  }

  /** Serial ids grow strictly with creation order, across both task kinds,
      and the first task of the process gets serial 1. */
  lemma SerialsStrictlyIncrease(serial: int, reqs: seq<TaskRequest>, i: nat, j: nat)
    requires Int32.MinValue <= serial && serial + |reqs| <= Int32.MaxValue
    requires i < j < |reqs|
    ensures CreateMany(serial, reqs).1[i].serialId < CreateMany(serial, reqs).1[j].serialId
    ensures serial == 0 ==> CreateMany(serial, reqs).1[0].serialId == 1
  {
  }
}

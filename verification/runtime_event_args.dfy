/* Pooled event records of the runtime layer. Each one is created from the
   core event it forwards and copies that event's fields. */

/** `OpenUIFormFailureEventArgs` of the runtime layer: a copy of the core
    record of the same name. */
module OpenUIFormFailureEvents {
  import opened Common
  import opened Addresses
  import ReferencePool
  import Core = CoreOpenUIFormFailureEvents

  datatype OpenUIFormFailureEventArgs = OpenUIFormFailureEventArgs(
    serialId: int,
    uiFormAssetAddress: AssetAddress,
    uiGroupName: NString,
    pauseCoveredUIForm: bool,
    errorMessage: NString,
    userData: Ref)

  /** The constructor state: the same defaults as the core record. */
  const Fresh: OpenUIFormFailureEventArgs :=
    OpenUIFormFailureEventArgs(0, Empty, Null, false, Null, NullRef)

  /** `Create(e)`: acquire, then copy the six fields of the core event. */
  function Create(pool: ReferencePool.Pool<OpenUIFormFailureEventArgs>, pick: nat, e: Core.OpenUIFormFailureEventArgs)
    : (r: (ReferencePool.Pool<OpenUIFormFailureEventArgs>, OpenUIFormFailureEventArgs))
    ensures r.0 == ReferencePool.Acquire(pool, Fresh, pick).0
    ensures r.1.serialId == e.serialId && r.1.uiFormAssetAddress == e.uiFormAssetAddress
    ensures r.1.uiGroupName == e.uiGroupName && r.1.pauseCoveredUIForm == e.pauseCoveredUIForm
    ensures r.1.errorMessage == e.errorMessage && r.1.userData == e.userData
  {
    var (rest, x) := ReferencePool.Acquire(pool, Fresh, pick);
    (rest, x.(serialId := e.serialId, uiFormAssetAddress := e.uiFormAssetAddress,
              uiGroupName := e.uiGroupName, pauseCoveredUIForm := e.pauseCoveredUIForm,
              errorMessage := e.errorMessage, userData := e.userData))
  }

  function Clear(e: OpenUIFormFailureEventArgs): (r: OpenUIFormFailureEventArgs)
    ensures r == Fresh
  {
    e.(serialId := 0, uiFormAssetAddress := Empty, uiGroupName := Null,
       pauseCoveredUIForm := false, errorMessage := Null, userData := NullRef)
  }

  /** The runtime constructor state mirrors the core one field by field. */
  lemma FreshMatchesCoreFresh()
    ensures Fresh.serialId == Core.Fresh.serialId
    ensures Fresh.uiFormAssetAddress == Core.Fresh.uiFormAssetAddress
    ensures Fresh.uiGroupName == Core.Fresh.uiGroupName
    ensures Fresh.pauseCoveredUIForm == Core.Fresh.pauseCoveredUIForm
    ensures Fresh.errorMessage == Core.Fresh.errorMessage
    ensures Fresh.userData == Core.Fresh.userData
  {
  }

  lemma ClearAfterCreateIsFresh(pool: ReferencePool.Pool<OpenUIFormFailureEventArgs>, pick: nat,
                                e: Core.OpenUIFormFailureEventArgs)
    ensures var x := Create(pool, pick, e).1;
            Clear(x) == Fresh && Clear(Clear(x)) == Clear(x)
  {
  }

  lemma ReleasedRecordComesBackFresh(pool: ReferencePool.Pool<OpenUIFormFailureEventArgs>,
                                     e: OpenUIFormFailureEventArgs, pick: nat)
    requires forall i :: 0 <= i < |pool.free| ==> pool.free[i] == Fresh
    ensures ReferencePool.Acquire(ReferencePool.Release(pool, e, Clear), Fresh, pick).1 == Fresh
  {
    ReferencePool.ReleaseThenAcquireIsFresh(pool, e, Fresh, pick, Clear);
  }
}

/** `PlaySoundSuccessEventArgs` of the runtime layer. The core event's user
    data is expected to be the `PlaySoundInfo` the sound component attached;
    `Create` unpacks it and gives it back to the pool. */
module PlaySoundSuccessEvents {
  import opened Common
  import opened Addresses
  import ReferencePool

  /** The two fields of `PlaySoundInfo` that `Create` reads. */
  datatype PlaySoundInfo = PlaySoundInfo(bindingEntity: Ref, userData: Ref)

  /** The user data of the core event, as the cast sees it. */
  datatype SoundUserData =
    | Info(info: PlaySoundInfo)   // a `PlaySoundInfo`
    | Other(other: Ref)           // anything else; `Other(NullRef)` is `null`

  /** The fields of the core `PlaySoundSuccessEventArgs` that `Create` reads. */
  datatype CorePlaySoundSuccess = CorePlaySoundSuccess(
    serialId: int,
    soundAssetAddress: AssetAddress,
    soundAgent: Ref,
    duration: Float,
    userData: SoundUserData)

  datatype PlaySoundSuccessEventArgs = PlaySoundSuccessEventArgs(
    serialId: int,
    soundAssetAddress: AssetAddress,
    soundAgent: Ref,
    duration: Float,
    bindingEntity: Ref,
    userData: Ref)

  const Fresh: PlaySoundSuccessEventArgs := PlaySoundSuccessEventArgs(0, Empty, NullRef, Zero, NullRef, NullRef)

  datatype CreateOutcome =
    | Created(pool: ReferencePool.Pool<PlaySoundSuccessEventArgs>,
              record: PlaySoundSuccessEventArgs,
              infoPool: ReferencePool.Pool<PlaySoundInfo>)
      /** the cast of a user data that is no `PlaySoundInfo` throws, before anything is acquired */
    | InvalidCast
      /** a `null` user data casts to `null`; reading its fields throws after the acquire */
    | NullReference(pool: ReferencePool.Pool<PlaySoundSuccessEventArgs>)

  /** `Create(e)`: cast the user data, acquire a record, copy the event's
      serial id, address, agent and duration and the info's entity and user
      data, then release the info (`clearInfo` is its `Clear`). */
  function Create(pool: ReferencePool.Pool<PlaySoundSuccessEventArgs>, pick: nat,
                  infoPool: ReferencePool.Pool<PlaySoundInfo>, clearInfo: PlaySoundInfo -> PlaySoundInfo,
                  e: CorePlaySoundSuccess)
    : (r: CreateOutcome)
    ensures e.userData.Other? && e.userData.other.Ref? <==> r.InvalidCast?
    ensures e.userData == Other(NullRef) <==> r.NullReference?
    ensures r.NullReference? ==> r.pool == ReferencePool.Acquire(pool, Fresh, pick).0
    ensures r.Created? ==>
              && e.userData.Info?
              && r.pool == ReferencePool.Acquire(pool, Fresh, pick).0
              && r.record == PlaySoundSuccessEventArgs(e.serialId, e.soundAssetAddress, e.soundAgent,
                                                       e.duration, e.userData.info.bindingEntity,
                                                       e.userData.info.userData)
              && r.infoPool == ReferencePool.Release(infoPool, e.userData.info, clearInfo)
  {
    match e.userData
    case Other(o) =>
      if o.Ref? then InvalidCast
      else NullReference(ReferencePool.Acquire(pool, Fresh, pick).0)
    case Info(info) =>
      var (rest, x) := ReferencePool.Acquire(pool, Fresh, pick);
      var record := x.(serialId := e.serialId, soundAssetAddress := e.soundAssetAddress,
                       soundAgent := e.soundAgent, duration := e.duration,
                       bindingEntity := info.bindingEntity, userData := info.userData);
      Created(rest, record, ReferencePool.Release(infoPool, info, clearInfo))
  }

  /** The info's entity and user data reach the record even when the info's
      own `Clear` wipes them on release: they are read before the release. */
  lemma InfoIsReadBeforeRelease(pool: ReferencePool.Pool<PlaySoundSuccessEventArgs>, pick: nat,
                                infoPool: ReferencePool.Pool<PlaySoundInfo>, e: CorePlaySoundSuccess)
    requires e.userData.Info?
    ensures var clearInfo := (i: PlaySoundInfo) => PlaySoundInfo(NullRef, NullRef);
            var r := Create(pool, pick, infoPool, clearInfo, e);
            && r.Created?
            && r.record.bindingEntity == e.userData.info.bindingEntity
            && r.record.userData == e.userData.info.userData
            && r.infoPool.free == infoPool.free + [PlaySoundInfo(NullRef, NullRef)]
  {
  }

  function Clear(e: PlaySoundSuccessEventArgs): (r: PlaySoundSuccessEventArgs)
    ensures r == Fresh
  {
    e.(serialId := 0, soundAssetAddress := Empty, soundAgent := NullRef, duration := Zero,
       bindingEntity := NullRef, userData := NullRef)
  }

  lemma ClearAfterCreateIsFresh(pool: ReferencePool.Pool<PlaySoundSuccessEventArgs>, pick: nat,
                                infoPool: ReferencePool.Pool<PlaySoundInfo>,
                                clearInfo: PlaySoundInfo -> PlaySoundInfo, e: CorePlaySoundSuccess)
    requires Create(pool, pick, infoPool, clearInfo, e).Created?
    ensures var x := Create(pool, pick, infoPool, clearInfo, e).record;
            Clear(x) == Fresh && Clear(Clear(x)) == Clear(x)
  {
  }

  lemma ReleasedRecordComesBackFresh(pool: ReferencePool.Pool<PlaySoundSuccessEventArgs>,
                                     e: PlaySoundSuccessEventArgs, pick: nat)
    requires forall i :: 0 <= i < |pool.free| ==> pool.free[i] == Fresh
    ensures ReferencePool.Acquire(ReferencePool.Release(pool, e, Clear), Fresh, pick).1 == Fresh
  {
    ReferencePool.ReleaseThenAcquireIsFresh(pool, e, Fresh, pick, Clear);
  }
}

/** `LoadSceneFailureEventArgs` of the runtime layer. */
module LoadSceneFailureEvents {
  import opened Common
  import ReferencePool

  /** The fields of the core scene-load-failure event that `Create` reads. */
  datatype CoreLoadSceneFailure = CoreLoadSceneFailure(
    packageName: NString,
    sceneAssetName: NString,
    errorMessage: NString,
    userData: Ref)

  datatype LoadSceneFailureEventArgs = LoadSceneFailureEventArgs(
    packageName: NString,
    sceneAssetName: NString,
    errorMessage: NString,
    userData: Ref)

  const Fresh: LoadSceneFailureEventArgs := LoadSceneFailureEventArgs(Null, Null, Null, NullRef)

  function Create(pool: ReferencePool.Pool<LoadSceneFailureEventArgs>, pick: nat, e: CoreLoadSceneFailure)
    : (r: (ReferencePool.Pool<LoadSceneFailureEventArgs>, LoadSceneFailureEventArgs))
    ensures r.0 == ReferencePool.Acquire(pool, Fresh, pick).0
    ensures r.1.packageName == e.packageName && r.1.sceneAssetName == e.sceneAssetName
    ensures r.1.errorMessage == e.errorMessage && r.1.userData == e.userData
  {
    var (rest, x) := ReferencePool.Acquire(pool, Fresh, pick);
    (rest, x.(packageName := e.packageName, sceneAssetName := e.sceneAssetName,
              errorMessage := e.errorMessage, userData := e.userData))
  }

  function Clear(e: LoadSceneFailureEventArgs): (r: LoadSceneFailureEventArgs)
    ensures r == Fresh
  {
    e.(packageName := Null, sceneAssetName := Null, errorMessage := Null, userData := NullRef)
  }

  lemma ClearAfterCreateIsFresh(pool: ReferencePool.Pool<LoadSceneFailureEventArgs>, pick: nat,
                                e: CoreLoadSceneFailure)
    ensures var x := Create(pool, pick, e).1;
            Clear(x) == Fresh && Clear(Clear(x)) == Clear(x)
  {
  }

  lemma ReleasedRecordComesBackFresh(pool: ReferencePool.Pool<LoadSceneFailureEventArgs>,
                                     e: LoadSceneFailureEventArgs, pick: nat)
    requires forall i :: 0 <= i < |pool.free| ==> pool.free[i] == Fresh
    ensures ReferencePool.Acquire(ReferencePool.Release(pool, e, Clear), Fresh, pick).1 == Fresh
  {
    ReferencePool.ReleaseThenAcquireIsFresh(pool, e, Fresh, pick, Clear);
  }
}

/** `NetworkClosedEventArgs` of the runtime layer. */
module NetworkClosedEvents {
  import opened Common
  import ReferencePool

  /** The field of the core network-closed event that `Create` reads. */
  datatype CoreNetworkClosed = CoreNetworkClosed(networkChannel: Ref)

  datatype NetworkClosedEventArgs = NetworkClosedEventArgs(networkChannel: Ref)

  const Fresh: NetworkClosedEventArgs := NetworkClosedEventArgs(NullRef)

  function Create(pool: ReferencePool.Pool<NetworkClosedEventArgs>, pick: nat, e: CoreNetworkClosed)
    : (r: (ReferencePool.Pool<NetworkClosedEventArgs>, NetworkClosedEventArgs))
    ensures r.0 == ReferencePool.Acquire(pool, Fresh, pick).0
    ensures r.1.networkChannel == e.networkChannel
  {
    var (rest, x) := ReferencePool.Acquire(pool, Fresh, pick);
    (rest, x.(networkChannel := e.networkChannel))
  }

  function Clear(e: NetworkClosedEventArgs): (r: NetworkClosedEventArgs)
    ensures r == Fresh
  {
    e.(networkChannel := NullRef)
  }

  lemma ClearAfterCreateIsFresh(pool: ReferencePool.Pool<NetworkClosedEventArgs>, pick: nat, e: CoreNetworkClosed)
    ensures var x := Create(pool, pick, e).1;
            Clear(x) == Fresh && Clear(Clear(x)) == Clear(x)
  {
  }

  lemma ReleasedRecordComesBackFresh(pool: ReferencePool.Pool<NetworkClosedEventArgs>,
                                     e: NetworkClosedEventArgs, pick: nat)
    requires forall i :: 0 <= i < |pool.free| ==> pool.free[i] == Fresh
    ensures ReferencePool.Acquire(ReferencePool.Release(pool, e, Clear), Fresh, pick).1 == Fresh
  {
    ReferencePool.ReleaseThenAcquireIsFresh(pool, e, Fresh, pick, Clear);
  }
}

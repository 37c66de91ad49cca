/* Pooled event records raised by the framework core. Each record has a
   constructor state, a `Create` that acquires an instance from the
   reference pool and overwrites every field with its arguments, and a
   `Clear` that restores the constructor state. */

/** `Core.UI.OpenUIFormFailureEventArgs`. */
module CoreOpenUIFormFailureEvents {
  import opened Common
  import opened Addresses
  import ReferencePool

  datatype OpenUIFormFailureEventArgs = OpenUIFormFailureEventArgs(
    serialId: int,
    uiFormAssetAddress: AssetAddress,
    uiGroupName: NString,
    pauseCoveredUIForm: bool,
    errorMessage: NString,
    userData: Ref)

  /** What the constructor assigns. */
  const Fresh: OpenUIFormFailureEventArgs :=
    OpenUIFormFailureEventArgs(0, Empty, Null, false, Null, NullRef)

  function Create(pool: ReferencePool.Pool<OpenUIFormFailureEventArgs>, pick: nat,
                  serialId: int, uiFormAssetAddress: AssetAddress, uiGroupName: NString,
                  pauseCoveredUIForm: bool, errorMessage: NString, userData: Ref)
    : (r: (ReferencePool.Pool<OpenUIFormFailureEventArgs>, OpenUIFormFailureEventArgs))
    ensures r.0 == ReferencePool.Acquire(pool, Fresh, pick).0
    ensures r.1 == OpenUIFormFailureEventArgs(serialId, uiFormAssetAddress, uiGroupName,
                                              pauseCoveredUIForm, errorMessage, userData)
  {
    var (rest, e) := ReferencePool.Acquire(pool, Fresh, pick);
    (rest, e.(serialId := serialId, uiFormAssetAddress := uiFormAssetAddress,
              uiGroupName := uiGroupName, pauseCoveredUIForm := pauseCoveredUIForm,
              errorMessage := errorMessage, userData := userData))
  }

  function Clear(e: OpenUIFormFailureEventArgs): (r: OpenUIFormFailureEventArgs)
    ensures r == Fresh
  {
    e.(serialId := 0, uiFormAssetAddress := Empty, uiGroupName := Null,
       pauseCoveredUIForm := false, errorMessage := Null, userData := NullRef)
  }

  lemma ClearAfterCreateIsFresh(pool: ReferencePool.Pool<OpenUIFormFailureEventArgs>, pick: nat,
                                serialId: int, uiFormAssetAddress: AssetAddress, uiGroupName: NString,
                                pauseCoveredUIForm: bool, errorMessage: NString, userData: Ref)
    ensures var e := Create(pool, pick, serialId, uiFormAssetAddress, uiGroupName,
                            pauseCoveredUIForm, errorMessage, userData).1;
            Clear(e) == Fresh && Clear(Clear(e)) == Clear(e)
  {
  }

  lemma ReleasedRecordComesBackFresh(pool: ReferencePool.Pool<OpenUIFormFailureEventArgs>,
                                     e: OpenUIFormFailureEventArgs, pick: nat)
    requires forall i :: 0 <= i < |pool.free| ==> pool.free[i] == Fresh
    ensures ReferencePool.Acquire(ReferencePool.Release(pool, e, Clear), Fresh, pick).1 == Fresh
  {
    ReferencePool.ReleaseThenAcquireIsFresh(pool, e, Fresh, pick, Clear);
  }
}

/** `Core.UI.CloseUIFormCompleteEventArgs`. */
module CloseUIFormCompleteEvents {
  import opened Common
  import opened Addresses
  import ReferencePool

  datatype CloseUIFormCompleteEventArgs = CloseUIFormCompleteEventArgs(
    serialId: int,
    uiFormAssetAddress: AssetAddress,
    uiGroup: Ref,
    userData: Ref)

  const Fresh: CloseUIFormCompleteEventArgs := CloseUIFormCompleteEventArgs(0, Empty, NullRef, NullRef)

  function Create(pool: ReferencePool.Pool<CloseUIFormCompleteEventArgs>, pick: nat,
                  serialId: int, uiFormAssetAddress: AssetAddress, uiGroup: Ref, userData: Ref)
    : (r: (ReferencePool.Pool<CloseUIFormCompleteEventArgs>, CloseUIFormCompleteEventArgs))
    ensures r.0 == ReferencePool.Acquire(pool, Fresh, pick).0
    ensures r.1 == CloseUIFormCompleteEventArgs(serialId, uiFormAssetAddress, uiGroup, userData)
  {
    var (rest, e) := ReferencePool.Acquire(pool, Fresh, pick);
    (rest, e.(serialId := serialId, uiFormAssetAddress := uiFormAssetAddress,
              uiGroup := uiGroup, userData := userData))
  }

  function Clear(e: CloseUIFormCompleteEventArgs): (r: CloseUIFormCompleteEventArgs)
    ensures r == Fresh
  {
    e.(serialId := 0, uiFormAssetAddress := Empty, uiGroup := NullRef, userData := NullRef)
  }

  lemma ClearAfterCreateIsFresh(pool: ReferencePool.Pool<CloseUIFormCompleteEventArgs>, pick: nat,
                                serialId: int, uiFormAssetAddress: AssetAddress, uiGroup: Ref, userData: Ref)
    ensures var e := Create(pool, pick, serialId, uiFormAssetAddress, uiGroup, userData).1;
            Clear(e) == Fresh && Clear(Clear(e)) == Clear(e)
  {
  }

  lemma ReleasedRecordComesBackFresh(pool: ReferencePool.Pool<CloseUIFormCompleteEventArgs>,
                                     e: CloseUIFormCompleteEventArgs, pick: nat)
    requires forall i :: 0 <= i < |pool.free| ==> pool.free[i] == Fresh
    ensures ReferencePool.Acquire(ReferencePool.Release(pool, e, Clear), Fresh, pick).1 == Fresh
  {
    ReferencePool.ReleaseThenAcquireIsFresh(pool, e, Fresh, pick, Clear);
  }
}

/** `Core.Resource.ResourcePackageDownloadUpdateEventArgs`. `Create`
    stores its arguments unchecked: nothing relates the current counts to
    the totals, and the progress is not confined to 0..1. */
module ResourcePackageDownloadUpdateEvents {
  import opened Common
  import ReferencePool

  datatype ResourcePackageDownloadUpdateEventArgs = ResourcePackageDownloadUpdateEventArgs(
    packageName: NString,
    progress: Float,
    totalDownloadCount: int,
    currentDownloadCount: int,
    totalDownloadBytes: int,
    currentDownloadBytes: int)

  const Fresh: ResourcePackageDownloadUpdateEventArgs :=
    ResourcePackageDownloadUpdateEventArgs(Null, Zero, 0, 0, 0, 0)

  function Create(pool: ReferencePool.Pool<ResourcePackageDownloadUpdateEventArgs>, pick: nat,
                  packageName: NString, progress: Float, totalDownloadCount: int,
                  currentDownloadCount: int, totalDownloadBytes: int, currentDownloadBytes: int)
    : (r: (ReferencePool.Pool<ResourcePackageDownloadUpdateEventArgs>, ResourcePackageDownloadUpdateEventArgs))
    ensures r.0 == ReferencePool.Acquire(pool, Fresh, pick).0
    ensures r.1 == ResourcePackageDownloadUpdateEventArgs(packageName, progress, totalDownloadCount,
                                                          currentDownloadCount, totalDownloadBytes,
                                                          currentDownloadBytes)
  {
    var (rest, e) := ReferencePool.Acquire(pool, Fresh, pick);
    (rest, e.(packageName := packageName, progress := progress,
              totalDownloadCount := totalDownloadCount, currentDownloadCount := currentDownloadCount,
              totalDownloadBytes := totalDownloadBytes, currentDownloadBytes := currentDownloadBytes))
  }

  function Clear(e: ResourcePackageDownloadUpdateEventArgs): (r: ResourcePackageDownloadUpdateEventArgs)
    ensures r == Fresh
  {
    e.(packageName := Null, progress := Zero, totalDownloadCount := 0, currentDownloadCount := 0,
       totalDownloadBytes := 0, currentDownloadBytes := 0)
  }

  /** `Create` accepts counts that contradict each other: more files done
      than there are in all, and negative byte totals. */
  lemma CreateChecksNothing(pool: ReferencePool.Pool<ResourcePackageDownloadUpdateEventArgs>, pick: nat)
    ensures var e := Create(pool, pick, Str("pkg"), Float(0x4000_0000), 1, 5, -1, 7).1;
            e.currentDownloadCount > e.totalDownloadCount && e.totalDownloadBytes < 0
  {
  }

  lemma ClearAfterCreateIsFresh(pool: ReferencePool.Pool<ResourcePackageDownloadUpdateEventArgs>, pick: nat,
                                packageName: NString, progress: Float, totalDownloadCount: int,
                                currentDownloadCount: int, totalDownloadBytes: int, currentDownloadBytes: int)
    ensures var e := Create(pool, pick, packageName, progress, totalDownloadCount, currentDownloadCount,
                            totalDownloadBytes, currentDownloadBytes).1;
            Clear(e) == Fresh && Clear(Clear(e)) == Clear(e)
  {
  }

  lemma ReleasedRecordComesBackFresh(pool: ReferencePool.Pool<ResourcePackageDownloadUpdateEventArgs>,
                                     e: ResourcePackageDownloadUpdateEventArgs, pick: nat)
    requires forall i :: 0 <= i < |pool.free| ==> pool.free[i] == Fresh
    ensures ReferencePool.Acquire(ReferencePool.Release(pool, e, Clear), Fresh, pick).1 == Fresh
  {
    ReferencePool.ReleaseThenAcquireIsFresh(pool, e, Fresh, pick, Clear);
  }
}

/** `Core.Resource.ResourcePackageDownloadFailureEventArgs`. */
module ResourcePackageDownloadFailureEvents {
  import opened Common
  import ReferencePool

  datatype ResourcePackageDownloadFailureEventArgs = ResourcePackageDownloadFailureEventArgs(
    packageName: NString,
    fileName: NString,
    errorMessage: NString)

  const Fresh: ResourcePackageDownloadFailureEventArgs := ResourcePackageDownloadFailureEventArgs(Null, Null, Null)

  function Create(pool: ReferencePool.Pool<ResourcePackageDownloadFailureEventArgs>, pick: nat,
                  packageName: NString, fileName: NString, errorMessage: NString)
    : (r: (ReferencePool.Pool<ResourcePackageDownloadFailureEventArgs>, ResourcePackageDownloadFailureEventArgs))
    ensures r.0 == ReferencePool.Acquire(pool, Fresh, pick).0
    ensures r.1 == ResourcePackageDownloadFailureEventArgs(packageName, fileName, errorMessage)
  {
    var (rest, e) := ReferencePool.Acquire(pool, Fresh, pick);
    (rest, e.(packageName := packageName, fileName := fileName, errorMessage := errorMessage))
  }

  function Clear(e: ResourcePackageDownloadFailureEventArgs): (r: ResourcePackageDownloadFailureEventArgs)
    ensures r == Fresh
  {
    e.(packageName := Null, fileName := Null, errorMessage := Null)
  }

  lemma ClearAfterCreateIsFresh(pool: ReferencePool.Pool<ResourcePackageDownloadFailureEventArgs>, pick: nat,
                                packageName: NString, fileName: NString, errorMessage: NString)
    ensures var e := Create(pool, pick, packageName, fileName, errorMessage).1;
            Clear(e) == Fresh && Clear(Clear(e)) == Clear(e)
  {
  }

  lemma ReleasedRecordComesBackFresh(pool: ReferencePool.Pool<ResourcePackageDownloadFailureEventArgs>,
                                     e: ResourcePackageDownloadFailureEventArgs, pick: nat)
    requires forall i :: 0 <= i < |pool.free| ==> pool.free[i] == Fresh
    ensures ReferencePool.Acquire(ReferencePool.Release(pool, e, Clear), Fresh, pick).1 == Fresh
  {
    ReferencePool.ReleaseThenAcquireIsFresh(pool, e, Fresh, pick, Clear);
  }
}

/** `Core.Resource.ResourcePackageDownloadSuccessEventArgs`. */
module ResourcePackageDownloadSuccessEvents {
  import opened Common
  import ReferencePool

  datatype ResourcePackageDownloadSuccessEventArgs = ResourcePackageDownloadSuccessEventArgs(packageName: NString)

  const Fresh: ResourcePackageDownloadSuccessEventArgs := ResourcePackageDownloadSuccessEventArgs(Null)

  function Create(pool: ReferencePool.Pool<ResourcePackageDownloadSuccessEventArgs>, pick: nat, packageName: NString)
    : (r: (ReferencePool.Pool<ResourcePackageDownloadSuccessEventArgs>, ResourcePackageDownloadSuccessEventArgs))
    ensures r.0 == ReferencePool.Acquire(pool, Fresh, pick).0
    ensures r.1.packageName == packageName
  {
    var (rest, e) := ReferencePool.Acquire(pool, Fresh, pick);
    (rest, e.(packageName := packageName))
  }

  function Clear(e: ResourcePackageDownloadSuccessEventArgs): (r: ResourcePackageDownloadSuccessEventArgs)
    ensures r == Fresh
  {
    e.(packageName := Null)
  }

  lemma ClearAfterCreateIsFresh(pool: ReferencePool.Pool<ResourcePackageDownloadSuccessEventArgs>, pick: nat,
                                packageName: NString)
    ensures var e := Create(pool, pick, packageName).1;
            Clear(e) == Fresh && Clear(Clear(e)) == Clear(e)
  {
  }

  lemma ReleasedRecordComesBackFresh(pool: ReferencePool.Pool<ResourcePackageDownloadSuccessEventArgs>,
                                     e: ResourcePackageDownloadSuccessEventArgs, pick: nat)
    requires forall i :: 0 <= i < |pool.free| ==> pool.free[i] == Fresh
    ensures ReferencePool.Acquire(ReferencePool.Release(pool, e, Clear), Fresh, pick).1 == Fresh
  {
    ReferencePool.ReleaseThenAcquireIsFresh(pool, e, Fresh, pick, Clear);
  }
}

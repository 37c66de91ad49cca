/** `AssetObject`: the pooled wrapper a load agent hands to a task, holding
    the loaded asset, whether it is a scene, and the caller's user data. */
module AssetObjects {
  import opened Common
  import ReferencePool

  datatype AssetObject = AssetObject(asset: Ref, isScene: bool, userData: Ref)

  /** A newly constructed instance: the auto-properties' defaults. */
  const Fresh: AssetObject := AssetObject(NullRef, false, NullRef)

  /** The exception a member access on a `null` reference raises. */
  datatype Fault = NullReference

  /** `Create`: acquire an instance from the pool, then overwrite all three
      fields with the arguments. */
  function Create(pool: ReferencePool.Pool<AssetObject>, pick: nat, asset: Ref, isScene: bool, userData: Ref)
    : (r: (ReferencePool.Pool<AssetObject>, AssetObject))
    ensures r.0 == ReferencePool.Acquire(pool, Fresh, pick).0
    ensures r.1.asset == asset && r.1.isScene == isScene && r.1.userData == userData
  {
    var (rest, o) := ReferencePool.Acquire(pool, Fresh, pick);
    (rest, o.(asset := asset, isScene := isScene, userData := userData))
  }

  /** `Clear`: asset and user data back to `null`, the scene flag to false. */
  function Clear(o: AssetObject): (r: AssetObject)
    ensures r == Fresh
    ensures r.asset.NullRef? && !r.isScene && r.userData.NullRef?
  {
    o.(asset := NullRef, isScene := false, userData := NullRef)
  }

  /** `GetHashCode`: delegates to the asset, so it faults once `Asset` is
      `null`. The asset's own hash is a parameter. */
  function GetHashCode(o: AssetObject, hash: Ref -> int): (r: Result<int, Fault>)
    ensures r.Ok? <==> o.asset.Ref?
    ensures r.Ok? ==> r.value == hash(o.asset)
  {
    if o.asset.NullRef? then Err(NullReference) else Ok(hash(o.asset))
  }

  /** `ToString`: delegates to the asset, likewise. */
  function ToString(o: AssetObject, show: Ref -> string): (r: Result<string, Fault>)
    ensures r.Ok? <==> o.asset.Ref?
    ensures r.Ok? ==> r.value == show(o.asset)
  {
    if o.asset.NullRef? then Err(NullReference) else Ok(show(o.asset))
  }

  /** Clearing a created object gives back the newly constructed state, and
      clearing again changes nothing. */
  lemma ClearAfterCreateIsFresh(pool: ReferencePool.Pool<AssetObject>, pick: nat, asset: Ref, isScene: bool, userData: Ref)
    ensures Clear(Create(pool, pick, asset, isScene, userData).1) == Fresh
    ensures Clear(Clear(Create(pool, pick, asset, isScene, userData).1)) == Fresh
  {
  }

  /** After `Clear` neither hash code nor string form is defined. */
  lemma ClearedObjectHasNoHashOrString(o: AssetObject, hash: Ref -> int, show: Ref -> string)
    ensures GetHashCode(Clear(o), hash).Err?
    ensures ToString(Clear(o), show).Err?
  {
  }

  /** An object that went back to the pool comes out again in the
      constructor state, whatever it held. */
  lemma ReleasedObjectComesBackFresh(pool: ReferencePool.Pool<AssetObject>, o: AssetObject, pick: nat)
    requires forall i :: 0 <= i < |pool.free| ==> pool.free[i] == Fresh
    ensures ReferencePool.Acquire(ReferencePool.Release(pool, o, Clear), Fresh, pick).1 == Fresh
  {
    ReferencePool.ReleaseThenAcquireIsFresh(pool, o, Fresh, pick, Clear);
  }
}

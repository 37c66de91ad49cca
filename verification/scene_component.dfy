/** The scene-order bookkeeping of `SceneComponent`: the scene name recorded
    for each loaded scene, the order given to each scene, and the rule that
    activates the loaded scene of highest order. Scene activation is an
    output: either the framework's own scene or the scene with a given
    name. */
module SceneComponent {
  import opened Common
  import opened Addresses
  import SceneManager

  datatype SceneComponentState = SceneComponentState(
    names: map<AssetAddress, NString>,   // m_SceneAssetAddressToSceneName
    order: map<AssetAddress, int>)       // m_SceneOrder

  const Initial: SceneComponentState := SceneComponentState(map[], map[])

  /** The scene `RefreshSceneOrder` asks to make active. */
  datatype SceneHandle = FrameworkScene | NamedScene(name: NString)

  /** An error the component logs and then returns from. */
  datatype ComponentLog = InvalidAddress | NotLoadedOrLoading(address: AssetAddress)

  /** What a component operation does: log and change nothing; change the
      maps and possibly ask for a scene to be activated; or let the scene
      manager's exception through after the maps were changed. */
  datatype ComponentOutcome =
    | Logged(log: ComponentLog)
    | Changed(state: SceneComponentState, activation: Option<SceneHandle>)
    | Raised(state: SceneComponentState, error: SceneManager.SceneError)

  /** `GetSceneName`: the recorded name, or `None` when there is none, which
      the component logs and reports as `null`. */
  function GetSceneName(comp: SceneComponentState, a: AssetAddress): (r: Option<NString>)
    ensures r.Some? <==> a in comp.names
    ensures r.Some? ==> r.value == comp.names[a]
  {
    if a in comp.names then Some(comp.names[a]) else None
  }

  /** The name the caller of `GetSceneName` goes on with. */
  function SceneNameOrNull(comp: SceneComponentState, a: AssetAddress): NString {
    match GetSceneName(comp, a)
    case Some(name) => name
    case None => Null
  }

  /** `keys` lists exactly the keys of the dictionary `order`, in the order
      the dictionary enumerates them. Repeats are not excluded; every
      property stated here holds for any such listing. */
  ghost predicate Enumerates(keys: seq<AssetAddress>, order: map<AssetAddress, int>) {
    forall k :: k in keys <==> k in order
  }

  /** Within the first `n` keys, entry `j` is a scene not being loaded whose
      order is the highest among those not being loaded, and every earlier
      scene not being loaded has a strictly lower order. */
  ghost predicate FirstHighest(keys: seq<AssetAddress>, order: map<AssetAddress, int>, loading: seq<AssetAddress>, n: int, j: int)
    requires forall k :: k in keys ==> k in order
  {
    && 0 <= j < n <= |keys| && keys[j] !in loading
    && (forall i :: 0 <= i < n && keys[i] !in loading ==> order[keys[i]] <= order[keys[j]])
    && (forall i :: 0 <= i < j && keys[i] !in loading ==> order[keys[i]] < order[keys[j]])
  }

  /** The `foreach` of `RefreshSceneOrder`: skip scenes being loaded, take
      the first remaining one, and replace it only by one of strictly greater
      order. `Empty` stands for "none found". Asking the scene manager about
      an invalid key throws. */
  method SelectActiveScene(keys: seq<AssetAddress>, order: map<AssetAddress, int>, mgr: SceneManager.SceneManagerState)
    returns (r: Result<AssetAddress, SceneManager.SceneError>)
    requires forall k :: k in keys ==> k in order
    ensures r.Err? <==> exists k :: k in keys && !IsValid(k)
    ensures r.Err? ==> r.error == SceneManager.InvalidSceneAssetName
    ensures r.Ok? ==> (r.value == Empty <==> forall k :: k in keys ==> k in mgr.loading)
    ensures r.Ok? && r.value != Empty ==>
              exists j :: FirstHighest(keys, order, mgr.loading, |keys|, j) && keys[j] == r.value
  {
    var best := Empty;
    var bestOrder := 0;
    ghost var bestIndex := 0;
    var i := 0;
    while i < |keys|
      invariant 0 <= i <= |keys|
      invariant forall m :: 0 <= m < i ==> IsValid(keys[m])
      invariant best == Empty <==> forall m :: 0 <= m < i ==> keys[m] in mgr.loading
      invariant best != Empty ==> && FirstHighest(keys, order, mgr.loading, i, bestIndex)
                                  && keys[bestIndex] == best && bestOrder == order[best]
    {
      var key := keys[i];
      var isLoading := SceneManager.SceneIsLoading(mgr, key);
      if isLoading.Err? {
        return Err(isLoading.error);
      }
      if !isLoading.value {
        if OpEquality(best, Empty) {
          best, bestOrder, bestIndex := key, order[key], i;
        } else if order[key] > bestOrder {
          best, bestOrder, bestIndex := key, order[key], i;
        }
      }
      i := i + 1;
    }
    return Ok(best);
  }

  /** The scene `RefreshSceneOrder` activates for a given enumeration: the
      framework scene when every scene with an order is being loaded (or
      there is none), otherwise the first scene of highest order. */
  ghost predicate ActivationFor(comp: SceneComponentState, loading: seq<AssetAddress>, keys: seq<AssetAddress>, target: SceneHandle)
    requires Enumerates(keys, comp.order)
  {
    if forall k :: k in keys ==> k in loading then target == FrameworkScene
    else exists j :: FirstHighest(keys, comp.order, loading, |keys|, j) && target == NamedScene(SceneNameOrNull(comp, keys[j]))
  }

  /** `RefreshSceneOrder`, up to the Unity scene lookup: which scene to
      activate. */
  method RefreshSceneOrder(comp: SceneComponentState, mgr: SceneManager.SceneManagerState, keys: seq<AssetAddress>)
    returns (r: Result<SceneHandle, SceneManager.SceneError>)
    requires Enumerates(keys, comp.order)
    ensures |comp.order| == 0 ==> r == Ok(FrameworkScene)
    ensures r.Err? <==> exists k :: k in comp.order && !IsValid(k)
    ensures r.Ok? ==> ActivationFor(comp, mgr.loading, keys, r.value)
  {
    if |comp.order| > 0 {
      var best := SelectActiveScene(keys, comp.order, mgr);
      if best.Err? {
        return Err(best.error);
      }
      if OpEquality(best.value, Empty) {
        return Ok(FrameworkScene);
      }
      return Ok(NamedScene(SceneNameOrNull(comp, best.value)));
    } else {
      assert comp.order == map[];
      return Ok(FrameworkScene);
    }
  }

  /** A scene not being loaded whose order is strictly above every other
      such scene is the one activated. */
  lemma StrictlyHighestIsActivated(comp: SceneComponentState, loading: seq<AssetAddress>, keys: seq<AssetAddress>,
                                   target: SceneHandle, a: AssetAddress)
    requires Enumerates(keys, comp.order) && ActivationFor(comp, loading, keys, target)
    requires a in comp.order && a !in loading
    requires forall k :: k in comp.order && k != a && k !in loading ==> comp.order[k] < comp.order[a]
    ensures target == NamedScene(SceneNameOrNull(comp, a))
  {
    assert a in keys;
    var j :| FirstHighest(keys, comp.order, loading, |keys|, j) && target == NamedScene(SceneNameOrNull(comp, keys[j]));
    var ia :| 0 <= ia < |keys| && keys[ia] == a;
    assert comp.order[keys[ia]] <= comp.order[keys[j]];
  }

  /** An order entry for a scene that has no recorded name (one set while
      the scene was loading, whose load then failed) still takes part in the
      selection; when it has the highest order the component asks for the
      scene named `null`. The Unity lookup that follows is not modelled. */
  lemma StaleEntryActivatesNullName(comp: SceneComponentState, loading: seq<AssetAddress>, keys: seq<AssetAddress>,
                                    target: SceneHandle, a: AssetAddress)
    requires Enumerates(keys, comp.order) && ActivationFor(comp, loading, keys, target)
    requires a in comp.order && a !in loading && a !in comp.names
    requires forall k :: k in comp.order && k != a && k !in loading ==> comp.order[k] < comp.order[a]
    ensures target == NamedScene(Null)
  {
    StrictlyHighestIsActivated(comp, loading, keys, target, a);
  }

  /** `SetActiveScene`: activate `target`; the change event (previous and
      new scene) fires only when `target` is not already active. */
  function SetActiveScene<Scene(==)>(active: Scene, target: Scene): (r: (Scene, Option<(Scene, Scene)>))
    ensures r.0 == target
    ensures r.1.Some? <==> active != target
    ensures r.1.Some? ==> r.1.value == (active, target)
  {
    if active != target then (target, Some((active, target))) else (target, None)
  }

  /** Activating the same scene twice fires the change event at most once. */
  lemma SetActiveSceneTwiceFiresOnce<Scene>(active: Scene, target: Scene)
    ensures SetActiveScene(SetActiveScene(active, target).0, target).1 == None
  {
  }

  /** `SetSceneOrder`: on a scene being loaded the order is recorded without
      refreshing; on a loaded scene it is recorded and the active scene
      refreshed; on any other scene an error is logged. `keys` enumerates
      the order dictionary after the update. */
  method SetSceneOrder(comp: SceneComponentState, mgr: SceneManager.SceneManagerState, a: AssetAddress,
                       sceneOrder: int, keys: seq<AssetAddress>)
    returns (r: ComponentOutcome)
    requires Enumerates(keys, comp.order[a := sceneOrder])
    ensures !IsValid(a) ==> r == Logged(InvalidAddress)
    ensures IsValid(a) && a in mgr.loading ==> r == Changed(comp.(order := comp.order[a := sceneOrder]), None)
    ensures IsValid(a) && a !in mgr.loading && a in mgr.loaded ==>
              && (r.Changed? || r.Raised?) && r.state == comp.(order := comp.order[a := sceneOrder])
              && (r.Changed? ==> r.activation.Some? && ActivationFor(r.state, mgr.loading, keys, r.activation.value))
    ensures IsValid(a) && a !in mgr.loading && a in mgr.loaded && r.Changed? &&
            (forall k :: k in comp.order && k != a && k !in mgr.loading ==> comp.order[k] < sceneOrder) ==>
              r.activation == Some(NamedScene(SceneNameOrNull(comp, a)))
    ensures IsValid(a) && a !in mgr.loading && a !in mgr.loaded ==> r == Logged(NotLoadedOrLoading(a))
  {
    if !IsValid(a) {
      return Logged(InvalidAddress);
    }
    var next := comp.(order := comp.order[a := sceneOrder]);
    if SceneManager.SceneIsLoading(mgr, a) == Ok(true) {
      return Changed(next, None);
    }
    if SceneManager.SceneIsLoaded(mgr, a) == Ok(true) {
      var target := RefreshSceneOrder(next, mgr, keys);
      if target.Err? {
        return Raised(next, target.error);
      }
      if forall k :: k in comp.order && k != a && k !in mgr.loading ==> comp.order[k] < sceneOrder {
        StrictlyHighestIsActivated(next, mgr.loading, keys, target.value, a);
      }
      return Changed(next, Some(target.value));
    }
    return Logged(NotLoadedOrLoading(a));
  }

  /** What the component's `UnloadScene` does. */
  datatype UnloadOutcome =
    | UnloadIgnored
    | UnloadRejected(error: SceneManager.SceneError)
    | UnloadRequested(state: SceneComponentState, manager: SceneManager.SceneManagerState)

  /** `UnloadScene`: an invalid address is logged; otherwise the request goes
      to the scene manager, and only when the manager accepts it is the
      scene's order entry dropped. The name stays until the unload
      succeeds. */
  function UnloadScene(comp: SceneComponentState, mgr: SceneManager.SceneManagerState, a: AssetAddress): (r: UnloadOutcome)
    ensures !IsValid(a) ==> r == UnloadIgnored
    ensures IsValid(a) && SceneManager.UnloadScene(mgr, a).Err? ==> r == UnloadRejected(SceneManager.UnloadScene(mgr, a).error)
    ensures SceneManager.UnloadScene(mgr, a).Ok? ==>
              && r.UnloadRequested? && r.manager == SceneManager.UnloadScene(mgr, a).value
              && a !in r.state.order && r.state.names == comp.names
              && (forall k :: k != a ==> (k in r.state.order <==> k in comp.order))
              && (forall k :: k in r.state.order ==> r.state.order[k] == comp.order[k])
  {
    if !IsValid(a) then UnloadIgnored
    else match SceneManager.UnloadScene(mgr, a)
      case Err(e) => UnloadRejected(e)
      case Ok(next) => UnloadRequested(comp.(order := comp.order - {a}), next)
  }

  /** `OnLoadSceneSuccess`: record the scene's name, give it order 0 unless
      it already has one, and refresh. `keys` enumerates the order
      dictionary after the update. */
  method OnLoadSceneSuccess(comp: SceneComponentState, mgr: SceneManager.SceneManagerState, a: AssetAddress,
                            sceneName: NString, keys: seq<AssetAddress>)
    returns (r: ComponentOutcome)
    requires Enumerates(keys, if a in comp.order then comp.order else comp.order[a := 0])
    ensures r.Changed? || r.Raised?
    ensures a in r.state.names && r.state.names[a] == sceneName
    ensures forall k :: k != a ==> (k in r.state.names <==> k in comp.names)
    ensures forall k :: k in comp.names && k != a ==> r.state.names[k] == comp.names[k]
    ensures a in comp.order ==> r.state.order == comp.order
    ensures a !in comp.order ==> r.state.order == comp.order[a := 0]
    ensures r.Raised? <==> exists k :: k in r.state.order && !IsValid(k)
    ensures r.Changed? ==> r.activation.Some? && ActivationFor(r.state, mgr.loading, keys, r.activation.value)
  {
    var names := comp.names[a := sceneName];
    var order := if a in comp.order then comp.order else comp.order[a := 0];
    var next := SceneComponentState(names, order);
    var target := RefreshSceneOrder(next, mgr, keys);
    if target.Err? {
      return Raised(next, target.error);
    }
    return Changed(next, Some(target.value));
  }

  /** `OnUnloadSceneSuccess`: forget the scene's name and order, then
      refresh. `keys` enumerates the order dictionary after the removal. */
  method OnUnloadSceneSuccess(comp: SceneComponentState, mgr: SceneManager.SceneManagerState, a: AssetAddress,
                              keys: seq<AssetAddress>)
    returns (r: ComponentOutcome)
    requires Enumerates(keys, comp.order - {a})
    ensures r.Changed? || r.Raised?
    ensures a !in r.state.names && a !in r.state.order
    ensures forall k :: k != a ==> (k in r.state.names <==> k in comp.names) && (k in r.state.order <==> k in comp.order)
    ensures forall k :: k in r.state.order ==> r.state.order[k] == comp.order[k]
    ensures forall k :: k in r.state.names ==> r.state.names[k] == comp.names[k]
    ensures r.Raised? <==> exists k :: k in r.state.order && !IsValid(k)
    ensures r.Changed? ==> r.activation.Some? && ActivationFor(r.state, mgr.loading, keys, r.activation.value)
    ensures r.Changed? && (forall k :: k in r.state.order ==> k in mgr.loading) ==> r.activation == Some(FrameworkScene)
  {
    var next := SceneComponentState(comp.names - {a}, comp.order - {a});
    var target := RefreshSceneOrder(next, mgr, keys);
    if target.Err? {
      return Raised(next, target.error);
    }
    return Changed(next, Some(target.value));
  }
}

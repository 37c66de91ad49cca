/** `SceneManager`: which scenes are loaded, being loaded and being
    unloaded. Load and unload requests go through an ordered chain of checks,
    each of which throws; an accepted request is recorded and handed to the
    resource manager, whose answer arrives later through one of four
    callbacks that move the address between the lists. */
module SceneManager {
  import opened Common
  import opened Addresses
  import Lists

  /** Which of the four event handlers have at least one subscriber. */
  datatype Handlers = Handlers(loadSuccess: bool, loadFailure: bool, unloadSuccess: bool, unloadFailure: bool)

  datatype SceneManagerState = SceneManagerState(
    loaded: seq<AssetAddress>,      // m_LoadedSceneAssetAddresses
    loading: seq<AssetAddress>,     // m_LoadingSceneAssetAddresses
    unloading: seq<AssetAddress>,   // m_UnloadingSceneAssetAddresses
    resourceManager: Ref,
    handlers: Handlers)

  /** The constructor: three empty lists, no resource manager, no handler. */
  const Initial: SceneManagerState :=
    SceneManagerState([], [], [], NullRef, Handlers(false, false, false, false))

  /** One variant per `GameFrameworkException` the manager throws. */
  datatype SceneError =
    | InvalidResourceManager            // "Resource manager is invalid."
    | InvalidSceneAssetName             // "Scene asset name is invalid."
    | ResourceManagerNotSet             // "You must set resource manager first."
    | BeingUnloaded(address: AssetAddress)
    | BeingLoaded(address: AssetAddress)
    | AlreadyLoaded(address: AssetAddress)
    | NotLoadedYet(address: AssetAddress)
    | LoadSceneFailure(message: string)
    | UnloadSceneFailure(message: string)

  /** The lists are consistent: no list repeats an address; a scene being
      loaded is neither loaded nor being unloaded; a scene being unloaded is
      still loaded; every listed address is valid; and nothing is listed
      before a resource manager is set. */
  ghost predicate Inv(s: SceneManagerState) {
    && Lists.NoDup(s.loaded) && Lists.NoDup(s.loading) && Lists.NoDup(s.unloading)
    && (forall a :: a in s.loading ==> a !in s.loaded && a !in s.unloading && IsValid(a))
    && (forall a :: a in s.unloading ==> a in s.loaded)
    && (forall a :: a in s.loaded ==> IsValid(a))
    && (s.resourceManager.NullRef? ==> s.loaded == [] && s.loading == [])
  }

  lemma InitialInv()
    ensures Inv(Initial)
  {
  }

  /** `SetResourceManager`: rejects `null`, otherwise replaces the manager. */
  function SetResourceManager(s: SceneManagerState, resourceManager: Ref): (r: Result<SceneManagerState, SceneError>)
    ensures resourceManager.NullRef? <==> r == Err(InvalidResourceManager)
    ensures r.Ok? ==> r.value.resourceManager == resourceManager
    ensures r.Ok? ==> r.value.(resourceManager := s.resourceManager) == s
  {
    if resourceManager.NullRef? then Err(InvalidResourceManager)
    else Ok(s.(resourceManager := resourceManager))
  }

  lemma SetResourceManagerKeepsInv(s: SceneManagerState, resourceManager: Ref)
    requires Inv(s)
    ensures SetResourceManager(s, resourceManager).Ok? ==> Inv(SetResourceManager(s, resourceManager).value)
  {
  }

  /** `SceneIsLoaded`: throws on an invalid address, otherwise a membership
      test. No query returns a new state: none changes anything. */
  function SceneIsLoaded(s: SceneManagerState, a: AssetAddress): (r: Result<bool, SceneError>)
    ensures r.Err? <==> !IsValid(a)
    ensures r.Err? ==> r.error == InvalidSceneAssetName
    ensures r.Ok? ==> (r.value <==> a in s.loaded)
  {
    if !IsValid(a) then Err(InvalidSceneAssetName) else Ok(a in s.loaded)
  }

  /** `SceneIsLoading`. */
  function SceneIsLoading(s: SceneManagerState, a: AssetAddress): (r: Result<bool, SceneError>)
    ensures r.Err? <==> !IsValid(a)
    ensures r.Err? ==> r.error == InvalidSceneAssetName
    ensures r.Ok? ==> (r.value <==> a in s.loading)
  {
    if !IsValid(a) then Err(InvalidSceneAssetName) else Ok(a in s.loading)
  }

  /** `SceneIsUnloading`. */
  function SceneIsUnloading(s: SceneManagerState, a: AssetAddress): (r: Result<bool, SceneError>)
    ensures r.Err? <==> !IsValid(a)
    ensures r.Err? ==> r.error == InvalidSceneAssetName
    ensures r.Ok? ==> (r.value <==> a in s.unloading)
  {
    if !IsValid(a) then Err(InvalidSceneAssetName) else Ok(a in s.unloading)
  }

  /** `LoadScene`: the checks in their order, then the address is appended
      to the loading list and the request goes to the resource manager. A
      rejection returns no state, so it leaves the lists as they were. */
  function LoadScene(s: SceneManagerState, a: AssetAddress): (r: Result<SceneManagerState, SceneError>)
    ensures !IsValid(a) ==> r == Err(InvalidSceneAssetName)
    ensures IsValid(a) && s.resourceManager.NullRef? ==> r == Err(ResourceManagerNotSet)
    ensures IsValid(a) && s.resourceManager.Ref? && a in s.unloading ==> r == Err(BeingUnloaded(a))
    ensures IsValid(a) && s.resourceManager.Ref? && a !in s.unloading && a in s.loading ==> r == Err(BeingLoaded(a))
    ensures IsValid(a) && s.resourceManager.Ref? && a !in s.unloading && a !in s.loading && a in s.loaded
            ==> r == Err(AlreadyLoaded(a))
    ensures r.Ok? <==> IsValid(a) && s.resourceManager.Ref? && a !in s.unloading && a !in s.loading && a !in s.loaded
    ensures r.Ok? ==> r.value == s.(loading := s.loading + [a])
  {
    if !IsValid(a) then Err(InvalidSceneAssetName)
    else if s.resourceManager.NullRef? then Err(ResourceManagerNotSet)
    else if SceneIsUnloading(s, a) == Ok(true) then Err(BeingUnloaded(a))
    else if SceneIsLoading(s, a) == Ok(true) then Err(BeingLoaded(a))
    else if SceneIsLoaded(s, a) == Ok(true) then Err(AlreadyLoaded(a))
    else Ok(s.(loading := s.loading + [a]))
  }

  /** `UnloadScene`: the same checks, except that the last one demands the
      scene be loaded; the address is appended to the unloading list and
      stays in the loaded one. */
  function UnloadScene(s: SceneManagerState, a: AssetAddress): (r: Result<SceneManagerState, SceneError>)
    ensures !IsValid(a) ==> r == Err(InvalidSceneAssetName)
    ensures IsValid(a) && s.resourceManager.NullRef? ==> r == Err(ResourceManagerNotSet)
    ensures IsValid(a) && s.resourceManager.Ref? && a in s.unloading ==> r == Err(BeingUnloaded(a))
    ensures IsValid(a) && s.resourceManager.Ref? && a !in s.unloading && a in s.loading ==> r == Err(BeingLoaded(a))
    ensures IsValid(a) && s.resourceManager.Ref? && a !in s.unloading && a !in s.loading && a !in s.loaded
            ==> r == Err(NotLoadedYet(a))
    ensures r.Ok? <==> IsValid(a) && s.resourceManager.Ref? && a !in s.unloading && a !in s.loading && a in s.loaded
    ensures r.Ok? ==> r.value == s.(unloading := s.unloading + [a])
  {
    if !IsValid(a) then Err(InvalidSceneAssetName)
    else if s.resourceManager.NullRef? then Err(ResourceManagerNotSet)
    else if SceneIsUnloading(s, a) == Ok(true) then Err(BeingUnloaded(a))
    else if SceneIsLoading(s, a) == Ok(true) then Err(BeingLoaded(a))
    else if SceneIsLoaded(s, a) == Ok(false) then Err(NotLoadedYet(a))
    else Ok(s.(unloading := s.unloading + [a]))
  }

  /** The event records a callback hands to a subscribed handler. */
  datatype SceneEvent =
    | LoadSceneSucceeded(address: AssetAddress, sceneAsset: Ref, duration: Float, userData: Ref)
    | LoadSceneFailed(address: AssetAddress, message: string, userData: Ref)
    | UnloadSceneSucceeded(address: AssetAddress, userData: Ref)
    | UnloadSceneFailed(address: AssetAddress, errorMessage: NString, userData: Ref)

  /** What a callback does besides updating the lists: nothing, fire an event,
      or throw. */
  datatype Notice = Silent | Fired(event: SceneEvent) | Raised(error: SceneError)

  /** The lists are updated before a callback fires or throws, so even a
      throwing callback leaves a new state behind. */
  datatype CallbackOutcome = CallbackOutcome(state: SceneManagerState, notice: Notice)

  /** `LoadSceneSuccessCallback`: out of the loading list, onto the end of
      the loaded one; the event fires when a handler is subscribed. */
  function LoadSceneSuccessCallback(s: SceneManagerState, a: AssetAddress, sceneAsset: Ref, duration: Float, userData: Ref)
    : (r: CallbackOutcome)
    ensures multiset(r.state.loading) == multiset(s.loading) - multiset{a}
    ensures r.state.loaded == s.loaded + [a]
    ensures r.state.unloading == s.unloading && r.state.resourceManager == s.resourceManager
    ensures r.state.handlers == s.handlers
    ensures s.handlers.loadSuccess ==> r.notice == Fired(LoadSceneSucceeded(a, sceneAsset, duration, userData))
    ensures !s.handlers.loadSuccess ==> r.notice == Silent
  {
    var next := s.(loading := Lists.RemoveFirst(s.loading, a), loaded := s.loaded + [a]);
    if s.handlers.loadSuccess then CallbackOutcome(next, Fired(LoadSceneSucceeded(a, sceneAsset, duration, userData)))
    else CallbackOutcome(next, Silent)
  }

  /** The message a failed load is reported with, by event or by exception. */
  function LoadFailureMessage(a: AssetAddress, status: LoadResourceStatus, errorMessage: NString): (r: string)
    ensures Contains(r, ToString(a)) && Contains(r, status.name) && Contains(r, Render(errorMessage))
  {
    ContainsFormatted3("Load scene failure, scene asset name '", ToString(a), "', status '", status.name,
                       "', error message '", Render(errorMessage), "'.");
    "Load scene failure, scene asset name '" + ToString(a) + "', status '" + status.name
      + "', error message '" + Render(errorMessage) + "'."
  }

  /** `LoadSceneFailureCallback`: out of the loading list; then the failure
      event fires, or, with no handler, the failure is thrown. */
  function LoadSceneFailureCallback(s: SceneManagerState, a: AssetAddress, status: LoadResourceStatus,
                                    errorMessage: NString, userData: Ref)
    : (r: CallbackOutcome)
    ensures multiset(r.state.loading) == multiset(s.loading) - multiset{a}
    ensures r.state.loaded == s.loaded && r.state.unloading == s.unloading
    ensures r.state.resourceManager == s.resourceManager && r.state.handlers == s.handlers
    ensures s.handlers.loadFailure ==>
              r.notice == Fired(LoadSceneFailed(a, LoadFailureMessage(a, status, errorMessage), userData))
    ensures !s.handlers.loadFailure ==> r.notice == Raised(LoadSceneFailure(LoadFailureMessage(a, status, errorMessage)))
  {
    var next := s.(loading := Lists.RemoveFirst(s.loading, a));
    var message := LoadFailureMessage(a, status, errorMessage);
    if s.handlers.loadFailure then CallbackOutcome(next, Fired(LoadSceneFailed(a, message, userData)))
    else CallbackOutcome(next, Raised(LoadSceneFailure(message)))
  }

  /** `UnloadSceneSuccessCallback`: out of both the unloading and the loaded
      list. */
  function UnloadSceneSuccessCallback(s: SceneManagerState, a: AssetAddress, userData: Ref): (r: CallbackOutcome)
    ensures multiset(r.state.unloading) == multiset(s.unloading) - multiset{a}
    ensures multiset(r.state.loaded) == multiset(s.loaded) - multiset{a}
    ensures r.state.loading == s.loading && r.state.resourceManager == s.resourceManager
    ensures r.state.handlers == s.handlers
    ensures s.handlers.unloadSuccess ==> r.notice == Fired(UnloadSceneSucceeded(a, userData))
    ensures !s.handlers.unloadSuccess ==> r.notice == Silent
  {
    var next := s.(unloading := Lists.RemoveFirst(s.unloading, a), loaded := Lists.RemoveFirst(s.loaded, a));
    if s.handlers.unloadSuccess then CallbackOutcome(next, Fired(UnloadSceneSucceeded(a, userData)))
    else CallbackOutcome(next, Silent)
  }

  /** The message a failed unload is thrown with: the address only; the
      resource manager's error message is not part of it. */
  function UnloadFailureMessage(a: AssetAddress): (r: string)
    ensures Contains(r, ToString(a))
  {
    ContainsMiddle("Unload scene failure, scene asset name '", ToString(a), "'.");
    "Unload scene failure, scene asset name '" + ToString(a) + "'."
  }

  /** `UnloadSceneFailureCallback`: out of the unloading list only, so the
      scene stays loaded; then the event fires or the failure is thrown. */
  function UnloadSceneFailureCallback(s: SceneManagerState, a: AssetAddress, errorMessage: NString, userData: Ref)
    : (r: CallbackOutcome)
    ensures multiset(r.state.unloading) == multiset(s.unloading) - multiset{a}
    ensures r.state.loaded == s.loaded && r.state.loading == s.loading
    ensures r.state.resourceManager == s.resourceManager && r.state.handlers == s.handlers
    ensures s.handlers.unloadFailure ==> r.notice == Fired(UnloadSceneFailed(a, errorMessage, userData))
    ensures !s.handlers.unloadFailure ==> r.notice == Raised(UnloadSceneFailure(UnloadFailureMessage(a)))
  {
    var next := s.(unloading := Lists.RemoveFirst(s.unloading, a));
    if s.handlers.unloadFailure then CallbackOutcome(next, Fired(UnloadSceneFailed(a, errorMessage, userData)))
    else CallbackOutcome(next, Raised(UnloadSceneFailure(UnloadFailureMessage(a))))
  }

  // ---------------------------------------------------------------------
  // The invariant is kept by every operation, provided the resource manager
  // answers only for addresses it was asked about.

  lemma LoadSceneKeepsInv(s: SceneManagerState, a: AssetAddress)
    requires Inv(s)
    ensures LoadScene(s, a).Ok? ==> Inv(LoadScene(s, a).value)
  {
    if LoadScene(s, a).Ok? {
      var loading := s.loading + [a];
      forall i, j | 0 <= i < j < |loading| ensures loading[i] != loading[j] {
        if j == |s.loading| {
          assert loading[i] == s.loading[i];
        } else {
          assert loading[i] == s.loading[i] && loading[j] == s.loading[j];
        }
      }
    }
  }

  lemma UnloadSceneKeepsInv(s: SceneManagerState, a: AssetAddress)
    requires Inv(s)
    ensures UnloadScene(s, a).Ok? ==> Inv(UnloadScene(s, a).value)
  {
    if UnloadScene(s, a).Ok? {
      var unloading := s.unloading + [a];
      forall i, j | 0 <= i < j < |unloading| ensures unloading[i] != unloading[j] {
        if j == |s.unloading| {
          assert unloading[i] == s.unloading[i];
        } else {
          assert unloading[i] == s.unloading[i] && unloading[j] == s.unloading[j];
        }
      }
    }
  }

  /** A load success for a scene being loaded keeps the invariant, whatever
      the callback then fires or throws. */
  lemma LoadSceneSuccessKeepsInv(s: SceneManagerState, a: AssetAddress, sceneAsset: Ref, duration: Float, userData: Ref)
    requires Inv(s) && a in s.loading
    ensures Inv(LoadSceneSuccessCallback(s, a, sceneAsset, duration, userData).state)
    ensures a in LoadSceneSuccessCallback(s, a, sceneAsset, duration, userData).state.loaded
    ensures a !in LoadSceneSuccessCallback(s, a, sceneAsset, duration, userData).state.loading
  {
    Lists.RemoveFirstNoDup(s.loading, a);
    var loaded := s.loaded + [a];
    forall i, j | 0 <= i < j < |loaded| ensures loaded[i] != loaded[j] {
      if j == |s.loaded| {
        assert loaded[i] == s.loaded[i];
      } else {
        assert loaded[i] == s.loaded[i] && loaded[j] == s.loaded[j];
      }
    }
  }

  /** A load failure keeps the invariant for any address. */
  lemma LoadSceneFailureKeepsInv(s: SceneManagerState, a: AssetAddress, status: LoadResourceStatus,
                                 errorMessage: NString, userData: Ref)
    requires Inv(s)
    ensures Inv(LoadSceneFailureCallback(s, a, status, errorMessage, userData).state)
    ensures a !in LoadSceneFailureCallback(s, a, status, errorMessage, userData).state.loading
  {
    Lists.RemoveFirstNoDup(s.loading, a);
  }

  /** An unload success keeps the invariant for any address and leaves the
      scene neither loaded nor being unloaded. */
  lemma UnloadSceneSuccessKeepsInv(s: SceneManagerState, a: AssetAddress, userData: Ref)
    requires Inv(s)
    ensures Inv(UnloadSceneSuccessCallback(s, a, userData).state)
    ensures a !in UnloadSceneSuccessCallback(s, a, userData).state.loaded
    ensures a !in UnloadSceneSuccessCallback(s, a, userData).state.unloading
  {
    Lists.RemoveFirstNoDup(s.loaded, a);
    Lists.RemoveFirstNoDup(s.unloading, a);
  }

  /** An unload failure keeps the invariant for any address, and a scene
      that was loaded stays loaded. */
  lemma UnloadSceneFailureKeepsInv(s: SceneManagerState, a: AssetAddress, errorMessage: NString, userData: Ref)
    requires Inv(s)
    ensures Inv(UnloadSceneFailureCallback(s, a, errorMessage, userData).state)
    ensures a !in UnloadSceneFailureCallback(s, a, errorMessage, userData).state.unloading
    ensures a in s.loaded ==> a in UnloadSceneFailureCallback(s, a, errorMessage, userData).state.loaded
  {
    Lists.RemoveFirstNoDup(s.unloading, a);
  }

  /** A load success for an address that is not being loaded breaks the
      invariant when the scene is already loaded: the loaded list gets the
      address twice. */
  lemma StraySuccessDuplicates(s: SceneManagerState, a: AssetAddress, userData: Ref)
    requires a in s.loaded
    ensures !Lists.NoDup(LoadSceneSuccessCallback(s, a, NullRef, Zero, userData).state.loaded)
  {
    var loaded := s.loaded + [a];
    var i :| 0 <= i < |s.loaded| && s.loaded[i] == a;
    assert loaded[i] == loaded[|s.loaded|];
  }

  // ---------------------------------------------------------------------
  // Whole lifecycles.

  /** Load, load success, unload, unload success brings the manager back to
      exactly where it started; along the way a second load is refused as
      "being loaded", then as "already loaded". */
  lemma {:induction false} LoadUnloadRoundTrip(s: SceneManagerState, a: AssetAddress, asset: Ref, duration: Float, userData: Ref)
    requires Inv(s) && s.resourceManager.Ref? && IsValid(a)
    requires a !in s.loaded && a !in s.loading
    ensures LoadScene(s, a).Ok?
    ensures var s1 := LoadScene(s, a).value;
            && LoadScene(s1, a) == Err(BeingLoaded(a))
            && var s2 := LoadSceneSuccessCallback(s1, a, asset, duration, userData).state;
            && LoadScene(s2, a) == Err(AlreadyLoaded(a))
            && UnloadScene(s2, a).Ok?
            && var s3 := UnloadScene(s2, a).value;
            && LoadScene(s3, a) == Err(BeingUnloaded(a))
            && UnloadSceneSuccessCallback(s3, a, userData).state == s
  {
    assert a !in s.unloading;
    var s1 := LoadScene(s, a).value;
    Lists.RemoveAppended(s.loading, a);
    var s2 := LoadSceneSuccessCallback(s1, a, asset, duration, userData).state;
    assert s2 == s.(loaded := s.loaded + [a]);
    var s3 := UnloadScene(s2, a).value;
    assert s3 == s.(loaded := s.loaded + [a], unloading := s.unloading + [a]);
    Lists.RemoveAppended(s.loaded, a);
    Lists.RemoveAppended(s.unloading, a);
  }

  /** A failed load returns the manager to where it started. */
  lemma {:induction false} FailedLoadRoundTrip(s: SceneManagerState, a: AssetAddress, status: LoadResourceStatus,
                                               errorMessage: NString, userData: Ref)
    requires LoadScene(s, a).Ok?
    ensures LoadSceneFailureCallback(LoadScene(s, a).value, a, status, errorMessage, userData).state == s
  {
    Lists.RemoveAppended(s.loading, a);
  }

  /** A failed unload leaves the scene loaded and not being unloaded: the
      manager is back where it was before the unload. */
  lemma {:induction false} FailedUnloadRoundTrip(s: SceneManagerState, a: AssetAddress, errorMessage: NString, userData: Ref)
    requires UnloadScene(s, a).Ok?
    ensures UnloadSceneFailureCallback(UnloadScene(s, a).value, a, errorMessage, userData).state == s
    ensures a in s.loaded
  {
    Lists.RemoveAppended(s.unloading, a);
  }

  /** With no handler subscribed, a load failure is thrown with a message
      naming the address, the status and the resource manager's message; an
      unload failure is thrown naming the address. */
  lemma FailuresWithoutHandlerAreThrown(s: SceneManagerState, a: AssetAddress, status: LoadResourceStatus,
                                        errorMessage: NString, userData: Ref)
    requires !s.handlers.loadFailure && !s.handlers.unloadFailure
    ensures var n := LoadSceneFailureCallback(s, a, status, errorMessage, userData).notice;
            && n.Raised? && n.error.LoadSceneFailure?
            && Contains(n.error.message, ToString(a)) && Contains(n.error.message, status.name)
            && Contains(n.error.message, Render(errorMessage))
    ensures var n := UnloadSceneFailureCallback(s, a, errorMessage, userData).notice;
            n.Raised? && n.error.UnloadSceneFailure? && Contains(n.error.message, ToString(a))
  {
  }

  /** An accepted request for one scene changes nothing the manager reports
      about another, nor whether a request for the other is accepted. */
  lemma RequestsAreIndependent(s: SceneManagerState, a: AssetAddress, b: AssetAddress)
    requires a != b && LoadScene(s, a).Ok?
    ensures var s1 := LoadScene(s, a).value;
            && SceneIsLoaded(s1, b) == SceneIsLoaded(s, b)
            && SceneIsLoading(s1, b) == SceneIsLoading(s, b)
            && SceneIsUnloading(s1, b) == SceneIsUnloading(s, b)
            && LoadScene(s1, b).Ok? == LoadScene(s, b).Ok?
            && UnloadScene(s1, b).Ok? == UnloadScene(s, b).Ok?
  {
  }

  // ---------------------------------------------------------------------
  // Shutdown.

  datatype ShutdownOutcome =
    | Completed(state: SceneManagerState, issued: seq<AssetAddress>)
    | Aborted(state: SceneManagerState, error: SceneError)

  /** The `foreach` of `Shutdown` over the snapshot `pending`: skip scenes
      being unloaded, unload the others; an exception ends the loop (and
      `Shutdown`) with the changes made so far. */
  function UnloadEach(s: SceneManagerState, pending: seq<AssetAddress>, issued: seq<AssetAddress>): (r: ShutdownOutcome)
    ensures r.Completed? ==> issued <= r.issued && |r.issued| <= |issued| + |pending|
    ensures r.Completed? ==> r.state.loaded == s.loaded && r.state.loading == s.loading
    decreases |pending|
  {
    if pending == [] then Completed(s, issued)
    else
      var a := pending[0];
      match SceneIsUnloading(s, a)
      case Err(e) => Aborted(s, e)
      case Ok(true) => UnloadEach(s, pending[1..], issued)
      case Ok(false) =>
        match UnloadScene(s, a)
        case Err(e) => Aborted(s, e)
        case Ok(next) => UnloadEach(next, pending[1..], issued + [a])
  }

  /** `Shutdown`: unload every loaded scene not already being unloaded, then
      empty all three lists. */
  function Shutdown(s: SceneManagerState): (r: ShutdownOutcome)
    ensures r.Completed? ==> r.state.loaded == [] && r.state.loading == [] && r.state.unloading == []
    ensures r.Completed? ==> |r.issued| <= |s.loaded|
  {
    match UnloadEach(s, s.loaded, [])
    case Completed(t, issued) => Completed(t.(loaded := [], loading := [], unloading := []), issued)
    case Aborted(t, e) => Aborted(t, e)
  }

  /** The elements of `xs` that are not in `skip`, in order. */
  function Without(xs: seq<AssetAddress>, skip: seq<AssetAddress>): (r: seq<AssetAddress>)
    ensures forall a :: a in r <==> a in xs && a !in skip
    ensures |r| <= |xs|
  {
    if xs == [] then []
    else if xs[0] in skip then Without(xs[1..], skip)
    else [xs[0]] + Without(xs[1..], skip)
  }

  /** Extending `skip` by an element absent from `xs` changes nothing. */
  lemma {:induction false} WithoutIgnoresAbsent(xs: seq<AssetAddress>, skip: seq<AssetAddress>, a: AssetAddress)
    requires a !in xs
    ensures Without(xs, skip + [a]) == Without(xs, skip)
  {
    if xs != [] {
      assert xs[0] in skip + [a] <==> xs[0] in skip;
      WithoutIgnoresAbsent(xs[1..], skip, a);
    }
  }

  /** Under the invariant, the loop over loaded scenes never throws: it
      issues one unload per scene of `pending` not yet being unloaded, in
      list order. */
  lemma {:induction false} UnloadEachIssuesPending(s: SceneManagerState, pending: seq<AssetAddress>, issued: seq<AssetAddress>)
    requires Inv(s) && Lists.NoDup(pending)
    requires forall a :: a in pending ==> a in s.loaded
    ensures UnloadEach(s, pending, issued)
            == Completed(s.(unloading := s.unloading + Without(pending, s.unloading)), issued + Without(pending, s.unloading))
    decreases |pending|
  {
    if pending != [] {
      var a := pending[0];
      Lists.NoDupTail(pending);
      assert s.resourceManager.Ref?;
      if a in s.unloading {
        UnloadEachIssuesPending(s, pending[1..], issued);
      } else {
        var next := UnloadScene(s, a).value;
        UnloadSceneKeepsInv(s, a);
        WithoutIgnoresAbsent(pending[1..], s.unloading, a);
        UnloadEachIssuesPending(next, pending[1..], issued + [a]);
        assert s.unloading + [a] + Without(pending[1..], s.unloading)
            == s.unloading + ([a] + Without(pending[1..], s.unloading));
        assert issued + [a] + Without(pending[1..], s.unloading)
            == issued + ([a] + Without(pending[1..], s.unloading));
      }
    }
  }

  /** Under the invariant, `Shutdown` completes: it unloads exactly the loaded
      scenes that were not being unloaded, in list order, and leaves all
      three lists empty. */
  lemma ShutdownUnloadsTheRest(s: SceneManagerState)
    requires Inv(s)
    ensures Shutdown(s).Completed?
    ensures Shutdown(s).issued == Without(s.loaded, s.unloading)
    ensures forall a :: a in Shutdown(s).issued <==> a in s.loaded && a !in s.unloading
    ensures Inv(Shutdown(s).state)
  {
    UnloadEachIssuesPending(s, s.loaded, []);
  }
}

/**
 * The bookkeeping of DesignSurface, without its Swing parts: the ordered map
 * from models to scene managers, the listener and layer lists, the progress
 * indicators, the activation state, the skip-resize flags and the scroll clamp.
 */
module Surface {
  import opened Wrappers

  /** Host objects are identified by ids; two ids are the same object when they are equal. */
  type NlModel = nat
  type SceneManager = nat
  type Listener = nat
  type Layer = nat
  type ProgressIndicator = nat

  datatype ZoomType = Actual | In | Out | FitInto | Fit | Screen

  datatype Point = Point(x: int, y: int)
  datatype Dimension = Dimension(width: int, height: int)

  /** A call the surface makes on one of its models. */
  datatype ModelCall = Activate(model: NlModel) | Deactivate(model: NlModel)

  /** zoom(SCREEN) throws UnsupportedOperationException. */
  datatype ZoomError = UnsupportedOperation

  // ---------------------------------------------------------------------------
  // Lists
  // ---------------------------------------------------------------------------

  predicate NoDuplicates<T(==,!new)>(s: seq<T>) {
    forall i, j :: 0 <= i < j < |s| ==> s[i] != s[j]
  }

  /** List.remove(Object): removes the first occurrence of x, if any. */
  function RemoveFirst<T(==,!new)>(s: seq<T>, x: T): (r: seq<T>)
    ensures x !in s ==> r == s
    ensures x in s ==> |r| == |s| - 1
    ensures multiset(r) == multiset(s) - multiset{x}
  {
    if s == [] then []
    else if s[0] == x then
      assert s == [s[0]] + s[1..];
      s[1..]
    else
      assert s == [s[0]] + s[1..];
      [s[0]] + RemoveFirst(s[1..], x)
  }

  /** The elements of s that are not in `drop`, in their order in s. */
  function Without<T(==,!new)>(s: seq<T>, drop: seq<T>): (r: seq<T>)
    ensures |r| <= |s|
    ensures forall x :: x in r <==> x in s && x !in drop
  {
    if s == [] then []
    else if s[0] in drop then Without(s[1..], drop)
    else [s[0]] + Without(s[1..], drop)
  }

  lemma {:induction false} WithoutConcat<T(!new)>(a: seq<T>, b: seq<T>, drop: seq<T>)
    ensures Without(a + b, drop) == Without(a, drop) + Without(b, drop)
  {
    if a != [] {
      assert (a + b)[0] == a[0];
      assert (a + b)[1..] == a[1..] + b;
      WithoutConcat(a[1..], b, drop);
      var head := if a[0] in drop then [] else [a[0]];
      assert Without(a + b, drop) == head + (Without(a[1..], drop) + Without(b, drop));
      assert Without(a, drop) == head + Without(a[1..], drop);
      assert head + (Without(a[1..], drop) + Without(b, drop)) == (head + Without(a[1..], drop)) + Without(b, drop);
    } else {
      assert a + b == b;
    }
  }

  lemma {:induction false} WithoutDisjoint<T(!new)>(s: seq<T>, drop: seq<T>)
    requires forall x :: x in s ==> x !in drop
    ensures Without(s, drop) == s
  {
    if s != [] {
      WithoutDisjoint(s[1..], drop);
      assert [s[0]] + s[1..] == s;
    }
  }

  lemma {:induction false} WithoutSubsumed<T(!new)>(s: seq<T>, drop: seq<T>)
    requires forall x :: x in s ==> x in drop
    ensures Without(s, drop) == []
  {
    if s != [] {
      WithoutSubsumed(s[1..], drop);
    }
  }

  lemma NoDuplicatesTail<T(!new)>(s: seq<T>)
    requires s != [] && NoDuplicates(s)
    ensures NoDuplicates(s[1..]) && s[0] !in s[1..]
  {
    var t := s[1..];
    forall i, j | 0 <= i < j < |t|
      ensures t[i] != t[j]
    {
      assert t[i] == s[i + 1] && t[j] == s[j + 1];
    }
  }

  /** Dropping elements from a list without duplicates leaves it without duplicates. */
  lemma {:induction false} WithoutKeepsNoDuplicates<T(!new)>(s: seq<T>, drop: seq<T>)
    requires NoDuplicates(s)
    ensures NoDuplicates(Without(s, drop))
  {
    if s != [] {
      NoDuplicatesTail(s);
      WithoutKeepsNoDuplicates(s[1..], drop);
      var r := Without(s[1..], drop);
      if s[0] !in drop {
        assert s[0] !in r;
        var r' := [s[0]] + r;
        forall i, j | 0 <= i < j < |r'|
          ensures r'[i] != r'[j]
        {
          if i == 0 {
            assert r'[j] == r[j - 1];
          } else {
            assert r'[i] == r[i - 1] && r'[j] == r[j - 1];
          }
        }
      }
    }
  }

  /**
   * On a list without duplicates, removing the first occurrence removes the only
   * one: the other elements stay, in their order.
   */
  lemma {:induction false} RemoveFirstWithoutDuplicates<T(!new)>(s: seq<T>, x: T)
    requires NoDuplicates(s)
    ensures RemoveFirst(s, x) == Without(s, [x])
  {
    if s != [] {
      NoDuplicatesTail(s);
      RemoveFirstWithoutDuplicates(s[1..], x);
      if s[0] == x {
        WithoutDisjoint(s[1..], [x]);
      }
    }
  }

  /** The listener list after `remove(l); add(l)`. */
  function Registered<T(==,!new)>(s: seq<T>, l: T): (r: seq<T>)
    ensures r != [] && r[|r| - 1] == l
    ensures forall x :: x in r <==> x in s || x == l
  {
    var t := RemoveFirst(s, l);
    assert forall x :: x != l ==> (x in t <==> x in multiset(t)) && (x in s <==> x in multiset(s));
    t + [l]
  }

  /**
   * Registering keeps every listener once: l is last and occurs once, and the
   * other listeners keep their relative order.
   */
  lemma RegisteredOnce<T(!new)>(s: seq<T>, l: T)
    requires NoDuplicates(s)
    ensures var r := Registered(s, l);
            && NoDuplicates(r)
            && r[|r| - 1] == l
            && multiset(r)[l] == 1
            && Without(r, [l]) == Without(s, [l])
  {
    RemoveFirstWithoutDuplicates(s, l);
    WithoutKeepsNoDuplicates(s, [l]);
    var t := RemoveFirst(s, l);
    var r := t + [l];
    assert l !in t;
    forall i, j | 0 <= i < j < |r|
      ensures r[i] != r[j]
    {
      if j == |t| {
        assert r[i] == t[i];
      } else {
        assert r[i] == t[i] && r[j] == t[j];
      }
    }
    WithoutConcat(t, [l], [l]);
    WithoutDisjoint(t, [l]);
    WithoutSubsumed([l], [l]);
  }

  /** Registering a listener a second time changes nothing. */
  lemma RegisteredIdempotent<T(!new)>(s: seq<T>, l: T)
    requires NoDuplicates(s)
    ensures Registered(Registered(s, l), l) == Registered(s, l)
  {
    RemoveFirstWithoutDuplicates(s, l);
    var t := RemoveFirst(s, l);
    assert l !in t;
    RemoveFirstAppended(t, l);
  }

  lemma {:induction false} RemoveFirstAppended<T(!new)>(t: seq<T>, l: T)
    requires l !in t
    ensures RemoveFirst(t + [l], l) == t
  {
    if t != [] {
      assert (t + [l])[0] == t[0];
      assert (t + [l])[1..] == t[1..] + [l];
      RemoveFirstAppended(t[1..], l);
      assert [t[0]] + t[1..] == t;
    } else {
      assert t + [l] == [l];
    }
  }

  /** Layers appended and then removed leave the others as they were. */
  lemma RemoveLayersUndoesAddLayers(layers: seq<Layer>, added: seq<Layer>)
    requires forall x :: x in layers ==> x !in added
    ensures Without(layers + added, added) == layers
  {
    WithoutConcat(layers, added, added);
    WithoutDisjoint(layers, added);
    WithoutSubsumed(added, added);
  }

  /** Removing a model from both the key order and the map keeps them describing the same models. */
  lemma RemoveKey(keys: seq<NlModel>, managers: map<NlModel, SceneManager>, model: NlModel)
    requires NoDuplicates(keys) && forall m :: m in keys <==> m in managers
    ensures RemoveFirst(keys, model) == Without(keys, [model])
    ensures NoDuplicates(RemoveFirst(keys, model))
    ensures forall m :: m in RemoveFirst(keys, model) <==> m in managers - {model}
  {
    RemoveFirstWithoutDuplicates(keys, model);
    WithoutKeepsNoDuplicates(keys, [model]);
  }

  /** The calls `for (model : keys) model.activate(this)` (or deactivate) make, in order. */
  function CallAll(keys: seq<NlModel>, activate: bool): (r: seq<ModelCall>)
    ensures |r| == |keys|
    ensures forall i :: 0 <= i < |keys| ==> r[i] == if activate then Activate(keys[i]) else Deactivate(keys[i])
  {
    if keys == [] then []
    else CallAll(keys[..|keys| - 1], activate) + [if activate then Activate(keys[|keys| - 1]) else Deactivate(keys[|keys| - 1])]
  }

  // ---------------------------------------------------------------------------
  // Scroll position and zoom type
  // ---------------------------------------------------------------------------

  /** `Math.max(0, Math.min(view - extent, p))` for one axis. */
  function ClampAxis(p: int, view: int, extent: int): (r: int)
    ensures 0 <= r
    ensures r <= p || r == 0
    ensures view - extent >= 0 ==> r <= view - extent
    ensures view <= extent ==> r == 0
    ensures 0 <= p <= view - extent ==> r == p
    ensures p >= view - extent >= 0 ==> r == view - extent
  {
    if view - extent < p then (if view - extent > 0 then view - extent else 0)
    else if p > 0 then p else 0
  }

  /**
   * The viewport position setScrollPosition stores: never below zero, never past
   * the view size minus the extent size, and zero on an axis whose scroll bar
   * is not needed.
   */
  function ClampScrollPosition(p: Point, extent: Dimension, view: Dimension): (r: Point)
    ensures r.x == ClampAxis(p.x, view.width, extent.width)
    ensures r.y == ClampAxis(p.y, view.height, extent.height)
  {
    Point(ClampAxis(p.x, view.width, extent.width), ClampAxis(p.y, view.height, extent.height))
  }

  /** Clamping an already clamped position leaves it where it is. */
  lemma ClampScrollPositionIdempotent(p: Point, extent: Dimension, view: Dimension)
    ensures ClampScrollPosition(ClampScrollPosition(p, extent, view), extent, view) == ClampScrollPosition(p, extent, view)
  {
  }

  /**
   * The zoom type recorded after zoom(type): zooming in or out forgets it when
   * the scale changes; ACTUAL records itself; FIT and FIT_INTO record themselves
   * when there is a scene view and otherwise change nothing; SCREEN throws.
   * `scaleChanged` says whether setScale moved the scale by at least its
   * threshold, a floating-point decision that is not modelled.
   */
  function ZoomTypeAfter(current: Option<ZoomType>, zoomType: ZoomType, hasSceneView: bool, scaleChanged: bool)
    : (r: Result<Option<ZoomType>, ZoomError>)
    ensures r.Err? <==> zoomType == Screen
    ensures r.Ok? && r.value.Some? ==> r.value.value == zoomType || r.value == current
    ensures zoomType in {Actual, Fit, FitInto} && (hasSceneView || zoomType == Actual) ==> r == Ok(Some(zoomType))
    ensures zoomType in {In, Out} && scaleChanged ==> r == Ok(None)
    ensures (zoomType in {In, Out} && !scaleChanged) || (zoomType in {Fit, FitInto} && !hasSceneView) ==> r == Ok(current)
  {
    match zoomType
    case In => Ok(if scaleChanged then None else current)
    case Out => Ok(if scaleChanged then None else current)
    case Actual => Ok(Some(Actual))
    case Fit => Ok(if hasSceneView then Some(Fit) else current)
    case FitInto => Ok(if hasSceneView then Some(FitInto) else current)
    case Screen => Err(UnsupportedOperation)
  }

  // ---------------------------------------------------------------------------
  // The surface
  // ---------------------------------------------------------------------------

  class DesignSurface {
    var listeners: seq<Listener>
    /** The pan/zoom listener list, created on the first registration (null before). */
    var zoomListeners: Option<seq<Listener>>
    var layers: seq<Layer>
    /** The keys of the LinkedHashMap from models to scene managers, in insertion order. */
    var modelKeys: seq<NlModel>
    var sceneManagers: map<NlModel, SceneManager>
    var isActive: bool
    /** The activate/deactivate calls made on models so far, oldest first. */
    var modelCalls: seq<ModelCall>
    var skipResizeContent: bool
    var skipResizeContentOnce: bool
    var currentZoomType: Option<ZoomType>
    var progressIndicators: seq<ProgressIndicator>
    var progressVisible: bool
    var scrollPosition: Point

    ghost predicate Valid()
      reads this
    {
      && NoDuplicates(modelKeys)
      && (forall m :: m in modelKeys <==> m in sceneManagers)
      && NoDuplicates(listeners)
      && (zoomListeners.Some? ==> NoDuplicates(zoomListeners.value))
      && (progressVisible <==> progressIndicators != [])
    }

    constructor ()
      ensures Valid()
      ensures listeners == [] && zoomListeners.None? && layers == []
      ensures modelKeys == [] && sceneManagers == map[] && !isActive && modelCalls == []
      ensures !skipResizeContent && !skipResizeContentOnce && currentZoomType.None?
      ensures progressIndicators == [] && !progressVisible
    {
      listeners := [];
      zoomListeners := None;
      layers := [];
      modelKeys := [];
      sceneManagers := map[];
      isActive := false;
      modelCalls := [];
      skipResizeContent := false;
      skipResizeContentOnce := false;
      currentZoomType := None;
      progressIndicators := [];
      progressVisible := false;
      scrollPosition := Point(0, 0);
    }

    /** getModel: the primary (first added) model, or None when there is none. */
    function GetModel(): (r: Option<NlModel>)
      reads this
      requires Valid()
      ensures r.None? <==> sceneManagers == map[]
      ensures r.Some? ==> r.value in sceneManagers && r.value == modelKeys[0]
    {
      if modelKeys == [] then None
      else
        assert modelKeys[0] in sceneManagers;
        Some(modelKeys[0])
    }

    /** getSceneManager(model): the manager of a model, None when it was not added. */
    function GetSceneManager(model: NlModel): (r: Option<SceneManager>)
      reads this
      ensures r.Some? <==> model in sceneManagers
      ensures r.Some? ==> r.value == sceneManagers[model]
    {
      if model in sceneManagers then Some(sceneManagers[model]) else None
    }

    /**
     * addModelImpl: a model added before keeps its manager and nothing changes;
     * otherwise `created` (the manager createSceneManager makes) is put under a
     * new last key.
     */
    method AddModelImpl(model: NlModel, created: SceneManager) returns (manager: SceneManager)
      requires Valid()
      modifies this`modelKeys, this`sceneManagers
      ensures Valid()
      ensures old(model in sceneManagers) ==>
                manager == old(sceneManagers[model]) && modelKeys == old(modelKeys) && sceneManagers == old(sceneManagers)
      ensures old(model !in sceneManagers) ==>
                manager == created && modelKeys == old(modelKeys) + [model]
                && sceneManagers == old(sceneManagers)[model := created]
    {
      if model in sceneManagers {
        return sceneManagers[model];
      }
      manager := created;
      assert model !in modelKeys;
      modelKeys := modelKeys + [model];
      sceneManagers := sceneManagers[model := manager];
    }

    /**
     * removeModelImpl: false and no change when the model was not added;
     * otherwise removes only its key, deactivates the model, detaches the layers
     * of its manager (`managerLayers` stands for SceneManager.getLayers) and returns true.
     */
    method RemoveModelImpl(model: NlModel, managerLayers: SceneManager -> seq<Layer>) returns (removed: bool)
      requires Valid()
      modifies this`modelKeys, this`sceneManagers, this`modelCalls, this`layers
      ensures Valid()
      ensures removed <==> old(model in sceneManagers)
      ensures !removed ==> modelKeys == old(modelKeys) && sceneManagers == old(sceneManagers)
                           && modelCalls == old(modelCalls) && layers == old(layers)
      ensures removed ==>
                && modelKeys == Without(old(modelKeys), [model])
                && sceneManagers == old(sceneManagers) - {model}
                && modelCalls == old(modelCalls) + [Deactivate(model)]
                && layers == Without(old(layers), managerLayers(old(sceneManagers[model])))
    {
      if model !in sceneManagers {
        return false;
      }
      var manager := sceneManagers[model];
      RemoveKey(modelKeys, sceneManagers, model);
      modelKeys := RemoveFirst(modelKeys, model);
      sceneManagers := sceneManagers - {model};
      modelCalls := modelCalls + [Deactivate(model)];
      layers := Without(layers, managerLayers(manager));
      removed := true;
    }

    /**
     * setModel: nothing happens when the model is already the primary one;
     * otherwise the primary model is removed and the new one, if any, is added
     * (and activated when the surface is active). The source asserts that the
     * surface holds at most that one model.
     */
    method SetModel(model: Option<NlModel>, created: SceneManager, managerLayers: SceneManager -> seq<Layer>)
      requires Valid()
      requires |modelKeys| <= 1
      modifies this`modelKeys, this`sceneManagers, this`modelCalls, this`layers
      ensures Valid()
      ensures model == old(GetModel()) ==>
                && modelKeys == old(modelKeys) && sceneManagers == old(sceneManagers)
                && modelCalls == old(modelCalls) && layers == old(layers)
      ensures model != old(GetModel()) ==>
                && modelCalls == old(modelCalls)
                                 + (if old(GetModel()).Some? then [Deactivate(old(GetModel()).value)] else [])
                                 + (if model.Some? && isActive then [Activate(model.value)] else [])
                && layers == if old(GetModel()).Some?
                             then Without(old(layers), managerLayers(old(sceneManagers)[old(GetModel()).value]))
                             else old(layers)
      ensures model != old(GetModel()) ==> modelKeys == (if model.Some? then [model.value] else [])
      ensures model != old(GetModel()) && model.Some? ==> sceneManagers == map[model.value := created]
      ensures model != old(GetModel()) && model.None? ==> sceneManagers == map[]
      ensures model == GetModel()
    {
      var oldModel := GetModel();
      if model == oldModel {
        return;
      }
      if oldModel.Some? {
        var _ := RemoveModelImpl(oldModel.value, managerLayers);
      }
      assert modelKeys == [];
      assert sceneManagers.Keys == {};
      if model.Some? {
        var _ := AddModelImpl(model.value, created);
        if isActive {
          modelCalls := modelCalls + [Activate(model.value)];
        }
      }
    }

    /** activate: an inactive surface activates every model, in insertion order, and becomes active. */
    method ActivateSurface()
      modifies this`isActive, this`modelCalls
      ensures isActive
      ensures modelCalls == old(modelCalls) + (if old(isActive) then [] else CallAll(modelKeys, true))
    {
      if !isActive {
        for i := 0 to |modelKeys|
          invariant modelCalls == old(modelCalls) + CallAll(modelKeys[..i], true)
        {
          assert modelKeys[..i + 1][..i] == modelKeys[..i];
          modelCalls := modelCalls + [Activate(modelKeys[i])];
        }
        assert modelKeys[..|modelKeys|] == modelKeys;
      }
      isActive := true;
    }

    /** deactivate: an active surface deactivates every model, in insertion order, and becomes inactive. */
    method DeactivateSurface()
      modifies this`isActive, this`modelCalls
      ensures !isActive
      ensures modelCalls == old(modelCalls) + (if old(isActive) then CallAll(modelKeys, false) else [])
    {
      if isActive {
        for i := 0 to |modelKeys|
          invariant modelCalls == old(modelCalls) + CallAll(modelKeys[..i], false)
        {
          assert modelKeys[..i + 1][..i] == modelKeys[..i];
          modelCalls := modelCalls + [Deactivate(modelKeys[i])];
        }
        assert modelKeys[..|modelKeys|] == modelKeys;
      }
      isActive := false;
    }

    /** addListener: removes the listener and appends it again, so that it is registered once. */
    method AddListener(listener: Listener)
      requires Valid()
      modifies this`listeners
      ensures Valid()
      ensures listeners == Registered(old(listeners), listener)
    {
      RegisteredOnce(listeners, listener);
      listeners := RemoveFirst(listeners, listener);
      listeners := listeners + [listener];
    }

    /** removeListener. */
    method RemoveListener(listener: Listener)
      requires Valid()
      modifies this`listeners
      ensures Valid()
      ensures listeners == Without(old(listeners), [listener])
    {
      RemoveFirstWithoutDuplicates(listeners, listener);
      WithoutKeepsNoDuplicates(listeners, [listener]);
      listeners := RemoveFirst(listeners, listener);
    }

    /** addPanZoomListener: as addListener, creating the list on first use. */
    method AddPanZoomListener(listener: Listener)
      requires Valid()
      modifies this`zoomListeners
      ensures Valid()
      ensures zoomListeners == Some(Registered(old(zoomListeners).GetOr([]), listener))
    {
      var current := zoomListeners.GetOr([]);
      assert NoDuplicates(current);
      RegisteredOnce(current, listener);
      zoomListeners := Some(RemoveFirst(current, listener) + [listener]);
    }

    /** removePanZoomListener: no change before the list exists. */
    method RemovePanZoomListener(listener: Listener)
      requires Valid()
      modifies this`zoomListeners
      ensures Valid()
      ensures old(zoomListeners).None? ==> zoomListeners.None?
      ensures old(zoomListeners).Some? ==> zoomListeners == Some(Without(old(zoomListeners).value, [listener]))
    {
      if zoomListeners.Some? {
        var current := zoomListeners.value;
        RemoveFirstWithoutDuplicates(current, listener);
        WithoutKeepsNoDuplicates(current, [listener]);
        zoomListeners := Some(RemoveFirst(current, listener));
      }
    }

    /** addLayers: appends the layers in order. */
    method AddLayers(added: seq<Layer>)
      modifies this`layers
      ensures layers == old(layers) + added
    {
      layers := layers + added;
    }

    /** removeLayers: keeps exactly the layers not given, in their order. */
    method RemoveLayers(removed: seq<Layer>)
      modifies this`layers
      ensures layers == Without(old(layers), removed)
    {
      layers := Without(layers, removed);
    }

    /** registerIndicator: ignored once the project or the surface is disposed; otherwise shows the progress icon. */
    method RegisterIndicator(indicator: ProgressIndicator, disposed: bool)
      requires Valid()
      modifies this`progressIndicators, this`progressVisible
      ensures Valid()
      ensures disposed ==> progressIndicators == old(progressIndicators) && progressVisible == old(progressVisible)
      ensures !disposed ==> progressIndicators == old(progressIndicators) + [indicator] && progressVisible
    {
      if disposed {
        return;
      }
      progressIndicators := progressIndicators + [indicator];
      progressVisible := true;
    }

    /** unregisterIndicator: removes one registration and hides the icon when none is left. */
    method UnregisterIndicator(indicator: ProgressIndicator)
      requires Valid()
      modifies this`progressIndicators, this`progressVisible
      ensures Valid()
      ensures progressIndicators == RemoveFirst(old(progressIndicators), indicator)
    {
      progressIndicators := RemoveFirst(progressIndicators, indicator);
      if progressIndicators == [] {
        progressVisible := false;
      }
    }

    method SetSkipResizeContent(skipLayout: bool)
      modifies this`skipResizeContent
      ensures skipResizeContent == skipLayout
    {
      skipResizeContent := skipLayout;
    }

    method SkipContentResizeOnce()
      modifies this`skipResizeContentOnce
      ensures skipResizeContentOnce
    {
      skipResizeContentOnce := true;
    }

    /** isSkipContentResize: either flag is set, or the current zoom is not FIT. */
    function IsSkipContentResize(): bool
      reads this
      ensures skipResizeContent || skipResizeContentOnce ==> IsSkipContentResize()
      ensures currentZoomType != Some(Fit) ==> IsSkipContentResize()
      ensures !IsSkipContentResize() ==> currentZoomType == Some(Fit) && !skipResizeContent && !skipResizeContentOnce
    {
      skipResizeContent || skipResizeContentOnce || currentZoomType != Some(Fit)
    }

    /** contentResizeSkipped: answers isSkipContentResize and clears the once flag. */
    method ContentResizeSkipped() returns (skip: bool)
      modifies this`skipResizeContentOnce
      ensures skip == old(IsSkipContentResize())
      ensures !skipResizeContentOnce
      ensures IsSkipContentResize() <==> skipResizeContent || currentZoomType != Some(Fit)
    {
      skip := IsSkipContentResize();
      skipResizeContentOnce := false;
    }

    /** The zoom-type bookkeeping of zoom(type); see ZoomTypeAfter. */
    method Zoom(zoomType: ZoomType, hasSceneView: bool, scaleChanged: bool) returns (r: Result<(), ZoomError>)
      modifies this`currentZoomType
      ensures r.Err? <==> zoomType == Screen
      ensures var after := ZoomTypeAfter(old(currentZoomType), zoomType, hasSceneView, scaleChanged);
              currentZoomType == if after.Ok? then after.value else old(currentZoomType)
    {
      var after := ZoomTypeAfter(currentZoomType, zoomType, hasSceneView, scaleChanged);
      if after.Err? {
        return Err(after.error);
      }
      currentZoomType := after.value;
      r := Ok(());
    }

    /** setScrollPosition: moves the viewport to the clamped position. */
    method SetScrollPosition(x: int, y: int, extent: Dimension, view: Dimension)
      modifies this`scrollPosition
      ensures scrollPosition == ClampScrollPosition(Point(x, y), extent, view)
    {
      scrollPosition := ClampScrollPosition(Point(x, y), extent, view);
    }
  }
}

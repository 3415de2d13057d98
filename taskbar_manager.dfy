/**
 * The taskbar lifecycle manager: it binds a window context to one display,
 * builds and tears down the single taskbar instance on that context, and
 * routes display, navigation-mode, configuration, unlock and shutdown events
 * to those two operations.
 *
 * Every Android collaborator is an input or a recorded effect. The answers
 * the platform gives during one event (the taskbar feature flag, the device
 * profile, the display list, the configuration of a freshly created window
 * context) arrive bundled as a `Platform` value; the calls made on the
 * taskbar instance and on the system UI proxy are appended to the ghost log
 * `effects`; listener registrations are the set `registered`.
 */
module Taskbar {
  import opened Wrappers
  import opened Displays
  import opened Controllers
  import opened Effects

  /** DisplayController.CHANGE_ACTIVE_SCREEN, CHANGE_ROTATION, CHANGE_DENSITY, CHANGE_SUPPORTED_BOUNDS */
  const CHANGE_ACTIVE_SCREEN: bv32 := 0x1
  const CHANGE_ROTATION: bv32 := 0x2
  const CHANGE_DENSITY: bv32 := 0x4
  const CHANGE_SUPPORTED_BOUNDS: bv32 := 0x8
  /** The display changes that rebuild the taskbar (rotation alone does not). */
  const CHANGE_FLAGS: bv32 := CHANGE_ACTIVE_SCREEN | CHANGE_DENSITY | CHANGE_SUPPORTED_BOUNDS

  /** ActivityInfo.CONFIG_UI_MODE, CONFIG_LAYOUT_DIRECTION, CONFIG_ASSETS_PATHS */
  const CONFIG_UI_MODE: bv32 := 0x0000_0200
  const CONFIG_LAYOUT_DIRECTION: bv32 := 0x0000_2000
  const CONFIG_ASSETS_PATHS: bv32 := 0x8000_0000
  /** The configuration changes that rebuild the taskbar. */
  const CONFIGS_REQUIRING_RECREATE: bv32 := CONFIG_ASSETS_PATHS | CONFIG_LAYOUT_DIRECTION | CONFIG_UI_MODE

  /** A display-info change rebuilds the taskbar iff it is an active-screen, density or bounds change. */
  function DisplayChangeRequiresRecreate(flags: bv32): (r: bool)
    ensures r <==> (flags & CHANGE_ACTIVE_SCREEN) != 0 || (flags & CHANGE_DENSITY) != 0
                   || (flags & CHANGE_SUPPORTED_BOUNDS) != 0
    ensures flags == CHANGE_ROTATION ==> !r
  {
    (flags & CHANGE_FLAGS) != 0
  }

  /** A configuration diff rebuilds the taskbar iff it touches asset paths, layout direction or UI mode. */
  function ConfigRequiresRecreate(diff: bv32): (r: bool)
    ensures r <==> (diff & CONFIG_ASSETS_PATHS) != 0 || (diff & CONFIG_LAYOUT_DIRECTION) != 0
                   || (diff & CONFIG_UI_MODE) != 0
  {
    (diff & CONFIGS_REQUIRING_RECREATE) != 0
  }

  /** TaskbarSharedState: what survives from one taskbar instance to the next. */
  datatype SharedState = SharedState(sysuiStateFlags: int, setupUIVisible: bool)

  /** A DeviceProfile snapshot; `snapshot` stands for the layout values the taskbar does not inspect. */
  datatype DeviceProfile = DeviceProfile(isTaskbarPresent: bool, snapshot: nat)

  /** A Configuration snapshot, known to this model only by identity. */
  datatype Configuration = Configuration(snapshot: nat)

  /**
   * What the platform answers during one event: FeatureFlags.ENABLE_TASKBAR,
   * the device profile LauncherAppState would compute for the current
   * context, DisplayManager.getDisplays(), and the configuration of a window
   * context created now.
   */
  datatype Platform = Platform(
    enableTaskbar: bool,
    profile: DeviceProfile,
    displays: seq<Display>,
    windowConfig: Configuration)

  /**
   * The live TaskbarActivityContext as the manager has set it up: its
   * serial number, the window context it was built on, the device profile
   * copy it holds, the shared state it was initialised with and kept in step
   * with, and its UI controller.
   */
  datatype TaskbarInstance = TaskbarInstance(
    serial: nat,
    context: nat,
    profile: DeviceProfile,
    state: SharedState,
    controller: UIController)

  /**
   * The listeners the manager registers: three for its whole life, and three
   * scoped to one window context (the component callbacks, the
   * user-setup-complete settings listener and the shutdown receiver).
   */
  datatype Listener =
    | DisplayInfoListener
    | NavigationModeListener
    | DisplayListener
    | ComponentCallbacks(ctx: nat)
    | UserSetupCompleteListener(ctx: nat)
    | ShutdownReceiver(ctx: nat)
  {
    predicate PerContext() {
      ComponentCallbacks? || UserSetupCompleteListener? || ShutdownReceiver?
    }
  }

  /** The listeners scoped to a window context. */
  function ContextListeners(context: Option<nat>): set<Listener> {
    match context
    case None => {}
    case Some(c) => {ComponentCallbacks(c), UserSetupCompleteListener(c), ShutdownReceiver(c)}
  }

  /** Serials of the instance held, if any. */
  function SerialsOf(t: Option<TaskbarInstance>): set<nat> {
    match t
    case None => {}
    case Some(i) => {i.serial}
  }

  /** The calls destroyExistingTaskbar makes. */
  function DestroyLog(t: Option<TaskbarInstance>): seq<Effect> {
    match t
    case None => []
    case Some(i) => [Destroyed(i.serial)]
  }

  /** The taskbar is enabled iff the flag is on, the user is unlocked and the profile has a taskbar. */
  function IsTaskbarEnabled(p: Platform, userUnlocked: bool): bool {
    p.enableTaskbar && userUnlocked && p.profile.isTaskbarPresent
  }

  /** The system-UI calls of recreateTaskbar after its teardown, and the construction if enabled. */
  function RecreateLog(enabled: bool, serial: nat): seq<Effect> {
    [TaskbarEnabledSet(enabled)] + if enabled then [Created(serial)] else [TaskbarStatusNotified(false, false)]
  }

  class TaskbarManager {
    /** mPreferSecondary */
    const preferSecondary: bool
    /** mDisplayId */
    var displayId: int
    /** mContext: the window context, named by a serial number */
    var context: Option<nat>
    /** the serial the next window context gets */
    var nextContext: nat
    /** mTaskbarActivityContext */
    var taskbar: Option<TaskbarInstance>
    /** the serial the next taskbar instance gets */
    var nextSerial: nat
    /** mActivity */
    var activity: Option<Activity>
    /** mSharedState */
    var sharedState: SharedState
    /** mUserUnlocked */
    var userUnlocked: bool
    /** mOldConfig of the component callbacks currently registered */
    var oldConfig: Configuration
    /** the listeners currently registered with the platform */
    var registered: set<Listener>
    /** the calls made on collaborators, in order */
    ghost var effects: seq<Effect>

    /**
     * The object invariant: the instance held is exactly the one alive in
     * the log, instances are only built when none is alive, the serials of
     * the window context and the instance held are below the next ones
     * handed out (so each new one is fresh), a live instance
     * sits on the current window context, agrees with the shared state and
     * carries the controller for the current activity, and no listener of an
     * abandoned window context is still registered.
     */
    ghost predicate Inv()
      reads this
    {
      && Live(effects) == SerialsOf(taskbar)
      && CreatesOnlyWhenEmpty(effects)
      && (context.Some? ==> context.value < nextContext)
      && (taskbar.Some? ==> taskbar.value.serial < nextSerial)
      && (taskbar.Some? ==>
            && context == Some(taskbar.value.context)
            && taskbar.value.state == sharedState
            && taskbar.value.controller == ControllerOf(activity))
      && (forall l :: l in registered && l.PerContext() ==> context == Some(l.ctx))
    }

    /** The invariant once a window context is bound, which the constructor ensures. */
    ghost predicate Valid()
      reads this
    {
      Inv() && context.Some?
    }

    /**
     * What recreateTaskbar leaves behind: any old instance destroyed first,
     * setTaskbarEnabled(e) always called, then either exactly one new instance
     * on the current window context, initialised from the shared state and
     * carrying the controller for the current activity, or no instance and a
     * single notifyTaskbarStatus(false, false).
     */
    twostate predicate Recreated(p: Platform)
      reads this
    {
      var enabled := IsTaskbarEnabled(p, userUnlocked);
      var n := old(nextSerial);
      && context.Some?
      && taskbar == (if enabled
                     then Some(TaskbarInstance(n, context.value, p.profile, sharedState, ControllerOf(activity)))
                     else None)
      && nextSerial == (if enabled then n + 1 else n)
      && effects == old(effects) + DestroyLog(old(taskbar)) + RecreateLog(enabled, n)
    }

    /**
     * What taskbarMoveDisplay leaves behind: the old instance destroyed, the
     * old window context's listeners unregistered, a fresh window context on
     * the new display with its three listeners, the component callbacks'
     * stored configuration reset to the new context's, and then a recreate.
     */
    twostate predicate Moved(newDisplayId: int, p: Platform)
      reads this
    {
      var c := old(nextContext);
      var enabled := IsTaskbarEnabled(p, userUnlocked);
      var n := old(nextSerial);
      && displayId == newDisplayId
      && context == Some(c)
      && nextContext == c + 1
      && registered == old(registered) - ContextListeners(old(context)) + ContextListeners(Some(c))
      && oldConfig == p.windowConfig
      && taskbar == (if enabled
                     then Some(TaskbarInstance(n, c, p.profile, sharedState, ControllerOf(activity)))
                     else None)
      && nextSerial == (if enabled then n + 1 else n)
      && effects == old(effects) + DestroyLog(old(taskbar)) + [WindowContextCreated(c, newDisplayId)]
                    + RecreateLog(enabled, n)
    }

    /**
     * The manager registers its display-info, navigation-mode and display
     * listeners, picks a display with findScreen and moves onto it. The user
     * is still locked, so the first recreate builds no taskbar.
     */
    constructor (p: Platform)
      ensures Valid()
      ensures preferSecondary
      ensures displayId == SelectDisplay(p.displays, true)
      ensures context == Some(0) && nextContext == 1
      ensures registered == {DisplayInfoListener, NavigationModeListener, DisplayListener} + ContextListeners(context)
      ensures !userUnlocked && activity == None && sharedState == SharedState(0, false)
      ensures taskbar == None && nextSerial == 0 && oldConfig == p.windowConfig
      ensures effects == [WindowContextCreated(0, displayId), TaskbarEnabledSet(false), TaskbarStatusNotified(false, false)]
    {
      preferSecondary := true;
      displayId := DEFAULT_DISPLAY;
      context := None;
      nextContext := 0;
      taskbar := None;
      nextSerial := 0;
      activity := None;
      sharedState := SharedState(0, false);
      userUnlocked := false;
      oldConfig := p.windowConfig;
      registered := {};
      effects := [];
      new;
      registered := {DisplayInfoListener, NavigationModeListener, DisplayListener};
      var id := FindScreen(p.displays);
      displayId := id;
      TaskbarMoveDisplay(id, p);
    }

    /**
     * findScreen: scan the display list and keep the id of the last eligible
     * display, starting from (and falling back to) the default display.
     */
    method FindScreen(displays: seq<Display>) returns (candidate: int)
      ensures candidate == SelectDisplay(displays, preferSecondary)
      ensures candidate == DEFAULT_DISPLAY <==> !preferSecondary || NoneEligible(displays)
      ensures preferSecondary ==> forall k :: LastEligibleAt(displays, k) ==> candidate == displays[k].id
    {
      candidate := DEFAULT_DISPLAY;
      if preferSecondary {
        for i := 0 to |displays|
          invariant candidate == LastEligibleId(displays[..i])
        {
          assert displays[..i + 1][..i] == displays[..i];
          if IsDesktopScreen(displays[i]) {
            candidate := displays[i].id;
          }
        }
        assert displays[..|displays|] == displays;
      }
      SelectDisplayDefaultIff(displays, preferSecondary);
      forall k | LastEligibleAt(displays, k)
        ensures LastEligibleId(displays) == displays[k].id
      {
        LastEligibleIdIsLast(displays, k);
      }
    }

    /** destroyExistingTaskbar: destroy the instance held, if any, and drop it. */
    method DestroyExistingTaskbar()
      requires Inv()
      modifies this`taskbar, this`effects
      ensures Inv()
      ensures taskbar == None
      ensures effects == old(effects) + DestroyLog(old(taskbar))
    {
      if taskbar.Some? {
        Emit(Destroyed(taskbar.value.serial));
        taskbar := None;
      }
    }

    /**
     * recreateTaskbar. The device profile exists only once the user is
     * unlocked; a new instance starts with the default UI controller, is
     * initialised from the shared state and then gets the current
     * activity's controller.
     */
    method RecreateTaskbar(p: Platform)
      requires Valid()
      modifies this`taskbar, this`effects, this`nextSerial
      ensures Valid()
      ensures Recreated(p)
    {
      DestroyExistingTaskbar();
      var dp: Option<DeviceProfile> := if userUnlocked then Some(p.profile) else None;
      var isTaskbarEnabled := p.enableTaskbar && dp.Some? && dp.value.isTaskbarPresent;
      Emit(TaskbarEnabledSet(isTaskbarEnabled));
      if !isTaskbarEnabled {
        Emit(TaskbarStatusNotified(false, false));
      } else {
        BuildTaskbar(dp.value);
      }
    }

    /**
     * The enabled half of recreateTaskbar: construct the instance with a copy
     * of the device profile, initialise it from the shared state and attach
     * the current activity's controller.
     */
    method BuildTaskbar(dp: DeviceProfile)
      requires Valid() && taskbar == None
      modifies this`taskbar, this`effects, this`nextSerial
      ensures Valid()
      ensures nextSerial == old(nextSerial) + 1
      ensures taskbar == Some(TaskbarInstance(old(nextSerial), context.value, dp, sharedState, ControllerOf(activity)))
      ensures effects == old(effects) + [Created(old(nextSerial))]
    {
      var n := nextSerial;
      nextSerial := n + 1;
      Emit(Created(n));
      taskbar := Some(TaskbarInstance(n, context.value, dp, sharedState, DefaultUIController));
      if activity.Some? {
        taskbar := Some(taskbar.value.(controller := ControllerFor(activity.value)));
      }
    }

    /** taskbarMoveDisplay: tear down, rebind to the new display, rebuild. */
    method TaskbarMoveDisplay(newDisplayId: int, p: Platform)
      requires Inv()
      modifies this`displayId, this`context, this`nextContext, this`registered, this`oldConfig
      modifies this`taskbar, this`nextSerial, this`effects
      ensures Valid()
      ensures Moved(newDisplayId, p)
    {
      RebindWindowContext(newDisplayId, p);
      ghost var bound := effects;
      RecreateTaskbar(p);
      assert effects == bound + RecreateLog(IsTaskbarEnabled(p, userUnlocked), old(nextSerial));
    }

    /**
     * Unregister the component callbacks, the user-setup-complete listener
     * and the shutdown receiver of the current window context, if any; what
     * stays registered is scoped to no window context.
     */
    method UnregisterContextListeners()
      requires Inv()
      modifies this`registered
      ensures registered == old(registered) - ContextListeners(context)
      ensures forall l :: l in registered ==> !l.PerContext()
    {
      if context.Some? {
        registered := registered - ContextListeners(context);
      }
    }

    /**
     * The first part of taskbarMoveDisplay: destroy the instance, unregister
     * the old window context's listeners, create a window context on the new display and register its
     * shutdown receiver, user-setup-complete listener and component
     * callbacks. Unregistering the old shutdown receiver may find it not
     * registered; the source swallows that error, so here removal from the
     * registered set is simply idempotent.
     */
    method RebindWindowContext(newDisplayId: int, p: Platform)
      requires Inv()
      modifies this`displayId, this`context, this`nextContext, this`registered, this`oldConfig
      modifies this`taskbar, this`effects
      ensures Valid() && taskbar == None
      ensures displayId == newDisplayId
      ensures context == Some(old(nextContext)) && nextContext == old(nextContext) + 1
      ensures registered == old(registered) - ContextListeners(old(context)) + ContextListeners(context)
      ensures oldConfig == p.windowConfig
      ensures effects == old(effects) + DestroyLog(old(taskbar)) + [WindowContextCreated(old(nextContext), newDisplayId)]
    {
      DestroyExistingTaskbar();
      displayId := newDisplayId;
      UnregisterContextListeners();
      var c := nextContext;
      nextContext := c + 1;
      context := Some(c);
      Emit(WindowContextCreated(c, displayId));
      registered := registered + {ShutdownReceiver(c)};
      registered := registered + {UserSetupCompleteListener(c)};
      oldConfig := p.windowConfig;
      registered := registered + {ComponentCallbacks(c)};
    }

    /**
     * The component callbacks' onConfigurationChanged: the diff is taken
     * against the configuration stored for the current window context;
     * `configDiff(a, b)` stands for a.diff(b).
     */
    method OnConfigurationChanged(newConfig: Configuration, configDiff: (Configuration, Configuration) -> bv32, p: Platform)
      returns (diff: bv32)
      requires Valid()
      modifies this`taskbar, this`effects, this`nextSerial, this`oldConfig
      ensures Valid()
      ensures diff == configDiff(old(oldConfig), newConfig)
      ensures oldConfig == newConfig
      ensures ConfigRequiresRecreate(diff) ==> Recreated(p)
      ensures !ConfigRequiresRecreate(diff) ==>
        && nextSerial == old(nextSerial)
        && taskbar == (if old(taskbar).None? then None
                       else if userUnlocked && p.profile.isTaskbarPresent
                       then Some(old(taskbar).value.(profile := p.profile))
                       else old(taskbar))
        && effects == old(effects) + (if old(taskbar).None? then []
                                      else [ConfigurationForwarded(old(taskbar).value.serial, diff)])
    {
      diff := configDiff(oldConfig, newConfig);
      if (diff & CONFIGS_REQUIRING_RECREATE) != 0 {
        RecreateTaskbar(p);
      } else if taskbar.Some? {
        var dp: Option<DeviceProfile> := if userUnlocked then Some(p.profile) else None;
        if dp.Some? && dp.value.isTaskbarPresent {
          taskbar := Some(taskbar.value.(profile := dp.value));
        }
        Emit(ConfigurationForwarded(taskbar.value.serial, diff));
      }
      oldConfig := newConfig;
    }

    /** onNavigationModeChanged: always a full recreate. */
    method OnNavigationModeChanged(p: Platform)
      requires Valid()
      modifies this`taskbar, this`effects, this`nextSerial
      ensures Valid()
      ensures Recreated(p)
    {
      RecreateTaskbar(p);
    }

    /** The user-setup-complete settings listener: a full recreate. */
    method OnUserSetupCompleteChanged(p: Platform)
      requires Valid()
      modifies this`taskbar, this`effects, this`nextSerial
      ensures Valid()
      ensures Recreated(p)
    {
      RecreateTaskbar(p);
    }

    /** The shutdown receiver: destroy the instance and nothing more. */
    method OnShutdown()
      requires Valid()
      modifies this`taskbar, this`effects
      ensures Valid()
      ensures taskbar == None
      ensures effects == old(effects) + DestroyLog(old(taskbar))
    {
      DestroyExistingTaskbar();
    }

    /** onDisplayInfoChanged: recreate only for active-screen, density or bounds changes. */
    method OnDisplayInfoChanged(flags: bv32, p: Platform)
      requires Valid()
      modifies this`taskbar, this`effects, this`nextSerial
      ensures Valid()
      ensures DisplayChangeRequiresRecreate(flags) ==> Recreated(p)
      ensures !DisplayChangeRequiresRecreate(flags) ==> unchanged(this)
    {
      if (flags & CHANGE_FLAGS) != 0 {
        RecreateTaskbar(p);
      }
    }

    /** onDisplayAdded: move onto the new display only if secondary displays are preferred and it is eligible. */
    method OnDisplayAdded(id: int, p: Platform)
      requires Valid()
      modifies this`displayId, this`context, this`nextContext, this`registered, this`oldConfig
      modifies this`taskbar, this`nextSerial, this`effects
      ensures Valid()
      ensures preferSecondary && IsDesktopScreen(LookupDisplay(p.displays, id)) ==> Moved(id, p)
      ensures !(preferSecondary && IsDesktopScreen(LookupDisplay(p.displays, id))) ==> unchanged(this)
    {
      if preferSecondary {
        if IsDesktopScreen(LookupDisplay(p.displays, id)) {
          TaskbarMoveDisplay(id, p);
        }
      }
    }

    /** onDisplayChanged is deliberately ignored. */
    method OnDisplayChanged(id: int)
      ensures unchanged(this)
    {
    }

    /** onDisplayRemoved: only losing the current display moves the taskbar, onto a freshly selected one. */
    method OnDisplayRemoved(id: int, p: Platform)
      requires Valid()
      modifies this`displayId, this`context, this`nextContext, this`registered, this`oldConfig
      modifies this`taskbar, this`nextSerial, this`effects
      ensures Valid()
      ensures id == old(displayId) ==> Moved(SelectDisplay(p.displays, preferSecondary), p)
      ensures id != old(displayId) ==> unchanged(this)
    {
      if displayId == id {
        var target := FindScreen(p.displays);
        TaskbarMoveDisplay(target, p);
      }
    }

    /** onUserUnlocked: remember the unlock and recreate. */
    method OnUserUnlocked(p: Platform)
      requires Valid()
      modifies this`userUnlocked, this`taskbar, this`effects, this`nextSerial
      ensures Valid()
      ensures userUnlocked
      ensures Recreated(p)
    {
      userUnlocked := true;
      RecreateTaskbar(p);
    }

    /** setActivity: remember the activity and hand its controller to a live taskbar. */
    method SetActivity(a: Activity)
      requires Valid()
      modifies this`activity, this`taskbar
      ensures Valid()
      ensures activity == Some(a)
      ensures taskbar == if old(taskbar).None? then None
                         else Some(old(taskbar).value.(controller := ControllerFor(a)))
    {
      activity := Some(a);
      if taskbar.Some? {
        taskbar := Some(taskbar.value.(controller := ControllerFor(activity.value)));
      }
    }

    /** clearActivity: only the activity currently set can be cleared; a live taskbar falls back to the default controller. */
    method ClearActivity(a: Activity)
      requires Valid()
      modifies this`activity, this`taskbar
      ensures Valid()
      ensures old(activity) == Some(a) ==>
        && activity == None
        && taskbar == if old(taskbar).None? then None
                      else Some(old(taskbar).value.(controller := DefaultUIController))
      ensures old(activity) != Some(a) ==> unchanged(this)
    {
      if activity == Some(a) {
        activity := None;
        if taskbar.Some? {
          taskbar := Some(taskbar.value.(controller := DefaultUIController));
        }
      }
    }

    /** onSystemUiFlagsChanged: record the flags in the shared state and forward them to a live taskbar. */
    method OnSystemUiFlagsChanged(systemUiStateFlags: int)
      requires Valid()
      modifies this`sharedState, this`taskbar
      ensures Valid()
      ensures sharedState == old(sharedState).(sysuiStateFlags := systemUiStateFlags)
      ensures taskbar == if old(taskbar).None? then None
                         else Some(old(taskbar).value.(state := sharedState))
    {
      sharedState := sharedState.(sysuiStateFlags := systemUiStateFlags);
      if taskbar.Some? {
        taskbar := Some(taskbar.value.(state := taskbar.value.state.(sysuiStateFlags := systemUiStateFlags)));
      }
    }

    /** setSetupUIVisible: record the flag in the shared state and forward it to a live taskbar. */
    method SetSetupUIVisible(isVisible: bool)
      requires Valid()
      modifies this`sharedState, this`taskbar
      ensures Valid()
      ensures sharedState == old(sharedState).(setupUIVisible := isVisible)
      ensures taskbar == if old(taskbar).None? then None
                         else Some(old(taskbar).value.(state := sharedState))
    {
      sharedState := sharedState.(setupUIVisible := isVisible);
      if taskbar.Some? {
        taskbar := Some(taskbar.value.(state := taskbar.value.state.(setupUIVisible := isVisible)));
      }
    }

    /** disableNavBarElements: ignored unless addressed to the current display; forwarded to a live taskbar. */
    method DisableNavBarElements(id: int, state1: int, state2: int, animate: bool)
      requires Valid()
      modifies this`effects
      ensures Valid()
      ensures id != displayId ==> effects == old(effects)
      ensures id == displayId ==>
        effects == old(effects) + (if taskbar.None? then []
                                   else [NavBarElementsDisabled(taskbar.value.serial, id, state1, state2, animate)])
    {
      if id != displayId {
        return;
      }
      if taskbar.Some? {
        Emit(NavBarElementsDisabled(taskbar.value.serial, id, state1, state2, animate));
      }
    }

    /** onSystemBarAttributesChanged: ignored unless addressed to the current display; forwarded to a live taskbar. */
    method OnSystemBarAttributesChanged(id: int, behavior: int)
      requires Valid()
      modifies this`effects
      ensures Valid()
      ensures id != displayId ==> effects == old(effects)
      ensures id == displayId ==>
        effects == old(effects) + (if taskbar.None? then []
                                   else [SystemBarAttributesForwarded(taskbar.value.serial, id, behavior)])
    {
      if id != displayId {
        return;
      }
      if taskbar.Some? {
        Emit(SystemBarAttributesForwarded(taskbar.value.serial, id, behavior));
      }
    }

    /**
     * destroy: destroy the instance and unregister the display-info and
     * navigation-mode listeners and the window context's three listeners.
     * The display manager's listener is not unregistered. Unregistering a
     * shutdown receiver that is not registered throws, unguarded, as the
     * last step: `threw` reports it, and the state is the same either way.
     */
    method Destroy() returns (threw: bool)
      requires Valid()
      modifies this`taskbar, this`effects, this`registered
      ensures Valid()
      ensures taskbar == None
      ensures effects == old(effects) + DestroyLog(old(taskbar))
      ensures registered == old(registered) - {DisplayInfoListener, NavigationModeListener} - ContextListeners(context)
      ensures DisplayListener in registered <==> DisplayListener in old(registered)
      ensures threw <==> ShutdownReceiver(context.value) !in old(registered)
    {
      DestroyExistingTaskbar();
      registered := registered - {DisplayInfoListener};
      registered := registered - {NavigationModeListener};
      registered := registered - {UserSetupCompleteListener(context.value)};
      registered := registered - {ComponentCallbacks(context.value)};
      threw := ShutdownReceiver(context.value) !in registered;
      registered := registered - {ShutdownReceiver(context.value)};
    }

    /**
     * In the manager's history two taskbar instances never coexist: at most
     * one is alive, it is the one held, and between any two constructions
     * the earlier instance received onDestroy.
     */
    lemma SingleInstance()
      requires Inv()
      ensures |Live(effects)| <= 1
      ensures forall n :: n in Live(effects) ==> taskbar.Some? && taskbar.value.serial == n
      ensures forall i, j :: 0 <= i < j < |effects| && effects[i].Created? && effects[j].Created? ==>
                exists k :: i < k < j && effects[k] == Destroyed(effects[i].serial)
    {
      forall i, j | 0 <= i < j < |effects| && effects[i].Created? && effects[j].Created?
        ensures exists k :: i < k < j && effects[k] == Destroyed(effects[i].serial)
      {
        DestroyedBeforeRebuilt(effects, i, j);
      }
    }

    /** Append one call to the log, keeping the construction discipline. */
    ghost method Emit(e: Effect)
      requires CreatesOnlyWhenEmpty(effects)
      requires e.Created? ==> Live(effects) == {}
      modifies this`effects
      ensures effects == old(effects) + [e]
      ensures Live(effects) == Step(Live(old(effects)), e)
      ensures CreatesOnlyWhenEmpty(effects)
    {
      LogSnoc(effects, e);
      effects := effects + [e];
    }
  }

  /**
   * The first destroy unregisters the shutdown receiver without error; a
   * second destroy finds it gone and throws.
   */
  method DestroyTwiceScenario(m: TaskbarManager) returns (first: bool, second: bool)
    requires m.Valid() && ShutdownReceiver(m.context.value) in m.registered
    modifies m
    ensures !first && second
    ensures m.taskbar == None
  {
    first := m.Destroy();
    second := m.Destroy();
  }

  /**
   * A move releases the listeners of the window context it abandons: none
   * of the old context's three listeners is registered afterwards.
   */
  method MoveReleasesOldContextScenario(m: TaskbarManager, newDisplayId: int, p: Platform)
    requires m.Valid()
    modifies m
    ensures m.Valid()
    ensures forall l :: l in ContextListeners(old(m.context)) ==> l !in m.registered
  {
    m.TaskbarMoveDisplay(newDisplayId, p);
  }

  /**
   * Losing the current display while the list holds the default display and
   * one eligible secondary display moves the taskbar onto that display.
   */
  method RemovedDisplayScenario(m: TaskbarManager, d: Display, p: Platform)
    requires m.Valid() && m.preferSecondary
    requires IsDesktopScreen(d)
    requires p.displays == [Display(true, true, DEFAULT_DISPLAY, FLAG_SECURE), d]
    modifies m
    ensures m.displayId == d.id
    ensures m.context == Some(old(m.nextContext))
    ensures m.Moved(d.id, p)
  {
    assert LastEligibleAt(p.displays, 1);
    m.OnDisplayRemoved(m.displayId, p);
  }

  /**
   * While the user is locked there is no device profile: a recreate leaves no
   * taskbar and notifies the system UI exactly once that it is hidden.
   */
  method LockedRecreateScenario(m: TaskbarManager, p: Platform)
    requires m.Valid() && !m.userUnlocked
    modifies m
    ensures m.taskbar == None
    ensures m.effects == old(m.effects) + DestroyLog(old(m.taskbar))
                         + [TaskbarEnabledSet(false), TaskbarStatusNotified(false, false)]
  {
    m.RecreateTaskbar(p);
  }

  /** Two moves in a row: each tears down before building, so at most one instance is ever alive. */
  method MoveTwiceScenario(m: TaskbarManager, first: int, second: int, p: Platform)
    requires m.Valid()
    modifies m
    ensures m.displayId == second
    ensures |Live(m.effects)| <= 1
  {
    m.TaskbarMoveDisplay(first, p);
    m.TaskbarMoveDisplay(second, p);
    m.SingleInstance();
  }
}

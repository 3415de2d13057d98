# Taskbar lifecycle manager

A Dafny model of the launcher's `TaskbarManager`. The manager decides which display hosts the taskbar. It binds a window context to that display and keeps at most one taskbar instance (`TaskbarActivityContext`) alive on it. Most events lead to one of two operations: *recreate* (tear down, then build if enabled) and *move* (tear down, rebind to another display, recreate). Display, navigation-mode, unlock and setup-complete events do this, and so does a configuration change touching asset paths, layout direction or UI mode. There are three exceptions. The shutdown receiver only destroys the instance. Any other configuration change updates the live instance in place. `onDisplayChanged` is ignored.

Files:

- `displays.dfy`: module `Displays`. Display eligibility (`IsDesktopScreen`), lookup by id, and a reference definition of `findScreen`'s last-eligible-wins scan, with lemmas about that scan.
- `controllers.dfy`: module `Controllers`. Activity kinds and the UI-controller variant chosen for an activity.
- `effects.dfy`: module `Effects`. A log of the calls made on collaborators, the set of live taskbar instances it implies, and the rule that an instance is only built while none is alive. Lemmas: at most one instance is ever alive, and between two constructions the first instance is destroyed.
- `taskbar_manager.dfy`: module `Taskbar`. The class `TaskbarManager` holds the source's fields:
  - `displayId`, `context`, `taskbar`, `activity`, `sharedState`, `userUnlocked`;
  - the callbacks' `oldConfig`;
  - the set of `registered` listeners;
  - the ghost log `effects`.

  Each modelled handler becomes a class method whose `ensures` gives the complete new state. The object invariant `Inv()` establishes that:
  - the instance held is exactly the one alive in the log;
  - the current window context's serial and the held instance's serial are below the next serials handed out, so every new context or instance is fresh;
  - the instance sits on the current window context;
  - its shared state equals `sharedState`;
  - its controller is the one for the current activity;
  - no listener of an abandoned window context is still registered.
- `wrappers.dfy`: `Option`.

Platform collaborators are inputs. During one event, a `Platform` value carries these answers:
- `FeatureFlags.ENABLE_TASKBAR`;
- the device profile `LauncherAppState` computes;
- `DisplayManager.getDisplays()`;
- the configuration of a newly created window context.

`Configuration.diff` is the function parameter `configDiff(old, new)` of `OnConfigurationChanged`.

Calls on the taskbar instance and on `SystemUiProxy` are appended to `effects`. Calls that only change what the instance holds are recorded in the `TaskbarInstance` value instead: `init`, `setUIController`, `updateDeviceProfile`, `updateSysuiStateFlags` and `setSetupUIVisible`. Window contexts and taskbar instances are identified by serial numbers.

Constants follow Android:
- `DEFAULT_DISPLAY = 0`;
- `FLAG_SECURE = 1 << 1`, `FLAG_PRIVATE = 1 << 2`;
- `CONFIG_UI_MODE = 0x200`, `CONFIG_LAYOUT_DIRECTION = 0x2000`, `CONFIG_ASSETS_PATHS = 0x80000000`;
- `DisplayController`'s `CHANGE_ACTIVE_SCREEN = 1`, `CHANGE_ROTATION = 2`, `CHANGE_DENSITY = 4`, `CHANGE_SUPPORTED_BOUNDS = 8`.

`ActivityInfo` is Android's class and its `CONFIG_*` values are the platform's published ones. `DisplayController` is the launcher's own class (`com.android.launcher3.util.DisplayController`); `DisplayController.java` is not part of this model, and the `CHANGE_*` values are taken from it as the launcher defines them. The model relies on only one fact about them: `CHANGE_ROTATION` is a bit separate from the other three.

Behaviour of the code worth noting, modelled as written:
- After a configuration change that needs no rebuild, `onConfigurationChanged(diff)` is forwarded to any live instance, whether or not the user is unlocked. Only the device-profile update waits for the unlock and for `isTaskbarPresent`.
- `destroy()` does not unregister the display manager listener registered in the constructor. `Destroy` states that the listener stays registered.
- `mPreferSecondary` is hard-wired to `true` in the constructor, and the model's constructor does the same. `SelectDisplay` takes the policy as a parameter, so both branches of `findScreen` are proved.
- `onDisplayChanged` is an empty method in the source; `OnDisplayChanged` has an empty body and may modify nothing.

## Model

| member | source | states |
|---|---|---|
| Displays.IsDesktopScreen | quickstep/src/com/android/launcher3/taskbar/TaskbarManager.java:139-151 | A display is eligible iff it is non-null, valid, not `DEFAULT_DISPLAY`, has `FLAG_PRIVATE` clear and has `FLAG_SECURE` set; an eligible display never has the default id |
| Displays.LookupDisplay | quickstep/src/com/android/launcher3/taskbar/TaskbarManager.java:122 | `getDisplay(id)` answers a listed display with that id, or null exactly when no listed display has it; null is never eligible |
| Displays.LastEligibleIdDefaultIff | quickstep/src/com/android/launcher3/taskbar/TaskbarManager.java:153-162 | The scan ends on the default display iff no display in the list is eligible |
| Displays.LastEligibleIdIsLast | quickstep/src/com/android/launcher3/taskbar/TaskbarManager.java:153-162 | The scan ends on the id of the last eligible display in enumeration order (last wins) |
| Displays.LastEligibleExists | quickstep/src/com/android/launcher3/taskbar/TaskbarManager.java:153-162 | If any display is eligible, some display is the last eligible one |
| Displays.SelectDisplayDefaultIff | quickstep/src/com/android/launcher3/taskbar/TaskbarManager.java:153-162 | `findScreen` answers `DEFAULT_DISPLAY` iff the policy does not prefer secondary displays or no display is eligible |
| Displays.SelectDisplayLastWins | quickstep/src/com/android/launcher3/taskbar/TaskbarManager.java:153-162 | With the policy on and an eligible display present, `findScreen` answers the id of the last eligible display |
| Controllers.ControllerFor | quickstep/src/com/android/launcher3/taskbar/TaskbarManager.java:270-278 | A launcher gets the launcher controller, the recents activity gets the fallback controller, anything else gets `DEFAULT`; a non-default controller is bound to that same activity |
| Effects.AtMostOneLive | quickstep/src/com/android/launcher3/taskbar/TaskbarManager.java:293-310 | If instances are built only while none is alive, at most one instance is ever alive |
| Effects.NoTwoLive | quickstep/src/com/android/launcher3/taskbar/TaskbarManager.java:293-310 | Under the same rule, two live instances are the same instance |
| Effects.StaysLiveUntilDestroyed | quickstep/src/com/android/launcher3/taskbar/TaskbarManager.java:226-231 | A built instance stays alive until its `onDestroy` |
| Effects.DestroyedBeforeRebuilt | quickstep/src/com/android/launcher3/taskbar/TaskbarManager.java:293-310 | Between any two constructions, the first instance has been destroyed |
| Taskbar.DisplayChangeRequiresRecreate | quickstep/src/com/android/launcher3/taskbar/TaskbarManager.java:89-90 | `flags & CHANGE_FLAGS` is non-zero iff the change is an active-screen, density or supported-bounds change; a rotation-only change does not rebuild |
| Taskbar.ConfigRequiresRecreate | quickstep/src/com/android/launcher3/taskbar/TaskbarManager.java:194-196 | A config diff requires a rebuild iff it touches asset paths, layout direction or UI mode |
| Taskbar.TaskbarManager.constructor | quickstep/src/com/android/launcher3/taskbar/TaskbarManager.java:94-105 | Registers the three manager-wide listeners, selects the display with `findScreen` and moves onto it. The user is still locked, so no taskbar is built: `setTaskbarEnabled(false)` and `notifyTaskbarStatus(false, false)` are logged |
| Taskbar.TaskbarManager.FindScreen | quickstep/src/com/android/launcher3/taskbar/TaskbarManager.java:153-162 | The loop's candidate is the reference scan. It is the default display iff the policy is off or nothing is eligible, and otherwise the id of the last eligible display |
| Taskbar.TaskbarManager.DestroyExistingTaskbar | quickstep/src/com/android/launcher3/taskbar/TaskbarManager.java:226-231 | A held instance gets `onDestroy` and the field becomes empty; with no instance, nothing is logged |
| Taskbar.TaskbarManager.RecreateTaskbar | quickstep/src/com/android/launcher3/taskbar/TaskbarManager.java:293-317 | Any old instance is destroyed first. `setTaskbarEnabled(e)` is always called, with `e = ENABLE_TASKBAR && userUnlocked && isTaskbarPresent`. If `e` is false, `notifyTaskbarStatus(false, false)` is called once and no instance is left. Otherwise exactly one new instance is left, on the current context, holding the profile and the shared state, with the controller for the current activity (default when none) |
| Taskbar.TaskbarManager.BuildTaskbar | quickstep/src/com/android/launcher3/taskbar/TaskbarManager.java:309-316 | Builds one fresh instance from the profile copy, initialises it from `mSharedState`, attaches the activity's controller iff an activity is set, and logs exactly one construction |
| Taskbar.TaskbarManager.TaskbarMoveDisplay | quickstep/src/com/android/launcher3/taskbar/TaskbarManager.java:164-224 | Destroys the old instance before anything else and sets `mDisplayId`. Swaps the old context's three listeners for a fresh context's. Resets `mOldConfig` and recreates; the log order is destroy, context creation, recreate |
| Taskbar.TaskbarManager.UnregisterContextListeners | quickstep/src/com/android/launcher3/taskbar/TaskbarManager.java:167-174 | Removes exactly the current context's three listeners; nothing scoped to any window context stays registered |
| Taskbar.TaskbarManager.RebindWindowContext | quickstep/src/com/android/launcher3/taskbar/TaskbarManager.java:165-218 | Destroys the instance first, then unregisters the old context's listeners (idempotently), creates the window context on the new display, registers its shutdown receiver, setup listener and component callbacks, and takes that context's configuration as `mOldConfig` |
| Taskbar.TaskbarManager.OnConfigurationChanged | quickstep/src/com/android/launcher3/taskbar/TaskbarManager.java:192-213 | The diff is `Configuration.diff` of the configuration stored for the current window context (reset on every move) and the new one. A diff touching `ASSETS_PATHS`, `LAYOUT_DIRECTION` or `UI_MODE` means a full recreate. Otherwise the instance is kept (same serial, not destroyed); its profile is updated only when the user is unlocked and the taskbar is present, and it receives `onConfigurationChanged(diff)`. In both branches `mOldConfig` becomes the new configuration |
| Taskbar.TaskbarManager.OnNavigationModeChanged | quickstep/src/com/android/launcher3/taskbar/TaskbarManager.java:107-110 | Always a full recreate |
| Taskbar.TaskbarManager.OnUserSetupCompleteChanged | quickstep/src/com/android/launcher3/taskbar/TaskbarManager.java:184-186 | The settings listener does a full recreate |
| Taskbar.TaskbarManager.OnShutdown | quickstep/src/com/android/launcher3/taskbar/TaskbarManager.java:181-182 | The shutdown receiver only destroys the instance |
| Taskbar.TaskbarManager.OnDisplayInfoChanged | quickstep/src/com/android/launcher3/taskbar/TaskbarManager.java:112-117 | Recreates iff the flags intersect `CHANGE_FLAGS`; otherwise nothing changes |
| Taskbar.TaskbarManager.OnDisplayAdded | quickstep/src/com/android/launcher3/taskbar/TaskbarManager.java:119-125 | Moves onto the added display iff secondary displays are preferred and the display looked up under that id is eligible; otherwise nothing changes |
| Taskbar.TaskbarManager.OnDisplayChanged | quickstep/src/com/android/launcher3/taskbar/TaskbarManager.java:127-130 | Does nothing; modifies nothing |
| Taskbar.TaskbarManager.OnDisplayRemoved | quickstep/src/com/android/launcher3/taskbar/TaskbarManager.java:132-137 | Moves onto the display `findScreen` selects iff the removed id is the current one; otherwise nothing changes |
| Taskbar.TaskbarManager.OnUserUnlocked | quickstep/src/com/android/launcher3/taskbar/TaskbarManager.java:236-239 | Sets the unlocked flag, then does a full recreate with it set |
| Taskbar.TaskbarManager.SetActivity | quickstep/src/com/android/launcher3/taskbar/TaskbarManager.java:244-253 | Stores the activity; a live instance gets that activity's controller |
| Taskbar.TaskbarManager.ClearActivity | quickstep/src/com/android/launcher3/taskbar/TaskbarManager.java:283-291 | Acts only when the argument is the current activity: clears it and gives a live instance the default controller. Otherwise nothing changes |
| Taskbar.TaskbarManager.OnSystemUiFlagsChanged | quickstep/src/com/android/launcher3/taskbar/TaskbarManager.java:319-324 | Always updates the shared state's flags; a live instance receives them too |
| Taskbar.TaskbarManager.SetSetupUIVisible | quickstep/src/com/android/launcher3/taskbar/TaskbarManager.java:329-334 | Always updates the shared state's setup-UI flag; a live instance receives it too |
| Taskbar.TaskbarManager.DisableNavBarElements | quickstep/src/com/android/launcher3/taskbar/TaskbarManager.java:342-347 | Nothing changes unless the id is the current display; then the call is forwarded iff an instance is live |
| Taskbar.TaskbarManager.OnSystemBarAttributesChanged | quickstep/src/com/android/launcher3/taskbar/TaskbarManager.java:349-354 | Nothing changes unless the id is the current display; then the call is forwarded iff an instance is live |
| Taskbar.TaskbarManager.Destroy | quickstep/src/com/android/launcher3/taskbar/TaskbarManager.java:365-373 | Destroys the instance and unregisters the display-info and nav-mode listeners and the context's three listeners. The display manager listener is left registered. It reports the `IllegalArgumentException` of the unguarded `unregisterReceiver` exactly when the shutdown receiver was not registered, as on a second `destroy()` |
| Taskbar.DestroyTwiceScenario | quickstep/src/com/android/launcher3/taskbar/TaskbarManager.java:365-373 | A first `destroy()` returns normally; a second one throws from `unregisterReceiver` |
| Taskbar.TaskbarManager.SingleInstance | quickstep/src/com/android/launcher3/taskbar/TaskbarManager.java:293-310 | Under the object invariant, in the manager's own history: at most one instance is alive, it is the one held, and between any two constructions the earlier instance got `onDestroy` |
| Taskbar.RemovedDisplayScenario | quickstep/src/com/android/launcher3/taskbar/TaskbarManager.java:132-137 | Removing the current display when the list holds the default display and one eligible display D moves the taskbar onto D, by exactly one move: the new state and the log are those of a single `taskbarMoveDisplay(D)`, with one new window context |
| Taskbar.MoveReleasesOldContextScenario | quickstep/src/com/android/launcher3/taskbar/TaskbarManager.java:164-218 | After a move, none of the abandoned window context's three listeners is registered |
| Taskbar.LockedRecreateScenario | quickstep/src/com/android/launcher3/taskbar/TaskbarManager.java:296-306 | A recreate while locked leaves no taskbar and logs `setTaskbarEnabled(false)` and a single `notifyTaskbarStatus(false, false)` |
| Taskbar.MoveTwiceScenario | quickstep/src/com/android/launcher3/taskbar/TaskbarManager.java:164-165 | After two moves in a row, at most one instance is alive |

## Left out

- The unfold-transition progress provider handed over in `setActivity` and `clearActivity` (`setSourceProvider`) is a foreign object handoff and is not modelled.
- `onRotationProposal` and `onNavButtonsDarkIntensityChanged` are not modelled. Each forwards to a live instance and has no logic of its own; the second carries a float.
- `getCurrentActivityContext` is the plain getter of the `taskbar` field.
- `TaskbarNavButtonController` is not modelled: nothing about it reaches the manager's decisions. The same holds for `createWindowContext`'s window type and the `Handler`.
- `ComponentCallbacks.onLowMemory` is an empty method.
- `Configuration.diff` is not computed. It is the input function `configDiff`, applied to the stored and the new configuration.
- Device profile and configuration contents are opaque. `DeviceProfile.copy` is the identity on the modelled profile.
- `SettingsCache`, `SimpleBroadcastReceiver`, `DisplayManager` and `SystemUiProxy` are platform singletons. They appear only as registrations in `registered` or as entries in `effects`.
- The `IllegalArgumentException` that `taskbarMoveDisplay` swallows when unregistering the shutdown receiver is not modelled; there, unregistering is idempotent set removal.
- Taskbar.TaskbarManager.Destroy: the exception from `unregisterReceiver` is reported by the result `threw` rather than propagated. It is the last statement of `destroy()`, so the state is the same either way; what a caller does with the exception is not modelled.
- Failures of platform calls (context creation, registration) are not modelled. The source does not recover from them.
- Everything runs on one thread in the source, and the model treats each event as one atomic method call.
- `SecondaryDisplayLauncher.java` has no logic and is not part of this model.

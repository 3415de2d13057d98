/**
 * The activity that currently wants taskbar callbacks, and the UI controller
 * variant the taskbar uses while that activity is in front.
 */
module Controllers {
  import opened Wrappers

  /** The runtime class of a StatefulActivity, as far as the taskbar cares. */
  datatype ActivityKind = Launcher | Recents | Other

  /**
   * A reference to a StatefulActivity: `handle` stands for the object's
   * identity (Java compares activities with ==), `kind` for its class.
   */
  datatype Activity = Activity(handle: nat, kind: ActivityKind)

  /**
   * LauncherTaskbarUIController, FallbackTaskbarUIController (bound to a
   * RecentsActivity) and the shared no-op TaskbarUIController.DEFAULT.
   */
  datatype UIController =
    | LauncherUIController(launcher: Activity)
    | FallbackUIController(recents: Activity)
    | DefaultUIController

  /** The activity a controller is bound to; the default controller has none. */
  function BoundActivity(c: UIController): Option<Activity> {
    match c
    case LauncherUIController(a) => Some(a)
    case FallbackUIController(a) => Some(a)
    case DefaultUIController => None
  }

  /**
   * createTaskbarUIControllerForActivity: a launcher gets the launcher
   * controller, the recents activity the fallback controller, anything else
   * the default one; a non-default controller is bound to that very activity.
   */
  function ControllerFor(a: Activity): (c: UIController)
    ensures c.LauncherUIController? <==> a.kind == Launcher
    ensures c.FallbackUIController? <==> a.kind == Recents
    ensures c.DefaultUIController? <==> a.kind == Other
    ensures BoundActivity(c) == if a.kind == Other then None else Some(a)
  {
    match a.kind
    case Launcher => LauncherUIController(a)
    case Recents => FallbackUIController(a)
    case Other => DefaultUIController
  }

  /** The controller a live taskbar should carry while `activity` is (or is not) set. */
  function ControllerOf(activity: Option<Activity>): UIController {
    match activity
    case None => DefaultUIController
    case Some(a) => ControllerFor(a)
  }
}

/** `ViewDataStateManager`: the single slot holding the registered getter. */
module Manager {
  import opened Wrappers
  import opened DataState
  import opened Views

  /** A getter maps a state and its host to the view to show, if any. */
  type Getter = (ViewDataState, HostView) -> Option<StateView>

  /** The registry. The Swift code keeps one shared instance; here it is an object
      handed to the setter. */
  class ViewDataStateManager {
    var viewGetter: Option<Getter>

    constructor ()
      ensures viewGetter == None
    {
      viewGetter := None;
    }

    /** Registering stores the getter, replacing any earlier one. */
    method Register(getter: Getter)
      modifies this
      ensures viewGetter == Some(getter)
    {
      viewGetter := Some(getter);
    }
  }
}

/** The views the setter works on: the overlay a getter returns, the
    `StateView` that wraps it, and the host view with the two values the
    Swift code attaches to it as associated objects. */
module Views {
  import opened Wrappers
  import opened DataState

  /** A centre offset (`UIOffset`), its components taken as integers. */
  datatype Offset = Offset(horizontal: int, vertical: int)

  /** A view that can be the child of a host. `handleable` says whether its
      class conforms to `DataStateHandleable`. */
  class OverlayView {
    const handleable: bool
    var dataStateHandler: Option<Callback>

    constructor (handleable: bool)
      ensures this.handleable == handleable
      ensures dataStateHandler == None
    {
      this.handleable := handleable;
      dataStateHandler := None;
    }
  }

  /** `StateView.Info`: an optional centre offset. */
  datatype StateViewInfo = StateViewInfo(offset: Option<Offset>)

  /** What a getter returns: the view to mount and optional layout info,
      which defaults to nil as in `init(_:info:)`. */
  datatype StateView = StateView(view: OverlayView, info: Option<StateViewInfo> := None)

  /** The offset the view is centred with: each component falls back to 0
      when either the info or its offset is missing. */
  function CenterOffset(sv: StateView): (r: Offset)
    ensures sv.info.Some? && sv.info.value.offset.Some? ==> r == sv.info.value.offset.value
    ensures sv.info.None? || sv.info.value.offset.None? ==> r == Offset(0, 0)
  {
    var offset := if sv.info.Some? then sv.info.value.offset else None;
    var given := offset.GetOr(Offset(0, 0));
    Offset(given.horizontal, given.vertical)
  }

  /** A snapshot of a host's state as a value:
      - `storedId`: the associated state id;
      - `recorded`: the associated overlay view, which is overwritten only by a
        later mount and not cleared when the view is removed;
      - `attached`: the host's children;
      - `centering`: for each child centred on the host, its offset;
      - `mounted`: every view this mechanism has ever added (history only). */
  datatype Binding = Binding(
    storedId: string,
    recorded: Option<OverlayView>,
    attached: set<OverlayView>,
    centering: map<OverlayView, Offset>,
    mounted: set<OverlayView>)

  /** The snapshot of a host that has never been given a state. */
  function Fresh(children: set<OverlayView>): (b: Binding)
    ensures b.storedId == "none" && b.recorded == None && b.mounted == {}
    ensures b.attached == children && b.centering == map[]
  {
    Binding("none", None, children, map[], {})
  }

  /** A host view. The stored id and the recorded overlay are the two
      associated objects; the stored id starts at the id of `none`, which is
      what the setter reads while the association is still absent. */
  class HostView {
    var storedId: string
    var recordedOverlay: Option<OverlayView>
    var subviews: set<OverlayView>
    var centering: map<OverlayView, Offset>
    ghost var mounted: set<OverlayView>

    constructor (children: set<OverlayView>)
      ensures Snapshot() == Fresh(children)
    {
      storedId := "none";
      recordedOverlay := None;
      subviews := children;
      centering := map[];
      mounted := {};
    }

    ghost function Snapshot(): Binding
      reads this
    {
      Binding(storedId, recordedOverlay, subviews, centering, mounted)
    }
  }
}

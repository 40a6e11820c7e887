/** The `state` property of `ViewDataStateWrapper`: the step function of the
    per-host state machine that mounts and removes overlays. */
module StateBinding {
  import opened Wrappers
  import opened DataState
  import opened Views
  import opened Manager

  /** What a set does to the mounted view's handler. */
  datatype HandlerWrite = Keep | Assign(callback: Option<Callback>)

  /** Where a set stopped. `Unregistered` is Swift's `fatalError` (no
      getter registered), returned here instead of ending the process. */
  datatype SetOutcome =
    | Unchanged
    | Cleared
    | Unregistered
    | OptedOut
    | Mounted(view: OverlayView, offset: Offset, handler: HandlerWrite)

  /** The reading side of `state`: whatever was set, it gives `none`. */
  function ReadState(): (s: ViewDataState)
    ensures s.NoneState?
  {
    NoneState
  }

  /** Storing a new id and removing the recorded overlay from the host. The
      record itself is kept. */
  function Detach(b: Binding, id: string): Binding {
    match b.recorded
    case None => b.(storedId := id)
    case Some(v) => b.(storedId := id, attached := b.attached - {v}, centering := b.centering - {v})
  }

  /** One set of `newValue` on `base`, whose snapshot is `b`, with `getter`
      the registry's slot. */
  function Step(b: Binding, newValue: ViewDataState, getter: Option<Getter>, base: HostView, hash: Info -> int)
    : (Binding, SetOutcome)
  {
    var id := Id(newValue, hash);
    if id == b.storedId then (b, Unchanged)
    else
      var d := Detach(b, id);
      if Equal(newValue, NoneState, hash) then (d, Cleared)
      else if getter.None? then (d, Unregistered)
      else match getter.value(newValue, base)
        case None => (d, OptedOut)
        case Some(sv) =>
          var offset := CenterOffset(sv);
          var handler := if !newValue.NoneState? && sv.view.handleable then Assign(newValue.callback) else Keep;
          (d.(recorded := Some(sv.view), attached := d.attached + {sv.view},
              centering := d.centering[sv.view := offset], mounted := d.mounted + {sv.view}),
           Mounted(sv.view, offset, handler))
  }

  /** The views a set may write a handler to: the one the getter would return. */
  function Targets(getter: Option<Getter>, newValue: ViewDataState, base: HostView): set<OverlayView> {
    if getter.None? then {}
    else match getter.value(newValue, base)
      case None => {}
      case Some(sv) => {sv.view}
  }

  /** The setter. */
  method SetState(base: HostView, newValue: ViewDataState, manager: ViewDataStateManager, hash: Info -> int)
    returns (outcome: SetOutcome)
    modifies base, Targets(manager.viewGetter, newValue, base)
    ensures (base.Snapshot(), outcome) == Step(old(base.Snapshot()), newValue, manager.viewGetter, base, hash)
    ensures outcome.Mounted? && outcome.handler.Assign? ==> outcome.view.dataStateHandler == outcome.handler.callback
    ensures forall v | v in Targets(manager.viewGetter, newValue, base) && old(allocated(v)) && !(outcome.Mounted? && outcome.handler.Assign?) ::
              v.dataStateHandler == old(v.dataStateHandler)
  {
    var id := base.storedId;
    if Id(newValue, hash) == id {
      return Unchanged;
    }
    base.storedId := Id(newValue, hash);
    if base.recordedOverlay.Some? {
      var old_ := base.recordedOverlay.value;
      base.subviews := base.subviews - {old_};
      base.centering := base.centering - {old_};
    }
    if Equal(newValue, NoneState, hash) {
      return Cleared;
    }
    if manager.viewGetter.None? {
      return Unregistered;
    }
    var getter := manager.viewGetter.value;
    var stateView := getter(newValue, base);
    if stateView.None? {
      return OptedOut;
    }
    var view := stateView.value.view;
    base.subviews := base.subviews + {view};
    base.recordedOverlay := Some(view);
    base.mounted := base.mounted + {view};
    var offset := CenterOffset(stateView.value);
    base.centering := base.centering[view := offset];
    outcome := Mounted(view, offset, Keep);
    if !newValue.NoneState? && view.handleable {
      view.dataStateHandler := newValue.callback;
      outcome := Mounted(view, offset, Assign(newValue.callback));
    }
  }

  /** The overlays this mechanism added that are still children of the host. */
  function Live(b: Binding): set<OverlayView> {
    b.mounted * b.attached
  }

  /** The invariant of a host: at most one overlay added by a set is attached,
      it is the recorded one, and it is attached only while the stored id is
      not that of `none`. The record only ever names a view a set added. */
  predicate Valid(b: Binding) {
    && (forall v | v in Live(b) :: b.recorded == Some(v))
    && (Live(b) != {} ==> b.storedId != "none")
    && (b.recorded.Some? ==> b.recorded.value in b.mounted)
  }

  /** A host that has never been set satisfies the invariant, whatever its children. */
  lemma FreshValid(children: set<OverlayView>)
    ensures Valid(Fresh(children)) && Live(Fresh(children)) == {}
  {
  }

  /** A set whose id equals the stored one changes nothing and stops at once.
      On a fresh host, setting `none` is such a set. */
  lemma SameIdIsNoOp(b: Binding, newValue: ViewDataState, getter: Option<Getter>, base: HostView, hash: Info -> int)
    requires Id(newValue, hash) == b.storedId
    ensures Step(b, newValue, getter, base, hash) == (b, Unchanged)
  {
  }

  /** The same, for the fresh host and `none`. */
  lemma NoneOnFreshIsNoOp(children: set<OverlayView>, getter: Option<Getter>, base: HostView, hash: Info -> int)
    ensures Step(Fresh(children), NoneState, getter, base, hash) == (Fresh(children), Unchanged)
  {
  }

  /** A set that changes the id always stores it and always removes the
      recorded overlay, unless the getter hands that same view back; other
      children are never removed. */
  lemma ChangedIdStoresAndDetaches(b: Binding, newValue: ViewDataState, getter: Option<Getter>, base: HostView, hash: Info -> int)
    requires Id(newValue, hash) != b.storedId
    ensures var (b', outcome) := Step(b, newValue, getter, base, hash);
      && b'.storedId == Id(newValue, hash)
      && !outcome.Unchanged?
      && (b.recorded.Some? && (outcome.Mounted? ==> outcome.view != b.recorded.value) ==>
            b.recorded.value !in b'.attached && b.recorded.value !in b'.centering)
      && (forall v | v in b.attached && b.recorded != Some(v) :: v in b'.attached)
      && b'.attached <= b.attached + (if outcome.Mounted? then {outcome.view} else {})
  {
  }

  /** Where a set stops, in both directions: `none` never reaches the getter,
      a missing getter is the fatal case, a nil answer mounts nothing, and a
      view is mounted, recorded and centred with the resolved offset, its
      handler written only when it is handleable. */
  lemma StepOutcome(b: Binding, newValue: ViewDataState, getter: Option<Getter>, base: HostView, hash: Info -> int)
    ensures var (b', outcome) := Step(b, newValue, getter, base, hash);
      var changed := Id(newValue, hash) != b.storedId;
      && (outcome.Unchanged? <==> !changed)
      && (outcome.Cleared? <==> changed && newValue.NoneState?)
      && (outcome.Unregistered? <==> changed && !newValue.NoneState? && getter.None?)
      && (outcome.OptedOut? <==> changed && !newValue.NoneState? && getter.Some? && getter.value(newValue, base).None?)
      && (outcome.Mounted? <==> changed && !newValue.NoneState? && getter.Some? && getter.value(newValue, base).Some?)
      && (outcome.Mounted? ==>
            var sv := getter.value(newValue, base).value;
            && outcome.view == sv.view
            && outcome.offset == CenterOffset(sv)
            && b'.recorded == Some(sv.view) && sv.view in b'.attached
            && b'.centering == Detach(b, Id(newValue, hash)).centering[sv.view := CenterOffset(sv)]
            && outcome.handler == (if sv.view.handleable then Assign(newValue.callback) else Keep))
      && (!outcome.Mounted? ==> b'.recorded == b.recorded)
  {
    EqualNoneIffNone(newValue, hash);
  }

  /** Which getter is registered does not matter when the new state is `none`
      or has the stored id: the getter is not called. */
  lemma GetterUnusedWithoutMount(b: Binding, newValue: ViewDataState, g1: Option<Getter>, g2: Option<Getter>,
                                 base: HostView, hash: Info -> int)
    requires newValue.NoneState? || Id(newValue, hash) == b.storedId
    ensures Step(b, newValue, g1, base, hash) == Step(b, newValue, g2, base, hash)
  {
  }

  /** Every set keeps the invariant. Afterwards the only overlay from this
      mechanism still attached is the one the set mounted, if it mounted one;
      if it changed the id without mounting, none is attached. */
  lemma StepKeepsValid(b: Binding, newValue: ViewDataState, getter: Option<Getter>, base: HostView, hash: Info -> int)
    requires Valid(b)
    ensures var (b', outcome) := Step(b, newValue, getter, base, hash);
      && Valid(b')
      && Live(b') == (if outcome.Mounted? then {outcome.view}
                      else if outcome.Unchanged? then Live(b)
                      else {})
  {
  }

  /** Setting the same state twice: the second set is a no-op. */
  lemma RepeatIsNoOp(b: Binding, newValue: ViewDataState, getter: Option<Getter>, base: HostView, hash: Info -> int)
    ensures var b' := Step(b, newValue, getter, base, hash).0;
      Step(b', newValue, getter, base, hash) == (b', Unchanged)
  {
  }

  /** Replacing a state by the same case with the same info and a different
      callback, present in both or in neither, is a no-op: the handler that is
      wired stays the old one. */
  lemma CallbackSwapIsNoOp(b: Binding, s1: ViewDataState, s2: ViewDataState, getter: Option<Getter>,
                           base: HostView, hash: Info -> int)
    requires b.storedId == Id(s1, hash)
    requires SameCase(s1, s2) && !s1.NoneState?
    requires s1.info == s2.info && s1.callback.Some? == s2.callback.Some?
    ensures Step(b, s2, getter, base, hash) == (b, Unchanged)
  {
  }

  /** What a host sees over time: getters registered and states set. */
  datatype Event = Register(getter: Getter) | Set(state: ViewDataState)

  /** Applying events in order; a registration replaces the slot. */
  function Run(b: Binding, getter: Option<Getter>, events: seq<Event>, base: HostView, hash: Info -> int)
    : (Binding, Option<Getter>)
    decreases |events|
  {
    if events == [] then (b, getter)
    else match events[0]
      case Register(g) => Run(b, Some(g), events[1..], base, hash)
      case Set(s) => Run(Step(b, s, getter, base, hash).0, getter, events[1..], base, hash)
  }

  /** Running one history after another is running their concatenation. */
  lemma {:induction false} RunAppend(b: Binding, getter: Option<Getter>, e1: seq<Event>, e2: seq<Event>,
                                     base: HostView, hash: Info -> int)
    ensures var r := Run(b, getter, e1, base, hash);
      Run(b, getter, e1 + e2, base, hash) == Run(r.0, r.1, e2, base, hash)
    decreases |e1|
  {
    if e1 == [] {
      assert e1 + e2 == e2;
    } else {
      assert (e1 + e2)[0] == e1[0] && (e1 + e2)[1..] == e1[1..] + e2;
      match e1[0]
      case Register(g) =>
        RunAppend(b, Some(g), e1[1..], e2, base, hash);
      case Set(s) =>
        RunAppend(Step(b, s, getter, base, hash).0, getter, e1[1..], e2, base, hash);
    }
  }

  /** A set at the end of any history is one step from the host and getter
      that the history left. */
  lemma SetAfterHistory(b: Binding, getter: Option<Getter>, e: seq<Event>, s: ViewDataState,
                        base: HostView, hash: Info -> int)
    ensures var r := Run(b, getter, e, base, hash);
      Run(b, getter, e + [Set(s)], base, hash) == (Step(r.0, s, r.1, base, hash).0, r.1)
  {
    RunAppend(b, getter, e, [Set(s)], base, hash);
    assert [Set(s)][1..] == [];
  }

  /** A registration anywhere in a history leaves the host as it was, and
      every later set calls the new getter until the next registration. */
  lemma RegisterInHistory(b: Binding, getter: Option<Getter>, e1: seq<Event>, g: Getter, e2: seq<Event>,
                          base: HostView, hash: Info -> int)
    ensures Run(b, getter, e1 + [Register(g)] + e2, base, hash) == Run(Run(b, getter, e1, base, hash).0, Some(g), e2, base, hash)
  {
    assert e1 + [Register(g)] + e2 == e1 + ([Register(g)] + e2);
    RunAppend(b, getter, e1, [Register(g)] + e2, base, hash);
    assert ([Register(g)] + e2)[0] == Register(g) && ([Register(g)] + e2)[1..] == e2;
  }

  /** After any sequence of events from a valid host, the invariant holds: at
      most one overlay added by a set is attached, and it is the recorded view. */
  lemma {:induction false} RunKeepsValid(b: Binding, getter: Option<Getter>, events: seq<Event>, base: HostView, hash: Info -> int)
    requires Valid(b)
    ensures Valid(Run(b, getter, events, base, hash).0)
    ensures |Live(Run(b, getter, events, base, hash).0)| <= 1
    decreases |events|
  {
    var r := Run(b, getter, events, base, hash).0;
    if events != [] {
      match events[0]
      case Register(g) =>
        RunKeepsValid(b, Some(g), events[1..], base, hash);
      case Set(s) =>
        StepKeepsValid(b, s, getter, base, hash);
        RunKeepsValid(Step(b, s, getter, base, hash).0, getter, events[1..], base, hash);
    }
    if r.recorded.Some? {
      assert Live(r) <= {r.recorded.value};
      assert Live(r) == {} || Live(r) == {r.recorded.value};
    } else {
      assert Live(r) == {};
    }
  }

  /** The outcome of the latest set in `events` that changed the id, if any. */
  function LastChange(b: Binding, getter: Option<Getter>, events: seq<Event>, base: HostView, hash: Info -> int)
    : Option<SetOutcome>
    decreases |events|
  {
    if events == [] then None
    else match events[0]
      case Register(g) => LastChange(b, Some(g), events[1..], base, hash)
      case Set(s) =>
        var (b', outcome) := Step(b, s, getter, base, hash);
        var later := LastChange(b', getter, events[1..], base, hash);
        if later.Some? then later else if outcome.Unchanged? then None else Some(outcome)
  }

  /** After any sequence of events from a valid host, what is attached is
      decided by the latest set that changed the id: the view it mounted, now
      also the recorded one, or nothing if it did not mount. With no such set
      the host is exactly as it was. */
  lemma {:induction false} RunLive(b: Binding, getter: Option<Getter>, events: seq<Event>, base: HostView, hash: Info -> int)
    requires Valid(b)
    ensures var r := Run(b, getter, events, base, hash).0;
      var last := LastChange(b, getter, events, base, hash);
      && (last.None? ==> r == b)
      && (last.Some? ==> !last.value.Unchanged?)
      && (last.Some? && last.value.Mounted? ==> Live(r) == {last.value.view} && r.recorded == Some(last.value.view))
      && (last.Some? && !last.value.Mounted? ==> Live(r) == {})
    decreases |events|
  {
    if events != [] {
      match events[0]
      case Register(g) =>
        RunLive(b, Some(g), events[1..], base, hash);
      case Set(s) =>
        var b' := Step(b, s, getter, base, hash).0;
        StepKeepsValid(b, s, getter, base, hash);
        StepOutcome(b, s, getter, base, hash);
        RunLive(b', getter, events[1..], base, hash);
    }
  }

  /** The getter of the example application: a label for `loading` and for
      `error`, the empty-state view for `empty`, nothing for `none`. */
  function SampleGetter(loadingLabel: OverlayView, emptyView: OverlayView, errorLabel: OverlayView): Getter {
    (s: ViewDataState, host: HostView) =>
      match s
      case NoneState => None
      case Loading(_, _) => Some(StateView(loadingLabel))
      case Empty(_, _) => Some(StateView(emptyView))
      case Error(_, _) => Some(StateView(errorLabel))
  }

  /** The sequence none, loading "A", empty "B" with `retry`, empty "B" with
      `retry2`, none on a fresh host: a mount, a swap, no swap (the handler
      stays `retry`), then a removal that leaves the record in place. */
  lemma TransitionScenario(loadingLabel: OverlayView, emptyView: OverlayView, errorLabel: OverlayView,
                           retry: Callback, retry2: Callback, children: set<OverlayView>, base: HostView, hash: Info -> int)
    requires !loadingLabel.handleable && emptyView.handleable && loadingLabel != emptyView
    ensures
      var g := Some(SampleGetter(loadingLabel, emptyView, errorLabel));
      var r0 := Step(Fresh(children), NoneState, g, base, hash);
      var r1 := Step(r0.0, Loading(InfoOfStringLiteral("A"), None), g, base, hash);
      var r2 := Step(r1.0, Empty(InfoOfStringLiteral("B"), Some(retry)), g, base, hash);
      var r3 := Step(r2.0, Empty(InfoOfStringLiteral("B"), Some(retry2)), g, base, hash);
      var r4 := Step(r3.0, NoneState, g, base, hash);
      && r0.1 == Unchanged
      && r1.1 == Mounted(loadingLabel, Offset(0, 0), Keep) && Live(r1.0) == {loadingLabel}
      && r2.1 == Mounted(emptyView, Offset(0, 0), Assign(Some(retry))) && Live(r2.0) == {emptyView}
      && loadingLabel !in r2.0.attached
      && r3 == (r2.0, Unchanged)
      && r4.1 == Cleared && Live(r4.0) == {} && emptyView !in r4.0.attached
      && r4.0.recorded == Some(emptyView)
  {
  }
}

# ViewDataState in Dafny

A model of the ViewDataState helper for UIKit. Any view can be put in a
*data state*: `none`, `loading`, `empty` or `error`. The last three carry an
`Info` (optional title and subtitle) and an optional tap callback. Setting a
state mounts or removes an overlay view centred on the host. Three parts are
modelled:

- **The state value** (`DataState`, file `data_state.dfy`). It covers the
  `Info` literal initialisers, the four cases and their static shortcuts, and
  the `id` string. The `id` is the case tag, the decimal `hashValue` of the
  `Info`, and a 0/1 flag for whether a callback is present. Two states are
  `==` exactly when their ids are equal. The hash is a parameter
  `hash: Info -> int` because Swift seeds its `Hasher` per process. It is
  never assumed to be injective, so equal ids mean equal hashes, not equal
  `Info`s. `Decimal` (file `decimal.dfy`) renders an `Int` as Swift's string
  interpolation does, and proves that this rendering is injective.
- **The registry** (`Manager`). `ViewDataStateManager` is a class with one
  slot, `viewGetter`. `Register` overwrites that slot.
- **The `state` setter** (`StateBinding`). `SetState` is the setter written
  step by step on a `HostView`. That class has the two associated objects
  (the stored id and the recorded overlay), the set of children, and the
  centring offsets of its children. `SetState` is proved equal to the pure
  step function `Step`, which works on a `Binding` snapshot of the host. The
  lemmas about `Step` and about `Run` (a sequence of registrations and sets)
  state what the setter promises:
  - a set with an unchanged id is a complete no-op;
  - a set with a new id always stores the id and removes the recorded
    overlay before deciding whether to mount;
  - `none` never reaches the getter;
  - a missing getter is the fatal case;
  - at most one overlay added by the mechanism stays attached, and it is the
    recorded one.

The removal on lines 165-167 of the setter does not clear the recorded
overlay. The record is only overwritten by the next mount (line 178). The
model keeps this: after a removal, `recorded` can still name a view that is
no longer attached, and removing it again changes nothing. The invariant
`Valid` is therefore stated over `Live` (the overlays this mechanism added
that are still children of the host), not over the record.

Details of the Swift code the model keeps:

- The record is not cleared on removal (see above).
- `Info`'s nil literal gives nil title and subtitle.
- A getter may be registered any number of times. Each registration replaces
  the previous one.
- The test `newValue != .none` compares ids, not cases.
  `DataState.EqualNoneIffNone` proves that the two agree.

## Model

| member | source | states |
|---|---|---|
| `DataState.InfoOfStringLiteral` | ViewDataState/Classes/ViewDataState.swift:34-45 | a string literal (also as a unicode-scalar or grapheme-cluster literal) sets the title and leaves the subtitle nil |
| `DataState.InfoOfArrayLiteral` | ViewDataState/Classes/ViewDataState.swift:46-53 | the title is the first element, nil exactly when the array is empty; the subtitle is the second element, present exactly when there are at least two |
| `DataState.InfoOfNilLiteral` | ViewDataState/Classes/ViewDataState.swift:54-57 | the nil literal leaves both title and subtitle nil |
| `DataState.ArrayLiteralRoundTrip` | ViewDataState/Classes/ViewDataState.swift:46-53 | an `Info` is recovered from its array literal exactly when it does not have a subtitle without a title |
| `DataState.ArrayLiteralKeepsFirstTwo` | ViewDataState/Classes/ViewDataState.swift:46-53 | an array literal keeps exactly its first two elements and ignores the rest |
| `DataState.LiteralsAgree` | ViewDataState/Classes/ViewDataState.swift:34-57 | the string literal is the one-element array literal, and the nil literal is the empty one |
| `DataState.PresenceFlag` | ViewDataState/Classes/ViewDataState.swift:107 | the flag is one character, and it is "1" exactly when a callback is present |
| `Decimal.IntToStringInjective` | ViewDataState/Classes/ViewDataState.swift:107 | the interpolated hash value determines the integer, so a matching id means a matching hash |
| `DataState.IdsEqualIff` | ViewDataState/Classes/ViewDataState.swift:101-113 | two ids are equal if and only if the states are the same case and, unless both are `none`, their infos hash alike and both or neither carry a callback |
| `DataState.DistinctCasesDistinctIds` | ViewDataState/Classes/ViewDataState.swift:103-112 | states of different cases never have equal ids |
| `DataState.IdOfNone` | ViewDataState/Classes/ViewDataState.swift:104-105 | the id of `none` is "none" and no other state has that id |
| `DataState.IdIgnoresCallbackIdentity` | ViewDataState/Classes/ViewDataState.swift:106-111 | same case, same `Info` and same callback presence give the same id, whatever the callbacks are |
| `DataState.EqualIsEquivalence` | ViewDataState/Classes/ViewDataState.swift:116-120 | `==` is reflexive, symmetric and transitive, and relates only states of the same case |
| `DataState.EqualNoneIffNone` | ViewDataState/Classes/ViewDataState.swift:116-120 | a state is `== .none` exactly when it is `none` |
| `DataState.ShortcutsDistinct` | ViewDataState/Classes/ViewDataState.swift:70-72 | the shortcuts `.loading`, `.empty` and `.error` differ from each other and from `none` |
| `Views.OverlayView.constructor` | ViewDataState/Classes/ViewDataState.swift:15-17 | a new overlay has no handler, and its conformance to `DataStateHandleable` is fixed |
| `Views.CenterOffset` | ViewDataState/Classes/ViewDataState.swift:180-181 | the centring offset is the given one, or (0, 0) when the `StateView` has no info or its info has no offset |
| `Views.HostView.constructor` | ViewDataState/Classes/ViewDataState.swift:160 | a host that was never set reads its stored id as the id of `none` and has no recorded overlay |
| `Manager.ViewDataStateManager.constructor` | ViewDataState/Classes/ViewDataState.swift:93-95 | the registry starts with no getter |
| `Manager.ViewDataStateManager.Register` | ViewDataState/Classes/ViewDataState.swift:96-98 | registering stores the getter and replaces any earlier one |
| `StateBinding.ReadState` | ViewDataState/Classes/ViewDataState.swift:152-158 | reading `state` always gives `none` |
| `StateBinding.SetState` | ViewDataState/Classes/ViewDataState.swift:159-196 | the new host state and the outcome are those of `Step` on the old host state with the registered getter; a mounted handleable view receives the state's callback, and no other handler changes |
| `StateBinding.FreshValid` | ViewDataState/Classes/ViewDataState.swift:160 | a host that was never set satisfies the invariant and has no live overlay |
| `StateBinding.SameIdIsNoOp` | ViewDataState/Classes/ViewDataState.swift:160-163 | a set whose id equals the stored id changes nothing: not the id, the children, the record, the centring or any handler |
| `StateBinding.NoneOnFreshIsNoOp` | ViewDataState/Classes/ViewDataState.swift:160-163 | setting `none` on a host that was never set does nothing |
| `StateBinding.ChangedIdStoresAndDetaches` | ViewDataState/Classes/ViewDataState.swift:164-167 | a set with a new id stores it and removes the recorded overlay (unless the same view is mounted again), and removes no other child |
| `StateBinding.StepOutcome` | ViewDataState/Classes/ViewDataState.swift:168-195 | in both directions: `none` clears, a missing getter is the fatal outcome, a nil answer mounts nothing, and otherwise the returned view is attached, recorded and centred with the resolved offset, its handler set to the callback only when it is handleable; a set that does not mount leaves the record as it was |
| `StateBinding.GetterUnusedWithoutMount` | ViewDataState/Classes/ViewDataState.swift:160-174 | when the id is unchanged or the new state is `none`, the result does not depend on the getter, which is not called |
| `StateBinding.StepKeepsValid` | ViewDataState/Classes/ViewDataState.swift:164-178 | every set keeps the invariant; afterwards the only live overlay is the one this set mounted, or none if it changed the id without mounting |
| `StateBinding.RepeatIsNoOp` | ViewDataState/Classes/ViewDataState.swift:160-164 | setting the same state twice in a row makes the second set a no-op |
| `StateBinding.CallbackSwapIsNoOp` | ViewDataState/Classes/ViewDataState.swift:106-111 | replacing the callback by another one while the case, the `Info` and the presence stay the same mounts nothing new and rewires no handler |
| `StateBinding.RunAppend` | ViewDataState/Classes/ViewDataState.swift:96-98 | running two histories one after the other is running their concatenation: no state is kept outside the host and the getter slot |
| `StateBinding.SetAfterHistory` | ViewDataState/Classes/ViewDataState.swift:159-196 | a set at the end of any history is one step from the host and the getter that history left |
| `StateBinding.RegisterInHistory` | ViewDataState/Classes/ViewDataState.swift:96-98 | a registration anywhere in a history changes no host, and every later set calls the new getter until the next registration |
| `StateBinding.RunKeepsValid` | ViewDataState/Classes/ViewDataState.swift:159-196 | after any sequence of registrations and sets, at most one overlay added by the mechanism is attached, and it is the recorded one |
| `StateBinding.RunLive` | ViewDataState/Classes/ViewDataState.swift:164-178 | after any history, the attached overlay is the one mounted by the latest set that changed the id, and it is also the recorded one; nothing is attached if that set did not mount; with no such set the host is exactly as it was |
| `StateBinding.TransitionScenario` | ViewDataState/Classes/ViewDataState.swift:159-196 | for none, loading "A", empty "B" with `retry`, empty "B" with `retry2`, none with the example getter: no-op, mount, swap with `retry` wired, no-op, then a removal that keeps the record |

## Left out

- The associated-object runtime (`objc_getAssociatedObject`/`objc_setAssociatedObject`). Its two values are plain fields of `HostView`. The stored id starts at "none", which is what the setter reads while the association is still absent.
- UIKit layout. `translatesAutoresizingMaskIntoConstraints` and the constraint objects are not modelled. The two centre constraints are one entry in `HostView.centering`, which is dropped when the child is removed. `CGFloat` offsets are integers.
- Subview order. The host's children are a set, so the z-order that `addSubview` gives is not modelled.
- Reparenting on `addSubview`. UIKit first removes the view from any other superview; the model only adds it to this host's children. With a getter that returns the same view for two hosts, the model has that view attached to both.
- A view moved to another superview. `removeFromSuperview` is modelled as removal from this host's children. If the recorded view has since been added to a different view, it is not removed from there.
- Unicode equivalence of strings. Swift compares and hashes `String`s up to canonical equivalence; here strings are sequences of characters, so two `Info`s Swift treats as equal can be distinct here, and `hash` may separate them. `DataState.IdIgnoresCallbackIdentity` therefore assumes equal `Info`s in this finer sense.
- Swift's `Hasher`. It is the parameter `hash`, with unbounded `int` values instead of a 64-bit `Int`.
- Invoking callbacks and handlers (foreign closures). Only their presence and which one is assigned are modelled.
- `fatalError` when no getter is registered. It is the outcome `Unregistered`, and the host keeps the state it had reached at that point (new id stored, old overlay removed).
- Getter side effects. A getter is a pure function of the state and the host, so overlay views it would create are objects that already exist.
- The shared singleton `ViewDataStateManager.shared`. It is an explicit registry object passed to `SetState`.
- The `viewData` wrapper plumbing (`ViewDataStateWrapper`, `ViewDataStateCompatible`, lines 122-145). The wrapped base is the `base` parameter of `SetState`.
- The DEBUG `print` in the `state` getter.
- The example application. Only its getter is kept, as `StateBinding.SampleGetter`.
- Re-entrant sets made from inside a getter cannot be expressed, because the getter is pure.

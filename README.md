# Collapse item: a verified model of one accordion panel

This project models the state machine of a single collapse item of the Vant
UI library: the panel of an accordion group that opens and closes with an
animated height. It covers the following parts of the component:

- How the item finds its identity (`currentName`).
- How it reads its tri-state expansion value from the parent collapse (`expanded`).
- The transition controller: the `watch` on `expanded`, its nextTick/raf
  measure step, its doubleRaf target step, and `onTransitionEnd`. Together
  they drive the `show` flag and the wrapper's inline `style.height`.
- The title click handler (`onClickTitle`).

The project has three files:

- `collapse_model.dfy` (module `CollapseModel`) holds the pure model. The
  item state is `Item`: the props, the parent-assigned index, the parent's
  expansion set, `show`, the wrapper height, the queue of scheduled callbacks,
  and the calls made to `parent.toggle`. The props are read live, so new
  props arrive as a `PropsChange` event. Every event the item can receive is an
  `Event`. `Step` gives the item's reaction to one event, and `Run` gives its
  reaction to a sequence of events.
- `collapse_item.dfy` (module `CollapseItemComponent`) holds the class
  `CollapseItem`. Its fields are the same state, and its methods are the
  component's handlers, which update those fields in place. Every method states
  its new state field by field. It also proves
  `State() == Step(old(State()), event)`, so every lemma about `Step` and `Run`
  also holds for the class.
- `collapse_properties.dfy` (module `CollapseProperties`) holds the properties.
  Some are about single events, and some are about whole runs of events, in any
  order the schedulers and the host may choose.

The wrapper height is the datatype `Height = Auto | Px(n)`:

- `Auto` is the empty inline style `''`.
- `Px(0)` is the numeric `0` the source writes.
- `Px(h)` is the string `` `${h}px` ``.

A scheduled callback is a queue entry that keeps the expansion `value` its
watch call captured:

- `Measure(tick, value)` is the nextTick or raf step.
- `Target(value, contentHeight)` is the doubleRaf step.

The caller picks which pending callback fires next. So every property proved
here holds whatever order nextTick, raf and doubleRaf actually use.

The parent collapse is seen only through its interface:

- `Group = NoParent | Parent(expandedKeys)`. `parent.isExpanded(k)` is
  `k in expandedKeys`.
- `parent.toggle(name, expand)` is recorded as an entry appended to
  `toggleRequests`. How the group then changes its set (for example, the
  one-panel-open accordion policy) is the group's own business. It reaches the
  item as a `GroupChange` event.

## Model

| member | source | states |
|---|---|---|
| CollapseModel.CurrentName | src/collapse-item/index.js:34-36 | The identity is the `name` prop when it is defined, and otherwise the parent-assigned index. |
| CollapseModel.Expanded | src/collapse-item/index.js:38-43 | Expansion is null exactly when there is no parent. With a parent, it is true exactly when the parent reports the name expanded. It is a function of the parent's state and the name, so querying it twice with no change in between gives the same answer. |
| CollapseItemComponent.CollapseItem.CurrentName | src/collapse-item/index.js:34-36 | The item's `currentName` is the model's identity for its current props and index. |
| CollapseItemComponent.CollapseItem.Expanded | src/collapse-item/index.js:38-43 | The item's `expanded` is re-read from the live parent state on each call. It is null exactly when the item has no parent. |
| CollapseItemComponent.CollapseItem.constructor | src/collapse-item/index.js:45 | `show` starts as the truthiness of the initial expansion value. The height starts with no inline style, nothing is scheduled, and no toggle has been requested. |
| CollapseItemComponent.CollapseItem.OnExpandedChange | src/collapse-item/index.js:56-69 | An old value of null changes nothing. Otherwise a true value sets `show`, a false one leaves `show` alone, and one measure step is queued with the captured value: on nextTick when opening, on raf when closing. The height is never touched. |
| CollapseItemComponent.CollapseItem.OnTransitionEnd | src/collapse-item/index.js:48-54 | If the live expansion is not true, `show` becomes false and the height is kept. If it is true, the height becomes `Auto` and `show` is kept. |
| CollapseItemComponent.CollapseItem.RunMeasureCallback | src/collapse-item/index.js:69-86 | The step is removed from the queue. With a ref missing, nothing else changes. With a positive height H, the start height is written from the captured value (0 when opening, H when closing) and exactly one doubleRaf carrying that value and H is queued. With a zero height, the transition-end logic runs at once. |
| CollapseItemComponent.CollapseItem.RunDoubleRafCallback | src/collapse-item/index.js:80-82 | The step is removed from the queue and the target height is written from the captured value (H when opening, 0 when closing). Nothing is re-checked. |
| CollapseItemComponent.CollapseItem.OnClickTitle | src/collapse-item/index.js:89-93 | A disabled item requests nothing. An enabled item appends exactly one `toggle(currentName, !expanded)`. An enabled item must have a parent. |
| CollapseItemComponent.CollapseItem.OnGroupChange | src/collapse-item/index.js:38-43 | The parent's expansion set is replaced. An item without a parent stays without one. |
| CollapseItemComponent.CollapseItem.OnReindex | src/collapse-item/index.js:32-36 | The parent-assigned index is replaced, so an unnamed item's identity follows it. |
| CollapseItemComponent.CollapseItem.OnPropsChange | src/collapse-item/index.js:34-36 | The props are replaced. `currentName` reads the new `name` and the next click reads the new `disabled` (line 90). |
| CollapseProperties.ChangeFromNullIsNoOp | src/collapse-item/index.js:56-59 | A change whose old value is null leaves the whole item unchanged: `show`, height, queue and toggle calls. |
| CollapseProperties.ChangeShowsAndSchedules | src/collapse-item/index.js:61-69 | A change to true sets `show` before any measurement. A change to false leaves `show` as it was. Either change keeps the height and queues exactly one measure step, on nextTick or raf as the value selects. |
| CollapseProperties.MeasureWithoutRefsWritesNothing | src/collapse-item/index.js:70-72 | A measure step that finds a ref missing only leaves the queue. It writes nothing and schedules nothing. |
| CollapseProperties.MeasureSchedulesOneDoubleRaf | src/collapse-item/index.js:74-82 | With both refs and H > 0, the start height comes from the captured value, `show` is kept, the number of queued doubleRaf steps grows by exactly one, and the new one carries the captured value and H. |
| CollapseProperties.ZeroHeightMeasureEndsTransition | src/collapse-item/index.js:75-85 | With both refs and H = 0, the measure step is the transition-end logic applied once the step has left the queue. No doubleRaf step is added. |
| CollapseProperties.TransitionEndFollowsLiveValue | src/collapse-item/index.js:48-54 | Transition end with a live value that is not true only clears `show`. With a live true value, it only resets the height to `Auto`. |
| CollapseProperties.QueuedWritesUseCapturedValue | src/collapse-item/index.js:67-82 | Two items with the same queue write the same height when a measure step (H > 0) or a doubleRaf step fires, whatever their parent set, index, props, `show` or height. So no change between queuing and firing alters that write. |
| CollapseProperties.ClickRequestsToggle | src/collapse-item/index.js:89-93 | A disabled click changes nothing. An enabled click appends `toggle(currentName, !expanded)`, computed from the live expansion. |
| CollapseProperties.RunKeepsPropsAndParent | src/collapse-item/index.js:32 | Across any run of events, the item neither gains nor loses its parent. The props stay the same unless the run passes new props. |
| CollapseProperties.StepKeepsConsistent | src/collapse-item/index.js:67-82 | Every event keeps the queue well formed: each measure step sits on the scheduler its captured value selects, and each doubleRaf step carries a positive height. |
| CollapseProperties.RunKeepsConsistent | src/collapse-item/index.js:67-82 | Any run of events keeps the queue well formed. |
| CollapseProperties.ToggleRequestsPerClick | src/collapse-item/index.js:89-93 | Over any run, the earlier toggle calls are kept as a prefix. One call is added per title click made while the props current at that click say the item is not disabled. |
| CollapseProperties.ClicksWithFixedProps | src/collapse-item/index.js:89-93 | When a run passes no new props, every click counts if the item is enabled, and none counts if it is disabled. |
| CollapseProperties.ZeroHeightNeverAnimates | src/collapse-item/index.js:74-85 | If no measurement finds a positive height, no doubleRaf step is ever queued and no pixel height is written. The height stays as it was or is cleared to `Auto`. |
| CollapseProperties.ShowClearedOnlyByTransitionEnd | src/collapse-item/index.js:48-63 | If `show` goes from true to false over a run, the run contains a transition end or a zero-height measure step. |
| CollapseProperties.ExpandedItemStaysShown | src/collapse-item/index.js:48-63 | A shown item whose live expansion is true stays shown, and stays expanded, until the parent's set, the index or the props change. |
| CollapseProperties.DetachedItemIsInert | src/collapse-item/index.js:38-59 | For an item without a parent, whose watch only ever reports changes from null: nothing is queued, the height never changes, no toggle is requested, and a hidden item stays hidden. |
| CollapseProperties.OpeningSequence | src/collapse-item/index.js:48-85 | Opening with measured height H: `show` is set at once, the measure step is queued on nextTick, the start height is 0, the doubleRaf step writes H, and transition end clears the height to `Auto`. The queue ends as it began. |
| CollapseProperties.ClosingSequence | src/collapse-item/index.js:48-85 | Closing with measured height H: `show` is kept, the measure step is queued on raf, the start height is H, the doubleRaf step writes 0, and transition end clears `show`. The height stays 0. |
| CollapseProperties.OpenThenCloseBeforeCallbacks | src/collapse-item/index.js:56-87 | A panel is opened and closed again before any callback runs, as when both watch calls fall in one flush. Each callback uses its own captured value, so the stale opening writes (0, then 240px) still happen. Only the live read at transition end hides the content, leaving height 0. |
| CollapseProperties.CloseThenReopenWithinFrame | src/collapse-item/index.js:56-87 | An open panel is closed and reopened within one frame. The reopening's nextTick step runs first, then the close's raf step and its doubleRaf step use the captured false. They write 240px and then a stale 0 while the panel is shown and expanded. The live read at transition end clears the height, and the item ends as it began. |

## Left out

- Rendering is not modelled: the title cell, the content markup, the `bem` classes, `tabindex` and `aria-expanded`. It has no state.
- The lazy-render gate `useLazyRender` is not modelled. Its source is not part of this model, and nothing here depends on it.
- The internals of `useParent` and of the parent collapse are not modelled: registration, index allocation and the group's toggle policy. The parent is the `Group` interface, and it reaches the item as `GroupChange` and `Reindex` events.
- Vue's reactivity is not modelled. The host delivers the watch handler's `(value, oldValue)` pair by calling `OnExpandedChange`. It is not derived from a change of the parent, the index or the props (`GroupChange`, `Reindex`, `PropsChange`).
- The timing of nextTick, raf and doubleRaf is not modelled. These callbacks sit in one queue, and the caller fires any pending one.
- DOM measurement and CSS transitions are not modelled. `offsetHeight` is a `nat` input, ref presence is a pair of flags, and the `transitionend` event is a method call.
- The doubleRaf step and `onTransitionEnd` write `wrapperRef.value.style.height` without checking that the wrapper is mounted. The model writes the height unconditionally and assumes the wrapper exists. It does not model the exception an unmounted wrapper would raise.
- CollapseModel.CurrentName: a numeric `name` prop is modelled as an integer. Fractional numbers are not modelled.
- CollapseItemComponent.CollapseItem.constructor: `show` starts as `expanded.value` itself, which is null when there is no parent. The model stores its truthiness, so null becomes false.
- In several places the source behaves differently from what such a panel is often assumed to do. The model follows the source:
  - Measure and doubleRaf steps use the value captured by their watch call (lines 67, 77, 81). They do not re-read the live expansion, and they have no guard against stale premises. `OpenThenCloseBeforeCallbacks` shows the resulting stale writes.
  - An enabled click on an item with no parent dereferences a null parent (line 91). It is not a no-op. `OnClickTitle` therefore requires a parent when the item is enabled.
  - After a close, the wrapper keeps the inline height 0 while hidden. Nothing clears it on that path (lines 49-50).
  - A transition end while `show` is false is not always a no-op. With a live true value, it resets the height to `Auto`.

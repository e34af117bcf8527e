/** Pure model of one collapse item (an accordion panel) of the collapse group.
    An item's state is a value of `Item`; every event the host or the group can
    deliver to the item is an `Event`, and `Step` says what the item does with it.
    The class in collapse_item.dfy runs the same transitions in place. */
module CollapseModel {

  datatype Option<T> = None | Some(value: T)

  /** The `name` prop (a number or a string) or the index the group assigns. */
  datatype Key = NumKey(n: int) | StrKey(s: string)

  /** The inline `style.height` of the wrapper: '' (no inline height), or a length
      in pixels; the source's numeric `0` is `Px(0)`, `${h}px` is `Px(h)`. */
  datatype Height = Auto | Px(px: nat)

  /** The scheduler a measure step is queued on. */
  datatype Tick = NextTick | Raf

  /** A callback that has been scheduled and has not fired yet. Each one keeps the
      expansion value the watch handler saw when it ran, not the live one. */
  datatype Callback =
    | Measure(tick: Tick, value: Option<bool>)            // nextTick/raf step, lines 69-86
    | Target(value: Option<bool>, contentHeight: nat)    // doubleRaf step, lines 80-82

  /** The parent collapse as this item sees it: absent, or present with the set
      of names it currently reports as expanded (`parent.isExpanded(k)` is
      membership). How the group changes that set is its own policy. */
  datatype Group = NoParent | Parent(expandedKeys: set<Key>)

  /** A call `parent.toggle(name, expand)` made by the item. */
  datatype Toggle = Toggle(name: Key, expand: bool)

  datatype Props = Props(name: Option<Key>, disabled: bool)

  datatype Item = Item(
    props: Props,
    index: int,                   // the index the group assigns (useParent)
    group: Group,
    show: bool,                   // the `show` ref
    height: Height,               // wrapperRef.value.style.height
    pending: seq<Callback>,       // scheduled callbacks not yet fired
    toggleRequests: seq<Toggle>)  // calls made to parent.toggle, oldest first

  datatype Event =
    | ExpandedChange(value: Option<bool>, oldValue: Option<bool>)  // the watch handler
    | FireMeasure(slot: nat, offsetHeight: nat, contentMounted: bool, wrapperMounted: bool)
    | FireTarget(slot: nat)
    | TransitionEnd
    | ClickTitle
    | GroupChange(expandedKeys: set<Key>)   // the parent's expansion set changes
    | Reindex(index: int)                   // the parent re-numbers its children
    | PropsChange(props: Props)             // the host passes new `name`/`disabled` props

  /** JavaScript truthiness of the tri-state expansion value (null is falsy). */
  predicate Truthy(v: Option<bool>) {
    v == Some(true)
  }

  /** `currentName`: the `name` prop when it is defined, else the group's index. */
  function CurrentName(name: Option<Key>, index: int): (k: Key)
    ensures name.Some? ==> k == name.value
    ensures name.None? ==> k == NumKey(index)
  {
    match name
    case Some(n) => n
    case None => NumKey(index)
  }

  /** `expanded`: null without a parent, else the parent's answer for `name`. */
  function Expanded(group: Group, name: Key): (e: Option<bool>)
    ensures e.None? <==> group.NoParent?
    ensures group.Parent? ==> (Truthy(e) <==> name in group.expandedKeys)
  {
    match group
    case NoParent => None
    case Parent(keys) => Some(name in keys)
  }

  function NameOf(s: Item): Key {
    CurrentName(s.props.name, s.index)
  }

  /** The live expansion value, as `expanded.value` reads it now. */
  function LiveExpanded(s: Item): Option<bool> {
    Expanded(s.group, NameOf(s))
  }

  /** The scheduler the watch handler picks for a new value (line 67). */
  function TickFor(value: Option<bool>): Tick {
    if Truthy(value) then NextTick else Raf
  }

  function RemoveAt<T>(q: seq<T>, i: nat): (r: seq<T>)
    requires i < |q|
    ensures |r| == |q| - 1
    ensures forall k :: 0 <= k < i ==> r[k] == q[k]
    ensures forall k :: i <= k < |r| ==> r[k] == q[k + 1]
  {
    q[..i] + q[i + 1..]
  }

  /** The item as its setup function leaves it: `show` starts as the expansion
      value (null reads as not shown), no inline height, nothing scheduled. */
  function Initial(props: Props, index: int, group: Group): Item {
    Item(props, index, group, Truthy(Expanded(group, CurrentName(props.name, index))),
         Auto, [], [])
  }

  /** `onTransitionEnd` (lines 48-54): reads the live expansion value. */
  function EndTransition(s: Item): Item {
    if !Truthy(LiveExpanded(s)) then s.(show := false) else s.(height := Auto)
  }

  /** What the source demands before an event can be delivered: a callback
      fires only while it is pending, and `onClickTitle` dereferences the
      parent whenever the item is not disabled (line 91). */
  predicate Deliverable(s: Item, e: Event) {
    match e
    case FireMeasure(slot, _, _, _) => slot < |s.pending| && s.pending[slot].Measure?
    case FireTarget(slot) => slot < |s.pending| && s.pending[slot].Target?
    case ClickTitle => s.props.disabled || s.group.Parent?
    case _ => true
  }

  function Step(s: Item, e: Event): Item
    requires Deliverable(s, e)
  {
    match e
    case ExpandedChange(value, oldValue) =>
      if oldValue.None? then s
      else s.(show := Truthy(value) || s.show,
              pending := s.pending + [Measure(TickFor(value), value)])
    case FireMeasure(slot, offsetHeight, contentMounted, wrapperMounted) =>
      var value := s.pending[slot].value;
      var rest := s.(pending := RemoveAt(s.pending, slot));
      if !contentMounted || !wrapperMounted then rest
      else if offsetHeight > 0 then
        rest.(height := if Truthy(value) then Px(0) else Px(offsetHeight),
              pending := rest.pending + [Target(value, offsetHeight)])
      else EndTransition(rest)
    case FireTarget(slot) =>
      var c := s.pending[slot];
      s.(height := if Truthy(c.value) then Px(c.contentHeight) else Px(0),
         pending := RemoveAt(s.pending, slot))
    case TransitionEnd => EndTransition(s)
    case ClickTitle =>
      if s.props.disabled then s
      else s.(toggleRequests := s.toggleRequests + [Toggle(NameOf(s), !Truthy(LiveExpanded(s)))])
    case GroupChange(keys) =>
      s.(group := if s.group.Parent? then Parent(keys) else NoParent)
    case Reindex(index) => s.(index := index)
    case PropsChange(props) => s.(props := props)
  }

  /** `evs` can be delivered to `s` one after the other. */
  predicate Runs(s: Item, evs: seq<Event>)
    decreases |evs|
  {
    evs == [] || (Deliverable(s, evs[0]) && Runs(Step(s, evs[0]), evs[1..]))
  }

  function Run(s: Item, evs: seq<Event>): Item
    requires Runs(s, evs)
    decreases |evs|
  {
    if evs == [] then s else Run(Step(s, evs[0]), evs[1..])
  }
}

/** One collapse item as an object whose handlers update its state in place:
    the `show` ref, the wrapper's inline height and the callbacks it has
    scheduled. Each handler is proved to perform the transition `Step` of
    CollapseModel, so what is proved there about runs of events holds of it. */
module CollapseItemComponent {
  import opened CollapseModel

  class CollapseItem {
    var props: Props                   // read live: `name` by currentName, `disabled` per click
    var index: int                     // parent-assigned index (useParent)
    var group: Group                   // the parent, if any, as isExpanded sees it
    var show: bool
    var height: Height
    var pending: seq<Callback>         // nextTick / raf / doubleRaf callbacks not yet run
    var toggleRequests: seq<Toggle>    // calls made to parent.toggle

    function State(): Item
      reads this
    {
      Item(props, index, group, show, height, pending, toggleRequests)
    }

    /** `currentName` (lines 34-36). */
    function CurrentName(): (k: Key)
      reads this
      ensures k == NameOf(State())
    {
      CollapseModel.CurrentName(props.name, index)
    }

    /** `expanded` (lines 38-43), re-read on every call. */
    function Expanded(): (e: Option<bool>)
      reads this
      ensures e == LiveExpanded(State())
      ensures e.None? <==> group.NoParent?
    {
      CollapseModel.Expanded(group, CurrentName())
    }

    /** setup(): `show` starts as `expanded.value` (line 45). */
    constructor (props: Props, index: int, group: Group)
      ensures State() == Initial(props, index, group)
      ensures show == Truthy(Expanded()) && height == Auto
      ensures pending == [] && toggleRequests == []
    {
      this.props := props;
      this.index := index;
      this.group := group;
      show := Truthy(CollapseModel.Expanded(group, CollapseModel.CurrentName(props.name, index)));
      height := Auto;
      pending := [];
      toggleRequests := [];
    }

    /** The watch handler on `expanded` (lines 56-67, 69): the measure step is
        queued with the value seen now. */
    method OnExpandedChange(value: Option<bool>, oldValue: Option<bool>)
      modifies this`show, this`pending
      ensures oldValue.None? ==> show == old(show) && pending == old(pending)
      ensures oldValue.Some? ==> show == (Truthy(value) || old(show))
      ensures oldValue.Some? ==> pending == old(pending) + [Measure(TickFor(value), value)]
      ensures State() == Step(old(State()), ExpandedChange(value, oldValue))
    {
      if oldValue.None? {
        return;
      }
      if Truthy(value) {
        show := true;
      }
      var tick := if Truthy(value) then NextTick else Raf;
      pending := pending + [Measure(tick, value)];
    }

    /** The transition-end handler (lines 48-54): branches on the LIVE value. */
    method OnTransitionEnd()
      modifies this`show, this`height
      ensures !Truthy(old(Expanded())) ==> !show && height == old(height)
      ensures Truthy(old(Expanded())) ==> height == Auto && show == old(show)
      ensures State() == Step(old(State()), TransitionEnd)
    {
      if !Truthy(Expanded()) {
        show := false;
      } else {
        height := Auto;
      }
    }

    /** The nextTick/raf callback (lines 69-86) at position `slot` of the queue
        runs; the host supplies the content's `offsetHeight` and whether the
        two refs are mounted. It uses the value captured when it was queued. */
    method RunMeasureCallback(slot: nat, offsetHeight: nat, contentMounted: bool, wrapperMounted: bool)
      requires slot < |pending| && pending[slot].Measure?
      modifies this`show, this`height, this`pending
      ensures !contentMounted || !wrapperMounted ==>
        show == old(show) && height == old(height) && pending == RemoveAt(old(pending), slot)
      ensures contentMounted && wrapperMounted && offsetHeight > 0 ==>
        show == old(show) &&
        height == (if Truthy(old(pending[slot].value)) then Px(0) else Px(offsetHeight)) &&
        pending == RemoveAt(old(pending), slot) + [Target(old(pending[slot].value), offsetHeight)]
      ensures contentMounted && wrapperMounted && offsetHeight == 0 ==>
        pending == RemoveAt(old(pending), slot) &&
        (if Truthy(old(Expanded())) then height == Auto && show == old(show)
         else !show && height == old(height))
      ensures State() == Step(old(State()), FireMeasure(slot, offsetHeight, contentMounted, wrapperMounted))
    {
      var value := pending[slot].value;
      pending := pending[..slot] + pending[slot + 1..];
      if !contentMounted || !wrapperMounted {
        return;
      }
      if offsetHeight > 0 {
        height := if Truthy(value) then Px(0) else Px(offsetHeight);
        pending := pending + [Target(value, offsetHeight)];
      } else {
        OnTransitionEnd();
      }
    }

    /** The doubleRaf callback (lines 80-82) at position `slot` runs: it writes
        the target height from its captured value, checking nothing. */
    method RunDoubleRafCallback(slot: nat)
      requires slot < |pending| && pending[slot].Target?
      modifies this`height, this`pending
      ensures height == (if Truthy(old(pending[slot].value)) then Px(old(pending[slot].contentHeight)) else Px(0))
      ensures pending == RemoveAt(old(pending), slot)
      ensures State() == Step(old(State()), FireTarget(slot))
    {
      var c := pending[slot];
      height := if Truthy(c.value) then Px(c.contentHeight) else Px(0);
      pending := pending[..slot] + pending[slot + 1..];
    }

    /** `onClickTitle` (lines 89-93). The source dereferences the parent
        whenever the item is enabled, so an enabled item must have one. */
    method OnClickTitle()
      requires props.disabled || group.Parent?
      modifies this`toggleRequests
      ensures props.disabled ==> toggleRequests == old(toggleRequests)
      ensures !props.disabled ==>
        toggleRequests == old(toggleRequests) + [Toggle(CurrentName(), !Truthy(Expanded()))]
      ensures State() == Step(old(State()), ClickTitle)
    {
      if !props.disabled {
        toggleRequests := toggleRequests + [Toggle(CurrentName(), !Truthy(Expanded()))];
      }
    }

    /** The parent's expansion set changes; a missing parent stays missing. */
    method OnGroupChange(expandedKeys: set<Key>)
      modifies this`group
      ensures group == if old(group).Parent? then Parent(expandedKeys) else NoParent
      ensures State() == Step(old(State()), GroupChange(expandedKeys))
    {
      if group.Parent? {
        group := Parent(expandedKeys);
      }
    }

    /** The parent re-numbers its children (the `index` ref of useParent). */
    method OnReindex(newIndex: int)
      modifies this`index
      ensures index == newIndex
      ensures State() == Step(old(State()), Reindex(newIndex))
    {
      index := newIndex;
    }

    /** The host passes new props; `currentName` and the next click read them. */
    method OnPropsChange(newProps: Props)
      modifies this`props
      ensures props == newProps
      ensures State() == Step(old(State()), PropsChange(newProps))
    {
      props := newProps;
    }
  }
}

/** What the collapse item guarantees, stated over single transitions and over
    whole runs of events in any order the schedulers and the host choose. */
module CollapseProperties {
  import opened CollapseModel

  // ---------------------------------------------------------------------
  // Counting helpers
  // ---------------------------------------------------------------------

  /** The number of doubleRaf callbacks waiting in `q`. */
  function Targets(q: seq<Callback>): nat
    decreases |q|
  {
    if q == [] then 0 else (if q[0].Target? then 1 else 0) + Targets(q[1..])
  }

  /** The number of title clicks in a run. */
  function Clicks(evs: seq<Event>): nat
    decreases |evs|
  {
    if evs == [] then 0 else (if evs[0].ClickTitle? then 1 else 0) + Clicks(evs[1..])
  }

  lemma {:induction false} TargetsAppend(q: seq<Callback>, r: seq<Callback>)
    ensures Targets(q + r) == Targets(q) + Targets(r)
    decreases |q|
  {
    if q == [] {
      assert q + r == r;
    } else {
      assert (q + r)[1..] == q[1..] + r;
      TargetsAppend(q[1..], r);
    }
  }

  /** Removing one callback removes one doubleRaf exactly when it was one. */
  lemma {:induction false} TargetsRemoveAt(q: seq<Callback>, i: nat)
    requires i < |q|
    ensures Targets(RemoveAt(q, i)) + (if q[i].Target? then 1 else 0) == Targets(q)
  {
    assert q == q[..i] + [q[i]] + q[i + 1..];
    TargetsAppend(q[..i] + [q[i]], q[i + 1..]);
    TargetsAppend(q[..i], [q[i]]);
    TargetsAppend(q[..i], q[i + 1..]);
    assert Targets([q[i]]) == if q[i].Target? then 1 else 0 by {
      assert [q[i]][1..] == [];
    }
  }

  // ---------------------------------------------------------------------
  // Single transitions
  // ---------------------------------------------------------------------

  /** A change whose old value is null does nothing (lines 57-59). */
  lemma ChangeFromNullIsNoOp(s: Item, value: Option<bool>)
    ensures Step(s, ExpandedChange(value, None)) == s
  {
  }

  /** Opening shows the content at once, before any measurement; closing
      never hides it directly (lines 61-63). Either way one measure step is
      queued: on nextTick when opening, on raf when closing (line 67). */
  lemma ChangeShowsAndSchedules(s: Item, value: Option<bool>, oldValue: Option<bool>)
    requires oldValue.Some?
    ensures Truthy(value) ==> Step(s, ExpandedChange(value, oldValue)).show
    ensures !Truthy(value) ==> Step(s, ExpandedChange(value, oldValue)).show == s.show
    ensures Step(s, ExpandedChange(value, oldValue)).height == s.height
    ensures Step(s, ExpandedChange(value, oldValue)).pending
         == s.pending + [Measure(if Truthy(value) then NextTick else Raf, value)]
  {
  }

  /** A measure step that finds a ref missing writes nothing and schedules
      nothing (lines 70-72). */
  lemma MeasureWithoutRefsWritesNothing(s: Item, slot: nat, h: nat, contentMounted: bool, wrapperMounted: bool)
    requires Deliverable(s, FireMeasure(slot, h, contentMounted, wrapperMounted))
    requires !contentMounted || !wrapperMounted
    ensures Step(s, FireMeasure(slot, h, contentMounted, wrapperMounted))
         == s.(pending := RemoveAt(s.pending, slot))
  {
  }

  /** A measure step with both refs and a positive height writes the start
      height and schedules exactly one doubleRaf carrying the captured value
      (lines 74-82). */
  lemma MeasureSchedulesOneDoubleRaf(s: Item, slot: nat, h: nat)
    requires Deliverable(s, FireMeasure(slot, h, true, true)) && h > 0
    ensures var t := Step(s, FireMeasure(slot, h, true, true));
      && t.height == (if Truthy(s.pending[slot].value) then Px(0) else Px(h))
      && t.show == s.show
      && Targets(t.pending) == Targets(s.pending) + 1
      && t.pending[|t.pending| - 1] == Target(s.pending[slot].value, h)
  {
    var t := Step(s, FireMeasure(slot, h, true, true));
    TargetsRemoveAt(s.pending, slot);
    TargetsAppend(RemoveAt(s.pending, slot), [Target(s.pending[slot].value, h)]);
    assert [Target(s.pending[slot].value, h)][1..] == [];
  }

  /** A measure step that reads a zero height schedules no doubleRaf and runs
      the transition-end logic at once (lines 75, 83-85). */
  lemma ZeroHeightMeasureEndsTransition(s: Item, slot: nat)
    requires Deliverable(s, FireMeasure(slot, 0, true, true))
    ensures var t := Step(s, FireMeasure(slot, 0, true, true));
      && t == Step(s.(pending := RemoveAt(s.pending, slot)), TransitionEnd)
      && Targets(t.pending) == Targets(s.pending)
  {
    TargetsRemoveAt(s.pending, slot);
  }

  /** Transition end reads the live expansion: collapsed hides the content and
      keeps the height; expanded clears the height and keeps `show` (48-54). */
  lemma TransitionEndFollowsLiveValue(s: Item)
    ensures !Truthy(LiveExpanded(s)) ==> Step(s, TransitionEnd) == s.(show := false)
    ensures Truthy(LiveExpanded(s)) ==> Step(s, TransitionEnd) == s.(height := Auto)
  {
  }

  /** The writes of a queued callback were fixed when it was queued: two items
      with the same queue write the same height, whatever their parent, index,
      props, `show` or height, unlike the transition-end logic, which reads the
      live value (lines 67, 77, 81). */
  lemma QueuedWritesUseCapturedValue(s: Item, t: Item, slot: nat, h: nat)
    requires s.pending == t.pending && slot < |s.pending|
    ensures s.pending[slot].Target? ==>
      Step(s, FireTarget(slot)).height == Step(t, FireTarget(slot)).height
    ensures s.pending[slot].Measure? && h > 0 ==>
      Step(s, FireMeasure(slot, h, true, true)).height
        == Step(t, FireMeasure(slot, h, true, true)).height
  {
  }

  /** A disabled title never calls toggle; an enabled one calls
      `toggle(currentName, !expanded)` once (lines 89-93). */
  lemma ClickRequestsToggle(s: Item)
    requires Deliverable(s, ClickTitle)
    ensures s.props.disabled ==> Step(s, ClickTitle) == s
    ensures !s.props.disabled ==>
      Step(s, ClickTitle).toggleRequests
        == s.toggleRequests + [Toggle(NameOf(s), !Truthy(LiveExpanded(s)))]
  {
  }

  // ---------------------------------------------------------------------
  // Runs of events
  // ---------------------------------------------------------------------

  /** No event of the run passes new props. */
  predicate NoPropsChange(evs: seq<Event>) {
    forall k :: 0 <= k < |evs| ==> !evs[k].PropsChange?
  }

  lemma NoPropsChangeTail(evs: seq<Event>)
    requires evs != [] && NoPropsChange(evs)
    ensures !evs[0].PropsChange? && NoPropsChange(evs[1..])
  {
    forall k | 0 <= k < |evs[1..]| ensures !evs[1..][k].PropsChange? {
      assert evs[1..][k] == evs[k + 1];
    }
  }

  /** The item never gains or loses its parent, and its props change only
      when the host passes new ones. */
  lemma {:induction false} RunKeepsPropsAndParent(s: Item, evs: seq<Event>)
    requires Runs(s, evs)
    ensures Run(s, evs).group.Parent? == s.group.Parent?
    ensures NoPropsChange(evs) ==> Run(s, evs).props == s.props
    decreases |evs|
  {
    if evs != [] {
      if NoPropsChange(evs) {
        NoPropsChangeTail(evs);
      }
      RunKeepsPropsAndParent(Step(s, evs[0]), evs[1..]);
    }
  }

  /** Each queued measure step sits on the scheduler its captured value
      selects, and each queued doubleRaf carries a positive height. */
  predicate WellFormed(c: Callback) {
    match c
    case Measure(tick, value) => tick == TickFor(value)
    case Target(_, contentHeight) => contentHeight > 0
  }

  predicate Consistent(s: Item) {
    forall i :: 0 <= i < |s.pending| ==> WellFormed(s.pending[i])
  }

  lemma StepKeepsConsistent(s: Item, e: Event)
    requires Deliverable(s, e) && Consistent(s)
    ensures Consistent(Step(s, e))
  {
  }

  lemma {:induction false} RunKeepsConsistent(s: Item, evs: seq<Event>)
    requires Runs(s, evs) && Consistent(s)
    ensures Consistent(Run(s, evs))
    decreases |evs|
  {
    if evs != [] {
      StepKeepsConsistent(s, evs[0]);
      RunKeepsConsistent(Step(s, evs[0]), evs[1..]);
    }
  }

  /** The number of clicks of a run delivered while the item's current props
      say it is not disabled. */
  function ClicksWhileEnabled(s: Item, evs: seq<Event>): nat
    requires Runs(s, evs)
    decreases |evs|
  {
    if evs == [] then 0
    else (if evs[0].ClickTitle? && !s.props.disabled then 1 else 0)
         + ClicksWhileEnabled(Step(s, evs[0]), evs[1..])
  }

  /** The item's toggle calls are its old ones followed by one per click made
      while it is not disabled. */
  lemma {:induction false} ToggleRequestsPerClick(s: Item, evs: seq<Event>)
    requires Runs(s, evs)
    ensures s.toggleRequests <= Run(s, evs).toggleRequests
    ensures |Run(s, evs).toggleRequests| == |s.toggleRequests| + ClicksWhileEnabled(s, evs)
    decreases |evs|
  {
    if evs != [] {
      ToggleRequestsPerClick(Step(s, evs[0]), evs[1..]);
    }
  }

  /** With the props fixed, every click of the run requests a toggle, or none
      does when the item is disabled. */
  lemma {:induction false} ClicksWithFixedProps(s: Item, evs: seq<Event>)
    requires Runs(s, evs) && NoPropsChange(evs)
    ensures ClicksWhileEnabled(s, evs) == if s.props.disabled then 0 else Clicks(evs)
    decreases |evs|
  {
    if evs != [] {
      NoPropsChangeTail(evs);
      assert Step(s, evs[0]).props == s.props;
      ClicksWithFixedProps(Step(s, evs[0]), evs[1..]);
    }
  }

  /** A measure step that will write a start height. */
  predicate Animates(e: Event) {
    e.FireMeasure? && e.contentMounted && e.wrapperMounted && e.offsetHeight > 0
  }

  /** When no measurement finds a positive height, no doubleRaf is ever
      scheduled and no pixel height is ever written: the height is what it was
      or cleared by the transition-end logic. */
  lemma {:induction false} ZeroHeightNeverAnimates(s: Item, evs: seq<Event>)
    requires Runs(s, evs) && Targets(s.pending) == 0
    requires forall k :: 0 <= k < |evs| ==> !Animates(evs[k])
    ensures Targets(Run(s, evs).pending) == 0
    ensures Run(s, evs).height == s.height || Run(s, evs).height == Auto
    decreases |evs|
  {
    if evs != [] {
      var e := evs[0];
      var t := Step(s, e);
      match e {
        case FireMeasure(slot, _, _, _) =>
          TargetsRemoveAt(s.pending, slot);
        case FireTarget(slot) =>
          TargetsRemoveAt(s.pending, slot);
          assert false;
        case ExpandedChange(value, oldValue) =>
          if oldValue.Some? {
            TargetsAppend(s.pending, [Measure(TickFor(value), value)]);
            assert [Measure(TickFor(value), value)][1..] == [];
          }
        case _ =>
      }
      assert Targets(t.pending) == 0;
      assert t.height == s.height || t.height == Auto;
      assert forall k :: 0 <= k < |evs[1..]| ==> !Animates(evs[1..][k]) by {
        forall k | 0 <= k < |evs[1..]| ensures !Animates(evs[1..][k]) {
          assert evs[1..][k] == evs[k + 1];
        }
      }
      ZeroHeightNeverAnimates(t, evs[1..]);
    }
  }

  /** An event that runs the transition-end logic: the host's notification, or
      a measure step that reads a zero height. */
  predicate EndsTransition(e: Event) {
    e.TransitionEnd?
    || (e.FireMeasure? && e.contentMounted && e.wrapperMounted && e.offsetHeight == 0)
  }

  /** Shown content is hidden only by the transition-end logic. */
  lemma {:induction false} ShowClearedOnlyByTransitionEnd(s: Item, evs: seq<Event>)
    requires Runs(s, evs) && s.show && !Run(s, evs).show
    ensures exists k :: 0 <= k < |evs| && EndsTransition(evs[k])
    decreases |evs|
  {
    var t := Step(s, evs[0]);
    if EndsTransition(evs[0]) {
      assert EndsTransition(evs[0]);
    } else {
      assert t.show;
      ShowClearedOnlyByTransitionEnd(t, evs[1..]);
      var k :| 0 <= k < |evs[1..]| && EndsTransition(evs[1..][k]);
      assert evs[1..][k] == evs[k + 1];
    }
  }

  /** An event that can change the live expansion value: the parent's
      expansion set or numbering changes, or the host passes new props. */
  predicate ChangesLiveInputs(e: Event) {
    e.GroupChange? || e.Reindex? || e.PropsChange?
  }

  /** Shown content of an item the parent reports expanded stays shown for as
      long as neither the parent's state nor the props change. */
  lemma {:induction false} ExpandedItemStaysShown(s: Item, evs: seq<Event>)
    requires Runs(s, evs) && s.show && Truthy(LiveExpanded(s))
    requires forall k :: 0 <= k < |evs| ==> !ChangesLiveInputs(evs[k])
    ensures Run(s, evs).show
    ensures Truthy(LiveExpanded(Run(s, evs)))
    decreases |evs|
  {
    if evs != [] {
      var t := Step(s, evs[0]);
      assert !ChangesLiveInputs(evs[0]);
      assert t.group == s.group && t.index == s.index && t.props.name == s.props.name;
      assert t.show;
      assert forall k :: 0 <= k < |evs[1..]| ==> !ChangesLiveInputs(evs[1..][k]) by {
        forall k | 0 <= k < |evs[1..]| ensures !ChangesLiveInputs(evs[1..][k]) {
          assert evs[1..][k] == evs[k + 1];
        }
      }
      ExpandedItemStaysShown(t, evs[1..]);
    }
  }

  /** An item without a parent never animates: the watch only ever reports a
      change from null, so nothing is scheduled, no height is written, and no
      toggle is requested; it stays hidden once hidden. */
  lemma {:induction false} DetachedItemIsInert(s: Item, evs: seq<Event>)
    requires Runs(s, evs) && s.group.NoParent? && s.pending == []
    requires forall k :: 0 <= k < |evs| ==> (evs[k].ExpandedChange? ==> evs[k].oldValue.None?)
    ensures Run(s, evs).pending == []
    ensures Run(s, evs).height == s.height
    ensures Run(s, evs).toggleRequests == s.toggleRequests
    ensures !s.show ==> !Run(s, evs).show
    decreases |evs|
  {
    if evs != [] {
      var t := Step(s, evs[0]);
      assert evs[0].ExpandedChange? ==> evs[0].oldValue.None?;
      assert t.group.NoParent? && t.pending == [] && t.height == s.height;
      assert forall k :: 0 <= k < |evs[1..]| ==>
          (evs[1..][k].ExpandedChange? ==> evs[1..][k].oldValue.None?) by {
        forall k | 0 <= k < |evs[1..]|
          ensures evs[1..][k].ExpandedChange? ==> evs[1..][k].oldValue.None?
        {
          assert evs[1..][k] == evs[k + 1];
        }
      }
      DetachedItemIsInert(t, evs[1..]);
    }
  }

  // ---------------------------------------------------------------------
  // Whole transitions
  // ---------------------------------------------------------------------

  /** Opening an expanded item: shown at once, measured on nextTick with start
      height 0, target height `h` after doubleRaf, cleared to '' at the end. */
  lemma OpeningSequence(s: Item, h: nat)
    requires h > 0 && LiveExpanded(s) == Some(true)
    ensures var n := |s.pending|;
      var s1 := Step(s, ExpandedChange(Some(true), Some(false)));
      && s1.show && s1.pending == s.pending + [Measure(NextTick, Some(true))]
      && Deliverable(s1, FireMeasure(n, h, true, true))
      && var s2 := Step(s1, FireMeasure(n, h, true, true));
      && s2.height == Px(0) && s2.pending == s.pending + [Target(Some(true), h)]
      && Deliverable(s2, FireTarget(n))
      && var s3 := Step(s2, FireTarget(n));
      && s3.height == Px(h)
      && Step(s3, TransitionEnd) == s.(show := true, height := Auto)
  {
  }

  /** Closing a collapsed item: measured on raf with start height `h`, target
      height 0 after doubleRaf, hidden at the end (the height stays 0). */
  lemma ClosingSequence(s: Item, h: nat)
    requires h > 0 && LiveExpanded(s) == Some(false)
    ensures var n := |s.pending|;
      var s1 := Step(s, ExpandedChange(Some(false), Some(true)));
      && s1.show == s.show && s1.pending == s.pending + [Measure(Raf, Some(false))]
      && Deliverable(s1, FireMeasure(n, h, true, true))
      && var s2 := Step(s1, FireMeasure(n, h, true, true));
      && s2.height == Px(h) && s2.pending == s.pending + [Target(Some(false), h)]
      && Deliverable(s2, FireTarget(n))
      && var s3 := Step(s2, FireTarget(n));
      && s3.height == Px(0) && s3.show == s.show
      && Step(s3, TransitionEnd) == s.(show := false, height := Px(0))
  {
  }

  /** A panel opened and closed again before any callback runs, as when both
      watch calls fall in one flush. Both measure
      steps and both doubleRaf steps use the value captured by their own watch
      call, so the opening writes still happen (start height 0, then the stale
      target 240px) before the closing ones; the transition end, which reads
      the live value, hides the content. */
  lemma OpenThenCloseBeforeCallbacks()
    ensures var a := StrKey("a");
      var s0 := Initial(Props(Some(a), false), 0, Parent({}));
      var s1 := Step(Step(s0, GroupChange({a})), ExpandedChange(Some(true), Some(false)));
      var s2 := Step(Step(s1, GroupChange({})), ExpandedChange(Some(false), Some(true)));
      && s1.show && s2.show
      && s2.pending == [Measure(NextTick, Some(true)), Measure(Raf, Some(false))]
      && var s3 := Step(s2, FireMeasure(0, 240, true, true));
      && s3.height == Px(0)
      && Deliverable(s3, FireMeasure(0, 240, true, true))
      && var s4 := Step(s3, FireMeasure(0, 240, true, true));
      && s4.height == Px(240)
      && s4.pending == [Target(Some(true), 240), Target(Some(false), 240)]
      && var s5 := Step(s4, FireTarget(0));
      && s5.height == Px(240) && s5.show
      && Deliverable(s5, FireTarget(0))
      && var s6 := Step(s5, FireTarget(0));
      && Step(s6, TransitionEnd) == s0.(height := Px(0))
  {
  }

  /** An open, settled panel closed and reopened within one frame: the raf
      measure step of the close, queued first, runs after the nextTick step of
      the reopening, and its doubleRaf step after the reopening's. With its
      captured false it writes the start height 240px and then the stale
      target 0 while the panel is shown and expanded; only the live read at
      transition end clears the height again. */
  lemma CloseThenReopenWithinFrame()
    ensures var a := StrKey("a");
      var s0 := Initial(Props(Some(a), false), 0, Parent({a}));
      var s1 := Step(Step(s0, GroupChange({})), ExpandedChange(Some(false), Some(true)));
      var s2 := Step(Step(s1, GroupChange({a})), ExpandedChange(Some(true), Some(false)));
      && s0.show && s0.height == Auto
      && s1.show && s2.show
      && s2.pending == [Measure(Raf, Some(false)), Measure(NextTick, Some(true))]
      && Deliverable(s2, FireMeasure(1, 240, true, true))
      && var s3 := Step(s2, FireMeasure(1, 240, true, true));
      && s3.height == Px(0)
      && s3.pending == [Measure(Raf, Some(false)), Target(Some(true), 240)]
      && var s4 := Step(s3, FireMeasure(0, 240, true, true));
      && s4.height == Px(240)
      && s4.pending == [Target(Some(true), 240), Target(Some(false), 240)]
      && var s5 := Step(s4, FireTarget(0));
      && s5.height == Px(240)
      && Deliverable(s5, FireTarget(0))
      && var s6 := Step(s5, FireTarget(0));
      && s6.height == Px(0) && s6.show && LiveExpanded(s6) == Some(true)
      && Step(s6, TransitionEnd) == s0
  {
  }
}

/**
 * The animation state of the 3-D concept map (src/pages/MapPage.js): the
 * target look of each node class, the linear blend towards it, the
 * `nodeStates` map updated in place on every render, the selection and
 * deselection progress counters, and the label opacity.
 *
 * Eased progress values (`easeInOutSine`, `easeOutExpo`) and camera
 * distances are taken as inputs.
 */
module MapAnimation {
  import opened Wrappers
  import opened MapGraph

  /** Sphere size, material opacity and emissive intensity of one node. */
  datatype VisualState = VisualState(size: real, opacity: real, emissive: real)

  /** The look of a node with no state yet, and of a node that is neither selected nor connected. */
  const Baseline := VisualState(0.2, 0.3, 0.3)

  /** `colorTransitions[idx] || { isSelected: false, isConnected: false }`. */
  function TransitionAt(ts: seq<Transition>, i: int): (t: Transition)
    ensures 0 <= i < |ts| ==> t == ts[i]
    ensures !(0 <= i < |ts|) ==> t == Transition(false, false)
  {
    if 0 <= i < |ts| then ts[i] else Transition(false, false)
  }

  // ---------------------------------------------------------------------
  // Target states and blending (MapPage.js:408-423)
  // ---------------------------------------------------------------------

  /** The `targetState` table: selected wins over connected, which wins over neither. */
  function TargetState(t: Transition): (v: VisualState)
    ensures t.isSelected ==> v == VisualState(0.8, 1.0, 2.0)
    ensures !t.isSelected && t.isConnected ==> v == VisualState(0.5, 0.9, 1.0)
    ensures !t.isSelected && !t.isConnected ==> v == Baseline
  {
    VisualState(
      if t.isSelected then 0.8 else if t.isConnected then 0.5 else 0.2,
      if t.isSelected then 1.0 else if t.isConnected then 0.9 else 0.3,
      if t.isSelected then 2.0 else if t.isConnected then 1.0 else 0.3)
  }

  predicate AtMost(a: VisualState, b: VisualState) {
    a.size <= b.size && a.opacity <= b.opacity && a.emissive <= b.emissive
  }

  /** The classes are ordered: every component grows from neither to connected to selected. */
  lemma TargetStatesOrdered(c: bool)
    ensures AtMost(TargetState(Transition(false, false)), TargetState(Transition(false, true)))
    ensures AtMost(TargetState(Transition(false, true)), TargetState(Transition(true, c)))
    ensures TargetState(Transition(true, c)) == TargetState(Transition(true, !c))
  {
  }

  /** `current + (target - current) * progress`. */
  function Blend(current: real, target: real, progress: real): real {
    current + (target - current) * progress
  }

  predicate Between(x: real, a: real, b: real) {
    (a <= x <= b) || (b <= x <= a)
  }

  /** For progress in [0, 1] the blend lies between current and target, with both ends reached. */
  lemma BlendBetween(current: real, target: real, progress: real)
    requires 0.0 <= progress <= 1.0
    ensures Between(Blend(current, target, progress), current, target)
    ensures progress == 0.0 ==> Blend(current, target, progress) == current
    ensures progress == 1.0 ==> Blend(current, target, progress) == target
  {
    var d := target - current;
    assert Blend(current, target, progress) == current + d * progress;
    if d >= 0.0 {
      assert 0.0 <= d * progress <= d by {
        assert d * progress <= d * 1.0;
      }
    } else {
      assert d <= d * progress <= 0.0 by {
        assert d * 1.0 <= d * progress;
      }
    }
  }

  function BlendState(current: VisualState, target: VisualState, progress: real): VisualState {
    VisualState(
      Blend(current.size, target.size, progress),
      Blend(current.opacity, target.opacity, progress),
      Blend(current.emissive, target.emissive, progress))
  }

  predicate StateBetween(x: VisualState, a: VisualState, b: VisualState) {
    Between(x.size, a.size, b.size) && Between(x.opacity, a.opacity, b.opacity) && Between(x.emissive, a.emissive, b.emissive)
  }

  lemma BlendStateBetween(current: VisualState, target: VisualState, progress: real)
    requires 0.0 <= progress <= 1.0
    ensures StateBetween(BlendState(current, target, progress), current, target)
    ensures progress == 0.0 ==> BlendState(current, target, progress) == current
    ensures progress == 1.0 ==> BlendState(current, target, progress) == target
  {
    BlendBetween(current.size, target.size, progress);
    BlendBetween(current.opacity, target.opacity, progress);
    BlendBetween(current.emissive, target.emissive, progress);
  }

  // ---------------------------------------------------------------------
  // The `nodeStates` map (MapPage.js:292, 300-310, 397-430)
  // ---------------------------------------------------------------------

  /** `nodeStates.current.get(nodeId) || { size: 0.2, opacity: 0.3, emissive: 0.3 }`. */
  function Current(states: map<Id, VisualState>, id: Id): VisualState {
    if id in states then states[id] else Baseline
  }

  /** The map after the first n nodes of one render pass have blended towards their targets. */
  function FrameAfter(states: map<Id, VisualState>, ids: seq<Id>, ts: seq<Transition>, progress: real, n: nat): map<Id, VisualState>
    requires n <= |ids|
  {
    if n == 0 then states
    else
      var m := FrameAfter(states, ids, ts, progress, n - 1);
      var id := ids[n - 1];
      m[id := BlendState(Current(m, id), TargetState(TransitionAt(ts, n - 1)), progress)]
  }

  predicate Distinct(ids: seq<Id>) {
    forall i, j :: 0 <= i < j < |ids| ==> ids[i] != ids[j]
  }

  /** A render pass adds an entry for every node and touches no other entry. */
  lemma {:induction false} FrameKeys(states: map<Id, VisualState>, ids: seq<Id>, ts: seq<Transition>, progress: real, n: nat)
    requires n <= |ids|
    ensures FrameAfter(states, ids, ts, progress, n).Keys == states.Keys + set i | 0 <= i < n :: ids[i]
    ensures forall x :: x in states && x !in ids[..n] ==> FrameAfter(states, ids, ts, progress, n)[x] == states[x]
  {
    if n > 0 {
      FrameKeys(states, ids, ts, progress, n - 1);
      assert (set i | 0 <= i < n :: ids[i]) == (set i | 0 <= i < n - 1 :: ids[i]) + {ids[n - 1]};
      assert ids[..n] == ids[..n - 1] + [ids[n - 1]];
    }
  }

  /**
   * With distinct ids, after a pass each of the first n nodes holds the blend
   * of its state before the pass towards its class's target.
   */
  lemma {:induction false} FrameValues(states: map<Id, VisualState>, ids: seq<Id>, ts: seq<Transition>, progress: real, n: nat)
    requires n <= |ids| && Distinct(ids)
    ensures forall i :: 0 <= i < n ==>
              && ids[i] in FrameAfter(states, ids, ts, progress, n)
              && FrameAfter(states, ids, ts, progress, n)[ids[i]] ==
                 BlendState(Current(states, ids[i]), TargetState(TransitionAt(ts, i)), progress)
  {
    if n > 0 {
      FrameValues(states, ids, ts, progress, n - 1);
      FrameKeys(states, ids, ts, progress, n - 1);
      var id := ids[n - 1];
      assert id !in ids[..n - 1];
      var m := FrameAfter(states, ids, ts, progress, n - 1);
      assert Current(m, id) == Current(states, id);
    }
  }

  /** At full progress every node takes its target look. */
  lemma FrameAtFullProgress(states: map<Id, VisualState>, ids: seq<Id>, ts: seq<Transition>)
    requires Distinct(ids)
    ensures forall i :: 0 <= i < |ids| ==>
              && ids[i] in FrameAfter(states, ids, ts, 1.0, |ids|)
              && FrameAfter(states, ids, ts, 1.0, |ids|)[ids[i]] == TargetState(TransitionAt(ts, i))
  {
    FrameValues(states, ids, ts, 1.0, |ids|);
    forall i | 0 <= i < |ids|
      ensures FrameAfter(states, ids, ts, 1.0, |ids|)[ids[i]] == TargetState(TransitionAt(ts, i))
    {
      BlendStateBetween(Current(states, ids[i]), TargetState(TransitionAt(ts, i)), 1.0);
    }
  }

  /**
   * Nodes past the end of `colorTransitions` have no entry and take the
   * default `{ isSelected: false, isConnected: false }`: at full progress
   * they settle on the idle look.
   */
  lemma NodesWithoutTransitionSettleIdle(states: map<Id, VisualState>, ids: seq<Id>, ts: seq<Transition>)
    requires Distinct(ids)
    ensures forall i :: |ts| <= i < |ids| ==>
              && ids[i] in FrameAfter(states, ids, ts, 1.0, |ids|)
              && FrameAfter(states, ids, ts, 1.0, |ids|)[ids[i]] == Baseline
  {
    FrameAtFullProgress(states, ids, ts);
  }

  /** For progress in [0, 1] every node moves part of the way from its old state to its target. */
  lemma FrameStaysBetween(states: map<Id, VisualState>, ids: seq<Id>, ts: seq<Transition>, progress: real)
    requires Distinct(ids) && 0.0 <= progress <= 1.0
    ensures forall i :: 0 <= i < |ids| ==>
              ids[i] in FrameAfter(states, ids, ts, progress, |ids|) &&
              StateBetween(FrameAfter(states, ids, ts, progress, |ids|)[ids[i]],
                           Current(states, ids[i]), TargetState(TransitionAt(ts, i)))
  {
    FrameValues(states, ids, ts, progress, |ids|);
    forall i | 0 <= i < |ids|
      ensures StateBetween(FrameAfter(states, ids, ts, progress, |ids|)[ids[i]],
                           Current(states, ids[i]), TargetState(TransitionAt(ts, i)))
    {
      BlendStateBetween(Current(states, ids[i]), TargetState(TransitionAt(ts, i)), progress);
    }
  }

  /** Once the animation has finished, further renders with the same classes change nothing. */
  lemma FrameIdempotentAtFullProgress(states: map<Id, VisualState>, ids: seq<Id>, ts: seq<Transition>)
    requires Distinct(ids)
    ensures var once := FrameAfter(states, ids, ts, 1.0, |ids|);
            FrameAfter(once, ids, ts, 1.0, |ids|) == once
  {
    var once := FrameAfter(states, ids, ts, 1.0, |ids|);
    var twice := FrameAfter(once, ids, ts, 1.0, |ids|);
    FrameKeys(states, ids, ts, 1.0, |ids|);
    FrameKeys(once, ids, ts, 1.0, |ids|);
    FrameAtFullProgress(states, ids, ts);
    FrameAtFullProgress(once, ids, ts);
    assert ids[..|ids|] == ids;
    forall x | x in twice
      ensures twice[x] == once[x]
    {
      if i :| 0 <= i < |ids| && ids[i] == x {
      } else {
        assert x !in ids[..|ids|];
      }
    }
  }

  /** The mutable `nodeStates` ref. */
  class NodeStates {
    var states: map<Id, VisualState>

    constructor()
      ensures states == map[]
    {
      states := map[];
    }

    /** The seeding loop of the selection effect: every node without a state gets the baseline look. */
    method SeedDefaults(ids: seq<Id>)
      modifies this
      ensures states.Keys == old(states).Keys + set i | 0 <= i < |ids| :: ids[i]
      ensures forall x :: x in old(states) ==> states[x] == old(states)[x]
      ensures forall x :: x in states && x !in old(states) ==> states[x] == Baseline
    {
      var k := 0;
      while k < |ids|
        invariant 0 <= k <= |ids|
        invariant states.Keys == old(states).Keys + set i | 0 <= i < k :: ids[i]
        invariant forall x :: x in old(states) ==> states[x] == old(states)[x]
        invariant forall x :: x in states && x !in old(states) ==> states[x] == Baseline
      {
        if ids[k] !in states {
          states := states[ids[k] := Baseline];
        }
        assert (set i | 0 <= i < k + 1 :: ids[i]) == (set i | 0 <= i < k :: ids[i]) + {ids[k]};
        k := k + 1;
      }
    }

    /** One render pass over the node list: each node's state moves towards its class's target. */
    method RenderFrame(ids: seq<Id>, ts: seq<Transition>, progress: real)
      modifies this
      ensures states == FrameAfter(old(states), ids, ts, progress, |ids|)
    {
      var k := 0;
      while k < |ids|
        invariant 0 <= k <= |ids|
        invariant states == FrameAfter(old(states), ids, ts, progress, k)
      {
        var transition := TransitionAt(ts, k);
        var currentState := Current(states, ids[k]);
        states := states[ids[k] := BlendState(currentState, TargetState(transition), progress)];
        k := k + 1;
      }
    }
  }

  // ---------------------------------------------------------------------
  // Progress counters (MapPage.js:290-353)
  // ---------------------------------------------------------------------

  /** One animation frame: advance by `0.8 * delta`, clamped at 1. */
  function AdvanceProgress(progress: real, delta: real): (r: real)
    ensures r == 1.0 <==> progress + delta * 0.8 >= 1.0
    ensures 0.0 <= progress <= 1.0 && delta >= 0.0 ==> progress <= r <= 1.0
  {
    if progress + delta * 0.8 >= 1.0 then 1.0 else progress + delta * 0.8
  }

  /** One deselection frame: `Math.min(1, d + delta * 3)`. */
  function AdvanceDeselect(d: real, delta: real): (r: real)
    ensures r <= 1.0 && r <= d + delta * 3.0
    ensures r == 1.0 || r == d + delta * 3.0
  {
    if d + delta * 3.0 < 1.0 then d + delta * 3.0 else 1.0
  }

  /**
   * The selection animation's state inside the map's `Network` component.
   * A node is identified by its index in the map data, as the source compares
   * node objects by identity.
   */
  class SelectionAnimation {
    var selected: Option<nat>
    var previousSelected: Option<nat>
    var progress: real
    var animating: bool
    var isDeselecting: bool
    var deselectProgress: real

    ghost predicate Valid()
      reads this
    {
      && 0.0 <= progress <= 1.0
      && (animating ==> progress < 1.0)
      && 0.0 <= deselectProgress <= 1.0
    }

    constructor()
      ensures Valid()
      ensures selected.None? && previousSelected.None?
      ensures progress == 0.0 && !animating && !isDeselecting && deselectProgress == 0.0
    {
      selected := None;
      previousSelected := None;
      progress := 0.0;
      animating := false;
      isDeselecting := false;
      deselectProgress := 0.0;
    }

    /** A click on a node sphere: `onNodeSelect(nodes[idx])`. */
    method SelectNode(idx: nat)
      requires Valid()
      modifies this
      ensures Valid()
      ensures selected == Some(idx)
      ensures previousSelected == old(previousSelected) && progress == old(progress) && animating == old(animating)
      ensures isDeselecting == old(isDeselecting) && deselectProgress == old(deselectProgress)
    {
      selected := Some(idx);
    }

    /**
     * The selection effect: when the selection differs from the previous
     * one, seed missing node states, remember the selection and restart the
     * animation from 0.
     */
    method SelectionEffect(table: NodeStates, ids: seq<Id>)
      requires Valid()
      modifies this, table
      ensures Valid()
      ensures previousSelected == selected && selected == old(selected)
      ensures old(selected) != old(previousSelected) ==>
                && progress == 0.0 && animating
                && table.states.Keys == old(table.states).Keys + (set i | 0 <= i < |ids| :: ids[i])
                && (forall x :: x in old(table.states) ==> table.states[x] == old(table.states)[x])
                && (forall x :: x in table.states && x !in old(table.states) ==> table.states[x] == Baseline)
      ensures old(selected) == old(previousSelected) ==>
                progress == old(progress) && animating == old(animating) && table.states == old(table.states)
      ensures isDeselecting == old(isDeselecting) && deselectProgress == old(deselectProgress)
    {
      if selected != previousSelected {
        table.SeedDefaults(ids);
        previousSelected := selected;
        progress := 0.0;
        animating := true;
      }
    }

    /** The animation frame callback: advance while animating, stop on reaching 1. */
    method Tick(delta: real)
      requires Valid() && delta >= 0.0
      modifies this
      ensures Valid()
      ensures old(animating) ==> progress == AdvanceProgress(old(progress), delta)
      ensures old(animating) ==> (animating <==> progress < 1.0)
      ensures !old(animating) ==> progress == old(progress) && !animating
      ensures old(progress) <= progress
      ensures selected == old(selected) && previousSelected == old(previousSelected)
      ensures isDeselecting == old(isDeselecting) && deselectProgress == old(deselectProgress)
    {
      if animating {
        progress := progress + delta * 0.8;
        if progress >= 1.0 {
          progress := 1.0;
          animating := false;
        }
      }
    }

    /** The deselection frame callback. */
    method DeselectTick(delta: real)
      requires Valid() && delta >= 0.0
      modifies this
      ensures Valid()
      ensures deselectProgress == if old(isDeselecting) then AdvanceDeselect(old(deselectProgress), delta) else old(deselectProgress)
      ensures old(deselectProgress) <= deselectProgress
      ensures selected == old(selected) && previousSelected == old(previousSelected)
      ensures progress == old(progress) && animating == old(animating) && isDeselecting == old(isDeselecting)
    {
      if isDeselecting {
        deselectProgress := AdvanceDeselect(deselectProgress, delta);
      }
    }

    /**
     * handleBackgroundClick: a click that moved the pointer more than 2
     * pixels is ignored; a click on a mesh that is not a node starts the
     * deselection and schedules the timer (`timerStarted`).
     */
    method BackgroundClick(pointerDelta: real, isMesh: bool, isNode: bool) returns (timerStarted: bool)
      requires Valid()
      modifies this
      ensures Valid()
      ensures timerStarted <==> pointerDelta <= 2.0 && isMesh && !isNode
      ensures timerStarted ==> isDeselecting && deselectProgress == 0.0
      ensures !timerStarted ==> isDeselecting == old(isDeselecting) && deselectProgress == old(deselectProgress)
      ensures selected == old(selected) && previousSelected == old(previousSelected)
      ensures progress == old(progress) && animating == old(animating)
    {
      timerStarted := false;
      if pointerDelta > 2.0 {
        return;
      }
      if isMesh && !isNode {
        isDeselecting := true;
        deselectProgress := 0.0;
        timerStarted := true;
      }
    }

    /** The deselection timer, 300 ms later: clears the selection whatever it is by then. */
    method DeselectTimerFires()
      requires Valid()
      modifies this
      ensures Valid()
      ensures selected.None? && !isDeselecting
      ensures previousSelected == old(previousSelected) && progress == old(progress) && animating == old(animating)
      ensures deselectProgress == old(deselectProgress)
    {
      selected := None;
      isDeselecting := false;
    }
  }

  // ---------------------------------------------------------------------
  // Label opacity (MapPage.js:462-494)
  // ---------------------------------------------------------------------

  /**
   * The label's base opacity. With a selection: 1, 0.9 or 0.2 by class.
   * While deselecting, `eased` is `easeOutExpo(1 - deselectProgress)`.
   * Otherwise 0.7.
   */
  function LabelBaseOpacity(hasSelection: bool, t: Transition, isDeselecting: bool, eased: real): (b: real)
    ensures hasSelection ==> b == (if t.isSelected then 1.0 else if t.isConnected then 0.9 else 0.2)
    ensures !hasSelection && !isDeselecting ==> b == 0.7
    ensures 0.0 <= eased <= 1.0 ==> 0.2 <= b <= 1.0
  {
    if hasSelection then
      if t.isSelected then 1.0 else if t.isConnected then 0.9 else 0.2
    else if isDeselecting then
      if t.isSelected || t.isConnected then 0.7 + (if t.isSelected then 0.3 else 0.2) * eased
      else 0.2 + 0.5 * (1.0 - eased)
    else 0.7
  }

  /**
   * The deselection fade joins the two phases: at its start (eased 1) every
   * class shows its selected-phase value, at its end (eased 0) the idle 0.7.
   */
  lemma DeselectFadeJoinsPhases(t: Transition)
    ensures LabelBaseOpacity(false, t, true, 1.0) == LabelBaseOpacity(true, t, false, 0.0)
    ensures LabelBaseOpacity(false, t, true, 0.0) == LabelBaseOpacity(false, t, false, 0.0)
  {
  }

  /** `1 - (distance - fadeStart) / (fadeEnd - fadeStart)` with the fade running from 30 to 50. */
  function Fade(distance: real): (f: real)
    ensures 30.0 <= distance <= 50.0 ==> 0.0 <= f <= 1.0
  {
    1.0 - (distance - 30.0) / (50.0 - 30.0)
  }

  /** The distance fade: full below 30, none above 50, linear in between. */
  function LabelOpacity(base: real, distance: real): (o: real)
    ensures distance < 30.0 ==> o == base
    ensures distance > 50.0 ==> o == 0.0
    ensures 0.0 <= base ==> 0.0 <= o <= base
  {
    if distance > 50.0 then 0.0
    else if distance < 30.0 then base
    else
      assert 0.0 <= base ==> Fade(distance) * base <= base by {
        if 0.0 <= base {
          ScaleMonotone(Fade(distance), 1.0, base);
        }
      }
      assert 0.0 <= base ==> 0.0 <= Fade(distance) * base by {
        if 0.0 <= base {
          ScaleMonotone(0.0, Fade(distance), base);
        }
      }
      Fade(distance) * base
  }

  /** Labels never get brighter as they move away from the camera. */
  lemma LabelFadeMonotone(base: real, near: real, far: real)
    requires 0.0 <= base && near <= far
    ensures LabelOpacity(base, far) <= LabelOpacity(base, near)
  {
    if far > 50.0 {
      assert LabelOpacity(base, far) == 0.0;
    } else if near < 30.0 {
      assert LabelOpacity(base, near) == base;
    } else {
      FadeBandMonotone(base, near, far);
    }
  }

  /** Within the fade band the opacity falls linearly with the distance. */
  lemma FadeBandMonotone(base: real, near: real, far: real)
    requires 0.0 <= base && 30.0 <= near <= far <= 50.0
    ensures LabelOpacity(base, far) <= LabelOpacity(base, near)
  {
    var oNear, oFar := LabelOpacity(base, near), LabelOpacity(base, far);
    assert Fade(far) <= Fade(near);
    OrderedProducts(oFar, oNear, Fade(far), Fade(near), base);
  }

  /** Two products with one non-negative factor in common are ordered like the other factors. */
  lemma OrderedProducts(x: real, y: real, a: real, b: real, c: real)
    requires x == a * c && y == b * c && a <= b && 0.0 <= c
    ensures x <= y
  {
    ScaleMonotone(a, b, c);
  }

  lemma ScaleMonotone(a: real, b: real, c: real)
    requires a <= b && 0.0 <= c
    ensures a * c <= b * c
  {
    assert (b - a) * c >= 0.0;
  }
}

/**
  The decision part of `updateButtonOverlays` in the hardened copy. It keeps a
  "last pressed" memory for the action buttons and for the directionals, so that
  when several inputs are held together the pose follows the most recent press
  instead of a fixed priority.
 */
module DistOverlay {
  import opened Gamepad
  import opened ButtonMap
  import opened Visual

  // ---------------------------------------------------------------------------
  // Rising edges and pressed lists

  /** Entry `i` is on now and was off (or unknown) in the previous frame. */
  predicate Rising(prev: seq<bool>, cur: seq<bool>, i: nat)
    requires i < |cur|
  {
    cur[i] && !(i < |prev| && prev[i])
  }

  /** The highest index below `n` with a rising edge, if any. */
  function HighestRisingBelow(prev: seq<bool>, cur: seq<bool>, n: nat): (r: Option<nat>)
    requires n <= |cur|
    ensures r.Some? ==> r.value < n && Rising(prev, cur, r.value)
    ensures r.Some? ==> forall j :: r.value < j < n ==> !Rising(prev, cur, j)
    ensures r.None? <==> forall j :: 0 <= j < n ==> !Rising(prev, cur, j)
  {
    if n == 0 then None
    else if Rising(prev, cur, n - 1) then Some(n - 1)
    else HighestRisingBelow(prev, cur, n - 1)
  }

  /** Overwrite a memory with a new edge, or keep it when there is none. */
  function Remember(edge: Option<nat>, memory: int): int
  {
    if edge.Some? then edge.value else memory
  }

  /** The indices below `n` whose entry is on, in increasing order. */
  function PressedBelow(cur: seq<bool>, n: nat): (r: seq<nat>)
    requires n <= |cur|
    ensures forall x: nat :: x in r <==> x < n && cur[x]
    ensures forall i, j :: 0 <= i < j < |r| ==> r[i] < r[j]
    ensures forall i :: 0 <= i < |r| ==> r[i] < n
  {
    if n == 0 then []
    else PressedBelow(cur, n - 1) + (if cur[n - 1] then [n - 1] else [])
  }

  function MaxOf(s: seq<nat>): (r: nat)
    requires |s| > 0
    ensures r in s && forall x :: x in s ==> x <= r
  {
    if |s| == 1 then s[0]
    else
      var m := MaxOf(s[1..]);
      assert forall x :: x in s ==> x == s[0] || x in s[1..];
      if s[0] > m then s[0] else m
  }

  // ---------------------------------------------------------------------------
  // Selection rules

  /**
    The arm to show: none when nothing is pressed; the remembered button while it is
    still held; otherwise the highest-numbered pressed button.
   */
  function ArmChoice(pressed: seq<nat>, remembered: int): (r: int)
    ensures r == -1 <==> |pressed| == 0
    ensures r != -1 ==> r in pressed
    ensures remembered in pressed ==> r == remembered
    ensures |pressed| > 0 && remembered !in pressed ==> forall x :: x in pressed ==> x <= r
  {
    if |pressed| == 0 then -1
    else if remembered != -1 && remembered in pressed then remembered
    else MaxOf(pressed)
  }

  /** The directionals in the order the source enumerates them. */
  const Order: seq<Direction> := [Left, Right, Up, Down]

  /** The directional flags as a sequence in `Order`. */
  function Flags(st: DirectionalStates): (r: seq<bool>)
    ensures |r| == |Order| && forall k :: 0 <= k < |Order| ==> (r[k] <==> st.Active(Order[k]))
  {
    [st.left, st.right, st.up, st.down]
  }

  /** The first active directional in `Order`. */
  function FirstActive(st: DirectionalStates): (r: Option<Direction>)
    ensures r.None? <==> !st.AnyActive()
    ensures r.Some? ==> st.Active(r.value)
    ensures r == Some(Right) ==> !st.left
    ensures r == Some(Up) ==> !st.left && !st.right
    ensures r == Some(Down) ==> !st.left && !st.right && !st.up
  {
    if st.left then Some(Left)
    else if st.right then Some(Right)
    else if st.up then Some(Up)
    else if st.down then Some(Down)
    else None
  }

  /**
    The direction the hand shows: none when no directional is active; the remembered
    one while it is still active; otherwise the first active one.
   */
  function HandChoice(st: DirectionalStates, remembered: Option<Direction>): (r: Option<Direction>)
    ensures r.None? <==> !st.AnyActive()
    ensures r.Some? ==> st.Active(r.value)
    ensures remembered.Some? && st.Active(remembered.value) ==> r == remembered
    ensures !(remembered.Some? && st.Active(remembered.value)) ==> r == FirstActive(st)
  {
    if remembered.Some? && st.Active(remembered.value) then remembered
    else FirstActive(st)
  }

  /** Hand pose per direction: left 1, down 2, right 3, up 4; neutral 0. */
  function HandPose(d: Option<Direction>): (r: int)
    ensures 0 <= r <= 4 && (r == 0 <==> d.None?)
    ensures d == Some(Left) ==> r == 1
    ensures d == Some(Down) ==> r == 2
    ensures d == Some(Right) ==> r == 3
    ensures d == Some(Up) ==> r == 4
  {
    match d
    case None => 0
    case Some(Left) => 1
    case Some(Down) => 2
    case Some(Right) => 3
    case Some(Up) => 4
  }

  /** The directional that rose last in `Order` this frame, or the remembered one. */
  function RememberDirection(prev: DirectionalStates, st: DirectionalStates, remembered: Option<Direction>): (r: Option<Direction>)
    ensures r != remembered ==> r.Some? && st.Active(r.value) && !prev.Active(r.value)
  {
    var edge := HighestRisingBelow(Flags(prev), Flags(st), |Order|);
    if edge.Some? then Some(Order[edge.value]) else remembered
  }

  /**
    The arm a frame shows, from the action flags and the memory before the frame: a
    fresh press first updates the memory, then `ArmChoice` picks.
   */
  function DistArm(prev: seq<bool>, remembered: int, actions: seq<bool>): (r: int)
    requires |actions| == ActionCount
    ensures r == -1 <==> forall j :: 0 <= j < ActionCount ==> !actions[j]
    ensures r != -1 ==> 0 <= r < ActionCount && actions[r]
  {
    ArmChoice(PressedBelow(actions, ActionCount), Remember(HighestRisingBelow(prev, actions, ActionCount), remembered))
  }

  /**
    The hand pose a frame shows, from the directional states and the memory before
    the frame: a fresh directional first updates the memory, then `HandChoice` picks.
   */
  function DistHand(prev: DirectionalStates, remembered: Option<Direction>, st: DirectionalStates): (r: int)
    ensures 0 <= r <= 4
    ensures r == 0 <==> !st.AnyActive()
  {
    HandPose(HandChoice(st, RememberDirection(prev, st, remembered)))
  }

  // ---------------------------------------------------------------------------
  // The object

  /** The "last pressed" memory fields of `state`. */
  class Overlay {
    var previousButtonStates: seq<bool>
    var lastPressedButtonIndex: int
    var lastArmIndex: int
    var previousDirectionalStates: DirectionalStates
    var lastPressedDirectional: Option<Direction>

    /** The initial values, which are also what `resetApplicationState` restores. */
    constructor ()
      ensures previousButtonStates == [] && lastPressedButtonIndex == -1 && lastArmIndex == -1
      ensures previousDirectionalStates == DirectionalStates(false, false, false, false)
      ensures lastPressedDirectional == None
    {
      previousButtonStates := [];
      lastPressedButtonIndex := -1;
      lastArmIndex := -1;
      previousDirectionalStates := DirectionalStates(false, false, false, false);
      lastPressedDirectional := None;
    }

    /** `resetApplicationState`, restricted to the memory fields. */
    method Reset()
      modifies this
      ensures previousButtonStates == [] && lastPressedButtonIndex == -1 && lastArmIndex == -1
      ensures previousDirectionalStates == DirectionalStates(false, false, false, false)
      ensures lastPressedDirectional == None
    {
      lastArmIndex := -1;
      lastPressedButtonIndex := -1;
      previousButtonStates := [];
      lastPressedDirectional := None;
      previousDirectionalStates := DirectionalStates(false, false, false, false);
    }

    /**
      `processActionButtons`: reads the eight action roles, lists the pressed ones,
      remembers the highest one that was newly pressed this frame (keeping the old
      memory when none was), and records this frame's states.
     */
    method ProcessActionButtons(m: Mapping, snap: Snapshot) returns (pressedButtons: seq<nat>, currentButtonStates: seq<bool>)
      modifies this
      ensures currentButtonStates == ActionStates(m, snap)
      ensures pressedButtons == PressedBelow(currentButtonStates, ActionCount)
      ensures previousButtonStates == currentButtonStates
      ensures lastPressedButtonIndex ==
                Remember(HighestRisingBelow(old(previousButtonStates), currentButtonStates, ActionCount), old(lastPressedButtonIndex))
      ensures lastArmIndex == old(lastArmIndex)
      ensures previousDirectionalStates == old(previousDirectionalStates)
      ensures lastPressedDirectional == old(lastPressedDirectional)
    {
      ghost var states := ActionStates(m, snap);
      var prev := previousButtonStates;
      pressedButtons, currentButtonStates := [], [];
      for i := 1 to ActionCount + 1
        invariant currentButtonStates == states[..i - 1]
        invariant pressedButtons == PressedBelow(states, i - 1)
        invariant lastPressedButtonIndex == Remember(HighestRisingBelow(prev, states, i - 1), old(lastPressedButtonIndex))
        invariant previousButtonStates == prev
        invariant lastArmIndex == old(lastArmIndex)
        invariant previousDirectionalStates == old(previousDirectionalStates)
        invariant lastPressedDirectional == old(lastPressedDirectional)
      {
        var pressed := false;
        match Lookup(m, ActionKey(i)) {
          case Some(Axis(a, _)) =>
            pressed := a < |snap.axes| && snap.axes[a] > AxisThreshold;
          case Some(Button(b)) =>
            if b < |snap.buttons| {
              pressed := ButtonPressed(Some(snap.buttons[b]));
            }
          case None =>
        }
        assert pressed == states[i - 1];
        assert states[..i] == states[..i - 1] + [pressed];
        currentButtonStates := currentButtonStates + [pressed];
        if pressed {
          pressedButtons := pressedButtons + [i - 1];
        }
        var wasPressed := i - 1 < |prev| && prev[i - 1];
        assert Rising(prev, states, i - 1) == (pressed && !wasPressed);
        if pressed && !wasPressed {
          lastPressedButtonIndex := i - 1;
        }
      }
      previousButtonStates := currentButtonStates;
    }

    /**
      `updateDirectionalStateTracking`: remembers the last directional, in `Order`,
      that was newly pressed this frame (keeping the old memory when none was), and
      records this frame's states.
     */
    method UpdateDirectionalStateTracking(current: DirectionalStates)
      modifies this
      ensures previousDirectionalStates == current
      ensures var edge := HighestRisingBelow(Flags(old(previousDirectionalStates)), Flags(current), |Order|);
        lastPressedDirectional == if edge.Some? then Some(Order[edge.value]) else old(lastPressedDirectional)
      ensures previousButtonStates == old(previousButtonStates)
      ensures lastPressedButtonIndex == old(lastPressedButtonIndex) && lastArmIndex == old(lastArmIndex)
    {
      var prev := previousDirectionalStates;
      for k := 0 to |Order|
        invariant var edge := HighestRisingBelow(Flags(prev), Flags(current), k);
          lastPressedDirectional == if edge.Some? then Some(Order[edge.value]) else old(lastPressedDirectional)
        invariant previousDirectionalStates == prev
        invariant previousButtonStates == old(previousButtonStates)
        invariant lastPressedButtonIndex == old(lastPressedButtonIndex) && lastArmIndex == old(lastArmIndex)
      {
        var direction := Order[k];
        var wasPressed := prev.Active(direction);
        var isPressed := current.Active(direction);
        if isPressed && !wasPressed {
          lastPressedDirectional := Some(direction);
        }
      }
      previousDirectionalStates := current;
    }

    /**
      `processDirectionals` in button mode: reads the four roles, resolves x and y
      (right over left, down over up) and updates the directional memory.
     */
    method ProcessDirectionals(m: Mapping, snap: Snapshot) returns (current: DirectionalStates, x: int, y: int)
      modifies this
      ensures current == ReadDirectionals(m, snap)
      ensures x == DirectionX(current) && y == DirectionY(current)
      ensures previousDirectionalStates == current
      ensures var edge := HighestRisingBelow(Flags(old(previousDirectionalStates)), Flags(current), |Order|);
        lastPressedDirectional == if edge.Some? then Some(Order[edge.value]) else old(lastPressedDirectional)
      ensures previousButtonStates == old(previousButtonStates)
      ensures lastPressedButtonIndex == old(lastPressedButtonIndex) && lastArmIndex == old(lastArmIndex)
    {
      current := DirectionalStates(
        DirectionalPressed(m, snap, VbLeft, AxisIndexX, -1),
        DirectionalPressed(m, snap, VbRight, AxisIndexX, 1),
        DirectionalPressed(m, snap, VbUp, AxisIndexY, 1),
        DirectionalPressed(m, snap, VbDown, AxisIndexY, -1));
      x, y := 0, 0;
      if current.left { x := -1; }
      if current.right { x := 1; }
      if current.up { y := 1; }
      if current.down { y := -1; }
      UpdateDirectionalStateTracking(current);
    }

    /**
      `updateRightArmState`: picks the arm by `ArmChoice` and leaves the memory equal
      to it, so that releasing every button clears the memory to -1.
     */
    method UpdateRightArmState(pressedButtons: seq<nat>) returns (armIndex: int)
      modifies this
      ensures armIndex == ArmChoice(pressedButtons, old(lastPressedButtonIndex))
      ensures lastPressedButtonIndex == armIndex && lastArmIndex == armIndex
      ensures previousButtonStates == old(previousButtonStates)
      ensures previousDirectionalStates == old(previousDirectionalStates)
      ensures lastPressedDirectional == old(lastPressedDirectional)
    {
      armIndex := -1;
      if |pressedButtons| > 0 {
        if lastPressedButtonIndex != -1 && lastPressedButtonIndex in pressedButtons {
          armIndex := lastPressedButtonIndex;
        } else {
          armIndex := MaxOf(pressedButtons);
          lastPressedButtonIndex := armIndex;
        }
        lastArmIndex := armIndex;
      } else {
        lastArmIndex := -1;
        lastPressedButtonIndex := -1;
      }
    }

    /**
      `updateLeftHandState`: picks the direction by `HandChoice`, leaves the memory
      equal to it, and returns its pose.
     */
    method UpdateLeftHandState(current: DirectionalStates) returns (leftState: int)
      modifies this
      ensures lastPressedDirectional == HandChoice(current, old(lastPressedDirectional))
      ensures leftState == HandPose(lastPressedDirectional)
      ensures previousButtonStates == old(previousButtonStates)
      ensures previousDirectionalStates == old(previousDirectionalStates)
      ensures lastPressedButtonIndex == old(lastPressedButtonIndex) && lastArmIndex == old(lastArmIndex)
    {
      leftState := 0;
      if current.AnyActive() {
        var selected := FirstActive(current).value;
        if lastPressedDirectional.Some? && current.Active(lastPressedDirectional.value) {
          selected := lastPressedDirectional.value;
        } else {
          lastPressedDirectional := Some(selected);
        }
        leftState := HandPose(Some(selected));
      } else {
        lastPressedDirectional := None;
      }
    }

    /**
      The decisions of one frame: actions, then directionals, then the arm, then the
      hand. The arm shows a pressed action (or -1 exactly when none is pressed), and
      the hand an active directional (or 0 exactly when none is active).
     */
    method UpdateButtonOverlays(m: Mapping, snap: Snapshot) returns (v: VisualState)
      modifies this
      ensures v.actions == ActionStates(m, snap)
      ensures var st := ReadDirectionals(m, snap);
        v.x == DirectionX(st) && v.y == DirectionY(st)
      ensures -1 <= v.arm < ActionCount && 0 <= v.hand <= 4
      ensures v.arm == -1 <==> forall j :: 0 <= j < ActionCount ==> !v.actions[j]
      ensures v.arm != -1 ==> v.actions[v.arm]
      ensures v.hand == 0 <==> !ReadDirectionals(m, snap).AnyActive()
      ensures v.arm == DistArm(old(previousButtonStates), old(lastPressedButtonIndex), v.actions)
      ensures v.hand == DistHand(old(previousDirectionalStates), old(lastPressedDirectional), ReadDirectionals(m, snap))
      ensures previousButtonStates == v.actions
      ensures previousDirectionalStates == ReadDirectionals(m, snap)
      ensures lastPressedButtonIndex == v.arm && lastArmIndex == v.arm
      ensures lastPressedDirectional ==
                HandChoice(ReadDirectionals(m, snap),
                  RememberDirection(old(previousDirectionalStates), ReadDirectionals(m, snap), old(lastPressedDirectional)))
      ensures lastPressedDirectional.Some? ==> ReadDirectionals(m, snap).Active(lastPressedDirectional.value)
      ensures v.hand == HandPose(lastPressedDirectional)
    {
      var pressedButtons, currentButtonStates := ProcessActionButtons(m, snap);
      var current, x, y := ProcessDirectionals(m, snap);
      var armIndex := UpdateRightArmState(pressedButtons);
      var leftState := UpdateLeftHandState(current);
      v := VisualState(currentButtonStates, x, y, leftState, armIndex);
    }
  }

  // ---------------------------------------------------------------------------
  // Stickiness

  /**
    A chord favours the newest press: when some action button rose this frame, the
    arm shows the highest such button, whatever was remembered before.
   */
  lemma NewestPressWins(prev: seq<bool>, cur: seq<bool>, remembered: int)
    requires |cur| == ActionCount
    requires HighestRisingBelow(prev, cur, ActionCount).Some?
    ensures var i := HighestRisingBelow(prev, cur, ActionCount).value;
      ArmChoice(PressedBelow(cur, ActionCount), Remember(HighestRisingBelow(prev, cur, ActionCount), remembered)) == i
  {
  }

  /**
    Releasing the remembered button while others stay held falls back to the
    highest-numbered button still held.
   */
  lemma ReleaseFallsBackToHighest(prev: seq<bool>, cur: seq<bool>, remembered: int, h: nat)
    requires |cur| == ActionCount
    requires HighestRisingBelow(prev, cur, ActionCount).None?
    requires 0 <= remembered < ActionCount && !cur[remembered]
    requires h < ActionCount && cur[h] && forall j :: h < j < ActionCount ==> !cur[j]
    ensures ArmChoice(PressedBelow(cur, ActionCount), Remember(HighestRisingBelow(prev, cur, ActionCount), remembered)) == h
  {
    var pressed := PressedBelow(cur, ActionCount);
    assert h in pressed;
  }

  /**
    A held chord keeps its arm: with no new press this frame, a remembered button
    that is still held stays on screen.
   */
  lemma HeldChordKeepsArm(prev: seq<bool>, cur: seq<bool>, remembered: nat)
    requires |cur| == ActionCount
    requires HighestRisingBelow(prev, cur, ActionCount).None?
    requires remembered < ActionCount && cur[remembered]
    ensures ArmChoice(PressedBelow(cur, ActionCount), Remember(HighestRisingBelow(prev, cur, ActionCount), remembered)) == remembered
  {
  }
}

/**
  The decision part of `updateButtonOverlays` in the older, stateless copy: every
  frame is computed from the mapping and the snapshot alone. The hand pose is read
  off (x, y) and the arm is the lowest-numbered pressed action button.
 */
module RootOverlay {
  import opened Gamepad
  import opened Visual
  import opened ButtonMap

  /**
    The left-hand pose: one pose for each single direction, and the neutral pose for
    no direction and for every diagonal.
   */
  function LeftState(x: int, y: int): (r: int)
    ensures 0 <= r <= 4
    ensures r == 1 <==> x == -1 && y == 0
    ensures r == 2 <==> x == 0 && y == -1
    ensures r == 3 <==> x == 1 && y == 0
    ensures r == 4 <==> x == 0 && y == 1
  {
    if x == -1 && y == 0 then 1
    else if x == 0 && y == -1 then 2
    else if x == 1 && y == 0 then 3
    else if x == 0 && y == 1 then 4
    else 0
  }

  /** The arm loop from action `from` on: the first pressed index, or -1 if there is none. */
  function FirstPressedFrom(actions: seq<bool>, from: nat): (r: int)
    requires from <= |actions|
    decreases |actions| - from
    ensures r == -1 || (from <= r < |actions| && actions[r])
    ensures r == -1 <==> forall j :: from <= j < |actions| ==> !actions[j]
    ensures r != -1 ==> forall j :: from <= j < r ==> !actions[j]
  {
    if from == |actions| then -1
    else if actions[from] then from
    else FirstPressedFrom(actions, from + 1)
  }

  /** One frame of the stateless reducer. */
  function RootFrame(m: Mapping, snap: Snapshot): (v: VisualState)
    ensures v.actions == ActionStates(m, snap)
    ensures -1 <= v.x <= 1 && -1 <= v.y <= 1 && 0 <= v.hand <= 4 && -1 <= v.arm < ActionCount
    ensures var st := ReadDirectionals(m, snap); v.x == DirectionX(st) && v.y == DirectionY(st)
    ensures v.hand == LeftState(v.x, v.y)
    ensures v.arm == -1 <==> forall j :: 0 <= j < ActionCount ==> !v.actions[j]
    ensures v.arm != -1 ==> v.actions[v.arm] && forall j :: 0 <= j < v.arm ==> !v.actions[j]
  {
    var actions := ActionStates(m, snap);
    var st := ReadDirectionals(m, snap);
    var x, y := DirectionX(st), DirectionY(st);
    VisualState(actions, x, y, LeftState(x, y), FirstPressedFrom(actions, 0))
  }

  /** The arm loop itself: scans the action roles in order and stops at the first pressed one. */
  method ArmLoop(m: Mapping, snap: Snapshot) returns (armIndex: int)
    ensures armIndex == RootFrame(m, snap).arm
  {
    ghost var actions := ActionStates(m, snap);
    armIndex := -1;
    var i := 1;
    while i <= ActionCount
      invariant 1 <= i <= ActionCount + 1
      invariant FirstPressedFrom(actions, 0) == FirstPressedFrom(actions, i - 1)
      invariant armIndex == -1
    {
      var pressed := false;
      match Lookup(m, ActionKey(i)) {
        case Some(Axis(a, _)) =>
          pressed := a < |snap.axes| && snap.axes[a] > AxisThreshold;
        case Some(Button(b)) =>
          pressed := b < |snap.buttons| && ButtonPressed(Some(snap.buttons[b]));
        case None =>
      }
      if pressed {
        armIndex := i - 1;
        break;
      }
      i := i + 1;
    }
  }

  /** Holding exactly one directional shows that direction's pose; holding none, the neutral one. */
  lemma SingleDirectionPose(m: Mapping, snap: Snapshot)
    ensures var st := ReadDirectionals(m, snap);
      var hand := RootFrame(m, snap).hand;
      && (st == DirectionalStates(true, false, false, false) ==> hand == 1)
      && (st == DirectionalStates(false, false, false, true) ==> hand == 2)
      && (st == DirectionalStates(false, true, false, false) ==> hand == 3)
      && (st == DirectionalStates(false, false, true, false) ==> hand == 4)
      && (!st.AnyActive() ==> hand == 0)
  {
  }

  /** Two opposite directionals held together read as the one checked last. */
  lemma OppositeDirectionsResolve(m: Mapping, snap: Snapshot)
    ensures var st := ReadDirectionals(m, snap);
      && (st.left && st.right ==> RootFrame(m, snap).x == 1)
      && (st.up && st.down ==> RootFrame(m, snap).y == -1)
  {
  }
}

/**
  What both copies of the visualisation compute the same way from the mapping and
  one snapshot: which of the eight action buttons are pressed, which of the four
  directionals are active, and the resulting horizontal and vertical direction.
 */
module Visual {
  import opened Gamepad
  import opened ButtonMap

  const ActionCount: nat := 8

  /** The render state of one frame: x/y in -1..1, hand pose 0..4, arm -1..7. */
  datatype VisualState = VisualState(actions: seq<bool>, x: int, y: int, hand: int, arm: int)

  /** Pressed state of action buttons 1..8, at indices 0..7. */
  function ActionStates(m: Mapping, snap: Snapshot): seq<bool>
  {
    seq(ActionCount, i requires 0 <= i < ActionCount => InputActive(m, snap, ActionKey(i + 1)))
  }

  datatype Direction = Left | Right | Up | Down

  /** The four directional flags, in the order the source lists them. */
  datatype DirectionalStates = DirectionalStates(left: bool, right: bool, up: bool, down: bool)
  {
    predicate Active(d: Direction)
    {
      match d
      case Left => left
      case Right => right
      case Up => up
      case Down => down
    }

    predicate AnyActive()
    {
      left || right || up || down
    }
  }

  /**
    The button-mode directional read: each role through `directionalPressed`, with
    left/right on axis 0 (rounding to -1/+1) and up/down on axis 1 (+1/-1).
   */
  function ReadDirectionals(m: Mapping, snap: Snapshot): DirectionalStates
  {
    DirectionalStates(
      DirectionalPressed(m, snap, VbLeft, AxisIndexX, -1),
      DirectionalPressed(m, snap, VbRight, AxisIndexX, 1),
      DirectionalPressed(m, snap, VbUp, AxisIndexY, 1),
      DirectionalPressed(m, snap, VbDown, AxisIndexY, -1))
  }

  /** Horizontal direction: right overrides left, since it is assigned last. */
  function DirectionX(st: DirectionalStates): (x: int)
    ensures x == 1 <==> st.right
    ensures x == -1 <==> st.left && !st.right
    ensures x == 0 <==> !st.left && !st.right
  {
    var x := if st.left then -1 else 0;
    if st.right then 1 else x
  }

  /** Vertical direction: up is +1, and down overrides it with -1. */
  function DirectionY(st: DirectionalStates): (y: int)
    ensures y == -1 <==> st.down
    ensures y == 1 <==> st.up && !st.down
    ensures y == 0 <==> !st.up && !st.down
  {
    var y := if st.up then 1 else 0;
    if st.down then -1 else y
  }
}

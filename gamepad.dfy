/**
  The raw gamepad vocabulary shared by both copies of the controller:
  one polled snapshot, the physical inputs a logical role can be bound to,
  the mapping from role names to physical inputs, and the small "is it
  pressed" predicates that every other module builds on.
 */
module Gamepad {

  datatype Option<T> = None | Some(value: T)

  /** One element of `gp.buttons`: a GamepadButton object, or a bare analog number. */
  datatype ButtonValue = Pad(pressed: bool) | Level(value: real)

  /** One polled gamepad: its buttons and its axis values, by index. */
  datatype Snapshot = Snapshot(buttons: seq<ButtonValue>, axes: seq<real>)

  /**
    A physical signal a logical role is bound to: a plain button index (stored as a
    number), or an axis with the polarity that counts as active (stored as
    `{axis, direction}`).
   */
  datatype PhysicalInput = Button(index: nat) | Axis(axis: nat, direction: int)

  /** The live mapping from role names (`vbLeft`, `vb1`, ...) to physical inputs. */
  type Mapping = map<string, PhysicalInput>

  /** Activation threshold for an axis bound to an action, and the release dead zone. */
  const AxisThreshold: real := 0.5
  const AxisDeadzone: real := 0.2

  /** Fixed axis configuration of the directional check: `nEjeX` and `nEjeY`. */
  const AxisIndexX: nat := 0
  const AxisIndexY: nat := 1

  /** `gp.buttons[i]`, where an index past the end reads as undefined. */
  function ButtonAt(snap: Snapshot, i: int): Option<ButtonValue>
  {
    if 0 <= i < |snap.buttons| then Some(snap.buttons[i]) else None
  }

  /** `gp.axes[i]`, where an index past the end reads as undefined. */
  function AxisAt(snap: Snapshot, i: int): Option<real>
  {
    if 0 <= i < |snap.axes| then Some(snap.axes[i]) else None
  }

  /**
    `buttonPressed`: an object is pressed when its `pressed` flag is set, a number
    when it is exactly 1.0; an undefined entry is never pressed.
   */
  predicate ButtonPressed(b: Option<ButtonValue>)
  {
    match b
    case None => false
    case Some(Pad(p)) => p
    case Some(Level(v)) => v == 1.0
  }

  /**
    The `pressed` property read directly, as calibration does: a bare number has no
    such property, so it reads as undefined, which is falsy.
   */
  predicate PressedFlag(b: ButtonValue)
  {
    b.Pad? && b.pressed
  }

  /** `gp.buttons.map(b => b.pressed)`, with undefined recorded as false. */
  function PressedFlags(snap: Snapshot): seq<bool>
  {
    seq(|snap.buttons|, i requires 0 <= i < |snap.buttons| => PressedFlag(snap.buttons[i]))
  }

  /** JavaScript's `Math.round`: halves round towards positive infinity. */
  function JsRound(v: real): (r: int)
    ensures r as real - 0.5 <= v < r as real + 0.5
  {
    (v + 0.5).Floor
  }

  /** `buttonMapping[key]`, where a missing key reads as undefined. */
  function Lookup(m: Mapping, key: string): Option<PhysicalInput>
  {
    if key in m then Some(m[key]) else None
  }

  /**
    Whether the role `key` is active in an action-button sense: a bound axis is active
    when its value exists and exceeds 0.5 (its direction is not consulted); a bound
    button when `buttonPressed` holds of it; an unbound role never.
   */
  predicate InputActive(m: Mapping, snap: Snapshot, key: string)
  {
    match Lookup(m, key)
    case None => false
    case Some(Axis(a, _)) => a < |snap.axes| && snap.axes[a] > AxisThreshold
    case Some(Button(i)) => ButtonPressed(ButtonAt(snap, i))
  }

  /**
    `directionalPressed`: the role's bound button is pressed, or the configured axis
    rounds to the expected value. An axis-bound role contributes only through the
    configured axis.
   */
  predicate DirectionalPressed(m: Mapping, snap: Snapshot, key: string, axisIndex: nat, axisValue: int)
  {
    (match Lookup(m, key)
     case Some(Button(i)) => ButtonPressed(ButtonAt(snap, i))
     case _ => false)
    || (axisIndex < |snap.axes| && JsRound(snap.axes[axisIndex]) == axisValue)
  }

  /** `validateGamepad`: at least four buttons and two axes. */
  const MinButtons: nat := 4
  const MinAxes: nat := 2

  predicate ValidateGamepad(snap: Snapshot)
  {
    |snap.buttons| >= MinButtons && |snap.axes| >= MinAxes
  }

  /**
    Calibration reads the `pressed` flag directly and the reducers go through
    `buttonPressed`: whatever calibration sees held the reducers see held too, and the
    only value the reducers count that calibration cannot is a bare level of 1.0.
   */
  lemma ButtonPressedVersusFlag(b: ButtonValue)
    ensures PressedFlag(b) ==> ButtonPressed(Some(b))
    ensures ButtonPressed(Some(b)) && !PressedFlag(b) <==> b == Level(1.0)
  {
  }

  /**
    Without a signal on the configured axis, a directional is pressed exactly when its
    role is bound to a button that `buttonPressed` holds of; a role bound to an axis
    never counts on its own.
   */
  lemma DirectionalWithoutAxisSignal(m: Mapping, snap: Snapshot, key: string, axisIndex: nat, axisValue: int)
    requires axisIndex >= |snap.axes| || JsRound(snap.axes[axisIndex]) != axisValue
    ensures DirectionalPressed(m, snap, key, axisIndex, axisValue)
      <==> key in m && m[key].Button? && ButtonPressed(ButtonAt(snap, m[key].index))
    ensures key in m && m[key].Axis? ==> !DirectionalPressed(m, snap, key, axisIndex, axisValue)
  {
  }

  /**
    The axis half of `directionalPressed`: an axis value reads as -1 on [-1.5, -0.5),
    as 1 on [0.5, 1.5), and as neither on the dead band [-0.5, 0.5) around rest.
   */
  lemma DirectionalAxisBands(m: Mapping, snap: Snapshot, key: string, axisIndex: nat)
    requires axisIndex < |snap.axes|
    ensures -1.5 <= snap.axes[axisIndex] < -0.5 ==> DirectionalPressed(m, snap, key, axisIndex, -1)
    ensures 0.5 <= snap.axes[axisIndex] < 1.5 ==> DirectionalPressed(m, snap, key, axisIndex, 1)
    ensures -0.5 <= snap.axes[axisIndex] < 0.5 ==>
      (DirectionalPressed(m, snap, key, axisIndex, -1) <==> DirectionalPressed(m, snap, key, axisIndex, 1))
  {
    var r := JsRound(snap.axes[axisIndex]);
    if -1.5 <= snap.axes[axisIndex] < -0.5 {
      assert r == -1;
    }
    if 0.5 <= snap.axes[axisIndex] < 1.5 {
      assert r == 1;
    }
    if -0.5 <= snap.axes[axisIndex] < 0.5 {
      assert r == 0;
    }
  }

  /**
    An action role is active through its binding only: a button binding exactly when
    that button is pressed, an axis binding exactly when the axis exceeds 0.5 whichever
    polarity was recorded, and an unbound role never.
   */
  lemma InputActiveByBinding(m: Mapping, snap: Snapshot, key: string)
    ensures key !in m ==> !InputActive(m, snap, key)
    ensures key in m && m[key].Button? ==>
      (InputActive(m, snap, key) <==> m[key].index < |snap.buttons| && ButtonPressed(Some(snap.buttons[m[key].index])))
    ensures key in m && m[key].Axis? ==>
      (InputActive(m, snap, key) <==> m[key].axis < |snap.axes| && snap.axes[m[key].axis] > AxisThreshold)
    ensures key in m && m[key].Axis? ==>
      forall d :: InputActive(m, snap, key) == InputActive(m[key := Axis(m[key].axis, d)], snap, key)
  {
  }
}

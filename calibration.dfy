/**
  The calibration state machine. Each tick takes one snapshot and either waits for
  the previously bound input to be released, binds the first fresh button press
  (or, failing that, the first axis crossing 0.5) to the current step's role, or
  only records the snapshot for edge detection on the next tick.

  The session is specified as a value (`Session`, `Next`), and `Calibrator` is the
  object whose fields the source updates in place; its `Tick` is proved to follow
  `Next`. The two copies of the controller differ only in how an undefined
  previous or resting axis value is read; `Build` selects between them.
 */
module Calibration {
  import opened Gamepad
  import opened ButtonMap

  /** The older copy at the repository root, or the hardened copy under `dist/`. */
  datatype Build = Root | Dist

  /** The roles in calibration order: directionals, then the top row 5..8, then 1..4. */
  const Steps: seq<string> := [VbLeft, VbDown, VbRight, VbUp,
    ActionKey(5), ActionKey(6), ActionKey(7), ActionKey(8),
    ActionKey(1), ActionKey(2), ActionKey(3), ActionKey(4)]

  const StepCount: nat := 12

  lemma StepsDistinct()
    ensures |Steps| == StepCount
    ensures forall i, j :: 0 <= i < j < |Steps| ==> Steps[i] != Steps[j]
  {
    forall n, n' | 1 <= n <= 8 && 1 <= n' <= 8 ensures ActionKey(n) == ActionKey(n') <==> n == n' {
      ActionKeysDistinct(n, n');
    }
    forall n | 1 <= n <= 8 ensures ActionKey(n) !in {VbLeft, VbDown, VbRight, VbUp} {
      ActionKeysDistinct(n, n);
    }
  }

  /** The transient calibration state: the fields of `state` that calibration uses. */
  datatype Session = Session(
    step: nat,                       // currentCalibrationStep
    mappings: Mapping,               // calibrationMappings
    waiting: bool,                   // waitingForRelease
    lastInput: Option<PhysicalInput>, // lastCalibrationInput
    lastButtons: seq<bool>,          // lastCalibrationButtons
    lastAxes: seq<real>,             // lastCalibrationAxes
    resting: seq<real>)              // restingCalibrationAxes

  /** The roles of the steps before `n`. */
  function StepKeysBelow(n: nat): set<string>
    requires n <= StepCount
  {
    set j | 0 <= j < n :: Steps[j]
  }

  /**
    What holds of every session calibration produces: exactly the roles of the
    steps already taken are bound, and an axis is only ever bound with direction 1.
   */
  ghost predicate WellFormed(s: Session)
  {
    && s.step <= StepCount
    && s.mappings.Keys == StepKeysBelow(s.step)
    && forall k :: k in s.mappings && s.mappings[k].Axis? ==> s.mappings[k].direction == 1
  }

  // ---------------------------------------------------------------------------
  // Release check

  /**
    The resting value of axis `i`. The dist copy reads an undefined entry as 0; the
    root copy leaves it undefined, and any comparison with it then fails.
   */
  function RestingValue(build: Build, resting: seq<real>, i: nat): (r: Option<real>)
    ensures i < |resting| ==> r == Some(resting[i])
    ensures r.None? <==> (build.Root? && i >= |resting|)
    ensures build.Dist? && i >= |resting| ==> r == Some(0.0)
  {
    if i < |resting| then Some(resting[i])
    else if build.Dist? then Some(0.0)
    else None
  }

  function Abs(v: real): real { if v < 0.0 then -v else v }

  /**
    Whether the input bound on the previous step has been let go. A button is
    released unless it exists and is pressed; an axis unless it is more than 0.2
    away from its resting value (an undefined value compares false, so it counts
    as released). With no bound input there is nothing to wait for.
   */
  predicate Released(build: Build, input: Option<PhysicalInput>, snap: Snapshot, resting: seq<real>)
  {
    match input
    case None => true
    case Some(Button(i)) => !(i < |snap.buttons| && PressedFlag(snap.buttons[i]))
    case Some(Axis(a, _)) =>
      if a < |snap.axes| then
        match RestingValue(build, resting, a)
        case None => true
        case Some(r) => Abs(snap.axes[a] - r) <= AxisDeadzone
      else true
  }

  /**
    What releasing means for each kind of binding: a button once its flag drops (or
    it disappears); an axis once it is back within 0.2 of its resting value, with 0 as
    that value past the resting snapshot in the dist copy, and at once past it in the
    root copy; an axis that is no longer reported counts as released.
   */
  lemma ReleasedCases(build: Build, snap: Snapshot, resting: seq<real>, i: nat, a: nat, d: int)
    ensures Released(build, None, snap, resting)
    ensures Released(build, Some(Button(i)), snap, resting)
      <==> i >= |snap.buttons| || !PressedFlag(snap.buttons[i])
    ensures a < |snap.axes| && a < |resting| ==>
      (Released(build, Some(Axis(a, d)), snap, resting) <==> Abs(snap.axes[a] - resting[a]) <= AxisDeadzone)
    ensures a < |snap.axes| && a >= |resting| && build.Dist? ==>
      (Released(build, Some(Axis(a, d)), snap, resting) <==> Abs(snap.axes[a]) <= AxisDeadzone)
    ensures a >= |resting| && build.Root? ==> Released(build, Some(Axis(a, d)), snap, resting)
    ensures a >= |snap.axes| ==> Released(build, Some(Axis(a, d)), snap, resting)
    ensures snap.axes == resting ==> Released(build, Some(Axis(a, d)), snap, resting)
  {
    if a < |snap.axes| && a >= |resting| && build.Dist? {
      assert snap.axes[a] - 0.0 == snap.axes[a];
    }
  }

  // ---------------------------------------------------------------------------
  // Edge detection

  /** Button `i` is pressed now and was not pressed (or not known) on the previous tick. */
  predicate IsButtonEdge(snap: Snapshot, last: seq<bool>, i: nat)
    requires i < |snap.buttons|
  {
    PressedFlag(snap.buttons[i]) && !(i < |last| && last[i])
  }

  /** The lowest button edge at index `from` or above. */
  function FirstButtonEdgeFrom(snap: Snapshot, last: seq<bool>, from: nat): (r: Option<nat>)
    requires from <= |snap.buttons|
    decreases |snap.buttons| - from
    ensures r.Some? ==> from <= r.value < |snap.buttons| && IsButtonEdge(snap, last, r.value)
    ensures r.Some? ==> forall j :: from <= j < r.value ==> !IsButtonEdge(snap, last, j)
    ensures r.None? ==> forall j :: from <= j < |snap.buttons| ==> !IsButtonEdge(snap, last, j)
  {
    if from == |snap.buttons| then None
    else if IsButtonEdge(snap, last, from) then Some(from)
    else FirstButtonEdgeFrom(snap, last, from + 1)
  }

  /** The lowest-indexed button with a rising edge, if any. */
  function FirstButtonEdge(snap: Snapshot, last: seq<bool>): Option<nat>
  {
    FirstButtonEdgeFrom(snap, last, 0)
  }

  /**
    The previous value of axis `i`. The dist copy reads an undefined entry as 0. The
    root copy uses 0 for every axis only when no previous values were recorded at
    all; otherwise a missing entry stays undefined.
   */
  function PreviousAxis(build: Build, last: seq<real>, i: nat): (r: Option<real>)
    ensures i < |last| ==> r == Some(last[i])
    ensures r.None? <==> (build.Root? && 0 < |last| <= i)
    ensures i >= |last| && (build.Dist? || |last| == 0) ==> r == Some(0.0)
  {
    if i < |last| then Some(last[i])
    else if build.Dist? || |last| == 0 then Some(0.0)
    else None
  }

  /** Axis `i` went from at most 0.5 on the previous tick to above 0.5 now. */
  predicate IsAxisCrossing(build: Build, axes: seq<real>, last: seq<real>, i: nat)
    requires i < |axes|
  {
    var prev := PreviousAxis(build, last, i);
    prev.Some? && prev.value <= AxisThreshold && axes[i] > AxisThreshold
  }

  function FirstAxisCrossingFrom(build: Build, axes: seq<real>, last: seq<real>, from: nat): (r: Option<nat>)
    requires from <= |axes|
    decreases |axes| - from
    ensures r.Some? ==> from <= r.value < |axes| && IsAxisCrossing(build, axes, last, r.value)
    ensures r.Some? ==> forall j :: from <= j < r.value ==> !IsAxisCrossing(build, axes, last, j)
    ensures r.None? ==> forall j :: from <= j < |axes| ==> !IsAxisCrossing(build, axes, last, j)
  {
    if from == |axes| then None
    else if IsAxisCrossing(build, axes, last, from) then Some(from)
    else FirstAxisCrossingFrom(build, axes, last, from + 1)
  }

  /** The lowest-indexed axis crossing 0.5 upwards, if any. */
  function FirstAxisCrossing(build: Build, axes: seq<real>, last: seq<real>): Option<nat>
  {
    FirstAxisCrossingFrom(build, axes, last, 0)
  }

  // ---------------------------------------------------------------------------
  // The transition

  /** Bind `p` to the current step's role and start waiting for its release. */
  function Accept(s: Session, p: PhysicalInput, snap: Snapshot): Session
    requires s.step < StepCount
  {
    s.(step := s.step + 1,
       mappings := s.mappings[Steps[s.step] := p],
       waiting := true,
       lastInput := Some(p),
       lastButtons := PressedFlags(snap),
       lastAxes := snap.axes,
       resting := snap.axes)
  }

  /** The input a non-waiting tick binds: a button edge first, else an axis crossing. */
  function Candidate(build: Build, s: Session, snap: Snapshot): (r: Option<PhysicalInput>)
    ensures FirstButtonEdge(snap, s.lastButtons).Some? ==>
              r == Some(Button(FirstButtonEdge(snap, s.lastButtons).value))
    ensures FirstButtonEdge(snap, s.lastButtons).None? && FirstAxisCrossing(build, snap.axes, s.lastAxes).Some? ==>
              r == Some(Axis(FirstAxisCrossing(build, snap.axes, s.lastAxes).value, 1))
    ensures r.None? <==>
              FirstButtonEdge(snap, s.lastButtons).None? && FirstAxisCrossing(build, snap.axes, s.lastAxes).None?
  {
    match FirstButtonEdge(snap, s.lastButtons)
    case Some(i) => Some(Button(i))
    case None =>
      match FirstAxisCrossing(build, snap.axes, s.lastAxes)
      case Some(a) => Some(Axis(a, 1))
      case None => None
  }

  /** One tick of `handleCalibration` while calibration is in progress. */
  function Next(build: Build, s: Session, snap: Snapshot): (r: Session)
    requires s.step < StepCount
    ensures r.step == s.step || r.step == s.step + 1
  {
    if s.waiting then
      if Released(build, s.lastInput, snap, s.resting) then
        s.(waiting := false, lastInput := None, resting := snap.axes)
      else s
    else
      match Candidate(build, s, snap)
      case Some(p) => Accept(s, p, snap)
      case None => s.(lastButtons := PressedFlags(snap), lastAxes := snap.axes)
  }

  /** Every tick keeps the session well formed: bound roles are exactly the steps taken. */
  lemma NextPreservesWellFormed(build: Build, s: Session, snap: Snapshot)
    requires WellFormed(s) && s.step < StepCount
    ensures WellFormed(Next(build, s, snap))
  {
    var r := Next(build, s, snap);
    if r.step == s.step + 1 {
      assert r.mappings == s.mappings[Steps[s.step] := r.mappings[Steps[s.step]]];
      assert StepKeysBelow(s.step + 1) == StepKeysBelow(s.step) + {Steps[s.step]};
    }
  }

  /** `startCalibration`: step 0, nothing bound, axis baselines from the pad if one is present. */
  function Start(s: Session, gp: Option<Snapshot>): (r: Session)
    ensures r.step == 0 && r.mappings == map[]
    ensures r.lastAxes == r.resting == (if gp.Some? then gp.value.axes else [])
    ensures r.waiting == s.waiting && r.lastInput == s.lastInput && r.lastButtons == s.lastButtons
  {
    var axes := if gp.Some? then gp.value.axes else [];
    s.(step := 0, mappings := map[], lastAxes := axes, resting := axes)
  }

  // ---------------------------------------------------------------------------
  // The object

  /**
    The calibration fields of `state`, the `isCalibrating` flag, and the live
    mapping that a finished calibration is merged into.
   */
  class Calibrator {
    const build: Build
    const target: ButtonMapping
    var calibrating: bool
    var step: nat
    var mappings: Mapping
    var waiting: bool
    var lastInput: Option<PhysicalInput>
    var lastButtons: seq<bool>
    var lastAxes: seq<real>
    var resting: seq<real>

    ghost predicate Valid()
      reads this
    {
      step <= StepCount && (calibrating ==> step < StepCount) && WellFormed(State())
    }

    /** The session value the fields currently hold. */
    function State(): Session
      reads this
    {
      Session(step, mappings, waiting, lastInput, lastButtons, lastAxes, resting)
    }

    /** The initial values of the module-level `state` object. */
    constructor (build: Build, target: ButtonMapping)
      ensures Valid() && !calibrating
      ensures this.build == build && this.target == target
      ensures State() == Session(0, map[], false, None, [], [], [])
    {
      this.build := build;
      this.target := target;
      calibrating := false;
      step := 0;
      mappings := map[];
      waiting := false;
      lastInput := None;
      lastButtons := [];
      lastAxes := [];
      resting := [];
    }

    /** `startCalibration`. */
    method StartCalibration(gp: Option<Snapshot>)
      modifies this
      ensures Valid() && calibrating
      ensures State() == Start(old(State()), gp)
    {
      calibrating := true;
      step := 0;
      mappings := map[];
      var axes := if gp.Some? then gp.value.axes else [];
      lastAxes := axes;
      resting := axes;
    }

    /** `skipCalibration`: stop without touching the live mapping. */
    method SkipCalibration()
      requires Valid()
      modifies this
      ensures Valid() && !calibrating && State() == old(State())
    {
      calibrating := false;
    }

    /**
      `handleCalibration` on one snapshot, followed by the completion check of
      `updateCalibrationUI`: once the last step is bound, the collected mappings
      are merged into the live mapping, saved, and calibration stops.
     */
    /**
      The completion check of `updateCalibrationUI`: once every step is bound, the
      collected mappings are merged into the live mapping and stored, and
      calibration stops; before that nothing changes.
     */
    method UpdateCalibrationUI()
      requires step <= StepCount
      modifies this, target
      ensures State() == old(State())
      ensures calibrating == (old(calibrating) && step < StepCount)
      ensures step == StepCount ==>
                target.entries == old(target.entries) + mappings && target.stored == Parsed(mappings)
      ensures step < StepCount ==> target.entries == old(target.entries) && target.stored == old(target.stored)
    {
      if step >= StepCount {
        target.FinishCalibration(mappings);
        calibrating := false;
      }
    }

    /**
      The release wait at the top of `handleCalibration`: once the last bound input is
      released the wait ends and the resting axes are re-read; either way the tick
      binds nothing.
     */
    method AwaitRelease(snap: Snapshot)
      requires step < StepCount && waiting
      modifies this
      ensures State() == Next(build, old(State()), snap)
      ensures calibrating == old(calibrating)
    {
      if Released(build, lastInput, snap, resting) {
        waiting := false;
        lastInput := None;
        resting := snap.axes;
      }
    }

    method Tick(snap: Snapshot)
      requires Valid() && calibrating
      modifies this, target
      ensures Valid()
      ensures State() == Next(build, old(State()), snap)
      ensures calibrating <==> step < StepCount
      ensures step == StepCount ==>
                target.entries == old(target.entries) + mappings && target.stored == Parsed(mappings)
      ensures step < StepCount ==> target.entries == old(target.entries) && target.stored == old(target.stored)
      ensures !calibrating ==> StepKeysBelow(StepCount) <= target.entries.Keys
    {
      ghost var s0 := State();
      NextPreservesWellFormed(build, s0, snap);
      if waiting {
        AwaitRelease(snap);
        return;
      }
      var edge := ScanButtons(snap, lastButtons);
      var bound: Option<PhysicalInput> := None;
      if edge.Some? {
        bound := Some(Button(edge.value));
      } else {
        var crossing := ScanAxes(build, snap.axes, lastAxes);
        if crossing.Some? {
          bound := Some(Axis(crossing.value, 1));
        }
      }
      assert bound == Candidate(build, s0, snap);
      if bound.Some? {
        mappings := mappings[Steps[step] := bound.value];
        lastInput := bound;
        waiting := true;
        step := step + 1;
        UpdateCalibrationUI();
        lastButtons := PressedFlags(snap);
        lastAxes := snap.axes;
        resting := snap.axes;
      } else {
        lastButtons := PressedFlags(snap);
        lastAxes := snap.axes;
      }
    }
  }

  /** The button loop of `handleCalibration`: the lowest index with a rising edge. */
  method ScanButtons(snap: Snapshot, last: seq<bool>) returns (r: Option<nat>)
    ensures r == FirstButtonEdge(snap, last)
    ensures r.Some? ==> r.value < |snap.buttons| && PressedFlag(snap.buttons[r.value])
  {
    var i := 0;
    while i < |snap.buttons|
      invariant 0 <= i <= |snap.buttons|
      invariant FirstButtonEdgeFrom(snap, last, i) == FirstButtonEdge(snap, last)
    {
      if PressedFlag(snap.buttons[i]) && !(i < |last| && last[i]) {
        return Some(i);
      }
      i := i + 1;
    }
    return None;
  }

  /** The axis loop of `handleCalibration`: the lowest axis crossing 0.5 upwards. */
  method ScanAxes(build: Build, axes: seq<real>, last: seq<real>) returns (r: Option<nat>)
    ensures r == FirstAxisCrossing(build, axes, last)
    ensures r.Some? ==> r.value < |axes| && axes[r.value] > 0.5
  {
    for i := 0 to |axes|
      invariant FirstAxisCrossingFrom(build, axes, last, i) == FirstAxisCrossing(build, axes, last)
    {
      var prev := PreviousAxis(build, last, i);
      if prev.Some? && prev.value <= 0.5 && axes[i] > 0.5 {
        return Some(i);
      }
    }
    return None;
  }
}

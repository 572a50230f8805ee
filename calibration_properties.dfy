/**
  What the calibration transition guarantees, tick by tick and over whole runs:
  release gating, edge-triggered binding with buttons before axes, one role per
  accepted tick, a constant input never binding twice, and the scripted
  twelve-press session that binds every role.
 */
module CalibrationProperties {
  import opened Gamepad
  import opened ButtonMap
  import opened Calibration

  // ---------------------------------------------------------------------------
  // One tick

  /** A tick while waiting for release never advances the step or touches the mappings. */
  lemma WaitingTick(build: Build, s: Session, snap: Snapshot)
    requires s.step < StepCount && s.waiting
    ensures var r := Next(build, s, snap);
      && r.step == s.step && r.mappings == s.mappings
      && r.lastButtons == s.lastButtons && r.lastAxes == s.lastAxes
      && (r.waiting <==> !Released(build, s.lastInput, snap, s.resting))
      && (r.waiting ==> r == s)
      && (!r.waiting ==> r.lastInput == None && r.resting == snap.axes)
  {
  }

  /** A bound button holds the wait exactly while it exists and is pressed. */
  lemma ButtonHoldsWait(build: Build, s: Session, snap: Snapshot, i: nat)
    requires s.step < StepCount && s.waiting && s.lastInput == Some(Button(i))
    ensures Next(build, s, snap).waiting <==> (i < |snap.buttons| && PressedFlag(snap.buttons[i]))
  {
  }

  /**
    A bound axis holds the wait exactly while it is present and more than 0.2 away
    from its resting value (in the dist copy, a missing resting value is 0).
   */
  lemma AxisHoldsWait(build: Build, s: Session, snap: Snapshot, a: nat, d: int)
    requires s.step < StepCount && s.waiting && s.lastInput == Some(Axis(a, d))
    requires build == Dist || a < |s.resting|
    ensures var rest := if a < |s.resting| then s.resting[a] else 0.0;
      Next(build, s, snap).waiting <==> (a < |snap.axes| && Abs(snap.axes[a] - rest) > 0.2)
  {
  }

  /**
    An accepting tick binds exactly the current step's role, to the lowest button
    edge if there is one and otherwise to the lowest axis crossing with direction 1;
    it advances the step by one, starts waiting and rebases both axis baselines on
    the current snapshot.
   */
  lemma AcceptingTick(build: Build, s: Session, snap: Snapshot)
    requires s.step < StepCount
    requires Next(build, s, snap).step == s.step + 1
    ensures !s.waiting
    ensures var r := Next(build, s, snap);
      var key := Steps[s.step];
      && r.mappings.Keys == s.mappings.Keys + {key}
      && (forall k :: k in s.mappings && k != key ==> r.mappings[k] == s.mappings[k])
      && r.waiting && r.lastInput == Some(r.mappings[key])
      && r.lastButtons == PressedFlags(snap) && r.lastAxes == snap.axes && r.resting == snap.axes
      && match r.mappings[key]
         case Button(i) =>
           && i < |snap.buttons| && IsButtonEdge(snap, s.lastButtons, i)
           && forall j :: 0 <= j < i ==> !IsButtonEdge(snap, s.lastButtons, j)
         case Axis(a, d) =>
           && d == 1 && a < |snap.axes| && IsAxisCrossing(build, snap.axes, s.lastAxes, a)
           && (forall j :: 0 <= j < a ==> !IsAxisCrossing(build, snap.axes, s.lastAxes, j))
           && forall j :: 0 <= j < |snap.buttons| ==> !IsButtonEdge(snap, s.lastButtons, j)
  {
  }

  /** A tick that binds nothing only records the snapshot for the next tick's edge test. */
  lemma IdleTick(build: Build, s: Session, snap: Snapshot)
    requires s.step < StepCount && !s.waiting
    requires Next(build, s, snap).step == s.step
    ensures Next(build, s, snap) == s.(lastButtons := PressedFlags(snap), lastAxes := snap.axes)
    ensures forall j :: 0 <= j < |snap.buttons| ==> !IsButtonEdge(snap, s.lastButtons, j)
    ensures forall j :: 0 <= j < |snap.axes| ==> !IsAxisCrossing(build, snap.axes, s.lastAxes, j)
  {
  }

  /** After an axis is bound, the same held value already counts as released. */
  lemma HeldAxisReleasesAtOnce(build: Build, s: Session, snap: Snapshot, a: nat)
    requires s.step + 1 < StepCount
    requires Next(build, s, snap).step == s.step + 1
    requires Next(build, s, snap).mappings[Steps[s.step]] == Axis(a, 1)
    ensures !Next(build, Next(build, s, snap), snap).waiting
  {
    AcceptingTick(build, s, snap);
  }

  // ---------------------------------------------------------------------------
  // Runs of ticks

  /** Feed snapshots one per tick; once the last step is bound, calibration is over. */
  function Run(build: Build, s: Session, snaps: seq<Snapshot>): (r: Session)
    requires s.step <= StepCount
    ensures s.step <= r.step <= StepCount
    decreases |snaps|
  {
    if |snaps| == 0 || s.step == StepCount then s
    else Run(build, Next(build, s, snaps[0]), snaps[1..])
  }

  lemma {:induction false} RunPreservesWellFormed(build: Build, s: Session, snaps: seq<Snapshot>)
    requires WellFormed(s)
    ensures WellFormed(Run(build, s, snaps))
    decreases |snaps|
  {
    if |snaps| > 0 && s.step < StepCount {
      NextPreservesWellFormed(build, s, snaps[0]);
      RunPreservesWellFormed(build, Next(build, s, snaps[0]), snaps[1..]);
    }
  }

  function Repeat(snap: Snapshot, n: nat): (r: seq<Snapshot>)
    ensures |r| == n && forall i :: 0 <= i < n ==> r[i] == snap
  {
    seq(n, _ => snap)
  }

  /** The last tick already recorded this very snapshot. */
  predicate Settled(s: Session, snap: Snapshot)
  {
    s.lastButtons == PressedFlags(snap) && s.lastAxes == snap.axes
  }

  /** Against the snapshot it last recorded, a session finds no edge and no crossing. */
  lemma SettledHasNoCandidate(build: Build, s: Session, snap: Snapshot)
    requires Settled(s, snap)
    ensures Candidate(build, s, snap).None?
  {
  }

  /** Repeating the recorded snapshot never advances the step nor changes the mappings. */
  lemma {:induction false} SettledStaysPut(build: Build, s: Session, snap: Snapshot, n: nat)
    requires s.step <= StepCount && Settled(s, snap)
    ensures Run(build, s, Repeat(snap, n)).step == s.step
    ensures Run(build, s, Repeat(snap, n)).mappings == s.mappings
    decreases n
  {
    if n > 0 && s.step < StepCount {
      SettledHasNoCandidate(build, s, snap);
      var t := Next(build, s, snap);
      assert Settled(t, snap);
      assert Repeat(snap, n)[1..] == Repeat(snap, n - 1);
      SettledStaysPut(build, t, snap, n - 1);
    }
  }

  /**
    Edge triggering: however many ticks the same snapshot is held for, at most one
    step is bound, from any session (waiting or not).
   */
  lemma {:induction false} ConstantInputBindsAtMostOnce(build: Build, s: Session, snap: Snapshot, n: nat)
    requires s.step <= StepCount
    ensures Run(build, s, Repeat(snap, n)).step <= s.step + 1
    decreases n
  {
    if n > 0 && s.step < StepCount {
      var t := Next(build, s, snap);
      assert Repeat(snap, n)[1..] == Repeat(snap, n - 1);
      if t.step == s.step + 1 {
        assert Settled(t, snap);
        SettledStaysPut(build, t, snap, n - 1);
      } else {
        ConstantInputBindsAtMostOnce(build, t, snap, n - 1);
      }
    }
  }

  /**
    A fresh press held for `n >= 1` ticks binds exactly once, on the first tick, and
    the binding is never overwritten while it is held.
   */
  lemma HeldPressBindsOnce(build: Build, s: Session, snap: Snapshot, n: nat)
    requires s.step < StepCount && !s.waiting && n >= 1
    requires FirstButtonEdge(snap, s.lastButtons).Some?
    ensures var r := Run(build, s, Repeat(snap, n));
      && r.step == s.step + 1
      && r.mappings == s.mappings[Steps[s.step] := Button(FirstButtonEdge(snap, s.lastButtons).value)]
  {
    var t := Next(build, s, snap);
    assert Settled(t, snap);
    assert Repeat(snap, n)[1..] == Repeat(snap, n - 1);
    SettledStaysPut(build, t, snap, n - 1);
  }

  // ---------------------------------------------------------------------------
  // The scripted session: twelve presses, each followed by a release

  function Zeros(m: nat): (r: seq<real>)
    ensures |r| == m && forall i :: 0 <= i < m ==> r[i] == 0.0
  {
    seq(m, _ => 0.0)
  }

  /** `n` buttons of which only `b` is pressed, and `m` axes at rest. */
  function PressSnap(b: nat, n: nat, m: nat): Snapshot
  {
    Snapshot(seq(n, i => Pad(i == b)), Zeros(m))
  }

  /** `n` released buttons and `m` axes at rest. */
  function ReleaseSnap(n: nat, m: nat): Snapshot
  {
    Snapshot(seq(n, _ => Pad(false)), Zeros(m))
  }

  /** Press `bs[from]`, release, press `bs[from + 1]`, release, ... */
  function Script(bs: seq<nat>, from: nat, n: nat, m: nat): (r: seq<Snapshot>)
    decreases |bs| - from
  {
    if from >= |bs| then []
    else [PressSnap(bs[from], n, m), ReleaseSnap(n, m)] + Script(bs, from + 1, n, m)
  }

  /** The button sequence suits a scripted session: one per step, each consecutive pair distinct. */
  ghost predicate ScriptOk(bs: seq<nat>, n: nat)
  {
    && |bs| == StepCount
    && (forall k :: 0 <= k < |bs| ==> bs[k] < n)
    && forall k :: 0 <= k < |bs| - 1 ==> bs[k] != bs[k + 1]
  }

  lemma PressBindsItsButton(build: Build, s: Session, b: nat, n: nat, m: nat)
    requires s.step < StepCount && !s.waiting && b < n
    requires !(b < |s.lastButtons| && s.lastButtons[b])
    ensures Next(build, s, PressSnap(b, n, m)) == Accept(s, Button(b), PressSnap(b, n, m))
  {
    var p := PressSnap(b, n, m);
    assert IsButtonEdge(p, s.lastButtons, b);
    var e := FirstButtonEdge(p, s.lastButtons);
    assert e.Some? && IsButtonEdge(p, s.lastButtons, e.value);
  }

  /**
    One press of a fresh button followed by a full release binds the current step to
    that button and leaves the session ready for the next step, with no button but the
    pressed one recorded as held. (After the last step calibration is over and no
    release is read.)
   */
  lemma PressThenRelease(build: Build, s: Session, b: nat, n: nat, m: nat, rest: seq<Snapshot>) returns (t: Session)
    requires s.step + 1 < StepCount && !s.waiting && b < n
    requires !(b < |s.lastButtons| && s.lastButtons[b])
    ensures t == Next(build, Next(build, s, PressSnap(b, n, m)), ReleaseSnap(n, m))
    ensures Run(build, s, [PressSnap(b, n, m), ReleaseSnap(n, m)] + rest) == Run(build, t, rest)
    ensures
      && t.step == s.step + 1
      && t.mappings == s.mappings[Steps[s.step] := Button(b)]
      && !t.waiting
      && forall c: nat :: c != b ==> !(c < |t.lastButtons| && t.lastButtons[c])
  {
    var p, q := PressSnap(b, n, m), ReleaseSnap(n, m);
    PressBindsItsButton(build, s, b, n, m);
    var t1 := Next(build, s, p);
    assert Released(build, t1.lastInput, q, t1.resting);
    assert ([p, q] + rest)[1..] == [q] + rest;
    assert ([q] + rest)[1..] == rest;
    t := Next(build, t1, q);
    assert t.lastButtons == PressedFlags(p);
    forall c: nat | c != b && c < |t.lastButtons|
      ensures !t.lastButtons[c]
    {
      assert !PressedFlag(p.buttons[c]);
    }
  }

  /** The last press binds the last step, and calibration is then over. */
  lemma PressOnLastStep(build: Build, s: Session, b: nat, n: nat, m: nat, rest: seq<Snapshot>)
    requires s.step + 1 == StepCount && !s.waiting && b < n
    requires !(b < |s.lastButtons| && s.lastButtons[b])
    ensures var r := Run(build, s, [PressSnap(b, n, m), ReleaseSnap(n, m)] + rest);
      r.step == StepCount && r.mappings == s.mappings[Steps[s.step] := Button(b)]
  {
    PressBindsItsButton(build, s, b, n, m);
  }

  /**
    Binding step `j` and then steps `j + 1` onwards, without touching what was bound
    before, binds steps `j` onwards and keeps the earlier ones.
   */
  lemma BindingsCarryOver(before: Mapping, mid: Mapping, after: Mapping, bs: seq<nat>, j: nat)
    requires |bs| == StepCount && j < StepCount
    requires mid == before[Steps[j] := Button(bs[j])]
    requires forall k :: 0 <= k < j + 1 && Steps[k] in mid ==> Steps[k] in after && after[Steps[k]] == mid[Steps[k]]
    requires forall k :: j + 1 <= k < StepCount ==> Steps[k] in after && after[Steps[k]] == Button(bs[k])
    ensures forall k :: 0 <= k < j && Steps[k] in before ==> Steps[k] in after && after[Steps[k]] == before[Steps[k]]
    ensures forall k :: j <= k < StepCount ==> Steps[k] in after && after[Steps[k]] == Button(bs[k])
  {
    StepsDistinct();
  }

  /** One press/release pair of the script, from step `j` to step `j + 1`. */
  lemma ScriptStep(build: Build, s: Session, bs: seq<nat>, j: nat, n: nat, m: nat) returns (t: Session)
    requires ScriptOk(bs, n) && j + 1 < StepCount
    requires s.step == j && !s.waiting
    requires !(bs[j] < |s.lastButtons| && s.lastButtons[bs[j]])
    ensures t.step == j + 1 && !t.waiting
    ensures !(bs[j + 1] < |t.lastButtons| && t.lastButtons[bs[j + 1]])
    ensures t.mappings == s.mappings[Steps[j] := Button(bs[j])]
    ensures Run(build, s, Script(bs, j, n, m)) == Run(build, t, Script(bs, j + 1, n, m))
  {
    var rest := Script(bs, j + 1, n, m);
    assert Script(bs, j, n, m) == [PressSnap(bs[j], n, m), ReleaseSnap(n, m)] + rest;
    t := PressThenRelease(build, s, bs[j], n, m, rest);
    assert bs[j + 1] != bs[j];
  }

  /** The last press/release pair of the script binds the last step and ends calibration. */
  lemma ScriptLast(build: Build, s: Session, bs: seq<nat>, n: nat, m: nat)
    requires ScriptOk(bs, n)
    requires s.step == StepCount - 1 && !s.waiting
    requires !(bs[StepCount - 1] < |s.lastButtons| && s.lastButtons[bs[StepCount - 1]])
    ensures var r := Run(build, s, Script(bs, StepCount - 1, n, m));
      && r.step == StepCount
      && (forall k :: 0 <= k < StepCount - 1 && Steps[k] in s.mappings ==> Steps[k] in r.mappings && r.mappings[Steps[k]] == s.mappings[Steps[k]])
      && Steps[StepCount - 1] in r.mappings && r.mappings[Steps[StepCount - 1]] == Button(bs[StepCount - 1])
  {
    var j := StepCount - 1;
    var rest := Script(bs, j + 1, n, m);
    assert Script(bs, j, n, m) == [PressSnap(bs[j], n, m), ReleaseSnap(n, m)] + rest;
    PressOnLastStep(build, s, bs[j], n, m, rest);
    StepsDistinct();
  }

  lemma {:induction false} ScriptFrom(build: Build, s: Session, bs: seq<nat>, j: nat, n: nat, m: nat)
    requires ScriptOk(bs, n) && j <= StepCount
    requires s.step == j && !s.waiting
    requires j < StepCount ==> !(bs[j] < |s.lastButtons| && s.lastButtons[bs[j]])
    ensures var r := Run(build, s, Script(bs, j, n, m));
      && r.step == StepCount
      && (forall k :: 0 <= k < j && Steps[k] in s.mappings ==> Steps[k] in r.mappings && r.mappings[Steps[k]] == s.mappings[Steps[k]])
      && forall k :: j <= k < StepCount ==> Steps[k] in r.mappings && r.mappings[Steps[k]] == Button(bs[k])
    decreases StepCount - j
  {
    if j + 1 == StepCount {
      ScriptLast(build, s, bs, n, m);
    } else if j + 1 < StepCount {
      var t := ScriptStep(build, s, bs, j, n, m);
      ScriptFrom(build, t, bs, j + 1, n, m);
      BindingsCarryOver(s.mappings, t.mappings, Run(build, t, Script(bs, j + 1, n, m)).mappings, bs, j);
    }
  }

  /**
    The end-to-end scenario: from a fresh session, twelve press/release pairs on
    buttons that differ from one press to the next bind every role, in step order,
    to the pressed button, and then calibration is complete.
   */
  lemma ScriptedCalibration(build: Build, s: Session, bs: seq<nat>, n: nat, m: nat)
    requires ScriptOk(bs, n)
    requires s.step == 0 && s.mappings == map[] && !s.waiting
    requires !(bs[0] < |s.lastButtons| && s.lastButtons[bs[0]])
    ensures var r := Run(build, s, Script(bs, 0, n, m));
      && r.step == StepCount
      && r.mappings.Keys == StepKeysBelow(StepCount)
      && forall k :: 0 <= k < StepCount ==> r.mappings[Steps[k]] == Button(bs[k])
  {
    ScriptFrom(build, s, bs, 0, n, m);
    assert WellFormed(s);
    RunPreservesWellFormed(build, s, Script(bs, 0, n, m));
  }
}

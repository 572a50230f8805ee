/**
  The input-health gate of the hardened copy: `InputStateManager` counts
  consecutive invalid snapshots, and the visualisation loop skips a frame, and
  resets the counter once it reaches its maximum, whenever validation fails.
 */
module Health {
  import opened Gamepad

  const MaxValidationErrors: nat := 10

  /** The counter and its bound, as kept by `InputStateManager`. */
  class InputStateManager {
    var validationErrors: nat

    constructor ()
      ensures validationErrors == 0
    {
      validationErrors := 0;
    }

    /**
      `validateGamepadState`: a missing gamepad or one with too few buttons or axes
      counts one more error and fails; a valid one clears the count.
     */
    method ValidateGamepadState(gp: Option<Snapshot>) returns (ok: bool)
      modifies this
      ensures ok <==> gp.Some? && ValidateGamepad(gp.value)
      ensures validationErrors == if ok then 0 else old(validationErrors) + 1
      ensures IsHealthy() <==> ok || old(validationErrors) + 1 < MaxValidationErrors
    {
      if gp.None? {
        validationErrors := validationErrors + 1;
        return false;
      }
      var snap := gp.value;
      if |snap.buttons| < MinButtons || |snap.axes| < MinAxes {
        validationErrors := validationErrors + 1;
        return false;
      }
      validationErrors := 0;
      return true;
    }

    predicate IsHealthy()
      reads this
    {
      Healthy(validationErrors)
    }

    method Reset()
      modifies this
      ensures validationErrors == 0
    {
      validationErrors := 0;
    }

    /**
      The gate at the top of `visualizationLoop` for a connected gamepad: the frame
      goes on exactly when the snapshot is valid, and the counter afterwards is the
      one `FrameErrors` gives, so it always stays below its maximum.
     */
    method AdmitFrame(snap: Snapshot) returns (admitted: bool)
      modifies this
      ensures admitted <==> ValidateGamepad(snap)
      ensures validationErrors == FrameErrors(old(validationErrors), ValidateGamepad(snap))
      ensures IsHealthy()
    {
      var ok := ValidateGamepadState(Some(snap));
      if !ok || !IsHealthy() {
        if !IsHealthy() {
          Reset();
        }
        admitted := false;
      } else {
        admitted := true;
      }
    }
  }

  /** `isHealthy` on a given count: fewer than the maximum number of errors. */
  predicate Healthy(errors: nat)
  {
    errors < MaxValidationErrors
  }

  /**
    The counter after one gated frame: cleared by a valid snapshot, otherwise one
    more, and cleared again when that reaches the maximum.
   */
  function FrameErrors(errors: nat, valid: bool): (r: nat)
    ensures r < MaxValidationErrors
    ensures valid ==> r == 0
    ensures !valid && errors + 1 < MaxValidationErrors ==> r == errors + 1
    ensures !valid && errors + 1 >= MaxValidationErrors ==> r == 0
  {
    if valid then 0
    else if errors + 1 < MaxValidationErrors then errors + 1
    else 0
  }

  /** The counter after `k` invalid frames in a row, starting from `errors`. */
  function AfterFailures(errors: nat, k: nat): nat
  {
    if k == 0 then errors else FrameErrors(AfterFailures(errors, k - 1), false)
  }

  /**
    Starting healthy-and-clear, a run of invalid frames counts up to nine and wraps
    back to zero on every tenth one.
   */
  lemma {:induction false} FailuresWrap(k: nat)
    ensures AfterFailures(0, k) == k % MaxValidationErrors
  {
    if k > 0 {
      FailuresWrap(k - 1);
    }
  }

  /**
    A valid frame restarts the cycle: whatever the counter was, the next k invalid
    frames leave it at k mod 10, exactly as from a fresh start.
   */
  lemma RecoveryRestartsCycle(errors: nat, k: nat)
    ensures AfterFailures(FrameErrors(errors, true), k) == k % MaxValidationErrors
  {
    FailuresWrap(k);
  }
}

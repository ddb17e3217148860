// A button that starts, stops or toggles the rotation of a target object.
// Only the isRotating flag is modelled; the per-frame rotation itself is
// floating-point transform work.

module Rotation {
  import opened Engine

  /** OnButtonPressed: with a target the flag flips, without one it stays. */
  function Pressed(isRotating: bool, hasTarget: bool): bool {
    if hasTarget then !isRotating else isRotating
  }

  /** The flag after k presses. */
  function PressedTimes(isRotating: bool, hasTarget: bool, k: nat): bool {
    if k == 0 then isRotating else Pressed(PressedTimes(isRotating, hasTarget, k - 1), hasTarget)
  }

  /** Presses count by parity with a target, and not at all without one. */
  lemma {:induction false} PressParity(isRotating: bool, hasTarget: bool, k: nat)
    ensures PressedTimes(isRotating, hasTarget, k) == if hasTarget && k % 2 == 1 then !isRotating else isRotating
  {
    if k > 0 {
      PressParity(isRotating, hasTarget, k - 1);
    }
  }

  class RotateButton {
    const targetObject: Transform?
    var isRotating: bool

    constructor (targetObject: Transform?)
      ensures this.targetObject == targetObject && !isRotating
    {
      this.targetObject := targetObject;
      isRotating := false;
    }

    method OnButtonPressed()
      modifies this
      ensures isRotating == Pressed(old(isRotating), targetObject != null)
    {
      if targetObject == null {
        return;
      }
      isRotating := !isRotating;
    }

    method StartRotation()
      modifies this
      ensures isRotating == (targetObject != null || old(isRotating))
    {
      if targetObject == null {
        return;
      }
      isRotating := true;
    }

    method StopRotation()
      modifies this
      ensures !isRotating
    {
      isRotating := false;
    }
  }
}

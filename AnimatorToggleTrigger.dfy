// A part toggled by a single interaction event: each call fires the trigger
// for the opposite direction and flips the remembered position.

module AnimatorToggle {
  import opened Engine

  /** The trigger set after one toggle from position `wasOpen`: the trigger
      of the current direction is reset and that of the other one set. */
  function ToggleTriggers(triggers: set<string>, wasOpen: bool, openName: string, closeName: string): set<string> {
    if wasOpen then triggers - {openName} + {closeName}
    else triggers - {closeName} + {openName}
  }

  /** The remembered position after k toggles with an animator present. */
  function Toggled(wasOpen: bool, k: nat): bool {
    if k == 0 then wasOpen else !Toggled(wasOpen, k - 1)
  }

  /** Toggling is a parity: an even number of calls restores the position,
      an odd number inverts it. */
  lemma {:induction false} ToggledParity(wasOpen: bool, k: nat)
    ensures Toggled(wasOpen, k) == if k % 2 == 0 then wasOpen else !wasOpen
  {
    if k > 0 {
      ToggledParity(wasOpen, k - 1);
    }
  }

  /** From the open position the close trigger ends up set and, when the
      names differ, the open trigger cleared; from the closed position the
      reverse. No other trigger is touched. */
  lemma ToggleTriggersEffect(triggers: set<string>, wasOpen: bool, openName: string, closeName: string)
    ensures var r := ToggleTriggers(triggers, wasOpen, openName, closeName);
      && (wasOpen ==> closeName in r && (openName != closeName ==> openName !in r))
      && (!wasOpen ==> openName in r && (openName != closeName ==> closeName !in r))
      && (forall t :: t != openName && t != closeName ==> (t in r <==> t in triggers))
  {
  }

  class AnimatorToggleTrigger {
    const targetAnimator: Animator?
    const openTriggerName: string
    const closeTriggerName: string
    const startOpened: bool
    var isOpened: bool

    constructor (targetAnimator: Animator?, openTriggerName: string, closeTriggerName: string, startOpened: bool)
      ensures this.targetAnimator == targetAnimator && this.startOpened == startOpened
      ensures this.openTriggerName == openTriggerName && this.closeTriggerName == closeTriggerName
      ensures !isOpened
    {
      this.targetAnimator := targetAnimator;
      this.openTriggerName := openTriggerName;
      this.closeTriggerName := closeTriggerName;
      this.startOpened := startOpened;
      isOpened := false;
    }

    method Awake()
      modifies this`isOpened
      ensures isOpened == startOpened
    {
      isOpened := startOpened;
    }

    /** Without an animator nothing happens; otherwise the opposite
        direction's trigger fires and the position flips. */
    method ToggleAnimation()
      modifies this`isOpened, targetAnimator
      ensures targetAnimator == null ==> isOpened == old(isOpened)
      ensures targetAnimator != null ==>
        && isOpened == Toggled(old(isOpened), 1)
        && targetAnimator.triggers == ToggleTriggers(old(targetAnimator.triggers), old(isOpened), openTriggerName, closeTriggerName)
        && targetAnimator.playing == old(targetAnimator.playing)
    {
      if targetAnimator == null {
        return;
      }
      if isOpened {
        targetAnimator.ResetTrigger(openTriggerName);
        targetAnimator.SetTrigger(closeTriggerName);
      } else {
        targetAnimator.ResetTrigger(closeTriggerName);
        targetAnimator.SetTrigger(openTriggerName);
      }
      isOpened := !isOpened;
    }
  }
}

// The open/close part driven by a UI toggle: an "animating" lock, a
// one-slot pending request replayed when the clip finishes, and two global
// close commands. The flag transitions are stated as functions on values;
// the component class updates its fields, the animator's trigger set and
// the indicator exactly as those functions say.

module ToggleDriven {
  import opened Engine

  /** The component's four private flags. */
  datatype Flags = Flags(isOpen: bool, isAnimating: bool, hasPending: bool, pendingState: bool)

  /** Whether an operation started an open or close clip, and which. */
  datatype Started = NoAnimation | Started(open: bool)

  datatype Step = Step(flags: Flags, started: Started)

  /** PlayAnimation: without an animator nothing happens; otherwise the part
      is marked animating towards `open`. */
  function Play(f: Flags, hasAnimator: bool, open: bool): Step {
    if !hasAnimator then Step(f, NoAnimation)
    else Step(f.(isAnimating := true, isOpen := open), Started(open))
  }

  /** OnToggleChanged: ignore a request for the current position while idle,
      queue the request while a clip runs, otherwise play it. */
  function ToggleChanged(f: Flags, hasAnimator: bool, isOn: bool): Step {
    if isOn == f.isOpen && !f.isAnimating then Step(f, NoAnimation)
    else if f.isAnimating then Step(f.(pendingState := isOn, hasPending := true), NoAnimation)
    else Play(f, hasAnimator, isOn)
  }

  /** OnAnimFinished: unlock, then replay a queued request that differs from
      the current position. */
  function AnimFinished(f: Flags, hasAnimator: bool): Step {
    var unlocked := f.(isAnimating := false);
    if !unlocked.hasPending then Step(unlocked, NoAnimation)
    else
      var next := unlocked.pendingState;
      var cleared := unlocked.(hasPending := false);
      if next != cleared.isOpen then Play(cleared, hasAnimator, next) else Step(cleared, NoAnimation)
  }

  /** ForceClose: with an animator, drop the queue and play the close clip
      unless the part is already idle and closed. */
  function ForcedClose(f: Flags, hasAnimator: bool): Step {
    if !hasAnimator then Step(f, NoAnimation)
    else
      var cleared := f.(hasPending := false);
      if !cleared.isAnimating && !cleared.isOpen then Step(cleared, NoAnimation)
      else Play(cleared, hasAnimator, false)
  }

  /** ForceCloseImmediate: closed, idle and nothing queued. */
  function SnappedClosed(f: Flags): Flags {
    f.(isOpen := false, isAnimating := false, hasPending := false)
  }

  /** The animator's trigger set after PlayAnimation(open): both triggers
      reset, then the one for `open` set when its name is not empty. */
  function PlayTriggers(triggers: set<string>, open: bool, openTrigger: string, closeTrigger: string): set<string> {
    var cleared := triggers - {openTrigger} - {closeTrigger};
    if open && openTrigger != "" then cleared + {openTrigger}
    else if !open && closeTrigger != "" then cleared + {closeTrigger}
    else cleared
  }

  function TriggersAfter(triggers: set<string>, s: Started, openTrigger: string, closeTrigger: string): set<string> {
    if s.Started? then PlayTriggers(triggers, s.open, openTrigger, closeTrigger) else triggers
  }

  /** The flags after a run of toggle events with no clip finishing between. */
  function ToggleEvents(f: Flags, hasAnimator: bool, requests: seq<bool>): Flags {
    if requests == [] then f
    else ToggleChanged(ToggleEvents(f, hasAnimator, requests[..|requests| - 1]), hasAnimator, requests[|requests| - 1]).flags
  }

  /** A request is only ever queued behind a running clip. */
  predicate Consistent(f: Flags) {
    f.hasPending ==> f.isAnimating
  }

  // ------------------------------------------------------------------
  // Properties of the transitions.
  // ------------------------------------------------------------------

  /** Every operation keeps a queued request behind a running clip. */
  lemma TransitionsKeepConsistent(f: Flags, hasAnimator: bool, isOn: bool)
    requires Consistent(f)
    ensures Consistent(ToggleChanged(f, hasAnimator, isOn).flags)
    ensures Consistent(AnimFinished(f, hasAnimator).flags)
    ensures Consistent(ForcedClose(f, hasAnimator).flags)
    ensures Consistent(SnappedClosed(f))
  {
  }

  /** A toggle event starts a clip exactly when the part is idle, the
      request differs from the position and there is an animator; a clip
      that starts always runs towards the position the flags now record,
      and the part is marked animating. */
  lemma StartedMatchesFlags(f: Flags, hasAnimator: bool, isOn: bool)
    ensures ToggleChanged(f, hasAnimator, isOn).started.Started? <==>
      !f.isAnimating && isOn != f.isOpen && hasAnimator
    ensures !f.isAnimating && isOn != f.isOpen && hasAnimator ==>
      ToggleChanged(f, hasAnimator, isOn) == Step(f.(isAnimating := true, isOpen := isOn), Started(isOn))
    ensures var r := ToggleChanged(f, hasAnimator, isOn);
      r.started.Started? ==> r.flags.isAnimating && r.flags.isOpen == r.started.open && r.started.open == isOn
    ensures var r := AnimFinished(f, hasAnimator);
      r.started.Started? ==> r.flags.isAnimating && r.flags.isOpen == r.started.open && r.started.open == f.pendingState
    ensures var r := ForcedClose(f, hasAnimator);
      r.started.Started? ==> r.flags.isAnimating && !r.flags.isOpen && !r.started.open
  {
  }

  /** A toggle event leaves the flags as they were exactly when it asks for
      the current position while idle, repeats the queued request while a
      clip runs, or finds no animator while idle. */
  lemma ToggleChangedNoOp(f: Flags, hasAnimator: bool, isOn: bool)
    ensures ToggleChanged(f, hasAnimator, isOn).flags == f <==>
      (!f.isAnimating && (isOn == f.isOpen || !hasAnimator))
      || (f.isAnimating && f.hasPending && f.pendingState == isOn)
  {
  }

  /** While a clip runs, a burst of toggle events only queues, and the last
      one wins; position and lock are untouched and no clip starts. */
  lemma {:induction false} LatestRequestWins(f: Flags, hasAnimator: bool, requests: seq<bool>)
    requires f.isAnimating && requests != []
    ensures ToggleEvents(f, hasAnimator, requests)
      == f.(hasPending := true, pendingState := requests[|requests| - 1])
  {
    var init := requests[..|requests| - 1];
    if init != [] {
      LatestRequestWins(f, hasAnimator, init);
    }
  }

  /** Once the running clip finishes, a part with an animator is at the
      position last requested, and nothing is left queued. */
  lemma SettlesOnRequest(f: Flags, isOn: bool)
    requires Consistent(f)
    ensures var g := AnimFinished(ToggleChanged(f, true, isOn).flags, true).flags;
      g.isOpen == isOn && !g.hasPending
  {
  }

  /** After OnAnimFinished nothing is queued; a clip restarts exactly when a
      request differing from the position was queued and there is an
      animator, and otherwise the part is idle. */
  lemma AnimFinishedOutcome(f: Flags, hasAnimator: bool)
    ensures !AnimFinished(f, hasAnimator).flags.hasPending
    ensures AnimFinished(f, hasAnimator).started.Started? <==>
      hasAnimator && f.hasPending && f.pendingState != f.isOpen
    ensures !AnimFinished(f, hasAnimator).started.Started? ==> !AnimFinished(f, hasAnimator).flags.isAnimating
    ensures AnimFinished(f, hasAnimator).flags.isOpen ==
      if hasAnimator && f.hasPending then f.pendingState else f.isOpen
  {
  }

  /** ForceClose with an animator ends closed with nothing queued, and plays
      the close clip exactly when the part was open or moving. */
  lemma ForceCloseOutcome(f: Flags, hasAnimator: bool)
    ensures !hasAnimator ==> ForcedClose(f, hasAnimator) == Step(f, NoAnimation)
    ensures hasAnimator ==>
      var r := ForcedClose(f, hasAnimator);
      && !r.flags.isOpen && !r.flags.hasPending
      && (r.started.Started? <==> f.isOpen || f.isAnimating)
      && (r.flags.isAnimating <==> f.isOpen || f.isAnimating)
  {
  }

  /** After a snap close the part is at rest: a forced close and a "close"
      toggle event both leave it alone, and a second snap changes nothing. */
  lemma SnapCloseIsRest(f: Flags, hasAnimator: bool)
    ensures var g := SnappedClosed(f);
      && ForcedClose(g, hasAnimator).started == NoAnimation
      && ForcedClose(g, hasAnimator).flags == g
      && ToggleChanged(g, hasAnimator, false) == Step(g, NoAnimation)
      && SnappedClosed(g) == g
      && Consistent(g)
  {
  }

  /** PlayAnimation leaves exactly the trigger for the requested direction
      set among the two, when its name is not empty; with an empty name that
      direction's trigger is left reset. No other trigger is touched. */
  lemma PlayTriggersEffect(triggers: set<string>, open: bool, openTrigger: string, closeTrigger: string)
    ensures var r := PlayTriggers(triggers, open, openTrigger, closeTrigger);
      && (open && openTrigger != "" ==> openTrigger in r)
      && (!open && closeTrigger != "" ==> closeTrigger in r)
      && (open && openTrigger == "" ==> openTrigger !in r)
      && (!open && closeTrigger == "" ==> closeTrigger !in r)
      && (open && closeTrigger != openTrigger ==> closeTrigger !in r)
      && (!open && closeTrigger != openTrigger ==> openTrigger !in r)
      && (forall t :: t != openTrigger && t != closeTrigger ==> (t in r <==> t in triggers))
  {
  }

  // ------------------------------------------------------------------
  // The component.
  // ------------------------------------------------------------------

  class ToggleDrivenAnimator {
    var animator: Animator?
    const openTrigger: string
    const closeTrigger: string
    const startsOpen: bool
    const indicatorImage: Indicator?
    const uiToggle: Toggle?
    const closedStateName: string

    var isOpen: bool
    var isAnimating: bool
    var hasPending: bool
    var pendingState: bool

    function State(): Flags
      reads this
    {
      Flags(isOpen, isAnimating, hasPending, pendingState)
    }

    /** The indicator, when there is one, shows the recorded position. */
    predicate IndicatorSynced()
      reads this, indicatorImage
    {
      indicatorImage != null ==> indicatorImage.showsOpen == isOpen
    }

    constructor (animator: Animator?, openTrigger: string, closeTrigger: string, startsOpen: bool,
                 indicatorImage: Indicator?, uiToggle: Toggle?, closedStateName: string)
      ensures this.animator == animator && this.openTrigger == openTrigger && this.closeTrigger == closeTrigger
      ensures this.startsOpen == startsOpen && this.indicatorImage == indicatorImage
      ensures this.uiToggle == uiToggle && this.closedStateName == closedStateName
      ensures State() == Flags(false, false, false, false)
    {
      this.animator := animator;
      this.openTrigger := openTrigger;
      this.closeTrigger := closeTrigger;
      this.startsOpen := startsOpen;
      this.indicatorImage := indicatorImage;
      this.uiToggle := uiToggle;
      this.closedStateName := closedStateName;
      isOpen, isAnimating, hasPending, pendingState := false, false, false, false;
    }

    /** Fall back to the object's own animator when none is assigned. */
    method Awake(ownAnimator: Animator?)
      modifies this`animator
      ensures animator == if old(animator) == null then ownAnimator else old(animator)
    {
      if animator == null {
        animator := ownAnimator;
      }
    }

    /** Take the starting position from the linked toggle, or from
        startsOpen when there is none, and show it. */
    method Start()
      modifies this`isOpen, indicatorImage
      ensures isOpen == if uiToggle != null then uiToggle.isOn else startsOpen
      ensures IndicatorSynced()
    {
      if uiToggle != null {
        isOpen := uiToggle.isOn;
      } else {
        isOpen := startsOpen;
      }
      UpdateIndicator();
    }

    method OnToggleChanged(isOn: bool)
      modifies this`isOpen, this`isAnimating, this`hasPending, this`pendingState, animator, indicatorImage
      ensures var r := ToggleChanged(old(State()), animator != null, isOn);
        && State() == r.flags
        && (animator != null ==> animator.triggers == TriggersAfter(old(animator.triggers), r.started, openTrigger, closeTrigger))
        && (animator != null ==> animator.playing == old(animator.playing))
        && (indicatorImage != null ==> indicatorImage.showsOpen == if r.started.Started? then isOpen else old(indicatorImage.showsOpen))
      ensures old(IndicatorSynced()) ==> IndicatorSynced()
    {
      if isOn == isOpen && !isAnimating {
        return;
      }
      if isAnimating {
        pendingState := isOn;
        hasPending := true;
        return;
      }
      PlayAnimation(isOn);
    }

    method PlayAnimation(open: bool)
      modifies this`isOpen, this`isAnimating, animator, indicatorImage
      ensures var r := Play(old(State()), animator != null, open);
        && State() == r.flags
        && (animator != null ==> animator.triggers == TriggersAfter(old(animator.triggers), r.started, openTrigger, closeTrigger))
        && (animator != null ==> animator.playing == old(animator.playing))
        && (indicatorImage != null ==> indicatorImage.showsOpen == if r.started.Started? then isOpen else old(indicatorImage.showsOpen))
      ensures old(IndicatorSynced()) ==> IndicatorSynced()
    {
      if animator == null {
        return;
      }
      isAnimating := true;
      isOpen := open;
      UpdateIndicator();
      animator.ResetTrigger(openTrigger);
      animator.ResetTrigger(closeTrigger);
      if open && openTrigger != "" {
        animator.SetTrigger(openTrigger);
      } else if !open && closeTrigger != "" {
        animator.SetTrigger(closeTrigger);
      }
    }

    method OnAnimFinished()
      modifies this`isOpen, this`isAnimating, this`hasPending, animator, indicatorImage
      ensures var r := AnimFinished(old(State()), animator != null);
        && State() == r.flags
        && (animator != null ==> animator.triggers == TriggersAfter(old(animator.triggers), r.started, openTrigger, closeTrigger))
        && (animator != null ==> animator.playing == old(animator.playing))
        && (indicatorImage != null ==> indicatorImage.showsOpen == if r.started.Started? then isOpen else old(indicatorImage.showsOpen))
      ensures old(IndicatorSynced()) ==> IndicatorSynced()
    {
      isAnimating := false;
      if hasPending {
        var next := pendingState;
        hasPending := false;
        if next != isOpen {
          PlayAnimation(next);
        }
      }
    }

    method UpdateIndicator()
      modifies indicatorImage
      ensures IndicatorSynced()
    {
      if indicatorImage == null {
        return;
      }
      indicatorImage.showsOpen := isOpen;
    }

    /** Close through the close clip; the toggle is switched off without
        raising its event. */
    method ForceClose()
      modifies this`isOpen, this`isAnimating, this`hasPending, animator, indicatorImage, uiToggle
      ensures var r := ForcedClose(old(State()), old(animator) != null);
        && State() == r.flags
        && (animator != null ==> animator.triggers == TriggersAfter(old(animator.triggers), r.started, openTrigger, closeTrigger))
        && (animator != null ==> animator.playing == old(animator.playing))
        && (indicatorImage != null ==> indicatorImage.showsOpen == if r.started.Started? then isOpen else old(indicatorImage.showsOpen))
      ensures uiToggle != null ==> uiToggle.isOn == (old(uiToggle.isOn) && animator == null)
      ensures old(IndicatorSynced()) ==> IndicatorSynced()
    {
      if animator == null {
        return;
      }
      if uiToggle != null {
        uiToggle.SetIsOnWithoutNotify(false);
      }
      hasPending := false;
      if !isAnimating && !isOpen {
        return;
      }
      PlayAnimation(false);
    }

    /** Snap to the closed pose: flags cleared, toggle switched off silently,
        indicator closed, and the animator jumped to the closed state when it
        and the state name are present. */
    method ForceCloseImmediate()
      modifies this`isOpen, this`isAnimating, this`hasPending, animator, indicatorImage, uiToggle
      ensures State() == SnappedClosed(old(State()))
      ensures uiToggle != null ==> !uiToggle.isOn
      ensures IndicatorSynced() && (indicatorImage != null ==> !indicatorImage.showsOpen)
      ensures animator != null ==> (animator.triggers == old(animator.triggers)
        && animator.playing == if closedStateName != "" then closedStateName else old(animator.playing))
    {
      isOpen := false;
      isAnimating := false;
      hasPending := false;
      if uiToggle != null {
        uiToggle.SetIsOnWithoutNotify(false);
      }
      UpdateIndicator();
      if animator != null && closedStateName != "" {
        animator.Play(closedStateName);
      }
    }
  }
}

// An edge-triggered latch on a rotation: the event fires when the watched
// angle enters the target range, at most once in fire-once mode. The angle
// test itself is floating point and arrives as the boolean `nowInRange`.

module RotationWatch {
  import opened Engine

  /** The watcher's two private flags. */
  datatype Latch = Latch(hasTriggered: bool, isInRange: bool)

  /** One frame: either no target is assigned, or the range test's outcome. */
  datatype Frame = NoTarget | Observed(nowInRange: bool)

  /** Whether a frame invokes the event: entering the range, and in
      fire-once mode only if it never fired before. */
  predicate Fires(l: Latch, triggerOnce: bool, frame: Frame) {
    frame.Observed? && frame.nowInRange && !l.isInRange && (!triggerOnce || !l.hasTriggered)
  }

  /** The flags after one frame. */
  function Advance(l: Latch, triggerOnce: bool, frame: Frame): Latch {
    match frame
    case NoTarget => l
    case Observed(now) => Latch(l.hasTriggered || Fires(l, triggerOnce, frame), now)
  }

  /** The flags after a run of frames. */
  function Run(l: Latch, triggerOnce: bool, frames: seq<Frame>): Latch {
    if frames == [] then l
    else Advance(Run(l, triggerOnce, frames[..|frames| - 1]), triggerOnce, frames[|frames| - 1])
  }

  /** How many times the event fires over a run of frames. */
  function FireCount(l: Latch, triggerOnce: bool, frames: seq<Frame>): nat {
    if frames == [] then 0
    else
      var init := frames[..|frames| - 1];
      FireCount(l, triggerOnce, init) + (if Fires(Run(l, triggerOnce, init), triggerOnce, frames[|frames| - 1]) then 1 else 0)
  }

  // Reference definitions on the observed range values alone.

  /** The last range outcome observed, or `prev` if no frame had a target. */
  function LastSeen(prev: bool, frames: seq<Frame>): bool {
    if frames == [] then prev
    else
      var last := frames[|frames| - 1];
      if last.Observed? then last.nowInRange else LastSeen(prev, frames[..|frames| - 1])
  }

  /** The number of rising edges (out of range, then in range) among the
      observed outcomes, starting from `prev`. */
  function RisingEdges(prev: bool, frames: seq<Frame>): nat {
    if frames == [] then 0
    else
      var init := frames[..|frames| - 1];
      var last := frames[|frames| - 1];
      RisingEdges(prev, init) + (if last.Observed? && last.nowInRange && !LastSeen(prev, init) then 1 else 0)
  }

  /** The event fires only when the angle enters the range. */
  lemma FiresOnlyOnRisingEdge(l: Latch, triggerOnce: bool, frame: Frame)
    ensures Fires(l, triggerOnce, frame) ==> frame.Observed? && frame.nowInRange && !l.isInRange
    ensures !triggerOnce ==> (Fires(l, triggerOnce, frame) <==> frame.Observed? && frame.nowInRange && !l.isInRange)
  {
  }

  /** A frame without a target changes nothing and fires nothing; after a
      frame with one, isInRange is the observed outcome. */
  lemma AdvanceEffect(l: Latch, triggerOnce: bool, frame: Frame)
    ensures frame == NoTarget ==> Advance(l, triggerOnce, frame) == l && !Fires(l, triggerOnce, frame)
    ensures frame.Observed? ==> Advance(l, triggerOnce, frame).isInRange == frame.nowInRange
    ensures Advance(l, triggerOnce, frame).hasTriggered == (l.hasTriggered || Fires(l, triggerOnce, frame))
  {
  }

  /** Once set, hasTriggered stays set. */
  lemma {:induction false} TriggeredStays(l: Latch, triggerOnce: bool, frames: seq<Frame>)
    requires l.hasTriggered
    ensures Run(l, triggerOnce, frames).hasTriggered
  {
    if frames != [] {
      TriggeredStays(l, triggerOnce, frames[..|frames| - 1]);
    }
  }

  /** isInRange always holds the last observed outcome. */
  lemma {:induction false} RunTracksRange(l: Latch, triggerOnce: bool, frames: seq<Frame>)
    ensures Run(l, triggerOnce, frames).isInRange == LastSeen(l.isInRange, frames)
  {
    if frames != [] {
      RunTracksRange(l, triggerOnce, frames[..|frames| - 1]);
    }
  }

  /** In fire-once mode the event fires at most once over any run, never if
      it had already fired, and hasTriggered records that it did. */
  lemma {:induction false} FireOnceAtMostOnce(l: Latch, frames: seq<Frame>)
    ensures FireCount(l, true, frames) <= 1
    ensures l.hasTriggered ==> FireCount(l, true, frames) == 0
    ensures FireCount(l, true, frames) == 1 ==> Run(l, true, frames).hasTriggered
  {
    if frames != [] {
      var init := frames[..|frames| - 1];
      FireOnceAtMostOnce(l, init);
      if l.hasTriggered {
        TriggeredStays(l, true, init);
      }
    }
  }

  /** Without fire-once mode the event fires on every rising edge and only
      there. */
  lemma {:induction false} FiresOnEveryRisingEdge(l: Latch, frames: seq<Frame>)
    ensures FireCount(l, false, frames) == RisingEdges(l.isInRange, frames)
  {
    if frames != [] {
      var init := frames[..|frames| - 1];
      FiresOnEveryRisingEdge(l, init);
      RunTracksRange(l, false, init);
    }
  }

  class AxisRotationWatcher {
    const target: Transform?
    const triggerOnce: bool
    var hasTriggered: bool
    var isInRange: bool

    constructor (target: Transform?, triggerOnce: bool)
      ensures this.target == target && this.triggerOnce == triggerOnce
      ensures State() == Latch(false, false)
    {
      this.target := target;
      this.triggerOnce := triggerOnce;
      hasTriggered, isInRange := false, false;
    }

    function State(): Latch
      reads this
    {
      Latch(hasTriggered, isInRange)
    }

    /** One frame. `nowInRange` is the outcome of the angle test, read only
        when there is a target; `fired` says whether the event is invoked. */
    method Update(nowInRange: bool) returns (fired: bool)
      modifies this
      ensures var frame := if target == null then NoTarget else Observed(nowInRange);
        && fired == Fires(old(State()), triggerOnce, frame)
        && State() == Advance(old(State()), triggerOnce, frame)
    {
      fired := false;
      if target == null {
        return;
      }
      if nowInRange && !isInRange {
        if !triggerOnce || !hasTriggered {
          fired := true;
          hasTriggered := true;
        }
      }
      isInRange := nowInRange;
    }
  }
}

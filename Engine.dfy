// Stand-ins for the engine objects the scripts talk to. Only the state the
// scripts read or write is kept; rendering, physics and animation playback
// belong to the engine and are not modelled.

module Engine {

  /** A scene object's transform. The scripts only test it for null. */
  class Transform {
    constructor () {}
  }

  /** A scene object; the only thing read from it is its layer number. */
  class GameObject {
    const layer: int

    constructor (layer: int)
      ensures this.layer == layer
    {
      this.layer := layer;
    }
  }

  /** A physics collider attached to a scene object. Identity is reference
      identity, as for the engine's own objects. */
  class Collider {
    const gameObject: GameObject

    constructor (gameObject: GameObject)
      ensures this.gameObject == gameObject
    {
      this.gameObject := gameObject;
    }
  }

  /** An animator, reduced to the set of trigger parameters currently set and
      the state last started with Play. */
  class Animator {
    var triggers: set<string>
    var playing: string

    constructor (initial: string)
      ensures triggers == {} && playing == initial
    {
      triggers := {};
      playing := initial;
    }

    method SetTrigger(name: string)
      modifies this
      ensures triggers == old(triggers) + {name} && playing == old(playing)
    {
      triggers := triggers + {name};
    }

    method ResetTrigger(name: string)
      modifies this
      ensures triggers == old(triggers) - {name} && playing == old(playing)
    {
      triggers := triggers - {name};
    }

    /** Snap to the start of a state; trigger parameters are left alone. */
    method Play(state: string)
      modifies this
      ensures playing == state && triggers == old(triggers)
    {
      playing := state;
    }
  }

  /** A UI toggle; SetIsOnWithoutNotify changes the value without raising
      the value-changed event. */
  class Toggle {
    var isOn: bool

    constructor (isOn: bool)
      ensures this.isOn == isOn
    {
      this.isOn := isOn;
    }

    method SetIsOnWithoutNotify(value: bool)
      modifies this
      ensures isOn == value
    {
      isOn := value;
    }
  }

  /** A UI image used as an indicator light: true while it shows the "open"
      colour, false while it shows the "closed" colour. */
  class Indicator {
    var showsOpen: bool

    constructor (showsOpen: bool)
      ensures this.showsOpen == showsOpen
    {
      this.showsOpen := showsOpen;
    }
  }
}

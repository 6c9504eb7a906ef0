/**
 * The host's extension points, each reduced to the set of handlers
 * registered with it, and the register/unregister wiring of the patchers.
 */
module ExtensionPoints {

  /** A patcher's bound handler method, identified by the patcher that owns it. */
  datatype Handler =
    | DisplayChangedOf(owner: object)
    | DisplaySizeChangedOf(owner: object)
    | DecideExecuteGestureOf(owner: object)

  /** `braille.displayChanged`, `braille.displaySizeChanged` and `inputCore.decide_executeGesture`. */
  datatype Registrations = Registrations(
    displayChanged: set<Handler>,
    displaySizeChanged: set<Handler>,
    decideExecuteGesture: set<Handler>)

  /** Each extension point holds only handlers of its own kind. */
  predicate WellFormed(r: Registrations) {
    (forall h :: h in r.displayChanged ==> h.DisplayChangedOf?) &&
    (forall h :: h in r.displaySizeChanged ==> h.DisplaySizeChangedOf?) &&
    (forall h :: h in r.decideExecuteGesture ==> h.DecideExecuteGestureOf?)
  }

  /** The handlers a given patcher can have registered, whichever extension point holds them. */
  predicate Owns(owner: object, h: Handler) {
    h.owner == owner
  }

  /** Registers the two display handlers of `owner`. */
  function RegisterSetDisplay(r: Registrations, owner: object): Registrations
  {
    r.(displayChanged := r.displayChanged + {DisplayChangedOf(owner)},
       displaySizeChanged := r.displaySizeChanged + {DisplaySizeChangedOf(owner)})
  }

  /** Unregisters the two display handlers of `owner`. */
  function UnregisterSetDisplay(r: Registrations, owner: object): Registrations
  {
    r.(displaySizeChanged := r.displaySizeChanged - {DisplaySizeChangedOf(owner)},
       displayChanged := r.displayChanged - {DisplayChangedOf(owner)})
  }

  /** Registers the gesture decision handler of `owner`. */
  function RegisterBrailleInput(r: Registrations, owner: object): Registrations
  {
    r.(decideExecuteGesture := r.decideExecuteGesture + {DecideExecuteGestureOf(owner)})
  }

  /** Unregisters the gesture decision handler of `owner`. */
  function UnregisterBrailleInput(r: Registrations, owner: object): Registrations
  {
    r.(decideExecuteGesture := r.decideExecuteGesture - {DecideExecuteGestureOf(owner)})
  }

  /** `NVDAMasterPatcher.register`: the display handlers only. */
  function MasterRegister(r: Registrations, owner: object): Registrations
  {
    RegisterSetDisplay(r, owner)
  }

  /** `NVDAMasterPatcher.unregister`: the display handlers and, in every case, the gesture hook. */
  function MasterUnregister(r: Registrations, owner: object): Registrations
  {
    UnregisterBrailleInput(UnregisterSetDisplay(r, owner), owner)
  }

  /** Registering installs both display handlers and leaves the gesture hook as it was. */
  lemma MasterRegisterLeavesGestureHook(r: Registrations, owner: object)
    ensures WellFormed(r) ==> WellFormed(MasterRegister(r, owner))
    ensures DisplayChangedOf(owner) in MasterRegister(r, owner).displayChanged
    ensures DisplaySizeChangedOf(owner) in MasterRegister(r, owner).displaySizeChanged
    ensures MasterRegister(r, owner).decideExecuteGesture == r.decideExecuteGesture
  {
  }

  /**
   * Unregistering removes every handler of `owner` from every extension
   * point, whether or not the gesture hook was ever registered, and leaves
   * every other patcher's handlers where they were.
   */
  lemma MasterUnregisterRemovesAll(r: Registrations, owner: object)
    requires WellFormed(r)
    ensures WellFormed(MasterUnregister(r, owner))
    ensures forall h :: h in MasterUnregister(r, owner).displayChanged <==> h in r.displayChanged && !Owns(owner, h)
    ensures forall h :: h in MasterUnregister(r, owner).displaySizeChanged <==> h in r.displaySizeChanged && !Owns(owner, h)
    ensures forall h :: h in MasterUnregister(r, owner).decideExecuteGesture <==> h in r.decideExecuteGesture && !Owns(owner, h)
  {
  }

  /** Registering and unregistering a patcher with no handlers registered restores the extension points. */
  lemma MasterRoundTrip(r: Registrations, owner: object, withBrailleInput: bool)
    requires forall h :: h in r.displayChanged ==> !Owns(owner, h)
    requires forall h :: h in r.displaySizeChanged ==> !Owns(owner, h)
    requires forall h :: h in r.decideExecuteGesture ==> !Owns(owner, h)
    ensures var registered := MasterRegister(r, owner);
            var enabled := if withBrailleInput then RegisterBrailleInput(registered, owner) else registered;
            MasterUnregister(enabled, owner) == r
  {
  }
}

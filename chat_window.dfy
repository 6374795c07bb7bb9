/**
 * The chat window's minimised/normal state. The window element carries exactly
 * one of the classes `jsxc-minimized` and `jsxc-normal`, and the window mirrors
 * that state into the boolean 'minimized' of its persisted property map, from
 * which the next window for the same contact restores it.
 */
module Window {
  import opened Wrappers
  import opened PersistentMaps
  import opened ChatView

  const MinimizedClass: string := "jsxc-minimized"
  const NormalClass: string := "jsxc-normal"
  const DisabledClass: string := "jsxc-disabled"

  /** The two classes the state machine owns on the window element. */
  const WindowStateClasses: set<string> := {MinimizedClass, NormalClass}

  const MinimizedKey: string := "minimized"

  /**
   * The window starts minimised unless the stored 'minimized' is exactly `false`
   * (`=== false`), while the hook minimises it when the new value is truthy. The
   * two readings agree on booleans and on truthy values; they disagree only on an
   * absent or a falsy non-boolean value, which starts the window minimised but
   * would make the hook restore it.
   */
  lemma StartupAndHookReadings(v: Option<PropValue>)
    ensures !IsStrictlyFalse(v) == Truthy(v) <==> v.Some? && (v.value.BoolValue? || v.value.truthy)
    ensures !IsStrictlyFalse(None) && !Truthy(None)
  {
  }

  class ChatWindow {
    /** The CSS classes of the window element. */
    var classes: set<string>
    /** The CSS classes of the window's encryption (transfer) button. */
    var transferClasses: set<string>
    /** The window's persisted properties, kept under 'chatWindow' and the contact's id. */
    const properties: PersistentMap

    predicate IsMinimized()
      reads this
    {
      MinimizedClass in classes
    }

    /** Exactly one state class is present, and the stored 'minimized' is the boolean that says which. */
    ghost predicate Valid()
      reads this, properties
    {
      && (MinimizedClass in classes) != (NormalClass in classes)
      && properties.Get(MinimizedKey) == Some(BoolValue(IsMinimized()))
    }

    /**
     * Opens a window whose property map starts from `stored`, on an element built
     * with `templateClasses` and a transfer button built with `templateTransferClasses`.
     */
    constructor (stored: map<string, PropValue>, templateClasses: set<string>, templateTransferClasses: set<string>,
                 encryptionState: EncryptionState, hasEncryptionPlugin: bool)
      ensures fresh(properties)
      ensures Valid()
      ensures IsMinimized() <==> !IsStrictlyFalse(Lookup(stored, MinimizedKey))
      ensures classes - WindowStateClasses == templateClasses - WindowStateClasses
      ensures properties.values == stored[MinimizedKey := BoolValue(IsMinimized())]
      ensures properties.hookKeys == [MinimizedKey]
      ensures transferClasses == ApplyEncryptionState(templateTransferClasses, encryptionState)
                                 - (if hasEncryptionPlugin then {DisabledClass} else {})
    {
      classes := templateClasses;
      transferClasses := templateTransferClasses;
      properties := new PersistentMap(stored);
      new;
      if IsStrictlyFalse(properties.Get(MinimizedKey)) {
        Unminimize();
      } else {
        Minimize();
      }
      properties.RegisterHook(MinimizedKey);
      var _ := UpdateEncryptionState(encryptionState);
      if hasEncryptionPlugin {
        transferClasses := transferClasses - {DisabledClass};
      }
    }

    method Minimize()
      modifies this, properties
      ensures Valid() && IsMinimized()
      ensures classes == old(classes) - {NormalClass} + {MinimizedClass}
      ensures properties.values == old(properties.values)[MinimizedKey := BoolValue(true)]
      ensures properties.hookKeys == old(properties.hookKeys)
      ensures transferClasses == old(transferClasses)
    {
      classes := classes - {NormalClass} + {MinimizedClass};
      properties.Set(MinimizedKey, BoolValue(true));
    }

    method Unminimize()
      modifies this, properties
      ensures Valid() && !IsMinimized()
      ensures classes == old(classes) - {MinimizedClass} + {NormalClass}
      ensures properties.values == old(properties.values)[MinimizedKey := BoolValue(false)]
      ensures properties.hookKeys == old(properties.hookKeys)
      ensures transferClasses == old(transferClasses)
    {
      classes := classes - {MinimizedClass} + {NormalClass};
      properties.Set(MinimizedKey, BoolValue(false));
    }

    /** A click on the window bar: a minimised window is restored, any other is minimised. */
    method Toggle()
      modifies this, properties
      ensures Valid()
      ensures IsMinimized() == !old(IsMinimized())
      ensures classes - WindowStateClasses == old(classes) - WindowStateClasses
      ensures properties.values == old(properties.values)[MinimizedKey := BoolValue(IsMinimized())]
      ensures properties.hookKeys == old(properties.hookKeys)
      ensures transferClasses == old(transferClasses)
    {
      if MinimizedClass in classes {
        Unminimize();
      } else {
        Minimize();
      }
    }

    /**
     * The hook registered on 'minimized'. It brings the window into the state the
     * value names; when that is the state the window is already in, including when
     * the value is the one the window itself last wrote, it changes nothing.
     */
    method OnMinimizedChanged(minimized: Option<PropValue>)
      modifies this, properties
      ensures Valid()
      ensures IsMinimized() == Truthy(minimized)
      ensures classes - WindowStateClasses == old(classes) - WindowStateClasses
      ensures properties.values == old(properties.values)[MinimizedKey := BoolValue(IsMinimized())]
      ensures old(Valid()) && Truthy(minimized) == old(IsMinimized()) ==>
                classes == old(classes) && properties.values == old(properties.values)
      ensures properties.hookKeys == old(properties.hookKeys)
      ensures transferClasses == old(transferClasses)
    {
      if Truthy(minimized) {
        Minimize();
      } else {
        Unminimize();
      }
    }

    /**
     * `minimize` when the property map notifies the 'minimized' hook of the
     * window's own write: the hook runs with the value just stored and the
     * outcome is that of `minimize` alone.
     */
    method MinimizeNotified()
      modifies this, properties
      ensures Valid() && IsMinimized()
      ensures classes == old(classes) - {NormalClass} + {MinimizedClass}
      ensures properties.values == old(properties.values)[MinimizedKey := BoolValue(true)]
      ensures properties.hookKeys == old(properties.hookKeys)
      ensures transferClasses == old(transferClasses)
    {
      Minimize();
      OnMinimizedChanged(properties.Get(MinimizedKey));
    }

    /** `unminimize` followed by the hook's notification of the value it stored: the outcome is that of `unminimize` alone. */
    method UnminimizeNotified()
      modifies this, properties
      ensures Valid() && !IsMinimized()
      ensures classes == old(classes) - {MinimizedClass} + {NormalClass}
      ensures properties.values == old(properties.values)[MinimizedKey := BoolValue(false)]
      ensures properties.hookKeys == old(properties.hookKeys)
      ensures transferClasses == old(transferClasses)
    {
      Unminimize();
      OnMinimizedChanged(properties.Get(MinimizedKey));
    }

    /** The encryption-state hook: the transfer button shows `state`; an unrecognised state is reported with a warning. */
    method UpdateEncryptionState(state: EncryptionState) returns (warned: bool)
      modifies this
      ensures transferClasses == ApplyEncryptionState(old(transferClasses), state)
      ensures warned <==> state.Unrecognised?
      ensures classes == old(classes)
    {
      transferClasses := transferClasses - EncryptionClasses;
      match state
      case Plaintext =>
        warned := false;
      case UnverifiedEncrypted =>
        transferClasses := transferClasses + {EncClass};
        warned := false;
      case VerifiedEncrypted =>
        transferClasses := transferClasses + {EncClass, TrustClass};
        warned := false;
      case Ended =>
        transferClasses := transferClasses + {FinClass};
        warned := false;
      case Unrecognised(_) =>
        warned := true;
    }
  }
}

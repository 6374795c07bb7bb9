/**
 * The persisted key/value property map a chat window keeps under the namespace
 * 'chatWindow' and the contact's id. Only the three calls the window makes are
 * modelled: `get`, `set` and `registerHook`. How the map reaches storage and how
 * it dispatches its hooks is not part of this model.
 */
module PersistentMaps {
  import opened Wrappers

  /**
   * A value read back from the map. The window itself only ever writes booleans;
   * any other stored value is characterised by its JavaScript truthiness alone.
   */
  datatype PropValue = BoolValue(b: bool) | OtherValue(truthy: bool)

  /** JavaScript truthiness of the result of `get`; an absent key reads as `undefined`, which is falsy. */
  predicate Truthy(v: Option<PropValue>) {
    match v
    case None => false
    case Some(BoolValue(b)) => b
    case Some(OtherValue(t)) => t
  }

  /** `v === false`: only the stored boolean `false` is strictly equal to `false`. */
  predicate IsStrictlyFalse(v: Option<PropValue>) {
    v == Some(BoolValue(false))
  }

  /** `get` on a plain map of stored values. */
  function Lookup(values: map<string, PropValue>, key: string): (r: Option<PropValue>)
    ensures r.Some? <==> key in values
    ensures r.Some? ==> r.value == values[key]
  {
    if key in values then Some(values[key]) else None
  }

  class PersistentMap {
    /** The current value of every key that has been set. */
    var values: map<string, PropValue>
    /** The keys for which a hook was registered, in registration order. */
    var hookKeys: seq<string>

    /** Opens the map over what storage already holds for this namespace and id. */
    constructor (stored: map<string, PropValue>)
      ensures values == stored && hookKeys == []
    {
      values := stored;
      hookKeys := [];
    }

    /** `get`: the value `key` currently holds, as `Lookup` describes it. */
    function Get(key: string): Option<PropValue>
      reads this
    {
      Lookup(values, key)
    }

    /** Last write wins: `key` now reads `v`, every other key reads what it read before. */
    method Set(key: string, v: PropValue)
      modifies this
      ensures values == old(values)[key := v]
      ensures Get(key) == Some(v)
      ensures forall k :: k != key ==> Get(k) == old(Get(k))
      ensures hookKeys == old(hookKeys)
    {
      values := values[key := v];
    }

    method RegisterHook(key: string)
      modifies this
      ensures hookKeys == old(hookKeys) + [key]
      ensures values == old(values)
    {
      hookKeys := hookKeys + [key];
    }
  }
}

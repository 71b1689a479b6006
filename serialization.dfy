/** `ExcludeCachedProperty.__getstate__` of brewing: the pickled state of an
    object is its state without the values cached by the class's
    `cached_property` attributes. `V` stands for attribute values. */
module Serialization {
  import opened Wrappers

  /** What `super().__getstate__()` returns: None, a dict, or some other
      object. */
  datatype SuperState<V> = NoState | DictState(items: map<string, V>) | OtherState

  /** An instance: its `__dict__`. */
  class Instance<V> {
    var dict: map<string, V>

    constructor (dict: map<string, V>)
      ensures this.dict == dict
    {
      this.dict := dict;
    }
  }

  /** The `TypeError` for a state that is not a dict. */
  datatype TypeError = StateNotADict

  /** `super().__getstate__() or self.__dict__`: the instance dict replaces
      a falsy state, that is None or an empty dict. */
  function BaseState<V>(superState: SuperState<V>, dict: map<string, V>): (r: SuperState<V>)
    ensures superState.NoState? ==> r == DictState(dict)
    ensures superState.DictState? && superState.items != map[] ==> r == superState
    ensures superState.DictState? && superState.items == map[] ==> r == DictState(dict)
    ensures superState.OtherState? ==> r.OtherState?
  {
    if superState.NoState? || (superState.DictState? && superState.items == map[]) then DictState(dict)
    else superState
  }

  /** `state` without the keys in `names`. */
  function Without<V>(state: map<string, V>, names: set<string>): (r: map<string, V>)
    ensures forall k :: k in r <==> k in state && k !in names
    ensures forall k :: k in r ==> r[k] == state[k]
  {
    map k | k in state && k !in names :: state[k]
  }

  /** `__getstate__`: a non-dict state raises; otherwise a copy of the state
      from which every name in `dir(cls)` bound to a `cached_property` is
      popped, if present. `classDir` lists `dir(cls)` with, for each name,
      whether it is a cached_property. The instance is only read. */
  method GetState<V>(self: Instance<V>, superState: SuperState<V>, classDir: seq<(string, bool)>)
    returns (r: Result<map<string, V>, TypeError>)
    ensures var base := BaseState(superState, self.dict);
            && (base.OtherState? ==> r == Failure(StateNotADict))
            && (base.DictState? ==>
                  r == Success(Without(base.items, set i | 0 <= i < |classDir| && classDir[i].1 :: classDir[i].0)))
  {
    var base := BaseState(superState, self.dict);
    if !base.DictState? {
      return Failure(StateNotADict);
    }
    var state := base.items;
    var i := 0;
    while i < |classDir|
      invariant 0 <= i <= |classDir|
      invariant state == Without(base.items, set j | 0 <= j < i && classDir[j].1 :: classDir[j].0)
    {
      if classDir[i].1 {
        state := state - {classDir[i].0};
      }
      assert (set j | 0 <= j < i + 1 && classDir[j].1 :: classDir[j].0)
             == (set j | 0 <= j < i && classDir[j].1 :: classDir[j].0)
                + (if classDir[i].1 then {classDir[i].0} else {});
      i := i + 1;
    }
    r := Success(state);
  }
}

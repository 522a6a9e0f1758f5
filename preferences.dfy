/**
  The profile preferences the registry persists into: a string-keyed store
  whose values are string lists or string sets. One `Prefs` object may be
  shared by several registries, which is how a registry built later sees
  what an earlier one wrote.
 */
module Preferences {

  datatype Option<T> = None | Some(value: T)

  datatype PrefValue = StringList(list: seq<string>) | StringSet(names: set<string>)

  /** The string list stored under `key`, if the key holds one. */
  function StringListAt(values: map<string, PrefValue>, key: string): (r: Option<seq<string>>)
    ensures r.Some? <==> key in values && values[key].StringList?
    ensures r.Some? ==> values[key] == StringList(r.value)
  {
    if key in values && values[key].StringList? then Some(values[key].list) else None
  }

  /** The string set stored under `key`, if the key holds one. */
  function StringSetAt(values: map<string, PrefValue>, key: string): (r: Option<set<string>>)
    ensures r.Some? <==> key in values && values[key].StringSet?
    ensures r.Some? ==> values[key] == StringSet(r.value)
  {
    if key in values && values[key].StringSet? then Some(values[key].names) else None
  }

  /** An in-memory preference store. */
  class Prefs {
    var values: map<string, PrefValue>

    /** A store holding nothing yet, as on a first run. */
    constructor ()
      ensures values == map[]
    {
      values := map[];
    }

    method SetStringList(key: string, list: seq<string>)
      modifies this
      ensures values == old(values)[key := StringList(list)]
      ensures StringListAt(values, key) == Some(list)
    {
      values := values[key := StringList(list)];
    }

    method SetStringSet(key: string, names: set<string>)
      modifies this
      ensures values == old(values)[key := StringSet(names)]
      ensures StringSetAt(values, key) == Some(names)
    {
      values := values[key := StringSet(names)];
    }
  }
}

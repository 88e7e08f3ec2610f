/** `src/core/global_state.py`: the application-wide key/value store. Every
    call of `GlobalState()` gives back the one instance the class keeps. */
module GlobalStore {
  import opened JsonValue

  // The key constants of the class.
  const NAME: string := "name"
  const SITE: string := "site"
  const COLOR: string := "color"
  const COOKIES: string := "cookies"
  const SETTING: string := "setting"
  const SETTING_DETAIL: string := "setting_detail"
  const COLUMNS: string := "columns"
  const REGION: string := "region"
  const POPUP: string := "popup"
  const SITES: string := "sites"

  /** The keys `initialize` fills, in the order it writes them. */
  const InitialKeys: seq<string> :=
    [COOKIES, NAME, SITE, COLOR, SETTING, SETTING_DETAIL, COLUMNS, REGION, POPUP, SITES]

  /** The dictionary `initialize` installs: each of the ten keys maps to `""`. */
  function InitialData(): (d: map<string, Json>)
    ensures forall k :: k in d <==> k in InitialKeys
    ensures forall k :: k in d ==> d[k] == JString("")
  {
    map k | k in InitialKeys :: JString("")
  }

  /** One instance: its `_data` dictionary and its `_initialized` flag. */
  class GlobalState {
    var data: map<string, Json>
    var initialized: bool

    /** The body `__new__` runs the first time: `_data = {}`, not initialized. */
    constructor ()
      ensures data == map[] && !initialized
    {
      data := map[];
      initialized := false;
    }

    /** `get(key, default)`: the stored value, or the default when the key is absent. */
    function Get(key: string, default: Json): (r: Json)
      reads this
      ensures key in data ==> r == data[key]
      ensures key !in data ==> r == default
    {
      if key in data then data[key] else default
    }

    /** `initialize()`: on the first call, replaces all data by the ten blank
        keys; once initialized, does nothing. */
    method Initialize()
      modifies this
      ensures initialized
      ensures !old(initialized) ==> data == InitialData()
      ensures old(initialized) ==> data == old(data)
      ensures forall k :: !old(initialized) && k in InitialKeys ==> Get(k, JNull) == JString("")
    {
      if !initialized {
        data := InitialData();
        initialized := true;
      }
    }

    /** `set(key, value)`: every later `get(key, ...)` sees `value`; every
        other key keeps its value. */
    method Set(key: string, value: Json)
      modifies this
      ensures data == old(data)[key := value]
      ensures initialized == old(initialized)
      ensures forall default :: Get(key, default) == value
      ensures forall k, default :: k != key ==> Get(k, default) == old(Get(k, default))
    {
      data := data[key := value];
    }

    /** `remove(key)`: deletes the key if present; absent keys are a no-op. */
    method Remove(key: string)
      modifies this
      ensures data == old(data) - {key}
      ensures key !in old(data) ==> data == old(data)
      ensures initialized == old(initialized)
      ensures forall default :: Get(key, default) == default
      ensures forall k, default :: k != key ==> Get(k, default) == old(Get(k, default))
    {
      if key in data {
        data := data - {key};
      }
    }

    /** `clear()`: empties the store. The flag stays set, so a later
        `initialize()` does not refill it. */
    method Clear()
      modifies this
      ensures data == map[]
      ensures initialized == old(initialized)
    {
      data := map[];
    }
  }

  /** The class object `GlobalState` itself, which holds `_instance`. */
  class GlobalStateClass {
    var instance: GlobalState?

    /** Before the first call there is no instance. */
    constructor ()
      ensures instance == null
    {
      instance := null;
    }

    /** `GlobalState()`: the first call creates the instance, with empty data
        and not initialized; every call returns that same instance and leaves
        its state as it was (`__init__` does nothing). */
    method Call() returns (s: GlobalState)
      modifies this
      ensures instance == s
      ensures old(instance) != null ==> s == old(instance)
      ensures old(instance) == null ==> fresh(s) && s.data == map[] && !s.initialized
    {
      if instance == null {
        instance := new GlobalState();
      }
      s := instance;
    }
  }

  /** What `main()` relies on: two calls give the same object, and after
      `initialize()` on the first, the second already sees the ten blank keys;
      a second `initialize()` changes nothing, even after a `set`. */
  method SharedAndInitializedOnce(cls: GlobalStateClass, k: string, v: Json)
      returns (a: GlobalState, b: GlobalState)
    requires cls.instance == null
    modifies cls
    ensures a == b
    ensures a.data == InitialData()[k := v]
    ensures a.initialized
  {
    a := cls.Call();
    a.Initialize();
    a.Set(k, v);
    b := cls.Call();
    b.Initialize();
  }
}

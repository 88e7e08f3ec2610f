/** `src/workers/api_base_worker.py`: the base class of every site worker. It
    keeps the settings a popup hands over, filters the checked columns and
    sites, and runs the `init` / `main` / `destroy` hooks in a fixed order. */
module BaseWorker {
  import opened Common
  import opened JsonValue

  // ---------------------------------------------------------------------------
  // get_setting_value
  // ---------------------------------------------------------------------------

  /** `get_setting_value(setting_list, code_name)` over the items of the list:
      the `value` of the first dict whose `code` equals the name, `None` when
      none does. An item reached before the match that is not a dict makes
      `item.get` raise. */
  function SettingValue(items: seq<Json>, code: string): (r: Result<Json>)
    ensures r.Err? ==> r.error.kind == AttributeError
  {
    if items == [] then Ok(JNull)
    else match AsObject(items[0])
      case Err(e) => Err(e)
      case Ok(ms) =>
        if GetOr(ms, "code", JNull) == JString(code) then Ok(GetOr(ms, "value", JNull))
        else SettingValue(items[1..], code)
  }

  /** Item `i` is a dict whose `code` is the name. */
  predicate HasCode(item: Json, code: string) {
    item.JObject? && GetOr(item.members, "code", JNull) == JString(code)
  }

  /** The first matching item decides the value, whatever comes after it. */
  lemma {:induction false} SettingValueFirstMatch(items: seq<Json>, code: string, i: int)
    requires 0 <= i < |items| && HasCode(items[i], code)
    requires forall j :: 0 <= j < i ==> items[j].JObject? && !HasCode(items[j], code)
    ensures SettingValue(items, code) == Ok(GetOr(items[i].members, "value", JNull))
  {
    if i > 0 {
      assert forall j :: 0 <= j < i - 1 ==> items[1..][j] == items[j + 1];
      SettingValueFirstMatch(items[1..], code, i - 1);
    }
  }

  /** A list of dicts none of which carries the name gives `None`. */
  lemma {:induction false} SettingValueNoMatch(items: seq<Json>, code: string)
    requires forall j :: 0 <= j < |items| ==> items[j].JObject? && !HasCode(items[j], code)
    ensures SettingValue(items, code) == Ok(JNull)
  {
    if items != [] {
      assert forall j :: 0 <= j < |items| - 1 ==> items[1..][j] == items[j + 1];
      SettingValueNoMatch(items[1..], code);
    }
  }

  /** `get_setting_value` on any iterable: a list gives its items, a dict its
      keys and a string its characters (both of which then fail on `.get`);
      anything else is not iterable. */
  function GetSettingValue(settingList: Json, code: string): (r: Result<Json>)
    ensures settingList.JArray? ==> r == SettingValue(settingList.items, code)
    ensures !(settingList.JArray? || settingList.JObject? || settingList.JString?) ==>
      r.Err? && r.error.kind == TypeError
  {
    match Iterate(settingList)
    case Err(e) => Err(e)
    case Ok(items) => SettingValue(items, code)
  }

  // ---------------------------------------------------------------------------
  // set_columns, set_sites
  // ---------------------------------------------------------------------------

  /** A comprehension over a list that calls `.get` on every item and
      contributes `f(item)` for it: an item that is not a dict raises, and the
      list is only built once every item has been read. */
  function ConcatDicts(items: seq<Json>, f: seq<Member> -> seq<string>): Result<seq<string>> {
    if items == [] then Ok([])
    else match AsObject(items[0])
      case Err(e) => Err(e)
      case Ok(ms) =>
        match ConcatDicts(items[1..], f)
        case Err(e) => Err(e)
        case Ok(rest) => Ok(f(ms) + rest)
  }

  /** The comprehension raises exactly when some item is not a dict. */
  lemma {:induction false} ConcatDictsErrIff(items: seq<Json>, f: seq<Member> -> seq<string>)
    ensures ConcatDicts(items, f).Err? <==> exists i :: 0 <= i < |items| && !items[i].JObject?
    ensures ConcatDicts(items, f).Err? ==> ConcatDicts(items, f).error.kind == AttributeError
  {
    if items != [] {
      ConcatDictsErrIff(items[1..], f);
      assert forall i :: 0 <= i < |items| - 1 ==> items[1..][i] == items[i + 1];
      if exists i :: 0 <= i < |items| && !items[i].JObject? {
        var i :| 0 <= i < |items| && !items[i].JObject?;
        if i > 0 {
          assert !items[1..][i - 1].JObject?;
        }
      }
    }
  }

  /** The comprehension distributes over concatenation. */
  lemma {:induction false} ConcatDictsAppend(a: seq<Json>, b: seq<Json>, f: seq<Member> -> seq<string>)
    requires ConcatDicts(a, f).Ok? && ConcatDicts(b, f).Ok?
    ensures ConcatDicts(a + b, f) == Ok(ConcatDicts(a, f).value + ConcatDicts(b, f).value)
  {
    if a != [] {
      var d := a[0];
      assert (a + b)[0] == d && (a + b)[1..] == a[1..] + b;
      ConcatDictsAppend(a[1..], b, f);
      var ra, rb := ConcatDicts(a[1..], f).value, ConcatDicts(b, f).value;
      assert f(d.members) + (ra + rb) == (f(d.members) + ra) + rb;
    } else {
      assert [] + ConcatDicts(b, f).value == ConcatDicts(b, f).value;
      assert a + b == b;
    }
  }

  /** What one column or site contributes: `str(col.get("value"))` when
      `col.get("checked", False)` is truthy, else nothing. */
  function KeptOf(ms: seq<Member>): seq<string> {
    if Truthy(GetOr(ms, "checked", JBool(false))) then [PyStr(GetOr(ms, "value", JNull))] else []
  }

  /** `[str(col.get("value")) for col in items if col.get("checked", False)]`:
      the `value` text of every dict whose `checked` is truthy, in order. */
  function CheckedValues(items: seq<Json>): Result<seq<string>> {
    ConcatDicts(items, KeptOf)
  }

  /** Item `d` is a dict whose `checked` is truthy. */
  predicate Checked(d: Json) {
    d.JObject? && Truthy(GetOr(d.members, "checked", JBool(false)))
  }

  /** The kept values of `a + b` are those of `a` followed by those of `b`,
      a single dict keeps its value text exactly when it is checked, and the
      filter fails exactly on a list with an item that is not a dict. */
  lemma CheckedValuesMeaning(a: seq<Json>, b: seq<Json>, d: Json)
    ensures CheckedValues(a).Err? <==> exists i :: 0 <= i < |a| && !a[i].JObject?
    ensures CheckedValues(a).Ok? && CheckedValues(b).Ok? ==>
      CheckedValues(a + b) == Ok(CheckedValues(a).value + CheckedValues(b).value)
    ensures d.JObject? ==>
      CheckedValues([d]) == Ok(if Checked(d) then [PyStr(GetOr(d.members, "value", JNull))] else [])
  {
    ConcatDictsErrIff(a, KeptOf);
    if CheckedValues(a).Ok? && CheckedValues(b).Ok? {
      ConcatDictsAppend(a, b, KeptOf);
    }
    if d.JObject? {
      assert [d][1..] == [];
      assert ConcatDicts([d][1..], KeptOf) == Ok([]);
      assert KeptOf(d.members) + [] == KeptOf(d.members);
    }
  }

  /** Items none of which is checked keep nothing. */
  lemma {:induction false} CheckedValuesNone(items: seq<Json>)
    requires forall i :: 0 <= i < |items| ==> items[i].JObject? && !Checked(items[i])
    ensures CheckedValues(items) == Ok([])
  {
    if items != [] {
      assert forall i :: 0 <= i < |items| - 1 ==> items[1..][i] == items[i + 1];
      CheckedValuesNone(items[1..]);
      assert KeptOf(items[0].members) == [];
      var none: seq<string> := [];
      assert none + none == none;
      assert ConcatDicts(items, KeptOf) == Ok(none);
    }
  }

  /** What `set_columns(columns)` / `set_sites(sites)` store: `[]` for a falsy
      argument (`None`, `[]`), else the checked values of what iterating the
      argument yields. */
  function CheckedList(arg: Json): (r: Result<seq<string>>)
    ensures !Truthy(arg) ==> r == Ok([])
    ensures Truthy(arg) && arg.JArray? ==> r == CheckedValues(arg.items)
    ensures Truthy(arg) && !(arg.JArray? || arg.JObject? || arg.JString?) ==>
      r.Err? && r.error.kind == TypeError
  {
    if !Truthy(arg) then Ok([])
    else match Iterate(arg)
      case Err(e) => Err(e)
      case Ok(items) => CheckedValues(items)
  }

  // ---------------------------------------------------------------------------
  // run
  // ---------------------------------------------------------------------------

  datatype Hook = Init | Main | Destroy

  /** What the run leaves behind, in order: each hook call, and each message
      sent through `log_signal_func`. */
  datatype Event = Call(hook: Hook) | Log(line: string)

  /** "init failed -> exit". */
  const InitFailed: string := "\U{CD08}\U{AE30}\U{D654} \U{C2E4}\U{D328} \U{2192} \U{C885}\U{B8CC}"
  /** "init succeeded". */
  const InitOk: string := "\U{CD08}\U{AE30}\U{D654} \U{C131}\U{ACF5}"
  /** "main failed". */
  const MainFailed: string := "\U{BA54}\U{C778} \U{C2E4}\U{D328}"
  /** "main succeeded". */
  const MainOk: string := "\U{BA54}\U{C778} \U{C131}\U{ACF5}"
  /** "finished". */
  const Finished: string := "\U{C885}\U{B8CC} \U{C644}\U{B8CC}"
  /** "error raised: ". */
  const ErrorPrefix: string := "\U{274C} \U{C608}\U{C678} \U{BC1C}\U{C0DD}: "

  /** The `except` branch: the error is logged and `destroy` is tried once
      more, with whatever it raises then swallowed. */
  function Caught(e: Exc): seq<Event> {
    [Log(ErrorPrefix + e.msg), Call(Destroy)]
  }

  /** The events of `run()`, given what each subclass hook returns or raises:
      `init` and `main` give a truth value or raise, the first `destroy` call
      raises or not. */
  function RunEvents(init: Result<bool>, main: Result<bool>, destroy: Option<Exc>): seq<Event> {
    match init
    case Err(e) => [Call(Init)] + Caught(e)
    case Ok(false) =>
      [Call(Init), Log(InitFailed), Call(Destroy)] + (if destroy.Some? then Caught(destroy.value) else [])
    case Ok(true) => [Call(Init), Log(InitOk), Call(Main)] + AfterMain(main, destroy)
  }

  /** The ordering `run()` guarantees: `init` comes first; `main` is called
      exactly when `init` returned true, and never after `destroy`; `destroy`
      is always called; the run ends with "finished" exactly when no hook
      raised and `init` succeeded, and otherwise with a `destroy` call. */
  lemma {:induction false} RunOrder(init: Result<bool>, main: Result<bool>, destroy: Option<Exc>)
    ensures var r := RunEvents(init, main, destroy);
      && |r| >= 3 && r[0] == Call(Init)
      && (Call(Main) in r <==> init == Ok(true))
      && Call(Destroy) in r
      && (forall i, j :: 0 <= i < j < |r| && r[j] == Call(Main) ==> r[i] != Call(Destroy))
      && (r[|r| - 1] == Log(Finished) <==> init == Ok(true) && main.Ok? && destroy.None?)
      && (r[|r| - 1] != Log(Finished) ==> r[|r| - 1] == Call(Destroy))
  {
  }

  /** How many `destroy` calls the `except` branch adds after a first call
      to `destroy` that raised or returned. */
  lemma DestroysAfter(destroy: Option<Exc>, last: Event)
    requires last != Call(Destroy)
    ensures multiset(if destroy.Some? then Caught(destroy.value) else [last])[Call(Destroy)] ==
      if destroy.Some? then 1 else 0
  {
  }

  /** `destroy` runs once, or twice exactly when its first call (made after
      `init` returned false or after `main` returned) raised, since the
      `except` branch calls it again. */
  lemma {:induction false} RunDestroysOnceOrTwice(init: Result<bool>, main: Result<bool>, destroy: Option<Exc>)
    ensures multiset(RunEvents(init, main, destroy))[Call(Destroy)] ==
      if init.Ok? && (init.value == false || main.Ok?) && destroy.Some? then 2 else 1
  {
    var r := RunEvents(init, main, destroy);
    match init
    case Err(e) =>
      assert r == [Call(Init)] + Caught(e);
    case Ok(false) =>
      var t := if destroy.Some? then Caught(destroy.value) else [];
      assert r == [Call(Init), Log(InitFailed), Call(Destroy)] + t;
      assert multiset(t)[Call(Destroy)] == if destroy.Some? then 1 else 0;
    case Ok(true) =>
      DestroysAfterMain(main, destroy);
      assert r == [Call(Init), Log(InitOk), Call(Main)] + AfterMain(main, destroy);
  }

  /** The events of `run()` after `main` was called. */
  function AfterMain(main: Result<bool>, destroy: Option<Exc>): seq<Event> {
    match main
    case Err(e) => Caught(e)
    case Ok(b) =>
      [Log(if b then MainOk else MainFailed), Call(Destroy)]
      + (if destroy.Some? then Caught(destroy.value) else [Log(Finished)])
  }

  lemma DestroysAfterMain(main: Result<bool>, destroy: Option<Exc>)
    ensures multiset(AfterMain(main, destroy))[Call(Destroy)] == if main.Ok? && destroy.Some? then 2 else 1
  {
    if main.Ok? {
      var t := if destroy.Some? then Caught(destroy.value) else [Log(Finished)];
      DestroysAfter(destroy, Log(Finished));
      assert AfterMain(main, destroy) == [Log(if main.value then MainOk else MainFailed), Call(Destroy)] + t;
    }
  }

  // ---------------------------------------------------------------------------
  // The worker
  // ---------------------------------------------------------------------------

  /** A `BaseApiWorker`: the settings the popups hand over, the filtered
      columns and sites, the running flag, and the events of its run. Values
      of any type are JSON values here, `None` being `JNull`. */
  class ApiWorker {
    var settingDetail: Json
    var user: Json
    var excelDataList: Json
    var region: Json
    var columns: seq<string>
    var sites: seq<string>
    var setting: Json
    var running: bool
    var events: seq<Event>

    /** `__init__`: empty columns and sites, running, everything else `None`. */
    constructor ()
      ensures columns == [] && sites == [] && running
      ensures settingDetail == JNull && user == JNull && excelDataList == JNull
      ensures region == JNull && setting == JNull && events == []
    {
      settingDetail := JNull;
      user := JNull;
      excelDataList := JNull;
      region := JNull;
      columns := [];
      sites := [];
      setting := JNull;
      running := true;
      events := [];
    }

    /** `set_columns(columns)`: the checked values, or `[]` when the argument
        is falsy or reading it raised (the field was cleared first). */
    method SetColumns(arg: Json) returns (e: Option<Exc>)
      modifies this
      ensures CheckedList(arg).Ok? ==> columns == CheckedList(arg).value && e.None?
      ensures CheckedList(arg).Err? ==> columns == [] && e == Some(CheckedList(arg).error)
      ensures sites == old(sites) && events == old(events) && setting == old(setting)
      ensures settingDetail == old(settingDetail) && user == old(user) && excelDataList == old(excelDataList)
      ensures region == old(region) && running == old(running)
    {
      columns := [];
      var kept := CheckedList(arg);
      if kept.Err? {
        return Some(kept.error);
      }
      columns := kept.value;
      e := None;
    }

    /** `set_sites(sites)`: the same filter, stored in `sites`. */
    method SetSites(arg: Json) returns (e: Option<Exc>)
      modifies this
      ensures CheckedList(arg).Ok? ==> sites == CheckedList(arg).value && e.None?
      ensures CheckedList(arg).Err? ==> sites == [] && e == Some(CheckedList(arg).error)
      ensures columns == old(columns) && events == old(events) && setting == old(setting)
      ensures settingDetail == old(settingDetail) && user == old(user) && excelDataList == old(excelDataList)
      ensures region == old(region) && running == old(running)
    {
      sites := [];
      var kept := CheckedList(arg);
      if kept.Err? {
        return Some(kept.error);
      }
      sites := kept.value;
      e := None;
    }

    /** `run()`, step by step, given what the hooks do. Nothing escapes: any
        error from a hook is logged. */
    method Run(init: Result<bool>, main: Result<bool>, destroy: Option<Exc>)
      modifies this
      ensures events == old(events) + RunEvents(init, main, destroy)
      ensures columns == old(columns) && sites == old(sites)
      ensures setting == old(setting) && settingDetail == old(settingDetail) && user == old(user)
      ensures excelDataList == old(excelDataList) && region == old(region) && running == old(running)
    {
      events := events + [Call(Init)];
      if init.Err? {
        events := events + Caught(init.error);
        return;
      }
      if !init.value {
        events := events + [Log(InitFailed), Call(Destroy)];
        if destroy.Some? {
          events := events + Caught(destroy.value);
        }
        return;
      }
      events := events + [Log(InitOk), Call(Main)];
      if main.Err? {
        events := events + Caught(main.error);
        return;
      }
      events := events + [Log(if main.value then MainOk else MainFailed), Call(Destroy)];
      if destroy.Some? {
        events := events + Caught(destroy.value);
        return;
      }
      events := events + [Log(Finished)];
    }
  }
}

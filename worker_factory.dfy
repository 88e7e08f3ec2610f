/** `src/workers/worker_factory.py`: turns the `worker_class` text of a site
    configuration (`"package.module:ClassName"`) into a worker class, with a
    process-wide cache of the classes already loaded. */
module WorkerFactory {
  import opened Common
  import opened JsonValue
  import opened AppConfigLoader

  /** A class as `getattr` finds it; `isWorker` says whether it is a subclass
      of `BaseApiWorker`. */
  datatype ClassRef = ClassRef(qualname: string, isWorker: bool)

  /** What a module attribute holds: `None`, a class, or any other object. */
  datatype Attr = NoneAttr | IsClass(cls: ClassRef) | NotClass

  /** The modules `importlib.import_module` can load, by dotted path, each
      with its attributes. A path that is absent raises `ModuleNotFoundError`. */
  type Modules = map<string, map<string, Attr>>

  /** An instance created by `cls()`. */
  datatype Worker = Worker(cls: ClassRef)

  /** "the worker_class text is empty." */
  const EmptyMessage: string :=
    "worker_class \U{BB38}\U{C790}\U{C5F4}\U{C774} \U{BE44}\U{C5B4}\U{C788}\U{C2B5}\U{B2C8}\U{B2E4}."

  /** "the worker_class format is wrong. It must be 'module:class': ". */
  const NoColonPrefix: string :=
    "worker_class \U{D615}\U{C2DD}\U{C774} \U{C798}\U{BABB}\U{B418}\U{C5C8}\U{C2B5}\U{B2C8}\U{B2E4}. '\U{BAA8}\U{B4C8}:\U{D074}\U{B798}\U{C2A4}' \U{C774}\U{C5B4}\U{C57C} \U{D569}\U{B2C8}\U{B2E4}: "

  /** "the worker_class format is wrong: ". */
  const BadFormPrefix: string :=
    "worker_class \U{D615}\U{C2DD}\U{C774} \U{C798}\U{BABB}\U{B418}\U{C5C8}\U{C2B5}\U{B2C8}\U{B2E4}: "

  /** "cannot find worker_class: ". */
  const NotFoundPrefix: string :=
    "worker_class\U{B97C} \U{CC3E}\U{C744} \U{C218} \U{C5C6}\U{C2B5}\U{B2C8}\U{B2E4}: "

  /** "worker_class must inherit BaseApiWorker: ". */
  const NotWorkerPrefix: string :=
    "worker_class\U{B294} BaseApiWorker\U{B97C} \U{C0C1}\U{C18D}\U{D574}\U{C57C} \U{D569}\U{B2C8}\U{B2E4}: "

  /** The two halves of a spec: split at the first `:`, each trimmed. */
  function Halves(s: string): (r: Option<(string, string)>)
    ensures r.None? <==> ':' !in s
    ensures r.Some? ==> exists a, b :: ':' !in a && s == a + [':'] + b && r.value == (Strip(a), Strip(b))
  {
    match SplitOnce(s, ':')
    case None => None
    case Some((a, b)) => Some((Strip(a), Strip(b)))
  }

  /** `getattr(mod, class_name, None)`. */
  function Lookup(mods: Modules, m: string, c: string): Attr
    requires m in mods
  {
    if c in mods[m] then mods[m][c] else NoneAttr
  }

  /** Loading a trimmed, non-blank spec that is not cached: the checks after
      the cache lookup, in the order the source makes them. */
  function ResolveSpec(mods: Modules, s: string): (r: Result<ClassRef>)
    ensures ':' !in s ==> r == Err(Exc(ValueError, NoColonPrefix + s))
    ensures r.Ok? ==>
      (&& r.value.isWorker && Halves(s).Some?
       && var (m, c) := Halves(s).value;
          m != [] && c != [] && m in mods && Lookup(mods, m, c) == IsClass(r.value))
    ensures r.Err? ==> r.error.kind in {ValueError, ImportError, TypeError}
  {
    match Halves(s)
    case None => Err(Exc(ValueError, NoColonPrefix + s))
    case Some((m, c)) =>
      if m == [] || c == [] then Err(Exc(ValueError, BadFormPrefix + s))
      else if m !in mods then Err(Exc(ImportError, "No module named '" + m + "'"))
      else match Lookup(mods, m, c)
        case NoneAttr => Err(Exc(ImportError, NotFoundPrefix + m + "." + c))
        case NotClass => Err(Exc(TypeError, NotWorkerPrefix + s))
        case IsClass(k) => if k.isWorker then Ok(k) else Err(Exc(TypeError, NotWorkerPrefix + s))
  }

  /** What `_load_worker_class(dotted)` gives when the cache is empty. */
  function Uncached(mods: Modules, dotted: string): (r: Result<ClassRef>)
    ensures Strip(dotted) == [] ==> r == Err(Exc(ValueError, EmptyMessage))
  {
    var s := Strip(dotted);
    if s == [] then Err(Exc(ValueError, EmptyMessage)) else ResolveSpec(mods, s)
  }

  /** The halves of `m: c` padded with whitespace are `m` and `c`. */
  lemma HalvesOfPadded(m: string, c: string, a2: string, b1: string)
    requires ':' !in m && m != [] && !IsSpace(m[0]) && !IsSpace(m[|m| - 1])
    requires c != [] && !IsSpace(c[0]) && !IsSpace(c[|c| - 1])
    requires IsBlank(a2) && IsBlank(b1)
    ensures Halves(m + a2 + ":" + b1 + c) == Some((m, c))
  {
    assert ':' !in m + a2 by {
      forall i | 0 <= i < |a2| ensures a2[i] != ':' {
        assert IsSpace(a2[i]);
      }
    }
    assert m + a2 + ":" + b1 + c == (m + a2) + [':'] + (b1 + c);
    SplitOnceAt(m + a2, b1 + c);
    StripOfPadded([], m, a2);
    assert [] + m + a2 == m + a2;
    StripOfPadded(b1, c, []);
    assert b1 + c + [] == b1 + c;
  }

  /** A spec written as `module:Class`, with whitespace around the whole
      spec and around either half, loads the class that module defines under
      that name. */
  lemma LoadOfSpec(mods: Modules, m: string, c: string, a1: string, a2: string, b1: string, b2: string)
    requires m != [] && ':' !in m && !IsSpace(m[0]) && !IsSpace(m[|m| - 1])
    requires c != [] && !IsSpace(c[0]) && !IsSpace(c[|c| - 1])
    requires IsBlank(a1) && IsBlank(a2) && IsBlank(b1) && IsBlank(b2)
    requires m in mods && Lookup(mods, m, c).IsClass? && Lookup(mods, m, c).cls.isWorker
    ensures Uncached(mods, a1 + m + a2 + ":" + b1 + c + b2) == Ok(Lookup(mods, m, c).cls)
  {
    var inner := m + a2 + ":" + b1 + c;
    StripOfSpec(m, c, a1, a2, b1, b2);
    HalvesOfPadded(m, c, a2, b1);
    assert inner != [];
  }

  /** The outer padding of a spec is what `strip()` removes. */
  lemma StripOfSpec(m: string, c: string, a1: string, a2: string, b1: string, b2: string)
    requires m != [] && !IsSpace(m[0]) && c != [] && !IsSpace(c[|c| - 1])
    requires IsBlank(a1) && IsBlank(b2)
    ensures Strip(a1 + m + a2 + ":" + b1 + c + b2) == m + a2 + ":" + b1 + c
  {
    var inner := m + a2 + ":" + b1 + c;
    assert a1 + m + a2 + ":" + b1 + c + b2 == a1 + inner + b2;
    assert inner[0] == m[0] && inner[|inner| - 1] == c[|c| - 1];
    StripOfPadded(a1, inner, b2);
  }

  /** The first `c` in `x + [c] + y`, when `x` has none, is right after `x`. */
  lemma {:induction false} IndexAfter(x: string, y: string, c: char)
    requires c !in x
    ensures IndexOf(x + [c] + y, c) == |x|
  {
    if x != [] {
      IndexAfter(x[1..], y, c);
      assert (x + [c] + y)[1..] == x[1..] + [c] + y;
    }
  }

  /** `SplitOnce` splits at the first separator. */
  lemma SplitOnceAt(x: string, y: string)
    requires ':' !in x
    ensures SplitOnce(x + [':'] + y, ':') == Some((x, y))
  {
    var s := x + [':'] + y;
    IndexAfter(x, y, ':');
    assert s[..|x|] == x && s[|x| + 1..] == y;
  }

  /** Every cached spec is non-blank and loads, uncached, to its cached class. */
  ghost predicate CacheAgrees(mods: Modules, cache: map<string, ClassRef>) {
    forall s :: s in cache ==> s != [] && ResolveSpec(mods, s) == Ok(cache[s])
  }

  lemma CacheAgreesAdd(mods: Modules, cache: map<string, ClassRef>, s: string, k: ClassRef)
    requires CacheAgrees(mods, cache) && s != [] && ResolveSpec(mods, s) == Ok(k)
    ensures CacheAgrees(mods, cache[s := k])
  {
    var c2 := cache[s := k];
    forall t | t in c2 ensures t != [] && ResolveSpec(mods, t) == Ok(c2[t]) {
      if t != s {
        assert t in cache && c2[t] == cache[t];
      }
    }
  }

  /** The module object `worker_factory`: the modules it can import, the
      `_WORKER_CLASS_CACHE` dict, and the module paths it has imported. */
  class Factory {
    const mods: Modules
    var cache: map<string, ClassRef>
    var imports: seq<string>

    /** Every cached class is what loading its spec gives, so the cache
        never changes an answer. */
    ghost predicate Valid()
      reads this
    {
      CacheAgrees(mods, cache)
    }

    constructor (importable: Modules)
      ensures Valid() && mods == importable && cache == map[] && imports == []
    {
      mods := importable;
      cache := map[];
      imports := [];
    }

    /** `_load_worker_class(dotted)`. The result is always what loading the
        trimmed spec would give without a cache. A cached spec is answered
        without importing; otherwise the module is imported once the spec
        is well formed, and a class that passes every check is cached. */
    method LoadWorkerClass(dotted: string) returns (r: Result<ClassRef>)
      requires Valid()
      modifies this
      ensures Valid()
      ensures r == Uncached(mods, dotted)
      ensures Strip(dotted) in old(cache) ==> cache == old(cache) && imports == old(imports)
      ensures Strip(dotted) !in old(cache) ==>
        && cache == (if r.Ok? then old(cache)[Strip(dotted) := r.value] else old(cache))
        && imports == old(imports) + ImportedBy(Strip(dotted))
    {
      var s := Strip(dotted);
      if s == [] {
        return Err(Exc(ValueError, EmptyMessage));
      }
      if s in cache {
        return Ok(cache[s]);
      }
      // `import_module` runs once the spec has a `:` and two non-blank halves;
      // the checks themselves, in order, are those of `ResolveSpec`.
      imports := imports + ImportedBy(s);
      r := ResolveSpec(mods, s);
      if r.Ok? {
        CacheAgreesAdd(mods, cache, s, r.value);
        cache := cache[s := r.value];
      }
    }

    /** `create_worker_from_site_config(site_conf)`: loads the class named by
        the trimmed `worker_class` field (a missing field reads as `""`, which
        raises) and instantiates it. */
    method CreateWorkerFromSiteConfig(siteConf: Json) returns (r: Result<Worker>)
      requires Valid()
      modifies this
      ensures Valid()
      ensures !siteConf.JObject? ==> r == Err(NoGet(siteConf)) && cache == old(cache) && imports == old(imports)
      ensures siteConf.JObject? ==>
        var loaded := Uncached(mods, FieldText(siteConf.members, "worker_class"));
        && (loaded.Ok? ==> r == Ok(Worker(loaded.value)))
        && (loaded.Err? ==> r == Err(loaded.error))
      ensures siteConf.JObject? ==>
        var spec := Strip(FieldText(siteConf.members, "worker_class"));
        var loaded := Uncached(mods, FieldText(siteConf.members, "worker_class"));
        && (spec in old(cache) ==> cache == old(cache) && imports == old(imports))
        && (spec !in old(cache) ==>
          && cache == (if loaded.Ok? then old(cache)[spec := loaded.value] else old(cache))
          && imports == old(imports) + ImportedBy(spec))
      ensures siteConf.JObject? && Get(siteConf.members, "worker_class").None? ==>
        r == Err(Exc(ValueError, EmptyMessage))
    {
      if !siteConf.JObject? {
        return Err(NoGet(siteConf));
      }
      var wc := FieldText(siteConf.members, "worker_class");
      var cls := LoadWorkerClass(wc);
      if cls.Err? {
        return Err(cls.error);
      }
      r := Ok(Worker(cls.value));
    }
  }

  /** The module path `import_module` is called with for an uncached spec:
      none when the spec has no `:` or a blank half. */
  function ImportedBy(s: string): (r: seq<string>)
    ensures |r| <= 1
    ensures r != [] ==> Halves(s).Some? && r == [Halves(s).value.0] && Halves(s).value.1 != []
  {
    if s == [] then []
    else match Halves(s)
      case None => []
      case Some((m, c)) => if m == [] || c == [] then [] else [m]
  }

  /** Loading the same spec twice gives the same answer both times. */
  method LoadTwice(f: Factory, dotted: string) returns (a: Result<ClassRef>, b: Result<ClassRef>)
    requires f.Valid()
    modifies f
    ensures a == b
    ensures a.Ok? ==> Strip(dotted) in f.cache
  {
    a := f.LoadWorkerClass(dotted);
    b := f.LoadWorkerClass(dotted);
  }
}

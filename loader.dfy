/**
 The route loader object: its `config`, `controllers` and `routes` fields
 and the three steps that fill them in turn, `loadConfig`, `initRoute` and
 `registRoute`, with the tables each step produces stated as functions of
 its inputs.
 */
module Loader {
  import opened JsString
  import opened RouteTypes
  import opened Naming
  import opened Layering
  import opened Generators
  import opened Registration

  const MissingBaseDir := "Missing basedir!"

  // ---------------------------------------------------------------- loadConfig

  /** `path.join(dir, name)`, without path normalisation. */
  function Join(dir: string, name: string): string {
    dir + "/" + name
  }

  const DirectoryKeys: set<string> := {"baseDir", "configDir", "controllerDir", "modelDir", "viewDir"}

  /** The configuration with the base directory and the four directories derived from it. */
  function DirectoryConfig(cfg: map<string, ConfigValue>, basedir: string): map<string, ConfigValue> {
    cfg["baseDir" := Text(basedir)]
       ["configDir" := Text(Join(basedir, "config"))]
       ["controllerDir" := Text(Join(basedir, "controllers"))]
       ["modelDir" := Text(Join(basedir, "models"))]
       ["viewDir" := Text(Join(basedir, "views"))]
  }

  /** What each config file adds: its exports if it is a `.js` file, nothing otherwise. */
  function ConfigLayers(listing: seq<ConfigFile>): (ls: seq<map<string, ConfigValue>>)
    ensures |ls| == |listing|
    ensures forall i :: 0 <= i < |listing| ==>
      ls[i] == if IsJsFile(listing[i].name) then listing[i].exports else map[]
  {
    seq(|listing|, i requires 0 <= i < |listing| =>
      if IsJsFile(listing[i].name) then listing[i].exports else map[])
  }

  /** The configuration `loadConfig` leaves: the directories, then the `.js` files merged in listing order. */
  function LoadedConfig(cfg: map<string, ConfigValue>, basedir: string, listing: seq<ConfigFile>): map<string, ConfigValue> {
    Layer(DirectoryConfig(cfg, basedir), ConfigLayers(listing))
  }

  /** A setting is the one of the last `.js` config file that exports it. */
  lemma LaterConfigWins(cfg: map<string, ConfigValue>, basedir: string, listing: seq<ConfigFile>, k: string, j: nat)
    requires j < |listing| && IsJsFile(listing[j].name) && k in listing[j].exports
    requires forall i :: j < i < |listing| && IsJsFile(listing[i].name) ==> k !in listing[i].exports
    ensures k in LoadedConfig(cfg, basedir, listing)
    ensures LoadedConfig(cfg, basedir, listing)[k] == listing[j].exports[k]
  {
    LayerLastWins(DirectoryConfig(cfg, basedir), ConfigLayers(listing), k, j);
  }

  /** The five directories `loadConfig` derives from the base directory; every other setting is kept. */
  lemma DirectorySettings(cfg: map<string, ConfigValue>, basedir: string)
    ensures DirectoryConfig(cfg, basedir)["baseDir"] == Text(basedir)
    ensures DirectoryConfig(cfg, basedir)["configDir"] == Text(basedir + "/config")
    ensures DirectoryConfig(cfg, basedir)["controllerDir"] == Text(basedir + "/controllers")
    ensures DirectoryConfig(cfg, basedir)["modelDir"] == Text(basedir + "/models")
    ensures DirectoryConfig(cfg, basedir)["viewDir"] == Text(basedir + "/views")
    ensures forall k :: k in cfg ==> k in DirectoryConfig(cfg, basedir)
    ensures forall k :: k in cfg && k !in DirectoryKeys ==> DirectoryConfig(cfg, basedir)[k] == cfg[k]
  {
    assert "baseDir"[0] != "viewDir"[0];
  }

  /**
   A setting no `.js` config file exports keeps its value from before the
   config files were merged (in particular the five directories); files not
   ending in `.js` are never read.
   */
  lemma ConfigKeepsDirectories(cfg: map<string, ConfigValue>, basedir: string, listing: seq<ConfigFile>, k: string)
    requires forall i :: 0 <= i < |listing| && IsJsFile(listing[i].name) ==> k !in listing[i].exports
    ensures k in LoadedConfig(cfg, basedir, listing) <==> k in DirectoryConfig(cfg, basedir)
    ensures k in DirectoryConfig(cfg, basedir) ==>
      LoadedConfig(cfg, basedir, listing)[k] == DirectoryConfig(cfg, basedir)[k]
  {
    LayerKeepsBase(DirectoryConfig(cfg, basedir), ConfigLayers(listing), k);
  }

  // ---------------------------------------------------------------- initRoute

  /** The routes one controller contributes: action, then shortcut, then REST, each as its flags allow. */
  function ControllerRoutes(file: string, c: Controller): map<string, Route> {
    Combine(c.action, ActionRoute(c, file), c.shortcut, ShortcutRoute(c, file), c.rest, RestRoute(c, file))
  }

  /** The merge of the parts whose flag is set, in order. */
  function Combine(useA: bool, a: map<string, Route>, useS: bool, s: map<string, Route>, useR: bool, r: map<string, Route>): map<string, Route> {
    Extend(Extend(if useA then a else map[], if useS then s else map[]), if useR then r else map[])
  }

  /** What one file of the controllers directory adds to the route table. */
  function RouteLayer(file: ControllerFile): map<string, Route> {
    if IsControllerFile(file.name) then ControllerRoutes(file.name, file.controller) else map[]
  }

  /** What one file of the controllers directory adds to the controller registry. */
  function RegistryLayer(file: ControllerFile): map<string, Controller> {
    if IsControllerFile(file.name) then map[ControllerKey(file.name) := file.controller] else map[]
  }

  function RouteLayers(listing: seq<ControllerFile>): (ls: seq<map<string, Route>>)
    ensures |ls| == |listing|
  {
    seq(|listing|, i requires 0 <= i < |listing| => RouteLayer(listing[i]))
  }

  function RegistryLayers(listing: seq<ControllerFile>): (ls: seq<map<string, Controller>>)
    ensures |ls| == |listing|
  {
    seq(|listing|, i requires 0 <= i < |listing| => RegistryLayer(listing[i]))
  }

  /** `config.routes` when it is a table of routes. */
  function ConfigRoutes(cfg: map<string, ConfigValue>): map<string, Route> {
    if "routes" in cfg && cfg["routes"].RouteMap? then cfg["routes"].table else map[]
  }

  /** The table `initRoute` leaves: the controllers' routes in listing order, then the configured routes. */
  function BuiltTable(routes: map<string, Route>, listing: seq<ControllerFile>, cfg: map<string, ConfigValue>): map<string, Route> {
    Extend(Layer(routes, RouteLayers(listing)), ConfigRoutes(cfg))
  }

  /** Merging the parts one after another is merging their combination. */
  lemma MergeParts(before: map<string, Route>, useA: bool, a: map<string, Route>, useS: bool, s: map<string, Route>, useR: bool, r: map<string, Route>)
    ensures var x := if useA then Extend(before, a) else before;
      var y := if useS then Extend(x, s) else x;
      var z := if useR then Extend(y, r) else y;
      z == Extend(before, Combine(useA, a, useS, s, useR, r))
  {
    var a', s', r' := if useA then a else map[], if useS then s else map[], if useR then r else map[];
    var x := if useA then Extend(before, a) else before;
    var y := if useS then Extend(x, s) else x;
    ExtendEmpty(before);
    ExtendEmpty(x);
    ExtendEmpty(y);
    assert x == Extend(before, a');
    assert y == Extend(x, s');
    ExtendAssociative(before, a', s');
    ExtendAssociative(before, Extend(a', s'), r');
  }

  /**
   The state of `initRoute`'s loop after the first `i` files: the registry
   and the table with those files merged in order.
   */
  predicate Initialised(registry0: map<string, Controller>, routes0: map<string, Route>, listing: seq<ControllerFile>, i: nat,
                        registry: map<string, Controller>, routes: map<string, Route>) {
    && i <= |listing|
    && registry == Layer(registry0, RegistryLayers(listing)[..i])
    && routes == Layer(routes0, RouteLayers(listing)[..i])
  }

  lemma InitStart(registry0: map<string, Controller>, routes0: map<string, Route>, listing: seq<ControllerFile>)
    ensures Initialised(registry0, routes0, listing, 0, registry0, routes0)
  {
    assert RegistryLayers(listing)[..0] == [];
    assert RouteLayers(listing)[..0] == [];
  }

  /** One more file of `initRoute`'s loop. */
  lemma InitStep(registry0: map<string, Controller>, routes0: map<string, Route>, listing: seq<ControllerFile>, i: nat,
                 registry: map<string, Controller>, routes: map<string, Route>)
    requires Initialised(registry0, routes0, listing, i, registry, routes) && i < |listing|
    ensures Initialised(registry0, routes0, listing, i + 1,
                        Extend(registry, RegistryLayer(listing[i])), Extend(routes, RouteLayer(listing[i])))
  {
    LayerSnoc(registry0, RegistryLayers(listing), i);
    LayerSnoc(routes0, RouteLayers(listing), i);
  }

  lemma InitDone(registry0: map<string, Controller>, routes0: map<string, Route>, listing: seq<ControllerFile>,
                 registry: map<string, Controller>, routes: map<string, Route>)
    requires Initialised(registry0, routes0, listing, |listing|, registry, routes)
    ensures registry == Layer(registry0, RegistryLayers(listing))
    ensures routes == Layer(routes0, RouteLayers(listing))
  {
    assert RegistryLayers(listing)[..|listing|] == RegistryLayers(listing);
    assert RouteLayers(listing)[..|listing|] == RouteLayers(listing);
  }

  /** Within one controller a REST route replaces a shortcut route, which replaces an action route, under the same key. */
  lemma ControllerRoutesPrecedence(file: string, c: Controller, k: string)
    ensures c.rest && k in RestRoute(c, file) ==>
      k in ControllerRoutes(file, c) && ControllerRoutes(file, c)[k] == RestRoute(c, file)[k]
    ensures c.shortcut && k in ShortcutRoute(c, file) && !(c.rest && k in RestRoute(c, file)) ==>
      k in ControllerRoutes(file, c) && ControllerRoutes(file, c)[k] == ShortcutRoute(c, file)[k]
    ensures k in ControllerRoutes(file, c) ==>
      || (c.rest && k in RestRoute(c, file))
      || (c.shortcut && k in ShortcutRoute(c, file))
      || (c.action && k in ActionRoute(c, file) && ControllerRoutes(file, c)[k] == ActionRoute(c, file)[k])
  {
  }

  /** With `indexAction` and a REST `find`, the REST route takes `get /<seg>`: the landing route is lost. */
  lemma RestFindReplacesIndex(file: string, c: Controller)
    requires c.action && c.rest && "indexAction" in c.functions && Defines(c, Find)
    ensures IndexKey(file) in ActionRoute(c, file)
    ensures IndexKey(file) == RestKey(file, Find)
    ensures ControllerRoutes(file, c)[IndexKey(file)] == RestEntry(file, Find)
    ensures ControllerRoutes(file, c)[IndexKey(file)] != IndexEntry(file)
  {
    IndexRoute(c, file);
    assert RestKey(file, Find) == "get" + " " + ("/" + Segment(file));
    assert "get" + " " == "get ";
    RestRouteAt(c, file, Find);
  }

  /** An action named after a CRUD verb (`findAction`, …) shares its key with the shortcut route, which wins. */
  lemma ShortcutReplacesVerbAction(file: string, c: Controller, v: Crud)
    requires c.shortcut && Defines(c, v)
    ensures ActionKey(file, CrudName(v) + "Action") == ShortcutKey(file, v)
    ensures ShortcutKey(file, v) in ControllerRoutes(file, c)
    ensures ControllerRoutes(file, c)[ShortcutKey(file, v)] == ShortcutEntry(file, v)
  {
    VerbActionKey(file, v);
    ShortcutRouteAt(c, file, v);
    var k := ShortcutKey(file, v);
    if k in RestRoute(c, file) {
      RestRouteNothingElse(c, file, k);
      var w :| Defines(c, w) && k == RestKey(file, w);
      ShortcutKeyIsNotRest(file, v, w);
      assert false;
    }
  }

  /** Every route a controller contributes is well formed: complete, with a generated method, agreeing with its key. */
  lemma ControllerRoutesWellFormed(file: string, c: Controller)
    ensures WellFormedTable(file, ControllerRoutes(file, c))
  {
    ActionRouteWellFormed(c, file);
    ShortcutRouteWellFormed(c, file);
    RestRouteWellFormed(c, file);
    CombineWellFormed(file, c.action, ActionRoute(c, file), c.shortcut, ShortcutRoute(c, file), c.rest, RestRoute(c, file));
  }

  /** Merging well-formed tables of one file, each or not, gives a well-formed table. */
  lemma CombineWellFormed(file: string, useA: bool, a: map<string, Route>, useS: bool, s: map<string, Route>, useR: bool, r: map<string, Route>)
    requires WellFormedTable(file, a) && WellFormedTable(file, s) && WellFormedTable(file, r)
    ensures WellFormedTable(file, Combine(useA, a, useS, s, useR, r))
  {
    var m := Combine(useA, a, useS, s, useR, r);
    forall k | k in m
      ensures KeyAgrees(k, m[k]) && GeneratedMethod(m[k].descriptor.httpMethod.value)
      ensures m[k].descriptor.controller == Some(ControllerKey(file))
    {
      if useR && k in r {
        assert m[k] == r[k];
      } else if useS && k in s {
        assert m[k] == s[k];
      } else {
        assert m[k] == a[k];
      }
    }
  }

  /** A configured route always replaces whatever the controllers generated under its key. */
  lemma ConfigRoutesWin(routes: map<string, Route>, listing: seq<ControllerFile>, cfg: map<string, ConfigValue>, k: string)
    requires k in ConfigRoutes(cfg)
    ensures k in BuiltTable(routes, listing, cfg)
    ensures BuiltTable(routes, listing, cfg)[k] == ConfigRoutes(cfg)[k]
  {
  }

  /** Without a configured route under a key, the last controller file generating that key decides it. */
  lemma LastControllerWins(routes: map<string, Route>, listing: seq<ControllerFile>, cfg: map<string, ConfigValue>, k: string, j: nat)
    requires k !in ConfigRoutes(cfg)
    requires j < |listing| && IsControllerFile(listing[j].name)
    requires k in ControllerRoutes(listing[j].name, listing[j].controller)
    requires forall i :: j < i < |listing| && IsControllerFile(listing[i].name) ==>
      k !in ControllerRoutes(listing[i].name, listing[i].controller)
    ensures k in BuiltTable(routes, listing, cfg)
    ensures BuiltTable(routes, listing, cfg)[k] == ControllerRoutes(listing[j].name, listing[j].controller)[k]
  {
    LayerLastWins(routes, RouteLayers(listing), k, j);
  }

  /**
   The keys of the built table: those of the table before, those some
   controller file generates, and the configured ones; nothing else.
   */
  lemma BuiltTableKeys(routes: map<string, Route>, listing: seq<ControllerFile>, cfg: map<string, ConfigValue>, k: string)
    ensures k in BuiltTable(routes, listing, cfg) <==>
      || k in routes
      || k in ConfigRoutes(cfg)
      || exists i :: 0 <= i < |listing| && IsControllerFile(listing[i].name) &&
           k in ControllerRoutes(listing[i].name, listing[i].controller)
  {
    var ls := RouteLayers(listing);
    LayerKeys(routes, ls, k);
    if exists i :: 0 <= i < |ls| && k in ls[i] {
      var i :| 0 <= i < |ls| && k in ls[i];
      assert IsControllerFile(listing[i].name);
    }
    if exists i :: 0 <= i < |listing| && IsControllerFile(listing[i].name) &&
         k in ControllerRoutes(listing[i].name, listing[i].controller) {
      var i :| 0 <= i < |listing| && IsControllerFile(listing[i].name) &&
        k in ControllerRoutes(listing[i].name, listing[i].controller);
      assert k in ls[i];
    }
  }

  /** Each controller file is registered under its key; the last file with a key decides it. */
  lemma RegistryEntry(registry: map<string, Controller>, listing: seq<ControllerFile>, j: nat)
    requires j < |listing| && IsControllerFile(listing[j].name)
    requires forall i :: j < i < |listing| && IsControllerFile(listing[i].name) ==>
      ControllerKey(listing[i].name) != ControllerKey(listing[j].name)
    ensures ControllerKey(listing[j].name) in Layer(registry, RegistryLayers(listing))
    ensures Layer(registry, RegistryLayers(listing))[ControllerKey(listing[j].name)] == listing[j].controller
  {
    LayerLastWins(registry, RegistryLayers(listing), ControllerKey(listing[j].name), j);
  }

  // ---------------------------------------------------------------- registRoute

  predicate Distinct(s: seq<string>) {
    forall i, j :: 0 <= i < j < |s| ==> s[i] != s[j]
  }

  function Elements(s: seq<string>): set<string> {
    set x | x in s
  }

  /**
   The state of `registRoute`'s walk over the table `start` after the keys
   `visited`, none of which failed: their registrations made in order and
   their descriptors given their defaults.
   */
  predicate Walked(start: map<string, Route>, visited: seq<string>, regs: seq<Registration>, routes: map<string, Route>) {
    && Distinct(visited)
    && Elements(visited) <= start.Keys
    && (forall i :: 0 <= i < |visited| ==> !BadKey(visited[i]))
    && regs == Plan(visited, start)
    && routes == FillAll(start, Elements(visited))
  }

  lemma WalkStart(start: map<string, Route>)
    ensures Walked(start, [], [], start)
  {
    assert Elements([]) == {};
  }

  /** Visiting one more key that parses appends its registration and gives its entry alone its defaults. */
  lemma WalkStep(start: map<string, Route>, visited: seq<string>, regs: seq<Registration>, routes: map<string, Route>, key: string)
    requires Walked(start, visited, regs, routes)
    requires key in start && key !in Elements(visited)
    ensures key in routes && routes[key] == start[key]
    ensures !BadKey(key) ==> Walked(start, visited + [key], regs + StepFor(key, start), routes[key := FilledRoute(key, start[key])])
  {
    assert (visited + [key])[..|visited|] == visited;
    assert Elements(visited + [key]) == Elements(visited) + {key};
  }

  /** Setting an entry to the value it already has changes nothing. */
  lemma SetSame(m: map<string, Route>, k: string)
    requires k in m
    ensures m[k := m[k]] == m
  {
  }

  class RouteLoader {
    var config: map<string, ConfigValue>
    var controllers: map<string, Controller>
    var routes: map<string, Route>

    constructor ()
      ensures config == map[] && controllers == map[] && routes == map[]
    {
      config, controllers, routes := map[], map[], map[];
    }

    /**
     `loadConfig(basedir)`: fails on an empty base directory before touching
     anything; otherwise records the directories and merges every `.js`
     file of the config directory, in listing order.
     */
    method LoadConfig(basedir: string, listing: seq<ConfigFile>) returns (error: Option<string>)
      modifies this
      ensures controllers == old(controllers) && routes == old(routes)
      ensures basedir == [] ==> error == Some(MissingBaseDir) && config == old(config)
      ensures basedir != [] ==> error == None && config == LoadedConfig(old(config), basedir, listing)
    {
      if basedir == [] {
        return Some(MissingBaseDir);
      }
      config := DirectoryConfig(config, basedir);
      ghost var base := config;
      ghost var layers := ConfigLayers(listing);
      var i := 0;
      while i < |listing|
        invariant 0 <= i <= |listing|
        invariant config == Layer(base, layers[..i])
        invariant controllers == old(controllers) && routes == old(routes)
      {
        LayerSnoc(base, layers, i);
        if IsJsFile(listing[i].name) {
          config := Extend(config, listing[i].exports);
        } else {
          ExtendEmpty(config);
        }
        i := i + 1;
      }
      assert layers[..|listing|] == layers;
      error := None;
    }

    /**
     `initRoute()`: registers every controller file of the listing under its
     key and merges its action, shortcut and REST routes, file by file, then
     merges the configured routes over the result.
     */
    method InitRoute(listing: seq<ControllerFile>)
      modifies this
      ensures config == old(config)
      ensures controllers == Layer(old(controllers), RegistryLayers(listing))
      ensures routes == BuiltTable(old(routes), listing, config)
    {
      ghost var registry0, routes0 := controllers, routes;
      InitStart(registry0, routes0, listing);
      var i := 0;
      while i < |listing|
        invariant config == old(config)
        invariant Initialised(registry0, routes0, listing, i, controllers, routes)
      {
        InitStep(registry0, routes0, listing, i, controllers, routes);
        AddController(listing[i]);
        i := i + 1;
      }
      InitDone(registry0, routes0, listing, controllers, routes);
      routes := Extend(routes, ConfigRoutes(config));
    }

    /**
     The body of `initRoute`'s loop for one file: a controller file is
     registered under its key and its routes merged into the table; any
     other file is skipped.
     */
    method AddController(file: ControllerFile)
      modifies this
      ensures config == old(config)
      ensures controllers == Extend(old(controllers), RegistryLayer(file))
      ensures routes == Extend(old(routes), RouteLayer(file))
    {
      var name, controller := file.name, file.controller;
      if IsControllerFile(name) {
        ExtendOne(controllers, ControllerKey(name), controller);
        controllers := controllers[ControllerKey(name) := controller];
        MergeRoutes(controller.action, ActionRoute(controller, name),
                    controller.shortcut, ShortcutRoute(controller, name),
                    controller.rest, RestRoute(controller, name));
      } else {
        ExtendEmpty(controllers);
        ExtendEmpty(routes);
      }
    }

    /** The three merges of one controller's routes in `initRoute`: action, then shortcut, then REST, as its flags allow. */
    method MergeRoutes(useA: bool, a: map<string, Route>, useS: bool, s: map<string, Route>, useR: bool, r: map<string, Route>)
      modifies this
      ensures config == old(config) && controllers == old(controllers)
      ensures routes == Extend(old(routes), Combine(useA, a, useS, s, useR, r))
    {
      if useA {
        routes := Extend(routes, a);
      }
      if useS {
        routes := Extend(routes, s);
      }
      if useR {
        routes := Extend(routes, r);
      }
      MergeParts(old(routes), useA, a, useS, s, useR, r);
    }

    /**
     The body of `registRoute`'s walk for one key: read the method and
     pattern off the key, give a descriptor its defaults in place, and
     return the registration it makes, if any. A key that cannot be parsed
     fails and changes nothing.
     */
    method Visit(key: string) returns (reg: Result<Option<Registration>>)
      requires key in routes
      modifies this
      ensures config == old(config) && controllers == old(controllers)
      ensures reg.Err? <==> BadKey(key)
      ensures reg.Ok? ==> StepFor(key, old(routes)) == if reg.value.Some? then [reg.value.value] else []
      ensures routes == old(routes)[key := FilledRoute(key, old(routes)[key])]
    {
      var route := routes[key];
      var parsed := ParseKey(key);
      if parsed.Err? {
        SetSame(routes, key);
        return Err(parsed.message);
      }
      var m, p := parsed.value.httpMethod, parsed.value.pattern;
      match route {
        case View(template) =>
          SetSame(routes, key);
          reg := Ok(Some(Registration(m, p, RenderView(template))));
        case Target(d) =>
          var filled := Fill(d, parsed.value);
          routes := routes[key := Target(filled)];
          reg := Ok(Some(Registration(filled.httpMethod.value, filled.pattern,
                                      Dispatch(filled.controller.value, filled.action.value))));
        case Unroutable =>
          SetSame(routes, key);
          reg := Ok(None);
      }
    }

    /**
     `registRoute(app)`: visits every key of the table once, in an order the
     model leaves open, and makes its registration, filling in the defaults
     of each descriptor in place. A key that cannot be parsed stops the walk:
     the keys visited before it keep their registrations and defaults.
     */
    method RegistRoute() returns (visited: seq<string>, regs: seq<Registration>, failure: Option<string>)
      modifies this
      ensures config == old(config) && controllers == old(controllers)
      ensures Walked(old(routes), visited, regs, routes)
      ensures failure.None? ==> Elements(visited) == old(routes).Keys
      ensures failure.Some? ==> failure.value in old(routes) && BadKey(failure.value)
    {
      ghost var start := routes;
      var remaining := routes.Keys;
      visited, regs := [], [];
      WalkStart(start);
      while remaining != {}
        invariant Walked(start, visited, regs, routes)
        invariant Elements(visited) == start.Keys - remaining
        invariant config == old(config) && controllers == old(controllers)
        decreases remaining
      {
        var key :| key in remaining;
        WalkStep(start, visited, regs, routes, key);
        var reg := Visit(key);
        if reg.Err? {
          return visited, regs, Some(key);
        }
        if reg.value.Some? {
          regs := regs + [reg.value.value];
        }
        visited := visited + [key];
        remaining := remaining - {key};
      }
      failure := None;
    }
  }

  /**
   Registering the table that `RegistRoute` left, over the same keys, makes
   the same registrations again and changes the table no further.
   */
  lemma RegisterTwice(before: map<string, Route>, keys: seq<string>)
    ensures Plan(keys, FillAll(before, Elements(keys))) == Plan(keys, before)
    ensures FillAll(FillAll(before, Elements(keys)), Elements(keys)) == FillAll(before, Elements(keys))
  {
    PlanStable(keys, before, Elements(keys));
    FillAllIdempotent(before, Elements(keys));
  }
}

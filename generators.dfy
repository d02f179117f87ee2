/**
 The three route generators, `actionRoute`, `shortcutRoute` and `restRoute`:
 each maps a controller file's name and the controller's functions to a
 fresh table of route descriptors.
 */
module Generators {
  import opened JsString
  import opened RouteTypes
  import opened Naming
  import opened Layering

  /** A descriptor with all five fields, as every generator builds them. */
  function Entry(kind: string, httpMethod: string, pattern: string, controller: string, action: string): Route {
    Target(Descriptor(Some(kind), Some(httpMethod), Some(pattern), Some(controller), Some(action)))
  }

  /** A descriptor object with all five fields present. */
  predicate Complete(route: Route) {
    && route.Target?
    && route.descriptor.kind.Some?
    && route.descriptor.httpMethod.Some?
    && route.descriptor.pattern.Some?
    && route.descriptor.controller.Some?
    && route.descriptor.action.Some?
  }

  /**
   The key of an entry reads "<method> <path>", where <method> is the
   descriptor's own method and <path> is where its pattern starts.
   */
  predicate KeyAgrees(key: string, route: Route) {
    && Complete(route)
    && var m := route.descriptor.httpMethod.value;
       && |m| + 1 <= |key|
       && key[..|m| + 1] == m + " "
       && key[|m| + 1..] <= route.descriptor.pattern.value
  }

  /** The methods the generators give their routes. */
  predicate GeneratedMethod(m: string) {
    m == "all" || m == "get" || m == "post" || m == "put" || m == "delete"
  }

  /**
   Every entry of a generated table is complete, has one of the generated
   methods, names the file's controller, and agrees with its key.
   */
  predicate WellFormedTable(file: string, routes: map<string, Route>) {
    forall k :: k in routes ==>
      && KeyAgrees(k, routes[k])
      && GeneratedMethod(routes[k].descriptor.httpMethod.value)
      && routes[k].descriptor.controller == Some(ControllerKey(file))
  }

  // ---------------------------------------------------------------- action style

  /** `action.substr(-6) == 'Action'`. */
  predicate IsActionName(name: string) {
    TailOf(name, 6) == "Action"
  }

  /** `action.slice(0, -6).toLowerCase()`. */
  function ActionPath(name: string): string {
    Lower(DropLast(name, 6))
  }

  /** `/<seg>/<action name>`: the catch-all key's path and the start of its pattern. */
  function ActionStem(file: string, name: string): string {
    SegmentDir(file) + ActionPath(name)
  }

  /** `all /<seg>/<action name>`. */
  function ActionKey(file: string, name: string): string {
    "all " + ActionStem(file, name)
  }

  function ActionEntry(file: string, name: string): Route {
    Entry("action", "all", ActionStem(file, name) + "/:id?", ControllerKey(file), name)
  }

  /** `get /<seg>`. */
  function IndexKey(file: string): string {
    "get " + ("/" + Segment(file))
  }

  function IndexEntry(file: string): Route {
    Entry("action", "get", "/" + Segment(file), ControllerKey(file), "indexAction")
  }

  /** `/<seg>/`, the directory the action and shortcut paths of a controller share. */
  function SegmentDir(file: string): string {
    "/" + Segment(file) + "/"
  }

  lemma PrefixCancel(p: string, x: string, y: string)
    ensures p + x == p + y <==> x == y
  {
    if p + x == p + y {
      assert (p + x)[|p|..] == x;
      assert (p + y)[|p|..] == y;
    }
  }

  /** A key built as "<method> <stem>" agrees with a complete entry whose pattern extends the stem. */
  lemma AgreesWhen(m: string, stem: string, suffix: string, kind: string, ctl: string, action: string)
    ensures KeyAgrees(m + " " + stem, Entry(kind, m, stem + suffix, ctl, action))
  {
    var k := m + " " + stem;
    assert k[..|m| + 1] == m + " ";
    assert k[|m| + 1..] == stem;
    assert (stem + suffix)[..|stem|] == stem;
  }

  /** What one function name writes into the table in `actionRoute`'s loop. */
  function ActionEntries(file: string, name: string): map<string, Route> {
    if !IsActionName(name) then map[]
    else if name == "indexAction" then
      map[ActionKey(file, name) := ActionEntry(file, name), IndexKey(file) := IndexEntry(file)]
    else map[ActionKey(file, name) := ActionEntry(file, name)]
  }

  /** The entry (k, route) is one that the function `name` writes. */
  predicate WrittenBy(file: string, name: string, k: string, route: Route) {
    k in ActionEntries(file, name) && ActionEntries(file, name)[k] == route
  }

  lemma EntriesKeys(file: string, name: string, k: string)
    ensures k in ActionEntries(file, name) <==>
      IsActionName(name) && (k == ActionKey(file, name) || (name == "indexAction" && k == IndexKey(file)))
  {
  }

  function ActionLayers(file: string, names: seq<string>): (ls: seq<map<string, Route>>)
    ensures |ls| == |names|
    ensures forall i :: 0 <= i < |names| ==> ls[i] == ActionEntries(file, names[i])
  {
    seq(|names|, i requires 0 <= i < |names| => ActionEntries(file, names[i]))
  }

  /** `actionRoute(controller, file)`: the functions' entries written in listing order. */
  function ActionRoute(c: Controller, file: string): map<string, Route> {
    Layer(map[], ActionLayers(file, c.functions))
  }

  lemma IndexIsActionName()
    ensures IsActionName("indexAction")
  {
    assert "indexAction"[5..] == "Action";
  }

  /** A catch-all action key never coincides with a `get` key. */
  lemma ActionKeyIsNotGet(file: string, name: string, other: string)
    ensures ActionKey(file, name) != "get " + other
  {
    assert ActionKey(file, name)[0] == 'a';
    assert ("get " + other)[0] == 'g';
  }

  /** Two action names share a key exactly when their lower-cased stems are equal. */
  lemma ActionKeysCollide(file: string, a: string, b: string)
    ensures ActionKey(file, a) == ActionKey(file, b) <==> ActionPath(a) == ActionPath(b)
  {
    PrefixCancel("all ", ActionStem(file, a), ActionStem(file, b));
    PrefixCancel(SegmentDir(file), ActionPath(a), ActionPath(b));
  }

  /**
   The keys of `actionRoute`: one catch-all key per function whose name ends
   in `Action`, plus `get /<seg>` exactly when `indexAction` is among them.
   */
  lemma ActionRouteKeys(c: Controller, file: string, k: string)
    ensures k in ActionRoute(c, file) <==>
      || (exists i :: 0 <= i < |c.functions| && IsActionName(c.functions[i]) && k == ActionKey(file, c.functions[i]))
      || (k == IndexKey(file) && "indexAction" in c.functions)
  {
    var fs := c.functions;
    var ls := ActionLayers(file, fs);
    LayerKeys(map[], ls, k);
    if k in ActionRoute(c, file) {
      var i :| 0 <= i < |ls| && k in ls[i];
      EntriesKeys(file, fs[i], k);
    }
    if k == IndexKey(file) && "indexAction" in fs {
      var i :| 0 <= i < |fs| && fs[i] == "indexAction";
      IndexIsActionName();
      EntriesKeys(file, fs[i], k);
      assert k in ls[i];
    }
    if exists i :: 0 <= i < |fs| && IsActionName(fs[i]) && k == ActionKey(file, fs[i]) {
      var i :| 0 <= i < |fs| && IsActionName(fs[i]) && k == ActionKey(file, fs[i]);
      EntriesKeys(file, fs[i], k);
      assert k in ls[i];
    }
  }

  /**
   Every entry of `actionRoute` comes from a function whose name ends in
   `Action`: either its catch-all entry under its own key, or, for
   `indexAction` alone, the landing entry under `get /<seg>`.
   */
  lemma ActionRouteValues(c: Controller, file: string, k: string)
    requires k in ActionRoute(c, file)
    ensures exists i :: 0 <= i < |c.functions| && WrittenBy(file, c.functions[i], k, ActionRoute(c, file)[k])
  {
    var fs := c.functions;
    var ls := ActionLayers(file, fs);
    LayerProvenance(map[], ls, k);
    var i :| 0 <= i < |ls| && k in ls[i] && ActionRoute(c, file)[k] == ls[i][k];
    ActionKeyIsNotGet(file, fs[i], "/" + Segment(file));
  }

  /** Of several functions sharing a catch-all key, the last one listed owns the entry. */
  lemma ActionRouteLastWins(c: Controller, file: string, i: nat)
    requires i < |c.functions| && IsActionName(c.functions[i])
    requires forall j :: i < j < |c.functions| && IsActionName(c.functions[j]) ==>
      ActionPath(c.functions[j]) != ActionPath(c.functions[i])
    ensures ActionKey(file, c.functions[i]) in ActionRoute(c, file)
    ensures ActionRoute(c, file)[ActionKey(file, c.functions[i])] == ActionEntry(file, c.functions[i])
  {
    var fs := c.functions;
    var ls := ActionLayers(file, fs);
    var k := ActionKey(file, fs[i]);
    forall j | i < j < |ls|
      ensures k !in ls[j]
    {
      ActionKeysCollide(file, fs[i], fs[j]);
      ActionKeyIsNotGet(file, fs[i], "/" + Segment(file));
    }
    ActionKeyIsNotGet(file, fs[i], "/" + Segment(file));
    LayerLastWins(map[], ls, k, i);
  }

  /** Of all functions, only `indexAction` writes the landing key, and it writes the landing entry there. */
  lemma IndexEntries(file: string, name: string)
    ensures IndexKey(file) in ActionEntries(file, name) <==> name == "indexAction"
    ensures name == "indexAction" ==> ActionEntries(file, name)[IndexKey(file)] == IndexEntry(file)
  {
    IndexIsActionName();
    ActionKeyIsNotGet(file, name, "/" + Segment(file));
  }

  /** What a function writes is a descriptor; its method is `get` at the landing key and `all` elsewhere. */
  lemma EntryMethod(file: string, name: string, k: string)
    requires k in ActionEntries(file, name)
    ensures ActionEntries(file, name)[k].Target?
    ensures k == IndexKey(file) ==> name == "indexAction" && ActionEntries(file, name)[k].descriptor.httpMethod == Some("get")
    ensures k != IndexKey(file) ==> ActionEntries(file, name)[k].descriptor.httpMethod == Some("all")
  {
    IndexEntries(file, name);
  }

  /** `indexAction` yields the landing route `get /<seg>` with pattern `/<seg>`. */
  lemma IndexRoute(c: Controller, file: string)
    requires "indexAction" in c.functions
    ensures IndexKey(file) in ActionRoute(c, file)
    ensures ActionRoute(c, file)[IndexKey(file)] == IndexEntry(file)
  {
    var fs := c.functions;
    var ls := ActionLayers(file, fs);
    var k := IndexKey(file);
    var j :| 0 <= j < |fs| && fs[j] == "indexAction";
    IndexEntries(file, fs[j]);
    LayerKeys(map[], ls, k);
    LayerProvenance(map[], ls, k);
    var i :| 0 <= i < |ls| && k in ls[i] && ActionRoute(c, file)[k] == ls[i][k];
    IndexEntries(file, fs[i]);
  }

  /** Only `indexAction` yields a `get` entry; every other entry is a catch-all `all` route. */
  lemma ActionRouteMethods(c: Controller, file: string, k: string)
    requires k in ActionRoute(c, file)
    ensures ActionRoute(c, file)[k].Target?
    ensures ActionRoute(c, file)[k].descriptor.httpMethod == Some("get") <==> k == IndexKey(file)
    ensures k == IndexKey(file) ==> "indexAction" in c.functions
    ensures k != IndexKey(file) ==> ActionRoute(c, file)[k].descriptor.httpMethod == Some("all")
  {
    var fs := c.functions;
    var ls := ActionLayers(file, fs);
    LayerProvenance(map[], ls, k);
    var i :| 0 <= i < |ls| && k in ls[i] && ActionRoute(c, file)[k] == ls[i][k];
    EntryMethod(file, fs[i], k);
  }

  lemma WrittenEntryWellFormed(file: string, name: string, k: string, route: Route)
    requires WrittenBy(file, name, k, route)
    ensures KeyAgrees(k, route) && GeneratedMethod(route.descriptor.httpMethod.value)
    ensures route.descriptor.controller == Some(ControllerKey(file))
  {
    EntriesKeys(file, name, k);
    if k == ActionKey(file, name) {
      AgreesWhen("all", ActionStem(file, name), "/:id?", "action", ControllerKey(file), name);
    } else {
      AgreesWhen("get", "/" + Segment(file), "", "action", ControllerKey(file), "indexAction");
      assert "/" + Segment(file) + "" == "/" + Segment(file);
    }
  }

  lemma ActionRouteWellFormed(c: Controller, file: string)
    ensures WellFormedTable(file, ActionRoute(c, file))
  {
    var r := ActionRoute(c, file);
    forall k | k in r
      ensures KeyAgrees(k, r[k]) && GeneratedMethod(r[k].descriptor.httpMethod.value)
      ensures r[k].descriptor.controller == Some(ControllerKey(file))
    {
      ActionRouteValues(c, file, k);
      var i :| 0 <= i < |c.functions| && WrittenBy(file, c.functions[i], k, r[k]);
      WrittenEntryWellFormed(file, c.functions[i], k, r[k]);
    }
  }

  // ---------------------------------------------------------------- shortcut and REST style

  /** One guarded assignment of a generator: `if (present) routes[key] = entry`. */
  datatype Slot<V> = Slot(present: bool, key: string, entry: V)

  /** The table a run of guarded assignments writes, in order, into an empty object. */
  function Table<V>(slots: seq<Slot<V>>): (r: map<string, V>)
    ensures |r| <= |slots|
    decreases |slots|
  {
    if slots == [] then map[]
    else
      var m := Table(slots[..|slots| - 1]);
      var s := slots[|slots| - 1];
      if s.present then m[s.key := s.entry] else m
  }

  predicate DistinctKeys<V>(slots: seq<Slot<V>>) {
    forall i, j :: 0 <= i < j < |slots| ==> slots[i].key != slots[j].key
  }

  /** Every key of the table is the key of a present slot. */
  lemma {:induction false} TableKeys<V>(slots: seq<Slot<V>>, k: string)
    requires k in Table(slots)
    ensures exists i :: 0 <= i < |slots| && slots[i].present && slots[i].key == k
    decreases |slots|
  {
    var prefix := slots[..|slots| - 1];
    var s := slots[|slots| - 1];
    if !(s.present && s.key == k) {
      TableKeys(prefix, k);
      var i :| 0 <= i < |prefix| && prefix[i].present && prefix[i].key == k;
      assert slots[i] == prefix[i];
    }
  }

  /** With distinct keys, a slot's key is in the table exactly when the slot is present, and holds its entry. */
  lemma {:induction false} TableAt<V>(slots: seq<Slot<V>>, i: nat)
    requires DistinctKeys(slots) && i < |slots|
    ensures slots[i].key in Table(slots) <==> slots[i].present
    ensures slots[i].present ==> Table(slots)[slots[i].key] == slots[i].entry
    decreases |slots|
  {
    var prefix := slots[..|slots| - 1];
    assert DistinctKeys(prefix);
    if i == |slots| - 1 {
      if slots[i].key in Table(prefix) {
        TableKeys(prefix, slots[i].key);
      }
    } else {
      assert prefix[i] == slots[i];
      TableAt(prefix, i);
    }
  }

  /** With distinct keys and every slot present, the table has one entry per slot. */
  lemma {:induction false} TableFull<V>(slots: seq<Slot<V>>)
    requires DistinctKeys(slots)
    requires forall i :: 0 <= i < |slots| ==> slots[i].present
    ensures |Table(slots)| == |slots|
    decreases |slots|
  {
    if slots != [] {
      var prefix := slots[..|slots| - 1];
      var s := slots[|slots| - 1];
      assert DistinctKeys(prefix);
      TableFull(prefix);
      if s.key in Table(prefix) {
        TableKeys(prefix, s.key);
      }
    }
  }

  /** The four conventional CRUD functions a controller may define. */
  datatype Crud = Find | Create | Update | Delete

  /** The order in which both generators test for the CRUD functions. */
  const Verbs: seq<Crud> := [Find, Create, Update, Delete]

  function Position(v: Crud): (i: nat)
    ensures i < |Verbs| && Verbs[i] == v
  {
    match v
    case Find => 0
    case Create => 1
    case Update => 2
    case Delete => 3
  }

  function CrudName(v: Crud): string {
    match v
    case Find => "find"
    case Create => "create"
    case Update => "update"
    case Delete => "delete"
  }

  lemma CrudNameInjective(v: Crud, w: Crud)
    ensures CrudName(v) == CrudName(w) <==> v == w
  {
    if v != w {
      assert CrudName(v)[0] != CrudName(w)[0] || |CrudName(v)| != |CrudName(w)|;
    }
  }

  /** `_.isFunction(controller[name])`. */
  predicate Defines(c: Controller, v: Crud) {
    CrudName(v) in c.functions
  }

  /** What follows the path in a CRUD pattern: an optional id for `find`, none for `create`, a required one otherwise. */
  function IdSuffix(v: Crud): string {
    match v
    case Find => "/:id?"
    case Create => ""
    case Update => "/:id"
    case Delete => "/:id"
  }

  /** `/<seg>/<verb>`. */
  function ShortcutStem(file: string, v: Crud): string {
    SegmentDir(file) + CrudName(v)
  }

  /** `all /<seg>/<verb>`. */
  function ShortcutKey(file: string, v: Crud): string {
    "all " + ShortcutStem(file, v)
  }

  function ShortcutEntry(file: string, v: Crud): Route {
    Entry("shotcut", "all", ShortcutStem(file, v) + IdSuffix(v), ControllerKey(file), CrudName(v))
  }

  /** The four guarded assignments of `shortcutRoute`, in source order. */
  function ShortcutSlots(c: Controller, file: string): (slots: seq<Slot<Route>>)
    ensures |slots| == |Verbs|
    ensures forall i :: 0 <= i < |Verbs| ==>
      slots[i] == Slot(Defines(c, Verbs[i]), ShortcutKey(file, Verbs[i]), ShortcutEntry(file, Verbs[i]))
  {
    seq(|Verbs|, i requires 0 <= i < |Verbs| =>
      Slot(Defines(c, Verbs[i]), ShortcutKey(file, Verbs[i]), ShortcutEntry(file, Verbs[i])))
  }

  /** `shortcutRoute(controller, file)`: one catch-all entry per CRUD function present. */
  function ShortcutRoute(c: Controller, file: string): (routes: map<string, Route>)
    ensures |routes| <= 4
  {
    Table(ShortcutSlots(c, file))
  }

  lemma ShortcutKeyInjective(file: string, v: Crud, w: Crud)
    ensures ShortcutKey(file, v) == ShortcutKey(file, w) <==> v == w
  {
    PrefixCancel("all ", ShortcutStem(file, v), ShortcutStem(file, w));
    PrefixCancel(SegmentDir(file), CrudName(v), CrudName(w));
    CrudNameInjective(v, w);
  }

  lemma ShortcutKeysDistinct(c: Controller, file: string)
    ensures DistinctKeys(ShortcutSlots(c, file))
  {
    var slots := ShortcutSlots(c, file);
    forall i, j | 0 <= i < j < |slots|
      ensures slots[i].key != slots[j].key
    {
      ShortcutKeyInjective(file, Verbs[i], Verbs[j]);
    }
  }

  /**
   `shortcutRoute` has an entry at `all /<seg>/<verb>` exactly for each CRUD
   function present, with method `all`, the verb's pattern and the verb as
   action.
   */
  lemma ShortcutRouteAt(c: Controller, file: string, v: Crud)
    ensures ShortcutKey(file, v) in ShortcutRoute(c, file) <==> Defines(c, v)
    ensures Defines(c, v) ==> ShortcutRoute(c, file)[ShortcutKey(file, v)] == ShortcutEntry(file, v)
  {
    ShortcutKeysDistinct(c, file);
    TableAt(ShortcutSlots(c, file), Position(v));
  }

  /** Nothing but the present CRUD functions' keys is in the table. */
  lemma ShortcutRouteNothingElse(c: Controller, file: string, k: string)
    requires k in ShortcutRoute(c, file)
    ensures exists v :: Defines(c, v) && k == ShortcutKey(file, v)
  {
    var slots := ShortcutSlots(c, file);
    TableKeys(slots, k);
    var i :| 0 <= i < |slots| && slots[i].present && slots[i].key == k;
    assert Defines(c, Verbs[i]) && k == ShortcutKey(file, Verbs[i]);
  }

  /** With all four CRUD functions present the table has four entries. */
  lemma ShortcutRouteFull(c: Controller, file: string)
    requires forall v :: Defines(c, v)
    ensures |ShortcutRoute(c, file)| == 4
  {
    ShortcutKeysDistinct(c, file);
    TableFull(ShortcutSlots(c, file));
  }

  lemma ShortcutRouteWellFormed(c: Controller, file: string)
    ensures WellFormedTable(file, ShortcutRoute(c, file))
  {
    var r := ShortcutRoute(c, file);
    forall k | k in r
      ensures KeyAgrees(k, r[k]) && GeneratedMethod(r[k].descriptor.httpMethod.value)
      ensures r[k].descriptor.controller == Some(ControllerKey(file))
    {
      ShortcutRouteNothingElse(c, file, k);
      var v :| Defines(c, v) && k == ShortcutKey(file, v);
      ShortcutRouteAt(c, file, v);
      AgreesWhen("all", ShortcutStem(file, v), IdSuffix(v), "shotcut", ControllerKey(file), CrudName(v));
    }
  }

  function RestMethod(v: Crud): string {
    match v
    case Find => "get"
    case Create => "post"
    case Update => "put"
    case Delete => "delete"
  }

  /** `<verb method> /<seg>`. */
  function RestKey(file: string, v: Crud): string {
    RestMethod(v) + " " + ("/" + Segment(file))
  }

  function RestEntry(file: string, v: Crud): Route {
    Entry("rest", RestMethod(v), "/" + Segment(file) + IdSuffix(v), ControllerKey(file), CrudName(v))
  }

  /** The four guarded assignments of `restRoute`, in source order. */
  function RestSlots(c: Controller, file: string): (slots: seq<Slot<Route>>)
    ensures |slots| == |Verbs|
    ensures forall i :: 0 <= i < |Verbs| ==>
      slots[i] == Slot(Defines(c, Verbs[i]), RestKey(file, Verbs[i]), RestEntry(file, Verbs[i]))
  {
    seq(|Verbs|, i requires 0 <= i < |Verbs| =>
      Slot(Defines(c, Verbs[i]), RestKey(file, Verbs[i]), RestEntry(file, Verbs[i])))
  }

  /** `restRoute(controller, file)`: one verb-specific entry per CRUD function present. */
  function RestRoute(c: Controller, file: string): (routes: map<string, Route>)
    ensures |routes| <= 4
  {
    Table(RestSlots(c, file))
  }

  lemma RestKeyInjective(file: string, v: Crud, w: Crud)
    ensures RestKey(file, v) == RestKey(file, w) <==> v == w
  {
    if v != w {
      assert RestKey(file, v)[0] != RestKey(file, w)[0] || RestKey(file, v)[1] != RestKey(file, w)[1];
    }
  }

  lemma RestKeysDistinct(c: Controller, file: string)
    ensures DistinctKeys(RestSlots(c, file))
  {
    var slots := RestSlots(c, file);
    forall i, j | 0 <= i < j < |slots|
      ensures slots[i].key != slots[j].key
    {
      RestKeyInjective(file, Verbs[i], Verbs[j]);
    }
  }

  /**
   `restRoute` has an entry at `<verb method> /<seg>` exactly for each CRUD
   function present (find → get, create → post, update → put, delete →
   delete), whose action is that function.
   */
  lemma RestRouteAt(c: Controller, file: string, v: Crud)
    ensures RestKey(file, v) in RestRoute(c, file) <==> Defines(c, v)
    ensures Defines(c, v) ==> RestRoute(c, file)[RestKey(file, v)] == RestEntry(file, v)
  {
    RestKeysDistinct(c, file);
    TableAt(RestSlots(c, file), Position(v));
  }

  /** A lower-case stem followed by `Action` names an action whose path is the stem itself. */
  lemma ActionOfStem(file: string, stem: string)
    requires IsLowerCase(stem)
    ensures IsActionName(stem + "Action")
    ensures ActionKey(file, stem + "Action") == "all " + (SegmentDir(file) + stem)
  {
    var name := stem + "Action";
    assert TailOf(name, 6) == "Action";
    assert DropLast(name, 6) == stem;
    LowerIsLowerCase(stem);
  }

  lemma CrudNameIsLowerCase(v: Crud)
    ensures IsLowerCase(CrudName(v))
  {
    match v
    case Find => assert IsLowerCase("find");
    case Create => assert IsLowerCase("create");
    case Update => assert IsLowerCase("update");
    case Delete => assert IsLowerCase("delete");
  }

  /** An action named after a CRUD verb (`findAction`, …) has the key of that verb's shortcut route. */
  lemma VerbActionKey(file: string, v: Crud)
    ensures IsActionName(CrudName(v) + "Action")
    ensures ActionKey(file, CrudName(v) + "Action") == ShortcutKey(file, v)
  {
    CrudNameIsLowerCase(v);
    ActionOfStem(file, CrudName(v));
  }

  /** A catch-all key is never a REST key: the one starts with `all`, the other with a verb. */
  lemma ShortcutKeyIsNotRest(file: string, v: Crud, w: Crud)
    ensures ShortcutKey(file, v) != RestKey(file, w)
  {
    assert ShortcutKey(file, v)[0] == 'a';
    assert RestKey(file, w)[0] == RestMethod(w)[0];
  }

  /** Nothing but the present CRUD functions' keys is in the table. */
  lemma RestRouteNothingElse(c: Controller, file: string, k: string)
    requires k in RestRoute(c, file)
    ensures exists v :: Defines(c, v) && k == RestKey(file, v)
  {
    var slots := RestSlots(c, file);
    TableKeys(slots, k);
    var i :| 0 <= i < |slots| && slots[i].present && slots[i].key == k;
    assert Defines(c, Verbs[i]) && k == RestKey(file, Verbs[i]);
  }

  /** With all four CRUD functions present the table has four entries. */
  lemma RestRouteFull(c: Controller, file: string)
    requires forall v :: Defines(c, v)
    ensures |RestRoute(c, file)| == 4
  {
    RestKeysDistinct(c, file);
    TableFull(RestSlots(c, file));
  }

  lemma RestRouteWellFormed(c: Controller, file: string)
    ensures WellFormedTable(file, RestRoute(c, file))
  {
    var r := RestRoute(c, file);
    forall k | k in r
      ensures KeyAgrees(k, r[k]) && GeneratedMethod(r[k].descriptor.httpMethod.value)
      ensures r[k].descriptor.controller == Some(ControllerKey(file))
    {
      RestRouteNothingElse(c, file, k);
      var v :| Defines(c, v) && k == RestKey(file, v);
      RestRouteAt(c, file, v);
      AgreesWhen(RestMethod(v), "/" + Segment(file), IdSuffix(v), "rest", ControllerKey(file), CrudName(v));
    }
  }
}

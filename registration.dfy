/**
 What `registRoute` makes of one table entry: the method and pattern it
 reads off the key, the defaults it writes into a descriptor object, and
 the `(method, pattern, target)` it registers on the application.
 */
module Registration {
  import opened JsString
  import opened RouteTypes
  import opened Naming
  import opened Generators

  const DefaultController := "HomeController"
  const DefaultAction := "indexAction"

  /** The method and pattern read off a table key; the pattern is undefined for a one-word key. */
  datatype KeyParse = KeyParse(httpMethod: string, pattern: Option<string>)

  /** What a registered handler does: render a view, or call `controllers[controller][action]`. */
  datatype Handler = RenderView(template: string) | Dispatch(controller: string, action: string)

  /** One `app[method](pattern, handler)` call. */
  datatype Registration = Registration(httpMethod: string, pattern: Option<string>, target: Handler)

  /** A key whose parse fails: blank, and not starting with a space. */
  predicate BadKey(key: string) {
    (key == [] || key[0] != ' ') && IsBlank(key)
  }

  /**
   The reading of a key. `key.indexOf(' ')` is falsy only when the key
   starts with a space; such a key is the pattern itself, with method `get`.
   Any other key is split into words: the first, lower-cased, is the method
   and the second, if there is one, the pattern. A blank key has no first
   word, and `words[0].toLowerCase()` throws.
   */
  function ParseKey(key: string): (r: Result<KeyParse>)
    ensures r.Err? <==> BadKey(key)
    ensures key != [] && key[0] == ' ' ==> r == Ok(KeyParse("get", Some(key)))
    ensures r.Ok? && (key == [] || key[0] != ' ') ==>
      && r.value.httpMethod != []
      && NoSpace(r.value.httpMethod)
      && IsLowerCase(r.value.httpMethod)
      && (r.value.pattern.Some? ==> r.value.pattern.value != [] && NoSpace(r.value.pattern.value))
  {
    if |key| > 0 && key[0] == ' ' then
      Ok(KeyParse("get", Some(key)))
    else
      var words := Words(key);
      WordsEmpty(key);
      if words == [] then
        Err("Cannot read property 'toLowerCase' of undefined")
      else
        LowerKeepsNoSpace(words[0]);
        LowerIsLowerCase(words[0]);
        Ok(KeyParse(Lower(words[0]), if |words| > 1 then Some(words[1]) else None))
  }

  /**
   A key written as "<method> <path>", with a lower-case method and a path
   free of white space, reads back as that method and path.
   */
  lemma ParseJoinedKey(m: string, path: string)
    requires m != [] && NoSpace(m) && IsLowerCase(m)
    requires path != [] && NoSpace(path)
    ensures ParseKey(m + " " + path) == Ok(KeyParse(m, Some(path)))
  {
    ParseLeadingWords([], m, " ", path, []);
    assert [] + m + " " + path + [] == m + " " + path;
    LowerIsLowerCase(m);
  }

  /** A key not starting with a space that holds words reads as its first two words. */
  lemma ParseByWords(key: string)
    requires key == [] || key[0] != ' '
    requires Words(key) != []
    ensures ParseKey(key) == Ok(KeyParse(Lower(Words(key)[0]),
      if |Words(key)| > 1 then Some(Words(key)[1]) else None))
  {
  }

  /** A key that starts with white space other than a space, or with no white space at all, does not start with a space. */
  lemma LeadNotSpace(lead: string, a: string, tail: string)
    requires IsBlank(lead) && (lead == [] || lead[0] != ' ')
    requires a != [] && NoSpace(a)
    ensures (lead + a + tail)[0] != ' '
  {
    if lead == [] {
      assert (lead + a + tail)[0] == a[0];
    } else {
      assert (lead + a + tail)[0] == lead[0];
    }
  }

  /**
   A key of two or more words, however they are separated and whatever
   white space (other than a first space) comes before them, reads as the
   first word lower-cased for the method and the second word for the
   pattern; words after the second are ignored.
   */
  lemma ParseLeadingWords(lead: string, a: string, sep: string, b: string, rest: string)
    requires IsBlank(lead) && (lead == [] || lead[0] != ' ')
    requires a != [] && NoSpace(a)
    requires sep != [] && IsBlank(sep)
    requires b != [] && NoSpace(b)
    requires rest == [] || IsSpace(rest[0])
    ensures ParseKey(lead + a + sep + b + rest) == Ok(KeyParse(Lower(a), Some(b)))
  {
    var words := a + sep + b + rest;
    var key := lead + words;
    assert lead + a + sep + b + rest == key;
    LeadNotSpace(lead, a, sep + b + rest);
    assert lead + a + (sep + b + rest) == key;
    WordsAfterBlank(lead, words);
    WordsOfPair(a, sep, b, rest);
    ParseByWords(key);
  }

  /**
   A key of one word, with any white space (other than a first space)
   before it and any white space after it, reads as that word lower-cased
   for the method, with no pattern.
   */
  lemma ParseOneWord(lead: string, a: string, trail: string)
    requires IsBlank(lead) && (lead == [] || lead[0] != ' ')
    requires a != [] && NoSpace(a)
    requires IsBlank(trail)
    ensures ParseKey(lead + a + trail) == Ok(KeyParse(Lower(a), None))
  {
    var key := lead + (a + trail);
    assert lead + a + trail == key;
    LeadNotSpace(lead, a, trail);
    WordsAfterBlank(lead, a + trail);
    WordsSingle(a, trail);
    ParseByWords(key);
  }

  /**
   The defaults `registRoute` writes into a descriptor object: each of
   `method`, `pattern`, `controller`, `action` the object lacks is set from
   the key or to `HomeController` / `indexAction`; present fields are kept.
   */
  function Fill(d: Descriptor, parsed: KeyParse): (f: Descriptor)
    ensures f.kind == d.kind
    ensures d.httpMethod.Some? ==> f.httpMethod == d.httpMethod
    ensures d.httpMethod.None? ==> f.httpMethod == Some(parsed.httpMethod)
    ensures d.pattern.Some? ==> f.pattern == d.pattern
    ensures d.pattern.None? ==> f.pattern == parsed.pattern
    ensures d.controller.Some? ==> f.controller == d.controller
    ensures d.controller.None? ==> f.controller == Some(DefaultController)
    ensures d.action.Some? ==> f.action == d.action
    ensures d.action.None? ==> f.action == Some(DefaultAction)
  {
    var d1 := if d.httpMethod.None? then d.(httpMethod := Some(parsed.httpMethod)) else d;
    var d2 := if d1.pattern.None? then d1.(pattern := parsed.pattern) else d1;
    var d3 := if d2.controller.None? then d2.(controller := Some(DefaultController)) else d2;
    var d4 := if d3.action.None? then d3.(action := Some(DefaultAction)) else d3;
    d4
  }

  /** The route value after `registRoute` has visited its key: a descriptor gets its defaults. */
  function FilledRoute(key: string, route: Route): Route {
    match ParseKey(key)
    case Err(_) => route
    case Ok(parsed) =>
      if route.Target? then Target(Fill(route.descriptor, parsed)) else route
  }

  /**
   The registration made for one entry: a view name is rendered at the
   key's method and pattern, a descriptor dispatches to
   `controller.action` at its own (defaulted) method and pattern, and any
   other value registers nothing. A key that cannot be parsed fails.
   */
  function RegistrationFor(key: string, route: Route): Result<Option<Registration>> {
    match ParseKey(key)
    case Err(e) => Err(e)
    case Ok(parsed) =>
      match route
      case View(template) => Ok(Some(Registration(parsed.httpMethod, parsed.pattern, RenderView(template))))
      case Target(d) =>
        var f := Fill(d, parsed);
        Ok(Some(Registration(f.httpMethod.value, f.pattern, Dispatch(f.controller.value, f.action.value))))
      case Unroutable => Ok(None)
  }

  /** Registration fails exactly on the keys that cannot be parsed, and skips exactly the unroutable values. */
  lemma RegistrationOutcome(key: string, route: Route)
    ensures RegistrationFor(key, route).Err? <==> BadKey(key)
    ensures RegistrationFor(key, route).Ok? ==> (RegistrationFor(key, route).value.None? <==> route.Unroutable?)
  {
  }

  /** A string entry under `"<a> <b>"` renders that view for method `lower(a)` at pattern `b`. */
  lemma ViewRegistration(a: string, b: string, template: string)
    requires a != [] && NoSpace(a)
    requires b != [] && NoSpace(b)
    ensures RegistrationFor(a + " " + b, View(template)) == Ok(Some(Registration(Lower(a), Some(b), RenderView(template))))
  {
    ParseLeadingWords([], a, " ", b, []);
    assert [] + a + " " + b + [] == a + " " + b;
  }

  /** A string entry under a key that starts with a space renders that view for `get` at the key itself. */
  lemma ViewAtSpacedKey(key: string, template: string)
    requires key != [] && key[0] == ' '
    ensures RegistrationFor(key, View(template)) == Ok(Some(Registration("get", Some(key), RenderView(template))))
  {
  }

  /**
   Filling in defaults twice is filling them in once, and registering a
   filled-in entry again makes the same registration: registering the same
   table a second time yields the same `(method, pattern, target)` tuples.
   */
  lemma RegistrationStable(key: string, route: Route)
    ensures FilledRoute(key, FilledRoute(key, route)) == FilledRoute(key, route)
    ensures RegistrationFor(key, FilledRoute(key, route)) == RegistrationFor(key, route)
  {
    match ParseKey(key)
    case Err(_) =>
    case Ok(parsed) =>
      if route.Target? {
        var f := Fill(route.descriptor, parsed);
        assert Fill(f, parsed) == f;
      }
  }

  /**
   A descriptor with all its fields, as the generators produce, registers at
   its own method and pattern and dispatches to its own controller and
   action, whatever its key; registration leaves it unchanged.
   */
  lemma CompleteRegistration(key: string, route: Route)
    requires Complete(route) && !BadKey(key)
    ensures FilledRoute(key, route) == route
    ensures RegistrationFor(key, route) == Ok(Some(Registration(
      route.descriptor.httpMethod.value, route.descriptor.pattern,
      Dispatch(route.descriptor.controller.value, route.descriptor.action.value))))
  {
  }

  /** The five methods the generators use are plain lower-case words. */
  lemma GeneratedMethodIsWord(m: string)
    requires GeneratedMethod(m)
    ensures m != [] && NoSpace(m) && IsLowerCase(m)
  {
  }

  /** A key that agrees with its entry and has a generated method always parses, to the entry's own method. */
  lemma AgreeingKeyParses(key: string, route: Route)
    requires KeyAgrees(key, route)
    requires GeneratedMethod(route.descriptor.httpMethod.value)
    ensures !BadKey(key)
    ensures ParseKey(key).Ok? && ParseKey(key).value.httpMethod == route.descriptor.httpMethod.value
  {
    var m := route.descriptor.httpMethod.value;
    GeneratedMethodIsWord(m);
    var path := key[|m| + 1..];
    assert key == key[..|m| + 1] + path;
    assert key == m + " " + path;
    assert key[0] == m[0];
    WordsCons(m, " ", path);
    LowerIsLowerCase(m);
  }

  /**
   Every entry of a well-formed table of generated routes parses, registers
   at its own method and pattern, dispatches to the controller of its file
   and to its own action, and is left as it is by the defaulting.
   */
  lemma WellFormedRegistration(file: string, routes: map<string, Route>, k: string)
    requires WellFormedTable(file, routes) && k in routes
    ensures routes[k].Target? && !BadKey(k)
    ensures ParseKey(k).Ok? && ParseKey(k).value.httpMethod == routes[k].descriptor.httpMethod.value
    ensures FilledRoute(k, routes[k]) == routes[k]
    ensures RegistrationFor(k, routes[k]) == Ok(Some(Registration(
      routes[k].descriptor.httpMethod.value, routes[k].descriptor.pattern,
      Dispatch(ControllerKey(file), routes[k].descriptor.action.value))))
  {
    AgreeingKeyParses(k, routes[k]);
    CompleteRegistration(k, routes[k]);
  }

  // ---------------------------------------------------------------- a whole table

  /** The registration, if any, for one key of the table. */
  function StepFor(key: string, routes: map<string, Route>): (regs: seq<Registration>)
    ensures |regs| <= 1
  {
    if key !in routes then []
    else match RegistrationFor(key, routes[key])
      case Ok(Some(reg)) => [reg]
      case _ => []
  }

  /** The registrations made visiting `keys` in order. */
  function Plan(keys: seq<string>, routes: map<string, Route>): (regs: seq<Registration>)
    decreases |keys|
  {
    if keys == [] then []
    else Plan(keys[..|keys| - 1], routes) + StepFor(keys[|keys| - 1], routes)
  }

  /** The table after the keys in `done` were visited: their descriptors have their defaults. */
  function FillAll(routes: map<string, Route>, done: set<string>): (r: map<string, Route>)
    ensures r.Keys == routes.Keys
  {
    map k | k in routes :: if k in done then FilledRoute(k, routes[k]) else routes[k]
  }

  /** Each visited key contributes at most one registration, and exactly one when all are routable and parse. */
  lemma {:induction false} PlanLength(keys: seq<string>, routes: map<string, Route>)
    ensures |Plan(keys, routes)| <= |keys|
    ensures (forall i :: 0 <= i < |keys| ==> keys[i] in routes && !BadKey(keys[i]) && !routes[keys[i]].Unroutable?)
      ==> |Plan(keys, routes)| == |keys|
    decreases |keys|
  {
    if keys != [] {
      var n := |keys| - 1;
      PlanLength(keys[..n], routes);
      if forall i :: 0 <= i < |keys| ==> keys[i] in routes && !BadKey(keys[i]) && !routes[keys[i]].Unroutable? {
        RegistrationOutcome(keys[n], routes[keys[n]]);
        assert |StepFor(keys[n], routes)| == 1;
      }
    }
  }

  /** Registering a table whose descriptors were already filled in makes the same registrations. */
  lemma {:induction false} PlanStable(keys: seq<string>, routes: map<string, Route>, done: set<string>)
    ensures Plan(keys, FillAll(routes, done)) == Plan(keys, routes)
    decreases |keys|
  {
    if keys != [] {
      var n := |keys| - 1;
      PlanStable(keys[..n], routes, done);
      var k := keys[n];
      if k in routes {
        RegistrationStable(k, routes[k]);
        assert StepFor(k, FillAll(routes, done)) == StepFor(k, routes);
      }
    }
  }

  /** Filling in the same keys a second time changes nothing. */
  lemma FillAllIdempotent(routes: map<string, Route>, done: set<string>)
    ensures FillAll(FillAll(routes, done), done) == FillAll(routes, done)
  {
    forall k | k in routes && k in done {
      RegistrationStable(k, routes[k]);
    }
  }
}

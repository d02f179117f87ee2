# express-mvc route loader, modelled in Dafny

The route loader of express-mvc (`index.js`) is a single object with three
fields, `config`, `controllers` and `routes`, and three steps that fill them
in turn:

- `loadConfig(basedir)` records the base directory and the four directories
  derived from it. It then merges every `.js` file of the config directory
  over the configuration with `_.extend`. An empty base directory is refused.
- `initRoute()` loads every controller file (a `.js` file other than
  `BaseController.js`) and registers the controller under its file name
  without `.js`. It merges the controller's action, shortcut and REST routes
  into the table, as the controller's `config` flags allow. Finally it merges
  the configured `routes` over everything.
- `registRoute(app)` walks the table. It reads a method and a pattern off each
  key and fills in the missing fields of each descriptor in place. A view
  name is registered as a render handler; a descriptor is registered as a
  dispatch to `controllers[controller][action]`.

The route generators are functions from a controller file's name and its
function names to a fresh table of descriptors:

- `actionRoute` gives one catch-all route per `…Action` function, plus a
  landing route for `indexAction`.
- `shortcutRoute` gives `all /<seg>/<verb>` per CRUD function.
- `restRoute` gives one verb-specific route per CRUD function.

## How the model is organised

- `js_string.dfy` (module `JsString`) holds the few string operations the
  loader uses. These are `substr(-n)`, `slice(0, -n)`, ASCII `toLowerCase`
  and underscore.string's `_.words`, defined as the list of maximal runs of
  non-white-space characters.
- `layering.dfy` (module `Layering`) defines `_.extend({}, a, b)` as the map
  union in which `b` wins. Merging a sequence of maps one after another is
  the left fold `Layer`.
- `route_types.dfy` (module `RouteTypes`) holds the values:
  - controllers: their sorted function names and their three flags;
  - descriptors, whose absent fields are `None`;
  - table values: a view name, a descriptor, or anything else;
  - configuration values;
  - listed files.
- `naming.dfy` (module `Naming`) holds the controller-file filter, the
  controller key and the route segment.
- `generators.dfy` (module `Generators`) holds the three generators and what
  they produce. The shortcut and REST generators are four guarded assignments
  each, written as a generic `Table` of `Slot`s.
- `registration.dfy` (module `Registration`) covers one table entry: how its
  key is parsed, the defaults, and the registration made.
- `loader.dfy` (module `Loader`) holds the `RouteLoader` class, whose fields
  are updated by the loop methods `LoadConfig`, `InitRoute` and
  `RegistRoute`. The same module defines the functions `LoadedConfig` and
  `BuiltTable`, which state what the first two produce, and the lemmas about
  them. What `RegistRoute` produces is stated by `Plan` and `FillAll`, which
  `registration.dfy` defines.

The file system is replaced by listings, which are sequences of files in the
order `fs.readdirSync` returns them. The Express application is replaced by
the sequence of registrations the walk makes.

## Model

| member | source | states |
|---|---|---|
| JsString.TailOf | index.js:29 | `substr(-n)` is the last n characters, or the whole string when it is shorter |
| JsString.TailOfMatches | index.js:46 | comparing the last n characters with a suffix of length n is asking whether the string ends with it |
| JsString.DropLast | index.js:49 | `slice(0, -n)` is a prefix n shorter, or empty when the string is no longer than n |
| JsString.Lower | index.js:152 | lower-casing keeps the length and maps every ASCII capital to its small letter, leaving other characters alone |
| JsString.LowerIsLowerCase | index.js:156 | the result of lower-casing is lower case, and lower-casing a lower-case string changes nothing |
| JsString.LowerKeepsNoSpace | index.js:88 | lower-casing a word keeps it free of white space |
| JsString.SkipSpace | index.js:87 | what is left after leading white space starts with a non-space character, and what was skipped is blank |
| JsString.TokenLength | index.js:87 | the length of the leading non-space run: that run has no white space and is followed by white space or the end |
| JsString.Words | index.js:87 | every word `_.words` returns is non-empty and free of white space |
| JsString.WordsEmpty | index.js:87 | `_.words` returns no word exactly for a blank string |
| JsString.TokenLengthOf | index.js:87 | a word followed by white space or by nothing is a token of exactly its own length |
| JsString.SkipBlank | index.js:87 | skipping leading white space is not changed by more white space in front |
| JsString.WordsAfterBlank | index.js:87 | `_.words` ignores any leading white space |
| JsString.WordsHead | index.js:87 | a string that starts with a whole word has that word as its first word |
| JsString.WordsCons | index.js:87 | a word, any non-empty run of white space and more text split into that word followed by the words of the rest |
| JsString.WordsSingle | index.js:87 | a single word followed by nothing or only white space splits into itself |
| JsString.WordsOfPair | index.js:87 | a word, any white space, a second word and then the end or more white space: the first two words are those two |
| Layering.Extend | index.js:31 | `_.extend({}, a, b)`: a fresh table with the keys of both, `b`'s value wherever `b` has the key; what it does is stated by ExtendAssociative, ExtendEmpty, ExtendOne and the `Layer` lemmas below |
| Layering.Layer | index.js:28-33 | a run of `_.extend` merges over a base, in order; stated by LayerSnoc, LayerKeys, LayerLastWins, LayerKeepsBase and LayerProvenance |
| Layering.ExtendAssociative | index.js:53-63 | merging `b` and then `c` into `a` equals merging into `a` the table obtained by merging `c` into `b` |
| Layering.ExtendEmpty | index.js:68 | merging an empty table changes nothing |
| Layering.ExtendOne | index.js:49 | merging a one-entry table is setting that key |
| Layering.LayerSnoc | index.js:31 | merging one more table after a run of merges is one more `_.extend` |
| Layering.LayerKeys | index.js:31 | after a run of merges, a key is present exactly when the base or one of the merged tables has it |
| Layering.LayerLastWins | index.js:31 | the last merged table that has a key decides its value |
| Layering.LayerKeepsBase | index.js:31 | a key none of the merged tables has keeps its value from the base |
| Layering.LayerProvenance | index.js:31 | every value after a run of merges comes from the base or from one of the merged tables |
| Naming.IsJsFile | index.js:46 | the `.js` test on a file name (also used for config files at index.js:29); stated by ControllerFileIff, ConventionalFile and LaterConfigWins |
| Naming.IsControllerFile | index.js:46 | the file filter of `initRoute`; stated by ControllerFileIff and ConventionalFile |
| Naming.ControllerKey | index.js:49 | the controller key is the `.js` file name without `.js` |
| Naming.Segment | index.js:152 | the segment is the file name without its last 13 characters, lower-cased, and empty for names of 13 characters or fewer |
| Naming.ControllerFileIff | index.js:46 | a file is loaded as a controller exactly when it ends in `.js` and is not `BaseController.js` |
| Naming.ConventionalFile | index.js:46-49 | `<Name>Controller.js` has key `<Name>Controller` and segment `lower(Name)`, and is loaded unless `Name` is `Base` |
| Generators.ActionEntries | index.js:155-177 | what one function name writes in `actionRoute`'s loop; stated by EntriesKeys, IndexEntries and EntryMethod |
| Generators.ActionRoute | index.js:150-182 | `actionRoute`: the functions' entries written in listing order into `{}`; stated by ActionRouteKeys, ActionRouteValues, ActionRouteLastWins, IndexRoute, ActionRouteMethods and ActionRouteWellFormed |
| Generators.IsActionName | index.js:155 | a function is an action when its name ends in `Action`; stated by EntriesKeys and IndexIsActionName |
| Generators.ActionPath | index.js:156 | the action name without `Action`, lower-cased; stated by ActionKeysCollide and VerbActionKey |
| Generators.ActionKey | index.js:157 | the catch-all key `all /<seg>/<action name>`; stated by ActionRouteKeys, ActionKeyIsNotGet and ActionKeysCollide |
| Generators.ActionEntry | index.js:159-165 | the catch-all entry: type `action`, method `all`, pattern `/<seg>/<action name>/:id?`, the file's controller and the function itself; stated by ActionRouteValues and ActionRouteWellFormed |
| Generators.IndexKey | index.js:168 | the landing key `get /<seg>`; stated by EntriesKeys and IndexRoute |
| Generators.IndexEntry | index.js:170-176 | the landing entry: type `action`, method `get`, pattern `/<seg>`, the file's controller and `indexAction`; stated by IndexRoute |
| Generators.EntriesKeys | index.js:155-177 | a function writes its catch-all key when its name ends in `Action`, and also `get /<seg>` when it is `indexAction`; otherwise it writes nothing |
| Generators.ActionLayers | index.js:154 | the functions are visited in the order `_.functions` lists them, each writing its own entries |
| Generators.IndexIsActionName | index.js:167 | `indexAction` ends in `Action` |
| Generators.ActionKeyIsNotGet | index.js:157 | a catch-all action key never equals a `get` key |
| Generators.ActionKeysCollide | index.js:156-157 | two action functions share a key exactly when their names without `Action`, lower-cased, are equal |
| Generators.ActionRouteKeys | index.js:154-179 | the keys of `actionRoute`: one catch-all key per `…Action` function, plus `get /<seg>` exactly when `indexAction` is present |
| Generators.ActionRouteValues | index.js:159-176 | every entry of `actionRoute` is one that some function wrote under that key |
| Generators.ActionRouteLastWins | index.js:159 | of functions sharing a catch-all key, the last one listed owns the entry, which has method `all`, pattern `/<seg>/<name>/:id?`, type `action` and the function as action |
| Generators.IndexEntries | index.js:167-176 | only `indexAction` writes `get /<seg>`, and it writes `{get, /<seg>, indexAction}` there |
| Generators.EntryMethod | index.js:161 | what a function writes has method `get` at the landing key and `all` everywhere else |
| Generators.IndexRoute | index.js:167-176 | with `indexAction` present, `get /<seg>` holds the landing descriptor with pattern `/<seg>` |
| Generators.ActionRouteMethods | index.js:161 | only the landing key has method `get`, and it comes from `indexAction`; every other action route has method `all` |
| Generators.WrittenEntryWellFormed | index.js:159-176 | every entry a function writes is complete, names the file's controller, and its key is its method followed by the start of its pattern |
| Generators.ActionRouteWellFormed | index.js:150-182 | every entry of `actionRoute` is well formed in that sense |
| Generators.Table | index.js:192-240 | a run of guarded assignments writes at most one entry per assignment |
| Generators.TableKeys | index.js:192-240 | every key written comes from a present assignment |
| Generators.TableAt | index.js:192-240 | with distinct keys, a key is present exactly when its assignment's guard holds, and it holds that assignment's entry |
| Generators.TableFull | index.js:192-240 | with distinct keys and all guards true, every assignment adds an entry |
| Generators.CrudNameInjective | index.js:192-228 | the four CRUD names are different |
| Generators.Defines | index.js:192-228 | the `_.isFunction(controller.<verb>)` guard of each CRUD verb; stated by ShortcutRouteAt and RestRouteAt |
| Generators.ShortcutKey | index.js:193-229 | the shortcut key `all /<seg>/<verb>`; stated by ShortcutRouteAt, ShortcutKeyInjective and ShortcutKeyIsNotRest |
| Generators.ShortcutEntry | index.js:195-237 | the shortcut entry: type `shotcut`, method `all`, the verb's pattern, the file's controller and the verb; stated by ShortcutRouteAt and ShortcutRouteWellFormed |
| Generators.ShortcutSlots | index.js:192-238 | `shortcutRoute` tests find, create, update and delete in that order and writes `all /<seg>/<verb>` with pattern `/<seg>/<verb><id suffix>` |
| Generators.ShortcutRoute | index.js:188-241 | `shortcutRoute` yields at most four entries |
| Generators.ShortcutKeyInjective | index.js:193-229 | two verbs have the same shortcut key exactly when they are the same verb |
| Generators.ShortcutKeysDistinct | index.js:193-229 | the four shortcut keys are pairwise different |
| Generators.ShortcutRouteAt | index.js:192-238 | `all /<seg>/<verb>` is present exactly when the verb is a function, with method `all`, type `shotcut`, the verb's pattern and the verb as action |
| Generators.ShortcutRouteNothingElse | index.js:188-241 | `shortcutRoute` has no key other than those of present verbs |
| Generators.ShortcutRouteFull | index.js:188-241 | with all four CRUD functions present, `shortcutRoute` has four entries |
| Generators.ShortcutRouteWellFormed | index.js:188-241 | every shortcut entry is complete, names the file's controller, and agrees with its key |
| Generators.RestMethod | index.js:256-292 | the HTTP method of each CRUD verb: `get`, `post`, `put`, `delete`; stated by RestRouteAt and RestKeyInjective |
| Generators.RestKey | index.js:252-288 | the REST key `<method> /<seg>`; stated by RestRouteAt, RestKeyInjective and ShortcutKeyIsNotRest |
| Generators.RestEntry | index.js:254-296 | the REST entry: type `rest`, the verb's method and pattern, the file's controller and the verb; stated by RestRouteAt and RestRouteWellFormed |
| Generators.RestSlots | index.js:251-297 | `restRoute` tests find, create, update and delete in that order and writes `<get/post/put/delete> /<seg>` |
| Generators.RestRoute | index.js:247-300 | `restRoute` yields at most four entries |
| Generators.RestKeyInjective | index.js:252-288 | two verbs have the same REST key exactly when they are the same verb |
| Generators.RestKeysDistinct | index.js:252-288 | the four REST keys are pairwise different |
| Generators.RestRouteAt | index.js:251-297 | find → `get /<seg>` `/<seg>/:id?`, create → `post /<seg>` `/<seg>`, update → `put /<seg>` `/<seg>/:id`, delete → `delete /<seg>` `/<seg>/:id`, each present exactly when the function is, with that function as action |
| Generators.RestRouteNothingElse | index.js:247-300 | `restRoute` has no key other than those of present verbs |
| Generators.RestRouteFull | index.js:247-300 | with all four CRUD functions present, `restRoute` has four entries |
| Generators.RestRouteWellFormed | index.js:247-300 | every REST entry is complete, names the file's controller, and agrees with its key |
| Generators.ActionOfStem | index.js:155-157 | a lower-case stem followed by `Action` names an action whose path is the stem itself |
| Generators.CrudNameIsLowerCase | index.js:193 | the CRUD names are lower case |
| Generators.VerbActionKey | index.js:157 | `findAction` and its kind have the same key as the shortcut route of that verb |
| Generators.ShortcutKeyIsNotRest | index.js:252 | a shortcut key never equals a REST key |
| Registration.ParseKey | index.js:86-92 | the parse fails exactly on a blank key not starting with a space; a key starting with a space is pattern and method `get`; any other key yields a non-empty, lower-case, space-free method and a one-word pattern or none; which words these are is stated by ParseLeadingWords and ParseOneWord |
| Registration.BadKey | index.js:86-88 | the keys whose parse throws: blank, and not starting with a space (`words[0]` is undefined); stated by ParseKey and RegistrationOutcome |
| Registration.ParseLeadingWords | index.js:86-89 | a key with two or more words, separated by any white space, and with any white space other than a space before the first, reads as method `lower(a)` for the first word `a` and pattern `b` for the second; further words are ignored |
| Registration.ParseOneWord | index.js:86-89 | a key with one word `a`, with any white space after it and any white space other than a space before it, reads as method `lower(a)` with no pattern (`words[1]` is undefined) |
| Registration.ParseJoinedKey | index.js:86-89 | `"<method> <path>"` with a lower-case method reads back as that method and path |
| Registration.Fill | index.js:112-126 | each of method, pattern, controller, action the descriptor lacks is set to the parsed method, the parsed pattern, `HomeController` or `indexAction`; present fields and the type are kept |
| Registration.FilledRoute | index.js:112-126 | the entry after its key was visited: a descriptor with its defaults, anything else unchanged; stated by Fill, RegistrationStable and CompleteRegistration |
| Registration.RegistrationFor | index.js:94-140 | the registration one entry makes; stated by RegistrationOutcome, ViewRegistration, ViewAtSpacedKey, CompleteRegistration, WellFormedRegistration and RegistrationStable |
| Registration.RegistrationOutcome | index.js:94-140 | registration fails exactly on an unparsable key, and registers nothing exactly for a value that is neither a string nor an object |
| Registration.ViewRegistration | index.js:86-102 | a view name under `"<a> <b>"` is registered for method `lower(a)` at pattern `b`, rendering that view |
| Registration.ViewAtSpacedKey | index.js:90-102 | a view name under a key that starts with a space is registered for `get` at the key itself |
| Registration.RegistrationStable | index.js:112-126 | filling defaults twice equals filling once, and a filled entry registers as the original did |
| Registration.CompleteRegistration | index.js:134-137 | a complete descriptor is left unchanged and registers at its own method and pattern, dispatching to its own controller and action |
| Registration.GeneratedMethodIsWord | index.js:161 | the generated methods are non-empty lower-case words |
| Registration.AgreeingKeyParses | index.js:86-89 | a key that agrees with its descriptor parses to the descriptor's method |
| Registration.WellFormedRegistration | index.js:134-137 | every generated entry parses, is left unchanged and dispatches to its file's controller and its own action at its own method and pattern |
| Registration.StepFor | index.js:102 | one key makes at most one registration |
| Registration.FillAll | index.js:113-125 | filling the defaults of some keys keeps the table's keys |
| Registration.Plan | index.js:80-141 | the registrations made visiting keys in order; stated by PlanLength, PlanStable and RouteLoader.RegistRoute |
| Registration.PlanLength | index.js:80-141 | the walk makes at most one registration per key, and exactly one when every key parses and every value is routable |
| Registration.PlanStable | index.js:113-125 | registering a table whose descriptors were already filled makes the same registrations |
| Registration.FillAllIdempotent | index.js:113-125 | filling the same keys again changes nothing |
| Loader.Join | index.js:23-26 | `path.join` of a directory and a name, without normalisation; stated by DirectorySettings |
| Loader.DirectoryConfig | index.js:22-26 | the configuration with the five directory settings; stated by DirectorySettings |
| Loader.LoadedConfig | index.js:17-36 | the configuration `loadConfig` leaves; stated by LaterConfigWins, ConfigKeepsDirectories and RouteLoader.LoadConfig |
| Loader.ConfigLayers | index.js:28-33 | each config file contributes its exports if its name ends in `.js`, and nothing otherwise |
| Loader.LaterConfigWins | index.js:31 | a setting is that of the last `.js` config file exporting it |
| Loader.DirectorySettings | index.js:22-26 | `baseDir`, `configDir`, `controllerDir`, `modelDir` and `viewDir` are the base directory and its `config`, `controllers`, `models` and `views` subdirectories; all other settings are kept |
| Loader.ConfigKeepsDirectories | index.js:28-33 | a setting no `.js` config file exports keeps its value from before the merge |
| Loader.ControllerRoutes | index.js:52-64 | the routes one controller contributes; stated by ControllerRoutesPrecedence, RestFindReplacesIndex, ShortcutReplacesVerbAction and ControllerRoutesWellFormed |
| Loader.Combine | index.js:52-64 | the merge of the flag-enabled parts in order; stated by MergeParts and CombineWellFormed |
| Loader.ConfigRoutes | index.js:68 | `config.routes` when it is a table of routes; stated by ConfigRoutesWin |
| Loader.BuiltTable | index.js:42-68 | the table `initRoute` leaves; stated by BuiltTableKeys, ConfigRoutesWin, LastControllerWins and RouteLoader.InitRoute |
| Loader.RouteLayer | index.js:46-64 | the routes one listed file adds: its controller's routes if it is a controller file, none otherwise; stated by InitStep, LastControllerWins and BuiltTableKeys |
| Loader.RegistryLayer | index.js:46-49 | the registry entry one listed file adds: its controller under its key if it is a controller file, none otherwise; stated by InitStep and RegistryEntry |
| Loader.RouteLayers | index.js:45-66 | one route layer per listed file |
| Loader.RegistryLayers | index.js:45-49 | one registry layer per listed file |
| Loader.MergeParts | index.js:52-64 | the three conditional merges of one controller equal one merge of their combination |
| Loader.InitStart | index.js:45 | before the first file, the registry and table are those the loop started with |
| Loader.InitStep | index.js:46-65 | one more file merges its registry entry and its routes |
| Loader.InitDone | index.js:66 | after the last file, the registry and table are the merges over the whole listing |
| Loader.ControllerRoutesPrecedence | index.js:52-64 | within one controller a REST route beats a shortcut route, which beats an action route; every key comes from an enabled generator |
| Loader.RestFindReplacesIndex | index.js:62-63 | with `indexAction` and a REST `find`, `get /<seg>` holds the REST `find` route and the landing route is lost |
| Loader.ShortcutReplacesVerbAction | index.js:57-58 | an action named `<verb>Action` shares its key with the shortcut route of that verb, which wins |
| Loader.ControllerRoutesWellFormed | index.js:52-64 | every route a controller contributes is well formed |
| Loader.CombineWellFormed | index.js:52-64 | merging well-formed tables of one file keeps them well formed |
| Loader.ConfigRoutesWin | index.js:68 | a configured route always replaces what the controllers generated under its key |
| Loader.LastControllerWins | index.js:53-63 | without a configured route, the last controller file generating a key decides it |
| Loader.BuiltTableKeys | index.js:42-68 | the table's keys are those it had, those some controller file generates, and the configured ones |
| Loader.RegistryEntry | index.js:49 | each controller file is registered under its key, and the last file with that key decides |
| Loader.WalkStart | index.js:80 | before the walk, nothing is registered or filled |
| Loader.WalkStep | index.js:80-140 | visiting one more parsable key appends its registration and fills that entry alone |
| Loader.RouteLoader.constructor | index.js:10-12 | the loader starts with empty `config`, `controllers` and `routes` |
| Loader.RouteLoader.LoadConfig | index.js:17-36 | an empty base directory fails with `Missing basedir!` and changes nothing; otherwise `config` becomes the directories with the `.js` config files merged in order |
| Loader.RouteLoader.InitRoute | index.js:42-71 | `controllers` gets every controller file's entry and `routes` becomes the built table: controllers in listing order, then the configured routes |
| Loader.RouteLoader.AddController | index.js:46-65 | one file adds its registry entry and its routes if it is a controller file, and nothing otherwise |
| Loader.RouteLoader.MergeRoutes | index.js:52-64 | the action, shortcut and REST merges of one controller, as its flags allow |
| Loader.RouteLoader.Visit | index.js:86-140 | one key fails exactly when it cannot be parsed; otherwise it makes that key's registration and fills that entry's defaults in place |
| Loader.RouteLoader.RegistRoute | index.js:80-141 | every key is visited once, unless an unparsable key stops the walk; registrations and filled descriptors are those of the keys visited |
| Loader.RegisterTwice | index.js:80-141 | registering the filled table again makes the same registrations and changes the table no further |

## Left out

- The file system and module loading (`fs.readdirSync`, `require`, `fs.existsSync`): directory contents are input listings of file names with what requiring each yields, and the check whether a view file exists is not modelled.
- `path.join` normalisation: `Join` concatenates with `/`, so a base directory ending in `/` or containing `..` is not normalised.
- A config file that sets `configDir` or `controllerDir`: `require` paths inside the loops read the updated value, but the model's listings stand for whatever directories were read.
- The Express side: `app[method](...)`, `res.render`, `next()` and the per-request lookup `controllers[controller][action]` are replaced by the list of registrations. A method name Express does not know (say `app.home` from the key `home`) would throw there; the model registers it.
- Console logging and `_.rpad`/`_.sprintf` padding: diagnostic output only.
- Unicode `toLowerCase`: only ASCII letters are lower-cased.
- The iteration order of `_.each` over the table: `RegistRoute` visits keys in an order it leaves open and returns it; `_.functions` order is taken as given by the controller (sorted names).
- `config.routes` that is not a table of routes (a string, say): it is treated as empty; `_.extend` would copy its characters as keys.
- Descriptor objects shared between `config.routes` and the table: the model fills defaults in the table's copy only, so aliasing is not captured.
- `_.has` on a field present with the value `undefined`: a field is either present with a value or absent.
- `loadConfig`'s test `!basedir` for `undefined`, `null` or `0`: the base directory is a string, and only the empty string is refused.
- `initRoute` on a controller without a `config` object (which would throw): every controller carries its three flags.
- Which members `_.functions` reports (enumerability, inherited members): the controller's function names are an input.

/** The values the route loader works on. */
module RouteTypes {

  datatype Option<T> = None | Some(value: T)

  datatype Result<T> = Ok(value: T) | Err(message: string)

  /**
   A loaded controller module. `functions` lists the names of its callable
   members in the order `_.functions` gives them (sorted); the three flags
   are its `config.action`, `config.shortcut` and `config.rest`.
   */
  datatype Controller = Controller(functions: seq<string>, action: bool, shortcut: bool, rest: bool)

  /**
   A route descriptor object. A field is None when the object does not have
   it (`_.has` is false). Generated descriptors have all five; one written
   in the route configuration may have any of them.
   */
  datatype Descriptor = Descriptor(
    kind: Option<string>,        // the `type` field
    httpMethod: Option<string>,  // the `method` field
    pattern: Option<string>,
    controller: Option<string>,
    action: Option<string>)

  /**
   A value of the route table: a string names a view template, an object is
   a descriptor, anything else (a number, a boolean, null) is skipped by
   registration.
   */
  datatype Route = View(template: string) | Target(descriptor: Descriptor) | Unroutable

  /** A value of the configuration map: a string, a table of routes, or anything else. */
  datatype ConfigValue = Text(text: string) | RouteMap(table: map<string, Route>) | OtherSetting

  /** A file of the config directory: its name and what requiring it exports. */
  datatype ConfigFile = ConfigFile(name: string, exports: map<string, ConfigValue>)

  /** A file of the controllers directory: its name and the module requiring it yields. */
  datatype ControllerFile = ControllerFile(name: string, controller: Controller)
}

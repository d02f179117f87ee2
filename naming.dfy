/** How file names of the controllers and config directories are read. */
module Naming {
  import opened JsString

  /** `file.substr(-3) == '.js'`. */
  predicate IsJsFile(file: string) {
    TailOf(file, 3) == ".js"
  }

  /** A file `initRoute` loads as a controller: a `.js` file other than `BaseController.js`. */
  predicate IsControllerFile(file: string) {
    IsJsFile(file) && DropLast(file, 3) != "BaseController"
  }

  /** The key of a controller in the registry and in descriptors: `file.slice(0, -3)`. */
  function ControllerKey(file: string): (key: string)
    ensures IsJsFile(file) ==> file == key + ".js"
  {
    DropLast(file, 3)
  }

  /** The route segment of a controller: `file.slice(0, -13).toLowerCase()`. */
  function Segment(file: string): (seg: string)
    ensures |file| <= 13 ==> seg == ""
    ensures |file| > 13 ==> seg == Lower(file[..|file| - 13])
    ensures IsLowerCase(seg)
  {
    LowerIsLowerCase(DropLast(file, 13));
    Lower(DropLast(file, 13))
  }

  /** A controller file is exactly a name ending in `.js` whose stem is not `BaseController`. */
  lemma ControllerFileIff(file: string)
    ensures IsControllerFile(file) <==> EndsWith(file, ".js") && file[..|file| - 3] != "BaseController"
  {
    TailOfMatches(file, ".js");
  }

  /**
   For a file that follows the `<Name>Controller.js` convention, the key is
   `<Name>Controller`, the segment is the lower-cased `<Name>`, and the file
   is loaded unless `<Name>` is `Base`.
   */
  lemma ConventionalFile(name: string)
    ensures ControllerKey(name + "Controller.js") == name + "Controller"
    ensures Segment(name + "Controller.js") == Lower(name)
    ensures IsControllerFile(name + "Controller.js") <==> name != "Base"
  {
    var file := name + "Controller.js";
    assert file[|file| - 3..] == ".js";
    assert file[..|file| - 3] == name + "Controller";
    assert file[..|file| - 13] == name;
    if name + "Controller" == "BaseController" {
      assert name == (name + "Controller")[..|name|];
    }
  }
}

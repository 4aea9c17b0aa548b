/** The TaskAssist class: the path store, the extension map, the option store and
    the two status cells of a gulp build configuration. */
module TaskAssist {
  import opened JsValue
  import opened DeepMerge

  /** A path entry: a single fragment, or an ordered list of fragments. */
  datatype PathValue = Single(path: string) | Many(paths: seq<string>)

  /** The two path sections. */
  datatype Direction = Input | Output

  /** The direction argument of setPath and getPath, matched as `/^in/` and then `/^out/`;
      any other string selects nothing. */
  function ParseDirection(inout: string): (r: Option<Direction>)
    ensures r == Some(Input) <==> |inout| >= 2 && inout[0] == 'i' && inout[1] == 'n'
    ensures r == Some(Output) <==> r != Some(Input) && |inout| >= 3 && inout[..3] == "out"
  {
    if "in" <= inout then Some(Input)
    else if "out" <= inout then Some(Output)
    else None
  }

  /** `segs.map(v => path.join(root, v))`, with the path library's join as `join`. */
  function JoinAll(root: string, segs: seq<string>, join: (string, string) -> string): (r: seq<string>)
    ensures |r| == |segs|
    ensures forall i :: 0 <= i < |segs| ==> r[i] == join(root, segs[i])
  {
    if segs == [] then [] else [join(root, segs[0])] + JoinAll(root, segs[1..], join)
  }

  /** setOption's `param = {}` default: an omitted (undefined) block stands for an empty record. */
  function EffectiveParam(param: Value): (r: Value)
    ensures r != Undefined
    ensures param == Undefined ==> r == Obj(map[])
    ensures param != Undefined ==> r == param
  {
    if param.Undefined? then Obj(map[]) else param
  }

  /** setOption replaces the block, rather than merging into it, when nothing is stored under
      the name yet or when `diff` is exactly `false` (`diff === false`: no other falsy value). */
  predicate Replaces(options: map<string, Value>, name: string, diff: Value) {
    name !in options || options[name] == Undefined || diff == Bool(false)
  }

  /** What setOption asks of its caller: on the merge path, objectMerge must not throw. */
  predicate CanSetOption(options: map<string, Value>, name: string, param: Value, diff: Value) {
    !Replaces(options, name, diff) ==> Mergeable(options[name], EffectiveParam(param))
  }

  /** The option store after setOption(name, param, diff). */
  function OptionsAfter(options: map<string, Value>, name: string, param: Value, diff: Value): (r: map<string, Value>)
    requires CanSetOption(options, name, param, diff)
    ensures r.Keys == options.Keys + {name}
    ensures Replaces(options, name, diff) ==> r[name] == EffectiveParam(param)
    ensures !Replaces(options, name, diff) ==> r[name] == Merge(options[name], EffectiveParam(param))
    ensures forall n :: n in options && n != name ==> r[n] == options[n]
  {
    var p := EffectiveParam(param);
    if Replaces(options, name, diff) then options[name := p]
    else options[name := Merge(options[name], p)]
  }

  /** Repeating a setOption call with the default `diff` changes nothing more. */
  lemma SetOptionRepeatIsIdempotent(options: map<string, Value>, name: string, param: Value, diff: Value)
    requires CanSetOption(options, name, param, diff)
    requires IsNonArrayObject(EffectiveParam(param))
    ensures CanSetOption(OptionsAfter(options, name, param, diff), name, param, Undefined)
    ensures OptionsAfter(OptionsAfter(options, name, param, diff), name, param, Undefined)
         == OptionsAfter(options, name, param, diff)
  {
    var p := EffectiveParam(param);
    var once := OptionsAfter(options, name, param, diff);
    if Replaces(options, name, diff) {
      MergeSelf(p);
    } else {
      MergeIdempotent(options[name], p);
    }
    assert OptionsAfter(once, name, param, Undefined)[name] == once[name];
  }

  /** setOption('x', {a: 1}) then setOption('x', {b: 2}) leaves {a: 1, b: 2} under 'x';
      with `diff` false the second call leaves {b: 2}. */
  lemma SetOptionMergeOrReplace()
    ensures var o1 := OptionsAfter(map[], "x", Obj(map["a" := Num(1)]), Undefined);
            OptionsAfter(o1, "x", Obj(map["b" := Num(2)]), Undefined)["x"]
              == Obj(map["a" := Num(1), "b" := Num(2)])
    ensures var o1 := OptionsAfter(map[], "x", Obj(map["a" := Num(1)]), Undefined);
            OptionsAfter(o1, "x", Obj(map["b" := Num(2)]), Bool(false))["x"]
              == Obj(map["b" := Num(2)])
  {
  }

  /** The two status cells, `mainTaskID` and `isWatching`, each read and written on its own. */
  class Status {
    var mainTaskID: string
    var isWatching: bool

    constructor ()
      ensures mainTaskID == "" && !isWatching
    {
      mainTaskID := "";
      isWatching := false;
    }

    method SetMainTaskID(v: string)
      modifies this`mainTaskID
      ensures mainTaskID == v && isWatching == old(isWatching)
    {
      mainTaskID := v;
    }

    method SetIsWatching(v: bool)
      modifies this`isWatching
      ensures isWatching == v && mainTaskID == old(mainTaskID)
    {
      isWatching := v;
    }
  }

  class TaskAssist {
    /** `path.input` and `path.output`: `root` lives in the same map as the named fragments. */
    var input: map<string, PathValue>
    var output: map<string, PathValue>
    /** Supported extensions, by label. */
    var ext: map<string, string>
    /** Option blocks, by name. */
    var options: map<string, Value>
    const status: Status

    /** Both sections hold a string root. */
    ghost predicate Valid()
      reads this
    {
      && "root" in input && input["root"].Single?
      && "root" in output && output["root"].Single?
    }

    constructor (inputPath: string, outputPath: string)
      ensures Valid()
      ensures input == map["root" := Single(inputPath)] && output == map["root" := Single(outputPath)]
      ensures ext == map[] && options == map[]
      ensures fresh(status) && status.mainTaskID == "" && !status.isWatching
    {
      input := map["root" := Single(inputPath)];
      output := map["root" := Single(outputPath)];
      ext := map[];
      options := map[];
      status := new Status();
    }

    /** The section a direction selects. */
    function Section(d: Direction): map<string, PathValue>
      reads this
    {
      match d
      case Input => input
      case Output => output
    }

    /** The `inputRootPath` getter. */
    function InputRootPath(): (r: string)
      reads this
      requires Valid()
      ensures input["root"] == Single(r)
    {
      input["root"].path
    }

    /** The `outputRootPath` getter. */
    function OutputRootPath(): (r: string)
      reads this
      requires Valid()
      ensures output["root"] == Single(r)
    {
      output["root"].path
    }

    /** Assigning to `inputRootPath` or `outputRootPath`: the setters do nothing. */
    method AssignRootPath(d: Direction, v: string)
      requires Valid()
      ensures Valid() && InputRootPath() == old(InputRootPath()) && OutputRootPath() == old(OutputRootPath())
    {
    }

    /** setPath(inout, newPath): copies the given keys into the selected section. Returns
        whether a section was selected (the source returns `this`, or `undefined` after
        logging an error). */
    method SetPath(inout: string, newPath: map<string, PathValue>) returns (ok: bool)
      requires Valid()
      requires "root" in newPath ==> newPath["root"].Single?
      modifies this`input, this`output
      ensures Valid()
      ensures ok <==> ParseDirection(inout).Some?
      ensures ParseDirection(inout) == Some(Input) ==> input == old(input) + newPath && output == old(output)
      ensures ParseDirection(inout) == Some(Output) ==> output == old(output) + newPath && input == old(input)
      ensures !ok ==> input == old(input) && output == old(output)
      ensures InputRootPath() ==
                if ParseDirection(inout) == Some(Input) && "root" in newPath then newPath["root"].path
                else old(InputRootPath())
      ensures OutputRootPath() ==
                if ParseDirection(inout) == Some(Output) && "root" in newPath then newPath["root"].path
                else old(OutputRootPath())
    {
      var d := ParseDirection(inout);
      match d
      case None =>
        ok := false;
      case Some(Input) =>
        input := input + newPath;
        ok := true;
      case Some(Output) =>
        output := output + newPath;
        ok := true;
    }

    /** getPath(inout, typeName, {raw}): the stored entry, joined with the section's root
        unless `raw`. `None` stands for `undefined`. */
    function GetPath(inout: string, typeName: string, raw: bool, join: (string, string) -> string): (r: Option<PathValue>)
      reads this
      requires Valid()
      requires ParseDirection(inout).Some? && !raw ==> typeName in Section(ParseDirection(inout).value)
      ensures ParseDirection(inout).None? ==> r.None?
      ensures ParseDirection(inout).Some? && raw ==>
                var sec := Section(ParseDirection(inout).value);
                r == if typeName in sec then Some(sec[typeName]) else None
      ensures ParseDirection(inout).Some? && !raw ==>
                var sec := Section(ParseDirection(inout).value);
                var root := sec["root"].path;
                r.Some? &&
                match sec[typeName]
                case Single(s) => r.value == Single(join(root, s))
                case Many(xs) =>
                  r.value.Many? && |r.value.paths| == |xs| &&
                  forall i :: 0 <= i < |xs| ==> r.value.paths[i] == join(root, xs[i])
    {
      match ParseDirection(inout)
      case None => None
      case Some(d) =>
        var sec := Section(d);
        if raw then
          if typeName in sec then Some(sec[typeName]) else None
        else
          match sec[typeName]
          case Many(xs) => Some(Many(JoinAll(sec["root"].path, xs, join)))
          case Single(s) => Some(Single(join(sec["root"].path, s)))
    }

    /** supportExt(type, ext): records one extension under its label. */
    method SupportExt(kind: string, e: string)
      modifies this`ext
      ensures ext == old(ext)[kind := e]
    {
      ext := ext[kind := e];
    }

    /** setOption(name, param, diff): replaces the named block or deep-merges into it. */
    method SetOption(name: string, param: Value, diff: Value)
      requires CanSetOption(options, name, param, diff)
      modifies this`options
      ensures options == OptionsAfter(old(options), name, param, diff)
    {
      var p := EffectiveParam(param);
      if name !in options || options[name] == Undefined || diff == Bool(false) {
        options := options[name := p];
        return;
      }
      var merged := ObjectMerge(options[name], p);
      options := options[name := merged];
    }
  }

  /** The path examples: a root and a fragment set in two calls, a list of fragments,
      and a direction that selects nothing. */
  method PathExamples(join: (string, string) -> string)
    returns (css: Option<PathValue>, cssRaw: Option<PathValue>, js: Option<PathValue>,
             jsRaw: Option<PathValue>, bogus: Option<PathValue>)
    ensures css == Some(Single(join("/src", "styles"))) && cssRaw == Some(Single("styles"))
    ensures js == Some(Many([join("/dist", "a.js"), join("/dist", "b.js")]))
    ensures jsRaw == Some(Many(["a.js", "b.js"]))
    ensures bogus == None
  {
    assert ParseDirection("input") == Some(Input);
    assert ParseDirection("output") == Some(Output);
    assert ParseDirection("bogus") == None;
    var t := new TaskAssist("", "");
    var ok := t.SetPath("input", map["root" := Single("/src")]);
    ok := t.SetPath("input", map["css" := Single("styles")]);
    assert t.input["root"] == Single("/src") && t.input["css"] == Single("styles");
    css := t.GetPath("input", "css", false, join);
    cssRaw := t.GetPath("input", "css", true, join);
    ok := t.SetPath("output", map["root" := Single("/dist"), "js" := Many(["a.js", "b.js"])]);
    assert t.output["root"] == Single("/dist") && t.output["js"] == Many(["a.js", "b.js"]);
    js := t.GetPath("output", "js", false, join);
    assert js.value.paths == [join("/dist", "a.js"), join("/dist", "b.js")];
    jsRaw := t.GetPath("output", "js", true, join);
    bogus := t.GetPath("bogus", "css", false, join);
  }
}

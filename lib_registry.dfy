/**
 * The registry of lib/src/core/registry.js, the later revision: `register`
 * accepts one module or a list of them, and every registered module becomes
 * a yargs command of its own.
 */
module LibRegistry {
  import opened JsValue
  import opened CommandModule
  import opened ModuleTable

  /** What `register` is given: nothing (null, undefined or another falsy
      value), one module, or an array of modules. */
  datatype Registration =
    | Nothing
    | Single(m: Module)
    | Many(ms: seq<Module>)

  /** The list `register` works through once it has wrapped a single module. */
  function AsList(reg: Registration): (ms: seq<Module>)
    ensures reg.Nothing? ==> ms == []
    ensures reg.Single? ==> ms == [reg.m]
    ensures reg.Many? ==> ms == reg.ms
  {
    match reg
    case Nothing => []
    case Single(m) => [m]
    case Many(ms) => ms
  }

  /** `_combineArgvs(argv)`. This revision never assigns `globalArgv`, so the
      merge reads it as undefined and skips it: the result is a fresh copy of
      the local argv, or `{}` when there is none. */
  function CombineArgvs(argv: Value): (r: map<string, Value>)
    requires argv.Undefined? || argv.Null? || argv.Obj?
    ensures argv.Obj? ==> r == argv.fields
    ensures !argv.Obj? ==> r == map[]
  {
    var globalArgv := Undefined;
    var merged := MergeMaps(map[], FieldsOf(globalArgv));
    if argv.Obj? then MergeMaps(merged, argv.fields) else merged
  }

  class Registry {
    var modules: Table

    predicate Valid()
      reads this
    {
      WellFormed(modules)
    }

    constructor ()
      ensures Valid()
      ensures modules.ids == [] && modules.byId == map[]
    {
      modules := Empty();
    }

    /** `register(modules)`: each module in turn replaces any module
        registered under its id; with nothing to register, nothing changes. */
    method Register(reg: Registration)
      requires Valid()
      modifies this
      ensures Valid()
      ensures modules == PutAll(old(modules), AsList(reg))
      ensures AsList(reg) == [] ==> modules == old(modules)
    {
      var ms: seq<Module>;
      match reg {
        case Nothing =>
          return;
        case Single(m) =>
          ms := [m];
        case Many(list) =>
          ms := list;
      }
      if |ms| == 0 {
        return;
      }
      ghost var start := modules;
      var i := 0;
      while i < |ms|
        invariant 0 <= i <= |ms|
        invariant WellFormed(modules)
        invariant modules == PutAll(start, ms[..i])
      {
        PutAllStep(start, ms, i);
        modules := Put(modules, ms[i]);
        i := i + 1;
      }
      assert ms[..i] == ms;
    }

    /** `moduleIds` */
    function ModuleIds(): (ids: seq<string>)
      requires Valid()
      reads this
      ensures NoDuplicates(ids)
      ensures forall k :: k in ids ==> k in modules.byId
      ensures forall k :: k in modules.byId ==> k in ids
    {
      Ids(modules)
    }

    /** `moduleNames`: one name per registered module, in `moduleIds` order. */
    function ModuleNames(): (names: seq<Value>)
      requires Valid()
      reads this
      ensures |names| == |ModuleIds()|
      ensures forall i :: 0 <= i < |names| ==> names[i] == modules.byId[ModuleIds()[i]].name
    {
      Names(modules)
    }

    /** `registerAllCommands(yargs)`: the modules handed to `registerCommand`,
        each registered module exactly once, in registry order. */
    method RegisterAllCommands() returns (handed: seq<Module>)
      requires Valid()
      ensures |handed| == |ModuleIds()|
      ensures forall i :: 0 <= i < |handed| ==> handed[i].id == ModuleIds()[i] && handed[i] == modules.byId[ModuleIds()[i]]
      ensures NoDuplicates(handed)
      ensures forall k :: k in modules.byId ==> modules.byId[k] in handed
    {
      handed := [];
      var i := 0;
      while i < |modules.ids|
        invariant 0 <= i <= |modules.ids|
        invariant handed == Modules(modules)[..i]
      {
        handed := handed + [modules.byId[modules.ids[i]]];
        i := i + 1;
      }
    }
  }
}

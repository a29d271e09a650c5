/**
 * The registry of src/core/registry.js: the modules registered so far, the
 * argv of the command being run, and how a module's method actions become
 * yargs subcommands.
 */
module CoreRegistry {
  import opened JsValue
  import opened CommandModule
  import opened ModuleTable

  /** The errors `command` throws. */
  datatype CommandError =
    | NoMethodActions(moduleName: Value)  // the module has no `_actions`
    | InvalidAction(moduleId: string)     // the requested action is missing or unknown
    | MissingGroupHook(group: string)     // a non-string entry, and the module has no `registerMethodActions`

  /** A value an argv slot may hold: yargs' argv object, or nothing. */
  predicate ArgvLike(v: Value)
  {
    v.Undefined? || v.Null? || v.Obj?
  }

  /** `v || {}` read as an object. */
  function OrEmpty(v: Value): (m: map<string, Value>)
    requires ArgvLike(v)
    ensures v.Obj? ==> m == v.fields
    ensures !v.Obj? ==> m == map[]
  {
    if Truthy(v) then v.fields else map[]
  }

  /** The entries of a method map, in its key order `order`. */
  function EntriesOf(fields: map<string, Value>, order: seq<string>): (e: seq<(string, Value)>)
    requires forall i :: 0 <= i < |order| ==> order[i] in fields
    ensures |e| == |order|
    ensures forall i :: 0 <= i < |e| ==> e[i].0 == order[i] && e[i].1 == fields[order[i]]
  {
    seq(|order|, i requires 0 <= i < |order| => (order[i], fields[order[i]]))
  }

  function KeysOf<D>(entries: seq<(string, D)>): seq<string>
  {
    seq(|entries|, i requires 0 <= i < |entries| => entries[i].0)
  }

  /** The method map after `registerMethodActions` rewrites it for `group`
      ("" when there is none): every description is indented by two spaces
      and the first is prefixed with the group in parentheses. An empty map
      gains the key "undefined", since its first key is read as undefined. */
  function Regrouped(entries: seq<(string, Value)>, group: string): (r: seq<(string, Value)>)
    ensures group == "" ==> r == entries
    ensures group != "" && entries != [] ==>
      && |r| == |entries|
      && KeysOf(r) == KeysOf(entries)
      && r[0].1 == Str("(" + group + ") " + ("  " + ToStr(entries[0].1)))
      && forall i :: 1 <= i < |r| ==> r[i].1 == Str("  " + ToStr(entries[i].1))
    ensures group != "" && entries == [] ==> r == [("undefined", Str("(" + group + ") " + "undefined"))]
    ensures group != "" ==> forall i :: 0 <= i < |r| ==> r[i].1.Str?
  {
    if group == "" then entries
    else if entries == [] then [("undefined", Str("(" + group + ") " + "undefined"))]
    else
      seq(|entries|, i requires 0 <= i < |entries| =>
        (entries[i].0, Str(if i == 0 then "(" + group + ") " + ("  " + ToStr(entries[i].1))
                           else "  " + ToStr(entries[i].1))))
  }

  /** The entries with a string description, each handed to yargs as a
      subcommand, in order. */
  function Described(entries: seq<(string, Value)>): (c: seq<(string, string)>)
    ensures |c| <= |entries|
    ensures forall i :: 0 <= i < |c| ==> (c[i].0, Str(c[i].1)) in entries
    ensures forall i :: 0 <= i < |entries| && entries[i].1.Str? ==> (entries[i].0, entries[i].1.s) in c
  {
    if entries == [] then []
    else
      var rest := Described(entries[1..]);
      assert forall e :: e in entries[1..] ==> e in entries;
      if entries[0].1.Str? then [(entries[0].0, entries[0].1.s)] + rest else rest
  }

  /** The entries with a non-string description, passed back to the module
      to register as a group under their key, in order. */
  function Delegated(entries: seq<(string, Value)>): (d: seq<(string, Value)>)
    ensures |d| <= |entries|
    ensures forall i :: 0 <= i < |d| ==> d[i] in entries && !d[i].1.Str?
    ensures forall i :: 0 <= i < |entries| && !entries[i].1.Str? ==> entries[i] in d
  {
    if entries == [] then []
    else
      var rest := Delegated(entries[1..]);
      assert forall e :: e in entries[1..] ==> e in entries;
      if entries[0].1.Str? then rest else [entries[0]] + rest
  }

  /** The position of the first entry with a non-string description, or
      the length when every description is a string. */
  function FirstDelegated(entries: seq<(string, Value)>): (n: nat)
    ensures n <= |entries|
    ensures forall i :: 0 <= i < n ==> entries[i].1.Str?
    ensures n < |entries| ==> !entries[n].1.Str?
  {
    if entries == [] || !entries[0].1.Str? then 0 else 1 + FirstDelegated(entries[1..])
  }

  /** Appending an entry extends the subcommands by it exactly when its
      description is a string. */
  lemma {:induction false} DescribedAppend(entries: seq<(string, Value)>, e: (string, Value))
    ensures Described(entries + [e]) == Described(entries) + (if e.1.Str? then [(e.0, e.1.s)] else [])
  {
    if entries != [] {
      assert (entries + [e])[1..] == entries[1..] + [e];
      DescribedAppend(entries[1..], e);
    } else {
      assert ([] + [e])[1..] == [];
    }
  }

  /** Appending an entry extends the delegated entries by it exactly when
      its description is not a string. */
  lemma {:induction false} DelegatedAppend(entries: seq<(string, Value)>, e: (string, Value))
    ensures Delegated(entries + [e]) == Delegated(entries) + (if e.1.Str? then [] else [e])
  {
    if entries != [] {
      assert (entries + [e])[1..] == entries[1..] + [e];
      DelegatedAppend(entries[1..], e);
    } else {
      assert ([] + [e])[1..] == [];
    }
  }

  /** Nothing is passed back exactly when every description is a string. */
  lemma NothingDelegatedIff(entries: seq<(string, Value)>)
    ensures Delegated(entries) == [] <==> FirstDelegated(entries) == |entries|
  {
    var n := FirstDelegated(entries);
    if n < |entries| {
      assert entries[n] in Delegated(entries);
    } else {
      NothingDelegated(entries);
    }
  }

  /** `{bar: 'Bars', grp: {baz: 'x'}}`: `bar` reaches yargs, and a module
      without its own `registerMethodActions` throws at `grp`. */
  lemma GroupWithoutHookExample()
    ensures var e := [("bar", Str("Bars")), ("grp", Obj(map["baz" := Str("x")]))];
      && FirstDelegated(e) == 1 && e[1].0 == "grp"
      && Described(e[..1]) == [("bar", "Bars")]
  {
    var e := [("bar", Str("Bars")), ("grp", Obj(map["baz" := Str("x")]))];
    assert e[1..][1..] == [];
    assert e[..1][1..] == [];
  }

  /** Each entry goes to exactly one side. */
  lemma {:induction false} DescribedDelegatedSplit(entries: seq<(string, Value)>)
    ensures |Described(entries)| + |Delegated(entries)| == |entries|
  {
    if entries != [] {
      DescribedDelegatedSplit(entries[1..]);
    }
  }

  lemma {:induction false} NothingDelegated(entries: seq<(string, Value)>)
    requires forall i :: 0 <= i < |entries| ==> entries[i].1.Str?
    ensures Delegated(entries) == []
  {
    if entries != [] {
      NothingDelegated(entries[1..]);
    }
  }

  /** Under a group every description is a string, so every entry becomes a
      subcommand and none is delegated. */
  lemma GroupedAllDescribed(entries: seq<(string, Value)>, group: string)
    requires group != ""
    ensures Delegated(Regrouped(entries, group)) == []
    ensures |Described(Regrouped(entries, group))| == |Regrouped(entries, group)|
  {
    var r := Regrouped(entries, group);
    DescribedDelegatedSplit(r);
    NothingDelegated(r);
  }

  /** The action the user asked for, `yargs.argv._[1]`, is one of `names`;
      `null`, `undefined` and a non-string value never are. */
  predicate IsRegisteredAction(positional: seq<Value>, names: seq<string>)
  {
    |positional| > 1 && positional[1].Str? && positional[1].s in names
  }

  class Registry {
    var modules: Table
    var globalArgv: Value

    predicate Valid()
      reads this
    {
      WellFormed(modules) && ArgvLike(globalArgv)
    }

    constructor ()
      ensures Valid()
      ensures modules.ids == [] && modules.byId == map[] && globalArgv == Undefined
    {
      modules := Empty();
      globalArgv := Undefined;
    }

    /** `register(module)`: the module replaces any module registered under
        its id. */
    method Register(m: Module)
      requires Valid()
      modifies this
      ensures Valid()
      ensures modules == Put(old(modules), m)
      ensures globalArgv == old(globalArgv)
    {
      modules := Put(modules, m);
    }

    /** `moduleIds` */
    function ModuleIds(): (ids: seq<string>)
      requires Valid()
      reads this
      ensures NoDuplicates(ids)
      ensures forall k :: k in ids ==> k in modules.byId
      ensures forall k :: k in modules.byId ==> k in ids
    {
      Ids(modules)
    }

    /** `moduleNames`: one name per registered module, in `moduleIds` order. */
    function ModuleNames(): (names: seq<Value>)
      requires Valid()
      reads this
      ensures |names| == |ModuleIds()|
      ensures forall i :: 0 <= i < |names| ==> names[i] == modules.byId[ModuleIds()[i]].name
    {
      Names(modules)
    }

    /** `_combineArgvs(argv)`: the stored global argv with the local argv
        merged over it; a missing side counts as `{}`. */
    function CombineArgvs(argv: Value): (r: map<string, Value>)
      requires Valid() && ArgvLike(argv)
      reads this
      ensures r.Keys == OrEmpty(globalArgv).Keys + OrEmpty(argv).Keys
      ensures forall k :: k in OrEmpty(argv) && IsLeaf(OrEmpty(argv)[k]) ==> r[k] == OrEmpty(argv)[k]
      ensures forall k :: k in OrEmpty(argv) ==> r[k] == MergeValue(Lookup(OrEmpty(globalArgv), k), OrEmpty(argv)[k])
      ensures forall k :: k in OrEmpty(globalArgv) && k !in OrEmpty(argv) ==> r[k] == OrEmpty(globalArgv)[k]
    {
      MergeMaps(MergeMaps(map[], OrEmpty(globalArgv)), OrEmpty(argv))
    }

    /** `getMethodActions(module)`, given the module's `_actions`. */
    function GetMethodActions(actions: Value): (r: Value)
      ensures Truthy(r) <==> Truthy(actions)
      ensures Truthy(actions) ==> r == actions
      ensures !Truthy(actions) ==> r == Null
    {
      if Truthy(actions) then actions else Null
    }

    /** The first half of `registerMethodActions`: under a group, every
        description of the method map is indented in place, then the first
        key's is prefixed with the group. */
    method RegroupMap(entries: seq<(string, Value)>, group: string) returns (methodMap: seq<(string, Value)>)
      ensures methodMap == Regrouped(entries, group)
    {
      methodMap := entries;
      if group != "" {
        var i := 0;
        while i < |methodMap|
          invariant 0 <= i <= |methodMap| == |entries|
          invariant forall j :: 0 <= j < i ==> methodMap[j] == (entries[j].0, Str("  " + ToStr(entries[j].1)))
          invariant forall j :: i <= j < |methodMap| ==> methodMap[j] == entries[j]
        {
          methodMap := methodMap[i := (methodMap[i].0, Str("  " + ToStr(methodMap[i].1)))];
          i := i + 1;
        }
        if methodMap == [] {
          methodMap := [("undefined", Str("(" + group + ") " + ToStr(Undefined)))];
        } else {
          methodMap := methodMap[0 := (methodMap[0].0, Str("(" + group + ") " + ToStr(methodMap[0].1)))];
          ghost var expected := Regrouped(entries, group);
          assert |methodMap| == |expected|;
          forall j | 0 <= j < |methodMap| ensures methodMap[j] == expected[j] {
            if j == 0 {
              assert methodMap[0].0 == expected[0].0;
            }
          }
        }
      }
      assert methodMap == Regrouped(entries, group);
    }

    /** `registerMethodActions(module, yargs, methodMap, group)`: the method
        map is rewritten in place for the group, then each entry is either
        handed to yargs as a subcommand or passed back to the module's own
        `registerMethodActions`. `hook` says whether the module has one; a
        module without one throws at the first entry passed back, `refused`
        names that entry's key, and no later entry reaches yargs. */
    method RegisterMethodActions(entries: seq<(string, Value)>, group: string, hook: bool)
      returns (commands: seq<(string, string)>, delegated: seq<(string, Value)>, refused: Option<string>)
      ensures var m := Regrouped(entries, group);
        hook ==> refused == None && commands == Described(m) && delegated == Delegated(m)
      ensures var m := Regrouped(entries, group);
        var n := FirstDelegated(m);
        !hook ==> && commands == Described(m[..n]) && delegated == []
                  && (refused.Some? <==> n < |m|)
                  && (refused.Some? ==> refused.value == m[n].0)
    {
      var methodMap := RegroupMap(entries, group);
      commands, delegated, refused := [], [], None;
      var i := 0;
      while i < |methodMap|
        invariant 0 <= i <= |methodMap|
        invariant commands == Described(methodMap[..i])
        invariant delegated == Delegated(methodMap[..i])
        invariant !hook ==> delegated == [] && i <= FirstDelegated(methodMap)
        invariant refused == None
      {
        var entry := methodMap[i];
        assert methodMap[..i + 1] == methodMap[..i] + [entry];
        DescribedAppend(methodMap[..i], entry);
        DelegatedAppend(methodMap[..i], entry);
        if entry.1.Str? {
          commands := commands + [(entry.0, entry.1.s)];
        } else if hook {
          delegated := delegated + [entry];
        } else {
          assert i == FirstDelegated(methodMap);
          refused := Some(entry.0);
          break;
        }
        i := i + 1;
      }
      assert refused == None ==> methodMap[..i] == methodMap;
    }

    /** `command(module, yargs, argv)`: fails when the module has no method
        actions, registers them, and fails unless the action asked for,
        `positional[1]`, is one of the subcommands registered. `hook` says
        whether the module has its own `registerMethodActions`; without one,
        the first entry with a non-string description makes it throw. */
    method Command(m: Module, actions: Value, order: seq<string>, positional: seq<Value>, hook: bool)
      returns (r: Result<seq<(string, string)>, CommandError>)
      requires Truthy(actions) ==> actions.Obj? && IsEnumeration(order, actions.fields.Keys)
      ensures !Truthy(actions) ==> r == Err(NoMethodActions(m.name))
      ensures Truthy(actions) ==>
        var entries := EntriesOf(actions.fields, order);
        var n := FirstDelegated(entries);
        !hook && n < |entries| ==> r == Err(MissingGroupHook(entries[n].0))
      ensures Truthy(actions) ==>
        var entries := EntriesOf(actions.fields, order);
        var commands := Described(entries);
        hook || FirstDelegated(entries) == |entries| ==>
          && (IsRegisteredAction(positional, KeysOf(commands)) ==> r == Ok(commands))
          && (!IsRegisteredAction(positional, KeysOf(commands)) ==> r == Err(InvalidAction(m.id)))
    {
      var methodSubCmds := GetMethodActions(actions);
      if !Truthy(methodSubCmds) {
        return Err(NoMethodActions(m.name));
      }
      assert forall i :: 0 <= i < |order| ==> order[i] in actions.fields by {
        assert forall i :: 0 <= i < |order| ==> order[i] in (set k | k in order);
      }
      ghost var entries := EntriesOf(actions.fields, order);
      var commands, delegated, refused := RegisterMethodActions(EntriesOf(actions.fields, order), "", hook);
      if refused.Some? {
        return Err(MissingGroupHook(refused.value));
      }
      assert !hook ==> entries[..FirstDelegated(entries)] == entries;
      var names := KeysOf(commands);
      var action := if |positional| > 1 then positional[1] else Undefined;
      if action.Null? || action.Undefined? || !(action.Str? && action.s in names) {
        return Err(InvalidAction(m.id));
      }
      r := Ok(commands);
    }

    /** The handler yargs calls when the command of module `m` runs: it
        stores `argv` as the global argv and registers the actions. */
    method CommandInvoked(m: Module, argv: Value, actions: Value, order: seq<string>, positional: seq<Value>, hook: bool)
      returns (r: Result<seq<(string, string)>, CommandError>)
      requires Valid() && ArgvLike(argv)
      requires Truthy(actions) ==> actions.Obj? && IsEnumeration(order, actions.fields.Keys)
      modifies this
      ensures Valid()
      ensures globalArgv == argv && modules == old(modules)
      ensures !Truthy(actions) ==> r == Err(NoMethodActions(m.name))
      ensures Truthy(actions) ==>
        var entries := EntriesOf(actions.fields, order);
        var n := FirstDelegated(entries);
        var commands := Described(entries);
        r == if !hook && n < |entries| then Err(MissingGroupHook(entries[n].0))
             else if IsRegisteredAction(positional, KeysOf(commands)) then Ok(commands)
             else Err(InvalidAction(m.id))
    {
      globalArgv := argv;
      r := Command(m, actions, order, positional, hook);
    }

    /** `registerAllCommands(yargs)`: the modules handed to `registerCommand`,
        each registered module exactly once, in registry order. */
    method RegisterAllCommands() returns (handed: seq<Module>)
      requires Valid()
      ensures |handed| == |ModuleIds()|
      ensures forall i :: 0 <= i < |handed| ==> handed[i].id == ModuleIds()[i] && handed[i] == modules.byId[ModuleIds()[i]]
      ensures NoDuplicates(handed)
      ensures forall k :: k in modules.byId ==> modules.byId[k] in handed
    {
      handed := [];
      var i := 0;
      while i < |modules.ids|
        invariant 0 <= i <= |modules.ids|
        invariant handed == Modules(modules)[..i]
      {
        handed := handed + [modules.byId[modules.ids[i]]];
        i := i + 1;
      }
    }
  }
}

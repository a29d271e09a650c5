/**
 * The value-level half of src/core/module.js: what the `Module` constructor
 * decides from its spec object (identity, defaults, inherited configuration,
 * the one mode the module runs in, or the error it throws), the
 * `${placeholder}` substitution of `_substituteConfig`, the options a
 * decorated handler receives, and the argument split of `_invoke`.
 * The module objects themselves, whose fields change, are in CommandModule.
 */
module ModulePlan {
  import opened JsValue
  import opened Util

  // ---------------------------------------------------------------------
  // Construction
  // ---------------------------------------------------------------------

  /** The errors the constructor throws. */
  datatype ConstructionError =
    | MissingCommand                         // 'Module must be created with a command'
    | CommandShadowsProperty(command: string) // 'Command cannot shadow Module property ...'
    | NoActionsHandlerOrMethods              // 'No actions, handler or methods to use as subcommands'

  /** The `options` object handed to the constructor: its enumerable
      properties (what `_.merge` copies onto the module) and, for the
      reflection walk of `getAllPublicPropertyNames`, the own property names
      of the object and of each object on its prototype chain. A parent
      module, passed as `options.parent`, is kept apart from the values. */
  datatype Spec = Spec(fields: map<string, Value>, chain: seq<seq<string>>)

  /** A plain object literal whose own keys, in order, are `keys`. */
  function PlainSpec(keys: seq<string>, fields: map<string, Value>): Spec
  {
    Spec(fields, [keys, ObjectPrototypeNames])
  }

  /** The names `Module.prototype` defines. */
  const ModulePrototypeNames: set<string> := {
    "constructor", "_substituteConfig", "_decorateHandlerConfig", "_builder",
    "_buildSubmodule", "_invoke", "beforeTask", "runTask", "afterTask", "_report", "register"}

  /** The own properties every constructed module has besides the spec's. */
  const ConstructedNames: set<string> := {"options", "id", "name", "command", "describe", "config"}

  /** The properties `this.command in this` sees on a module that hosts its
      own handler: the spec's, the constructor's, and the prototypes'. */
  function SelfProperties(fields: map<string, Value>): (p: set<string>)
    ensures fields.Keys <= p && ConstructedNames <= p && ModulePrototypeNames <= p
  {
    fields.Keys + ConstructedNames + InheritedNames
  }

  /** The names every module inherits from `Module.prototype` and `Object.prototype`. */
  const InheritedNames: set<string> := ModulePrototypeNames + set x | x in ObjectPrototypeNames

  /** A name shorter than seven characters is on neither prototype. */
  lemma ShortNameNotInherited(x: string)
    requires |x| < 7
    ensures x !in ModulePrototypeNames && x !in ObjectPrototypeNames
  {
    ModulePrototypeNameLengths();
    ObjectPrototypeNameLengths();
  }

  lemma ModulePrototypeNameLengths()
    ensures forall x :: x in ModulePrototypeNames ==> |x| >= 7
  {
  }

  /** What a child's constructor reads of its parent module. */
  datatype ParentView = ParentView(config: map<string, Value>, properties: set<string>)

  /** The mode the constructor picks. */
  datatype Mode =
    | Composite(actions: Value)              // `actions` given: a builder over them
    | Leaf(handler: Value)                   // `handler` given: decorated and bound on the host
    | MethodDispatch(methods: seq<string>)   // neither: one synthesised action per public name

  /** The state the constructor leaves on a new module. */
  datatype Plan = Plan(id: string, name: Value, describe: Value, config: map<string, Value>, mode: Mode)

  /** The constructor handles a `config` that is an object or absent. */
  predicate ConfigShape(fields: map<string, Value>)
  {
    Get(fields, "config").Undefined? || Get(fields, "config").Obj?
  }

  /** `this.config` right after `_.defaults`: the spec's config, or `{}`. */
  function OwnConfig(fields: map<string, Value>): map<string, Value>
  {
    FieldsOf(Get(fields, "config"))
  }

  /** The public names of the spec that become subcommands when it has
      neither actions nor a handler. */
  function MethodNames(chain: seq<seq<string>>): seq<string>
  {
    Without(PublicNames(chain), ["command", "describe"])
  }

  /** Where `this.command in host` looks: the parent, else the module itself. */
  function HostProperties(spec: Spec, parent: Option<ParentView>): set<string>
  {
    if parent.Some? then parent.value.properties else SelfProperties(spec.fields)
  }

  function SelectMode(spec: Spec, id: string, host: set<string>): (r: Result<Mode, ConstructionError>)
    ensures Truthy(Get(spec.fields, "actions")) ==> r == Ok(Composite(Get(spec.fields, "actions")))
    ensures r == Err(CommandShadowsProperty(id)) <==>
      !Truthy(Get(spec.fields, "actions")) && Truthy(Get(spec.fields, "handler")) && id in host
    ensures r == Err(NoActionsHandlerOrMethods) <==>
      !Truthy(Get(spec.fields, "actions")) && !Truthy(Get(spec.fields, "handler")) && MethodNames(spec.chain) == []
    ensures r.Ok? && r.value.Leaf? ==> id !in host && r.value.handler == Get(spec.fields, "handler")
    ensures r.Ok? && r.value.MethodDispatch? ==> r.value.methods == MethodNames(spec.chain) != []
  {
    var actions := Get(spec.fields, "actions");
    var handler := Get(spec.fields, "handler");
    if Truthy(actions) then Ok(Composite(actions))
    else if Truthy(handler) then
      if id in host then Err(CommandShadowsProperty(id)) else Ok(Leaf(handler))
    else
      var methods := MethodNames(spec.chain);
      if methods == [] then Err(NoActionsHandlerOrMethods) else Ok(MethodDispatch(methods))
  }

  /** The constructor of `Module`, as the plan it leaves or the error it throws. */
  function Resolve(spec: Spec, parent: Option<ParentView>): (r: Result<Plan, ConstructionError>)
    requires ConfigShape(spec.fields)
    ensures r == Err(MissingCommand) <==> !Truthy(Get(spec.fields, "command"))
    ensures r.Ok? ==> r.value.id == ToStr(spec.fields["command"])
    ensures r.Ok? ==> r.value.name == (if Get(spec.fields, "name").Undefined? then spec.fields["command"] else spec.fields["name"])
    ensures r.Ok? && !Get(spec.fields, "describe").Undefined? ==> r.value.describe == spec.fields["describe"]
    ensures r.Ok? && Get(spec.fields, "describe").Undefined? ==>
      r.value.describe == if Truthy(Get(spec.fields, "description")) then spec.fields["description"] else Str("Perform " + r.value.id)
    ensures r.Ok? ==> r.value.config.Keys == OwnConfig(spec.fields).Keys + (if parent.Some? then parent.value.config.Keys else {})
    ensures r.Ok? && parent.None? ==> r.value.config == OwnConfig(spec.fields)
    ensures r.Ok? && parent.Some? ==> forall k :: k in parent.value.config && IsLeaf(parent.value.config[k]) ==>
      r.value.config[k] == parent.value.config[k]
    ensures r.Ok? && parent.Some? ==> forall k :: k in OwnConfig(spec.fields) && k !in parent.value.config ==>
      r.value.config[k] == OwnConfig(spec.fields)[k]
  {
    var command := Get(spec.fields, "command");
    if !Truthy(command) then Err(MissingCommand)
    else
      var id := ToStr(command);
      var name := if Get(spec.fields, "name").Undefined? then command else spec.fields["name"];
      var describe :=
        if !Get(spec.fields, "describe").Undefined? then spec.fields["describe"]
        else if Truthy(Get(spec.fields, "description")) then spec.fields["description"]
        else Str("Perform " + id);
      var config := if parent.Some? then MergeMaps(OwnConfig(spec.fields), parent.value.config) else OwnConfig(spec.fields);
      match SelectMode(spec, id, HostProperties(spec, parent))
      case Err(e) => Err(e)
      case Ok(mode) => Ok(Plan(id, name, describe, config, mode))
  }

  /** When construction succeeds and when it throws which error: a missing
      command first, then (only without truthy `actions`) a handler whose
      command the host already has, then a spec with no public names. */
  lemma ResolveOutcome(spec: Spec, parent: Option<ParentView>)
    requires ConfigShape(spec.fields)
    ensures var r := Resolve(spec, parent);
      var id := ToStr(Get(spec.fields, "command"));
      && (Truthy(Get(spec.fields, "command")) && Truthy(Get(spec.fields, "actions")) ==>
            r.Ok? && r.value.mode == Composite(spec.fields["actions"]))
      && (r.Ok? && r.value.mode.Leaf? ==>
            !Truthy(Get(spec.fields, "actions")) && r.value.mode.handler == spec.fields["handler"]
            && Truthy(r.value.mode.handler) && r.value.id !in HostProperties(spec, parent))
      && (r == Err(CommandShadowsProperty(id)) <==>
            Truthy(Get(spec.fields, "command")) && !Truthy(Get(spec.fields, "actions"))
            && Truthy(Get(spec.fields, "handler")) && id in HostProperties(spec, parent))
      && (r == Err(NoActionsHandlerOrMethods) <==>
            Truthy(Get(spec.fields, "command")) && !Truthy(Get(spec.fields, "actions"))
            && !Truthy(Get(spec.fields, "handler")) && MethodNames(spec.chain) == [])
      && (r.Ok? && r.value.mode.MethodDispatch? ==> r.value.mode.methods == MethodNames(spec.chain) != [])
  {
  }

  /** The synthesised subcommands are exactly the public names found on any
      level of the spec's prototype chain, other than `command` and
      `describe`, each once. */
  lemma MethodNamesSpec(chain: seq<seq<string>>)
    ensures NoDuplicates(MethodNames(chain))
    ensures forall x :: x in MethodNames(chain) <==>
      (exists i :: 0 <= i < |chain| && x in chain[i]) && IsPublicName(x) && x != "command" && x != "describe"
  {
    PublicNamesSpec(chain);
    WithoutKeepsDistinct(PublicNames(chain), ["command", "describe"]);
    forall x ensures x in Flatten(chain) <==> exists i :: 0 <= i < |chain| && x in chain[i] {
      FlattenContains(chain, x);
    }
  }

  lemma {:induction false} WithoutKeepsDistinct(names: seq<string>, excluded: seq<string>)
    requires NoDuplicates(names)
    ensures NoDuplicates(Without(names, excluded))
  {
    if names != [] {
      WithoutKeepsDistinct(names[1..], excluded);
      assert names[0] !in names[1..];
    }
  }

  /** A child inherits every key of its parent's configuration, with the
      parent's value wherever the parent's value is not itself an object or
      array to merge into (the parent is the source of `_.merge`). */
  lemma ParentConfigWins(spec: Spec, parent: ParentView, k: string)
    requires ConfigShape(spec.fields)
    requires Resolve(spec, Some(parent)).Ok?
    requires k in parent.config
    ensures k in Resolve(spec, Some(parent)).value.config
    ensures IsLeaf(parent.config[k]) ==> Resolve(spec, Some(parent)).value.config[k] == parent.config[k]
    ensures k !in OwnConfig(spec.fields) ==> Resolve(spec, Some(parent)).value.config[k] == parent.config[k]
  {
  }

  /** A name that becomes a subcommand of a plain-object spec is one of
      the object's own keys. */
  lemma MethodOfPlainSpec(keys: seq<string>, fields: map<string, Value>, x: string)
    requires x in MethodNames(PlainSpec(keys, fields).chain)
    ensures x in keys && x != "command" && x != "describe"
  {
    var chain := PlainSpec(keys, fields).chain;
    MethodNamesSpec(chain);
    var i :| 0 <= i < |chain| && x in chain[i];
    assert i == 0;
  }

  /** The module test's spec `{command: 'foo', handler}` can be constructed. */
  lemma HandlerExample(noop: Value)
    requires noop.Fn?
    ensures Resolve(PlainSpec(["command", "handler"], map["command" := Str("foo"), "handler" := noop]), None).Ok?
  {
    var spec := PlainSpec(["command", "handler"], map["command" := Str("foo"), "handler" := noop]);
    ShortNameNotInherited("foo");
    assert "foo" !in ConstructedNames;
    assert "foo" !in InheritedNames;
    assert "foo" !in SelfProperties(spec.fields);
    assert Get(spec.fields, "command") == Str("foo") && Get(spec.fields, "handler") == noop;
    assert Get(spec.fields, "actions") == Get(spec.fields, "config") == Undefined;
    ResolveLeaf(spec, "foo");
  }

  /** A parentless spec with a command that is not one of its own
      properties, no actions and a truthy handler: a leaf. */
  lemma ResolveLeaf(spec: Spec, command: string)
    requires Get(spec.fields, "command") == Str(command) && command != ""
    requires Get(spec.fields, "actions") == Get(spec.fields, "config") == Undefined
    requires Truthy(Get(spec.fields, "handler")) && command !in SelfProperties(spec.fields)
    ensures Resolve(spec, None).Ok? && Resolve(spec, None).value.mode == Leaf(Get(spec.fields, "handler"))
  {
  }

  /** The module test's spec `{command: 'foo', bar}` has exactly the
      subcommand `bar`. */
  lemma MethodsExample(noop: Value)
    requires noop.Fn?
    ensures Resolve(PlainSpec(["command", "bar"], map["command" := Str("foo"), "bar" := noop]), None)
      == Ok(Plan("foo", Str("foo"), Str("Perform foo"), map[], MethodDispatch(["bar"])))
  {
    var fields := map["command" := Str("foo"), "bar" := noop];
    var spec := PlainSpec(["command", "bar"], fields);
    BarIsTheOnlyMethod(spec);
    assert Get(fields, "command") == Str("foo");
    assert Get(fields, "actions") == Get(fields, "handler") == Get(fields, "config") == Undefined;
    assert Get(fields, "name") == Get(fields, "describe") == Get(fields, "description") == Undefined;
    ResolveDispatch(spec, "foo", ["bar"]);
    PerformFoo();
  }

  lemma PerformFoo()
    ensures "Perform " + "foo" == "Perform foo"
  {
  }

  /** A parentless spec with a command, no actions, handler, name,
      description or config, and some public names: dispatch on them. */
  lemma ResolveDispatch(spec: Spec, command: string, methods: seq<string>)
    requires Get(spec.fields, "command") == Str(command) && command != ""
    requires Get(spec.fields, "actions") == Get(spec.fields, "handler") == Get(spec.fields, "config") == Undefined
    requires Get(spec.fields, "name") == Get(spec.fields, "describe") == Get(spec.fields, "description") == Undefined
    requires MethodNames(spec.chain) == methods != []
    ensures Resolve(spec, None) == Ok(Plan(command, Str(command), Str("Perform " + command), map[], MethodDispatch(methods)))
  {
  }

  lemma BarIsTheOnlyMethod(spec: Spec)
    requires spec == PlainSpec(["command", "bar"], spec.fields)
    ensures MethodNames(spec.chain) == ["bar"]
  {
    var methods := MethodNames(spec.chain);
    MethodNamesSpec(spec.chain);
    ShortNameNotInherited("bar");
    assert "bar" in spec.chain[0] && IsPublicName("bar");
    assert "bar" in methods;
    forall x | x in methods ensures x == "bar" {
      MethodOfPlainSpec(["command", "bar"], spec.fields, x);
    }
    assert (set x | x in methods) == {"bar"};
    DistinctCardinality(methods);
    assert methods == [methods[0]];
  }

  /** The module tests' failing specs: none without a command, and none with
      a command alone. */
  lemma FailureExamples()
    ensures Resolve(PlainSpec([], map[]), None) == Err(MissingCommand)
    ensures Resolve(PlainSpec(["command"], map["command" := Str("foo")]), None) == Err(NoActionsHandlerOrMethods)
  {
    var fields := map["command" := Str("foo")];
    var spec := PlainSpec(["command"], fields);
    var methods := MethodNames(spec.chain);
    if methods != [] {
      MethodOfPlainSpec(["command"], fields, methods[0]);
    }
    assert Get(fields, "actions") == Get(fields, "handler") == Undefined;
    assert SelectMode(spec, "foo", HostProperties(spec, None)) == Err(NoActionsHandlerOrMethods);
  }

  // ---------------------------------------------------------------------
  // Building a subcommand's spec (_buildSubmodule)
  // ---------------------------------------------------------------------

  /** The own keys of the object literal `_buildSubmodule` merges the action
      spec into (its `parent` key holds the building module). */
  const SubmoduleLiteralKeys: seq<string> := ["command", "parent", "config", "requireConfig", "requireTools"]

  /** The subcommand spec an action spec is merged into. */
  function SubmoduleBase(subcommand: string, config: map<string, Value>, requireConfig: Value, requireTools: Value): map<string, Value>
  {
    map["command" := Str(subcommand), "config" := Obj(config),
        "requireConfig" := requireConfig, "requireTools" := requireTools]
  }

  /** `_buildSubmodule` handles action specs that are objects whose `config`
      is an object or absent and that do not name a `parent`. */
  predicate ActionShape(action: Value)
  {
    action.Undefined? || (action.Obj? && ConfigShape(action.fields) && "parent" !in action.fields)
  }

  /** The spec of the subcommand `subcommand`, built from the action spec
      `action` whose keys enumerate in the order `actionKeys` (merging an
      undefined action spec changes nothing). */
  function SubmoduleSpec(subcommand: string, config: map<string, Value>, requireConfig: Value, requireTools: Value,
                         action: Value, actionKeys: seq<string>): (s: Spec)
    ensures ActionShape(action) ==> ConfigShape(s.fields) && OwnConfig(s.fields) == ConfigAfterBuild(config, action)
    ensures "command" in s.fields
    ensures Get(FieldsOf(action), "command").Undefined? ==> s.fields["command"] == Str(subcommand)
  {
    var fields := MergeMaps(SubmoduleBase(subcommand, config, requireConfig, requireTools), FieldsOf(action));
    SubmoduleFields(subcommand, config, requireConfig, requireTools, action);
    Spec(fields, [SubmoduleLiteralKeys + Without(actionKeys, SubmoduleLiteralKeys), ObjectPrototypeNames])
  }

  /** When `actionKeys` lists the action spec's own keys, the child spec's
      own names are exactly its fields' keys, plus `parent`, which the model
      holds apart from the fields. */
  lemma SubmoduleOwnNames(subcommand: string, config: map<string, Value>, requireConfig: Value, requireTools: Value,
                          action: Value, actionKeys: seq<string>)
    requires IsEnumeration(actionKeys, FieldsOf(action).Keys)
    ensures var s := SubmoduleSpec(subcommand, config, requireConfig, requireTools, action, actionKeys);
      forall k :: k in s.chain[0] <==> k in s.fields || k == "parent"
  {
    var s := SubmoduleSpec(subcommand, config, requireConfig, requireTools, action, actionKeys);
    forall k
      ensures k in s.chain[0] <==> k in s.fields || k == "parent"
    {
      assert k in actionKeys <==> k in (set x | x in actionKeys);
    }
  }

  lemma SubmoduleFields(subcommand: string, config: map<string, Value>, requireConfig: Value, requireTools: Value, action: Value)
    ensures var f := MergeMaps(SubmoduleBase(subcommand, config, requireConfig, requireTools), FieldsOf(action));
      && (ActionShape(action) ==> ConfigShape(f) && OwnConfig(f) == ConfigAfterBuild(config, action))
      && "command" in f
      && (Get(FieldsOf(action), "command").Undefined? ==> f["command"] == Str(subcommand))
  {
    var f := MergeMaps(SubmoduleBase(subcommand, config, requireConfig, requireTools), FieldsOf(action));
    if "config" in FieldsOf(action) && FieldsOf(action)["config"].Obj? {
      assert f["config"] == MergeValue(Some(Obj(config)), FieldsOf(action)["config"]);
    }
  }

  /** The parent's configuration after `_buildSubmodule`: the literal holds
      the parent's own config object, so the action's config is merged into
      it. */
  function ConfigAfterBuild(config: map<string, Value>, action: Value): (c: map<string, Value>)
    requires ActionShape(action)
    ensures c.Keys == config.Keys + OwnConfig(FieldsOf(action)).Keys
    ensures forall k {:trigger c[k]} :: k in config && k !in OwnConfig(FieldsOf(action)) ==> c[k] == config[k]
  {
    MergeMaps(config, OwnConfig(FieldsOf(action)))
  }

  /** A built subcommand's command is the action key unless the action spec
      gives its own, its config is the parent's (updated) config, and it
      takes the parent's `requireConfig`/`requireTools` unless it sets them. */
  lemma SubmoduleSpecFields(subcommand: string, config: map<string, Value>, requireConfig: Value, requireTools: Value,
                            action: Value, actionKeys: seq<string>)
    requires ActionShape(action)
    requires IsLeaf(Get(FieldsOf(action), "command")) || Get(FieldsOf(action), "command").Undefined?
    ensures var s := SubmoduleSpec(subcommand, config, requireConfig, requireTools, action, actionKeys);
      && ConfigShape(s.fields)
      && s.fields["command"] == (if Get(FieldsOf(action), "command").Undefined? then Str(subcommand) else FieldsOf(action)["command"])
      && OwnConfig(s.fields) == ConfigAfterBuild(config, action)
      && (Get(FieldsOf(action), "requireConfig").Undefined? ==> s.fields["requireConfig"] == requireConfig)
      && (Get(FieldsOf(action), "requireTools").Undefined? ==> s.fields["requireTools"] == requireTools)
      && (forall k :: k in FieldsOf(action) && k !in SubmoduleLiteralKeys ==> s.fields[k] == FieldsOf(action)[k])
  {
    var base := SubmoduleBase(subcommand, config, requireConfig, requireTools);
    var s := SubmoduleSpec(subcommand, config, requireConfig, requireTools, action, actionKeys);
    if "config" in FieldsOf(action) && FieldsOf(action)["config"].Obj? {
      assert s.fields["config"] == MergeValue(Some(Obj(config)), FieldsOf(action)["config"]);
    }
  }

  /** With its parent as host, a subcommand built from a parent's config
      ends up with exactly that config: the parent's merge into the child
      changes nothing. */
  lemma SubmoduleConfigIsParents(spec: Spec, parent: ParentView)
    requires ConfigShape(spec.fields) && OwnConfig(spec.fields) == parent.config
    requires Resolve(spec, Some(parent)).Ok?
    ensures Resolve(spec, Some(parent)).value.config == parent.config
  {
    MergeSelf(Obj(parent.config));
  }

  // ---------------------------------------------------------------------
  // Building every subcommand (_builder)
  // ---------------------------------------------------------------------

  /** Every action that `keys` names has a shape `_buildSubmodule` handles. */
  /** `actionKeys[i]` lists the own keys of the action for `order[i]`, in
      their enumeration order. */
  predicate ActionKeysListed(actions: map<string, Value>, order: seq<string>, actionKeys: seq<seq<string>>)
  {
    |actionKeys| == |order| && forall i :: 0 <= i < |order| ==> ActionKeysListedAt(actions, order, actionKeys, i)
  }

  predicate ActionKeysListedAt(actions: map<string, Value>, order: seq<string>, actionKeys: seq<seq<string>>, i: nat)
    requires i < |order| == |actionKeys|
  {
    IsEnumeration(actionKeys[i], FieldsOf(Get(actions, order[i])).Keys)
  }

  predicate ActionsShaped(actions: map<string, Value>, keys: seq<string>)
  {
    forall i :: 0 <= i < |keys| ==> ActionShape(Get(actions, keys[i]))
  }

  /** The building module's config after building the subcommands `keys`
      of `actions` in turn. */
  function ConfigAfterBuilds(config: map<string, Value>, actions: map<string, Value>, keys: seq<string>): (c: map<string, Value>)
    requires ActionsShaped(actions, keys)
    ensures config.Keys <= c.Keys
  {
    if keys == [] then config
    else ConfigAfterBuild(ConfigAfterBuilds(config, actions, keys[..|keys| - 1]), Get(actions, keys[|keys| - 1]))
  }

  /** The names the handler-mode children among `plans` bind on their host. */
  function LeafIds(plans: seq<Plan>): set<string>
  {
    if plans == [] then {}
    else
      var last := plans[|plans| - 1];
      LeafIds(plans[..|plans| - 1]) + (if last.mode.Leaf? then {last.id} else {})
  }

  lemma LeafIdsStep(plans: seq<Plan>, p: Plan)
    ensures LeafIds(plans + [p]) == LeafIds(plans) + (if p.mode.Leaf? then {p.id} else {})
  {
    assert (plans + [p])[..|plans|] == plans;
  }

  /** `LeafIds` holds exactly the ids of the handler-mode plans. */
  lemma {:induction false} LeafIdsMembers(plans: seq<Plan>, x: string)
    ensures x in LeafIds(plans) <==> exists i :: 0 <= i < |plans| && plans[i].mode.Leaf? && plans[i].id == x
  {
    if plans != [] {
      var earlier := plans[..|plans| - 1];
      LeafIdsMembers(earlier, x);
      if x in LeafIds(earlier) {
        var i :| 0 <= i < |earlier| && earlier[i].mode.Leaf? && earlier[i].id == x;
        assert plans[i] == earlier[i];
      }
      if exists i :: 0 <= i < |plans| && plans[i].mode.Leaf? && plans[i].id == x {
        var i :| 0 <= i < |plans| && plans[i].mode.Leaf? && plans[i].id == x;
        if i < |earlier| {
          assert earlier[i] == plans[i];
        }
      }
    }
  }

  /** What `_builder` builds from: the building module as it stands when
      the loop starts, the actions, the order of their keys, each action's
      own keys, and the flags every subcommand inherits. */
  datatype Siblings = Siblings(parent: ParentView, actions: map<string, Value>, order: seq<string>,
                               actionKeys: seq<seq<string>>, requireConfig: Value, requireTools: Value)
  {
    predicate Shaped()
    {
      |order| == |actionKeys| && ActionsShaped(actions, order)
    }
  }

  /** The spec of the `i`-th subcommand `_builder` builds: it holds the
      config the earlier builds left. */
  function ChildSpec(sib: Siblings, i: nat): (s: Spec)
    requires sib.Shaped() && i < |sib.order|
    ensures ConfigShape(s.fields)
    ensures OwnConfig(s.fields) == ConfigAfterBuilds(sib.parent.config, sib.actions, sib.order[..i + 1])
  {
    assert sib.order[..i + 1][..i] == sib.order[..i];
    SubmoduleSpec(sib.order[i], ConfigAfterBuilds(sib.parent.config, sib.actions, sib.order[..i]),
                  sib.requireConfig, sib.requireTools, Get(sib.actions, sib.order[i]), sib.actionKeys[i])
  }

  /** What the constructor of the child built after `plans` reads of the
      building module: the config after its own build, and the properties
      the earlier handler-mode children bound. */
  function ChildView(sib: Siblings, plans: seq<Plan>): Option<ParentView>
    requires sib.Shaped() && |plans| < |sib.order|
  {
    Some(ParentView(ConfigAfterBuilds(sib.parent.config, sib.actions, sib.order[..|plans| + 1]),
                    sib.parent.properties + LeafIds(plans)))
  }

  /** `_.keys(actions).map(this._buildSubmodule, this)` on values: `n`
      children built in turn, where `child` gives the outcome of the
      constructor for the next child from the plans of those already built;
      the first refusal is thrown out of the loop. */
  function BuildAll(n: nat, child: seq<Plan> -> Result<Plan, ConstructionError>): (r: Result<seq<Plan>, ConstructionError>)
    ensures r.Ok? ==> |r.value| == n
  {
    if n == 0 then Ok([])
    else
      match BuildAll(n - 1, child)
      case Err(e) => Err(e)
      case Ok(plans) =>
        match child(plans)
        case Err(e) => Err(e)
        case Ok(p) => Ok(plans + [p])
  }

  /** The constructor's outcome for the child `_builder` builds after
      `plans` (no key is left once every key is built). */
  function ChildResult(sib: Siblings, plans: seq<Plan>): Result<Plan, ConstructionError>
    requires sib.Shaped()
  {
    if |plans| < |sib.order| then Resolve(ChildSpec(sib, |plans|), ChildView(sib, plans))
    else Err(NoActionsHandlerOrMethods)
  }

  /** `ChildResult` as the step of `BuildAll`. */
  function ChildOutcome(sib: Siblings): seq<Plan> -> Result<Plan, ConstructionError>
    requires sib.Shaped()
  {
    plans => ChildResult(sib, plans)
  }

  /** The plans of every child `_builder` builds for the keys `sib.order`,
      or the first refusal. */
  function BuildPlans(sib: Siblings): (r: Result<seq<Plan>, ConstructionError>)
    requires sib.Shaped()
    ensures r.Ok? ==> |r.value| == |sib.order|
  {
    BuildAll(|sib.order|, ChildOutcome(sib))
  }

  /** One more child: the fold goes on with the next outcome. */
  lemma BuildAllNext(n: nat, child: seq<Plan> -> Result<Plan, ConstructionError>, plans: seq<Plan>)
    requires BuildAll(n, child) == Ok(plans)
    ensures child(plans).Err? ==> BuildAll(n + 1, child) == Err(child(plans).error)
    ensures child(plans).Ok? ==> BuildAll(n + 1, child) == Ok(plans + [child(plans).value])
  {
  }

  /** Building stops at the first refusal: a prefix that fails makes the
      whole fail with its error. */
  lemma {:induction false} BuildAllPrefixFails(n: nat, child: seq<Plan> -> Result<Plan, ConstructionError>, m: nat)
    requires m <= n
    ensures BuildAll(m, child).Err? ==> BuildAll(n, child) == BuildAll(m, child)
  {
    if m < n {
      BuildAllPrefixFails(n - 1, child, m);
    }
  }

  /** A successful build begins with the successful builds of its prefixes. */
  lemma {:induction false} BuildAllPrefix(n: nat, child: seq<Plan> -> Result<Plan, ConstructionError>, m: nat)
    requires m <= n && BuildAll(n, child).Ok?
    ensures BuildAll(m, child) == Ok(BuildAll(n, child).value[..m])
  {
    var r := BuildAll(n, child);
    if m < n {
      var before := BuildAll(n - 1, child);
      assert before.Ok? && r.value == before.value + [r.value[n - 1]];
      BuildAllPrefix(n - 1, child, m);
      assert r.value[..m] == before.value[..m];
    } else {
      assert r.value[..m] == r.value;
    }
  }

  /** When every child is built, each one is the outcome of its
      constructor, given the children before it. */
  lemma BuildAllChildren(n: nat, child: seq<Plan> -> Result<Plan, ConstructionError>)
    requires BuildAll(n, child).Ok?
    ensures forall i :: 0 <= i < n ==> child(BuildAll(n, child).value[..i]) == Ok(BuildAll(n, child).value[i])
  {
    var r := BuildAll(n, child);
    forall i | 0 <= i < n ensures child(r.value[..i]) == Ok(r.value[i]) {
      BuildAllPrefix(n, child, i + 1);
      var before := BuildAll(i, child);
      assert before.Ok? && r.value[..i + 1] == before.value + [r.value[i]];
      assert before.value == r.value[..i];
    }
  }

  /** The child after the first `i` is the first one refused, with `e`. */
  predicate RefusedAt(i: nat, child: seq<Plan> -> Result<Plan, ConstructionError>, e: ConstructionError)
  {
    BuildAll(i, child).Ok? && child(BuildAll(i, child).value) == Err(e)
  }

  /** Building fails exactly when some child is refused after every earlier
      one was built, and then with that child's error. */
  lemma {:induction false} BuildAllFailure(n: nat, child: seq<Plan> -> Result<Plan, ConstructionError>, e: ConstructionError)
    ensures BuildAll(n, child) == Err(e) <==> exists i :: 0 <= i < n && RefusedAt(i, child, e)
  {
    if n > 0 {
      BuildAllFailure(n - 1, child, e);
      if BuildAll(n, child) == Err(e) {
        if BuildAll(n - 1, child).Ok? {
          assert RefusedAt(n - 1, child, e);
        } else {
          var i :| 0 <= i < n - 1 && RefusedAt(i, child, e);
        }
      }
      if exists i :: 0 <= i < n && RefusedAt(i, child, e) {
        var i :| 0 <= i < n && RefusedAt(i, child, e);
        assert BuildAll(i + 1, child) == Err(e);
        BuildAllPrefixFails(n, child, i + 1);
      }
    }
  }

  /** The action spec a module without actions or handler synthesises for
      each of its methodName names. */
  function SynthesisedAction(methodName: string): (a: Value)
    ensures ActionShape(a)
  {
    Obj(map["command" := Str(methodName), "describe" := Str("Performs " + methodName), "handler" := Fn(InvokeBound(methodName))])
  }

  /** `this.actions` of a module: the spec's in Composite mode, the
      synthesised ones in MethodDispatch mode, the spec's (not truthy) in
      Leaf mode. */
  function SynthesisedActions(methods: seq<string>): (a: map<string, Value>)
    ensures a.Keys == set m | m in methods
    ensures forall m :: m in a ==> a[m] == SynthesisedAction(m)
  {
    map m | m in methods :: SynthesisedAction(m)
  }

  /** A subcommand synthesised from a method name of a plain-object spec
      always fails to build: an empty name is a missing command, and any
      other name makes the handler-mode child bind on the parent, which
      already carries that name, copied from the spec. */
  lemma SynthesisedSubcommandShadows(parentSpec: Spec, keys: seq<string>, parent: ParentView, methodName: string,
                                     requireConfig: Value, requireTools: Value)
    requires parentSpec == PlainSpec(keys, parentSpec.fields)
    requires forall k :: k in keys ==> k in parentSpec.fields
    requires parentSpec.fields.Keys <= parent.properties
    requires methodName in MethodNames(parentSpec.chain)
    ensures var child := SubmoduleSpec(methodName, parent.config, requireConfig, requireTools,
                                       SynthesisedAction(methodName), ["command", "describe", "handler"]);
      ConfigShape(child.fields) && Resolve(child, Some(parent)) ==
        if methodName == "" then Err(MissingCommand) else Err(CommandShadowsProperty(methodName))
  {
    MethodOfPlainSpec(keys, parentSpec.fields, methodName);
    assert methodName in parent.properties;
    SynthesisedChild(methodName, parent, requireConfig, requireTools);
  }

  lemma SynthesisedChild(methodName: string, parent: ParentView, requireConfig: Value, requireTools: Value)
    requires methodName in parent.properties
    ensures var child := SubmoduleSpec(methodName, parent.config, requireConfig, requireTools,
                                       SynthesisedAction(methodName), ["command", "describe", "handler"]);
      ConfigShape(child.fields) && Resolve(child, Some(parent)) ==
        if methodName == "" then Err(MissingCommand) else Err(CommandShadowsProperty(methodName))
  {
    var child := SubmoduleSpec(methodName, parent.config, requireConfig, requireTools,
                               SynthesisedAction(methodName), ["command", "describe", "handler"]);
    SynthesisedChildFields(methodName, parent.config, requireConfig, requireTools);
    if methodName != "" {
      HandlerShadows(child, parent, methodName);
    }
  }

  lemma SynthesisedChildFields(methodName: string, config: map<string, Value>, requireConfig: Value, requireTools: Value)
    ensures var f := SubmoduleSpec(methodName, config, requireConfig, requireTools,
                                   SynthesisedAction(methodName), ["command", "describe", "handler"]).fields;
      && Get(f, "command") == Str(methodName) && Get(f, "handler") == Fn(InvokeBound(methodName))
      && Get(f, "actions") == Undefined && Get(f, "config") == Obj(config)
  {
    var action := SynthesisedAction(methodName);
    var base := SubmoduleBase(methodName, config, requireConfig, requireTools);
    var f := MergeMaps(base, action.fields);
    assert f["command"] == MergeValue(Some(Str(methodName)), Str(methodName));
    assert f["handler"] == MergeValue(None, Fn(InvokeBound(methodName)));
    assert f["config"] == Obj(config);
    assert "actions" !in f;
  }

  /** A spec with a handler and no actions whose command the parent already
      has is refused. */
  lemma HandlerShadows(spec: Spec, parent: ParentView, command: string)
    requires Get(spec.fields, "command") == Str(command) && command != ""
    requires !Truthy(Get(spec.fields, "actions")) && Truthy(Get(spec.fields, "handler"))
    requires ConfigShape(spec.fields) && command in parent.properties
    ensures Resolve(spec, Some(parent)) == Err(CommandShadowsProperty(command))
  {
    assert SelectMode(spec, command, parent.properties) == Err(CommandShadowsProperty(command));
  }

  // ---------------------------------------------------------------------
  // _substituteConfig: ${placeholder} substitution
  // ---------------------------------------------------------------------

  /** The first index at or after `from` that holds `}`. */
  function CloseBrace(s: string, from: nat): (j: Option<nat>)
    requires from <= |s|
    ensures j.None? ==> forall i :: from <= i < |s| ==> s[i] != '}'
    ensures j.Some? ==> from <= j.value < |s| && s[j.value] == '}'
    ensures j.Some? ==> forall i :: from <= i < j.value ==> s[i] != '}'
    decreases |s| - from
  {
    if from == |s| then None else if s[from] == '}' then Some(from) else CloseBrace(s, from + 1)
  }

  /** Where the match of `\$\{([^}]+)\}` that starts at index 0 of `s` ends
      (the index of its `}`), if one starts there. */
  function PlaceholderEnd(s: string): (j: Option<nat>)
    ensures j.Some? ==> 3 <= j.value < |s| && s[0] == '$' && s[1] == '{' && s[j.value] == '}'
    ensures j.Some? ==> forall i :: 2 <= i < j.value ==> s[i] != '}'
    ensures j.None? && |s| >= 2 && s[0] == '$' && s[1] == '{' ==>
      forall k :: 2 < k < |s| && s[k] == '}' ==> exists i :: 2 <= i < k && s[i] == '}'
  {
    if |s| >= 3 && s[0] == '$' && s[1] == '{' && s[2] != '}' then CloseBrace(s, 3) else None
  }

  /** `s.replace(/\$\{([^}]+)\}/g, (_, name) => options[name])`: each
      placeholder becomes the text of the option it names ("undefined" for
      a missing one). */
  function ReplacePlaceholders(s: string, options: map<string, Value>): (r: string)
    ensures '}' !in s ==> r == s
    decreases |s|
  {
    if s == [] then []
    else match PlaceholderEnd(s)
      case Some(j) => ToStr(Get(options, s[2..j])) + ReplacePlaceholders(s[j + 1..], options)
      case None => [s[0]] + ReplacePlaceholders(s[1..], options)
  }

  /** `s` holds no `${`. */
  predicate NoPlaceholderStart(s: string)
  {
    forall i :: 0 <= i < |s| - 1 ==> !(s[i] == '$' && s[i + 1] == '{')
  }

  /** Text without `${` comes back unchanged. */
  lemma {:induction false} NoPlaceholderUnchanged(s: string, options: map<string, Value>)
    requires NoPlaceholderStart(s)
    ensures ReplacePlaceholders(s, options) == s
  {
    if s != [] {
      assert PlaceholderEnd(s).None?;
      assert NoPlaceholderStart(s[1..]) by {
        forall i | 0 <= i < |s[1..]| - 1 ensures !(s[1..][i] == '$' && s[1..][i + 1] == '{') {
          assert s[1..][i] == s[i + 1] && s[1..][i + 1] == s[i + 2];
        }
      }
      NoPlaceholderUnchanged(s[1..], options);
    }
  }

  /** A configuration template: literal text and `${name}` placeholders. */
  datatype Piece = Text(chars: string) | Placeholder(name: string)

  /** Literal text holds no `${` and does not end in `$` (so no placeholder
      starts in it, whatever follows), and a placeholder's name is not empty
      and holds no `}`: the pieces are then exactly what the pattern finds. */
  predicate WellFormedPiece(p: Piece)
  {
    match p
    case Text(t) => PlainText(t)
    case Placeholder(n) => n != [] && '}' !in n
  }

  /** Text in which no match of the placeholder pattern can start. */
  predicate PlainText(t: string)
  {
    NoPlaceholderStart(t) && (t == [] || t[|t| - 1] != '$')
  }

  /** The template text. */
  function Render(ps: seq<Piece>): string
  {
    if ps == [] then []
    else (match ps[0] case Text(t) => t case Placeholder(n) => "${" + n + "}") + Render(ps[1..])
  }

  /** The template with each placeholder filled from `options`. */
  function Fill(ps: seq<Piece>, options: map<string, Value>): string
  {
    if ps == [] then []
    else (match ps[0] case Text(t) => t case Placeholder(n) => ToStr(Get(options, n))) + Fill(ps[1..], options)
  }

  lemma {:induction false} ReplaceText(t: string, rest: string, options: map<string, Value>)
    requires PlainText(t)
    ensures ReplacePlaceholders(t + rest, options) == t + ReplacePlaceholders(rest, options)
  {
    if t != [] {
      PlainTextHead(t, rest, options);
      ReplaceText(t[1..], rest, options);
      AppendAssoc([t[0]], t[1..], ReplacePlaceholders(rest, options));
      assert t == [t[0]] + t[1..];
    } else {
      assert t + rest == rest;
    }
  }

  /** No placeholder starts at the head of plain text, and the rest of it is
      plain text too. */
  lemma PlainTextHead(t: string, rest: string, options: map<string, Value>)
    requires PlainText(t) && t != []
    ensures ReplacePlaceholders(t + rest, options) == [t[0]] + ReplacePlaceholders(t[1..] + rest, options)
    ensures PlainText(t[1..])
  {
    var s := t + rest;
    assert s[0] == t[0] && s[1..] == t[1..] + rest;
    assert PlaceholderEnd(s).None? by {
      if |t| >= 2 {
        assert s[1] == t[1];
      }
    }
    forall i | 0 <= i < |t[1..]| - 1 ensures !(t[1..][i] == '$' && t[1..][i + 1] == '{') {
      assert t[1..][i] == t[i + 1] && t[1..][i + 1] == t[i + 2];
    }
  }

  lemma ReplacePlaceholder(n: string, rest: string, options: map<string, Value>)
    requires n != [] && '}' !in n
    ensures ReplacePlaceholders("${" + n + "}" + rest, options) == ToStr(Get(options, n)) + ReplacePlaceholders(rest, options)
  {
    var s := "${" + n + "}" + rest;
    var j := 2 + |n|;
    assert s[j] == '}';
    assert forall i :: 2 <= i < j ==> s[i] == n[i - 2];
    assert PlaceholderEnd(s) == Some(j);
    assert s[2..j] == n;
    assert s[j + 1..] == rest;
  }

  /** Substituting a rendered template fills each of its placeholders. */
  lemma {:induction false} ReplaceRender(ps: seq<Piece>, options: map<string, Value>)
    requires forall i :: 0 <= i < |ps| ==> WellFormedPiece(ps[i])
    ensures ReplacePlaceholders(Render(ps), options) == Fill(ps, options)
  {
    if ps != [] {
      ReplaceRender(ps[1..], options);
      match ps[0]
      case Text(t) =>
        ReplaceText(t, Render(ps[1..]), options);
      case Placeholder(n) =>
        ReplacePlaceholder(n, Render(ps[1..]), options);
    }
  }

  /** `_substituteConfig(options, key)` of a module whose config is
      `config`, with the `expand-home-dir` package as `expandDir`. */
  function SubstituteConfig(config: map<string, Value>, options: map<string, Value>, key: string,
                            expandDir: string -> string): (r: Value)
    ensures key !in config || !config[key].Str? ==> r == Get(options, key)
    ensures key in config && config[key].Str? ==> r.Str?
  {
    if key !in config then Get(options, key)
    else if !config[key].Str? then Get(options, key)
    else Str(ExpandHome(ReplacePlaceholders(config[key].s, options), expandDir))
  }

  /** A configured string with no `${` and no `~` is the value substituted. */
  lemma SubstituteUnchanged(config: map<string, Value>, options: map<string, Value>, key: string, expandDir: string -> string)
    requires key in config && config[key].Str?
    requires NoPlaceholderStart(config[key].s) && '~' !in config[key].s
    ensures SubstituteConfig(config, options, key, expandDir) == config[key]
  {
    NoPlaceholderUnchanged(config[key].s, options);
  }

  /** A configured template is filled from the options, then home-expanded. */
  lemma SubstituteTemplate(config: map<string, Value>, options: map<string, Value>, key: string,
                           expandDir: string -> string, ps: seq<Piece>)
    requires forall i :: 0 <= i < |ps| ==> WellFormedPiece(ps[i])
    requires key in config && config[key] == Str(Render(ps))
    ensures SubstituteConfig(config, options, key, expandDir) == Str(ExpandHome(Fill(ps, options), expandDir))
  {
    ReplaceRender(ps, options);
  }

  /** The module test's case: `${a}${b}${a}` with a = 1, b = 2 gives "121". */
  lemma SubstituteExample(expandDir: string -> string)
    ensures SubstituteConfig(map["k" := Str("${a}${b}${a}")], map["a" := Num(1), "b" := Num(2), "c" := Num(3)], "k", expandDir)
      == Str("121")
  {
    var ps := [Placeholder("a"), Placeholder("b"), Placeholder("a")];
    var options := map["a" := Num(1), "b" := Num(2), "c" := Num(3)];
    ExampleTemplate(options);
    SubstituteTemplate(map["k" := Str("${a}${b}${a}")], options, "k", expandDir, ps);
    assert '~' !in "121";
  }

  /** A `$` that starts no placeholder stays: `$HOME/${dir}` with dir = "src"
      gives "$HOME/src". */
  lemma SubstituteDollarExample(expandDir: string -> string)
    ensures SubstituteConfig(map["k" := Str("$HOME/${dir}")], map["dir" := Str("src")], "k", expandDir) == Str("$HOME/src")
  {
    var ps := [Text("$HOME/"), Placeholder("dir")];
    var options := map["dir" := Str("src")];
    DollarTemplate(options);
    SubstituteTemplate(map["k" := Str("$HOME/${dir}")], options, "k", expandDir, ps);
    assert '~' !in "$HOME/src";
  }

  lemma DollarTemplate(options: map<string, Value>)
    requires options == map["dir" := Str("src")]
    ensures forall i :: 0 <= i < |[Text("$HOME/"), Placeholder("dir")]| ==> WellFormedPiece([Text("$HOME/"), Placeholder("dir")][i])
    ensures Render([Text("$HOME/"), Placeholder("dir")]) == "$HOME/${dir}"
    ensures Fill([Text("$HOME/"), Placeholder("dir")], options) == "$HOME/src"
  {
    var ps := [Text("$HOME/"), Placeholder("dir")];
    HomeIsPlain();
    assert ps[1..] == [Placeholder("dir")] && ps[1..][1..] == [];
    assert Render(ps[1..]) == "${dir}";
    assert Fill(ps[1..], options) == "src";
  }

  lemma HomeIsPlain()
    ensures PlainText("$HOME/")
  {
    var t := "$HOME/";
    assert t[1] == 'H' && t[5] == '/';
    assert forall i :: 1 <= i < |t| ==> t[i] != '{';
  }

  lemma ExampleTemplate(options: map<string, Value>)
    requires options == map["a" := Num(1), "b" := Num(2), "c" := Num(3)]
    ensures Render([Placeholder("a"), Placeholder("b"), Placeholder("a")]) == "${a}${b}${a}"
    ensures Fill([Placeholder("a"), Placeholder("b"), Placeholder("a")], options) == "121"
  {
    var ps := [Placeholder("a"), Placeholder("b"), Placeholder("a")];
    assert ps[1..] == [Placeholder("b"), Placeholder("a")];
    assert ps[1..][1..] == [Placeholder("a")];
    assert ps[1..][1..][1..] == [];
    assert ToStr(Num(1)) == "1" && ToStr(Num(2)) == "2";
    assert Fill(ps[1..][1..], options) == "1";
    assert Fill(ps[1..], options) == "21";
  }

  // ---------------------------------------------------------------------
  // _decorateHandlerConfig
  // ---------------------------------------------------------------------

  /** `_.mapValues(m, (value, key) => this._substituteConfig(options, key))`. */
  function SubstituteAll(m: map<string, Value>, config: map<string, Value>, options: map<string, Value>,
                         expandDir: string -> string): (r: map<string, Value>)
    ensures r.Keys == m.Keys
  {
    map k | k in m :: SubstituteConfig(config, options, k, expandDir)
  }

  /** The options the decorated handler passes to the handler it wraps:
      `_.merge` of the substituted options and the substituted config. */
  function DecoratedOptions(config: map<string, Value>, options: map<string, Value>, expandDir: string -> string): (r: map<string, Value>)
    ensures r.Keys == options.Keys + config.Keys
    ensures forall k :: k in options && k !in config ==> r[k] == options[k]
  {
    MergeMaps(SubstituteAll(options, config, options, expandDir), SubstituteAll(config, config, options, expandDir))
  }

  /** The handler sees every key of the options and of the config; a
      configured key carries its substituted value, any other key its
      option as given. */
  lemma DecoratedOptionsSpec(config: map<string, Value>, options: map<string, Value>, expandDir: string -> string)
    ensures DecoratedOptions(config, options, expandDir).Keys == options.Keys + config.Keys
    ensures forall k :: k in config ==> DecoratedOptions(config, options, expandDir)[k] == SubstituteConfig(config, options, k, expandDir)
    ensures forall k :: k in options && k !in config ==> DecoratedOptions(config, options, expandDir)[k] == options[k]
  {
    var dst := SubstituteAll(options, config, options, expandDir);
    var src := SubstituteAll(config, config, options, expandDir);
    forall k | k in config ensures MergeValue(Lookup(dst, k), src[k]) == SubstituteConfig(config, options, k, expandDir) {
      if k in dst {
        MergeSelf(src[k]);
      }
    }
  }

  /** The module test's case: with config `{k: '${a}'}` and options
      `{a: 'bar'}` the handler sees `k` as "bar". */
  lemma DecoratedExample(expandDir: string -> string)
    ensures var r := DecoratedOptions(map["k" := Str("${a}")], map["a" := Str("bar")], expandDir);
      "k" in r && r["k"] == Str("bar") && "a" in r && r["a"] == Str("bar")
  {
    var config := map["k" := Str("${a}")];
    var options := map["a" := Str("bar")];
    DecoratedOptionsSpec(config, options, expandDir);
    var ps := [Placeholder("a")];
    SingleTemplate(options);
    SubstituteTemplate(config, options, "k", expandDir, ps);
    assert '~' !in "bar";
  }

  lemma SingleTemplate(options: map<string, Value>)
    requires options == map["a" := Str("bar")]
    ensures forall i :: 0 <= i < |[Placeholder("a")]| ==> WellFormedPiece([Placeholder("a")][i])
    ensures Render([Placeholder("a")]) == "${a}"
    ensures Fill([Placeholder("a")], options) == "bar"
  {
    var ps := [Placeholder("a")];
    assert ps[1..] == [];
  }

  // ---------------------------------------------------------------------
  // _invoke
  // ---------------------------------------------------------------------

  /** yargs always passes the positional arguments under `_` as an array. */
  predicate ArgvShape(argv: map<string, Value>)
  {
    "_" in argv && argv["_"].Arr?
  }

  /** `_.pickBy(argv, (p) => p !== '_')`: it tests the values, so the `_` key
      itself stays. */
  function Kwargs(argv: map<string, Value>): (kw: map<string, Value>)
    ensures kw.Keys <= argv.Keys
    ensures forall k :: k in kw ==> kw[k] == argv[k] && kw[k] != Str("_")
    ensures forall k :: k in argv && argv[k] != Str("_") ==> k in kw
  {
    map k | k in argv && argv[k] != Str("_") :: argv[k]
  }

  /** The arguments `_invoke` hands to `runTask`: the positional arguments
      after the first (the command itself), then the keyword map. */
  function InvokeArgs(argv: map<string, Value>): (args: seq<Value>)
    requires ArgvShape(argv)
    ensures |args| >= 1 && args[|args| - 1] == Obj(Kwargs(argv))
  {
    var positional := argv["_"].items;
    (if positional == [] then [] else positional[1..]) + [Obj(Kwargs(argv))]
  }

  /** The command word and the arguments passed on give back argv's
      positional list, and the keyword map keeps `_` itself. */
  lemma InvokeArgsSplit(argv: map<string, Value>)
    requires ArgvShape(argv)
    ensures var args := InvokeArgs(argv); var positional := argv["_"].items;
      && (positional != [] ==> [positional[0]] + args[..|args| - 1] == positional)
      && (positional == [] ==> |args| == 1)
      && "_" in Kwargs(argv) && Kwargs(argv)["_"] == argv["_"]
  {
    var args := InvokeArgs(argv);
    var positional := argv["_"].items;
    if positional != [] {
      assert args[..|args| - 1] == positional[1..];
    }
  }
}

/**
 * The `Module` class of src/core/module.js: a command node whose fields the
 * constructor fills in, whose configuration its subcommands merge into,
 * whose host properties handler-mode children write, and whose task
 * lifecycle records a start time and a report.
 */
module CommandModule {
  import opened JsValue
  import opened Util
  import opened ModulePlan

  /** A `beforeTask` hook: the default one, which records the start time and
      returns nothing, or an override that returns `result`. */
  datatype BeforeHook = DefaultBefore | OverriddenBefore(result: Value)

  /** A task `runTask` applied, with its arguments. */
  datatype TaskRun = TaskRun(task: string, args: seq<Value>)

  /** What a new module's constructor reads of its parent. */
  function ViewOf(parent: Module?): Option<ParentView>
    reads parent
  {
    if parent == null then None else Some(parent.View())
  }

  class Module {
    const options: Spec
    const parent: Module?
    const id: string
    const name: Value
    const describe: Value
    const mode: Mode
    /** `this.config`; a subcommand's spec holds this very object, so
        building a subcommand merges the action's config into it. */
    var config: map<string, Value>
    var handler: Value
    /** The properties handler-mode modules bound on this one, as their
        host: `host[command] = decorated handler`. */
    var hosted: map<string, Value>
    var startTime: Option<int>
    /** The messages `_report` has logged through `reportResult`. */
    var reported: seq<string>
    /** The tasks `runTask` has applied, with their arguments. */
    ghost var tasksRun: seq<TaskRun>

    /** The property names the module has from its construction on: its
        own fixed ones and the inherited ones. */
    function FixedNames(): set<string>
    {
      options.fields.Keys + ConstructedNames
      + (if parent != null then {"parent"} else {})
      + (match mode
         case Composite(_) => {"builder"}
         case MethodDispatch(_) => {"actions", "builder"}
         case Leaf(_) => {})
      + InheritedNames
    }

    /** The names `name in module` finds: own or inherited. */
    function Properties(): set<string>
      reads this
    {
      FixedNames() + hosted.Keys + StartNames()
    }

    /** `startTime`, once `beforeTask` has set it. */
    function StartNames(): set<string>
      reads this
    {
      if startTime.Some? then {"startTime"} else {}
    }

    /** What a child constructed under this module reads of it. */
    function View(): ParentView
      reads this
    {
      ParentView(config, Properties())
    }

    /** `this.actions`: the spec's, or the synthesised ones. */
    function Actions(): Value
    {
      match mode
      case Composite(a) => a
      case MethodDispatch(ms) => Obj(SynthesisedActions(ms))
      case Leaf(_) => Get(options.fields, "actions")
    }

    /** The state the constructor leaves when it runs `plan` for `spec`
        under `parent`. */
    ghost predicate Built(spec: Spec, p: Module?, plan: Plan)
      reads this
    {
      Planned(spec, p, plan) && Fresh(plan)
    }

    /** The fields the constructor fixes for good: the spec, the parent and
        what `plan` decides. */
    ghost predicate Planned(spec: Spec, p: Module?, plan: Plan)
    {
      && options == spec && parent == p
      && id == plan.id && name == plan.name && describe == plan.describe && mode == plan.mode
    }

    /** The mutable fields as the constructor leaves them after running
        `plan`. */
    ghost predicate Fresh(plan: Plan)
      reads this
    {
      && config == plan.config
      && handler == (if plan.mode.Leaf? then Fn(InvokeBound(plan.id)) else Get(options.fields, "handler"))
      && hosted == (if plan.mode.Leaf? && parent == null then map[plan.id := Fn(Decorated(plan.mode.handler))] else map[])
      && startTime.None? && reported == [] && tasksRun == []
    }

    constructor FromPlan(spec: Spec, p: Module?, plan: Plan)
      ensures Built(spec, p, plan)
    {
      options := spec;
      parent := p;
      id := plan.id;
      name := plan.name;
      describe := plan.describe;
      mode := plan.mode;
      config := plan.config;
      handler := if plan.mode.Leaf? then Fn(InvokeBound(plan.id)) else Get(spec.fields, "handler");
      hosted := if plan.mode.Leaf? && p == null then map[plan.id := Fn(Decorated(plan.mode.handler))] else map[];
      startTime := None;
      reported := [];
      tasksRun := [];
    }

    /** `new Module(options)`, with `options.parent` as `p`: the module, or
        the error the constructor throws. A handler-mode child binds its
        decorated handler on its parent. */
    static method Create(spec: Spec, p: Module?) returns (r: Result<Module, ConstructionError>)
      requires ConfigShape(spec.fields)
      modifies p
      ensures ConstructedFrom(r, spec, p, old(ViewOf(p)))
      ensures r.Ok? ==> fresh(r.value)
      ensures p != null ==> (p.hosted ==
        if r.Ok? && r.value.mode.Leaf? then old(p.hosted)[r.value.id := Fn(Decorated(r.value.mode.handler))] else old(p.hosted))
      ensures p != null && r.Ok? && r.value.mode.Leaf? ==> r.value.id !in old(p.Properties())
      ensures p != null ==> (p.config == old(p.config) && p.handler == old(p.handler)
        && p.startTime == old(p.startTime) && p.reported == old(p.reported) && p.tasksRun == old(p.tasksRun))
    {
      var plan := Resolve(spec, ViewOf(p));
      ResolveOutcome(spec, ViewOf(p));
      if plan.Err? {
        return Err(plan.error);
      }
      var m := new Module.FromPlan(spec, p, plan.value);
      if p != null && plan.value.mode.Leaf? {
        p.hosted := p.hosted[plan.value.id := Fn(Decorated(plan.value.mode.handler))];
      }
      r := Ok(m);
    }

    /** `_buildSubmodule(subcommand)`: the action spec is merged into a
        literal holding this module's own config object, then handed to the
        constructor with this module as parent. */
    method BuildSubmodule(subcommand: string, actionKeys: seq<string>) returns (r: Result<Module, ConstructionError>)
      requires ActionShape(Get(FieldsOf(Actions()), subcommand))
      requires IsEnumeration(actionKeys, FieldsOf(Get(FieldsOf(Actions()), subcommand)).Keys)
      modifies this
      ensures config == ConfigAfterBuild(old(config), Get(FieldsOf(Actions()), subcommand))
      ensures ConstructedFrom(r, SubmoduleSpec(subcommand, old(config), RequireConfig(), RequireTools(),
                                               Get(FieldsOf(Actions()), subcommand), actionKeys),
                              this, Some(ParentView(config, old(Properties()))))
      ensures r.Ok? ==> fresh(r.value) && r.value.parent == this
      ensures hosted == if r.Ok? && r.value.mode.Leaf? then old(hosted)[r.value.id := Fn(Decorated(r.value.mode.handler))] else old(hosted)
      ensures r.Ok? && r.value.mode.Leaf? ==> r.value.id !in old(Properties())
      ensures Properties() == old(Properties()) + (if r.Ok? && r.value.mode.Leaf? then {r.value.id} else {})
      ensures handler == old(handler) && startTime == old(startTime) && reported == old(reported) && tasksRun == old(tasksRun)
    {
      var action := Get(FieldsOf(Actions()), subcommand);
      var spec := SubmoduleSpec(subcommand, config, RequireConfig(), RequireTools(), action, actionKeys);
      config := ConfigAfterBuild(config, action);
      ghost var keys := hosted.Keys;
      r := Create(spec, this);
      ghost var added := if r.Ok? && r.value.mode.Leaf? then {r.value.id} else {};
      if r.Ok? && r.value.mode.Leaf? {
        KeysOfUpdate(old(hosted), r.value.id, Fn(Decorated(r.value.mode.handler)));
      }
      assert hosted.Keys == keys + added;
      NamesGrow(FixedNames(), keys, added, StartNames());
    }

    /** `this.requireConfig`, which a subcommand inherits. */
    function RequireConfig(): Value
    {
      Get(options.fields, "requireConfig")
    }

    /** `this.requireTools`, which a subcommand inherits. */
    function RequireTools(): Value
    {
      Get(options.fields, "requireTools")
    }

    /** What `_builder` reads off this module for its subcommands, with
        `start` the module as it stands when the loop begins. */
    function SiblingsOf(start: ParentView, order: seq<string>, actionKeys: seq<seq<string>>): Siblings
    {
      Siblings(start, FieldsOf(Actions()), order, actionKeys, RequireConfig(), RequireTools())
    }

    /** One pass of `_builder`'s loop over the keys `order`: the child built
        after the children whose plans are `plans`, with this module as it
        stands then. */
    method BuildStep(ghost sib: Siblings, ghost specs: seq<Spec>, ghost configs: seq<map<string, Value>>,
                     ghost step: seq<Plan> -> Result<Plan, ConstructionError>, ghost base: map<string, Value>,
                     order: seq<string>, actionKeys: seq<seq<string>>, i: nat, ghost plans: seq<Plan>)
      returns (r: Result<Module, ConstructionError>)
      requires sib == SiblingsOf(sib.parent, order, actionKeys) && Schedule(sib, specs, configs) && i == |plans| < |order|
      requires StepOf(sib, step) && config == configs[|plans|]
      requires ActionKeysListed(sib.actions, order, actionKeys)
      requires sib.parent.properties == FixedNames() + base.Keys + StartNames()
      requires hosted.Keys == base.Keys + LeafIds(plans)
      modifies this
      ensures r.Err? ==> step(plans) == Err(r.error)
      ensures r.Ok? ==> && step(plans).Ok? && fresh(r.value)
                        && r.value.Built(specs[|plans|], this, step(plans).value)
      ensures config == configs[|plans| + 1]
      ensures hosted == if r.Ok? && r.value.mode.Leaf? then old(hosted)[r.value.id := Fn(Decorated(r.value.mode.handler))] else old(hosted)
      ensures handler == old(handler) && startTime == old(startTime) && reported == old(reported) && tasksRun == old(tasksRun)
    {
      NamesGrow(FixedNames(), base.Keys, LeafIds(plans), StartNames());
      assert order[..i + 1][..i] == order[..i];
      assert config == ConfigAfterBuilds(sib.parent.config, sib.actions, order[..i]);
      assert configs[i + 1] == ConfigAfterBuilds(sib.parent.config, sib.actions, order[..i + 1]);
      assert specs[i] == ChildSpec(sib, i);
      assert step(plans) == ChildResult(sib, plans);
      assert ChildSpec(sib, i) == SubmoduleSpec(order[i], config, RequireConfig(), RequireTools(), Get(sib.actions, order[i]), actionKeys[i]);
      assert ChildView(sib, plans) == Some(ParentView(ConfigAfterBuild(config, Get(sib.actions, order[i])), Properties()));
      assert ActionKeysListedAt(sib.actions, order, actionKeys, i);
      r := BuildSubmodule(order[i], actionKeys[i]);
    }

    /** Each of `children` is the subcommand built, under this module, from
        the spec for its key by the plan at the same position. */
    ghost predicate ChildrenBuilt(specs: seq<Spec>, children: seq<Module>, plans: seq<Plan>)
      requires |children| == |plans| <= |specs|
      reads children
    {
      ChildrenPlanned(specs, children, plans) && ChildrenFresh(children, plans)
    }

    /** The fixed fields of each of `children` are those its spec and plan give. */
    ghost predicate ChildrenPlanned(specs: seq<Spec>, children: seq<Module>, plans: seq<Plan>)
      requires |children| == |plans| <= |specs|
    {
      forall j :: 0 <= j < |children| ==> children[j].Planned(specs[j], this, plans[j])
    }

    /** The mutable fields of each of `children` are as its plan left them. */
    static ghost predicate ChildrenFresh(children: seq<Module>, plans: seq<Plan>)
      requires |children| == |plans|
      reads children
    {
      forall j :: 0 <= j < |children| ==> children[j].Fresh(plans[j])
    }

    /** One more built child keeps `ChildrenBuilt`. */
    lemma ChildrenBuiltStep(specs: seq<Spec>, children: seq<Module>, plans: seq<Plan>, c: Module, p: Plan)
      requires |children| == |plans| < |specs|
      requires ChildrenBuilt(specs, children, plans)
      requires c.Built(specs[|children|], this, p)
      ensures ChildrenBuilt(specs, children + [c], plans + [p])
    {
      var cs, ps := children + [c], plans + [p];
      forall j | 0 <= j < |cs|
        ensures cs[j].Planned(specs[j], this, ps[j]) && cs[j].Fresh(ps[j])
      {
        if j < |children| {
          assert cs[j] == children[j] && ps[j] == plans[j];
        }
      }
    }

    /** The body of `_builder`'s loop: builds the next subcommand and, if
        the constructor accepts it, keeps `Progress` with it appended. */
    method BuildNext(ghost sib: Siblings, ghost specs: seq<Spec>, ghost configs: seq<map<string, Value>>,
                     ghost step: seq<Plan> -> Result<Plan, ConstructionError>,
                     ghost base: map<string, Value>, order: seq<string>,
                     actionKeys: seq<seq<string>>, children: seq<Module>, ghost plans: seq<Plan>)
      returns (r: Result<Module, ConstructionError>, ghost outcome: Result<Plan, ConstructionError>)
      requires sib == SiblingsOf(sib.parent, order, actionKeys) && Schedule(sib, specs, configs)
      requires sib.parent.properties == FixedNames() + base.Keys + StartNames()
      requires Progress(sib, configs, step, base, children, plans, config, hosted) && |plans| < |order|
      requires ActionKeysListed(sib.actions, order, actionKeys)
      requires ChildrenBuilt(specs, children, plans)
      requires StepOf(sib, step)
      requires forall j :: 0 <= j < |children| ==> children[j] != this
      modifies this
      ensures r.Err? ==> BuildAll(|plans| + 1, step) == Err(r.error)
      ensures r.Err? ==> Refused(configs, base, children, plans, config, hosted)
      ensures r.Ok? ==> && outcome.Ok? && fresh(r.value)
                        && Progress(sib, configs, step, base, children + [r.value], plans + [outcome.value], config, hosted)
                        && ChildrenBuilt(specs, children + [r.value], plans + [outcome.value])
      ensures handler == old(handler) && startTime == old(startTime) && reported == old(reported) && tasksRun == old(tasksRun)
    {
      r := BuildStep(sib, specs, configs, step, base, order, actionKeys, |children|, plans);
      BuildAllNext(|plans|, step, plans);
      outcome := step(plans);
      if r.Err? {
        return;
      }
      ghost var p := outcome.value;
      ProgressStep(sib, configs, step, base, children, plans, old(config), old(hosted), r.value, p, config, hosted);
      ChildrenBuiltStep(specs, children, plans, r.value, p);
    }

    /** The loop of `_builder`: builds the subcommands for the keys of
        `sib.order` in turn, stopping at the first the constructor refuses,
        which is then the outcome of the whole fold. */
    method BuildChildren(ghost sib: Siblings, ghost specs: seq<Spec>, ghost configs: seq<map<string, Value>>,
                         ghost step: seq<Plan> -> Result<Plan, ConstructionError>,
                         order: seq<string>, actionKeys: seq<seq<string>>)
      returns (children: seq<Module>, ghost plans: seq<Plan>, failure: Option<ConstructionError>)
      requires sib == SiblingsOf(View(), order, actionKeys) && StepOf(sib, step)
      requires Schedule(sib, specs, configs) && configs[0] == config
      requires ActionKeysListed(sib.actions, order, actionKeys)
      modifies this
      ensures fresh(children)
      ensures failure.Some? ==> BuildAll(|order|, step) == Err(failure.value)
      ensures failure.Some? ==> Refused(configs, old(hosted), children, plans, config, hosted)
      ensures failure.None? ==> && |plans| == |order|
                                && Progress(sib, configs, step, old(hosted), children, plans, config, hosted)
                                && ChildrenBuilt(specs, children, plans)
      ensures handler == old(handler) && startTime == old(startTime) && reported == old(reported) && tasksRun == old(tasksRun)
    {
      ghost var base := hosted;
      plans := [];
      children := [];
      while |children| < |order|
        invariant Progress(sib, configs, step, base, children, plans, config, hosted)
        invariant sib.parent.properties == FixedNames() + base.Keys + StartNames()
        invariant ChildrenBuilt(specs, children, plans)
        invariant fresh(children)
        invariant handler == old(handler) && startTime == old(startTime) && reported == old(reported) && tasksRun == old(tasksRun)
        decreases |order| - |children|
      {
        var child;
        ghost var outcome;
        Absent(children, this);
        child, outcome := BuildNext(sib, specs, configs, step, base, order, actionKeys, children, plans);
        if child.Err? {
          BuildAllPrefixFails(|order|, step, |plans| + 1);
          assert base == old(hosted);
          return children, plans, Some(child.error);
        }
        assert fresh(child.value);
        children := children + [child.value];
        plans := plans + [outcome.value];
      }
      failure := None;
    }

    /** `_builder(yargs, actionsArg)`: a subcommand for each key of the
        actions, in the order `order`, stopping at the first the constructor
        refuses; on success, whether yargs must demand a subcommand. */
    method Builder(actionsArg: Value, order: seq<string>, actionKeys: seq<seq<string>>)
      returns (r: Result<seq<Module>, ConstructionError>, demand: bool, ghost accepted: seq<Module>)
      requires IsEnumeration(order, FieldsOf(if Truthy(actionsArg) then actionsArg else Actions()).Keys)
      requires |actionKeys| == |order|
      requires ActionsShaped(FieldsOf(Actions()), order)
      requires ActionKeysListed(FieldsOf(Actions()), order, actionKeys)
      modifies this
      ensures var sib := SiblingsOf(old(View()), order, actionKeys);
        var built := BuildPlans(sib);
        && (r.Ok? <==> built.Ok?)
        && (r.Err? ==> r.error == built.error)
        && (r.Ok? ==> |r.value| == |order| && forall i :: 0 <= i < |order| ==>
              r.value[i].Built(ChildSpec(sib, i), this, built.value[i]))
      ensures r.Ok? ==> config == ConfigAfterBuilds(old(config), FieldsOf(Actions()), order)
      ensures r.Ok? ==> hosted == old(hosted) + LeafBindings(r.value)
      ensures r.Ok? ==> demand == !Truthy(handler)
      ensures r.Err? ==> && |accepted| < |order|
                         && config == ConfigAfterBuilds(old(config), FieldsOf(Actions()), order[..|accepted| + 1])
                         && hosted == old(hosted) + LeafBindings(accepted)
      ensures handler == old(handler) && startTime == old(startTime) && reported == old(reported) && tasksRun == old(tasksRun)
    {
      ghost var sib := SiblingsOf(View(), order, actionKeys);
      ghost var step := ChildOutcome(sib);
      assert StepOf(sib, step);
      ghost var specs, configs := Specs(sib), Configs(sib);
      ScheduleHolds(sib);
      var children, plans, failure := BuildChildren(sib, specs, configs, step, order, actionKeys);
      if failure.Some? {
        assert config == ConfigAfterBuilds(sib.parent.config, sib.actions, sib.order[..|plans| + 1]);
        HostingMerges(old(hosted), children);
        return Err(failure.value), false, children;
      }
      ProgressDone(sib, configs, old(hosted), children, plans, config, hosted);
      r := Ok(children);
      demand := !Truthy(handler);
      accepted := children;
    }

    /** `beforeTask(task, args)`: records the start time `now`. */
    method BeforeTask(task: string, args: seq<Value>, now: int)
      modifies this
      ensures startTime == Some(now)
      ensures config == old(config) && handler == old(handler) && hosted == old(hosted)
        && reported == old(reported) && tasksRun == old(tasksRun)
    {
      startTime := Some(now);
    }

    /** The task name `_report` passes on: prefixed with the parent's command. */
    function ReportedName(task: string): (s: string)
      ensures parent == null <==> s == task
      ensures |task| <= |s| && s[|s| - |task|..] == task
      ensures parent != null ==> |parent.id| < |s| && s[..|parent.id|] == parent.id
    {
      if parent != null then parent.id + " " + task else task
    }

    /** `_report(task, result)`: logs the outcome and returns the result. */
    method Report(task: string, result: Value) returns (r: Value)
      modifies this
      ensures r == result
      ensures reported == old(reported) + [ReportMessage(ReportedName(task), result)]
      ensures config == old(config) && handler == old(handler) && hosted == old(hosted)
        && startTime == old(startTime) && tasksRun == old(tasksRun)
    {
      reported := reported + [ReportMessage(ReportedName(task), result)];
      r := result;
    }

    /** `afterTask(task, result)`: the report. */
    method AfterTask(task: string, result: Value) returns (r: Value)
      modifies this
      ensures r == result
      ensures reported == old(reported) + [ReportMessage(ReportedName(task), result)]
      ensures config == old(config) && handler == old(handler) && hosted == old(hosted)
        && startTime == old(startTime) && tasksRun == old(tasksRun)
    {
      r := Report(task, result);
    }

    /** `runTask(task, args)`: `call` is `this[task]` applied to `args`. */
    method RunTask(task: string, args: seq<Value>, hook: BeforeHook, now: int,
                   call: (string, seq<Value>) -> Value) returns (result: Value)
      modifies this
      ensures hook.OverriddenBefore? && Truthy(hook.result) ==>
        result == Bool(false) && tasksRun == old(tasksRun) && reported == old(reported)
      ensures !(hook.OverriddenBefore? && Truthy(hook.result)) ==>
        && result == call(task, args)
        && tasksRun == old(tasksRun) + [TaskRun(task, args)]
        && reported == old(reported) + [ReportMessage(ReportedName(task), result)]
      ensures startTime == if hook.DefaultBefore? then Some(now) else old(startTime)
      ensures config == old(config) && handler == old(handler) && hosted == old(hosted)
    {
      var stop: Value;
      match hook {
        case DefaultBefore =>
          BeforeTask(task, args, now);
          stop := Undefined;
        case OverriddenBefore(v) =>
          stop := v;
      }
      if Truthy(stop) {
        return Bool(false);
      }
      result := call(task, args);
      tasksRun := tasksRun + [TaskRun(task, args)];
      var _ := AfterTask(task, result);
    }

    /** `_invoke(methodName, argv)`. */
    method Invoke(methodName: string, argv: map<string, Value>, hook: BeforeHook, now: int,
                  call: (string, seq<Value>) -> Value) returns (result: Value)
      requires ArgvShape(argv)
      modifies this
      ensures hook.OverriddenBefore? && Truthy(hook.result) ==>
        result == Bool(false) && tasksRun == old(tasksRun) && reported == old(reported)
      ensures !(hook.OverriddenBefore? && Truthy(hook.result)) ==>
        && result == call(methodName, InvokeArgs(argv))
        && tasksRun == old(tasksRun) + [TaskRun(methodName, InvokeArgs(argv))]
        && reported == old(reported) + [ReportMessage(ReportedName(methodName), result)]
      ensures startTime == if hook.DefaultBefore? then Some(now) else old(startTime)
      ensures config == old(config) && handler == old(handler) && hosted == old(hosted)
    {
      result := RunTask(methodName, InvokeArgs(argv), hook, now, call);
    }
  }

  /** `r` is what the constructor gives for `spec` under `parent`, whose
      state it reads as `view`. */
  ghost predicate ConstructedFrom(r: Result<Module, ConstructionError>, spec: Spec, parent: Module?, view: Option<ParentView>)
    reads if r.Ok? then {r.value} else {}
  {
    && ConfigShape(spec.fields)
    && (r.Ok? <==> Resolve(spec, view).Ok?)
    && (r.Err? ==> r.error == Resolve(spec, view).error)
    && (r.Ok? ==> r.value.Built(spec, parent, Resolve(spec, view).value))
  }

  /** Property names bound on a module add to what `name in module` finds. */
  lemma KeysOfUpdate(m: map<string, Value>, k: string, v: Value)
    ensures m[k := v].Keys == m.Keys + {k}
  {
  }

  lemma NamesGrow(fixed: set<string>, keys: set<string>, added: set<string>, others: set<string>)
    ensures fixed + (keys + added) + others == (fixed + keys + others) + added
  {
  }

  /** The state `_builder`'s loop keeps: `children` were built by the
      plans `plans` the constructor's fold `step` yields, the building
      module's config `cfg` is the one `configs` lists after them, and its
      hosted handlers `host` are those builds' over `base`, keyed by the
      leaf ids. */
  ghost predicate Progress(sib: Siblings, configs: seq<map<string, Value>>,
                           step: seq<Plan> -> Result<Plan, ConstructionError>, base: map<string, Value>,
                           children: seq<Module>, plans: seq<Plan>, cfg: map<string, Value>, host: map<string, Value>)
  {
    && sib.Shaped()
    && |children| == |plans| <= |sib.order| < |configs|
    && BuildAll(|plans|, step) == Ok(plans)
    && cfg == configs[|plans|]
    && host == Hosting(base, children)
    && host.Keys == base.Keys + LeafIds(plans)
  }

  /** One more child built by the fold's next plan keeps `Progress`. */
  lemma ProgressStep(sib: Siblings, configs: seq<map<string, Value>>,
                     step: seq<Plan> -> Result<Plan, ConstructionError>, base: map<string, Value>,
                     children: seq<Module>, plans: seq<Plan>,
                     cfg0: map<string, Value>, host0: map<string, Value>,
                     c: Module, p: Plan, cfg: map<string, Value>, host: map<string, Value>)
    requires Progress(sib, configs, step, base, children, plans, cfg0, host0) && |plans| < |sib.order|
    requires step(plans) == Ok(p) && c.mode == p.mode && c.id == p.id
    requires cfg == configs[|plans| + 1]
    requires host == if c.mode.Leaf? then host0[c.id := Fn(Decorated(c.mode.handler))] else host0
    ensures Progress(sib, configs, step, base, children + [c], plans + [p], cfg, host)
  {
    BuildAllNext(|plans|, step, plans);
    LeafIdsStep(plans, p);
    HostingStep(base, children, c);
  }

  /** `Progress` over every key: the fold succeeded with `plans`, and the
      config and hosted handlers are the whole fold's. */
  lemma ProgressDone(sib: Siblings, configs: seq<map<string, Value>>, base: map<string, Value>,
                     children: seq<Module>, plans: seq<Plan>,
                     cfg: map<string, Value>, host: map<string, Value>)
    requires sib.Shaped() && Progress(sib, configs, ChildOutcome(sib), base, children, plans, cfg, host)
    requires configs == Configs(sib) && |plans| == |sib.order|
    ensures BuildPlans(sib) == Ok(plans)
    ensures cfg == ConfigAfterBuilds(sib.parent.config, sib.actions, sib.order)
    ensures host == base + LeafBindings(children)
  {
    assert sib.order[..|plans|] == sib.order;
    HostingMerges(base, children);
  }

  /** The state `_builder` leaves when the constructor refuses the child
      after `children`: the config holds the merges up to and including the
      refused key, and the host the bindings of the children built so far. */
  ghost predicate Refused(configs: seq<map<string, Value>>, base: map<string, Value>,
                          children: seq<Module>, plans: seq<Plan>, cfg: map<string, Value>, host: map<string, Value>)
  {
    |children| == |plans| && |plans| + 1 < |configs| && cfg == configs[|plans| + 1] && host == Hosting(base, children)
  }

  /** The spec each key of `sib.order` hands the constructor, in order. */
  ghost function Specs(sib: Siblings): seq<Spec>
    requires sib.Shaped()
  {
    seq(|sib.order|, i requires 0 <= i < |sib.order| => ChildSpec(sib, i))
  }

  /** The parent's config before each build and after the last, in order. */
  ghost function Configs(sib: Siblings): seq<map<string, Value>>
    requires sib.Shaped()
  {
    seq(|sib.order| + 1, n requires 0 <= n <= |sib.order| => ConfigAfterBuilds(sib.parent.config, sib.actions, sib.order[..n]))
  }

  /** `specs` and `configs` are `Specs(sib)` and `Configs(sib)`, stated
      pointwise so that a proof meets them only where it names a key. */
  ghost predicate Schedule(sib: Siblings, specs: seq<Spec>, configs: seq<map<string, Value>>)
  {
    && sib.Shaped() && |specs| == |sib.order| && |configs| == |sib.order| + 1
    && (forall i {:trigger ChildSpec(sib, i)} :: 0 <= i < |sib.order| ==> specs[i] == ChildSpec(sib, i))
    && (forall n {:trigger ConfigAfterBuilds(sib.parent.config, sib.actions, sib.order[..n])} :: 0 <= n <= |sib.order| ==>
          configs[n] == ConfigAfterBuilds(sib.parent.config, sib.actions, sib.order[..n]))
  }

  lemma ScheduleHolds(sib: Siblings)
    requires sib.Shaped()
    ensures Schedule(sib, Specs(sib), Configs(sib))
  {
  }

  /** `step` is the constructor's fold over the siblings `sib`. */
  ghost predicate StepOf(sib: Siblings, step: seq<Plan> -> Result<Plan, ConstructionError>)
  {
    sib.Shaped() && forall plans {:trigger ChildResult(sib, plans)} :: step(plans) == ChildResult(sib, plans)
  }

  /** An object not among `s` is at no index of `s`. */
  lemma Absent(s: seq<Module>, x: Module)
    requires x !in s
    ensures forall j :: 0 <= j < |s| ==> s[j] != x
  {
  }

  /** The properties the handler-mode modules among `children` bind on
      their host, in order. */
  function LeafBindings(children: seq<Module>): map<string, Value>
  {
    if children == [] then map[]
    else
      var c := children[|children| - 1];
      var earlier := LeafBindings(children[..|children| - 1]);
      if c.mode.Leaf? then earlier[c.id := Fn(Decorated(c.mode.handler))] else earlier
  }

  /** The host's properties after the handler-mode modules among
      `children` bound their handlers on it in turn, from `base`. */
  function Hosting(base: map<string, Value>, children: seq<Module>): map<string, Value>
  {
    if children == [] then base
    else
      var c := children[|children| - 1];
      var earlier := Hosting(base, children[..|children| - 1]);
      if c.mode.Leaf? then earlier[c.id := Fn(Decorated(c.mode.handler))] else earlier
  }

  lemma HostingStep(base: map<string, Value>, children: seq<Module>, c: Module)
    ensures Hosting(base, children + [c]) ==
      if c.mode.Leaf? then Hosting(base, children)[c.id := Fn(Decorated(c.mode.handler))] else Hosting(base, children)
  {
    assert (children + [c])[..|children|] == children;
  }

  /** Binding the children's handlers one by one leaves the host with its
      own properties overridden by the children's bindings. */
  lemma {:induction false} HostingMerges(base: map<string, Value>, children: seq<Module>)
    ensures Hosting(base, children) == base + LeafBindings(children)
  {
    if children == [] {
      assert base + map[] == base;
    } else {
      var c := children[|children| - 1];
      var earlier := children[..|children| - 1];
      HostingMerges(base, earlier);
      if c.mode.Leaf? {
        var v := Fn(Decorated(c.mode.handler));
        assert (base + LeafBindings(earlier))[c.id := v] == base + LeafBindings(earlier)[c.id := v];
      }
    }
  }
}

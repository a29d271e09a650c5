# oi command tree, modelled in Dafny

oi is a command-line tool built from plugin modules. Each module is a node in
a yargs command tree. This project models the core of that tree:

- **`Module`** (src/core/module.js) turns a plain spec object into a command
  node. The constructor checks the spec and fills in `id`, `name`,
  `describe` and `config`, inheriting the parent's config. It then picks one
  of three modes:
  - a composite with the spec's `actions`;
  - a handler-mode leaf, which binds its decorated handler on its host;
  - a method dispatcher, whose subcommands are synthesised from the spec's
    public property names.

  The module also models:
  - `${name}` placeholder substitution in config values;
  - the handler decoration that merges substituted options;
  - building subcommands;
  - splitting argv for `_invoke`;
  - the `runTask` lifecycle (before hook, task, after hook, report).
- **The registry**, in two revisions:
  - src/core/registry.js is a keyed table of modules (last writer wins). It
    also stores the global argv, merges argv right-biased, and turns a
    module's method actions into yargs subcommands, with group prefixes and
    validation of the requested action.
  - lib/src/core/registry.js is the later revision. Its `register` accepts
    one module, a list or nothing, and its `registerAllCommands` visits each
    module once.
- **Helpers** from lib/src/utils/util.js:
  - `determineSuccess` and the exit-code part of `reportResult`;
  - `commafy`, `arrayifyOutput`, `substituteEnv` and `expandHome`;
  - the prototype-chain property-name walkers.

Files:

- `js_value.dfy` (module `JsValue`): JavaScript values, truthiness,
  `String(v)`, and lodash `_.merge` as a deep right-biased merge.
- `util.dfy` (module `Util`): the util.js helpers.
- `module_plan.dfy` (module `ModulePlan`): what the `Module` constructor
  decides, as a pure function `Resolve` of the spec and of what it reads from
  the parent. It also holds placeholder substitution, handler decoration and
  argv splitting.
- `command_module.dfy` (module `CommandModule`): the `Module` class. Its
  constructor, `_buildSubmodule`, `_builder` and the task lifecycle change
  its fields and its parent's fields in place.
- `module_table.dfy` (module `ModuleTable`): the ordered id-to-module object
  that both registries keep.
- `core_registry.dfy` (module `CoreRegistry`) and `lib_registry.dfy` (module
  `LibRegistry`): the two registry classes.

How JavaScript is represented:

- A JavaScript object is a `map<string, Value>`. Key order is not part of a
  value. Where the code depends on key order, the model takes that order as
  an explicit sequence:
  - the registry's key list;
  - `order` for the keys of an actions object;
  - the method-map entries;
  - the per-level name lists of a prototype chain.
- Numbers are integers.
- A function is an opaque tag saying where it came from (user code, a bound
  `_invoke`, a decorated handler).

## Model

| member | source | states |
|---|---|---|
| JsValue.MergeMaps | src/core/module.js:42 | `_.merge(dst, src)` holds the keys of both. A key only in `dst` keeps its value. A key in `src` gets the merged value, so a scalar from `src` wins, an undefined from `src` keeps `dst`'s value, and objects merge key by key. Merging into `{}` copies `src`. |
| JsValue.MergeValue | src/core/module.js:42 | The merged value at one key: a scalar source replaces, an undefined source keeps the destination, a missing destination takes the source, and two objects give the union of their keys. |
| JsValue.MergeSelf | src/core/module.js:114-117 | Merging a value onto itself changes nothing, at any depth. |
| Util.DetermineSuccess | lib/src/utils/util.js:151-153 | A value that is not an object fails exactly when it is `false`, so `null`, `undefined`, 0 and "" count as success. An object fails exactly when its `code` is truthy. |
| Util.SuccessOfShellResults | lib/src/utils/util.js:151-153 | `{code: n}` counts as success exactly when n is 0. `null`, `undefined`, `{}` and `true` succeed; `false` fails. |
| Util.ReportMessage | lib/src/utils/util.js:129-143 | The logged message is "task completed successfully" on success. On failure it is "task failed", followed by " (exit code N)" when the result carries a truthy code. |
| Util.ExitCodeReported | lib/src/utils/util.js:134-139 | A failure message carries an exit code exactly when the result is an object with a truthy `code`. A failure is either `false` or such an object. |
| Util.Commafy | lib/src/utils/util.js:87-93 | No items give "", one item gives its string, and with two or more items the first item's string followed by ", " starts the result. |
| Util.CommafyConcat | lib/src/utils/util.js:87-93 | Commafying a concatenation is the two commafied halves joined by ", ". |
| Util.CommafySmall | lib/src/utils/util.js:87-93 | An empty list gives "", one item gives that item's string, and `[a, b, c]` gives "a, b, c". |
| Util.TrimStart | lib/src/utils/util.js:103 | The result is a suffix of the input with only whitespace removed before it, and it does not start with whitespace. |
| Util.TrimEnd | lib/src/utils/util.js:103 | The result is a prefix of the input with only whitespace removed after it, and it does not end with whitespace. |
| Util.Trim | lib/src/utils/util.js:103 | `trim()` gives no longer a string, with non-space ends, and is empty exactly when the input is all whitespace. |
| Util.TrimIsSlice | lib/src/utils/util.js:103 | The trimmed string is the contiguous slice of the input that starts where the leading whitespace ends. |
| Util.TrimIdempotent | lib/src/utils/util.js:103 | Trimming twice is trimming once. |
| Util.Split | lib/src/utils/util.js:107 | `split('\n')` gives one more piece than there are separators, and no piece contains the separator. |
| Util.JoinSplit | lib/src/utils/util.js:107 | Joining the pieces with the separator gives back the input. |
| Util.ArrayifyOutput | lib/src/utils/util.js:102-108 | The result is null exactly when the output is all whitespace. Otherwise it has one element per line of the trimmed output, each element being that line trimmed. |
| Util.ArrayifyLinesJoin | lib/src/utils/util.js:102-108 | The untrimmed lines of a non-blank output join back, with "\n", to the trimmed output. |
| Util.WordPrefix | lib/src/utils/util.js:119 | `\w+` takes the longest run of word characters. |
| Util.WordPrefixOf | lib/src/utils/util.js:119 | The word run of `name + rest` is exactly `name` when `rest` does not start with a word character. |
| Util.AllEnv | lib/src/utils/util.js:118 | The merged environment holds every key of both. Extra values win on collision; other keys keep the environment's value. |
| Util.ReplaceVars | lib/src/utils/util.js:119 | A string without `$` is returned unchanged. |
| Util.ReplaceVarsLiteral | lib/src/utils/util.js:119 | Text in which no `$` is followed by a word character, and which does not end in `$`, passes through the replacement unchanged, whatever follows it. |
| Util.ReplaceVarsStrayDollar | lib/src/utils/util.js:119 | A `$` followed by a non-word character or by nothing is kept, and the rest is replaced independently. |
| Util.ReplaceVarsReference | lib/src/utils/util.js:119 | `$name` becomes the string of the variable's value, "undefined" for an unknown name. The rest is replaced independently. |
| Util.SubstituteEnv | lib/src/utils/util.js:117-120 | A string without `$` is returned unchanged. A string that is one reference `$name` becomes the text of `name` in the merged environment, where `extraEnv` wins. |
| Util.SubstituteEnvStrayDollar | lib/src/utils/util.js:117-120 | A `$` that no word character follows, a trailing `$` included, is kept by `substituteEnv`. |
| Util.SubstituteEnvPriceExample | lib/src/utils/util.js:117-120 | `'5$ off for $USER'` keeps `5$ off for ` and replaces `$USER` by the merged environment's `USER`. |
| Util.SubstituteEnvReference | lib/src/utils/util.js:117-120 | In literal text holding no reference (stray `$` signs allowed) followed by a reference `$name` that a non-word character ends, the text is kept, the reference becomes the variable's text from the merged environment, and the rest is substituted on its own. |
| Util.LineEnd | lib/src/utils/util.js:176 | `.` stops at the first line terminator. |
| Util.LastTilde | lib/src/utils/util.js:176 | It finds the last `~` in a range, or reports that there is none. |
| Util.TildeGroupFrom | lib/src/utils/util.js:176 | The group `(~.*)` starts at a `~`. It runs to the end of the line and contains no further `~`. It is absent exactly when no `~` follows. |
| Util.ExpandHome | lib/src/utils/util.js:174-178 | A path without `~` is returned unchanged. |
| Util.ExpandHomeLastTilde | lib/src/utils/util.js:174-178 | On a one-line path, it expands the suffix that starts at the last `~`. |
| Util.FlattenContains | lib/src/utils/util.js:217-224 | A name is in the concatenated list exactly when some level lists it. |
| Util.AllPropertyNames | lib/src/utils/util.js:217-224 | The loop returns the concatenation of every level's own names, in chain order, keeping duplicates. |
| Util.PublicOnly | lib/src/utils/util.js:241 | It keeps exactly the names not starting with `_` and not inherited from `Object.prototype`. |
| Util.PublicOnlyConcat | lib/src/utils/util.js:241 | Filtering distributes over concatenation. |
| Util.Uniq | lib/src/utils/util.js:244 | `_.uniq` has no duplicates and the same members as its input. |
| Util.PublicNamesSpec | lib/src/utils/util.js:233-245 | The public names have no duplicates and contain no private or `Object.prototype` name. They include every public name of every level and nothing else. |
| Util.AllPublicPropertyNames | lib/src/utils/util.js:233-245 | The loop returns the de-duplicated public names of the chain. |
| Util.Without | lib/src/utils/util.js:257 | A name is kept exactly when it is not excluded. |
| Util.AllUniquePropertyNames | lib/src/utils/util.js:255-258 | The loop returns the object's names that are neither among the other object's names nor `Object.prototype` names, because `in` on the lookup object also sees its prototype. |
| Util.UniqueNamesSpec | lib/src/utils/util.js:255-258 | A name survives exactly when some level of the object lists it, no level of the other object does, and it is not in the base list. |
| ModulePlan.SelfProperties | src/core/module.js:49 | A module without a parent hosts its spec's keys, the constructor's own fields and the inherited names. |
| ModulePlan.Resolve | src/core/module.js:25-42 | Construction fails with a missing command exactly when `command` is falsy. Otherwise `id` is the command. `name` defaults to the raw `command` value. `describe` falls back to `description`, then to "Perform id". Config holds the keys of the own config and the parent's; parent scalars win, and own-only keys are kept. |
| ModulePlan.SelectMode | src/core/module.js:44-69 | Truthy `actions` give a composite over them. The shadowing error comes exactly when there are no actions, the handler is truthy and the id is a host property. The no-methods error comes exactly when there are no actions, no handler and no method names. A leaf's id is not a host property and it keeps the spec's handler. A dispatcher runs over the spec's method names, which are not empty. |
| ModulePlan.ResolveOutcome | src/core/module.js:44-69 | Truthy `actions` always gives a composite. A leaf only arises without actions, with a truthy handler whose id is not a host property. The shadowing error occurs exactly when that id is one. The no-methods error occurs exactly when there are no actions, no handler and no method names. A dispatcher's methods are the spec's non-empty method names. |
| ModulePlan.MethodNamesSpec | src/core/module.js:56-57 | The method names have no duplicates. They are exactly the public names of the spec's chain other than `command` and `describe`. |
| ModulePlan.ParentConfigWins | src/core/module.js:42 | Every parent config key is in the child's config. The parent's value is kept when it is a scalar or when the child has no own value. |
| ModulePlan.MethodOfPlainSpec | src/core/module.js:56-57 | A method name of an object-literal spec is one of its keys, other than `command` and `describe`. |
| ModulePlan.HandlerExample | test/core/module_test.js:8-10 | `{command: 'foo', handler}` constructs. |
| ModulePlan.MethodsExample | test/core/module_test.js:16-18 | `{command: 'foo', bar}` becomes a dispatcher over `["bar"]`, with the default name, description and empty config. |
| ModulePlan.BarIsTheOnlyMethod | test/core/module_test.js:16-18 | The only method name of that spec is `bar`. |
| ModulePlan.FailureExamples | test/core/module_test.js:20-36 | `{}` fails with a missing command. `{command: 'foo'}` fails for lack of actions, handler or methods. The test at line 22 calls `new Module()` with no argument, which in JavaScript throws a TypeError on `options.command` before the missing-command check; the lemma states the `{}` case instead. |
| ModulePlan.ConfigAfterBuild | src/core/module.js:145-153 | After a subcommand is built, the builder's config holds its old keys and the action's config keys. Keys the action does not set are unchanged. |
| ModulePlan.SubmoduleSpec | src/core/module.js:144-154 | The spec handed to the constructor always has a `command`, which is the subcommand key unless the action sets one. For a well-shaped action, its config has the shape the constructor needs and equals the builder's config after the merge. |
| ModulePlan.ConfigAfterBuilds | src/core/module.js:133 | Building the subcommands of a list of keys in turn only adds config keys. |
| ModulePlan.ChildSpec | src/core/module.js:133 | The spec of the i-th subcommand has a valid config shape, and its own config is the builder's config after the builds of keys 0..i. |
| ModulePlan.LeafIdsMembers | src/core/module.js:53 | The names bound on the host by a sequence of builds are exactly the ids of its handler-mode plans. |
| ModulePlan.BuildAll | src/core/module.js:133 | A successful fold over n children gives n plans. |
| ModulePlan.BuildPlans | src/core/module.js:133 | A successful build of the subcommands gives one plan per key. |
| ModulePlan.BuildAllNext | src/core/module.js:133 | After a successful prefix, the next child's refusal is the outcome, and its acceptance extends the plans by its plan. |
| ModulePlan.BuildAllPrefixFails | src/core/module.js:133 | Building stops at the first refusal: if a prefix fails, the whole fails with the same error. |
| ModulePlan.BuildAllPrefix | src/core/module.js:133 | The successful build of a prefix is the prefix of the successful build. |
| ModulePlan.BuildAllChildren | src/core/module.js:133 | When all children are built, child i is the constructor's outcome given children 0..i-1. |
| ModulePlan.BuildAllFailure | src/core/module.js:133 | Building fails with error e exactly when some child is refused with e after every earlier child was built. |
| ModulePlan.SubmoduleOwnNames | src/core/module.js:144-154 | When the action's keys are listed as they are, the child spec's own names are exactly its fields plus `parent`: no method name is invented or hidden. |
| ModulePlan.SubmoduleSpecFields | src/core/module.js:144-154 | The child spec's command is the action's command, else the subcommand key. Its config is the builder's config with the action's merged in. `requireConfig` and `requireTools` are inherited unless the action sets them. Every other action field is copied. |
| ModulePlan.SubmoduleConfigIsParents | src/core/module.js:42 | A child whose own config is its parent's config object ends up with exactly that config. |
| ModulePlan.SynthesisedAction | src/core/module.js:63-67 | A synthesised action `{command, describe: "Performs m", handler}` is a valid action spec. |
| ModulePlan.SynthesisedActions | src/core/module.js:63-67 | `_.zipObject` has one synthesised action per method name. |
| ModulePlan.SynthesisedChildFields | src/core/module.js:144-154 | A child built from a synthesised action has command m, the bound `_invoke` as handler, no actions, and the parent's config. |
| ModulePlan.HandlerShadows | src/core/module.js:47-51 | A handler-mode spec whose command is already a host property fails with the shadowing error. |
| ModulePlan.SynthesisedChild | src/core/module.js:47-51 | A synthesised child whose name is a parent property fails: an empty name as a missing command, any other as shadowing. |
| ModulePlan.SynthesisedSubcommandShadows | src/core/module.js:55-67 | For a spec given as an object literal, every synthesised subcommand fails to construct, because its parent already carries that name. |
| ModulePlan.CloseBrace | src/core/module.js:13 | It finds the first `}` at or after a position, or reports that there is none. |
| ModulePlan.PlaceholderEnd | src/core/module.js:13 | A match of `\$\{([^}]+)\}` at the start ends at the first `}`, with a non-empty name. No match means there is no `}` after a non-empty name. |
| ModulePlan.ReplacePlaceholders | src/core/module.js:94 | A string with no `}` holds no complete placeholder and is returned unchanged. |
| ModulePlan.NoPlaceholderUnchanged | src/core/module.js:94 | A string with no `${` is unchanged by the replacement. |
| ModulePlan.ReplaceText | src/core/module.js:94 | Text with no `${` that does not end in `$` passes through unchanged, whatever follows it. |
| ModulePlan.ReplacePlaceholder | src/core/module.js:94 | `${n}` becomes the string of `options[n]`, "undefined" when absent. The rest is replaced independently. |
| ModulePlan.ReplaceRender | src/core/module.js:94 | Replacing in a rendered template equals filling the template's placeholders from the options. Its literal text may hold `$` anywhere a placeholder cannot start. |
| ModulePlan.SubstituteConfig | src/core/module.js:84-100 | It returns `options[key]` when the key is not in config or its config value is not a string, and a string otherwise. |
| ModulePlan.SubstituteUnchanged | src/core/module.js:84-100 | A config string with no `${` and no `~` comes back unchanged. |
| ModulePlan.SubstituteTemplate | src/core/module.js:84-100 | A config string holding a template gives the filled template, home-expanded. |
| ModulePlan.SubstituteExample | test/core/module_test.js:38-44 | `'${a}${b}${a}'` with `{a: 1, b: 2, c: 3}` gives "121". |
| ModulePlan.SubstituteDollarExample | src/core/module.js:84-100 | `'$HOME/${dir}'` with `{dir: 'src'}` gives "$HOME/src": a `$` that starts no placeholder is kept. |
| ModulePlan.ExampleTemplate | test/core/module_test.js:38-44 | That string is the template a, b, a, and it fills to "121". |
| ModulePlan.SubstituteAll | src/core/module.js:115-116 | `_.mapValues` keeps the keys. |
| ModulePlan.DecoratedOptions | src/core/module.js:111-119 | The options the handler receives hold exactly the keys of the options and of the config. An option the config does not set is passed on as given. |
| ModulePlan.DecoratedOptionsSpec | src/core/module.js:111-119 | The decorated handler sees every key of options and of config. Config keys get their substituted value, and other option keys keep theirs. |
| ModulePlan.DecoratedExample | test/core/module_test.js:46-58 | With config `{k: '${a}'}` and options `{a: 'bar'}`, the handler sees `k == 'bar'`. |
| ModulePlan.Kwargs | src/core/module.js:168 | `_.pickBy` keeps exactly the entries whose value is not the string "_". |
| ModulePlan.InvokeArgs | src/core/module.js:166-171 | The task's arguments end with the kwargs object. |
| ModulePlan.InvokeArgsSplit | src/core/module.js:166-171 | The leading arguments are `argv._` without its first element, and the `_` entry stays in kwargs. |
| CommandModule.Module.FromPlan | src/core/module.js:33-40 | The new module's fields are the plan's. A leaf's handler becomes the bound `_invoke`, and a parentless leaf hosts its own decorated handler. |
| CommandModule.Module.Create | src/core/module.js:25-70 | `new Module(options)` gives exactly the outcome of `Resolve` on the spec and on the parent's state before the call. A new handler-mode child binds its decorated handler on its parent, under an id the parent did not have. Nothing else of the parent changes. |
| CommandModule.Module.BuildSubmodule | src/core/module.js:144-154 | `actionKeys` lists the action's own keys. The action's config is merged into this module's config object. The child is constructed from the merged spec, with this module as parent and the updated config in view. Its host binding is recorded. |
| CommandModule.Module.BuildStep | src/core/module.js:133 | The build of child i, for key `order[i]`: it fails exactly when the constructor refuses child i, with that error. Otherwise the child is fresh and was built from the i-th spec under this module by the constructor's plan. The config becomes the one after key i, and the child's binding is added to the host. |
| CommandModule.Module.BuildNext | src/core/module.js:133 | One pass of the loop. A refusal is the outcome of the fold over children 0..i, and leaves the config after key i's merge and the host with the earlier children's bindings. An accepted child keeps the loop state with the child and its plan appended. |
| CommandModule.Module.BuildChildren | src/core/module.js:133 | The loop over the keys. A failure is the fold's error, and leaves the config after the refused key's merge and the host with the bindings of the children built before it. On success there is one fresh child per key, each built from its spec by its plan, and the config and host are as the fold leaves them. |
| CommandModule.Module.Builder | src/core/module.js:130-135 | `actionKeys[i]` lists the own keys of the action for `order[i]`. It succeeds exactly when every subcommand constructs, and otherwise fails with the error of the first refused one (see ModulePlan.BuildAllFailure). On success, child i has parent this module, the spec `ChildSpec(i)` built from key `order[i]` and holding the config after builds 0..i, and the id, name, describe, mode and config the constructor's plan gives it. The config becomes the fold of the actions' configs. The host gains exactly the bindings of the handler-mode children. A subcommand is demanded exactly when there is no handler. When child k is refused, the config holds the merges of keys 0..k, and the host the bindings of the handler-mode children among the k accepted before it. |
| CommandModule.Module.ChildrenBuiltStep | src/core/module.js:133 | A child built from the next spec keeps every child built from its own spec and plan. |
| CommandModule.ProgressStep | src/core/module.js:133 | A child accepted by the fold's next step keeps the loop state: the plans are the fold's, the config is the next one, and the host gains the child's binding. |
| CommandModule.ProgressDone | src/core/module.js:133 | When the loop has covered every key, the plans are the whole build's, the config is the fold's, and the host is the old host with every handler-mode child's binding. |
| CommandModule.HostingStep | src/core/module.js:53 | Building one more child extends the host's bindings by that child's binding. |
| CommandModule.HostingMerges | src/core/module.js:53 | Binding the children's handlers one by one equals overriding the host's properties with all their bindings. |
| CommandModule.Module.BeforeTask | src/core/module.js:181-183 | It records the start time and changes nothing else. |
| CommandModule.Module.ReportedName | src/core/module.js:227-229 | The reported name is the task name exactly when there is no parent. It always ends with the task name, and with a parent it starts with the parent's command. |
| CommandModule.Module.Report | src/core/module.js:225-232 | It returns its input and logs the report, with the task name prefixed by the parent's command when there is a parent. |
| CommandModule.Module.AfterTask | src/core/module.js:213-215 | It returns the result and logs the report. |
| CommandModule.Module.RunTask | src/core/module.js:193-202 | A truthy before-hook result gives `false`, without running the task or reporting. Otherwise the task runs once with `args`, the report is logged, and the task's result is returned unchanged. |
| CommandModule.Module.Invoke | src/core/module.js:166-172 | `_invoke` runs the task with argv split into leading positionals and kwargs. A truthy before-hook result gives `false` and leaves the task log and the report log unchanged. Otherwise the task runs once and its result is returned, and the report log gains that result's message under the reported name. |
| ModuleTable.Empty | src/core/registry.js:10-12 | The new table is well formed and empty. |
| ModuleTable.Put | src/core/registry.js:19-22 | The module is stored under its id, and every other entry is unchanged. A new id is appended to the key order; an existing id keeps its place. |
| ModuleTable.LastIndex | lib/src/core/registry.js:31-34 | It gives the position of the last module carrying an id. |
| ModuleTable.Modules | src/core/registry.js:145 | Iteration visits each stored module exactly once, in key order. |
| ModuleTable.Names | src/core/registry.js:148-150 | There is one name per stored module, in key order. |
| ModuleTable.PutAll | lib/src/core/registry.js:31-34 | Registering a list keeps the table well formed. Earlier ids keep their places at the front of the key order, and every listed module's id is stored. |
| ModuleTable.PutAllLookup | lib/src/core/registry.js:31-34 | After registering a list, an id that some element carries holds the last element carrying it. Other ids are untouched. |
| ModuleTable.PutAllIds | src/core/registry.js:152-154 | Ids come out once each, in first-insertion order. |
| ModuleTable.PutAllNames | src/core/registry.js:148-150 | After registering from empty, the i-th name is that of the last module registered under the i-th id. |
| CoreRegistry.OrEmpty | src/core/registry.js:141 | `v \|\| {}` is the argv object, or `{}` for null and undefined. |
| CoreRegistry.Regrouped | src/core/registry.js:94-101 | With a group, keys are unchanged and every description becomes "  " + desc. The first is also prefixed with "(group) ". An empty map gains the entry "undefined" ↦ "(group) undefined". Without a group, nothing changes. |
| CoreRegistry.Described | src/core/registry.js:103-107 | It holds exactly the string-described entries, as subcommands. |
| CoreRegistry.Delegated | src/core/registry.js:108-110 | It holds exactly the entries with non-string descriptions. |
| CoreRegistry.FirstDelegated | src/core/registry.js:103-111 | The position of the first entry with a non-string description: every entry before it is string-described, and the one there is not. |
| CoreRegistry.DescribedAppend | src/core/registry.js:103-107 | One more entry adds one subcommand exactly when its description is a string. |
| CoreRegistry.DelegatedAppend | src/core/registry.js:108-110 | One more entry is passed back exactly when its description is not a string. |
| CoreRegistry.NothingDelegatedIff | src/core/registry.js:103-111 | Nothing is passed back exactly when the first non-string entry lies past the end. |
| CoreRegistry.GroupWithoutHookExample | src/core/registry.js:103-111 | In `{bar: 'Bars', grp: {baz: 'x'}}`, `bar` is handed to yargs and `grp` is the first entry passed back. |
| CoreRegistry.DescribedDelegatedSplit | src/core/registry.js:103-111 | Every entry goes to exactly one of the two sides. |
| CoreRegistry.GroupedAllDescribed | src/core/registry.js:93-111 | Under a group every entry becomes a subcommand and none is delegated. |
| CoreRegistry.Registry.constructor | src/core/registry.js:10-12 | A fresh registry has no modules and no global argv. |
| CoreRegistry.Registry.Register | src/core/registry.js:19-22 | The table is updated by `Put`, so last writer wins. The global argv is unchanged. |
| CoreRegistry.Registry.ModuleIds | src/core/registry.js:152-154 | The ids have no duplicates and are exactly the stored keys. |
| CoreRegistry.Registry.ModuleNames | src/core/registry.js:148-150 | There is one name per id, in the same order. |
| CoreRegistry.Registry.CombineArgvs | src/core/registry.js:140-142 | The result holds every key of the global and the local argv. Local scalars win, global-only keys keep their value, and a null or undefined side counts as `{}`. |
| CoreRegistry.Registry.GetMethodActions | src/core/registry.js:123-132 | It returns `_actions` when it is truthy and `null` otherwise. |
| CoreRegistry.Registry.RegroupMap | src/core/registry.js:94-101 | The in-place rewrite of the method map gives the regrouped map. |
| CoreRegistry.Registry.RegisterMethodActions | src/core/registry.js:93-112 | The entries are visited in order. When the module has its own `registerMethodActions`, the subcommands handed to yargs and the entries passed back are exactly the two sides of the regrouped map. Without one, the call throws at the first non-string entry, naming its key. The subcommands are then those of the entries before it, and nothing is passed back. |
| CoreRegistry.Registry.Command | src/core/registry.js:66-83 | No method actions gives that error. A non-string entry, when the module has no `registerMethodActions` of its own, gives the error of calling the missing method, naming the first such key. Otherwise it succeeds, with the registered subcommands, exactly when `argv._[1]` is a string among their names, and fails with an invalid-action error otherwise. |
| CoreRegistry.Registry.CommandInvoked | src/core/registry.js:31-35 | It stores argv as the global argv, then gives `command`'s outcome, including the missing-hook error. |
| CoreRegistry.Registry.RegisterAllCommands | src/core/registry.js:144-146 | It hands over each stored module exactly once, in key order. |
| LibRegistry.AsList | lib/src/core/registry.js:23-29 | A single module is wrapped as a one-element list, and nothing gives the empty list. |
| LibRegistry.CombineArgvs | lib/src/core/registry.js:54-56 | `globalArgv` is never assigned, so the result is a copy of the local argv, or `{}`. |
| LibRegistry.Registry.constructor | lib/src/core/registry.js:13-15 | A fresh registry has no modules. |
| LibRegistry.Registry.Register | lib/src/core/registry.js:22-35 | The table is updated by `Put` for each listed module, left to right. An empty registration changes nothing. |
| LibRegistry.Registry.ModuleIds | lib/src/core/registry.js:67-69 | The ids have no duplicates and are exactly the stored keys. |
| LibRegistry.Registry.ModuleNames | lib/src/core/registry.js:63-65 | There is one name per id, in the same order. |
| LibRegistry.Registry.RegisterAllCommands | lib/src/core/registry.js:58-61 | It calls `registerCommand` once per stored module, in registry order. |

## Left out

- Logging (winston) and `colors` string decoration are not modelled. This includes the colouring of `${group.green}` in `registerMethodActions`, which the model renders as the plain group name.
- Timing (`moment`) is not modelled. `beforeTask` records the clock reading `now`, which the caller passes in. The duration in `_report` and `reportResult` is left out.
- Calls into yargs are not modelled: `yargs.command`, `demandCommand`, `strict`, `usage`, `addOptions` and `registerCommand`'s wiring. The model states which modules or subcommands are handed to yargs, and whether a subcommand is demanded.
- In `command`, the action names come from `yargs.getCommandHandlers()`. The model takes them to be the subcommands registered from the module's method map. Subcommands that a module's own `registerMethodActions` hook registers for a delegated group are not modelled.
- CoreRegistry.Registry.Command: whether the module has its own `registerMethodActions` is the parameter `hook`. src/core/module.js defines none, so a plain `Module` has one only if its spec supplies it. When it exists, the model assumes it returns. What it registers and any error it throws are not modelled.
- `registerMethodActions` rewrites the caller's method map in place. The model works on a copy of its entries, so any aliasing with the module's `_actions` object is not captured.
- Plugin scanning, shell execution (`exec`, `execIn`), `fail`, `handleYargsError`, `loadConfig`, `JsonFile` and `mixinClass` are outside the model. They do I/O, spawn processes or call libraries that are not shown.
- The `expand-home-dir` library is taken as a parameter `expandDir`. Its own path normalisation is not modelled.
- The process environment in `substituteEnv` is a parameter.
- `this[task](...args)` in `runTask` is a parameter `call`. The model records the call in the ghost `tasksRun` and does not model what a task does.
- `Module.register()` goes through the registry singleton, and importing the registry module creates that singleton. The model has registry objects, but no singleton and no link from `Module` to it.
- Numbers are integers. Floating-point values and their string forms are not modelled.
- A function value is a tag. Its source text and `typeof` checks beyond "is a function" are not modelled.
- Object key order is not part of a value. The order of keys of an actions object, of a method map and of each prototype level is an explicit parameter, and JavaScript's rule of listing integer-like keys first is not modelled.
- Reflection is a sequence of per-level own-name lists (`chain`). `Object.getOwnPropertyNames(null)` in the walkers is not modelled.
- CommandModule.Module.Create: a spec whose `config` is not an object, and an action spec with a `parent` key, are excluded by the requires `ConfigShape` / `ActionShape`.
- `_.merge(this, options, {id})` deep-merges a spec into the module, but the model copies spec fields as given. In particular the `parent` reference is not merged into.
- CommandModule.Module.Create: `requireConfig` and `requireTools` are carried as values. Aliasing between a parent's and a child's objects is not modelled.
- ModulePlan.Resolve: for a truthy non-string `command` (a number, say), the source keeps the raw value as `id`. The model's `id` is its `String()` form, which is the key that `in`, the host binding and the report strings use. `name` keeps the raw value in both.
- `afterTask` is modelled as the default hook. An overriding subclass is not.
- `getMethodActions` reads `module._actions`. The model passes that value in, because src/core/module.js defines no `_actions`.
- CoreRegistry.Registry.Command: a truthy `_actions` that is not an object is excluded by its requires.
- LibRegistry.Registry.Register: a truthy non-array, non-module argument, and `null` elements inside a list, are not modelled. Those would register under "undefined" or throw.
- Util.UniqueNamesSpec is stated for any base list, not only for the `Object.prototype` names that `AllUniquePropertyNames` excludes.
- Util.ReplaceVars and ModulePlan.ReplacePlaceholders read a name missing from the map as the text "undefined". In JavaScript, `obj[name]` also finds `Object.prototype` members, so `${constructor}` or `$toString` yield a function's source text. That is not modelled.
- JsValue.MergeValue: an object merged over an array is modelled as a new object with only the source's keys. lodash 4 keeps the array and adds the source's keys to it as named properties, and `Value` has no array with named keys. The config merges of src/core/module.js:42 and 145-153 reach this case only when an action's config puts an object where the parent's config has an array.

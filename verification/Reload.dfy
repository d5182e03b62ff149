/** Reload planning: what a new configuration changes, and what the supervisor is told to stop and start. */
module Reload {
  import opened Optional
  import ModuleLifecycle

  // ---- Configuration and template equality ----

  /** A floating-point number, as far as comparing it goes. */
  datatype Number = Finite(value: real) | Infinite(negative: bool) | NaN

  /** The language's own comparison: a NaN differs from everything, itself included. */
  predicate EqualNumber(left: Number, right: Number) {
    match left
    case Finite(value) => right.Finite? && value == right.value
    case Infinite(negative) => right.Infinite? && negative == right.negative
    case NaN => false
  }

  datatype ConfigValue =
    | Text(text: string) | Integer(number: int) | Float(fraction: Number) | Flag(flag: bool)
    | List(items: seq<ConfigValue>) | Table(fields: map<string, ConfigValue>)

  predicate EqualConfigValue(left: ConfigValue, right: ConfigValue)
    decreases left
  {
    match left
    case List(items) =>
      right.List? && |items| == |right.items| &&
        forall i :: 0 <= i < |items| ==> EqualConfigValue(items[i], right.items[i])
    case Table(fields) =>
      right.Table? && |fields| == |right.fields|
      && forall key :: key in fields ==> key in right.fields && EqualConfigValue(fields[key], right.fields[key])
    case Float(fraction) => right.Float? && EqualNumber(fraction, right.fraction)
    case _ => left == right
  }

  /** Nowhere inside is there a NaN. */
  predicate NoNaN(value: ConfigValue)
    decreases value
  {
    match value
    case Float(fraction) => !fraction.NaN?
    case List(items) => forall i :: 0 <= i < |items| ==> NoNaN(items[i])
    case Table(fields) => forall key :: key in fields ==> NoNaN(fields[key])
    case _ => true
  }

  predicate EqualConfigTable(left: map<string, ConfigValue>, right: map<string, ConfigValue>) {
    EqualConfigValue(Table(left), Table(right))
  }

  lemma FullSubset(a: set<string>, b: set<string>)
    requires a <= b && |a| == |b|
    ensures a == b
  {
    assert |b - a| == |b| - |a|;
  }

  /** The recursive comparison is equality of values that hold no NaN; one that does differs even from itself. */
  lemma {:induction false} EqualConfigValueIff(left: ConfigValue, right: ConfigValue)
    ensures EqualConfigValue(left, right) <==> left == right && NoNaN(left)
    decreases left
  {
    match left
    case List(items) =>
      if right.List? && |items| == |right.items| {
        forall i | 0 <= i < |items|
          ensures EqualConfigValue(items[i], right.items[i]) <==> items[i] == right.items[i] && NoNaN(items[i])
        {
          EqualConfigValueIff(items[i], right.items[i]);
        }
      }
    case Table(fields) =>
      if right.Table? {
        forall key | key in fields && key in right.fields
          ensures EqualConfigValue(fields[key], right.fields[key]) <==>
                    fields[key] == right.fields[key] && NoNaN(fields[key])
        {
          EqualConfigValueIff(fields[key], right.fields[key]);
        }
        if EqualConfigValue(left, right) {
          assert fields.Keys <= right.fields.Keys;
          FullSubset(fields.Keys, right.fields.Keys);
          assert fields == right.fields;
        }
      }
    case _ =>
  }

  lemma EqualConfigTableIff(left: map<string, ConfigValue>, right: map<string, ConfigValue>)
    ensures EqualConfigTable(left, right) <==> left == right && NoNaN(Table(left))
  {
    EqualConfigValueIff(Table(left), Table(right));
  }

  /** A literal, or a binding to the module's data. */
  datatype Slot<T> = Literal(value: T) | Binding(path: string)

  /** Pointers to templates may be null. */
  datatype Child = Single(template: Option<Template>) | Repeat(source: string, alias: string, body: Option<Template>)

  datatype Template =
    | TemplateText(text: Slot<string>, role: Slot<string>, truncation: Slot<string>)
    | TemplateIcon(name: Slot<string>, caption: Slot<string>)
    | TemplateRow(children: seq<Child>, alignment: Slot<string>, gap: Slot<string>)
    | TemplateColumn(children: seq<Child>, alignment: Slot<string>, gap: Slot<string>)
    | TemplateSpacer(flexible: Slot<bool>, sizeToken: Slot<string>)
    | TemplateProgress(progress: Slot<Number>, caption: Slot<string>, state: Slot<string>, shape: Slot<string>)
    | TemplateIndicator(state: Slot<string>, caption: Slot<string>)
    | TemplateTextInput(inputId: string, inputAction: string, submitAction: Option<string>,
      navigationAction: Option<string>,
                        initialValue: Slot<string>, placeholder: Slot<string>, caption: Slot<string>)
    | TemplateButton(content: Option<Template>, actionId: string, enabled: Slot<bool>, caption: Slot<string>,
      closes: Slot<bool>)
    | TemplateActionRegion(content: Option<Template>, actionId: string, enabled: Slot<bool>, caption: Slot<string>,
      closes: Slot<bool>)

  predicate EqualSlot<T(==)>(left: Slot<T>, right: Slot<T>) {
    match left
    case Literal(value) => right.Literal? && value == right.value
    case Binding(path) => right.Binding? && path == right.path
  }

  predicate EqualNumberSlot(left: Slot<Number>, right: Slot<Number>) {
    match left
    case Literal(value) => right.Literal? && EqualNumber(value, right.value)
    case Binding(path) => right.Binding? && path == right.path
  }

  predicate EqualPointer(left: Option<Template>, right: Option<Template>)
    decreases left
  {
    if left.None? || right.None? then left.None? && right.None? else EqualTemplate(left.value, right.value)
  }

  predicate EqualChild(left: Child, right: Child)
    decreases left
  {
    match left
    case Single(template) => right.Single? && EqualPointer(template, right.template)
    case Repeat(source, alias, body) =>
      right.Repeat? && source == right.source && alias == right.alias && EqualPointer(body, right.body)
  }

  predicate EqualChildren(left: seq<Child>, right: seq<Child>)
    decreases left
  {
    |left| == |right| && forall i :: 0 <= i < |left| ==> EqualChild(left[i], right[i])
  }

  predicate EqualTemplate(left: Template, right: Template)
    decreases left
  {
    match left
    case TemplateText(text, role, truncation) =>
      right.TemplateText? && EqualSlot(text, right.text) && EqualSlot(role, right.role) &&
        EqualSlot(truncation, right.truncation)
    case TemplateIcon(name, caption) =>
      right.TemplateIcon? && EqualSlot(name, right.name) && EqualSlot(caption, right.caption)
    case TemplateRow(children, alignment, gap) =>
      right.TemplateRow? && EqualChildren(children, right.children) && EqualSlot(alignment, right.alignment) &&
        EqualSlot(gap, right.gap)
    case TemplateColumn(children, alignment, gap) =>
      right.TemplateColumn? && EqualChildren(children, right.children) && EqualSlot(alignment, right.alignment) &&
        EqualSlot(gap, right.gap)
    case TemplateSpacer(flexible, sizeToken) =>
      right.TemplateSpacer? && EqualSlot(flexible, right.flexible) && EqualSlot(sizeToken, right.sizeToken)
    case TemplateProgress(progress, caption, state, shape) =>
      right.TemplateProgress? && EqualNumberSlot(progress, right.progress) && EqualSlot(caption, right.caption)
      && EqualSlot(state, right.state) && EqualSlot(shape, right.shape)
    case TemplateIndicator(state, caption) =>
      right.TemplateIndicator? && EqualSlot(state, right.state) && EqualSlot(caption, right.caption)
    case TemplateTextInput(inputId, inputAction, submitAction, navigationAction, initialValue, placeholder, caption) =>
      right.TemplateTextInput? && inputId == right.inputId && inputAction == right.inputAction
      && submitAction == right.submitAction && navigationAction == right.navigationAction
      && EqualSlot(initialValue, right.initialValue) && EqualSlot(placeholder, right.placeholder) &&
        EqualSlot(caption, right.caption)
    case TemplateButton(content, actionId, enabled, caption, closes) =>
      right.TemplateButton? && EqualPointer(content, right.content) && actionId == right.actionId
      && EqualSlot(enabled, right.enabled) && EqualSlot(caption, right.caption) && EqualSlot(closes, right.closes)
    case TemplateActionRegion(content, actionId, enabled, caption, closes) =>
      right.TemplateActionRegion? && EqualPointer(content, right.content) && actionId == right.actionId
      && EqualSlot(enabled, right.enabled) && EqualSlot(caption, right.caption) && EqualSlot(closes, right.closes)
  }

  // ---- No literal of a template is a NaN ----

  predicate PointerNoNaN(pointer: Option<Template>)
    decreases pointer
  {
    pointer.Some? ==> TemplateNoNaN(pointer.value)
  }

  predicate ChildNoNaN(child: Child)
    decreases child
  {
    match child
    case Single(template) => PointerNoNaN(template)
    case Repeat(_, _, body) => PointerNoNaN(body)
  }

  predicate ChildrenNoNaN(children: seq<Child>)
    decreases children
  {
    forall i :: 0 <= i < |children| ==> ChildNoNaN(children[i])
  }

  predicate TemplateNoNaN(template: Template)
    decreases template
  {
    match template
    case TemplateRow(children, _, _) => ChildrenNoNaN(children)
    case TemplateColumn(children, _, _) => ChildrenNoNaN(children)
    case TemplateProgress(progress, _, _, _) => progress != Literal(NaN)
    case TemplateButton(content, _, _, _, _) => PointerNoNaN(content)
    case TemplateActionRegion(content, _, _, _, _) => PointerNoNaN(content)
    case _ => true
  }

  lemma {:induction false} EqualPointerIff(left: Option<Template>, right: Option<Template>)
    ensures EqualPointer(left, right) <==> left == right && PointerNoNaN(left)
    decreases left
  {
    if left.Some? && right.Some? { EqualTemplateIff(left.value, right.value); }
  }

  lemma {:induction false} EqualChildIff(left: Child, right: Child)
    ensures EqualChild(left, right) <==> left == right && ChildNoNaN(left)
    decreases left
  {
    match left
    case Single(template) => if right.Single? { EqualPointerIff(template, right.template); }
    case Repeat(_, _, body) => if right.Repeat? { EqualPointerIff(body, right.body); }
  }

  lemma {:induction false} EqualChildrenIff(left: seq<Child>, right: seq<Child>)
    ensures EqualChildren(left, right) <==> left == right && ChildrenNoNaN(left)
    decreases left
  {
    if |left| == |right| {
      forall i | 0 <= i < |left| ensures EqualChild(left[i], right[i]) <==> left[i] == right[i] && ChildNoNaN(left[i]) {
        EqualChildIff(left[i], right[i]);
      }
    }
  }

  /** The recursive comparison of templates, which compares member by member, is equality of templates without a NaN
      literal. */
  lemma {:induction false} EqualTemplateIff(left: Template, right: Template)
    ensures EqualTemplate(left, right) <==> left == right && TemplateNoNaN(left)
    decreases left
  {
    match left
    case TemplateRow(children, _, _) => if right.TemplateRow? { EqualChildrenIff(children, right.children); }
    case TemplateColumn(children, _, _) => if right.TemplateColumn? { EqualChildrenIff(children, right.children); }
    case TemplateButton(content, _, _, _, _) => if right.TemplateButton? { EqualPointerIff(content, right.content); }
    case TemplateActionRegion(content, _, _, _, _) =>
      if right.TemplateActionRegion? { EqualPointerIff(content, right.content); }
    case _ =>
  }

  // ---- Modules ----

  datatype View = View(compact: Template, expanded: Option<Template>)

  datatype Version = Version(major: int, minor: int)

  /** What decides whether the process has to be replaced. */
  datatype Process = Process(
    moduleId: string, manifestPath: Option<string>, command: seq<string>, minimum: Version, maximum: Version,
    options: map<string, ConfigValue>, policy: ModuleLifecycle.Policy, timings: ModuleLifecycle.Timings,
    environment: map<string, string>, workingDirectory: Option<string>,
    manifestFile: Option<string>, configFile: Option<string>, entryFile: Option<string>)

  datatype Module = Module(id: string, enabled: bool, process: Process, view: Option<View>, viewFile: Option<string>)

  predicate EqualTimings(left: ModuleLifecycle.Timings, right: ModuleLifecycle.Timings) {
    && left.handshake == right.handshake && left.gracefulShutdown == right.gracefulShutdown
    && left.terminateGrace == right.terminateGrace && left.initialBackoff == right.initialBackoff
    && left.maximumBackoff == right.maximumBackoff && left.healthyReset == right.healthyReset
  }

  predicate EqualProcess(left: Process, right: Process) {
    && left.moduleId == right.moduleId && left.manifestPath == right.manifestPath && left.command == right.command
    && left.minimum == right.minimum && left.maximum == right.maximum
    && EqualConfigTable(left.options, right.options) && left.policy == right.policy
    && EqualTimings(left.timings, right.timings) && left.environment == right.environment
    && left.workingDirectory == right.workingDirectory
    && left.manifestFile == right.manifestFile && left.configFile == right.configFile &&
      left.entryFile == right.entryFile
  }

  predicate OptionsNoNaN(process: Process) {
    NoNaN(Table(process.options))
  }

  lemma EqualProcessIff(left: Process, right: Process)
    ensures EqualProcess(left, right) <==> left == right && OptionsNoNaN(left)
  {
    EqualConfigTableIff(left.options, right.options);
  }

  predicate EqualView(left: Option<View>, right: Option<View>) {
    if left.None? || right.None? then left.None? && right.None?
    else
      && EqualTemplate(left.value.compact, right.value.compact)
      && left.value.expanded.Some? == right.value.expanded.Some?
      && (left.value.expanded.Some? ==> EqualTemplate(left.value.expanded.value, right.value.expanded.value))
  }

  predicate ViewNoNaN(view: Option<View>) {
    view.Some? ==> TemplateNoNaN(view.value.compact) && PointerNoNaN(view.value.expanded)
  }

  lemma EqualViewIff(left: Option<View>, right: Option<View>)
    ensures EqualView(left, right) <==> left == right && ViewNoNaN(left)
  {
    if left.Some? && right.Some? {
      EqualTemplateIff(left.value.compact, right.value.compact);
      if left.value.expanded.Some? && right.value.expanded.Some? {
        EqualTemplateIff(left.value.expanded.value, right.value.expanded.value);
      }
    }
  }

  /** What a module is started with. The capabilities offered depend on the protocol and on there being a view. */
  datatype Request = Request(
    id: string, command: seq<string>, environment: map<string, string>, workingDirectory: Option<string>,
    minimum: Version, maximum: Version, dataSnapshots: bool, options: map<string, ConfigValue>,
    policy: ModuleLifecycle.Policy, timings: ModuleLifecycle.Timings, locale: string, timezone: string)

  function MakeRequest(config: Module, locale: string, timezone: string): Request {
    var p := config.process;
    Request(config.id, p.command, p.environment, p.workingDirectory, p.minimum, p.maximum, config.view.Some?, p.options,
      p.policy, p.timings, locale, timezone)
  }

  // ---- The plan ----

  datatype Kind = Unchanged | ViewUpdated | Added | Removed | Enabled | Disabled | ProcessModified

  datatype Change = Change(id: string, kind: Kind, starts: bool)

  datatype Plan = Plan(changes: seq<Change>, starts: seq<Request>, stops: seq<string>)

  function Classify(previous: Option<Module>, next: Module): (Kind, bool) {
    if previous.None? then (Added, next.enabled)
    else
      var past := previous.value;
      if !past.enabled && next.enabled then (Enabled, next.enabled)
      else if past.enabled && !next.enabled then (Disabled, false)
      else if !EqualProcess(past.process, next.process) then (ProcessModified, next.enabled)
      else if !EqualView(past.view, next.view) || past.viewFile != next.viewFile then (ViewUpdated, false)
      else (Unchanged, false)
  }

  function Lookup(known: map<string, Module>, id: string): Option<Module> {
    if id in known then Some(known[id]) else None
  }

  /** One module's change, and what the supervisor is told about it, in front of the rest. */
  function Headed(rest: Plan, next: Module, kind: Kind, starts: bool, locale: string, timezone: string): Plan {
    Plan([Change(next.id, kind, starts)] + rest.changes,
      (if starts then [MakeRequest(next, locale, timezone)] else []) + rest.starts,
      (if !starts && kind.Disabled? then [next.id] else []) + rest.stops)
  }

  /** Walks the candidate's modules, forgetting each known one as it is met. */
  function PlanCandidates(known: map<string, Module>, modules: seq<Module>, locale: string, timezone: string): (Plan,
      map<string, Module>)
    decreases modules
  {
    if modules == [] then (Plan([], [], []), known)
    else
      var next := modules[0];
      var (kind, starts) := Classify(Lookup(known, next.id), next);
      var (rest, left) := PlanCandidates(known - {next.id}, modules[1..], locale, timezone);
      (Headed(rest, next, kind, starts, locale, timezone), left)
  }

  /** What is still known was removed. */
  function PlanRemovals(left: map<string, Module>, modules: seq<Module>): Plan
    decreases modules
  {
    if modules == [] then Plan([], [], [])
    else
      var rest := PlanRemovals(left, modules[1..]);
      if modules[0].id in left then Joined(RemovalOf(modules[0].id), rest) else rest
  }

  /** The first module of each identifier. */
  function Known(modules: seq<Module>): map<string, Module> {
    if modules == [] then map[] else Known(modules[1..])[modules[0].id := modules[0]]
  }

  function PlanReload(current: seq<Module>, candidate: seq<Module>, locale: string, timezone: string): Plan {
    var (first, left) := PlanCandidates(Known(current), candidate, locale, timezone);
    var second := PlanRemovals(left, current);
    Plan(first.changes + second.changes, first.starts, first.stops + second.stops)
  }

  // ---- What the plan does ----

  predicate Unique(modules: seq<Module>) {
    forall i, j :: 0 <= i < j < |modules| ==> modules[i].id != modules[j].id
  }

  /** What runs under a configuration. */
  function Running(modules: seq<Module>, locale: string, timezone: string): map<string, Request> {
    if modules == [] then map[]
    else if modules[0].enabled then
      Running(modules[1..], locale, timezone)[modules[0].id := MakeRequest(modules[0], locale, timezone)]
    else Running(modules[1..], locale, timezone)
  }

  function Upserted(running: map<string, Request>, starts: seq<Request>): map<string, Request>
    decreases starts
  {
    if starts == [] then running else Upserted(running[starts[0].id := starts[0]], starts[1..])
  }

  /** Stops are removals, starts are upserts. */
  function Applied(running: map<string, Request>, plan: Plan): map<string, Request> {
    Upserted(running - (set id | id in plan.stops), plan.starts)
  }

  function At(modules: seq<Module>, id: string): Option<Module> {
    if modules == [] then None else if modules[0].id == id then Some(modules[0]) else At(modules[1..], id)
  }

  /** A module that runs before and after, with the same process and no NaN among its options. */
  predicate KeepsProcess(previous: Option<Module>, next: Option<Module>) {
    && previous.Some? && next.Some? && previous.value.enabled && next.value.enabled
    && previous.value.process == next.value.process && OptionsNoNaN(next.value.process)
  }

  /** A module that keeps its process neither gains nor loses its view. */
  predicate KeepsView(previous: Option<Module>, next: Option<Module>) {
    KeepsProcess(previous, next) ==> previous.value.view.Some? == next.value.view.Some?
  }

  ghost predicate ViewsKept(current: seq<Module>, candidate: seq<Module>) {
    forall id :: KeepsView(At(current, id), At(candidate, id))
  }

  lemma {:induction false} AtIsMember(modules: seq<Module>, id: string)
    ensures At(modules, id).Some? ==> At(modules, id).value in modules && At(modules, id).value.id == id
    ensures At(modules, id).None? <==> forall k :: 0 <= k < |modules| ==> modules[k].id != id
  {
    if modules != [] {
      AtIsMember(modules[1..], id);
      if At(modules[1..], id).Some? && modules[0].id != id {
        var k :| 0 <= k < |modules[1..]| && modules[1..][k] == At(modules[1..], id).value;
        assert modules[k + 1].id == id;
      }
      if At(modules, id).None? {
        forall k | 0 <= k < |modules| ensures modules[k].id != id {
          if k > 0 { assert modules[k] == modules[1..][k - 1]; }
        }
      }
    }
  }

  lemma HeadIsAlone(modules: seq<Module>)
    requires Unique(modules) && modules != []
    ensures Unique(modules[1..]) && At(modules[1..], modules[0].id).None?
  {
    AtIsMember(modules[1..], modules[0].id);
    forall k | 0 <= k < |modules[1..]| ensures modules[1..][k].id != modules[0].id {
      assert modules[k + 1].id != modules[0].id;
    }
  }

  lemma {:induction false} RunningAt(modules: seq<Module>, id: string, locale: string, timezone: string)
    requires Unique(modules)
    ensures var r := Running(modules, locale, timezone);
      if At(modules, id).Some? && At(modules, id).value.enabled then id in r &&
        r[id] == MakeRequest(At(modules, id).value, locale, timezone)
      else id !in r
  {
    if modules != [] {
      RunningAt(modules[1..], id, locale, timezone);
      HeadIsAlone(modules);
    }
  }

  lemma {:induction false} KnownAt(modules: seq<Module>, id: string)
    ensures Lookup(Known(modules), id) == At(modules, id)
  {
    if modules != [] { KnownAt(modules[1..], id); }
  }

  // ---- Every identifier is told to stop or to start at most once ----

  predicate IdsDistinct(ids: seq<string>) {
    forall i, j :: 0 <= i < j < |ids| ==> ids[i] != ids[j]
  }

  function Ids(starts: seq<Request>): (ids: seq<string>)
    ensures |ids| == |starts| && forall i :: 0 <= i < |starts| ==> ids[i] == starts[i].id
  {
    seq(|starts|, i requires 0 <= i < |starts| => starts[i].id)
  }

  /** How the candidate's module of an identifier, if it has one, is classified. */
  function Decide(previous: Option<Module>, next: Option<Module>): (Kind, bool) {
    if next.Some? then Classify(previous, next.value) else (Unchanged, false)
  }

  /** An identifier is started when its module was classified so, and then with that module's request. */
  predicate StartsAnswer(all: seq<Request>, next: Option<Module>, starts: bool, id: string, locale: string,
      timezone: string) {
    && (id in Ids(all) <==> next.Some? && starts)
    && (forall k :: 0 <= k < |all| && all[k].id == id ==>
      next.Some? && all[k] == MakeRequest(next.value, locale, timezone))
  }

  /** What planning the candidate's modules promises of one identifier, given how it was classified. */
  predicate Answers(plan: Plan, next: Option<Module>, kind: Kind, starts: bool, id: string, locale: string,
      timezone: string) {
    && StartsAnswer(plan.starts, next, starts, id, locale, timezone)
    && (id in plan.stops <==> next.Some? && !starts && kind.Disabled?)
  }

  lemma {:induction false} CandidatesAnswer(known: map<string, Module>, modules: seq<Module>, id: string,
      locale: string, timezone: string)
    requires Unique(modules)
    ensures var (plan, left) := PlanCandidates(known, modules, locale, timezone);
      var (kind, starts) := Decide(Lookup(known, id), At(modules, id));
      && Answers(plan, At(modules, id), kind, starts, id, locale, timezone)
      && Lookup(left, id) == if At(modules, id).Some? then None else Lookup(known, id)
    decreases modules
  {
    if modules != [] {
      HeadIsAlone(modules);
      var next := modules[0];
      CandidatesAnswer(known - {next.id}, modules[1..], id, locale, timezone);
      var rest := PlanCandidates(known - {next.id}, modules[1..], locale, timezone).0;
      var (kind, starts) := Classify(Lookup(known, next.id), next);
      var (laterKind, laterStarts) := Decide(Lookup(known - {next.id}, id), At(modules[1..], id));
      HeadAnswers(rest, next, kind, starts, At(modules[1..], id), laterKind, laterStarts, id, locale, timezone);
    }
  }

  lemma HeadStarts(rest: seq<Request>, next: Module, later: Option<Module>, laterStarts: bool, id: string,
      locale: string, timezone: string)
    requires StartsAnswer(rest, later, laterStarts, id, locale, timezone) && (next.id == id ==> later.None?)
    ensures var all := [MakeRequest(next, locale, timezone)] + rest;
      if next.id == id then StartsAnswer(all, Some(next), true, id, locale, timezone)
      else StartsAnswer(all, later, laterStarts, id, locale, timezone)
  {
    var all := [MakeRequest(next, locale, timezone)] + rest;
    assert Ids(all) == [next.id] + Ids(rest);
    forall k | 0 < k < |all| && all[k].id == id ensures id in Ids(rest) && all[k] == rest[k - 1] {
      assert Ids(rest)[k - 1] == id;
    }
  }

  lemma HeadAnswers(rest: Plan, next: Module, kind: Kind, starts: bool, later: Option<Module>, laterKind: Kind,
      laterStarts: bool,
                    id: string, locale: string, timezone: string)
    requires Answers(rest, later, laterKind, laterStarts, id, locale, timezone)
    requires next.id == id ==> later.None?
    ensures var plan := Headed(rest, next, kind, starts, locale, timezone);
      if next.id == id then Answers(plan, Some(next), kind, starts, id, locale, timezone)
      else Answers(plan, later, laterKind, laterStarts, id, locale, timezone)
  {
    if starts {
      HeadStarts(rest.starts, next, later, laterStarts, id, locale, timezone);
    } else {
      assert [] + rest.starts == rest.starts;
    }
  }

  /** Both lists are free of duplicates, within and across. */
  predicate Separate(plan: Plan) {
    IdsDistinct(Ids(plan.starts)) && IdsDistinct(plan.stops) &&
      forall id :: id in Ids(plan.starts) ==> id !in plan.stops
  }

  lemma DistinctAppends(head: string, rest: seq<string>)
    requires IdsDistinct(rest) && head !in rest
    ensures IdsDistinct([head] + rest)
  {
    forall i, j | 0 <= i < j < |[head] + rest| ensures ([head] + rest)[i] != ([head] + rest)[j] {
      assert ([head] + rest)[j] == rest[j - 1] && rest[j - 1] in rest;
      if i > 0 { assert ([head] + rest)[i] == rest[i - 1]; }
    }
  }

  predicate AddsHead(rest: Plan, plan: Plan, id: string) {
    || (Ids(plan.starts) == [id] + Ids(rest.starts) && plan.stops == rest.stops)
    || (plan.starts == rest.starts && (plan.stops == rest.stops || plan.stops == [id] + rest.stops))
  }

  /** One identifier more, in one of the lists or in neither, keeps them separate. */
  lemma HeadSeparates(rest: Plan, plan: Plan, id: string)
    requires Separate(rest) && id !in Ids(rest.starts) && id !in rest.stops && AddsHead(rest, plan, id)
    ensures Separate(plan)
  {
    DistinctAppends(id, Ids(rest.starts));
    DistinctAppends(id, rest.stops);
  }

  /** What the first module adds to the plan of the others. */
  lemma HeadOfPlan(known: map<string, Module>, modules: seq<Module>, locale: string, timezone: string)
    requires modules != []
    ensures var id := modules[0].id;
      var rest, plan := PlanCandidates(known - {id}, modules[1..], locale, timezone).0,
                        PlanCandidates(known, modules, locale, timezone).0;
      AddsHead(rest, plan, id)
  {
    var id := modules[0].id;
    var rest := PlanCandidates(known - {id}, modules[1..], locale, timezone).0;
    var plan := PlanCandidates(known, modules, locale, timezone).0;
    if plan.starts != rest.starts { assert Ids(plan.starts) == [id] + Ids(rest.starts); }
  }

  lemma {:induction false} CandidatesSeparate(known: map<string, Module>, modules: seq<Module>, locale: string,
      timezone: string)
    requires Unique(modules)
    ensures Separate(PlanCandidates(known, modules, locale, timezone).0)
    decreases modules
  {
    if modules != [] {
      HeadIsAlone(modules);
      var next := modules[0];
      CandidatesSeparate(known - {next.id}, modules[1..], locale, timezone);
      CandidatesAnswer(known - {next.id}, modules[1..], next.id, locale, timezone);
      HeadOfPlan(known, modules, locale, timezone);
      HeadSeparates(PlanCandidates(known - {next.id}, modules[1..], locale, timezone).0,
        PlanCandidates(known, modules, locale, timezone).0, next.id);
    }
  }

  lemma {:induction false} RemovalsAnswer(left: map<string, Module>, modules: seq<Module>, id: string)
    requires Unique(modules)
    ensures id in PlanRemovals(left, modules).stops <==> id in left && At(modules, id).Some?
    ensures IdsDistinct(PlanRemovals(left, modules).stops)
    decreases modules
  {
    if modules != [] {
      HeadIsAlone(modules);
      RemovalsAnswer(left, modules[1..], id);
      RemovalsAnswer(left, modules[1..], modules[0].id);
      DistinctAppends(modules[0].id, PlanRemovals(left, modules[1..]).stops);
    }
  }

  /** What a plan does about one identifier: it starts what is new, newly enabled or has a changed process; it stops
      what was disabled or removed; it leaves the rest alone. */
  lemma PlanAnswers(current: seq<Module>, candidate: seq<Module>, id: string, locale: string, timezone: string)
    requires Unique(current) && Unique(candidate)
    ensures var plan := PlanReload(current, candidate, locale, timezone);
      var previous, next := At(current, id), At(candidate, id);
      && (id in Ids(plan.starts) <==> next.Some? && Classify(previous, next.value).1)
      && (id in plan.stops <==> previous.Some? && (next.None? || (previous.value.enabled && !next.value.enabled)))
      && (forall k :: 0 <= k < |plan.starts| && plan.starts[k].id == id ==>
            next.Some? && plan.starts[k] == MakeRequest(next.value, locale, timezone))
  {
    KnownAt(current, id);
    CandidatesAnswer(Known(current), candidate, id, locale, timezone);
    var (first, left) := PlanCandidates(Known(current), candidate, locale, timezone);
    RemovalsAnswer(left, current, id);
  }

  lemma DistinctJoin(a: seq<string>, b: seq<string>)
    requires IdsDistinct(a) && IdsDistinct(b) && forall id :: id in a ==> id !in b
    ensures IdsDistinct(a + b)
  {
    forall i, j | 0 <= i < j < |a + b| ensures (a + b)[i] != (a + b)[j] {
      if i < |a| <= j { assert a[i] in a && b[j - |a|] in b; }
    }
  }

  /** With unique identifiers the plan's lists name nothing twice. */
  lemma PlanIsSeparate(current: seq<Module>, candidate: seq<Module>, locale: string, timezone: string)
    requires Unique(current) && Unique(candidate)
    ensures Separate(PlanReload(current, candidate, locale, timezone))
  {
    CandidatesSeparate(Known(current), candidate, locale, timezone);
    var (first, left) := PlanCandidates(Known(current), candidate, locale, timezone);
    RemovalsAnswer(left, current, "");
    var second := PlanRemovals(left, current);
    forall id | id in first.stops ensures id !in second.stops {
      CandidatesAnswer(Known(current), candidate, id, locale, timezone);
      RemovalsAnswer(left, current, id);
    }
    DistinctJoin(first.stops, second.stops);
    forall id | id in Ids(first.starts) ensures id !in first.stops + second.stops {
      CandidatesAnswer(Known(current), candidate, id, locale, timezone);
      RemovalsAnswer(left, current, id);
    }
  }

  // ---- What the plan reports ----

  predicate SameProcess(previous: Module, next: Module) {
    previous.process == next.process && OptionsNoNaN(previous.process)
  }

  predicate SameView(previous: Module, next: Module) {
    previous.view == next.view && ViewNoNaN(previous.view) && previous.viewFile == next.viewFile
  }

  /** A change says what became of the module: it is new or gone, was enabled or disabled, runs another process, shows
      another view, or is the same. The new, the enabled and the changed process start, if they are enabled. */
  predicate Says(change: Change, previous: Option<Module>, next: Option<Module>) {
    && (change.kind.Added? <==> previous.None? && next.Some?)
    && (change.kind.Removed? <==> previous.Some? && next.None?)
    && (previous.Some? && next.Some? ==>
          && (change.kind.Enabled? <==> !previous.value.enabled && next.value.enabled)
          && (change.kind.Disabled? <==> previous.value.enabled && !next.value.enabled)
          && (previous.value.enabled == next.value.enabled ==>
                && (change.kind.ProcessModified? <==> !SameProcess(previous.value, next.value))
                && (change.kind.ViewUpdated? <==>
                      SameProcess(previous.value, next.value) && !SameView(previous.value, next.value))
                && (change.kind.Unchanged? <==>
                      SameProcess(previous.value, next.value) && SameView(previous.value, next.value))))
    && (change.starts <==>
          next.Some? && next.value.enabled
          && (change.kind.Added? || change.kind.Enabled? || change.kind.ProcessModified?))
  }

  lemma ClassifySays(previous: Option<Module>, next: Module)
    ensures Says(Change(next.id, Classify(previous, next).0, Classify(previous, next).1), previous, Some(next))
  {
    if previous.Some? {
      EqualProcessIff(previous.value.process, next.process);
      EqualViewIff(previous.value.view, next.view);
    }
  }

  lemma {:induction false} CandidatesSay(known: map<string, Module>, modules: seq<Module>, locale: string,
      timezone: string)
    requires Unique(modules)
    ensures var changes := PlanCandidates(known, modules, locale, timezone).0.changes;
      && |changes| == |modules|
      && forall k :: 0 <= k < |modules| ==>
           changes[k].id == modules[k].id && Says(changes[k], Lookup(known, modules[k].id), Some(modules[k]))
    decreases modules
  {
    if modules != [] {
      HeadIsAlone(modules);
      CandidatesSay(known - {modules[0].id}, modules[1..], locale, timezone);
      ClassifySays(Lookup(known, modules[0].id), modules[0]);
      var changes := PlanCandidates(known, modules, locale, timezone).0.changes;
      forall k | 0 < k < |modules|
        ensures changes[k].id == modules[k].id && Says(changes[k], Lookup(known, modules[k].id), Some(modules[k]))
      {
        assert modules[k] == modules[1..][k - 1];
      }
    }
  }

  /** The identifiers that the candidate no longer has, in the old order. */
  function Gone(modules: seq<Module>, candidate: seq<Module>): seq<string> {
    if modules == [] then []
    else (if At(candidate, modules[0].id).None? then [modules[0].id] else []) + Gone(modules[1..], candidate)
  }

  function RemovedAll(ids: seq<string>): seq<Change> {
    seq(|ids|, i requires 0 <= i < |ids| => Change(ids[i], Removed, false))
  }

  lemma {:induction false} RemovalsSay(left: map<string, Module>, modules: seq<Module>, candidate: seq<Module>)
    requires forall k :: 0 <= k < |modules| ==> (modules[k].id in left <==> At(candidate, modules[k].id).None?)
    ensures PlanRemovals(left, modules).changes == RemovedAll(Gone(modules, candidate))
    ensures PlanRemovals(left, modules).stops == Gone(modules, candidate)
    decreases modules
  {
    if modules != [] {
      RemovalsSay(left, modules[1..], candidate);
      var rest := Gone(modules[1..], candidate);
      assert RemovedAll([modules[0].id] + rest) == [Change(modules[0].id, Removed, false)] + RemovedAll(rest);
    }
  }

  /** What a reload reports: one change for each module of the candidate, in its order, that says what became of it;
      then the modules that are gone, in the old order. */
  lemma PlanReports(current: seq<Module>, candidate: seq<Module>, locale: string, timezone: string)
    requires Unique(current) && Unique(candidate)
    ensures var changes := PlanReload(current, candidate, locale, timezone).changes;
      && |changes| >= |candidate|
      && (forall k :: 0 <= k < |candidate| ==>
            && changes[k].id == candidate[k].id
            && Says(changes[k], At(current, candidate[k].id), Some(candidate[k])))
      && changes[|candidate|..] == RemovedAll(Gone(current, candidate))
  {
    var (first, left) := PlanCandidates(Known(current), candidate, locale, timezone);
    CandidatesSay(Known(current), candidate, locale, timezone);
    forall k | 0 <= k < |candidate| ensures Lookup(Known(current), candidate[k].id) == At(current, candidate[k].id) {
      KnownAt(current, candidate[k].id);
    }
    forall k | 0 <= k < |current| ensures current[k].id in left <==> At(candidate, current[k].id).None? {
      KnownAt(current, current[k].id);
      AtIsMember(current, current[k].id);
      CandidatesAnswer(Known(current), candidate, current[k].id, locale, timezone);
    }
    RemovalsSay(left, current, candidate);
  }

  /** The request asks for the module as it is configured, in the place it is for. */
  predicate AsksFor(request: Request, config: Module, locale: string, timezone: string) {
    && request.id == config.id && request.command == config.process.command
    && request.environment == config.process.environment
    && request.workingDirectory == config.process.workingDirectory
    && request.minimum == config.process.minimum && request.maximum == config.process.maximum
    && (request.dataSnapshots <==> config.view.Some?) && request.options == config.process.options
    && request.policy == config.process.policy && request.timings == config.process.timings
    && request.locale == locale && request.timezone == timezone
  }

  /** Every request of a plan asks for an enabled module of the candidate. */
  lemma PlanAsks(current: seq<Module>, candidate: seq<Module>, locale: string, timezone: string, k: nat)
    requires Unique(current) && Unique(candidate)
    requires k < |PlanReload(current, candidate, locale, timezone).starts|
    ensures var request := PlanReload(current, candidate, locale, timezone).starts[k];
      exists config :: config in candidate && config.enabled && AsksFor(request, config, locale, timezone)
  {
    var request := PlanReload(current, candidate, locale, timezone).starts[k];
    assert Ids(PlanReload(current, candidate, locale, timezone).starts)[k] == request.id;
    PlanAnswers(current, candidate, request.id, locale, timezone);
    AtIsMember(candidate, request.id);
    assert AsksFor(request, At(candidate, request.id).value, locale, timezone);
  }

  // ---- The supervisor accepts it ----

  predicate StopsAccepted(stops: seq<string>, seen: set<string>)
    decreases stops
  {
    stops == [] || (stops[0] != "" && stops[0] !in seen && StopsAccepted(stops[1..], seen + {stops[0]}))
  }

  predicate StartsAccepted(starts: seq<Request>, seen: set<string>)
    decreases starts
  {
    starts == [] ||
    (starts[0].id != "" && starts[0].command != [] && starts[0].command[0] != "" && starts[0].id !in seen
     && StartsAccepted(starts[1..], seen + {starts[0].id}))
  }

  /** The check the supervisor makes before it queues a reconfiguration. */
  predicate ReconfigureAccepts(plan: Plan) {
    StopsAccepted(plan.stops, {}) && StartsAccepted(plan.starts, set id | id in plan.stops)
  }

  lemma {:induction false} StopsAcceptedIf(stops: seq<string>, seen: set<string>)
    requires IdsDistinct(stops) && forall id :: id in stops ==> id != "" && id !in seen
    ensures StopsAccepted(stops, seen)
    decreases stops
  {
    if stops != [] {
      forall id | id in stops[1..] ensures id !in seen + {stops[0]} {
        var k :| 0 <= k < |stops[1..]| && stops[1..][k] == id;
        assert stops[k + 1] == id;
      }
      StopsAcceptedIf(stops[1..], seen + {stops[0]});
    }
  }

  predicate Startable(request: Request) {
    request.id != "" && request.command != [] && request.command[0] != ""
  }

  lemma {:induction false} StartsAcceptedIf(starts: seq<Request>, seen: set<string>)
    requires IdsDistinct(Ids(starts))
    requires forall k :: 0 <= k < |starts| ==> Startable(starts[k]) && starts[k].id !in seen
    ensures StartsAccepted(starts, seen)
    decreases starts
  {
    if starts != [] {
      assert Ids(starts)[1..] == Ids(starts[1..]);
      forall k | 0 <= k < |starts[1..]|
        ensures Startable(starts[1..][k]) && starts[1..][k].id !in seen + {starts[0].id} {
        assert Ids(starts)[k + 1] != Ids(starts)[0] && Startable(starts[k + 1]);
      }
      StartsAcceptedIf(starts[1..], seen + {starts[0].id});
    }
  }

  /** What configuration guarantees of every module. */
  predicate Configured(modules: seq<Module>) {
    && Unique(modules)
    && forall k :: 0 <= k < |modules| ==>
         modules[k].id != "" && modules[k].process.command != [] && modules[k].process.command[0] != ""
  }

  /** A plan between two configurations is never refused. */
  lemma PlanIsAccepted(current: seq<Module>, candidate: seq<Module>, locale: string, timezone: string)
    requires Configured(current) && Configured(candidate)
    ensures ReconfigureAccepts(PlanReload(current, candidate, locale, timezone))
  {
    var plan := PlanReload(current, candidate, locale, timezone);
    PlanIsSeparate(current, candidate, locale, timezone);
    forall id | id in plan.stops ensures id != "" {
      PlanAnswers(current, candidate, id, locale, timezone);
      AtIsMember(current, id);
    }
    StopsAcceptedIf(plan.stops, {});
    forall k | 0 <= k < |plan.starts| ensures Startable(plan.starts[k]) && plan.starts[k].id !in plan.stops {
      PlanAnswers(current, candidate, plan.starts[k].id, locale, timezone);
      AtIsMember(candidate, plan.starts[k].id);
      assert Ids(plan.starts)[k] in Ids(plan.starts);
    }
    StartsAcceptedIf(plan.starts, set id | id in plan.stops);
  }

  // ---- Applying it ----

  lemma HeadIdIsAlone(starts: seq<Request>)
    requires IdsDistinct(Ids(starts)) && starts != []
    ensures starts[0].id !in Ids(starts[1..])
  {
    forall j | 0 <= j < |Ids(starts[1..])| ensures Ids(starts[1..])[j] != starts[0].id {
      assert Ids(starts)[j + 1] != Ids(starts)[0];
    }
  }

  lemma {:induction false} UpsertedAt(running: map<string, Request>, starts: seq<Request>, id: string)
    requires IdsDistinct(Ids(starts))
    ensures id !in Ids(starts) ==> RunningUnder(Upserted(running, starts), id) == RunningUnder(running, id)
    ensures forall k :: 0 <= k < |starts| && starts[k].id == id ==>
      RunningUnder(Upserted(running, starts), id) == Some(starts[k])
    decreases starts
  {
    if starts != [] {
      assert Ids(starts)[1..] == Ids(starts[1..]);
      UpsertedAt(running[starts[0].id := starts[0]], starts[1..], id);
      assert Ids(starts) == [starts[0].id] + Ids(starts[1..]);
      forall k | 0 <= k < |starts| && starts[k].id == id
        ensures RunningUnder(Upserted(running, starts), id) == Some(starts[k]) {
        if k > 0 { assert starts[k] == starts[1..][k - 1]; } else { HeadIdIsAlone(starts); }
      }
    }
  }

  function RunningUnder(running: map<string, Request>, id: string): Option<Request> {
    if id in running then Some(running[id]) else None
  }

  /** A module is started anew or stopped, or else what runs under its identifier stays. */
  lemma AppliedTo(running: map<string, Request>, current: seq<Module>, candidate: seq<Module>, id: string,
      locale: string, timezone: string)
    requires Unique(current) && Unique(candidate)
    requires id in running <==> At(current, id).Some? && At(current, id).value.enabled
    ensures var applied := Applied(running, PlanReload(current, candidate, locale, timezone));
      var previous, next := At(current, id), At(candidate, id);
      RunningUnder(applied, id) ==
        if next.None? || !next.value.enabled then None
        else if KeepsProcess(previous, next) then RunningUnder(running, id)
        else Some(MakeRequest(next.value, locale, timezone))
  {
    var plan := PlanReload(current, candidate, locale, timezone);
    PlanAnswers(current, candidate, id, locale, timezone);
    PlanIsSeparate(current, candidate, locale, timezone);
    UpsertedAt(running - (set stop | stop in plan.stops), plan.starts, id);
    if At(current, id).Some? && At(candidate, id).Some? {
      EqualProcessIff(At(current, id).value.process, At(candidate, id).value.process);
    }
    if id in Ids(plan.starts) {
      var k :| 0 <= k < |Ids(plan.starts)| && Ids(plan.starts)[k] == id;
      assert plan.starts[k].id == id;
    }
  }

  /** What runs under an identifier once the plan is applied to what the current configuration runs. */
  lemma AppliedAt(current: seq<Module>, candidate: seq<Module>, id: string, locale: string, timezone: string)
    requires Unique(current) && Unique(candidate)
    ensures var applied :=
      Applied(Running(current, locale, timezone), PlanReload(current, candidate, locale, timezone));
      var previous, next := At(current, id), At(candidate, id);
      RunningUnder(applied, id) ==
        if next.None? || !next.value.enabled then None
        else if KeepsProcess(previous, next) then Some(MakeRequest(previous.value, locale, timezone))
        else Some(MakeRequest(next.value, locale, timezone))
  {
    RunningAt(current, id, locale, timezone);
    AppliedTo(Running(current, locale, timezone), current, candidate, id, locale, timezone);
  }

  /** The reload theorem: applying the plan to what ran leaves running exactly the candidate's enabled modules, and
      each with the candidate's start request if and only if no module that keeps its process gains or loses its
      view. A module that does keeps the capabilities it was offered before. */
  lemma ApplyingReachesCandidate(current: seq<Module>, candidate: seq<Module>, locale: string, timezone: string)
    requires Unique(current) && Unique(candidate)
    ensures var applied :=
      Applied(Running(current, locale, timezone), PlanReload(current, candidate, locale, timezone));
      && applied.Keys == Running(candidate, locale, timezone).Keys
      && (applied == Running(candidate, locale, timezone) <==> ViewsKept(current, candidate))
  {
    var applied := Applied(Running(current, locale, timezone), PlanReload(current, candidate, locale, timezone));
    var wanted := Running(candidate, locale, timezone);
    forall id
      ensures id in applied <==> id in wanted
      ensures id in applied && id in wanted ==>
        (applied[id] == wanted[id] <==> KeepsView(At(current, id), At(candidate, id)))
      ensures id !in wanted ==> KeepsView(At(current, id), At(candidate, id))
    {
      AppliedAt(current, candidate, id, locale, timezone);
      RunningAt(candidate, id, locale, timezone);
      AtIsMember(current, id);
      AtIsMember(candidate, id);
    }
    if ViewsKept(current, candidate) {
      assert forall id :: id in applied ==> applied[id] == wanted[id];
    }
  }

  /** One such module: it gains a view, keeps running, and is not offered what the view needs. */
  lemma GainedViewIsNotOffered(process: Process, view: View, locale: string, timezone: string)
    requires OptionsNoNaN(process)
    ensures var current, candidate :=
      [Module("clock", true, process, None, None)], [Module("clock", true, process, Some(view), None)];
      var applied := Applied(Running(current, locale, timezone), PlanReload(current, candidate, locale, timezone));
      && "clock" in applied && !applied["clock"].dataSnapshots
      && "clock" in Running(candidate, locale, timezone) && Running(candidate, locale, timezone)["clock"].dataSnapshots
  {
    var current, candidate :=
      [Module("clock", true, process, None, None)], [Module("clock", true, process, Some(view), None)];
    AppliedAt(current, candidate, "clock", locale, timezone);
    RunningAt(candidate, "clock", locale, timezone);
  }

  /** A module that is enabled before and after is left alone exactly if its process did not change and its options
      hold no NaN. */
  lemma UnchangedProcessesAreUntouched(current: seq<Module>, candidate: seq<Module>, id: string, locale: string,
      timezone: string)
    requires Unique(current) && Unique(candidate)
    requires At(current, id).Some? && At(candidate, id).Some?
    requires At(current, id).value.enabled && At(candidate, id).value.enabled
    ensures var plan := PlanReload(current, candidate, locale, timezone);
      && id !in plan.stops
      && (id !in Ids(plan.starts) <==> KeepsProcess(At(current, id), At(candidate, id)))
  {
    PlanAnswers(current, candidate, id, locale, timezone);
    EqualProcessIff(At(current, id).value.process, At(candidate, id).value.process);
  }

  /** The witness: a reload that changes nothing starts a module with a NaN option anew. */
  lemma NaNOptionRestarts(process: Process, locale: string, timezone: string)
    ensures var modules := [Module("sensor", true, process.(options := map["x" := Float(NaN)]), None, None)];
      && PlanReload(modules, modules, locale, timezone).starts == [MakeRequest(modules[0], locale, timezone)]
      && PlanReload(modules, modules, locale, timezone).changes == [Change("sensor", ProcessModified, true)]
  {
    var sensor := Module("sensor", true, process.(options := map["x" := Float(NaN)]), None, None);
    var modules := [sensor];
    assert modules[1..] == [] && Known(modules) == map["sensor" := sensor];
    assert "x" in sensor.process.options;
    EqualProcessIff(sensor.process, sensor.process);
    assert Known(modules) - {"sensor"} == map[];
    assert PlanCandidates(map[], [], locale, timezone) == (Plan([], [], []), map[]);
    assert PlanRemovals(map[], modules) == Plan([], [], []);
  }

  // ---- Reload after reload ----

  /** What runs after the first configuration was started and the others were reloaded one after the other. */
  function AfterReloads(configs: seq<seq<Module>>, locale: string, timezone: string): map<string, Request>
    requires configs != []
    decreases |configs|
  {
    var last := |configs| - 1;
    if last == 0 then Running(configs[0], locale, timezone)
    else
      Applied(AfterReloads(configs[..last], locale, timezone),
        PlanReload(configs[last - 1], configs[last], locale, timezone))
  }

  /** Configuration k started the module: it is the first, or the module did not keep its process in it. */
  predicate StartedBy(configs: seq<seq<Module>>, id: string, k: int) {
    && 0 <= k < |configs| && At(configs[k], id).Some? && At(configs[k], id).value.enabled
    && (k > 0 ==> !KeepsProcess(At(configs[k - 1], id), At(configs[k], id)))
  }

  /** Configuration k was the last to start the module, which has kept its process since. */
  ghost predicate Origin(configs: seq<seq<Module>>, id: string, k: int) {
    && StartedBy(configs, id, k)
    && forall j :: k < j < |configs| ==> KeepsProcess(At(configs[j - 1], id), At(configs[j], id))
  }

  /** The request is the one the configuration made that last started the module. */
  ghost predicate FromOrigin(configs: seq<seq<Module>>, request: Request, id: string, locale: string,
      timezone: string) {
    exists k :: Origin(configs, id, k) && request == MakeRequest(At(configs[k], id).value, locale, timezone)
  }

  lemma OriginStays(earlier: seq<seq<Module>>, next: seq<Module>, request: Request, id: string, locale: string,
      timezone: string)
    requires earlier != [] && KeepsProcess(At(earlier[|earlier| - 1], id), At(next, id))
    requires FromOrigin(earlier, request, id, locale, timezone)
    ensures FromOrigin(earlier + [next], request, id, locale, timezone)
  {
    var configs := earlier + [next];
    var k :| Origin(earlier, id, k) && request == MakeRequest(At(earlier[k], id).value, locale, timezone);
    forall j | 0 <= j < |earlier| ensures configs[j] == earlier[j] {}
    assert Origin(configs, id, k);
  }

  lemma OriginIsNew(earlier: seq<seq<Module>>, next: seq<Module>, id: string, locale: string, timezone: string)
    requires At(next, id).Some? && At(next, id).value.enabled
    requires earlier != [] ==> !KeepsProcess(At(earlier[|earlier| - 1], id), At(next, id))
    ensures FromOrigin(earlier + [next], MakeRequest(At(next, id).value, locale, timezone), id, locale, timezone)
  {
    assert (earlier + [next])[|earlier|] == next;
    assert Origin(earlier + [next], id, |earlier|);
  }

  /** After any chain of reloads exactly the last configuration's enabled modules run, each with the request of the
      last configuration that started it. */
  lemma {:induction false} ReloadsKeepOrigins(configs: seq<seq<Module>>, id: string, locale: string, timezone: string)
    requires configs != [] && forall k :: 0 <= k < |configs| ==> Unique(configs[k])
    ensures var running, last := AfterReloads(configs, locale, timezone), At(configs[|configs| - 1], id);
      && (id in running <==> last.Some? && last.value.enabled)
      && (id in running ==> FromOrigin(configs, running[id], id, locale, timezone))
    decreases |configs|
  {
    var last := |configs| - 1;
    var earlier, next := configs[..last], configs[last];
    assert configs == earlier + [next];
    if last == 0 {
      RunningAt(next, id, locale, timezone);
    } else {
      assert earlier[last - 1] == configs[last - 1];
      ReloadsKeepOrigins(earlier, id, locale, timezone);
      AppliedTo(AfterReloads(earlier, locale, timezone), earlier[last - 1], next, id, locale, timezone);
    }
    if At(next, id).Some? && At(next, id).value.enabled {
      if last > 0 && KeepsProcess(At(earlier[last - 1], id), At(next, id)) {
        OriginStays(earlier, next, AfterReloads(earlier, locale, timezone)[id], id, locale, timezone);
      } else {
        OriginIsNew(earlier, next, id, locale, timezone);
      }
    }
  }

  // ---- The loops ----

  lemma {:induction false} AtAppends(modules: seq<Module>, next: Module, id: string)
    ensures At(modules + [next], id) ==
      if At(modules, id).Some? then At(modules, id) else if next.id == id then Some(next) else None
  {
    if modules == [] {
      assert [] + [next] == [next] && [next][1..] == [];
    } else {
      assert (modules + [next])[1..] == modules[1..] + [next];
      AtAppends(modules[1..], next, id);
    }
  }

  /** The first module of an identifier is the one that is kept. */
  method IndexCurrent(current: seq<Module>) returns (known: map<string, Module>)
    ensures known == Known(current)
  {
    known := map[];
    var k := 0;
    while k < |current|
      invariant 0 <= k <= |current| && forall id :: Lookup(known, id) == At(current[..k], id)
    {
      ghost var before := known;
      assert current[..k + 1] == current[..k] + [current[k]];
      if current[k].id !in known { known := known[current[k].id := current[k]]; }
      forall id ensures Lookup(known, id) == At(current[..k + 1], id) {
        AtAppends(current[..k], current[k], id);
        assert Lookup(before, id) == At(current[..k], id) &&
          Lookup(before, current[k].id) == At(current[..k], current[k].id);
      }
      k := k + 1;
    }
    assert current[..k] == current;
    forall id ensures Lookup(known, id) == Lookup(Known(current), id) { KnownAt(current, id); }
    assert forall id :: id in known <==> Lookup(known, id).Some?;
    assert forall id :: id in Known(current) <==> Lookup(Known(current), id).Some?;
    assert known.Keys == Known(current).Keys;
  }

  method ClassifyEach(current: map<string, Module>, candidate: seq<Module>, locale: string, timezone: string)
    returns (plan: Plan, known: map<string, Module>)
    ensures (plan, known) == PlanCandidates(current, candidate, locale, timezone)
  {
    known, plan := current, Plan([], [], []);
    ghost var all := PlanCandidates(current, candidate, locale, timezone);
    var k := 0;
    assert candidate[0..] == candidate;
    JoinedNothing(all.0);
    while k < |candidate|
      invariant 0 <= k <= |candidate|
      invariant all == (Joined(plan, PlanCandidates(known, candidate[k..], locale, timezone).0),
        PlanCandidates(known, candidate[k..], locale, timezone).1)
    {
      var next := candidate[k];
      assert candidate[k..][1..] == candidate[k + 1..];
      var (kind, starts) := Classify(Lookup(known, next.id), next);
      known := known - {next.id};
      JoinedHead(plan, PlanCandidates(known, candidate[k + 1..], locale, timezone).0, next, kind, starts, locale,
        timezone);
      plan := Joined(plan, Headed(Plan([], [], []), next, kind, starts, locale, timezone));
      k := k + 1;
    }
    JoinedNothing(plan);
  }

  function Joined(first: Plan, second: Plan): Plan {
    Plan(first.changes + second.changes, first.starts + second.starts, first.stops + second.stops)
  }

  lemma JoinedNothing(plan: Plan)
    ensures Joined(plan, Plan([], [], [])) == plan && Joined(Plan([], [], []), plan) == plan
  {
  }

  lemma JoinedHead(plan: Plan, rest: Plan, next: Module, kind: Kind, starts: bool, locale: string, timezone: string)
    ensures Joined(plan, Headed(rest, next, kind, starts, locale, timezone))
      == Joined(Joined(plan, Headed(Plan([], [], []), next, kind, starts, locale, timezone)), rest)
  {
  }

  method CollectRemoved(known: map<string, Module>, current: seq<Module>) returns (plan: Plan)
    ensures plan == PlanRemovals(known, current)
  {
    plan := Plan([], [], []);
    var k := 0;
    assert current[0..] == current;
    JoinedNothing(PlanRemovals(known, current));
    while k < |current|
      invariant 0 <= k <= |current|
      invariant PlanRemovals(known, current) == Joined(plan, PlanRemovals(known, current[k..]))
    {
      assert current[k..][1..] == current[k + 1..];
      if current[k].id in known {
        RemovedHead(plan, PlanRemovals(known, current[k + 1..]), current[k].id);
        plan := Joined(plan, RemovalOf(current[k].id));
      } else {
        assert PlanRemovals(known, current[k..]) == PlanRemovals(known, current[k + 1..]);
      }
      k := k + 1;
    }
    JoinedNothing(plan);
  }

  function RemovalOf(id: string): Plan {
    Plan([Change(id, Removed, false)], [], [id])
  }

  lemma RemovedHead(plan: Plan, rest: Plan, id: string)
    ensures Joined(plan, Joined(RemovalOf(id), rest)) == Joined(Joined(plan, RemovalOf(id)), rest)
  {
  }

  /** The planner as it runs. */
  method MakePlan(current: seq<Module>, candidate: seq<Module>, locale: string, timezone: string) returns (plan: Plan)
    ensures plan == PlanReload(current, candidate, locale, timezone)
  {
    var known := IndexCurrent(current);
    plan, known := ClassifyEach(known, candidate, locale, timezone);
    var removed := CollectRemoved(known, current);
    plan := Plan(plan.changes + removed.changes, plan.starts, plan.stops + removed.stops);
  }
}

/** The rule-based wedding plan and its coverage check. Titles and descriptions are not modelled. */
module Planning {
  import opened Wrappers
  import opened Ordering

  datatype Category =
    | Budget | Venue | CivilCeremony | ReligiousCeremony | Reception | GuestList
    | Vendors | PhotoVideo | Entertainment | FoodDrinks | DecorFlowers
    | Invitations | Rsvp | SeatingPlan | Attire | Rings | Transport | Accommodation | Documents | Payments
    | Logistics | WeddingDay | Contingency
    | PostWedding
    | PlanningWork
    | OtherCategory(text: string)

  datatype Phase = Foundation | Suppliers | Details | Finale | Afterwards

  datatype Priority = Low | Medium | High | Urgent

  datatype Key = PhaseKey(phase: Phase) | MilestoneKey(phase: Phase) | TaskKey(category: Category) | OtherKey(text: string)

  datatype Kind = PhaseItem | MilestoneItem | TaskItem

  /** Dates are days; an absolute date is known once the event has an exact date. */
  datatype Item = Item(
    key: Key,
    parent: Option<Key>,
    kind: Kind,
    category: Category,
    priority: Option<Priority>,
    relativeStart: Option<int>,
    relativeDue: Option<int>,
    absoluteStart: Option<int>,
    absoluteDue: Option<int>,
    required: bool,
    included: bool,
    position: nat,
    done: bool,
    dependsOn: seq<Key>)

  /** A field of the onboarding draft; only an explicit `false` declines. */
  datatype Answer = Absent | Refused | Given

  datatype Input = Input(
    exactDate: Option<int>,
    flexibleDate: bool,
    religious: Answer,
    civil: Answer,
    reception: Answer,
    transport: Answer,
    accommodation: Answer,
    progress: Category -> bool,
    preferred: Category -> bool)

  datatype Warning = MissingCoverage(categories: seq<Category>) | FlexibleDate | ProviderUnavailable | OtherWarning(text: string)

  datatype Coverage = Coverage(required: seq<Category>, covered: seq<Category>, missing: seq<Category>)

  datatype Generator = Deterministic | AiEnriched | Fallback

  datatype Output = Output(
    warnings: seq<Warning>,
    coverage: Coverage,
    items: seq<Item>,
    generator: Generator,
    provider: string,
    fallbackUsed: bool)

  // ---------------------------------------------------------------------------
  // Tables

  function PhaseStart(p: Phase): int {
    match p
    case Foundation => -540
    case Suppliers => -420
    case Details => -240
    case Finale => -45
    case Afterwards => 1
  }

  function PhaseEnd(p: Phase): int {
    match p
    case Foundation => -300
    case Suppliers => -150
    case Details => -30
    case Finale => 0
    case Afterwards => 30
  }

  datatype Template = Template(category: Category, dueOffset: int, priority: Priority, required: bool)

  function TaskDependencies(c: Category): seq<Category> {
    match c
    case Rsvp => [Invitations]
    case SeatingPlan => [Rsvp]
    case Payments => [Venue]
    case WeddingDay => [Logistics]
    case PostWedding => [WeddingDay]
    case _ => []
  }

  function Boost(p: Priority): Priority {
    match p
    case Low => Medium
    case Medium => High
    case _ => Urgent
  }

  predicate IsRelevant(c: Category, input: Input) {
    match c
    case ReligiousCeremony => input.religious != Refused
    case CivilCeremony => input.civil != Refused
    case Reception => input.reception != Refused
    case Transport => input.transport != Refused
    case Accommodation => input.accommodation != Refused
    case _ => true
  }

  /** The tables a plan is generated from. */
  datatype Rules = Rules(phases: seq<Phase>, templates: Phase -> seq<Template>, minimum: seq<Category>)

  // ---------------------------------------------------------------------------
  // Coverage

  function IncludedCategories(items: seq<Item>): (r: seq<Category>)
    ensures forall c :: c in r <==> exists i :: 0 <= i < |items| && items[i].included && items[i].category == c
  {
    if items == [] then []
    else
      var most := IncludedCategories(items[..|items| - 1]);
      var last := items[|items| - 1];
      assert forall c :: c in most ==> exists i :: 0 <= i < |items| - 1 && items[i].included && items[i].category == c;
      if last.included then most + [last.category] else most
  }

  /** Without an input every minimum category is required. */
  function RequiredOf(rules: Rules, input: Option<Input>): (r: seq<Category>)
    ensures forall c :: c in r <==> c in rules.minimum && (input.None? || IsRelevant(c, input.value))
  {
    Filter(rules.minimum, (c: Category) => input.None? || IsRelevant(c, input.value))
  }

  function ValidatePlanCoverage(rules: Rules, items: seq<Item>, input: Option<Input>): Coverage {
    var required := RequiredOf(rules, input);
    var covered := Filter(Dedupe(IncludedCategories(items)), (c: Category) => c in required);
    Coverage(required, covered, Filter(required, (c: Category) => c !in covered))
  }

  ghost predicate Covers(items: seq<Item>, c: Category) {
    exists i :: 0 <= i < |items| && items[i].included && items[i].category == c
  }

  /** A category is missing exactly when it is required and no included item has it. */
  lemma MissingExactly(rules: Rules, items: seq<Item>, input: Option<Input>, c: Category)
    ensures c in ValidatePlanCoverage(rules, items, input).missing <==> c in RequiredOf(rules, input) && !Covers(items, c)
    ensures c in ValidatePlanCoverage(rules, items, input).covered <==> c in RequiredOf(rules, input) && Covers(items, c)
  {
  }

  // ---------------------------------------------------------------------------
  // The deterministic plan

  datatype Entry = PhaseEntry(phase: Phase) | MilestoneEntry(phase: Phase) | TaskEntry(phase: Phase, template: Template)

  function KeyOf(e: Entry): Key {
    match e
    case PhaseEntry(p) => PhaseKey(p)
    case MilestoneEntry(p) => MilestoneKey(p)
    case TaskEntry(_, t) => TaskKey(t.category)
  }

  predicate Flexible(input: Input) {
    input.flexibleDate || input.exactDate.None?
  }

  function MaterializeDate(input: Input, offset: int): Option<int> {
    if input.exactDate.None? || Flexible(input) then None else Some(input.exactDate.value + offset)
  }

  function TaskKeys(categories: seq<Category>): (r: seq<Key>)
    ensures |r| == |categories| && forall i :: 0 <= i < |r| ==> r[i] == TaskKey(categories[i])
  {
    seq(|categories|, i requires 0 <= i < |categories| => TaskKey(categories[i]))
  }

  /** The item of an entry at a position. */
  function Render(input: Input, e: Entry, position: nat): Item {
    match e
    case PhaseEntry(p) =>
      Item(PhaseKey(p), None, PhaseItem, PlanningWork, None, Some(PhaseStart(p)), Some(PhaseEnd(p)),
           MaterializeDate(input, PhaseStart(p)), MaterializeDate(input, PhaseEnd(p)),
           true, true, position, false, [])
    case MilestoneEntry(p) =>
      Item(MilestoneKey(p), Some(PhaseKey(p)), MilestoneItem, PlanningWork, None, None, Some(PhaseEnd(p)),
           None, MaterializeDate(input, PhaseEnd(p)),
           true, true, position, false, [])
    case TaskEntry(p, t) =>
      Item(TaskKey(t.category), Some(PhaseKey(p)), TaskItem, t.category,
           Some(if input.preferred(t.category) then Boost(t.priority) else t.priority),
           Some(t.dueOffset - 30), Some(t.dueOffset),
           MaterializeDate(input, t.dueOffset - 30), MaterializeDate(input, t.dueOffset),
           t.required, true, position, input.progress(t.category), TaskKeys(TaskDependencies(t.category)))
  }

  function Tasks(input: Input, p: Phase, templates: seq<Template>): (es: seq<Entry>)
    ensures forall e :: e in es <==>
      e.TaskEntry? && e.phase == p && e.template in templates && IsRelevant(e.template.category, input)
  {
    if templates == [] then []
    else
      var most := Tasks(input, p, templates[..|templates| - 1]);
      var last := templates[|templates| - 1];
      assert templates == templates[..|templates| - 1] + [last];
      if IsRelevant(last.category, input) then most + [TaskEntry(p, last)] else most
  }

  function Opening(p: Phase): seq<Entry> {
    if p == Afterwards then [PhaseEntry(p)] else [PhaseEntry(p), MilestoneEntry(p)]
  }

  function Block(rules: Rules, input: Input, p: Phase): seq<Entry> {
    Opening(p) + Tasks(input, p, rules.templates(p))
  }

  function Outline(rules: Rules, input: Input, phases: seq<Phase>): seq<Entry> {
    if phases == [] then []
    else Outline(rules, input, phases[..|phases| - 1]) + Block(rules, input, phases[|phases| - 1])
  }

  function RenderAll(input: Input, es: seq<Entry>): (items: seq<Item>)
    ensures |items| == |es| && forall i :: 0 <= i < |es| ==> items[i] == Render(input, es[i], i)
  {
    seq(|es|, i requires 0 <= i < |es| => Render(input, es[i], i))
  }

  function Plan(rules: Rules, input: Input): seq<Item> {
    RenderAll(input, Outline(rules, input, rules.phases))
  }

  function PlanWarnings(missing: seq<Category>, flexible: bool): seq<Warning> {
    (if missing != [] then [MissingCoverage(missing)] else []) + (if flexible then [FlexibleDate] else [])
  }

  function PlanOutput(rules: Rules, input: Input): Output {
    var coverage := ValidatePlanCoverage(rules, Plan(rules, input), Some(input));
    Output(PlanWarnings(coverage.missing, Flexible(input)), coverage, Plan(rules, input), Deterministic, "deterministic", false)
  }

  lemma RenderOneMore(input: Input, es: seq<Entry>, e: Entry)
    ensures RenderAll(input, es + [e]) == RenderAll(input, es) + [Render(input, e, |es|)]
  {
  }

  lemma OneMorePhase(rules: Rules, input: Input, phases: seq<Phase>, k: nat)
    requires k < |phases|
    ensures Outline(rules, input, phases[..k + 1]) == Outline(rules, input, phases[..k]) + Block(rules, input, phases[k])
  {
    assert phases[..k + 1][..k] == phases[..k];
  }

  lemma PhaseAdded(rules: Rules, input: Input, phases: seq<Phase>, k: nat)
    requires k < |phases|
    ensures Outline(rules, input, phases[..k]) + Opening(phases[k]) + Tasks(input, phases[k], rules.templates(phases[k]))
         == Outline(rules, input, phases[..k + 1])
  {
    OneMorePhase(rules, input, phases, k);
    var outline, tasks := Outline(rules, input, phases[..k]), Tasks(input, phases[k], rules.templates(phases[k]));
    assert outline + Opening(phases[k]) + tasks == outline + (Opening(phases[k]) + tasks);
  }

  /** Adds the phase and, except after the event, its milestone. */
  method AddOpening(input: Input, phase: Phase, before: seq<Item>, start: nat, ghost outline: seq<Entry>)
    returns (items: seq<Item>, position: nat)
    requires before == RenderAll(input, outline) && start == |before|
    ensures items == RenderAll(input, outline + Opening(phase)) && position == |items|
  {
    position := start;
    RenderOneMore(input, outline, PhaseEntry(phase));
    items := before + [Item(
      PhaseKey(phase), None, PhaseItem, PlanningWork, None, Some(PhaseStart(phase)), Some(PhaseEnd(phase)),
      MaterializeDate(input, PhaseStart(phase)), MaterializeDate(input, PhaseEnd(phase)),
      true, true, position, false, [])];
    position := position + 1;
    if phase != Afterwards {
      RenderOneMore(input, outline + [PhaseEntry(phase)], MilestoneEntry(phase));
      assert outline + Opening(phase) == outline + [PhaseEntry(phase)] + [MilestoneEntry(phase)];
      items := items + [Item(
        MilestoneKey(phase), Some(PhaseKey(phase)), MilestoneItem, PlanningWork, None, None, Some(PhaseEnd(phase)),
        None, MaterializeDate(input, PhaseEnd(phase)),
        true, true, position, false, [])];
      position := position + 1;
    }
  }

  lemma OneMoreTask(input: Input, p: Phase, templates: seq<Template>, t: nat)
    requires t < |templates|
    ensures Tasks(input, p, templates[..t + 1]) == Tasks(input, p, templates[..t]) +
            if IsRelevant(templates[t].category, input) then [TaskEntry(p, templates[t])] else []
  {
    assert templates[..t + 1][..t] == templates[..t];
  }

  lemma TaskAdded(input: Input, p: Phase, templates: seq<Template>, t: nat, outline: seq<Entry>)
    requires t < |templates|
    ensures var entries := outline + Tasks(input, p, templates[..t]);
      RenderAll(input, outline + Tasks(input, p, templates[..t + 1])) == RenderAll(input, entries) +
      if IsRelevant(templates[t].category, input) then [Render(input, TaskEntry(p, templates[t]), |entries|)] else []
  {
    var entries := outline + Tasks(input, p, templates[..t]);
    OneMoreTask(input, p, templates, t);
    if IsRelevant(templates[t].category, input) {
      assert outline + Tasks(input, p, templates[..t + 1]) == entries + [TaskEntry(p, templates[t])];
      RenderOneMore(input, entries, TaskEntry(p, templates[t]));
    } else {
      assert outline + Tasks(input, p, templates[..t + 1]) == entries;
      assert RenderAll(input, entries) + [] == RenderAll(input, entries);
    }
  }

  /** The item of one task. */
  method TaskItemOf(input: Input, phase: Phase, template: Template, position: nat) returns (item: Item)
    ensures item == Render(input, TaskEntry(phase, template), position)
  {
    var done := input.progress(template.category);
    var boosted := input.preferred(template.category);
    item := Item(
      TaskKey(template.category), Some(PhaseKey(phase)), TaskItem, template.category,
      Some(if boosted then Boost(template.priority) else template.priority),
      Some(template.dueOffset - 30), Some(template.dueOffset),
      MaterializeDate(input, template.dueOffset - 30), MaterializeDate(input, template.dueOffset),
      template.required, true, position, done, TaskKeys(TaskDependencies(template.category)));
  }

  /** Adds the relevant tasks of a phase in the order of their templates. */
  method AddTasks(input: Input, phase: Phase, templates: seq<Template>, before: seq<Item>, start: nat, ghost outline: seq<Entry>)
    returns (items: seq<Item>, position: nat)
    requires before == RenderAll(input, outline) && start == |before|
    ensures items == RenderAll(input, outline + Tasks(input, phase, templates)) && position == |items|
  {
    items, position := before, start;
    assert outline + [] == outline;
    for t := 0 to |templates|
      invariant items == RenderAll(input, outline + Tasks(input, phase, templates[..t]))
      invariant position == |items|
    {
      TaskAdded(input, phase, templates, t, outline);
      if !IsRelevant(templates[t].category, input) {
        continue;
      }
      var item := TaskItemOf(input, phase, templates[t], position);
      items := items + [item];
      position := position + 1;
    }
    assert templates[..|templates|] == templates;
  }

  /** Adds one phase with its milestone and tasks. */
  method AddPhase(rules: Rules, input: Input, phase: Phase, before: seq<Item>, start: nat, ghost outline: seq<Entry>)
    returns (items: seq<Item>, position: nat)
    requires before == RenderAll(input, outline) && start == |before|
    ensures items == RenderAll(input, outline + Opening(phase) + Tasks(input, phase, rules.templates(phase)))
    ensures position == |items|
  {
    items, position := AddOpening(input, phase, before, start, outline);
    items, position := AddTasks(input, phase, rules.templates(phase), items, position, outline + Opening(phase));
  }

  /** Walks the phases in order, numbering the items. */
  method AddPhases(rules: Rules, input: Input, phases: seq<Phase>) returns (items: seq<Item>)
    ensures items == RenderAll(input, Outline(rules, input, phases))
  {
    items := [];
    var position := 0;
    for k := 0 to |phases|
      invariant items == RenderAll(input, Outline(rules, input, phases[..k]))
      invariant position == |items|
    {
      items, position := AddPhase(rules, input, phases[k], items, position, Outline(rules, input, phases[..k]));
      PhaseAdded(rules, input, phases, k);
    }
    assert phases[..|phases|] == phases;
  }

  method CollectWarnings(coverage: Coverage, flexible: bool) returns (warnings: seq<Warning>)
    ensures warnings == PlanWarnings(coverage.missing, flexible)
  {
    warnings := [];
    if |coverage.missing| > 0 {
      warnings := warnings + [MissingCoverage(coverage.missing)];
    }
    if flexible {
      warnings := warnings + [FlexibleDate];
    }
  }

  method GeneratePlan(rules: Rules, input: Input) returns (r: Output)
    ensures r == PlanOutput(rules, input)
  {
    var items := AddPhases(rules, input, rules.phases);
    var coverage := ValidatePlanCoverage(rules, items, Some(input));
    var warnings := CollectWarnings(coverage, Flexible(input));
    r := Output(warnings, coverage, items, Deterministic, "deterministic", false);
  }

  // ---------------------------------------------------------------------------
  // The enriched plan

  /** What a provider of enrichments answers: some of the fields of a plan, or nothing usable. */
  datatype Enrichment =
    | Failure
    | Fields(warnings: Option<seq<Warning>>, items: Option<seq<Item>>, provider: Option<string>)

  function Or<T>(given: Option<T>, default: T): T {
    if given.Some? then given.value else default
  }

  function Enriched(rules: Rules, input: Input, enrichment: Enrichment): Output {
    var baseline := PlanOutput(rules, input);
    var fallback := baseline.(
      generator := Fallback, fallbackUsed := true, warnings := baseline.warnings + [ProviderUnavailable]);
    match enrichment
    case Failure => fallback
    case Fields(warnings, items, provider) =>
      var chosen := Or(items, baseline.items);
      var coverage := ValidatePlanCoverage(rules, chosen, Some(input));
      if coverage.missing != [] then fallback
      else Output(Or(warnings, baseline.warnings), coverage, chosen, AiEnriched, Or(provider, baseline.provider), false)
  }
}

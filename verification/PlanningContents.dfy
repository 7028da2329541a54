/** What a generated plan contains and what each of its items says. */
module PlanningContents {
  import opened Wrappers
  import opened Ordering
  import opened Planning
  import opened PlanningProperties

  // ---------------------------------------------------------------------------
  // Dates

  /** The event has an exact date that is not flexible. */
  predicate Fixed(input: Input) {
    input.exactDate.Some? && !input.flexibleDate
  }

  /** An absolute date is given exactly when the date is fixed and a relative one is, and lies that many days from the event. */
  predicate DatedBy(input: Input, absolute: Option<int>, relative: Option<int>) {
    && (absolute.Some? <==> Fixed(input) && relative.Some?)
    && (absolute.Some? ==> absolute.value - relative.value == input.exactDate.value)
  }

  lemma ItemsDated(rules: Rules, places: Places, input: Input, i: nat)
    requires Placed(rules, places) && i < |Plan(rules, input)|
    ensures var item := Plan(rules, input)[i];
      DatedBy(input, item.absoluteDue, item.relativeDue) && DatedBy(input, item.absoluteStart, item.relativeStart)
  {
    var e := EntryOf(rules, places, input, i);
  }

  // ---------------------------------------------------------------------------
  // Which items there are

  /** The answer that can decline a category does not. */
  predicate NotRefused(c: Category, input: Input) {
    && (c == ReligiousCeremony ==> input.religious != Refused)
    && (c == CivilCeremony ==> input.civil != Refused)
    && (c == Reception ==> input.reception != Refused)
    && (c == Transport ==> input.transport != Refused)
    && (c == Accommodation ==> input.accommodation != Refused)
  }

  lemma RelevantExactly(c: Category, input: Input)
    ensures IsRelevant(c, input) <==> NotRefused(c, input)
  {
  }

  ghost predicate HasKey(items: seq<Item>, key: Key) {
    exists i :: 0 <= i < |items| && items[i].key == key
  }

  ghost predicate Listed(rules: Rules, c: Category) {
    exists p, t :: p in rules.phases && t in rules.templates(p) && t.category == c
  }

  lemma EntryHasKey(rules: Rules, places: Places, input: Input, e: Entry)
    requires Placed(rules, places) && Called(rules, input, rules.phases, e)
    ensures HasKey(Plan(rules, input), KeyOf(e))
  {
    var j := CalledIsRendered(rules, places, input, e);
  }

  /** A phase has its item, and its milestone unless it lies after the event; there are no others. */
  lemma PhasesPresent(rules: Rules, places: Places, input: Input, p: Phase)
    requires Placed(rules, places)
    ensures HasKey(Plan(rules, input), PhaseKey(p)) <==> p in rules.phases
    ensures HasKey(Plan(rules, input), MilestoneKey(p)) <==> p in rules.phases && p != Afterwards
  {
    var plan := Plan(rules, input);
    if p in rules.phases {
      EntryHasKey(rules, places, input, PhaseEntry(p));
      if p != Afterwards {
        EntryHasKey(rules, places, input, MilestoneEntry(p));
      }
    }
    forall i | 0 <= i < |plan| && (plan[i].key == PhaseKey(p) || plan[i].key == MilestoneKey(p))
      ensures p in rules.phases && (plan[i].key == MilestoneKey(p) ==> p != Afterwards)
    {
      var e := EntryOf(rules, places, input, i);
    }
  }

  /** A listed category has its task exactly when the answers do not decline it. */
  lemma TaskPresentExactly(rules: Rules, places: Places, input: Input, c: Category)
    requires Placed(rules, places)
    ensures HasKey(Plan(rules, input), TaskKey(c)) <==> Listed(rules, c) && NotRefused(c, input)
  {
    var plan := Plan(rules, input);
    RelevantExactly(c, input);
    if Listed(rules, c) && NotRefused(c, input) {
      var p, t :| p in rules.phases && t in rules.templates(p) && t.category == c;
      EntryHasKey(rules, places, input, TaskEntry(p, t));
    }
    forall i | 0 <= i < |plan| && plan[i].key == TaskKey(c) ensures Listed(rules, c) && NotRefused(c, input) {
      var e := EntryOf(rules, places, input, i);
    }
  }

  // ---------------------------------------------------------------------------
  // What a task says

  function Rank(p: Priority): int {
    match p
    case Low => 0
    case Medium => 1
    case High => 2
    case Urgent => 3
  }

  /** A preferred task ranks one step higher than its template, as far as there is one. */
  lemma BoostRaises(p: Priority)
    ensures Rank(Boost(p)) == if Rank(p) < 3 then Rank(p) + 1 else 3
  {
  }

  /** What a task made from a template says. */
  ghost predicate Describes(item: Item, input: Input, p: Phase, t: Template) {
    && item.kind == TaskItem && item.category == t.category && item.parent == Some(PhaseKey(p))
    && item.required == t.required && item.included && item.done == input.progress(t.category)
    && item.relativeDue == Some(t.dueOffset) && item.relativeStart == Some(t.dueOffset - 30)
    && item.priority.Some?
    && Rank(item.priority.value) ==
       Rank(t.priority) + (if input.preferred(t.category) && t.priority != Urgent then 1 else 0)
    && |item.dependsOn| == |TaskDependencies(t.category)|
    && forall n :: 0 <= n < |item.dependsOn| ==> item.dependsOn[n] == TaskKey(TaskDependencies(t.category)[n])
  }

  lemma TasksDescribed(rules: Rules, places: Places, input: Input, i: nat)
    requires Placed(rules, places) && i < |Plan(rules, input)| && Plan(rules, input)[i].kind == TaskItem
    ensures exists p, t :: p in rules.phases && t in rules.templates(p) && Describes(Plan(rules, input)[i], input, p, t)
  {
    var e := EntryOf(rules, places, input, i);
    BoostRaises(e.template.priority);
    assert Describes(Plan(rules, input)[i], input, e.phase, e.template);
  }

  /** Phases and milestones are included, carry no priority, and end with their phase. */
  lemma MilestonesDescribed(rules: Rules, places: Places, input: Input, i: nat)
    requires Placed(rules, places) && i < |Plan(rules, input)| && Plan(rules, input)[i].kind != TaskItem
    ensures var item := Plan(rules, input)[i];
      && (item.key.PhaseKey? || item.key.MilestoneKey?) && (item.kind == PhaseItem <==> item.key.PhaseKey?)
      && item.included && item.required && item.priority == None && item.dependsOn == []
      && item.relativeDue == Some(PhaseEnd(item.key.phase))
      && item.relativeStart == (if item.key.PhaseKey? then Some(PhaseStart(item.key.phase)) else None)
      && item.parent == (if item.key.PhaseKey? then None else Some(PhaseKey(item.key.phase)))
  {
    var e := EntryOf(rules, places, input, i);
  }

  /** Every phase starts before it ends. */
  lemma PhasesRunForward(p: Phase)
    ensures PhaseStart(p) < PhaseEnd(p)
  {
  }

  // ---------------------------------------------------------------------------
  // Enriched plans

  /** Fields that an accepted enrichment brings replace those of the generated plan; a fallback adds one warning. */
  lemma EnrichedFields(rules: Rules, places: Places, input: Input, enrichment: Enrichment)
    requires WellFormed(rules, places)
    ensures var r, plain := Enriched(rules, input, enrichment), PlanOutput(rules, input);
      if enrichment.Fields? && (enrichment.items.Some? ==> CoversAll(rules, input, enrichment.items.value)) then
        && r.warnings == (if enrichment.warnings.Some? then enrichment.warnings.value else plain.warnings)
        && r.provider == (if enrichment.provider.Some? then enrichment.provider.value else plain.provider)
      else r.warnings == plain.warnings + [ProviderUnavailable] && r.provider == plain.provider
  {
    EnrichmentTakenExactly(rules, places, input, enrichment);
  }
}

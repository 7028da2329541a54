/** What every generated plan satisfies, whatever the onboarding input and the enrichment. */
module PlanningProperties {
  import opened Wrappers
  import opened Ordering
  import opened Planning

  // ---------------------------------------------------------------------------
  // Where the tables put each entry

  type Spot = (int, int)

  /** The place of a phase in the order of phases, and of a task's template in its phase. */
  datatype Places = Places(phase: Phase -> int, task: Category -> Spot)

  ghost predicate Before(a: Spot, b: Spot) {
    a.0 < b.0 || (a.0 == b.0 && a.1 < b.1)
  }

  /** Within a phase the phase itself comes first, its milestone second and its tasks after them. */
  function SpotOf(places: Places, key: Key): Spot {
    match key
    case PhaseKey(p) => (places.phase(p), 0)
    case MilestoneKey(p) => (places.phase(p), 1)
    case TaskKey(c) => (places.task(c).0, 2 + places.task(c).1)
    case OtherKey(_) => (-1, 0)
  }

  /** The template of a category stands in the tables. */
  ghost predicate Tabled(rules: Rules, places: Places, c: Category) {
    var (k, t) := places.task(c);
    0 <= k < |rules.phases| && 0 <= t < |rules.templates(rules.phases[k])|
    && rules.templates(rules.phases[k])[t].category == c
  }

  predicate Optional(c: Category) {
    c in {ReligiousCeremony, CivilCeremony, Reception, Transport, Accommodation}
  }

  /** Each entry stands at its own place, and dependencies are earlier and never left out. */
  ghost predicate Placed(rules: Rules, places: Places) {
    && (forall k :: 0 <= k < |rules.phases| ==> places.phase(rules.phases[k]) == k)
    && (forall k, t :: 0 <= k < |rules.phases| && 0 <= t < |rules.templates(rules.phases[k])| ==>
          places.task(rules.templates(rules.phases[k])[t].category) == (k, t))
  }

  ghost predicate DependenciesPlaced(rules: Rules, places: Places, c: Category) {
    Tabled(rules, places, c) ==>
      forall d :: d in TaskDependencies(c) ==>
        Tabled(rules, places, d) && !Optional(d) && Before(places.task(d), places.task(c))
  }

  ghost predicate WellFormed(rules: Rules, places: Places) {
    && Placed(rules, places)
    && (forall c :: DependenciesPlaced(rules, places, c))
    && (forall c :: c in rules.minimum ==> Tabled(rules, places, c))
  }

  // ---------------------------------------------------------------------------
  // The order of the outline

  ghost predicate Ordered(places: Places, es: seq<Entry>) {
    forall i, j :: 0 <= i < j < |es| ==> Before(SpotOf(places, KeyOf(es[i])), SpotOf(places, KeyOf(es[j])))
  }

  ghost predicate Within(places: Places, es: seq<Entry>, low: Spot, high: Spot) {
    forall e :: e in es ==>
      var s := SpotOf(places, KeyOf(e));
      (s == low || Before(low, s)) && Before(s, high)
  }

  lemma OrderedConcat(places: Places, es: seq<Entry>, fs: seq<Entry>, low: Spot, middle: Spot, high: Spot)
    requires Ordered(places, es) && Ordered(places, fs)
    requires Within(places, es, low, middle) && Within(places, fs, middle, high)
    requires (low == middle || Before(low, middle)) && (middle == high || Before(middle, high))
    ensures Ordered(places, es + fs) && Within(places, es + fs, low, high)
  {
    forall i, j | 0 <= i < j < |es + fs|
      ensures Before(SpotOf(places, KeyOf((es + fs)[i])), SpotOf(places, KeyOf((es + fs)[j])))
    {
      if i < |es| <= j {
        assert es[i] in es && fs[j - |es|] in fs;
      }
    }
  }

  lemma TaskWithin(rules: Rules, places: Places, k: nat, t: nat)
    requires Placed(rules, places) && k < |rules.phases| && t < |rules.templates(rules.phases[k])|
    ensures SpotOf(places, KeyOf(TaskEntry(rules.phases[k], rules.templates(rules.phases[k])[t]))) == (k, 2 + t)
  {
  }

  lemma LastTaskOrdered(rules: Rules, places: Places, input: Input, k: nat, t: nat)
    requires Placed(rules, places) && k < |rules.phases| && t < |rules.templates(rules.phases[k])|
    ensures var template := rules.templates(rules.phases[k])[t];
      var last := if IsRelevant(template.category, input) then [TaskEntry(rules.phases[k], template)] else [];
      Ordered(places, last) && Within(places, last, (k, 2 + t), (k, 2 + t + 1))
  {
    TaskWithin(rules, places, k, t);
  }

  lemma {:induction false} TasksOrdered(rules: Rules, places: Places, input: Input, k: nat, n: nat)
    requires Placed(rules, places) && k < |rules.phases| && n <= |rules.templates(rules.phases[k])|
    ensures var es := Tasks(input, rules.phases[k], rules.templates(rules.phases[k])[..n]);
      Ordered(places, es) && Within(places, es, (k, 2), (k, 2 + n))
  {
    if n > 0 {
      var p, templates := rules.phases[k], rules.templates(rules.phases[k]);
      TasksOrdered(rules, places, input, k, n - 1);
      OneMoreTask(input, p, templates, n - 1);
      LastTaskOrdered(rules, places, input, k, n - 1);
      var most := Tasks(input, p, templates[..n - 1]);
      var last := if IsRelevant(templates[n - 1].category, input) then [TaskEntry(p, templates[n - 1])] else [];
      OrderedConcat(places, most, last, (k, 2), (k, 2 + n - 1), (k, 2 + n));
    }
  }

  lemma BlockOrdered(rules: Rules, places: Places, input: Input, k: nat)
    requires Placed(rules, places) && k < |rules.phases|
    ensures var es := Block(rules, input, rules.phases[k]);
      Ordered(places, es) && Within(places, es, (k, 0), (k + 1, 0))
  {
    var p, templates := rules.phases[k], rules.templates(rules.phases[k]);
    TasksOrdered(rules, places, input, k, |templates|);
    assert templates[..|templates|] == templates;
    assert Ordered(places, Opening(p)) && Within(places, Opening(p), (k, 0), (k, 2));
    OrderedConcat(places, Opening(p), Tasks(input, p, templates), (k, 0), (k, 2), (k, 2 + |templates|));
  }

  lemma {:induction false} OutlineOrdered(rules: Rules, places: Places, input: Input, k: nat)
    requires Placed(rules, places) && k <= |rules.phases|
    ensures var es := Outline(rules, input, rules.phases[..k]);
      Ordered(places, es) && Within(places, es, (0, 0), (k, 0))
  {
    if k == 0 {
      assert rules.phases[..k] == [];
    } else {
      OutlineOrdered(rules, places, input, k - 1);
      OutlineExtended(rules, places, input, k - 1);
    }
  }

  lemma OutlineExtended(rules: Rules, places: Places, input: Input, k: nat)
    requires Placed(rules, places) && k < |rules.phases|
    requires Ordered(places, Outline(rules, input, rules.phases[..k]))
    requires Within(places, Outline(rules, input, rules.phases[..k]), (0, 0), (k, 0))
    ensures Ordered(places, Outline(rules, input, rules.phases[..k + 1]))
    ensures Within(places, Outline(rules, input, rules.phases[..k + 1]), (0, 0), (k + 1, 0))
  {
    BlockAfter(rules, places, input, k, Outline(rules, input, rules.phases[..k]));
    OneMorePhase(rules, input, rules.phases, k);
  }

  lemma BlockAfter(rules: Rules, places: Places, input: Input, k: nat, es: seq<Entry>)
    requires Placed(rules, places) && k < |rules.phases|
    requires Ordered(places, es) && Within(places, es, (0, 0), (k, 0))
    ensures var fs := es + Block(rules, input, rules.phases[k]);
      Ordered(places, fs) && Within(places, fs, (0, 0), (k + 1, 0))
  {
    BlockOrdered(rules, places, input, k);
    OrderedConcat(places, es, Block(rules, input, rules.phases[k]), (0, 0), (k, 0), (k + 1, 0));
  }

  // ---------------------------------------------------------------------------
  // What the outline contains

  /** The entry is one the tables call for. */
  ghost predicate Called(rules: Rules, input: Input, phases: seq<Phase>, e: Entry) {
    && e.phase in phases
    && (e.MilestoneEntry? ==> e.phase != Afterwards)
    && (e.TaskEntry? ==> e.template in rules.templates(e.phase) && IsRelevant(e.template.category, input))
  }

  lemma {:induction false} OutlineContents(rules: Rules, input: Input, phases: seq<Phase>, e: Entry)
    ensures e in Outline(rules, input, phases) <==> Called(rules, input, phases, e)
  {
    if phases != [] {
      var front, last := phases[..|phases| - 1], phases[|phases| - 1];
      OutlineContents(rules, input, front, e);
      assert phases == front + [last];
      assert e in Opening(last) <==> e == PhaseEntry(last) || (last != Afterwards && e == MilestoneEntry(last));
      assert e in Block(rules, input, last) <==> e.phase == last && Called(rules, input, [last], e);
    }
  }

  // ---------------------------------------------------------------------------
  // Generated plans

  lemma PlanEntries(rules: Rules, places: Places, input: Input)
    requires Placed(rules, places)
    ensures var es := Outline(rules, input, rules.phases);
      && Ordered(places, es) && |Plan(rules, input)| == |es|
      && forall i :: 0 <= i < |es| ==> Plan(rules, input)[i] == Render(input, es[i], i) && Plan(rules, input)[i].key == KeyOf(es[i])
  {
    OutlineOrdered(rules, places, input, |rules.phases|);
    assert rules.phases[..|rules.phases|] == rules.phases;
  }

  /** No two items share a key. */
  lemma KeysUnique(rules: Rules, places: Places, input: Input, i: nat, j: nat)
    requires Placed(rules, places) && i < j < |Plan(rules, input)|
    ensures Plan(rules, input)[i].key != Plan(rules, input)[j].key
  {
    PlanEntries(rules, places, input);
  }

  /** Positions count up from zero. */
  lemma PositionsConsecutive(rules: Rules, input: Input, i: nat)
    requires i < |Plan(rules, input)|
    ensures Plan(rules, input)[i].position == i
  {
  }

  /** Every entry the tables call for has an item. */
  lemma CalledIsRendered(rules: Rules, places: Places, input: Input, e: Entry) returns (j: nat)
    requires Placed(rules, places) && Called(rules, input, rules.phases, e)
    ensures j < |Plan(rules, input)| && Plan(rules, input)[j] == Render(input, e, j)
    ensures Plan(rules, input)[j].key == KeyOf(e)
  {
    PlanEntries(rules, places, input);
    OutlineContents(rules, input, rules.phases, e);
    j :| 0 <= j < |Outline(rules, input, rules.phases)| && Outline(rules, input, rules.phases)[j] == e;
  }

  lemma KeysOrdered(rules: Rules, places: Places, input: Input, i: nat, j: nat)
    requires Placed(rules, places) && i < |Plan(rules, input)| && j < |Plan(rules, input)|
    requires Before(SpotOf(places, Plan(rules, input)[j].key), SpotOf(places, Plan(rules, input)[i].key))
    ensures j < i
  {
    PlanEntries(rules, places, input);
  }

  /** A called entry whose place is before that of an item precedes it in the plan. */
  lemma Precedes(rules: Rules, places: Places, input: Input, e: Entry, i: nat) returns (j: nat)
    requires Placed(rules, places) && i < |Plan(rules, input)|
    requires Called(rules, input, rules.phases, e)
    requires Before(SpotOf(places, KeyOf(e)), SpotOf(places, Plan(rules, input)[i].key))
    ensures j < i && Plan(rules, input)[j].key == KeyOf(e) && Plan(rules, input)[j] == Render(input, e, j)
  {
    j := CalledIsRendered(rules, places, input, e);
    KeysOrdered(rules, places, input, i, j);
  }

  /** What an item is rendered from. */
  lemma EntryOf(rules: Rules, places: Places, input: Input, i: nat) returns (e: Entry)
    requires Placed(rules, places) && i < |Plan(rules, input)|
    ensures Called(rules, input, rules.phases, e) && Plan(rules, input)[i] == Render(input, e, i)
  {
    PlanEntries(rules, places, input);
    e := Outline(rules, input, rules.phases)[i];
    assert e in Outline(rules, input, rules.phases);
    OutlineContents(rules, input, rules.phases, e);
  }

  /** A task's place lies in its own phase. */
  lemma TaskPlace(rules: Rules, places: Places, input: Input, e: Entry) returns (k: nat, t: nat)
    requires Placed(rules, places) && Called(rules, input, rules.phases, e) && e.TaskEntry?
    ensures k < |rules.phases| && t < |rules.templates(rules.phases[k])|
    ensures rules.phases[k] == e.phase && rules.templates(e.phase)[t] == e.template
    ensures places.task(e.template.category) == (k, t) && places.phase(e.phase) == k
  {
    k :| 0 <= k < |rules.phases| && rules.phases[k] == e.phase;
    t :| 0 <= t < |rules.templates(e.phase)| && rules.templates(e.phase)[t] == e.template;
  }

  /** The parent of an item is a phase that comes before it. */
  lemma ParentsPrecede(rules: Rules, places: Places, input: Input, i: nat)
    requires Placed(rules, places) && i < |Plan(rules, input)| && Plan(rules, input)[i].parent.Some?
    ensures exists j :: (
      0 <= j < i && Plan(rules, input)[j].kind == PhaseItem
      && Plan(rules, input)[i].parent == Some(Plan(rules, input)[j].key))
  {
    var e := EntryOf(rules, places, input, i);
    if e.TaskEntry? {
      var k, t := TaskPlace(rules, places, input, e);
    }
    var j := Precedes(rules, places, input, PhaseEntry(e.phase), i);
    assert Plan(rules, input)[j].kind == PhaseItem;
  }

  /** The entry of a category that stands in the tables. */
  lemma TabledEntry(rules: Rules, places: Places, input: Input, c: Category) returns (e: Entry)
    requires Placed(rules, places) && Tabled(rules, places, c) && IsRelevant(c, input)
    ensures Called(rules, input, rules.phases, e) && e.TaskEntry? && e.template.category == c
  {
    var (k, t) := places.task(c);
    e := TaskEntry(rules.phases[k], rules.templates(rules.phases[k])[t]);
  }

  /** Every dependency of an item is an item that comes before it. */
  lemma DependenciesPrecede(rules: Rules, places: Places, input: Input, i: nat, key: Key)
    requires WellFormed(rules, places) && i < |Plan(rules, input)| && key in Plan(rules, input)[i].dependsOn
    ensures exists j :: 0 <= j < i && Plan(rules, input)[j].key == key
  {
    var e := EntryOf(rules, places, input, i);
    var k, t := TaskPlace(rules, places, input, e);
    var c := e.template.category;
    assert Tabled(rules, places, c) && DependenciesPlaced(rules, places, c);
    var n :| 0 <= n < |TaskDependencies(c)| && key == TaskKey(TaskDependencies(c)[n]);
    var d := TaskDependencies(c)[n];
    assert d in TaskDependencies(c);
    var f := TabledEntry(rules, places, input, d);
    var j := Precedes(rules, places, input, f, i);
  }

  /** Consecutive items of the chain depend each on the next. */
  ghost predicate DependencyChain(items: seq<Item>, chain: seq<nat>) {
    && (forall n :: 0 <= n < |chain| ==> chain[n] < |items|)
    && (forall n :: 0 <= n < |chain| - 1 ==> items[chain[n + 1]].key in items[chain[n]].dependsOn)
  }

  lemma DependencyDescends(rules: Rules, places: Places, input: Input, i: nat, j: nat)
    requires WellFormed(rules, places) && i < |Plan(rules, input)| && j < |Plan(rules, input)|
    requires Plan(rules, input)[j].key in Plan(rules, input)[i].dependsOn
    ensures j < i
  {
    var key := Plan(rules, input)[j].key;
    DependenciesPrecede(rules, places, input, i, key);
    var found :| 0 <= found < i && Plan(rules, input)[found].key == key;
    if found < j {
      KeysUnique(rules, places, input, found, j);
    }
  }

  lemma {:induction false} ChainsDescend(rules: Rules, places: Places, input: Input, chain: seq<nat>)
    requires WellFormed(rules, places) && DependencyChain(Plan(rules, input), chain) && |chain| >= 2
    ensures chain[|chain| - 1] < chain[0]
    decreases |chain|
  {
    DependencyDescends(rules, places, input, chain[0], chain[1]);
    if |chain| > 2 {
      ChainsDescend(rules, places, input, chain[1..]);
    }
  }

  /** No chain of dependencies returns to where it started. */
  lemma NoDependencyCycle(rules: Rules, places: Places, input: Input, chain: seq<nat>)
    requires WellFormed(rules, places) && DependencyChain(Plan(rules, input), chain) && |chain| >= 2
    ensures Plan(rules, input)[chain[0]].key != Plan(rules, input)[chain[|chain| - 1]].key
  {
    ChainsDescend(rules, places, input, chain);
    KeysUnique(rules, places, input, chain[|chain| - 1], chain[0]);
  }

  /** A generated plan covers every relevant category. */
  lemma NothingMissing(rules: Rules, places: Places, input: Input)
    requires WellFormed(rules, places)
    ensures PlanOutput(rules, input).coverage.missing == []
    ensures PlanOutput(rules, input).warnings == if Flexible(input) then [FlexibleDate] else []
  {
    var missing := PlanOutput(rules, input).coverage.missing;
    if missing != [] {
      CategoryCovered(rules, places, input, missing[0]);
    }
  }

  lemma TaskRendered(input: Input, e: Entry, i: nat)
    requires e.TaskEntry?
    ensures Render(input, e, i).included && Render(input, e, i).category == e.template.category
    ensures Render(input, e, i).kind == TaskItem
  {
  }

  lemma CategoryCovered(rules: Rules, places: Places, input: Input, c: Category)
    requires WellFormed(rules, places)
    ensures c !in PlanOutput(rules, input).coverage.missing
  {
    MissingExactly(rules, Plan(rules, input), Some(input), c);
    if c in RequiredOf(rules, Some(input)) {
      var e := TabledEntry(rules, places, input, c);
      var i := CalledIsRendered(rules, places, input, e);
      TaskRendered(input, e, i);
      assert Covers(Plan(rules, input), c);
    }
  }

  // ---------------------------------------------------------------------------
  // Enriched plans

  ghost predicate CoversAll(rules: Rules, input: Input, items: seq<Item>) {
    forall c :: c in rules.minimum && IsRelevant(c, input) ==> Covers(items, c)
  }

  lemma MissingNothingExactly(rules: Rules, input: Input, items: seq<Item>)
    ensures ValidatePlanCoverage(rules, items, Some(input)).missing == [] <==> CoversAll(rules, input, items)
  {
    var missing := ValidatePlanCoverage(rules, items, Some(input)).missing;
    if CoversAll(rules, input, items) && missing != [] {
      MissingExactly(rules, items, Some(input), missing[0]);
    }
    forall c | missing == [] && c in rules.minimum && IsRelevant(c, input) ensures Covers(items, c) {
      MissingExactly(rules, items, Some(input), c);
    }
  }

  /** Whatever the enrichment, no relevant category is missing, and the coverage shown is that of the items. */
  lemma EnrichedNothingMissing(rules: Rules, places: Places, input: Input, enrichment: Enrichment)
    requires WellFormed(rules, places)
    ensures var r := Enriched(rules, input, enrichment);
      && r.coverage.missing == []
      && CoversAll(rules, input, r.items)
      && r.coverage == ValidatePlanCoverage(rules, r.items, Some(input))
  {
    NothingMissing(rules, places, input);
    MissingNothingExactly(rules, input, Enriched(rules, input, enrichment).items);
  }

  /** The enrichment is taken exactly when its items, if it has any, cover what is required. */
  lemma EnrichmentTakenExactly(rules: Rules, places: Places, input: Input, enrichment: Enrichment)
    requires WellFormed(rules, places)
    ensures var r := Enriched(rules, input, enrichment);
      && (r.generator == AiEnriched <==>
            enrichment.Fields? && (enrichment.items.Some? ==> CoversAll(rules, input, enrichment.items.value)))
      && (r.generator != AiEnriched ==> r.generator == Fallback && r.items == Plan(rules, input))
      && (r.fallbackUsed <==> r.generator == Fallback)
      && (r.fallbackUsed ==> ProviderUnavailable in r.warnings)
  {
    NothingMissing(rules, places, input);
    if enrichment.Fields? && enrichment.items.Some? {
      MissingNothingExactly(rules, input, enrichment.items.value);
    }
  }

  lemma CoverageOfMore(rules: Rules, input: Input, items: seq<Item>, more: seq<Item>)
    requires CoversAll(rules, input, items)
    ensures CoversAll(rules, input, items + more)
  {
    forall c | c in rules.minimum && IsRelevant(c, input) ensures Covers(items + more, c) {
      assert Covers(items, c);
      var i :| 0 <= i < |items| && items[i].included && items[i].category == c;
      assert (items + more)[i] == items[i];
    }
  }

  lemma PlanNotEmpty(rules: Rules, input: Input)
    requires rules.phases != []
    ensures Plan(rules, input) != []
  {
    OutlineContents(rules, input, rules.phases, PhaseEntry(rules.phases[0]));
  }

  ghost predicate RepeatsKey(items: seq<Item>) {
    exists i, j :: 0 <= i < j < |items| && items[i].key == items[j].key
  }

  lemma DoubledRepeatsKey(items: seq<Item>)
    requires items != []
    ensures RepeatsKey(items + items)
  {
    assert (items + items)[0].key == (items + items)[|items|].key;
  }

  lemma CoveringItemsAccepted(rules: Rules, places: Places, input: Input, items: seq<Item>)
    requires WellFormed(rules, places) && CoversAll(rules, input, items)
    ensures var r := Enriched(rules, input, Fields(None, Some(items), None));
      r.generator == AiEnriched && r.items == items
  {
    MissingNothingExactly(rules, input, items);
  }

  ghost predicate TakenWithRepeats(rules: Rules, input: Input, enrichment: Enrichment) {
    var r := Enriched(rules, input, enrichment);
    r.generator == AiEnriched && RepeatsKey(r.items)
  }

  lemma DoubledCovers(rules: Rules, places: Places, input: Input, plan: seq<Item>)
    requires WellFormed(rules, places) && plan == Plan(rules, input)
    ensures CoversAll(rules, input, plan + plan)
  {
    NothingMissing(rules, places, input);
    MissingNothingExactly(rules, input, plan);
    CoverageOfMore(rules, input, plan, plan);
  }

  /** Only coverage survives an enrichment: an accepted one may repeat every key. */
  lemma EnrichmentMayRepeatKeys(rules: Rules, places: Places, input: Input)
    requires WellFormed(rules, places) && rules.phases != []
    ensures exists enrichment :: TakenWithRepeats(rules, input, enrichment)
  {
    var plan := Plan(rules, input);
    PlanNotEmpty(rules, input);
    DoubledRepeatsKey(plan);
    DoubledCovers(rules, places, input, plan);
    CoveringItemsAccepted(rules, places, input, plan + plan);
    assert TakenWithRepeats(rules, input, Fields(None, Some(plan + plan), None));
  }

  // ---------------------------------------------------------------------------
  // Which structure survives an enrichment

  ghost predicate Earlier(items: seq<Item>, i: nat, key: Key) {
    exists j :: 0 <= j < i && j < |items| && items[j].key == key
  }

  ghost predicate EarlierPhase(items: seq<Item>, i: nat, key: Key) {
    exists j :: 0 <= j < i && j < |items| && items[j].key == key && items[j].kind == PhaseItem
  }

  ghost predicate ParentsFirst(items: seq<Item>) {
    forall i :: 0 <= i < |items| && items[i].parent.Some? ==> EarlierPhase(items, i, items[i].parent.value)
  }

  ghost predicate DependenciesFirst(items: seq<Item>) {
    forall i, key :: 0 <= i < |items| && key in items[i].dependsOn ==> Earlier(items, i, key)
  }

  ghost predicate CountsUp(items: seq<Item>) {
    forall i :: 0 <= i < |items| ==> items[i].position == i
  }

  /** All that is proved above about the items of a generated plan. */
  lemma PlanStructured(rules: Rules, places: Places, input: Input)
    requires WellFormed(rules, places)
    ensures var plan := Plan(rules, input);
      !RepeatsKey(plan) && ParentsFirst(plan) && DependenciesFirst(plan) && CountsUp(plan)
  {
    var plan := Plan(rules, input);
    forall i, j | 0 <= i < j < |plan| ensures plan[i].key != plan[j].key {
      KeysUnique(rules, places, input, i, j);
    }
    forall i | 0 <= i < |plan| && plan[i].parent.Some? ensures EarlierPhase(plan, i, plan[i].parent.value) {
      ParentsPrecede(rules, places, input, i);
    }
    forall i, key | 0 <= i < |plan| && key in plan[i].dependsOn ensures Earlier(plan, i, key) {
      DependenciesPrecede(rules, places, input, i, key);
    }
  }

  /** The enrichment brings items of its own, and they cover what is required. */
  ghost predicate Replaces(rules: Rules, input: Input, enrichment: Enrichment) {
    enrichment.Fields? && enrichment.items.Some? && CoversAll(rules, input, enrichment.items.value)
  }

  lemma EnrichedItems(rules: Rules, places: Places, input: Input, enrichment: Enrichment)
    requires WellFormed(rules, places)
    ensures Enriched(rules, input, enrichment).items ==
            if Replaces(rules, input, enrichment) then enrichment.items.value else Plan(rules, input)
  {
    NothingMissing(rules, places, input);
    if enrichment.Fields? && enrichment.items.Some? {
      MissingNothingExactly(rules, input, enrichment.items.value);
    }
  }

  /** The enriched plan breaks a rule of structure exactly when covering items of the enrichment themselves do. */
  lemma StructureBrokenExactly(rules: Rules, places: Places, input: Input, enrichment: Enrichment)
    requires WellFormed(rules, places)
    ensures var items, replaced := Enriched(rules, input, enrichment).items, Replaces(rules, input, enrichment);
      && (RepeatsKey(items) <==> replaced && RepeatsKey(enrichment.items.value))
      && (!ParentsFirst(items) <==> replaced && !ParentsFirst(enrichment.items.value))
      && (!DependenciesFirst(items) <==> replaced && !DependenciesFirst(enrichment.items.value))
      && (!CountsUp(items) <==> replaced && !CountsUp(enrichment.items.value))
  {
    EnrichedItems(rules, places, input, enrichment);
    PlanStructured(rules, places, input);
  }

  /** An item whose parent and dependency no generated plan has. */
  function Stray(): Item {
    Item(OtherKey("stray"), Some(OtherKey("nowhere")), TaskItem, PlanningWork, None, None, None, None, None,
         false, true, 0, false, [OtherKey("nowhere")])
  }

  lemma NobodyIsNowhere(rules: Rules, places: Places, input: Input, i: nat)
    requires Placed(rules, places) && i < |Plan(rules, input)|
    ensures Plan(rules, input)[i].key != OtherKey("nowhere")
  {
    var e := EntryOf(rules, places, input, i);
  }

  /** A covering enrichment can leave a parent and a dependency unresolved. */
  lemma EnrichmentMayStray(rules: Rules, places: Places, input: Input)
    requires WellFormed(rules, places)
    ensures var items := Enriched(rules, input, Fields(None, Some(Plan(rules, input) + [Stray()]), None)).items;
      !ParentsFirst(items) && !DependenciesFirst(items)
  {
    var plan := Plan(rules, input);
    var items := plan + [Stray()];
    NothingMissing(rules, places, input);
    MissingNothingExactly(rules, input, plan);
    CoverageOfMore(rules, input, plan, [Stray()]);
    EnrichedItems(rules, places, input, Fields(None, Some(items), None));
    forall j | 0 <= j < |plan| ensures items[j].key != OtherKey("nowhere") {
      NobodyIsNowhere(rules, places, input, j);
    }
    assert items[|plan|] == Stray();
    assert OtherKey("nowhere") in items[|plan|].dependsOn;
    assert !Earlier(items, |plan|, OtherKey("nowhere")) && !EarlierPhase(items, |plan|, OtherKey("nowhere"));
  }
}

/** The tables of the deterministic provider, and what they make of the general results. */
module PlanningTables {
  import opened Wrappers
  import opened Planning
  import opened PlanningProperties

  function MinimumCategories(): seq<Category> {
    [Budget, Venue, CivilCeremony, ReligiousCeremony, Reception, GuestList, Vendors, PhotoVideo,
     Entertainment, FoodDrinks, DecorFlowers, Invitations, Rsvp, SeatingPlan, Attire, Rings, Transport,
     Accommodation, Logistics, Documents, Payments, WeddingDay, Contingency, PostWedding]
  }

  function Phases(): seq<Phase> {
    [Foundation, Suppliers, Details, Finale, Afterwards]
  }

  function Templates(p: Phase): seq<Template> {
    match p
    case Foundation => [
      Template(Budget, -480, Urgent, true),
      Template(Venue, -420, Urgent, true),
      Template(CivilCeremony, -240, High, true),
      Template(ReligiousCeremony, -210, High, false),
      Template(Reception, -360, High, true),
      Template(GuestList, -330, High, true)]
    case Suppliers => [
      Template(Vendors, -330, High, true),
      Template(PhotoVideo, -300, High, true),
      Template(Entertainment, -270, Medium, true),
      Template(FoodDrinks, -150, High, true),
      Template(DecorFlowers, -180, Medium, true)]
    case Details => [
      Template(Invitations, -150, High, true),
      Template(Rsvp, -75, High, true),
      Template(SeatingPlan, -30, Medium, true),
      Template(Attire, -45, High, true),
      Template(Rings, -60, High, true),
      Template(Transport, -45, Medium, false),
      Template(Accommodation, -60, Medium, false),
      Template(Documents, -60, High, true),
      Template(Payments, -45, High, true)]
    case Finale => [
      Template(Logistics, -14, Urgent, true),
      Template(WeddingDay, -21, Urgent, true),
      Template(Contingency, -14, Urgent, true)]
    case Afterwards => [
      Template(PostWedding, 14, Low, true)]
  }

  function StandardRules(): Rules {
    Rules(Phases(), Templates, MinimumCategories())
  }

  // ---------------------------------------------------------------------------
  // The tables are well formed

  function PhasePlace(p: Phase): int {
    match p
    case Foundation => 0
    case Suppliers => 1
    case Details => 2
    case Finale => 3
    case Afterwards => 4
  }

  function TaskPlaceOf(c: Category): Spot {
    match c
    case Budget => (0, 0)
    case Venue => (0, 1)
    case CivilCeremony => (0, 2)
    case ReligiousCeremony => (0, 3)
    case Reception => (0, 4)
    case GuestList => (0, 5)
    case Vendors => (1, 0)
    case PhotoVideo => (1, 1)
    case Entertainment => (1, 2)
    case FoodDrinks => (1, 3)
    case DecorFlowers => (1, 4)
    case Invitations => (2, 0)
    case Rsvp => (2, 1)
    case SeatingPlan => (2, 2)
    case Attire => (2, 3)
    case Rings => (2, 4)
    case Transport => (2, 5)
    case Accommodation => (2, 6)
    case Documents => (2, 7)
    case Payments => (2, 8)
    case Logistics => (3, 0)
    case WeddingDay => (3, 1)
    case Contingency => (3, 2)
    case PostWedding => (4, 0)
    case _ => (-1, 0)
  }

  function StandardPlaces(): Places {
    Places(PhasePlace, TaskPlaceOf)
  }

  lemma TemplatesPlaced(p: Phase, t: nat)
    requires t < |Templates(p)|
    ensures TaskPlaceOf(Templates(p)[t].category) == (PhasePlace(p), t)
  {
  }

  lemma PhasesPlaced(k: nat)
    requires k < 5
    ensures |Phases()| == 5 && PhasePlace(Phases()[k]) == k
  {
  }

  lemma TabledIn(p: Phase, c: Category)
    requires TaskPlaceOf(c).0 == PhasePlace(p)
    ensures 0 <= TaskPlaceOf(c).1 < |Templates(p)| && Templates(p)[TaskPlaceOf(c).1].category == c
  {
  }

  lemma StandardTabled(c: Category)
    requires TaskPlaceOf(c) != (-1, 0)
    ensures Tabled(StandardRules(), StandardPlaces(), c)
  {
    var k := TaskPlaceOf(c).0;
    assert 0 <= k < 5;
    PhasesPlaced(k);
    TabledIn(Phases()[k], c);
  }

  lemma MinimumTabled(c: Category)
    requires c in MinimumCategories()
    ensures TaskPlaceOf(c) != (-1, 0)
  {
  }

  lemma StandardDependencies(c: Category, d: Category)
    requires d in TaskDependencies(c)
    ensures TaskPlaceOf(d) != (-1, 0) && !Optional(d) && Before(TaskPlaceOf(d), TaskPlaceOf(c))
  {
  }

  /** The tables of the deterministic provider are well formed, so all of the above holds of its plans. */
  lemma StandardRulesWellFormed()
    ensures WellFormed(StandardRules(), StandardPlaces())
  {
    StandardPlaced();
    forall c ensures DependenciesPlaced(StandardRules(), StandardPlaces(), c) {
      forall d | d in TaskDependencies(c)
        ensures Tabled(StandardRules(), StandardPlaces(), d) && !Optional(d) && Before(TaskPlaceOf(d), TaskPlaceOf(c))
      {
        StandardDependencies(c, d);
        StandardTabled(d);
      }
    }
    forall c | c in MinimumCategories() ensures Tabled(StandardRules(), StandardPlaces(), c) {
      MinimumTabled(c);
      StandardTabled(c);
    }
  }

  lemma StandardPlaced()
    ensures Placed(StandardRules(), StandardPlaces())
  {
    forall k | 0 <= k < |Phases()| ensures PhasePlace(Phases()[k]) == k {
      PhasesPlaced(k);
    }
    forall k, t | 0 <= k < |Phases()| && 0 <= t < |Templates(Phases()[k])|
      ensures TaskPlaceOf(Templates(Phases()[k])[t].category) == (k, t)
    {
      PhasesPlaced(k);
      TemplatesPlaced(Phases()[k], t);
    }
  }

  // ---------------------------------------------------------------------------
  // Due dates in the standard tables

  function DueOf(c: Category): int {
    match c
    case Budget => -480
    case Venue => -420
    case CivilCeremony => -240
    case ReligiousCeremony => -210
    case Reception => -360
    case GuestList => -330
    case Vendors => -330
    case PhotoVideo => -300
    case Entertainment => -270
    case FoodDrinks => -150
    case DecorFlowers => -180
    case Invitations => -150
    case Rsvp => -75
    case SeatingPlan => -30
    case Attire => -45
    case Rings => -60
    case Transport => -45
    case Accommodation => -60
    case Documents => -60
    case Payments => -45
    case Logistics => -14
    case WeddingDay => -21
    case Contingency => -14
    case PostWedding => 14
    case _ => 0
  }

  lemma TemplateDue(p: Phase, t: nat)
    requires t < |Templates(p)|
    ensures Templates(p)[t].dueOffset == DueOf(Templates(p)[t].category)
  {
  }

  lemma DependencyDue(c: Category, d: Category)
    requires d in TaskDependencies(c)
    ensures DueOf(d) <= DueOf(c) <==> c != WeddingDay
  {
  }

  lemma TaskDue(rules: Rules, input: Input, i: nat)
    requires rules.templates == Templates && Placed(rules, StandardPlaces())
    requires i < |Plan(rules, input)| && Plan(rules, input)[i].kind == TaskItem
    ensures var item := Plan(rules, input)[i];
      item.key == TaskKey(item.category) && item.relativeDue == Some(DueOf(item.category))
      && item.dependsOn == TaskKeys(TaskDependencies(item.category))
  {
    var e := EntryOf(rules, StandardPlaces(), input, i);
    var k, t := TaskPlace(rules, StandardPlaces(), input, e);
    TemplateDue(e.phase, t);
  }

  /** A task is due no earlier than what it depends on, except the programme of the day, due a week before the logistics. */
  lemma DependenciesDueFirstExactly(rules: Rules, input: Input, i: nat, j: nat)
    requires rules.templates == Templates && Placed(rules, StandardPlaces())
    requires i < |Plan(rules, input)| && j < |Plan(rules, input)|
    requires Plan(rules, input)[i].kind == TaskItem && Plan(rules, input)[j].kind == TaskItem
    requires Plan(rules, input)[j].key in Plan(rules, input)[i].dependsOn
    ensures var item, other := Plan(rules, input)[i], Plan(rules, input)[j];
      item.relativeDue.Some? && other.relativeDue.Some?
      && (other.relativeDue.value <= item.relativeDue.value <==> item.category != WeddingDay)
  {
    TaskDue(rules, input, i);
    TaskDue(rules, input, j);
    DependencyDue(Plan(rules, input)[i].category, Plan(rules, input)[j].category);
  }

  lemma ProgrammeAndLogistics(rules: Rules, input: Input) returns (i: nat, j: nat)
    requires rules.templates == Templates && WellFormed(rules, StandardPlaces())
    requires Tabled(rules, StandardPlaces(), WeddingDay) && Tabled(rules, StandardPlaces(), Logistics)
    ensures LateProgramme(Plan(rules, input), i, j)
  {
    i := TaskOfPlan(rules, StandardPlaces(), input, WeddingDay);
    j := TaskOfPlan(rules, StandardPlaces(), input, Logistics);
    TaskDue(rules, input, i);
    TaskDue(rules, input, j);
    DependencyDescends(rules, StandardPlaces(), input, i, j);
  }

  ghost predicate LateProgramme(plan: seq<Item>, i: nat, j: nat) {
    && j < i < |plan| && plan[i].key == TaskKey(WeddingDay) && plan[j].key == TaskKey(Logistics)
    && plan[j].key in plan[i].dependsOn
    && plan[i].relativeDue == Some(-21) && plan[j].relativeDue == Some(-14)
  }

  /** The exception does occur: every generated plan holds the programme of the day and, before it, the later logistics. */
  lemma ProgrammeDueBeforeLogistics(input: Input)
    ensures exists i, j :: LateProgramme(Plan(StandardRules(), input), i, j)
  {
    StandardRulesWellFormed();
    StandardTabled(WeddingDay);
    StandardTabled(Logistics);
    var i, j := ProgrammeAndLogistics(StandardRules(), input);
  }

  /** A tabled, relevant category has its task in the plan. */
  lemma TaskOfPlan(rules: Rules, places: Places, input: Input, c: Category) returns (i: nat)
    requires Placed(rules, places) && Tabled(rules, places, c) && IsRelevant(c, input)
    ensures i < |Plan(rules, input)|
    ensures Plan(rules, input)[i].key == TaskKey(c) && Plan(rules, input)[i].category == c && Plan(rules, input)[i].kind == TaskItem
  {
    var e := TabledEntry(rules, places, input, c);
    i := CalledIsRendered(rules, places, input, e);
    TaskRendered(input, e, i);
  }
}

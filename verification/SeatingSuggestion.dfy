/** The suggestion handed to the organiser, and what its lists say. */
module SeatingSuggestion {
  import opened Wrappers
  import opened Ordering
  import opened Seating
  import opened SeatingProperties
  import opened SeatingConstraints
  import opened SeatingAlgorithm

  datatype Input = Input(
    guests: seq<Guest>, tables: seq<Table>, existing: seq<Existing>, constraints: seq<Constraint>)

  datatype Utilization = Utilization(tableId: Id, taken: nat, capacity: nat)

  datatype Suggestion = Suggestion(
    assignments: seq<Assignment>,
    unassignedGuestIds: seq<string>,
    hardConflicts: seq<string>,
    warnings: seq<string>,
    violatedOptionalPreferences: seq<string>,
    tableUtilization: seq<Utilization>,
    score: int)

  /** Ids are primary keys of their tables. */
  ghost predicate UniqueIds(input: Input) {
    UniqueGuests(input.guests) && UniqueTables(input.tables)
  }

  ghost function SceneOf(input: Input): Scene {
    Scene(GuestsById(input.guests), TablesById(input.tables), Elements(input.constraints))
  }

  function Render(issue: Issue): string {
    match issue
    case Contradictory(key) => "CONTRADICTORY:" + key
    case LockedAssignmentTableMissing(g) => "LOCKED_ASSIGNMENT_TABLE_MISSING:" + g.text
    case DuplicateAssignment(g) => "DUPLICATE_ASSIGNMENT:" + g.text
    case OverCapacity(t) => "OVER_CAPACITY:" + t.text
    case MultipleRequiredTables(h) => "MULTIPLE_REQUIRED_TABLES:household:" + h.text
    case GroupUnassigned(h) => "GROUP_UNASSIGNED:household:" + h.text
  }

  function RenderAll(issues: seq<Issue>): seq<string> {
    seq(|issues|, i requires 0 <= i < |issues| => Render(issues[i]))
  }

  function Conflicts(keys: seq<string>): seq<Issue> {
    seq(|keys|, i requires 0 <= i < |keys| => Contradictory(keys[i]))
  }

  // ---------------------------------------------------------------------------
  // Optional preferences

  /** Two guests without a table count as being together, as the program compares them. */
  predicate Violates(plan: Plan, c: Constraint) {
    && !c.required && Truthy(c.guestId) && Truthy(c.relatedGuestId)
    && var together := plan.TableOf(c.guestId.value) == plan.TableOf(c.relatedGuestId.value);
       (c.kind.PreferTogether? && !together) || (c.kind.PreferApart? && together)
  }

  function PreferenceText(c: Constraint): string {
    KindName(c.kind) + ":" + OrEmpty(c.guestId) + ":" + OrEmpty(c.relatedGuestId)
  }

  ghost function ViolatedPreferences(plan: Plan, rules: set<Constraint>): set<string> {
    set c | c in rules && Violates(plan, c) :: PreferenceText(c)
  }

  /** How many entries of the constraint list are violated, repetitions included. */
  function ViolationCount(plan: Plan, cs: seq<Constraint>): int {
    Sum(cs, c => if Violates(plan, c) then 1 else 0)
  }

  method CollectViolations(plan: Plan, cs: seq<Constraint>) returns (violated: seq<string>)
    ensures |violated| == ViolationCount(plan, cs)
    ensures Elements(violated) == ViolatedPreferences(plan, Elements(cs))
  {
    violated := [];
    var counter := c => if Violates(plan, c) then 1 else 0;
    for i := 0 to |cs|
      invariant |violated| == Sum(cs[..i], counter)
      invariant forall s :: s in violated <==>
        exists j :: 0 <= j < i && Violates(plan, cs[j]) && PreferenceText(cs[j]) == s
    {
      assert cs[..i + 1][..i] == cs[..i];
      if Violates(plan, cs[i]) {
        violated := violated + [PreferenceText(cs[i])];
      }
    }
    assert cs[..|cs|] == cs;
  }

  // ---------------------------------------------------------------------------
  // The result as a function of the scene

  predicate ByGuest(a: Assignment, b: Assignment) {
    Before(a.guestId.text, b.guestId.text)
  }

  /** xs are the assignments of the plan, in the order of their guests. */
  ghost predicate ListsSeats(xs: seq<Assignment>, seats: map<Id, Assignment>) {
    && Sorted(xs, ByGuest) && Distinct(xs)
    && forall a :: a in xs <==> a.guestId in seats && seats[a.guestId] == a
  }

  ghost function Unseated(guests: map<Id, Guest>, seats: map<Id, Assignment>): set<string> {
    set g | g in guests && g !in seats :: g.text
  }

  function Score(hard: nat, unassigned: nat, violations: int): int {
    var penalty := hard * 30 + unassigned * 10 + violations * 2;
    if 100 - penalty > 0 then 100 - penalty else 0
  }

  function UtilizationOf(plan: Plan, ts: seq<Table>): seq<Utilization> {
    seq(|ts|, i requires 0 <= i < |ts| => Utilization(ts[i].id, plan.Occupied(ts[i].id), ts[i].capacity))
  }

  /** out presents the final plan. */
  ghost predicate Presents(scene: Scene, final: Plan, tables: seq<Table>, cs: seq<Constraint>, out: Suggestion) {
    && ListsSeats(out.assignments, final.seats)
    && Enumerates(out.unassignedGuestIds, Unseated(scene.guests, final.seats))
    && out.hardConflicts == SortedSet(RenderAll(final.hard))
    && out.warnings == SortedSet(RenderAll(final.warnings))
    && Enumerates(out.violatedOptionalPreferences, ViolatedPreferences(final, scene.rules))
    && out.tableUtilization == UtilizationOf(final, tables)
    && out.score == Score(|final.hard|, |out.unassignedGuestIds|, ViolationCount(final, cs))
  }

  /** The plan that the scene, the existing assignments and the contradictions lead to. */
  ghost function FinalPlan(input: Input, keys: seq<string>): Plan {
    Allocate(SceneOf(input), input.existing, Conflicts(keys))
  }

  ghost predicate Outcome(input: Input, out: Suggestion) {
    exists keys :: Enumerates(keys, Contradictions(Elements(input.constraints))) &&
      Presents(SceneOf(input), FinalPlan(input, keys), input.tables, input.constraints, out)
  }

  /** The plan behind an outcome, with what every allocation guarantees. */
  lemma OutcomePlan(input: Input, out: Suggestion) returns (keys: seq<string>, final: Plan)
    requires UniqueIds(input) && Outcome(input, out)
    ensures Enumerates(keys, Contradictions(Elements(input.constraints))) && final == FinalPlan(input, keys)
    ensures Presents(SceneOf(input), final, input.tables, input.constraints, out)
    ensures Consistent(final, SceneOf(input).tables)
  {
    keys :| Enumerates(keys, Contradictions(Elements(input.constraints))) &&
      Presents(SceneOf(input), FinalPlan(input, keys), input.tables, input.constraints, out);
    final := FinalPlan(input, keys);
    SceneValid(input);
    AllocateSettles(SceneOf(input), input.existing, Conflicts(keys));
  }

  lemma SceneValid(input: Input)
    requires UniqueIds(input)
    ensures SceneOf(input).Valid()
  {
    GuestsIndexed(input.guests);
    TablesIndexed(input.tables);
  }

  method ListAssignments(plan: Plan, order: seq<Id>) returns (xs: seq<Assignment>)
    requires InOrder(order, plan.seats.Keys)
    requires forall g :: g in plan.seats ==> plan.seats[g].guestId == g
    ensures ListsSeats(xs, plan.seats)
  {
    assert forall i :: 0 <= i < |order| ==> order[i] in Elements(order);
    var values := seq(|order|, i requires 0 <= i < |order| => plan.seats[order[i]]);
    xs := Sort(values, ByGuest);
    BeforeIsTotal();
    SortCorrect(values, ByGuest);
    SortMembers(values, ByGuest);
    assert Distinct(values) by {
      assert forall i :: 0 <= i < |order| ==> values[i].guestId == order[i];
    }
    PermutationKeepsDistinct(values, xs);
    forall a ensures a in values <==> a.guestId in plan.seats && plan.seats[a.guestId] == a {
      if a.guestId in plan.seats && plan.seats[a.guestId] == a {
        assert a.guestId in Elements(order);
        var i :| 0 <= i < |order| && order[i] == a.guestId;
        assert values[i] == a;
      }
    }
  }

  method ListUnassigned(guests: seq<Guest>, seats: map<Id, Assignment>) returns (ids: seq<string>)
    requires UniqueGuests(guests)
    ensures Enumerates(ids, Unseated(GuestsById(guests), seats))
  {
    GuestsIndexed(guests);
    var left := [];
    for i := 0 to |guests|
      invariant forall s :: s in left <==> exists j :: 0 <= j < i && guests[j].id !in seats && guests[j].id.text == s
      invariant Distinct(left)
    {
      if guests[i].id !in seats {
        assert guests[i].id.text !in left;
        left := left + [guests[i].id.text];
      }
    }
    ids := Sort(left, Before);
    BeforeIsTotal();
    SortCorrect(left, Before);
    SortMembers(left, Before);
    PermutationKeepsDistinct(left, ids);
    forall s ensures s in left <==> s in Unseated(GuestsById(guests), seats) {
      if s in Unseated(GuestsById(guests), seats) {
        var g :| g in GuestsById(guests) && g !in seats && g.text == s;
        var j :| 0 <= j < |guests| && guests[j] == GuestsById(guests)[g];
      }
      if s in left {
        var j :| 0 <= j < |guests| && guests[j].id !in seats && guests[j].id.text == s;
        assert guests[j] in guests;
        assert guests[j].id in GuestsById(guests);
      }
    }
  }

  method BuildSuggestion(input: Input) returns (out: Suggestion)
    requires UniqueIds(input)
    ensures Outcome(input, out)
  {
    ghost var scene := SceneOf(input);
    SceneValid(input);
    var keys := ContradictoryConstraints(input.constraints);
    var tables := TablesById(input.tables);
    var before, order := SeatExistingAssignments(tables, input.existing, Conflicts(keys));
    var groups, households := GroupByHousehold(input.guests, before.seats.Keys);
    var queue := OrderGroups(groups, households, scene, before.seats.Keys);
    var final, seatedOrder := PlaceHouseholds(
      before, order, queue, input.tables, input.constraints,
      scene, before.seats.Keys, Households(scene.guests, before.seats.Keys));
    AllocateSettles(scene, input.existing, Conflicts(keys));
    var violated := CollectViolations(final, input.constraints);
    var assignments := ListAssignments(final, seatedOrder);
    var unassigned := ListUnassigned(input.guests, final.seats);
    out := Suggestion(
      assignments, unassigned, SortedSet(RenderAll(final.hard)), SortedSet(RenderAll(final.warnings)),
      SortedSet(violated), UtilizationOf(final, input.tables), Score(|final.hard|, |unassigned|, |violated|));
    assert Presents(scene, FinalPlan(input, keys), input.tables, input.constraints, out);
  }

  // ---------------------------------------------------------------------------
  // Accounting

  /** Every guest of the input has exactly one assignment or is listed as unassigned. */
  lemma EveryGuestAccountedFor(input: Input, out: Suggestion, g: Guest)
    requires UniqueIds(input) && Outcome(input, out) && g in input.guests
    ensures (exists a :: a in out.assignments && a.guestId == g.id) <==> g.id.text !in out.unassignedGuestIds
    ensures forall a, b :: a in out.assignments && b in out.assignments && a.guestId == b.guestId ==> a == b
  {
    GuestsIndexed(input.guests);
    var _, final := OutcomePlan(input, out);
    assert g.id.text in Elements(out.unassignedGuestIds) <==> g.id !in final.seats;
    if g.id in final.seats {
      assert final.seats[g.id] in out.assignments;
    }
  }

  ghost function SittingAmong(seats: map<Id, Assignment>, ts: seq<Table>): set<Id> {
    set g | g in seats && exists i :: 0 <= i < |ts| && ts[i].id == seats[g].tableId
  }

  lemma {:induction false} TablesSeatEverybody(plan: Plan, ts: seq<Table>)
    requires Counted(plan.seats, plan.count) && UniqueTables(ts)
    ensures Sum(ts, (t: Table) => plan.Occupied(t.id)) == |SittingAmong(plan.seats, ts)|
  {
    if ts == [] {
      assert SittingAmong(plan.seats, ts) == {};
    } else {
      var front, last := ts[..|ts| - 1], ts[|ts| - 1];
      TablesSeatEverybody(plan, front);
      SplitLastTable(plan.seats, ts);
    }
  }

  lemma SplitLastTable(seats: map<Id, Assignment>, ts: seq<Table>)
    requires UniqueTables(ts) && ts != []
    ensures var front, last := ts[..|ts| - 1], ts[|ts| - 1].id;
      |SittingAmong(seats, ts)| == |SittingAmong(seats, front)| + |SittingAt(seats, last)|
  {
    var front, last := ts[..|ts| - 1], ts[|ts| - 1].id;
    assert ts == front + [ts[|ts| - 1]];
    forall g ensures g in SittingAmong(seats, ts) <==> g in SittingAmong(seats, front) + SittingAt(seats, last) {
      if g in SittingAmong(seats, front) {
        var i :| 0 <= i < |front| && front[i].id == seats[g].tableId;
        assert ts[i].id == seats[g].tableId;
      }
      if g in SittingAt(seats, last) {
        assert ts[|ts| - 1].id == seats[g].tableId;
      }
    }
    assert SittingAmong(seats, ts) == SittingAmong(seats, front) + SittingAt(seats, last);
    assert SittingAmong(seats, front) !! SittingAt(seats, last);
  }

  function Taken(u: Utilization): int {
    u.taken
  }

  lemma {:induction false} UtilizationSum(ts: seq<Table>, us: seq<Utilization>, plan: Plan)
    requires |us| == |ts| && forall i :: 0 <= i < |ts| ==> us[i].taken == plan.Occupied(ts[i].id)
    ensures Sum(us, Taken) == Sum(ts, (t: Table) => plan.Occupied(t.id))
  {
    if ts != [] {
      UtilizationSum(ts[..|ts| - 1], us[..|us| - 1], plan);
    }
  }

  lemma AssignmentsSize(xs: seq<Assignment>, seats: map<Id, Assignment>)
    requires ListsSeats(xs, seats) && forall g :: g in seats ==> seats[g].guestId == g
    ensures |xs| == |seats.Keys|
  {
    var guests := seq(|xs|, i requires 0 <= i < |xs| => xs[i].guestId);
    forall i, j | 0 <= i < j < |xs| ensures guests[i] != guests[j] {
      assert xs[i] in xs && xs[j] in xs;
    }
    forall g ensures g in guests <==> g in seats.Keys {
      if g in seats {
        assert seats[g] in xs;
        var i :| 0 <= i < |xs| && xs[i] == seats[g];
        assert guests[i] == g;
      }
      if g in guests {
        var i :| 0 <= i < |xs| && guests[i] == g;
        assert xs[i] in xs;
      }
    }
    DistinctSize(guests);
    assert Elements(guests) == seats.Keys;
  }

  lemma EverybodySitsAtSomeTable(plan: Plan, ts: seq<Table>)
    requires UniqueTables(ts) && Located(plan.seats, TablesById(ts))
    ensures SittingAmong(plan.seats, ts) == plan.seats.Keys
  {
    TablesIndexed(ts);
    forall g | g in plan.seats ensures g in SittingAmong(plan.seats, ts) {
      var t := TablesById(ts)[plan.seats[g].tableId];
      var i :| 0 <= i < |ts| && ts[i] == t;
    }
  }

  lemma WithinEveryCapacity(plan: Plan, ts: seq<Table>)
    requires UniqueTables(ts) && WithinCapacity(plan, TablesById(ts))
    ensures forall i :: 0 <= i < |ts| ==> UtilizationOf(plan, ts)[i].taken <= ts[i].capacity
  {
    TablesIndexed(ts);
    forall i | 0 <= i < |ts| ensures UtilizationOf(plan, ts)[i].taken <= ts[i].capacity {
      assert ts[i] in ts;
    }
  }

  /** Each table is within its capacity, and the tables together seat every assignment. */
  lemma UtilizationAccountsForAssignments(input: Input, out: Suggestion)
    requires UniqueIds(input) && Outcome(input, out)
    ensures |out.tableUtilization| == |input.tables|
    ensures forall i :: 0 <= i < |input.tables| ==> out.tableUtilization[i].taken <= input.tables[i].capacity
    ensures Sum(out.tableUtilization, Taken) == |out.assignments|
  {
    var _, final := OutcomePlan(input, out);
    UtilizationSum(input.tables, out.tableUtilization, final);
    TablesSeatEverybody(final, input.tables);
    AssignmentsSize(out.assignments, final.seats);
    EverybodySitsAtSomeTable(final, input.tables);
    WithinEveryCapacity(final, input.tables);
  }

  // ---------------------------------------------------------------------------
  // Why a guest is left without a seat

  /** The reported utilisation leaves no admissible table with room for the group. */
  ghost predicate ReportedFull(input: Input, out: Suggestion, members: set<Id>)
    requires members <= SceneOf(input).guests.Keys && |out.tableUtilization| == |input.tables|
  {
    forall i :: 0 <= i < |input.tables| && Admissible(SceneOf(input), members, input.tables[i].id) ==>
      out.tableUtilization[i].taken + |members| > input.tables[i].capacity
  }

  lemma NoRoomIsReported(input: Input, out: Suggestion, final: Plan, members: set<Id>)
    requires UniqueIds(input) && members <= SceneOf(input).guests.Keys
    requires out.tableUtilization == UtilizationOf(final, input.tables)
    requires forall t :: Admissible(SceneOf(input), members, t) ==> Free(final, SceneOf(input).tables, t) < |members|
    ensures ReportedFull(input, out, members)
  {
    TablesIndexed(input.tables);
    forall i | 0 <= i < |input.tables| && Admissible(SceneOf(input), members, input.tables[i].id)
      ensures out.tableUtilization[i].taken + |members| > input.tables[i].capacity
    {
      assert input.tables[i] in input.tables;
    }
  }

  lemma RenderedIn(issue: Issue, issues: seq<Issue>)
    requires issue in issues
    ensures Render(issue) in SortedSet(RenderAll(issues))
  {
    var i :| 0 <= i < |issues| && issues[i] == issue;
    assert RenderAll(issues)[i] == Render(issue);
    assert Render(issue) in Elements(RenderAll(issues)) && Elements(SortedSet(RenderAll(issues))) == Elements(RenderAll(issues));
  }

  /** The members are all unassigned, for a reason that the suggestion reports. */
  ghost predicate LeftTogether(input: Input, out: Suggestion, household: Id, members: set<Id>) {
    && members <= SceneOf(input).guests.Keys
    && (forall m :: m in members ==>
          m.text in out.unassignedGuestIds && SceneOf(input).guests[m].householdId == household)
    && |out.tableUtilization| == |input.tables|
    && (|| (|RequiredTables(SceneOf(input), members)| > 1 &&
            Render(MultipleRequiredTables(household)) in out.hardConflicts)
        || (Render(GroupUnassigned(household)) in out.warnings && ReportedFull(input, out, members)))
  }

  /**
   A guest of the input is left unassigned only together with the whole household that was
   to be placed, and only for one of two reported reasons: rules that name several tables,
   or no admissible table with enough free seats in the final utilisation.
   */
  lemma UnassignedHasReason(input: Input, out: Suggestion, g: Guest)
    requires UniqueIds(input) && Outcome(input, out)
    requires g in input.guests && g.id.text in out.unassignedGuestIds
    ensures exists members: set<Id> :: g.id in members && LeftTogether(input, out, g.householdId, members)
  {
    var keys, final := OutcomePlan(input, out);
    var scene := SceneOf(input);
    SceneValid(input);
    GuestsIndexed(input.guests);
    var seated := Seated(scene, input.existing, Conflicts(keys));
    assert g.id.text in Unseated(scene.guests, final.seats);
    assert g.id !in final.seats;
    AllocateSettles(scene, input.existing, Conflicts(keys));
    assert g.id !in seated;
    var members := Members(scene.guests, seated, g.householdId);
    assert g.id in members;
    HouseholdWhole(scene, input.existing, Conflicts(keys), g.householdId);
    assert forall m :: m in members && m !in final.seats ==> m.text in Unseated(scene.guests, final.seats);
    assert Elements(out.unassignedGuestIds) == Unseated(scene.guests, final.seats);
    if LeftForConflict(final, scene, g.householdId, members) {
      RenderedIn(MultipleRequiredTables(g.householdId), final.hard);
    } else {
      RenderedIn(GroupUnassigned(g.householdId), final.warnings);
      NoRoomIsReported(input, out, final, members);
    }
    assert LeftTogether(input, out, g.householdId, members);
  }

  // ---------------------------------------------------------------------------
  // Order independence

  /** b lists the same guests, tables and constraints as a, in any order. */
  ghost predicate Shuffled(a: Input, b: Input) {
    && multiset(a.guests) == multiset(b.guests)
    && multiset(a.tables) == multiset(b.tables)
    && multiset(a.constraints) == multiset(b.constraints)
    && a.existing == b.existing
  }

  lemma SameMembers<T>(xs: seq<T>, ys: seq<T>)
    requires multiset(xs) == multiset(ys)
    ensures Elements(xs) == Elements(ys)
  {
    forall x ensures x in xs <==> x in ys {
      assert x in xs <==> x in multiset(xs);
      assert x in ys <==> x in multiset(ys);
    }
  }

  lemma ShuffledUnique(a: Input, b: Input)
    requires UniqueIds(a) && Shuffled(a, b)
    ensures UniqueIds(b)
  {
    assert Distinct(a.guests) && Distinct(a.tables);
    PermutationKeepsDistinct(a.guests, b.guests);
    PermutationKeepsDistinct(a.tables, b.tables);
    SameMembers(a.guests, b.guests);
    SameMembers(a.tables, b.tables);
    GuestsIndexed(a.guests);
    TablesIndexed(a.tables);
    forall i, j | 0 <= i < j < |b.guests| ensures b.guests[i].id != b.guests[j].id {
      assert b.guests[i] in Elements(b.guests) && b.guests[j] in Elements(b.guests);
    }
    forall i, j | 0 <= i < j < |b.tables| ensures b.tables[i].id != b.tables[j].id {
      assert b.tables[i] in Elements(b.tables) && b.tables[j] in Elements(b.tables);
    }
  }

  lemma GuestsByIdShuffled(gs: seq<Guest>, hs: seq<Guest>)
    requires UniqueGuests(gs) && UniqueGuests(hs) && Elements(gs) == Elements(hs)
    ensures GuestsById(gs) == GuestsById(hs)
  {
    GuestsIndexed(gs);
    GuestsIndexed(hs);
    forall id ensures id in GuestsById(gs) <==> id in GuestsById(hs) {
      if id in GuestsById(gs) { assert GuestsById(gs)[id] in Elements(hs); }
      if id in GuestsById(hs) { assert GuestsById(hs)[id] in Elements(gs); }
    }
    forall id | id in GuestsById(gs) ensures GuestsById(gs)[id] == GuestsById(hs)[id] {
      assert GuestsById(gs)[id] in Elements(hs);
    }
  }

  lemma TablesByIdShuffled(ts: seq<Table>, us: seq<Table>)
    requires UniqueTables(ts) && UniqueTables(us) && Elements(ts) == Elements(us)
    ensures TablesById(ts) == TablesById(us)
  {
    TablesIndexed(ts);
    TablesIndexed(us);
    forall id ensures id in TablesById(ts) <==> id in TablesById(us) {
      if id in TablesById(ts) { assert TablesById(ts)[id] in Elements(us); }
      if id in TablesById(us) { assert TablesById(us)[id] in Elements(ts); }
    }
    forall id | id in TablesById(ts) ensures TablesById(ts)[id] == TablesById(us)[id] {
      assert TablesById(ts)[id] in Elements(us);
    }
  }

  lemma SameScene(a: Input, b: Input)
    requires UniqueIds(a) && Shuffled(a, b)
    ensures SceneOf(a) == SceneOf(b)
  {
    ShuffledUnique(a, b);
    SameMembers(a.guests, b.guests);
    SameMembers(a.tables, b.tables);
    SameMembers(a.constraints, b.constraints);
    GuestsByIdShuffled(a.guests, b.guests);
    TablesByIdShuffled(a.tables, b.tables);
  }

  lemma ListsSeatsUnique(xs: seq<Assignment>, ys: seq<Assignment>, seats: map<Id, Assignment>)
    requires ListsSeats(xs, seats) && ListsSeats(ys, seats)
    ensures xs == ys
  {
    BeforeIsTotal();
    assert forall a :: a in xs <==> a in ys;
    assert Elements(xs) == Elements(ys);
    DistinctSame(xs, ys);
    SortedUnique(xs, ys, ByGuest);
  }

  /** Shuffling the list of tables shuffles what is reported about them, and nothing else. */
  lemma {:induction false} UtilizationShuffled(plan: Plan, ts: seq<Table>, us: seq<Table>)
    requires multiset(ts) == multiset(us)
    ensures multiset(UtilizationOf(plan, ts)) == multiset(UtilizationOf(plan, us))
  {
    forall x ensures multiset(UtilizationOf(plan, ts))[x] == multiset(UtilizationOf(plan, us))[x] {
      OccurrencesAsSum(plan, ts, x);
      OccurrencesAsSum(plan, us, x);
      SumPermutation(ts, us, (t: Table) => if Utilization(t.id, plan.Occupied(t.id), t.capacity) == x then 1 else 0);
    }
  }

  lemma {:induction false} OccurrencesAsSum(plan: Plan, ts: seq<Table>, x: Utilization)
    ensures multiset(UtilizationOf(plan, ts))[x] ==
            Sum(ts, (t: Table) => if Utilization(t.id, plan.Occupied(t.id), t.capacity) == x then 1 else 0)
  {
    if ts != [] {
      var front, last := ts[..|ts| - 1], ts[|ts| - 1];
      OccurrencesAsSum(plan, front, x);
      assert UtilizationOf(plan, ts) ==
        UtilizationOf(plan, front) + [Utilization(last.id, plan.Occupied(last.id), last.capacity)];
    }
  }

  lemma PresentationsAgree(
      scene: Scene, final: Plan, ts: seq<Table>, us: seq<Table>, cs: seq<Constraint>, ds: seq<Constraint>,
      outA: Suggestion, outB: Suggestion)
    requires Presents(scene, final, ts, cs, outA) && Presents(scene, final, us, ds, outB)
    requires multiset(cs) == multiset(ds)
    ensures outA.(tableUtilization := []) == outB.(tableUtilization := [])
  {
    ListsSeatsUnique(outA.assignments, outB.assignments, final.seats);
    EnumerationUnique(outA.unassignedGuestIds, outB.unassignedGuestIds, Unseated(scene.guests, final.seats));
    EnumerationUnique(outA.violatedOptionalPreferences, outB.violatedOptionalPreferences,
                      ViolatedPreferences(final, scene.rules));
    SumPermutation(cs, ds, c => if Violates(final, c) then 1 else 0);
  }

  /**
   The suggestion depends on who is listed, not on the order of the lists: shuffling the
   guests, the tables and the constraints changes nothing but the order in which the
   tables are reported.
   */
  lemma OrderDoesNotMatter(a: Input, b: Input, outA: Suggestion, outB: Suggestion)
    requires UniqueIds(a) && Shuffled(a, b)
    requires Outcome(a, outA) && Outcome(b, outB)
    ensures outA.(tableUtilization := []) == outB.(tableUtilization := [])
    ensures multiset(outA.tableUtilization) == multiset(outB.tableUtilization)
  {
    SameScene(a, b);
    ShuffledUnique(a, b);
    var keys, final := OutcomePlan(a, outA);
    var keys', final' := OutcomePlan(b, outB);
    EnumerationUnique(keys, keys', Contradictions(SceneOf(a).rules));
    PresentationsAgree(SceneOf(a), final, a.tables, b.tables, a.constraints, b.constraints, outA, outB);
    UtilizationShuffled(final, a.tables, b.tables);
  }
}
